/** What discovery promises: every candidate is accounted for once, and nothing outside the package is returned. */
module SkillsFound {
  import opened Wrappers
  import opened Text
  import opened FileSystem
  import opened Paths
  import opened PackageFiles
  import opened Ordering
  import opened SkillDiscovery
  import Containment
  import Names

  function ByDirectory(): Finding -> string { (f: Finding) => f.dirName }

  ghost predicate DistinctBy<T>(s: seq<T>, key: T -> string) {
    forall i, j :: 0 <= i < j < |s| ==> key(s[i]) != key(s[j])
  }

  lemma ExamineNames(d: Disk, root: string, name: string)
    requires WellFormed(d.host)
    ensures Examine(d, root, name).Accepted? ==> Examine(d, root, name).skill.name == name
    ensures Examine(d, root, name).Skipped? ==> Examine(d, root, name).finding.dirName == name
    ensures Examine(d, root, name).NotACandidate? <==> !IsCandidate(d, root, name)
  {
  }

  lemma {:induction false} SkillIff(d: Disk, root: string, names: seq<string>, s: Skill)
    requires WellFormed(d.host)
    ensures s in SkillsAmong(d, root, names) <==> s.name in names && Examine(d, root, s.name) == Accepted(s)
  {
    if names != [] {
      var n, outcome := |names| - 1, Examine(d, root, names[|names| - 1]);
      SkillIff(d, root, names[..n], s);
      ExamineNames(d, root, names[n]);
      assert s.name in names <==> s.name in names[..n] || s.name == names[n];
      assert SkillsAmong(d, root, names) ==
             SkillsAmong(d, root, names[..n]) + if outcome.Accepted? then [outcome.skill] else [];
    }
  }

  lemma {:induction false} SkillsAreDistinct(d: Disk, root: string, names: seq<string>)
    requires WellFormed(d.host) && Distinct(names)
    ensures DistinctBy(SkillsAmong(d, root, names), ByName())
  {
    if names != [] {
      var n, before := |names| - 1, SkillsAmong(d, root, names[..|names| - 1]);
      SkillsAreDistinct(d, root, names[..n]);
      ExamineNames(d, root, names[n]);
      forall i | 0 <= i < |before| ensures before[i].name != names[n] {
        SkillIff(d, root, names[..n], before[i]);
      }
    }
  }

  lemma {:induction false} FindingIff(d: Disk, root: string, names: seq<string>, f: Finding)
    requires WellFormed(d.host)
    ensures f in FindingsAmong(d, root, names) <==> f.dirName in names && Examine(d, root, f.dirName) == Skipped(f)
  {
    if names != [] {
      var n, outcome := |names| - 1, Examine(d, root, names[|names| - 1]);
      FindingIff(d, root, names[..n], f);
      ExamineNames(d, root, names[n]);
      assert f.dirName in names <==> f.dirName in names[..n] || f.dirName == names[n];
      assert FindingsAmong(d, root, names) ==
             FindingsAmong(d, root, names[..n]) + if outcome.Skipped? then [outcome.finding] else [];
    }
  }

  lemma {:induction false} FindingsAreDistinct(d: Disk, root: string, names: seq<string>)
    requires WellFormed(d.host) && Distinct(names)
    ensures DistinctBy(FindingsAmong(d, root, names), ByDirectory())
  {
    if names != [] {
      var n, before := |names| - 1, FindingsAmong(d, root, names[..|names| - 1]);
      FindingsAreDistinct(d, root, names[..n]);
      ExamineNames(d, root, names[n]);
      forall i | 0 <= i < |before| ensures before[i].dirName != names[n] {
        FindingIff(d, root, names[..n], before[i]);
      }
    }
  }

  /** The skills come from the accepted names and the findings from the skipped ones, one each. */
  lemma OfNames(d: Disk, root: string, names: seq<string>)
    requires WellFormed(d.host) && Distinct(names)
    ensures forall s :: s in SkillsAmong(d, root, names) <==> s.name in names && Examine(d, root, s.name) == Accepted(s)
    ensures forall f :: f in FindingsAmong(d, root, names) <==>
              f.dirName in names && Examine(d, root, f.dirName) == Skipped(f)
    ensures DistinctBy(SkillsAmong(d, root, names), ByName())
    ensures DistinctBy(FindingsAmong(d, root, names), ByDirectory())
  {
    forall s ensures s in SkillsAmong(d, root, names) <==> s.name in names && Examine(d, root, s.name) == Accepted(s) {
      SkillIff(d, root, names, s);
    }
    forall f ensures f in FindingsAmong(d, root, names) <==>
      f.dirName in names && Examine(d, root, f.dirName) == Skipped(f) {
      FindingIff(d, root, names, f);
    }
    SkillsAreDistinct(d, root, names);
    FindingsAreDistinct(d, root, names);
  }

  ghost predicate HasSkill(skills: seq<Skill>, name: string) {
    exists s :: s in skills && s.name == name
  }

  ghost predicate HasFinding(findings: seq<Finding>, name: string) {
    exists f :: f in findings && f.dirName == name
  }

  /** The listing a discovery went through, and what it made of it. */
  lemma FoundFromListing(d: Disk, root: string)
    requires WellListed(d) && Discover(d, root).Found?
    ensures var listing := ReadDir(d, SkillsPath(d, root));
            && listing.Some? && Distinct(listing.value)
            && Discover(d, root).skills == SortBy(SkillsAmong(d, root, listing.value), ByName())
            && Discover(d, root).findings == FindingsAmong(d, root, listing.value)
  {
    var listing := ReadDir(d, SkillsPath(d, root));
    assert ListsChildren(d.host, Stat(d.host, SkillsPath(d, root)).at, listing.value);
  }

  /** One child's place in the result. */
  lemma ChildOnce(d: Disk, root: string, names: seq<string>, name: string)
    requires WellFormed(d.host) && Distinct(names) && name in names
    ensures HasSkill(SkillsAmong(d, root, names), name) <==> Examine(d, root, name).Accepted?
    ensures HasFinding(FindingsAmong(d, root, names), name) <==> Examine(d, root, name).Skipped?
    ensures Examine(d, root, name).NotACandidate? <==> !IsCandidate(d, root, name)
  {
    OfNames(d, root, names);
    ExamineNames(d, root, name);
    if Examine(d, root, name).Accepted? {
      assert Examine(d, root, name).skill in SkillsAmong(d, root, names);
    }
    if Examine(d, root, name).Skipped? {
      assert Examine(d, root, name).finding in FindingsAmong(d, root, names);
    }
  }

  /**
   * When the skills location is valid and readable, every child directory ends up as exactly one returned skill or
   * exactly one finding, every other child as neither, and the skills come in strictly increasing order of name.
   */
  lemma EveryCandidateOnce(d: Disk, root: string)
    requires WellListed(d) && Discover(d, root).Found?
    ensures ReadDir(d, SkillsPath(d, root)).Some?
    ensures var found, names := Discover(d, root), ReadDir(d, SkillsPath(d, root)).value;
            && (forall name :: name in names ==>
                  && (IsCandidate(d, root, name) ==>
                        (HasSkill(found.skills, name) <==> !HasFinding(found.findings, name)))
                  && (!IsCandidate(d, root, name) ==>
                        !HasSkill(found.skills, name) && !HasFinding(found.findings, name)))
            && (forall s :: s in found.skills ==> s.name in names)
            && (forall f :: f in found.findings ==> f.dirName in names)
            && StrictlySorted(found.skills, ByName()) && DistinctBy(found.findings, ByDirectory())
  {
    FoundFromListing(d, root);
    AccountOf(d, root, ReadDir(d, SkillsPath(d, root)).value);
  }

  lemma AccountOf(d: Disk, root: string, names: seq<string>)
    requires WellFormed(d.host) && Distinct(names)
    ensures var skills, findings := SortBy(SkillsAmong(d, root, names), ByName()), FindingsAmong(d, root, names);
            && (forall name :: name in names ==>
                  && (IsCandidate(d, root, name) ==> (HasSkill(skills, name) <==> !HasFinding(findings, name)))
                  && (!IsCandidate(d, root, name) ==> !HasSkill(skills, name) && !HasFinding(findings, name)))
            && (forall s :: s in skills ==> s.name in names)
            && (forall f :: f in findings ==> f.dirName in names)
            && StrictlySorted(skills, ByName()) && DistinctBy(findings, ByDirectory())
  {
    OfNames(d, root, names);
    SortIsStrict(SkillsAmong(d, root, names), ByName());
    forall name | name in names
      ensures HasSkill(SkillsAmong(d, root, names), name) <==> Examine(d, root, name).Accepted?
      ensures HasFinding(FindingsAmong(d, root, names), name) <==> Examine(d, root, name).Skipped?
      ensures Examine(d, root, name).NotACandidate? <==> !IsCandidate(d, root, name)
    {
      ChildOnce(d, root, names, name);
    }
  }

  // ------------------------------------------------------------ containment

  lemma SkillNamesArePlain(name: string)
    requires Names.IsValid(name, Names.SkillName)
    ensures ValidName(name) && '\\' !in name
  {
    assert name[0] in name;
    assert forall c :: c in name ==> Names.IsAllowed(c, Names.SkillName);
  }

  lemma PlainSkillNames(name: string, child: string)
    requires Names.IsValid(name, Names.SkillName)
    ensures PlainNames([SKILLS, name])
    ensures ValidName(child) && '\\' !in child ==> PlainNames([SKILLS, name, child])
  {
    SkillNamesArePlain(name);
  }

  lemma SkillPaths(d: Disk, root: string, name: string, child: string)
    requires WellFormed(d.host)
    ensures Resolve(d.host, root) + [SKILLS, name] == SkillsPath(d, root) + [name]
    ensures Resolve(d.host, root) + [SKILLS, name, child] == SkillsPath(d, root) + [name, child]
  {
  }

  /** A file in the skill directory of this name lies under the real root when the check lets it pass. */
  lemma ChildIsInside(d: Disk, root: string, name: string, child: string)
    requires WellFormed(d.host) && Names.IsValid(name, Names.SkillName) && ValidName(child) && '\\' !in child
    requires Stat(d.host, SkillsPath(d, root) + [name, child]).Reached?
    requires IsContained(d.host, root, JoinWith([SKILLS, name, child], '/'))
    ensures RealRoot(d.host, root) <= Stat(d.host, SkillsPath(d, root) + [name, child]).at
  {
    PlainSkillNames(name, child);
    SkillPaths(d, root, name, child);
    ContainedMeansInside(d.host, root, [SKILLS, name, child]);
  }

  lemma DirectoryIsInside(d: Disk, root: string, name: string)
    requires WellFormed(d.host) && Names.IsValid(name, Names.SkillName)
    requires Stat(d.host, SkillsPath(d, root) + [name]).Reached?
    requires IsContained(d.host, root, JoinWith([SKILLS, name], '/'))
    ensures RealRoot(d.host, root) <= Stat(d.host, SkillsPath(d, root) + [name]).at
  {
    PlainSkillNames(name, "");
    SkillPaths(d, root, name, "");
    ContainedMeansInside(d.host, root, [SKILLS, name]);
  }

  ghost predicate SidecarInside(d: Disk, root: string, name: string, kind: string)
    requires WellFormed(d.host)
  {
    var p := SkillsPath(d, root) + [name, kind];
    IsDirectory(d.host, p) && RealRoot(d.host, root) <= Stat(d.host, p).at
  }

  lemma {:induction false} SidecarsAreInside(d: Disk, root: string, name: string, children: seq<string>,
                                             kinds: seq<string>)
    requires WellFormed(d.host) && Names.IsValid(name, Names.SkillName)
    requires forall kind :: kind in kinds ==> ValidName(kind) && '\\' !in kind
    ensures forall kind :: kind in SidecarsOf(d, root, name, children, kinds) ==> SidecarInside(d, root, name, kind)
  {
    if kinds != [] {
      var n := |kinds| - 1;
      assert kinds[n] in kinds && forall kind :: kind in kinds[..n] ==> kind in kinds;
      SidecarsAreInside(d, root, name, children, kinds[..n]);
      if IsSidecar(d, root, name, children, kinds[n]) {
        ChildIsInside(d, root, name, kinds[n]);
      }
    }
  }

  lemma NamesArePlain()
    ensures ValidName(SKILL_MD) && '\\' !in SKILL_MD
    ensures forall kind :: kind in SIDECARS ==> ValidName(kind) && '\\' !in kind
  {
  }

  lemma SkillFileIsInside(d: Disk, root: string, name: string)
    requires WellFormed(d.host) && Names.IsValid(name, Names.SkillName)
    requires IsRegularFile(d.host, SkillsPath(d, root) + [name] + [SKILL_MD])
    requires IsContained(d.host, root, JoinWith([SKILLS, name, SKILL_MD], '/'))
    ensures RealRoot(d.host, root) <= Stat(d.host, SkillsPath(d, root) + [name] + [SKILL_MD]).at
  {
    NamesArePlain();
    assert SkillsPath(d, root) + [name] + [SKILL_MD] == SkillsPath(d, root) + [name, SKILL_MD];
    ChildIsInside(d, root, name, SKILL_MD);
  }

  lemma RelativeDirectory(at: Path, name: string)
    requires ValidPath(at) && ValidName(name)
    ensures PackageRelative(Render(at), Render(at + [SKILLS] + [name])) == "skills/" + name
  {
    var names := [SKILLS, name];
    assert at + [SKILLS] + [name] == at + names;
    Containment.RelativeRender(at, at + names);
    Containment.RelativePrefix(at, at + names);
    assert (at + names)[|at|..] == names;
    assert names[1..] == [name];
    assert JoinWith(names, '/') == "skills" + ['/'] + name;
  }

  /**
   * Where a returned skill lives: in its own directory, whose links, like those of its SKILL.md and sidecars, stay in
   * the package.
   */
  ghost predicate LivesInside(d: Disk, root: string, skill: Skill)
    requires WellFormed(d.host)
  {
    && skill.dir == SkillsPath(d, root) + [skill.name] && skill.skillMd == skill.dir + [SKILL_MD]
    && skill.relDir == "skills/" + skill.name
    && Stat(d.host, skill.dir).Reached? && RealRoot(d.host, root) <= Stat(d.host, skill.dir).at
    && IsRegularFile(d.host, skill.skillMd) && RealRoot(d.host, root) <= Stat(d.host, skill.skillMd).at
    && forall kind :: kind in skill.sidecars ==> SidecarInside(d, root, skill.name, kind)
  }

  /** What examining found out about an accepted child. */
  lemma AcceptedFacts(d: Disk, root: string, name: string)
    requires WellFormed(d.host) && Examine(d, root, name).Accepted?
    ensures var skill, dir := Examine(d, root, name).skill, SkillsPath(d, root) + [name];
            && Names.IsValid(name, Names.SkillName) && skill.name == name && skill.dir == dir
            && skill.skillMd == dir + [SKILL_MD]
            && skill.relDir == PackageRelative(Render(Resolve(d.host, root)), Render(dir))
            && IsContained(d.host, root, JoinWith([SKILLS, name], '/')) && Stat(d.host, dir).Reached?
            && IsContained(d.host, root, JoinWith([SKILLS, name, SKILL_MD], '/'))
            && IsRegularFile(d.host, dir + [SKILL_MD])
            && skill.sidecars == SidecarsOf(d, root, name, ReadDir(d, dir).value, SIDECARS)
  {
  }

  lemma AcceptedLivesInside(d: Disk, root: string, name: string)
    requires WellFormed(d.host) && Examine(d, root, name).Accepted?
    ensures Names.IsValid(name, Names.SkillName) && LivesInside(d, root, Examine(d, root, name).skill)
  {
    AcceptedFacts(d, root, name);
    FilesLiveInside(d, root, Examine(d, root, name).skill, ReadDir(d, SkillsPath(d, root) + [name]).value);
  }

  lemma FilesLiveInside(d: Disk, root: string, skill: Skill, children: seq<string>)
    requires WellFormed(d.host) && Names.IsValid(skill.name, Names.SkillName)
    requires skill.dir == SkillsPath(d, root) + [skill.name] && skill.skillMd == skill.dir + [SKILL_MD]
    requires skill.relDir == PackageRelative(Render(Resolve(d.host, root)), Render(skill.dir))
    requires IsContained(d.host, root, JoinWith([SKILLS, skill.name], '/')) && Stat(d.host, skill.dir).Reached?
    requires IsContained(d.host, root, JoinWith([SKILLS, skill.name, SKILL_MD], '/'))
    requires IsRegularFile(d.host, skill.skillMd)
    requires skill.sidecars == SidecarsOf(d, root, skill.name, children, SIDECARS)
    ensures LivesInside(d, root, skill)
  {
    DirectoryIsInside(d, root, skill.name);
    SkillFileIsInside(d, root, skill.name);
    NamesArePlain();
    SidecarsAreInside(d, root, skill.name, children, SIDECARS);
    SkillNamesArePlain(skill.name);
    RelativeDirectory(Resolve(d.host, root), skill.name);
  }

  /** Every returned skill is named like its directory, validly, and lives inside the package. */
  lemma SkillsLiveInside(d: Disk, root: string)
    requires WellListed(d) && Discover(d, root).Found?
    ensures forall s :: s in Discover(d, root).skills ==>
              Names.IsValid(s.name, Names.SkillName) && LivesInside(d, root, s)
  {
    FoundFromListing(d, root);
    OfNames(d, root, ReadDir(d, SkillsPath(d, root)).value);
    forall s | s in Discover(d, root).skills ensures Names.IsValid(s.name, Names.SkillName) && LivesInside(d, root, s) {
      AcceptedLivesInside(d, root, s.name);
    }
  }

  lemma RealPathStats(h: Host, p: Path)
    requires WellFormed(h) && Canonical(h, p)
    ensures Stat(h, p) == Reached(p, h.linkLimit) && ValidPath(p) && Resolve(h, Render(p)) == p
  {
    OsResolveRender(h, p);
    WalkCanonical(h, p, h.linkLimit);
    NormalizeRender(p);
  }

  lemma RealDirectoryIsContained(h: Host, root: Path, name: string)
    requires WellFormed(h) && Canonical(h, root) && Canonical(h, root + [name]) && '\\' !in name
    ensures IsContained(h, Render(root), name)
  {
    RealPathStats(h, root);
    RealPathStats(h, root + [name]);
    assert ValidName((root + [name])[|root|]);
    Containment.CanonicalRoot(h, root);
    assert JoinWith([name], '/') == name;
    ContainedMeansInside(h, Render(root), [name]);
  }

  lemma DiscoveryReads(d: Disk, root: string, at: Path)
    requires WellFormed(d.host) && at in d.listings && at in d.host.nodes && d.host.nodes[at].Directory?
    requires Present(d.host, SkillsPath(d, root)) && IsContained(d.host, root, SKILLS)
    requires Stat(d.host, SkillsPath(d, root)).Reached? && Stat(d.host, SkillsPath(d, root)).at == at
    ensures Discover(d, root).Found? && ReadDir(d, SkillsPath(d, root)) == Some(d.listings[at])
  {
  }

  lemma RealChildIsPresent(h: Host, root: Path, name: string)
    requires WellFormed(h) && Canonical(h, root) && Canonical(h, root + [name])
    ensures Present(h, root + [name])
  {
    RealPathStats(h, root);
    assert Parent(root + [name]) == root;
  }

  /** In an ordinary package, with a real `skills` directory that can be read, discovery does read it. */
  lemma RealSkillsAreFound(d: Disk, root: Path)
    requires WellListed(d) && Canonical(d.host, root)
    requires root + [SKILLS] in d.host.nodes && d.host.nodes[root + [SKILLS]].Directory?
    requires root + [SKILLS] in d.listings
    ensures Discover(d, Render(root)).Found?
    ensures ReadDir(d, SkillsPath(d, Render(root))) == Some(d.listings[root + [SKILLS]])
  {
    RealPathStats(d.host, root);
    RealPathStats(d.host, root + [SKILLS]);
    RealDirectoryIsContained(d.host, root, SKILLS);
    RealChildIsPresent(d.host, root, SKILLS);
    DiscoveryReads(d, Render(root), root + [SKILLS]);
  }
}
