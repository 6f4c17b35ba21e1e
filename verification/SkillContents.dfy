/** What a returned skill holds, and which child directories become skills, read off the package itself. */
module SkillContents {
  import opened Wrappers
  import opened Text
  import opened FileSystem
  import opened Paths
  import opened PackageFiles
  import opened SkillDiscovery
  import opened SkillsFound
  import F = SkillFrontmatter
  import Names
  import Ordering

  // ------------------------------------------------------------ the frontmatter

  /** The frontmatter rules: each field that is there has its type and its length, and the name is the directory's. */
  ghost predicate GoodFrontmatter(entries: map<string, F.Value>, dirName: string) {
    && "name" in entries && entries["name"] == F.Str(dirName) && Names.IsValid(dirName, Names.SkillName)
    && "description" in entries && entries["description"].Str? && |entries["description"].text| <= 1024
    && (exists c :: c in entries["description"].text && !IsSpace(c))
    && ("license" in entries ==> entries["license"].Str?)
    && ("compatibility" in entries ==>
          entries["compatibility"].Str? && 1 <= |entries["compatibility"].text| <= 500)
    && ("metadata" in entries ==>
          && entries["metadata"].Mapping?
          && forall k :: k in entries["metadata"].entries ==> entries["metadata"].entries[k].Str?)
    && ("allowed-tools" in entries ==> entries["allowed-tools"].Str?)
  }

  lemma {:induction false} TrimEndEmpties(s: string)
    ensures TrimEnd(s) == "" <==> forall c :: c in s ==> IsSpace(c)
  {
    if s != "" {
      var n := |s| - 1;
      TrimEndEmpties(s[..n]);
      assert s == s[..n] + [s[n]];
      assert forall c :: c in s <==> c in s[..n] || c == s[n];
    }
  }

  lemma {:induction false} TrimStartEmpties(s: string)
    ensures (forall c :: c in TrimStart(s) ==> IsSpace(c)) <==> forall c :: c in s ==> IsSpace(c)
  {
    if s != "" {
      TrimStartEmpties(s[1..]);
      assert s == [s[0]] + s[1..];
      assert forall c :: c in s <==> c == s[0] || c in s[1..];
    }
  }

  lemma TrimEmpties(s: string)
    ensures Trim(s) == "" <==> forall c :: c in s ==> IsSpace(c)
  {
    TrimEndEmpties(TrimStart(s));
    TrimStartEmpties(s);
  }

  /** A frontmatter is accepted exactly when it is a mapping that keeps the rules, and then as it is. */
  lemma AcceptedIff(data: F.Value, dirName: string)
    ensures F.Validate(data, dirName).Valid? <==> data.Mapping? && GoodFrontmatter(data.entries, dirName)
    ensures F.Validate(data, dirName).Valid? ==>
              var verdict := F.Validate(data, dirName);
              && verdict.entries == data.entries
              && (verdict.allowedTools.Some? <==> "allowed-tools" in data.entries)
  {
    if data.Mapping? && "description" in data.entries && data.entries["description"].Str? {
      TrimEmpties(data.entries["description"].text);
    }
  }

  /** The tools of an accepted skill are the pieces of the field between white space. */
  lemma ToolsAreTokens(text: string)
    ensures forall token :: token in F.TokenizeAllowedTools(text) ==> F.IsToken(token, WHITE_SPACE)
  {
    PiecesHoldNoSeparator(text, WHITE_SPACE);
    forall token | token in F.TokenizeAllowedTools(text) ensures F.IsToken(token, WHITE_SPACE) {
      var pieces := SplitOn(text, WHITE_SPACE);
      var i :| 0 <= i < |pieces| && pieces[i] == token;
    }
  }

  // ------------------------------------------------------------ which children become skills

  /** The file a path leads to, links followed, lies under the real root. */
  ghost predicate LeadsInside(d: Disk, root: string, p: Path)
    requires WellFormed(d.host)
  {
    Stat(d.host, p).Reached? && RealRoot(d.host, root) <= Stat(d.host, p).at
  }

  /** The SKILL.md of this directory, if the file can be read and opens with a mapping. */
  function FrontmatterAt(d: Disk, skillMd: Path): Option<(map<string, F.Value>, string)> {
    var content := ReadFile(d, skillMd);
    if content.Some? && content.value.Parsed? && content.value.data.Mapping?
    then Some((content.value.data.entries, content.value.body)) else None
  }

  /**
   * A directory of the package with a SKILL.md of the package, both readable, whose frontmatter keeps the rules.
   */
  ghost predicate GoodSkill(d: Disk, root: string, name: string)
    requires WellFormed(d.host)
  {
    var dir := SkillsPath(d, root) + [name];
    var skillMd := dir + ["SKILL.md"];
    && LeadsInside(d, root, dir) && ReadDir(d, dir).Some? && "SKILL.md" in ReadDir(d, dir).value
    && LeadsInside(d, root, skillMd) && IsRegularFile(d.host, skillMd)
    && FrontmatterAt(d, skillMd).Some? && GoodFrontmatter(FrontmatterAt(d, skillMd).value.0, name)
  }

  lemma DirectoryInsideIff(d: Disk, root: string, name: string)
    requires WellFormed(d.host) && Names.IsValid(name, Names.SkillName)
    requires Stat(d.host, SkillsPath(d, root) + [name]).Reached?
    ensures IsContained(d.host, root, JoinWith([SKILLS, name], '/')) <==>
              LeadsInside(d, root, SkillsPath(d, root) + [name])
  {
    PlainSkillNames(name, "");
    SkillPaths(d, root, name, "");
    ContainedMeansInside(d.host, root, [SKILLS, name]);
  }

  lemma ChildInsideIff(d: Disk, root: string, name: string, child: string)
    requires WellFormed(d.host) && Names.IsValid(name, Names.SkillName) && ValidName(child) && '\\' !in child
    requires Stat(d.host, SkillsPath(d, root) + [name, child]).Reached?
    ensures IsContained(d.host, root, JoinWith([SKILLS, name, child], '/')) <==>
              LeadsInside(d, root, SkillsPath(d, root) + [name, child])
  {
    PlainSkillNames(name, child);
    SkillPaths(d, root, name, child);
    ContainedMeansInside(d.host, root, [SKILLS, name, child]);
  }

  lemma ParsedIff(content: Content, name: string)
    ensures ParseSkillMd(content, name).Accepted? <==>
              content.Parsed? && content.data.Mapping? && GoodFrontmatter(content.data.entries, name)
    ensures ParseSkillMd(content, name).Accepted? ==>
              var skill := ParseSkillMd(content, name).skill;
              && skill.entries == content.data.entries && skill.body == content.body
              && (skill.allowedTools.Some? <==> "allowed-tools" in skill.entries)
              && ("allowed-tools" in skill.entries ==>
                    skill.allowedTools == Some(F.TokenizeAllowedTools(skill.entries["allowed-tools"].text)))
  {
    if content.Parsed? {
      AcceptedIff(content.data, name);
    }
  }

  lemma JudgedIff(name: string, dirContained: bool, children: Option<seq<string>>, fileContained: bool, regular: bool,
                  content: Option<Content>)
    ensures Judge(name, dirContained, children, fileContained, regular, content).Accepted? <==>
              && dirContained && children.Some? && SKILL_MD in children.value && fileContained && regular
              && content.Some? && ParseSkillMd(content.value, name).Accepted?
  {
  }

  /** The answers an accepted child needs. */
  lemma ExaminedIff(d: Disk, root: string, name: string)
    requires WellFormed(d.host) && IsCandidate(d, root, name)
    ensures var dir := SkillsPath(d, root) + [name];
            Examine(d, root, name).Accepted? <==>
              && IsContained(d.host, root, JoinWith([SKILLS, name], '/'))
              && ReadDir(d, dir).Some? && SKILL_MD in ReadDir(d, dir).value
              && IsContained(d.host, root, JoinWith([SKILLS, name, SKILL_MD], '/'))
              && IsRegularFile(d.host, dir + [SKILL_MD]) && ReadFile(d, dir + [SKILL_MD]).Some?
              && ParseSkillMd(ReadFile(d, dir + [SKILL_MD]).value, name).Accepted?
  {
    var dir := SkillsPath(d, root) + [name];
    JudgedIff(name, IsContained(d.host, root, JoinWith([SKILLS, name], '/')), ReadDir(d, dir),
              IsContained(d.host, root, JoinWith([SKILLS, name, SKILL_MD], '/')),
              IsRegularFile(d.host, dir + [SKILL_MD]), ReadFile(d, dir + [SKILL_MD]));
  }

  lemma AcceptedIffGood(d: Disk, root: string, name: string)
    requires WellFormed(d.host) && IsCandidate(d, root, name)
    ensures Examine(d, root, name).Accepted? <==> GoodSkill(d, root, name)
  {
    var dir := SkillsPath(d, root) + [name];
    var skillMd := dir + [SKILL_MD];
    ExaminedIff(d, root, name);
    if ReadFile(d, skillMd).Some? {
      ParsedIff(ReadFile(d, skillMd).value, name);
    }
    if Names.IsValid(name, Names.SkillName) && Stat(d.host, dir).Reached? && Stat(d.host, skillMd).Reached? {
      NamesArePlain();
      DirectoryInsideIff(d, root, name);
      assert skillMd == SkillsPath(d, root) + [name, SKILL_MD];
      ChildInsideIff(d, root, name, SKILL_MD);
    }
  }

  /** Of the children of a skills directory that can be read, exactly these become skills. */
  lemma ReturnedIff(d: Disk, root: string, name: string)
    requires WellListed(d) && Discover(d, root).Found?
    requires ReadDir(d, SkillsPath(d, root)).Some? && name in ReadDir(d, SkillsPath(d, root)).value
    ensures HasSkill(Discover(d, root).skills, name) <==> IsCandidate(d, root, name) && GoodSkill(d, root, name)
  {
    var names := ReadDir(d, SkillsPath(d, root)).value;
    FoundFromListing(d, root);
    ChildOnce(d, root, names, name);
    SortedHas(SkillsAmong(d, root, names), name);
    if IsCandidate(d, root, name) {
      AcceptedIffGood(d, root, name);
    }
  }

  lemma SortedHas(skills: seq<Skill>, name: string)
    ensures HasSkill(Ordering.SortBy(skills, ByName()), name) <==> HasSkill(skills, name)
  {
  }

  // ------------------------------------------------------------ what a skill holds

  lemma {:induction false} SidecarsIff(d: Disk, root: string, name: string, children: seq<string>, kinds: seq<string>,
                                       kind: string)
    requires WellFormed(d.host)
    ensures kind in SidecarsOf(d, root, name, children, kinds) <==>
              kind in kinds && IsSidecar(d, root, name, children, kind)
  {
    if kinds != [] {
      var n := |kinds| - 1;
      SidecarsIff(d, root, name, children, kinds[..n], kind);
      assert kind in kinds <==> kind in kinds[..n] || kind == kinds[n];
    }
  }

  /** The skill is its file and its directory: frontmatter, body, tools, and the sidecar directories of the package. */
  ghost predicate IsItsFile(d: Disk, root: string, skill: Skill)
    requires WellFormed(d.host)
  {
    var dir := SkillsPath(d, root) + [skill.name];
    && FrontmatterAt(d, dir + ["SKILL.md"]) == Some((skill.entries, skill.body))
    && (skill.allowedTools.Some? <==> "allowed-tools" in skill.entries)
    && ("allowed-tools" in skill.entries ==>
          && skill.entries["allowed-tools"].Str?
          && skill.allowedTools == Some(F.TokenizeAllowedTools(skill.entries["allowed-tools"].text)))
    && ReadDir(d, dir).Some?
    && forall kind :: kind in skill.sidecars <==>
         && kind in {"scripts", "references", "assets"} && kind in ReadDir(d, dir).value
         && IsDirectory(d.host, dir + [kind]) && LeadsInside(d, root, dir + [kind])
  }

  lemma SidecarsMean(d: Disk, root: string, name: string, children: seq<string>, kind: string)
    requires WellFormed(d.host) && Names.IsValid(name, Names.SkillName)
    ensures kind in SidecarsOf(d, root, name, children, SIDECARS) <==>
              && kind in {"scripts", "references", "assets"} && kind in children
              && IsDirectory(d.host, SkillsPath(d, root) + [name] + [kind])
              && LeadsInside(d, root, SkillsPath(d, root) + [name] + [kind])
  {
    SidecarsIff(d, root, name, children, SIDECARS, kind);
    assert SkillsPath(d, root) + [name] + [kind] == SkillsPath(d, root) + [name, kind];
    assert kind in SIDECARS <==> kind in {"scripts", "references", "assets"};
    if kind in SIDECARS && IsDirectory(d.host, SkillsPath(d, root) + [name, kind]) {
      NamesArePlain();
      ChildInsideIff(d, root, name, kind);
    }
  }

  /** What examining took from the file. */
  lemma ExaminedHolds(d: Disk, root: string, name: string)
    requires WellFormed(d.host) && Examine(d, root, name).Accepted?
    ensures var dir, skill := SkillsPath(d, root) + [name], Examine(d, root, name).skill;
            && ReadDir(d, dir).Some? && ReadFile(d, dir + [SKILL_MD]).Some?
            && ParseSkillMd(ReadFile(d, dir + [SKILL_MD]).value, name).Accepted?
            && var parsed := ParseSkillMd(ReadFile(d, dir + [SKILL_MD]).value, name).skill;
               && skill.entries == parsed.entries && skill.body == parsed.body
               && skill.allowedTools == parsed.allowedTools && skill.name == name
  {
  }

  lemma AcceptedIsItsFile(d: Disk, root: string, name: string)
    requires WellFormed(d.host) && Examine(d, root, name).Accepted?
    ensures IsItsFile(d, root, Examine(d, root, name).skill)
  {
    var dir, skill := SkillsPath(d, root) + [name], Examine(d, root, name).skill;
    AcceptedFacts(d, root, name);
    ExaminedHolds(d, root, name);
    ParsedIff(ReadFile(d, dir + [SKILL_MD]).value, name);
    forall kind
      ensures kind in skill.sidecars <==>
                && kind in {"scripts", "references", "assets"} && kind in ReadDir(d, dir).value
                && IsDirectory(d.host, dir + [kind]) && LeadsInside(d, root, dir + [kind])
    {
      SidecarsMean(d, root, name, ReadDir(d, dir).value, kind);
    }
  }

  /** Every returned skill holds what its SKILL.md and its directory hold, and nothing else. */
  lemma SkillsAreTheirFiles(d: Disk, root: string)
    requires WellListed(d) && Discover(d, root).Found?
    ensures forall s :: s in Discover(d, root).skills ==> IsItsFile(d, root, s)
  {
    FoundFromListing(d, root);
    OfNames(d, root, ReadDir(d, SkillsPath(d, root)).value);
    forall s | s in Discover(d, root).skills ensures IsItsFile(d, root, s) {
      AcceptedIsItsFile(d, root, s.name);
    }
  }

  // ------------------------------------------------------------ which children are looked at, and what is said of them

  lemma StatOfChild(h: Host, p: Path, name: string)
    requires WellFormed(h) && ValidPath(p) && ValidName(name)
    ensures Stat(h, p + [name]) ==
            match Stat(h, p)
            case Failed => Failed
            case Reached(at, left) => Walk(h, at, [name], left)
    ensures Stat(h, p).Reached? ==> Canonical(h, Stat(h, p).at)
  {
    OsResolveRender(h, p);
    OsResolveRender(h, p + [name]);
    WalkAppend(h, [], p, [name], h.linkLimit);
    if Stat(h, p).Reached? {
      WalkEndsCanonical(h, [], p, h.linkLimit);
    }
  }

  /** One name further from an entry: what the entry of that name is decides, unless it is a link. */
  lemma WalkToChild(h: Host, at: Path, name: string, links: nat)
    requires WellFormed(h) && at in h.nodes && ValidName(name)
    ensures at + [name] in h.nodes && !h.nodes[at + [name]].Link? && h.nodes[at].Directory? ==>
              Walk(h, at, [name], links) == Reached(at + [name], links)
    ensures Walk(h, at, [name], links).Reached? ==> at + [name] in h.nodes && h.nodes[at].Directory?
    ensures at + [name] in h.nodes ==> h.nodes[at].Directory?
  {
    assert [name][1..] == [];
    if at + [name] in h.nodes {
      assert SitsInDirectory(h, at + [name]) && Parent(at + [name]) == at;
    }
  }

  /** The children looked at are exactly those that are directories, links followed. */
  lemma CandidateIff(d: Disk, root: string, name: string)
    requires WellFormed(d.host) && ValidName(name)
    ensures IsCandidate(d, root, name) <==> IsDirectory(d.host, SkillsPath(d, root) + [name])
  {
    var h, p := d.host, SkillsPath(d, root);
    StatOfChild(h, p, name);
    if Stat(h, p).Reached? {
      var at, left := Stat(h, p).at, Stat(h, p).linksLeft;
      WalkToChild(h, at, name, left);
    }
  }

  /** Whether there is a skills location, whether it may be used, and whether it could be read. */
  lemma LocationIff(d: Disk, root: string)
    requires WellFormed(d.host)
    ensures var p := SkillsPath(d, root); var found := Discover(d, root);
            && (found == Absent <==> !Present(d.host, p))
            && (found.Found? <==>
                  Present(d.host, p) && LeadsInside(d, root, p) && IsDirectory(d.host, p) && ReadDir(d, p).Some?)
            && (found == Invalid(LocationNotADirectory) <==>
                  Present(d.host, p) && IsContained(d.host, root, "skills") && !IsDirectory(d.host, p))
            && (found == Invalid(LocationUnreadable) <==>
                  && Present(d.host, p) && LeadsInside(d, root, p) && IsDirectory(d.host, p) && ReadDir(d, p).None?)
            && (found == Invalid(PathEscapesRoot) <==>
                  Present(d.host, p) && !IsContained(d.host, root, "skills"))
  {
    var p := SkillsPath(d, root);
    if Stat(d.host, p).Reached? {
      assert PlainNames(["skills"]) && JoinWith(["skills"], '/') == "skills";
      ContainedMeansInside(d.host, root, ["skills"]);
    }
  }

  /** Why a child directory with a plain name is no skill, in the order the questions are asked. */
  lemma FindingsMean(d: Disk, root: string, name: string)
    requires WellFormed(d.host) && IsCandidate(d, root, name)
    ensures var dir, outcome := SkillsPath(d, root) + [name], Examine(d, root, name);
            var dirInside := IsContained(d.host, root, "skills/" + name);
            var fileInside := IsContained(d.host, root, "skills/" + name + "/SKILL.md");
            var listed := ReadDir(d, dir).Some? && "SKILL.md" in ReadDir(d, dir).value;
            var content := ReadFile(d, dir + ["SKILL.md"]);
            var readable := IsRegularFile(d.host, dir + ["SKILL.md"]) && content.Some?;
            && (outcome == Skipped(Finding(PathEscapesRoot, name, false)) <==> !dirInside)
            && (outcome == Skipped(Finding(SkillUnreadable, name, false)) <==> dirInside && ReadDir(d, dir).None?)
            && (outcome == Skipped(Finding(DirectoryWithoutSkillMd, name, false)) <==>
                  dirInside && ReadDir(d, dir).Some? && !listed)
            && (outcome == Skipped(Finding(PathEscapesRoot, name, true)) <==> dirInside && listed && !fileInside)
            && (outcome == Skipped(Finding(SkillUnreadable, name, true)) <==>
                  dirInside && listed && fileInside && !readable)
            && (outcome == Skipped(Finding(FrontmatterMissing, name, true)) <==>
                  dirInside && listed && fileInside && readable && content.value.NoFrontmatterBlock?)
  {
    PackageNames(name);
  }

  lemma PackageNames(name: string)
    ensures JoinWith([SKILLS, name], '/') == "skills/" + name
    ensures JoinWith([SKILLS, name, SKILL_MD], '/') == "skills/" + name + "/SKILL.md"
  {
    assert [SKILLS, name][1..] == [name];
    assert [SKILLS, name, SKILL_MD][1..] == [name, SKILL_MD] && [name, SKILL_MD][1..] == [SKILL_MD];
    assert JoinWith([name, SKILL_MD], '/') == name + ['/'] + SKILL_MD;
    assert "skills" + ['/'] + (name + ['/'] + SKILL_MD) == "skills/" + name + "/SKILL.md";
    assert "skills" + ['/'] + name == "skills/" + name;
  }
}
