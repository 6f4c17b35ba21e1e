/** Skill discovery: which children of `skills/` become skills, and what is said about the others. */
module SkillDiscovery {
  import opened Wrappers
  import opened Text
  import opened FileSystem
  import opened Paths
  import opened PackageFiles
  import opened Ordering
  import Containment
  import F = SkillFrontmatter
  import Names

  const SKILLS := "skills"
  const SKILL_MD := "SKILL.md"
  const SIDECARS := ["scripts", "references", "assets"]

  /** What is in a SKILL.md file; parsing YAML is the parser's. */
  datatype Content = NoFrontmatterBlock | BadYaml | Parsed(data: F.Value, body: string)

  /** A machine, what each readable directory lists in which order, and what each readable file holds. */
  datatype Disk = Disk(host: Host, listings: map<Path, seq<string>>, contents: map<Path, Content>)

  ghost predicate WellListed(d: Disk) {
    WellFormed(d.host) && forall p :: p in d.listings ==> ListsChildren(d.host, p, d.listings[p])
  }

  /** A directory lists each of its entries once, and nothing else. */
  ghost predicate ListsChildren(h: Host, p: Path, names: seq<string>) {
    && (forall n :: n in names <==> ValidName(n) && p + [n] in h.nodes)
    && Distinct(names)
  }

  datatype Code =
    | PathEscapesRoot | LocationNotADirectory | LocationUnreadable
    | SkillUnreadable | DirectoryWithoutSkillMd | FrontmatterMissing | Frontmatter(code: F.Code)

  /** A finding about one child directory; `inSkillMd` when it points at the file rather than the directory. */
  datatype Finding = Finding(code: Code, dirName: string, inSkillMd: bool)

  datatype Skill = Skill(
    name: string, dir: Path, skillMd: Path, relDir: string, entries: map<string, F.Value>, body: string,
    allowedTools: Option<seq<string>>, sidecars: seq<string>)

  datatype Outcome = NotACandidate | Accepted(skill: Skill) | Skipped(finding: Finding)

  datatype Discovery = Absent | Invalid(code: Code) | Found(skills: seq<Skill>, findings: seq<Finding>)

  function SkillsPath(d: Disk, root: string): Path
    requires WellFormed(d.host)
  {
    Resolve(d.host, root) + [SKILLS]
  }

  function ReadDir(d: Disk, p: Path): Option<seq<string>> {
    var target := Stat(d.host, p);
    if target.Reached? && target.at in d.listings then Some(d.listings[target.at]) else None
  }

  function ReadFile(d: Disk, p: Path): Option<Content> {
    var target := Stat(d.host, p);
    if target.Reached? && target.at in d.contents then Some(d.contents[target.at]) else None
  }

  /** A child directory, or a link to one. */
  predicate IsCandidate(d: Disk, root: string, name: string)
    requires WellFormed(d.host)
  {
    var at := Stat(d.host, SkillsPath(d, root));
    && at.Reached? && at.at + [name] in d.host.nodes
    && match d.host.nodes[at.at + [name]]
       case Directory => true
       case File => false
       case Link(_) => IsDirectory(d.host, SkillsPath(d, root) + [name])
  }

  function SidecarsOf(d: Disk, root: string, name: string, children: seq<string>, kinds: seq<string>): seq<string>
    requires WellFormed(d.host)
  {
    if kinds == [] then []
    else
      var n := |kinds| - 1;
      SidecarsOf(d, root, name, children, kinds[..n])
      + if IsSidecar(d, root, name, children, kinds[n]) then [kinds[n]] else []
  }

  predicate IsSidecar(d: Disk, root: string, name: string, children: seq<string>, kind: string)
    requires WellFormed(d.host)
  {
    && kind in children && IsContained(d.host, root, JoinWith([SKILLS, name, kind], '/'))
    && IsDirectory(d.host, SkillsPath(d, root) + [name, kind])
  }

  /** `parseSkillMd`, on a file whose YAML has been read. */
  function ParseSkillMd(content: Content, name: string): (verdict: Outcome)
    ensures verdict.Skipped? ==> verdict.finding.dirName == name
    ensures !verdict.NotACandidate?
    ensures verdict.Accepted? ==> verdict.skill.name == name && Names.IsValid(name, Names.SkillName)
  {
    match content
    case NoFrontmatterBlock => Skipped(Finding(FrontmatterMissing, name, true))
    case BadYaml => Skipped(Finding(Frontmatter(F.FrontmatterInvalid), name, true))
    case Parsed(data, body) =>
      match F.Validate(data, name)
      case Invalid(code) => Skipped(Finding(Frontmatter(code), name, true))
      case Valid(entries, tools) => Accepted(Skill(entries["name"].text, [], [], "", entries, body, tools, []))
  }

  /** What becomes of a candidate, given what the file system answers about it. */
  function Judge(name: string, dirContained: bool, children: Option<seq<string>>, fileContained: bool, regular: bool,
                 content: Option<Content>): (verdict: Outcome)
    ensures verdict.Accepted? ==> verdict.skill.name == name && children.Some?
    ensures verdict.Skipped? ==> verdict.finding.dirName == name
    ensures !verdict.NotACandidate?
  {
    if !dirContained then Skipped(Finding(PathEscapesRoot, name, false))
    else if children.None? then Skipped(Finding(SkillUnreadable, name, false))
    else if SKILL_MD !in children.value then Skipped(Finding(DirectoryWithoutSkillMd, name, false))
    else if !fileContained then Skipped(Finding(PathEscapesRoot, name, true))
    else if !regular || content.None? then Skipped(Finding(SkillUnreadable, name, true))
    else ParseSkillMd(content.value, name)
  }

  /** What becomes of one child. */
  function Examine(d: Disk, root: string, name: string): Outcome
    requires WellFormed(d.host)
  {
    var dir := SkillsPath(d, root) + [name];
    var children, skillMd := ReadDir(d, dir), dir + [SKILL_MD];
    var dirContained := IsContained(d.host, root, JoinWith([SKILLS, name], '/'));
    var fileContained := IsContained(d.host, root, JoinWith([SKILLS, name, SKILL_MD], '/'));
    if !IsCandidate(d, root, name) then NotACandidate
    else
      var verdict := Judge(name, dirContained, children, fileContained, IsRegularFile(d.host, skillMd),
                           ReadFile(d, skillMd));
      if verdict.Skipped? then verdict
      else Accepted(verdict.skill.(
             dir := dir, skillMd := skillMd, relDir := PackageRelative(Render(Resolve(d.host, root)), Render(dir)),
             sidecars := SidecarsOf(d, root, name, children.value, SIDECARS)))
  }

  function SkillsAmong(d: Disk, root: string, names: seq<string>): seq<Skill>
    requires WellFormed(d.host)
  {
    if names == [] then []
    else
      var n := |names| - 1;
      SkillsAmong(d, root, names[..n])
      + if Examine(d, root, names[n]).Accepted? then [Examine(d, root, names[n]).skill] else []
  }

  function FindingsAmong(d: Disk, root: string, names: seq<string>): seq<Finding>
    requires WellFormed(d.host)
  {
    if names == [] then []
    else
      var n := |names| - 1;
      FindingsAmong(d, root, names[..n])
      + if Examine(d, root, names[n]).Skipped? then [Examine(d, root, names[n]).finding] else []
  }

  function ByName(): Skill -> string { (s: Skill) => s.name }

  function Discover(d: Disk, root: string): Discovery
    requires WellFormed(d.host)
  {
    var path := SkillsPath(d, root);
    var names := ReadDir(d, path);
    if !Present(d.host, path) then Absent
    else if !IsContained(d.host, root, SKILLS) then Invalid(PathEscapesRoot)
    else if !IsDirectory(d.host, path) then Invalid(LocationNotADirectory)
    else if names.None? then Invalid(LocationUnreadable)
    else Found(SortBy(SkillsAmong(d, root, names.value), ByName()), FindingsAmong(d, root, names.value))
  }

  // ------------------------------------------------------------ the code

  method FindSidecars(d: Disk, root: string, name: string, children: seq<string>) returns (sidecars: seq<string>)
    requires WellFormed(d.host)
    ensures sidecars == SidecarsOf(d, root, name, children, SIDECARS)
  {
    sidecars := [];
    for i := 0 to |SIDECARS|
      invariant sidecars == SidecarsOf(d, root, name, children, SIDECARS[..i])
    {
      assert SIDECARS[..i + 1][..i] == SIDECARS[..i];
      if SIDECARS[i] !in children {
        continue;
      }
      var value := JoinWith([SKILLS, name, SIDECARS[i]], '/');
      if IsContained(d.host, root, value) && IsDirectory(d.host, SkillsPath(d, root) + [name, SIDECARS[i]]) {
        sidecars := sidecars + [SIDECARS[i]];
      }
    }
    assert SIDECARS[..|SIDECARS|] == SIDECARS;
  }

  /** One pass of the loop over the children. */
  method ExamineChild(d: Disk, root: string, dirName: string) returns (outcome: Outcome)
    requires WellFormed(d.host)
    ensures outcome == Examine(d, root, dirName)
  {
    var skillDir := SkillsPath(d, root) + [dirName];
    if !IsCandidate(d, root, dirName) {
      return NotACandidate;
    }
    if !IsContained(d.host, root, JoinWith([SKILLS, dirName], '/')) {
      return Skipped(Finding(PathEscapesRoot, dirName, false));
    }
    var childNames := ReadDir(d, skillDir);
    if childNames.None? {
      return Skipped(Finding(SkillUnreadable, dirName, false));
    }
    if SKILL_MD !in childNames.value {
      return Skipped(Finding(DirectoryWithoutSkillMd, dirName, false));
    }
    var skillMdPath := skillDir + [SKILL_MD];
    if !IsContained(d.host, root, JoinWith([SKILLS, dirName, SKILL_MD], '/')) {
      return Skipped(Finding(PathEscapesRoot, dirName, true));
    }
    if !IsRegularFile(d.host, skillMdPath) {
      return Skipped(Finding(SkillUnreadable, dirName, true));
    }
    var content := ReadFile(d, skillMdPath);
    if content.None? {
      return Skipped(Finding(SkillUnreadable, dirName, true));
    }
    var parsed := ParseSkillMd(content.value, dirName);
    if parsed.Skipped? {
      return parsed;
    }
    var sidecarDirs := FindSidecars(d, root, dirName, childNames.value);
    var relDir := PackageRelative(Render(Resolve(d.host, root)), Render(skillDir));
    return Accepted(parsed.skill.(dir := skillDir, skillMd := skillMdPath, relDir := relDir, sidecars := sidecarDirs));
  }

  /** The loop over the children. */
  method ExamineChildren(d: Disk, root: string, entries: seq<string>) returns (skills: seq<Skill>,
                                                                               findings: seq<Finding>)
    requires WellFormed(d.host)
    ensures skills == SkillsAmong(d, root, entries) && findings == FindingsAmong(d, root, entries)
  {
    skills, findings := [], [];
    for i := 0 to |entries|
      invariant skills == SkillsAmong(d, root, entries[..i])
      invariant findings == FindingsAmong(d, root, entries[..i])
    {
      assert entries[..i + 1][..i] == entries[..i];
      var outcome := ExamineChild(d, root, entries[i]);
      match outcome {
        case NotACandidate =>
        case Skipped(finding) => findings := findings + [finding];
        case Accepted(skill) => skills := skills + [skill];
      }
    }
    assert entries[..|entries|] == entries;
  }

  method DiscoverSkills(d: Disk, root: string) returns (result: Discovery)
    requires WellFormed(d.host)
    ensures result == Discover(d, root)
  {
    var skillsDir := SkillsPath(d, root);
    if !Present(d.host, skillsDir) {
      return Absent;
    }
    if !IsContained(d.host, root, SKILLS) {
      return Invalid(PathEscapesRoot);
    }
    if !IsDirectory(d.host, skillsDir) {
      return Invalid(LocationNotADirectory);
    }
    var listing := ReadDir(d, skillsDir);
    if listing.None? {
      return Invalid(LocationUnreadable);
    }
    var skills, findings := ExamineChildren(d, root, listing.value);
    return Found(SortBy(skills, ByName()), findings);
  }
}
