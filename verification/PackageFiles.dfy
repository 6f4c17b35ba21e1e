/** The questions the loaders ask the file system about a package, and what a passed containment check tells. */
module PackageFiles {
  import opened Text
  import opened FileSystem
  import opened Paths
  import opened Containment

  /** `stat`: where the path leads, links followed. */
  function Stat(h: Host, p: Path): WalkResult {
    OsResolve(h, Render(p))
  }

  /** `lstat`: the entry itself is there. */
  predicate Present(h: Host, p: Path) {
    if p == [] then [] in h.nodes
    else
      var parent := Stat(h, Parent(p));
      parent.Reached? && parent.at + [p[|p| - 1]] in h.nodes
  }

  predicate IsDirectory(h: Host, p: Path) {
    Stat(h, p).Reached? && Stat(h, p).at in h.nodes && h.nodes[Stat(h, p).at].Directory?
  }

  predicate IsRegularFile(h: Host, p: Path) {
    Stat(h, p).Reached? && Stat(h, p).at in h.nodes && h.nodes[Stat(h, p).at].File?
  }

  /** The real path of the package root. */
  function RealRoot(h: Host, root: string): Path
    requires WellFormed(h)
  {
    RealPath(h, Resolve(h, root))
  }

  predicate IsContained(h: Host, root: string, value: string)
    requires WellFormed(h)
  {
    WithinRoot(h, root, value, false).Inside?
  }

  /** Names of the package, as the value handed to the containment check. */
  predicate PlainNames(names: seq<string>) {
    names != [] && forall i :: 0 <= i < |names| ==> ValidName(names[i]) && '\\' !in names[i]
  }

  lemma ValueOfNames(names: seq<string>)
    requires PlainNames(names)
    ensures !IsAbsolute(JoinWith(names, '/')) && ValueSegments(JoinWith(names, '/')) == names
  {
    SplitJoinIn(names, '/', {'/', '\\'});
    FirstCharacter(names);
  }

  lemma FirstCharacter(names: seq<string>)
    requires names != [] && names[0] != ""
    ensures JoinWith(names, '/') != "" && JoinWith(names, '/')[0] == names[0][0]
  {
  }

  /** The file at the package's own names passes the check exactly when the system finds it under the real root. */
  lemma ContainedMeansInside(h: Host, root: string, names: seq<string>)
    requires WellFormed(h) && PlainNames(names)
    requires Stat(h, Resolve(h, root) + names).Reached?
    ensures IsContained(h, root, JoinWith(names, '/')) <==> RealRoot(h, root) <= Stat(h, Resolve(h, root) + names).at
  {
    var at := Resolve(h, root);
    ValueOfNames(names);
    OsResolveRender(h, at + names);
    WalkAppend(h, [], at, names, h.linkLimit);
    var Reached(top, left) := Walk(h, [], at, h.linkLimit);
    WalkEndsCanonical(h, [], at, h.linkLimit);
    ExistingIsReal(h, at);
    FollowIsWalk(h, top, names, left);
    WalkEndsCanonical(h, top, names, left);
    WithinIffPrefix(top, Follow(h, top, names));
  }

  /** A package in which something exists has a real root that is not a link. */
  lemma RootIsReal(h: Host, root: string, names: Path)
    requires WellFormed(h) && ValidPath(names) && Stat(h, Resolve(h, root) + names).Reached?
    ensures Canonical(h, RealRoot(h, root))
  {
    var at := Resolve(h, root);
    OsResolveRender(h, at + names);
    WalkAppend(h, [], at, names, h.linkLimit);
    WalkEndsCanonical(h, [], at, h.linkLimit);
    ExistingIsReal(h, at);
  }
}
