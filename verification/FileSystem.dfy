/** A POSIX directory tree with symbolic links, and the operating system's path walk over it. */
module FileSystem {
  import opened Text

  /** A location in the tree: the names from the filesystem root down. */
  type Path = seq<string>

  datatype Node = Directory | File | Link(target: string)

  /** A machine: its tree, the process's working directory and how many links one lookup may follow. */
  datatype Host = Host(nodes: map<Path, Node>, cwd: Path, linkLimit: nat)

  predicate ValidName(name: string) {
    name != "" && name != "." && name != ".." && '/' !in name
  }

  predicate ValidPath(p: Path) {
    forall i :: 0 <= i < |p| ==> ValidName(p[i])
  }

  function Parent(p: Path): Path {
    if p == [] then [] else p[..|p| - 1]
  }

  predicate SitsInDirectory(h: Host, p: Path) {
    p != [] ==> Parent(p) in h.nodes && h.nodes[Parent(p)].Directory?
  }

  /** Every entry has a name the system allows and sits in a directory; the root, if readable at all, is one. */
  ghost predicate WellFormed(h: Host) {
    && ValidPath(h.cwd)
    && (forall p :: p in h.nodes ==> ValidPath(p))
    && (forall p {:trigger SitsInDirectory(h, p)} :: p in h.nodes ==> SitsInDirectory(h, p))
    && ([] in h.nodes ==> h.nodes[[]].Directory?)
  }

  /** An entry that is not a link: a real path. */
  predicate Canonical(h: Host, p: Path) {
    p in h.nodes && !h.nodes[p].Link?
  }

  predicate IsAbsolute(path: string) {
    StartsWith(path, "/")
  }

  datatype WalkResult = Failed | Reached(at: Path, linksLeft: nat)

  /**
   * Path resolution as the operating system does it: one component at a time, from `at`, each link
   * replaced by its target where it stands, `..` taken from the place reached so far. Every component,
   * even an empty one, needs a directory to be looked up in.
   */
  function Walk(h: Host, at: Path, segs: seq<string>, links: nat): WalkResult
    decreases links, |segs|
  {
    if segs == [] then (if at in h.nodes then Reached(at, links) else Failed)
    else if at !in h.nodes || !h.nodes[at].Directory? then Failed
    else if segs[0] == "" || segs[0] == "." then Walk(h, at, segs[1..], links)
    else if segs[0] == ".." then Walk(h, Parent(at), segs[1..], links)
    else if at + [segs[0]] !in h.nodes then Failed
    else
      match h.nodes[at + [segs[0]]]
      case Link(target) =>
        if links == 0 || target == "" then Failed
        else Walk(h, if IsAbsolute(target) then [] else at, SplitOn(target, {'/'}) + segs[1..], links - 1)
      case _ => Walk(h, at + [segs[0]], segs[1..], links)
  }

  /** `realpath(3)`, `open(2)`: where an absolute path leads. */
  function OsResolve(h: Host, path: string): WalkResult
    requires IsAbsolute(path)
  {
    Walk(h, [], SplitOn(path, {'/'}), h.linkLimit)
  }

  /** Walking two runs of components in a row is walking the first, then the second from there. */
  lemma {:induction false} WalkAppend(h: Host, at: Path, first: seq<string>, second: seq<string>, links: nat)
    ensures Walk(h, at, first + second, links) ==
            match Walk(h, at, first, links)
            case Failed => Failed
            case Reached(mid, left) => Walk(h, mid, second, left)
    decreases links, |first|
  {
    if first == [] {
      assert first + second == second;
    } else {
      assert (first + second)[1..] == first[1..] + second;
      if at in h.nodes && h.nodes[at].Directory? {
        var next := at + [first[0]];
        if first[0] == "" || first[0] == "." {
          WalkAppend(h, at, first[1..], second, links);
        } else if first[0] == ".." {
          WalkAppend(h, Parent(at), first[1..], second, links);
        } else if next in h.nodes {
          match h.nodes[next] {
            case Link(target) =>
              if links > 0 && target != "" {
                var spliced := SplitOn(target, {'/'});
                assert spliced + (first[1..] + second) == (spliced + first[1..]) + second;
                WalkAppend(h, if IsAbsolute(target) then [] else at, spliced + first[1..], second, links - 1);
              }
            case _ => WalkAppend(h, next, first[1..], second, links);
          }
        }
      }
    }
  }

  /** A walk that succeeds also succeeds when more links are allowed, and uses as many. */
  lemma {:induction false} WalkMoreLinks(h: Host, at: Path, segs: seq<string>, links: nat, extra: nat)
    requires Walk(h, at, segs, links).Reached?
    ensures Walk(h, at, segs, links + extra) ==
            Reached(Walk(h, at, segs, links).at, Walk(h, at, segs, links).linksLeft + extra)
    decreases links, |segs|
  {
    if segs != [] {
      var next := at + [segs[0]];
      if segs[0] == "" || segs[0] == "." {
        WalkMoreLinks(h, at, segs[1..], links, extra);
      } else if segs[0] == ".." {
        WalkMoreLinks(h, Parent(at), segs[1..], links, extra);
      } else {
        match h.nodes[next] {
          case Link(target) =>
            WalkMoreLinks(h, if IsAbsolute(target) then [] else at, SplitOn(target, {'/'}) + segs[1..], links - 1,
                          extra);
          case _ => WalkMoreLinks(h, next, segs[1..], links, extra);
        }
      }
    }
  }

  /** A walk ends at an entry that is not a link, and never has more links left than it started with. */
  lemma {:induction false} WalkEndsCanonical(h: Host, at: Path, segs: seq<string>, links: nat)
    requires WellFormed(h)
    requires at in h.nodes ==> !h.nodes[at].Link?
    requires Walk(h, at, segs, links).Reached?
    ensures Canonical(h, Walk(h, at, segs, links).at)
    ensures Walk(h, at, segs, links).linksLeft <= links
    decreases links, |segs|
  {
    if segs != [] {
      var next := at + [segs[0]];
      if segs[0] == "" || segs[0] == "." {
        WalkEndsCanonical(h, at, segs[1..], links);
      } else if segs[0] == ".." {
        assert SitsInDirectory(h, at);
        WalkEndsCanonical(h, Parent(at), segs[1..], links);
      } else {
        match h.nodes[next] {
          case Link(target) =>
            WalkEndsCanonical(h, if IsAbsolute(target) then [] else at, SplitOn(target, {'/'}) + segs[1..], links - 1);
          case _ => WalkEndsCanonical(h, next, segs[1..], links);
        }
      }
    }
  }

  /** `realpath` is the identity on canonical paths and follows no link to get there. */
  lemma {:induction false} WalkCanonical(h: Host, p: Path, links: nat)
    requires WellFormed(h) && Canonical(h, p)
    ensures Walk(h, [], p, links) == Reached(p, links)
  {
    if p != [] {
      var q := Parent(p);
      assert SitsInDirectory(h, p);
      WalkCanonical(h, q, links);
      assert p == q + [p[|p| - 1]];
      WalkAppend(h, [], q, [p[|p| - 1]], links);
    }
  }

  /** The key step: `realpath` of a canonical path plus more components follows only those components. */
  lemma WalkFromCanonical(h: Host, p: Path, segs: seq<string>, links: nat)
    requires WellFormed(h) && Canonical(h, p)
    ensures Walk(h, [], p + segs, links) == Walk(h, p, segs, links)
  {
    WalkCanonical(h, p, links);
    WalkAppend(h, [], p, segs, links);
  }
}
