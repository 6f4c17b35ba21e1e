/** Path containment: the `node:path` pieces it uses, and the resolver of packages/agent-plugins/src/paths.ts. */
module Paths {
  import opened Text
  import opened FileSystem

  // ---------------------------------------------------------------- node:path

  /** The text of an absolute path. */
  function Render(p: Path): string {
    "/" + JoinWith(p, '/')
  }

  predicate Slashless(segs: seq<string>) {
    forall i :: 0 <= i < |segs| ==> '/' !in segs[i]
  }

  /** The components of a path text. */
  function Segments(path: string): (segs: seq<string>)
    ensures Slashless(segs) && |segs| >= 1
  {
    PiecesHoldNoSeparator(path, {'/'});
    SplitOn(path, {'/'})
  }

  /** The pieces of a package's relative value: backslashes separate too. */
  function ValueSegments(value: string): (segs: seq<string>)
    ensures Slashless(segs) && |segs| >= 1
  {
    PiecesHoldNoSeparator(value, {'/', '\\'});
    SplitOn(value, {'/', '\\'})
  }

  /** Lexical normalisation from `base`: "" and "." vanish, ".." takes back the segment before it. */
  function Normalize(base: Path, segs: seq<string>): (p: Path)
    requires ValidPath(base)
    requires Slashless(segs)
    ensures ValidPath(p)
    decreases |segs|
  {
    if segs == [] then base
    else if segs[0] == "" || segs[0] == "." then Normalize(base, segs[1..])
    else if segs[0] == ".." then Normalize(Parent(base), segs[1..])
    else Normalize(base + [segs[0]], segs[1..])
  }

  /** `path.resolve` of one argument, as segments. */
  function Resolve(h: Host, target: string): (p: Path)
    requires WellFormed(h)
    ensures ValidPath(p)
  {
    Normalize(if IsAbsolute(target) then [] else h.cwd, Segments(target))
  }

  /** `path.join` of an absolute path and single segments. */
  function Join(base: string, parts: seq<string>): string
    requires IsAbsolute(base)
    requires Slashless(parts)
  {
    Render(Normalize([], Segments(base) + parts))
  }

  function LastSlash(s: string): (k: nat)
    requires IsAbsolute(s)
    ensures k < |s| && s[k] == '/'
    ensures forall i :: k < i < |s| ==> s[i] != '/'
  {
    if s[|s| - 1] == '/' then |s| - 1 else LastSlash(s[..|s| - 1])
  }

  /** `path.dirname` of a normalised absolute path. */
  function Dirname(s: string): (d: string)
    requires IsAbsolute(s)
    ensures IsAbsolute(d)
  {
    var k := LastSlash(s);
    if k == 0 then "/" else s[..k]
  }

  function RelativeSegments(from: Path, to: Path): seq<string> {
    if from != [] && to != [] && from[0] == to[0] then RelativeSegments(from[1..], to[1..])
    else seq(|from|, _ => "..") + to
  }

  /** `path.relative` of two absolute paths. */
  function Relative(from: string, to: string): string {
    JoinWith(RelativeSegments(Normalize([], Segments(from)), Normalize([], Segments(to))), '/')
  }

  // ------------------------------------------------------------ what paths.ts computes

  /** True when `realpath` of this path succeeds. */
  predicate Exists(h: Host, p: Path) {
    Walk(h, [], p, h.linkLimit).Reached?
  }

  /** Length of the longest prefix of `p` that exists, -1 when not even the filesystem root does. */
  function NearestExisting(h: Host, p: Path): (k: int)
    ensures -1 <= k <= |p|
    ensures k >= 0 ==> Exists(h, p[..k])
    ensures forall j :: k < j <= |p| ==> !Exists(h, p[..j])
  {
    if Exists(h, p) then
      assert p[..|p|] == p;
      |p|
    else if p == [] then
      assert p[..0] == p;
      -1
    else
      var q := p[..|p| - 1];
      var k := NearestExisting(h, q);
      assert forall j :: 0 <= j < |p| ==> q[..j] == p[..j];
      assert p[..|p|] == p;
      k
  }

  /** What the walk up has put aside when it stands at the first `k` segments of `p`. */
  function Remainder(p: Path, k: nat): (rest: seq<string>)
    requires k <= |p| && ValidPath(p)
    ensures Slashless(rest)
  {
    // At the filesystem root the slice starts one past the separator, so the first name loses a character.
    if k == 0 && p != [] then [p[0][1..]] + p[1..] else p[k..]
  }

  /** The outcome of `resolveRealPath` on a resolved path. */
  function RealPath(h: Host, p: Path): (r: Path)
    requires WellFormed(h) && ValidPath(p)
    ensures ValidPath(r)
  {
    var k := NearestExisting(h, p);
    if k == -1 then p
    else
      WalkEndsCanonical(h, [], p[..k], h.linkLimit);
      Normalize(Walk(h, [], p[..k], h.linkLimit).at, Remainder(p, k))
  }

  /** Where one segment of a relative value leads from a resolved path. */
  function FollowOne(h: Host, at: Path, segment: string): (p: Path)
    requires WellFormed(h) && ValidPath(at) && '/' !in segment
    ensures ValidPath(p)
  {
    if segment == "" || segment == "." then at
    else if segment == ".." then Parent(at)
    else RealPath(h, at + [segment])
  }

  /** The outcome of `resolveRelativeSegments` from a resolved path. */
  function Follow(h: Host, at: Path, segs: seq<string>): (p: Path)
    requires WellFormed(h) && ValidPath(at)
    requires Slashless(segs)
    ensures ValidPath(p)
    decreases |segs|
  {
    if segs == [] then at else Follow(h, FollowOne(h, at, segs[0]), segs[1..])
  }

  datatype Containment = Inside(resolved: string) | EscapesRoot(resolved: string) | NotPluginRelative(resolved: string)

  predicate IsPluginRelative(value: string) {
    StartsWith(value, "./")
  }

  /** True when `target` is `root` or lies under it; both already resolved. */
  predicate IsWithinResolved(root: string, target: string) {
    var rel := Relative(root, target);
    if rel == "" then true
    else if IsAbsolute(rel) then false
    else rel != ".." && !StartsWith(rel, "../")
  }

  /** The path `resolveWithinRoot` arrives at for a value. */
  function ResolvedPath(h: Host, root: string, value: string): Path
    requires WellFormed(h)
  {
    if IsAbsolute(value) then RealPath(h, Resolve(h, value))
    else Follow(h, RealPath(h, Resolve(h, root)), ValueSegments(value))
  }

  /** The answer of `resolveWithinRoot`. */
  function WithinRoot(h: Host, root: string, value: string, requirePluginRelative: bool): Containment
    requires WellFormed(h)
  {
    if requirePluginRelative && !IsPluginRelative(value) then NotPluginRelative(value)
    else
      var resolved := Render(ResolvedPath(h, root, value));
      if IsWithinResolved(Render(RealPath(h, Resolve(h, root))), resolved) then Inside(resolved)
      else EscapesRoot(resolved)
  }

  /** A package-relative rendering for findings. */
  function PackageRelative(root: string, target: string): string {
    var rel := Relative(root, target);
    if rel == "" then "." else rel
  }

  // ------------------------------------------------------------ strings against segments

  lemma {:induction false} NormalizeValid(base: Path, segs: Path)
    requires ValidPath(base) && ValidPath(segs)
    ensures Normalize(base, segs) == base + segs
    decreases |segs|
  {
    if segs == [] {
      assert base + segs == base;
    } else {
      NormalizeValid(base + [segs[0]], segs[1..]);
      assert base + [segs[0]] + segs[1..] == base + segs;
    }
  }

  lemma {:induction false} NormalizeAppend(base: Path, first: seq<string>, second: seq<string>)
    requires ValidPath(base)
    requires Slashless(first)
    requires Slashless(second)
    ensures Normalize(base, first + second) == Normalize(Normalize(base, first), second)
    decreases |first|
  {
    if first == [] {
      assert first + second == second;
    } else {
      assert (first + second)[1..] == first[1..] + second;
      var next := if first[0] == "" || first[0] == "." then base
                  else if first[0] == ".." then Parent(base) else base + [first[0]];
      NormalizeAppend(next, first[1..], second);
    }
  }

  /** The segments of a rendered path are the path's names after an empty one. */
  lemma SplitRender(p: Path)
    requires ValidPath(p)
    ensures Segments(Render(p)) == [""] + (if p == [] then [""] else p)
  {
    var joined := JoinWith(p, '/');
    SplitCons('/', joined, {'/'});
    assert Render(p) == ['/'] + joined;
    if p != [] {
      SplitJoin(p, '/');
    }
  }

  lemma NormalizeRender(p: Path)
    requires ValidPath(p)
    ensures Normalize([], Segments(Render(p))) == p
  {
    SplitRender(p);
    var segs := Segments(Render(p));
    assert segs[1..] == if p == [] then [""] else p;
    if p == [] {
      assert segs[1..][1..] == [];
      assert Normalize([], segs[1..]) == [];
    } else {
      NormalizeValid([], p);
      assert [] + p == p;
    }
  }

  /** The operating system reads a rendered path as the path. */
  lemma OsResolveRender(h: Host, p: Path)
    requires WellFormed(h) && ValidPath(p)
    ensures OsResolve(h, Render(p)) == Walk(h, [], p, h.linkLimit)
  {
    SplitRender(p);
    var segs := Segments(Render(p));
    assert segs[1..] == if p == [] then [""] else p;
    if [] in h.nodes && p == [] {
      assert segs[1..][1..] == [];
      assert Walk(h, [], segs[1..], h.linkLimit) == Walk(h, [], [], h.linkLimit);
    }
  }

  lemma DirnameSplit(front: string, last: string)
    requires '/' !in last && (front == "" || IsAbsolute(front))
    ensures Dirname(front + "/" + last) == if front == "" then "/" else front
    ensures (front + "/" + last)[|front| + 1..] == last
  {
    var s := front + "/" + last;
    assert forall i :: |front| < i < |s| ==> s[i] == last[i - |front| - 1];
    assert s[|front|] == '/' && s[..|front|] == front;
    LastSlashAt(s, |front|);
  }

  lemma LastSlashAt(s: string, k: nat)
    requires IsAbsolute(s) && k < |s| && s[k] == '/'
    requires forall i :: k < i < |s| ==> s[i] != '/'
    ensures LastSlash(s) == k
  {
    var last := LastSlash(s);
    assert !(last < k) && !(k < last);
  }

  lemma {:induction false} JoinSnoc(p: seq<string>, last: string, sep: char)
    requires p != []
    ensures JoinWith(p + [last], sep) == JoinWith(p, sep) + [sep] + last
  {
    if |p| == 1 {
      assert (p + [last])[1..] == [last];
    } else {
      assert (p + [last])[1..] == p[1..] + [last];
      JoinSnoc(p[1..], last, sep);
    }
  }

  /**
   * One step of the walk up: `dirname` drops the last name, and the slice after it is that name, or one character less.
   */
  lemma DirnameRender(p: Path)
    requires ValidPath(p) && p != []
    ensures Dirname(Render(p)) == Render(Parent(p))
    ensures |Render(Parent(p))| + 1 <= |Render(p)|
    ensures Render(p)[|Render(Parent(p))| + 1..] ==
            if |p| == 1 then p[0][1..] else p[|p| - 1]
  {
    var last := p[|p| - 1];
    if |p| == 1 {
      DirnameSplit("", last);
      assert Render(p) == "" + "/" + last;
      assert Render(p)[2..] == last[1..];
    } else {
      var q := Parent(p);
      assert p == q + [last];
      JoinSnoc(q, last, '/');
      assert Render(p) == Render(q) + "/" + last;
      DirnameSplit(Render(q), last);
    }
  }

  lemma JoinRender(base: Path, parts: seq<string>)
    requires ValidPath(base)
    requires Slashless(parts)
    ensures IsAbsolute(Render(base))
    ensures Join(Render(base), parts) == Render(Normalize(base, parts))
  {
    NormalizeRender(base);
    NormalizeAppend([], Segments(Render(base)), parts);
  }

  // ------------------------------------------------------------ the code

  function Reverse(s: seq<string>): (r: seq<string>)
    ensures |r| == |s|
    ensures forall i :: 0 <= i < |s| ==> r[i] == s[|s| - 1 - i]
  {
    if s == [] then [] else Reverse(s[1..]) + [s[0]]
  }

  /** The walk up stops here: the real path and the segments put aside make the answer. */
  lemma StopsHere(h: Host, p: Path, n: nat)
    requires WellFormed(h) && ValidPath(p) && n <= |p| && Exists(h, p[..n])
    requires NearestExisting(h, p) <= n
    ensures NearestExisting(h, p) == n
    ensures OsResolve(h, Render(p[..n])) == Walk(h, [], p[..n], h.linkLimit)
    ensures ValidPath(OsResolve(h, Render(p[..n])).at) && IsAbsolute(Render(OsResolve(h, Render(p[..n])).at))
    ensures Join(Render(OsResolve(h, Render(p[..n])).at), Remainder(p, n)) == Render(RealPath(h, p))
    ensures Remainder(p, n) == [] ==> Render(OsResolve(h, Render(p[..n])).at) == Render(RealPath(h, p))
  {
    OsResolveRender(h, p[..n]);
    WalkEndsCanonical(h, [], p[..n], h.linkLimit);
    JoinRender(Walk(h, [], p[..n], h.linkLimit).at, Remainder(p, n));
  }

  /** One step up puts one more segment aside. */
  lemma StepsUp(p: Path, n: nat)
    requires ValidPath(p) && 0 < n <= |p|
    ensures Dirname(Render(p[..n])) == Render(p[..n - 1])
    ensures Render(p[..n]) != "/" && Render(p[..n]) != Render(p[..n - 1])
    ensures |Render(p[..n - 1])| + 1 <= |Render(p[..n])|
    ensures [Render(p[..n])[|Render(p[..n - 1])| + 1..]] + Remainder(p, n) == Remainder(p, n - 1)
  {
    var q := p[..n];
    DirnameRender(q);
    PrefixParent(p, n);
    assert |Render(p[..n - 1])| >= 1;
    RemainderStep(p, n);
  }

  lemma PrefixParent(p: Path, n: nat)
    requires 0 < n <= |p|
    ensures Parent(p[..n]) == p[..n - 1] && |p[..n]| == n && p[..n][0] == p[0] && p[..n][n - 1] == p[n - 1]
  {
  }

  /** One more segment put aside, the first one without its first character. */
  lemma RemainderStep(p: Path, n: nat)
    requires ValidPath(p) && 0 < n <= |p|
    ensures [if n == 1 then p[0][1..] else p[n - 1]] + Remainder(p, n) == Remainder(p, n - 1)
  {
    if n > 1 {
      assert [p[n - 1]] + p[n..] == p[n - 1..];
    }
  }

  /** Resolves a target to a real path, walking up to the nearest existing ancestor. */
  method ResolveRealPath(h: Host, target: string) returns (r: string)
    requires WellFormed(h)
    ensures r == Render(RealPath(h, Resolve(h, target)))
  {
    ghost var p := Resolve(h, target);
    ghost var n := |p|;
    var absolute := Render(Resolve(h, target));
    var existing := absolute;
    var trailing: seq<string> := [];
    assert p[..n] == p;
    while true
      invariant 0 <= n <= |p| && existing == Render(p[..n])
      invariant NearestExisting(h, p) <= n
      invariant Reverse(trailing) == Remainder(p, n)
      decreases n
    {
      OsResolveRender(h, p[..n]);
      var attempt := OsResolve(h, existing);
      if attempt.Reached? {
        StopsHere(h, p, n);
        return if |trailing| > 0 then Join(Render(attempt.at), Reverse(trailing)) else Render(attempt.at);
      }
      if n > 0 {
        StepsUp(p, n);
      }
      if existing == "/" || existing == Dirname(existing) {
        return absolute;
      }
      ReverseSnoc(trailing, existing[|Dirname(existing)| + 1..]);
      trailing := trailing + [existing[|Dirname(existing)| + 1..]];
      existing := Dirname(existing);
      n := n - 1;
    }
  }

  lemma {:induction false} ReverseSnoc(s: seq<string>, last: string)
    ensures Reverse(s + [last]) == [last] + Reverse(s)
  {
  }

  /** Joining one ordinary segment and resolving the result adds just that segment. */
  lemma JoinSegment(h: Host, at: Path, segment: string)
    requires WellFormed(h) && ValidPath(at) && ValidName(segment)
    ensures IsAbsolute(Render(at)) && Join(Render(at), [segment]) == Render(at + [segment])
    ensures Resolve(h, Render(at + [segment])) == at + [segment]
  {
    JoinRender(at, [segment]);
    NormalizeRender(at + [segment]);
    NormalizeValid(at, [segment]);
  }

  lemma DirnameStep(at: Path)
    requires ValidPath(at)
    ensures IsAbsolute(Render(at)) && Dirname(Render(at)) == Render(Parent(at))
  {
    if at != [] {
      DirnameRender(at);
    }
  }

  lemma FollowSnoc(h: Host, at: Path, segs: seq<string>, i: nat)
    requires WellFormed(h) && ValidPath(at) && i < |segs|
    requires Slashless(segs)
    ensures Follow(h, at, segs[i..]) == Follow(h, FollowOne(h, at, segs[i]), segs[i + 1..])
  {
    assert segs[i..][0] == segs[i] && segs[i..][1..] == segs[i + 1..];
  }

  /** Resolves a relative path one segment at a time, following links as it goes. */
  method ResolveRelativeSegments(h: Host, realRoot: string, value: string, ghost root: Path) returns (r: string)
    requires WellFormed(h) && ValidPath(root) && realRoot == Render(root)
    ensures r == Render(Follow(h, root, ValueSegments(value)))
  {
    var segments := ValueSegments(value);
    var current := realRoot;
    ghost var at := root;
    for i := 0 to |segments|
      invariant ValidPath(at) && current == Render(at)
      invariant Follow(h, at, segments[i..]) == Follow(h, root, segments)
    {
      var segment := segments[i];
      FollowSnoc(h, at, segments, i);
      if segment == "" || segment == "." {
        continue;
      }
      if segment == ".." {
        DirnameStep(at);
        current := Dirname(current);
        at := Parent(at);
        continue;
      }
      JoinSegment(h, at, segment);
      current := ResolveRealPath(h, Join(current, [segment]));
      at := FollowOne(h, at, segment);
    }
    return current;
  }

  /** Resolves a path a package supplied and answers whether it stays inside `root`. */
  method ResolveWithinRoot(h: Host, root: string, value: string,
                           requirePluginRelative: bool) returns (answer: Containment)
    requires WellFormed(h)
    ensures answer == WithinRoot(h, root, value, requirePluginRelative)
  {
    if requirePluginRelative && !IsPluginRelative(value) {
      return NotPluginRelative(value);
    }
    var realRoot := ResolveRealPath(h, root);
    var resolved;
    if IsAbsolute(value) {
      resolved := ResolveRealPath(h, value);
    } else {
      resolved := ResolveRelativeSegments(h, realRoot, value, RealPath(h, Resolve(h, root)));
    }
    return if IsWithinResolved(realRoot, resolved) then Inside(resolved) else EscapesRoot(resolved);
  }
}
