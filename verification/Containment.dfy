/** What the resolver of Paths answers, measured against the operating system's walk. */
module Containment {
  import opened Text
  import opened FileSystem
  import opened Paths

  // ------------------------------------------------------------ being inside a root

  lemma {:induction false} RelativePrefix(from: Path, to: Path)
    ensures from <= to ==> RelativeSegments(from, to) == to[|from|..]
    ensures !(from <= to) ==> RelativeSegments(from, to) != [] && RelativeSegments(from, to)[0] == ".."
  {
    if from != [] && to != [] && from[0] == to[0] {
      RelativePrefix(from[1..], to[1..]);
      assert from == [from[0]] + from[1..] && to == [to[0]] + to[1..];
    }
  }

  lemma RelativeRender(from: Path, to: Path)
    requires ValidPath(from) && ValidPath(to)
    ensures Relative(Render(from), Render(to)) == JoinWith(RelativeSegments(from, to), '/')
  {
    NormalizeRender(from);
    NormalizeRender(to);
  }

  lemma {:induction false} RelativeHoldsNoSlash(from: Path, to: Path)
    requires ValidPath(to)
    ensures forall i :: 0 <= i < |RelativeSegments(from, to)| ==>
              '/' !in RelativeSegments(from, to)[i] && RelativeSegments(from, to)[i] != ""
  {
    if from != [] && to != [] && from[0] == to[0] {
      RelativeHoldsNoSlash(from[1..], to[1..]);
    }
  }

  /** The text test on `path.relative` decides exactly whether the root's names are a prefix of the target's. */
  lemma WithinIffPrefix(root: Path, target: Path)
    requires ValidPath(root) && ValidPath(target)
    ensures IsWithinResolved(Render(root), Render(target)) <==> root <= target
  {
    RelativeRender(root, target);
    RelativePrefix(root, target);
    RelativeHoldsNoSlash(root, target);
    var segs := RelativeSegments(root, target);
    var rel := JoinWith(segs, '/');
    if segs != [] {
      SplitJoin(segs, '/');
      StartsWithParent(rel);
    }
  }

  lemma StartsWithParent(rel: string)
    ensures (rel == ".." || StartsWith(rel, "../")) <==> SplitOn(rel, {'/'})[0] == ".."
  {
    FirstPiece(rel, '/');
    if rel == ".." || StartsWith(rel, "../") {
      var rest := rel[2..];
      assert rel == ".." + rest;
      assert rest == "" || rest[0] == '/';
      SplitAtSeparator("..", rest, {'/'});
    }
  }

  // ------------------------------------------------------------ one segment is one lookup

  lemma ExistingIsReal(h: Host, p: Path)
    requires WellFormed(h) && ValidPath(p) && Exists(h, p)
    ensures RealPath(h, p) == Walk(h, [], p, h.linkLimit).at
  {
    assert p[..|p|] == p;
  }

  lemma {:induction false} FollowIsWalk(h: Host, at: Path, segs: seq<string>, links: nat)
    requires WellFormed(h) && Canonical(h, at) && links <= h.linkLimit
    requires Slashless(segs)
    requires Walk(h, at, segs, links).Reached?
    ensures Follow(h, at, segs) == Walk(h, at, segs, links).at
    decreases |segs|
  {
    if segs != [] {
      assert segs == [segs[0]] + segs[1..];
      WalkAppend(h, at, [segs[0]], segs[1..], links);
      var Reached(mid, left) := Walk(h, at, [segs[0]], links);
      WalkEndsCanonical(h, at, [segs[0]], links);
      if ValidName(segs[0]) {
        WalkMoreLinks(h, at, [segs[0]], links, h.linkLimit - links);
        WalkFromCanonical(h, at, [segs[0]], h.linkLimit);
        ExistingIsReal(h, at + [segs[0]]);
      }
      assert FollowOne(h, at, segs[0]) == mid;
      FollowIsWalk(h, mid, segs[1..], left);
    }
  }

  lemma CanonicalRoot(h: Host, root: Path)
    requires WellFormed(h) && Canonical(h, root)
    ensures RealPath(h, Resolve(h, Render(root))) == root
  {
    NormalizeRender(root);
    WalkCanonical(h, root, h.linkLimit);
    ExistingIsReal(h, root);
  }

  /** The operating system reaches `root/value` by walking `value` from the root. */
  lemma OsResolveUnder(h: Host, root: Path, value: string)
    requires WellFormed(h) && Canonical(h, root)
    ensures OsResolve(h, Render(root) + "/" + value) ==
            Walk(h, root, Segments(value), h.linkLimit)
  {
    SplitAround(Render(root), '/', value);
    SplitRender(root);
    var head := SplitOn(Render(root), {'/'});
    WalkAppend(h, [], head, Segments(value), h.linkLimit);
    OsResolveRender(h, root);
    WalkCanonical(h, root, h.linkLimit);
  }

  /**
   * The main result. For a canonical root and a relative value that the operating system can walk, the
   * resolver arrives where the system arrives, and accepts exactly when that place is under the root.
   */
  lemma ContainmentIsTheWalk(h: Host, root: Path, value: string, requirePluginRelative: bool)
    requires WellFormed(h) && Canonical(h, root)
    requires !IsAbsolute(value) && '\\' !in value
    requires requirePluginRelative ==> IsPluginRelative(value)
    requires OsResolve(h, Render(root) + "/" + value).Reached?
    ensures var target := OsResolve(h, Render(root) + "/" + value).at;
            WithinRoot(h, Render(root), value, requirePluginRelative) ==
            if root <= target then Inside(Render(target)) else EscapesRoot(Render(target))
  {
    OsResolveUnder(h, root, value);
    CanonicalRoot(h, root);
    SplitIgnoresAbsent(value, {'/'}, '\\');
    assert {'/'} + {'\\'} == {'/', '\\'};
    FollowIsWalk(h, root, Segments(value), h.linkLimit);
    var target := OsResolve(h, Render(root) + "/" + value).at;
    assert ResolvedPath(h, Render(root), value) == target;
    WithinIffPrefix(root, target);
  }

  // ------------------------------------------------------------ absolute values

  function DropEmpty(segs: seq<string>): (kept: seq<string>)
    ensures forall name :: name in kept ==> name in segs && name != "" && name != "."
  {
    if segs == [] then []
    else if segs[0] == "" || segs[0] == "." then DropEmpty(segs[1..])
    else [segs[0]] + DropEmpty(segs[1..])
  }

  /** One lexical step that takes nothing back. */
  lemma NormalizeStep(base: Path, segs: seq<string>)
    requires ValidPath(base) && Slashless(segs) && segs != [] && ".." !in segs
    ensures Slashless(segs[1..]) && ".." !in segs[1..]
    ensures var next := if segs[0] == "" || segs[0] == "." then base else base + [segs[0]];
            ValidPath(next) && Normalize(base, segs) == Normalize(next, segs[1..])
            && base + DropEmpty(segs) == next + DropEmpty(segs[1..])
  {
    assert segs[0] in segs;
    if segs[0] != "" && segs[0] != "." {
      assert base + ([segs[0]] + DropEmpty(segs[1..])) == base + [segs[0]] + DropEmpty(segs[1..]);
    }
  }

  lemma {:induction false} NormalizeDrops(base: Path, segs: seq<string>)
    requires ValidPath(base) && Slashless(segs) && ".." !in segs
    ensures Normalize(base, segs) == base + DropEmpty(segs)
    decreases |segs|
  {
    if segs == [] {
      assert base + DropEmpty(segs) == base;
    } else {
      NormalizeStep(base, segs);
      NormalizeDrops(if segs[0] == "" || segs[0] == "." then base else base + [segs[0]], segs[1..]);
    }
  }

  lemma {:induction false} WalkDrops(h: Host, at: Path, segs: seq<string>, links: nat)
    requires Walk(h, at, segs, links).Reached?
    ensures Walk(h, at, DropEmpty(segs), links) == Walk(h, at, segs, links)
    decreases |segs|
  {
    if segs != [] {
      assert segs == [segs[0]] + segs[1..];
      WalkAppend(h, at, [segs[0]], segs[1..], links);
      var Reached(mid, left) := Walk(h, at, [segs[0]], links);
      WalkDrops(h, mid, segs[1..], left);
      WalkAppend(h, at, [segs[0]], DropEmpty(segs[1..]), links);
    }
  }

  /** An absolute value without `..` is resolved as the system resolves it, and judged against the root. */
  lemma AbsoluteValueIsTheWalk(h: Host, root: Path, value: string)
    requires WellFormed(h) && Canonical(h, root)
    requires IsAbsolute(value) && ".." !in Segments(value)
    requires OsResolve(h, value).Reached?
    ensures var target := OsResolve(h, value).at;
            WithinRoot(h, Render(root), value, false) ==
            if root <= target then Inside(Render(target)) else EscapesRoot(Render(target))
  {
    var segs := Segments(value);
    NormalizeDrops([], segs);
    assert [] + DropEmpty(segs) == DropEmpty(segs);
    WalkDrops(h, [], segs, h.linkLimit);
    WalkEndsCanonical(h, [], segs, h.linkLimit);
    ExistingIsReal(h, Resolve(h, value));
    CanonicalRoot(h, root);
    WithinIffPrefix(root, OsResolve(h, value).at);
  }

  // ------------------------------------------------------------ paths that do not exist yet

  /** Ancestors of a path that exists exist. */
  lemma ExistsClosed(h: Host, p: Path, k: nat)
    requires k <= |p| && Exists(h, p)
    ensures Exists(h, p[..k])
  {
    assert p == p[..k] + p[k..];
    WalkAppend(h, [], p[..k], p[k..], h.linkLimit);
  }

  lemma DropOneIsShorter(p: Path)
    requires ValidPath(p) && p != []
    ensures |Normalize([], [p[0][1..]] + p[1..])| <= |p|
    ensures Normalize([], [p[0][1..]] + p[1..]) != p
  {
    var cut := p[0][1..];
    assert forall c :: c in cut ==> c in p[0];
    var segs := [cut] + p[1..];
    assert segs[1..] == p[1..];
    if cut == "" || cut == "." || cut == ".." {
      NormalizeValid([], p[1..]);
      assert Normalize([], segs) == [] + p[1..];
    } else {
      NormalizeValid([cut], p[1..]);
      assert [] + [cut] == [cut] && ValidPath([cut]);
      assert Normalize([], segs) == [cut] + p[1..];
      assert ([cut] + p[1..])[0] != p[0];
    }
  }

  /**
   * The walk up. The result is the real path of the longest existing ancestor followed by the missing
   * names in order, exactly when the path is the filesystem root or its first name exists: below a
   * missing top-level name the slice loses a character.
   */
  lemma WalkUpKeepsTheRemainder(h: Host, p: Path)
    requires WellFormed(h) && ValidPath(p) && Exists(h, [])
    ensures NearestExisting(h, p) >= 0
    ensures var k := NearestExisting(h, p);
            RealPath(h, p) == Walk(h, [], p[..k], h.linkLimit).at + p[k..]
            <==> p == [] || Exists(h, p[..1])
  {
    assert p[..0] == [];
    var k := NearestExisting(h, p);
    var resolved := Walk(h, [], p[..k], h.linkLimit).at;
    WalkEndsCanonical(h, [], p[..k], h.linkLimit);
    if k > 0 || p == [] {
      if k > 0 {
        ExistsClosed(h, p[..k], 1);
        assert p[..k][..1] == p[..1];
      }
      NormalizeValid(resolved, p[k..]);
    } else {
      WalkCanonical(h, [], h.linkLimit);
      assert resolved == [] && resolved + p[0..] == p;
      DropOneIsShorter(p);
    }
  }

  /** With nothing readable, not even the filesystem root, the lexical path comes back. */
  lemma WalkUpWithoutRoot(h: Host, p: Path)
    requires WellFormed(h) && ValidPath(p) && !Exists(h, [])
    ensures RealPath(h, p) == p
  {
    if NearestExisting(h, p) >= 0 {
      ExistsClosed(h, p[..NearestExisting(h, p)], 0);
    }
  }

  /** A missing top-level entry: `/ab` on an otherwise empty machine comes back as `/b`. */
  lemma WalkUpAtTheFilesystemRoot()
    ensures var h := Host(map[[] := Directory], [], 40);
            WellFormed(h) && RealPath(h, Resolve(h, "/ab")) == ["b"]
  {
    var h := Host(map[[] := Directory], [], 40);
    assert SitsInDirectory(h, []);
    assert Render(["ab"]) == "/ab";
    NormalizeRender(["ab"]);
    assert !Exists(h, ["ab"]);
    assert ["ab"][..0] == [];
    assert NearestExisting(h, ["ab"]) == 0;
    assert "ab"[1..] == "b";
    assert Remainder(["ab"], 0) == ["b"];
  }

  lemma RealPathOfMissing(h: Host, at: Path, tail: Path)
    requires WellFormed(h) && Canonical(h, at) && at != []
    requires tail != [] && ValidPath(tail) && at + [tail[0]] !in h.nodes
    ensures RealPath(h, at + tail) == at + tail
  {
    var p := at + tail;
    var k := |at|;
    assert p[..k] == at && p[k..] == tail;
    WalkCanonical(h, at, h.linkLimit);
    assert forall j :: k < j <= |p| ==> !Exists(h, p[..j]) by {
      forall j | k < j <= |p| ensures !Exists(h, p[..j]) {
        if Exists(h, p[..j]) {
          ExistsClosed(h, p[..j], k + 1);
          assert p[..j][..k + 1] == at + [tail[0]];
          WalkFromCanonical(h, at, [tail[0]], h.linkLimit);
        }
      }
    }
    assert Exists(h, p[..k]);
    assert NearestExisting(h, p) == k;
    NormalizeValid(at, tail);
  }

  lemma {:induction false} FollowIntoMissing(h: Host, at: Path, done: Path, tail: Path)
    requires WellFormed(h) && Canonical(h, at) && at != []
    requires ValidPath(done) && ValidPath(tail)
    requires done + tail != [] && at + [(done + tail)[0]] !in h.nodes
    ensures Follow(h, at + done, tail) == at + done + tail
    decreases |tail|
  {
    if tail == [] {
      assert at + done + tail == at + done;
    } else {
      var next := done + [tail[0]];
      assert at + next == at + done + [tail[0]];
      RealPathOfMissing(h, at, next);
      assert next + tail[1..] == done + tail;
      FollowIntoMissing(h, at, next, tail[1..]);
      assert at + next + tail[1..] == at + done + tail;
    }
  }

  lemma {:induction false} FollowAppend(h: Host, at: Path, first: seq<string>, second: seq<string>)
    requires WellFormed(h) && ValidPath(at)
    requires Slashless(first)
    requires Slashless(second)
    ensures Follow(h, at, first + second) == Follow(h, Follow(h, at, first), second)
    decreases |first|
  {
    if first == [] {
      assert first + second == second;
    } else {
      assert (first + second)[1..] == first[1..] + second;
      FollowAppend(h, FollowOne(h, at, first[0]), first[1..], second);
    }
  }

  /**
   * A path the package is about to create: an existing part, then names that are not there. It resolves
   * to the place the existing part leads to with those names under it, wherever the links led.
   */
  lemma PendingPathIsContained(h: Host, root: Path, value: string, head: seq<string>, tail: Path)
    requires WellFormed(h) && Canonical(h, root)
    requires !IsAbsolute(value) && '\\' !in value && Segments(value) == head + tail
    requires Walk(h, root, head, h.linkLimit).Reached?
    requires ValidPath(tail) && tail != []
    requires var mid := Walk(h, root, head, h.linkLimit).at; mid != [] && mid + [tail[0]] !in h.nodes
    ensures var pending := Walk(h, root, head, h.linkLimit).at + tail;
            WithinRoot(h, Render(root), value, false) ==
            if root <= pending then Inside(Render(pending)) else EscapesRoot(Render(pending))
  {
    var segs := Segments(value);
    SplitIgnoresAbsent(value, {'/'}, '\\');
    assert {'/'} + {'\\'} == {'/', '\\'};
    assert forall i :: 0 <= i < |head| ==> head[i] == segs[i];
    FollowIsWalk(h, root, head, h.linkLimit);
    WalkEndsCanonical(h, root, head, h.linkLimit);
    var mid := Walk(h, root, head, h.linkLimit).at;
    FollowAppend(h, root, head, tail);
    assert mid + [] == mid && [] + tail == tail;
    FollowIntoMissing(h, mid, [], tail);
    CanonicalRoot(h, root);
    WithinIffPrefix(root, mid + tail);
  }
}
