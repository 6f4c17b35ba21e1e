/** Which loaded servers stay in the package: what the loader keeps to, and the exact texts it keeps to it for. */
module McpContainment {
  import opened Wrappers
  import opened Text
  import opened FileSystem
  import opened Paths
  import opened PackageFiles
  import opened Mcp
  import Containment
  import McpOutcome
  import Ordering

  // ------------------------------------------------------------ texts the check judges as the system does

  /** The names in a remainder: what is left of its segments without the empty ones and the dots. */
  function NamesIn(value: string): seq<string> {
    Containment.DropEmpty(Segments(value))
  }

  /** The remainder names nothing, or is relative and holds no backslash. */
  predicate Sound(value: string) {
    NamesIn(value) == [] || (!IsAbsolute(value) && '\\' !in value)
  }

  /** The place the remainder names under the real root, when the system finds it. */
  function Place(h: Host, root: string, value: string): WalkResult
    requires WellFormed(h)
  {
    OsResolve(h, Render(RealRoot(h, root)) + "/" + value)
  }

  /** The place, when the system finds it, lies under the real root. */
  predicate LandsInside(h: Host, root: string, value: string)
    requires WellFormed(h)
  {
    Place(h, root, value).Reached? ==> RealRoot(h, root) <= Place(h, root, value).at
  }

  lemma NamelessLandsInside(h: Host, root: string, value: string)
    requires WellFormed(h) && Canonical(h, RealRoot(h, root)) && NamesIn(value) == []
    ensures LandsInside(h, root, value)
  {
    Containment.OsResolveUnder(h, RealRoot(h, root), value);
    if Place(h, root, value).Reached? {
      Containment.WalkDrops(h, RealRoot(h, root), Segments(value), h.linkLimit);
    }
  }

  /** What passes the check lands inside, if its text is sound. */
  lemma SoundStaysInside(h: Host, root: string, value: string)
    requires WellFormed(h) && Canonical(h, RealRoot(h, root)) && IsContained(h, root, value) && Sound(value)
    ensures LandsInside(h, root, value)
  {
    var top := RealRoot(h, root);
    if NamesIn(value) == [] {
      NamelessLandsInside(h, root, value);
    } else if Place(h, root, value).Reached? {
      Containment.CanonicalRoot(h, top);
      assert WithinRoot(h, Render(top), value, false) == WithinRoot(h, root, value, false);
      Containment.ContainmentIsTheWalk(h, top, value, false);
    }
  }

  // ------------------------------------------------------------ what is loaded stays inside

  /** The file a plugin-relative command names, and the directory a `cwd` anchored in the package names. */
  ghost predicate ServerStaysInside(h: Host, root: string, s: Server)
    requires WellFormed(h)
  {
    s.StdioServer? ==>
      && (StartsWith(s.command, "./") && Sound(s.command[2..]) ==> LandsInside(h, root, s.command[2..]))
      && (s.cwd.Some? && s.cwdAnchor.Some? && !s.cwdAnchor.value.PluginData?
          && Sound(CwdRemainder(s.cwd.value, s.cwdAnchor.value)) ==>
            LandsInside(h, root, CwdRemainder(s.cwd.value, s.cwdAnchor.value)))
  }

  lemma CleanServerStaysInside(h: Host, root: string, s: Server)
    requires WellFormed(h) && Canonical(h, RealRoot(h, root)) && ContainmentFindings(h, root, s) == []
    ensures ServerStaysInside(h, root, s)
  {
    if s.StdioServer? {
      assert !CommandEscapes(h, root, s) && !CwdEscapes(h, root, s);
      if StartsWith(s.command, "./") && Sound(s.command[2..]) {
        SoundStaysInside(h, root, s.command[2..]);
      }
      if s.cwd.Some? && s.cwdAnchor.Some? && !s.cwdAnchor.value.PluginData?
         && Sound(CwdRemainder(s.cwd.value, s.cwdAnchor.value)) {
        SoundStaysInside(h, root, CwdRemainder(s.cwd.value, s.cwdAnchor.value));
      }
    }
  }

  /**
   * Of the servers the document check accepts the loader drops those, and only those, that the containment check
   * objects to; and what a server it returns names by a sound text stays in the package, links followed.
   */
  lemma LoadedServersStayInside(d: Disk, root: string, client: Client)
    requires WellFormed(d.host) && ReadConfig(d, root).Document?
    requires DocumentProblem(ReadConfig(d, root).value, client).None?
    ensures var parsed, loaded := Validated(ReadConfig(d, root).value, client), Load(d, root, client);
            && (forall s :: s in loaded.servers ==> ServerStaysInside(d.host, root, s))
            && (forall s :: s in loaded.servers <==> s in parsed.servers && ContainmentFindings(d.host, root, s) == [])
  {
    var servers := Validated(ReadConfig(d, root).value, client).servers;
    ConfigIsThere(d, root);
    RootIsReal(d.host, root, ["mcp.json"]);
    KeptStayInside(d.host, root, servers);
  }

  lemma ConfigIsThere(d: Disk, root: string)
    requires WellFormed(d.host) && ReadConfig(d, root).Document?
    ensures ValidPath(["mcp.json"]) && Stat(d.host, Resolve(d.host, root) + ["mcp.json"]).Reached?
  {
  }

  lemma KeptStayInside(h: Host, root: string, servers: seq<Server>)
    requires WellFormed(h) && Canonical(h, RealRoot(h, root))
    ensures forall s :: s in ContainedServers(h, root, servers) ==> ServerStaysInside(h, root, s)
    ensures forall s :: s in ContainedServers(h, root, servers) <==>
              s in servers && ContainmentFindings(h, root, s) == []
  {
    forall s ensures s in ContainedServers(h, root, servers) <==>
      s in servers && ContainmentFindings(h, root, s) == [] {
      McpOutcome.ContainedIff(h, root, servers, s);
    }
    forall s | s in ContainedServers(h, root, servers) ensures ServerStaysInside(h, root, s) {
      CleanServerStaysInside(h, root, s);
    }
  }

  // ------------------------------------------------------------ pieces of a text

  /** A piece without the second separator is a piece of the finer split. */
  lemma {:induction false} FinerPieces(s: string, a: char, b: char)
    ensures b !in SplitOn(s, {a})[0] ==> SplitOn(s, {a})[0] == SplitOn(s, {a, b})[0]
    ensures forall piece :: piece in SplitOn(s, {a})[1..] && b !in piece ==> piece in SplitOn(s, {a, b})[1..]
  {
    if s != "" {
      FinerPieces(s[1..], a, b);
      var coarse, fine := SplitOn(s[1..], {a}), SplitOn(s[1..], {a, b});
      assert forall piece :: piece in coarse <==> piece == coarse[0] || piece in coarse[1..];
      assert forall piece :: piece in fine <==> piece == fine[0] || piece in fine[1..];
      if s[0] == a {
        assert SplitOn(s, {a})[1..] == coarse && SplitOn(s, {a, b})[1..] == fine;
      } else {
        assert SplitOn(s, {a})[1..] == coarse[1..];
        if s[0] == b {
          assert b in SplitOn(s, {a})[0] && SplitOn(s, {a, b})[1..] == fine;
        } else {
          assert SplitOn(s, {a, b})[1..] == fine[1..];
        }
      }
    }
  }

  /** Text the document check lets through has no `..` for the system either. */
  lemma NoParentSegment(value: string)
    requires ".." !in ValueSegments(value)
    ensures ".." !in Segments(value)
  {
    FinerPieces(value, '/', '\\');
    var coarse, fine := Segments(value), ValueSegments(value);
    assert {'/'} + {'\\'} == {'/', '\\'};
    assert fine[0] in fine && forall piece :: piece in fine[1..] ==> piece in fine;
    assert forall piece :: piece in coarse <==> piece == coarse[0] || piece in coarse[1..];
    assert '\\' !in "..";
  }

  /** Every character but a separator is in some piece. */
  lemma {:induction false} CharacterInPiece(s: string, seps: set<char>, c: char)
    requires c in s && c !in seps
    ensures exists i :: 0 <= i < |SplitOn(s, seps)| && c in SplitOn(s, seps)[i]
  {
    var pieces, rest := SplitOn(s, seps), SplitOn(s[1..], seps);
    if s[0] == c {
      assert c in pieces[0];
    } else {
      CharacterInPiece(s[1..], seps, c);
      var i :| 0 <= i < |rest| && c in rest[i];
      if s[0] in seps {
        assert pieces[i + 1] == rest[i];
      } else if i == 0 {
        assert pieces[0] == [s[0]] + rest[0];
      } else {
        assert pieces[i] == rest[i];
      }
    }
  }

  /** The names in a text without `..` are names the system allows. */
  lemma {:induction false} NamesAreValid(segs: seq<string>)
    requires Slashless(segs) && ".." !in segs
    ensures ValidPath(Containment.DropEmpty(segs))
    ensures forall piece :: piece in segs && piece != "" && piece != "." ==> piece in Containment.DropEmpty(segs)
  {
    if segs != [] {
      assert segs[0] in segs && Slashless(segs[1..]);
      NamesAreValid(segs[1..]);
      assert forall piece :: piece in segs <==> piece == segs[0] || piece in segs[1..];
    }
  }

  // ------------------------------------------------------------ a machine on which an unsound text leaves

  /** A name none of these begins with. */
  function Fresh(names: seq<string>): string
    requires names != []
  {
    seq(|names[0]| + 1, _ => 'x')
  }

  function Places(names: Path, home: string): set<Path> {
    (set j | 0 <= j <= |names| :: names[..j]) + (set j | 0 <= j <= |names| :: [home] + names[..j])
    + {[home, "mcp.json"]}
  }

  function NodeAt(names: Path, home: string, p: Path): Node {
    if p == names then Link("/" + home)
    else if p == [home] + names then Link("/")
    else if p == [home, "mcp.json"] then File
    else Directory
  }

  /**
   * A package at a fresh place. Seen from the filesystem root the names lead, by a link at their end, to the package;
   * seen from the package they lead, by a link at their end, to the filesystem root.
   */
  function Crossed(names: Path): Host
    requires names != []
  {
    Host(map p | p in Places(names, Fresh(names)) :: NodeAt(names, Fresh(names), p), [], 40)
  }

  predicate Named(names: Path) {
    names != [] && ValidPath(names) && names[0] != "mcp.json"
  }

  lemma CrossedNodes(names: Path)
    requires Named(names)
    ensures var h, home := Crossed(names), Fresh(names);
            && (forall j :: 0 <= j < |names| ==> names[..j] in h.nodes && h.nodes[names[..j]] == Directory)
            && (forall j :: 0 <= j < |names| ==>
                  [home] + names[..j] in h.nodes && h.nodes[[home] + names[..j]] == Directory)
            && names in h.nodes && h.nodes[names] == Link("/" + home)
            && [home] + names in h.nodes && h.nodes[[home] + names] == Link("/")
            && [home, "mcp.json"] in h.nodes && h.nodes[[home, "mcp.json"]] == File
    ensures forall p :: p in Crossed(names).nodes && Crossed(names).nodes[p].Link? ==>
              p == names || p == [Fresh(names)] + names
  {
    var home := Fresh(names);
    assert names[..|names|] == names && home != names[0];
    forall j | 0 <= j < |names| ensures NodeAt(names, home, names[..j]) == Directory {
      assert |names[..j]| < |names|;
      assert j > 0 ==> names[..j][0] == names[0];
    }
    forall j | 0 <= j < |names| ensures NodeAt(names, home, [home] + names[..j]) == Directory {
      assert ([home] + names[..j])[0] == home;
      assert j > 0 ==> ([home] + names[..j])[1] == names[0];
    }
    assert ([home] + names)[0] == home && ([home] + names)[1] == names[0];
    assert [home] + names in Places(names, home) && names in Places(names, home);
  }

  lemma HomeIsName(names: Path)
    requires Named(names)
    ensures ValidName(Fresh(names)) && ValidName("mcp.json")
  {
    assert Fresh(names)[0] == 'x';
  }

  lemma PlaceSits(names: Path, p: Path)
    requires Named(names) && p in Crossed(names).nodes
    ensures ValidPath(p) && SitsInDirectory(Crossed(names), p)
  {
    CrossedNodes(names);
    HomeIsName(names);
    PlaceIsValid(names, Fresh(names), p);
  }

  lemma CrossedIsWellFormed(names: Path)
    requires Named(names)
    ensures WellFormed(Crossed(names)) && Canonical(Crossed(names), [Fresh(names)])
  {
    var h, home := Crossed(names), Fresh(names);
    forall p | p in h.nodes ensures ValidPath(p) && SitsInDirectory(h, p) {
      PlaceSits(names, p);
    }
    CrossedEnds(names);
  }

  lemma CrossedEnds(names: Path)
    requires Named(names)
    ensures var nodes, home := Crossed(names).nodes, Fresh(names);
            [] in nodes && nodes[[]] == Directory && [home] in nodes && nodes[[home]] == Directory
  {
    CrossedNodes(names);
    assert names[..0] == [] && [Fresh(names)] + names[..0] == [Fresh(names)];
  }

  lemma PlaceIsValid(names: Path, home: string, p: Path)
    requires Named(names) && ValidName(home) && ValidName("mcp.json") && p in Places(names, home)
    ensures ValidPath(p)
    ensures p == [] || (exists j :: 0 <= j < |names| && Parent(p) == names[..j])
            || (exists j :: 0 <= j < |names| && Parent(p) == [home] + names[..j])
  {
    if j :| 0 <= j <= |names| && p == names[..j] {
      if j > 0 {
        assert Parent(p) == names[..j - 1];
      }
    } else if j :| 0 <= j <= |names| && p == [home] + names[..j] {
      if j > 0 {
        assert Parent(p) == [home] + names[..j - 1];
      } else {
        assert Parent(p) == names[..0];
      }
    } else {
      assert Parent(p) == [home] + names[..0];
    }
  }

  /** A chain of directories with a link at its end leads where the link leads. */
  lemma {:induction false} ChainWalk(h: Host, base: Path, names: Path, links: nat, target: string)
    requires names != [] && ValidPath(names) && links > 0 && IsAbsolute(target)
    requires forall j :: 0 <= j < |names| ==> base + names[..j] in h.nodes && h.nodes[base + names[..j]] == Directory
    requires base + names in h.nodes && h.nodes[base + names] == Link(target)
    ensures Walk(h, base, names, links) == Walk(h, [], SplitOn(target, {'/'}), links - 1)
    decreases |names|
  {
    assert base + names[..0] == base;
    if |names| == 1 {
      assert names == [names[0]] && names[1..] == [];
      assert SplitOn(target, {'/'}) + names[1..] == SplitOn(target, {'/'});
    } else {
      var next := base + [names[0]];
      assert next == base + names[..1];
      forall j | 0 <= j < |names[1..]| ensures next + names[1..][..j] == base + names[..j + 1] {
        assert [names[0]] + names[1..][..j] == names[..j + 1];
      }
      assert next + names[1..] == base + names;
      ChainWalk(h, next, names[1..], links, target);
    }
  }

  /** Empty segments and dots make no difference to a walk that ends in a directory. */
  lemma {:induction false} WalkWithEmpties(h: Host, at: Path, segs: seq<string>, links: nat)
    requires Walk(h, at, Containment.DropEmpty(segs), links).Reached?
    requires var end := Walk(h, at, Containment.DropEmpty(segs), links).at; end in h.nodes && h.nodes[end].Directory?
    ensures Walk(h, at, segs, links) == Walk(h, at, Containment.DropEmpty(segs), links)
    decreases |segs|
  {
    if segs != [] {
      var rest := Containment.DropEmpty(segs[1..]);
      if segs[0] == "" || segs[0] == "." {
        WalkWithEmpties(h, at, segs[1..], links);
      } else {
        assert segs == [segs[0]] + segs[1..];
        WalkAppend(h, at, [segs[0]], rest, links);
        WalkAppend(h, at, [segs[0]], segs[1..], links);
        var Reached(mid, left) := Walk(h, at, [segs[0]], links);
        WalkWithEmpties(h, mid, segs[1..], left);
      }
    }
  }

  lemma ShortWalks(h: Host, home: string, links: nat)
    requires WellFormed(h) && [] in h.nodes && Canonical(h, [home])
    ensures Walk(h, [], SplitOn("/" + home, {'/'}), links) == Reached([home], links)
    ensures Walk(h, [], SplitOn("/", {'/'}), links) == Reached([], links)
  {
    SplitRender([home]);
    assert Render([home]) == "/" + home && SplitOn("/" + home, {'/'}) == [""] + [home];
    assert ([""] + [home])[1..] == [home];
    WalkCanonical(h, [home], links);
    SplitRender([]);
    assert Render([]) == "/" && SplitOn("/", {'/'}) == [""] + [""];
    assert ([""] + [""])[1..] == [""] && [""][1..] == [];
    assert h.nodes[[]].Directory?;
    assert Walk(h, [], [""], links) == Walk(h, [], [""][1..], links);
  }

  lemma CrossedWalks(names: Path)
    requires Named(names)
    ensures var h := Crossed(names);
            && Walk(h, [], names, h.linkLimit) == Reached([Fresh(names)], h.linkLimit - 1)
            && Walk(h, [Fresh(names)], names, h.linkLimit) == Reached([], h.linkLimit - 1)
  {
    var h, home := Crossed(names), Fresh(names);
    CrossedIsWellFormed(names);
    CrossedEnds(names);
    ShortWalks(h, home, h.linkLimit - 1);
    CrossedChains(names);
  }

  lemma CrossedChains(names: Path)
    requires Named(names)
    ensures var h, home := Crossed(names), Fresh(names);
            && Walk(h, [], names, h.linkLimit) == Walk(h, [], SplitOn("/" + home, {'/'}), h.linkLimit - 1)
            && Walk(h, [home], names, h.linkLimit) == Walk(h, [], SplitOn("/", {'/'}), h.linkLimit - 1)
  {
    CrossedNodes(names);
    ChainFromTop(Crossed(names), names, "/" + Fresh(names));
    ChainWalk(Crossed(names), [Fresh(names)], names, Crossed(names).linkLimit, "/");
  }

  lemma ChainFromTop(h: Host, names: Path, target: string)
    requires names != [] && ValidPath(names) && h.linkLimit > 0 && IsAbsolute(target)
    requires forall j :: 0 <= j < |names| ==> names[..j] in h.nodes && h.nodes[names[..j]] == Directory
    requires names in h.nodes && h.nodes[names] == Link(target)
    ensures Walk(h, [], names, h.linkLimit) == Walk(h, [], SplitOn(target, {'/'}), h.linkLimit - 1)
  {
    assert [] + names == names;
    forall j | 0 <= j < |names| ensures [] + names[..j] == names[..j] {
    }
    ChainWalk(h, [], names, h.linkLimit, target);
  }

  /** There the text leaves the package. */
  lemma CrossedLeaves(value: string)
    requires Named(NamesIn(value))
    ensures var h, home := Crossed(NamesIn(value)), Fresh(NamesIn(value));
            && WellFormed(h) && RealRoot(h, "/" + home) == [home] && Canonical(h, [home])
            && Place(h, "/" + home, value).Reached? && Place(h, "/" + home, value).at == []
            && !LandsInside(h, "/" + home, value)
  {
    var names := NamesIn(value);
    var h, home := Crossed(names), Fresh(names);
    CrossedIsWellFormed(names);
    CrossedEnds(names);
    CrossedWalks(names);
    assert Render([home]) == "/" + home;
    Containment.CanonicalRoot(h, [home]);
    Containment.OsResolveUnder(h, [home], value);
    WalkWithEmpties(h, [home], Segments(value), h.linkLimit);
  }

  // ------------------------------------------------------------ there the check objects to nothing

  /** An absolute text is resolved from the filesystem root, where its names lead to the package. */
  lemma CrossedPassesAbsolute(value: string)
    requires Named(NamesIn(value)) && IsAbsolute(value) && ".." !in Segments(value)
    requires WellFormed(Crossed(NamesIn(value)))
    ensures IsContained(Crossed(NamesIn(value)), "/" + Fresh(NamesIn(value)), value)
  {
    var names := NamesIn(value);
    var h, home := Crossed(names), Fresh(names);
    CrossedIsWellFormed(names);
    CrossedEnds(names);
    CrossedWalks(names);
    Containment.NormalizeDrops([], Segments(value));
    assert [] + names == names;
    Containment.ExistingIsReal(h, names);
    assert Render([home]) == "/" + home;
    Containment.CanonicalRoot(h, [home]);
    Containment.WithinIffPrefix([home], [home]);
  }

  /** A path whose first name is there and that has no link on it is its own real path. */
  lemma {:induction false} LinklessWalk(h: Host, p: Path, links: nat)
    requires WellFormed(h) && Walk(h, [], p, links).Reached?
    requires ValidPath(p) && forall j :: 0 <= j <= |p| && p[..j] in h.nodes ==> !h.nodes[p[..j]].Link?
    ensures Walk(h, [], p, links) == Reached(p, links)
  {
    if p != [] {
      var q, last := p[..|p| - 1], p[|p| - 1];
      assert p == q + [last] && forall j :: 0 <= j <= |q| ==> q[..j] == p[..j];
      WalkAppend(h, [], q, [last], links);
      LinklessWalk(h, q, links);
      assert p[..|p|] == p && [last][1..] == [];
    }
  }

  lemma LinklessIsReal(h: Host, p: Path)
    requires WellFormed(h) && ValidPath(p) && p != [] && Exists(h, p[..1])
    requires forall j :: 0 <= j <= |p| && p[..j] in h.nodes ==> !h.nodes[p[..j]].Link?
    ensures RealPath(h, p) == p
  {
    var k := NearestExisting(h, p);
    assert forall j :: 0 <= j <= |p[..k]| ==> p[..k][..j] == p[..j];
    LinklessWalk(h, p[..k], h.linkLimit);
    NormalizeValid(p[..k], p[k..]);
  }

  /** No segment holds a backslash. */
  predicate Unslashed(segs: seq<string>) {
    forall i :: 0 <= i < |segs| ==> '\\' !in segs[i]
  }

  /** On such a machine segments without backslashes follow no link, when the names hold one. */
  lemma {:induction false} CrossedFollow(names: Path, at: Path, segs: seq<string>)
    requires Named(names) && !Unslashed(names) && WellFormed(Crossed(names))
    requires ValidPath(at) && [Fresh(names)] <= at && Unslashed(at)
    requires Slashless(segs) && Unslashed(segs) && ".." !in segs
    ensures [Fresh(names)] <= Follow(Crossed(names), at, segs)
    decreases |segs|
  {
    if segs != [] {
      var h, segment := Crossed(names), segs[0];
      assert segment in segs && forall piece :: piece in segs[1..] ==> piece in segs;
      var next := if segment == "" || segment == "." then at else at + [segment];
      if segment != "" && segment != "." {
        CrossedIsReal(names, next);
      }
      assert FollowOne(h, at, segment) == next;
      CrossedFollow(names, next, segs[1..]);
    }
  }

  lemma CrossedIsReal(names: Path, p: Path)
    requires Named(names) && !Unslashed(names) && WellFormed(Crossed(names))
    requires ValidPath(p) && [Fresh(names)] <= p && Unslashed(p)
    ensures RealPath(Crossed(names), p) == p
  {
    var h, home := Crossed(names), Fresh(names);
    CrossedNodes(names);
    CrossedIsWellFormed(names);
    WalkCanonical(h, [home], h.linkLimit);
    assert p[..1] == [home];
    forall j | 0 <= j <= |p| && p[..j] in h.nodes ensures !h.nodes[p[..j]].Link? {
      NotTheLinks(names, p, j);
    }
    LinklessIsReal(h, p);
  }

  lemma NotTheLinks(names: Path, p: Path, j: nat)
    requires Named(names) && !Unslashed(names) && [Fresh(names)] <= p && Unslashed(p) && j <= |p|
    ensures p[..j] != names && p[..j] != [Fresh(names)] + names
  {
    var i :| 0 <= i < |names| && '\\' in names[i];
    assert ([Fresh(names)] + names)[i + 1] == names[i];
    assert i < j ==> '\\' !in p[..j][i];
    assert i + 1 < j ==> '\\' !in p[..j][i + 1];
  }

  /** A backslash parts names for the check and not for the system. */
  lemma CrossedPassesBackslash(value: string)
    requires Named(NamesIn(value)) && !IsAbsolute(value) && '\\' in value && ".." !in ValueSegments(value)
    requires WellFormed(Crossed(NamesIn(value)))
    ensures IsContained(Crossed(NamesIn(value)), "/" + Fresh(NamesIn(value)), value)
  {
    var names := NamesIn(value);
    var h, home := Crossed(names), Fresh(names);
    CrossedIsWellFormed(names);
    BackslashIsNamed(value);
    PiecesHoldNoSeparator(value, {'/', '\\'});
    assert Render([home]) == "/" + home;
    Containment.CanonicalRoot(h, [home]);
    CrossedFollow(names, [home], ValueSegments(value));
    Containment.WithinIffPrefix([home], Follow(h, [home], ValueSegments(value)));
  }

  lemma BackslashIsNamed(value: string)
    requires '\\' in value && ".." !in ValueSegments(value)
    ensures NamesIn(value) != [] && !Unslashed(NamesIn(value))
  {
    CharacterInPiece(value, {'/'}, '\\');
    NoParentSegment(value);
    NamesAreValid(Segments(value));
    var i :| 0 <= i < |Segments(value)| && '\\' in Segments(value)[i];
    var piece := Segments(value)[i];
    assert piece in NamesIn(value);
    var k :| 0 <= k < |NamesIn(value)| && NamesIn(value)[k] == piece;
  }

  /** An unsound text passes the check and leaves the package. */
  lemma UnsoundLeaves(value: string)
    requires !Sound(value) && ".." !in ValueSegments(value) && NamesIn(value)[0] != "mcp.json"
    ensures var h, home := Crossed(NamesIn(value)), Fresh(NamesIn(value));
            && Named(NamesIn(value)) && WellFormed(h) && RealRoot(h, "/" + home) == [home]
            && IsContained(h, "/" + home, value)
            && Place(h, "/" + home, value).Reached? && Place(h, "/" + home, value).at == []
            && !LandsInside(h, "/" + home, value)
  {
    NoParentSegment(value);
    NamesAreValid(Segments(value));
    CrossedLeaves(value);
    if IsAbsolute(value) {
      CrossedPassesAbsolute(value);
    } else {
      CrossedPassesBackslash(value);
    }
  }

  // ------------------------------------------------------------ a name that is the configuration itself

  /** What a name leads to is the same under the root as given and under the real root. */
  lemma SameUnderRealRoot(h: Host, root: string, name: string)
    requires WellFormed(h) && ValidPath([name]) && Stat(h, Resolve(h, root) + [name]).Reached?
    ensures var found := Walk(h, RealRoot(h, root), [name], h.linkLimit);
            found.Reached? && found.at == Stat(h, Resolve(h, root) + [name]).at
  {
    var at := Resolve(h, root);
    OsResolveRender(h, at + [name]);
    WalkAppend(h, [], at, [name], h.linkLimit);
    Containment.ExistingIsReal(h, at);
    var Reached(top, left) := Walk(h, [], at, h.linkLimit);
    WalkEndsCanonical(h, [], at, h.linkLimit);
    WalkMoreLinks(h, top, [name], left, h.linkLimit - left);
  }

  lemma ConfigFacts(d: Disk, root: string)
    requires WellFormed(d.host) && ReadConfig(d, root).Document?
    ensures IsRegularFile(d.host, Resolve(d.host, root) + ["mcp.json"]) && IsContained(d.host, root, "mcp.json")
    ensures ValidPath(["mcp.json"])
  {
  }

  lemma ConfigIsAFile(d: Disk, root: string)
    requires WellFormed(d.host) && ReadConfig(d, root).Document?
    ensures var h, top := d.host, RealRoot(d.host, root);
            var file := Walk(h, top, ["mcp.json"], h.linkLimit);
            file.Reached? && file.at in h.nodes && h.nodes[file.at].File? && top <= file.at && Canonical(h, top)
  {
    ConfigFacts(d, root);
    ConfigOfPackage(d.host, root);
  }

  lemma ConfigOfPackage(h: Host, root: string)
    requires WellFormed(h) && ValidPath(["mcp.json"]) && IsContained(h, root, "mcp.json")
    requires IsRegularFile(h, Resolve(h, root) + ["mcp.json"])
    ensures var top := RealRoot(h, root);
            var file := Walk(h, top, ["mcp.json"], h.linkLimit);
            file.Reached? && file.at in h.nodes && h.nodes[file.at].File? && top <= file.at && Canonical(h, top)
  {
    SameUnderRealRoot(h, root, "mcp.json");
    RootIsReal(h, root, ["mcp.json"]);
    assert PlainNames(["mcp.json"]) && JoinWith(["mcp.json"], '/') == "mcp.json";
    ContainedMeansInside(h, root, ["mcp.json"]);
  }

  /** Nothing lies under a file. */
  lemma NothingUnderAFile(h: Host, top: Path, name: string, rest: seq<string>, links: nat)
    requires Walk(h, top, [name] + rest, links).Reached?
    requires var file := Walk(h, top, [name], links); file.Reached? && file.at in h.nodes && h.nodes[file.at].File?
    ensures Walk(h, top, [name] + rest, links).at == Walk(h, top, [name], links).at
  {
    WalkAppend(h, top, [name], rest, links);
  }

  /** A place beginning with the configuration file is that file, or is not there. */
  lemma ConfigLandsInside(d: Disk, root: string, value: string)
    requires WellFormed(d.host) && ReadConfig(d, root).Document?
    requires NamesIn(value) != [] && NamesIn(value)[0] == "mcp.json"
    ensures LandsInside(d.host, root, value)
  {
    ConfigIsAFile(d, root);
    FileLandsInside(d.host, root, value);
  }

  lemma FileLandsInside(h: Host, root: string, value: string)
    requires WellFormed(h) && Canonical(h, RealRoot(h, root))
    requires NamesIn(value) != [] && NamesIn(value)[0] == "mcp.json"
    requires var file := Walk(h, RealRoot(h, root), ["mcp.json"], h.linkLimit);
             file.Reached? && file.at in h.nodes && h.nodes[file.at].File? && RealRoot(h, root) <= file.at
    ensures LandsInside(h, root, value)
  {
    var top, names := RealRoot(h, root), NamesIn(value);
    Containment.OsResolveUnder(h, top, value);
    if Place(h, root, value).Reached? {
      Containment.WalkDrops(h, top, Segments(value), h.linkLimit);
      assert names == ["mcp.json"] + names[1..];
      NothingUnderAFile(h, top, "mcp.json", names[1..], h.linkLimit);
    }
  }

  // ------------------------------------------------------------ a package that holds the configuration

  const DIALECT := "https://schema"

  /** A document that declares this one server. */
  function Declaring(server: Json): Json {
    JObject([("$schema", JString(DIALECT)), ("mcpServers", JObject([("s", server)]))])
  }

  function Running(command: string): Json {
    JObject([("type", JString("stdio")), ("command", JString(command))])
  }

  function RunningIn(cwd: string): Json {
    JObject([("type", JString("stdio")), ("command", JString("node")), ("cwd", JString(cwd))])
  }

  function Reader(): Client {
    Client(map[DIALECT := "1"], "1", {Stdio}, (url: string) => false, (raw: Json) => false)
  }

  /** The machine above with the document in the package. */
  function Package(names: Path, value: Json): Disk
    requires names != []
  {
    Disk(Crossed(names), map[[Fresh(names), "mcp.json"] := Some(value)])
  }

  lemma PackageIsRead(names: Path, value: Json)
    requires Named(names)
    ensures WellFormed(Crossed(names))
    ensures ReadConfig(Package(names, value), "/" + Fresh(names)) == Document(value)
  {
    var h, home := Crossed(names), Fresh(names);
    CrossedIsWellFormed(names);
    CrossedNodes(names);
    HomeIsName(names);
    HeldFile(h, home);
  }

  lemma HeldFile(h: Host, home: string)
    requires WellFormed(h) && Canonical(h, [home]) && ValidPath([home, "mcp.json"])
    requires [home, "mcp.json"] in h.nodes && h.nodes[[home, "mcp.json"]] == File
    ensures var root, path := "/" + home, [home, "mcp.json"];
            && Resolve(h, root) + ["mcp.json"] == path && Present(h, path) && IsContained(h, root, "mcp.json")
            && IsRegularFile(h, path) && Stat(h, path).at == path
  {
    var path := [home, "mcp.json"];
    assert Render([home]) == "/" + home && Parent(path) == [home];
    NormalizeRender([home]);
    OsResolveRender(h, [home]);
    WalkCanonical(h, [home], h.linkLimit);
    OsResolveRender(h, path);
    WalkCanonical(h, path, h.linkLimit);
    assert [home] + ["mcp.json"] == path;
    assert PlainNames(["mcp.json"]) && JoinWith(["mcp.json"], '/') == "mcp.json";
    Containment.CanonicalRoot(h, [home]);
    ContainedMeansInside(h, "/" + home, ["mcp.json"]);
  }

  lemma OneServer(d: Disk, root: string, server: Json, made: Server)
    requires WellFormed(d.host) && ReadConfig(d, root) == Document(Declaring(server))
    requires Entry("s", server, Reader()) == Accepted(made) && ContainmentFindings(d.host, root, made) == []
    ensures Load(d, root, Reader()) == Loaded([made], [])
  {
    DeclaringIs(server);
    OneMember("s", server, made);
    OneContained(d.host, root, made);
  }

  lemma DeclaringIs(server: Json)
    ensures DocumentProblem(Declaring(server), Reader()).None?
    ensures Servers(Declaring(server), Reader()) == [("s", server)]
  {
    var members := Declaring(server).members;
    assert members[1..] == [("mcpServers", JObject([("s", server)]))];
    assert Member(members, "$schema") == Some(JString(DIALECT));
    assert Member(members, "mcpServers") == Some(JObject([("s", server)]));
  }

  lemma OneMember(name: string, server: Json, made: Server)
    requires name != "" && Entry(name, server, Reader()) == Accepted(made)
    ensures Ordering.SortBy(ServersAmong([(name, server)], Judging(Reader())), ByName()) == [made]
    ensures FindingsAmong([(name, server)], Judging(Reader())) == []
  {
    var members := [(name, server)];
    assert members[..0] == [];
    assert ServersAmong(members, Judging(Reader())) == [made];
    assert [made][1..] == [];
  }

  lemma OneContained(h: Host, root: string, made: Server)
    requires WellFormed(h) && ContainmentFindings(h, root, made) == []
    ensures ContainedServers(h, root, [made]) == [made] && EscapeFindings(h, root, [made]) == []
  {
    assert [made][..0] == [];
  }

  // ------------------------------------------------------------ the exact texts

  function ServersOf(config: Config): seq<Server> {
    if config.Loaded? then config.servers else []
  }

  /** Whatever the package, the machine and the client, a loaded server with this command runs a file of the package. */
  ghost predicate CommandHolds(value: string) {
    forall d: Disk, root: string, client: Client, s: Server ::
      WellFormed(d.host) && ReadConfig(d, root).Document? && s in ServersOf(Load(d, root, client))
      && s.StdioServer? && s.command == "./" + value ==>
        LandsInside(d.host, root, value)
  }

  /** The same of a working directory, past its anchor. */
  ghost predicate CwdHolds(cwd: string, value: string) {
    forall d: Disk, root: string, client: Client, s: Server ::
      WellFormed(d.host) && ReadConfig(d, root).Document? && s in ServersOf(Load(d, root, client))
      && s.StdioServer? && s.cwd == Some(cwd) ==>
        LandsInside(d.host, root, value)
  }

  /** The text is sound, or can name nothing but the configuration file. */
  predicate Holds(value: string) {
    Sound(value) || NamesIn(value)[0] == "mcp.json"
  }

  lemma CutPrefix(prefix: string, value: string)
    ensures StartsWith(prefix + value, prefix) && (prefix + value)[|prefix|..] == value
  {
  }

  lemma SegmentsAfter(prefix: string, value: string)
    requires forall c :: c in prefix ==> c != '/' && c != '\\'
    ensures ValueSegments(prefix + "/" + value) == [prefix] + ValueSegments(value)
  {
    SplitAtSeparator(prefix, "/" + value, {'/', '\\'});
    SplitCons('/', value, {'/', '\\'});
    assert prefix + "/" + value == prefix + ("/" + value) && ['/'] + value == "/" + value;
  }

  lemma HoldsLandsInside(d: Disk, root: string, value: string)
    requires WellFormed(d.host) && ReadConfig(d, root).Document? && Holds(value)
    requires Sound(value) ==> IsContained(d.host, root, value)
    ensures LandsInside(d.host, root, value)
  {
    if Sound(value) {
      ConfigIsAFile(d, root);
      SoundStaysInside(d.host, root, value);
    } else {
      ConfigLandsInside(d, root, value);
    }
  }

  /** A loaded server has passed the containment check. */
  lemma LoadedIsClean(d: Disk, root: string, client: Client, s: Server)
    requires WellFormed(d.host) && s in ServersOf(Load(d, root, client))
    ensures ContainmentFindings(d.host, root, s) == []
  {
    if ReadConfig(d, root).Document? && DocumentProblem(ReadConfig(d, root).value, client).None? {
      McpOutcome.ContainedIff(d.host, root, Validated(ReadConfig(d, root).value, client).servers, s);
    }
  }

  lemma CommandIsChecked(d: Disk, root: string, client: Client, s: Server, value: string)
    requires WellFormed(d.host) && s in ServersOf(Load(d, root, client)) && s.StdioServer? && s.command == "./" + value
    ensures IsContained(d.host, root, value)
  {
    LoadedIsClean(d, root, client, s);
    CutPrefix("./", value);
    assert !CommandEscapes(d.host, root, s);
  }

  lemma {:induction false} Absent(members: seq<(string, Json)>, key: string)
    requires forall i :: 0 <= i < |members| ==> members[i].0 != key
    ensures Member(members, key).None?
  {
    if members != [] {
      Absent(members[1..], key);
    }
  }

  /** An entry with a good command and, if any, a good working directory is accepted. */
  lemma PlainEntry(members: seq<(string, Json)>, command: string, cwd: Option<string>)
    requires OnlyKeys(members, {"type", "command", "args", "env", "cwd"})
    requires Member(members, "type") == Some(JString("stdio")) && Member(members, "command") == Some(JString(command))
    requires Member(members, "args").None? && Member(members, "env").None?
    requires Member(members, "cwd") == if cwd.Some? then Some(JString(cwd.value)) else None
    requires StdioCommandProblem(command).None? && (cwd.Some? ==> ClassifyCwd(cwd.value).Some?)
    ensures Entry("s", JObject(members), Reader()) ==
            Accepted(StdioServer("s", command, cwd, if cwd.Some? then ClassifyCwd(cwd.value) else None,
                                 JObject(members)))
  {
    assert StdioSchema(members);
    assert TransportOf("stdio") == Some(Stdio);
    assert Stdio in Reader().supported;
  }

  lemma RunningIsAccepted(value: string)
    requires StdioCommandProblem("./" + value).None?
    ensures Entry("s", Running("./" + value), Reader()) ==
            Accepted(StdioServer("s", "./" + value, None, None, Running("./" + value)))
  {
    var members := Running("./" + value).members;
    assert members[1..] == [("command", JString("./" + value))];
    Absent(members, "args");
    Absent(members, "env");
    Absent(members, "cwd");
    PlainEntry(members, "./" + value, None);
  }

  /** On the crossed machine the unsound command is loaded without a finding. */
  lemma CommandLoads(value: string)
    requires StdioCommandProblem("./" + value).None? && !Holds(value)
    ensures var names, server := NamesIn(value), Running("./" + value);
            var d, root := Package(names, Declaring(server)), "/" + Fresh(names);
            && WellFormed(d.host) && ReadConfig(d, root).Document? && !LandsInside(d.host, root, value)
            && Load(d, root, Reader()) == Loaded([StdioServer("s", "./" + value, None, None, server)], [])
  {
    CutPrefix("./", value);
    UnsoundLeaves(value);
    var names, server := NamesIn(value), Running("./" + value);
    var d, root := Package(names, Declaring(server)), "/" + Fresh(names);
    PackageIsRead(names, Declaring(server));
    RunningIsAccepted(value);
    CleanCommand(d.host, root, value, server);
    OneServer(d, root, server, StdioServer("s", "./" + value, None, None, server));
  }

  lemma CleanCommand(h: Host, root: string, value: string, raw: Json)
    requires WellFormed(h) && IsContained(h, root, value)
    ensures ContainmentFindings(h, root, StdioServer("s", "./" + value, None, None, raw)) == []
  {
    CutPrefix("./", value);
  }

  /** One loaded server that leaves is enough. */
  lemma OneLeaves(d: Disk, root: string, client: Client, s: Server, value: string)
    requires WellFormed(d.host) && ReadConfig(d, root).Document? && Load(d, root, client) == Loaded([s], [])
    requires s.StdioServer? && s.command == "./" + value && !LandsInside(d.host, root, value)
    ensures !CommandHolds(value)
  {
    assert s in ServersOf(Load(d, root, client));
  }

  lemma CommandLeaves(value: string)
    requires StdioCommandProblem("./" + value).None? && !Holds(value)
    ensures !CommandHolds(value)
  {
    CommandLoads(value);
    OneLeaves(Package(NamesIn(value), Declaring(Running("./" + value))), "/" + Fresh(NamesIn(value)), Reader(),
              StdioServer("s", "./" + value, None, None, Running("./" + value)), value);
  }

  /**
   * The commands the loader keeps inside, exactly. For a plugin-relative command the document check accepts, every
   * loaded server with it runs a file of the package, on every machine, if and only if what follows `./` is sound, that
   * is relative and without a backslash, or names nothing, or begins with the configuration's own file.
   */
  lemma CommandHoldsIff(value: string)
    requires StdioCommandProblem("./" + value).None?
    ensures CommandHolds(value) <==> Holds(value)
  {
    if Holds(value) {
      forall d: Disk, root: string, client: Client, s: Server |
        WellFormed(d.host) && ReadConfig(d, root).Document? && s in ServersOf(Load(d, root, client))
        && s.StdioServer? && s.command == "./" + value
        ensures LandsInside(d.host, root, value)
      {
        CommandIsChecked(d, root, client, s, value);
        HoldsLandsInside(d, root, value);
      }
    } else {
      CommandLeaves(value);
    }
  }

  // ------------------------------------------------------------ and the exact working directories

  lemma RelativeRemainder(cwd: string)
    requires ClassifyCwd(cwd) == Some(PluginRelative)
    ensures ".." !in ValueSegments(CwdRemainder(cwd, PluginRelative))
  {
    var value := cwd[2..];
    assert cwd == "." + "/" + value;
    SegmentsAfter(".", value);
    assert forall piece :: piece in ValueSegments(value) ==> piece in ["."] + ValueSegments(value);
  }

  lemma RootRemainder(cwd: string)
    requires ClassifyCwd(cwd) == Some(PluginRoot)
    ensures ".." !in ValueSegments(CwdRemainder(cwd, PluginRoot))
  {
    var rest := cwd[|ROOT_PLACEHOLDER|..];
    assert cwd == ROOT_PLACEHOLDER + rest;
    if rest == "" {
      assert CwdRemainder(cwd, PluginRoot) == "" && ValueSegments("") == [""];
    } else {
      RootSlash(cwd);
      assert rest == "/" + rest[1..] && cwd == ROOT_PLACEHOLDER + "/" + rest[1..];
      SegmentsAfter(ROOT_PLACEHOLDER, rest[1..]);
      assert forall piece :: piece in ValueSegments(rest[1..]) ==>
        piece in [ROOT_PLACEHOLDER] + ValueSegments(rest[1..]);
    }
  }

  lemma RootSlash(cwd: string)
    requires ClassifyCwd(cwd) == Some(PluginRoot) && cwd[|ROOT_PLACEHOLDER|..] != ""
    ensures cwd[|ROOT_PLACEHOLDER|] == '/'
  {
    assert cwd != ROOT_PLACEHOLDER;
    assert (ROOT_PLACEHOLDER + "/")[|ROOT_PLACEHOLDER|] == '/';
    assert cwd[..|ROOT_PLACEHOLDER| + 1][|ROOT_PLACEHOLDER|] == cwd[|ROOT_PLACEHOLDER|];
  }

  /** Past its anchor a directory the document check accepts goes up nowhere. */
  lemma RemainderGoesNowhereUp(cwd: string, anchor: CwdAnchor)
    requires ClassifyCwd(cwd) == Some(anchor) && !anchor.PluginData?
    ensures ".." !in ValueSegments(CwdRemainder(cwd, anchor))
  {
    match anchor
    case PluginRelative => RelativeRemainder(cwd);
    case PluginRoot => RootRemainder(cwd);
  }

  lemma NodeIsBare()
    ensures StdioCommandProblem("node").None? && !StartsWith("node", "./")
  {
    assert "node"[..2][0] == 'n';
  }

  lemma RunningInMembers(cwd: string)
    ensures var members := RunningIn(cwd).members;
            && Member(members, "type") == Some(JString("stdio")) && Member(members, "command") == Some(JString("node"))
            && Member(members, "cwd") == Some(JString(cwd)) && Member(members, "args").None?
            && Member(members, "env").None?
  {
    var members := RunningIn(cwd).members;
    assert members[1..] == [("command", JString("node")), ("cwd", JString(cwd))];
    assert members[1..][1..] == [("cwd", JString(cwd))];
    assert Member(members[1..][1..], "cwd") == Some(JString(cwd));
    assert Member(members[1..], "cwd") == Member(members[1..][1..], "cwd");
    Absent(members, "args");
    Absent(members, "env");
  }

  lemma RunningInIsAccepted(cwd: string)
    requires ClassifyCwd(cwd).Some?
    ensures Entry("s", RunningIn(cwd), Reader()) ==
            Accepted(StdioServer("s", "node", Some(cwd), ClassifyCwd(cwd), RunningIn(cwd)))
  {
    RunningInMembers(cwd);
    NodeIsBare();
    PlainEntry(RunningIn(cwd).members, "node", Some(cwd));
  }

  lemma CleanCwd(h: Host, root: string, cwd: string, anchor: CwdAnchor, raw: Json)
    requires WellFormed(h) && IsContained(h, root, CwdRemainder(cwd, anchor))
    ensures ContainmentFindings(h, root, StdioServer("s", "node", Some(cwd), Some(anchor), raw)) == []
  {
    NodeIsBare();
  }

  /** One loaded server in such a directory is enough. */
  lemma OneCwdLeaves(d: Disk, root: string, client: Client, s: Server, cwd: string, value: string)
    requires WellFormed(d.host) && ReadConfig(d, root).Document? && Load(d, root, client) == Loaded([s], [])
    requires s.StdioServer? && s.cwd == Some(cwd) && !LandsInside(d.host, root, value)
    ensures !CwdHolds(cwd, value)
  {
    assert s in ServersOf(Load(d, root, client));
  }

  lemma CwdLeaves(cwd: string, anchor: CwdAnchor)
    requires ClassifyCwd(cwd) == Some(anchor) && !anchor.PluginData? && !Holds(CwdRemainder(cwd, anchor))
    ensures !CwdHolds(cwd, CwdRemainder(cwd, anchor))
  {
    var value, server := CwdRemainder(cwd, anchor), RunningIn(cwd);
    RemainderGoesNowhereUp(cwd, anchor);
    UnsoundLeaves(value);
    var d, root := Package(NamesIn(value), Declaring(server)), "/" + Fresh(NamesIn(value));
    var made := StdioServer("s", "node", Some(cwd), Some(anchor), server);
    PackageIsRead(NamesIn(value), Declaring(server));
    RunningInIsAccepted(cwd);
    CleanCwd(d.host, root, cwd, anchor, server);
    OneServer(d, root, server, made);
    OneCwdLeaves(d, root, Reader(), made, cwd, value);
  }

  lemma EntryIsClassified(name: string, raw: Json, client: Client, s: Server)
    requires Entry(name, raw, client) == Accepted(s) && s.StdioServer? && s.cwd.Some?
    ensures s.cwdAnchor == ClassifyCwd(s.cwd.value)
  {
    assert raw.JObject? && StdioEntry(name, raw, client) == Accepted(s);
  }

  /** A loaded server comes from an entry that was accepted. */
  lemma LoadedHasAnEntry(d: Disk, root: string, client: Client, s: Server) returns (name: string, raw: Json)
    requires WellFormed(d.host) && s in ServersOf(Load(d, root, client))
    ensures Entry(name, raw, client) == Accepted(s)
  {
    var value := ReadConfig(d, root).value;
    McpOutcome.ContainedIff(d.host, root, Validated(value, client).servers, s);
    name, raw := ValidatedHasAnEntry(value, client, s);
  }

  lemma ValidatedHasAnEntry(value: Json, client: Client, s: Server) returns (name: string, raw: Json)
    requires DocumentProblem(value, client).None? && s in Validated(value, client).servers
    ensures Entry(name, raw, client) == Accepted(s)
  {
    McpOutcome.JudgingNamesItsServer(client);
    var members := Servers(value, client);
    var j := McpOutcome.ServerHasAMember(members, Judging(client), s);
    name, raw := members[j].0, members[j].1;
  }

  lemma CwdIsChecked(d: Disk, root: string, client: Client, s: Server, cwd: string, anchor: CwdAnchor)
    requires WellFormed(d.host) && s in ServersOf(Load(d, root, client)) && s.StdioServer? && s.cwd == Some(cwd)
    requires ClassifyCwd(cwd) == Some(anchor) && !anchor.PluginData?
    ensures IsContained(d.host, root, CwdRemainder(cwd, anchor))
  {
    LoadedIsClean(d, root, client, s);
    var name, raw := LoadedHasAnEntry(d, root, client, s);
    EntryIsClassified(name, raw, client, s);
    assert !CwdEscapes(d.host, root, s);
  }

  /** The same for working directories anchored in the package: exactly the sound remainders are kept to. */
  lemma CwdHoldsIff(cwd: string, anchor: CwdAnchor)
    requires ClassifyCwd(cwd) == Some(anchor) && !anchor.PluginData?
    ensures CwdHolds(cwd, CwdRemainder(cwd, anchor)) <==> Holds(CwdRemainder(cwd, anchor))
  {
    var value := CwdRemainder(cwd, anchor);
    if Holds(value) {
      forall d: Disk, root: string, client: Client, s: Server |
        WellFormed(d.host) && ReadConfig(d, root).Document? && s in ServersOf(Load(d, root, client))
        && s.StdioServer? && s.cwd == Some(cwd)
        ensures LandsInside(d.host, root, value)
      {
        CwdIsChecked(d, root, client, s, cwd, anchor);
        HoldsLandsInside(d, root, value);
      }
    } else {
      CwdLeaves(cwd, anchor);
    }
  }

  // ------------------------------------------------------------ one command worked out

  const TWO_SLASHES := ".//p/x"

  /** The package `/xx`; `/p/x` leads to it, and `/xx/p/x` leads to the filesystem root. */
  const TWO_LINKS := Host(
    map[[] := Directory, ["p"] := Directory, ["p", "x"] := Link("/xx"), ["xx"] := Directory,
        ["xx", "p"] := Directory, ["xx", "p", "x"] := Link("/"), ["xx", "mcp.json"] := File], [], 40)

  function WithTwoSlashes(): Disk {
    Disk(TWO_LINKS, map[["xx", "mcp.json"] := Some(Declaring(Running(TWO_SLASHES)))])
  }

  lemma NamesOfTwoSlashes()
    ensures NamesIn("/p/x") == ["p", "x"] && ValueSegments("/p/x") == ["", "p", "x"]
  {
    SplitCons('/', "p/x", {'/'});
    SplitCons('/', "p/x", {'/', '\\'});
    SplitJoinIn(["p", "x"], '/', {'/'});
    SplitJoinIn(["p", "x"], '/', {'/', '\\'});
    assert JoinWith(["p", "x"], '/') == "p/x" && ['/'] + "p/x" == "/p/x";
    assert Segments("/p/x") == [""] + ["p", "x"] && ([""] + ["p", "x"])[1..] == ["p", "x"];
    assert ["p", "x"][1..] == ["x"] && ["x"][1..] == [];
  }

  lemma TwoLinksAreCrossed()
    ensures Fresh(["p", "x"]) == "xx" && Crossed(["p", "x"]) == TWO_LINKS
  {
    var names := ["p", "x"];
    assert Fresh(names) == "xx";
    assert names[..0] == [] && names[..1] == ["p"] && names[..2] == names;
    assert ["xx"] + names[..0] == ["xx"] && ["xx"] + names[..1] == ["xx", "p"];
    assert ["xx"] + names[..2] == ["xx", "p", "x"];
    assert Places(names, "xx") == TWO_LINKS.nodes.Keys;
    forall p | p in TWO_LINKS.nodes ensures Crossed(names).nodes[p] == TWO_LINKS.nodes[p] {
    }
    assert Crossed(names).nodes == TWO_LINKS.nodes;
  }

  lemma PackageOfTwoSlashes()
    ensures NamesIn("/p/x") == ["p", "x"] && Fresh(["p", "x"]) == "xx" && "/" + "xx" == "/xx"
    ensures "./" + "/p/x" == TWO_SLASHES && WithTwoSlashes() == Package(["p", "x"], Declaring(Running(TWO_SLASHES)))
  {
    NamesOfTwoSlashes();
    TwoLinksAreCrossed();
  }

  lemma TwoSlashesAreUnsound()
    ensures StdioCommandProblem("./" + "/p/x").None? && !Holds("/p/x") && ".." !in ValueSegments("/p/x")
    ensures NamesIn("/p/x") == ["p", "x"]
  {
    NamesOfTwoSlashes();
    CutPrefix("./", "/p/x");
  }

  /**
   * A command that leaves. What follows `./` begins with a slash, so the check resolves it from the filesystem root,
   * where it leads into the package; the server is loaded without a finding, and its file is not in the package.
   */
  lemma TheTwoSlashesLeave()
    ensures var d := WithTwoSlashes();
            && WellFormed(d.host) && RealRoot(d.host, "/xx") == ["xx"]
            && Load(d, "/xx", Reader()) ==
               Loaded([StdioServer("s", TWO_SLASHES, None, None, Running(TWO_SLASHES))], [])
            && Place(d.host, "/xx", "/p/x").Reached? && !(["xx"] <= Place(d.host, "/xx", "/p/x").at)
  {
    TwoSlashesAreUnsound();
    PackageOfTwoSlashes();
    UnsoundLeaves("/p/x");
    CommandLoads("/p/x");
  }
}
