/** What reading `mcp.json` promises about each declared server. */
module McpOutcome {
  import opened Wrappers
  import opened Text
  import opened FileSystem
  import opened Paths
  import opened PackageFiles
  import opened Ordering
  import opened Mcp
  import Containment

  // ------------------------------------------------------------ headers

  /** Valid names, valid values, and no name twice under any casing. */
  ghost predicate GoodHeaders(headers: seq<(string, Json)>)
    requires StringMembers(headers)
  {
    && (forall i :: 0 <= i < |headers| ==> IsHeaderName(headers[i].0) && IsHeaderValue(headers[i].1.text))
    && (forall i, j :: 0 <= i < j < |headers| ==> Lower(headers[i].0) != Lower(headers[j].0))
  }

  ghost predicate Fresh(headers: seq<(string, Json)>, seen: set<string>) {
    forall i :: 0 <= i < |headers| ==> Lower(headers[i].0) !in seen
  }

  /** The one-pass check with its set of names seen finds a problem exactly when there is one. */
  lemma {:induction false} HeadersChecked(headers: seq<(string, Json)>, seen: set<string>)
    requires StringMembers(headers)
    ensures HeaderProblem(headers, seen).None? <==> GoodHeaders(headers) && Fresh(headers, seen)
    decreases |headers|
  {
    if headers != [] {
      var head, rest := headers[0], headers[1..];
      assert forall i :: 0 <= i < |rest| ==> rest[i] == headers[i + 1];
      HeadersChecked(rest, seen + {Lower(head.0)});
      HeadersCons(head, rest, seen);
      assert headers == [head] + rest;
    }
  }

  lemma HeadersCons(head: (string, Json), rest: seq<(string, Json)>, seen: set<string>)
    requires head.1.JString? && StringMembers(rest)
    ensures StringMembers([head] + rest)
    ensures GoodHeaders([head] + rest) && Fresh([head] + rest, seen) <==>
            && IsHeaderName(head.0) && IsHeaderValue(head.1.text) && Lower(head.0) !in seen
            && GoodHeaders(rest) && Fresh(rest, seen + {Lower(head.0)})
  {
    var all := [head] + rest;
    assert all[0] == head && all[1..] == rest;
    GoodCons(head, rest);
    FreshCons(head, rest, seen);
  }

  /** No name of the rest is the head's, whatever the casing. */
  ghost predicate Differs(head: (string, Json), rest: seq<(string, Json)>) {
    forall i :: 0 <= i < |rest| ==> Lower(rest[i].0) != Lower(head.0)
  }

  lemma GoodCons(head: (string, Json), rest: seq<(string, Json)>)
    requires head.1.JString? && StringMembers(rest)
    ensures StringMembers([head] + rest)
    ensures GoodHeaders([head] + rest) <==>
              IsHeaderName(head.0) && IsHeaderValue(head.1.text) && Differs(head, rest) && GoodHeaders(rest)
  {
    var all := [head] + rest;
    assert all[0] == head && forall i :: 0 < i < |all| ==> all[i] == rest[i - 1];
    if GoodHeaders(all) {
      forall i | 0 <= i < |rest|
        ensures Lower(rest[i].0) != Lower(head.0) && IsHeaderName(rest[i].0) && IsHeaderValue(rest[i].1.text) {
        assert all[i + 1] == rest[i];
      }
      forall i, j | 0 <= i < j < |rest| ensures Lower(rest[i].0) != Lower(rest[j].0) {
        assert all[i + 1] == rest[i] && all[j + 1] == rest[j];
      }
    }
  }

  lemma FreshCons(head: (string, Json), rest: seq<(string, Json)>, seen: set<string>)
    ensures Fresh([head] + rest, seen) <==> Lower(head.0) !in seen && Fresh(rest, seen)
    ensures Fresh(rest, seen + {Lower(head.0)}) <==> Fresh(rest, seen) && Differs(head, rest)
  {
    var all := [head] + rest;
    assert all[0] == head && forall i :: 0 < i < |all| ==> all[i] == rest[i - 1];
    if Fresh(all, seen) {
      forall i | 0 <= i < |rest| ensures Lower(rest[i].0) !in seen {
        assert all[i + 1] == rest[i];
      }
    }
  }

  // ------------------------------------------------------------ accepted entries

  /** What the launcher may rely on. */
  ghost predicate Launchable(server: Server, client: Client) {
    match server
    case StdioServer(_, command, cwd, anchor, _) =>
      && Stdio in client.supported && StdioCommandProblem(command).None?
      && (cwd.Some? ==> anchor.Some? && anchor == ClassifyCwd(cwd.value) && ".." !in ValueSegments(cwd.value))
      && (cwd.None? ==> anchor.None?)
    case RemoteServer(_, transport, url, headers, _) =>
      && transport in client.supported && !transport.Stdio? && !client.urlProblem(url)
      && StringMembers(headers) && GoodHeaders(headers)
  }

  lemma AcceptedIsLaunchable(name: string, raw: Json, client: Client)
    requires Entry(name, raw, client).Accepted?
    ensures var server := Entry(name, raw, client).server;
            Launchable(server, client) && server.name == name && server.raw == raw
  {
    var kind := Member(raw.members, "type");
    if TransportOf(kind.value.text) != Some(Stdio) {
      var headers := Member(raw.members, "headers");
      HeadersChecked(if headers.Some? then headers.value.members else [], {});
    }
  }

  /** Past the schema, a `cwd` is refused exactly for a `..` segment. */
  lemma CwdRefusedOnlyForParent(cwd: string)
    requires CwdPattern(cwd)
    ensures ClassifyCwd(cwd).None? <==> ".." in ValueSegments(cwd)
  {
  }

  // ------------------------------------------------------------ every server once

  ghost predicate HasServer(servers: seq<Server>, name: string) {
    exists s :: s in servers && s.name == name
  }

  /** How many of the findings name this server; the finding about an empty name has no subject. */
  function CountAbout(findings: seq<Finding>, subject: Option<string>): nat {
    if findings == [] then 0
    else CountAbout(findings[..|findings| - 1], subject) + if findings[|findings| - 1].subject == subject then 1 else 0
  }

  function SubjectOf(name: string): Option<string> {
    if name == "" then None else Some(name)
  }

  lemma CountSnoc(findings: seq<Finding>, f: Finding, subject: Option<string>)
    ensures CountAbout(findings + [f], subject) == CountAbout(findings, subject) + if f.subject == subject then 1 else 0
  {
    assert (findings + [f])[..|findings|] == findings;
  }

  lemma DistinctFront(members: seq<(string, Json)>)
    requires members != [] && DistinctKeys(members)
    ensures DistinctKeys(members[..|members| - 1])
    ensures forall i :: 0 <= i < |members| - 1 ==> members[i].0 != members[|members| - 1].0
  {
  }

  /** A judgement that names the server it accepts after the entry it judges. */
  ghost predicate NamesItsServer(judge: Judge) {
    forall name, raw :: judge(name, raw).Accepted? ==> judge(name, raw).server.name == name
  }

  /** The entry is returned as a server. */
  predicate Passes(member: (string, Json), judge: Judge) {
    member.0 != "" && judge(member.0, member.1).Accepted?
  }

  /** An undeclared name has neither a server nor a finding. */
  lemma {:induction false} UndeclaredHasNothing(members: seq<(string, Json)>, judge: Judge, name: string)
    requires NamesItsServer(judge) && forall i :: 0 <= i < |members| ==> members[i].0 != name
    ensures !HasServer(ServersAmong(members, judge), name)
    ensures CountAbout(FindingsAmong(members, judge), SubjectOf(name)) == 0
  {
    if members != [] {
      var n := |members| - 1;
      UndeclaredHasNothing(members[..n], judge, name);
      NextMember(members[..n], members[n], judge, name);
      assert members[..n] + [members[n]] == members;
    }
  }

  /** What one more member adds to the account of a name. */
  lemma NextMember(front: seq<(string, Json)>, last: (string, Json), judge: Judge, name: string)
    requires NamesItsServer(judge)
    ensures HasServer(ServersAmong(front + [last], judge), name) <==>
              HasServer(ServersAmong(front, judge), name) || (last.0 == name && Passes(last, judge))
    ensures CountAbout(FindingsAmong(front + [last], judge), SubjectOf(name)) ==
            CountAbout(FindingsAmong(front, judge), SubjectOf(name))
            + if last.0 == name && !Passes(last, judge) then 1 else 0
  {
    var all := front + [last];
    assert all[..|all| - 1] == front && all[|all| - 1] == last;
    var before, found := ServersAmong(front, judge), FindingsAmong(front, judge);
    if last.0 == "" {
      CountSnoc(found, Finding(ServerNameInvalid, None), SubjectOf(name));
      assert before + [] == before;
    } else {
      match judge(last.0, last.1) {
        case Skipped(code) =>
          CountSnoc(found, Finding(code, Some(last.0)), SubjectOf(name));
          assert before + [] == before;
        case Accepted(server) =>
          assert found + [] == found;
          assert forall s :: s in before + [server] <==> s in before || s == server;
      }
    }
  }

  /** The outcome of a declared server is its own entry's, whatever else the document declares. */
  lemma {:induction false} OutcomeIsItsOwn(members: seq<(string, Json)>, judge: Judge, i: nat)
    requires NamesItsServer(judge) && DistinctKeys(members) && i < |members|
    ensures HasServer(ServersAmong(members, judge), members[i].0) <==> Passes(members[i], judge)
    ensures CountAbout(FindingsAmong(members, judge), SubjectOf(members[i].0)) ==
            if Passes(members[i], judge) then 0 else 1
  {
    var n := |members| - 1;
    DistinctFront(members);
    NextMember(members[..n], members[n], judge, members[i].0);
    assert members[..n] + [members[n]] == members;
    if i < n {
      assert members[..n][i] == members[i];
      OutcomeIsItsOwn(members[..n], judge, i);
    } else {
      UndeclaredHasNothing(members[..n], judge, members[n].0);
    }
  }

  /** The server was made of the member at this place. */
  predicate MadeOf(s: Server, member: (string, Json), judge: Judge) {
    member.0 == s.name && Passes(member, judge) && judge(member.0, member.1) == Accepted(s)
  }

  /** Every server is made of a member. */
  lemma {:induction false} ServerHasAMember(members: seq<(string, Json)>, judge: Judge, s: Server) returns (i: nat)
    requires NamesItsServer(judge) && s in ServersAmong(members, judge)
    ensures i < |members| && MadeOf(s, members[i], judge)
  {
    var n := |members| - 1;
    if s in ServersAmong(members[..n], judge) {
      i := ServerHasAMember(members[..n], judge, s);
      assert members[..n][i] == members[i];
    } else {
      i := n;
    }
  }

  lemma {:induction false} ServersAreDistinct(members: seq<(string, Json)>, judge: Judge)
    requires NamesItsServer(judge) && DistinctKeys(members)
    ensures forall i, j :: 0 <= i < j < |ServersAmong(members, judge)| ==>
              ByName()(ServersAmong(members, judge)[i]) != ByName()(ServersAmong(members, judge)[j])
  {
    if members != [] {
      var n := |members| - 1;
      DistinctFront(members);
      ServersAreDistinct(members[..n], judge);
      UndeclaredHasNothing(members[..n], judge, members[n].0);
      var before := ServersAmong(members[..n], judge);
      assert forall i :: 0 <= i < |before| ==> before[i] in before;
    }
  }

  lemma JudgingNamesItsServer(client: Client)
    ensures NamesItsServer(Judging(client))
  {
    forall name, raw | Judging(client)(name, raw).Accepted? ensures Judging(client)(name, raw).server.name == name {
      AcceptedIsLaunchable(name, raw, client);
    }
  }

  lemma ServerIsLaunchable(members: seq<(string, Json)>, client: Client, s: Server)
    requires DistinctKeys(members) && s in ServersAmong(members, Judging(client))
    ensures s.name != "" && Launchable(s, client) && Member(members, s.name) == Some(s.raw)
  {
    JudgingNamesItsServer(client);
    var i := ServerHasAMember(members, Judging(client), s);
    AcceptedIsLaunchable(members[i].0, members[i].1, client);
    MemberAt(members, i);
  }

  /**
   * In a valid document every declared server is in the result or has exactly one finding, never both; the result
   * names no other server, is strictly increasing by name, and every server in it can be launched as it stands.
   */
  lemma EveryServerOnce(value: Json, client: Client)
    requires DocumentProblem(value, client).None? && DistinctKeys(Servers(value, client))
    ensures var members, config := Servers(value, client), Validated(value, client);
            && (forall i :: 0 <= i < |members| ==>
                  CountAbout(config.findings, SubjectOf(members[i].0)) ==
                    if HasServer(config.servers, members[i].0) then 0 else 1)
            && (forall s :: s in config.servers ==>
                  s.name != "" && Launchable(s, client) && Member(members, s.name) == Some(s.raw))
            && StrictlySorted(config.servers, ByName())
  {
    var members, config, judge := Servers(value, client), Validated(value, client), Judging(client);
    JudgingNamesItsServer(client);
    ServersAreDistinct(members, judge);
    SortIsStrict(ServersAmong(members, judge), ByName());
    assert forall s :: s in config.servers <==> s in ServersAmong(members, judge);
    forall i | 0 <= i < |members|
      ensures CountAbout(config.findings, SubjectOf(members[i].0)) ==
              if HasServer(config.servers, members[i].0) then 0 else 1
    {
      OutcomeIsItsOwn(members, judge, i);
    }
    forall s | s in config.servers
      ensures s.name != "" && Launchable(s, client) && Member(members, s.name) == Some(s.raw)
    {
      ServerIsLaunchable(members, client, s);
    }
  }

  lemma {:induction false} MemberAt(members: seq<(string, Json)>, i: nat)
    requires DistinctKeys(members) && i < |members|
    ensures Member(members, members[i].0) == Some(members[i].1)
  {
    if i > 0 {
      assert forall j :: 0 <= j < |members[1..]| ==> members[1..][j] == members[j + 1];
      MemberAt(members[1..], i - 1);
    }
  }

  /** Changing one entry never changes what becomes of another. */
  lemma EntriesAreIndependent(before: Json, after: Json, client: Client, changed: nat, i: nat)
    requires DocumentProblem(before, client).None? && DocumentProblem(after, client).None?
    requires var a, b := Servers(before, client), Servers(after, client);
             DistinctKeys(a) && DistinctKeys(b) && changed < |a| == |b| && i < |a| && i != changed
             && forall j :: 0 <= j < |a| && j != changed ==> a[j] == b[j]
    ensures var name, a, b := Servers(before, client)[i].0, Validated(before, client), Validated(after, client);
            && (forall s: Server :: s.name == name ==> (s in a.servers <==> s in b.servers))
            && CountAbout(a.findings, SubjectOf(name)) == CountAbout(b.findings, SubjectOf(name))
  {
    var a, b := Servers(before, client), Servers(after, client);
    JudgingNamesItsServer(client);
    OutcomeIsItsOwn(a, Judging(client), i);
    OutcomeIsItsOwn(b, Judging(client), i);
    forall s: Server | s.name == a[i].0
      ensures s in Validated(before, client).servers <==> s in Validated(after, client).servers
    {
      OneServerPerName(a, Judging(client), i, s);
      OneServerPerName(b, Judging(client), i, s);
    }
  }

  lemma OneServerPerName(members: seq<(string, Json)>, judge: Judge, i: nat, s: Server)
    requires NamesItsServer(judge) && DistinctKeys(members) && i < |members| && s.name == members[i].0
    ensures s in ServersAmong(members, judge) <==> MadeOf(s, members[i], judge)
  {
    OutcomeIsItsOwn(members, judge, i);
    if s in ServersAmong(members, judge) {
      var j := ServerHasAMember(members, judge, s);
    }
    if MadeOf(s, members[i], judge) {
      var t :| t in ServersAmong(members, judge) && t.name == members[i].0;
      var j := ServerHasAMember(members, judge, t);
    }
  }

  // ------------------------------------------------------------ containment

  lemma {:induction false} ContainedIff(h: Host, root: string, servers: seq<Server>, s: Server)
    requires WellFormed(h)
    ensures s in ContainedServers(h, root, servers) <==> s in servers && ContainmentFindings(h, root, s) == []
  {
    if servers != [] {
      var n := |servers| - 1;
      ContainedIff(h, root, servers[..n], s);
      var before, passes := ContainedServers(h, root, servers[..n]), ContainmentFindings(h, root, servers[n]) == [];
      InSnoc(servers, s);
      assert ContainedServers(h, root, servers) == before + if passes then [servers[n]] else [];
    }
  }

  lemma InSnoc(servers: seq<Server>, s: Server)
    requires servers != []
    ensures s in servers <==> s in servers[..|servers| - 1] || s == servers[|servers| - 1]
  {
  }

  // ------------------------------------------------------------ every server once, after loading

  lemma {:induction false} CountConcat(a: seq<Finding>, b: seq<Finding>, subject: Option<string>)
    ensures CountAbout(a + b, subject) == CountAbout(a, subject) + CountAbout(b, subject)
  {
    if b == [] {
      assert a + b == a;
    } else {
      var n := |b| - 1;
      CountConcat(a, b[..n], subject);
      assert a + b == (a + b[..n]) + [b[n]];
      CountSnoc(a + b[..n], b[n], subject);
    }
  }

  /** A server's containment findings are about it, one for each of its paths that escapes. */
  lemma EscapesOfOne(h: Host, root: string, s: Server, name: string)
    requires WellFormed(h)
    ensures CountAbout(ContainmentFindings(h, root, s), Some(name)) ==
            if s.name == name then |ContainmentFindings(h, root, s)| else 0
    ensures |ContainmentFindings(h, root, s)| ==
            if s.RemoteServer? then 0
            else (if CommandEscapes(h, root, s) then 1 else 0) + (if CwdEscapes(h, root, s) then 1 else 0)
  {
    var command :=
      if s.StdioServer? && CommandEscapes(h, root, s) then [Finding(ServerCommandInvalid, Some(s.name))] else [];
    var cwd := if s.StdioServer? && CwdEscapes(h, root, s) then [Finding(ServerCwdInvalid, Some(s.name))] else [];
    assert ContainmentFindings(h, root, s) == command + cwd;
    CountConcat(command, cwd, Some(name));
  }

  lemma {:induction false} EscapesOfNone(h: Host, root: string, servers: seq<Server>, subject: Option<string>)
    requires WellFormed(h) && forall s :: s in servers ==> Some(s.name) != subject
    ensures CountAbout(EscapeFindings(h, root, servers), subject) == 0
  {
    if servers != [] {
      var n := |servers| - 1;
      assert servers[n] in servers && forall s :: s in servers[..n] ==> s in servers;
      EscapesOfNone(h, root, servers[..n], subject);
      CountConcat(EscapeFindings(h, root, servers[..n]), ContainmentFindings(h, root, servers[n]), subject);
      OnlyAbout(ContainmentFindings(h, root, servers[n]), servers[n].name, subject);
    }
  }

  lemma {:induction false} OnlyAbout(findings: seq<Finding>, name: string, subject: Option<string>)
    requires (forall f :: f in findings ==> f.subject == Some(name)) && Some(name) != subject
    ensures CountAbout(findings, subject) == 0
  {
    if findings != [] {
      OnlyAbout(findings[..|findings| - 1], name, subject);
      assert findings[|findings| - 1] in findings;
    }
  }

  ghost predicate NamesDiffer(servers: seq<Server>) {
    forall i, j :: 0 <= i < j < |servers| ==> servers[i].name != servers[j].name
  }

  lemma NamesOfFront(front: seq<Server>, last: Server)
    requires NamesDiffer(front + [last])
    ensures NamesDiffer(front) && forall s :: s in front ==> s.name != last.name
  {
    var servers := front + [last];
    assert servers[|front|] == last && forall i :: 0 <= i < |front| ==> servers[i] == front[i];
  }

  lemma {:induction false} EscapesOfServer(h: Host, root: string, servers: seq<Server>, k: nat)
    requires WellFormed(h) && k < |servers| && NamesDiffer(servers)
    ensures CountAbout(EscapeFindings(h, root, servers), Some(servers[k].name)) ==
            |ContainmentFindings(h, root, servers[k])|
  {
    var front, last, s := servers[..|servers| - 1], servers[|servers| - 1], servers[k];
    assert servers == front + [last];
    NamesOfFront(front, last);
    EscapesOfLast(h, root, servers, s.name);
    if k < |front| {
      assert front[k] == s && s in front;
      EscapesOfServer(h, root, front, k);
    } else {
      EscapesOfNone(h, root, front, Some(s.name));
    }
  }

  lemma EscapesOfLast(h: Host, root: string, servers: seq<Server>, name: string)
    requires WellFormed(h) && servers != []
    ensures var n := |servers| - 1;
            CountAbout(EscapeFindings(h, root, servers), Some(name)) ==
            CountAbout(EscapeFindings(h, root, servers[..n]), Some(name))
            + if servers[n].name == name then |ContainmentFindings(h, root, servers[n])| else 0
  {
    var n := |servers| - 1;
    CountConcat(EscapeFindings(h, root, servers[..n]), ContainmentFindings(h, root, servers[n]), Some(name));
    EscapesOfOne(h, root, servers[n], name);
  }

  lemma StrictNamesDiffer(servers: seq<Server>)
    requires StrictlySorted(servers, ByName())
    ensures NamesDiffer(servers)
  {
    forall i, j | 0 <= i < j < |servers| ensures servers[i].name != servers[j].name {
      assert Less(ByName()(servers[i]), ByName()(servers[j]));
      LessAsymmetric(servers[i].name, servers[j].name);
    }
  }

  /** What containment says about the entry: a finding for each of its paths it objects to, if it got that far. */
  function EscapesOf(h: Host, root: string, name: string, raw: Json, client: Client): nat
    requires WellFormed(h)
  {
    if name != "" && Entry(name, raw, client).Accepted?
    then |ContainmentFindings(h, root, Entry(name, raw, client).server)|
    else 0
  }

  lemma EscapesOfEntry(h: Host, root: string, members: seq<(string, Json)>, client: Client, i: nat)
    requires WellFormed(h) && DistinctKeys(members) && i < |members|
    ensures CountAbout(EscapeFindings(h, root, SortBy(ServersAmong(members, Judging(client)), ByName())),
                       SubjectOf(members[i].0)) ==
            EscapesOf(h, root, members[i].0, members[i].1, client)
  {
    var judge, name, raw := Judging(client), members[i].0, members[i].1;
    var servers := SortBy(ServersAmong(members, judge), ByName());
    JudgingNamesItsServer(client);
    OutcomeIsItsOwn(members, judge, i);
    ServersAreDistinct(members, judge);
    SortIsStrict(ServersAmong(members, judge), ByName());
    StrictNamesDiffer(servers);
    if Passes(members[i], judge) {
      OneServerPerName(members, judge, i, judge(name, raw).server);
      var k :| 0 <= k < |servers| && servers[k] == judge(name, raw).server;
      EscapesOfServer(h, root, servers, k);
    } else {
      forall s | s in servers ensures Some(s.name) != SubjectOf(name) {
        assert s in ServersAmong(members, judge);
        ServerIsLaunchable(members, client, s);
      }
      EscapesOfNone(h, root, servers, SubjectOf(name));
    }
  }

  /**
   * After loading, the account of every declared server: it is returned with no finding, or has the one finding of its
   * entry's checks, or one for each of its paths the containment check objects to.
   */
  lemma EveryServerOnceLoaded(d: Disk, root: string, client: Client, i: nat)
    requires WellFormed(d.host) && ReadConfig(d, root).Document?
    requires DocumentProblem(ReadConfig(d, root).value, client).None?
    requires DistinctKeys(Servers(ReadConfig(d, root).value, client))
    requires i < |Servers(ReadConfig(d, root).value, client)|
    ensures var (name, raw) := Servers(ReadConfig(d, root).value, client)[i];
            var loaded, passes := Load(d, root, client), name != "" && Entry(name, raw, client).Accepted?;
            var escapes := EscapesOf(d.host, root, name, raw, client);
            && (HasServer(loaded.servers, name) <==> passes && escapes == 0)
            && CountAbout(loaded.findings, SubjectOf(name)) == if passes then escapes else 1
  {
    var members := Servers(ReadConfig(d, root).value, client);
    LoadIs(d, root, client);
    LoadedAccount(d.host, root, members, client, i);
  }

  lemma LoadIs(d: Disk, root: string, client: Client)
    requires WellFormed(d.host) && ReadConfig(d, root).Document?
    requires DocumentProblem(ReadConfig(d, root).value, client).None?
    ensures var members := Servers(ReadConfig(d, root).value, client);
            var servers := SortBy(ServersAmong(members, Judging(client)), ByName());
            Load(d, root, client) == Loaded(ContainedServers(d.host, root, servers),
                                            FindingsAmong(members, Judging(client))
                                            + EscapeFindings(d.host, root, servers))
  {
    var value := ReadConfig(d, root).value;
    ContainIs(d.host, root, value, client);
    assert Load(d, root, client) == Contain(d.host, root, Validated(value, client));
  }

  lemma ContainIs(h: Host, root: string, value: Json, client: Client)
    requires WellFormed(h) && DocumentProblem(value, client).None?
    ensures var members := Servers(value, client);
            var servers := SortBy(ServersAmong(members, Judging(client)), ByName());
            Contain(h, root, Validated(value, client)) ==
            Loaded(ContainedServers(h, root, servers),
                   FindingsAmong(members, Judging(client)) + EscapeFindings(h, root, servers))
  {
  }

  lemma LoadedAccount(h: Host, root: string, members: seq<(string, Json)>, client: Client, i: nat)
    requires WellFormed(h) && DistinctKeys(members) && i < |members|
    ensures var (name, raw) := members[i];
            var servers := SortBy(ServersAmong(members, Judging(client)), ByName());
            var passes := name != "" && Entry(name, raw, client).Accepted?;
            var escapes := EscapesOf(h, root, name, raw, client);
            && (HasServer(ContainedServers(h, root, servers), name) <==> passes && escapes == 0)
            && CountAbout(FindingsAmong(members, Judging(client)) + EscapeFindings(h, root, servers),
                          SubjectOf(name)) ==
               if passes then escapes else 1
  {
    var judge, name := Judging(client), members[i].0;
    var servers := SortBy(ServersAmong(members, judge), ByName());
    JudgingNamesItsServer(client);
    OutcomeIsItsOwn(members, judge, i);
    EscapesOfEntry(h, root, members, client, i);
    CountConcat(FindingsAmong(members, judge), EscapeFindings(h, root, servers), SubjectOf(name));
    KeptByName(h, root, members, judge, servers, i);
  }

  lemma KeptByName(h: Host, root: string, members: seq<(string, Json)>, judge: Judge, servers: seq<Server>, i: nat)
    requires WellFormed(h) && NamesItsServer(judge) && DistinctKeys(members) && i < |members|
    requires forall s :: s in servers <==> s in ServersAmong(members, judge)
    ensures HasServer(ContainedServers(h, root, servers), members[i].0) <==>
              Passes(members[i], judge) && ContainmentFindings(h, root, judge(members[i].0, members[i].1).server) == []
  {
    forall s: Server | s.name == members[i].0
      ensures s in ContainedServers(h, root, servers) <==>
                MadeOf(s, members[i], judge) && ContainmentFindings(h, root, s) == []
    {
      ContainedIff(h, root, servers, s);
      OneServerPerName(members, judge, i, s);
    }
    if Passes(members[i], judge) {
      var s := judge(members[i].0, members[i].1).server;
      assert s.name == members[i].0 && MadeOf(s, members[i], judge);
    }
  }
}
