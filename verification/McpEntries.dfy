/** Which entries of `mcp.json` are accepted, what an accepted server takes from its entry, and why others are not. */
module McpEntries {
  import opened Wrappers
  import opened Text
  import opened FileSystem
  import opened Paths
  import opened PackageFiles
  import opened Mcp
  import opened McpOutcome

  // ------------------------------------------------------------ what a server takes from its entry

  /** The document's own transport, command and working directory, or transport, address and headers. */
  ghost predicate IsItsEntry(server: Server, members: seq<(string, Json)>) {
    match server
    case StdioServer(_, command, cwd, _, _) =>
      && Member(members, "type") == Some(JString("stdio"))
      && Member(members, "command") == Some(JString(command))
      && Member(members, "cwd") == (if cwd.Some? then Some(JString(cwd.value)) else None)
    case RemoteServer(_, transport, url, headers, _) =>
      && Member(members, "type") == Some(JString(if transport.Sse? then "sse" else "streamable-http"))
      && !transport.Stdio? && Member(members, "url") == Some(JString(url))
      && (Member(members, "headers") == Some(JObject(headers)) || (Member(members, "headers").None? && headers == []))
  }

  /** An accepted server is what its entry says, under the name of the entry. */
  lemma AcceptedIsItsEntry(name: string, raw: Json, client: Client)
    requires Entry(name, raw, client).Accepted?
    ensures var server := Entry(name, raw, client).server;
            && raw.JObject? && server.raw == raw && server.name == name && IsItsEntry(server, raw.members)
  {
  }

  // ------------------------------------------------------------ which entries are accepted

  /** A field that may be there, and is text when it is. */
  ghost predicate TextIfAny(members: seq<(string, Json)>, key: string) {
    Member(members, key).Some? ==> Member(members, key).value.JString?
  }

  /** A bare name, or a path under the package that does not go up. */
  ghost predicate GoodCommand(command: string) {
    || (StartsWith(command, "./") && |command| > 2 && ".." !in ValueSegments(command[2..]))
    || (command != "" && command[0] != '.' && '/' !in command && '\\' !in command)
  }

  /** Under the package or under one of the two roots the client supplies, without going up. */
  ghost predicate GoodCwd(cwd: string) {
    && ".." !in ValueSegments(cwd)
    && (|| StartsWith(cwd, "./")
        || cwd == "${PLUGIN_ROOT}" || StartsWith(cwd, "${PLUGIN_ROOT}/")
        || cwd == "${PLUGIN_DATA}" || StartsWith(cwd, "${PLUGIN_DATA}/"))
  }

  /** Only text values. */
  ghost predicate TextsOnly(value: Json) {
    value.JObject? && forall i :: 0 <= i < |value.members| ==> value.members[i].1.JString?
  }

  /** The entry sets one of the environment names the client supplies. */
  ghost predicate SetsReserved(members: seq<(string, Json)>) {
    var env := Member(members, "env");
    && env.Some? && env.value.JObject?
    && exists i :: 0 <= i < |env.value.members| && env.value.members[i].0 in {"PLUGIN_ROOT", "PLUGIN_DATA"}
  }

  /** A stdio entry that keeps every rule. */
  ghost predicate GoodStdio(members: seq<(string, Json)>) {
    var command, args, env, cwd := Member(members, "command"), Member(members, "args"), Member(members, "env"),
                                   Member(members, "cwd");
    && (forall i :: 0 <= i < |members| ==> members[i].0 in {"type", "command", "args", "env", "cwd"})
    && command.Some? && command.value.JString? && GoodCommand(command.value.text)
    && (args.Some? ==> args.value.JArray?
                       && forall i :: 0 <= i < |args.value.items| ==> args.value.items[i].JString?)
    && (env.Some? ==> TextsOnly(env.value)) && !SetsReserved(members)
    && TextIfAny(members, "cwd") && (cwd.Some? ==> GoodCwd(cwd.value.text))
  }

  /** A remote entry that keeps every rule. */
  ghost predicate GoodRemote(members: seq<(string, Json)>, client: Client) {
    var url, headers := Member(members, "url"), Member(members, "headers");
    && (forall i :: 0 <= i < |members| ==> members[i].0 in {"type", "url", "headers"})
    && url.Some? && url.value.JString? && url.value.text != "" && !client.urlProblem(url.value.text)
    && (headers.Some? ==> TextsOnly(headers.value) && GoodHeaders(headers.value.members))
  }

  /** The transport an entry declares. */
  ghost predicate Declares(members: seq<(string, Json)>, transport: Transport) {
    Member(members, "type") == Some(JString(match transport
                                            case Stdio => "stdio"
                                            case StreamableHttp => "streamable-http"
                                            case Sse => "sse"))
  }

  ghost predicate GoodEntry(members: seq<(string, Json)>, transport: Transport, client: Client) {
    Declares(members, transport) && if transport.Stdio? then GoodStdio(members) else GoodRemote(members, client)
  }

  lemma {:induction false} OffendingMeans(members: seq<(string, Json)>)
    ensures OffendingKeys(members) != [] <==>
              exists i :: 0 <= i < |members| && members[i].0 in {"PLUGIN_ROOT", "PLUGIN_DATA"}
  {
    if members != [] {
      OffendingMeans(members[1..]);
      assert forall i :: 0 <= i < |members[1..]| ==> members[1..][i] == members[i + 1];
      if i :| 0 <= i < |members| && members[i].0 in {"PLUGIN_ROOT", "PLUGIN_DATA"} {
        assert i > 0 ==> members[1..][i - 1] == members[i];
      }
    }
  }

  lemma CwdMeans(cwd: string)
    ensures CwdPattern(cwd) && ClassifyCwd(cwd).Some? <==> GoodCwd(cwd)
  {
    assert ROOT_PLACEHOLDER + "/" == "${PLUGIN_ROOT}/" && DATA_PLACEHOLDER + "/" == "${PLUGIN_DATA}/";
  }

  lemma EnvMeans(members: seq<(string, Json)>)
    ensures var env := Member(members, "env");
            (env.Some? ==> env.value.JObject? && StringMembers(env.value.members)
                           && OffendingKeys(env.value.members) == []) <==>
              (env.Some? ==> TextsOnly(env.value)) && !SetsReserved(members)
  {
    var env := Member(members, "env");
    if env.Some? && env.value.JObject? {
      OffendingMeans(env.value.members);
    }
  }

  lemma CommandMeans(command: string)
    ensures GoodCommand(command) <==> |command| >= 1 && StdioCommandProblem(command).None?
  {
    CommandRule(command);
  }

  lemma GoodCwdMeans(members: seq<(string, Json)>)
    ensures var cwd := Member(members, "cwd");
            (cwd.Some? ==> cwd.value.JString? && CwdPattern(cwd.value.text) && ClassifyCwd(cwd.value.text).Some?) <==>
              TextIfAny(members, "cwd") && (cwd.Some? ==> GoodCwd(cwd.value.text))
  {
    var cwd := Member(members, "cwd");
    if cwd.Some? && cwd.value.JString? {
      CwdMeans(cwd.value.text);
    }
  }

  lemma GoodCommandMeans(members: seq<(string, Json)>)
    ensures var command := Member(members, "command");
            command.Some? && command.value.JString? && GoodCommand(command.value.text) <==>
              && command.Some? && command.value.JString? && |command.value.text| >= 1
              && StdioCommandProblem(TextMember(members, "command")).None?
  {
    var command := Member(members, "command");
    if command.Some? && command.value.JString? {
      CommandMeans(command.value.text);
    }
  }

  /** The schema's variant with the rules on reserved names and on the texts beside it. */
  lemma GoodStdioMeans(members: seq<(string, Json)>)
    ensures GoodStdio(members) <==>
              && StdioSchema(members) && StdioCommandProblem(TextMember(members, "command")).None?
              && (Member(members, "cwd").Some? ==> ClassifyCwd(Member(members, "cwd").value.text).Some?)
  {
    EnvMeans(members);
    GoodCommandMeans(members);
    GoodCwdMeans(members);
  }

  lemma StdioAccepted(name: string, raw: Json, client: Client)
    requires raw.JObject?
    ensures StdioEntry(name, raw, client).Accepted? <==> GoodStdio(raw.members) && Stdio in client.supported
  {
    GoodStdioMeans(raw.members);
  }

  lemma RemoteAccepted(name: string, transport: Transport, raw: Json, client: Client)
    requires raw.JObject?
    ensures RemoteEntry(name, transport, raw, client).Accepted? <==>
              GoodRemote(raw.members, client) && transport in client.supported
  {
    var headers := Member(raw.members, "headers");
    if headers.Some? && headers.value.JObject? && StringMembers(headers.value.members) {
      HeadersChecked(headers.value.members, {});
    }
  }

  lemma TransportMeans(members: seq<(string, Json)>, transport: Transport)
    ensures Declares(members, transport) <==>
              var kind := Member(members, "type");
              kind.Some? && kind.value.JString? && TransportOf(kind.value.text) == Some(transport)
  {
  }

  /** An entry is accepted exactly when it is an object that keeps the rules of a transport the client can connect. */
  lemma AcceptedIff(name: string, raw: Json, client: Client)
    ensures Entry(name, raw, client).Accepted? <==>
              raw.JObject? && exists t :: t in client.supported && GoodEntry(raw.members, t, client)
  {
    if raw.JObject? {
      StdioAccepted(name, raw, client);
      RemoteAccepted(name, StreamableHttp, raw, client);
      RemoteAccepted(name, Sse, raw, client);
      TransportMeans(raw.members, Stdio);
      TransportMeans(raw.members, StreamableHttp);
      TransportMeans(raw.members, Sse);
      if Declares(raw.members, Stdio) {
        assert Entry(name, raw, client).Accepted? ==> GoodEntry(raw.members, Stdio, client);
      } else if Declares(raw.members, StreamableHttp) {
        assert Entry(name, raw, client).Accepted? ==> GoodEntry(raw.members, StreamableHttp, client);
      } else if Declares(raw.members, Sse) {
        assert Entry(name, raw, client).Accepted? ==> GoodEntry(raw.members, Sse, client);
      }
    }
  }

  // ------------------------------------------------------------ why an entry is not

  /** No transport, an unknown one, a reserved environment name, and a transport the client cannot connect. */
  lemma RefusalsMean(name: string, raw: Json, client: Client)
    requires raw.JObject?
    ensures var outcome, kind := Entry(name, raw, client), Member(raw.members, "type");
            && (outcome == Skipped(ServerTypeMissing) <==> kind.None?)
            && (outcome == Skipped(ServerTypeUnknown) <==>
                  kind.Some? && kind.value !in {JString("stdio"), JString("streamable-http"), JString("sse")})
            && (outcome == Skipped(ServerEnvReservedKey) <==>
                  kind == Some(JString("stdio")) && SetsReserved(raw.members))
            && (outcome == Skipped(ServerTransportUnsupported) <==>
                  exists t :: t !in client.supported && GoodEntry(raw.members, t, client))
  {
    var kind := Member(raw.members, "type");
    forall t: Transport ensures GoodEntry(raw.members, t, client) ==> kind.Some? && kind.value.JString?
                                                                      && TransportOf(kind.value.text) == Some(t) {
      TransportMeans(raw.members, t);
    }
    if kind.Some? && kind.value.JString? && TransportOf(kind.value.text).Some? {
      var transport := TransportOf(kind.value.text).value;
      TransportMeans(raw.members, transport);
      if transport.Stdio? {
        StdioRefusals(name, raw, client);
        assert GoodEntry(raw.members, transport, client) <==> GoodStdio(raw.members);
      } else {
        RemoteRefusals(name, transport, raw, client);
        assert GoodEntry(raw.members, transport, client) <==> GoodRemote(raw.members, client);
      }
    }
  }

  lemma StdioRefusals(name: string, raw: Json, client: Client)
    requires raw.JObject?
    ensures var outcome := StdioEntry(name, raw, client);
            && outcome != Skipped(ServerTypeMissing) && outcome != Skipped(ServerTypeUnknown)
            && (outcome == Skipped(ServerEnvReservedKey) <==> SetsReserved(raw.members))
            && (outcome == Skipped(ServerTransportUnsupported) <==>
                  GoodStdio(raw.members) && Stdio !in client.supported)
  {
    StdioAccepted(name, raw, client.(supported := {Stdio}));
    var env := Member(raw.members, "env");
    if env.Some? && env.value.JObject? {
      OffendingMeans(env.value.members);
    }
  }

  lemma RemoteRefusals(name: string, transport: Transport, raw: Json, client: Client)
    requires raw.JObject?
    ensures var outcome := RemoteEntry(name, transport, raw, client);
            && outcome != Skipped(ServerTypeMissing) && outcome != Skipped(ServerTypeUnknown)
            && outcome != Skipped(ServerEnvReservedKey)
            && (outcome == Skipped(ServerTransportUnsupported) <==>
                  GoodRemote(raw.members, client) && transport !in client.supported)
  {
    RemoteAccepted(name, transport, raw, client.(supported := {transport}));
    var headers := Member(raw.members, "headers");
    if headers.Some? && headers.value.JObject? && StringMembers(headers.value.members) {
      HeaderCodes(headers.value.members, {});
    }
  }

  lemma {:induction false} HeaderCodes(headers: seq<(string, Json)>, seen: set<string>)
    requires StringMembers(headers)
    ensures HeaderProblem(headers, seen) in
            {None, Some(ServerHeaderNameInvalid), Some(ServerHeaderValueInvalid), Some(ServerHeaderDuplicate)}
    decreases |headers|
  {
    if headers != [] {
      HeaderCodes(headers[1..], seen + {Lower(headers[0].0)});
    }
  }

  /** Past the schema: a command, a working directory or an address that breaks its rule. */
  lemma RuleRefusals(name: string, raw: Json, client: Client)
    requires raw.JObject?
    ensures var m, stdio := raw.members, StdioEntry(name, raw, client);
            var cwd := Member(raw.members, "cwd");
            && (!SetsReserved(m) && !StdioSchema(m) ==>
                  stdio == Skipped(ServerSchemaViolation) || stdio == Skipped(ServerCwdInvalid))
            && (stdio == Skipped(ServerCommandInvalid) <==> StdioSchema(m) && !GoodCommand(TextMember(m, "command")))
            && (StdioSchema(m) && GoodCommand(TextMember(m, "command")) && cwd.Some? && !GoodCwd(cwd.value.text) ==>
                  stdio == Skipped(ServerCwdInvalid))
    ensures forall t :: RemoteEntry(name, t, raw, client) == Skipped(ServerUrlInvalid) <==>
              RemoteSchema(raw.members) && client.urlProblem(TextMember(raw.members, "url"))
    ensures forall t :: RemoteEntry(name, t, raw, client) == Skipped(ServerSchemaViolation) <==>
              !RemoteSchema(raw.members)
  {
    var env, cwd := Member(raw.members, "env"), Member(raw.members, "cwd");
    if env.Some? && env.value.JObject? {
      OffendingMeans(env.value.members);
    }
    CommandMeans(TextMember(raw.members, "command"));
    if cwd.Some? && cwd.value.JString? {
      CwdMeans(cwd.value.text);
    }
    if RemoteSchema(raw.members) {
      HeadersRefuse(raw.members);
    }
  }

  lemma HeadersRefuse(members: seq<(string, Json)>)
    requires RemoteSchema(members)
    ensures var headers := Member(members, "headers");
            headers.Some? ==>
              HeaderProblem(headers.value.members, {}) in
              {None, Some(ServerHeaderNameInvalid), Some(ServerHeaderValueInvalid), Some(ServerHeaderDuplicate)}
  {
    var headers := Member(members, "headers");
    if headers.Some? {
      HeaderCodes(headers.value.members, {});
    }
  }

  /** This header is wrong in this way, and none before it is wrong. */
  ghost predicate BreaksAt(headers: seq<(string, Json)>, seen: set<string>, i: nat, code: Code)
    requires StringMembers(headers) && i < |headers|
  {
    var name, value := headers[i].0, headers[i].1.text;
    var again := Lower(name) in seen || exists j :: 0 <= j < i && Lower(headers[j].0) == Lower(name);
    && (forall j :: 0 <= j < i ==> IsHeaderName(headers[j].0) && IsHeaderValue(headers[j].1.text))
    && match code
       case ServerHeaderNameInvalid => !IsHeaderName(name)
       case ServerHeaderValueInvalid => IsHeaderName(name) && !IsHeaderValue(value)
       case ServerHeaderDuplicate => IsHeaderName(name) && IsHeaderValue(value) && again
       case _ => false
  }

  /** The problem reported is that of a header, and no header before it has a wrong name or value. */
  lemma {:induction false} HeaderProblemMeans(headers: seq<(string, Json)>, seen: set<string>) returns (i: nat)
    requires StringMembers(headers) && HeaderProblem(headers, seen).Some?
    ensures i < |headers| && BreaksAt(headers, seen, i, HeaderProblem(headers, seen).value)
    decreases |headers|
  {
    i := 0;
    var (name, value) := headers[0];
    if IsHeaderName(name) && IsHeaderValue(value.text) && Lower(name) !in seen {
      var rest := headers[1..];
      var j := HeaderProblemMeans(rest, seen + {Lower(name)});
      i := j + 1;
      assert forall k :: 0 <= k < |rest| ==> rest[k] == headers[k + 1];
      if k :| 0 <= k < j && Lower(rest[k].0) == Lower(rest[j].0) {
        assert Lower(headers[k + 1].0) == Lower(headers[i].0);
      }
    }
  }

  // ------------------------------------------------------------ the document

  /** The document names a schema the client knows. */
  predicate KnownSchema(members: seq<(string, Json)>, client: Client) {
    var schema := Member(members, "$schema");
    schema.Some? && schema.value.JString? && schema.value.text in client.versions
  }

  /** Of the release of the manifest. */
  predicate MatchesManifest(members: seq<(string, Json)>, client: Client) {
    && KnownSchema(members, client)
    && client.versions[Member(members, "$schema").value.text] == client.manifestVersion
  }

  predicate HasOnlyKnownFields(members: seq<(string, Json)>) {
    forall i :: 0 <= i < |members| ==> members[i].0 in {"$schema", "mcpServers"}
  }

  /** What disables the whole configuration, in the order the questions are asked. */
  lemma DocumentProblemsMean(value: Json, client: Client)
    requires value.JObject?
    ensures var problem, m := DocumentProblem(value, client), value.members;
            var servers, matches := Member(m, "mcpServers"), MatchesManifest(m, client) && HasOnlyKnownFields(m);
            && (problem == Some(SchemaMissing) <==> Member(m, "$schema").None?)
            && (problem == Some(SchemaUnsupported) <==> Member(m, "$schema").Some? && !KnownSchema(m, client))
            && (problem == Some(SchemaVersionMismatch) <==> KnownSchema(m, client) && !MatchesManifest(m, client))
            && (problem == Some(UnknownField) <==> MatchesManifest(m, client) && !HasOnlyKnownFields(m))
            && (problem == Some(ServersMissing) <==> matches && servers.None?)
            && (problem == Some(ServersNotAnObject) <==> matches && servers.Some? && !servers.value.JObject?)
            && (problem.None? <==> matches && servers.Some? && servers.value.JObject?)
  {
  }

  /** Anything but an object is refused as that. */
  lemma OnlyObjectsAreRead(value: Json, client: Client)
    ensures DocumentProblem(value, client) == Some(NotAnObject) <==> !value.JObject?
  {
  }

  // ------------------------------------------------------------ the file

  /** The configuration file leads, links followed, to a file under the real root. */
  ghost predicate ConfigInside(d: Disk, root: string)
    requires WellFormed(d.host)
  {
    var at := Stat(d.host, ConfigPath(d, root));
    at.Reached? && RealRoot(d.host, root) <= at.at && IsRegularFile(d.host, ConfigPath(d, root))
  }

  /** What the file parses to. */
  function ParsedAt(d: Disk, root: string): Option<Json>
    requires WellFormed(d.host)
  {
    var at := Stat(d.host, ConfigPath(d, root));
    if at.Reached? && at.at in d.contents then d.contents[at.at] else None
  }

  lemma ConfigContainedIff(d: Disk, root: string)
    requires WellFormed(d.host) && Stat(d.host, ConfigPath(d, root)).Reached?
    ensures IsContained(d.host, root, "mcp.json") <==>
              RealRoot(d.host, root) <= Stat(d.host, ConfigPath(d, root)).at
  {
    assert PlainNames(["mcp.json"]) && JoinWith(["mcp.json"], '/') == "mcp.json";
    ContainedMeansInside(d.host, root, ["mcp.json"]);
  }

  lemma ReadIff(d: Disk, root: string)
    requires WellFormed(d.host)
    ensures var source, json := ReadConfig(d, root), ParsedAt(d, root);
            var there := Present(d.host, ConfigPath(d, root));
            && (source.NoFile? <==> !there)
            && (source.Document? <==> there && ConfigInside(d, root) && json.Some?)
            && (source.Document? ==> json == Some(source.value))
  {
    if Stat(d.host, ConfigPath(d, root)).Reached? {
      ConfigContainedIff(d, root);
    }
  }

  /**
   * Absent exactly when there is no entry at the fixed place; loaded exactly when it leads to a file of the package
   * that parses to a document without a problem; disabled otherwise, for the document's problem if it came to that.
   */
  lemma LoadedIff(d: Disk, root: string, client: Client)
    requires WellFormed(d.host)
    ensures var config, json := Load(d, root, client), ParsedAt(d, root);
            var there := Present(d.host, ConfigPath(d, root));
            && (config == Absent <==> !there)
            && (config.Loaded? <==>
                  there && ConfigInside(d, root) && json.Some? && DocumentProblem(json.value, client).None?)
            && (there && ConfigInside(d, root) && json.Some? && DocumentProblem(json.value, client).Some? ==>
                  config == Disabled(DocumentProblem(json.value, client).value))
  {
    ReadIff(d, root);
    LoadFollows(d, root, client, ReadConfig(d, root));
  }

  lemma LoadFollows(d: Disk, root: string, client: Client, source: Source)
    requires WellFormed(d.host) && source == ReadConfig(d, root)
    ensures var config := Load(d, root, client);
            && (config == Absent <==> source.NoFile?)
            && (config.Loaded? <==> source.Document? && DocumentProblem(source.value, client).None?)
            && (source.Document? && DocumentProblem(source.value, client).Some? ==>
                  config == Disabled(DocumentProblem(source.value, client).value))
  {
  }

  // ------------------------------------------------------------ which paths are checked

  /** What the containment check objects to: a path of the package, taken off its anchor, that leaves it. */
  lemma ObjectionsMean(h: Host, root: string, server: Server)
    requires WellFormed(h) && server.StdioServer? && (server.cwd.Some? <==> server.cwdAnchor.Some?)
    requires server.cwd.Some? ==> server.cwdAnchor == ClassifyCwd(server.cwd.value)
    ensures var findings := ContainmentFindings(h, root, server);
            && (Finding(ServerCommandInvalid, Some(server.name)) in findings <==>
                  StartsWith(server.command, "./") && !IsContained(h, root, server.command[2..]))
            && (Finding(ServerCwdInvalid, Some(server.name)) in findings <==>
                  && server.cwd.Some? && !StartsWith(server.cwd.value, "${PLUGIN_DATA}")
                  && !IsContained(h, root, Remainder(server.cwd.value)))
            && |findings| <= 2
  {
    if server.cwd.Some? {
      AnchorsMean(server.cwd.value);
    }
  }

  /** What follows `./`, or the placeholder and a slash. */
  function Remainder(cwd: string): string {
    if StartsWith(cwd, "./") then cwd[2..]
    else if StartsWith(cwd, "${PLUGIN_ROOT}/") then cwd[|"${PLUGIN_ROOT}/"|..]
    else ""
  }

  /** A text after its first piece, and after that piece and a slash. */
  lemma AfterAnchor(text: string, anchor: string)
    requires StartsWith(text, anchor + "/")
    ensures StartsWith(text, anchor) && StartsWith(text[|anchor|..], "/")
    ensures text[|anchor|..][1..] == text[|anchor + "/"|..]
  {
    var n := |anchor|;
    assert text[..n + 1] == anchor + "/";
    assert text[..n] == (anchor + "/")[..n] == anchor && text[n] == (anchor + "/")[n] == '/';
  }

  lemma RootIsNotData(cwd: string)
    ensures StartsWith(cwd, ROOT_PLACEHOLDER) ==> !StartsWith(cwd, DATA_PLACEHOLDER) && !StartsWith(cwd, "./")
    ensures StartsWith(cwd, DATA_PLACEHOLDER) ==> !StartsWith(cwd, "./")
  {
    assert ROOT_PLACEHOLDER[9] == 'R' && DATA_PLACEHOLDER[9] == 'D';
    if StartsWith(cwd, ROOT_PLACEHOLDER) {
      assert cwd[..14][9] == 'R' && cwd[..14][0] == '$';
    }
    if StartsWith(cwd, DATA_PLACEHOLDER) {
      assert cwd[..14][0] == '$';
    }
    if StartsWith(cwd, "./") {
      assert cwd[..2][0] == '.';
    }
  }

  lemma RelativeRemainder(cwd: string)
    requires StartsWith(cwd, "./") && ClassifyCwd(cwd).Some?
    ensures ClassifyCwd(cwd) == Some(PluginRelative) && CwdRemainder(cwd, PluginRelative) == Remainder(cwd)
  {
  }

  lemma RootedRemainder(cwd: string)
    requires StartsWith(cwd, ROOT_PLACEHOLDER) && ClassifyCwd(cwd).Some?
    ensures ClassifyCwd(cwd) == Some(PluginRoot) && CwdRemainder(cwd, PluginRoot) == Remainder(cwd)
  {
    RootIsNotData(cwd);
    assert DATA_PLACEHOLDER + "/" != cwd;
    if StartsWith(cwd, ROOT_PLACEHOLDER + "/") {
      AfterAnchor(cwd, ROOT_PLACEHOLDER);
    } else {
      DataIsNoPrefix(cwd);
      assert cwd == ROOT_PLACEHOLDER && cwd[|ROOT_PLACEHOLDER|..] == "";
    }
  }

  lemma DataIsNoPrefix(cwd: string)
    requires !StartsWith(cwd, DATA_PLACEHOLDER)
    ensures cwd != DATA_PLACEHOLDER && !StartsWith(cwd, DATA_PLACEHOLDER + "/")
  {
    if StartsWith(cwd, DATA_PLACEHOLDER + "/") {
      AfterAnchor(cwd, DATA_PLACEHOLDER);
    }
  }

  lemma GivenAnchor(cwd: string)
    requires StartsWith(cwd, DATA_PLACEHOLDER) && ClassifyCwd(cwd).Some?
    ensures ClassifyCwd(cwd) == Some(PluginData)
  {
    RootIsNotData(cwd);
    if StartsWith(cwd, ROOT_PLACEHOLDER + "/") {
      AfterAnchor(cwd, ROOT_PLACEHOLDER);
    }
  }

  lemma AnchorsMean(cwd: string)
    requires ClassifyCwd(cwd).Some?
    ensures ClassifyCwd(cwd) == Some(PluginData) <==> StartsWith(cwd, DATA_PLACEHOLDER)
    ensures ClassifyCwd(cwd) != Some(PluginData) ==> CwdRemainder(cwd, ClassifyCwd(cwd).value) == Remainder(cwd)
  {
    RootIsNotData(cwd);
    if StartsWith(cwd, DATA_PLACEHOLDER) {
      GivenAnchor(cwd);
    } else {
      DataIsNoPrefix(cwd);
      if StartsWith(cwd, "./") {
        RelativeRemainder(cwd);
      } else {
        RootIsPrefix(cwd);
        RootedRemainder(cwd);
      }
    }
  }

  lemma RootIsPrefix(cwd: string)
    requires cwd == ROOT_PLACEHOLDER || StartsWith(cwd, ROOT_PLACEHOLDER + "/")
    ensures StartsWith(cwd, ROOT_PLACEHOLDER)
  {
    if StartsWith(cwd, ROOT_PLACEHOLDER + "/") {
      AfterAnchor(cwd, ROOT_PLACEHOLDER);
    }
  }
}
