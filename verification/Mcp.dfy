/** `mcp.json`: the checks on the document and on each server entry, and the loader that adds containment. */
module Mcp {
  import opened Wrappers
  import opened Text
  import opened FileSystem
  import opened Paths
  import opened PackageFiles
  import opened Ordering

  /** A parsed JSON value; an object's members in the order the runtime enumerates them. */
  datatype Json = JNull | JBool(b: bool) | JNumber(n: int) | JString(text: string) | JArray(items: seq<Json>)
                | JObject(members: seq<(string, Json)>)

  datatype Transport = Stdio | StreamableHttp | Sse

  datatype CwdAnchor = PluginRelative | PluginRoot | PluginData

  datatype Server =
    | StdioServer(name: string, command: string, cwd: Option<string>, cwdAnchor: Option<CwdAnchor>, raw: Json)
    | RemoteServer(name: string, transport: Transport, url: string, headers: seq<(string, Json)>, raw: Json)

  datatype Code =
    | NotAnObject | SchemaMissing | SchemaUnsupported | SchemaVersionMismatch | UnknownField | ServersMissing
    | ServersNotAnObject | InvalidJson | PathEscapesRoot | LocationNotAFile | Unreadable
    | ServerNameInvalid | ServerSchemaViolation | ServerTypeMissing | ServerTypeUnknown | ServerEnvReservedKey
    | ServerCwdInvalid | ServerCommandInvalid | ServerTransportUnsupported | ServerUrlInvalid
    | ServerHeaderNameInvalid | ServerHeaderValueInvalid | ServerHeaderDuplicate

  datatype Finding = Finding(code: Code, subject: Option<string>)

  datatype Outcome = Accepted(server: Server) | Skipped(code: Code)

  datatype Config = Disabled(code: Code) | Absent | Loaded(servers: seq<Server>, findings: seq<Finding>)

  /**
   * What a client brings along: the schema identifiers it knows with their releases, the release of the manifest, the
   * transports it can connect, URL parsing, and which of several schema errors is reported first.
   */
  datatype Client = Client(
    versions: map<string, string>, manifestVersion: string, supported: set<Transport>,
    urlProblem: string -> bool, cwdErrorFirst: Json -> bool)

  predicate DistinctKeys(members: seq<(string, Json)>) {
    forall i, j :: 0 <= i < j < |members| ==> members[i].0 != members[j].0
  }

  function Member(members: seq<(string, Json)>, key: string): Option<Json> {
    if members == [] then None
    else if members[0].0 == key then Some(members[0].1)
    else Member(members[1..], key)
  }

  function TextMember(members: seq<(string, Json)>, key: string): string {
    var m := Member(members, key);
    if m.Some? && m.value.JString? then m.value.text else ""
  }

  // ------------------------------------------------------------ the schema's server variants

  predicate AllStrings(items: seq<Json>) {
    forall i :: 0 <= i < |items| ==> items[i].JString?
  }

  predicate StringMembers(members: seq<(string, Json)>) {
    forall i :: 0 <= i < |members| ==> members[i].1.JString?
  }

  predicate OnlyKeys(members: seq<(string, Json)>, keys: set<string>) {
    forall i :: 0 <= i < |members| ==> members[i].0 in keys
  }

  const ROOT_PLACEHOLDER := "${PLUGIN_ROOT}"
  const DATA_PLACEHOLDER := "${PLUGIN_DATA}"
  const RESERVED: set<string> := {"PLUGIN_ROOT", "PLUGIN_DATA"}

  predicate CwdPattern(cwd: string) {
    || StartsWith(cwd, "./") || cwd == ROOT_PLACEHOLDER || StartsWith(cwd, ROOT_PLACEHOLDER + "/")
    || cwd == DATA_PLACEHOLDER || StartsWith(cwd, DATA_PLACEHOLDER + "/")
  }

  predicate StdioSchema(members: seq<(string, Json)>) {
    var command, args, env, cwd := Member(members, "command"), Member(members, "args"),
                                   Member(members, "env"), Member(members, "cwd");
    && OnlyKeys(members, {"type", "command", "args", "env", "cwd"})
    && command.Some? && command.value.JString? && |command.value.text| >= 1
    && (args.Some? ==> args.value.JArray? && AllStrings(args.value.items))
    && (env.Some? ==> env.value.JObject? && StringMembers(env.value.members) && OffendingKeys(env.value.members) == [])
    && (cwd.Some? ==> cwd.value.JString? && CwdPattern(cwd.value.text))
  }

  predicate RemoteSchema(members: seq<(string, Json)>) {
    var url, headers := Member(members, "url"), Member(members, "headers");
    && OnlyKeys(members, {"type", "url", "headers"})
    && url.Some? && url.value.JString? && |url.value.text| >= 1
    && (headers.Some? ==> headers.value.JObject? && StringMembers(headers.value.members))
  }

  function OffendingKeys(members: seq<(string, Json)>): seq<string> {
    if members == [] then []
    else (if members[0].0 in RESERVED then [members[0].0] else []) + OffendingKeys(members[1..])
  }

  // ------------------------------------------------------------ rules beyond the schema

  datatype CommandProblem = Empty | NamesNoFile | Traverses | NotBareOrRelative | AbsoluteDrive | HasSeparator

  predicate HasDrivePrefix(s: string) {
    |s| >= 3 && ('a' <= s[0] <= 'z' || 'A' <= s[0] <= 'Z') && s[1] == ':' && (s[2] == '/' || s[2] == '\\')
  }

  function StdioCommandProblem(command: string): Option<CommandProblem> {
    if command == "" then Some(Empty)
    else if StartsWith(command, "./") then
      if command[2..] == "" then Some(NamesNoFile)
      else if ".." in ValueSegments(command[2..]) then Some(Traverses)
      else None
    else if command[0] in {'.', '/', '\\'} then Some(NotBareOrRelative)
    else if HasDrivePrefix(command) then Some(AbsoluteDrive)
    else if '/' in command || '\\' in command then Some(HasSeparator)
    else None
  }

  /** A command passes exactly when it is a bare name or names a file under the package without going up. */
  lemma CommandRule(command: string)
    ensures StdioCommandProblem(command).None? <==>
            || (StartsWith(command, "./") && |command| > 2 && ".." !in ValueSegments(command[2..]))
            || (command != "" && command[0] != '.' && '/' !in command && '\\' !in command)
  {
    if command != "" {
      assert command[0] in command;
      if StartsWith(command, "./") {
        assert command[..2] == "./" && command[0] == '.' && command[1] == '/';
      }
      if HasDrivePrefix(command) {
        assert command[2] in command;
      }
    }
  }

  /** Which root a `cwd` is anchored to. */
  function ClassifyCwd(value: string): Option<CwdAnchor> {
    if ".." in ValueSegments(value) then None
    else if StartsWith(value, "./") then Some(PluginRelative)
    else if value == ROOT_PLACEHOLDER || StartsWith(value, ROOT_PLACEHOLDER + "/") then Some(PluginRoot)
    else if value == DATA_PLACEHOLDER || StartsWith(value, DATA_PLACEHOLDER + "/") then Some(PluginData)
    else None
  }

  const HEADER_NAME_CHARACTERS: set<char> :=
    {'!', '#', '$', '%', '&', '\'', '*', '+', '-', '.', '^', '_', '`', '|', '~'}

  predicate IsHeaderNameCharacter(c: char) {
    c in HEADER_NAME_CHARACTERS || '0' <= c <= '9' || 'A' <= c <= 'Z' || 'a' <= c <= 'z'
  }

  predicate IsHeaderName(s: string) {
    s != "" && forall c :: c in s ==> IsHeaderNameCharacter(c)
  }

  predicate IsHeaderValue(s: string) {
    forall c :: c in s ==> c == '\t' || ' ' <= c <= '~' || '\U{80}' <= c <= '\U{FF}'
  }

  /** The first thing wrong with the headers, given the lower-cased names before them. */
  function HeaderProblem(headers: seq<(string, Json)>, seen: set<string>): Option<Code>
    requires StringMembers(headers)
    decreases |headers|
  {
    if headers == [] then None
    else
      var (name, value) := headers[0];
      if !IsHeaderName(name) then Some(ServerHeaderNameInvalid)
      else if !IsHeaderValue(value.text) then Some(ServerHeaderValueInvalid)
      else if Lower(name) in seen then Some(ServerHeaderDuplicate)
      else HeaderProblem(headers[1..], seen + {Lower(name)})
  }

  // ------------------------------------------------------------ one entry

  function TransportOf(text: string): Option<Transport> {
    if text == "stdio" then Some(Stdio)
    else if text == "streamable-http" then Some(StreamableHttp)
    else if text == "sse" then Some(Sse)
    else None
  }

  function StdioEntry(name: string, raw: Json, client: Client): Outcome
    requires raw.JObject?
  {
    var env := Member(raw.members, "env");
    if env.Some? && env.value.JObject? && OffendingKeys(env.value.members) != [] then Skipped(ServerEnvReservedKey)
    else if !StdioSchema(raw.members)
    then Skipped(if client.cwdErrorFirst(raw) then ServerCwdInvalid else ServerSchemaViolation)
    else
      var command, cwd := TextMember(raw.members, "command"), Member(raw.members, "cwd");
      if StdioCommandProblem(command).Some? then Skipped(ServerCommandInvalid)
      else if cwd.Some? && ClassifyCwd(cwd.value.text).None? then Skipped(ServerCwdInvalid)
      else if Stdio !in client.supported then Skipped(ServerTransportUnsupported)
      else Accepted(StdioServer(name, command, if cwd.Some? then Some(cwd.value.text) else None,
                                if cwd.Some? then ClassifyCwd(cwd.value.text) else None, raw))
  }

  function RemoteEntry(name: string, transport: Transport, raw: Json, client: Client): Outcome
    requires raw.JObject?
  {
    if !RemoteSchema(raw.members) then Skipped(ServerSchemaViolation)
    else
      var url, headers := TextMember(raw.members, "url"), Member(raw.members, "headers");
      var given := if headers.Some? then headers.value.members else [];
      if client.urlProblem(url) then Skipped(ServerUrlInvalid)
      else if HeaderProblem(given, {}).Some? then Skipped(HeaderProblem(given, {}).value)
      else if transport !in client.supported then Skipped(ServerTransportUnsupported)
      else Accepted(RemoteServer(name, transport, url, given, raw))
  }

  function Entry(name: string, raw: Json, client: Client): Outcome {
    if !raw.JObject? then Skipped(ServerSchemaViolation)
    else
      var kind := Member(raw.members, "type");
      if kind.None? then Skipped(ServerTypeMissing)
      else if !kind.value.JString? || TransportOf(kind.value.text).None? then Skipped(ServerTypeUnknown)
      else
        var transport := TransportOf(kind.value.text).value;
        if transport.Stdio? then StdioEntry(name, raw, client) else RemoteEntry(name, transport, raw, client)
  }

  // ------------------------------------------------------------ the document

  type Judge = (string, Json) -> Outcome

  function Judging(client: Client): Judge {
    (name: string, raw: Json) => Entry(name, raw, client)
  }

  function ServersAmong(members: seq<(string, Json)>, judge: Judge): seq<Server> {
    if members == [] then []
    else
      var n := |members| - 1;
      ServersAmong(members[..n], judge)
      + if members[n].0 != "" && judge(members[n].0, members[n].1).Accepted?
        then [judge(members[n].0, members[n].1).server] else []
  }

  function FindingsAmong(members: seq<(string, Json)>, judge: Judge): seq<Finding> {
    if members == [] then []
    else
      var n := |members| - 1;
      FindingsAmong(members[..n], judge)
      + if members[n].0 == "" then [Finding(ServerNameInvalid, None)]
        else if judge(members[n].0, members[n].1).Skipped?
        then [Finding(judge(members[n].0, members[n].1).code, Some(members[n].0))] else []
  }

  function ByName(): Server -> string { (s: Server) => s.name }

  /** What is wrong with the document as a whole. */
  function DocumentProblem(value: Json, client: Client): Option<Code> {
    if !value.JObject? then Some(NotAnObject)
    else
      var schema, servers := Member(value.members, "$schema"), Member(value.members, "mcpServers");
      if schema.None? then Some(SchemaMissing)
      else if !schema.value.JString? || schema.value.text !in client.versions then Some(SchemaUnsupported)
      else if client.versions[schema.value.text] != client.manifestVersion then Some(SchemaVersionMismatch)
      else if !OnlyKeys(value.members, {"$schema", "mcpServers"}) then Some(UnknownField)
      else if servers.None? then Some(ServersMissing)
      else if !servers.value.JObject? then Some(ServersNotAnObject)
      else None
  }

  function Servers(value: Json, client: Client): seq<(string, Json)>
    requires DocumentProblem(value, client).None?
  {
    Member(value.members, "mcpServers").value.members
  }

  function Validated(value: Json, client: Client): Config {
    if DocumentProblem(value, client).Some? then Disabled(DocumentProblem(value, client).value)
    else
      var members := Servers(value, client);
      Loaded(SortBy(ServersAmong(members, Judging(client)), ByName()), FindingsAmong(members, Judging(client)))
  }

  // ------------------------------------------------------------ containment

  /** The package-relative part of a `cwd`, its anchor taken off. */
  function CwdRemainder(cwd: string, anchor: CwdAnchor): string {
    if anchor.PluginRelative? then (if |cwd| >= 2 then cwd[2..] else "")
    else WithoutPlaceholder(cwd)
  }

  function WithoutPlaceholder(cwd: string): string {
    if StartsWith(cwd, ROOT_PLACEHOLDER) || StartsWith(cwd, DATA_PLACEHOLDER) then
      var rest := cwd[|ROOT_PLACEHOLDER|..];
      if StartsWith(rest, "/") then rest[1..] else rest
    else cwd
  }

  predicate CommandEscapes(h: Host, root: string, server: Server)
    requires WellFormed(h) && server.StdioServer?
  {
    StartsWith(server.command, "./") && !IsContained(h, root, server.command[2..])
  }

  /** Against the plugin root only: the loader does not know the data directory. */
  predicate CwdEscapes(h: Host, root: string, server: Server)
    requires WellFormed(h) && server.StdioServer?
  {
    && server.cwd.Some?
    && (server.cwdAnchor.None?
        || (!server.cwdAnchor.value.PluginData?
            && !IsContained(h, root, CwdRemainder(server.cwd.value, server.cwdAnchor.value))))
  }

  function ContainmentFindings(h: Host, root: string, server: Server): seq<Finding>
    requires WellFormed(h)
  {
    if server.RemoteServer? then []
    else (if CommandEscapes(h, root, server) then [Finding(ServerCommandInvalid, Some(server.name))] else [])
         + (if CwdEscapes(h, root, server) then [Finding(ServerCwdInvalid, Some(server.name))] else [])
  }

  function ContainedServers(h: Host, root: string, servers: seq<Server>): seq<Server>
    requires WellFormed(h)
  {
    if servers == [] then []
    else
      var n := |servers| - 1;
      ContainedServers(h, root, servers[..n])
      + if ContainmentFindings(h, root, servers[n]) == [] then [servers[n]] else []
  }

  function EscapeFindings(h: Host, root: string, servers: seq<Server>): seq<Finding>
    requires WellFormed(h)
  {
    if servers == [] then []
    else
      var n := |servers| - 1;
      EscapeFindings(h, root, servers[..n]) + ContainmentFindings(h, root, servers[n])
  }

  /** What the package directory holds: files by real path, as the JSON they parse to, if they do. */
  datatype Disk = Disk(host: Host, contents: map<Path, Option<Json>>)

  function ConfigPath(d: Disk, root: string): Path
    requires WellFormed(d.host)
  {
    Resolve(d.host, root) + ["mcp.json"]
  }

  datatype Source = NoFile | Broken(code: Code) | Document(value: Json)

  /** The configuration document, when its fixed location is there and in order. */
  function ReadConfig(d: Disk, root: string): Source
    requires WellFormed(d.host)
  {
    var path := ConfigPath(d, root);
    if !Present(d.host, path) then NoFile
    else if !IsContained(d.host, root, "mcp.json") then Broken(PathEscapesRoot)
    else if !IsRegularFile(d.host, path) then Broken(LocationNotAFile)
    else if Stat(d.host, path).at !in d.contents then Broken(Unreadable)
    else if d.contents[Stat(d.host, path).at].None? then Broken(InvalidJson)
    else Document(d.contents[Stat(d.host, path).at].value)
  }

  /** A validated configuration without the servers the containment check objects to. */
  function Contain(h: Host, root: string, parsed: Config): Config
    requires WellFormed(h)
  {
    if parsed.Loaded?
    then Loaded(ContainedServers(h, root, parsed.servers), parsed.findings + EscapeFindings(h, root, parsed.servers))
    else parsed
  }

  function Load(d: Disk, root: string, client: Client): Config
    requires WellFormed(d.host)
  {
    match ReadConfig(d, root)
    case NoFile => Absent
    case Broken(code) => Disabled(code)
    case Document(value) => Contain(d.host, root, Validated(value, client))
  }

  // ------------------------------------------------------------ the code

  method CheckHeaders(headers: seq<(string, Json)>) returns (problem: Option<Code>)
    requires StringMembers(headers)
    ensures problem == HeaderProblem(headers, {})
  {
    var seen: map<string, string> := map[];
    ghost var taken: set<string> := {};
    assert headers[0..] == headers;
    for i := 0 to |headers|
      invariant taken == seen.Keys
      invariant StringMembers(headers[i..]) && HeaderProblem(headers[i..], taken) == HeaderProblem(headers, {})
    {
      assert headers[i..][0] == headers[i] && headers[i..][1..] == headers[i + 1..];
      var (headerName, headerValue) := headers[i];
      if !IsHeaderName(headerName) {
        return Some(ServerHeaderNameInvalid);
      }
      if !IsHeaderValue(headerValue.text) {
        return Some(ServerHeaderValueInvalid);
      }
      var lower := Lower(headerName);
      if lower in seen {
        return Some(ServerHeaderDuplicate);
      }
      seen := seen[lower := headerName];
      taken := taken + {lower};
    }
    return None;
  }

  /** The checks on an entry that declares the stdio transport. */
  method ValidateStdioEntry(name: string, raw: Json, client: Client) returns (outcome: Outcome)
    requires raw.JObject?
    ensures outcome == StdioEntry(name, raw, client)
  {
    var env := Member(raw.members, "env");
    if env.Some? && env.value.JObject? {
      var offending := OffendingKeys(env.value.members);
      if |offending| > 0 {
        return Skipped(ServerEnvReservedKey);
      }
    }
    if !StdioSchema(raw.members) {
      return Skipped(if client.cwdErrorFirst(raw) then ServerCwdInvalid else ServerSchemaViolation);
    }
    var command, cwd := TextMember(raw.members, "command"), Member(raw.members, "cwd");
    if StdioCommandProblem(command).Some? {
      return Skipped(ServerCommandInvalid);
    }
    var cwdAnchor: Option<CwdAnchor> := None;
    if cwd.Some? {
      cwdAnchor := ClassifyCwd(cwd.value.text);
      if cwdAnchor.None? {
        return Skipped(ServerCwdInvalid);
      }
    }
    if Stdio !in client.supported {
      return Skipped(ServerTransportUnsupported);
    }
    return Accepted(StdioServer(name, command, if cwd.Some? then Some(cwd.value.text) else None, cwdAnchor, raw));
  }

  method ValidateServerEntry(name: string, raw: Json, client: Client) returns (outcome: Outcome)
    ensures outcome == Entry(name, raw, client)
  {
    if !raw.JObject? {
      return Skipped(ServerSchemaViolation);
    }
    var rawType := Member(raw.members, "type");
    if rawType.None? {
      return Skipped(ServerTypeMissing);
    }
    if !rawType.value.JString? || TransportOf(rawType.value.text).None? {
      return Skipped(ServerTypeUnknown);
    }
    var transport := TransportOf(rawType.value.text).value;
    if transport.Stdio? {
      outcome := ValidateStdioEntry(name, raw, client);
      return;
    }
    if !RemoteSchema(raw.members) {
      return Skipped(ServerSchemaViolation);
    }
    var url, headers := TextMember(raw.members, "url"), Member(raw.members, "headers");
    if client.urlProblem(url) {
      return Skipped(ServerUrlInvalid);
    }
    var given := if headers.Some? then headers.value.members else [];
    var problem := CheckHeaders(given);
    if problem.Some? {
      return Skipped(problem.value);
    }
    if transport !in client.supported {
      return Skipped(ServerTransportUnsupported);
    }
    return Accepted(RemoteServer(name, transport, url, given, raw));
  }

  method ValidateMcpConfig(value: Json, client: Client) returns (config: Config)
    ensures config == Validated(value, client)
  {
    var problem := DocumentProblem(value, client);
    if problem.Some? {
      return Disabled(problem.value);
    }
    var members := Servers(value, client);
    var servers: seq<Server>, findings: seq<Finding> := [], [];
    for i := 0 to |members|
      invariant servers == ServersAmong(members[..i], Judging(client))
      invariant findings == FindingsAmong(members[..i], Judging(client))
    {
      assert members[..i + 1][..i] == members[..i];
      var (name, rawServer) := members[i];
      if name == "" {
        findings := findings + [Finding(ServerNameInvalid, None)];
        continue;
      }
      var outcome := ValidateServerEntry(name, rawServer, client);
      match outcome {
        case Skipped(code) => findings := findings + [Finding(code, Some(name))];
        case Accepted(server) => servers := servers + [server];
      }
    }
    assert members[..|members|] == members;
    return Loaded(SortBy(servers, ByName()), findings);
  }

  method KeepContained(h: Host, root: string, servers: seq<Server>) returns (kept: seq<Server>, findings: seq<Finding>)
    requires WellFormed(h)
    ensures kept == ContainedServers(h, root, servers) && findings == EscapeFindings(h, root, servers)
  {
    kept, findings := [], [];
    for i := 0 to |servers|
      invariant kept == ContainedServers(h, root, servers[..i])
      invariant findings == EscapeFindings(h, root, servers[..i])
    {
      assert servers[..i + 1][..i] == servers[..i];
      var problems := ContainmentFindings(h, root, servers[i]);
      if problems == [] {
        kept := kept + [servers[i]];
        continue;
      }
      findings := findings + problems;
    }
    assert servers[..|servers|] == servers;
  }

  method ReadMcpFile(d: Disk, root: string) returns (source: Source)
    requires WellFormed(d.host)
    ensures source == ReadConfig(d, root)
  {
    var configPath := ConfigPath(d, root);
    if !Present(d.host, configPath) {
      return NoFile;
    }
    if !IsContained(d.host, root, "mcp.json") {
      return Broken(PathEscapesRoot);
    }
    if !IsRegularFile(d.host, configPath) {
      return Broken(LocationNotAFile);
    }
    var at := Stat(d.host, configPath).at;
    if at !in d.contents {
      return Broken(Unreadable);
    }
    if d.contents[at].None? {
      return Broken(InvalidJson);
    }
    return Document(d.contents[at].value);
  }

  method LoadMcpConfig(d: Disk, root: string, client: Client) returns (config: Config)
    requires WellFormed(d.host)
    ensures config == Load(d, root, client)
  {
    var source := ReadMcpFile(d, root);
    match source {
      case NoFile => return Absent;
      case Broken(code) => return Disabled(code);
      case Document(value) =>
        var parsed := ValidateMcpConfig(value, client);
        if !parsed.Loaded? {
          return parsed;
        }
        var containedServers, containmentFindings := KeepContained(d.host, root, parsed.servers);
        return Loaded(containedServers, parsed.findings + containmentFindings);
    }
  }
}
