/** Skill frontmatter: what a reader accepts, what an export writes, and the round trip between them. */
module SkillFrontmatter {
  import opened Wrappers
  import opened Text
  import opened Ordering
  import Names

  const DESCRIPTION_MAX_LENGTH := 1024
  const COMPATIBILITY_MAX_LENGTH := 500

  /** A parsed YAML value. `Exotic` is whatever is neither a scalar nor a plain mapping or list, a date for one. */
  datatype Value =
    | Null | Bool(b: bool) | Number(n: int) | Str(text: string) | List(items: seq<Value>)
    | Mapping(entries: map<string, Value>) | Exotic(shown: string)

  /** An object under construction: its own keys in the order they were set. */
  type Record = seq<(string, Value)>

  // ------------------------------------------------------------ reading

  datatype Code =
    | FrontmatterInvalid | NameMissing | NameInvalid | NameDirectoryMismatch | DescriptionMissing | DescriptionInvalid
    | LicenseInvalid | CompatibilityInvalid | MetadataInvalid | AllowedToolsInvalid

  datatype Verdict = Invalid(code: Code) | Valid(entries: map<string, Value>, allowedTools: Option<seq<string>>)

  function Get(entries: map<string, Value>, key: string): Option<Value> {
    if key in entries then Some(entries[key]) else None
  }

  predicate IsMissing(value: Option<Value>) {
    value.None? || value.value.Null? || value.value == Str("")
  }

  predicate IsStringMap(value: Value) {
    value.Mapping? && forall k :: k in value.entries ==> value.entries[k].Str?
  }

  predicate IsToken(token: string, spaces: set<char>) {
    token != "" && forall c :: c in token ==> c !in spaces
  }

  function NonEmpty(pieces: seq<string>): (tokens: seq<string>)
    ensures forall t :: t in tokens <==> t in pieces && t != ""
  {
    if pieces == [] then []
    else
      assert forall p :: p in pieces <==> p == pieces[0] || p in pieces[1..];
      if pieces[0] != "" then [pieces[0]] + NonEmpty(pieces[1..]) else NonEmpty(pieces[1..])
  }

  /** Splits on white space; runs of it leave no empty token. */
  function Tokens(value: string, spaces: set<char>): seq<string> {
    NonEmpty(SplitOn(value, spaces))
  }

  function TokenizeAllowedTools(value: string): seq<string> {
    Tokens(value, WHITE_SPACE)
  }

  predicate FitsCompatibility(value: Value) {
    value.Str? && 0 < |value.text| <= COMPATIBILITY_MAX_LENGTH
  }

  function Validate(data: Value, dirName: string): Verdict {
    if !data.Mapping? then Invalid(FrontmatterInvalid)
    else
      var name, description := Get(data.entries, "name"), Get(data.entries, "description");
      var license, compatibility := Get(data.entries, "license"), Get(data.entries, "compatibility");
      var metadata, tools := Get(data.entries, "metadata"), Get(data.entries, "allowed-tools");
      if IsMissing(name) then Invalid(NameMissing)
      else if !name.value.Str? || !Names.IsValid(name.value.text, Names.SkillName) then Invalid(NameInvalid)
      else if name.value.text != dirName then Invalid(NameDirectoryMismatch)
      else if IsMissing(description) then Invalid(DescriptionMissing)
      else if !description.value.Str? || Trim(description.value.text) == "" then Invalid(DescriptionInvalid)
      else if |description.value.text| > DESCRIPTION_MAX_LENGTH then Invalid(DescriptionInvalid)
      else if license.Some? && !license.value.Str? then Invalid(LicenseInvalid)
      else if compatibility.Some? && !FitsCompatibility(compatibility.value)
      then Invalid(CompatibilityInvalid)
      else if metadata.Some? && !IsStringMap(metadata.value) then Invalid(MetadataInvalid)
      else if tools.Some? && !tools.value.Str? then Invalid(AllowedToolsInvalid)
      else Valid(data.entries, if tools.Some? then Some(TokenizeAllowedTools(tools.value.text)) else None)
  }

  // ------------------------------------------------------------ writing

  const KNOWN: set<string> := {"name", "description", "license", "compatibility", "metadata", "allowed-tools"}

  /** What every object inherits, so that `in` finds it on any object. */
  const INHERITED: set<string> := {
    "constructor", "toString", "toLocaleString", "valueOf", "hasOwnProperty", "isPrototypeOf", "propertyIsEnumerable",
    "__proto__", "__defineGetter__", "__defineSetter__", "__lookupGetter__", "__lookupSetter__"
  }

  datatype SkillInput = SkillInput(
    name: string, description: string, body: string, license: Option<string>, compatibility: Option<string>,
    metadata: Option<map<string, Value>>, allowedTools: Option<seq<string>>, extra: map<string, Value>)

  /** What is handed to the YAML writer: the fields in the order the runtime lists them, and the body. */
  datatype Document = Document(fields: Record, body: string)

  datatype Export =
    | Exported(document: Document)
    | NameUnusable | DescriptionMissingIn | DescriptionTooLong | CompatibilityLength | BadToken | BadMetadata

  /** Unknown keys, as an object rebuilt by assignment: assigning `__proto__` makes no own key. */
  function Unknown(entries: map<string, Value>): map<string, Value> {
    map k | k in entries && k !in KNOWN && k != "__proto__" :: entries[k]
  }

  function TextOf(value: Option<Value>): Option<string> {
    if value.Some? && value.value.Str? then Some(value.value.text) else None
  }

  function ToSerializeInput(entries: map<string, Value>, body: string): SkillInput
    requires "name" in entries && entries["name"].Str? && "description" in entries && entries["description"].Str?
  {
    var metadata, tools := Get(entries, "metadata"), TextOf(Get(entries, "allowed-tools"));
    SkillInput(
      entries["name"].text, entries["description"].text, body,
      TextOf(Get(entries, "license")), TextOf(Get(entries, "compatibility")),
      if metadata.Some? && metadata.value.Mapping? then Some(metadata.value.entries) else None,
      if tools.Some? then Some(TokenizeAllowedTools(tools.value)) else None,
      Unknown(entries))
  }

  predicate HasOwn(record: Record, key: string) {
    exists i :: 0 <= i < |record| && record[i].0 == key
  }

  /** `key in record`. */
  predicate In(record: Record, key: string) {
    HasOwn(record, key) || key in INHERITED
  }

  function Field(key: string, value: Option<Value>): Record {
    if value.Some? then [(key, value.value)] else []
  }

  function StrOf(text: Option<string>): Option<Value> {
    if text.Some? then Some(Str(text.value)) else None
  }

  function ToolsField(tools: Option<seq<string>>): Option<Value> {
    if tools.Some? then Some(Str(JoinWith(tools.value, ' '))) else None
  }

  function MetadataField(metadata: Option<map<string, Value>>): Option<Value> {
    if metadata.Some? && |metadata.value| > 0 then Some(Mapping(metadata.value)) else None
  }

  /** The known fields, in their fixed order. */
  function KnownFields(input: SkillInput): Record {
    [("name", Str(input.name)), ("description", Str(input.description))]
    + Field("license", StrOf(input.license)) + Field("compatibility", StrOf(input.compatibility))
    + Field("allowed-tools", ToolsField(input.allowedTools)) + Field("metadata", MetadataField(input.metadata))
  }

  /** Further keys, in the given order, unless the record already answers to them. */
  function AddExtras(record: Record, extra: map<string, Value>, keys: seq<string>): Record
    requires forall k :: k in keys ==> k in extra
    decreases |keys|
  {
    if keys == [] then record
    else AddExtras(if In(record, keys[0]) then record else record + [(keys[0], extra[keys[0]])], extra, keys[1..])
  }

  ghost function BuildRecord(input: SkillInput): Record {
    AddExtras(KnownFields(input), input.extra, SortedKeys(input.extra.Keys))
  }

  // ------------------------------------------------------------ the order the runtime lists keys in

  /** The largest array index, 2^32 - 2. */
  const LAST_INDEX := "4294967294"

  predicate IsDigits(s: string) {
    forall c :: c in s ==> '0' <= c <= '9'
  }

  /** A key that is the decimal text of an array index; an object lists such keys before all others. */
  predicate IsIndex(key: string) {
    && 0 < |key| <= |LAST_INDEX| && IsDigits(key) && (key[0] == '0' ==> key == "0")
    && (|key| == |LAST_INDEX| ==> AtMost(key, LAST_INDEX))
  }

  /** With leading zeros the order of texts is the order of numbers. */
  function Padded(key: string): string {
    if |key| <= |LAST_INDEX| then seq(|LAST_INDEX| - |key|, _ => '0') + key else key
  }

  function ByIndex(): ((string, Value)) -> string {
    (field: (string, Value)) => Padded(field.0)
  }

  /** The fields whose keys are indexes, or those whose keys are not. */
  function Part(record: Record, indexes: bool): Record {
    if record == [] then []
    else if IsIndex(record[0].0) == indexes then [record[0]] + Part(record[1..], indexes)
    else Part(record[1..], indexes)
  }

  /** `Object.keys` of an object under construction: indexes in ascending order, then the rest as they were set. */
  function Enumerated(record: Record): Record {
    SortBy(Part(record, true), ByIndex()) + Part(record, false)
  }

  function WithNewline(body: string): string {
    if body != "" && body[|body| - 1] == '\n' then body else body + "\n"
  }

  // ------------------------------------------------------------ the writer reads the body first

  /** What the front-matter reader makes of a text: no block at its head, or its fields and what follows. */
  datatype Head = NoBlock | Block(fields: Record, rest: string)

  /** `record[key] = value`: in its place when it has one, at the end when not. */
  function Assign(record: Record, key: string, value: Value): Record {
    if record == [] then [(key, value)]
    else if record[0].0 == key then [(key, value)] + record[1..]
    else [record[0]] + Assign(record[1..], key, value)
  }

  /** `Object.assign`. */
  function AssignAll(record: Record, more: Record): Record
    decreases |more|
  {
    if more == [] then record else AssignAll(Assign(record, more[0].0, more[0].1), more[1..])
  }

  /** The file: a body that itself opens with a block gives the block's fields up to the head of the file. */
  function Written(document: Document, head: Head): Document {
    match head
    case NoBlock => document
    case Block(fields, rest) => Document(Enumerated(AssignAll(fields, document.fields)), WithNewline(rest))
  }

  /** The first optional field that cannot be written. */
  function FieldProblem(input: SkillInput): Option<Export> {
    if input.compatibility.Some? && !FitsCompatibility(Str(input.compatibility.value)) then Some(CompatibilityLength)
    else if input.allowedTools.Some? && !(forall t :: t in input.allowedTools.value ==> IsToken(t, WHITE_SPACE))
    then Some(BadToken)
    else if input.metadata.Some? && !IsStringMap(Mapping(input.metadata.value)) then Some(BadMetadata)
    else None
  }

  ghost function Serialize(input: SkillInput): Export {
    if !Names.IsValid(input.name, Names.SkillName) then NameUnusable
    else if Trim(input.description) == "" then DescriptionMissingIn
    else if |input.description| > DESCRIPTION_MAX_LENGTH then DescriptionTooLong
    else if FieldProblem(input).Some? then FieldProblem(input).value
    else Exported(Document(Enumerated(BuildRecord(input)), WithNewline(input.body)))
  }

  // ------------------------------------------------------------ the code

  /** `Object.keys(…).sort()`. */
  method ListKeys(entries: map<string, Value>) returns (keys: seq<string>)
    ensures keys == SortedKeys(entries.Keys)
  {
    var left: set<string> := entries.Keys;
    keys := [];
    while left != {}
      invariant left <= entries.Keys
      invariant StrictlySorted(keys, Itself())
      invariant forall k :: k in keys <==> k in entries && k !in left
    {
      var k :| k in left;
      InsertIsStrict(k, keys, Itself());
      keys := Insert(k, keys, Itself());
      left := left - {k};
    }
    SortedKeysAreUnique(keys, SortedKeys(entries.Keys));
  }

  method SkillToSerializeInput(entries: map<string, Value>, body: string) returns (input: SkillInput)
    requires "name" in entries && entries["name"].Str? && "description" in entries && entries["description"].Str?
    ensures input == ToSerializeInput(entries, body)
  {
    var extra: map<string, Value> := map[];
    var left: set<string> := entries.Keys;
    while left != {}
      invariant left <= entries.Keys
      invariant extra == map k | k in entries && k !in left && k !in KNOWN && k != "__proto__" :: entries[k]
    {
      var k :| k in left;
      left := left - {k};
      if k !in KNOWN && k != "__proto__" {
        extra := extra[k := entries[k]];
      }
    }
    var license, compatibility, metadata, tools := None, None, None, None;
    if "license" in entries {
      license := TextOf(Some(entries["license"]));
    }
    if "compatibility" in entries {
      compatibility := TextOf(Some(entries["compatibility"]));
    }
    if "metadata" in entries && entries["metadata"].Mapping? {
      metadata := Some(entries["metadata"].entries);
    }
    if "allowed-tools" in entries && entries["allowed-tools"].Str? {
      tools := Some(TokenizeAllowedTools(entries["allowed-tools"].text));
    }
    input := SkillInput(entries["name"].text, entries["description"].text, body, license, compatibility, metadata,
                        tools, extra);
  }

  method SerializeSkillMd(input: SkillInput) returns (out: Export)
    ensures out == Serialize(input)
  {
    if !Names.IsValid(input.name, Names.SkillName) {
      return NameUnusable;
    }
    if Trim(input.description) == "" {
      return DescriptionMissingIn;
    }
    if |input.description| > DESCRIPTION_MAX_LENGTH {
      return DescriptionTooLong;
    }
    var problem, data := WriteKnown(input);
    if problem.Some? {
      return problem.value;
    }
    var keys := ListKeys(input.extra);
    data := WriteExtras(data, input.extra, keys);
    return Exported(Document(Enumerated(data), WithNewline(input.body)));
  }

  /** The known fields, each checked as it is written. */
  method WriteKnown(input: SkillInput) returns (problem: Option<Export>, data: Record)
    ensures problem.None? ==> data == KnownFields(input)
    ensures problem == FieldProblem(input)
  {
    problem, data := None, [("name", Str(input.name)), ("description", Str(input.description))];
    if input.license.Some? {
      data := data + [("license", Str(input.license.value))];
    }
    if input.compatibility.Some? {
      if |input.compatibility.value| == 0 || |input.compatibility.value| > COMPATIBILITY_MAX_LENGTH {
        return Some(CompatibilityLength), data;
      }
      data := data + [("compatibility", Str(input.compatibility.value))];
    }
    if input.allowedTools.Some? {
      if !forall t :: t in input.allowedTools.value ==> IsToken(t, WHITE_SPACE) {
        return Some(BadToken), data;
      }
      data := data + [("allowed-tools", Str(JoinWith(input.allowedTools.value, ' ')))];
    }
    if input.metadata.Some? && |input.metadata.value| > 0 {
      if !IsStringMap(Mapping(input.metadata.value)) {
        return Some(BadMetadata), data;
      }
      data := data + [("metadata", Mapping(input.metadata.value))];
    }
  }

  method WriteExtras(known: Record, extra: map<string, Value>, keys: seq<string>) returns (data: Record)
    requires forall k :: k in keys ==> k in extra
    ensures data == AddExtras(known, extra, keys)
  {
    data := known;
    for i := 0 to |keys|
      invariant AddExtras(data, extra, keys[i..]) == AddExtras(known, extra, keys)
    {
      assert keys[i..][0] == keys[i] && keys[i..][1..] == keys[i + 1..];
      if !In(data, keys[i]) {
        data := data + [(keys[i], extra[keys[i]])];
      }
    }
  }
}
