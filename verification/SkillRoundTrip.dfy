/** Exporting an accepted skill and reading it back. */
module SkillRoundTrip {
  import opened Wrappers
  import opened Text
  import opened Ordering
  import opened SkillFrontmatter
  import Names

  /** The object the assignments build. */
  function AsMap(record: Record): map<string, Value> {
    if record == [] then map[]
    else AsMap(record[..|record| - 1])[record[|record| - 1].0 := record[|record| - 1].1]
  }

  lemma AsMapSnoc(record: Record, key: string, value: Value)
    ensures AsMap(record + [(key, value)]) == AsMap(record)[key := value]
  {
    assert (record + [(key, value)])[..|record|] == record;
  }

  lemma {:induction false} AsMapKeys(record: Record, key: string)
    ensures key in AsMap(record) <==> HasOwn(record, key)
  {
    if record != [] {
      var front := record[..|record| - 1];
      AsMapKeys(front, key);
      assert forall i :: 0 <= i < |front| ==> front[i] == record[i];
      assert HasOwn(record, key) <==> HasOwn(front, key) || record[|record| - 1].0 == key;
    }
  }

  lemma AsMapField(record: Record, key: string, value: Option<Value>)
    ensures AsMap(record + Field(key, value)) ==
            if value.Some? then AsMap(record)[key := value.value] else AsMap(record)
  {
    if value.Some? {
      AsMapSnoc(record, key, value.value);
    } else {
      assert record + [] == record;
    }
  }

  /** One more field: read back under its own key, and nothing else changes. */
  lemma FieldReads(record: Record, key: string, value: Option<Value>)
    requires key !in AsMap(record)
    ensures Get(AsMap(record + Field(key, value)), key) == value
    ensures forall k :: k != key ==> Get(AsMap(record + Field(key, value)), k) == Get(AsMap(record), k)
  {
    AsMapField(record, key, value);
  }

  function TwoFields(input: SkillInput): Record {
    [("name", Str(input.name)), ("description", Str(input.description))]
  }

  lemma TwoFieldsMap(input: SkillInput)
    ensures AsMap(TwoFields(input)) == map["name" := Str(input.name), "description" := Str(input.description)]
  {
    var first: Record := [("name", Str(input.name))];
    AsMapSnoc([], "name", Str(input.name));
    assert [] + first == first;
    AsMapSnoc(first, "description", Str(input.description));
    assert TwoFields(input) == first + [("description", Str(input.description))];
  }

  /** What a record of the known fields answers to a key. */
  function KnownValue(input: SkillInput, k: string): Option<Value> {
    if k == "metadata" then MetadataField(input.metadata)
    else if k == "allowed-tools" then ToolsField(input.allowedTools)
    else if k == "compatibility" then StrOf(input.compatibility)
    else if k == "license" then StrOf(input.license)
    else if k == "description" then Some(Str(input.description))
    else if k == "name" then Some(Str(input.name))
    else None
  }

  lemma FourFields(base: Record, keys: seq<string>, values: seq<Option<Value>>)
    requires |keys| == 4 == |values|
    requires forall i :: 0 <= i < 4 ==> keys[i] !in AsMap(base)
    requires forall i, j :: 0 <= i < j < 4 ==> keys[i] != keys[j]
    ensures var record := base + Field(keys[0], values[0]) + Field(keys[1], values[1])
                          + Field(keys[2], values[2]) + Field(keys[3], values[3]);
            forall k :: Get(AsMap(record), k) ==
                        if k == keys[3] then values[3] else if k == keys[2] then values[2]
                        else if k == keys[1] then values[1] else if k == keys[0] then values[0] else Get(AsMap(base), k)
  {
    var r1 := base + Field(keys[0], values[0]);
    FieldReads(base, keys[0], values[0]);
    var r2 := r1 + Field(keys[1], values[1]);
    assert Get(AsMap(r1), keys[1]) == Get(AsMap(base), keys[1]);
    FieldReads(r1, keys[1], values[1]);
    var r3 := r2 + Field(keys[2], values[2]);
    assert Get(AsMap(r2), keys[2]) == Get(AsMap(r1), keys[2]) == Get(AsMap(base), keys[2]);
    FieldReads(r2, keys[2], values[2]);
    assert Get(AsMap(r3), keys[3]) == Get(AsMap(r2), keys[3]) == Get(AsMap(r1), keys[3]) == Get(AsMap(base), keys[3]);
    FieldReads(r3, keys[3], values[3]);
  }

  lemma KnownFieldsMap(input: SkillInput)
    ensures forall k :: Get(AsMap(KnownFields(input)), k) == KnownValue(input, k)
  {
    TwoFieldsMap(input);
    FourFields(TwoFields(input), ["license", "compatibility", "allowed-tools", "metadata"],
               [StrOf(input.license), StrOf(input.compatibility), ToolsField(input.allowedTools),
                MetadataField(input.metadata)]);
  }

  /** What the extra keys add: each under its own name, except those every object already answers to. */
  lemma {:induction false} AddExtrasMap(record: Record, extra: map<string, Value>, keys: seq<string>, k: string)
    requires forall x :: x in keys ==> x in extra
    ensures Get(AsMap(AddExtras(record, extra, keys)), k) ==
            if k in AsMap(record) then Some(AsMap(record)[k])
            else if k in keys && k !in INHERITED then Some(extra[k]) else None
    decreases |keys|
  {
    if keys != [] {
      var next := if In(record, keys[0]) then record else record + [(keys[0], extra[keys[0]])];
      AddExtrasMap(next, extra, keys[1..], k);
      AsMapKeys(record, keys[0]);
      AsMapSnoc(record, keys[0], extra[keys[0]]);
      assert k in keys <==> k == keys[0] || k in keys[1..];
    }
  }

  // ------------------------------------------------------------ tokens

  lemma {:induction false} NonEmptyOfTokens(pieces: seq<string>)
    requires forall p :: p in pieces ==> p != ""
    ensures NonEmpty(pieces) == pieces
  {
    if pieces != [] {
      assert pieces[0] in pieces && forall p :: p in pieces[1..] ==> p in pieces;
      NonEmptyOfTokens(pieces[1..]);
    }
  }

  /** Joining tokens with spaces and splitting again gives the same tokens. */
  lemma TokensJoin(tokens: seq<string>, spaces: set<char>)
    requires ' ' in spaces && forall t :: t in tokens ==> IsToken(t, spaces)
    ensures Tokens(JoinWith(tokens, ' '), spaces) == tokens
  {
    if tokens == [] {
      assert SplitOn("", spaces) == [""];
      assert NonEmpty([""]) == NonEmpty([""][1..]) == [];
    } else {
      assert forall i :: 0 <= i < |tokens| ==> tokens[i] in tokens;
      SplitJoinIn(tokens, ' ', spaces);
      NonEmptyOfTokens(tokens);
    }
  }

  lemma TokensAreTokens(value: string, spaces: set<char>)
    ensures forall t :: t in Tokens(value, spaces) ==> IsToken(t, spaces)
  {
    PiecesHoldNoSeparator(value, spaces);
    var pieces := SplitOn(value, spaces);
    forall t | t in Tokens(value, spaces) ensures IsToken(t, spaces) {
      var i :| 0 <= i < |pieces| && pieces[i] == t;
    }
  }

  // ------------------------------------------------------------ listing the fields

  /** No key is set twice. */
  predicate KeysDiffer(record: Record) {
    forall i, j :: 0 <= i < j < |record| ==> record[i].0 != record[j].0
  }

  lemma {:induction false} ReadsField(record: Record, field: (string, Value))
    requires KeysDiffer(record)
    ensures field in record <==> Get(AsMap(record), field.0) == Some(field.1)
  {
    if record != [] {
      var n := |record| - 1;
      ReadsField(record[..n], field);
      AsMapKeys(record[..n], record[n].0);
      assert record == record[..n] + [record[n]];
    }
  }

  /** Two lists of the same fields are the same object. */
  lemma SameFields(a: Record, b: Record)
    requires KeysDiffer(a) && KeysDiffer(b) && forall field :: field in a <==> field in b
    ensures AsMap(a) == AsMap(b)
  {
    forall k ensures Get(AsMap(a), k) == Get(AsMap(b), k) {
      if Get(AsMap(a), k).Some? {
        ReadsField(a, (k, AsMap(a)[k]));
        ReadsField(b, (k, AsMap(a)[k]));
      }
      if Get(AsMap(b), k).Some? {
        ReadsField(a, (k, AsMap(b)[k]));
        ReadsField(b, (k, AsMap(b)[k]));
      }
    }
    SameGets(AsMap(a), AsMap(b));
  }

  lemma {:induction false} PartMeans(record: Record, indexes: bool)
    ensures forall field :: field in Part(record, indexes) <==> field in record && IsIndex(field.0) == indexes
    ensures KeysDiffer(record) ==> KeysDiffer(Part(record, indexes))
  {
    if record != [] {
      PartMeans(record[1..], indexes);
      assert forall field :: field in record <==> field == record[0] || field in record[1..];
      assert forall i :: 0 <= i < |record[1..]| ==> record[1..][i] == record[i + 1];
      var rest := Part(record[1..], indexes);
      assert forall i :: 0 <= i < |rest| ==> rest[i] in rest;
    }
  }

  lemma PaddingKeepsApart(a: string, b: string)
    requires IsIndex(a) && IsIndex(b) && Padded(a) == Padded(b)
    ensures a == b
  {
    var n := |LAST_INDEX|;
    assert Padded(a)[n - |a|..] == a && Padded(b)[n - |b|..] == b;
    assert |a| == |b|;
  }

  lemma SortedIndexesDiffer(record: Record)
    requires KeysDiffer(record) && forall field :: field in record ==> IsIndex(field.0)
    ensures KeysDiffer(SortBy(record, ByIndex()))
  {
    forall i, j | 0 <= i < j < |record| ensures Padded(record[i].0) != Padded(record[j].0) {
      assert record[i] in record && record[j] in record;
      if Padded(record[i].0) == Padded(record[j].0) {
        PaddingKeepsApart(record[i].0, record[j].0);
      }
    }
    SortIsStrict(record, ByIndex());
    var sorted := SortBy(record, ByIndex());
    forall i, j | 0 <= i < j < |sorted| ensures sorted[i].0 != sorted[j].0 {
      LessAsymmetric(Padded(sorted[i].0), Padded(sorted[j].0));
    }
  }

  /** Listing the fields neither loses nor doubles one. */
  lemma EnumeratedIsTheObject(record: Record)
    requires KeysDiffer(record)
    ensures KeysDiffer(Enumerated(record)) && AsMap(Enumerated(record)) == AsMap(record)
  {
    PartMeans(record, true);
    PartMeans(record, false);
    SortedIndexesDiffer(Part(record, true));
    var first, rest := SortBy(Part(record, true), ByIndex()), Part(record, false);
    forall i, j | 0 <= i < |first| && 0 <= j < |rest| ensures first[i].0 != rest[j].0 {
      assert first[i] in first && rest[j] in rest;
    }
    SameFields(first + rest, record);
  }

  lemma DifferSnoc(record: Record, key: string, value: Value)
    requires KeysDiffer(record) && !HasOwn(record, key)
    ensures KeysDiffer(record + [(key, value)])
  {
  }

  lemma {:induction false} ExtrasDiffer(record: Record, extra: map<string, Value>, keys: seq<string>)
    requires KeysDiffer(record) && forall x :: x in keys ==> x in extra
    ensures KeysDiffer(AddExtras(record, extra, keys))
    decreases |keys|
  {
    if keys != [] {
      ExtrasDiffer(if In(record, keys[0]) then record else record + [(keys[0], extra[keys[0]])], extra, keys[1..]);
    }
  }

  lemma OneFieldMore(record: Record, key: string, value: Option<Value>)
    requires KeysDiffer(record) && forall i :: 0 <= i < |record| ==> record[i].0 != key
    ensures KeysDiffer(record + Field(key, value))
    ensures forall i :: 0 <= i < |record + Field(key, value)| ==>
              (record + Field(key, value))[i].0 == key || (i < |record| && (record + Field(key, value))[i] == record[i])
  {
  }

  lemma KnownDiffer(input: SkillInput)
    ensures KeysDiffer(KnownFields(input))
  {
    var named := [("name", Str(input.name)), ("description", Str(input.description))];
    OneFieldMore(named, "license", StrOf(input.license));
    var licensed := named + Field("license", StrOf(input.license));
    OneFieldMore(licensed, "compatibility", StrOf(input.compatibility));
    var compatible := licensed + Field("compatibility", StrOf(input.compatibility));
    OneFieldMore(compatible, "allowed-tools", ToolsField(input.allowedTools));
    OneFieldMore(compatible + Field("allowed-tools", ToolsField(input.allowedTools)), "metadata",
                 MetadataField(input.metadata));
  }

  lemma EnumeratedReads(input: SkillInput)
    ensures AsMap(Enumerated(BuildRecord(input))) == AsMap(BuildRecord(input))
  {
    KnownDiffer(input);
    ExtrasDiffer(KnownFields(input), input.extra, SortedKeys(input.extra.Keys));
    EnumeratedIsTheObject(BuildRecord(input));
  }

  // ------------------------------------------------------------ the order of the fields

  lemma {:induction false} AddExtrasKeepsFront(record: Record, extra: map<string, Value>, keys: seq<string>)
    requires forall x :: x in keys ==> x in extra
    ensures record <= AddExtras(record, extra, keys)
    decreases |keys|
  {
    if keys != [] {
      var next := if In(record, keys[0]) then record else record + [(keys[0], extra[keys[0]])];
      AddExtrasKeepsFront(next, extra, keys[1..]);
    }
  }

  lemma {:induction false} NoIndexes(record: Record)
    requires forall field :: field in record ==> !IsIndex(field.0)
    ensures Part(record, true) == [] && Part(record, false) == record
  {
    if record != [] {
      assert record[0] in record && forall field :: field in record[1..] ==> field in record;
      NoIndexes(record[1..]);
    }
  }

  /** An index that is listed comes first. */
  lemma IndexComesFirst(record: Record, i: nat)
    requires i < |record| && IsIndex(record[i].0)
    ensures Enumerated(record) != [] && IsIndex(Enumerated(record)[0].0)
  {
    PartMeans(record, true);
    assert record[i] in Part(record, true);
    var first := SortBy(Part(record, true), ByIndex());
    assert first[0] in first;
  }

  lemma KnownAreNotIndexes(k: string)
    requires k in KNOWN + INHERITED
    ensures !IsIndex(k)
  {
    assert k[0] !in "0123456789";
    assert k[0] in k;
  }

  /** What the record answers to a key. */
  lemma RecordReads(input: SkillInput, k: string)
    ensures Get(AsMap(BuildRecord(input)), k) ==
            if KnownValue(input, k).Some? then KnownValue(input, k)
            else if k in input.extra && k !in INHERITED then Some(input.extra[k]) else None
  {
    KnownFieldsMap(input);
    AddExtrasMap(KnownFields(input), input.extra, SortedKeys(input.extra.Keys), k);
    assert Get(AsMap(KnownFields(input)), k) == KnownValue(input, k);
  }

  lemma ExtraIsWritten(input: SkillInput, k: string)
    requires k in input.extra && k !in KNOWN && k !in INHERITED
    ensures HasOwn(BuildRecord(input), k)
  {
    RecordReads(input, k);
    AsMapKeys(BuildRecord(input), k);
  }

  lemma WrittenIsKnownOrExtra(input: SkillInput, k: string)
    requires HasOwn(BuildRecord(input), k)
    ensures k in KNOWN || k in input.extra
  {
    RecordReads(input, k);
    AsMapKeys(BuildRecord(input), k);
  }

  /**
   * The order of the fields. They are written as they were set, the known ones first and in their fixed order, if and
   * only if no unknown key is the text of an array index; such keys are written before all others.
   */
  lemma OrderIsFixed(input: SkillInput)
    ensures Enumerated(BuildRecord(input)) == BuildRecord(input) <==> forall k :: k in input.extra ==> !IsIndex(k)
  {
    var record := BuildRecord(input);
    AddExtrasKeepsFront(KnownFields(input), input.extra, SortedKeys(input.extra.Keys));
    KnownAreNotIndexes("name");
    assert record[0].0 == "name";
    if k :| k in input.extra && IsIndex(k) {
      if k in KNOWN + INHERITED {
        KnownAreNotIndexes(k);
      }
      ExtraIsWritten(input, k);
      var i :| 0 <= i < |record| && record[i].0 == k;
      IndexComesFirst(record, i);
    } else {
      forall field | field in record ensures !IsIndex(field.0) {
        var i :| 0 <= i < |record| && record[i] == field;
        WrittenIsKnownOrExtra(input, field.0);
        if field.0 in KNOWN {
          KnownAreNotIndexes(field.0);
        }
      }
      NoIndexes(record);
    }
  }

  // ------------------------------------------------------------ one export

  /** What an accepted frontmatter reads like after an export. */
  function AfterExport(entries: map<string, Value>, k: string): Option<Value> {
    if k in INHERITED then None
    else if k == "allowed-tools" then ToolsField(ToolsOf(entries))
    else if k == "metadata" && Get(entries, k) == Some(Mapping(map[])) then None
    else Get(entries, k)
  }

  function ToolsOf(entries: map<string, Value>): Option<seq<string>> {
    var tools := TextOf(Get(entries, "allowed-tools"));
    if tools.Some? then Some(TokenizeAllowedTools(tools.value)) else None
  }

  lemma KnownIsNotInherited()
    ensures KNOWN !! INHERITED
  {
  }

  lemma MetadataIsKept(entries: map<string, Value>)
    requires Get(entries, "metadata").Some? ==> entries["metadata"].Mapping?
    ensures var metadata := Get(entries, "metadata");
            MetadataField(if metadata.Some? && metadata.value.Mapping? then Some(metadata.value.entries) else None)
            == if metadata == Some(Mapping(map[])) then None else metadata
  {
    var metadata := Get(entries, "metadata");
    if metadata.Some? {
      assert |metadata.value.entries| == 0 <==> metadata.value.entries == map[];
    }
  }

  /** The types an accepted frontmatter has. */
  predicate Shaped(entries: map<string, Value>) {
    && "name" in entries && entries["name"].Str? && "description" in entries && entries["description"].Str?
    && ("license" in entries ==> entries["license"].Str?)
    && ("compatibility" in entries ==> entries["compatibility"].Str?)
    && ("metadata" in entries ==> entries["metadata"].Mapping?)
    && ("allowed-tools" in entries ==> entries["allowed-tools"].Str?)
  }

  lemma AcceptedIsShaped(entries: map<string, Value>, dirName: string)
    requires Validate(Mapping(entries), dirName).Valid?
    ensures Shaped(entries)
  {
  }

  lemma KnownRead(entries: map<string, Value>, body: string, k: string)
    requires Shaped(entries) && k in KNOWN
    ensures KnownValue(ToSerializeInput(entries, body), k) == AfterExport(entries, k)
  {
    KnownIsNotInherited();
    MetadataIsKept(entries);
  }

  lemma UnknownRead(entries: map<string, Value>, body: string, k: string)
    requires Shaped(entries) && k !in KNOWN
    ensures KnownValue(ToSerializeInput(entries, body), k) == None
    ensures (if k in Unknown(entries) && k !in INHERITED then Some(entries[k]) else None) == AfterExport(entries, k)
  {
    assert "__proto__" in INHERITED;
  }

  lemma ExportedRecord(entries: map<string, Value>, body: string, k: string)
    requires Shaped(entries)
    ensures Get(AsMap(BuildRecord(ToSerializeInput(entries, body))), k) == AfterExport(entries, k)
  {
    var input := ToSerializeInput(entries, body);
    KnownFieldsMap(input);
    AddExtrasMap(KnownFields(input), input.extra, SortedKeys(input.extra.Keys), k);
    if k in KNOWN {
      KnownRead(entries, body, k);
    } else {
      UnknownRead(entries, body, k);
    }
  }

  /** The frontmatter an export of this one reads back as; the YAML codec gives back what it was given. */
  ghost function Reread(entries: map<string, Value>, body: string): map<string, Value>
    requires "name" in entries && entries["name"].Str? && "description" in entries && entries["description"].Str?
  {
    AsMap(Enumerated(BuildRecord(ToSerializeInput(entries, body))))
  }

  lemma RereadReads(entries: map<string, Value>, body: string)
    requires Shaped(entries)
    ensures forall k :: Get(Reread(entries, body), k) == AfterExport(entries, k)
  {
    EnumeratedReads(ToSerializeInput(entries, body));
    forall k ensures Get(Reread(entries, body), k) == AfterExport(entries, k) {
      ExportedRecord(entries, body, k);
    }
  }

  lemma AcceptedFieldsAreWritten(entries: map<string, Value>, dirName: string, body: string)
    requires Validate(Mapping(entries), dirName).Valid?
    ensures var input := ToSerializeInput(entries, body);
            && FieldProblem(input).None? && Names.IsValid(input.name, Names.SkillName)
            && Trim(input.description) != "" && |input.description| <= DESCRIPTION_MAX_LENGTH
  {
    var tools := TextOf(Get(entries, "allowed-tools"));
    if tools.Some? {
      TokensAreTokens(tools.value, WHITE_SPACE);
    }
  }

  lemma AcceptedInputIsExported(entries: map<string, Value>, dirName: string, body: string)
    requires Validate(Mapping(entries), dirName).Valid?
    ensures Serialize(ToSerializeInput(entries, body)) ==
            Exported(Document(Enumerated(BuildRecord(ToSerializeInput(entries, body))), WithNewline(body)))
  {
    AcceptedFieldsAreWritten(entries, dirName, body);
    WritableIsExported(ToSerializeInput(entries, body));
  }

  lemma WritableIsExported(input: SkillInput)
    requires FieldProblem(input).None? && Names.IsValid(input.name, Names.SkillName)
    requires Trim(input.description) != "" && |input.description| <= DESCRIPTION_MAX_LENGTH
    ensures Serialize(input) == Exported(Document(Enumerated(BuildRecord(input)), WithNewline(input.body)))
  {
  }

  lemma ToolsSurvive(entries: map<string, Value>)
    ensures ToolsOf(entries).Some? ==>
              TokenizeAllowedTools(JoinWith(ToolsOf(entries).value, ' ')) == ToolsOf(entries).value
  {
    var tools := TextOf(Get(entries, "allowed-tools"));
    if tools.Some? {
      TokensAreTokens(tools.value, WHITE_SPACE);
      TokensJoin(TokenizeAllowedTools(tools.value), WHITE_SPACE);
    }
  }

  // ------------------------------------------------------------ main results

  /** Two frontmatters that agree where a reader looks, but for an empty metadata map, are accepted alike. */
  lemma AcceptedAlike(a: map<string, Value>, b: map<string, Value>, dirName: string)
    requires Validate(Mapping(a), dirName).Valid?
    requires Get(b, "name") == Get(a, "name") && Get(b, "description") == Get(a, "description")
    requires Get(b, "license") == Get(a, "license") && Get(b, "compatibility") == Get(a, "compatibility")
    requires Get(b, "metadata").None? || Get(b, "metadata") == Get(a, "metadata")
    requires (Get(b, "allowed-tools").Some? <==> Get(a, "allowed-tools").Some?) && ToolsOf(b) == ToolsOf(a)
    requires Get(b, "allowed-tools").Some? ==> b["allowed-tools"].Str?
    ensures Validate(Mapping(b), dirName) == Valid(b, Validate(Mapping(a), dirName).allowedTools)
  {
  }

  /** What an export makes of each known field. */
  lemma KnownAfterExport(entries: map<string, Value>)
    requires Shaped(entries)
    ensures AfterExport(entries, "name") == Get(entries, "name")
    ensures AfterExport(entries, "description") == Get(entries, "description")
    ensures AfterExport(entries, "license") == Get(entries, "license")
    ensures AfterExport(entries, "compatibility") == Get(entries, "compatibility")
    ensures AfterExport(entries, "metadata") ==
            if Get(entries, "metadata") == Some(Mapping(map[])) then None else Get(entries, "metadata")
    ensures AfterExport(entries, "allowed-tools") == ToolsField(ToolsOf(entries))
  {
    KnownIsNotInherited();
    assert forall k :: k in KNOWN ==> k !in INHERITED;
    assert "name" in KNOWN && "description" in KNOWN && "license" in KNOWN && "compatibility" in KNOWN
           && "metadata" in KNOWN && "allowed-tools" in KNOWN;
  }

  /**
   * The round trip. Whatever a reader accepts is exported without error, and what the export writes is accepted
   * again with the same tools; every field but the unknown keys is as it was, except that the tools are written with
   * single spaces and an empty metadata map is dropped.
   */
  lemma RoundTrip(entries: map<string, Value>, dirName: string, body: string)
    requires Validate(Mapping(entries), dirName).Valid?
    ensures Shaped(entries)
    ensures Serialize(ToSerializeInput(entries, body)) ==
            Exported(Document(Enumerated(BuildRecord(ToSerializeInput(entries, body))), WithNewline(body)))
    ensures Validate(Mapping(Reread(entries, body)), dirName) ==
            Valid(Reread(entries, body), Validate(Mapping(entries), dirName).allowedTools)
    ensures forall k :: k in KNOWN && k != "allowed-tools" && k != "metadata" ==>
              Get(Reread(entries, body), k) == Get(entries, k)
    ensures Get(Reread(entries, body), "metadata") ==
            if Get(entries, "metadata") == Some(Mapping(map[])) then None else Get(entries, "metadata")
  {
    AcceptedIsShaped(entries, dirName);
    AcceptedInputIsExported(entries, dirName, body);
    RereadReads(entries, body);
    AcceptedAgain(entries, Reread(entries, body), dirName);
  }

  /** What reads like an export of an accepted frontmatter is accepted with the same tools. */
  lemma AcceptedAgain(entries: map<string, Value>, reread: map<string, Value>, dirName: string)
    requires Validate(Mapping(entries), dirName).Valid?
    requires forall k :: Get(reread, k) == AfterExport(entries, k)
    ensures Validate(Mapping(reread), dirName) == Valid(reread, Validate(Mapping(entries), dirName).allowedTools)
    ensures forall k :: k in KNOWN && k != "allowed-tools" && k != "metadata" ==> Get(reread, k) == Get(entries, k)
    ensures Get(reread, "metadata") ==
            if Get(entries, "metadata") == Some(Mapping(map[])) then None else Get(entries, "metadata")
  {
    AcceptedIsShaped(entries, dirName);
    ToolsSurvive(entries);
    KnownAfterExport(entries);
    AcceptedAlike(entries, reread, dirName);
  }

  /**
   * Unknown keys survive exactly when none of them is a name every object inherits: the export skips those, because
   * it asks whether the record already answers to the key.
   */
  lemma UnknownKeysSurvive(entries: map<string, Value>, dirName: string, body: string)
    requires Validate(Mapping(entries), dirName).Valid?
    ensures Shaped(entries)
    ensures (forall k :: k !in KNOWN ==> Get(Reread(entries, body), k) == Get(entries, k)) <==>
              entries.Keys !! INHERITED
  {
    AcceptedIsShaped(entries, dirName);
    RereadReads(entries, body);
    Survive(entries, Reread(entries, body), KNOWN, INHERITED) by {
      KnownIsNotInherited();
      forall k | k !in KNOWN ensures Get(Reread(entries, body), k) == if k in INHERITED then None else Get(entries, k) {
        assert Get(Reread(entries, body), k) == AfterExport(entries, k);
        assert "metadata" in KNOWN && "allowed-tools" in KNOWN;
      }
    }
  }

  lemma Survive(before: map<string, Value>, after: map<string, Value>, known: set<string>, skipped: set<string>)
    requires known !! skipped
    requires forall k :: k !in known ==> Get(after, k) == if k in skipped then None else Get(before, k)
    ensures (forall k :: k !in known ==> Get(after, k) == Get(before, k)) <==> before.Keys !! skipped
  {
    if forall k :: k !in known ==> Get(after, k) == Get(before, k) {
      forall k | k in skipped ensures k !in before {
        assert Get(after, k) == Get(before, k);
      }
    }
  }

  lemma InheritedIsDropped(entries: map<string, Value>, body: string, k: string)
    requires Shaped(entries) && k in INHERITED
    ensures k !in Reread(entries, body)
  {
    RereadReads(entries, body);
    assert Get(Reread(entries, body), k) == AfterExport(entries, k);
  }

  /** A frontmatter with a name, a description and this key. */
  function WithKey(key: string): map<string, Value> {
    map["name" := Str("a"), "description" := Str("b"), key := Str("c")]
  }

  lemma WithKeyIsAccepted(key: string)
    requires key !in KNOWN
    ensures Validate(Mapping(WithKey(key)), "a") == Valid(WithKey(key), None)
    ensures Unknown(WithKey(key)).Keys <= {key} && Shaped(WithKey(key))
  {
    assert TrimStart("b") == "b" && TrimEnd("b") == "b";
    assert forall k :: k in KNOWN ==> k != key;
    assert "name" in KNOWN && "description" in KNOWN && "license" in KNOWN && "compatibility" in KNOWN
           && "metadata" in KNOWN && "allowed-tools" in KNOWN;
  }

  /** One skill that loses a key: the unknown key `constructor` is accepted and then dropped. */
  lemma ConstructorKeyIsDropped()
    ensures Validate(Mapping(WithKey("constructor")), "a") == Valid(WithKey("constructor"), None)
    ensures Shaped(WithKey("constructor")) && "constructor" !in Reread(WithKey("constructor"), "")
  {
    WithKeyIsAccepted("constructor");
    InheritedIsDropped(WithKey("constructor"), "", "constructor");
  }

  lemma OnlyIndexFirst(input: SkillInput, key: string)
    requires key in input.extra && input.extra.Keys <= {key} && IsIndex(key)
    ensures Enumerated(BuildRecord(input)) != [] && Enumerated(BuildRecord(input))[0].0 == key
  {
    var record := BuildRecord(input);
    if key in KNOWN + INHERITED {
      KnownAreNotIndexes(key);
    }
    ExtraIsWritten(input, key);
    var i :| 0 <= i < |record| && record[i].0 == key;
    IndexComesFirst(record, i);
    FirstIsListed(record);
    var first := Enumerated(record)[0].0;
    WrittenIsKnownOrExtra(input, first);
    if first in KNOWN {
      KnownAreNotIndexes(first);
    }
  }

  lemma FirstIsListed(record: Record)
    requires Enumerated(record) != []
    ensures HasOwn(record, Enumerated(record)[0].0)
  {
    PartMeans(record, true);
    PartMeans(record, false);
    var first := SortBy(Part(record, true), ByIndex());
    assert Enumerated(record)[0] in first + Part(record, false);
    var field := Enumerated(record)[0];
    assert field in record;
    var i :| 0 <= i < |record| && record[i] == field;
  }

  /** One skill whose first field is not its name: the unknown key `1` is accepted, and written before the name. */
  lemma IndexKeyComesFirst()
    ensures Validate(Mapping(WithKey("1")), "a") == Valid(WithKey("1"), None) && Shaped(WithKey("1"))
    ensures var out := Serialize(ToSerializeInput(WithKey("1"), ""));
            out.Exported? && out.document.fields != [] && out.document.fields[0].0 == "1"
  {
    assert IsIndex("1") && |"1"| < |LAST_INDEX|;
    WithKeyIsAccepted("1");
    AcceptedInputIsExported(WithKey("1"), "a", "");
    assert "1" in Unknown(WithKey("1"));
    OnlyIndexFirst(ToSerializeInput(WithKey("1"), ""), "1");
  }

  // ------------------------------------------------------------ the second export

  /** Keys the record skips may as well not be there. */
  lemma {:induction false} SkippedKeys(record: Record, extra: map<string, Value>, keys: seq<string>, left: map<string,
                                       Value>)
    requires forall k :: k in keys ==> k in extra
    requires left == map k | k in extra && k !in INHERITED :: extra[k]
    ensures forall k :: k in Lasting(keys) ==> k in left
    ensures AddExtras(record, extra, keys) == AddExtras(record, left, Lasting(keys))
    decreases |keys|
  {
    if keys != [] {
      var next := if In(record, keys[0]) then record else record + [(keys[0], extra[keys[0]])];
      assert keys[0] in keys && forall k :: k in keys[1..] ==> k in keys;
      SkippedKeys(next, extra, keys[1..], left);
      if keys[0] !in INHERITED {
        assert Lasting(keys)[1..] == Lasting(keys[1..]);
      }
    }
  }

  function Lasting(keys: seq<string>): (r: seq<string>)
    ensures forall k :: k in r <==> k in keys && k !in INHERITED
  {
    if keys == [] then []
    else
      assert forall k :: k in keys <==> k == keys[0] || k in keys[1..];
      if keys[0] in INHERITED then Lasting(keys[1..]) else [keys[0]] + Lasting(keys[1..])
  }

  lemma {:induction false} LastingIsStrict(keys: seq<string>)
    requires StrictlySorted(keys, Itself())
    ensures StrictlySorted(Lasting(keys), Itself())
  {
    if keys != [] {
      StrictTail(keys, Itself());
      LastingIsStrict(keys[1..]);
      StrictCons(keys[0], Lasting(keys[1..]), Itself());
    }
  }

  lemma SameKnownFields(entries: map<string, Value>, reread: map<string, Value>, body: string, body2: string)
    requires Shaped(entries) && Shaped(reread)
    requires forall k :: k in KNOWN ==> Get(reread, k) == AfterExport(entries, k)
    ensures KnownFields(ToSerializeInput(reread, body2)) == KnownFields(ToSerializeInput(entries, body))
  {
    KnownAfterExport(entries);
    ToolsSurvive(entries);
    MetadataIsKept(entries);
    MetadataIsKept(reread);
    assert "name" in KNOWN && "description" in KNOWN && "license" in KNOWN && "compatibility" in KNOWN
           && "metadata" in KNOWN && "allowed-tools" in KNOWN;
  }

  lemma UnknownOfReread(entries: map<string, Value>, reread: map<string, Value>)
    requires forall k :: Get(reread, k) == AfterExport(entries, k)
    ensures Unknown(reread) == map k | k in Unknown(entries) && k !in INHERITED :: Unknown(entries)[k]
  {
    assert "metadata" in KNOWN && "allowed-tools" in KNOWN && "__proto__" in INHERITED;
    var left := map k | k in Unknown(entries) && k !in INHERITED :: Unknown(entries)[k];
    forall k ensures Get(Unknown(reread), k) == Get(left, k) {
      assert Get(reread, k) == AfterExport(entries, k);
    }
    SameGets(Unknown(reread), left);
  }

  lemma SameGets(a: map<string, Value>, b: map<string, Value>)
    requires forall k :: Get(a, k) == Get(b, k)
    ensures a == b
  {
    assert forall k :: k in a <==> Get(a, k).Some?;
    assert forall k :: k in b <==> Get(b, k).Some?;
    assert forall k :: k in a ==> Get(a, k) == Get(b, k) && a[k] == b[k];
  }

  /** Exporting what was read back gives the same file again: the same fields in the same order and the same body. */
  lemma SecondExportIsTheFirst(entries: map<string, Value>, dirName: string, body: string)
    requires Validate(Mapping(entries), dirName).Valid?
    ensures Shaped(entries) && Shaped(Reread(entries, body))
    ensures Serialize(ToSerializeInput(Reread(entries, body), WithNewline(body))) ==
            Serialize(ToSerializeInput(entries, body))
  {
    RoundTrip(entries, dirName, body);
    var reread, again := Reread(entries, body), WithNewline(body);
    AcceptedIsShaped(reread, dirName);
    AcceptedInputIsExported(reread, dirName, again);
    SameRecords(entries, reread, body, again);
  }

  lemma SameRecords(entries: map<string, Value>, reread: map<string, Value>, body: string, again: string)
    requires Shaped(entries) && Shaped(reread) && reread == Reread(entries, body)
    ensures BuildRecord(ToSerializeInput(reread, again)) == BuildRecord(ToSerializeInput(entries, body))
  {
    RereadReads(entries, body);
    SameKnownFields(entries, reread, body, again);
    UnknownOfReread(entries, reread);
    var first, second := ToSerializeInput(entries, body), ToSerializeInput(reread, again);
    var keys := SortedKeys(first.extra.Keys);
    SkippedKeys(KnownFields(first), first.extra, keys, second.extra);
    LastingIsStrict(keys);
    SortedKeysAreUnique(Lasting(keys), SortedKeys(second.extra.Keys));
  }

  // ------------------------------------------------------------ a body that opens with a block

  lemma {:induction false} AssignKeeps(record: Record, key: string, value: Value)
    requires KeysDiffer(record)
    ensures KeysDiffer(Assign(record, key, value))
    ensures forall field :: field in Assign(record, key, value) <==>
              field == (key, value) || (field in record && field.0 != key)
  {
    if record != [] {
      var rest := record[1..];
      assert forall i :: 0 <= i < |rest| ==> rest[i] == record[i + 1];
      assert forall field :: field in record <==> field == record[0] || field in rest;
      forall field | field in rest ensures field.0 != record[0].0 {
        var i :| 0 <= i < |rest| && rest[i] == field;
      }
      AssignKeeps(rest, key, value);
      var changed := Assign(rest, key, value);
      assert forall i :: 0 <= i < |changed| ==> changed[i] in changed;
    }
  }

  /** What an object answers after more is assigned to it. */
  lemma {:induction false} AssignAllReads(record: Record, more: Record, k: string)
    requires KeysDiffer(record) && KeysDiffer(more)
    ensures KeysDiffer(AssignAll(record, more))
    ensures Get(AsMap(AssignAll(record, more)), k) ==
            if Get(AsMap(more), k).Some? then Get(AsMap(more), k) else Get(AsMap(record), k)
    decreases |more|
  {
    if more != [] {
      var (key, value) := more[0];
      AssignKeeps(record, key, value);
      assert forall i :: 0 <= i < |more[1..]| ==> more[1..][i] == more[i + 1];
      AssignAllReads(Assign(record, key, value), more[1..], k);
      ReadsAfterAssign(record, key, value, k);
      ReadsOfCons(more, k);
    }
  }

  lemma GetMeans(record: Record, k: string)
    requires KeysDiffer(record)
    ensures forall value :: Get(AsMap(record), k) == Some(value) <==> (k, value) in record
    ensures Get(AsMap(record), k).None? <==> forall value :: (k, value) !in record
  {
    forall value ensures Get(AsMap(record), k) == Some(value) <==> (k, value) in record {
      ReadsField(record, (k, value));
    }
  }

  lemma ReadsAfterAssign(record: Record, key: string, value: Value, k: string)
    requires KeysDiffer(record)
    ensures Get(AsMap(Assign(record, key, value)), k) == if k == key then Some(value) else Get(AsMap(record), k)
  {
    AssignKeeps(record, key, value);
    GetMeans(record, k);
    GetMeans(Assign(record, key, value), k);
    assert (k, value) in Assign(record, key, value) || k != key;
  }

  lemma ReadsOfCons(record: Record, k: string)
    requires record != [] && KeysDiffer(record)
    ensures KeysDiffer(record[1..])
    ensures Get(AsMap(record), k) == if k == record[0].0 then Some(record[0].1) else Get(AsMap(record[1..]), k)
    ensures k == record[0].0 ==> Get(AsMap(record[1..]), k).None?
  {
    var rest := record[1..];
    assert forall i :: 0 <= i < |rest| ==> rest[i] == record[i + 1];
    assert forall field :: field in record <==> field == record[0] || field in rest;
    GetMeans(record, k);
    GetMeans(rest, k);
    assert (k, record[0].1) in record || k != record[0].0;
  }

  /** A block at the head of a text takes its two fences from it. */
  predicate Fits(head: Head, text: string) {
    head.Block? ==> |head.rest| + 6 <= |text| && KeysDiffer(head.fields)
  }

  /**
   * The body is written back as it was given if and only if it does not itself open with a block of fields. If it does,
   * the block is taken off and its fields join those of the file, where the file has none of the same name.
   */
  lemma BodyIsKept(document: Document, head: Head)
    requires Fits(head, document.body) && KeysDiffer(document.fields)
    ensures Written(document, head).body == document.body <==> head.NoBlock?
    ensures head.NoBlock? ==> Written(document, head) == document
    ensures forall k :: Get(AsMap(Written(document, head).fields), k) ==
              if Get(AsMap(document.fields), k).Some? || head.NoBlock? then Get(AsMap(document.fields), k)
              else Get(AsMap(head.fields), k)
  {
    if head.Block? {
      var both := AssignAll(head.fields, document.fields);
      forall k ensures Get(AsMap(Enumerated(both)), k) ==
        if Get(AsMap(document.fields), k).Some? then Get(AsMap(document.fields), k) else Get(AsMap(head.fields), k)
      {
        AssignAllReads(head.fields, document.fields, k);
        EnumeratedIsTheObject(both);
      }
    }
  }

  /** What an export hands to the writer sets no key twice, so the above speaks of every export. */
  lemma ExportedKeysDiffer(input: SkillInput)
    ensures KeysDiffer(Enumerated(BuildRecord(input)))
  {
    KnownDiffer(input);
    ExtrasDiffer(KnownFields(input), input.extra, SortedKeys(input.extra.Keys));
    EnumeratedIsTheObject(BuildRecord(input));
  }
}
