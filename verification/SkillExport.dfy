/** Which skills an export writes, why it refuses others, and what it writes of the body. */
module SkillExport {
  import opened Wrappers
  import opened Text
  import opened SkillFrontmatter
  import opened SkillContents
  import Names

  /** A description that is there: something in it is no white space. */
  ghost predicate Says(description: string) {
    exists c :: c in description && !IsSpace(c)
  }

  ghost predicate GoodCompatibility(input: SkillInput) {
    input.compatibility.Some? ==> 1 <= |input.compatibility.value| <= 500
  }

  /** Tools that a reader will split where they were joined. */
  ghost predicate GoodTools(input: SkillInput) {
    input.allowedTools.Some? ==>
      forall tool :: tool in input.allowedTools.value ==> tool != "" && forall c :: c in tool ==> !IsSpace(c)
  }

  ghost predicate GoodMetadata(input: SkillInput) {
    input.metadata.Some? ==> forall k :: k in input.metadata.value ==> input.metadata.value[k].Str?
  }

  /**
   * A skill is written exactly when its name, description and optional fields keep the rules a reader has for them;
   * else it is refused for the first rule broken.
   */
  lemma ExportedIff(input: SkillInput)
    ensures var out := Serialize(input);
            var named := Names.IsValid(input.name, Names.SkillName);
            var says, fits := Says(input.description), |input.description| <= 1024;
            && (out == NameUnusable <==> !named)
            && (out == DescriptionMissingIn <==> named && !says)
            && (out == DescriptionTooLong <==> named && says && !fits)
            && (out == CompatibilityLength <==> named && says && fits && !GoodCompatibility(input))
            && (out == BadToken <==> named && says && fits && GoodCompatibility(input) && !GoodTools(input))
            && (out == BadMetadata <==>
                  && named && says && fits && GoodCompatibility(input) && GoodTools(input) && !GoodMetadata(input))
            && (out.Exported? <==>
                  && named && says && fits && GoodCompatibility(input) && GoodTools(input) && GoodMetadata(input))
  {
    TrimEmpties(input.description);
    FieldsRefused(input);
  }

  lemma FieldsRefused(input: SkillInput)
    ensures FieldProblem(input) ==
            if !GoodCompatibility(input) then Some(CompatibilityLength)
            else if !GoodTools(input) then Some(BadToken)
            else if !GoodMetadata(input) then Some(BadMetadata)
            else None
  {
    assert GoodTools(input) <==>
           (input.allowedTools.Some? ==> forall t :: t in input.allowedTools.value ==> IsToken(t, WHITE_SPACE));
    assert input.metadata.Some? ==> (GoodMetadata(input) <==> IsStringMap(Mapping(input.metadata.value)));
  }

  /** What is handed to the writer as the body ends in a line feed, and is the body but for that one, if it had none. */
  lemma ExportedBody(input: SkillInput)
    requires Serialize(input).Exported?
    ensures var body := Serialize(input).document.body;
            && body != "" && body[|body| - 1] == '\n'
            && (body == input.body || body == input.body + "\n")
            && (body == input.body <==> input.body != "" && input.body[|input.body| - 1] == '\n')
  {
  }
}
