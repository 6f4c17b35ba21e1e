/** The two name rules, and the repair that turns any string into a name that satisfies its rule. */
module Names {
  import opened Wrappers
  import opened Text

  const MAX_LENGTH := 64

  /** What sets the two rules apart: a plugin name may also hold periods. */
  datatype Rule = SkillName | PluginName

  predicate IsAlphanumeric(c: char) {
    'a' <= c <= 'z' || '0' <= c <= '9'
  }

  predicate IsSeparator(c: char, rule: Rule) {
    c == '-' || (rule.PluginName? && c == '.')
  }

  predicate IsAllowed(c: char, rule: Rule) {
    IsAlphanumeric(c) || IsSeparator(c, rule)
  }

  predicate AllAllowed(s: string, rule: Rule) {
    forall c :: c in s ==> IsAllowed(c, rule)
  }

  predicate HoldsAlphanumeric(s: string) {
    exists c :: c in s && IsAlphanumeric(c)
  }

  /** No two of this character stand next to each other. */
  predicate Single(s: string, c: char) {
    forall i :: 0 < i < |s| ==> !(s[i - 1] == c && s[i] == c)
  }

  /** 1 to 64 allowed characters, alphanumeric at both ends, no "--" and, where periods are allowed, no "..". */
  predicate IsValid(name: string, rule: Rule) {
    && 1 <= |name| <= MAX_LENGTH && AllAllowed(name, rule)
    && IsAlphanumeric(name[0]) && IsAlphanumeric(name[|name| - 1])
    && Single(name, '-') && (rule.PluginName? ==> Single(name, '.'))
  }

  // ------------------------------------------------------------ the repair

  /** Every run of characters the rule does not allow becomes one hyphen. */
  function Hyphenate(s: string, rule: Rule): string {
    if s == "" then ""
    else if IsAllowed(s[0], rule) then [s[0]] + Hyphenate(s[1..], rule)
    else if |s| > 1 && !IsAllowed(s[1], rule) then Hyphenate(s[1..], rule)
    else "-" + Hyphenate(s[1..], rule)
  }

  /** Every run of this character becomes one of it. */
  function Collapse(s: string, c: char): string {
    if |s| < 2 then s
    else if s[0] == c && s[1] == c then Collapse(s[1..], c)
    else [s[0]] + Collapse(s[1..], c)
  }

  function TrimFront(s: string, rule: Rule): string {
    if s != "" && IsSeparator(s[0], rule) then TrimFront(s[1..], rule) else s
  }

  function TrimBack(s: string, rule: Rule): string {
    if s != "" && IsSeparator(s[|s| - 1], rule) then TrimBack(s[..|s| - 1], rule) else s
  }

  function TrimSeparators(s: string, rule: Rule): string {
    TrimBack(TrimFront(s, rule), rule)
  }

  function Slice(s: string, n: nat): string {
    if |s| <= n then s else s[..n]
  }

  /** What the two collapses leave. */
  function Collapsed(lowered: string, rule: Rule): string {
    var collapsed := Collapse(Hyphenate(lowered, rule), '-');
    if rule.PluginName? then Collapse(collapsed, '.') else collapsed
  }

  /** The repair after lower-casing, which is the runtime's. */
  function Repair(lowered: string, rule: Rule): Option<string> {
    var repaired := TrimSeparators(Slice(TrimSeparators(Collapsed(lowered, rule), rule), MAX_LENGTH), rule);
    if |repaired| > 0 then Some(repaired) else None
  }

  function RepairName(value: string, rule: Rule, lower: string -> string): Option<string> {
    Repair(lower(value), rule)
  }

  // ------------------------------------------------------------ each stage

  lemma {:induction false} HyphenateAllows(s: string, rule: Rule)
    ensures AllAllowed(Hyphenate(s, rule), rule)
    ensures HoldsAlphanumeric(Hyphenate(s, rule)) <==> HoldsAlphanumeric(s)
  {
    if s != "" {
      HyphenateAllows(s[1..], rule);
      assert forall c :: c in s <==> c == s[0] || c in s[1..];
    }
  }

  lemma {:induction false} CollapseSingles(s: string, c: char)
    ensures Single(Collapse(s, c), c)
    ensures forall x :: x in Collapse(s, c) <==> x in s
    ensures s != "" ==> Collapse(s, c) != "" && Collapse(s, c)[0] == s[0]
  {
    if |s| >= 2 {
      CollapseSingles(s[1..], c);
      assert forall x :: x in s <==> x == s[0] || x in s[1..];
    }
  }

  /** Collapsing one separator brings no two of the other together. */
  lemma {:induction false} CollapseKeepsSingle(s: string, c: char, d: char)
    requires c != d && Single(s, d)
    ensures Single(Collapse(s, c), d)
  {
    if |s| >= 2 {
      assert forall i :: 0 < i < |s[1..]| ==> s[1..][i - 1] == s[i] && s[1..][i] == s[i + 1];
      CollapseKeepsSingle(s[1..], c, d);
      CollapseSingles(s[1..], c);
      assert !(s[0] == d && s[1] == d);
    }
  }

  /** A piece of a text keeps its good properties. */
  lemma PieceKeeps(s: string, i: nat, j: nat, rule: Rule)
    requires i <= j <= |s|
    ensures AllAllowed(s, rule) ==> AllAllowed(s[i..j], rule)
    ensures forall c :: Single(s, c) ==> Single(s[i..j], c)
  {
    forall c | Single(s, c) ensures Single(s[i..j], c) {
      forall k | 0 < k < j - i ensures !(s[i..j][k - 1] == c && s[i..j][k] == c) {
        assert s[i..j][k - 1] == s[i + k - 1] && s[i..j][k] == s[i + k];
      }
    }
  }

  lemma {:induction false} TrimFrontCuts(s: string, rule: Rule) returns (i: nat)
    ensures i <= |s| && TrimFront(s, rule) == s[i..] && forall k :: 0 <= k < i ==> IsSeparator(s[k], rule)
    ensures i < |s| ==> !IsSeparator(s[i], rule)
  {
    i := 0;
    if s != "" && IsSeparator(s[0], rule) {
      var j := TrimFrontCuts(s[1..], rule);
      assert s[1..][j..] == s[j + 1..];
      assert forall k :: 0 < k <= j ==> s[k] == s[1..][k - 1];
      i := j + 1;
    }
  }

  lemma {:induction false} TrimBackCuts(s: string, rule: Rule) returns (j: nat)
    ensures j <= |s| && TrimBack(s, rule) == s[..j] && forall k :: j <= k < |s| ==> IsSeparator(s[k], rule)
    ensures j > 0 ==> !IsSeparator(s[j - 1], rule)
  {
    j := |s|;
    if s != "" && IsSeparator(s[|s| - 1], rule) {
      j := TrimBackCuts(s[..|s| - 1], rule);
      assert s[..|s| - 1][..j] == s[..j];
      assert forall k :: 0 <= k < |s| - 1 ==> s[k] == s[..|s| - 1][k];
    }
  }

  /** Trimming leaves a piece between two alphanumeric characters, or nothing when there is none. */
  lemma TrimCuts(s: string, rule: Rule)
    requires AllAllowed(s, rule)
    ensures var t := TrimSeparators(s, rule);
            && AllAllowed(t, rule) && |t| <= |s| && (forall c :: Single(s, c) ==> Single(t, c))
            && (t == "" <==> !HoldsAlphanumeric(s))
            && (t != "" ==> IsAlphanumeric(t[0]) && IsAlphanumeric(t[|t| - 1]))
  {
    var i := TrimFrontCuts(s, rule);
    var front := TrimFront(s, rule);
    var j := TrimBackCuts(front, rule);
    var t := TrimSeparators(s, rule);
    assert t == s[i..i + j];
    PieceKeeps(s, i, i + j, rule);
    if t != "" {
      assert t[0] == s[i] && t[j - 1] == s[i + j - 1] && s[i] in s && s[i + j - 1] in s;
    }
    forall c | c in s && IsAlphanumeric(c) ensures t != "" {
      var k :| 0 <= k < |s| && s[k] == c;
      assert k >= i && front[k - i] == c;
    }
  }

  lemma CollapsedIsSingle(lowered: string, rule: Rule)
    ensures var single := Collapsed(lowered, rule);
            && AllAllowed(single, rule) && Single(single, '-') && (rule.PluginName? ==> Single(single, '.'))
            && (HoldsAlphanumeric(single) <==> HoldsAlphanumeric(lowered))
  {
    HyphenateAllows(lowered, rule);
    var hyphenated := Hyphenate(lowered, rule);
    CollapseSingles(hyphenated, '-');
    if rule.PluginName? {
      CollapseSingles(Collapse(hyphenated, '-'), '.');
      CollapseKeepsSingle(Collapse(hyphenated, '-'), '.', '-');
    }
  }

  // ------------------------------------------------------------ main results

  /**
   * The repair gives a name exactly when the lower-cased text has a letter a-z or a digit, and the name satisfies the
   * rule.
   */
  lemma RepairLands(lowered: string, rule: Rule)
    ensures Repair(lowered, rule).Some? <==> HoldsAlphanumeric(lowered)
    ensures Repair(lowered, rule).Some? ==> IsValid(Repair(lowered, rule).value, rule)
  {
    CollapsedIsSingle(lowered, rule);
    var single := Collapsed(lowered, rule);
    TrimCuts(single, rule);
    var trimmed := TrimSeparators(single, rule);
    var cut := Slice(trimmed, MAX_LENGTH);
    if |trimmed| > MAX_LENGTH {
      PieceKeeps(trimmed, 0, MAX_LENGTH, rule);
    }
    TrimCuts(cut, rule);
    if trimmed != "" {
      assert cut[0] in cut && IsAlphanumeric(cut[0]);
    }
  }

  lemma {:induction false} HyphenateIdentity(s: string, rule: Rule)
    requires AllAllowed(s, rule)
    ensures Hyphenate(s, rule) == s
  {
    if s != "" {
      assert s[0] in s && forall c :: c in s[1..] ==> c in s;
      HyphenateIdentity(s[1..], rule);
    }
  }

  lemma {:induction false} CollapseIdentity(s: string, c: char)
    requires Single(s, c)
    ensures Collapse(s, c) == s
  {
    if |s| >= 2 {
      PieceKeeps(s, 1, |s|, SkillName);
      assert s[1..|s|] == s[1..];
      assert !(s[0] == c && s[1] == c);
      CollapseIdentity(s[1..], c);
    }
  }

  /** A valid name is its own repair; lower-casing, too, leaves it alone. */
  lemma ValidNamesUnchanged(name: string, rule: Rule, lower: string -> string)
    requires IsValid(name, rule) && lower(name) == name
    ensures RepairName(name, rule, lower) == Some(name)
  {
    HyphenateIdentity(name, rule);
    CollapseIdentity(name, '-');
    if rule.PluginName? {
      CollapseIdentity(name, '.');
    }
    assert Collapsed(name, rule) == name;
    assert TrimFront(name, rule) == name && TrimBack(name, rule) == name;
  }

  // ------------------------------------------------------------ narrowing

  datatype Reason = TooLong(length: nat) | HyphenAtEnd | DoubledHyphen | ForbiddenCharacters | BreaksPluginRule

  datatype Narrowing = Accepted(name: string) | Refused(reason: Reason, suggestion: Option<string>)

  predicate HasHyphenAtEnd(s: string) {
    s != "" && (s[0] == '-' || s[|s| - 1] == '-')
  }

  function ToSpecSkillName(slug: string, lower: string -> string): Narrowing {
    if IsValid(slug, SkillName) then Accepted(slug)
    else
      var reason := if |slug| > MAX_LENGTH then TooLong(|slug|)
                    else if HasHyphenAtEnd(slug) then HyphenAtEnd
                    else if !Single(slug, '-') then DoubledHyphen
                    else ForbiddenCharacters;
      Refused(reason, RepairName(slug, SkillName, lower))
  }

  function ToSpecPluginName(value: string, lower: string -> string): Narrowing {
    if IsValid(value, PluginName) then Accepted(value)
    else
      Refused(if |value| > MAX_LENGTH then TooLong(|value|) else BreaksPluginRule, RepairName(value, PluginName, lower))
  }

  function ToSpecName(value: string, rule: Rule, lower: string -> string): Narrowing {
    if rule.SkillName? then ToSpecSkillName(value, lower) else ToSpecPluginName(value, lower)
  }

  /**
   * A name is accepted as it stands exactly when it satisfies the rule; otherwise a suggestion is made exactly
   * when the lower-cased name has something to keep, and the suggestion is accepted as it stands.
   */
  lemma SuggestionsAreAccepted(value: string, rule: Rule, lower: string -> string)
    ensures var answer := ToSpecName(value, rule, lower);
            && (answer.Accepted? <==> IsValid(value, rule))
            && (answer.Accepted? ==> answer.name == value)
            && (answer.Refused? ==> (answer.suggestion.Some? <==> HoldsAlphanumeric(lower(value))))
            && (answer.Refused? && answer.suggestion.Some? ==>
                  ToSpecName(answer.suggestion.value, rule, lower) == Accepted(answer.suggestion.value))
  {
    RepairLands(lower(value), rule);
  }

  /**
   * The reason given for a refused slug is the first that is true of it, of its length, a hyphen at an end, a doubled
   * hyphen and forbidden characters; with one exception: an empty slug, too, is said to hold forbidden characters.
   */
  lemma SkillReasonIsTrue(slug: string, lower: string -> string)
    requires ToSpecSkillName(slug, lower).Refused?
    ensures var reason := ToSpecSkillName(slug, lower).reason;
            var hyphenAtEnd := slug != "" && (slug[0] == '-' || slug[|slug| - 1] == '-');
            var doubled := exists i :: 0 < i < |slug| && slug[i - 1] == slug[i] == '-';
            && (reason == TooLong(|slug|) <==> |slug| > 64)
            && (reason == HyphenAtEnd <==> |slug| <= 64 && hyphenAtEnd)
            && (reason == DoubledHyphen <==> |slug| <= 64 && !hyphenAtEnd && doubled)
    ensures ToSpecSkillName(slug, lower).reason.ForbiddenCharacters? ==> (slug == "" <==> AllAllowed(slug, SkillName))
    ensures ToSpecSkillName("", lower).Refused? && ToSpecSkillName("", lower).reason == ForbiddenCharacters
  {
    if slug != "" && AllAllowed(slug, SkillName) {
      assert slug[0] in slug && slug[|slug| - 1] in slug;
    }
  }
}
