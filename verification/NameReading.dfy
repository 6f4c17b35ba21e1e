/** What the repair of a name keeps of it: which characters, in which order, with what between them, and how far. */
module NameReading {
  import opened Wrappers
  import opened Names

  /** What becomes of a character that is kept: one the rule allows stays, any other reads as a hyphen. */
  function Image(c: char, rule: Rule): char {
    if IsAlphanumeric(c) || c == '-' || (rule.PluginName? && c == '.') then c else '-'
  }

  /** Letters and digits are kept, and of every run of characters that read as the same separator the last. */
  predicate KeptAt(s: string, rule: Rule, p: nat)
    requires p < |s|
  {
    IsAlphanumeric(s[p]) || p + 1 == |s| || Image(s[p + 1], rule) != Image(s[p], rule)
  }

  // ------------------------------------------------------------ the text before trimming, in one pass

  /** The kept characters, as they read. */
  function Squeeze(s: string, rule: Rule): string {
    if s == "" then ""
    else if KeptAt(s, rule, 0) then [Image(s[0], rule)] + Squeeze(s[1..], rule)
    else Squeeze(s[1..], rule)
  }

  lemma {:induction false} HyphenateStarts(s: string, rule: Rule)
    requires s != ""
    ensures Hyphenate(s, rule) != "" && Hyphenate(s, rule)[0] == Image(s[0], rule)
  {
    if !IsAllowed(s[0], rule) && |s| > 1 && !IsAllowed(s[1], rule) {
      HyphenateStarts(s[1..], rule);
    }
  }

  /** One hyphen for every run of forbidden characters, then one for every run of hyphens. */
  function Hyphened(s: string, rule: Rule): string {
    Collapse(Hyphenate(s, rule), '-')
  }

  /** The first two stages, character by character. */
  lemma HyphenedCons(s: string, rule: Rule)
    requires s != ""
    ensures var a, rest := Image(s[0], rule), Hyphened(s[1..], rule);
            Hyphened(s, rule) == if a == '-' && |s| > 1 && Image(s[1], rule) == '-' then rest else [a] + rest
    ensures |s| > 1 ==> Hyphened(s[1..], rule) != "" && Hyphened(s[1..], rule)[0] == Image(s[1], rule)
  {
    if |s| > 1 {
      HyphenateStarts(s[1..], rule);
      CollapseSingles(Hyphenate(s[1..], rule), '-');
    }
    var rest := Hyphenate(s[1..], rule);
    if IsAllowed(s[0], rule) || |s| == 1 || IsAllowed(s[1], rule) {
      assert Hyphenate(s, rule) == [Image(s[0], rule)] + rest;
      assert ([Image(s[0], rule)] + rest)[1..] == rest;
    }
  }

  /** The three replacements come to one pass that keeps the kept characters. */
  lemma {:induction false} CollapsedIsSqueezed(s: string, rule: Rule)
    ensures Collapsed(s, rule) == Squeeze(s, rule)
  {
    if s != "" {
      CollapsedIsSqueezed(s[1..], rule);
      HyphenedCons(s, rule);
      var a, rest := Image(s[0], rule), Hyphened(s[1..], rule);
      assert ([a] + rest)[1..] == rest;
    }
  }

  // ------------------------------------------------------------ where the kept characters stand

  ghost predicate Increasing(pos: seq<nat>) {
    forall i, j :: 0 <= i < j < |pos| ==> pos[i] < pos[j]
  }

  /** The text is that of the kept characters, at their places in order. */
  ghost predicate ReadsAt(text: string, s: string, rule: Rule, pos: seq<nat>) {
    && |pos| == |text| && Increasing(pos)
    && (forall k :: 0 <= k < |pos| ==> pos[k] < |s| && text[k] == Image(s[pos[k]], rule))
    && (forall p :: 0 <= p < |s| ==> (p in pos <==> KeptAt(s, rule, p)))
  }

  function Shifted(pos: seq<nat>): seq<nat> {
    seq(|pos|, i requires 0 <= i < |pos| => pos[i] + 1)
  }

  lemma ShiftedMembers(pos: seq<nat>, p: nat)
    ensures p + 1 in Shifted(pos) <==> p in pos
    ensures 0 !in Shifted(pos)
  {
    if p in pos {
      var i :| 0 <= i < |pos| && pos[i] == p;
      assert Shifted(pos)[i] == p + 1;
    }
  }

  lemma KeptLater(s: string, rule: Rule, p: nat)
    requires p + 1 < |s|
    ensures KeptAt(s[1..], rule, p) <==> KeptAt(s, rule, p + 1)
  {
  }

  /** One character more in front: the places move on. */
  lemma PlacesMove(text: string, s: string, rule: Rule, rest: seq<nat>)
    requires s != "" && ReadsAt(text, s[1..], rule, rest)
    ensures 0 !in Shifted(rest) && Increasing(Shifted(rest))
    ensures forall p :: 0 < p < |s| ==> (p in Shifted(rest) <==> KeptAt(s, rule, p))
    ensures forall k :: 0 <= k < |rest| ==> rest[k] + 1 < |s| && text[k] == Image(s[rest[k] + 1], rule)
  {
    forall p | 0 < p < |s| ensures p in Shifted(rest) <==> KeptAt(s, rule, p) {
      ShiftedMembers(rest, p - 1);
      KeptLater(s, rule, p - 1);
    }
    ShiftedMembers(rest, 0);
    assert forall k :: 0 <= k < |rest| ==> s[1..][rest[k]] == s[rest[k] + 1];
  }

  lemma FirstKept(text: string, s: string, rule: Rule, rest: seq<nat>)
    requires s != "" && ReadsAt(text, s[1..], rule, rest) && KeptAt(s, rule, 0)
    ensures ReadsAt([Image(s[0], rule)] + text, s, rule, [0] + Shifted(rest))
  {
    PlacesMove(text, s, rule, rest);
    var pos := [0] + Shifted(rest);
    assert forall k :: 0 < k < |pos| ==> pos[k] == rest[k - 1] + 1;
    assert forall p :: p in pos <==> p == 0 || p in Shifted(rest);
  }

  lemma FirstSkipped(text: string, s: string, rule: Rule, rest: seq<nat>)
    requires s != "" && ReadsAt(text, s[1..], rule, rest) && !KeptAt(s, rule, 0)
    ensures ReadsAt(text, s, rule, Shifted(rest))
  {
    PlacesMove(text, s, rule, rest);
  }

  lemma {:induction false} SqueezeReads(s: string, rule: Rule) returns (pos: seq<nat>)
    ensures ReadsAt(Squeeze(s, rule), s, rule, pos)
  {
    if s == "" {
      pos := [];
    } else {
      var rest := SqueezeReads(s[1..], rule);
      if KeptAt(s, rule, 0) {
        FirstKept(Squeeze(s[1..], rule), s, rule, rest);
        pos := [0] + Shifted(rest);
      } else {
        FirstSkipped(Squeeze(s[1..], rule), s, rule, rest);
        pos := Shifted(rest);
      }
    }
  }

  // ------------------------------------------------------------ the trimmed and cut text

  /** The repair is the piece of the squeezed text from its first letter or digit to the last that still fits. */
  ghost predicate IsCut(text: string, repaired: string, rule: Rule, i: nat) {
    && i + |repaired| <= |text| && repaired == text[i..i + |repaired|] && 1 <= |repaired| <= 64
    && (forall k :: 0 <= k < i ==> IsSeparator(text[k], rule))
    && (forall k :: i + |repaired| <= k < |text| && k < i + 64 ==> IsSeparator(text[k], rule))
  }

  lemma TrimFrontStays(s: string, rule: Rule)
    requires s == "" || !IsSeparator(s[0], rule)
    ensures TrimFront(s, rule) == s
  {
  }

  lemma PieceOfPiece(text: string, i: nat, m: nat, n: nat)
    requires n <= m && i + m <= |text|
    ensures text[i..i + m][..n] == text[i..i + n]
  {
  }

  /** The text with its separators trimmed is the piece from its first letter or digit to its last. */
  lemma TrimmedPiece(text: string, rule: Rule) returns (i: nat, j: nat)
    ensures i + j <= |text| && TrimSeparators(text, rule) == text[i..i + j]
    ensures forall k :: 0 <= k < i ==> IsSeparator(text[k], rule)
    ensures forall k :: i + j <= k < |text| ==> IsSeparator(text[k], rule)
    ensures j > 0 ==> !IsSeparator(text[i], rule)
  {
    i := TrimFrontCuts(text, rule);
    var front := text[i..];
    j := TrimBackCuts(front, rule);
    PieceOfPiece(text, i, |front|, j);
    forall k | i + j <= k < |text| ensures IsSeparator(text[k], rule) {
      assert text[k] == front[k - i];
    }
    if j > 0 {
      assert i < |text|;
    }
  }

  lemma RepairCuts(lowered: string, rule: Rule) returns (i: nat)
    requires Repair(lowered, rule).Some?
    ensures IsCut(Squeeze(lowered, rule), Repair(lowered, rule).value, rule, i)
  {
    CollapsedIsSqueezed(lowered, rule);
    var text, repaired := Squeeze(lowered, rule), Repair(lowered, rule).value;
    var j: nat;
    i, j := TrimmedPiece(text, rule);
    var m := if j <= MAX_LENGTH then j else MAX_LENGTH;
    var cut := text[i..i + m];
    PieceOfPiece(text, i, j, m);
    assert Slice(TrimSeparators(text, rule), MAX_LENGTH) == cut;
    TrimFrontStays(cut, rule);
    var n := TrimBackCuts(cut, rule);
    PieceOfPiece(text, i, m, n);
    assert repaired == text[i..i + n];
    forall k | i + n <= k < |text| && k < i + 64 ensures IsSeparator(text[k], rule) {
      if k < i + m {
        assert text[k] == cut[k - i];
      }
    }
  }

  // ------------------------------------------------------------ main result

  ghost function Members(pos: seq<nat>): set<nat> {
    set p | p in pos
  }

  lemma MembersSnoc(pos: seq<nat>, p: nat)
    requires forall q :: q in pos ==> q < p
    ensures Members(pos + [p]) == Members(pos) + {p} && p !in Members(pos)
  {
  }

  lemma {:induction false} AsManyAsPlaces(pos: seq<nat>)
    requires Increasing(pos)
    ensures |Members(pos)| == |pos|
  {
    if pos == [] {
      assert Members(pos) == {};
    } else {
      var n := |pos| - 1;
      AsManyAsPlaces(pos[..n]);
      assert pos == pos[..n] + [pos[n]];
      MembersSnoc(pos[..n], pos[n]);
    }
  }

  /** Kept characters between two places. */
  ghost function KeptBetween(s: string, rule: Rule, from: nat, to: nat): set<nat> {
    set p: nat | from < p < to && p < |s| && KeptAt(s, rule, p)
  }

  lemma KeptBetweenCount(text: string, s: string, rule: Rule, pos: seq<nat>, a: nat, b: nat)
    requires ReadsAt(text, s, rule, pos) && a < b < |pos|
    ensures |KeptBetween(s, rule, pos[a], pos[b])| == b - a - 1
  {
    var between := pos[a + 1..b];
    AsManyAsPlaces(between);
    forall p ensures p in between <==> p in KeptBetween(s, rule, pos[a], pos[b]) {
      if p in KeptBetween(s, rule, pos[a], pos[b]) {
        var k :| 0 <= k < |pos| && pos[k] == p;
        assert a < k < b && between[k - a - 1] == p;
      }
    }
    assert Members(between) == KeptBetween(s, rule, pos[a], pos[b]);
  }

  /**
   * How the repair reads the text. It stands at increasing places of it: a letter or digit for itself, a separator for
   * the character it is the image of. From the first place to the last nothing kept is passed over, so no letter or
   * digit is, and between two of them there is a separator exactly where the text has something. Before the first
   * place there is no letter or digit; after the last there is none that would still have fitted into 64 characters.
   */
  ghost predicate Reading(lowered: string, repaired: string, rule: Rule, pos: seq<nat>) {
    && |pos| == |repaired| && pos != [] && Increasing(pos)
    && (forall k :: 0 <= k < |pos| ==> pos[k] < |lowered| && repaired[k] == Image(lowered[pos[k]], rule))
    && (forall p :: pos[0] <= p <= pos[|pos| - 1] ==> (p in pos <==> KeptAt(lowered, rule, p)))
    && (forall p :: 0 <= p < pos[0] ==> !IsAlphanumeric(lowered[p]))
    && (forall p :: pos[|pos| - 1] < p < |lowered| && IsAlphanumeric(lowered[p]) ==>
          |repaired| + |KeptBetween(lowered, rule, pos[|pos| - 1], p)| >= 64)
  }

  lemma InAPiece(all: seq<nat>, i: nat, n: nat, p: nat)
    requires Increasing(all) && n > 0 && i + n <= |all| && all[i] <= p <= all[i + n - 1]
    ensures p in all[i..i + n] <==> p in all
  {
    if p in all {
      var k :| 0 <= k < |all| && all[k] == p;
      assert all[i..i + n][k - i] == p;
    }
  }

  /** Where a letter or digit stands among the kept characters, against the piece that is the repair. */
  lemma LetterBeside(text: string, s: string, repaired: string, rule: Rule, all: seq<nat>, i: nat, p: nat)
    requires ReadsAt(text, s, rule, all) && IsCut(text, repaired, rule, i)
    requires p < |s| && IsAlphanumeric(s[p])
    ensures p >= all[i]
    ensures p > all[i + |repaired| - 1] ==>
              |repaired| + |KeptBetween(s, rule, all[i + |repaired| - 1], p)| >= 64
  {
    assert KeptAt(s, rule, p);
    var k :| 0 <= k < |all| && all[k] == p;
    assert text[k] == s[p];
    var last := i + |repaired| - 1;
    if k > last {
      KeptBetweenCount(text, s, rule, all, last, k);
    }
  }

  lemma CutPassesNothingOver(text: string, s: string, repaired: string, rule: Rule, all: seq<nat>, i: nat)
    requires ReadsAt(text, s, rule, all) && IsCut(text, repaired, rule, i)
    ensures var n := |repaired|;
            forall p :: all[i] <= p <= all[i + n - 1] ==> (p in all[i..i + n] <==> KeptAt(s, rule, p))
  {
    var n := |repaired|;
    forall p | all[i] <= p <= all[i + n - 1] ensures p in all[i..i + n] <==> KeptAt(s, rule, p) {
      InAPiece(all, i, n, p);
    }
  }

  lemma CutReads(text: string, s: string, repaired: string, rule: Rule, all: seq<nat>, i: nat, pos: seq<nat>)
    requires ReadsAt(text, s, rule, all) && IsCut(text, repaired, rule, i) && pos == all[i..i + |repaired|]
    ensures Reading(s, repaired, rule, pos)
  {
    var last := i + |repaired| - 1;
    assert pos[0] == all[i] && pos[|pos| - 1] == all[last];
    CutPassesNothingOver(text, s, repaired, rule, all, i);
    forall p | 0 <= p < |s| && IsAlphanumeric(s[p])
      ensures p >= all[i]
      ensures p > all[last] ==> |repaired| + |KeptBetween(s, rule, all[last], p)| >= 64
    {
      LetterBeside(text, s, repaired, rule, all, i, p);
    }
  }

  lemma RepairReads(lowered: string, rule: Rule) returns (pos: seq<nat>)
    requires Repair(lowered, rule).Some?
    ensures Reading(lowered, Repair(lowered, rule).value, rule, pos)
  {
    var text, repaired := Squeeze(lowered, rule), Repair(lowered, rule).value;
    var all := SqueezeReads(lowered, rule);
    var i := RepairCuts(lowered, rule);
    pos := all[i..i + |repaired|];
    CutReads(text, lowered, repaired, rule, all, i, pos);
  }

  lemma BeforeALetter(s: string, rule: Rule, p: nat)
    requires p + 1 < |s| && IsAlphanumeric(s[p + 1])
    ensures KeptAt(s, rule, p)
  {
  }

  /** Letters and digits that are neighbours in the repair are neighbours in the text: nothing is glued together. */
  lemma NothingIsGlued(lowered: string, repaired: string, rule: Rule, pos: seq<nat>, k: nat)
    requires Reading(lowered, repaired, rule, pos) && k + 1 < |repaired|
    requires IsAlphanumeric(repaired[k]) && IsAlphanumeric(repaired[k + 1])
    ensures pos[k + 1] == pos[k] + 1
  {
    var before := pos[k + 1] - 1;
    assert pos[k] <= before && pos[0] <= pos[k] && pos[k + 1] <= pos[|pos| - 1];
    BeforeALetter(lowered, rule, before);
    var j :| 0 <= j < |pos| && pos[j] == before;
    assert j <= k;
  }

  // ------------------------------------------------------------ what a reader sees

  /** The letters and digits of a text, in order. */
  function Letters(s: string): string {
    if s == "" then "" else (if IsAlphanumeric(s[0]) then [s[0]] else "") + Letters(s[1..])
  }

  lemma LettersCons(c: char, s: string)
    ensures Letters([c] + s) == (if IsAlphanumeric(c) then [c] else "") + Letters(s)
  {
    assert ([c] + s)[1..] == s;
  }

  lemma JoinsInOrder(x: string, y: string, z: string)
    ensures x + (y + z) == (x + y) + z
  {
  }

  lemma {:induction false} LettersJoin(a: string, b: string)
    ensures Letters(a + b) == Letters(a) + Letters(b)
  {
    if a == "" {
      assert a + b == b;
    } else {
      LettersJoin(a[1..], b);
      assert a == [a[0]] + a[1..];
      JoinsInOrder([a[0]], a[1..], b);
      LettersCons(a[0], a[1..] + b);
      JoinsInOrder(if IsAlphanumeric(a[0]) then [a[0]] else "", Letters(a[1..]), Letters(b));
    }
  }

  lemma {:induction false} NoLetters(s: string)
    requires forall k :: 0 <= k < |s| ==> !IsAlphanumeric(s[k])
    ensures Letters(s) == ""
  {
    if s != "" {
      NoLetters(s[1..]);
    }
  }

  lemma {:induction false} SqueezeKeepsLetters(s: string, rule: Rule)
    ensures Letters(Squeeze(s, rule)) == Letters(s)
  {
    if s != "" {
      SqueezeKeepsLetters(s[1..], rule);
      assert ([Image(s[0], rule)] + Squeeze(s[1..], rule))[1..] == Squeeze(s[1..], rule);
    }
  }

  /** The letters and digits of the squeezed text are those of the repair and of what is cut off behind it. */
  lemma LettersOfCut(text: string, repaired: string, rule: Rule, i: nat)
    requires IsCut(text, repaired, rule, i)
    ensures Letters(text) == Letters(repaired) + Letters(text[i + |repaired|..])
  {
    var front, back := text[..i], text[i + |repaired|..];
    assert text == front + (repaired + back);
    LettersJoin(front, repaired + back);
    LettersJoin(repaired, back);
    NoLetters(front);
  }

  /**
   * The letters and digits of the repair are those of the lower-cased text, in order, from the first on; all of them
   * when the squeezed text is not longer than 64 characters.
   */
  lemma LettersAreKept(lowered: string, rule: Rule)
    requires Repair(lowered, rule).Some?
    ensures Letters(Repair(lowered, rule).value) <= Letters(lowered)
    ensures |Squeeze(lowered, rule)| <= 64 ==> Letters(Repair(lowered, rule).value) == Letters(lowered)
  {
    var text, repaired := Squeeze(lowered, rule), Repair(lowered, rule).value;
    var i := RepairCuts(lowered, rule);
    SqueezeKeepsLetters(lowered, rule);
    LettersOfCut(text, repaired, rule, i);
    if |text| <= 64 {
      NoLetters(text[i + |repaired|..]);
    }
  }

  /** A cut skill name has at least 63 characters: at most one hyphen is dropped at the end. */
  lemma CutSkillNamesAreLong(lowered: string)
    requires Repair(lowered, SkillName).Some?
    requires Letters(Repair(lowered, SkillName).value) != Letters(lowered)
    ensures |Repair(lowered, SkillName).value| >= 63
  {
    var text, repaired := Squeeze(lowered, SkillName), Repair(lowered, SkillName).value;
    var i := RepairCuts(lowered, SkillName);
    SqueezeKeepsLetters(lowered, SkillName);
    LettersOfCut(text, repaired, SkillName, i);
    var back := text[i + |repaired|..];
    if |back| <= 1 && |repaired| < 63 {
      NoLetters(back);
    } else if |repaired| < 63 {
      assert IsSeparator(text[i + |repaired|], SkillName) && IsSeparator(text[i + |repaired| + 1], SkillName);
      CollapsedIsSingle(lowered, SkillName);
      CollapsedIsSqueezed(lowered, SkillName);
    }
  }
}
