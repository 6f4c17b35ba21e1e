/** Wrappers shared by every module. */
module Wrappers {
  datatype Option<+T> = None | Some(value: T)

  /** No two the same. */
  predicate Distinct<T(==)>(s: seq<T>) {
    forall i, j :: 0 <= i < j < |s| ==> s[i] != s[j]
  }
}

/** The string operations of the JavaScript runtime that the path and skill code is written in. */
module Text {

  predicate StartsWith(s: string, prefix: string) {
    |prefix| <= |s| && s[..|prefix|] == prefix
  }

  /** `split` on single separator characters: "" gives one empty piece, adjacent separators give empty pieces. */
  function SplitOn(s: string, seps: set<char>): (pieces: seq<string>)
    ensures |pieces| >= 1
  {
    if s == "" then [""]
    else
      var rest := SplitOn(s[1..], seps);
      if s[0] in seps then [""] + rest else [[s[0]] + rest[0]] + rest[1..]
  }

  /** No piece holds a separator. */
  lemma {:induction false} PiecesHoldNoSeparator(s: string, seps: set<char>)
    ensures forall i :: 0 <= i < |SplitOn(s, seps)| ==> forall c :: c in SplitOn(s, seps)[i] ==> c !in seps
  {
    if s != "" {
      PiecesHoldNoSeparator(s[1..], seps);
    }
  }

  /** `join` with a one-character separator. */
  function JoinWith(pieces: seq<string>, sep: char): string {
    if pieces == [] then ""
    else if |pieces| == 1 then pieces[0]
    else pieces[0] + [sep] + JoinWith(pieces[1..], sep)
  }

  /** Splitting a prefix that ends at a separator, or at the end of the text. */
  lemma {:induction false} SplitAtSeparator(a: string, s: string, seps: set<char>)
    requires forall c :: c in a ==> c !in seps
    requires s == "" || s[0] in seps
    ensures SplitOn(a + s, seps) == [a] + SplitOn(s, seps)[1..]
  {
    if a == "" {
      assert a + s == s;
    } else {
      SplitAtSeparator(a[1..], s, seps);
      assert (a + s)[1..] == a[1..] + s;
      assert [a[0]] + a[1..] == a;
    }
  }

  /** The first piece is the text up to the first separator. */
  lemma {:induction false} FirstPiece(s: string, sep: char)
    ensures var a := SplitOn(s, {sep})[0];
            |a| <= |s| && s[..|a|] == a && (|a| == |s| || s[|a|] == sep)
  {
    if s != "" && s[0] != sep {
      FirstPiece(s[1..], sep);
      var a := SplitOn(s, {sep})[0];
      assert a == [s[0]] + SplitOn(s[1..], {sep})[0];
    }
  }

  /** `split` undoes `join` when no piece holds a separator. */
  lemma {:induction false} SplitJoinIn(pieces: seq<string>, sep: char, seps: set<char>)
    requires pieces != [] && sep in seps
    requires forall i :: 0 <= i < |pieces| ==> forall c :: c in pieces[i] ==> c !in seps
    ensures SplitOn(JoinWith(pieces, sep), seps) == pieces
  {
    if |pieces| == 1 {
      SplitAtSeparator(pieces[0], "", seps);
      assert pieces[0] + "" == pieces[0];
    } else {
      var rest := [sep] + JoinWith(pieces[1..], sep);
      SplitAtSeparator(pieces[0], rest, seps);
      SplitJoinIn(pieces[1..], sep, seps);
      assert rest[1..] == JoinWith(pieces[1..], sep);
      assert pieces[0] + [sep] + JoinWith(pieces[1..], sep) == pieces[0] + rest;
    }
  }

  lemma SplitJoin(pieces: seq<string>, sep: char)
    requires pieces != []
    requires forall i :: 0 <= i < |pieces| ==> sep !in pieces[i]
    ensures SplitOn(JoinWith(pieces, sep), {sep}) == pieces
  {
    SplitJoinIn(pieces, sep, {sep});
  }

  lemma SplitCons(c: char, s: string, seps: set<char>)
    ensures SplitOn([c] + s, seps) ==
            if c in seps then [""] + SplitOn(s, seps) else [[c] + SplitOn(s, seps)[0]] + SplitOn(s, seps)[1..]
  {
    assert ([c] + s)[1..] == s;
  }

  /** Prepending a character, or an empty piece, to the first of two runs of pieces. */
  lemma PrependPiece(c: char, left: seq<string>, right: seq<string>)
    requires left != []
    ensures [""] + (left + right) == ([""] + left) + right
    ensures [[c] + (left + right)[0]] + (left + right)[1..] == ([[c] + left[0]] + left[1..]) + right
  {
    assert (left + right)[1..] == left[1..] + right;
  }

  lemma Uncons(a: string, sep: char, b: string)
    requires a != ""
    ensures a + [sep] + b == [a[0]] + (a[1..] + [sep] + b)
  {
  }

  /** Splitting a concatenation that has a separator in the middle splits both sides. */
  lemma {:induction false} SplitAround(a: string, sep: char, b: string)
    ensures SplitOn(a + [sep] + b, {sep}) == SplitOn(a, {sep}) + SplitOn(b, {sep})
  {
    if a == "" {
      SplitCons(sep, b, {sep});
      assert a + [sep] + b == [sep] + b;
    } else {
      SplitAround(a[1..], sep, b);
      Uncons(a, sep, b);
      SplitCons(a[0], a[1..] + [sep] + b, {sep});
      PrependPiece(a[0], SplitOn(a[1..], {sep}), SplitOn(b, {sep}));
    }
  }

  /** A separator the text does not hold changes nothing. */
  lemma {:induction false} SplitIgnoresAbsent(s: string, seps: set<char>, extra: char)
    requires extra !in s
    ensures SplitOn(s, seps + {extra}) == SplitOn(s, seps)
  {
    if s != "" {
      SplitIgnoresAbsent(s[1..], seps, extra);
    }
  }

  /** The white space and line terminators of ECMAScript: what `trim` removes and `\s` matches. */
  const WHITE_SPACE: set<char> := {
    '\t', '\n', '\U{0B}', '\U{0C}', '\r', ' ', '\U{A0}', '\U{1680}', '\U{2000}', '\U{2001}', '\U{2002}', '\U{2003}',
    '\U{2004}', '\U{2005}', '\U{2006}', '\U{2007}', '\U{2008}', '\U{2009}', '\U{200A}', '\U{2028}', '\U{2029}',
    '\U{202F}', '\U{205F}', '\U{3000}', '\U{FEFF}'
  }

  predicate IsSpace(c: char) {
    c in WHITE_SPACE
  }

  function TrimStart(s: string): string {
    if s != "" && IsSpace(s[0]) then TrimStart(s[1..]) else s
  }

  function TrimEnd(s: string): string {
    if s != "" && IsSpace(s[|s| - 1]) then TrimEnd(s[..|s| - 1]) else s
  }

  /** `trim`. */
  function Trim(s: string): string {
    TrimEnd(TrimStart(s))
  }

  function LowerChar(c: char): char {
    if 'A' <= c <= 'Z' then c - 'A' + 'a' else c
  }

  /** `toLowerCase`, over ASCII. */
  function Lower(s: string): (l: string)
    ensures |l| == |s| && forall i :: 0 <= i < |s| ==> l[i] == LowerChar(s[i])
  {
    seq(|s|, i requires 0 <= i < |s| => LowerChar(s[i]))
  }
}
