/** The order JavaScript's `<` gives strings, and sorting by it. */
module Ordering {

  predicate Less(a: string, b: string) {
    b != "" && (a == "" || a[0] < b[0] || (a[0] == b[0] && Less(a[1..], b[1..])))
  }

  lemma {:induction false} LessAsymmetric(a: string, b: string)
    requires Less(a, b)
    ensures !Less(b, a) && a != b
  {
    if a != "" && a[0] == b[0] {
      LessAsymmetric(a[1..], b[1..]);
    }
  }

  lemma {:induction false} LessTotal(a: string, b: string)
    ensures Less(a, b) || Less(b, a) || a == b
  {
    if a != "" && b != "" && a[0] == b[0] {
      LessTotal(a[1..], b[1..]);
      assert a == [a[0]] + a[1..] && b == [b[0]] + b[1..];
    }
  }

  lemma {:induction false} LessTransitive(a: string, b: string, c: string)
    requires Less(a, b) && Less(b, c)
    ensures Less(a, c)
  {
    if a != "" && a[0] == b[0] == c[0] {
      LessTransitive(a[1..], b[1..], c[1..]);
    }
  }

  /** Not after: the relation a sort establishes. */
  predicate AtMost(a: string, b: string) {
    !Less(b, a)
  }

  lemma AtMostTransitive(a: string, b: string, c: string)
    requires AtMost(a, b) && AtMost(b, c)
    ensures AtMost(a, c)
  {
    if Less(c, a) {
      LessTotal(a, b);
      LessTotal(b, c);
      if a == b || b == c {
      } else {
        LessTransitive(a, b, c);
        LessAsymmetric(a, c);
      }
    }
  }

  predicate Sorted<T>(s: seq<T>, key: T -> string) {
    forall i, j :: 0 <= i < j < |s| ==> AtMost(key(s[i]), key(s[j]))
  }

  predicate StrictlySorted<T>(s: seq<T>, key: T -> string) {
    forall i, j :: 0 <= i < j < |s| ==> Less(key(s[i]), key(s[j]))
  }

  /** `sort` by a string key: stable, as the language requires. */
  function SortBy<T(!new)>(s: seq<T>, key: T -> string): (r: seq<T>)
    ensures |r| == |s| && Sorted(r, key)
    ensures forall y :: y in r <==> y in s
  {
    if s == [] then []
    else
      assert forall y :: y in s <==> y == s[0] || y in s[1..];
      Insert(s[0], SortBy(s[1..], key), key)
  }

  function Insert<T(!new)>(x: T, s: seq<T>, key: T -> string): (r: seq<T>)
    requires Sorted(s, key)
    ensures |r| == |s| + 1 && Sorted(r, key)
    ensures forall y :: y in r <==> y == x || y in s
  {
    if s == [] then [x]
    else if AtMost(key(x), key(s[0])) then
      HeadFirst(x, s, key);
      [x] + s
    else
      SortedTail(s, key);
      var rest := Insert(x, s[1..], key);
      HeadStays(x, s, rest, key);
      [s[0]] + rest
  }

  lemma SortedTail<T(!new)>(s: seq<T>, key: T -> string)
    requires s != [] && Sorted(s, key)
    ensures Sorted(s[1..], key)
    ensures forall y :: y in s <==> y == s[0] || y in s[1..]
    ensures forall y :: y in s[1..] ==> AtMost(key(s[0]), key(y))
  {
    assert forall i :: 0 <= i < |s[1..]| ==> s[1..][i] == s[i + 1];
  }

  lemma HeadFirst<T>(x: T, s: seq<T>, key: T -> string)
    requires s != [] && Sorted(s, key) && AtMost(key(x), key(s[0]))
    ensures Sorted([x] + s, key)
  {
    forall j | 0 <= j < |s| ensures AtMost(key(x), key(s[j])) {
      if j > 0 {
        AtMostTransitive(key(x), key(s[0]), key(s[j]));
      }
    }
  }

  lemma HeadStays<T(!new)>(x: T, s: seq<T>, rest: seq<T>, key: T -> string)
    requires s != [] && Sorted(s, key) && !AtMost(key(x), key(s[0]))
    requires Sorted(rest, key) && forall y :: y in rest ==> y == x || y in s[1..]
    ensures Sorted([s[0]] + rest, key)
  {
    LessAsymmetric(key(s[0]), key(x));
    SortedTail(s, key);
    forall j | 0 <= j < |rest| ensures AtMost(key(s[0]), key(rest[j])) {
      assert rest[j] in rest;
    }
  }

  /** Sorting items with distinct keys puts them in strictly increasing order. */
  lemma {:induction false} SortIsStrict<T(!new)>(s: seq<T>, key: T -> string)
    requires forall i, j :: 0 <= i < j < |s| ==> key(s[i]) != key(s[j])
    ensures StrictlySorted(SortBy(s, key), key)
  {
    if s != [] {
      assert forall i :: 0 <= i < |s[1..]| ==> s[1..][i] == s[i + 1];
      SortIsStrict(s[1..], key);
      InsertIsStrict(s[0], SortBy(s[1..], key), key);
    }
  }

  lemma {:induction false} InsertIsStrict<T(!new)>(x: T, s: seq<T>, key: T -> string)
    requires StrictlySorted(s, key) && forall y :: y in s ==> key(y) != key(x)
    ensures Sorted(s, key) && StrictlySorted(Insert(x, s, key), key)
  {
    StrictIsSorted(s, key);
    if s != [] {
      StrictTail(s, key);
      LessTotal(key(x), key(s[0]));
      if AtMost(key(x), key(s[0])) {
        forall y | y in s[1..] ensures Less(key(x), key(y)) {
          LessTransitive(key(x), key(s[0]), key(y));
        }
        StrictCons(s[0], s[1..], key);
        StrictCons(x, s, key);
      } else {
        InsertIsStrict(x, s[1..], key);
        StrictCons(s[0], Insert(x, s[1..], key), key);
      }
    }
  }

  lemma StrictIsSorted<T>(s: seq<T>, key: T -> string)
    requires StrictlySorted(s, key)
    ensures Sorted(s, key)
  {
    forall i, j | 0 <= i < j < |s| ensures AtMost(key(s[i]), key(s[j])) {
      LessAsymmetric(key(s[i]), key(s[j]));
    }
  }

  lemma StrictTail<T(!new)>(s: seq<T>, key: T -> string)
    requires s != [] && StrictlySorted(s, key)
    ensures StrictlySorted(s[1..], key)
    ensures forall y :: y in s <==> y == s[0] || y in s[1..]
    ensures forall y :: y in s[1..] ==> Less(key(s[0]), key(y))
  {
    assert forall i :: 0 <= i < |s[1..]| ==> s[1..][i] == s[i + 1];
  }

  lemma StrictCons<T(!new)>(x: T, s: seq<T>, key: T -> string)
    requires StrictlySorted(s, key) && forall y :: y in s ==> Less(key(x), key(y))
    ensures StrictlySorted([x] + s, key)
  {
    assert forall j :: 0 <= j < |s| ==> s[j] in s;
  }

  // ------------------------------------------------------------ sets of keys

  function Itself(): string -> string { (s: string) => s }

  /** `Object.keys(…).sort()`, for a set of keys. */
  ghost function SortedKeys(keys: set<string>): (r: seq<string>)
    ensures StrictlySorted(r, Itself()) && forall k :: k in r <==> k in keys
  {
    if keys == {} then []
    else
      var k :| k in keys;
      var rest := SortedKeys(keys - {k});
      InsertIsStrict(k, rest, Itself());
      Insert(k, rest, Itself())
  }

  /** Only one strictly increasing list holds given keys. */
  lemma {:induction false} SortedKeysAreUnique(a: seq<string>, b: seq<string>)
    requires StrictlySorted(a, Itself()) && StrictlySorted(b, Itself())
    requires forall k :: k in a <==> k in b
    ensures a == b
  {
    assert a != [] ==> a[0] in b;
    assert b != [] ==> b[0] in a;
    if a != [] {
      SameHead(a, b);
      StrictTail(a, Itself());
      StrictTail(b, Itself());
      SortedKeysAreUnique(a[1..], b[1..]);
      assert a == [a[0]] + a[1..] && b == [b[0]] + b[1..];
    }
  }

  lemma {:induction false} NeverBoth(a: string, b: string)
    ensures !(Less(a, b) && Less(b, a))
  {
    if Less(a, b) {
      LessAsymmetric(a, b);
    }
  }

  lemma SameHead(a: seq<string>, b: seq<string>)
    requires a != [] && b != [] && StrictlySorted(a, Itself()) && StrictlySorted(b, Itself())
    requires forall k :: k in a <==> k in b
    ensures a[0] == b[0] && forall k :: k in a[1..] <==> k in b[1..]
  {
    StrictTail(a, Itself());
    StrictTail(b, Itself());
    assert a[0] in b && b[0] in a;
    NeverBoth(a[0], b[0]);
    NeverBoth(a[0], a[0]);
    forall k ensures k in a[1..] <==> k in b[1..] {
      assert k in a <==> k == a[0] || k in a[1..];
      assert k in b <==> k == b[0] || k in b[1..];
    }
  }
}
