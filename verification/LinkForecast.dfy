/**
 * The exact conditions: a safe state stays safe without a further request, and one that is not can come to two usable
 * links, or to a fourth link in an hour.
 */
module LinkForecast {
  import opened Wrappers
  import opened RequestStore
  import opened LinkProtocol
  import opened LinkBounds

  // ------------------------------------------------------------ what an unsafe state comes to

  lemma Joined(s: State, first: seq<Event>, second: seq<Event>, emailHash: Digest)
    requires NoNewRequest(first, emailHash) && NoNewRequest(second, emailHash)
    ensures NoNewRequest(first + second, emailHash) && Run(s, first + second) == Run(Run(s, first), second)
  {
    RunSplit(s, first, second);
  }

  function Longest(rows: seq<Row>): nat {
    if rows == [] then 0
    else
      var rest, row := Longest(rows[1..]), rows[0];
      if row.tokenHash.Some? && row.tokenHash.value.Sha256? && |row.tokenHash.value.text| > rest
      then |row.tokenHash.value.text| else rest
  }

  lemma {:induction false} LongestBounds(rows: seq<Row>)
    ensures forall row :: row in rows && row.tokenHash.Some? && row.tokenHash.value.Sha256? ==>
              |row.tokenHash.value.text| <= Longest(rows)
  {
    if rows != [] {
      LongestBounds(rows[1..]);
      assert forall row :: row in rows <==> row == rows[0] || row in rows[1..];
    }
  }

  /** There is always a token no row has. */
  lemma FreshToken(rows: seq<Row>) returns (token: string)
    ensures !TokenTaken(rows, Some(Sha256(token)))
  {
    LongestBounds(rows);
    token := seq(Longest(rows) + 1, _ => 'x');
  }

  /** The steps that bring a call that can still insert a link to the insertion. */
  function StepsToInsert(s: State, i: nat): seq<Event>
    requires i < |s.issues|
  {
    match s.issues[i].stage
    case Counting => [CountStep(i), LookUpStep(i, Some("u")), RevokeStep(i)]
    case LookingUp => [LookUpStep(i, Some("u")), RevokeStep(i)]
    case Revoking(_) => [RevokeStep(i)]
    case _ => []
  }

  /** The same links, and the call at its insertion; the other calls where they were. */
  ghost predicate BroughtTo(s: State, t: State, i: nat) {
    && t.clock == s.clock && SameLinks(s.rows, t.rows)
    && |t.issues| == |s.issues| && i < |s.issues| && t.issues[i].stage.Inserting?
    && t.issues[i].emailHash == s.issues[i].emailHash
    && forall j :: 0 <= j < |s.issues| && j != i ==> t.issues[j] == s.issues[j]
  }

  lemma RunOne(s: State, e: Event)
    ensures Run(s, [e]) == Step(s, e)
  {
    assert [e][1..] == [];
  }

  lemma RunTwo(s: State, e: Event, f: Event)
    ensures Run(s, [e, f]) == Step(Step(s, e), f)
  {
    RunSplit(s, [e], [f]);
    RunOne(s, e);
    RunOne(Step(s, e), f);
    assert [e] + [f] == [e, f];
  }

  lemma RunThree(s: State, e: Event, f: Event, g: Event)
    ensures Run(s, [e, f, g]) == Step(Step(Step(s, e), f), g)
  {
    RunSplit(s, [e], [f, g]);
    RunOne(s, e);
    RunTwo(Step(s, e), f, g);
    assert [e] + [f, g] == [e, f, g];
  }

  lemma BringsToInsert(s: State, i: nat, emailHash: Digest)
    requires i in Viables(s, emailHash)
    ensures NoNewRequest(StepsToInsert(s, i), emailHash) && BroughtTo(s, Run(s, StepsToInsert(s, i)), i)
  {
    match s.issues[i].stage
    case Counting => RunThree(s, CountStep(i), LookUpStep(i, Some("u")), RevokeStep(i));
    case LookingUp => RunTwo(s, LookUpStep(i, Some("u")), RevokeStep(i));
    case Revoking(_) => RunOne(s, RevokeStep(i));
    case Inserting(_) =>
  }

  lemma BroughtKeepsViables(s: State, t: State, i: nat, emailHash: Digest)
    requires BroughtTo(s, t, i) && i in Viables(s, emailHash)
    ensures Viables(t, emailHash) == Viables(s, emailHash)
    ensures Recent(t, emailHash) == Recent(s, emailHash)
  {
    CountSame(s.rows, t.rows, emailHash, s.clock - HOUR);
    forall j: nat | j < |s.issues| ensures Viable(t.rows, t.issues[j], emailHash) <==>
      Viable(s.rows, s.issues[j], emailHash) {
      CountSame(s.rows, t.rows, emailHash, s.issues[j].now - HOUR);
    }
  }

  /** All of these calls are about to insert. */
  ghost predicate AllInserting(s: State, calls: set<nat>, emailHash: Digest) {
    forall i :: i in calls ==> i < |s.issues| && s.issues[i].stage.Inserting? && s.issues[i].emailHash == emailHash
  }

  /** Every call that can still insert can be brought to its insertion before any of them inserts. */
  lemma {:induction false} AllBrought(s: State, todo: set<nat>, emailHash: Digest) returns (events: seq<Event>)
    requires todo <= Viables(s, emailHash) && AllInserting(s, Viables(s, emailHash) - todo, emailHash)
    ensures NoNewRequest(events, emailHash)
    ensures var t := Run(s, events);
            && t.clock == s.clock && Viables(t, emailHash) == Viables(s, emailHash)
            && Recent(t, emailHash) == Recent(s, emailHash)
            && AllInserting(t, Viables(t, emailHash), emailHash)
    decreases |todo|
  {
    if todo == {} {
      return [];
    }
    var i :| i in todo;
    var first := StepsToInsert(s, i);
    BringsToInsert(s, i, emailHash);
    var mid := Run(s, first);
    BroughtKeepsViables(s, mid, i, emailHash);
    var rest := AllBrought(mid, todo - {i}, emailHash);
    Joined(s, first, rest, emailHash);
    events := first + rest;
  }

  /** Calls about to insert can all insert, within one instant. */
  lemma {:induction false} AllInsert(s: State, calls: set<nat>, emailHash: Digest) returns (events: seq<Event>)
    requires AllInserting(s, calls, emailHash)
    ensures NoNewRequest(events, emailHash) && Run(s, events).clock == s.clock
    ensures Recent(Run(s, events), emailHash) == Recent(s, emailHash) + |calls|
    decreases |calls|
  {
    if calls == {} {
      return [];
    }
    var i :| i in calls;
    var token := FreshToken(s.rows);
    var e := InsertStep(i, token, 0);
    var mid := Step(s, e);
    CountAppend(s.rows, NewLink(s, i, token, 0), emailHash, s.clock - HOUR);
    var rest := AllInsert(mid, calls - {i}, emailHash);
    RunOne(s, e);
    Joined(s, [e], rest, emailHash);
    events := [e] + rest;
  }

  lemma RecentIsAnHour(s: State, emailHash: Digest)
    requires Timely(s)
    ensures HoursHold(s.rows, emailHash) ==> Recent(s, emailHash) <= MAX_REQUESTS_PER_HOUR
  {
    WithinIsSince(s.rows, emailHash, s.clock - HOUR, s.clock);
    assert InHour(s.rows, emailHash, s.clock - HOUR) == Recent(s, emailHash);
  }

  /** A state that is not safe for the hours can come to a fourth link in one. */
  lemma HoursCanBreak(s: State, emailHash: Digest) returns (events: seq<Event>)
    requires Timely(s) && !HourSafe(s, emailHash)
    ensures NoNewRequest(events, emailHash) && !HoursHold(Run(s, events).rows, emailHash)
  {
    if !HoursHold(s.rows, emailHash) {
      return [];
    }
    var first := AllBrought(s, Viables(s, emailHash), emailHash);
    var mid := Run(s, first);
    var second := AllInsert(mid, Viables(mid, emailHash), emailHash);
    Joined(s, first, second, emailHash);
    events := first + second;
    RunTimely(s, events);
    RecentIsAnHour(Run(s, events), emailHash);
  }

  lemma InsertFresh(s: State, i: nat, emailHash: Digest) returns (e: Event)
    requires i < |s.issues| && s.issues[i].stage.Inserting? && s.issues[i].emailHash == emailHash
    ensures e.InsertStep? && Step(s, e).clock == s.clock && |Step(s, e).issues| == |s.issues|
    ensures |Step(s, e).rows| == |s.rows| + 1 && Step(s, e).rows[..|s.rows|] == s.rows
    ensures PendingFor(Step(s, e).rows[|s.rows|], emailHash)
    ensures forall j :: 0 <= j < |s.issues| && j != i ==> Step(s, e).issues[j] == s.issues[j]
  {
    var token := FreshToken(s.rows);
    e := InsertStep(i, token, 0);
  }

  lemma TwoPending(rows: seq<Row>, emailHash: Digest, j: nat, k: nat)
    requires j < k < |rows| && PendingFor(rows[j], emailHash) && PendingFor(rows[k], emailHash)
    ensures !AtMostOnePending(rows, emailHash)
  {
  }

  /** Beside a pending row an insertion leaves two. */
  lemma InsertBesidePending(s: State, i: nat, k: nat, emailHash: Digest) returns (e: Event)
    requires i < |s.issues| && s.issues[i].stage.Inserting? && s.issues[i].emailHash == emailHash
    requires k < |s.rows| && PendingFor(s.rows[k], emailHash)
    ensures e.InsertStep? && !AtMostOnePending(Step(s, e).rows, emailHash)
  {
    e := InsertFresh(s, i, emailHash);
    assert Step(s, e).rows[k] == Step(s, e).rows[..|s.rows|][k];
    TwoPending(Step(s, e).rows, emailHash, k, |s.rows|);
  }

  /** Two calls that can still insert can do so side by side. */
  lemma TwoViablesInsert(s: State, i: nat, j: nat, emailHash: Digest) returns (events: seq<Event>)
    requires i in Viables(s, emailHash) && j in Viables(s, emailHash) && i != j
    ensures NoNewRequest(events, emailHash) && !AtMostOnePending(Run(s, events).rows, emailHash)
  {
    BringsToInsert(s, i, emailHash);
    var s1 := Run(s, StepsToInsert(s, i));
    BroughtKeepsViables(s, s1, i, emailHash);
    BringsToInsert(s1, j, emailHash);
    var s2 := Run(s1, StepsToInsert(s1, j));
    var e := InsertFresh(s2, i, emailHash);
    var s3 := Step(s2, e);
    var f := InsertBesidePending(s3, j, |s2.rows|, emailHash);
    RunTwo(s2, e, f);
    Joined(s, StepsToInsert(s, i), StepsToInsert(s1, j), emailHash);
    Joined(s, StepsToInsert(s, i) + StepsToInsert(s1, j), [e, f], emailHash);
    events := StepsToInsert(s, i) + StepsToInsert(s1, j) + [e, f];
  }

  /** A state that is not safe for the usable link can come to two. */
  lemma PendingCanBreak(s: State, emailHash: Digest) returns (events: seq<Event>)
    requires !PendingSafe(s, emailHash)
    ensures NoNewRequest(events, emailHash) && !AtMostOnePending(Run(s, events).rows, emailHash)
  {
    if !AtMostOnePending(s.rows, emailHash) {
      return [];
    }
    if i, j :| i in Viables(s, emailHash) && j in Viables(s, emailHash) && i != j {
      events := TwoViablesInsert(s, i, j, emailHash);
      return;
    }
    var i :| i in Viables(s, emailHash) && s.issues[i].stage.Inserting? && !NonePending(s.rows, emailHash);
    var k :| 0 <= k < |s.rows| && PendingFor(s.rows[k], emailHash);
    var e := InsertBesidePending(s, i, k, emailHash);
    RunOne(s, e);
    events := [e];
  }

  // ------------------------------------------------------------ main results

  /**
   * Three links an hour, exactly. From a state, with no further request for the address, every closed hour holds at
   * most three of its links in every run if and only if it does now and the links of the hour that ends now, together
   * with the calls that can still insert one, are at most three.
   */
  lemma HourForecast(s: State, emailHash: Digest)
    requires Timely(s)
    ensures (forall events :: NoNewRequest(events, emailHash) ==> HoursHold(Run(s, events).rows, emailHash)) <==>
              HourSafe(s, emailHash)
  {
    if HourSafe(s, emailHash) {
      forall events | NoNewRequest(events, emailHash) ensures HoursHold(Run(s, events).rows, emailHash) {
        RunStaysSafe(s, events, emailHash);
      }
    } else {
      var events := HoursCanBreak(s, emailHash);
    }
  }

  /**
   * One usable link, exactly. From a state, with no further request for the address, it never has two usable links in
   * any run if and only if it has at most one now, at most one call can still insert a link, and when that one is about
   * to, no link is usable.
   */
  lemma PendingForecast(s: State, emailHash: Digest)
    ensures (forall events :: NoNewRequest(events, emailHash) ==> AtMostOnePending(Run(s, events).rows, emailHash)) <==>
            PendingSafe(s, emailHash)
  {
    if PendingSafe(s, emailHash) {
      forall events | NoNewRequest(events, emailHash) ensures AtMostOnePending(Run(s, events).rows, emailHash) {
        RunStaysSafe(s, events, emailHash);
      }
    } else {
      var events := PendingCanBreak(s, emailHash);
    }
  }
}
