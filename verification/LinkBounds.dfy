/**
 * The two bounds on the links of an address: at most one that can be used, and at most three in any hour. The states in
 * which each is safe, which every step but a new request for the address keeps.
 */
module LinkBounds {
  import opened Wrappers
  import opened RequestStore
  import opened LinkProtocol

  // ------------------------------------------------------------ counting links

  predicate SameLinks(before: seq<Row>, after: seq<Row>) {
    |before| == |after| && forall k :: 0 <= k < |before| ==> SameLink(before[k], after[k])
  }

  /** Counts look only at what never changes in a row. */
  lemma {:induction false} CountSame(before: seq<Row>, after: seq<Row>, emailHash: Digest, since: int)
    requires |before| == |after| && forall k :: 0 <= k < |before| ==> SameLink(before[k], after[k])
    ensures CountIssued(before, emailHash, since) == CountIssued(after, emailHash, since)
  {
    if before != [] {
      CountSame(before[..|before| - 1], after[..|after| - 1], emailHash, since);
    }
  }

  lemma {:induction false} WithinSame(before: seq<Row>, after: seq<Row>, emailHash: Digest, from: int, to: int)
    requires |before| == |after| && forall k :: 0 <= k < |before| ==> SameLink(before[k], after[k])
    ensures CountWithin(before, emailHash, from, to) == CountWithin(after, emailHash, from, to)
  {
    if before != [] {
      WithinSame(before[..|before| - 1], after[..|after| - 1], emailHash, from, to);
    }
  }

  lemma {:induction false} CountLater(rows: seq<Row>, emailHash: Digest, since: int, later: int)
    requires since <= later
    ensures CountIssued(rows, emailHash, later) <= CountIssued(rows, emailHash, since)
  {
    if rows != [] {
      CountLater(rows[..|rows| - 1], emailHash, since, later);
    }
  }

  lemma CountAppend(rows: seq<Row>, row: Row, emailHash: Digest, since: int)
    ensures CountIssued(rows + [row], emailHash, since) ==
            CountIssued(rows, emailHash, since) + if IssuedSince(row, emailHash, since) then 1 else 0
  {
    assert (rows + [row])[..|rows|] == rows;
  }

  lemma WithinAppend(rows: seq<Row>, row: Row, emailHash: Digest, from: int, to: int)
    ensures CountWithin(rows + [row], emailHash, from, to) ==
            CountWithin(rows, emailHash, from, to)
            + if IssuedSince(row, emailHash, from) && row.createdAt <= to then 1 else 0
  {
    assert (rows + [row])[..|rows|] == rows;
  }

  lemma {:induction false} WithinIsSince(rows: seq<Row>, emailHash: Digest, from: int, to: int)
    ensures CountWithin(rows, emailHash, from, to) <= CountIssued(rows, emailHash, from)
    ensures (forall k :: 0 <= k < |rows| ==> rows[k].createdAt <= to) ==>
              CountWithin(rows, emailHash, from, to) == CountIssued(rows, emailHash, from)
  {
    if rows != [] {
      WithinIsSince(rows[..|rows| - 1], emailHash, from, to);
    }
  }

  /** Links of the address in the hour that ends now. */
  function Recent(s: State, emailHash: Digest): nat {
    CountIssued(s.rows, emailHash, s.clock - HOUR)
  }

  /** Links of the address in the closed hour that begins here. */
  function InHour(rows: seq<Row>, emailHash: Digest, from: int): nat {
    CountWithin(rows, emailHash, from, from + HOUR)
  }

  /** Every closed hour holds at most three of the address's links. */
  ghost predicate HoursHold(rows: seq<Row>, emailHash: Digest) {
    forall from: int :: InHour(rows, emailHash, from) <= MAX_REQUESTS_PER_HOUR
  }

  // ------------------------------------------------------------ the calls that can still insert a link

  /** The call can still insert a link: it has passed the count, or would pass it now. */
  predicate Viable(rows: seq<Row>, issue: Issue, emailHash: Digest) {
    && issue.emailHash == emailHash
    && match issue.stage
       case Counting => CountIssued(rows, emailHash, issue.now - HOUR) < MAX_REQUESTS_PER_HOUR
       case LookingUp => true
       case Revoking(_) => true
       case Inserting(_) => true
       case _ => false
  }

  function Viables(s: State, emailHash: Digest): set<nat> {
    set i: nat | i < |s.issues| && Viable(s.rows, s.issues[i], emailHash)
  }

  /** Clocks only go forward: nothing is dated later than now. */
  ghost predicate Timely(s: State) {
    && (forall k :: 0 <= k < |s.rows| ==> s.rows[k].createdAt <= s.clock)
    && (forall i :: 0 <= i < |s.issues| ==> s.issues[i].now <= s.clock)
  }

  lemma StepTimely(s: State, e: Event)
    requires Timely(s)
    ensures Timely(Step(s, e))
  {
    StepGrows(s, e);
    forall i: nat | i < |s.issues| ensures Step(s, e).issues[i].now <= Step(s, e).clock {
      StepMovesOneCall(s, e, i);
    }
  }

  lemma {:induction false} RunTimely(s: State, events: seq<Event>)
    requires Timely(s)
    ensures Timely(Run(s, events))
    decreases |events|
  {
    if events != [] {
      StepTimely(s, events[0]);
      RunTimely(Step(s, events[0]), events[1..]);
    }
  }

  lemma SubsetSize(a: set<nat>, b: set<nat>)
    requires a <= b
    ensures |a| <= |b|
  {
    if a != {} {
      var x :| x in a;
      SubsetSize(a - {x}, b - {x});
    }
  }

  /** No step makes a call viable but its start. */
  lemma ViablesShrink(s: State, e: Event, emailHash: Digest)
    requires e != StartIssue(emailHash)
    ensures Viables(Step(s, e), emailHash) <= Viables(s, emailHash)
  {
    forall i | i in Viables(Step(s, e), emailHash) ensures i in Viables(s, emailHash) {
      StepKeepsUnviable(s, e, emailHash, i);
    }
  }

  /** Links are never forgotten. */
  lemma CountGrows(s: State, e: Event, emailHash: Digest, since: int)
    ensures CountIssued(s.rows, emailHash, since) <= CountIssued(Step(s, e).rows, emailHash, since)
  {
    StepGrows(s, e);
    var rows := Step(s, e).rows;
    CountSame(s.rows, rows[..|s.rows|], emailHash, since);
    if |rows| > |s.rows| {
      assert rows == rows[..|s.rows|] + [rows[|s.rows|]];
      CountAppend(rows[..|s.rows|], rows[|s.rows|], emailHash, since);
    } else {
      assert rows[..|s.rows|] == rows;
    }
  }

  lemma StepKeepsUnviable(s: State, e: Event, emailHash: Digest, i: nat)
    requires e != StartIssue(emailHash) && i < |Step(s, e).issues|
    requires Viable(Step(s, e).rows, Step(s, e).issues[i], emailHash)
    ensures i < |s.issues| && Viable(s.rows, s.issues[i], emailHash)
  {
    if i < |s.issues| {
      CountGrows(s, e, emailHash, s.issues[i].now - HOUR);
      StepMovesOneCall(s, e, i);
    }
  }

  // ------------------------------------------------------------ three links an hour

  /** The hours hold, and go on holding when every call that can still insert a link does so at once. */
  ghost predicate HourSafe(s: State, emailHash: Digest) {
    HoursHold(s.rows, emailHash) && Recent(s, emailHash) + |Viables(s, emailHash)| <= MAX_REQUESTS_PER_HOUR
  }

  /**
   * The rows after a step that inserts no link for the address: the same links, and perhaps a row that is none of its.
   */
  lemma QuietRows(s: State, e: Event, emailHash: Digest)
    requires Quiet(s, e, emailHash)
    ensures |s.rows| <= |Step(s, e).rows| <= |s.rows| + 1 && SameLinks(s.rows, Step(s, e).rows[..|s.rows|])
    ensures |Step(s, e).rows| > |s.rows| ==>
              var row := Step(s, e).rows[|s.rows|]; row.emailHash != emailHash || row.source == InProduct
  {
    StepGrows(s, e);
  }

  lemma QuietCounts(before: seq<Row>, after: seq<Row>, emailHash: Digest, since: int, from: int)
    requires |before| <= |after| <= |before| + 1 && SameLinks(before, after[..|before|])
    requires |after| > |before| ==> after[|before|].emailHash != emailHash || after[|before|].source == InProduct
    ensures CountIssued(after, emailHash, since) == CountIssued(before, emailHash, since)
    ensures InHour(after, emailHash, from) == InHour(before, emailHash, from)
  {
    var front := after[..|before|];
    CountSame(before, front, emailHash, since);
    WithinSame(before, front, emailHash, from, from + HOUR);
    if |after| > |before| {
      assert after == front + [after[|before|]];
      CountAppend(front, after[|before|], emailHash, since);
      WithinAppend(front, after[|before|], emailHash, from, from + HOUR);
    } else {
      assert after == front;
    }
  }

  lemma QuietStepHours(s: State, e: Event, emailHash: Digest)
    requires Quiet(s, e, emailHash)
    ensures HoursHold(s.rows, emailHash) ==> HoursHold(Step(s, e).rows, emailHash)
    ensures Recent(Step(s, e), emailHash) <= Recent(s, emailHash)
  {
    var rows, since := Step(s, e).rows, Step(s, e).clock - HOUR;
    QuietRows(s, e, emailHash);
    QuietCounts(s.rows, rows, emailHash, since, 0);
    CountLater(s.rows, emailHash, s.clock - HOUR, since);
    forall from: int ensures InHour(rows, emailHash, from) == InHour(s.rows, emailHash, from) {
      QuietCounts(s.rows, rows, emailHash, since, from);
    }
  }

  lemma InsertedHours(rows: seq<Row>, row: Row, emailHash: Digest, now: int)
    requires HoursHold(rows, emailHash) && row.createdAt == now
    requires CountIssued(rows, emailHash, now - HOUR) < MAX_REQUESTS_PER_HOUR
    ensures HoursHold(rows + [row], emailHash)
  {
    forall from: int ensures InHour(rows + [row], emailHash, from) <= MAX_REQUESTS_PER_HOUR {
      assert InHour(rows, emailHash, from) <= MAX_REQUESTS_PER_HOUR;
      WithinAppend(rows, row, emailHash, from, from + HOUR);
      if IssuedSince(row, emailHash, from) && row.createdAt <= from + HOUR {
        WithinIsSince(rows, emailHash, from, from + HOUR);
        CountLater(rows, emailHash, now - HOUR, from);
      }
    }
  }

  lemma InsertKeepsHourSafe(s: State, e: Event, emailHash: Digest)
    requires HourSafe(s, emailHash) && !Quiet(s, e, emailHash)
    ensures HourSafe(Step(s, e), emailHash)
  {
    var t := Step(s, e);
    ViablesShrink(s, e, emailHash);
    assert e.i in Viables(s, emailHash) && e.i !in Viables(t, emailHash);
    SubsetSize(Viables(t, emailHash), Viables(s, emailHash) - {e.i});
    if !TokenTaken(s.rows, Some(Sha256(e.token))) {
      var row := NewLink(s, e.i, e.token, e.ttl);
      InsertedHours(s.rows, row, emailHash, s.clock);
      CountAppend(s.rows, row, emailHash, s.clock - HOUR);
    }
  }

  lemma StepKeepsHourSafe(s: State, e: Event, emailHash: Digest)
    requires HourSafe(s, emailHash) && e != StartIssue(emailHash)
    ensures HourSafe(Step(s, e), emailHash)
  {
    if Quiet(s, e, emailHash) {
      QuietStepHours(s, e, emailHash);
      ViablesShrink(s, e, emailHash);
      SubsetSize(Viables(Step(s, e), emailHash), Viables(s, emailHash));
    } else {
      InsertKeepsHourSafe(s, e, emailHash);
    }
  }

  // ------------------------------------------------------------ one usable link

  /**
   * One usable link at most, and no call left that could add a second: one can still insert, and a pending row it would
   * revoke first.
   */
  ghost predicate PendingSafe(s: State, emailHash: Digest) {
    && AtMostOnePending(s.rows, emailHash)
    && (forall i, j :: i in Viables(s, emailHash) && j in Viables(s, emailHash) ==> i == j)
    && (forall i :: i in Viables(s, emailHash) && s.issues[i].stage.Inserting? ==> NonePending(s.rows, emailHash))
  }

  lemma StepKeepsPendingSafe(s: State, e: Event, emailHash: Digest)
    requires PendingSafe(s, emailHash) && e != StartIssue(emailHash)
    ensures PendingSafe(Step(s, e), emailHash)
  {
    var t := Step(s, e);
    ViablesShrink(s, e, emailHash);
    if Quiet(s, e, emailHash) {
      QuietStepPending(s, e, emailHash);
      forall i | i in Viables(t, emailHash) && t.issues[i].stage.Inserting? ensures NonePending(t.rows, emailHash) {
        InsertingIsClear(s, e, emailHash, i);
      }
    } else {
      assert e.i in Viables(s, emailHash) && e.i !in Viables(t, emailHash);
    }
  }

  lemma InsertingIsClear(s: State, e: Event, emailHash: Digest, i: nat)
    requires PendingSafe(s, emailHash) && Quiet(s, e, emailHash) && i in Viables(s, emailHash)
    requires i < |Step(s, e).issues| && Step(s, e).issues[i].stage.Inserting?
    ensures NonePending(Step(s, e).rows, emailHash)
  {
    QuietStepPending(s, e, emailHash);
    if !s.issues[i].stage.Inserting? {
      assert e == RevokeStep(i);
    }
  }

  // ------------------------------------------------------------ runs without a new request

  predicate NoNewRequest(events: seq<Event>, emailHash: Digest) {
    forall k :: 0 <= k < |events| ==> events[k] != StartIssue(emailHash)
  }

  lemma {:induction false} RunStaysSafe(s: State, events: seq<Event>, emailHash: Digest)
    requires NoNewRequest(events, emailHash)
    ensures HourSafe(s, emailHash) ==> HourSafe(Run(s, events), emailHash)
    ensures PendingSafe(s, emailHash) ==> PendingSafe(Run(s, events), emailHash)
    decreases |events|
  {
    if events != [] {
      if HourSafe(s, emailHash) {
        StepKeepsHourSafe(s, events[0], emailHash);
      }
      if PendingSafe(s, emailHash) {
        StepKeepsPendingSafe(s, events[0], emailHash);
      }
      RunStaysSafe(Step(s, events[0]), events[1..], emailHash);
    }
  }
}
