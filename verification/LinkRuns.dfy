/** When a request may start: exactly then the run stays safe for each of the two bounds. */
module LinkRuns {
  import opened Wrappers
  import opened RequestStore
  import opened LinkProtocol
  import opened LinkBounds

  /**
   * From a state safe for the usable link, a new request keeps it safe exactly when it will be rate-limited or no other
   * call can still insert.
   */
  lemma RequestKeepsPendingSafe(s: State, emailHash: Digest)
    requires PendingSafe(s, emailHash)
    ensures PendingSafe(Step(s, StartIssue(emailHash)), emailHash) <==> MayStartForPending(s, emailHash)
  {
    StartViables(s, emailHash);
    var t := Step(s, StartIssue(emailHash));
    assert |s.issues| !in Viables(s, emailHash);
  }

  predicate MayStartForPending(s: State, emailHash: Digest) {
    Recent(s, emailHash) >= MAX_REQUESTS_PER_HOUR || Viables(s, emailHash) == {}
  }

  lemma StartViables(s: State, emailHash: Digest)
    ensures var t := Step(s, StartIssue(emailHash));
            && t.rows == s.rows && t.clock == s.clock
            && (forall i :: 0 <= i < |s.issues| ==> t.issues[i] == s.issues[i])
            && Viables(t, emailHash) ==
               Viables(s, emailHash) + if Recent(s, emailHash) < MAX_REQUESTS_PER_HOUR then {|s.issues|} else {}
  {
  }

  /**
   * From a state safe for the hours, a new request keeps it safe exactly when it will be rate-limited or there is room
   * for one more beside the calls that can still insert.
   */
  lemma RequestKeepsHourSafe(s: State, emailHash: Digest)
    requires HourSafe(s, emailHash)
    ensures HourSafe(Step(s, StartIssue(emailHash)), emailHash) <==> MayStartForHours(s, emailHash)
  {
    StartViables(s, emailHash);
    assert |s.issues| !in Viables(s, emailHash);
  }

  predicate MayStartForHours(s: State, emailHash: Digest) {
    || Recent(s, emailHash) >= MAX_REQUESTS_PER_HOUR
    || Recent(s, emailHash) + |Viables(s, emailHash)| < MAX_REQUESTS_PER_HOUR
  }

  // ------------------------------------------------------------ whole runs

  /** Every request for the address starts in a state where it may. */
  ghost predicate StartsAllowed(s: State, events: seq<Event>, emailHash: Digest, may: State -> bool)
    decreases |events|
  {
    events != [] ==>
      && (events[0] == StartIssue(emailHash) ==> may(s))
      && StartsAllowed(Step(s, events[0]), events[1..], emailHash, may)
  }

  function ForPending(emailHash: Digest): State -> bool { (s: State) => MayStartForPending(s, emailHash) }
  function ForHours(emailHash: Digest): State -> bool { (s: State) => MayStartForHours(s, emailHash) }

  /** The run stays where no two usable links can come without a further request. */
  ghost predicate StaysPendingSafe(s: State, events: seq<Event>, emailHash: Digest)
    decreases |events|
  {
    PendingSafe(s, emailHash) && (events != [] ==> StaysPendingSafe(Step(s, events[0]), events[1..], emailHash))
  }

  ghost predicate StaysHourSafe(s: State, events: seq<Event>, emailHash: Digest)
    decreases |events|
  {
    HourSafe(s, emailHash) && (events != [] ==> StaysHourSafe(Step(s, events[0]), events[1..], emailHash))
  }

  /** A run from a safe state is safe all the way if and only if every request for the address starts where it may. */
  lemma {:induction false} PendingDiscipline(s: State, events: seq<Event>, emailHash: Digest)
    requires PendingSafe(s, emailHash)
    ensures StaysPendingSafe(s, events, emailHash) <==> StartsAllowed(s, events, emailHash, ForPending(emailHash))
    decreases |events|
  {
    if events != [] {
      var next := Step(s, events[0]);
      if events[0] == StartIssue(emailHash) {
        RequestKeepsPendingSafe(s, emailHash);
      } else {
        StepKeepsPendingSafe(s, events[0], emailHash);
      }
      if PendingSafe(next, emailHash) {
        PendingDiscipline(next, events[1..], emailHash);
      }
    }
  }

  lemma {:induction false} HourDiscipline(s: State, events: seq<Event>, emailHash: Digest)
    requires HourSafe(s, emailHash)
    ensures StaysHourSafe(s, events, emailHash) <==> StartsAllowed(s, events, emailHash, ForHours(emailHash))
    decreases |events|
  {
    if events != [] {
      var next := Step(s, events[0]);
      if events[0] == StartIssue(emailHash) {
        RequestKeepsHourSafe(s, emailHash);
      } else {
        StepKeepsHourSafe(s, events[0], emailHash);
      }
      if HourSafe(next, emailHash) {
        HourDiscipline(next, events[1..], emailHash);
      }
    }
  }

  lemma InitialIsSafe(emailHash: Digest)
    ensures PendingSafe(INITIAL, emailHash) && HourSafe(INITIAL, emailHash) && Timely(INITIAL)
  {
    assert Viables(INITIAL, emailHash) == {};
  }

  /** A call of the address that has not come to its insertion. */
  predicate BeforeInsertion(issue: Issue, emailHash: Digest) {
    issue.emailHash == emailHash
    && (issue.stage.Counting? || issue.stage.LookingUp? || issue.stage.Revoking? || issue.stage.Inserting?)
  }

  /** No call of the address is before its insertion. */
  function NoneBefore(emailHash: Digest): State -> bool {
    (s: State) => forall i :: 0 <= i < |s.issues| ==> !BeforeInsertion(s.issues[i], emailHash)
  }

  lemma NoneBeforeMay(s: State, emailHash: Digest)
    requires NoneBefore(emailHash)(s) && Timely(s) && HourSafe(s, emailHash)
    ensures MayStartForPending(s, emailHash) && MayStartForHours(s, emailHash)
  {
    forall i ensures i !in Viables(s, emailHash) {
    }
    assert Viables(s, emailHash) == {};
  }

  /**
   * One request at a time up to the insertion is enough for both bounds; a request may still be mailing when the next
   * one starts.
   */
  lemma {:induction false} OneBeforeInsertion(s: State, events: seq<Event>, emailHash: Digest)
    requires PendingSafe(s, emailHash) && HourSafe(s, emailHash) && Timely(s)
    requires StartsAllowed(s, events, emailHash, NoneBefore(emailHash))
    ensures PendingSafe(Run(s, events), emailHash) && HourSafe(Run(s, events), emailHash)
    decreases |events|
  {
    if events != [] {
      StepTimely(s, events[0]);
      if events[0] == StartIssue(emailHash) {
        NoneBeforeMay(s, emailHash);
        RequestKeepsPendingSafe(s, emailHash);
        RequestKeepsHourSafe(s, emailHash);
      } else {
        StepKeepsPendingSafe(s, events[0], emailHash);
        StepKeepsHourSafe(s, events[0], emailHash);
      }
      OneBeforeInsertion(Step(s, events[0]), events[1..], emailHash);
    }
  }

  /**
   * When no request for an address starts before the one before it has inserted its link, it never has two usable
   * links.
   */
  lemma OnePendingLink(events: seq<Event>, emailHash: Digest)
    requires StartsAllowed(INITIAL, events, emailHash, NoneBefore(emailHash))
    ensures AtMostOnePending(Run(INITIAL, events).rows, emailHash)
  {
    InitialIsSafe(emailHash);
    OneBeforeInsertion(INITIAL, events, emailHash);
  }

  /** And every closed hour, 3 600 000 milliseconds, holds at most three of its links. */
  lemma AtMostThreePerHour(events: seq<Event>, emailHash: Digest, from: int)
    requires StartsAllowed(INITIAL, events, emailHash, NoneBefore(emailHash))
    ensures |LinksWithin(Run(INITIAL, events).rows, emailHash, from, from + 3_600_000)| <= 3
  {
    InitialIsSafe(emailHash);
    OneBeforeInsertion(INITIAL, events, emailHash);
    var rows := Run(INITIAL, events).rows;
    assert HoursHold(rows, emailHash);
    CountIsOfLinksWithin(rows, |rows|, emailHash, from, from + HOUR);
    assert rows[..|rows|] == rows;
    assert InHour(rows, emailHash, from) <= MAX_REQUESTS_PER_HOUR;
  }
}
