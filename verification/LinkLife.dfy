/** The life of one link among all the callers: what may close it, and that nothing else does. */
module LinkLife {
  import opened Wrappers
  import opened RequestStore
  import opened LinkProtocol

  // ------------------------------------------------------------ what a step may change

  /** The request this step belongs to. */
  predicate BelongsTo(e: Event, i: nat) {
    || (e.CountStep? && e.i == i) || (e.LookUpStep? && e.i == i) || (e.RevokeStep? && e.i == i)
    || (e.InsertStep? && e.i == i) || (e.SendStep? && e.i == i) || (e.RetireStep? && e.i == i)
    || (e.Abort? && e.i == i)
  }

  /** The row a request mails for is a link of its address. */
  predicate OwnRow(rows: seq<Row>, issue: Issue, row: nat) {
    row < |rows| && rows[row].emailHash == issue.emailHash && rows[row].source == EmailLink
  }

  predicate MailsForItsRow(rows: seq<Row>, issue: Issue) {
    && (issue.stage.Sending? ==> OwnRow(rows, issue, issue.stage.row))
    && (issue.stage.Retiring? ==> OwnRow(rows, issue, issue.stage.row))
  }

  ghost predicate AllMailForTheirRows(s: State) {
    forall i :: 0 <= i < |s.issues| ==> MailsForItsRow(s.rows, s.issues[i])
  }

  lemma StepMailsForItsRow(s: State, e: Event, i: nat)
    requires i < |s.issues| && MailsForItsRow(s.rows, s.issues[i])
    ensures i < |Step(s, e).issues| && MailsForItsRow(Step(s, e).rows, Step(s, e).issues[i])
  {
    StepGrows(s, e);
  }

  lemma StepMailForTheirRows(s: State, e: Event)
    requires AllMailForTheirRows(s)
    ensures AllMailForTheirRows(Step(s, e))
  {
    forall i: nat | i < |Step(s, e).issues| ensures MailsForItsRow(Step(s, e).rows, Step(s, e).issues[i]) {
      if i < |s.issues| {
        StepMailsForItsRow(s, e, i);
      }
    }
  }

  lemma {:induction false} RunMailForTheirRows(s: State, events: seq<Event>)
    requires AllMailForTheirRows(s)
    ensures AllMailForTheirRows(Run(s, events))
    decreases |events|
  {
    if events != [] {
      StepMailForTheirRows(s, events[0]);
      RunMailForTheirRows(Step(s, events[0]), events[1..]);
    }
  }

  /**
   * In every reachable state no step of a request changes a row of another address, and none changes a row of its own
   * address that is not pending, but for the one row it mails for.
   */
  lemma RequestsKeepToTheirAddress(events: seq<Event>, e: Event, i: nat, k: nat)
    requires var s := Run(INITIAL, events); BelongsTo(e, i) && i < |s.issues| && k < |s.rows|
    ensures var s := Run(INITIAL, events);
            && k < |Step(s, e).rows|
            && (s.rows[k].emailHash != s.issues[i].emailHash ==> Step(s, e).rows[k] == s.rows[k])
            && (s.rows[k].status != Pending && Step(s, e).rows[k] != s.rows[k] ==>
                  e.RetireStep? && s.issues[i].stage.Retiring? && s.issues[i].stage.row == k)
  {
    RunMailForTheirRows(INITIAL, events);
    StepGrows(Run(INITIAL, events), e);
  }

  // ------------------------------------------------------------ what closes a link

  /**
   * What makes a pending link no longer pending: a claim of it in time, a request for its address that revokes, its own
   * request failing to mail it, the deletion of its user, or a deletion's record on it.
   */
  predicate Closes(s: State, e: Event, k: nat)
    requires k < |s.rows|
  {
    || (e.ClaimStep? && e.c < |s.claims| && s.claims[e.c].won.None?
        && s.rows[k].tokenHash == Some(s.claims[e.c].tokenHash)
        && s.rows[k].expiresAt.Some? && s.claims[e.c].now < s.rows[k].expiresAt.value)
    || (e.RevokeStep? && e.i < |s.issues| && s.issues[e.i].stage.Revoking?
        && s.issues[e.i].emailHash == s.rows[k].emailHash)
    || (e.RetireStep? && e.i < |s.issues| && s.issues[e.i].stage.Retiring? && s.issues[e.i].stage.row == k)
    || (e.RevokeForUser? && s.rows[k].userId == Some(e.userId))
    || (e.RecordCompletion? && e.id == k)
    || (e.RecordFailure? && e.id == k)
  }

  lemma ClosingStep(s: State, e: Event, k: nat)
    requires k < |s.rows| && s.rows[k].status == Pending
    ensures k < |Step(s, e).rows|
    ensures Step(s, e).rows[k].status == Pending <==> !Closes(s, e, k)
    ensures !Closes(s, e, k) ==>
              || Step(s, e).rows[k] == s.rows[k]
              || (e.ForgetUser? && s.rows[k].userId == Some(e.userId)
                  && Step(s, e).rows[k] == s.rows[k].(userId := None))
  {
    StepGrows(s, e);
  }

  /** Some step of the run closes the link. */
  ghost predicate ClosedIn(s: State, events: seq<Event>, k: nat)
    requires k < |s.rows|
    decreases |events|, 0
  {
    events != [] && (Closes(s, events[0], k) || ClosedLater(Step(s, events[0]), events[1..], k))
  }

  ghost predicate ClosedLater(s: State, events: seq<Event>, k: nat)
    decreases |events|, 1
  {
    k < |s.rows| && ClosedIn(s, events, k)
  }

  /** A pending link stays pending, of the same user or forgetting it, until a step closes it, and never is again. */
  lemma {:induction false} PendingUntilClosed(s: State, events: seq<Event>, k: nat)
    requires k < |s.rows| && s.rows[k].status == Pending
    ensures var t := Run(s, events);
            && k < |t.rows|
            && (t.rows[k].status == Pending <==> !ClosedIn(s, events, k))
            && (!ClosedIn(s, events, k) ==>
                  t.rows[k] == s.rows[k] || t.rows[k] == s.rows[k].(userId := None))
    decreases |events|
  {
    if events != [] {
      var next := Step(s, events[0]);
      ClosingStep(s, events[0], k);
      NeverBackToPending(next, events[1..]);
      if !Closes(s, events[0], k) {
        PendingUntilClosed(next, events[1..], k);
      }
    }
  }

  /**
   * A request's link lives. Right after the insertion its row is pending, for the request's address, with its token,
   * and names its recipient. Over every run from there it can be claimed, at a moment before the expiry counted from
   * the start of the request, if and only if no step has closed it; requests for other addresses never do.
   */
  lemma InsertedLinkLives(s: State, i: nat, token: string, ttl: nat, rest: seq<Event>, now: int)
    requires i < |s.issues| && s.issues[i].stage.Inserting? && !TokenTaken(s.rows, Some(Sha256(token)))
    ensures var t := Step(s, InsertStep(i, token, ttl)); var k := |s.rows|;
            && |t.rows| == k + 1 && t.rows[..k] == s.rows
            && t.rows[k].emailHash == s.issues[i].emailHash && t.rows[k].source == EmailLink
            && t.rows[k].userId == Some(s.issues[i].stage.userId) && t.rows[k].createdAt == s.clock
            && t.issues[i].stage.Sending? && t.issues[i].stage.row == k && t.issues[i].stage.token == token
            && k < |Run(t, rest).rows|
            && (Claimable(Run(t, rest).rows[k], Sha256(token), now) <==>
                  !ClosedIn(t, rest, k) && now < s.issues[i].now + ttl)
  {
    var t, k := Step(s, InsertStep(i, token, ttl)), |s.rows|;
    PendingUntilClosed(t, rest, k);
  }

  /** What a deletion writes on the link it was asked for by: done and forgotten, or failed with its code. */
  lemma RecordsOnLinks(s: State, id: nat, code: string)
    requires id < |s.rows|
    ensures Step(s, RecordCompletion(id)).rows ==
            s.rows[id := s.rows[id].(status := Completed, userId := None, completedAt := Some(s.clock))]
    ensures Step(s, RecordFailure(id, code)).rows ==
            s.rows[id := s.rows[id].(status := Failed, failureCode := Some(code))]
  {
  }
}
