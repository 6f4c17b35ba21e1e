/** What a request's answer says about its link, when requests for an address do not overlap. */
module LinkAnswers {
  import opened Wrappers
  import opened RequestStore
  import opened LinkProtocol

  predicate Active(issue: Issue, emailHash: Digest) {
    issue.emailHash == emailHash && !issue.stage.Finished?
  }

  /** No request for the address starts while another one for it is under way. */
  ghost predicate OneAtATime(s: State, events: seq<Event>, emailHash: Digest)
    decreases |events|
  {
    events != [] ==>
      && (events[0] == StartIssue(emailHash) ==> forall i :: 0 <= i < |s.issues| ==> !Active(s.issues[i], emailHash))
      && OneAtATime(Step(s, events[0]), events[1..], emailHash)
  }

  /**
   * The row is the link this request made: for its address, with the token it mails, expiring that long after it began.
   */
  predicate OwnLink(rows: seq<Row>, issue: Issue, row: nat, token: string, ttl: nat) {
    && row < |rows| && rows[row].source == EmailLink && rows[row].emailHash == issue.emailHash
    && rows[row].tokenHash == Some(Sha256(token)) && rows[row].expiresAt == Some(issue.now + ttl)
  }

  /** What the rows of the address look like while its request is at a stage. */
  predicate StageHolds(rows: seq<Row>, issue: Issue) {
    match issue.stage
    case Inserting(_) => NonePending(rows, issue.emailHash)
    case Sending(row, token, ttl) => OwnLink(rows, issue, row, token, ttl) && PendingOnly(rows, issue.emailHash, row)
    case Retiring(row, token, ttl) => OwnLink(rows, issue, row, token, ttl) && PendingOnly(rows, issue.emailHash, row)
    case _ => true
  }

  ghost predicate Inv(s: State, emailHash: Digest) {
    && (forall i :: 0 <= i < |s.issues| && Active(s.issues[i], emailHash) ==> StageHolds(s.rows, s.issues[i]))
    && (forall i, j :: 0 <= i < j < |s.issues| ==> !Active(s.issues[i], emailHash) || !Active(s.issues[j], emailHash))
  }

  lemma RevokeEntersStage(s: State, i: nat)
    requires i < |s.issues| && s.issues[i].stage.Revoking?
    ensures StageHolds(Step(s, RevokeStep(i)).rows, Step(s, RevokeStep(i)).issues[i])
  {
  }

  lemma InsertEntersStage(s: State, e: Event)
    requires e.InsertStep? && e.i < |s.issues| && s.issues[e.i].stage.Inserting? && StageHolds(s.rows, s.issues[e.i])
    ensures StageHolds(Step(s, e).rows, Step(s, e).issues[e.i])
  {
  }

  /** Links that stay, and no new pending one, keep what a stage asks for. */
  lemma StageFrame(before: seq<Row>, after: seq<Row>, issue: Issue)
    requires Grows(before, after) && StageHolds(before, issue)
    requires forall k :: 0 <= k < |after| && PendingFor(after[k], issue.emailHash) ==>
               k < |before| && PendingFor(before[k], issue.emailHash)
    ensures StageHolds(after, issue)
  {
  }

  /** What a step makes of the call it moves. */
  lemma Moved(s: State, e: Event, i: nat)
    requires i < |s.issues| && Step(s, e).issues[i] != s.issues[i] && !Step(s, e).issues[i].stage.Finished?
    ensures || (e.CountStep? && Step(s, e).issues[i].stage.LookingUp?)
            || (e.LookUpStep? && Step(s, e).issues[i].stage.Revoking?)
            || (e == RevokeStep(i) && s.issues[i].stage.Revoking?)
            || (e.InsertStep? && e.i == i && s.issues[i].stage.Inserting?)
            || (e.SendStep? && s.issues[i].stage.Sending? && Step(s, e).rows == s.rows
                && Step(s, e).issues[i] ==
                   s.issues[i].(stage := Retiring(s.issues[i].stage.row, s.issues[i].stage.token,
                                                  s.issues[i].stage.ttl)))
  {
  }

  /** The one call of the address that is under way keeps what its stage asks for. */
  lemma StageKept(s: State, e: Event, emailHash: Digest, i: nat)
    requires i < |s.issues| && Active(s.issues[i], emailHash) && StageHolds(s.rows, s.issues[i])
    requires Quiet(s, e, emailHash) || e.i == i
    requires Active(Step(s, e).issues[i], emailHash)
    ensures StageHolds(Step(s, e).rows, Step(s, e).issues[i])
  {
    if Step(s, e).issues[i] == s.issues[i] {
      StepGrows(s, e);
      QuietStepPending(s, e, emailHash);
      StageFrame(s.rows, Step(s, e).rows, s.issues[i]);
    } else {
      Moved(s, e, i);
      if e.RevokeStep? {
        RevokeEntersStage(s, i);
      } else if e.InsertStep? {
        InsertEntersStage(s, e);
      }
    }
  }

  lemma StepKeepsInv(s: State, e: Event, emailHash: Digest)
    requires Inv(s, emailHash)
    requires e == StartIssue(emailHash) ==> forall i :: 0 <= i < |s.issues| ==> !Active(s.issues[i], emailHash)
    ensures Inv(Step(s, e), emailHash)
  {
    var t := Step(s, e);
    forall i: nat | i < |s.issues| && Active(t.issues[i], emailHash)
      ensures Active(s.issues[i], emailHash) && StageHolds(t.rows, t.issues[i])
    {
      StepMovesOneCall(s, e, i);
      StageKept(s, e, emailHash, i);
    }
    NewCallIsAlone(s, e, emailHash);
  }

  lemma NewCallIsAlone(s: State, e: Event, emailHash: Digest)
    requires forall i, j :: 0 <= i < j < |s.issues| ==>
               !Active(s.issues[i], emailHash) || !Active(s.issues[j], emailHash)
    requires e == StartIssue(emailHash) ==> forall i :: 0 <= i < |s.issues| ==> !Active(s.issues[i], emailHash)
    ensures var t := Step(s, e);
            forall i, j :: 0 <= i < j < |t.issues| ==>
              !Active(t.issues[i], emailHash) || !Active(t.issues[j], emailHash)
  {
    var t := Step(s, e);
    forall i, j | 0 <= i < j < |t.issues| ensures !Active(t.issues[i], emailHash) || !Active(t.issues[j], emailHash) {
      if j < |s.issues| {
        StepMovesOneCall(s, e, i);
        StepMovesOneCall(s, e, j);
      } else if e == StartIssue(emailHash) {
        StepMovesOneCall(s, e, i);
      }
    }
  }

  lemma {:induction false} RunKeepsInv(s: State, events: seq<Event>, emailHash: Digest)
    requires Inv(s, emailHash) && OneAtATime(s, events, emailHash)
    ensures Inv(Run(s, events), emailHash)
    decreases |events|
  {
    if events != [] {
      StepKeepsInv(s, events[0], emailHash);
      RunKeepsInv(Step(s, events[0]), events[1..], emailHash);
    }
  }

  /**
   * Just after `sent`, the only link of the address that can be pending is the one whose token was mailed, made for
   * this address by this request; after `send-failed` none is.
   */
  lemma AnswerLeavesTheNewLink(events: seq<Event>, emailHash: Digest, e: Event)
    requires OneAtATime(INITIAL, events, emailHash)
    requires e.SendStep? || e.RetireStep?
    requires var s := Run(INITIAL, events); e.i < |s.issues| && s.issues[e.i].emailHash == emailHash
    ensures var s, t := Run(INITIAL, events), Step(Run(INITIAL, events), e);
            var issue := s.issues[e.i];
            && (issue.stage.Sending? && t.issues[e.i].stage == Finished(Sent) ==>
                  && PendingOnly(t.rows, emailHash, issue.stage.row)
                  && OwnLink(t.rows, issue, issue.stage.row, issue.stage.token, issue.stage.ttl))
            && (issue.stage.Retiring? && t.issues[e.i].stage == Finished(SendFailed) ==>
                  && NonePending(t.rows, emailHash)
                  && OwnLink(t.rows, issue, issue.stage.row, issue.stage.token, issue.stage.ttl))
  {
    RunKeepsInv(INITIAL, events, emailHash);
    var s := Run(INITIAL, events);
    if Active(s.issues[e.i], emailHash) {
      assert StageHolds(s.rows, s.issues[e.i]);
    }
  }
}
