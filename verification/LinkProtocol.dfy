/**
 * The email-link protocol: any number of `issue` and `claim` calls, account clean-ups and audit updates
 * over one table, interleaved at every await. Each statement is one atomic step.
 */
module LinkProtocol {
  import opened Wrappers
  import opened RequestStore

  const HOUR := 60 * 60 * 1000
  const MAX_REQUESTS_PER_HOUR := 3

  datatype Outcome = Sent | NoAccount | RateLimited | SendFailed | Thrown

  /** Where an `issue` call stands: the next thing it will do. */
  datatype Stage = Counting | LookingUp | Revoking(userId: string) | Inserting(userId: string)
                 | Sending(row: nat, token: string, ttl: nat) | Retiring(row: nat, token: string, ttl: nat)
                 | Finished(outcome: Outcome)

  datatype Issue = Issue(emailHash: Digest, now: int, stage: Stage)

  /** A `claim` call: its clock reading happens before its statement runs. */
  datatype Claim = Claim(tokenHash: Digest, now: int, won: Option<bool>)

  datatype State = State(rows: seq<Row>, clock: int, issues: seq<Issue>, claims: seq<Claim>)

  /** The next step some caller takes. What the outside world answers is part of the event. */
  datatype Event =
    | Tick(millis: nat)
    | StartIssue(emailHash: Digest)
    | CountStep(i: nat)
    | LookUpStep(i: nat, recipient: Option<string>)
    | RevokeStep(i: nat)
    | InsertStep(i: nat, token: string, ttl: nat)
    | SendStep(i: nat, sent: bool)
    | RetireStep(i: nat)
    | Abort(i: nat)
    | StartClaim(token: string)
    | ClaimStep(c: nat)
    | RevokeForUser(userId: string)
    | ForgetUser(userId: string)
    | RecordCompletion(id: nat)
    | RecordFailure(id: nat, code: string)
    | InsertAudit(emailHash: Digest, completed: bool)

  const INITIAL := State([], 0, [], [])

  predicate At(s: State, i: nat, stage: Stage) {
    i < |s.issues| && s.issues[i].stage == stage
  }

  function MoveTo(s: State, i: nat, stage: Stage): State
    requires i < |s.issues|
  {
    s.(issues := s.issues[i := s.issues[i].(stage := stage)])
  }

  function NewLink(s: State, i: nat, token: string, ttl: nat): Row
    requires i < |s.issues| && s.issues[i].stage.Inserting?
  {
    Row(EmailLink, s.issues[i].emailHash, Some(Sha256(token)), Some(s.issues[i].stage.userId), Pending,
        Some(s.issues[i].now + ttl), None, None, None, s.clock)
  }

  /** One step. An event that does not apply changes nothing. */
  function Step(s: State, e: Event): State {
    match e
    case Tick(millis) => s.(clock := s.clock + millis)
    case StartIssue(emailHash) => s.(issues := s.issues + [Issue(emailHash, s.clock, Counting)])
    case CountStep(i) =>
      if !At(s, i, Counting) then s
      else if CountIssued(s.rows, s.issues[i].emailHash, s.issues[i].now - HOUR) >= MAX_REQUESTS_PER_HOUR
      then MoveTo(s, i, Finished(RateLimited))
      else MoveTo(s, i, LookingUp)
    case LookUpStep(i, recipient) =>
      if !At(s, i, LookingUp) then s
      else if recipient.None? then MoveTo(s, i, Finished(NoAccount)) else MoveTo(s, i, Revoking(recipient.value))
    case RevokeStep(i) =>
      if i >= |s.issues| || !s.issues[i].stage.Revoking? then s
      else MoveTo(s, i, Inserting(s.issues[i].stage.userId)).(rows := RevokePendingRows(s.rows, s.issues[i].emailHash))
    case InsertStep(i, token, ttl) =>
      if i >= |s.issues| || !s.issues[i].stage.Inserting? then s
      else if TokenTaken(s.rows, Some(Sha256(token))) then MoveTo(s, i, Finished(Thrown))
      else MoveTo(s, i, Sending(|s.rows|, token, ttl)).(rows := s.rows + [NewLink(s, i, token, ttl)])
    case SendStep(i, sent) =>
      if i >= |s.issues| || !s.issues[i].stage.Sending? then s
      else if sent then MoveTo(s, i, Finished(Sent))
      else MoveTo(s, i, Retiring(s.issues[i].stage.row, s.issues[i].stage.token, s.issues[i].stage.ttl))
    case RetireStep(i) =>
      if i >= |s.issues| || !s.issues[i].stage.Retiring? then s
      else MoveTo(s, i, Finished(SendFailed)).(rows := UpdateRows(s.rows, s.issues[i].stage.row, MAIL_FAILED))
    case Abort(i) => if i >= |s.issues| || s.issues[i].stage.Finished? then s else MoveTo(s, i, Finished(Thrown))
    case StartClaim(token) => s.(claims := s.claims + [Claim(Sha256(token), s.clock, None)])
    case ClaimStep(c) =>
      if c >= |s.claims| || s.claims[c].won.Some? then s
      else s.(rows := ClaimRows(s.rows, s.claims[c].tokenHash, s.claims[c].now),
              claims := s.claims[c := s.claims[c].(won := Some(Matched(s, c)))])
    case RevokeForUser(userId) => s.(rows := RevokeUserRows(s.rows, userId))
    case ForgetUser(userId) => s.(rows := ForgetUserRows(s.rows, userId))
    case RecordCompletion(id) =>
      s.(rows := UpdateRows(s.rows, id, Patch(Some(Completed), Some(None), Some(s.clock), None)))
    case RecordFailure(id, code) => s.(rows := UpdateRows(s.rows, id, Patch(Some(Failed), None, None, Some(code))))
    case InsertAudit(emailHash, completed) =>
      s.(rows := s.rows + [Row(InProduct, emailHash, None, None, if completed then Completed else Failed,
                               None, None, None, None, s.clock)])
  }

  const MAIL_FAILED := Patch(Some(Failed), None, None, Some("mail_failed"))

  predicate Matched(s: State, c: nat)
    requires c < |s.claims|
  {
    exists k :: 0 <= k < |s.rows| && Claimable(s.rows[k], s.claims[c].tokenHash, s.claims[c].now)
  }

  function Run(s: State, events: seq<Event>): State
    decreases |events|
  {
    if events == [] then s else Run(Step(s, events[0]), events[1..])
  }

  /** This step is a claim statement for the token, and it wins. */
  predicate Wins(s: State, e: Event, tokenHash: Digest) {
    && e.ClaimStep? && e.c < |s.claims| && s.claims[e.c].won.None?
    && s.claims[e.c].tokenHash == tokenHash && Matched(s, e.c)
  }

  // ------------------------------------------------------------ nothing becomes pending again

  predicate SameLink(a: Row, b: Row) {
    a.source == b.source && a.emailHash == b.emailHash && a.tokenHash == b.tokenHash
    && a.expiresAt == b.expiresAt && a.createdAt == b.createdAt
  }

  /** Rows stay, in place, as the same links; one that left `pending` never returns to it. */
  ghost predicate Grows(before: seq<Row>, after: seq<Row>) {
    && |before| <= |after|
    && forall k :: 0 <= k < |before| ==>
         SameLink(before[k], after[k]) && (before[k].status != Pending ==> after[k].status != Pending)
  }

  lemma StepGrows(s: State, e: Event)
    ensures Grows(s.rows, Step(s, e).rows)
    ensures |Step(s, e).rows| <= |s.rows| + 1 && (|Step(s, e).rows| > |s.rows| ==> e.InsertStep? || e.InsertAudit?)
  {
  }

  /** In every interleaving, no step returns a row to pending or turns it into another link. */
  lemma {:induction false} NeverBackToPending(s: State, events: seq<Event>)
    ensures Grows(s.rows, Run(s, events).rows)
    decreases |events|
  {
    if events != [] {
      StepGrows(s, events[0]);
      NeverBackToPending(Step(s, events[0]), events[1..]);
    }
  }

  lemma TokensStayUnique(s: State, e: Event)
    requires UniqueTokens(s.rows)
    ensures UniqueTokens(Step(s, e).rows)
  {
    StepGrows(s, e);
  }

  lemma {:induction false} RunTokensUnique(s: State, events: seq<Event>)
    requires UniqueTokens(s.rows)
    ensures UniqueTokens(Run(s, events).rows)
    decreases |events|
  {
    if events != [] {
      TokensStayUnique(s, events[0]);
      RunTokensUnique(Step(s, events[0]), events[1..]);
    }
  }

  /** Once the row of a token has left `pending`, no later claim of the token wins. */
  lemma SpentTokenNeverWins(s: State, k: nat, events: seq<Event>, e: Event)
    requires UniqueTokens(s.rows) && k < |s.rows| && s.rows[k].tokenHash.Some? && s.rows[k].status != Pending
    ensures !Wins(Run(s, events), e, s.rows[k].tokenHash.value)
  {
    NeverBackToPending(s, events);
    RunTokensUnique(s, events);
  }

  // ------------------------------------------------------------ claims

  lemma {:induction false} RunSplit(s: State, first: seq<Event>, second: seq<Event>)
    ensures Run(s, first + second) == Run(Run(s, first), second)
    decreases |first|
  {
    if first == [] {
      assert first + second == second;
    } else {
      assert (first + second)[1..] == first[1..] + second;
      RunSplit(Step(s, first[0]), first[1..], second);
    }
  }

  lemma RunSnoc(s: State, events: seq<Event>, e: Event)
    ensures Run(s, events + [e]) == Step(Run(s, events), e)
  {
    RunSplit(s, events, [e]);
    assert [e][1..] == [];
  }

  /** A winning claim spends the row it matched, at a clock reading strictly before the row's expiry. */
  lemma WinningClaim(s: State, e: Event, tokenHash: Digest) returns (k: nat)
    requires UniqueTokens(s.rows) && Wins(s, e, tokenHash)
    ensures k < |s.rows| && s.rows[k].tokenHash == Some(tokenHash)
    ensures s.rows[k].status == Pending && s.rows[k].expiresAt.Some? && s.claims[e.c].now < s.rows[k].expiresAt.value
    ensures Step(s, e).rows == s.rows[k := s.rows[k].(status := Consumed, consumedAt := Some(s.claims[e.c].now))]
    ensures Step(s, e).claims[e.c].won == Some(true)
  {
    k :| 0 <= k < |s.rows| && Claimable(s.rows[k], tokenHash, s.claims[e.c].now);
  }

  /** In every run, at most one claim of a token wins. */
  lemma AtMostOneWinner(events: seq<Event>, i: nat, j: nat, tokenHash: Digest)
    requires i < j < |events|
    requires Wins(Run(INITIAL, events[..i]), events[i], tokenHash)
    ensures !Wins(Run(INITIAL, events[..j]), events[j], tokenHash)
  {
    var s := Run(INITIAL, events[..i]);
    RunTokensUnique(INITIAL, events[..i]);
    var k := WinningClaim(s, events[i], tokenHash);
    TokensStayUnique(s, events[i]);
    RunSnoc(INITIAL, events[..i], events[i]);
    RunSplit(INITIAL, events[..i] + [events[i]], events[i + 1..j]);
    assert events[..j] == events[..i] + [events[i]] + events[i + 1..j];
    SpentTokenNeverWins(Step(s, events[i]), k, events[i + 1..j], events[j]);
  }

  /** After a request for its address has revoked, a link that was there is never claimed. */
  lemma SupersededLinkNeverWins(events: seq<Event>, i: nat, j: nat, k: nat)
    requires i < j < |events| && events[i].RevokeStep?
    requires var s := Run(INITIAL, events[..i]);
             && events[i].i < |s.issues| && s.issues[events[i].i].stage.Revoking?
             && k < |s.rows| && s.rows[k].tokenHash.Some? && s.rows[k].emailHash == s.issues[events[i].i].emailHash
    ensures !Wins(Run(INITIAL, events[..j]), events[j], Run(INITIAL, events[..i]).rows[k].tokenHash.value)
  {
    var s := Run(INITIAL, events[..i]);
    RunTokensUnique(INITIAL, events[..i]);
    TokensStayUnique(s, events[i]);
    RunSnoc(INITIAL, events[..i], events[i]);
    RunSplit(INITIAL, events[..i] + [events[i]], events[i + 1..j]);
    assert events[..j] == events[..i] + [events[i]] + events[i + 1..j];
    SpentTokenNeverWins(Step(s, events[i]), k, events[i + 1..j], events[j]);
  }

  // ------------------------------------------------------------ every won claim, in every reachable state

  ghost predicate Spent(rows: seq<Row>, claim: Claim) {
    exists k :: 0 <= k < |rows| && SpentRow(rows[k], claim)
  }

  predicate SpentRow(row: Row, claim: Claim) {
    && row.tokenHash == Some(claim.tokenHash) && row.status != Pending
    && row.consumedAt == Some(claim.now) && row.expiresAt.Some? && claim.now < row.expiresAt.value
  }

  ghost predicate ClaimsInv(s: State) {
    && UniqueTokens(s.rows)
    && (forall c :: 0 <= c < |s.claims| && s.claims[c].won == Some(true) ==> Spent(s.rows, s.claims[c]))
    && (forall c, d :: 0 <= c < d < |s.claims| && s.claims[c].won == s.claims[d].won == Some(true) ==>
          s.claims[c].tokenHash != s.claims[d].tokenHash)
  }

  lemma SpentStaysSpent(s: State, e: Event, claim: Claim)
    requires UniqueTokens(s.rows) && Spent(s.rows, claim)
    ensures Spent(Step(s, e).rows, claim)
  {
    var k :| 0 <= k < |s.rows| && SpentRow(s.rows[k], claim);
    StepGrows(s, e);
    assert SpentRow(Step(s, e).rows[k], claim);
  }

  /** A claim that wins now is for a token no earlier claim has won. */
  lemma WinnerIsNew(s: State, e: Event)
    requires ClaimsInv(s) && e.ClaimStep? && e.c < |s.claims| && Wins(s, e, s.claims[e.c].tokenHash)
    ensures Spent(Step(s, e).rows, Step(s, e).claims[e.c])
    ensures forall c :: 0 <= c < |s.claims| && s.claims[c].won == Some(true) ==>
              s.claims[c].tokenHash != s.claims[e.c].tokenHash
  {
    var k := WinningClaim(s, e, s.claims[e.c].tokenHash);
    assert SpentRow(Step(s, e).rows[k], Step(s, e).claims[e.c]);
    forall c | 0 <= c < |s.claims| && s.claims[c].won == Some(true)
      ensures s.claims[c].tokenHash != s.claims[e.c].tokenHash
    {
      var j :| 0 <= j < |s.rows| && SpentRow(s.rows[j], s.claims[c]);
    }
  }

  /** A step settles at most the one claim it belongs to. */
  lemma StepMovesOneClaim(s: State, e: Event, c: nat)
    requires c < |Step(s, e).claims| && Step(s, e).claims[c].won == Some(true)
    ensures c < |s.claims|
    ensures Step(s, e).claims[c] == s.claims[c] || (e == ClaimStep(c) && Wins(s, e, s.claims[c].tokenHash))
    ensures Step(s, e).claims[c].tokenHash == s.claims[c].tokenHash
  {
  }

  lemma StepKeepsClaims(s: State, e: Event)
    requires ClaimsInv(s)
    ensures ClaimsInv(Step(s, e))
  {
    TokensStayUnique(s, e);
    var t := Step(s, e);
    if e.ClaimStep? && e.c < |s.claims| && Wins(s, e, s.claims[e.c].tokenHash) {
      WinnerIsNew(s, e);
    }
    forall c: nat | c < |t.claims| && t.claims[c].won == Some(true) ensures Spent(t.rows, t.claims[c]) {
      StepMovesOneClaim(s, e, c);
      if t.claims[c] == s.claims[c] {
        SpentStaysSpent(s, e, s.claims[c]);
      }
    }
    forall c: nat, d: nat | c < d < |t.claims| && t.claims[c].won == t.claims[d].won == Some(true)
      ensures t.claims[c].tokenHash != t.claims[d].tokenHash
    {
      StepMovesOneClaim(s, e, c);
      StepMovesOneClaim(s, e, d);
    }
  }

  lemma {:induction false} RunKeepsClaims(s: State, events: seq<Event>)
    requires ClaimsInv(s)
    ensures ClaimsInv(Run(s, events))
    decreases |events|
  {
    if events != [] {
      StepKeepsClaims(s, events[0]);
      RunKeepsClaims(Step(s, events[0]), events[1..]);
    }
  }

  /** In every reachable state: won claims have different tokens, and each used its link before the link expired. */
  lemma WonClaims(events: seq<Event>)
    ensures var s := Run(INITIAL, events);
            && (forall c :: 0 <= c < |s.claims| && s.claims[c].won == Some(true) ==> Spent(s.rows, s.claims[c]))
            && (forall c, d :: 0 <= c < d < |s.claims| && s.claims[c].won == s.claims[d].won == Some(true) ==>
                  s.claims[c].tokenHash != s.claims[d].tokenHash)
  {
    RunKeepsClaims(INITIAL, events);
  }

  // ------------------------------------------------------------ the rows of one address

  predicate PendingOnly(rows: seq<Row>, emailHash: Digest, row: nat) {
    forall k :: 0 <= k < |rows| && PendingFor(rows[k], emailHash) ==> k == row
  }

  predicate NonePending(rows: seq<Row>, emailHash: Digest) {
    forall k :: 0 <= k < |rows| ==> !PendingFor(rows[k], emailHash)
  }

  predicate AtMostOnePending(rows: seq<Row>, emailHash: Digest) {
    forall j, k ::
      0 <= j < |rows| && 0 <= k < |rows| && PendingFor(rows[j], emailHash) && PendingFor(rows[k], emailHash) ==>
      j == k
  }

  /** How many links of the address were created in a closed interval. */
  function CountWithin(rows: seq<Row>, emailHash: Digest, from: int, to: int): nat {
    if rows == [] then 0
    else
      var row := rows[|rows| - 1];
      CountWithin(rows[..|rows| - 1], emailHash, from, to)
      + if IssuedSince(row, emailHash, from) && row.createdAt <= to then 1 else 0
  }

  /** Links of the address created in a closed interval. */
  ghost function LinksWithin(rows: seq<Row>, emailHash: Digest, from: int, to: int): set<nat> {
    set k: nat | k < |rows| && rows[k].source == EmailLink && rows[k].emailHash == emailHash
                 && from <= rows[k].createdAt <= to
  }

  lemma LinksWithinSnoc(rows: seq<Row>, n: nat, emailHash: Digest, from: int, to: int)
    requires n < |rows|
    ensures var last := if IssuedSince(rows[n], emailHash, from) && rows[n].createdAt <= to then {n} else {};
            LinksWithin(rows[..n + 1], emailHash, from, to) == LinksWithin(rows[..n], emailHash, from, to) + last
    ensures n !in LinksWithin(rows[..n], emailHash, from, to)
  {
  }

  /** The count is of those links, each once. */
  lemma {:induction false} CountIsOfLinksWithin(rows: seq<Row>, n: nat, emailHash: Digest, from: int, to: int)
    requires n <= |rows|
    ensures CountWithin(rows[..n], emailHash, from, to) == |LinksWithin(rows[..n], emailHash, from, to)|
  {
    if n == 0 {
      assert LinksWithin(rows[..0], emailHash, from, to) == {};
    } else {
      CountIsOfLinksWithin(rows, n - 1, emailHash, from, to);
      assert rows[..n][..n - 1] == rows[..n - 1];
      LinksWithinSnoc(rows, n - 1, emailHash, from, to);
    }
  }

  /** The step does not insert a link for the address. */
  predicate Quiet(s: State, e: Event, emailHash: Digest) {
    e.InsertStep? ==> e.i >= |s.issues| || s.issues[e.i].emailHash != emailHash || !s.issues[e.i].stage.Inserting?
  }

  /** A step that inserts no link for the address makes none of its rows pending. */
  lemma QuietStepPending(s: State, e: Event, emailHash: Digest)
    requires Quiet(s, e, emailHash)
    ensures forall k :: 0 <= k < |Step(s, e).rows| && PendingFor(Step(s, e).rows[k], emailHash) ==>
              k < |s.rows| && PendingFor(s.rows[k], emailHash)
  {
    StepGrows(s, e);
  }

  /** A step only ever moves the one call it belongs to, and a call that is under way was so before. */
  lemma StepMovesOneCall(s: State, e: Event, i: nat)
    requires i < |s.issues|
    ensures |s.issues| <= |Step(s, e).issues| <= |s.issues| + 1
    ensures Step(s, e).issues[i].emailHash == s.issues[i].emailHash && Step(s, e).issues[i].now == s.issues[i].now
    ensures !Step(s, e).issues[i].stage.Finished? ==> !s.issues[i].stage.Finished?
    ensures s.clock <= Step(s, e).clock
  {
  }
}
