/** The link service: issue, inspect and claim, as calls on the request store. */
module TokenService {
  import opened Wrappers
  import opened Text
  import opened RequestStore
  import opened LinkProtocol
  import opened LinkOverlap

  /** What the outside world answers during one `issue`: account lookup, token, insertion time, mail. */
  datatype World = World(recipient: Option<string>, token: string, insertedAt: int, mailed: bool)

  datatype IssueAnswer = Invalid | Done(outcome: Outcome)

  /** One `@`, no white space, and a dot inside the domain. */
  predicate LooseEmail(s: string) {
    && (forall i :: 0 <= i < |s| ==> !IsSpace(s[i]))
    && (exists at :: 0 < at < |s| && s[at] == '@' && (forall i :: 0 <= i < |s| && s[i] == '@' ==> i == at)
                     && (exists dot :: at + 1 < dot < |s| - 1 && s[dot] == '.'))
  }

  /** Neither white space nor an `@`. */
  predicate IsPlain(part: string) {
    part != "" && forall i :: 0 <= i < |part| ==> !IsSpace(part[i]) && part[i] != '@'
  }

  ghost predicate ReadsAs(s: string, mailbox: string, host: string, suffix: string) {
    s == mailbox + "@" + host + "." + suffix && IsPlain(mailbox) && IsPlain(host) && IsPlain(suffix)
  }

  lemma CutAtTwo(s: string, a: nat, b: nat)
    requires a < b < |s| && s[a] == '@' && s[b] == '.'
    ensures s == s[..a] + "@" + s[a + 1..b] + "." + s[b + 1..]
  {
    assert s[..b] == s[..a] + "@" + s[a + 1..b];
    assert s == s[..b] + "." + s[b + 1..];
  }

  /** An address is taken exactly when it reads as a mailbox, an `@`, a host, a dot and a suffix. */
  lemma LooseEmailIff(s: string)
    ensures LooseEmail(s) <==> exists mailbox, host, suffix :: ReadsAs(s, mailbox, host, suffix)
  {
    if LooseEmail(s) {
      var at :| 0 < at < |s| && s[at] == '@' && (forall i :: 0 <= i < |s| && s[i] == '@' ==> i == at)
                && (exists dot :: at + 1 < dot < |s| - 1 && s[dot] == '.');
      var dot :| at + 1 < dot < |s| - 1 && s[dot] == '.';
      CutAtTwo(s, at, dot);
      assert ReadsAs(s, s[..at], s[at + 1..dot], s[dot + 1..]);
    }
    if mailbox, host, suffix :| ReadsAs(s, mailbox, host, suffix) {
      PartsAreLoose(s, mailbox, host, suffix);
    }
  }

  lemma PartsAreLoose(s: string, mailbox: string, host: string, suffix: string)
    requires ReadsAs(s, mailbox, host, suffix)
    ensures LooseEmail(s)
  {
    var at, dot := |mailbox|, |mailbox| + 1 + |host|;
    assert s[at] == '@' && s[dot] == '.' && |s| == dot + 1 + |suffix|;
    forall i | 0 <= i < |s| ensures !IsSpace(s[i]) && (s[i] == '@' ==> i == at) {
      if i < at {
        assert s[i] == mailbox[i];
      } else if at < i < dot {
        assert s[i] == host[i - at - 1];
      } else if dot < i {
        assert s[i] == suffix[i - dot - 1];
      }
    }
  }

  predicate WellFormedToken(token: string) {
    |token| == 43 && forall i :: 0 <= i < |token| ==>
      || ('A' <= token[i] <= 'Z') || ('a' <= token[i] <= 'z') || ('0' <= token[i] <= '9')
      || token[i] == '_' || token[i] == '-'
  }

  /** The rows and the outcome of a request that nothing interrupts. */
  function IssueAlone(rows: seq<Row>, emailHash: Digest, now: int, world: World, ttl: nat): (seq<Row>, Outcome) {
    if CountIssued(rows, emailHash, now - HOUR) >= MAX_REQUESTS_PER_HOUR then (rows, RateLimited)
    else if world.recipient.None? then (rows, NoAccount)
    else
      var revoked := RevokePendingRows(rows, emailHash);
      var link := Row(EmailLink, emailHash, Some(Sha256(world.token)), world.recipient, Pending,
                      Some(now + ttl), None, None, None, world.insertedAt);
      if TokenTaken(revoked, Some(Sha256(world.token))) then (revoked, Thrown)
      else if world.mailed then (revoked + [link], Sent)
      else (revoked + [link.(status := Failed, failureCode := Some("mail_failed"))], SendFailed)
  }

  /**
   * What a request that nothing interrupts makes of the rows. Three links of the address in the last 3 600 000
   * milliseconds limit it; without an account nothing happens. Else the pending links of the address are revoked, and
   * nothing else changes but for the new link: sent, it can be claimed until it expires and names the recipient; not
   * sent, it never can.
   */
  ghost predicate Serves(before: seq<Row>, after: seq<Row>, emailHash: Digest, now: int, world: World, ttl: nat,
                         outcome: Outcome) {
    var issued := |LinksSince(before, emailHash, now - 3_600_000)|;
    && (outcome == RateLimited <==> issued >= 3)
    && (outcome == NoAccount <==> issued < 3 && world.recipient.None?)
    && (outcome == RateLimited || outcome == NoAccount ==> after == before)
    && |after| >= |before|
    && (forall i :: 0 <= i < |before| && (before[i].emailHash != emailHash || before[i].status != Pending) ==>
          after[i] == before[i])
    && (outcome == Sent || outcome == SendFailed ==>
          && |after| == |before| + 1
          && forall i :: 0 <= i < |before| && before[i].emailHash == emailHash ==> after[i].status != Pending)
    && (outcome == Sent ==>
          && after[|before|].emailHash == emailHash && after[|before|].userId == world.recipient
          && forall at :: Claimable(after[|before|], Sha256(world.token), at) <==> at < now + ttl)
    && (outcome == SendFailed ==> after[|before|].status == Failed)
  }

  lemma IssueAloneServes(rows: seq<Row>, emailHash: Digest, now: int, world: World, ttl: nat)
    ensures var (after, outcome) := IssueAlone(rows, emailHash, now, world, ttl);
            Serves(rows, after, emailHash, now, world, ttl, outcome)
  {
    CountIsOfLinks(rows, |rows|, emailHash, now - HOUR);
    assert rows[..|rows|] == rows;
  }

  lemma RevokingKeepsTokens(rows: seq<Row>, emailHash: Digest)
    requires UniqueTokens(rows)
    ensures UniqueTokens(RevokePendingRows(rows, emailHash))
  {
    assert forall k :: 0 <= k < |rows| ==> RevokePendingRows(rows, emailHash)[k].tokenHash == rows[k].tokenHash;
  }

  lemma RetiredLink(rows: seq<Row>, link: Row)
    ensures UpdateRows(rows + [link], |rows|, MAIL_FAILED) ==
            rows + [link.(status := Failed, failureCode := Some("mail_failed"))]
    ensures UniqueTokens(rows + [link]) ==> UniqueTokens(UpdateRows(rows + [link], |rows|, MAIL_FAILED))
  {
  }

  class LinkService {
    const store: Store
    const ttlMillis: nat

    constructor (store: Store, ttlMinutes: nat)
      ensures this.store == store && ttlMillis == ttlMinutes * 60 * 1000
    {
      this.store := store;
      ttlMillis := ttlMinutes * 60 * 1000;
    }

    method Issue(email: string, now: int, world: World) returns (answer: IssueAnswer)
      requires UniqueTokens(store.rows)
      modifies store
      ensures UniqueTokens(store.rows)
      ensures answer == Invalid <==> var raw := Trim(email); raw == "" || |raw| > 320 || !LooseEmail(raw)
      ensures answer == Invalid ==> store.rows == old(store.rows)
      ensures answer != Invalid ==>
                (store.rows, answer.outcome) ==
                  IssueAlone(old(store.rows), HashEmail(Trim(email)), now, world, ttlMillis)
      ensures answer != Invalid ==>
                Serves(old(store.rows), store.rows, HashEmail(Trim(email)), now, world, ttlMillis, answer.outcome)
    {
      var raw := Trim(email);
      if raw == "" || |raw| > 320 || !LooseEmail(raw) {
        return Invalid;
      }
      var emailHash := HashEmail(raw);
      IssueAloneServes(store.rows, emailHash, now, world, ttlMillis);
      var issued := store.CountIssuedSince(emailHash, now - HOUR);
      if issued >= MAX_REQUESTS_PER_HOUR {
        return Done(RateLimited);
      }
      if world.recipient.None? {
        return Done(NoAccount);
      }
      ghost var before := store.rows;
      store.RevokePending(emailHash);
      RevokingKeepsTokens(before, emailHash);
      var link := Row(EmailLink, emailHash, Some(Sha256(world.token)), world.recipient, Pending,
                      Some(now + ttlMillis), None, None, None, world.insertedAt);
      var id := store.Insert(link);
      if id.None? {
        return Done(Thrown);
      }
      if !world.mailed {
        store.Update(id.value, MAIL_FAILED);
        RetiredLink(RevokePendingRows(before, emailHash), link);
        return Done(SendFailed);
      }
      return Done(Sent);
    }

    /** Verifies a link without using it: it answers exactly when a claim at the same instant would win. */
    method Inspect(token: string, now: int) returns (row: Option<Row>)
      requires UniqueTokens(store.rows)
      ensures row.Some? <==>
              && WellFormedToken(token)
              && (exists k :: 0 <= k < |store.rows| && Claimable(store.rows[k], Sha256(token), now))
      ensures row.Some? ==> row.value in store.rows && Claimable(row.value, Sha256(token), now)
    {
      if !WellFormedToken(token) {
        return None;
      }
      var found := store.FindByTokenHash(Sha256(token));
      if found.None? || !Claimable(store.rows[found.value], Sha256(token), now) {
        return None;
      }
      return Some(store.rows[found.value]);
    }

    /** Uses a link. Every loser gets None. */
    method ClaimLink(token: string, now: int) returns (row: Option<Row>)
      requires UniqueTokens(store.rows)
      modifies store
      ensures UniqueTokens(store.rows)
      ensures row.Some? <==>
              (WellFormedToken(token)
               && exists k :: 0 <= k < |old(store.rows)| && Claimable(old(store.rows)[k], Sha256(token), now))
      ensures row.Some? ==> row.value.status == Consumed && row.value.consumedAt == Some(now) && row.value in store.rows
      ensures row.Some? ==> row.value.tokenHash == Some(Sha256(token))
      ensures store.rows ==
              if WellFormedToken(token) then ClaimRows(old(store.rows), Sha256(token), now) else old(store.rows)
    {
      if !WellFormedToken(token) {
        return None;
      }
      ghost var before := store.rows;
      var won := store.Claim(Sha256(token), now);
      if !won {
        return None;
      }
      var found := store.FindByTokenHash(Sha256(token));
      assert forall k :: 0 <= k < |before| ==> store.rows[k].tokenHash == before[k].tokenHash;
      if found.None? {
        return None;
      }
      return Some(store.rows[found.value]);
    }
  }

  /** The calls of one request in the order it makes them, with the clock moving before the insertion. */
  function UpToRevoke(i: nat, emailHash: Digest, world: World): seq<Event> {
    [StartIssue(emailHash), CountStep(i), LookUpStep(i, world.recipient), RevokeStep(i)]
  }

  function FromInsert(i: nat, wait: nat, world: World, ttl: nat): seq<Event> {
    [Tick(wait), InsertStep(i, world.token, ttl), SendStep(i, world.mailed), RetireStep(i)]
  }

  lemma CountedFirst(s: State, emailHash: Digest)
    ensures var i, t := |s.issues|, Step(Step(s, StartIssue(emailHash)), CountStep(|s.issues|));
            var stage := if CountIssued(s.rows, emailHash, s.clock - HOUR) >= MAX_REQUESTS_PER_HOUR
                         then Finished(RateLimited) else LookingUp;
            t == s.(issues := s.issues + [Issue(emailHash, s.clock, stage)])
  {
    var u := Step(s, StartIssue(emailHash));
    assert u.issues[|s.issues|] == Issue(emailHash, s.clock, Counting);
  }

  lemma FinishedStays(s: State, i: nat, world: World)
    requires i < |s.issues| && s.issues[i].stage.Finished?
    ensures Step(Step(s, LookUpStep(i, world.recipient)), RevokeStep(i)) == s
  {
  }

  lemma LookedUpNext(s: State, i: nat, world: World)
    requires i < |s.issues| && s.issues[i].stage.LookingUp?
    ensures var t := Step(Step(s, LookUpStep(i, world.recipient)), RevokeStep(i));
            && |t.issues| == |s.issues| && t.clock == s.clock
            && t.issues[i].emailHash == s.issues[i].emailHash && t.issues[i].now == s.issues[i].now
            && (world.recipient.None? ==> t.rows == s.rows && t.issues[i].stage == Finished(NoAccount))
            && (world.recipient.Some? ==>
                  t.rows == RevokePendingRows(s.rows, s.issues[i].emailHash)
                  && t.issues[i].stage == Inserting(world.recipient.value))
  {
  }

  lemma FirstHalf(s: State, emailHash: Digest, world: World)
    ensures var i, t := |s.issues|, Run(s, UpToRevoke(|s.issues|, emailHash, world));
            && |t.issues| == i + 1 && t.clock == s.clock
            && t.issues[i].emailHash == emailHash && t.issues[i].now == s.clock
            && if CountIssued(s.rows, emailHash, s.clock - HOUR) >= MAX_REQUESTS_PER_HOUR
               then t.rows == s.rows && t.issues[i].stage == Finished(RateLimited)
               else if world.recipient.None? then t.rows == s.rows && t.issues[i].stage == Finished(NoAccount)
               else
                 && t.rows == RevokePendingRows(s.rows, emailHash)
                 && t.issues[i].stage == Inserting(world.recipient.value)
  {
    var i := |s.issues|;
    RunFour(s, UpToRevoke(i, emailHash, world));
    CountedFirst(s, emailHash);
    var mid := Step(Step(s, StartIssue(emailHash)), CountStep(i));
    if mid.issues[i].stage.Finished? {
      FinishedStays(mid, i, world);
    } else {
      LookedUpNext(mid, i, world);
    }
  }

  lemma SecondHalf(s: State, i: nat, wait: nat, world: World, ttl: nat)
    requires i < |s.issues| && (s.issues[i].stage.Inserting? || s.issues[i].stage.Finished?)
    ensures var t := Run(s, FromInsert(i, wait, world, ttl));
            && |t.issues| == |s.issues|
            && (s.issues[i].stage.Finished? ==> t.rows == s.rows && t.issues == s.issues)
            && (s.issues[i].stage.Inserting? ==>
                  var link := NewLink(s.(clock := s.clock + wait), i, world.token, ttl);
                  if TokenTaken(s.rows, Some(Sha256(world.token)))
                  then t.rows == s.rows && t.issues[i].stage == Finished(Thrown)
                  else if world.mailed then t.rows == s.rows + [link] && t.issues[i].stage == Finished(Sent)
                  else t.rows == s.rows + [Apply(link, MAIL_FAILED)] && t.issues[i].stage == Finished(SendFailed))
  {
    RunFour(s, FromInsert(i, wait, world, ttl));
  }

  /** The service's `issue` is the protocol's run of one caller alone. */
  lemma IssueAloneIsARun(s: State, emailHash: Digest, world: World, ttl: nat)
    requires world.insertedAt >= s.clock
    ensures var i := |s.issues|;
            var t := Run(s, UpToRevoke(i, emailHash, world) + FromInsert(i, world.insertedAt - s.clock, world, ttl));
            && |t.issues| == i + 1 && t.issues[i].stage.Finished?
            && (t.rows, t.issues[i].stage.outcome) == IssueAlone(s.rows, emailHash, s.clock, world, ttl)
  {
    var i, wait := |s.issues|, world.insertedAt - s.clock;
    RunSplit(s, UpToRevoke(i, emailHash, world), FromInsert(i, wait, world, ttl));
    FirstHalf(s, emailHash, world);
    SecondHalf(Run(s, UpToRevoke(i, emailHash, world)), i, wait, world, ttl);
  }
}
