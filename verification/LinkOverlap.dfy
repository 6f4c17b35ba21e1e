/** Four requests for one address side by side: four usable links of one instant. */
module LinkOverlap {
  import opened Wrappers
  import opened RequestStore
  import opened LinkProtocol

  function FourAt(emailHash: Digest, stage: Stage): State {
    var issue := Issue(emailHash, 0, stage);
    State([], 0, [issue, issue, issue, issue], [])
  }

  function Starts(emailHash: Digest): seq<Event> {
    [StartIssue(emailHash), StartIssue(emailHash), StartIssue(emailHash), StartIssue(emailHash)]
  }

  const COUNTS := [CountStep(0), CountStep(1), CountStep(2), CountStep(3)]
  const LOOK_UPS := [LookUpStep(0, Some("u")), LookUpStep(1, Some("u")), LookUpStep(2, Some("u")),
                     LookUpStep(3, Some("u"))]
  const REVOKES := [RevokeStep(0), RevokeStep(1), RevokeStep(2), RevokeStep(3)]
  const INSERTS := [InsertStep(0, "a", HOUR), InsertStep(1, "b", HOUR), InsertStep(2, "c", HOUR),
                    InsertStep(3, "d", HOUR)]

  lemma RunFour(s: State, events: seq<Event>)
    requires |events| == 4
    ensures Run(s, events) == Step(Step(Step(Step(s, events[0]), events[1]), events[2]), events[3])
  {
    var s1 := Step(s, events[0]);
    var s2 := Step(s1, events[1]);
    var s3 := Step(s2, events[2]);
    assert events[1..][1..] == events[2..] && events[2..][1..] == events[3..] && events[3..][1..] == [];
    assert Run(s, events) == Run(s1, events[1..]);
    assert Run(s1, events[1..]) == Run(s2, events[2..]);
    assert Run(s2, events[2..]) == Run(s3, events[3..]);
    assert Run(s3, events[3..]) == Step(s3, events[3]);
  }

  lemma FourStart(emailHash: Digest)
    ensures Run(INITIAL, Starts(emailHash)) == FourAt(emailHash, Counting)
  {
    RunFour(INITIAL, Starts(emailHash));
  }

  lemma FourCount(emailHash: Digest)
    ensures Run(FourAt(emailHash, Counting), COUNTS) == FourAt(emailHash, LookingUp)
  {
    RunFour(FourAt(emailHash, Counting), COUNTS);
  }

  lemma FourLookUp(emailHash: Digest)
    ensures Run(FourAt(emailHash, LookingUp), LOOK_UPS) == FourAt(emailHash, Revoking("u"))
  {
    RunFour(FourAt(emailHash, LookingUp), LOOK_UPS);
  }

  lemma FourRevoke(emailHash: Digest)
    ensures Run(FourAt(emailHash, Revoking("u")), REVOKES) == FourAt(emailHash, Inserting("u"))
  {
    RunFour(FourAt(emailHash, Revoking("u")), REVOKES);
  }

  lemma FourReachInserting(emailHash: Digest)
    ensures Run(INITIAL, Starts(emailHash) + COUNTS + LOOK_UPS + REVOKES) == FourAt(emailHash, Inserting("u"))
  {
    RunSplit(INITIAL, Starts(emailHash) + COUNTS + LOOK_UPS, REVOKES);
    RunSplit(INITIAL, Starts(emailHash) + COUNTS, LOOK_UPS);
    RunSplit(INITIAL, Starts(emailHash), COUNTS);
    FourStart(emailHash);
    FourCount(emailHash);
    FourLookUp(emailHash);
    FourRevoke(emailHash);
  }

  /** An insert with a token of its own adds a usable link, whatever else the table holds. */
  lemma InsertAdds(s: State, i: nat, token: string, ttl: nat, emailHash: Digest)
    requires i < |s.issues| && s.issues[i].stage.Inserting? && s.issues[i].emailHash == emailHash
    requires !TokenTaken(s.rows, Some(Sha256(token)))
    ensures var t := Step(s, InsertStep(i, token, ttl));
            && t.rows == s.rows + [NewLink(s, i, token, ttl)] && t.clock == s.clock && |t.issues| == |s.issues|
            && (forall j :: 0 <= j < |s.issues| && j != i ==> t.issues[j] == s.issues[j])
            && CountWithin(t.rows, emailHash, s.clock, s.clock + HOUR) ==
               CountWithin(s.rows, emailHash, s.clock, s.clock + HOUR) + 1
  {
    assert (s.rows + [NewLink(s, i, token, ttl)])[..|s.rows|] == s.rows;
  }

  /** As many of the four as there are tokens have inserted their links, all at once. */
  ghost predicate Inserted(s: State, tokens: seq<string>, emailHash: Digest) {
    && |tokens| <= 4 && s.clock == 0 && |s.issues| == 4 && |s.rows| == |tokens|
    && (forall j :: |tokens| <= j < 4 ==> s.issues[j].stage.Inserting? && s.issues[j].emailHash == emailHash)
    && (forall k :: 0 <= k < |tokens| ==>
          PendingFor(s.rows[k], emailHash) && s.rows[k].tokenHash == Some(Sha256(tokens[k])))
    && CountWithin(s.rows, emailHash, 0, HOUR) == |tokens|
  }

  lemma InsertNext(s: State, tokens: seq<string>, token: string, emailHash: Digest)
    requires |tokens| < 4 && Inserted(s, tokens, emailHash) && token !in tokens
    ensures Inserted(Step(s, InsertStep(|tokens|, token, HOUR)), tokens + [token], emailHash)
  {
    InsertAdds(s, |tokens|, token, HOUR, emailHash);
  }

  lemma TwoInserts(s: State, tokens: seq<string>, a: string, b: string, emailHash: Digest)
    requires |tokens| < 3 && Inserted(s, tokens, emailHash) && a !in tokens && b !in tokens && a != b
    ensures Inserted(Step(Step(s, InsertStep(|tokens|, a, HOUR)), InsertStep(|tokens| + 1, b, HOUR)),
                     tokens + [a] + [b], emailHash)
  {
    InsertNext(s, tokens, a, emailHash);
    InsertNext(Step(s, InsertStep(|tokens|, a, HOUR)), tokens + [a], b, emailHash);
  }

  lemma FourInserts(emailHash: Digest)
    ensures Inserted(Run(FourAt(emailHash, Inserting("u")), INSERTS), [] + ["a"] + ["b"] + ["c"] + ["d"], emailHash)
  {
    var s := FourAt(emailHash, Inserting("u"));
    RunFour(s, INSERTS);
    assert Inserted(s, [], emailHash);
    TwoInserts(s, [], "a", "b", emailHash);
    TwoInserts(Step(Step(s, INSERTS[0]), INSERTS[1]), [] + ["a"] + ["b"], "c", "d", emailHash);
  }

  /** Without the condition both bounds fail: four requests side by side leave four usable links of one instant. */
  lemma OverlappingRequestsBreakBothBounds(emailHash: Digest)
    ensures var rows := Run(INITIAL, Starts(emailHash) + COUNTS + LOOK_UPS + REVOKES + INSERTS).rows;
            && CountWithin(rows, emailHash, 0, HOUR) == 4
            && |rows| == 4 && (forall k :: 0 <= k < 4 ==> PendingFor(rows[k], emailHash))
  {
    RunSplit(INITIAL, Starts(emailHash) + COUNTS + LOOK_UPS + REVOKES, INSERTS);
    FourReachInserting(emailHash);
    FourInserts(emailHash);
  }
}
