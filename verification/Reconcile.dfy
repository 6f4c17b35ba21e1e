/**
 * De-duplication of activity reconciliation: any number of calls and promise callbacks, in any order, over the
 * in-flight map and the completion times. Each callback runs on its own, so calls may fall between any two.
 */
module Reconcile {
  import opened Wrappers

  const TTL := 5000

  /** A reconciliation: running, then its outcome known, its callbacks under way, and the promise settled. */
  datatype Phase = Running | Succeeded | Failed | Settling | Done

  datatype Promise = Promise(userId: string, startedAt: int, phase: Phase, succeededAt: Option<int>,
                             notedAt: Option<int>)

  /** A call to `reconcileActivities`: waiting for a promise, gone on after one, or let through at once. */
  datatype Call = Waiting(promise: nat) | Proceeded(promise: nat) | Skipped

  datatype State = State(
    clock: int, inFlight: map<string, nat>, completedAt: map<string, int>,
    promises: seq<Promise>, calls: seq<Call>)

  datatype Event =
    | Tick(millis: nat)
    | Request(userId: string)
    | RunSucceeds(p: nat)
    | RunFails(p: nat)
    | Then(p: nat)
    | Catch(p: nat)
    | Finally(p: nat)
    | Resume(c: nat)

  const START := State(0, map[], map[], [], [])

  predicate In(s: State, p: nat, phase: Phase) {
    p < |s.promises| && s.promises[p].phase == phase
  }

  function MoveTo(s: State, p: nat, phase: Phase): State
    requires p < |s.promises|
  {
    s.(promises := s.promises[p := s.promises[p].(phase := phase)])
  }

  /** A success of this user less than the TTL ago is on record. */
  predicate IsRecent(s: State, userId: string) {
    userId in s.completedAt && s.clock - s.completedAt[userId] < TTL
  }

  /** One step. An event that does not apply changes nothing. */
  function Step(s: State, e: Event): State {
    match e
    case Tick(millis) => s.(clock := s.clock + millis)
    case Request(userId) =>
      if userId in s.inFlight then s.(calls := s.calls + [Waiting(s.inFlight[userId])])
      else if IsRecent(s, userId) then s.(calls := s.calls + [Skipped])
      else s.(promises := s.promises + [Promise(userId, s.clock, Running, None, None)],
              inFlight := s.inFlight[userId := |s.promises|],
              calls := s.calls + [Waiting(|s.promises|)])
    case RunSucceeds(p) =>
      if !In(s, p, Running) then s
      else s.(promises := s.promises[p := s.promises[p].(phase := Succeeded, succeededAt := Some(s.clock))])
    case RunFails(p) => if !In(s, p, Running) then s else MoveTo(s, p, Failed)
    case Then(p) =>
      if !In(s, p, Succeeded) then s
      else s.(promises := s.promises[p := s.promises[p].(phase := Settling, notedAt := Some(s.clock))],
              completedAt := s.completedAt[s.promises[p].userId := s.clock])
    case Catch(p) => if !In(s, p, Failed) then s else MoveTo(s, p, Settling)
    case Finally(p) =>
      if !In(s, p, Settling) then s
      else MoveTo(s, p, Done).(inFlight := if GuardHolds(s, p) then s.inFlight - {s.promises[p].userId} else s.inFlight)
    case Resume(c) =>
      if c >= |s.calls| || !s.calls[c].Waiting? || !In(s, s.calls[c].promise, Done) then s
      else s.(calls := s.calls[c := Proceeded(s.calls[c].promise)])
  }

  /** The identity check of the last callback: the entry on record is this very promise. */
  predicate GuardHolds(s: State, p: nat)
    requires p < |s.promises|
  {
    s.promises[p].userId in s.inFlight && s.inFlight[s.promises[p].userId] == p
  }

  function Run(s: State, events: seq<Event>): State
    decreases |events|
  {
    if events == [] then s else Run(Step(s, events[0]), events[1..])
  }

  // ------------------------------------------------------------ what every step keeps

  predicate Unfinished(s: State, p: nat) {
    p < |s.promises| && !s.promises[p].phase.Done?
  }

  /** The in-flight entries are exactly the unfinished promises. */
  ghost predicate InFlightIsUnfinished(s: State) {
    && (forall u :: u in s.inFlight ==> Unfinished(s, s.inFlight[u]) && s.promises[s.inFlight[u]].userId == u)
    && (forall p: nat {:trigger Unfinished(s, p)} :: Unfinished(s, p) ==> GuardHolds(s, p))
  }

  /** A promise's record agrees with its phase, the clock and the completion times. */
  predicate Recorded(s: State, promise: Promise) {
    && promise.startedAt <= s.clock
    && (promise.phase.Running? || promise.phase.Failed? ==> promise.succeededAt.None?)
    && (promise.phase.Succeeded? ==> promise.succeededAt.Some?)
    && (promise.phase.Settling? || promise.phase.Done? ==> promise.succeededAt.Some? == promise.notedAt.Some?)
    && (promise.notedAt.Some? ==>
          && (promise.phase.Settling? || promise.phase.Done?) && promise.succeededAt.Some?
          && promise.succeededAt.value <= promise.notedAt.value <= s.clock
          && promise.userId in s.completedAt && promise.notedAt.value <= s.completedAt[promise.userId])
    && (promise.succeededAt.Some? ==> promise.succeededAt.value <= s.clock)
  }

  ghost predicate AllRecorded(s: State) {
    forall p :: 0 <= p < |s.promises| ==> Recorded(s, s.promises[p])
  }

  /** A later reconciliation of the same user starts after the earlier is done and its success the TTL past. */
  predicate Spaced(earlier: Promise, later: Promise) {
    earlier.userId == later.userId ==>
      earlier.phase.Done? && (earlier.succeededAt.Some? ==> later.startedAt - earlier.succeededAt.value >= TTL)
  }

  ghost predicate AllSpaced(s: State) {
    forall p, q :: 0 <= p < q < |s.promises| ==> Spaced(s.promises[p], s.promises[q])
  }

  /** A completion time is the moment some success of the user was noted. */
  ghost predicate TimesAreReal(s: State) {
    forall u :: u in s.completedAt ==> NotedAt(s, u, s.completedAt[u])
  }

  ghost predicate NotedAt(s: State, userId: string, time: int) {
    exists p :: 0 <= p < |s.promises| && s.promises[p].userId == userId && s.promises[p].notedAt == Some(time)
  }

  predicate CallInOrder(s: State, call: Call) {
    match call
    case Waiting(p) => p < |s.promises|
    case Proceeded(p) => p < |s.promises| && s.promises[p].phase.Done?
    case Skipped => true
  }

  ghost predicate CallsInOrder(s: State) {
    forall c :: 0 <= c < |s.calls| ==> CallInOrder(s, s.calls[c])
  }

  ghost predicate Inv(s: State) {
    InFlightIsUnfinished(s) && AllRecorded(s) && AllSpaced(s) && TimesAreReal(s) && CallsInOrder(s)
  }

  lemma InFlightKept(s: State, e: Event)
    requires InFlightIsUnfinished(s)
    ensures InFlightIsUnfinished(Step(s, e))
  {
    var t := Step(s, e);
    forall p: nat | Unfinished(t, p) ensures GuardHolds(t, p) {
      if p < |s.promises| {
        assert Unfinished(s, p);
      }
    }
    forall u | u in t.inFlight ensures Unfinished(t, t.inFlight[u]) && t.promises[t.inFlight[u]].userId == u {
      if u in s.inFlight {
        assert Unfinished(s, s.inFlight[u]);
      }
    }
  }

  lemma RecordsKept(s: State, e: Event)
    requires AllRecorded(s)
    requires forall u :: u in s.completedAt ==> s.completedAt[u] <= s.clock
    ensures AllRecorded(Step(s, e))
    ensures forall u :: u in Step(s, e).completedAt ==> Step(s, e).completedAt[u] <= Step(s, e).clock
  {
  }

  lemma SpacedAppend(s: State, userId: string)
    requires InFlightIsUnfinished(s) && AllRecorded(s) && AllSpaced(s)
    requires userId !in s.inFlight && !IsRecent(s, userId)
    ensures forall p :: 0 <= p < |s.promises| ==> Spaced(s.promises[p], Promise(userId, s.clock, Running, None, None))
  {
    forall p | 0 <= p < |s.promises| ensures Spaced(s.promises[p], Promise(userId, s.clock, Running, None, None)) {
      if s.promises[p].userId == userId {
        assert !Unfinished(s, p);
        assert Recorded(s, s.promises[p]);
      }
    }
  }

  /** A step changes at most one promise, never one that is done, and never a user or a start. */
  lemma PromisesMove(s: State, e: Event)
    ensures |s.promises| <= |Step(s, e).promises|
    ensures forall p :: 0 <= p < |s.promises| ==>
              && Step(s, e).promises[p].userId == s.promises[p].userId
              && Step(s, e).promises[p].startedAt == s.promises[p].startedAt
              && (s.promises[p].phase.Done? ==> Step(s, e).promises[p] == s.promises[p])
  {
  }

  lemma SpacingKept(s: State, e: Event)
    requires InFlightIsUnfinished(s) && AllRecorded(s) && AllSpaced(s)
    ensures AllSpaced(Step(s, e))
  {
    var t := Step(s, e);
    PromisesMove(s, e);
    if e.Request? && e.userId !in s.inFlight && !IsRecent(s, e.userId) {
      SpacedAppend(s, e.userId);
    }
    forall p, q | 0 <= p < q < |t.promises| ensures Spaced(t.promises[p], t.promises[q]) {
      if q < |s.promises| {
        assert Spaced(s.promises[p], s.promises[q]);
      }
    }
  }

  /** A note once made stays, and so does the time it gave. */
  lemma NotesStay(s: State, e: Event, p: nat)
    requires p < |s.promises| && Recorded(s, s.promises[p]) && s.promises[p].notedAt.Some?
    ensures p < |Step(s, e).promises| && Step(s, e).promises[p].notedAt == s.promises[p].notedAt
    ensures Step(s, e).promises[p].userId == s.promises[p].userId
  {
  }

  lemma OtherTimesStay(s: State, e: Event, u: string)
    requires u in Step(s, e).completedAt
    requires !(e.Then? && In(s, e.p, Succeeded) && u == s.promises[e.p].userId)
    ensures u in s.completedAt && Step(s, e).completedAt[u] == s.completedAt[u]
  {
  }

  lemma TimesKept(s: State, e: Event)
    requires TimesAreReal(s) && AllRecorded(s)
    ensures TimesAreReal(Step(s, e))
  {
    var t := Step(s, e);
    forall u | u in t.completedAt ensures NotedAt(t, u, t.completedAt[u]) {
      if e.Then? && In(s, e.p, Succeeded) && u == s.promises[e.p].userId {
        assert t.promises[e.p].notedAt == Some(t.completedAt[u]);
      } else {
        OtherTimesStay(s, e, u);
        var p: nat :| p < |s.promises| && s.promises[p].userId == u && s.promises[p].notedAt == Some(s.completedAt[u]);
        NotesStay(s, e, p);
      }
    }
  }

  lemma CallsKept(s: State, e: Event)
    requires CallsInOrder(s) && InFlightIsUnfinished(s)
    ensures CallsInOrder(Step(s, e))
  {
    var t := Step(s, e);
    PromisesMove(s, e);
    forall c | 0 <= c < |t.calls| ensures CallInOrder(t, t.calls[c]) {
      if c < |s.calls| {
        assert CallInOrder(s, s.calls[c]);
      }
    }
  }

  ghost predicate TimesArePast(s: State) {
    forall u :: u in s.completedAt ==> s.completedAt[u] <= s.clock
  }

  lemma {:induction false} RunKeeps(s: State, events: seq<Event>)
    requires Inv(s) && TimesArePast(s)
    ensures Inv(Run(s, events)) && TimesArePast(Run(s, events))
    decreases |events|
  {
    if events != [] {
      InFlightKept(s, events[0]);
      RecordsKept(s, events[0]);
      SpacingKept(s, events[0]);
      TimesKept(s, events[0]);
      CallsKept(s, events[0]);
      RunKeeps(Step(s, events[0]), events[1..]);
    }
  }

  lemma StartInv()
    ensures Inv(START) && TimesArePast(START)
  {
  }

  // ------------------------------------------------------------ main results

  /**
   * In every interleaving the in-flight entry of a user is the one unfinished promise, so at most one reconciliation
   * runs for a user, and the identity check of the last callback never fails.
   */
  lemma OneRunningPerUser(events: seq<Event>)
    ensures var s := Run(START, events);
            && (forall u :: u in s.inFlight ==> Unfinished(s, s.inFlight[u]) && s.promises[s.inFlight[u]].userId == u)
            && (forall p: nat {:trigger Unfinished(s, p)} :: Unfinished(s, p) ==> GuardHolds(s, p))
            && (forall p: nat, q: nat {:trigger Unfinished(s, p), Unfinished(s, q)} ::
                  Unfinished(s, p) && Unfinished(s, q) && s.promises[p].userId == s.promises[q].userId ==> p == q)
  {
    StartInv();
    RunKeeps(START, events);
    var s := Run(START, events);
    forall p: nat, q: nat | Unfinished(s, p) && Unfinished(s, q) && s.promises[p].userId == s.promises[q].userId
      ensures p == q
    {
      assert GuardHolds(s, p) && GuardHolds(s, q);
    }
  }

  /** Every reconciliation starts at least the TTL after every earlier success for the same user. */
  lemma StartsAreSpaced(events: seq<Event>, p: nat, q: nat)
    requires p < q < |Run(START, events).promises|
    requires Run(START, events).promises[p].userId == Run(START, events).promises[q].userId
    requires Run(START, events).promises[p].succeededAt.Some?
    ensures Run(START, events).promises[q].startedAt - Run(START, events).promises[p].succeededAt.value >= 5000
  {
    StartInv();
    RunKeeps(START, events);
    var s := Run(START, events);
    assert Spaced(s.promises[p], s.promises[q]);
  }

  /**
   * What becomes of a call over the rest of a run: it waits for its promise, and has gone on only after that was done.
   */
  lemma {:induction false} WaitersWait(s: State, events: seq<Event>, c: nat)
    requires Inv(s) && TimesArePast(s) && c < |s.calls| && s.calls[c].Waiting?
    ensures var t := Run(s, events);
            && c < |t.calls| && (t.calls[c] == s.calls[c] || t.calls[c] == Proceeded(s.calls[c].promise))
            && (t.calls[c].Proceeded? ==> In(t, s.calls[c].promise, Done))
    decreases |events|
  {
    StaysTheSameCall(s, events, c);
    RunKeeps(s, events);
    var t := Run(s, events);
    assert CallInOrder(t, t.calls[c]);
  }

  lemma {:induction false} StaysTheSameCall(s: State, events: seq<Event>, c: nat)
    requires c < |s.calls|
    ensures var t := Run(s, events);
            && c < |t.calls|
            && (t.calls[c] == s.calls[c] || (s.calls[c].Waiting? && t.calls[c] == Proceeded(s.calls[c].promise)))
    decreases |events|
  {
    if events != [] {
      StaysTheSameCall(Step(s, events[0]), events[1..], c);
    }
  }

  /** A caller that finds a reconciliation of its user under way goes on only after that one has finished. */
  lemma JoinersWaitForTheRunningOne(before: seq<Event>, userId: string, after: seq<Event>)
    requires userId in Run(START, before).inFlight
    ensures var s := Run(START, before);
            var t := Run(Step(s, Request(userId)), after);
            var c, p := |s.calls|, s.inFlight[userId];
            && Unfinished(s, p) && s.promises[p].userId == userId
            && c < |t.calls| && (t.calls[c] == Waiting(p) || (t.calls[c] == Proceeded(p) && In(t, p, Done)))
  {
    StartInv();
    RunKeeps(START, before);
    var s := Run(START, before);
    InFlightKept(s, Request(userId));
    RecordsKept(s, Request(userId));
    SpacingKept(s, Request(userId));
    TimesKept(s, Request(userId));
    CallsKept(s, Request(userId));
    WaitersWait(Step(s, Request(userId)), after, |s.calls|);
  }

  /** A caller let through at once comes less than the TTL after a success for its user was noted. */
  lemma SkippedCallersAreFresh(events: seq<Event>, userId: string)
    requires var s := Run(START, events); userId !in s.inFlight && IsRecent(s, userId)
    ensures var s := Run(START, events);
            && Step(s, Request(userId)) == s.(calls := s.calls + [Skipped])
            && exists p :: 0 <= p < |s.promises| && s.promises[p].userId == userId && s.promises[p].notedAt.Some?
                 && s.clock - 5000 < s.promises[p].notedAt.value <= s.clock
  {
    StartInv();
    RunKeeps(START, events);
    var s := Run(START, events);
    assert NotedAt(s, userId, s.completedAt[userId]);
  }

  /** A reconciliation of the user that has not settled. */
  ghost predicate IsRunning(s: State, userId: string, p: nat) {
    p < |s.promises| && s.promises[p].userId == userId && !s.promises[p].phase.Done?
  }

  /** A success of the user was noted less than 5000 milliseconds ago. */
  ghost predicate JustSucceeded(s: State, userId: string) {
    exists p :: 0 <= p < |s.promises| && s.promises[p].userId == userId && s.promises[p].notedAt.Some?
      && s.clock - s.promises[p].notedAt.value < 5000
  }

  lemma RunningIsInFlight(s: State, userId: string, p: nat)
    requires InFlightIsUnfinished(s)
    ensures IsRunning(s, userId, p) <==> userId in s.inFlight && s.inFlight[userId] == p
  {
    assert Unfinished(s, p) ==> GuardHolds(s, p);
  }

  lemma RecentMeans(s: State, userId: string)
    requires AllRecorded(s) && TimesAreReal(s)
    ensures IsRecent(s, userId) <==> JustSucceeded(s, userId)
  {
    if IsRecent(s, userId) {
      assert NotedAt(s, userId, s.completedAt[userId]);
    }
    if JustSucceeded(s, userId) {
      var p :| 0 <= p < |s.promises| && s.promises[p].userId == userId && s.promises[p].notedAt.Some?
               && s.clock - s.promises[p].notedAt.value < 5000;
      assert Recorded(s, s.promises[p]);
    }
  }

  /** The call joins what runs. */
  ghost predicate Joins(s: State, t: State, userId: string) {
    exists p: nat :: IsRunning(s, userId, p) && t == s.(calls := s.calls + [Waiting(p)])
  }

  /** The call starts one reconciliation of its user, now, and waits for it. */
  ghost predicate Starts(s: State, t: State, userId: string) {
    && t.promises == s.promises + [Promise(userId, s.clock, Running, None, None)]
    && t.calls == s.calls + [Waiting(|s.promises|)]
    && t.clock == s.clock && t.completedAt == s.completedAt
  }

  /**
   * What a call does, in every reachable state: it joins the reconciliation of its user that runs; without one, it is
   * let through at once if a success was noted less than 5000 milliseconds ago; and without either it starts exactly
   * one, now, and waits for it.
   */
  lemma CallsDecided(events: seq<Event>, userId: string)
    ensures var s, t := Run(START, events), Step(Run(START, events), Request(userId));
            var runs := (exists p: nat :: IsRunning(s, userId, p));
            var recent := JustSucceeded(s, userId);
            && (runs <==> Joins(s, t, userId))
            && (!runs && recent <==> t == s.(calls := s.calls + [Skipped]))
            && (!runs && !recent <==> Starts(s, t, userId))
  {
    StartInv();
    RunKeeps(START, events);
    var s := Run(START, events);
    RecentMeans(s, userId);
    forall p: nat ensures IsRunning(s, userId, p) <==> userId in s.inFlight && s.inFlight[userId] == p {
      RunningIsInFlight(s, userId, p);
    }
    if userId in s.inFlight {
      assert IsRunning(s, userId, s.inFlight[userId]);
    }
    var t := Step(s, Request(userId));
    assert t.calls[|s.calls|] == if userId in s.inFlight then Waiting(s.inFlight[userId])
                                 else if IsRecent(s, userId) then Skipped else Waiting(|s.promises|);
  }

  /** The callbacks of one promise, in the order they come, and the caller that waits for it going on. */
  function Callbacks(p: nat, succeeds: bool, c: nat): seq<Event> {
    [if succeeds then RunSucceeds(p) else RunFails(p), Then(p), Catch(p), Finally(p), Resume(c)]
  }

  lemma RunFive(s: State, e: seq<Event>)
    requires |e| == 5
    ensures Run(s, e) == Step(Step(Step(Step(Step(s, e[0]), e[1]), e[2]), e[3]), e[4])
  {
    var s1 := Step(s, e[0]);
    var s2 := Step(s1, e[1]);
    var s3 := Step(s2, e[2]);
    var s4 := Step(s3, e[3]);
    assert e[1..][1..] == e[2..] && e[2..][1..] == e[3..] && e[3..][1..] == e[4..] && e[4..][1..] == [];
    assert Run(s, e) == Run(s1, e[1..]);
    assert Run(s1, e[1..]) == Run(s2, e[2..]);
    assert Run(s2, e[2..]) == Run(s3, e[3..]);
    assert Run(s3, e[3..]) == Run(s4, e[4..]);
    assert Run(s4, e[4..]) == Step(s4, e[4]);
  }

  lemma SettlingPromise(s: State, p: nat, succeeds: bool)
    requires p < |s.promises| && GuardHolds(s, p) && !s.promises[p].phase.Done?
    ensures var t := Step(Step(Step(s, if succeeds then RunSucceeds(p) else RunFails(p)), Then(p)), Catch(p));
            && In(t, p, Settling) && GuardHolds(t, p) && t.calls == s.calls && t.inFlight == s.inFlight
            && t.promises[p].userId == s.promises[p].userId
            && (s.promises[p].phase.Running? ==>
                  t.completedAt ==
                  if succeeds then s.completedAt[s.promises[p].userId := s.clock] else s.completedAt)
  {
  }

  /**
   * No caller waits for ever. In every reachable state a call that waits for a reconciliation that runs goes on after
   * its callbacks, whether it succeeds or fails; the user then has none in flight, and only a success is noted.
   */
  lemma WaitersGoOn(events: seq<Event>, c: nat, succeeds: bool)
    requires var s := Run(START, events); c < |s.calls| && s.calls[c].Waiting? && Unfinished(s, s.calls[c].promise)
    ensures var s := Run(START, events); var p := s.calls[c].promise;
            var t := Run(s, Callbacks(p, succeeds, c)); var userId := s.promises[p].userId;
            && c < |t.calls| && t.calls[c] == Proceeded(p) && In(t, p, Done) && userId !in t.inFlight
            && (s.promises[p].phase.Running? ==>
                  t.completedAt == if succeeds then s.completedAt[userId := s.clock] else s.completedAt)
  {
    StartInv();
    RunKeeps(START, events);
    var s := Run(START, events);
    var p := s.calls[c].promise;
    assert GuardHolds(s, p);
    RunFive(s, Callbacks(p, succeeds, c));
    SettlingPromise(s, p, succeeds);
  }

  // ------------------------------------------------------------ the code

  class ActivityReconciler {
    var inFlight: map<string, nat>
    var completedAt: map<string, int>
    ghost var clock: int
    ghost var promises: seq<Promise>
    ghost var calls: seq<Call>

    ghost function View(): State
      reads this
    {
      State(clock, inFlight, completedAt, promises, calls)
    }

    constructor ()
      ensures View() == START
    {
      inFlight, completedAt := map[], map[];
      clock, promises, calls := 0, [], [];
    }

    /** The synchronous part of a call: what it waits for, if anything. `created` names the promise it would create. */
    method ReconcileActivities(userId: string, now: int, created: nat) returns (waitFor: Option<nat>)
      requires now == clock && created == |promises|
      modifies this
      ensures View() == Step(old(View()), Request(userId))
      ensures calls == old(calls) + [if waitFor.Some? then Waiting(waitFor.value) else Skipped]
      ensures completedAt == old(completedAt) && clock == old(clock)
      ensures userId in old(inFlight) ==>
                waitFor == Some(old(inFlight)[userId]) && inFlight == old(inFlight) && promises == old(promises)
      ensures waitFor.None? <==>
                userId !in old(inFlight) && userId in old(completedAt) && now - old(completedAt)[userId] < 5000
      ensures waitFor.None? ==> inFlight == old(inFlight) && promises == old(promises)
      ensures userId !in old(inFlight) && (userId !in old(completedAt) || now - old(completedAt)[userId] >= 5000) ==>
                && waitFor == Some(created) && inFlight == old(inFlight)[userId := created]
                && promises == old(promises) + [Promise(userId, now, Running, None, None)]
    {
      if userId in inFlight {
        calls := calls + [Waiting(inFlight[userId])];
        return Some(inFlight[userId]);
      }
      if userId in completedAt && now - completedAt[userId] < TTL {
        calls := calls + [Skipped];
        return None;
      }
      promises := promises + [Promise(userId, now, Running, None, None)];
      inFlight := inFlight[userId := created];
      calls := calls + [Waiting(created)];
      return Some(created);
    }

    /** The success callback. */
    method NoteCompletion(userId: string, now: int, ghost p: nat)
      requires now == clock && In(View(), p, Succeeded) && promises[p].userId == userId
      modifies this
      ensures View() == Step(old(View()), Then(p))
      ensures completedAt == old(completedAt)[userId := now] && inFlight == old(inFlight) && calls == old(calls)
    {
      completedAt := completedAt[userId := now];
      promises := promises[p := promises[p].(phase := Settling, notedAt := Some(now))];
    }

    /** The last callback. */
    method Settle(userId: string, p: nat)
      requires In(View(), p, Settling) && promises[p].userId == userId
      modifies this
      ensures View() == Step(old(View()), Finally(p))
      ensures promises[p].phase == Done && completedAt == old(completedAt) && calls == old(calls)
      ensures userId !in inFlight || inFlight[userId] != p
      ensures forall u :: u in old(inFlight) && old(inFlight)[u] != p ==>
                u in inFlight && inFlight[u] == old(inFlight)[u]
    {
      if userId in inFlight && inFlight[userId] == p {
        inFlight := inFlight - {userId};
      }
      promises := promises[p := promises[p].(phase := Done)];
    }
  }
}
