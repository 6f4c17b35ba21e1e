/** The controller's bootstrap: the registry check, starting in order, rollback and shutdown. */
module Bootstrap {
  import opened Wrappers

  datatype Reconciler = Reconciler(name: string, watches: string)

  datatype Refusal = NoReconcilersRegistered
                   | UnknownWatchedKind(reconciler: string)
                   | DuplicateReconcilerName(reconciler: string)

  /** Calls made on the registered reconcilers, by their place in the registry. */
  datatype Call = Started(i: nat) | StartFailed(i: nat) | Stopped(i: nat)

  /** What loading the configuration gave: the codes of its refusals when it did not load. */
  datatype Configuration = Loaded | NotLoaded(refusals: seq<string>)

  datatype Result = Refused(configuration: seq<string>,
                            registry: seq<Refusal>) | Running(started: seq<string>) | Rethrown(failed: nat)

  function Names(reconcilers: seq<Reconciler>): seq<string> {
    seq(|reconcilers|, i requires 0 <= i < |reconcilers| => reconcilers[i].name)
  }

  // ------------------------------------------------------------ the registry

  function RefusalsOf(reconciler: Reconciler, seen: set<string>, kinds: set<string>): seq<Refusal> {
    (if reconciler.name in seen then [DuplicateReconcilerName(reconciler.name)] else [])
    + (if reconciler.watches !in kinds then [UnknownWatchedKind(reconciler.name)] else [])
  }

  /** A registry may start: it is not empty, names are unique and every watched kind is known. */
  predicate Startable(reconcilers: seq<Reconciler>, kinds: set<string>) {
    && reconcilers != [] && Distinct(Names(reconcilers))
    && forall i :: 0 <= i < |reconcilers| ==> reconcilers[i].watches in kinds
  }

  function NamesBefore(reconcilers: seq<Reconciler>, n: nat): set<string>
    requires n <= |reconcilers|
  {
    set j | 0 <= j < n :: reconcilers[j].name
  }

  /** What checking the first n of a registry refuses. */
  function RefusalsBefore(reconcilers: seq<Reconciler>, kinds: set<string>, n: nat): seq<Refusal>
    requires n <= |reconcilers|
  {
    if n == 0 then (if |reconcilers| == 0 then [NoReconcilersRegistered] else [])
    else
      RefusalsBefore(reconcilers, kinds, n - 1)
      + RefusalsOf(reconcilers[n - 1], NamesBefore(reconcilers, n - 1), kinds)
  }

  lemma NothingToRefuse(reconciler: Reconciler, seen: set<string>, kinds: set<string>)
    ensures RefusalsOf(reconciler, seen, kinds) == [] <==> reconciler.name !in seen && reconciler.watches in kinds
  {
  }

  /** The first n names differ. */
  ghost predicate NamesDifferBefore(reconcilers: seq<Reconciler>, n: nat)
    requires n <= |reconcilers|
  {
    forall i, j :: 0 <= i < j < n ==> reconcilers[i].name != reconcilers[j].name
  }

  lemma NamesDifferStep(reconcilers: seq<Reconciler>, n: nat)
    requires n < |reconcilers|
    ensures NamesDifferBefore(reconcilers, n + 1) <==>
              NamesDifferBefore(reconcilers, n) && reconcilers[n].name !in NamesBefore(reconcilers, n)
  {
    if NamesDifferBefore(reconcilers, n + 1) {
      assert forall i :: 0 <= i < n ==> reconcilers[i].name != reconcilers[n].name;
    }
  }

  predicate KindsKnownBefore(reconcilers: seq<Reconciler>, kinds: set<string>, n: nat)
    requires n <= |reconcilers|
  {
    forall i :: 0 <= i < n ==> reconcilers[i].watches in kinds
  }

  lemma KindsKnownStep(reconcilers: seq<Reconciler>, kinds: set<string>, n: nat)
    requires n < |reconcilers|
    ensures KindsKnownBefore(reconcilers, kinds, n + 1) <==>
              KindsKnownBefore(reconcilers, kinds, n) && reconcilers[n].watches in kinds
  {
  }

  /** Exactly the registries that may not start are refused. */
  lemma {:induction false} RefusedUnlessStartable(reconcilers: seq<Reconciler>, kinds: set<string>, n: nat)
    requires n <= |reconcilers|
    ensures RefusalsBefore(reconcilers, kinds, n) == [] <==>
              reconcilers != [] && NamesDifferBefore(reconcilers, n) && KindsKnownBefore(reconcilers, kinds, n)
  {
    if n > 0 {
      RefusedUnlessStartable(reconcilers, kinds, n - 1);
      NothingToRefuse(reconcilers[n - 1], NamesBefore(reconcilers, n - 1), kinds);
      NamesDifferStep(reconcilers, n - 1);
      KindsKnownStep(reconcilers, kinds, n - 1);
    }
  }

  /** Two of the first n carry the name. */
  ghost predicate Twice(reconcilers: seq<Reconciler>, n: nat, name: string)
    requires n <= |reconcilers|
  {
    exists i, j :: 0 <= i < j < n && reconcilers[i].name == name == reconcilers[j].name
  }

  lemma TwiceStep(reconcilers: seq<Reconciler>, n: nat, name: string)
    requires 0 < n <= |reconcilers|
    ensures Twice(reconcilers, n, name) <==>
            || Twice(reconcilers, n - 1, name)
            || (reconcilers[n - 1].name == name && name in NamesBefore(reconcilers, n - 1))
  {
  }

  /** A name is reported as a duplicate exactly when two reconcilers carry it. */
  lemma {:induction false} DuplicatesReported(reconcilers: seq<Reconciler>, kinds: set<string>, n: nat, name: string)
    requires n <= |reconcilers|
    ensures DuplicateReconcilerName(name) in RefusalsBefore(reconcilers, kinds, n) <==> Twice(reconcilers, n, name)
  {
    if n > 0 {
      DuplicatesReported(reconcilers, kinds, n - 1, name);
      TwiceStep(reconcilers, n, name);
      var before, more := RefusalsBefore(reconcilers, kinds, n - 1),
                          RefusalsOf(reconcilers[n - 1], NamesBefore(reconcilers, n - 1), kinds);
      assert forall r :: r in before + more <==> r in before || r in more;
    }
  }

  /** A reconciler is reported for its kind exactly when the kind it watches is unknown. */
  lemma {:induction false} UnknownKindsReported(reconcilers: seq<Reconciler>, kinds: set<string>, n: nat, name: string)
    requires n <= |reconcilers|
    ensures UnknownWatchedKind(name) in RefusalsBefore(reconcilers, kinds, n) <==>
              exists i :: 0 <= i < n && reconcilers[i].name == name && reconcilers[i].watches !in kinds
  {
    if n > 0 {
      UnknownKindsReported(reconcilers, kinds, n - 1, name);
      var before, more := RefusalsBefore(reconcilers, kinds, n - 1),
                          RefusalsOf(reconcilers[n - 1], NamesBefore(reconcilers, n - 1), kinds);
      assert forall r :: r in before + more <==> r in before || r in more;
    }
  }

  /** An empty registry, and no other, is refused for being empty; an empty one for nothing else. */
  lemma {:induction false} EmptinessReported(reconcilers: seq<Reconciler>, kinds: set<string>, n: nat)
    requires n <= |reconcilers|
    ensures NoReconcilersRegistered in RefusalsBefore(reconcilers, kinds, n) <==> reconcilers == []
    ensures reconcilers == [] ==> RefusalsBefore(reconcilers, kinds, n) == [NoReconcilersRegistered]
  {
    if n > 0 {
      EmptinessReported(reconcilers, kinds, n - 1);
      var before, more := RefusalsBefore(reconcilers, kinds, n - 1),
                          RefusalsOf(reconcilers[n - 1], NamesBefore(reconcilers, n - 1), kinds);
      assert forall r :: r in before + more <==> r in before || r in more;
    }
  }

  /** What is refused, and of which reconcilers. */
  lemma RefusalsTellTheTruth(reconcilers: seq<Reconciler>, kinds: set<string>)
    ensures var refusals := RefusalsBefore(reconcilers, kinds, |reconcilers|);
            && (NoReconcilersRegistered in refusals <==> reconcilers == [])
            && (forall name :: DuplicateReconcilerName(name) in refusals <==> Twice(reconcilers, |reconcilers|, name))
            && (forall name :: UnknownWatchedKind(name) in refusals <==>
                  exists i :: 0 <= i < |reconcilers| && reconcilers[i].name == name && reconcilers[i].watches !in kinds)
  {
    EmptinessReported(reconcilers, kinds, |reconcilers|);
    forall name: string
      ensures DuplicateReconcilerName(name) in RefusalsBefore(reconcilers, kinds, |reconcilers|) <==>
                Twice(reconcilers, |reconcilers|, name)
      ensures UnknownWatchedKind(name) in RefusalsBefore(reconcilers, kinds, |reconcilers|) <==>
                exists i :: 0 <= i < |reconcilers| && reconcilers[i].name == name && reconcilers[i].watches !in kinds
    {
      DuplicatesReported(reconcilers, kinds, |reconcilers|, name);
      UnknownKindsReported(reconcilers, kinds, |reconcilers|, name);
    }
  }

  lemma NamesDiffer(reconcilers: seq<Reconciler>)
    ensures Distinct(Names(reconcilers)) <==>
            forall i, j :: 0 <= i < j < |reconcilers| ==> reconcilers[i].name != reconcilers[j].name
  {
    var names := Names(reconcilers);
    if Distinct(names) {
      forall i, j | 0 <= i < j < |reconcilers| ensures reconcilers[i].name != reconcilers[j].name {
        assert names[i] != names[j];
      }
    }
  }

  method ValidateRegistry(reconcilers: seq<Reconciler>, kinds: set<string>) returns (refusals: seq<Refusal>)
    ensures refusals == RefusalsBefore(reconcilers, kinds, |reconcilers|)
    ensures refusals == [] <==> Startable(reconcilers, kinds)
    ensures NoReconcilersRegistered in refusals <==> reconcilers == []
    ensures forall name :: DuplicateReconcilerName(name) in refusals <==> Twice(reconcilers, |reconcilers|, name)
    ensures forall name :: UnknownWatchedKind(name) in refusals <==>
              exists i :: 0 <= i < |reconcilers| && reconcilers[i].name == name && reconcilers[i].watches !in kinds
  {
    refusals := [];
    if |reconcilers| == 0 {
      refusals := [NoReconcilersRegistered];
    }
    var seen: set<string> := {};
    for i := 0 to |reconcilers|
      invariant seen == NamesBefore(reconcilers, i)
      invariant refusals == RefusalsBefore(reconcilers, kinds, i)
    {
      refusals := refusals + RefusalsOf(reconcilers[i], seen, kinds);
      seen := seen + {reconcilers[i].name};
    }
    RefusedUnlessStartable(reconcilers, kinds, |reconcilers|);
    NamesDiffer(reconcilers);
    RefusalsTellTheTruth(reconcilers, kinds);
  }

  // ------------------------------------------------------------ stopping by name

  /** `find`: the first reconciler of this name, or the end. */
  function Find(names: seq<string>, name: string): (i: nat)
    ensures i <= |names| && (i < |names| ==> names[i] == name)
    ensures forall j :: 0 <= j < i ==> names[j] != name
  {
    if names == [] || names[0] == name then 0 else 1 + Find(names[1..], name)
  }

  /** The stop calls for the started names, last started first. */
  function StopCalls(names: seq<string>, started: seq<string>): seq<Call> {
    if started == [] then []
    else
      var n := |started| - 1;
      (if Find(names, started[n]) < |names| then [Stopped(Find(names, started[n]))] else [])
        + StopCalls(names, started[..n])
  }

  lemma StopCallsStep(names: seq<string>, started: seq<string>, n: nat)
    requires n < |started|
    ensures var i, rest := Find(names, started[n]), StopCalls(names, started[..n]);
            StopCalls(names, started[..n + 1]) == if i < |names| then [Stopped(i)] + rest else rest
  {
    assert started[..n + 1][..n] == started[..n];
    assert [] + StopCalls(names, started[..n]) == StopCalls(names, started[..n]);
  }

  lemma Regroup(front: seq<Call>, call: Call, rest: seq<Call>)
    ensures front + ([call] + rest) == (front + [call]) + rest
  {
  }

  /** The first n reconcilers started, in order. */
  function Starts(n: nat): seq<Call> {
    seq(n, i requires 0 <= i < n => Started(i))
  }

  /** The first n reconcilers stopped, last first, once each. */
  function ReverseStops(n: nat): seq<Call> {
    seq(n, i requires 0 <= i < n => Stopped(n - 1 - i))
  }

  lemma {:induction false} StopsAreReverse(names: seq<string>, k: nat)
    requires Distinct(names) && k <= |names|
    ensures StopCalls(names, names[..k]) == ReverseStops(k)
  {
    if k > 0 {
      assert names[..k][..k - 1] == names[..k - 1];
      StopsAreReverse(names, k - 1);
      assert Find(names, names[k - 1]) == k - 1;
      assert ReverseStops(k) == [Stopped(k - 1)] + ReverseStops(k - 1);
    }
  }

  lemma {:induction false} StopCallsAt(names: seq<string>, k: nat, i: nat)
    requires i < k <= |names|
    ensures |StopCalls(names, names[..k])| == k
    ensures StopCalls(names, names[..k])[k - 1 - i] == Stopped(Find(names, names[i]))
    decreases k
  {
    assert names[..k][..k - 1] == names[..k - 1];
    assert Find(names, names[k - 1]) <= k - 1;
    if k > 1 {
      StopCallsAt(names, k - 1, if i < k - 1 then i else 0);
    } else {
      assert StopCalls(names, names[..0]) == [];
    }
  }

  /** Looking reconcilers up by name stops each started one once, in reverse, exactly when names are unique. */
  lemma StoppingRestsOnUniqueNames(names: seq<string>)
    ensures StopCalls(names, names) == ReverseStops(|names|) <==> Distinct(names)
  {
    assert names[..|names|] == names;
    if Distinct(names) {
      StopsAreReverse(names, |names|);
    }
    if StopCalls(names, names) == ReverseStops(|names|) {
      forall i, j | 0 <= i < j < |names| ensures names[i] != names[j] {
        StopCallsAt(names, |names|, j);
        assert ReverseStops(|names|)[|names| - 1 - j] == Stopped(j);
        assert Find(names, names[j]) == j;
      }
    }
  }

  // ------------------------------------------------------------ the code

  class Controller {
    const reconcilers: seq<Reconciler>
    const kinds: set<string>
    var started: seq<string>
    var stopped: bool
    var calls: seq<Call>

    constructor (reconcilers: seq<Reconciler>, kinds: set<string>)
      ensures this.reconcilers == reconcilers && this.kinds == kinds
      ensures started == [] && !stopped && calls == []
    {
      this.reconcilers, this.kinds := reconcilers, kinds;
      started, stopped, calls := [], false, [];
    }

    /** Stops what was started, once; a stop that throws is logged and the next one follows. */
    method Shutdown()
      modifies this`stopped, this`calls
      ensures stopped
      ensures calls == old(calls) + if old(stopped) then [] else StopCalls(Names(reconcilers), started)
    {
      if stopped {
        return;
      }
      stopped := true;
      var names, n := Names(reconcilers), |started|;
      assert started[..n] == started;
      while n > 0
        invariant 0 <= n <= |started| && stopped
        invariant calls + StopCalls(names, started[..n]) == old(calls) + StopCalls(names, started)
      {
        n := n - 1;
        StopCallsStep(names, started, n);
        var i := Find(names, started[n]);
        if i == |names| {
          continue;
        }
        Regroup(calls, Stopped(i), StopCalls(names, started[..n]));
        calls := calls + [Stopped(i)];
      }
    }

    /** The start loop: everything, or up to the first failure. */
    method StartAll(fails: set<nat>) returns (failed: Option<nat>)
      requires started == [] && calls == []
      modifies this`started, this`calls
      ensures failed.None? ==> calls == Starts(|reconcilers|) && started == Names(reconcilers)
      ensures failed.None? ==> forall i: nat :: i < |reconcilers| ==> i !in fails
      ensures failed.Some? ==>
                && failed.value < |reconcilers| && failed.value in fails
                && (forall i: nat :: i < failed.value ==> i !in fails)
                && calls == Starts(failed.value) + [StartFailed(failed.value)]
                && started == Names(reconcilers)[..failed.value]
    {
      for i := 0 to |reconcilers|
        invariant started == Names(reconcilers)[..i] && calls == Starts(i)
        invariant forall j: nat :: j < i ==> j !in fails
      {
        if i in fails {
          calls := calls + [StartFailed(i)];
          return Some(i);
        }
        calls := calls + [Started(i)];
        started := started + [reconcilers[i].name];
      }
      return None;
    }

    /**
     * All or nothing: refuses and calls nothing, or starts every reconciler in order, or rethrows the first failure
     * after stopping exactly those already started, once each, in reverse order.
     */
    method Start(configuration: Configuration, fails: set<nat>) returns (result: Result)
      requires started == [] && !stopped && calls == []
      modifies this
      ensures result.Refused? <==> configuration.NotLoaded? || !Startable(reconcilers, kinds)
      ensures result.Refused? ==> calls == [] && started == [] && !stopped
      ensures result.Refused? ==>
                && result.configuration == (if configuration.NotLoaded? then configuration.refusals else [])
                && result.registry == RefusalsBefore(reconcilers, kinds, |reconcilers|)
      ensures result.Running? ==>
                && (forall i: nat :: i < |reconcilers| ==> i !in fails)
                && calls == Starts(|reconcilers|) && started == result.started == Names(reconcilers) && !stopped
      ensures result.Rethrown? ==>
                && result.failed < |reconcilers| && result.failed in fails
                && (forall i: nat :: i < result.failed ==> i !in fails)
                && calls == Starts(result.failed) + [StartFailed(result.failed)] + ReverseStops(result.failed)
                && stopped
    {
      var registry := ValidateRegistry(reconcilers, kinds);
      var refusals := if configuration.NotLoaded? then configuration.refusals else [];
      if |refusals| + |registry| > 0 || configuration.NotLoaded? {
        return Refused(refusals, registry);
      }
      var failed := StartAll(fails);
      if failed.Some? {
        StopsAreReverse(Names(reconcilers), failed.value);
        Shutdown();
        return Rethrown(failed.value);
      }
      return Running(started);
    }

    /** Any number of shutdown calls after a successful start stops each started reconciler once, in reverse order. */
    method ShutdownRepeatedly(times: nat)
      requires Distinct(Names(reconcilers)) && started == Names(reconcilers) && !stopped
      requires calls == Starts(|reconcilers|)
      modifies this`stopped, this`calls
      ensures calls == Starts(|reconcilers|) + if times == 0 then [] else ReverseStops(|reconcilers|)
    {
      StoppingRestsOnUniqueNames(Names(reconcilers));
      for k := 0 to times
        invariant stopped <==> k > 0
        invariant calls == Starts(|reconcilers|) + if k == 0 then [] else ReverseStops(|reconcilers|)
      {
        Shutdown();
      }
    }
  }
}
