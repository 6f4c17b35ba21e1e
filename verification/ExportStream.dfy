/**
 * The streamed account export: the steps between awaits, the keepalive timer and the response's own events,
 * in any order. What each await yields, and whether the response accepts a write at once, is part of the event.
 */
module ExportStream {
  import opened Wrappers

  datatype Outcome = Rejected | Left | Finished | Failed

  /** What the call is waiting for. */
  datatype Point = AwaitFirst | LoopHead | AwaitNext | AwaitDrain | AwaitReturn | Settled(outcome: Outcome)

  /** The HTTP response. `ended` may also be set by somebody else; `endCalls` counts the calls made here. */
  datatype Response = Response(body: string, headers: bool, listeners: bool, ended: bool, endCalls: nat,
                               destroyed: bool)

  datatype State = State(
    point: Point, closed: bool, timer: bool,
    produced: seq<string>, exhausted: bool, pulls: nat,  // what the generator has given, and how often it was asked
    written: nat, res: Response)

  datatype Event =
    | First(fragment: Option<string>, accepted: bool)
    | FirstThrows
    | Continue
    | Next(fragment: Option<string>, accepted: bool)
    | NextThrows
    | Returned
    | ReturnThrows
    | Tick
    | Drain
    | Close
    | Error
    | EndedElsewhere

  const START := State(AwaitFirst, false, false, [], false, 1, 0, Response("", false, false, false, 0, false))

  /** `write`: nothing once the peer has gone, and a wait for room when the response asks for it. */
  function Wrote(s: State, text: string, accepted: bool): State {
    if s.closed || s.res.ended then s.(point := LoopHead)
    else s.(point := if accepted then LoopHead else AwaitDrain, written := s.written + 1,
            res := s.res.(body := s.res.body + text))
  }

  function Produced(s: State, text: string, accepted: bool): State {
    Wrote(s.(produced := s.produced + [text]), text, accepted)
  }

  function Settle(s: State, outcome: Outcome): State {
    s.(point := Settled(outcome), timer := false, res := s.res.(listeners := false))
  }

  function Complete(s: State): State {
    var ended := s.(res := s.res.(ended := true, endCalls := s.res.endCalls + 1));
    Settle(if s.closed || s.res.ended then s else ended, Finished)
  }

  function Destroy(s: State): State {
    Settle(s.(res := s.res.(destroyed := true)), Failed)
  }

  function Listening(s: State): State {
    s.(timer := true, res := s.res.(headers := true, listeners := true))
  }

  /** A generator that is done stays done. */
  predicate Possible(s: State, fragment: Option<string>) {
    s.exhausted ==> fragment.None?
  }

  /** One step. An event that does not apply changes nothing. */
  function Step(s: State, e: Event): State {
    match e
    case First(fragment, accepted) =>
      if s.point != AwaitFirst then s
      else if fragment.Some? then Produced(Listening(s), fragment.value, accepted)
      else Listening(s).(point := LoopHead, exhausted := true)
    case FirstThrows => if s.point != AwaitFirst then s else s.(point := Settled(Rejected))
    case Continue =>
      if s.point != LoopHead then s
      else if s.closed then s.(point := AwaitReturn)
      else s.(point := AwaitNext, pulls := s.pulls + 1)
    case Next(fragment, accepted) =>
      if s.point != AwaitNext || !Possible(s, fragment) then s
      else if fragment.Some? then Produced(s, fragment.value, accepted)
      else Complete(s.(exhausted := true))
    case NextThrows => if s.point != AwaitNext then s else Destroy(s)
    case Returned => if s.point != AwaitReturn then s else Settle(s, Left)
    case ReturnThrows => if s.point != AwaitReturn then s else Destroy(s)
    case Tick => if !s.timer || s.closed || s.res.ended then s else s.(res := s.res.(body := s.res.body + " "))
    case Drain => if s.point != AwaitDrain then s else s.(point := LoopHead)
    case Close =>
      if !s.res.listeners then s
      else s.(closed := true, point := if s.point == AwaitDrain then LoopHead else s.point)
    case Error => if !s.res.listeners then s else s.(closed := true)
    case EndedElsewhere => s.(res := s.res.(ended := true))
  }

  function Run(s: State, events: seq<Event>): State
    decreases |events|
  {
    if events == [] then s else Run(Step(s, events[0]), events[1..])
  }

  // ------------------------------------------------------------ fragments and boundary spaces

  function Spaces(n: nat): string {
    seq(n, _ => ' ')
  }

  /** The fragments in order, with `gaps[i]` spaces before fragment i and the last gap at the end. */
  function Weave(fragments: seq<string>, gaps: seq<nat>): string
    requires |gaps| == |fragments| + 1
  {
    Spaces(gaps[0]) + if fragments == [] then "" else fragments[0] + Weave(fragments[1..], gaps[1..])
  }

  function Concat(fragments: seq<string>): string {
    if fragments == [] then "" else fragments[0] + Concat(fragments[1..])
  }

  /** Without its spaces. */
  function Compact(text: string): string {
    if text == "" then "" else (if text[0] == ' ' then "" else [text[0]]) + Compact(text[1..])
  }

  lemma {:induction false} CompactAppend(a: string, b: string)
    ensures Compact(a + b) == Compact(a) + Compact(b)
  {
    if a == "" {
      assert a + b == b;
    } else {
      assert (a + b)[1..] == a[1..] + b;
      CompactAppend(a[1..], b);
    }
  }

  lemma {:induction false} SpacesVanish(n: nat)
    ensures Compact(Spaces(n)) == ""
  {
    if n > 0 {
      assert Spaces(n)[1..] == Spaces(n - 1);
      SpacesVanish(n - 1);
    }
  }

  /** But for spaces, a weave reads as its fragments one after the other, and only spaces make it longer. */
  lemma {:induction false} WeaveReads(fragments: seq<string>, gaps: seq<nat>)
    requires |gaps| == |fragments| + 1
    ensures Compact(Weave(fragments, gaps)) == Compact(Concat(fragments))
    ensures |Weave(fragments, gaps)| >= |Concat(fragments)|
  {
    SpacesVanish(gaps[0]);
    if fragments == [] {
      assert Weave(fragments, gaps) == Spaces(gaps[0]);
    } else {
      var rest := Weave(fragments[1..], gaps[1..]);
      WeaveReads(fragments[1..], gaps[1..]);
      assert Weave(fragments, gaps) == Spaces(gaps[0]) + (fragments[0] + rest);
      CompactAppend(Spaces(gaps[0]), fragments[0] + rest);
      CompactAppend(fragments[0], rest);
      CompactAppend(fragments[0], Concat(fragments[1..]));
    }
  }

  /** No fragment begins with a space. */
  predicate Leading(fragments: seq<string>) {
    forall i :: 0 <= i < |fragments| ==> fragments[i] != "" && fragments[i][0] != ' '
  }

  lemma SameGap(a: nat, x: string, b: nat, y: string)
    requires Spaces(a) + x == Spaces(b) + y
    requires (x == "" || x[0] != ' ') && (y == "" || y[0] != ' ')
    ensures a == b && x == y
  {
    var text := Spaces(a) + x;
    assert forall i :: 0 <= i < a ==> text[i] == ' ';
    assert forall i :: 0 <= i < b ==> text[i] == ' ';
    assert x != "" ==> text[a] == x[0];
    assert y != "" ==> text[b] == y[0];
    assert |text| == a + |x| == b + |y|;
    assert text[a..] == x && text[b..] == y;
  }

  /**
   * A body can be read back. When no fragment begins with a space, the text and the lengths of the fragments determine
   * the fragments and the spaces between them.
   */
  lemma {:induction false} WeaveIsReadable(a: seq<string>, gaps: seq<nat>, b: seq<string>, other: seq<nat>)
    requires |gaps| == |a| + 1 && |other| == |b| + 1 && Leading(a) && Leading(b)
    requires |a| == |b| && forall i :: 0 <= i < |a| ==> |a[i]| == |b[i]|
    requires Weave(a, gaps) == Weave(b, other)
    ensures a == b && gaps == other
  {
    if a == [] {
      assert Spaces(gaps[0]) + "" == Spaces(other[0]) + "";
      SameGap(gaps[0], "", other[0], "");
    } else {
      var left, right := Weave(a[1..], gaps[1..]), Weave(b[1..], other[1..]);
      assert Weave(a, gaps) == Spaces(gaps[0]) + (a[0] + left);
      assert Weave(b, other) == Spaces(other[0]) + (b[0] + right);
      SameGap(gaps[0], a[0] + left, other[0], b[0] + right);
      assert (a[0] + left)[..|a[0]|] == a[0] && (b[0] + right)[..|a[0]|] == b[0];
      assert (a[0] + left)[|a[0]|..] == left && (b[0] + right)[|a[0]|..] == right;
      WeaveIsReadable(a[1..], gaps[1..], b[1..], other[1..]);
      assert a == [a[0]] + a[1..] && b == [b[0]] + b[1..];
      assert gaps == [gaps[0]] + gaps[1..] && other == [other[0]] + other[1..];
    }
  }

  lemma {:induction false} WeaveFragment(fragments: seq<string>, gaps: seq<nat>, text: string)
    requires |gaps| == |fragments| + 1
    ensures Weave(fragments + [text], gaps + [0]) == Weave(fragments, gaps) + text
  {
    if fragments == [] {
      assert (gaps + [0])[1..] == [0] && ([] + [text])[1..] == [];
      assert Weave([], [0]) == "";
      assert fragments + [text] == [text];
    } else {
      WeaveFragment(fragments[1..], gaps[1..], text);
      assert (fragments + [text])[1..] == fragments[1..] + [text] && (gaps + [0])[1..] == gaps[1..] + [0];
      assert Weave(fragments + [text], gaps + [0]) ==
             Spaces(gaps[0]) + (fragments[0] + (Weave(fragments[1..], gaps[1..]) + text));
    }
  }

  lemma {:induction false} WeaveSpace(fragments: seq<string>, gaps: seq<nat>)
    requires |gaps| == |fragments| + 1
    ensures Weave(fragments, gaps[|fragments| := gaps[|fragments|] + 1]) == Weave(fragments, gaps) + " "
  {
    var more := gaps[|fragments| := gaps[|fragments|] + 1];
    if fragments == [] {
      assert Spaces(gaps[0] + 1) == Spaces(gaps[0]) + " ";
    } else {
      WeaveSpace(fragments[1..], gaps[1..]);
      assert more[1..] == gaps[1..][|fragments| - 1 := gaps[1..][|fragments| - 1] + 1];
      assert Weave(fragments, more) == Spaces(gaps[0]) + (fragments[0] + (Weave(fragments[1..], gaps[1..]) + " "));
    }
  }

  // ------------------------------------------------------------ what every step keeps

  /** The body is the first fragments, whole and in order, with spaces only between them and none before the first. */
  ghost predicate Woven(body: string, fragments: seq<string>) {
    exists gaps: seq<nat> :: WovenWith(body, fragments, gaps)
  }

  ghost predicate WovenWith(body: string, fragments: seq<string>, gaps: seq<nat>) {
    |gaps| == |fragments| + 1 && (fragments != [] ==> gaps[0] == 0) && body == Weave(fragments, gaps)
  }

  predicate Untouched(res: Response) {
    res.body == "" && !res.headers && !res.listeners && res.endCalls == 0 && !res.destroyed
  }

  ghost predicate BodyInv(s: State) {
    && s.written <= |s.produced| && (s.written < |s.produced| ==> s.closed || s.res.ended)
    && Woven(s.res.body, s.produced[..s.written])
    && (s.written == 0 && s.res.body != "" ==> s.exhausted)
  }

  predicate ControlInv(s: State) {
    && (s.timer <==> s.res.listeners) && (s.timer <==> s.point != AwaitFirst && !s.point.Settled?)
    && (s.point == AwaitFirst || s.point == Settled(Rejected) ==> Untouched(s.res) && s.produced == [] && !s.exhausted)
    && (s.res.endCalls > 0 ==>
          && s.res.endCalls == 1 && s.res.ended && s.point == Settled(Finished)
          && s.exhausted && !s.closed && s.written == |s.produced|)
    && (s.res.destroyed <==> s.point == Settled(Failed))
  }

  ghost predicate Inv(s: State) {
    BodyInv(s) && ControlInv(s)
  }

  lemma StartInv()
    ensures Inv(START)
  {
    assert WovenWith("", [], [0]);
    assert START.produced[..0] == [];
  }

  lemma WriteKeepsBody(s: State, text: string, accepted: bool)
    requires BodyInv(s) && !s.exhausted
    ensures BodyInv(Produced(s, text, accepted))
  {
    var t := Produced(s, text, accepted);
    assert t.produced[..s.written] == s.produced[..s.written];
    if !s.closed && !s.res.ended {
      var gaps :| WovenWith(s.res.body, s.produced[..s.written], gaps);
      WeaveFragment(s.produced[..s.written], gaps, text);
      assert t.produced[..t.written] == s.produced[..s.written] + [text];
      if s.written == 0 {
        assert Weave(s.produced[..0], gaps) == Spaces(gaps[0]) == "";
      }
      assert WovenWith(t.res.body, t.produced[..t.written], gaps + [0]);
    }
  }

  lemma TickKeepsBody(s: State)
    requires BodyInv(s) && s.timer && (s.produced == [] ==> s.exhausted)
    ensures BodyInv(Step(s, Tick))
  {
    var t := Step(s, Tick);
    if !s.closed && !s.res.ended {
      var fragments := s.produced[..s.written];
      var gaps :| WovenWith(s.res.body, fragments, gaps);
      WeaveSpace(fragments, gaps);
      assert WovenWith(t.res.body, fragments, gaps[|fragments| := gaps[|fragments|] + 1]);
    }
  }

  /** Once the timer runs, a fragment has been produced or the generator is done. */
  predicate Started(s: State) {
    s.timer ==> s.produced != [] || s.exhausted
  }

  lemma StepKeepsBody(s: State, e: Event)
    requires Inv(s) && Started(s)
    ensures BodyInv(Step(s, e)) && Started(Step(s, e))
  {
    match e
    case First(fragment, accepted) =>
      if s.point == AwaitFirst && fragment.Some? && !s.exhausted {
        WriteKeepsBody(Listening(s), fragment.value, accepted);
      }
    case Next(fragment, accepted) =>
      if s.point == AwaitNext && fragment.Some? && !s.exhausted {
        WriteKeepsBody(s, fragment.value, accepted);
      }
    case Tick =>
      if s.timer {
        TickKeepsBody(s);
      }
    case _ =>
  }

  /** The events of the generator keep it. */
  lemma GeneratorKeepsControl(s: State, e: Event)
    requires Inv(s) && (e.First? || e.Next?)
    ensures ControlInv(Step(s, e))
  {
  }

  lemma StepKeepsControl(s: State, e: Event)
    requires Inv(s)
    ensures ControlInv(Step(s, e))
  {
    if e.First? || e.Next? {
      GeneratorKeepsControl(s, e);
    }
  }

  lemma {:induction false} RunKeeps(s: State, events: seq<Event>)
    requires Inv(s) && Started(s)
    ensures Inv(Run(s, events)) && Started(Run(s, events))
    decreases |events|
  {
    if events != [] {
      StepKeepsBody(s, events[0]);
      StepKeepsControl(s, events[0]);
      RunKeeps(Step(s, events[0]), events[1..]);
    }
  }

  // ------------------------------------------------------------ main results

  /**
   * In every interleaving the body is a prefix of the produced fragments, each one whole and in order, with
   * extra spaces only between fragments and none before the first; it falls short of all of them only after
   * the peer has gone or the response was ended elsewhere.
   */
  lemma BodyIsWoven(events: seq<Event>)
    ensures var s := Run(START, events);
            && s.written <= |s.produced| && Woven(s.res.body, s.produced[..s.written])
            && (s.written < |s.produced| ==> s.closed || s.res.ended)
  {
    StartInv();
    RunKeeps(START, events);
  }

  /** In every interleaving the body reads, but for spaces, as the fragments written, one after the other. */
  lemma BodyReads(events: seq<Event>)
    ensures var s := Run(START, events);
            && s.written <= |s.produced|
            && Compact(s.res.body) == Compact(Concat(s.produced[..s.written]))
  {
    BodyIsWoven(events);
    var s := Run(START, events);
    var gaps :| WovenWith(s.res.body, s.produced[..s.written], gaps);
    WeaveReads(s.produced[..s.written], gaps);
  }

  /**
   * The response is ended here at most once, and then the body is every fragment of a finished generator, with no close
   * or error seen.
   */
  lemma EndedMeansComplete(events: seq<Event>)
    ensures var s := Run(START, events);
            && s.res.endCalls <= 1
            && (s.res.endCalls == 1 ==> s.exhausted && !s.closed && !s.res.destroyed && Woven(s.res.body, s.produced))
  {
    StartInv();
    RunKeeps(START, events);
    var s := Run(START, events);
    assert s.produced[..|s.produced|] == s.produced;
  }

  /** Once the call has settled, nothing it does touches the response again. */
  lemma {:induction false} SettledStays(s: State, events: seq<Event>)
    requires s.point.Settled? && !s.timer && !s.res.listeners
    ensures var t := Run(s, events); t == s || t == s.(res := s.res.(ended := true))
    decreases |events|
  {
    if events != [] {
      SettledStays(Step(s, events[0]), events[1..]);
    }
  }

  /**
   * A failure after the first fragment destroys the response for good and leaves it never ended here; a
   * failure producing the first leaves the response as it was.
   */
  lemma FailuresNeverEnd(events: seq<Event>, failure: Event, rest: seq<Event>)
    requires failure.FirstThrows? || failure.NextThrows? || failure.ReturnThrows?
    requires var s := Run(START, events); Step(s, failure) != s
    ensures var t := Run(Step(Run(START, events), failure), rest);
            && t.res.endCalls == 0
            && (failure.FirstThrows? ==> Untouched(t.res))
            && (!failure.FirstThrows? ==> t.res.destroyed && t.res.body == Run(START, events).res.body)
  {
    StartInv();
    RunKeeps(START, events);
    var s := Run(START, events);
    StepKeepsControl(s, failure);
    SettledStays(Step(s, failure), rest);
  }

  /** Some close or error reached the response while the call listened to it. */
  ghost predicate PeerLeft(s: State, events: seq<Event>)
    decreases |events|
  {
    && events != []
    && ((s.res.listeners && (events[0].Close? || events[0].Error?)) || PeerLeft(Step(s, events[0]), events[1..]))
  }

  /** The flag records exactly the close and error events of the run. */
  lemma {:induction false} ClosedMeansPeerLeft(s: State, events: seq<Event>)
    ensures Run(s, events).closed <==> s.closed || PeerLeft(s, events)
    decreases |events|
  {
    if events != [] {
      ClosedMeansPeerLeft(Step(s, events[0]), events[1..]);
    }
  }

  predicate LeftAlone(s: State, t: State) {
    && t.closed && t.point != AwaitFirst && t.pulls == s.pulls && t.res.body == s.res.body
    && t.res.endCalls == s.res.endCalls
  }

  lemma ClosedStep(s: State, e: Event)
    requires s.closed && s.point != AwaitFirst
    ensures LeftAlone(s, Step(s, e))
  {
  }

  /**
   * After the peer has gone no further fragment is asked for, nothing is written, and the response is not ended here.
   */
  lemma {:induction false} NobodyReadsNobodyWalks(s: State, events: seq<Event>)
    requires s.closed && s.point != AwaitFirst
    ensures LeftAlone(s, Run(s, events))
    decreases |events|
  {
    if events != [] {
      ClosedStep(s, events[0]);
      NobodyReadsNobodyWalks(Step(s, events[0]), events[1..]);
    }
  }

  // ------------------------------------------------------------ the code

  class AccountExport {
    var point: Point
    var closed: bool
    var timer: bool
    var res: Response
    ghost var produced: seq<string>
    ghost var exhausted: bool
    ghost var pulls: nat
    ghost var written: nat

    ghost function View(): State
      reads this
    {
      State(point, closed, timer, produced, exhausted, pulls, written, res)
    }

    /** Asks for the first fragment. */
    constructor ()
      ensures View() == START
    {
      point, closed, timer, res := AwaitFirst, false, false, Response("", false, false, false, 0, false);
      produced, exhausted, pulls, written := [], false, 1, 0;
    }

    method OnClose()
      requires res.listeners
      modifies this
      ensures View() == Step(old(View()), Close)
      ensures closed && point == (if old(point) == AwaitDrain then LoopHead else old(point))
      ensures res == old(res) && timer == old(timer)
    {
      closed := true;
      if point == AwaitDrain {
        point := LoopHead;
      }
    }

    method OnError()
      requires res.listeners
      modifies this
      ensures View() == Step(old(View()), Error)
      ensures closed && point == old(point) && res == old(res) && timer == old(timer)
    {
      closed := true;
    }

    method OnDrain()
      requires point == AwaitDrain
      modifies this
      ensures View() == Step(old(View()), Drain)
      ensures point == LoopHead && res == old(res) && closed == old(closed) && timer == old(timer)
    {
      point := LoopHead;
    }

    /** One space, unless the peer has gone or the response was ended. */
    method Keepalive()
      requires timer
      modifies this
      ensures point == old(point) && closed == old(closed) && timer
      ensures res == if old(closed) || old(res.ended) then old(res) else old(res).(body := old(res.body) + " ")
      ensures View() == Step(old(View()), Tick)
    {
      if !closed && !res.ended {
        res := res.(body := res.body + " ");
      }
    }

    /** Writes the text unless the peer has gone or the response was ended, and waits when the write was refused. */
    method Write(text: string, accepted: bool)
      modifies this
      ensures closed == old(closed) && timer == old(timer)
      ensures old(closed) || old(res.ended) ==> res == old(res) && point == LoopHead
      ensures !old(closed) && !old(res.ended) ==>
                res == old(res).(body := old(res.body) + text) && point == (if accepted then LoopHead else AwaitDrain)
      ensures View() == Wrote(old(View()), text, accepted)
    {
      if closed || res.ended {
        point := LoopHead;
        return;
      }
      res := res.(body := res.body + text);
      written := written + 1;
      point := if accepted then LoopHead else AwaitDrain;
    }

    /** From the first fragment to the first wait. */
    method Begin(first: Option<string>, accepted: bool)
      requires point == AwaitFirst
      modifies this
      ensures timer && res.listeners && res.headers && closed == old(closed)
      ensures res.ended == old(res.ended) && res.endCalls == old(res.endCalls) && res.destroyed == old(res.destroyed)
      ensures res.body == old(res.body) + if first.Some? && !old(closed) && !old(res.ended) then first.value else ""
      ensures point == if first.Some? && !old(closed) && !old(res.ended) && !accepted then AwaitDrain else LoopHead
      ensures View() == Step(old(View()), First(first, accepted))
    {
      res := res.(listeners := true);
      res := res.(headers := true);
      timer := true;
      if first.Some? {
        produced := produced + [first.value];
        Write(first.value, accepted);
      } else {
        exhausted := true;
        point := LoopHead;
      }
    }

    method LoopTop()
      requires point == LoopHead
      modifies this
      ensures point == if old(closed) then AwaitReturn else AwaitNext
      ensures pulls == old(pulls) + if old(closed) then 0 else 1
      ensures res == old(res) && closed == old(closed) && timer == old(timer)
      ensures View() == Step(old(View()), Continue)
    {
      if closed {
        point := AwaitReturn;
        return;
      }
      pulls := pulls + 1;
      point := AwaitNext;
    }

    /**
     * A fragment is written whole; when there is none the call has finished, no longer ticks or listens, and has ended
     * the response unless the peer has gone or somebody else ended it.
     */
    method AfterNext(next: Option<string>, accepted: bool)
      requires point == AwaitNext && Possible(View(), next)
      modifies this
      ensures closed == old(closed) && res.destroyed == old(res.destroyed) && res.headers == old(res.headers)
      ensures res.body == old(res.body) + if next.Some? && !old(closed) && !old(res.ended) then next.value else ""
      ensures next.Some? ==>
                && point == (if !old(closed) && !old(res.ended) && !accepted then AwaitDrain else LoopHead)
                && res.ended == old(res.ended) && res.endCalls == old(res.endCalls)
                && timer == old(timer) && res.listeners == old(res.listeners)
      ensures next.None? ==>
                && point == Settled(Finished) && !timer && !res.listeners
                && (res.ended <==> old(res.ended) || !old(closed))
                && res.endCalls == old(res.endCalls) + if old(closed) || old(res.ended) then 0 else 1
      ensures View() == Step(old(View()), Next(next, accepted))
    {
      if next.Some? {
        produced := produced + [next.value];
        Write(next.value, accepted);
        return;
      }
      exhausted := true;
      timer := false;
      if !closed && !res.ended {
        res := res.(ended := true, endCalls := res.endCalls + 1);
      }
      Finally(Finished);
    }

    method AfterReturn()
      requires point == AwaitReturn
      modifies this
      ensures point == Settled(Left) && !timer && res == old(res).(listeners := false)
      ensures View() == Step(old(View()), Returned)
    {
      Finally(Left);
    }

    /** What either await of the loop throws. */
    method Catch()
      requires point == AwaitNext || point == AwaitReturn
      modifies this
      ensures point == Settled(Failed) && !timer && res == old(res).(listeners := false, destroyed := true)
      ensures View() == Step(old(View()), if old(point) == AwaitNext then NextThrows else ReturnThrows)
    {
      timer := false;
      res := res.(destroyed := true);
      Finally(Failed);
    }

    method Finally(outcome: Outcome)
      modifies this
      ensures closed == old(closed)
      ensures View() == Settle(old(View()), outcome)
    {
      timer := false;
      res := res.(listeners := false);
      point := Settled(outcome);
    }
  }
}
