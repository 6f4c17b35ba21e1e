/** How a streamed export ends, what one fragment and one tick do, and what a full response waits for. */
module ExportOutcome {
  import opened Wrappers
  import opened ExportStream

  // ------------------------------------------------------------ how it ends

  /** Somebody else ends the response while the call is under way. */
  ghost predicate EndedByOthers(s: State, events: seq<Event>)
    decreases |events|
  {
    && events != []
    && ((events[0].EndedElsewhere? && !s.point.Settled?) || EndedByOthers(Step(s, events[0]), events[1..]))
  }

  lemma {:induction false} NobodyElseAfterwards(s: State, events: seq<Event>)
    requires s.point.Settled?
    ensures !EndedByOthers(s, events)
    decreases |events|
  {
    if events != [] {
      NobodyElseAfterwards(Step(s, events[0]), events[1..]);
    }
  }

  /** The call is under way and has ended nothing. */
  predicate UnderWay(s: State) {
    !s.point.Settled? && s.res.endCalls == 0 && (s.timer <==> s.res.listeners) && (s.timer <==> s.point != AwaitFirst)
  }

  lemma NextUnderWay(s: State, e: Event)
    requires UnderWay(s) && !Step(s, e).point.Settled?
    ensures UnderWay(Step(s, e)) && (Step(s, e).res.ended <==> s.res.ended || e.EndedElsewhere?)
  {
  }

  /** The step that finishes: the generator is done, and the response is ended unless the peer left or it was before. */
  lemma LastStep(s: State, e: Event)
    requires UnderWay(s) && Step(s, e).point.Settled?
    ensures var t := Step(s, e);
            && !t.timer && !t.res.listeners && t.closed == s.closed && !e.EndedElsewhere?
            && (t.point == Settled(Finished) ==>
                  && e.Next? && e.fragment.None? && t.exhausted
                  && t.res.endCalls == (if s.closed || s.res.ended then 0 else 1)
                  && (t.res.ended <==> s.res.ended || !s.closed))
  {
  }

  lemma {:induction false} EndsFrom(s: State, events: seq<Event>)
    requires UnderWay(s) && Run(s, events).point == Settled(Finished)
    ensures var t := Run(s, events);
            && (t.res.endCalls == 1 <==> !t.closed && !s.res.ended && !EndedByOthers(s, events))
            && (!t.closed ==> t.res.ended)
    decreases |events|
  {
    if events != [] {
      var next := Step(s, events[0]);
      if next.point.Settled? {
        LastStep(s, events[0]);
        SettledStays(next, events[1..]);
        NobodyElseAfterwards(next, events[1..]);
      } else {
        NextUnderWay(s, events[0]);
        EndsFrom(next, events[1..]);
      }
    }
  }

  /**
   * A finished export is ended. In every interleaving a call that has finished, with no close or error seen, leaves the
   * response ended, and ended it itself if and only if nobody else had while it was under way.
   */
  lemma FinishedIsEnded(events: seq<Event>)
    requires Run(START, events).point == Settled(Finished)
    ensures var s := Run(START, events);
            && (!s.closed ==> s.res.ended)
            && (s.res.endCalls == 1 <==> !s.closed && !EndedByOthers(START, events))
  {
    EndsFrom(START, events);
  }

  // ------------------------------------------------------------ one event at a time

  /**
   * In every reachable state a tick adds exactly one space while the call listens, the peer is there and the response
   * is open, and nothing otherwise.
   */
  lemma TickAddsASpace(events: seq<Event>)
    ensures var s := Run(START, events);
            var streaming := s.point != AwaitFirst && !s.point.Settled? && !s.closed && !s.res.ended;
            Step(s, Tick) == if streaming then s.(res := s.res.(body := s.res.body + " ")) else s
  {
    StartInv();
    RunKeeps(START, events);
  }

  /**
   * In every reachable state that waits for a fragment, the fragment that comes is written whole at the end of the body
   * while the peer is there and the response is open, and dropped otherwise; only a write that was refused is waited
   * for. The first one also sends the headers, starts the keepalive and listens to the response.
   */
  lemma FragmentIsWritten(events: seq<Event>, text: string, accepted: bool, first: bool)
    requires Run(START, events).point == (if first then AwaitFirst else AwaitNext)
    requires !Run(START, events).exhausted
    ensures var s := Run(START, events);
            var t := Step(s, if first then First(Some(text), accepted) else Next(Some(text), accepted));
            var open := !s.closed && !s.res.ended;
            && t.produced == s.produced + [text] && t.pulls == s.pulls && t.closed == s.closed
            && t.written == (if open then s.written + 1 else s.written)
            && t.res == Response(if open then s.res.body + text else s.res.body, s.res.headers || first,
                                 s.res.listeners || first, s.res.ended, s.res.endCalls, s.res.destroyed)
            && t.timer == (s.timer || first)
            && t.point == (if open && !accepted then AwaitDrain else LoopHead)
  {
  }

  /** Neither room in the response nor its closing. */
  predicate NoRelief(events: seq<Event>) {
    forall i :: 0 <= i < |events| ==> !events[i].Drain? && !events[i].Close?
  }

  /** Room, or the closing of the response, and nothing else lets a call that waits for room go on. */
  lemma ReliefIsDrainOrClose(events: seq<Event>, e: Event)
    requires Run(START, events).point == AwaitDrain
    ensures Step(Run(START, events), e).point == if e.Drain? || e.Close? then LoopHead else AwaitDrain
  {
    StartInv();
    RunKeeps(START, events);
  }

  lemma WaitingStep(s: State, e: Event)
    requires s.point == AwaitDrain && !e.Drain? && !e.Close?
    ensures var t := Step(s, e);
            && t.point == AwaitDrain && t.written == s.written && t.pulls == s.pulls && t.produced == s.produced
            && t.res.endCalls == s.res.endCalls && !(t.res.destroyed && !s.res.destroyed)
            && (t.res.body == s.res.body || t.res.body == s.res.body + " ")
  {
  }

  /** The same text but for spaces at its end. */
  ghost predicate SpacedOut(before: string, after: string) {
    exists n: nat :: after == before + Spaces(n)
  }

  lemma OneMoreSpace(before: string, now: string, after: string)
    requires (now == before || now == before + " ") && SpacedOut(now, after)
    ensures SpacedOut(before, after)
  {
    var n: nat :| after == now + Spaces(n);
    if now != before {
      assert Spaces(n + 1) == " " + Spaces(n);
      assert after == before + Spaces(n + 1);
    }
  }

  /**
   * After a refused write no further fragment is asked for or written, and the response is neither ended nor destroyed
   * here, until it has room or is closed: only the keepalive adds its spaces.
   */
  lemma {:induction false} RefusedWriteWaits(s: State, events: seq<Event>)
    requires s.point == AwaitDrain && NoRelief(events)
    ensures var t := Run(s, events);
            && t.point == AwaitDrain && t.written == s.written && t.pulls == s.pulls && t.produced == s.produced
            && t.res.endCalls == s.res.endCalls && !(t.res.destroyed && !s.res.destroyed)
            && SpacedOut(s.res.body, t.res.body)
    decreases |events|
  {
    if events == [] {
      assert s.res.body == s.res.body + Spaces(0);
    } else {
      var next := Step(s, events[0]);
      WaitingStep(s, events[0]);
      assert forall i :: 0 <= i < |events[1..]| ==> events[1..][i] == events[i + 1];
      RefusedWriteWaits(next, events[1..]);
      OneMoreSpace(s.res.body, next.res.body, Run(next, events[1..]).res.body);
    }
  }
}
