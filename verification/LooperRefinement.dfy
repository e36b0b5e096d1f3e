/**
 What the methods of Looper do is a run of the protocol: a whole poll, with everything that handlers,
 callbacks and other threads do meanwhile, is a sequence of steps of LooperProtocol, so its results hold of
 the class.
 */
module LooperRefinement {
  import opened LooperSpec
  import opened Loopers
  import P = LooperProtocol

  /** The protocol's world shows the shared state; every wake byte that is due has been written. */
  ghost predicate Shows(w: P.World, s: State) {
    w.queue == s.envelopes && w.sends == s.sends && w.bytes == s.wakeBytes && w.owed == 0
  }

  lemma {:induction false} Then(w: P.World, a: seq<P.Step>, b: seq<P.Step>)
    requires P.Legal(w, a) && P.Legal(P.Run(w, a), b)
    ensures P.Legal(w, a + b) && P.Run(w, a + b) == P.Run(P.Run(w, a), b)
    decreases a
  {
    hide P.Next, P.Enabled;
    if a == [] {
      assert a + b == b;
    } else {
      Then(P.Next(w, a[0]), a[1..], b);
      assert (a + b)[1..] == a[1..] + b;
    }
  }

  lemma Just(w: P.World, step: P.Step)
    requires P.Enabled(w, step)
    ensures P.Legal(w, [step]) && P.Run(w, [step]) == P.Next(w, step)
  {
  }

  // ---------- calls made while the lock is free ----------

  ghost predicate Bounded(calls: seq<Call>) {
    forall i | 0 <= i < |calls| && calls[i].SendCall? :: calls[i].uptime <= LLONG_MAX
  }

  ghost function CallSteps(s: State, c: Call): seq<P.Step> {
    match c
    case SendCall(uptime, handler, what) =>
      [P.Send(uptime, handler, what)]
      + if !s.sending && SendPos(s.envelopes, uptime) == 0 then [P.WriteWake(false)] else []
    case RemoveCall(handler, only) => [P.RemoveMessages(handler, only)]
    case _ => []
  }

  ghost function CallsSteps(s: State, allow: bool, calls: seq<Call>): seq<P.Step>
    decreases calls
  {
    if calls == [] then [] else CallSteps(s, calls[0]) + CallsSteps(Perform(s, allow, calls[0]), allow, calls[1..])
  }

  /** What stays as it is while others make their calls. */
  ghost predicate SameLooper(a: P.World, b: P.World) {
    a.pc == b.pc && a.clock == b.clock && a.nextUptime == b.nextUptime && a.sending == b.sending
  }

  lemma CallIsRun(w: P.World, s: State, allow: bool, c: Call)
    requires Shows(w, s) && w.sending == s.sending && (c.SendCall? ==> c.uptime <= LLONG_MAX)
    ensures P.Legal(w, CallSteps(s, c))
    ensures var r := P.Run(w, CallSteps(s, c));
            Shows(r, Perform(s, allow, c)) && SameLooper(w, r) && Perform(s, allow, c).sending == s.sending
  {
    hide P.Legal, P.Run, Insert, Remove, AddFd, RemoveFd;
    match c
    case SendCall(uptime, handler, what) =>
      var w1 := P.Next(w, P.Send(uptime, handler, what));
      Just(w, P.Send(uptime, handler, what));
      if !s.sending && SendPos(s.envelopes, uptime) == 0 {
        Just(w1, P.WriteWake(false));
        Then(w, [P.Send(uptime, handler, what)], [P.WriteWake(false)]);
      } else {
        assert [P.Send(uptime, handler, what)] + [] == [P.Send(uptime, handler, what)];
      }
    case RemoveCall(handler, only) => Just(w, P.RemoveMessages(handler, only));
    case AddFdCall(request, events, granted) =>
      Nothing(w);
      AddFdApart(s, allow, request, events, granted);
    case RemoveFdCall(fd, granted) =>
      Nothing(w);
      RemoveFdApart(s, fd, granted);
  }

  lemma Nothing(w: P.World)
    ensures P.Legal(w, []) && P.Run(w, []) == w
  {
  }

  /** Descriptors and messages do not touch each other. */
  lemma AddFdApart(s: State, allow: bool, r: Request, events: int, granted: bool)
    ensures var t := AddFd(s, allow, r, events, granted).0;
            t.envelopes == s.envelopes && t.sends == s.sends && t.wakeBytes == s.wakeBytes && t.sending == s.sending
  {
  }

  lemma RemoveFdApart(s: State, fd: int, granted: bool)
    ensures var t := RemoveFd(s, fd, granted).0;
            t.envelopes == s.envelopes && t.sends == s.sends && t.wakeBytes == s.wakeBytes && t.sending == s.sending
  {
  }

  lemma {:induction false} CallsAreRun(w: P.World, s: State, allow: bool, calls: seq<Call>)
    requires Shows(w, s) && w.sending == s.sending && Bounded(calls)
    ensures P.Legal(w, CallsSteps(s, allow, calls))
    ensures var r := P.Run(w, CallsSteps(s, allow, calls));
            && Shows(r, PerformAll(s, allow, calls)) && SameLooper(w, r)
            && PerformAll(s, allow, calls).sending == s.sending
    decreases calls
  {
    hide P.Legal, P.Run, Perform, CallSteps;
    if calls == [] {
      Nothing(w);
    } else {
      CallIsRun(w, s, allow, calls[0]);
      var w1, s1 := P.Run(w, CallSteps(s, calls[0])), Perform(s, allow, calls[0]);
      assert forall i | 0 <= i < |calls[1..]| :: calls[1..][i] == calls[i + 1];
      CallsAreRun(w1, s1, allow, calls[1..]);
      Then(w, CallSteps(s, calls[0]), CallsSteps(s1, allow, calls[1..]));
    }
  }

  // ---------- the message loop ----------

  /** The clock never goes back, from now through the readings of the loop. */
  ghost predicate Clocked(now: int, turns: seq<Turn>, lastNow: int)
    decreases turns
  {
    if turns == [] then now <= lastNow
    else now <= turns[0].now && Bounded(turns[0].calls) && Clocked(turns[0].now, turns[1..], lastNow)
  }

  /** first takes the lock: on waking, or when a handler is done. */
  ghost function LoopSteps(s: State, allow: bool, turns: seq<Turn>, lastNow: int, first: P.Step): seq<P.Step>
    requires Turns(s, allow, turns, lastNow)
    decreases turns
  {
    if turns == [] then [P.Tick(lastNow), first]
    else
      [P.Tick(turns[0].now), first] + CallsSteps(TakeHead(s), allow, turns[0].calls)
      + LoopSteps(AfterTurn(s, allow, turns[0]), allow, turns[1..], lastNow, P.HandlerDone)
  }

  /** The looper thread is about to take the lock by the step first, and will then find s. */
  ghost predicate AtLoopHead(w: P.World, s: State, first: P.Step) {
    && w.queue == s.envelopes && w.sends == s.sends && w.owed == 0
    && ((first == P.HandlerDone && w.pc.Handling? && w.bytes == s.wakeBytes)
        || (first.Lock? && w.pc.Woken? && first.left == s.wakeBytes <= w.bytes))
  }

  /** One look at the queue at time now. */
  ghost function Looked(w: P.World, now: int, first: P.Step): P.World
    requires w.clock <= now && P.Enabled(P.Next(w, P.Tick(now)), first)
  {
    P.Next(P.Next(w, P.Tick(now)), first)
  }

  lemma LookIsRun(w: P.World, s: State, now: int, first: P.Step)
    requires AtLoopHead(w, s, first) && w.clock <= now
    ensures P.Enabled(P.Next(w, P.Tick(now)), first)
    ensures P.Legal(w, [P.Tick(now), first]) && P.Run(w, [P.Tick(now), first]) == Looked(w, now, first)
    ensures var r := Looked(w, now, first);
            && r.clock == now
            && if Due(s.envelopes, now) then
                 Shows(r, TakeHead(s)) && r.sending && r.pc == P.Handling
               else
                 Shows(r, s) && !r.sending && r.pc == P.Calling && r.nextUptime == NextUptime(s.envelopes)
  {
    hide P.Legal, P.Run;
    var w1 := P.Next(w, P.Tick(now));
    Just(w, P.Tick(now));
    Just(w1, first);
    Then(w, [P.Tick(now)], [first]);
    assert [P.Tick(now)] + [first] == [P.Tick(now), first];
  }

  lemma {:induction false} LoopIsRun(w: P.World, s: State, allow: bool, turns: seq<Turn>, lastNow: int, first: P.Step)
    requires AtLoopHead(w, s, first) && Turns(s, allow, turns, lastNow) && Clocked(w.clock, turns, lastNow)
    ensures P.Legal(w, LoopSteps(s, allow, turns, lastNow, first))
    ensures var r, t := P.Run(w, LoopSteps(s, allow, turns, lastNow, first)), AfterTurns(s, allow, turns, lastNow);
            && Shows(r, t) && !r.sending && r.pc == P.Calling
            && r.nextUptime == NextUptime(t.envelopes) && r.clock == lastNow
    decreases turns
  {
    hide P.Legal, P.Run, P.Next, P.Enabled, CallsSteps, PerformAll, Looked;
    if turns == [] {
      LookIsRun(w, s, lastNow, first);
    } else {
      var now, calls := turns[0].now, turns[0].calls;
      LookIsRun(w, s, now, first);
      var w1 := Looked(w, now, first);
      CallsAreRun(w1, TakeHead(s), allow, calls);
      var steps := CallsSteps(TakeHead(s), allow, calls);
      var w2, s2 := P.Run(w1, steps), AfterTurn(s, allow, turns[0]);
      LoopIsRun(w2, s2, allow, turns[1..], lastNow, P.HandlerDone);
      Then(w, [P.Tick(now), first], steps);
      Then(w, [P.Tick(now), first] + steps, LoopSteps(s2, allow, turns[1..], lastNow, P.HandlerDone));
    }
  }

  // ---------- callbacks ----------

  ghost predicate AllBounded(cs: seq<Callback>) {
    forall i | 0 <= i < |cs| :: Bounded(cs[i].calls)
  }

  ghost function CallbackSteps(s: State, allow: bool, rs: seq<Response>, cs: seq<Callback>): seq<P.Step>
    requires |rs| == |cs|
    decreases rs
  {
    if rs == [] then []
    else
      var n := |rs| - 1;
      CallbackSteps(s, allow, rs[..n], cs[..n])
      + if rs[n].request.ident != POLL_CALLBACK then []
        else CallsSteps(AfterCallbacks(s, allow, rs[..n], cs[..n]), allow, cs[n].calls)
  }

  lemma {:induction false} CallbacksAreRun(w: P.World, s: State, allow: bool, rs: seq<Response>, cs: seq<Callback>)
    requires Shows(w, s) && w.sending == s.sending && |rs| == |cs| && AllBounded(cs)
    ensures P.Legal(w, CallbackSteps(s, allow, rs, cs))
    ensures var r, t := P.Run(w, CallbackSteps(s, allow, rs, cs)), AfterCallbacks(s, allow, rs, cs);
            Shows(r, t) && SameLooper(w, r) && t.sending == s.sending
    decreases rs
  {
    hide P.Legal, P.Run, CallsSteps, PerformAll, RemoveFd;
    if rs == [] {
      Nothing(w);
    } else {
      var n := |rs| - 1;
      CallbacksAreRun(w, s, allow, rs[..n], cs[..n]);
      var steps, s1 := CallbackSteps(s, allow, rs[..n], cs[..n]), AfterCallbacks(s, allow, rs[..n], cs[..n]);
      var w1 := P.Run(w, steps);
      if rs[n].request.ident == POLL_CALLBACK {
        CallsAreRun(w1, s1, allow, cs[n].calls);
        RemoveFdApart(PerformAll(s1, allow, cs[n].calls), rs[n].request.fd, cs[n].granted);
        Then(w, steps, CallsSteps(s1, allow, cs[n].calls));
      } else {
        assert steps + [] == steps;
      }
    }
  }

  // ---------- a whole poll ----------

  ghost function PollSteps(s: State, allow: bool, wakeFd: int, caller: int, delay: int, waiting: seq<Call>, poll: Poll,
                           turns: seq<Turn>, lastNow: int, callbacks: seq<Callback>): seq<P.Step>
    requires Inv(s, wakeFd) && PollPossible(s, allow, wakeFd, waiting, poll, turns, lastNow, callbacks)
  {
    var t := AtLock(s, allow, wakeFd, waiting, poll);
    [P.Prepare(caller, delay), P.Block] + CallsSteps(s, allow, waiting) + [P.Ready]
    + LoopSteps(t, allow, turns, lastNow, P.Lock(t.wakeBytes))
    + CallbackSteps(AfterTurns(t, allow, turns, lastNow), allow, NewResponses(s, allow, wakeFd, waiting, poll),
                    callbacks)
    + [P.Leave]
  }

  lemma EnterIsRun(w: P.World, caller: int, delay: int)
    requires w.pc.Outside? && (w.nextUptime != LLONG_MAX ==> CoversDelay(delay, w.clock, w.nextUptime))
    ensures P.Legal(w, [P.Prepare(caller, delay), P.Block])
    ensures P.Run(w, [P.Prepare(caller, delay), P.Block])
         == w.(pc := P.Blocked(caller, delay, w.clock, w.clock))
  {
    var w1 := P.Next(w, P.Prepare(caller, delay));
    Just(w1, P.Block);
    assert [P.Prepare(caller, delay), P.Block][1..] == [P.Block];
  }

  lemma AtLockWakes(s: State, allow: bool, wakeFd: int, waiting: seq<Call>, poll: Poll)
    ensures var t, u := AtLock(s, allow, wakeFd, waiting, poll), PerformAll(s, allow, waiting);
            t.envelopes == u.envelopes && t.sends == u.sends && t.wakeBytes <= u.wakeBytes && t.sending == u.sending
  {
  }

  lemma {:induction false} TurnsSending(s: State, allow: bool, turns: seq<Turn>, lastNow: int)
    requires Turns(s, allow, turns, lastNow) && !s.sending
    ensures !AfterTurns(s, allow, turns, lastNow).sending
    decreases turns
  {
    if turns != [] {
      TurnsSending(AfterTurn(s, allow, turns[0]), allow, turns[1..], lastNow);
    }
  }

  /**
   A call of pollInner is a run of the protocol. It starts and ends with the looper outside, in worlds that
   show the shared state before the call and the one its contract names, and its time-out is the protocol's.
   */
  lemma PollIsRun(w: P.World, s: State, allow: bool, wakeFd: int, caller: int, delay: int, waiting: seq<Call>,
                  poll: Poll, turns: seq<Turn>, lastNow: int, callbacks: seq<Callback>)
    requires Shows(w, s) && !w.sending && !s.sending && w.pc.Outside?
    requires w.nextUptime != LLONG_MAX ==> CoversDelay(delay, w.clock, w.nextUptime)
    requires Inv(s, wakeFd) && PollPossible(s, allow, wakeFd, waiting, poll, turns, lastNow, callbacks)
    requires Bounded(waiting) && Clocked(w.clock, turns, lastNow) && AllBounded(callbacks)
    ensures P.Timeout(w.(pc := P.Blocked(caller, delay, w.clock, w.clock)))
         == EffectiveTimeout(caller, w.nextUptime, delay)
    ensures var steps := PollSteps(s, allow, wakeFd, caller, delay, waiting, poll, turns, lastNow, callbacks);
            && P.Legal(w, steps)
            && var r := P.Run(w, steps);
               var looped := AfterTurns(AtLock(s, allow, wakeFd, waiting, poll), allow, turns, lastNow);
               && Shows(r, AfterCallbacks(looped, allow, NewResponses(s, allow, wakeFd, waiting, poll), callbacks))
               && r.pc.Outside? && !r.sending && r.nextUptime == NextUptime(looped.envelopes)
  {
    hide P.Legal, P.Run, P.Next, P.Enabled, CallsSteps, LoopSteps, CallbackSteps, Inv, PerformAll, AfterTurns, Turns;
    hide AfterCallbacks, CoversDelay, AtLock, NewResponses, EffectiveTimeout;
    var enter := [P.Prepare(caller, delay), P.Block];
    EnterIsRun(w, caller, delay);
    var w1 := P.Run(w, enter);
    var calls := CallsSteps(s, allow, waiting);
    CallsAreRun(w1, s, allow, waiting);
    Then(w, enter, calls);
    var w2 := P.Run(w1, calls);
    var w3 := Waken(w2);
    Then(w, enter + calls, [P.Ready]);
    var t := AtLock(s, allow, wakeFd, waiting, poll);
    AtLockWakes(s, allow, wakeFd, waiting, poll);
    var loop := LoopSteps(t, allow, turns, lastNow, P.Lock(t.wakeBytes));
    LoopIsRun(w3, t, allow, turns, lastNow, P.Lock(t.wakeBytes));
    TurnsSending(t, allow, turns, lastNow);
    Then(w, enter + calls + [P.Ready], loop);
    var w4, s4 := P.Run(w3, loop), AfterTurns(t, allow, turns, lastNow);
    var rs := NewResponses(s, allow, wakeFd, waiting, poll);
    CallbacksAreRun(w4, s4, allow, rs, callbacks);
    Then(w, enter + calls + [P.Ready] + loop, CallbackSteps(s4, allow, rs, callbacks));
    var w5 := P.Run(w4, CallbackSteps(s4, allow, rs, callbacks));
    LeaveIsRun(w5);
    Then(w, enter + calls + [P.Ready] + loop + CallbackSteps(s4, allow, rs, callbacks), [P.Leave]);
  }

  lemma Waken(w: P.World) returns (r: P.World)
    requires w.pc.Blocked?
    ensures P.Legal(w, [P.Ready]) && r == P.Run(w, [P.Ready]) && r == w.(pc := P.Woken)
  {
    Just(w, P.Ready);
    r := P.Next(w, P.Ready);
  }

  lemma LeaveIsRun(w: P.World)
    requires w.pc.Calling?
    ensures P.Legal(w, [P.Leave]) && P.Run(w, [P.Leave]) == w.(pc := P.Outside)
  {
    Just(w, P.Leave);
  }
}
