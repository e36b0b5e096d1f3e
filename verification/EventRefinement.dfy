/**
 What EventQueues.LoopPass does is a run of EventLoop: one turn of ril_event_loop, with everything that
 callbacks and other threads do meanwhile, is a sequence of its steps, so its results hold of the class.
 */
module EventRefinement {
  import opened TimeVals
  import opened EventSpec
  import L = EventLoop

  lemma {:induction false} Then<E>(s: L.Loop<E>, a: seq<L.Step<E>>, b: seq<L.Step<E>>)
    requires Consistent(s.q) && L.Legal(s, a) && L.Legal(L.Run(s, a), b)
    ensures L.Legal(s, a + b) && L.Run(s, a + b) == L.Run(L.Run(s, a), b)
    decreases a
  {
    hide Consistent, L.Next, L.Enabled;
    if a == [] {
      assert a + b == b;
    } else {
      Then(L.Next(s, a[0]), a[1..], b);
      assert (a + b)[1..] == a[1..] + b;
    }
  }

  lemma Just<E>(s: L.Loop<E>, step: L.Step<E>)
    requires Consistent(s.q) && L.Enabled(s, step)
    ensures L.Legal(s, [step]) && L.Run(s, [step]) == L.Next(s, step)
  {
    hide Consistent, L.Next, L.Enabled;
    assert [step][1..] == [];
  }

  lemma Nothing<E>(s: L.Loop<E>)
    requires Consistent(s.q)
    ensures L.Legal(s, []) && L.Run(s, []) == s
  {
  }

  // ---------- calls ----------

  /** The clock readings of the calls never go back, and intervals are not negative. */
  ghost predicate Paced<E>(clock: TimeVal, ops: seq<Op<E>>)
    decreases ops
  {
    ops != [] ==>
      && (ops[0].AddTimer? ==>
            && Normal(ops[0].now) && Micros(clock) <= Micros(ops[0].now)
            && (ops[0].interval.Some? ==> 0 <= Micros(ops[0].interval.value)))
      && Paced(ClockAfter(clock, ops[0]), ops[1..])
  }

  ghost function ClockAfter<E>(clock: TimeVal, op: Op<E>): TimeVal {
    if op.AddTimer? then op.now else clock
  }

  ghost function EndClock<E>(clock: TimeVal, ops: seq<Op<E>>): TimeVal
    decreases ops
  {
    if ops == [] then clock else EndClock(ClockAfter(clock, ops[0]), ops[1..])
  }

  ghost function OpSteps<E>(op: Op<E>): seq<L.Step<E>> {
    if op.AddTimer? then [L.Tick(op.now), L.Call(op)] else [L.Call(op)]
  }

  ghost function OpsSteps<E>(ops: seq<Op<E>>): seq<L.Step<E>>
    decreases ops
  {
    if ops == [] then [] else OpSteps(ops[0]) + OpsSteps(ops[1..])
  }

  lemma OpIsRun<E>(s: L.Loop<E>, op: Op<E>)
    requires Consistent(s.q) && Allowed(s.q, op) && Paced(s.clock, [op])
    ensures L.Legal(s, OpSteps(op))
    ensures var r := L.Run(s, OpSteps(op));
            && r.q == Apply(s.q, op) && r.phase == s.phase && r.log == s.log && r.clock == ClockAfter(s.clock, op)
  {
    hide Consistent, Allowed, Apply, L.Legal, L.Run;
    if op.AddTimer? {
      var t := L.Next(s, L.Tick(op.now));
      Just(s, L.Tick(op.now));
      Just(t, L.Call(op));
      Then(s, [L.Tick(op.now)], [L.Call(op)]);
      assert [L.Tick(op.now)] + [L.Call(op)] == OpSteps(op);
    } else {
      Just(s, L.Call(op));
    }
  }

  lemma {:induction false} OpsAreRun<E>(s: L.Loop<E>, ops: seq<Op<E>>)
    requires Consistent(s.q) && AllAllowed(s.q, ops) && Paced(s.clock, ops)
    ensures L.Legal(s, OpsSteps(ops))
    ensures var r := L.Run(s, OpsSteps(ops));
            && r.q == ApplyAll(s.q, ops) && r.phase == s.phase && r.log == s.log && r.clock == EndClock(s.clock, ops)
    decreases ops
  {
    hide Consistent, Allowed, Apply, L.Legal, L.Run, OpSteps;
    if ops == [] {
      Nothing(s);
    } else {
      OpIsRun(s, ops[0]);
      var t := L.Run(s, OpSteps(ops[0]));
      OpsAreRun(t, ops[1..]);
      Then(s, OpSteps(ops[0]), OpsSteps(ops[1..]));
    }
  }

  // ---------- firing ----------

  ghost predicate AllPaced<E>(clock: TimeVal, scripts: seq<seq<Op<E>>>)
    decreases scripts
  {
    scripts != [] ==> Paced(clock, scripts[0]) && AllPaced(EndClock(clock, scripts[0]), scripts[1..])
  }

  /** Each pending event is called, and meanwhile its script runs. */
  ghost function FireSteps<E>(scripts: seq<seq<Op<E>>>): seq<L.Step<E>>
    decreases scripts
  {
    if scripts == [] then [] else [L.Fire] + OpsSteps(scripts[0]) + FireSteps(scripts[1..])
  }

  lemma {:induction false} FiresAreRun<E>(s: L.Loop<E>, scripts: seq<seq<Op<E>>>)
    requires Consistent(s.q) && s.phase.Firing? && Fireable(s.q, scripts) && AllPaced(s.clock, scripts)
    ensures L.Legal(s, FireSteps(scripts))
    ensures var r := L.Run(s, FireSteps(scripts));
            && r.q == FireAll(s.q, scripts) && r.phase.Firing?
            && L.LogItems(r.log) == L.LogItems(s.log) + s.q.pending
    decreases scripts
  {
    hide Consistent, AllAllowed, ApplyAll, L.Legal, L.Run, OpsSteps, Paced;
    if scripts == [] {
      Nothing(s);
    } else {
      var t := L.Next(s, L.Fire);
      Just(s, L.Fire);
      OpsAreRun(t, scripts[0]);
      var u := L.Run(t, OpsSteps(scripts[0]));
      Then(s, [L.Fire], OpsSteps(scripts[0]));
      FiresAreRun(u, scripts[1..]);
      Then(s, [L.Fire] + OpsSteps(scripts[0]), FireSteps(scripts[1..]));
      assert L.LogItems(u.log) == L.LogItems(s.log) + [s.q.pending[0]];
    }
  }

  // ---------- a turn of the loop ----------

  ghost function PassSteps<E>(inSelect: seq<Op<E>>, rfds: set<int>, n: int, now: TimeVal, between: seq<Op<E>>,
                              scripts: seq<seq<Op<E>>>): seq<L.Step<E>> {
    OpsSteps(inSelect)
    + if n < 0 then []
      else [L.Tick(now), L.Timeouts] + OpsSteps(between) + [L.Readies(rfds, n)] + FireSteps(scripts) + [L.Done]
  }

  /** The clock readings of a turn never go back. */
  ghost predicate PassPaced<E>(clock: TimeVal, inSelect: seq<Op<E>>, n: int, now: TimeVal, between: seq<Op<E>>,
                               scripts: seq<seq<Op<E>>>) {
    && Paced(clock, inSelect)
    && (n >= 0 ==>
          && Micros(EndClock(clock, inSelect)) <= Micros(now)
          && Paced(now, between) && AllPaced(EndClock(now, between), scripts))
  }

  /**
   One turn of ril_event_loop is a run: it ends in the queues that the contract of LoopPass names, at select
   again, and has fired what was pending, in order.
   */
  lemma {:induction false} PassIsRun<E>(s: L.Loop<E>, inSelect: seq<Op<E>>, rfds: set<int>, n: int, now: TimeVal,
                                        between: seq<Op<E>>, scripts: seq<seq<Op<E>>>)
    requires Consistent(s.q) && s.q.pending == [] && s.phase.Selecting?
    requires PassAllowed(s.q, inSelect, rfds, n, now, between, scripts)
    requires PassPaced(s.clock, inSelect, n, now, between, scripts)
    ensures L.Legal(s, PassSteps(inSelect, rfds, n, now, between, scripts))
    ensures var r := L.Run(s, PassSteps(inSelect, rfds, n, now, between, scripts));
            && r.phase.Selecting? && r.q.pending == []
            && (n < 0 ==> r.q == ApplyAll(s.q, inSelect) && r.log == s.log)
            && (n >= 0 ==>
                  && r.q == FireAll(AtFiring(s.q, inSelect, rfds, n, now, between), scripts)
                  && L.LogItems(r.log)
                     == L.LogItems(s.log) + AtFiring(s.q, inSelect, rfds, n, now, between).pending)
  {
    hide Consistent, AllAllowed, ApplyAll, Expire, Gather, Fireable, FireAll, L.Legal, L.Run;
    hide OpsSteps, FireSteps, Paced, L.LogItems;
    OpsAreRun(s, inSelect);
    var a := OpsSteps(inSelect);
    var s1 := L.Run(s, a);
    if n < 0 {
      assert a + [] == a;
    } else {
      var s2 := TimeoutsRun(s1, now);
      var b := [L.Tick(now), L.Timeouts];
      Then(s, a, b);
      OpsAreRun(s2, between);
      var c := OpsSteps(between);
      Then(s, a + b, c);
      var s3 := L.Run(s2, c);
      StillExpired(s1.q, Micros(now), between);
      Just(s3, L.Readies(rfds, n));
      Then(s, a + b + c, [L.Readies(rfds, n)]);
      var s4 := L.Next(s3, L.Readies(rfds, n));
      FiresAreRun(s4, scripts);
      Then(s, a + b + c + [L.Readies(rfds, n)], FireSteps(scripts));
      var s5 := L.Run(s4, FireSteps(scripts));
      Just(s5, L.Done);
      Then(s, a + b + c + [L.Readies(rfds, n)] + FireSteps(scripts), [L.Done]);
      assert a + (b + c + [L.Readies(rfds, n)] + FireSteps(scripts) + [L.Done])
          == a + b + c + [L.Readies(rfds, n)] + FireSteps(scripts) + [L.Done];
    }
  }

  lemma TimeoutsRun<E>(s: L.Loop<E>, now: TimeVal) returns (r: L.Loop<E>)
    requires Consistent(s.q) && s.phase.Selecting? && Normal(now) && Micros(s.clock) <= Micros(now)
    ensures L.Legal(s, [L.Tick(now), L.Timeouts]) && r == L.Run(s, [L.Tick(now), L.Timeouts])
    ensures r.q == Expire(s.q, Micros(now)) && r.phase.TimedOut? && r.clock == now && r.log == s.log
  {
    hide Consistent, Expire, L.Legal, L.Run;
    var t := L.Next(s, L.Tick(now));
    Just(s, L.Tick(now));
    Just(t, L.Timeouts);
    var a: seq<L.Step<E>>, b: seq<L.Step<E>> := [L.Tick(now)], [L.Timeouts];
    Then(s, a, b);
    assert a + b == [L.Tick(now), L.Timeouts];
    r := L.Next(t, L.Timeouts);
  }

  lemma StillExpired<E>(q: Queues<E>, now: int, between: seq<Op<E>>)
    requires Consistent(q) && q.pending == [] && AllAllowed(Expire(q, now), between)
    ensures L.OnlyExpired(ApplyAll(Expire(q, now), between).pending)
  {
    hide Consistent, AllAllowed;
  }
}
