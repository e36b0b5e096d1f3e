/**
 Whole runs of ril_event_loop: the loop thread's three phases interleaved, in any order, with calls from
 callbacks and other threads and with the passing of time. Each step is one critical section, and changes
 the queues by the function that the heap methods of EventQueues are proved to implement.
 */
module EventLoop {
  import opened TimeVals
  import opened EventSpec

  /** Where the loop thread is: before processTimeouts, before processReadReadies, or in firePending. */
  datatype Phase = Selecting | TimedOut | Firing

  datatype Fired<E> = Fired(item: Item<E>, at: int)

  /** mark is the clock at the last processTimeouts; added counts every timer ever queued. */
  datatype Loop<!E> = Loop(q: Queues<E>, clock: TimeVal, phase: Phase, mark: int,
                           log: seq<Fired<E>>, added: multiset<Timer<E>>)

  datatype Step<E> =
    | Tick(now: TimeVal)
    | Call(op: Op<E>)
    | Timeouts
    | Readies(rfds: set<int>, n: int)
    | Fire
    | Done

  ghost predicate Enabled<E>(s: Loop<E>, step: Step<E>)
    requires Consistent(s.q)
  {
    match step
    case Tick(now) => Normal(now) && Micros(s.clock) <= Micros(now)
    case Call(op) =>
      && Allowed(s.q, op)
      && (op.AddTimer? ==> op.now == s.clock && (op.interval.Some? ==> 0 <= Micros(op.interval.value)))
    case Timeouts => s.phase == Selecting
    case Readies(_, _) => s.phase == TimedOut && OnlyExpired(s.q.pending)
    case Fire => s.phase == Firing && s.q.pending != []
    case Done => s.phase == Firing && s.q.pending == []
  }

  ghost predicate OnlyExpired<E>(items: seq<Item<E>>) {
    forall i | 0 <= i < |items| :: items[i].Expired?
  }

  ghost function Next<E>(s: Loop<E>, step: Step<E>): (r: Loop<E>)
    requires Consistent(s.q) && Enabled(s, step)
    ensures Consistent(r.q)
  {
    match step
    case Tick(now) => s.(clock := now)
    case Call(op) =>
      s.(q := Apply(s.q, op),
         added := if op.AddTimer? && op.interval.Some?
                  then s.added + multiset{Timer(op.ev, Micros(op.now) + Micros(op.interval.value))}
                  else s.added)
    case Timeouts => s.(q := Expire(s.q, Micros(s.clock)), phase := TimedOut, mark := Micros(s.clock))
    case Readies(rfds, n) => s.(q := Gather(s.q, rfds, n), phase := Firing)
    case Fire => s.(q := Pop(s.q), log := s.log + [Fired(s.q.pending[0], Micros(s.clock))])
    case Done => s.(phase := Selecting)
  }

  ghost predicate Init<E>(s: Loop<E>) {
    && Consistent(s.q) && s.q.timers == [] && s.q.pending == [] && Normal(s.clock)
    && s.phase == Selecting && s.mark <= Micros(s.clock) && s.log == [] && s.added == multiset{}
  }

  /** The deadlines in items never decrease. */
  ghost predicate InOrder<E>(items: seq<Item<E>>) {
    forall i, j | 0 <= i < j < |items| && items[i].Expired? && items[j].Expired? ::
      items[i].deadline <= items[j].deadline
  }

  ghost function LogItems<E>(log: seq<Fired<E>>): (r: seq<Item<E>>)
    ensures |r| == |log| && forall i | 0 <= i < |r| :: r[i] == log[i].item
  {
    seq(|log|, i requires 0 <= i < |log| => log[i].item)
  }

  ghost function TimersOf<E>(items: seq<Item<E>>): multiset<Timer<E>> {
    if items == [] then multiset{}
    else (if items[0].Expired? then multiset{Timer(items[0].ev, items[0].deadline)} else multiset{})
         + TimersOf(items[1..])
  }

  /** Everything that has fired or is about to, in order. */
  ghost function Released<E>(s: Loop<E>): seq<Item<E>> {
    LogItems(s.log) + s.q.pending
  }

  ghost predicate AllBefore<E>(items: seq<Item<E>>, d: int) {
    forall i | 0 <= i < |items| && items[i].Expired? :: items[i].deadline < d
  }

  ghost predicate AllFrom<E>(ts: seq<Timer<E>>, d: int) {
    forall i | 0 <= i < |ts| :: d <= ts[i].deadline
  }

  ghost predicate FiredLate<E>(log: seq<Fired<E>>) {
    forall i | 0 <= i < |log| && log[i].item.Expired? :: log[i].item.deadline < log[i].at
  }

  ghost predicate Inv<E>(s: Loop<E>) {
    && Consistent(s.q) && Normal(s.clock) && s.mark <= Micros(s.clock)
    && AllFrom(s.q.timers, s.mark) && InOrder(Released(s)) && AllBefore(Released(s), s.mark)
    && FiredLate(s.log)
    && (s.phase == Selecting ==> s.q.pending == [])
    && (s.phase == TimedOut ==> OnlyExpired(s.q.pending))
    && Conserved(s)
  }

  /** Every timer ever queued is still queued, or has been released. */
  ghost predicate Conserved<E>(s: Loop<E>) {
    s.added == multiset(s.q.timers) + TimersOf(Released(s))
  }

  lemma AppendExpired<E>(items: seq<Item<E>>, ts: seq<Timer<E>>, mark: int, now: int)
    requires InOrder(items) && AllBefore(items, mark) && mark <= now
    requires Sorted(ts) && AllFrom(ts, mark) && forall i | 0 <= i < |ts| :: ts[i].deadline < now
    ensures InOrder(items + Items(ts)) && AllBefore(items + Items(ts), now)
  {
  }

  lemma AppendReady<E>(items: seq<Item<E>>, ready: seq<Item<E>>, mark: int)
    requires InOrder(items) && AllBefore(items, mark)
    requires forall i | 0 <= i < |ready| :: ready[i].Readied?
    ensures InOrder(items + ready) && AllBefore(items + ready, mark)
  {
  }

  lemma {:induction false} TimersOfAppend<E>(a: seq<Item<E>>, b: seq<Item<E>>)
    ensures TimersOf(a + b) == TimersOf(a) + TimersOf(b)
    decreases a
  {
    if a == [] {
      assert a + b == b;
    } else {
      assert (a + b)[1..] == a[1..] + b;
      TimersOfAppend(a[1..], b);
    }
  }

  lemma {:induction false} TimersOfItems<E>(ts: seq<Timer<E>>)
    ensures TimersOf(Items(ts)) == multiset(ts)
    decreases ts
  {
    if ts != [] {
      TimersOfItems(ts[1..]);
      assert Items(ts)[1..] == Items(ts[1..]);
      assert ts == [ts[0]] + ts[1..];
    }
  }

  lemma {:induction false} TimersOfReady<E>(slots: seq<Slot<E>>, rfds: set<int>, n: int)
    ensures TimersOf(ReadyItems(slots, rfds, n)) == multiset{}
    ensures forall i | 0 <= i < |ReadyItems(slots, rfds, n)| :: ReadyItems(slots, rfds, n)[i].Readied?
    decreases slots
  {
    if slots != [] && n > 0 {
      TimersOfReady(slots[1..], rfds, if IsReady(slots[0], rfds) then n - 1 else n);
    }
  }

  /** A timer queued now is due no earlier than the last processTimeouts. */
  lemma InsertedFrom<E>(ts: seq<Timer<E>>, t: Timer<E>, mark: int)
    requires AllFrom(ts, mark) && mark <= t.deadline
    ensures AllFrom(InsertTimer(ts, t), mark)
  {
    var k := Leading(ts, t.deadline);
    forall i | 0 <= i < |ts| + 1
      ensures mark <= InsertTimer(ts, t)[i].deadline
    {
      assert i != k ==> InsertTimer(ts, t)[i] == ts[if i < k then i else i - 1];
    }
  }

  /** The timer a call queues, if any. */
  ghost function Added<E>(op: Op<E>): multiset<Timer<E>> {
    if op.AddTimer? && op.interval.Some? then multiset{Timer(op.ev, Micros(op.now) + Micros(op.interval.value))}
    else multiset{}
  }

  lemma ApplyAdds<E>(q: Queues<E>, op: Op<E>)
    requires Consistent(q) && Allowed(q, op)
    ensures multiset(Apply(q, op).timers) == multiset(q.timers) + Added(op)
  {
    hide Consistent, Allowed, InsertTimer, Micros, Forget, FirstEmpty;
  }

  lemma CallParts<E>(s: Loop<E>, op: Op<E>)
    requires Consistent(s.q) && Enabled(s, Call(op))
    ensures Allowed(s.q, op)
    ensures var r := Next(s, Call(op));
            r.q == Apply(s.q, op) && r.log == s.log && r.added == s.added + Added(op)
  {
    hide Consistent, Apply, Allowed;
  }

  lemma GrowBoth<E>(s: Loop<E>, r: Loop<E>, x: multiset<Timer<E>>)
    requires Conserved(s) && r.log == s.log && r.q.pending == s.q.pending
    requires r.added == s.added + x && multiset(r.q.timers) == multiset(s.q.timers) + x
    ensures Conserved(r)
  {
    hide TimersOf;
  }

  lemma CallConserves<E>(s: Loop<E>, op: Op<E>)
    requires Consistent(s.q) && Conserved(s) && Enabled(s, Call(op))
    ensures Conserved(Next(s, Call(op)))
  {
    hide Consistent, Conserved, Allowed, Apply, Next, Added;
    CallParts(s, op);
    ApplyAdds(s.q, op);
    GrowBoth(s, Next(s, Call(op)), Added(op));
  }

  lemma CallKeeps<E>(s: Loop<E>, op: Op<E>)
    requires Inv(s) && Enabled(s, Call(op))
    ensures Inv(Next(s, Call(op)))
  {
    hide Consistent, InsertTimer, AllFrom, AllBefore, InOrder, FiredLate, Sorted;
    CallConserves(s, op);
    hide Conserved;
    var r := Next(s, Call(op));
    assert Released(r) == Released(s);
    if op.AddTimer? && op.interval.Some? {
      InsertedFrom(s.q.timers, Timer(op.ev, Micros(op.now) + Micros(op.interval.value)), s.mark);
    } else {
      assert r.q.timers == s.q.timers;
    }
  }

  lemma TimeoutsKeeps<E>(s: Loop<E>)
    requires Inv(s) && Enabled(s, Timeouts)
    ensures Inv(Next(s, Timeouts))
  {
    hide Consistent, Sorted, InOrder, AllBefore, AllFrom, FiredLate, Conserved, Expire;
    var now, r := Micros(s.clock), Next(s, Timeouts);
    var moved := ExpireSplit(s.q, now);
    PrefixFrom(moved, r.q.timers, s.mark);
    AllFromExpire(s.q, now);
    assert Released(r) == Released(s) + Items(moved);
    AppendExpired(Released(s), moved, s.mark, now);
    TimeoutsConserve(s);
  }

  lemma TimeoutsConserve<E>(s: Loop<E>)
    requires Consistent(s.q) && Enabled(s, Timeouts) && Conserved(s)
    ensures Conserved(Next(s, Timeouts))
  {
    hide Consistent, Sorted, TimersOf, Expire, Items, LogItems;
    var r := Next(s, Timeouts);
    var moved := ExpireSplit(s.q, Micros(s.clock));
    ReleaseConserves(moved, r.q.timers, Released(s));
    assert Released(r) == Released(s) + Items(moved);
  }

  lemma ReleaseConserves<E>(moved: seq<Timer<E>>, rest: seq<Timer<E>>, released: seq<Item<E>>)
    ensures multiset(moved + rest) + TimersOf(released) == multiset(rest) + TimersOf(released + Items(moved))
  {
    hide TimersOf, Items;
    TimersOfAppend(released, Items(moved));
    TimersOfItems(moved);
  }

  lemma PrefixFrom<E>(a: seq<Timer<E>>, b: seq<Timer<E>>, d: int)
    requires AllFrom(a + b, d)
    ensures AllFrom(a, d)
  {
    assert forall i | 0 <= i < |a| :: a[i] == (a + b)[i];
  }

  lemma AllFromExpire<E>(q: Queues<E>, now: int)
    requires Consistent(q)
    ensures AllFrom(Expire(q, now).timers, now)
  {
  }

  lemma ReadiesKeeps<E>(s: Loop<E>, rfds: set<int>, n: int)
    requires Inv(s) && Enabled(s, Readies(rfds, n))
    ensures Inv(Next(s, Readies(rfds, n)))
  {
    hide Consistent, InOrder, AllBefore, AllFrom, FiredLate, TimersOf, ReadyItems;
    var ready := ReadyItems(s.q.slots, rfds, n);
    TimersOfReady(s.q.slots, rfds, n);
    AppendReady(Released(s), ready, s.mark);
    TimersOfAppend(Released(s), ready);
    assert Released(Next(s, Readies(rfds, n))) == Released(s) + ready;
  }

  lemma FireKeeps<E>(s: Loop<E>)
    requires Inv(s) && Enabled(s, Fire)
    ensures Inv(Next(s, Fire))
  {
    hide Consistent, InOrder, AllFrom, TimersOf;
    var r := Next(s, Fire);
    assert Released(r) == Released(s);
    assert s.q.pending[0] == Released(s)[|s.log|];
  }

  lemma StepKeeps<E>(s: Loop<E>, step: Step<E>)
    requires Inv(s) && Enabled(s, step)
    ensures Inv(Next(s, step))
  {
    match step
    case Tick(now) => assert Released(Next(s, step)) == Released(s);
    case Call(op) => CallKeeps(s, op);
    case Timeouts => TimeoutsKeeps(s);
    case Readies(rfds, n) => ReadiesKeeps(s, rfds, n);
    case Fire => FireKeeps(s);
    case Done => assert Released(Next(s, step)) == Released(s);
  }

  ghost predicate Legal<E>(s: Loop<E>, run: seq<Step<E>>)
    requires Consistent(s.q)
    decreases run
  {
    run != [] ==> Enabled(s, run[0]) && Legal(Next(s, run[0]), run[1..])
  }

  ghost function Run<E>(s: Loop<E>, run: seq<Step<E>>): (r: Loop<E>)
    requires Consistent(s.q) && Legal(s, run)
    ensures Consistent(r.q)
    decreases run
  {
    if run == [] then s else Run(Next(s, run[0]), run[1..])
  }

  lemma {:induction false} RunKeeps<E>(s: Loop<E>, run: seq<Step<E>>)
    requires Inv(s) && Legal(s, run)
    ensures Inv(Run(s, run))
    decreases run
  {
    if run != [] {
      StepKeeps(s, run[0]);
      RunKeeps(Next(s, run[0]), run[1..]);
    }
  }

  /** Over a whole run the deadlines fired never decrease, and none fires before the clock is past it. */
  lemma {:induction false} TimersFireInOrder<E>(s: Loop<E>, run: seq<Step<E>>)
    requires Init(s) && Legal(s, run)
    ensures var log := Run(s, run).log;
            && (forall i, j | 0 <= i < j < |log| && log[i].item.Expired? && log[j].item.Expired? ::
                  log[i].item.deadline <= log[j].item.deadline)
            && (forall i | 0 <= i < |log| && log[i].item.Expired? :: log[i].item.deadline < log[i].at)
  {
    hide Consistent, Conserved, AllFrom, AllBefore, Run, Next;
    InitInv(s);
    RunKeeps(s, run);
    var r := Run(s, run);
    assert forall i | 0 <= i < |r.log| :: Released(r)[i] == r.log[i].item;
  }

  lemma InitInv<E>(s: Loop<E>)
    requires Init(s)
    ensures Inv(s)
  {
    assert Released(s) == [];
  }

  /** No timer is lost or fired twice: each one ever queued is queued, pending or fired, exactly once. */
  lemma {:induction false} TimersConserved<E>(s: Loop<E>, run: seq<Step<E>>)
    requires Init(s) && Legal(s, run)
    ensures var r := Run(s, run);
            r.added == multiset(r.q.timers) + TimersOf(r.q.pending) + TimersOf(LogItems(r.log))
  {
    hide Consistent, AllFrom, AllBefore, InOrder, FiredLate, Run, Next;
    InitInv(s);
    RunKeeps(s, run);
    var r := Run(s, run);
    TimersOfAppend(LogItems(r.log), r.q.pending);
  }

  /** Callbacks and other threads never leave the loop thread without its next step. */
  lemma {:induction false} LoopNeverStuck<E>(s: Loop<E>, run: seq<Step<E>>, rfds: set<int>, n: int)
    requires Init(s) && Legal(s, run)
    ensures var r := Run(s, run);
            match r.phase
            case Selecting => Enabled(r, Timeouts) && r.q.pending == []
            case TimedOut => Enabled(r, Readies(rfds, n))
            case Firing => Enabled(r, Fire) || Enabled(r, Done)
  {
    hide Consistent, AllFrom, AllBefore, InOrder, FiredLate, Conserved, Run, Next;
    InitInv(s);
    RunKeeps(s, run);
  }
}
