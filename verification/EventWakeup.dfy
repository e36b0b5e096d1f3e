/**
 How other threads wake the libril event loop. ril_event_loop copies the descriptor set, computes its
 time-out, and sleeps in select; a thread that adds a timer or a watch writes a byte to the wake pipe
 afterwards, in a step of its own. The pipe's own watch is persistent, and its callback empties the pipe.
 */
module EventWakeup {
  import opened TimeVals
  import opened Wrappers
  import opened EventSpec
  import L = EventLoop

  /**
   The loop thread on its way around select: fds is the copied descriptor set; target is the least deadline
   calcNextTimeout saw at time readAt, or None; since is when it fell asleep.
   */
  datatype Select =
    | Starting
    | Copied(fds: set<int>)
    | Timed(fds: set<int>, target: Option<int>, readAt: int)
    | Asleep(fds: set<int>, target: Option<int>, readAt: int, since: int)
    | Returned(rfds: set<int>, n: int)

  /** owed counts the calls of other threads whose wake byte is still to be written. */
  datatype World<!E> = World(loop: L.Loop<E>, select: Select, wake: E, wakeFd: int, bytes: nat, owed: nat)

  datatype Step<E> =
    | Tick(now: TimeVal)
    | Other(op: Op<E>)
    | Trigger(full: bool)
    | Own(op: Op<E>)
    | Copy
    | Calc(target: Option<int>)
    | Sleep
    | Return(rfds: set<int>, n: int)
    | Timeouts
    | Readies
    | Fire
    | Done

  /** What calcNextTimeout looks for. */
  ghost predicate LeastDeadline<E>(target: Option<int>, ts: seq<Timer<E>>) {
    if ts == [] then target.None? else target.Some? && IsMinDeadline(target.value, ts)
  }

  /** The time-out given to select: how long after falling asleep it ends. */
  ghost function SleepTime(target: int, readAt: int): int {
    if target > readAt then target - readAt else 0
  }

  /** Nobody deletes the watch of the wake pipe. */
  ghost predicate Sparing<E>(s: World<E>, op: Op<E>) {
    op != Delete(s.wake)
  }

  ghost predicate Enabled<E>(s: World<E>, step: Step<E>)
    requires Consistent(s.loop.q)
  {
    match step
    case Tick(now) => L.Enabled(s.loop, L.Tick(now))
    case Other(op) => L.Enabled(s.loop, L.Call(op)) && Sparing(s, op)
    case Trigger(full) => s.owed > 0 && (full ==> s.bytes > 0)
    case Own(op) => s.loop.phase.Firing? && L.Enabled(s.loop, L.Call(op)) && Sparing(s, op)
    case Copy => s.loop.phase.Selecting? && s.select.Starting?
    case Calc(target) => s.select.Copied? && LeastDeadline(target, s.loop.q.timers)
    case Sleep => s.select.Timed?
    case Return(rfds, n) => s.select.Asleep? && Returns(s, rfds, n)
    case Timeouts => s.select.Returned? && s.select.n >= 0 && L.Enabled(s.loop, L.Timeouts)
    case Readies => s.select.Returned? && L.Enabled(s.loop, L.Readies(s.select.rfds, s.select.n))
    case Fire => L.Enabled(s.loop, L.Fire)
    case Done => L.Enabled(s.loop, L.Done)
  }

  /** select is interrupted, or reports what is ready, the wake pipe among it, or reports that time is up. */
  ghost predicate Returns<E>(s: World<E>, rfds: set<int>, n: int)
    requires s.select.Asleep?
  {
    || n < 0
    || (&& n == |rfds| && rfds <= s.select.fds
        && (s.wakeFd in s.select.fds ==> (s.wakeFd in rfds <==> s.bytes > 0))
        && (rfds == {} ==>
              && s.select.target.Some?
              && s.select.since + SleepTime(s.select.target.value, s.select.readAt) <= Micros(s.loop.clock)))
  }

  /** Other threads owe a byte for every timer and watch they add. */
  ghost predicate Owes<E>(op: Op<E>) {
    (op.AddTimer? && op.interval.Some?) || op.AddWatch?
  }

  ghost function Next<E>(s: World<E>, step: Step<E>): (r: World<E>)
    requires Consistent(s.loop.q) && Enabled(s, step)
    ensures Consistent(r.loop.q)
  {
    match step
    case Tick(now) => s.(loop := L.Next(s.loop, L.Tick(now)))
    case Other(op) => s.(loop := L.Next(s.loop, L.Call(op)), owed := if Owes(op) then s.owed + 1 else s.owed)
    case Trigger(full) => s.(owed := s.owed - 1, bytes := if full then s.bytes else s.bytes + 1)
    case Own(op) => s.(loop := L.Next(s.loop, L.Call(op)))
    case Copy => s.(select := Copied(WatchedFds(s.loop.q.slots)))
    case Calc(target) => s.(select := Timed(s.select.fds, target, Micros(s.loop.clock)))
    case Sleep => s.(select := Asleep(s.select.fds, s.select.target, s.select.readAt, Micros(s.loop.clock)))
    case Return(rfds, n) => s.(select := if n < 0 then Starting else Returned(rfds, n))
    case Timeouts => s.(loop := L.Next(s.loop, L.Timeouts))
    case Readies => s.(loop := L.Next(s.loop, L.Readies(s.select.rfds, s.select.n)))
    case Fire =>
      s.(loop := L.Next(s.loop, L.Fire), bytes := if s.loop.q.pending[0].ev == s.wake then 0 else s.bytes)
    case Done => s.(loop := L.Next(s.loop, L.Done), select := Starting)
  }

  ghost predicate Watches<E>(slots: seq<Slot<E>>, wake: E, wakeFd: int) {
    exists i :: 0 <= i < |slots| && slots[i] == Watch(wake, wakeFd, true)
  }

  ghost predicate Init<E>(s: World<E>) {
    L.Init(s.loop) && s.select.Starting? && s.bytes == 0 && s.owed == 0 && Watches(s.loop.q.slots, s.wake, s.wakeFd)
  }

  // ---------- the invariant ----------

  ghost predicate Between<E>(s: World<E>) {
    s.select.Copied? || s.select.Timed? || s.select.Asleep?
  }

  /** A byte is on the pipe, or will be. */
  ghost predicate Alarmed<E>(s: World<E>) {
    s.bytes > 0 || s.owed > 0
  }

  ghost predicate FdsCovered<E>(s: World<E>) {
    Between(s) ==>
      s.wakeFd in s.select.fds && (Alarmed(s) || WatchedFds(s.loop.q.slots) <= s.select.fds)
  }

  /** No timer is due before target. */
  ghost predicate NoEarlier<E>(target: Option<int>, ts: seq<Timer<E>>) {
    forall i | 0 <= i < |ts| :: target.Some? && target.value <= ts[i].deadline
  }

  ghost predicate TimersCovered<E>(s: World<E>) {
    s.select.Timed? || s.select.Asleep? ==> Alarmed(s) || NoEarlier(s.select.target, s.loop.q.timers)
  }

  ghost predicate Inv<E>(s: World<E>) {
    && Consistent(s.loop.q) && Watches(s.loop.q.slots, s.wake, s.wakeFd) && FdsCovered(s) && TimersCovered(s)
    && (Between(s) ==> s.loop.phase.Selecting?)
    && (s.select.Asleep? ==> s.select.readAt <= s.select.since <= Micros(s.loop.clock))
    && (s.select.Timed? ==> s.select.readAt <= Micros(s.loop.clock))
  }

  lemma {:induction false} PersistStays<E>(slots: seq<Slot<E>>, rfds: set<int>, n: int, i: nat)
    requires i < |slots| && slots[i].Watch? && slots[i].persist
    ensures AfterReady(slots, rfds, n)[i] == slots[i]
    decreases slots
  {
    if i > 0 && n > 0 {
      PersistStays(slots[1..], rfds, if IsReady(slots[0], rfds) then n - 1 else n, i - 1);
    }
  }

  /** What a call of another thread or of a callback does to the watches. */
  lemma CallWatches<E>(q: Queues<E>, op: Op<E>, wake: E, wakeFd: int, i: nat)
    requires Consistent(q) && Allowed(q, op) && op != Delete(wake)
    requires i < |q.slots| && q.slots[i] == Watch(wake, wakeFd, true)
    ensures |Apply(q, op).slots| == |q.slots| && Apply(q, op).slots[i] == q.slots[i]
    ensures !op.AddWatch? ==> WatchedFds(Apply(q, op).slots) <= WatchedFds(q.slots)
  {
    hide Consistent, InTimers, InPending, InsertTimer;
  }

  /** What it does to the timers. */
  lemma CallTimers<E>(q: Queues<E>, op: Op<E>)
    requires Consistent(q) && Allowed(q, op) && !Owes(op)
    ensures Apply(q, op).timers == q.timers
  {
    hide Consistent, InTimers, InPending;
  }

  lemma CallStep<E>(s: World<E>, op: Op<E>)
    requires Inv(s) && L.Enabled(s.loop, L.Call(op)) && Sparing(s, op)
    ensures var loop := L.Next(s.loop, L.Call(op));
            && loop.q == Apply(s.loop.q, op) && loop.phase == s.loop.phase && loop.clock == s.loop.clock
            && Watches(loop.q.slots, s.wake, s.wakeFd)
            && (!Owes(op) ==> loop.q.timers == s.loop.q.timers
                              && WatchedFds(loop.q.slots) <= WatchedFds(s.loop.q.slots))
  {
    hide Consistent, Allowed, Apply, WatchedFds;
    var i :| 0 <= i < |s.loop.q.slots| && s.loop.q.slots[i] == Watch(s.wake, s.wakeFd, true);
    CallWatches(s.loop.q, op, s.wake, s.wakeFd, i);
    if !Owes(op) {
      CallTimers(s.loop.q, op);
    }
    assert L.Next(s.loop, L.Call(op)).q.slots[i] == s.loop.q.slots[i];
  }

  lemma LoopStep<E>(s: World<E>, step: L.Step<E>)
    requires Consistent(s.loop.q) && Watches(s.loop.q.slots, s.wake, s.wakeFd) && L.Enabled(s.loop, step) && !step.Call?
    ensures Watches(L.Next(s.loop, step).q.slots, s.wake, s.wakeFd)
  {
    var i :| 0 <= i < |s.loop.q.slots| && s.loop.q.slots[i] == Watch(s.wake, s.wakeFd, true);
    if step.Readies? {
      PersistStays(s.loop.q.slots, step.rfds, step.n, i);
    }
    hide Consistent, AfterReady, ReadyItems;
    assert L.Next(s.loop, step).q.slots[i] == s.loop.q.slots[i];
  }

  lemma WakeFdWatched<E>(s: World<E>)
    requires Watches(s.loop.q.slots, s.wake, s.wakeFd)
    ensures s.wakeFd in WatchedFds(s.loop.q.slots)
  {
  }

  lemma LeastBound<E>(target: Option<int>, ts: seq<Timer<E>>)
    requires LeastDeadline(target, ts)
    ensures NoEarlier(target, ts)
  {
  }

  lemma StepKeeps<E>(s: World<E>, step: Step<E>)
    requires Inv(s) && Enabled(s, step)
    ensures Inv(Next(s, step))
  {
    hide Consistent, Apply, Expire, Gather, Pop, Allowed, WatchedFds, LeastDeadline, Owes, Watches, NoEarlier;
    match step
    case Other(op) => CallStep(s, op);
    case Own(op) => CallStep(s, op);
    case Timeouts => LoopStep(s, L.Timeouts);
    case Readies => LoopStep(s, L.Readies(s.select.rfds, s.select.n));
    case Fire => LoopStep(s, L.Fire);
    case Done => LoopStep(s, L.Done);
    case Tick(now) => LoopStep(s, L.Tick(now));
    case Copy => WakeFdWatched(s);
    case Calc(target) => LeastBound(target, s.loop.q.timers);
    case _ =>
  }

  // ---------- runs ----------

  ghost predicate Legal<E>(s: World<E>, run: seq<Step<E>>)
    requires Consistent(s.loop.q)
    decreases run
  {
    run != [] ==> Enabled(s, run[0]) && Legal(Next(s, run[0]), run[1..])
  }

  ghost function Run<E>(s: World<E>, run: seq<Step<E>>): (r: World<E>)
    requires Consistent(s.loop.q) && Legal(s, run)
    ensures Consistent(r.loop.q)
    decreases run
  {
    if run == [] then s else Run(Next(s, run[0]), run[1..])
  }

  lemma {:induction false} RunKeeps<E>(s: World<E>, run: seq<Step<E>>)
    requires Inv(s) && Legal(s, run)
    ensures Inv(Run(s, run))
    decreases run
  {
    assert Consistent(s.loop.q);
    hide Inv, Next, Enabled;
    if run != [] {
      StepKeeps(s, run[0]);
      RunKeeps(Next(s, run[0]), run[1..]);
    }
  }

  /** The time-out ends when something due then is due, late only by the time it took to fall asleep. */
  ghost predicate EndsInTime(sel: Select, due: int) {
    && sel.Asleep? && sel.target.Some?
    && sel.since + SleepTime(sel.target.value, sel.readAt)
       <= (if due > sel.readAt then due else sel.readAt) + (sel.since - sel.readAt)
  }

  /**
   The loop never oversleeps: in every interleaving, while it sleeps in select, either a byte is on the wake
   pipe or about to be written, or it watches every descriptor it should, and no queued timer is due before
   the one its time-out was computed for. In that case the time-out ends when the timer is due, late only by
   the time it took to fall asleep. It always watches the pipe, so a byte on it ends the sleep.
   */
  lemma {:induction false} NeverOversleeps<E>(s: World<E>, run: seq<Step<E>>)
    requires Init(s) && Legal(s, run) && Run(s, run).select.Asleep?
    ensures var r := Run(s, run);
            && r.wakeFd in r.select.fds && (r.bytes > 0 ==> Enabled(r, Return({r.wakeFd}, 1)))
            && (Alarmed(r)
                || (&& WatchedFds(r.loop.q.slots) <= r.select.fds
                    && NoEarlier(r.select.target, r.loop.q.timers)
                    && (forall i | 0 <= i < |r.loop.q.timers| ::
                          EndsInTime(r.select, r.loop.q.timers[i].deadline))))
  {
    hide Run, Legal, Consistent, WatchedFds;
    assert Inv(s);
    RunKeeps(s, run);
    var r := Run(s, run);
    if r.bytes > 0 {
      PipeReturns(r);
    }
    if !Alarmed(r) {
      TimeoutCovers(r.select, r.loop.q.timers);
    }
  }

  /** A timer or watch added by another thread while the loop sleeps lets select return, once its byte is written. */
  lemma {:induction false} CallWakesLoop<E>(s: World<E>, run: seq<Step<E>>, op: Op<E>)
    requires Init(s) && Legal(s, run) && Run(s, run).select.Asleep?
    requires L.Enabled(Run(s, run).loop, L.Call(op)) && op != Delete(s.wake) && Owes(op)
    ensures Enabled(Run(s, run), Other(op))
    ensures var added := Next(Run(s, run), Other(op));
            && Enabled(added, Trigger(false))
            && Enabled(Next(added, Trigger(false)), Return({s.wakeFd}, 1))
  {
    hide Run, Legal, Consistent, WatchedFds, Apply;
    assert Inv(s);
    RunKeeps(s, run);
    SamePipe(s, run);
    StepKeeps(Run(s, run), Other(op));
    var added := Next(Run(s, run), Other(op));
    StepKeeps(added, Trigger(false));
    PipeReturns(Next(added, Trigger(false)));
  }

  /** Before select the loop always gets to sleep, and its time-out is for the least deadline. */
  lemma {:induction false} GoesToSleep<E>(s: World<E>, run: seq<Step<E>>, target: Option<int>)
    requires Init(s) && Legal(s, run) && Run(s, run).select.Starting? && Run(s, run).loop.phase.Selecting?
    requires LeastDeadline(target, Run(s, run).loop.q.timers)
    ensures var r := Run(s, run);
            && Enabled(r, Copy) && Enabled(Next(r, Copy), Calc(target))
            && Enabled(Next(Next(r, Copy), Calc(target)), Sleep)
            && var a := Next(Next(Next(r, Copy), Calc(target)), Sleep);
               a.select == Asleep(WatchedFds(r.loop.q.slots), target, Micros(r.loop.clock), Micros(r.loop.clock))
  {
    hide Run, Legal, WatchedFds, LeastDeadline, Consistent;
  }

  lemma {:induction false} SamePipe<E>(s: World<E>, run: seq<Step<E>>)
    requires Consistent(s.loop.q) && Legal(s, run)
    ensures Run(s, run).wakeFd == s.wakeFd && Run(s, run).wake == s.wake
    decreases run
  {
    hide Consistent, Enabled;
    if run != [] {
      SamePipe(Next(s, run[0]), run[1..]);
    }
  }

  lemma PipeReturns<E>(s: World<E>)
    requires Consistent(s.loop.q) && s.select.Asleep? && s.wakeFd in s.select.fds && s.bytes > 0
    ensures Enabled(s, Return({s.wakeFd}, 1))
  {
    assert {s.wakeFd} <= s.select.fds && |{s.wakeFd}| == 1;
  }

  lemma TimeoutCovers<E>(sel: Select, ts: seq<Timer<E>>)
    requires sel.Asleep? && NoEarlier(sel.target, ts)
    ensures forall i | 0 <= i < |ts| :: EndsInTime(sel, ts[i].deadline)
  {
  }
}
