/** The functions of ril.cpp that take part in the wake-lock protocol, on the heap. */
module RilWakeLock {
  import opened Wrappers
  import opened WakeLock

  class UserCallbackInfo {
    /** userParam != NULL: cancelled. */
    var userParam: bool
    var deadline: int
  }

  // ---------- paths through the functions ----------

  /** Steps of the event loop, and the passing of time. */
  ghost predicate LoopOnly<P>(run: seq<Step<P>>) {
    forall i | 0 <= i < |run| :: run[i].Tick? || run[i].Fire? || run[i].Callback? || run[i].Check? || run[i].Clear?
  }

  /** Cancelling the last timer: between while the pointer has been tested and not yet written through. */
  ghost predicate CancelLegal<P>(s: Wake<P>, between: seq<Step<P>>) {
    s.mutex.Testing? && LoopOnly(between) && (s.last.Some? ==> Legal(Next(s, Test), between))
  }

  ghost function CancelRun<P>(s: Wake<P>, between: seq<Step<P>>): seq<Step<P>>
    requires CancelLegal(s, between)
  {
    if s.last.Some? then [Test] + between + [Write] else [Test]
  }

  /** begun is what the event loop does before the test, stored what it does before the new info is stored. */
  ghost predicate GrabLegal<P>(s: Wake<P>, p: P, begun: seq<Step<P>>, between: seq<Step<P>>, stored: seq<Step<P>>) {
    && Enabled(s, Grab(p)) && LoopOnly(begun) && LoopOnly(stored) && Legal(Next(s, Grab(p)), begun)
    && var a := Run(Next(s, Grab(p)), begun);
    && CancelLegal(a, between) && Legal(a, CancelRun(a, between))
    && Legal(Run(a, CancelRun(a, between)), stored)
  }

  ghost function Stored<P>(s: Wake<P>, p: P, begun: seq<Step<P>>, between: seq<Step<P>>, stored: seq<Step<P>>): Wake<P>
    requires GrabLegal(s, p, begun, between, stored)
  {
    var a := Run(Next(s, Grab(p)), begun);
    Run(Run(a, CancelRun(a, between)), stored)
  }

  lemma {:induction false} LoopKeepsMutex<P>(s: Wake<P>, run: seq<Step<P>>)
    requires Inv(s) && Legal(s, run) && LoopOnly(run) && !s.mutex.Free?
    ensures var r := Run(s, run);
            && Inv(r) && r.mutex == s.mutex && r.count == s.count && r.held == s.held && r.misses == s.misses
            && (r.last == s.last || r.last.None?)
    decreases run
  {
    hide Inv;
    if run != [] {
      StepKeeps(s, run[0]);
      LoopStep(s, run[0]);
      assert forall i | 0 <= i < |run[1..]| :: run[1..][i] == run[i + 1];
      LoopKeepsMutex(Next(s, run[0]), run[1..]);
    }
  }

  lemma LoopStep<P>(s: Wake<P>, step: Step<P>)
    requires Inv(s) && Enabled(s, step) && !s.mutex.Free?
    requires step.Tick? || step.Fire? || step.Callback? || step.Check? || step.Clear?
    ensures var r := Next(s, step);
            && r.mutex == s.mutex && r.count == s.count && r.held == s.held && r.misses == s.misses
            && (r.last == s.last || r.last.None?)
            && (forall p | p in r.timers :: p in s.timers && r.timers[p] == s.timers[p])
  {
  }

  lemma CancelIsRun<P>(s: Wake<P>, between: seq<Step<P>>)
    requires Inv(s) && CancelLegal(s, between)
    ensures Legal(s, CancelRun(s, between))
    ensures var r := Run(s, CancelRun(s, between));
            if s.last.None? then r == Next(s, Test)
            else
              && Enabled(Run(Next(s, Test), between), Write)
              && r == Next(Run(Next(s, Test), between), Write)
  {
    hide Inv, Legal, Run, LoopOnly;
    var tested := Next(s, Test);
    StepKeeps(s, Test);
    if s.last.Some? {
      LoopKeepsMutex(tested, between);
      Append(tested, between, Write);
      Prepend(s, Test, between + [Write]);
      assert [Test] + (between + [Write]) == [Test] + between + [Write];
    } else {
      NoSteps(tested);
      var nothing: seq<Step<P>> := [];
      Prepend(s, Test, nothing);
      assert CancelRun(s, between) == [Test] + nothing;
    }
  }

  class Ril {
    /** s_wakelock_count */
    var count: nat
    /** The kernel's wake lock, taken and dropped by name. */
    var held: bool
    /** s_last_wake_timeout_info */
    var last: UserCallbackInfo?
    ghost var w: Wake<UserCallbackInfo>

    ghost predicate Valid()
      reads this, w.timers.Keys
    {
      && Inv(w) && w.count == count && w.held == held
      && w.last == (if last == null then None else Some(last))
      && (forall p | p in w.timers :: p.userParam == w.timers[p].cancelled && p.deadline == w.timers[p].deadline)
    }

    constructor (now: int)
      ensures Valid() && Init(w) && w.clock == now
    {
      count, held, last := 0, false, null;
      w := Wake(0, false, None, map[], {}, now, now, None, Idle, Free, 0);
    }

    /** The clock has moved on. */
    ghost method Advance(now: int)
      requires Valid() && w.clock <= now
      modifies this`w
      ensures Valid() && w == Next(old(w), Tick(now))
    {
      StepKeeps(w, Tick(now));
      w := w.(clock := now);
    }

    /** What the event loop does to the fields while another thread has the mutex: it may write NULL. */
    method EventLoop(run: seq<Step<UserCallbackInfo>>)
      requires Valid() && !w.mutex.Free? && LoopOnly(run) && Legal(w, run)
      modifies this`last, this`w
      ensures Valid() && w == Run(old(w), run) && w.mutex == old(w).mutex && w.misses == old(w).misses
      ensures w.timers.Keys <= old(w).timers.Keys
    {
      hide Inv, Next, Enabled;
      for i := 0 to |run|
        invariant Valid() && Legal(w, run[i..]) && Run(w, run[i..]) == Run(old(w), run)
        invariant w.mutex == old(w).mutex && w.misses == old(w).misses
        invariant w.timers.Keys <= old(w).timers.Keys
      {
        assert run[i..][0] == run[i] && run[i..][1..] == run[i + 1..];
        LoopOnce(run[i]);
      }
    }

    method LoopOnce(step: Step<UserCallbackInfo>)
      requires Valid() && !w.mutex.Free? && Enabled(w, step)
      requires step.Tick? || step.Fire? || step.Callback? || step.Check? || step.Clear?
      modifies this`last, this`w
      ensures Valid() && w == Next(old(w), step) && w.mutex == old(w).mutex && w.misses == old(w).misses
      ensures w.timers.Keys <= old(w).timers.Keys
    {
      StepKeeps(w, step);
      LoopStep(w, step);
      if step.Clear? {
        last := null;
      }
      w := Next(w, step);
    }

    /**
     The test of s_last_wake_timeout_info and the write through it, as grabs and releases make them. The
     write meets the info that was found if the test is secure; otherwise the pointer may be NULL by then.
     */
    method CancelLast(between: seq<Step<UserCallbackInfo>>) returns (met: bool)
      requires Valid() && CancelLegal(w, between)
      modifies this`last, this`w, w.timers.Keys`userParam
      ensures Valid() && Legal(old(w), CancelRun(old(w), between)) && w == Run(old(w), CancelRun(old(w), between))
      ensures w.misses == old(w).misses + if met then 0 else 1
      ensures w.mutex == Cancelled(old(w)) && w.count == old(w).count
      ensures old(last) == null || Secure(old(w), old(last)) ==> met
      ensures met && old(last) != null ==> old(last).userParam
      ensures forall p | p in old(w).timers && p != old(last) :: p.userParam == old(p.userParam)
    {
      hide Inv, Secure, LoopOnly, Legal, Run;
      CancelIsRun(w, between);
      StepKeeps(w, Test);
      met := true;
      var found := last;
      w := Next(w, Test);
      if found != null {
        EventLoop(between);
        SecureCancel(old(w), between, found);
        TargetKept(w);
        if last == null {
          met := false;
        } else {
          last.userParam := true;
        }
        StepKeeps(w, Write);
        w := Next(w, Write);
      }
    }

    /**
     grabPartialWakeLock; internalRequestTimedCallback sets up p and queues it in the event loop. met tells
     whether the write through the last-timer pointer, if there was one, met the info the test had found.
     */
    method GrabPartialWakeLock(now: int, p: UserCallbackInfo, begun: seq<Step<UserCallbackInfo>>,
                               between: seq<Step<UserCallbackInfo>>, stored: seq<Step<UserCallbackInfo>>)
      returns (met: bool)
      requires Valid() && w.clock <= now
      requires GrabLegal(Next(w, Tick(now)), p, begun, between, stored)
      modifies this, w.timers.Keys`userParam, p
      ensures Valid() && w.mutex.Free?
      ensures var s := Next(old(w), Tick(now));
              && Enabled(Stored(s, p, begun, between, stored), Store)
              && w == Next(Stored(s, p, begun, between, stored), Store)
      ensures w.misses == old(w).misses + if met then 0 else 1
      ensures var tested := Run(Next(Next(old(w), Tick(now)), Grab(p)), begun);
              tested.last.None? || Secure(tested, tested.last.value) ==> met
      ensures last == p && w.newest == Some(p) && count == old(count) + 1 && held
      ensures begun == [] && old(last) != null && met ==> old(last).userParam
      ensures p.deadline == now + 200_000
    {
      hide Inv, Next, Enabled, Secure, LoopOnly, Legal, Run, CancelLegal, CancelRun;
      StartGrab(now, p);
      NoSteps(w);
      EventLoop(begun);
      met := CancelLast(between);
      EventLoop(stored);
      StoreLast(p);
    }

    method StartGrab(now: int, p: UserCallbackInfo)
      requires Valid() && w.clock <= now && Enabled(Next(w, Tick(now)), Grab(p))
      modifies this`count, this`held, this`w, p
      ensures Valid() && w == Next(Next(old(w), Tick(now)), Grab(p))
      ensures w.mutex == Testing(Some(p)) && w.misses == old(w).misses && w.timers.Keys == old(w).timers.Keys + {p}
      ensures count == old(count) + 1 && held
      ensures !p.userParam && p.deadline == now + 200_000
    {
      Advance(now);
      Begin(now, p);
    }

    /** The end of a grab. */
    method StoreLast(p: UserCallbackInfo)
      requires Valid() && w.mutex == Storing(p)
      modifies this`last, this`w
      ensures Enabled(old(w), Store) && Valid() && w == Next(old(w), Store) && w.mutex.Free?
      ensures last == p && w.newest == Some(p) && w.misses == old(w).misses
    {
      StepKeeps(w, Store);
      last := p;
      w := Next(w, Store);
    }

    /** The part of a grab before its test. */
    method Begin(now: int, p: UserCallbackInfo)
      requires Valid() && w.clock == now && Enabled(w, Grab(p))
      modifies this`count, this`held, this`w, p
      ensures Valid() && w == Next(old(w), Grab(p)) && last == old(last)
      ensures count == old(count) + 1 && held && !p.userParam && p.deadline == now + 200_000
    {
      held := true;
      p.userParam := false;
      p.deadline := now + WAKE_TIMEOUT;
      count := count + 1;
      StepKeeps(w, Grab(p));
      w := Next(w, Grab(p));
    }

    /** releaseWakeLock; only the last release cancels the timer. */
    method ReleaseWakeLock(begun: seq<Step<UserCallbackInfo>>, between: seq<Step<UserCallbackInfo>>) returns (met: bool)
      requires Valid() && Enabled(w, Release)
      requires w.count <= 1 ==>
                 && LoopOnly(begun) && Legal(Next(w, Release), begun)
                 && CancelLegal(Run(Next(w, Release), begun), between)
      modifies this, w.timers.Keys`userParam
      ensures Valid() && w.mutex.Free?
      ensures old(w).count > 1 ==> met && w == Next(old(w), Release)
      ensures old(count) > 1 ==>
                count == old(count) - 1 && held == old(held) && last == old(last)
                && forall p | p in w.timers :: p.userParam == old(p.userParam)
      ensures old(count) <= 1 ==> count == 0 && !held
      ensures old(count) <= 1 && begun == [] && between == [] && old(last) != null && met ==> old(last).userParam
      ensures old(w).count <= 1 ==>
                var tested := Run(Next(old(w), Release), begun);
                && Legal(tested, CancelRun(tested, between)) && w == Run(tested, CancelRun(tested, between))
                && (tested.last.None? || Secure(tested, tested.last.value) ==> met)
      ensures w.misses == old(w).misses + if met then 0 else 1
    {
      met := true;
      StepKeeps(w, Release);
      w := Next(w, Release);
      if count > 1 {
        count := count - 1;
      } else {
        count := 0;
        held := false;
        EventLoop(begun);
        met := CancelLast(between);
      }
    }

    /** wakeTimeoutCallback */
    method WakeTimeoutCallback(param: bool)
      requires Valid() && Enabled(w, Callback) && w.pc.param == param
      modifies this
      ensures Valid() && w == Next(old(w), Callback) && last == old(last)
      ensures if param then count == old(count) && held == old(held) else count == 0 && !held
    {
      if !param {
        count := 0;
        held := false;
      }
      StepKeeps(w, Callback);
      w := Next(w, Callback);
    }

    /**
     userTimerCallback without interference: an uncancelled timer releases the lock, whoever still
     counts on it, and a fired timer is not left behind in s_last_wake_timeout_info.
     */
    method UserTimerCallback(p: UserCallbackInfo)
      requires Valid() && Enabled(w, Fire(p)) && w.mutex.Free?
      modifies this
      ensures Valid() && w.pc.Idle? && p !in w.timers && last != p
      ensures w.timers == old(w.timers) - {p} && w.queued == old(w.queued) - {p}
      ensures if old(p.userParam) then count == old(count) && held == old(held) else count == 0 && !held
      ensures last == if old(last) == p then null else old(last)
    {
      StepKeeps(w, Fire(p));
      w := Next(w, Fire(p));
      WakeTimeoutCallback(p.userParam);
      StepKeeps(w, Check);
      w := Next(w, Check);
      if last != null && last == p {
        StepKeeps(w, Clear);
        last := null;
        w := Next(w, Clear);
      }
    }
  }

  lemma SecureCancel<P>(s: Wake<P>, between: seq<Step<P>>, target: P)
    requires Inv(s) && CancelLegal(s, between) && s.last == Some(target)
    ensures Secure(s, target) ==> Meets(Run(Next(s, Test), between), target)
  {
    hide Inv, Legal, Run, Secure, Meets;
    var tested := Next(s, Test);
    StepKeeps(s, Test);
    SameLoop(s, tested, target);
    assert Write !in between;
    if Secure(s, target) {
      SecureUntilWrite(tested, between, target);
    }
  }

  /** At the write the pointer is NULL or names the target, which is then allocated. */
  lemma TargetKept<P>(s: Wake<P>)
    requires Inv(s) && s.mutex.Writing?
    ensures s.last.None? || Meets(s, s.mutex.target)
  {
  }
}
