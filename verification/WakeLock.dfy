/**
 The counted wake lock of ril.cpp (version 13 and later) and its cancellable timers. P is the identity of
 a UserCallbackInfo. s_wakeLockCountMutex keeps grabs, releases and expiries apart, but userTimerCallback
 tests and clears s_last_wake_timeout_info without it. So every access to that pointer is a step of its own:
 a grab or a release begins, tests the pointer, writes through it, and a grab then stores the new info;
 userTimerCallback reads userParam, makes its call, checks the pointer, and writes NULL.
 */
module WakeLock {
  import opened Wrappers

  /** TIMEVAL_WAKE_TIMEOUT in microseconds. */
  const WAKE_TIMEOUT := 200_000

  /** cancelled is userParam != NULL. */
  datatype Timer = Timer(deadline: int, cancelled: bool)

  /** The event-loop thread inside userTimerCallback. param is the userParam it read. */
  datatype Pc<P> = Idle | HasRead(p: P, param: bool) | Called(p: P) | Clearing(p: P)

  /**
   The thread that has the mutex: before its test of the last-timer pointer, before its write through the
   pointer it found to be target, or before its store. A grab has a new info to store, a release has none.
   */
  datatype Mutex<P> = Free | Testing(next: Option<P>) | Writing(target: P, next: Option<P>) | Storing(p: P)

  /**
   timers are the allocated infos; queued those still in the event loop. newest, lastGrab record the last
   grab. misses counts the writes through the last-timer pointer that found it NULL.
   */
  datatype Wake<!P> = Wake(count: nat, held: bool, last: Option<P>, timers: map<P, Timer>, queued: set<P>,
                           clock: int, lastGrab: int, newest: Option<P>, pc: Pc<P>, mutex: Mutex<P>, misses: nat)

  datatype Step<P> =
    | Tick(now: int)
    | Grab(p: P)
    | Release
    | Test
    | Write
    | Store
    | Fire(p: P)
    | Callback
    | Check
    | Clear

  /** wakeTimeoutCallback takes the mutex only if the timer was not cancelled. */
  ghost predicate Enabled<P>(s: Wake<P>, step: Step<P>) {
    match step
    case Tick(now) => s.clock <= now
    case Grab(p) => s.mutex.Free? && p !in s.timers
    case Release => s.mutex.Free?
    case Test => s.mutex.Testing?
    case Write => s.mutex.Writing?
    case Store => s.mutex.Storing?
    case Fire(p) => s.pc.Idle? && p in s.queued && p in s.timers && s.timers[p].deadline < s.clock
    case Callback => s.pc.HasRead? && (s.pc.param || s.mutex.Free?)
    case Check => s.pc.Called?
    case Clear => s.pc.Clearing?
  }

  ghost function Cancelled<P>(s: Wake<P>): Mutex<P>
    requires s.mutex.Testing? || s.mutex.Writing?
  {
    if s.mutex.next.Some? then Storing(s.mutex.next.value) else Free
  }

  /** The last-timer field still names the info that the test found, and that info is still allocated. */
  ghost predicate Meets<P>(s: Wake<P>, target: P) {
    s.last == Some(target) && target in s.timers
  }

  /** Clear writes NULL and frees the info. A write that misses is not followed further here. */
  ghost function Next<P>(s: Wake<P>, step: Step<P>): Wake<P>
    requires Enabled(s, step)
  {
    match step
    case Tick(now) => s.(clock := now)
    case Grab(p) =>
      s.(count := s.count + 1, held := true, newest := Some(p), lastGrab := s.clock,
         timers := s.timers[p := Timer(s.clock + WAKE_TIMEOUT, false)], queued := s.queued + {p},
         mutex := Testing(Some(p)))
    case Release =>
      if s.count > 1 then s.(count := s.count - 1)
      else s.(count := 0, held := false, mutex := Testing(None))
    case Test => s.(mutex := if s.last.Some? then Writing(s.last.value, s.mutex.next) else Cancelled(s))
    case Write =>
      var t := s.mutex.target;
      if Meets(s, t) then s.(timers := s.timers[t := s.timers[t].(cancelled := true)], mutex := Cancelled(s))
      else s.(misses := s.misses + 1, mutex := Cancelled(s))
    case Store => s.(last := Some(s.mutex.p), mutex := Free)
    case Fire(p) => s.(queued := s.queued - {p}, pc := HasRead(p, s.timers[p].cancelled))
    case Callback =>
      if s.pc.param then s.(pc := Called(s.pc.p))
      else s.(count := 0, held := false, pc := Called(s.pc.p))
    case Check =>
      if s.last == Some(s.pc.p) then s.(pc := Clearing(s.pc.p))
      else s.(timers := s.timers - {s.pc.p}, pc := Idle)
    case Clear => s.(last := None, timers := s.timers - {s.pc.p}, pc := Idle)
  }

  ghost predicate Init<P>(s: Wake<P>) {
    && s.count == 0 && !s.held && s.last.None? && s.timers == map[] && s.queued == {} && s.newest.None?
    && s.pc.Idle? && s.mutex.Free? && s.misses == 0
  }

  // ---------- what holds in every interleaving ----------

  /** The info a grab under way has queued and is going to store. */
  ghost function Coming<P>(s: Wake<P>): Option<P> {
    match s.mutex
    case Free => None
    case Testing(next) => next
    case Writing(_, next) => next
    case Storing(p) => Some(p)
  }

  /** s_last_wake_timeout_info is NULL or names an allocated info. */
  ghost predicate LastLive<P>(s: Wake<P>) {
    s.last.Some? ==> s.last.value in s.timers
  }

  /** While the lock is held, the timer of the last grab is still due to release it. */
  ghost predicate Guarded<P>(s: Wake<P>) {
    s.held ==>
      && s.newest.Some? && s.newest.value in s.timers
      && s.timers[s.newest.value].deadline == s.lastGrab + WAKE_TIMEOUT
      && (if s.newest.value in s.queued then !s.timers[s.newest.value].cancelled
          else s.pc == HasRead(s.newest.value, false))
  }

  /** What the thread in the mutex knows. */
  ghost predicate RegionOk<P>(s: Wake<P>) {
    && (match Coming(s)
        case None => s.last.Some? ==> s.newest == s.last
        case Some(p) =>
          && s.newest == Some(p) && s.last != Some(p) && p in s.timers && !s.timers[p].cancelled
          && (p in s.queued || s.pc == HasRead(p, false)))
    && (!s.mutex.Free? && Coming(s).None? ==> !s.held)
    && (s.mutex.Writing? ==> s.last.None? || s.last == Some(s.mutex.target))
    && (s.mutex.Storing? && s.last.Some? && s.last.value in s.timers ==> s.timers[s.last.value].cancelled)
  }

  /** Each allocated info is queued, or is the one the event loop is busy with. */
  ghost predicate Placed<P>(s: Wake<P>) {
    && (forall p | p in s.queued :: p in s.timers)
    && (forall p | p in s.timers :: p in s.queued || (!s.pc.Idle? && s.pc.p == p))
    && (!s.pc.Idle? ==> s.pc.p in s.timers && s.pc.p !in s.queued)
  }

  ghost predicate Inv<P>(s: Wake<P>) {
    (s.held <==> s.count > 0) && LastLive(s) && Guarded(s) && RegionOk(s) && Placed(s)
  }

  lemma StepKeeps<P>(s: Wake<P>, step: Step<P>)
    requires Inv(s) && Enabled(s, step)
    ensures Inv(Next(s, step))
  {
    RegionStep(s, step);
    GuardedStep(s, step);
    PlacedStep(s, step);
    hide Guarded, RegionOk, Placed;
    LiveStep(s, step);
  }

  lemma RegionStep<P>(s: Wake<P>, step: Step<P>)
    requires Inv(s) && Enabled(s, step)
    ensures RegionOk(Next(s, step))
  {
  }

  lemma GuardedStep<P>(s: Wake<P>, step: Step<P>)
    requires Inv(s) && Enabled(s, step)
    ensures Guarded(Next(s, step))
  {
  }

  lemma PlacedStep<P>(s: Wake<P>, step: Step<P>)
    requires Placed(s) && Enabled(s, step)
    ensures Placed(Next(s, step))
  {
  }

  lemma LiveStep<P>(s: Wake<P>, step: Step<P>)
    requires Inv(s) && Enabled(s, step)
    ensures var t := Next(s, step); LastLive(t) && (t.held <==> t.count > 0)
  {
    hide Guarded;
  }

  // ---------- the exact bookkeeping, and when it is lost ----------

  /** Every uncancelled timer is s_last_wake_timeout_info, but for the one a grab is about to store there. */
  ghost predicate Tracked<P>(s: Wake<P>) {
    forall p | p in s.timers && !s.timers[p].cancelled :: s.last == Some(p) || Coming(s) == Some(p)
  }

  /** At the write of NULL: the pointer is still the one checked, or the timer it names has been cancelled. */
  ghost predicate CleanClear<P>(s: Wake<P>, step: Step<P>) {
    step.Clear? && s.pc.Clearing? && s.last.Some? && s.last.value in s.timers ==>
      s.last.value == s.pc.p || s.timers[s.last.value].cancelled
  }

  /** One step keeps the bookkeeping exact if, and only if, it is not a late write of NULL. */
  lemma StepTracks<P>(s: Wake<P>, step: Step<P>)
    requires Inv(s) && Tracked(s) && Enabled(s, step)
    ensures Tracked(Next(s, step)) <==> CleanClear(s, step)
  {
    var t := Next(s, step);
    if step.Clear? && !CleanClear(s, step) {
      assert s.last.value in t.timers && !t.timers[s.last.value].cancelled;
    }
  }

  // ---------- runs ----------

  ghost predicate Legal<P>(s: Wake<P>, run: seq<Step<P>>)
    decreases run
  {
    run != [] ==> Enabled(s, run[0]) && Legal(Next(s, run[0]), run[1..])
  }

  ghost function Run<P>(s: Wake<P>, run: seq<Step<P>>): Wake<P>
    requires Legal(s, run)
    decreases run
  {
    if run == [] then s else Run(Next(s, run[0]), run[1..])
  }

  ghost predicate AlwaysTracked<P>(s: Wake<P>, run: seq<Step<P>>)
    requires Legal(s, run)
    decreases run
  {
    Tracked(s) && (run != [] ==> AlwaysTracked(Next(s, run[0]), run[1..]))
  }

  ghost predicate AlwaysClean<P>(s: Wake<P>, run: seq<Step<P>>)
    requires Legal(s, run)
    decreases run
  {
    run != [] ==> CleanClear(s, run[0]) && AlwaysClean(Next(s, run[0]), run[1..])
  }

  lemma {:induction false} RunKeeps<P>(s: Wake<P>, run: seq<Step<P>>)
    requires Inv(s) && Legal(s, run)
    ensures Inv(Run(s, run))
    decreases run
  {
    hide Inv, Next, Enabled;
    if run != [] {
      StepKeeps(s, run[0]);
      RunKeeps(Next(s, run[0]), run[1..]);
    }
  }

  /**
   In every interleaving: the lock is held exactly when the count is positive, the last-timer pointer is NULL
   or names an allocated info, and while the lock is held the timer of the last grab, due 200 ms after it, is
   still queued uncancelled, or has been read as uncancelled and is about to release the lock. Whoever has the
   mutex can go on. If every test of the pointer finds the event loop where it cannot clear it, no write
   through the pointer misses.
   */
  lemma {:induction false} WakeLockSafe<P(!new)>(s: Wake<P>, run: seq<Step<P>>)
    requires Init(s) && Legal(s, run)
    ensures var r := Run(s, run); (r.held <==> r.count > 0) && LastLive(r) && Guarded(r)
    ensures var r := Run(s, run);
            match r.mutex
            case Free => Enabled(r, Release) && forall p | p !in r.timers :: Enabled(r, Grab(p))
            case Testing(_) => Enabled(r, Test)
            case Writing(_, _) => Enabled(r, Write)
            case Storing(_) => Enabled(r, Store)
    ensures AlwaysSecure(s, run) ==> Run(s, run).misses == 0
  {
    RunKeeps(s, run);
    if AlwaysSecure(s, run) {
      SecureRun(s, run);
    }
  }

  /** Once the event loop has fired everything overdue, a held lock is at most 200 ms old. */
  lemma {:induction false} HeldAtMostTimeout<P>(s: Wake<P>, run: seq<Step<P>>)
    requires Init(s) && Legal(s, run)
    requires var r := Run(s, run);
             r.pc.Idle? && forall p | p in r.queued && p in r.timers :: r.clock <= r.timers[p].deadline
    ensures var r := Run(s, run); r.held ==> r.clock <= r.lastGrab + WAKE_TIMEOUT
  {
    RunKeeps(s, run);
  }

  // ---------- the count ----------

  ghost function Grabs<P>(run: seq<Step<P>>): nat {
    if run == [] then 0 else (if run[0].Grab? then 1 else 0) + Grabs(run[1..])
  }

  ghost function Releases<P>(run: seq<Step<P>>): nat {
    if run == [] then 0 else (if run[0].Release? then 1 else 0) + Releases(run[1..])
  }

  /** A timer takes the lock away. */
  ghost predicate Expires<P>(s: Wake<P>, step: Step<P>) {
    step.Callback? && s.pc.HasRead? && !s.pc.param
  }

  ghost predicate NeverExpires<P>(s: Wake<P>, run: seq<Step<P>>)
    requires Legal(s, run)
    decreases run
  {
    run != [] ==> !Expires(s, run[0]) && NeverExpires(Next(s, run[0]), run[1..])
  }

  lemma CountStep<P>(s: Wake<P>, step: Step<P>)
    requires Inv(s) && Enabled(s, step) && s.count > 0
    ensures var r := Next(s, step);
            if Expires(s, step) then r.count == 0 && !r.held
            else r.count == s.count + Grabs([step]) - Releases([step]) && (r.held <==> r.count > 0)
  {
  }

  /**
   The lock is counted. Once it is held, count is the grabs less the releases, and the lock stays held until
   as many releases as grabs have come, unless a timer takes it; and then it goes.
   */
  lemma {:induction false} HeldWhileOutstanding<P>(s: Wake<P>, before: seq<Step<P>>, since: seq<Step<P>>)
    requires Init(s) && Legal(s, before) && Run(s, before).held
    requires Legal(Run(s, before), since) && NeverExpires(Run(s, before), since)
    requires forall k | 0 <= k < |since| ::
               Releases(since[..k]) < Run(s, before).count + Grabs(since[..k])
    ensures var r := Run(Run(s, before), since);
            && r.count == Run(s, before).count + Grabs(since) - Releases(since)
            && (r.held <==> r.count > 0)
  {
    hide Legal, Run, NeverExpires;
    RunKeeps(s, before);
    HeldFrom(Run(s, before), since);
  }

  lemma {:induction false} HeldFrom<P>(s: Wake<P>, run: seq<Step<P>>)
    requires Inv(s) && Legal(s, run) && NeverExpires(s, run)
    requires forall k | 0 <= k < |run| :: Releases(run[..k]) < s.count + Grabs(run[..k])
    ensures var r := Run(s, run);
            Inv(r) && r.count == s.count + Grabs(run) - Releases(run) && (r.held <==> r.count > 0)
    decreases run
  {
    hide Enabled, Next;
    if run != [] {
      var t, rest := Next(s, run[0]), run[1..];
      assert run[..0] == [];
      StepKeeps(s, run[0]);
      CountStep(s, run[0]);
      forall k | 0 <= k < |rest|
        ensures Releases(rest[..k]) < t.count + Grabs(rest[..k])
      {
        assert run[..k + 1][1..] == rest[..k];
        assert Releases(run[..k + 1]) < s.count + Grabs(run[..k + 1]);
      }
      HeldFrom(t, rest);
    }
  }

  /**
   A grab that nothing comes between adds one to the count, leaves its own timer armed for 200 ms and recorded as
   the last, and cancels the one recorded before.
   */
  lemma {:induction false} GrabAlone<P>(s: Wake<P>, run: seq<Step<P>>, p: P)
    requires Init(s) && Legal(s, run) && Enabled(Run(s, run), Grab(p))
    ensures var r := Run(s, run);
            var tested := Next(Next(r, Grab(p)), Test);
            && (r.last.Some? <==> Enabled(tested, Write))
            && var cancelled := if r.last.Some? then Next(tested, Write) else tested;
            && Enabled(cancelled, Store)
            && var t := Next(cancelled, Store);
            && t.count == r.count + 1 && t.held && t.mutex.Free? && t.last == Some(p) && t.misses == r.misses
            && p in t.queued && t.timers[p] == Timer(r.clock + 200_000, false)
            && (r.last.Some? ==> r.last.value in t.timers && t.timers[r.last.value].cancelled)
  {
    RunKeeps(s, run);
  }

  /** A release only counts down while others still hold the lock; the last one frees it and cancels its timer. */
  lemma {:induction false} ReleaseAlone<P>(s: Wake<P>, run: seq<Step<P>>)
    requires Init(s) && Legal(s, run) && Enabled(Run(s, run), Release)
    ensures var r := Run(s, run);
            var begun := Next(r, Release);
            if r.count > 1 then begun == r.(count := r.count - 1) && begun.held
            else
              && begun.count == 0 && !begun.held && Enabled(begun, Test)
              && (r.last.None? ==> Next(begun, Test).mutex.Free?)
              && (r.last.Some? ==>
                    && Enabled(Next(begun, Test), Write)
                    && var t := Next(Next(begun, Test), Write);
                       t.mutex.Free? && r.last.value in t.timers && t.timers[r.last.value].cancelled)
  {
    RunKeeps(s, run);
  }

  // ---------- the write through the last-timer pointer ----------

  /** The event loop waits for the mutex. */
  ghost predicate Blocked<P>(s: Wake<P>) {
    s.pc.HasRead? && !s.pc.param
  }

  /**
   Where the event loop has to be when the test finds target: waiting for the mutex, or not about to write
   NULL while target is still queued and not cancelled.
   */
  ghost predicate Secure<P>(s: Wake<P>, target: P) {
    || Blocked(s)
    || (target in s.queued && target in s.timers && !s.timers[target].cancelled && !s.pc.Clearing?)
  }

  ghost predicate AlwaysSecure<P>(s: Wake<P>, run: seq<Step<P>>)
    requires Legal(s, run)
    decreases run
  {
    run != [] ==>
      && (run[0].Test? && s.last.Some? ==> Secure(s, s.last.value))
      && AlwaysSecure(Next(s, run[0]), run[1..])
  }

  /** The thread in the mutex is between a test that passed securely and its write. */
  ghost predicate AtSecureWrite<P>(s: Wake<P>, target: P) {
    s.mutex.Writing? && s.mutex.target == target && s.last == Some(target) && Secure(s, target)
  }

  lemma SecureStep<P>(s: Wake<P>, step: Step<P>, target: P)
    requires Inv(s) && AtSecureWrite(s, target) && Enabled(s, step) && !step.Write?
    ensures AtSecureWrite(Next(s, step), target)
  {
  }

  lemma {:induction false} SecureUntilWrite<P>(s: Wake<P>, during: seq<Step<P>>, target: P)
    requires Inv(s) && AtSecureWrite(s, target) && Legal(s, during) && Write !in during
    ensures Meets(Run(s, during), target)
    decreases during
  {
    hide Secure, Next, Enabled;
    if during != [] {
      assert during[0] != Write && forall i | 0 <= i < |during[1..]| :: during[1..][i] == during[i + 1];
      SecureStep(s, during[0], target);
      StepKeeps(s, during[0]);
      SecureUntilWrite(Next(s, during[0]), during[1..], target);
    }
  }

  lemma {:induction false} SecureRunFrom<P>(s: Wake<P>, run: seq<Step<P>>)
    requires Inv(s) && Legal(s, run) && AlwaysSecure(s, run)
    requires s.mutex.Writing? ==> AtSecureWrite(s, s.mutex.target)
    ensures Run(s, run).misses == s.misses
    decreases run
  {
    hide Inv, Secure;
    if run != [] {
      var t := Next(s, run[0]);
      StepKeeps(s, run[0]);
      NoMissStep(s, run[0]);
      SecureRunFrom(t, run[1..]);
    }
  }

  lemma NoMissStep<P>(s: Wake<P>, step: Step<P>)
    requires Inv(s) && Enabled(s, step) && (s.mutex.Writing? ==> AtSecureWrite(s, s.mutex.target))
    requires step.Test? && s.last.Some? ==> Secure(s, s.last.value)
    ensures var t := Next(s, step);
            t.misses == s.misses && (t.mutex.Writing? ==> AtSecureWrite(t, t.mutex.target))
  {
    if s.mutex.Writing? && !step.Write? {
      SecureStep(s, step, s.mutex.target);
    }
  }

  lemma SecureRun<P>(s: Wake<P>, run: seq<Step<P>>)
    requires Init(s) && Legal(s, run) && AlwaysSecure(s, run)
    ensures Run(s, run).misses == 0
  {
    hide Legal, Run, AlwaysSecure;
    SecureRunFrom(s, run);
  }

  /** How far the event loop is from writing NULL over target. */
  ghost function ToClear<P>(s: Wake<P>, target: P): nat {
    match s.pc
    case Clearing(_) => 0
    case Called(p) => if p == target then 1 else 5
    case HasRead(p, _) => if p == target then 2 else 6
    case Idle => if target in s.timers && s.timers[target].deadline < s.clock then 3 else 4
  }

  /** What the event loop does next on its way. */
  ghost function Towards<P>(s: Wake<P>, target: P): Step<P> {
    match s.pc
    case Clearing(_) => Clear
    case Called(_) => Check
    case HasRead(_, _) => Callback
    case Idle =>
      if target !in s.timers then Tick(s.clock)
      else if s.timers[target].deadline < s.clock then Fire(target)
      else Tick(s.timers[target].deadline + 1)
  }

  ghost predicate AtInsecureWrite<P>(s: Wake<P>, target: P) {
    s.mutex.Writing? && s.mutex.target == target && s.last == Some(target) && !Secure(s, target)
  }

  lemma TowardsStep<P>(s: Wake<P>, target: P)
    requires Inv(s) && AtInsecureWrite(s, target)
    ensures Enabled(s, Towards(s, target)) && Towards(s, target) != Write
    ensures var t := Next(s, Towards(s, target));
            if s.pc.Clearing? then t.last.None?
            else AtInsecureWrite(t, target) && ToClear(t, target) < ToClear(s, target)
  {
  }

  lemma {:induction false} InsecureCanMiss<P>(s: Wake<P>, target: P) returns (during: seq<Step<P>>)
    requires Inv(s) && AtInsecureWrite(s, target)
    ensures Legal(s, during) && Write !in during && Run(s, during).last.None?
    decreases ToClear(s, target)
  {
    hide Inv, Legal, Run, Enabled, Next, Secure;
    var step := Towards(s, target);
    TowardsStep(s, target);
    StepKeeps(s, step);
    if s.pc.Clearing? {
      during := [];
      NoSteps(Next(s, step));
    } else {
      during := InsecureCanMiss(Next(s, step), target);
    }
    Prepend(s, step, during);
    during := [step] + during;
  }

  /**
   When a grab or a release tests the last-timer pointer and finds an info, its write through the pointer
   meets that info, whatever the event loop does until then, if and only if the test is secure.
   */
  lemma {:induction false} WriteMeetsIffSecure<P(!new)>(s: Wake<P>, run: seq<Step<P>>, target: P)
    requires Init(s) && Legal(s, run) && Enabled(Run(s, run), Test) && Run(s, run).last == Some(target)
    ensures var tested := Next(Run(s, run), Test);
            Secure(Run(s, run), target) <==>
            forall during | Legal(tested, during) && Write !in during :: Meets(Run(tested, during), target)
  {
    hide Legal, Run, Inv, Secure;
    assert Inv(s) by {
      NothingYet(s);
    }
    RunKeeps(s, run);
    var r := Run(s, run);
    var tested := Next(r, Test);
    StepKeeps(r, Test);
    assert Secure(tested, target) == Secure(r, target) by {
      SameLoop(r, tested, target);
    }
    if Secure(r, target) {
      forall during | Legal(tested, during) && Write !in during
        ensures Meets(Run(tested, during), target)
      {
        SecureUntilWrite(tested, during, target);
      }
    } else {
      var during := InsecureCanMiss(tested, target);
      assert !Meets(Run(tested, during), target);
    }
  }

  lemma NothingYet<P>(s: Wake<P>)
    requires Init(s)
    ensures Inv(s)
  {
  }

  lemma SameLoop<P>(s: Wake<P>, t: Wake<P>, target: P)
    requires s.pc == t.pc && s.queued == t.queued && s.timers == t.timers
    ensures Secure(s, target) == Secure(t, target)
  {
  }

  lemma {:induction false} TrackedIffCleanFrom<P>(s: Wake<P>, run: seq<Step<P>>)
    requires Inv(s) && Tracked(s) && Legal(s, run)
    ensures AlwaysTracked(s, run) <==> AlwaysClean(s, run)
    decreases run
  {
    hide Inv, Next, Enabled, Tracked, CleanClear;
    if run != [] {
      StepKeeps(s, run[0]);
      StepTracks(s, run[0]);
      if Tracked(Next(s, run[0])) {
        TrackedIffCleanFrom(Next(s, run[0]), run[1..]);
      }
    }
  }

  /**
   Throughout a run every uncancelled wake timer is s_last_wake_timeout_info, or about to be stored there,
   if and only if no write of NULL in userTimerCallback comes after a grab that followed its check, unless
   that grab's timer has been cancelled by then.
   */
  lemma {:induction false} TrackedIffClean<P>(s: Wake<P>, run: seq<Step<P>>)
    requires Init(s) && Legal(s, run)
    ensures AlwaysTracked(s, run) <==> AlwaysClean(s, run)
  {
    TrackedIffCleanFrom(s, run);
  }

  // ---------- when the lock is dropped too early ----------

  ghost predicate Timely<P>(s: Wake<P>) {
    && (s.newest.Some? ==>
          && s.lastGrab <= s.clock
          && (s.newest.value in s.timers ==> s.timers[s.newest.value].deadline == s.lastGrab + WAKE_TIMEOUT))
    && (s.pc.HasRead? && s.pc.p in s.timers ==> s.timers[s.pc.p].deadline < s.clock)
  }

  lemma TimelyStep<P>(s: Wake<P>, step: Step<P>)
    requires Inv(s) && Timely(s) && Enabled(s, step)
    ensures Timely(Next(s, step))
  {
  }

  lemma {:induction false} TimelyRun<P>(s: Wake<P>, run: seq<Step<P>>)
    requires Inv(s) && Timely(s) && Legal(s, run)
    ensures Inv(Run(s, run)) && Timely(Run(s, run))
    decreases run
  {
    hide Inv, Timely, Next, Enabled;
    if run != [] {
      StepKeeps(s, run[0]);
      TimelyStep(s, run[0]);
      TimelyRun(Next(s, run[0]), run[1..]);
    }
  }

  /** The next step of the event loop takes the lock away, although its last grab is at most 200 ms old. */
  ghost predicate DropsEarly<P>(s: Wake<P>) {
    Enabled(s, Callback) && s.held && !s.pc.param && s.clock <= s.lastGrab + WAKE_TIMEOUT
  }

  /**
   In every interleaving the timer of the last grab takes the lock away strictly later than 200 ms after
   that grab. The lock goes early if and only if another timer takes it while that one is still queued and
   not yet due.
   */
  lemma {:induction false} DropsEarlyIffNotNewest<P>(s: Wake<P>, run: seq<Step<P>>)
    requires Init(s) && Legal(s, run)
    requires var r := Run(s, run); Enabled(r, Callback) && r.held && !r.pc.param
    ensures var r := Run(s, run);
            && (r.newest == Some(r.pc.p) ==> r.clock > r.lastGrab + WAKE_TIMEOUT)
            && (DropsEarly(r) <==>
                  && r.newest.Some? && r.newest != Some(r.pc.p) && r.newest.value in r.queued
                  && r.newest.value in r.timers && r.clock <= r.timers[r.newest.value].deadline)
  {
    TimelyRun(s, run);
  }

  ghost predicate Grabbed<P>(run: seq<Step<P>>) {
    exists i :: 0 <= i < |run| && run[i].Grab?
  }

  /** The event-loop thread stays where it is until it makes its call; meanwhile others grab, or do not. */
  lemma {:induction false} BeforeCall<P>(s: Wake<P>, during: seq<Step<P>>)
    requires Inv(s) && s.pc.HasRead? && Legal(s, during) && Callback !in during
    ensures var r := Run(s, during);
            && r.pc == s.pc && s.clock <= r.clock
            && (!Grabbed(during) ==> r.newest == s.newest && r.lastGrab == s.lastGrab)
            && (Grabbed(during) ==> r.newest != Some(s.pc.p) && s.clock <= r.lastGrab)
    decreases during
  {
    if during != [] {
      var t, rest := Next(s, during[0]), during[1..];
      assert during[0] != Callback && forall i | 0 <= i < |rest| :: rest[i] == during[i + 1];
      StepKeeps(s, during[0]);
      BeforeCall(t, rest);
      assert Grabbed(during) <==> during[0].Grab? || Grabbed(rest);
    }
  }

  /** A grab of another info has begun, so p is about to be cancelled. */
  ghost predicate GrabbingOther<P>(s: Wake<P>, p: P) {
    Coming(s).Some? && Coming(s) != Some(p)
  }

  /**
   From a state with exact bookkeeping, a fired timer that was read as uncancelled takes the lock away early
   only if a grab is under way at the read or comes between the read and the call; and if the call follows
   within 200 ms (of that grab, or else of the read), exactly then.
   */
  lemma {:induction false} DropsEarlyIffGrabbed<P>(s: Wake<P>, before: seq<Step<P>>, p: P, during: seq<Step<P>>)
    requires Init(s) && Legal(s, before) && Tracked(Run(s, before)) && Enabled(Run(s, before), Fire(p))
    requires !Run(s, before).timers[p].cancelled
    requires Legal(Next(Run(s, before), Fire(p)), during) && Callback !in during
    ensures var read := Next(Run(s, before), Fire(p));
            var r, grabbed := Run(read, during), GrabbingOther(read, p) || Grabbed(during);
            && r.pc == HasRead(p, false)
            && (DropsEarly(r) ==> grabbed)
            && (r.held && r.mutex.Free?
                && r.clock <= (if GrabbingOther(read, p) then read.lastGrab else read.clock) + WAKE_TIMEOUT ==>
                  (DropsEarly(r) <==> grabbed))
  {
    hide Run, Legal;
    TimelyRun(s, before);
    var read := Next(Run(s, before), Fire(p));
    StepKeeps(Run(s, before), Fire(p));
    TimelyStep(Run(s, before), Fire(p));
    assert read.newest == Some(p) <==> !GrabbingOther(read, p);
    TimelyRun(read, during);
    BeforeCall(read, during);
    hide Next, Inv;
    if !GrabbingOther(read, p) && !Grabbed(during) {
      assert p in read.timers && read.timers[p].deadline == read.lastGrab + WAKE_TIMEOUT;
    }
  }

  // ---------- concrete runs ----------

  lemma Prepend<P>(s: Wake<P>, step: Step<P>, run: seq<Step<P>>)
    requires Enabled(s, step) && Legal(Next(s, step), run)
    ensures Legal(s, [step] + run) && Run(s, [step] + run) == Run(Next(s, step), run)
  {
    assert ([step] + run)[1..] == run;
  }

  lemma NoSteps<P>(s: Wake<P>)
    ensures Legal(s, []) && Run(s, []) == s
  {
  }

  lemma {:induction false} Append<P>(s: Wake<P>, run: seq<Step<P>>, step: Step<P>)
    requires Legal(s, run) && Enabled(Run(s, run), step)
    ensures Legal(s, run + [step]) && Run(s, run + [step]) == Next(Run(s, run), step)
    decreases run
  {
    hide Next, Enabled;
    if run == [] {
      NoSteps(Next(s, step));
      Prepend(s, step, []);
      assert [] + [step] == [step] + [];
    } else {
      Append(Next(s, run[0]), run[1..], step);
      assert (run + [step])[1..] == run[1..] + [step];
    }
  }

  /** One more step of a run that has come to r. */
  lemma Go(s: Wake<nat>, run: seq<Step<nat>>, r: Wake<nat>, step: Step<nat>)
    returns (run': seq<Step<nat>>, r': Wake<nat>)
    requires Legal(s, run) && r == Run(s, run) && Enabled(r, step)
    ensures Legal(s, run') && r' == Run(s, run') && r' == Next(r, step) && run' == run + [step]
  {
    Append(s, run, step);
    run', r' := run + [step], Next(r, step);
  }

  const START: Wake<nat> := Wake(0, false, None, map[], {}, 0, 0, None, Idle, Free, 0)

  /** The timer of the only grab has been read as uncancelled. */
  lemma ReachRead() returns (run: seq<Step<nat>>, r: Wake<nat>)
    ensures Init(START) && Legal(START, run) && r == Run(START, run)
    ensures r == Wake(1, true, Some(0), map[0 := Timer(WAKE_TIMEOUT, false)], {}, WAKE_TIMEOUT + 1, 0, Some(0),
                      HasRead(0, false), Free, 0)
    ensures forall i | 0 <= i < |run| :: !run[i].Clear?
  {
    hide Legal, Run;
    NoSteps(START);
    run, r := [], START;
    run, r := Go(START, run, r, Grab(0));
    run, r := Go(START, run, r, Test);
    run, r := Go(START, run, r, Store);
    run, r := Go(START, run, r, Tick(WAKE_TIMEOUT + 1));
    run, r := Go(START, run, r, Fire(0));
  }

  /** It has made its call, and is about to write NULL; then a second grab begins. */
  lemma ReachSecondGrab() returns (run: seq<Step<nat>>, r: Wake<nat>)
    ensures Legal(START, run) && r == Run(START, run)
    ensures r.last == Some(0) && r.pc == Clearing(0) && r.mutex == Testing(Some(1)) && r.held && r.misses == 0
    ensures r.timers == map[0 := Timer(WAKE_TIMEOUT, false), 1 := Timer(WAKE_TIMEOUT + 1 + WAKE_TIMEOUT, false)]
  {
    hide Legal, Run;
    run, r := ReachRead();
    run, r := Go(START, run, r, Callback);
    run, r := Go(START, run, r, Check);
    run, r := Go(START, run, r, Grab(1));
  }

  /** A grab between check and write of NULL: its timer stays armed, but nothing points to it any more. */
  lemma LateClearLosesTimer() returns (run: seq<Step<nat>>)
    ensures Init(START) && Legal(START, run)
    ensures var r := Run(START, run);
            r.held && r.last.None? && 1 in r.timers && !r.timers[1].cancelled && !Tracked(r)
  {
    hide Legal, Run;
    var r;
    run, r := ReachSecondGrab();
    run, r := Go(START, run, r, Test);
    run, r := Go(START, run, r, Write);
    run, r := Go(START, run, r, Store);
    run, r := Go(START, run, r, Clear);
    assert 1 in r.timers && !r.timers[1].cancelled;
  }

  /** A write of NULL between test and write of a grab: the write goes through NULL, to an info that is freed. */
  lemma WriteCanMiss() returns (run: seq<Step<nat>>)
    ensures Init(START) && Legal(START, run)
    ensures var r := Run(START, run); r.misses == 1 && r.last.None? && 0 !in r.timers
  {
    hide Legal, Run;
    var r;
    run, r := ReachSecondGrab();
    run, r := Go(START, run, r, Test);
    run, r := Go(START, run, r, Clear);
    run, r := Go(START, run, r, Write);
  }

  /** A grab between read and call: the lock goes at the instant of the grab, with the bookkeeping intact. */
  lemma GrabLosesLock() returns (run: seq<Step<nat>>)
    ensures Init(START) && Legal(START, run) && AlwaysClean(START, run)
    ensures var r := Run(START, run);
            && DropsEarly(r) && !Next(r, Callback).held
            && Next(r, Callback).clock == Next(r, Callback).lastGrab
  {
    hide Legal, Run;
    var r;
    run, r := ReachRead();
    run, r := Go(START, run, r, Grab(1));
    run, r := Go(START, run, r, Test);
    run, r := Go(START, run, r, Write);
    run, r := Go(START, run, r, Store);
    NoClears(START, run);
  }

  lemma {:induction false} NoClears<P>(s: Wake<P>, run: seq<Step<P>>)
    requires Legal(s, run) && forall i | 0 <= i < |run| :: !run[i].Clear?
    ensures AlwaysClean(s, run)
    decreases run
  {
    if run != [] {
      NoClears(Next(s, run[0]), run[1..]);
    }
  }
}
