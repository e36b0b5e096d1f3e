/**
 The client-death protocol of ril_service.cpp for one slot: any number of threads calling into the client,
 noticing that it is dead, and resetting the callbacks, while setResponseFunctions installs new ones. Both
 services share one read-write lock and have a counter each.
 */
module ClientDeath {
  import opened Wrappers

  datatype Service = Radio | OemHook

  /** Radio uses all four interface pointers, OemHook the first two. A pointer is the number of its installation. */
  datatype Callbacks = Callbacks(response: Option<nat>, indication: Option<nat>,
                                 responseV11: Option<nat>, indicationV11: Option<nat>)

  const CLEARED := Callbacks(None, None, None, None)

  /** The installation in force: the client may have passed either interface as null. */
  function Current(c: Callbacks): Option<nat> {
    if c.response.Some? then c.response else c.indication
  }

  /**
   Where a thread is. service is the one it called; used is the installation the failed call went to;
   counter is the local variable of checkReturnStatus.
   */
  datatype Pc =
    | Idle
    | Holding
    | Failed(service: Service, used: Option<nat>)
    | Noted(service: Service, used: Option<nat>, counter: nat)
    | Released(service: Service, used: Option<nat>, counter: nat)
    | Writing(service: Service, used: Option<nat>, counter: nat)
    | Reset
    | Unlocked
    | Installing(service: Service)
    | Installed

  /** A clearing of the callbacks: of which service, which installation was lost, which one had failed. */
  datatype Clearing = Clearing(service: Service, counter: nat, lost: Option<nat>, failed: Option<nat>)

  datatype World = World(threads: map<nat, Pc>, readers: multiset<nat>, writer: Option<nat>,
                         counter: map<Service, nat>, callbacks: map<Service, Callbacks>,
                         installs: nat, clearings: seq<Clearing>)

  datatype Step =
    | ReadLock(t: nat)
    | WriteLockNitz(t: nat)
    | CallFails(t: nat, service: Service)
    | Note(t: nat)
    | Release(t: nat)
    | WriteLock(t: nat)
    | MaybeReset(t: nat)
    | WriteUnlock(t: nat)
    | ReadAgain(t: nat)
    | Unlock(t: nat)
    | StartInstall(t: nat, service: Service)
    | Install(t: nat, response: bool, indication: bool, v11: bool)
    | EndInstall(t: nat)

  ghost predicate Free(s: World) {
    s.writer.None? && s.readers == multiset{}
  }

  ghost predicate Known(s: World, t: nat) {
    t in s.threads && forall v: Service :: v in s.counter && v in s.callbacks
  }

  ghost predicate Enabled(s: World, step: Step) {
    Known(s, step.t) &&
    var pc := s.threads[step.t];
    match step
    case ReadLock(t) => pc.Idle? && s.writer.None?
    case WriteLockNitz(t) => pc.Idle? && Free(s)
    case CallFails(t, service) => pc.Holding? && Current(s.callbacks[service]).Some?
    case Note(t) => pc.Failed?
    case Release(t) => pc.Noted?
    case WriteLock(t) => pc.Released? && Free(s)
    case MaybeReset(t) => pc.Writing?
    case WriteUnlock(t) => pc.Reset?
    case ReadAgain(t) => pc.Unlocked? && s.writer.None?
    case Unlock(t) => pc.Holding?
    case StartInstall(t, service) => pc.Idle? && Free(s)
    case Install(t, _, _, _) => pc.Installing?
    case EndInstall(t) => pc.Installed?
  }

  /** pthread_rwlock_unlock by t: gives up the write lock if t has it, else one read share. */
  ghost function UnlockBy(s: World, t: nat): World {
    if s.writer == Some(t) then s.(writer := None) else s.(readers := s.readers - multiset{t})
  }

  ghost function Go(s: World, t: nat, pc: Pc): World {
    s.(threads := s.threads[t := pc])
  }

  /** checkReturnStatus, lines 799-814. */
  ghost function ResetIfCurrent(s: World, t: nat): World
    requires Enabled(s, MaybeReset(t))
  {
    var pc := s.threads[t];
    if pc.counter == s.counter[pc.service] then
      s.(callbacks := s.callbacks[pc.service := CLEARED],
         counter := s.counter[pc.service := s.counter[pc.service] + 1],
         clearings := s.clearings
           + [Clearing(pc.service, pc.counter, Current(s.callbacks[pc.service]), pc.used)])
    else s
  }

  /** What the client hands over: which interfaces are not null, and whether both casts to the newer ones succeed. */
  ghost function Passed(n: nat, service: Service, response: bool, indication: bool, v11: bool): Callbacks {
    var newer := if service.Radio? && response && indication && v11 then Some(n) else None;
    Callbacks(if response then Some(n) else None, if indication then Some(n) else None, newer, newer)
  }

  /** setResponseFunctions: the V1_1 pointers are set together or not at all. */
  ghost function InstallNew(s: World, t: nat, response: bool, indication: bool, v11: bool): World
    requires Enabled(s, Install(t, response, indication, v11))
  {
    var service := s.threads[t].service;
    s.(callbacks := s.callbacks[service := Passed(s.installs, service, response, indication, v11)],
       counter := s.counter[service := s.counter[service] + 1],
       installs := s.installs + 1)
  }

  ghost function Next(s: World, step: Step): World
    requires Enabled(s, step)
  {
    var t := step.t;
    var pc := s.threads[t];
    match step
    case ReadLock(_) => Go(s.(readers := s.readers + multiset{t}), t, Holding)
    case WriteLockNitz(_) => Go(s.(writer := Some(t)), t, Holding)
    case CallFails(_, service) => Go(s, t, Failed(service, Current(s.callbacks[service])))
    case Note(_) => Go(s, t, Noted(pc.service, pc.used, s.counter[pc.service]))
    case Release(_) => Go(UnlockBy(s, t), t, Released(pc.service, pc.used, pc.counter))
    case WriteLock(_) => Go(s.(writer := Some(t)), t, Writing(pc.service, pc.used, pc.counter))
    case MaybeReset(_) => Go(ResetIfCurrent(s, t), t, Reset)
    case WriteUnlock(_) => Go(UnlockBy(s, t), t, Unlocked)
    case ReadAgain(_) => Go(s.(readers := s.readers + multiset{t}), t, Holding)
    case Unlock(_) => Go(UnlockBy(s, t), t, Idle)
    case StartInstall(_, service) => Go(s.(writer := Some(t)), t, Installing(service))
    case Install(_, response, indication, v11) => Go(InstallNew(s, t, response, indication, v11), t, Installed)
    case EndInstall(_) => Go(UnlockBy(s, t), t, Idle)
  }

  ghost predicate Init(s: World) {
    && (forall t | t in s.threads :: s.threads[t].Idle?)
    && Free(s) && (forall v: Service :: v in s.counter && v in s.callbacks && s.callbacks[v] == CLEARED)
    && s.installs == 0 && s.clearings == []
  }

  // ---------- the lock ----------

  /** In these states the thread holds one share: of either kind in Holding to Noted, the write lock in the others. */
  predicate HoldsAny(pc: Pc) {
    pc.Holding? || pc.Failed? || pc.Noted?
  }

  predicate HoldsWrite(pc: Pc) {
    pc.Writing? || pc.Reset? || pc.Installing? || pc.Installed?
  }

  ghost predicate Shares(pc: Pc, t: nat, readers: multiset<nat>, writer: Option<nat>) {
    if HoldsWrite(pc) then writer == Some(t) && readers[t] == 0
    else if HoldsAny(pc) then if writer == Some(t) then readers[t] == 0 else readers[t] == 1
    else writer != Some(t) && readers[t] == 0
  }

  ghost predicate LockOk(threads: map<nat, Pc>, readers: multiset<nat>, writer: Option<nat>) {
    && (writer.Some? ==> readers == multiset{} && writer.value in threads)
    && (forall t | t in threads :: Shares(threads[t], t, readers, writer))
    && (forall t: nat | t !in threads :: readers[t] == 0)
  }

  lemma Stay(threads: map<nat, Pc>, readers: multiset<nat>, writer: Option<nat>, t: nat, pc: Pc)
    requires LockOk(threads, readers, writer) && t in threads
    requires HoldsWrite(pc) == HoldsWrite(threads[t]) && HoldsAny(pc) == HoldsAny(threads[t])
    ensures LockOk(threads[t := pc], readers, writer)
  {
  }

  lemma TakeRead(threads: map<nat, Pc>, readers: multiset<nat>, t: nat, pc: Pc)
    requires LockOk(threads, readers, None) && t in threads
    requires !HoldsAny(threads[t]) && !HoldsWrite(threads[t]) && HoldsAny(pc)
    ensures LockOk(threads[t := pc], readers + multiset{t}, None)
  {
    assert Shares(threads[t], t, readers, None);
  }

  lemma TakeWrite(threads: map<nat, Pc>, t: nat, pc: Pc)
    requires LockOk(threads, multiset{}, None) && t in threads && (HoldsAny(pc) || HoldsWrite(pc))
    ensures LockOk(threads[t := pc], multiset{}, Some(t))
  {
    forall u | u in threads && u != t
      ensures Shares(threads[u], u, multiset{}, Some(t))
    {
      assert Shares(threads[u], u, multiset{}, None);
    }
  }

  lemma GiveUp(threads: map<nat, Pc>, readers: multiset<nat>, writer: Option<nat>, t: nat, pc: Pc)
    requires LockOk(threads, readers, writer) && t in threads && (HoldsAny(threads[t]) || HoldsWrite(threads[t]))
    requires !HoldsAny(pc) && !HoldsWrite(pc)
    ensures writer == Some(t) ==> LockOk(threads[t := pc], readers, None)
    ensures writer != Some(t) ==> LockOk(threads[t := pc], readers - multiset{t}, writer)
  {
    assert Shares(threads[t], t, readers, writer);
    forall u | u in threads && u != t
      ensures writer == Some(t) ==> Shares(threads[u], u, readers, None)
    {
      assert Shares(threads[u], u, readers, writer);
    }
  }

  lemma LockStep(s: World, step: Step)
    requires LockOk(s.threads, s.readers, s.writer) && Enabled(s, step)
    ensures LockOk(Next(s, step).threads, Next(s, step).readers, Next(s, step).writer)
  {
    hide LockOk, ResetIfCurrent, InstallNew;
    var t, pc := step.t, Next(s, step).threads[step.t];
    match step
    case ReadLock(_) => TakeRead(s.threads, s.readers, t, pc);
    case ReadAgain(_) => TakeRead(s.threads, s.readers, t, pc);
    case WriteLockNitz(_) => TakeWrite(s.threads, t, pc);
    case WriteLock(_) => TakeWrite(s.threads, t, pc);
    case StartInstall(_, _) => TakeWrite(s.threads, t, pc);
    case Release(_) => GiveUp(s.threads, s.readers, s.writer, t, pc);
    case WriteUnlock(_) => GiveUp(s.threads, s.readers, s.writer, t, pc);
    case Unlock(_) => GiveUp(s.threads, s.readers, s.writer, t, pc);
    case EndInstall(_) => GiveUp(s.threads, s.readers, s.writer, t, pc);
    case MaybeReset(_) =>
      Stay(s.threads, s.readers, s.writer, t, pc);
      ResetSameLock(s, t);
    case Install(_, response, indication, v11) =>
      Stay(s.threads, s.readers, s.writer, t, pc);
      InstallSameLock(s, t, response, indication, v11);
    case _ => Stay(s.threads, s.readers, s.writer, t, pc);
  }

  lemma ResetSameLock(s: World, t: nat)
    requires Enabled(s, MaybeReset(t))
    ensures var r := ResetIfCurrent(s, t); r.threads == s.threads && r.readers == s.readers && r.writer == s.writer
  {
  }

  lemma InstallSameLock(s: World, t: nat, response: bool, indication: bool, v11: bool)
    requires Enabled(s, Install(t, response, indication, v11))
    ensures var r := InstallNew(s, t, response, indication, v11);
            r.threads == s.threads && r.readers == s.readers && r.writer == s.writer
  {
  }

  /** While one thread has the write lock, no other holds any share. */
  lemma WriterAlone(s: World, t: nat, u: nat)
    requires LockOk(s.threads, s.readers, s.writer) && t in s.threads && u in s.threads && t != u
    requires HoldsWrite(s.threads[t])
    ensures !HoldsAny(s.threads[u]) && !HoldsWrite(s.threads[u])
  {
    assert Shares(s.threads[t], t, s.readers, s.writer) && Shares(s.threads[u], u, s.readers, s.writer);
  }

  // ---------- generations ----------

  /** What a thread on its way through checkReturnStatus knows about the service it called. */
  ghost predicate Knows(pc: Pc, counter: map<Service, nat>, callbacks: map<Service, Callbacks>) {
    match pc
    case Failed(v, used) => v in callbacks && used.Some? && Current(callbacks[v]) == used
    case Noted(v, used, n) =>
      v in callbacks && v in counter && used.Some? && Current(callbacks[v]) == used && n == counter[v]
    case Released(v, used, n) =>
      && v in callbacks && v in counter && used.Some? && n <= counter[v]
      && (n == counter[v] ==> Current(callbacks[v]) == used)
    case Writing(v, used, n) =>
      && v in callbacks && v in counter && used.Some? && n <= counter[v]
      && (n == counter[v] ==> Current(callbacks[v]) == used)
    case _ => true
  }

  ghost predicate AllKnow(s: World) {
    forall t | t in s.threads :: Knows(s.threads[t], s.counter, s.callbacks)
  }

  /** Pointers come from one installation, and the newer interfaces are present together or not at all. */
  ghost predicate Shaped(c: Callbacks) {
    && (c.response.Some? && c.indication.Some? ==> c.response == c.indication)
    && c.indicationV11 == c.responseV11
    && (c.responseV11.Some? ==> c.responseV11 == c.response == c.indication)
  }

  /** Clearings hit exactly the installation that failed, and no counter value or installation twice. */
  ghost predicate ClearedOnce(s: World) {
    && (forall i | 0 <= i < |s.clearings| ::
          var c := s.clearings[i];
          && c.lost == c.failed && c.lost.Some? && c.lost.value < s.installs
          && c.service in s.counter && c.counter < s.counter[c.service])
    && (forall i, j | 0 <= i < j < |s.clearings| ::
          && s.clearings[i].lost != s.clearings[j].lost
          && (s.clearings[i].service == s.clearings[j].service ==> s.clearings[i].counter < s.clearings[j].counter))
  }

  /** The current installations are not among the lost ones, and the services do not share one. */
  ghost predicate CurrentOk(s: World) {
    forall v: Service :: v in s.callbacks && v in s.counter && Shaped(s.callbacks[v]) &&
      (Current(s.callbacks[v]).Some? ==>
         && Current(s.callbacks[v]).value < s.installs
         && (forall i | 0 <= i < |s.clearings| :: s.clearings[i].lost != Current(s.callbacks[v]))
         && (forall u: Service | u != v ::
               u in s.callbacks && Current(s.callbacks[u]) != Current(s.callbacks[v])))
  }

  ghost predicate Inv(s: World) {
    LockOk(s.threads, s.readers, s.writer) && AllKnow(s) && ClearedOnce(s) && CurrentOk(s)
  }

  lemma KnowsStep(s: World, step: Step)
    requires LockOk(s.threads, s.readers, s.writer) && AllKnow(s) && Enabled(s, step)
    ensures AllKnow(Next(s, step))
  {
    var r := Next(s, step);
    forall t | t in r.threads
      ensures Knows(r.threads[t], r.counter, r.callbacks)
    {
      assert t in s.threads && Knows(s.threads[t], s.counter, s.callbacks);
      hide AllKnow, LockOk, Next, Knows;
      if t == step.t {
        OwnKnowledge(s, step);
      } else {
        OtherKnowledge(s, step, t);
      }
    }
  }

  lemma OwnKnowledge(s: World, step: Step)
    requires Enabled(s, step) && Knows(s.threads[step.t], s.counter, s.callbacks)
    ensures var r := Next(s, step); Knows(r.threads[step.t], r.counter, r.callbacks)
  {
  }

  /** Only a writer changes what others know, and then the others hold no lock. */
  lemma OtherKnowledge(s: World, step: Step, u: nat)
    requires LockOk(s.threads, s.readers, s.writer) && Enabled(s, step) && u in s.threads && u != step.t
    requires Knows(s.threads[u], s.counter, s.callbacks)
    ensures var r := Next(s, step); Knows(r.threads[u], r.counter, r.callbacks)
  {
    hide LockOk;
    if step.MaybeReset? || step.Install? {
      WriterAlone(s, step.t, u);
    }
  }

  lemma ResetStep(s: World, t: nat)
    requires AllKnow(s) && ClearedOnce(s) && CurrentOk(s) && Enabled(s, MaybeReset(t))
    ensures ClearedOnce(ResetIfCurrent(s, t)) && CurrentOk(ResetIfCurrent(s, t))
  {
    assert Knows(s.threads[t], s.counter, s.callbacks);
    hide AllKnow, ClearedOnce, CurrentOk, Knows;
    ResetOnce(s, t);
    ResetCurrent(s, t);
  }

  lemma ResetCurrent(s: World, t: nat)
    requires CurrentOk(s) && Enabled(s, MaybeReset(t)) && Knows(s.threads[t], s.counter, s.callbacks)
    ensures CurrentOk(ResetIfCurrent(s, t))
  {
    hide Shaped, Current;
    NothingThere();
  }

  lemma NothingThere()
    ensures Shaped(CLEARED) && Current(CLEARED).None?
  {
  }

  lemma ResetOnce(s: World, t: nat)
    requires ClearedOnce(s) && CurrentOk(s) && Enabled(s, MaybeReset(t)) && Knows(s.threads[t], s.counter, s.callbacks)
    ensures ClearedOnce(ResetIfCurrent(s, t))
  {
  }

  lemma InstallStep(s: World, t: nat, response: bool, indication: bool, v11: bool)
    requires ClearedOnce(s) && CurrentOk(s) && Enabled(s, Install(t, response, indication, v11))
    ensures var r := InstallNew(s, t, response, indication, v11); ClearedOnce(r) && CurrentOk(r)
  {
    var service, r := s.threads[t].service, InstallNew(s, t, response, indication, v11);
    PassedOn(s.installs, service, response, indication, v11);
    LostBefore(s);
    hide Passed, Shaped, Current;
    assert CurrentOk(r) by {
      hide ClearedOnce;
    }
    hide CurrentOk;
  }

  lemma PassedOn(n: nat, v: Service, response: bool, indication: bool, v11: bool)
    ensures var c := Passed(n, v, response, indication, v11); Shaped(c) && (Current(c).Some? ==> Current(c).value == n)
  {
  }

  lemma LostBefore(s: World)
    requires ClearedOnce(s)
    ensures forall i | 0 <= i < |s.clearings| :: s.clearings[i].lost.Some? && s.clearings[i].lost.value < s.installs
  {
  }

  lemma SameRecord(s: World, r: World)
    requires ClearedOnce(s) && CurrentOk(s)
    requires r.clearings == s.clearings && r.counter == s.counter
    requires r.callbacks == s.callbacks && r.installs == s.installs
    ensures ClearedOnce(r) && CurrentOk(r)
  {
  }

  lemma ClearedStep(s: World, step: Step)
    requires AllKnow(s) && ClearedOnce(s) && CurrentOk(s) && Enabled(s, step)
    ensures ClearedOnce(Next(s, step)) && CurrentOk(Next(s, step))
  {
    hide AllKnow, ClearedOnce, CurrentOk, ResetIfCurrent, InstallNew, UnlockBy;
    var base := if step.MaybeReset? then ResetIfCurrent(s, step.t)
                else if step.Install? then InstallNew(s, step.t, step.response, step.indication, step.v11)
                else s;
    if step.MaybeReset? {
      ResetStep(s, step.t);
    }
    if step.Install? {
      InstallStep(s, step.t, step.response, step.indication, step.v11);
    }
    UnlockSame(s, step.t);
    SameRecord(base, Next(s, step));
  }

  lemma UnlockSame(s: World, t: nat)
    ensures var r := UnlockBy(s, t);
            && r.clearings == s.clearings && r.counter == s.counter
            && r.callbacks == s.callbacks && r.installs == s.installs
  {
  }

  lemma StepKeeps(s: World, step: Step)
    requires Inv(s) && Enabled(s, step)
    ensures Inv(Next(s, step))
  {
    hide LockOk, AllKnow, ClearedOnce, CurrentOk, Next;
    LockStep(s, step);
    KnowsStep(s, step);
    ClearedStep(s, step);
  }

  // ---------- runs ----------

  ghost predicate Legal(s: World, run: seq<Step>)
    decreases run
  {
    run != [] ==> Enabled(s, run[0]) && Legal(Next(s, run[0]), run[1..])
  }

  ghost function Run(s: World, run: seq<Step>): World
    requires Legal(s, run)
    decreases run
  {
    if run == [] then s else Run(Next(s, run[0]), run[1..])
  }

  lemma {:induction false} RunKeeps(s: World, run: seq<Step>)
    requires Inv(s) && Legal(s, run)
    ensures Inv(Run(s, run))
    decreases run
  {
    hide Inv, Next, Enabled;
    if run != [] {
      StepKeeps(s, run[0]);
      RunKeeps(Next(s, run[0]), run[1..]);
    }
  }

  lemma InitInv(s: World)
    requires Init(s)
    ensures Inv(s)
  {
  }

  /**
   In every interleaving, a failure only ever clears the installation on which the call failed, never one
   made later; and no counter value and no installation is cleared twice.
   */
  lemma {:induction false} StaleFailureNeverClears(s: World, run: seq<Step>)
    requires Init(s) && Legal(s, run)
    ensures var cs := Run(s, run).clearings;
            && (forall i | 0 <= i < |cs| :: cs[i].failed.Some? && cs[i].lost == cs[i].failed)
            && (forall i, j | 0 <= i < j < |cs| ::
                  && cs[i].lost != cs[j].lost
                  && (cs[i].service == cs[j].service ==> cs[i].counter != cs[j].counter))
  {
    hide Run, Legal, Next, Enabled, LockOk, AllKnow, CurrentOk;
    InitInv(s);
    RunKeeps(s, run);
  }

  /**
   checkReturnStatus ends with its caller holding exactly one read share and no write lock, even if it was
   entered with the write lock; whenever a caller holds anything, it holds one share.
   */
  lemma {:induction false} CallerHoldsOneShare(s: World, run: seq<Step>, t: nat)
    requires Init(s) && Legal(s, run) && t in Run(s, run).threads
    ensures var r := Run(s, run);
            && (r.threads[t].Holding? ==> r.readers[t] + (if r.writer == Some(t) then 1 else 0) == 1)
            && (Enabled(r, ReadAgain(t)) ==>
                  var r' := Next(r, ReadAgain(t));
                  r'.threads[t].Holding? && r'.readers[t] == 1 && r'.writer.None?)
            && (r.threads[t].Idle? ==> r.readers[t] == 0 && r.writer != Some(t))
  {
    hide Run, Legal, AllKnow, CurrentOk, ClearedOnce;
    InitInv(s);
    RunKeeps(s, run);
    assert Shares(Run(s, run).threads[t], t, Run(s, run).readers, Run(s, run).writer);
  }

  /** The newer callback interfaces are never left half installed. */
  lemma {:induction false} CallbacksWhole(s: World, run: seq<Step>, v: Service)
    requires Init(s) && Legal(s, run)
    ensures v in Run(s, run).callbacks && Shaped(Run(s, run).callbacks[v])
  {
    hide Run, Legal, Next, Enabled, LockOk, AllKnow, ClearedOnce;
    InitInv(s);
    RunKeeps(s, run);
  }

  /** A thread that reads while nobody writes can make a call, and the call can fail. */
  lemma CallCanFail(s: World, t: nat, v: Service)
    requires Known(s, t) && s.threads[t].Idle? && Free(s) && Current(s.callbacks[v]).Some?
    ensures Enabled(s, ReadLock(t))
    ensures var r1 := Next(s, ReadLock(t));
            && Enabled(r1, CallFails(t, v))
            && var r2 := Next(r1, CallFails(t, v));
               Known(r2, t) && r2.threads[t] == Failed(v, Current(s.callbacks[v])) && r2.counter == s.counter
               && r2.callbacks == s.callbacks && r2.readers == multiset{t} && r2.writer.None?
               && r2.clearings == s.clearings
  {
  }

  /** Undisturbed, checkReturnStatus runs through, clears all callbacks of the service, and keeps one read share. */
  lemma UndisturbedReset(s: World, t: nat)
    requires Known(s, t) && s.threads[t].Failed? && s.readers == multiset{t} && s.writer.None?
    ensures Enabled(s, Note(t)) && Enabled(Next(s, Note(t)), Release(t))
    ensures var r := Next(Next(s, Note(t)), Release(t));
            && Enabled(r, WriteLock(t)) && Enabled(Next(r, WriteLock(t)), MaybeReset(t))
            && var c := Next(Next(r, WriteLock(t)), MaybeReset(t));
            && c.callbacks == s.callbacks[s.threads[t].service := CLEARED]
            && |c.clearings| == |s.clearings| + 1
            && Enabled(c, WriteUnlock(t)) && Enabled(Next(c, WriteUnlock(t)), ReadAgain(t))
            && var e := Next(Next(c, WriteUnlock(t)), ReadAgain(t));
               e.callbacks == c.callbacks && e.readers == multiset{t} && e.writer.None?
  {
    ReleasedState(s, t);
    var r := Next(Next(s, Note(t)), Release(t));
    hide Next;
    ResetState(r, t);
  }

  lemma ReleasedState(s: World, t: nat)
    requires Known(s, t) && s.threads[t].Failed? && s.readers == multiset{t} && s.writer.None?
    ensures Enabled(s, Note(t)) && Enabled(Next(s, Note(t)), Release(t))
    ensures var r, f := Next(Next(s, Note(t)), Release(t)), s.threads[t];
            && r.threads == s.threads[t := Released(f.service, f.used, s.counter[f.service])]
            && Free(r) && Known(r, t) && r.counter == s.counter && r.callbacks == s.callbacks
            && r.clearings == s.clearings
  {
  }

  lemma ResetState(r: World, t: nat)
    requires Known(r, t) && r.threads[t].Released? && Free(r) && r.threads[t].counter == r.counter[r.threads[t].service]
    ensures Enabled(r, WriteLock(t)) && Enabled(Next(r, WriteLock(t)), MaybeReset(t))
    ensures var c := Next(Next(r, WriteLock(t)), MaybeReset(t));
            && c.callbacks == r.callbacks[r.threads[t].service := CLEARED] && |c.clearings| == |r.clearings| + 1
            && Enabled(c, WriteUnlock(t)) && Enabled(Next(c, WriteUnlock(t)), ReadAgain(t))
            && var e := Next(Next(c, WriteUnlock(t)), ReadAgain(t));
               e.callbacks == c.callbacks && e.readers == multiset{t} && e.writer.None?
  {
  }

  /** The step by which a thread inside the lock goes on; it needs no lock. */
  function Onward(t: nat, pc: Pc): Step {
    match pc
    case Failed(_, _) => Note(t)
    case Noted(_, _, _) => Release(t)
    case Writing(_, _, _) => MaybeReset(t)
    case Reset => WriteUnlock(t)
    case Installing(_) => Install(t, true, true, false)
    case Installed => EndInstall(t)
    case Released(_, _, _) => WriteLock(t)
    case Unlocked => ReadAgain(t)
    case _ => Unlock(t)
  }

  /**
   Upgrading by release and reacquire cannot deadlock: as long as some thread is not idle, some thread
   that is not idle can go on.
   */
  lemma {:induction false} NoDeadlock(s: World, run: seq<Step>, t: nat) returns (u: nat)
    requires Init(s) && Legal(s, run) && t in Run(s, run).threads && !Run(s, run).threads[t].Idle?
    ensures var r := Run(s, run);
            u in r.threads && !r.threads[u].Idle? && Enabled(r, Onward(u, r.threads[u]))
  {
    hide Run, Legal, Next, AllKnow, ClearedOnce;
    InitInv(s);
    RunKeeps(s, run);
    var r := Run(s, run);
    if h :| h in r.threads && (HoldsAny(r.threads[h]) || HoldsWrite(r.threads[h])) {
      u := h;
    } else {
      u := t;
      NobodyHolds(r.threads, r.readers, r.writer);
    }
  }

  lemma NobodyHolds(threads: map<nat, Pc>, readers: multiset<nat>, writer: Option<nat>)
    requires LockOk(threads, readers, writer)
    requires forall t | t in threads :: !HoldsAny(threads[t]) && !HoldsWrite(threads[t])
    ensures writer.None? && readers == multiset{}
  {
    assert forall t: nat :: readers[t] == 0 by {
      forall t: nat
        ensures readers[t] == 0
      {
        if t in threads {
          assert Shares(threads[t], t, readers, writer);
        }
      }
    }
    if writer.Some? {
      WriterHolds(threads, readers, writer);
    }
  }

  lemma WriterHolds(threads: map<nat, Pc>, readers: multiset<nat>, writer: Option<nat>)
    requires LockOk(threads, readers, writer) && writer.Some?
    ensures HoldsAny(threads[writer.value]) || HoldsWrite(threads[writer.value])
  {
    assert Shares(threads[writer.value], writer.value, readers, writer);
  }
}
