/** The functions of ril_service.cpp that take part in the client-death protocol, on the fields they update. */
module ClientService {
  import opened Wrappers
  import opened ClientDeath

  // ---------- one trip through checkReturnStatus ----------

  /** run1 is what other threads do between the two locks, run2 what they do before the read lock is back. */
  ghost function Trip(t: nat, run1: seq<Step>, run2: seq<Step>): seq<Step> {
    [Note(t), Release(t)] + run1 + [WriteLock(t), MaybeReset(t), WriteUnlock(t)] + run2 + [ReadAgain(t)]
  }

  ghost predicate NotBy(t: nat, run: seq<Step>) {
    forall i | 0 <= i < |run| :: run[i].t != t
  }

  lemma {:induction false} RunConcat(s: World, a: seq<Step>, b: seq<Step>)
    requires Legal(s, a + b)
    ensures Legal(s, a) && Legal(Run(s, a), b) && Run(s, a + b) == Run(Run(s, a), b)
    decreases a
  {
    hide Next, Enabled;
    if a == [] {
      assert a + b == b;
    } else {
      assert (a + b)[1..] == a[1..] + b;
      RunConcat(Next(s, a[0]), a[1..], b);
    }
  }

  lemma RunOne(s: World, step: Step, rest: seq<Step>)
    requires Legal(s, [step] + rest)
    ensures Enabled(s, step) && Legal(Next(s, step), rest) && Run(s, [step] + rest) == Run(Next(s, step), rest)
  {
    hide Next, Enabled;
    assert ([step] + rest)[1..] == rest;
  }

  lemma {:induction false} OthersLeaveMe(s: World, run: seq<Step>, t: nat)
    requires Legal(s, run) && NotBy(t, run) && t in s.threads
    ensures t in Run(s, run).threads && Run(s, run).threads[t] == s.threads[t]
    decreases run
  {
    if run != [] {
      NextLeavesMe(s, run[0], t);
      OthersLeaveMe(Next(s, run[0]), run[1..], t);
    }
  }

  lemma NextLeavesMe(s: World, step: Step, t: nat)
    requires Enabled(s, step) && step.t != t && t in s.threads
    ensures t in Next(s, step).threads && Next(s, step).threads[t] == s.threads[t]
  {
  }

  /** The step installs callbacks of v or clears them. */
  ghost predicate Touches(s: World, step: Step, v: Service)
    requires Enabled(s, step)
  {
    && (step.Install? || step.MaybeReset?) && s.threads[step.t].service == v
    && (step.MaybeReset? ==> s.threads[step.t].counter == s.counter[v])
  }

  ghost predicate Disturbed(s: World, run: seq<Step>, v: Service)
    requires Legal(s, run)
    decreases run
  {
    run != [] && (Touches(s, run[0], v) || Disturbed(Next(s, run[0]), run[1..], v))
  }

  lemma TouchMoves(s: World, step: Step, v: Service)
    requires Enabled(s, step)
    ensures var r := Next(s, step);
            && v in s.counter && v in r.counter && v in s.callbacks && v in r.callbacks
            && r.counter[v] == s.counter[v] + (if Touches(s, step, v) then 1 else 0)
            && (!Touches(s, step, v) ==> r.callbacks[v] == s.callbacks[v])
  {
    hide Passed, UnlockBy;
    UnlockSame(s, step.t);
  }

  /** The counter stands still exactly as long as nobody installs or clears, and then so do the callbacks. */
  lemma {:induction false} CounterTells(s: World, run: seq<Step>, v: Service)
    requires Legal(s, run) && v in s.counter && v in s.callbacks
    ensures var r := Run(s, run);
            && v in r.counter && v in r.callbacks && s.counter[v] <= r.counter[v]
            && (r.counter[v] == s.counter[v] <==> !Disturbed(s, run, v))
            && (!Disturbed(s, run, v) ==> r.callbacks[v] == s.callbacks[v])
    decreases run
  {
    hide Next, Enabled, Touches;
    if run != [] {
      TouchMoves(s, run[0], v);
      CounterTells(Next(s, run[0]), run[1..], v);
    }
  }

  /**
   checkReturnStatus clears the callbacks if and only if no other thread installed or cleared callbacks of
   that service while the lock was free; it then clears the installation on which the call failed, and
   otherwise leaves both services as they are.
   */
  lemma ResetIffUndisturbed(s: World, t: nat, run: seq<Step>)
    requires Inv(s) && Legal(s, [Note(t), Release(t)] + run + [WriteLock(t), MaybeReset(t)]) && NotBy(t, run)
    ensures s.threads[t].Failed? && Legal(Next(Next(s, Note(t)), Release(t)), run)
    ensures var v, used := s.threads[t].service, s.threads[t].used;
            var free := Next(Next(s, Note(t)), Release(t));
            var before, after := Run(free, run), Run(s, [Note(t), Release(t)] + run + [WriteLock(t), MaybeReset(t)]);
            if Disturbed(free, run, v) then
              && after.callbacks == before.callbacks && after.counter == before.counter
              && after.clearings == before.clearings
            else
              && v in before.callbacks && Current(before.callbacks[v]) == used
              && after.callbacks == before.callbacks[v := CLEARED]
              && |after.clearings| == |before.clearings| + 1
  {
    hide Inv, Enabled, Next;
    var tail := [WriteLock(t), MaybeReset(t)];
    assert [Note(t), Release(t)] + run + tail == [Note(t)] + ([Release(t)] + (run + tail));
    RunOne(s, Note(t), [Release(t)] + (run + tail));
    RunOne(Next(s, Note(t)), Release(t), run + tail);
    var free := Next(Next(s, Note(t)), Release(t));
    RunConcat(free, run, tail);
    var before := Run(free, run);
    assert tail == [WriteLock(t)] + [MaybeReset(t)];
    RunOne(before, WriteLock(t), [MaybeReset(t)]);
    assert [MaybeReset(t)] == [MaybeReset(t)] + [];
    RunOne(Next(before, WriteLock(t)), MaybeReset(t), []);
    NotedFailure(s, t);
    OthersLeaveMe(free, run, t);
    CounterTells(free, run, s.threads[t].service);
    ResetOnCounter(before, t);
  }

  lemma NotedFailure(s: World, t: nat)
    requires Inv(s) && Enabled(s, Note(t)) && Enabled(Next(s, Note(t)), Release(t))
    ensures t in s.threads
    ensures var free := Next(Next(s, Note(t)), Release(t)); var pc := s.threads[t];
            && pc.Failed? && pc.service in free.counter && pc.service in free.callbacks && t in free.threads
            && free.threads[t] == Released(pc.service, pc.used, free.counter[pc.service])
            && Current(free.callbacks[pc.service]) == pc.used
  {
    hide LockOk, ClearedOnce, CurrentOk;
    assert Knows(s.threads[t], s.counter, s.callbacks);
  }

  lemma ResetOnCounter(s: World, t: nat)
    requires Enabled(s, WriteLock(t)) && Enabled(Next(s, WriteLock(t)), MaybeReset(t))
    ensures var r, pc := Next(Next(s, WriteLock(t)), MaybeReset(t)), s.threads[t];
            && pc.Released? && pc.service in s.counter && pc.service in s.callbacks
            && if pc.counter == s.counter[pc.service] then
                 r.callbacks == s.callbacks[pc.service := CLEARED] && |r.clearings| == |s.clearings| + 1
               else r.callbacks == s.callbacks && r.counter == s.counter && r.clearings == s.clearings
  {
  }

  /** A legal trip, step by step. */
  lemma TripParts(s: World, t: nat, run1: seq<Step>, run2: seq<Step>)
    requires Legal(s, Trip(t, run1, run2))
    ensures Enabled(s, Note(t)) && Enabled(Next(s, Note(t)), Release(t))
    ensures var free := Next(Next(s, Note(t)), Release(t));
            && Legal(free, run1) && Enabled(Run(free, run1), WriteLock(t))
            && var owned := Next(Run(free, run1), WriteLock(t));
            && Enabled(owned, MaybeReset(t)) && Enabled(Next(owned, MaybeReset(t)), WriteUnlock(t))
            && var open := Next(Next(owned, MaybeReset(t)), WriteUnlock(t));
            && Legal(open, run2) && Enabled(Run(open, run2), ReadAgain(t))
            && Run(s, Trip(t, run1, run2)) == Next(Run(open, run2), ReadAgain(t))
  {
    hide Next, Enabled;
    var last := [ReadAgain(t)] + [];
    var tail2 := run2 + last;
    var tail1 := [WriteLock(t)] + ([MaybeReset(t)] + ([WriteUnlock(t)] + tail2));
    assert Trip(t, run1, run2) == [Note(t)] + ([Release(t)] + (run1 + tail1));
    RunOne(s, Note(t), [Release(t)] + (run1 + tail1));
    RunOne(Next(s, Note(t)), Release(t), run1 + tail1);
    var free := Next(Next(s, Note(t)), Release(t));
    RunConcat(free, run1, tail1);
    var b := Run(free, run1);
    RunOne(b, WriteLock(t), [MaybeReset(t)] + ([WriteUnlock(t)] + tail2));
    RunOne(Next(b, WriteLock(t)), MaybeReset(t), [WriteUnlock(t)] + tail2);
    RunOne(Next(Next(b, WriteLock(t)), MaybeReset(t)), WriteUnlock(t), tail2);
    var open := Next(Next(Next(b, WriteLock(t)), MaybeReset(t)), WriteUnlock(t));
    RunConcat(open, run2, last);
    RunOne(Run(open, run2), ReadAgain(t), []);
  }

  /** When the write lock comes, the thread still has the counter it read while the call was failing. */
  lemma TripLocals(s: World, t: nat, run1: seq<Step>)
    requires Enabled(s, Note(t)) && Enabled(Next(s, Note(t)), Release(t))
    requires var free := Next(Next(s, Note(t)), Release(t));
             Legal(free, run1) && Enabled(Run(free, run1), WriteLock(t))
    requires NotBy(t, run1)
    ensures var owned := Next(Run(Next(Next(s, Note(t)), Release(t)), run1), WriteLock(t));
            && t in s.threads && t in owned.threads && s.threads[t].Failed? && s.threads[t].service in s.counter
            && owned.threads[t] ==
                 Writing(s.threads[t].service, s.threads[t].used, s.counter[s.threads[t].service])
  {
    OthersLeaveMe(Next(Next(s, Note(t)), Release(t)), run1, t);
  }

  lemma OneShare(s: World, t: nat)
    requires Inv(s) && Enabled(s, ReadAgain(t)) && Inv(Next(s, ReadAgain(t)))
    ensures var r := Next(s, ReadAgain(t)); r.threads[t] == Holding && r.readers[t] == 1 && r.writer.None?
  {
    hide AllKnow, ClearedOnce, CurrentOk;
    assert Shares(Next(s, ReadAgain(t)).threads[t], t, Next(s, ReadAgain(t)).readers, None);
  }

  // ---------- the fields ----------

  function Both<T>(radio: T, oemHook: T): (r: map<Service, T>)
    ensures forall v: Service :: v in r
    ensures r[Radio] == radio && r[OemHook] == oemHook
  {
    map v: Service :: if v.Radio? then radio else oemHook
  }

  function Other(v: Service): Service {
    if v.Radio? then OemHook else Radio
  }

  /** Clearing, told service by service. */
  lemma Clears(s: World, r: World, t: nat)
    requires Enabled(s, MaybeReset(t)) && r.threads == s.threads[t := Reset]
    requires s.threads[t].counter == s.counter[s.threads[t].service]
    requires r.readers == s.readers && r.writer == s.writer && r.installs == s.installs
    requires r.clearings == ResetIfCurrent(s, t).clearings
    requires forall v: Service :: v in r.counter && v in r.callbacks
    requires var v, o := s.threads[t].service, Other(s.threads[t].service);
             && r.counter[v] == s.counter[v] + 1 && r.callbacks[v] == CLEARED
             && r.counter[o] == s.counter[o] && r.callbacks[o] == s.callbacks[o]
    ensures r == Next(s, MaybeReset(t))
  {
    var u := ResetIfCurrent(s, t);
    assert forall v: Service ::
        v in u.counter && v in u.callbacks && (v == s.threads[t].service || v == Other(s.threads[t].service));
    assert r.counter == u.counter;
    assert r.callbacks == u.callbacks;
  }

  lemma Leaves(s: World, t: nat)
    requires Enabled(s, MaybeReset(t)) && s.threads[t].counter != s.counter[s.threads[t].service]
    ensures Next(s, MaybeReset(t)) == s.(threads := s.threads[t := Reset])
  {
  }

  /** Installing, told service by service. */
  lemma Installs(s: World, r: World, t: nat, response: bool, indication: bool, v11: bool)
    requires Enabled(s, Install(t, response, indication, v11)) && r.threads == s.threads[t := Installed]
    requires r.readers == s.readers && r.writer == s.writer && r.clearings == s.clearings
    requires r.installs == s.installs + 1
    requires forall v: Service :: v in r.counter && v in r.callbacks
    requires var v, o := s.threads[t].service, Other(s.threads[t].service);
             && r.counter[v] == s.counter[v] + 1 && r.counter[o] == s.counter[o]
             && r.callbacks[v] == Passed(s.installs, v, response, indication, v11)
             && r.callbacks[o] == s.callbacks[o]
    ensures r == Next(s, Install(t, response, indication, v11))
  {
    hide Passed;
    var u := InstallNew(s, t, response, indication, v11);
    assert forall v: Service ::
        v in u.counter && v in u.callbacks && (v == s.threads[t].service || v == Other(s.threads[t].service));
    assert r.counter == u.counter;
    assert r.callbacks == u.callbacks;
  }

  /** What a whole setResponseFunctions does. */
  lemma InstallTrip(s: World, t: nat, v: Service, response: bool, indication: bool, v11: bool)
    requires Inv(s) && Enabled(s, StartInstall(t, v))
    ensures var s1 := Next(s, StartInstall(t, v));
            && Enabled(s1, Install(t, response, indication, v11))
            && t in s1.threads && s1.threads[t] == Installing(v)
            && var s2 := Next(s1, Install(t, response, indication, v11));
            && Enabled(s2, EndInstall(t))
            && var r := Next(s2, EndInstall(t));
            && r.threads == s.threads && r.readers == s.readers && r.writer == s.writer && r.clearings == s.clearings
            && v in s.counter && r.counter == s.counter[v := s.counter[v] + 1]
            && r.callbacks == s.callbacks[v := Passed(s.installs, v, response, indication, v11)]
  {
    hide Inv, Passed;
  }

  /** A thread that may install may read, once its installation is over. */
  lemma FreeToRead(s: World, r: World, t: nat)
    requires Enabled(s, StartInstall(t, Radio)) || Enabled(s, StartInstall(t, OemHook))
    requires r.threads == s.threads && r.writer == s.writer
    requires forall v: Service :: v in r.counter && v in r.callbacks
    ensures Enabled(r, ReadLock(t))
  {
  }

  /** Taking a read share and giving it back. */
  lemma BriefRead(s: World, t: nat)
    requires Inv(s) && Enabled(s, ReadLock(t))
    ensures Enabled(Next(s, ReadLock(t)), Step.Unlock(t)) && Next(Next(s, ReadLock(t)), Step.Unlock(t)) == s
    ensures Next(s, ReadLock(t)).callbacks == s.callbacks
  {
    hide AllKnow, ClearedOnce, CurrentOk, LockOk;
    var r := Next(Next(s, ReadLock(t)), Step.Unlock(t));
    assert r.threads == s.threads;
    assert r.readers == s.readers;
  }

  /** An indication sent to the client that installed the callbacks with that number. */
  datatype Indication = Indication(code: int, client: nat)

  const RIL_UNSOL_RESPONSE_RADIO_STATE_CHANGED := 1000
  const RIL_UNSOL_RIL_CONNECTED := 1034

  /** The globals of one slot, its lock, and where each thread is with its locals. */
  class Slot {
    var mRadioResponse: Option<nat>
    var mRadioIndication: Option<nat>
    var mRadioResponseV11: Option<nat>
    var mRadioIndicationV11: Option<nat>
    var mOemHookResponse: Option<nat>
    var mOemHookIndication: Option<nat>
    var mCounterRadio: nat
    var mCounterOemHook: nat
    var readers: multiset<nat>
    var writer: Option<nat>
    var threads: map<nat, Pc>
    var installs: nat
    var indications: seq<Indication>
    ghost var clearings: seq<Clearing>

    ghost function Abs(): World
      reads this
    {
      World(threads, readers, writer, Both<nat>(mCounterRadio, mCounterOemHook),
            Both(Callbacks(mRadioResponse, mRadioIndication, mRadioResponseV11, mRadioIndicationV11),
                 Callbacks(mOemHookResponse, mOemHookIndication, None, None)),
            installs, clearings)
    }

    constructor (ids: set<nat>)
      ensures Init(Abs()) && Inv(Abs()) && threads.Keys == ids && indications == []
    {
      mRadioResponse, mRadioIndication, mRadioResponseV11, mRadioIndicationV11 := None, None, None, None;
      mOemHookResponse, mOemHookIndication := None, None;
      mCounterRadio, mCounterOemHook, indications := 0, 0, [];
      readers, writer, threads, installs, clearings := multiset{}, None, map t | t in ids :: Idle, 0, [];
      new;
      assert forall v: Service :: Abs().callbacks[v] == CLEARED;
      InitInv(Abs());
    }

    /** pthread_rwlock_unlock */
    method Unlock(t: nat)
      modifies this`readers, this`writer
      ensures Abs() == UnlockBy(old(Abs()), t)
    {
      if writer == Some(t) {
        writer := None;
      } else {
        readers := readers - multiset{t};
      }
    }

    method Counter(isRadioService: bool) returns (counter: nat)
      ensures counter == Abs().counter[if isRadioService then Radio else OemHook]
    {
      counter := if isRadioService then mCounterRadio else mCounterOemHook;
    }

    /** The region of checkReturnStatus under the write lock. */
    method ResetUnlessChanged(t: nat, isRadioService: bool, counter: nat)
      requires Enabled(Abs(), MaybeReset(t))
      requires threads[t].service == (if isRadioService then Radio else OemHook) && threads[t].counter == counter
      modifies this
      ensures Abs() == Next(old(Abs()), MaybeReset(t)) && indications == old(indications)
    {
      hide Both, Enabled, Next;
      ghost var s := Abs();
      var now := Counter(isRadioService);
      if counter == now {
        clearings := ResetIfCurrent(s, t).clearings;
        ClearPointers(isRadioService);
        threads := threads[t := Reset];
        Clears(s, Abs(), t);
      } else {
        threads := threads[t := Reset];
        Leaves(s, t);
      }
    }

    method ClearPointers(isRadioService: bool)
      modifies this`mRadioResponse, this`mRadioIndication, this`mRadioResponseV11, this`mRadioIndicationV11
      modifies this`mOemHookResponse, this`mOemHookIndication, this`mCounterRadio, this`mCounterOemHook
      ensures var v := if isRadioService then Radio else OemHook;
              && Abs().counter[v] == old(Abs().counter[v]) + 1 && Abs().callbacks[v] == CLEARED
              && Abs().counter[Other(v)] == old(Abs().counter[Other(v)])
              && Abs().callbacks[Other(v)] == old(Abs().callbacks[Other(v)])
    {
      hide Both;
      if isRadioService {
        mRadioResponse, mRadioIndication := None, None;
        mRadioResponseV11, mRadioIndicationV11 := None, None;
        mCounterRadio := mCounterRadio + 1;
      } else {
        mOemHookResponse, mOemHookIndication := None, None;
        mCounterOemHook := mCounterOemHook + 1;
      }
    }

    /** The region of RadioImpl::setResponseFunctions under the write lock; the casts may each fail. */
    method InstallRadio(t: nat, response: bool, indication: bool, castResponse: bool, castIndication: bool)
      requires Enabled(Abs(), Install(t, response, indication, castResponse && castIndication))
      requires threads[t].service == Radio
      modifies this
      ensures Abs() == Next(old(Abs()), Install(t, response, indication, castResponse && castIndication))
      ensures indications == old(indications)
    {
      hide Both, Enabled, Next, Passed;
      ghost var s := Abs();
      TakePointers(response, indication, castResponse, castIndication);
      mCounterRadio := mCounterRadio + 1;
      installs := installs + 1;
      threads := threads[t := Installed];
      Installs(s, Abs(), t, response, indication, castResponse && castIndication);
    }

    method TakePointers(response: bool, indication: bool, castResponse: bool, castIndication: bool)
      modifies this`mRadioResponse, this`mRadioIndication, this`mRadioResponseV11, this`mRadioIndicationV11
      ensures Callbacks(mRadioResponse, mRadioIndication, mRadioResponseV11, mRadioIndicationV11)
           == Passed(installs, Radio, response, indication, castResponse && castIndication)
    {
      mRadioResponse := if response then Some(installs) else None;
      mRadioIndication := if indication then Some(installs) else None;
      mRadioResponseV11 := if castResponse then mRadioResponse else None;
      mRadioIndicationV11 := if castIndication then mRadioIndication else None;
      if mRadioResponseV11.None? || mRadioIndicationV11.None? {
        mRadioResponseV11, mRadioIndicationV11 := None, None;
      }
    }

    /** The region of OemHookImpl::setResponseFunctions under the write lock. */
    method InstallOemHook(t: nat, response: bool, indication: bool, ghost v11: bool)
      requires Enabled(Abs(), Install(t, response, indication, v11)) && threads[t].service == OemHook
      modifies this
      ensures Abs() == Next(old(Abs()), Install(t, response, indication, v11)) && indications == old(indications)
    {
      hide Both, Enabled, Next;
      ghost var s := Abs();
      mOemHookResponse := if response then Some(installs) else None;
      mOemHookIndication := if indication then Some(installs) else None;
      mCounterOemHook := mCounterOemHook + 1;
      installs := installs + 1;
      threads := threads[t := Installed];
      Installs(s, Abs(), t, response, indication, v11);
    }

    /** One step of any thread. */
    method Perform(step: Step)
      requires Inv(Abs()) && Enabled(Abs(), step)
      modifies this
      ensures Inv(Abs()) && Abs() == Next(old(Abs()), step) && indications == old(indications)
    {
      hide Inv;
      StepKeeps(Abs(), step);
      var t := step.t;
      var pc := threads[t];
      match step
      case ReadLock(_) => readers, threads := readers + multiset{t}, threads[t := Holding];
      case WriteLockNitz(_) => writer, threads := Some(t), threads[t := Holding];
      case CallFails(_, service) =>
        var used := if service.Radio? then (if mRadioResponse.Some? then mRadioResponse else mRadioIndication)
                    else if mOemHookResponse.Some? then mOemHookResponse else mOemHookIndication;
        threads := threads[t := Failed(service, used)];
      case Note(_) =>
        var counter := Counter(pc.service.Radio?);
        threads := threads[t := Noted(pc.service, pc.used, counter)];
      case Release(_) =>
        Unlock(t);
        threads := threads[t := Released(pc.service, pc.used, pc.counter)];
      case WriteLock(_) => writer, threads := Some(t), threads[t := Writing(pc.service, pc.used, pc.counter)];
      case MaybeReset(_) => ResetUnlessChanged(t, pc.service.Radio?, pc.counter);
      case WriteUnlock(_) =>
        Unlock(t);
        threads := threads[t := Unlocked];
      case ReadAgain(_) => readers, threads := readers + multiset{t}, threads[t := Holding];
      case Unlock(_) =>
        Unlock(t);
        threads := threads[t := Idle];
      case StartInstall(_, service) => writer, threads := Some(t), threads[t := Installing(service)];
      case Install(_, response, indication, v11) =>
        if pc.service.Radio? {
          InstallRadio(t, response, indication, v11, v11);
        } else {
          InstallOemHook(t, response, indication, v11);
        }
      case EndInstall(_) =>
        Unlock(t);
        threads := threads[t := Idle];
    }

    /** What other threads do while this one waits. */
    method Others(run: seq<Step>)
      requires Inv(Abs()) && Legal(Abs(), run)
      modifies this
      ensures Inv(Abs()) && Abs() == Run(old(Abs()), run)
    {
      hide Inv, Next, Enabled;
      var i := 0;
      while i < |run|
        invariant 0 <= i <= |run| && Inv(Abs())
        invariant Legal(Abs(), run[i..]) && Run(Abs(), run[i..]) == Run(old(Abs()), run)
      {
        assert run[i..][1..] == run[i + 1..];
        Perform(run[i]);
        i := i + 1;
      }
    }

    /**
     checkReturnStatus, whatever other threads do while the lock is free. A call that went well changes
     nothing; after a failed one the caller has one read share and no write lock.
     */
    method CheckReturnStatus(t: nat, isOk: bool, isRadioService: bool, run1: seq<Step>, run2: seq<Step>)
      requires Inv(Abs()) && t in threads
      requires !isOk ==> threads[t].Failed? && threads[t].service == (if isRadioService then Radio else OemHook)
      requires !isOk ==> Legal(Abs(), Trip(t, run1, run2)) && NotBy(t, run1) && NotBy(t, run2)
      modifies this
      ensures Inv(Abs())
      ensures isOk ==> Abs() == old(Abs())
      ensures !isOk ==> Abs() == Run(old(Abs()), Trip(t, run1, run2))
      ensures !isOk ==> t in threads && threads[t] == Holding && readers[t] == 1 && writer.None?
    {
      if !isOk {
        hide Inv, Run, Legal, Next, Enabled, Both;
        TripParts(Abs(), t, run1, run2);
        TripLocals(Abs(), t, run1);
        var counter := Counter(isRadioService);
        Perform(Note(t));
        Perform(Release(t));
        Others(run1);
        Perform(WriteLock(t));
        StepKeeps(Abs(), MaybeReset(t));
        ResetUnlessChanged(t, isRadioService, counter);
        Perform(WriteUnlock(t));
        Others(run2);
        ghost var s := Abs();
        Perform(ReadAgain(t));
        OneShare(s, t);
      }
    }

    /** RIL_onUnsolicitedResponse for a call that goes well: sent if the client has an indication interface. */
    method SendIndication(t: nat, code: int)
      requires Inv(Abs()) && Enabled(Abs(), ReadLock(t))
      modifies this
      ensures Inv(Abs()) && Abs() == old(Abs())
      ensures indications == old(indications) + Sent(code, mRadioIndication)
    {
      hide Inv, Next, Enabled, Both;
      BriefRead(Abs(), t);
      assert Abs().callbacks[Radio].indication == mRadioIndication;
      Perform(ReadLock(t));
      assert Abs().callbacks[Radio].indication == mRadioIndication;
      if mRadioIndication.Some? {
        indications := indications + [Indication(code, mRadioIndication.value)];
      }
      Perform(Step.Unlock(t));
      assert Abs().callbacks[Radio].indication == mRadioIndication;
    }

    static function Sent(code: int, client: Option<nat>): seq<Indication> {
      if client.Some? then [Indication(code, client.value)] else []
    }

    /** onNewCommandConnect, without a cached NITZ time. It takes the read lock itself, twice. */
    method OnNewCommandConnect(t: nat)
      requires Inv(Abs()) && Enabled(Abs(), ReadLock(t))
      modifies this
      ensures Inv(Abs()) && Abs() == old(Abs())
      ensures indications == old(indications) + Sent(RIL_UNSOL_RIL_CONNECTED, mRadioIndication)
                             + Sent(RIL_UNSOL_RESPONSE_RADIO_STATE_CHANGED, mRadioIndication)
    {
      hide Inv, Enabled, Both, Sent;
      SendIndication(t, RIL_UNSOL_RIL_CONNECTED);
      SendIndication(t, RIL_UNSOL_RESPONSE_RADIO_STATE_CHANGED);
    }

    /**
     RadioImpl::setResponseFunctions; response and indication tell which interfaces are not null. The newer
     interfaces come together or not at all. Once the lock is free again, the client gets its initial
     indications.
     */
    method SetRadioFunctions(t: nat, response: bool, indication: bool, castResponse: bool, castIndication: bool)
      requires Inv(Abs()) && Enabled(Abs(), StartInstall(t, Radio))
      modifies this
      ensures Inv(Abs()) && threads == old(threads) && readers == old(readers) && writer == old(writer)
      ensures var n, newer := Some(old(installs)), response && indication && castResponse && castIndication;
              var n11 := if newer then n else None;
              && Abs().callbacks == old(Abs().callbacks)[Radio :=
                   Callbacks(if response then n else None, if indication then n else None, n11, n11)]
              && Abs().counter == old(Abs().counter)[Radio := old(mCounterRadio) + 1]
      ensures clearings == old(clearings)
      ensures indications == old(indications) +
                if indication then [Indication(RIL_UNSOL_RIL_CONNECTED, old(installs)),
                                    Indication(RIL_UNSOL_RESPONSE_RADIO_STATE_CHANGED, old(installs))]
                else []
    {
      hide Inv, Next, Enabled;
      ghost var v11, s := castResponse && castIndication, Abs();
      InstallTrip(s, t, Radio, response, indication, v11);
      Perform(StartInstall(t, Radio));
      StepKeeps(Abs(), Install(t, response, indication, v11));
      InstallRadio(t, response, indication, castResponse, castIndication);
      Perform(EndInstall(t));
      FreeToRead(s, Abs(), t);
      assert mRadioIndication == Abs().callbacks[Radio].indication;
      hide Both;
      OnNewCommandConnect(t);
    }

    /** OemHookImpl::setResponseFunctions */
    method SetOemHookFunctions(t: nat, response: bool, indication: bool)
      requires Inv(Abs()) && Enabled(Abs(), StartInstall(t, OemHook))
      modifies this
      ensures Inv(Abs()) && threads == old(threads) && readers == old(readers) && writer == old(writer)
      ensures var n := Some(old(installs));
              && Abs().callbacks == old(Abs().callbacks)[OemHook :=
                   Callbacks(if response then n else None, if indication then n else None, None, None)]
              && Abs().counter == old(Abs().counter)[OemHook := old(mCounterOemHook) + 1]
      ensures clearings == old(clearings)
    {
      hide Inv, Next, Enabled, Both;
      InstallTrip(Abs(), t, OemHook, response, indication, false);
      Perform(StartInstall(t, OemHook));
      StepKeeps(Abs(), Install(t, response, indication, false));
      InstallOemHook(t, response, indication, false);
      Perform(EndInstall(t));
    }
  }
}
