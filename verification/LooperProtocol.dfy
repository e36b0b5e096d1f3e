/**
 The looper thread and any number of sending and removing threads, as atomic steps. A step is a region
 under mLock, a system call, or the passing of time. In particular a sender leaves the lock in one step
 and writes the wake byte in a later one, and while a handler runs the lock is free.
 */
module LooperProtocol {
  import opened Wrappers
  import opened LooperSpec

  /** Where the looper thread is. delay is what toMillisecondTimeoutDelay returned at time readAt. */
  datatype Pc =
    | Outside
    | Prepared(caller: int, delay: int, readAt: int)
    | Blocked(caller: int, delay: int, readAt: int, since: int)
    | Woken
    | Handling
    | Calling

  datatype Delivery = Delivery(e: Envelope, at: int)

  /** owed counts the senders that have released the lock but not yet written their wake byte. */
  datatype World = World(queue: seq<Envelope>, sends: nat, sending: bool, nextUptime: int, bytes: nat,
                         owed: nat, clock: int, pc: Pc, sent: multiset<Envelope>,
                         delivered: seq<Delivery>, removed: multiset<Envelope>)

  datatype Step =
    | Tick(now: int)
    | Send(uptime: int, handler: nat, what: int)
    | WriteWake(full: bool)
    | RemoveMessages(handler: nat, only: Option<int>)
    | Prepare(caller: int, delay: int)
    | Block
    | TimeOut
    | Ready
    | Lock(left: nat)
    | HandlerDone
    | Leave

  ghost predicate Enabled(s: World, step: Step) {
    match step
    case Tick(now) => s.clock <= now
    case Send(uptime, _, _) => uptime <= LLONG_MAX
    case WriteWake(full) => s.owed > 0 && (full ==> s.bytes > 0)
    case RemoveMessages(_, _) => true
    case Prepare(_, delay) => s.pc.Outside? && (s.nextUptime != LLONG_MAX ==> CoversDelay(delay, s.clock, s.nextUptime))
    case Block => s.pc.Prepared?
    case TimeOut =>
      s.pc.Blocked? && 0 <= Timeout(s) && s.pc.since + Timeout(s) * NANOS_PER_MILLI <= s.clock
    case Ready => s.pc.Blocked?
    case Lock(left) => s.pc.Woken? && left <= s.bytes
    case HandlerDone => s.pc.Handling?
    case Leave => s.pc.Calling?
  }

  ghost function Timeout(s: World): int
    requires s.pc.Prepared? || s.pc.Blocked?
  {
    EffectiveTimeout(s.pc.caller, s.nextUptime, s.pc.delay)
  }

  /** The head of the message loop in pollInner: deliver what is due, or note when the head is. */
  ghost function Dispatch(s: World): World {
    if s.queue == [] then s.(nextUptime := LLONG_MAX, sending := false, pc := Calling)
    else if s.queue[0].uptime <= s.clock then
      s.(nextUptime := LLONG_MAX, sending := true, pc := Handling,
         queue := s.queue[1..], delivered := s.delivered + [Delivery(s.queue[0], s.clock)])
    else s.(nextUptime := s.queue[0].uptime, sending := false, pc := Calling)
  }

  ghost function Next(s: World, step: Step): World
    requires Enabled(s, step)
  {
    match step
    case Tick(now) => s.(clock := now)
    case Send(uptime, handler, what) =>
      var e := Envelope(uptime, handler, what, s.sends);
      s.(queue := Insert(s.queue, e), sends := s.sends + 1, sent := s.sent + multiset{e},
         owed := if !s.sending && SendPos(s.queue, uptime) == 0 then s.owed + 1 else s.owed)
    case WriteWake(full) => s.(owed := s.owed - 1, bytes := if full then s.bytes else s.bytes + 1)
    case RemoveMessages(handler, only) =>
      s.(queue := Remove(s.queue, handler, only),
         removed := s.removed + multiset(Removed(s.queue, handler, only)))
    case Prepare(caller, delay) => s.(pc := Prepared(caller, delay, s.clock))
    case Block => s.(pc := Blocked(s.pc.caller, s.pc.delay, s.pc.readAt, s.clock))
    case TimeOut => s.(pc := Woken)
    case Ready => s.(pc := Woken)
    case Lock(left) => Dispatch(s.(bytes := left))
    case HandlerDone => Dispatch(s)
    case Leave => s.(pc := Outside)
  }

  ghost predicate Init(s: World) {
    && s.queue == [] && !s.sending && s.nextUptime == LLONG_MAX && s.bytes == 0 && s.owed == 0
    && s.pc.Outside? && s.sent == multiset{} && s.delivered == [] && s.removed == multiset{}
  }

  // ---------- waking ----------

  /** The looper will notice the head of the queue in time. */
  ghost predicate Alert(s: World) {
    s.queue == [] || s.nextUptime <= s.queue[0].uptime || s.bytes > 0 || s.owed > 0
  }

  ghost predicate WakeInv(s: World) {
    && (s.sending <==> s.pc.Handling?)
    && (!s.sending ==> Alert(s))
    && ((s.pc.Prepared? || s.pc.Blocked?) && s.nextUptime != LLONG_MAX ==>
          CoversDelay(s.pc.delay, s.pc.readAt, s.nextUptime))
  }

  lemma WakeStep(s: World, step: Step)
    requires Ordered(s.queue) && WakeInv(s) && Enabled(s, step)
    ensures WakeInv(Next(s, step))
  {
    hide Ordered, CoversDelay;
    match step
    case RemoveMessages(handler, only) => HeadAfterRemove(s.queue, handler, only);
    case _ =>
  }

  // ---------- messages ----------

  ghost function Envelopes(ds: seq<Delivery>): (r: seq<Envelope>)
    ensures |r| == |ds| && forall i | 0 <= i < |r| :: r[i] == ds[i].e
  {
    seq(|ds|, i requires 0 <= i < |ds| => ds[i].e)
  }

  /** b was sent after a and is due no earlier. */
  predicate Behind(a: Envelope, b: Envelope) {
    a.arrival < b.arrival && a.uptime <= b.uptime
  }

  ghost predicate Fair(ds: seq<Delivery>, q: seq<Envelope>, sends: nat) {
    && (forall i, j | 0 <= i < j < |ds| :: !Behind(ds[j].e, ds[i].e))
    && (forall i, j | 0 <= i < |ds| && 0 <= j < |q| :: !Behind(q[j], ds[i].e))
    && (forall i | 0 <= i < |ds| :: ds[i].e.uptime <= ds[i].at && ds[i].e.arrival < sends)
  }

  ghost predicate Conserved(s: World) {
    s.sent == multiset(s.queue) + multiset(Envelopes(s.delivered)) + s.removed
  }

  ghost predicate QueueInv(s: World) {
    Ordered(s.queue) && ArrivedBefore(s.queue, s.sends) && Fair(s.delivered, s.queue, s.sends) && Conserved(s)
  }

  lemma FairInsert(ds: seq<Delivery>, q: seq<Envelope>, e: Envelope)
    requires Fair(ds, q, e.arrival)
    ensures Fair(ds, Insert(q, e), e.arrival + 1)
  {
    var r, k := Insert(q, e), SendPos(q, e.uptime);
    assert forall j | 0 <= j < |r| && j != k :: r[j] == q[if j < k then j else j - 1];
  }

  lemma FairRemove(ds: seq<Delivery>, q: seq<Envelope>, sends: nat, handler: nat, only: Option<int>)
    requires Fair(ds, q, sends)
    ensures Fair(ds, Remove(q, handler, only), sends)
  {
    var r := Remove(q, handler, only);
    forall i, j | 0 <= i < |ds| && 0 <= j < |r|
      ensures !Behind(r[j], ds[i].e)
    {
      assert r[j] in q;
    }
  }

  lemma FairDeliver(ds: seq<Delivery>, q: seq<Envelope>, sends: nat, at: int)
    requires Fair(ds, q, sends) && Ordered(q) && ArrivedBefore(q, sends) && q != [] && q[0].uptime <= at
    ensures Fair(ds + [Delivery(q[0], at)], q[1..], sends)
    ensures Ordered(q[1..]) && ArrivedBefore(q[1..], sends)
  {
  }

  lemma SendStep(s: World, uptime: int, handler: nat, what: int)
    requires QueueInv(s) && uptime <= LLONG_MAX
    ensures QueueInv(Next(s, Send(uptime, handler, what)))
  {
    hide Ordered, ArrivedBefore, Fair, Envelopes;
    var e := Envelope(uptime, handler, what, s.sends);
    InsertOrdered(s.queue, e);
    FairInsert(s.delivered, s.queue, e);
  }

  lemma RemoveStep(s: World, handler: nat, only: Option<int>)
    requires QueueInv(s)
    ensures QueueInv(Next(s, RemoveMessages(handler, only)))
  {
    hide Ordered, ArrivedBefore, Fair, Envelopes, Remove, Removed;
    RemoveOrdered(s.queue, handler, only);
    RemoveSplits(s.queue, handler, only);
    FairRemove(s.delivered, s.queue, s.sends, handler, only);
  }

  lemma DeliverConserves(q: seq<Envelope>, ds: seq<Delivery>, at: int)
    requires q != []
    ensures multiset(q) + multiset(Envelopes(ds))
            == multiset(q[1..]) + multiset(Envelopes(ds + [Delivery(q[0], at)]))
  {
    assert Envelopes(ds + [Delivery(q[0], at)]) == Envelopes(ds) + [q[0]];
    assert q == [q[0]] + q[1..];
  }

  lemma DispatchStep(s: World)
    requires QueueInv(s)
    ensures QueueInv(Dispatch(s))
  {
    hide Ordered, ArrivedBefore, Fair, Envelopes;
    if s.queue != [] && s.queue[0].uptime <= s.clock {
      FairDeliver(s.delivered, s.queue, s.sends, s.clock);
      DeliverConserves(s.queue, s.delivered, s.clock);
    }
  }

  lemma QueueStep(s: World, step: Step)
    requires QueueInv(s) && Enabled(s, step)
    ensures QueueInv(Next(s, step))
  {
    hide Ordered, ArrivedBefore, Dispatch, Insert, Remove;
    match step
    case Send(uptime, handler, what) => SendStep(s, uptime, handler, what);
    case RemoveMessages(handler, only) => RemoveStep(s, handler, only);
    case Lock(left) => DispatchStep(s.(bytes := left));
    case HandlerDone => DispatchStep(s);
    case _ =>
  }

  // ---------- runs ----------

  ghost predicate Legal(s: World, run: seq<Step>)
    decreases run
  {
    run != [] ==> Enabled(s, run[0]) && Legal(Next(s, run[0]), run[1..])
  }

  ghost function Run(s: World, run: seq<Step>): World
    requires Legal(s, run)
    decreases run
  {
    if run == [] then s else Run(Next(s, run[0]), run[1..])
  }

  lemma {:induction false} RunKeeps(s: World, run: seq<Step>)
    requires WakeInv(s) && QueueInv(s) && Legal(s, run)
    ensures WakeInv(Run(s, run)) && QueueInv(Run(s, run))
    decreases run
  {
    hide WakeInv, Ordered, ArrivedBefore, Fair, Conserved, Next, Enabled;
    if run != [] {
      WakeStep(s, run[0]);
      QueueStep(s, run[0]);
      RunKeeps(Next(s, run[0]), run[1..]);
    }
  }

  lemma InitKeeps(s: World)
    requires Init(s)
    ensures WakeInv(s) && QueueInv(s)
  {
  }

  /**
   No wake-up is lost: in every interleaving, a looper blocked in epoll_wait has nothing queued, or a
   wake byte is waiting or about to be written, or the head is not due before the time for which the
   time-out was computed. In the last case the time-out, counted from the clock reading it was computed
   from, ends less than a millisecond after the head is due.
   */
  lemma {:induction false} NoLostWakeup(s: World, run: seq<Step>)
    requires Init(s) && Legal(s, run) && Run(s, run).pc.Blocked?
    ensures var r := Run(s, run);
            && Alert(r)
            && (r.queue != [] && r.queue[0].uptime < LLONG_MAX && r.pc.caller != 0 && r.bytes == 0 && r.owed == 0 ==>
                  var due := r.queue[0].uptime;
                  && 0 <= Timeout(r)
                  && Timeout(r) * NANOS_PER_MILLI
                     < NANOS_PER_MILLI + if due <= r.pc.readAt then 0 else due - r.pc.readAt)
  {
    InitKeeps(s);
    RunKeeps(s, run);
  }

  /** Every message sent is, exactly once, queued, delivered or removed. */
  lemma {:induction false} MessagesConserved(s: World, run: seq<Step>)
    requires Init(s) && Legal(s, run)
    ensures var r := Run(s, run);
            r.sent == multiset(r.queue) + multiset(Envelopes(r.delivered)) + r.removed
  {
    InitKeeps(s);
    RunKeeps(s, run);
  }

  /**
   No message is delivered before it is due, and none is overtaken: a message sent later and due no
   earlier is never delivered first, nor while the earlier one is still queued.
   */
  lemma {:induction false} DeliveredInOrder(s: World, run: seq<Step>)
    requires Init(s) && Legal(s, run)
    ensures var r := Run(s, run);
            && (forall i | 0 <= i < |r.delivered| :: r.delivered[i].e.uptime <= r.delivered[i].at)
            && (forall i, j | 0 <= i < j < |r.delivered| :: !Behind(r.delivered[j].e, r.delivered[i].e))
            && (forall i, j | 0 <= i < |r.delivered| && 0 <= j < |r.queue| :: !Behind(r.queue[j], r.delivered[i].e))
  {
    InitKeeps(s);
    RunKeeps(s, run);
  }

  /** What pollInner hands to a handler is the earliest message queued at that instant. */
  lemma DeliversEarliest(s: World, run: seq<Step>, step: Step)
    requires Init(s) && Legal(s, run) && Enabled(Run(s, run), step)
    ensures var r := Run(s, run);
            var r' := Next(r, step);
            |r'.delivered| > |r.delivered| ==>
              && r'.delivered == r.delivered + [Delivery(r.queue[0], r.clock)] && r'.queue == r.queue[1..]
              && r.queue[0].uptime <= r.clock
              && forall i | 0 < i < |r.queue| :: r.queue[0].uptime <= r.queue[i].uptime
  {
    InitKeeps(s);
    RunKeeps(s, run);
  }
}
