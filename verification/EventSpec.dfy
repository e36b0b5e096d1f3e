/**
 The event queues of ril_event.cpp as values: what each entry point does to the timer list, the
 pending list and the watch table. E is the identity of a struct ril_event.
 */
module EventSpec {
  import opened Sequences
  import opened TimeVals
  import opened Wrappers

  const MAX_FD_EVENTS := 8

  datatype Timer<E> = Timer(ev: E, deadline: int)
  datatype Item<E> = Expired(ev: E, deadline: int) | Readied(ev: E)
  datatype Slot<E> = Empty | Watch(ev: E, fd: int, persist: bool)
  datatype Attr = Attr(fd: int, persist: bool)

  /** info holds every event there is, with its fd and persist fields. */
  datatype Queues<!E> = Queues(info: map<E, Attr>, timers: seq<Timer<E>>,
                               pending: seq<Item<E>>, slots: seq<Slot<E>>)

  /** Calls a callback, or any other thread, may make while the loop runs. */
  datatype Op<E> =
    | AddTimer(ev: E, interval: Option<TimeVal>, now: TimeVal)
    | AddWatch(ev: E)
    | Delete(ev: E)
    | SetEvent(ev: E, fd: int, persist: bool)

  // ---------- timers ----------

  ghost predicate Sorted<E>(ts: seq<Timer<E>>) {
    forall i, j | 0 <= i < j < |ts| :: ts[i].deadline <= ts[j].deadline
  }

  /** How many leading timers have a deadline before d. */
  ghost function Leading<E>(ts: seq<Timer<E>>, d: int): (k: nat)
    ensures k <= |ts|
    ensures forall i | 0 <= i < k :: ts[i].deadline < d
    ensures k < |ts| ==> d <= ts[k].deadline
  {
    if ts == [] || d <= ts[0].deadline then 0 else 1 + Leading(ts[1..], d)
  }

  /** In a sorted list the leading timers are all the timers before d. */
  lemma LeadingIsAll<E>(ts: seq<Timer<E>>, d: int)
    ensures Sorted(ts) ==> forall i | 0 <= i < |ts| :: i < Leading(ts, d) <==> ts[i].deadline < d
  {
    var k := Leading(ts, d);
    assert Sorted(ts) ==> forall i | k <= i < |ts| :: ts[k].deadline <= ts[i].deadline;
  }

  /** Any k with the two boundary properties is the one. */
  lemma LeadingIs<E>(ts: seq<Timer<E>>, d: int, k: nat)
    requires k <= |ts|
    requires forall i | 0 <= i < k :: ts[i].deadline < d
    requires k < |ts| ==> d <= ts[k].deadline
    ensures k == Leading(ts, d)
  {
  }

  /** Before the first timer that is not earlier; equal deadlines therefore end up newest first. */
  ghost function InsertTimer<E>(ts: seq<Timer<E>>, t: Timer<E>): (r: seq<Timer<E>>)
    ensures Sorted(ts) ==> Sorted(r)
    ensures multiset(r) == multiset(ts) + multiset{t}
  {
    LeadingIsAll(ts, t.deadline);
    Splice(ts, Leading(ts, t.deadline), t)
  }

  // ---------- watches ----------

  ghost predicate IsReady<E>(s: Slot<E>, rfds: set<int>)
    ensures IsReady(s, rfds) <==> s.Watch? && s.fd in rfds
  {
    s.Watch? && s.fd in rfds
  }

  /** What processReadReadies queues: ready watches in slot order, at most n of them. */
  ghost function ReadyItems<E>(slots: seq<Slot<E>>, rfds: set<int>, n: int): seq<Item<E>> {
    if slots == [] || n <= 0 then []
    else if IsReady(slots[0], rfds) then [Readied(slots[0].ev)] + ReadyItems(slots[1..], rfds, n - 1)
    else ReadyItems(slots[1..], rfds, n)
  }

  /** The table processReadReadies leaves behind. */
  ghost function AfterReady<E>(slots: seq<Slot<E>>, rfds: set<int>, n: int): (r: seq<Slot<E>>)
    ensures |r| == |slots|
  {
    if slots == [] || n <= 0 then slots
    else if IsReady(slots[0], rfds) then
      [if slots[0].persist then slots[0] else Empty] + AfterReady(slots[1..], rfds, n - 1)
    else [slots[0]] + AfterReady(slots[1..], rfds, n)
  }

  /** One turn of the scan, at slot i. */
  lemma ReadyStep<E>(slots: seq<Slot<E>>, rfds: set<int>, left: int, i: nat)
    requires i < |slots| && left > 0
    ensures var ready := IsReady(slots[i], rfds);
            var left' := if ready then left - 1 else left;
            && ReadyItems(slots[i..], rfds, left)
               == (if ready then [Readied(slots[i].ev)] else []) + ReadyItems(slots[i + 1..], rfds, left')
            && AfterReady(slots[i..], rfds, left)
               == [if ready && !slots[i].persist then Empty else slots[i]] + AfterReady(slots[i + 1..], rfds, left')
  {
    assert slots[i..][1..] == slots[i + 1..];
  }

  lemma ReadyDone<E>(slots: seq<Slot<E>>, rfds: set<int>, left: int, i: nat)
    requires i <= |slots| && (left <= 0 || i == |slots|)
    ensures ReadyItems(slots[i..], rfds, left) == [] && AfterReady(slots[i..], rfds, left) == slots[i..]
  {
  }

  ghost predicate DistinctFds<E>(slots: seq<Slot<E>>) {
    forall i, j | 0 <= i < j < |slots| && slots[i].Watch? && slots[j].Watch? :: slots[i].fd != slots[j].fd
  }

  ghost predicate DistinctEvs<E>(slots: seq<Slot<E>>) {
    forall i, j | 0 <= i < j < |slots| && slots[i].Watch? && slots[j].Watch? :: slots[i].ev != slots[j].ev
  }

  /** How many of the first i slots are ready. */
  ghost function Rank<E>(slots: seq<Slot<E>>, rfds: set<int>, i: nat): nat
    requires i <= |slots|
  {
    if i == 0 then 0 else Rank(slots, rfds, i - 1) + (if IsReady(slots[i - 1], rfds) then 1 else 0)
  }

  lemma {:induction false} RankOfTail<E>(slots: seq<Slot<E>>, rfds: set<int>, i: nat)
    requires 1 <= i <= |slots|
    ensures Rank(slots, rfds, i) == Rank(slots[1..], rfds, i - 1) + (if IsReady(slots[0], rfds) then 1 else 0)
  {
    if i == 1 {
      assert Rank(slots, rfds, 0) == 0;
    } else {
      RankOfTail(slots, rfds, i - 1);
    }
  }

  /** What the scan queues when its countdown does not run out. */
  lemma {:induction false} ScanItems<E>(slots: seq<Slot<E>>, rfds: set<int>, n: int)
    requires Rank(slots, rfds, |slots|) <= n
    ensures |ReadyItems(slots, rfds, n)| == Rank(slots, rfds, |slots|)
    ensures forall i | 0 <= i < |slots| && IsReady(slots[i], rfds) ::
              Rank(slots, rfds, i) < |ReadyItems(slots, rfds, n)| &&
              ReadyItems(slots, rfds, n)[Rank(slots, rfds, i)] == Readied(slots[i].ev)
    decreases slots
  {
    hide IsReady;
    if slots != [] {
      var rest := slots[1..];
      var first := if IsReady(slots[0], rfds) then 1 else 0;
      forall i | 1 <= i <= |slots|
        ensures Rank(slots, rfds, i) == Rank(rest, rfds, i - 1) + first
      {
        RankOfTail(slots, rfds, i);
      }
      hide Rank;
      ScanItems(rest, rfds, if IsReady(slots[0], rfds) then n - 1 else n);
      assert n <= 0 ==> ReadyItems(rest, rfds, n) == [];
      assert forall i | 1 <= i < |slots| :: slots[i] == rest[i - 1];
    }
  }

  /** What the scan leaves in the table when its countdown does not run out. */
  lemma {:induction false} ScanTable<E>(slots: seq<Slot<E>>, rfds: set<int>, n: int)
    requires Rank(slots, rfds, |slots|) <= n
    ensures forall i | 0 <= i < |slots| ::
              AfterReady(slots, rfds, n)[i]
              == if IsReady(slots[i], rfds) && !slots[i].persist then Empty else slots[i]
    decreases slots
  {
    hide IsReady;
    if slots != [] {
      var rest := slots[1..];
      RankOfTail(slots, rfds, |slots|);
      ScanTable(rest, rfds, if IsReady(slots[0], rfds) then n - 1 else n);
      assert n <= 0 ==> AfterReady(rest, rfds, n) == rest;
      assert forall i | 1 <= i < |slots| :: slots[i] == rest[i - 1];
    }
  }

  ghost function ReadyFds<E>(slots: seq<Slot<E>>, rfds: set<int>, i: nat): set<int>
    requires i <= |slots|
  {
    set j | 0 <= j < i && IsReady(slots[j], rfds) :: slots[j].fd
  }

  lemma {:induction false} RankCounts<E>(slots: seq<Slot<E>>, rfds: set<int>, i: nat)
    requires i <= |slots| && DistinctFds(slots)
    ensures Rank(slots, rfds, i) == |ReadyFds(slots, rfds, i)|
  {
    if i > 0 {
      RankCounts(slots, rfds, i - 1);
      if IsReady(slots[i - 1], rfds) {
        assert ReadyFds(slots, rfds, i) == ReadyFds(slots, rfds, i - 1) + {slots[i - 1].fd};
      } else {
        assert ReadyFds(slots, rfds, i) == ReadyFds(slots, rfds, i - 1);
      }
    }
  }

  /**
   select reports n = |rfds| ready descriptors. As watched descriptors are distinct, the countdown of n
   never cuts the scan short: every ready watch is queued once, at its place in slot order, and
   exactly the ready one-shot watches leave the table.
   */
  lemma {:induction false} ReadyExact<E>(slots: seq<Slot<E>>, rfds: set<int>, n: int)
    requires DistinctFds(slots) && |rfds| <= n
    ensures |ReadyItems(slots, rfds, n)| == Rank(slots, rfds, |slots|)
    ensures forall i | 0 <= i < |slots| && IsReady(slots[i], rfds) ::
              Rank(slots, rfds, i) < |ReadyItems(slots, rfds, n)| &&
              ReadyItems(slots, rfds, n)[Rank(slots, rfds, i)] == Readied(slots[i].ev)
    ensures forall i | 0 <= i < |slots| ::
              AfterReady(slots, rfds, n)[i]
              == if IsReady(slots[i], rfds) && !slots[i].persist then Empty else slots[i]
  {
    RankCounts(slots, rfds, |slots|);
    SubsetSize(ReadyFds(slots, rfds, |slots|), rfds);
    ScanItems(slots, rfds, n);
    ScanTable(slots, rfds, n);
  }

  lemma SubsetSize(a: set<int>, b: set<int>)
    requires a <= b
    ensures |a| <= |b|
  {
    assert b == a + (b - a);
  }

  // ---------- the queues as a whole ----------

  ghost predicate InTimers<E>(q: Queues<E>, ev: E) {
    exists i :: 0 <= i < |q.timers| && q.timers[i].ev == ev
  }

  ghost predicate InPending<E>(q: Queues<E>, ev: E) {
    exists i :: 0 <= i < |q.pending| && q.pending[i].ev == ev
  }

  ghost predicate Watched<E>(q: Queues<E>, ev: E) {
    exists i :: 0 <= i < |q.slots| && q.slots[i].Watch? && q.slots[i].ev == ev
  }

  ghost predicate DistinctTimers<E>(ts: seq<Timer<E>>) {
    forall i, j | 0 <= i < j < |ts| :: ts[i].ev != ts[j].ev
  }

  ghost predicate DistinctItems<E>(p: seq<Item<E>>) {
    forall i, j | 0 <= i < j < |p| :: p[i].ev != p[j].ev
  }

  ghost predicate TimersOk<E>(info: map<E, Attr>, ts: seq<Timer<E>>) {
    Sorted(ts) && DistinctTimers(ts) && forall i | 0 <= i < |ts| :: ts[i].ev in info && info[ts[i].ev].fd == -1
  }

  ghost predicate PendingOk<E>(info: map<E, Attr>, p: seq<Item<E>>) {
    && DistinctItems(p)
    && forall i | 0 <= i < |p| :: p[i].ev in info && (p[i].Expired? ==> info[p[i].ev].fd == -1)
  }

  ghost predicate Apart<E>(ts: seq<Timer<E>>, p: seq<Item<E>>) {
    forall i, j | 0 <= i < |ts| && 0 <= j < |p| :: ts[i].ev != p[j].ev
  }

  ghost predicate SlotsOk<E>(info: map<E, Attr>, slots: seq<Slot<E>>) {
    && |slots| == MAX_FD_EVENTS && DistinctFds(slots) && DistinctEvs(slots)
    && forall i | 0 <= i < |slots| && slots[i].Watch? ::
         slots[i].ev in info && slots[i].fd >= 0 && info[slots[i].ev] == Attr(slots[i].fd, slots[i].persist)
  }

  /** The invariant of the queues: what every entry point keeps. */
  ghost predicate Consistent<E>(q: Queues<E>) {
    && TimersOk(q.info, q.timers) && PendingOk(q.info, q.pending)
    && Apart(q.timers, q.pending) && SlotsOk(q.info, q.slots)
  }

  /** What the callers of libril have to respect. */
  ghost predicate Allowed<E>(q: Queues<E>, op: Op<E>) {
    match op
    case AddTimer(ev, interval, now) =>
      && ev in q.info && !InTimers(q, ev) && !InPending(q, ev) && !Watched(q, ev)
      && Normal(now) && (interval.Some? ==> Normal(interval.value))
    case AddWatch(ev) =>
      ev in q.info && q.info[ev].fd >= 0 && !Watched(q, ev) && q.info[ev].fd !in WatchedFds(q.slots)
    case Delete(ev) => ev in q.info
    case SetEvent(ev, _, _) => ev in q.info && !InTimers(q, ev) && !InPending(q, ev) && !Watched(q, ev)
  }

  ghost function FirstEmpty<E>(slots: seq<Slot<E>>): (k: nat)
    ensures k <= |slots|
    ensures forall i | 0 <= i < k :: slots[i].Watch?
    ensures k < |slots| ==> slots[k].Empty?
  {
    if slots == [] || slots[0].Empty? then 0 else 1 + FirstEmpty(slots[1..])
  }

  /** A full table drops the watch silently; a missing interval drops the timer silently. */
  ghost function Apply<E>(q: Queues<E>, op: Op<E>): (r: Queues<E>)
    requires Consistent(q) && Allowed(q, op)
    ensures Consistent(r) && r.pending == q.pending && r.info.Keys == q.info.Keys
  {
    hide TimersOk, PendingOk, Apart, SlotsOk, WatchedFds;
    match op
    case AddTimer(ev, interval, now) =>
      if interval.None? then q
      else
        ApplyTimerKeeps(q, ev, Micros(now) + Micros(interval.value));
        AddTimerTo(q, ev, Micros(now) + Micros(interval.value))
    case AddWatch(ev) =>
      var k := FirstEmpty(q.slots);
      if k == |q.slots| then q
      else
        WatchKeeps(q.info, q.slots, ev, k);
        q.(slots := q.slots[k := Watch(ev, q.info[ev].fd, q.info[ev].persist)])
    case Delete(ev) =>
      ForgetKeeps(q.info, q.slots, ev);
      q.(slots := Forget(q.slots, ev))
    case SetEvent(ev, fd, persist) =>
      SetKeeps(q, ev, Attr(fd, persist));
      q.(info := q.info[ev := Attr(fd, persist)])
  }

  lemma ApplySet<E>(q: Queues<E>, ev: E, fd: int, persist: bool)
    requires Consistent(q) && Allowed(q, SetEvent(ev, fd, persist))
    ensures Apply(q, SetEvent(ev, fd, persist)) == q.(info := q.info[ev := Attr(fd, persist)])
  {
  }

  lemma WatchKeeps<E>(info: map<E, Attr>, slots: seq<Slot<E>>, ev: E, k: nat)
    requires SlotsOk(info, slots) && k < |slots| && slots[k].Empty? && ev in info && info[ev].fd >= 0
    requires info[ev].fd !in WatchedFds(slots)
    requires !exists i :: 0 <= i < |slots| && slots[i].Watch? && slots[i].ev == ev
    ensures SlotsOk(info, slots[k := Watch(ev, info[ev].fd, info[ev].persist)])
  {
    var r := slots[k := Watch(ev, info[ev].fd, info[ev].persist)];
    assert forall i | 0 <= i < |slots| && slots[i].Watch? :: slots[i].fd in WatchedFds(slots) && slots[i].ev != ev;
    assert forall i | 0 <= i < |r| && i != k :: r[i] == slots[i];
  }

  lemma ForgetKeeps<E>(info: map<E, Attr>, slots: seq<Slot<E>>, ev: E)
    requires SlotsOk(info, slots)
    ensures SlotsOk(info, Forget(slots, ev))
  {
  }

  ghost function AddTimerTo<E>(q: Queues<E>, ev: E, deadline: int): Queues<E>
    requires ev in q.info
  {
    q.(info := q.info[ev := q.info[ev].(fd := -1)], timers := InsertTimer(q.timers, Timer(ev, deadline)))
  }

  lemma InsertTimersOk<E>(info: map<E, Attr>, ts: seq<Timer<E>>, t: Timer<E>)
    requires TimersOk(info, ts) && t.ev in info && forall i | 0 <= i < |ts| :: ts[i].ev != t.ev
    ensures TimersOk(info[t.ev := info[t.ev].(fd := -1)], InsertTimer(ts, t))
  {
    InsertDistinct(ts, t);
    var r, info' := InsertTimer(ts, t), info[t.ev := info[t.ev].(fd := -1)];
    hide Sorted, DistinctTimers, InsertTimer;
    forall i | 0 <= i < |r|
      ensures r[i].ev in info' && info'[r[i].ev].fd == -1
    {
      assert r[i] in multiset(ts) + multiset{t};
    }
  }

  lemma InsertDistinct<E>(ts: seq<Timer<E>>, t: Timer<E>)
    requires DistinctTimers(ts) && forall i | 0 <= i < |ts| :: ts[i].ev != t.ev
    ensures DistinctTimers(InsertTimer(ts, t))
  {
    hide Sorted;
    var k, r := Leading(ts, t.deadline), InsertTimer(ts, t);
    forall i, j | 0 <= i < j < |r|
      ensures r[i].ev != r[j].ev
    {
      assert i != k ==> r[i] == ts[if i < k then i else i - 1];
      assert j != k ==> r[j] == ts[if j < k then j else j - 1];
      assert r[k] == t;
    }
  }

  lemma InsertApart<E>(ts: seq<Timer<E>>, t: Timer<E>, p: seq<Item<E>>)
    requires Apart(ts, p) && forall j | 0 <= j < |p| :: p[j].ev != t.ev
    ensures Apart(InsertTimer(ts, t), p)
  {
    var k, r := Leading(ts, t.deadline), InsertTimer(ts, t);
    assert forall i | 0 <= i < |r| && i != k :: r[i] == ts[if i < k then i else i - 1];
  }

  lemma OtherAttr<E>(info: map<E, Attr>, ev: E, a: Attr, p: seq<Item<E>>, slots: seq<Slot<E>>)
    requires PendingOk(info, p) && SlotsOk(info, slots)
    requires forall j | 0 <= j < |p| :: p[j].ev != ev
    requires forall j | 0 <= j < |slots| && slots[j].Watch? :: slots[j].ev != ev
    ensures PendingOk(info[ev := a], p) && SlotsOk(info[ev := a], slots)
  {
    hide DistinctFds, DistinctEvs, DistinctItems;
  }

  lemma ApplyTimerKeeps<E>(q: Queues<E>, ev: E, deadline: int)
    requires Consistent(q) && ev in q.info && !InTimers(q, ev) && !InPending(q, ev) && !Watched(q, ev)
    ensures Consistent(AddTimerTo(q, ev, deadline))
  {
    hide TimersOk, PendingOk, Apart, SlotsOk, InsertTimer;
    assert forall i | 0 <= i < |q.timers| :: q.timers[i].ev != ev;
    InsertTimersOk(q.info, q.timers, Timer(ev, deadline));
    InsertApart(q.timers, Timer(ev, deadline), q.pending);
    OtherAttr(q.info, ev, q.info[ev].(fd := -1), q.pending, q.slots);
  }

  /**
   Why an event has to be in no list and no slot when a timer is set on it: the queues stay consistent if
   and only if it is.
   */
  lemma TimerAddedSafelyIff<E>(q: Queues<E>, ev: E, deadline: int)
    requires Consistent(q) && ev in q.info
    ensures Consistent(AddTimerTo(q, ev, deadline)) <==>
            !InTimers(q, ev) && !InPending(q, ev) && !Watched(q, ev)
  {
    if !InTimers(q, ev) && !InPending(q, ev) && !Watched(q, ev) {
      ApplyTimerKeeps(q, ev, deadline);
    } else if Watched(q, ev) {
      assert !SlotsOk(AddTimerTo(q, ev, deadline).info, q.slots);
    } else {
      ListedTwice(q, ev, deadline);
    }
  }

  lemma ListedTwice<E>(q: Queues<E>, ev: E, deadline: int)
    requires Consistent(q) && ev in q.info && (InTimers(q, ev) || InPending(q, ev))
    ensures !Consistent(AddTimerTo(q, ev, deadline))
  {
    hide Sorted, SlotsOk, PendingOk;
    var t := Timer(ev, deadline);
    var k, r := Leading(q.timers, deadline), InsertTimer(q.timers, t);
    assert r[k] == t;
    if InTimers(q, ev) {
      var i :| 0 <= i < |q.timers| && q.timers[i].ev == ev;
      assert r[if i < k then i else i + 1].ev == ev;
      assert !DistinctTimers(r);
    } else {
      var j :| 0 <= j < |q.pending| && q.pending[j].ev == ev;
      assert !Apart(r, q.pending);
    }
  }

  /** Initialising an event that is in no list and no slot. */
  lemma SetKeeps<E>(q: Queues<E>, ev: E, a: Attr)
    requires Consistent(q) && !InTimers(q, ev) && !InPending(q, ev) && !Watched(q, ev)
    ensures Consistent(q.(info := q.info[ev := a]))
  {
    hide Sorted, Apart, DistinctTimers;
    assert forall i | 0 <= i < |q.timers| :: q.timers[i].ev != ev;
    OtherAttr(q.info, ev, a, q.pending, q.slots);
  }

  /** removeWatch on the slot of ev; an event that is not watched is left alone. */
  ghost function Forget<E>(slots: seq<Slot<E>>, ev: E): (r: seq<Slot<E>>)
    ensures |r| == |slots|
    ensures forall i | 0 <= i < |r| :: r[i] == if slots[i].Watch? && slots[i].ev == ev then Empty else slots[i]
  {
    if slots == [] then []
    else [if slots[0].Watch? && slots[0].ev == ev then Empty else slots[0]] + Forget(slots[1..], ev)
  }

  ghost predicate AllAllowed<E>(q: Queues<E>, ops: seq<Op<E>>)
    requires Consistent(q)
    decreases ops
  {
    ops != [] ==> Allowed(q, ops[0]) && AllAllowed(Apply(q, ops[0]), ops[1..])
  }

  ghost function ApplyAll<E>(q: Queues<E>, ops: seq<Op<E>>): (r: Queues<E>)
    requires Consistent(q) && AllAllowed(q, ops)
    ensures Consistent(r) && r.pending == q.pending && r.info.Keys == q.info.Keys
    decreases ops
  {
    if ops == [] then q else ApplyAll(Apply(q, ops[0]), ops[1..])
  }

  /** processTimeouts: the timers strictly before now move to the end of the pending list. */
  ghost function Expire<E>(q: Queues<E>, now: int): (r: Queues<E>)
    requires Consistent(q)
    ensures Consistent(r) && r.info == q.info && r.slots == q.slots
    ensures forall i | 0 <= i < |r.timers| :: now <= r.timers[i].deadline
  {
    ExpireKeeps(q, Leading(q.timers, now));
    var k := Leading(q.timers, now);
    LeadingIsAll(q.timers, now);
    q.(timers := q.timers[k..], pending := q.pending + Items(q.timers[..k]))
  }

  lemma ExpireKeeps<E>(q: Queues<E>, k: nat)
    requires Consistent(q) && k <= |q.timers|
    ensures Consistent(q.(timers := q.timers[k..], pending := q.pending + Items(q.timers[..k])))
  {
    hide SlotsOk;
    var ts, moved := q.timers[k..], Items(q.timers[..k]);
    assert TimersOk(q.info, ts) && Apart(ts, q.pending) && Apart(ts, moved);
    assert PendingOk(q.info, moved) && Apart(q.timers[..k], q.pending);
    JoinPending(q.info, q.pending, moved);
    assert Apart(ts, q.pending + moved);
  }

  lemma JoinPending<E>(info: map<E, Attr>, a: seq<Item<E>>, b: seq<Item<E>>)
    requires PendingOk(info, a) && PendingOk(info, b)
    requires forall i, j | 0 <= i < |a| && 0 <= j < |b| :: a[i].ev != b[j].ev
    ensures PendingOk(info, a + b)
  {
  }

  lemma ConsistentParts<E>(q: Queues<E>)
    requires Consistent(q)
    ensures Sorted(q.timers) && DistinctFds(q.slots)
    ensures forall i | 0 <= i < |q.slots| && q.slots[i].Watch? ::
              q.slots[i].ev in q.info && 0 <= q.slots[i].fd == q.info[q.slots[i].ev].fd
  {
  }

  /** From q to r the leading timers that are due, and no others, move to the end of the pending list. */
  ghost predicate MovesDue<E>(q: Queues<E>, r: Queues<E>, now: int) {
    var k := |q.timers| - |r.timers|;
    && 0 <= k && r.timers == q.timers[k..] && r.pending == q.pending + Items(q.timers[..k])
    && (forall i | 0 <= i < k :: q.timers[i].deadline < now)
    && (forall i | 0 <= i < |r.timers| :: now <= r.timers[i].deadline)
  }

  lemma ExpireBoundary<E>(q: Queues<E>, now: int)
    requires Consistent(q)
    ensures MovesDue(q, Expire(q, now), now)
  {
    hide Consistent, Items;
  }

  lemma ExpireSplit<E>(q: Queues<E>, now: int) returns (moved: seq<Timer<E>>)
    requires Consistent(q)
    ensures q.timers == moved + Expire(q, now).timers && Expire(q, now).pending == q.pending + Items(moved)
    ensures Sorted(moved) && forall i | 0 <= i < |moved| :: moved[i].deadline < now
  {
    ConsistentParts(q);
    moved := q.timers[..Leading(q.timers, now)];
  }

  ghost function MoveFirst<E>(q: Queues<E>): Queues<E>
    requires q.timers != []
  {
    q.(timers := q.timers[1..], pending := q.pending + [Expired(q.timers[0].ev, q.timers[0].deadline)])
  }

  /** One turn of the loop in processTimeouts. */
  lemma ExpireStep<E>(q: Queues<E>, now: int)
    requires Consistent(q) && q.timers != [] && q.timers[0].deadline < now
    ensures Consistent(MoveFirst(q)) && Expire(q, now) == Expire(MoveFirst(q), now)
  {
    hide Consistent;
    var ts, first := q.timers, Expired(q.timers[0].ev, q.timers[0].deadline);
    ExpireKeeps(q, 1);
    assert Items(ts[..1]) == [first];
    var k := Leading(ts[1..], now);
    assert Leading(ts, now) == k + 1;
    assert Items(ts[..k + 1]) == [first] + Items(ts[1..][..k]);
    assert (q.pending + [first]) + Items(ts[1..][..k]) == q.pending + Items(ts[..k + 1]);
  }

  lemma ExpireStop<E>(q: Queues<E>, now: int)
    requires Consistent(q) && (q.timers == [] || now <= q.timers[0].deadline)
    ensures Expire(q, now) == q
  {
    hide Consistent;
    assert Items(q.timers[..0]) == [];
  }

  ghost function Items<E>(ts: seq<Timer<E>>): (r: seq<Item<E>>)
    ensures |r| == |ts|
    ensures forall i | 0 <= i < |r| :: r[i] == Expired(ts[i].ev, ts[i].deadline)
  {
    if ts == [] then [] else [Expired(ts[0].ev, ts[0].deadline)] + Items(ts[1..])
  }

  /** processReadReadies, run while only expired timers are pending. */
  ghost function Gather<E>(q: Queues<E>, rfds: set<int>, n: int): (r: Queues<E>)
    requires Consistent(q) && forall i | 0 <= i < |q.pending| :: q.pending[i].Expired?
    ensures Consistent(r) && r.info == q.info && r.timers == q.timers
  {
    GatherKeeps(q.slots, rfds, n);
    q.(slots := AfterReady(q.slots, rfds, n), pending := q.pending + ReadyItems(q.slots, rfds, n))
  }

  /** The table half way through the scan: slots below i are done, left descriptors are still expected. */
  ghost predicate SlotsScanned<E>(s0: seq<Slot<E>>, s: seq<Slot<E>>, rfds: set<int>, n: int, i: nat, left: int) {
    && i <= MAX_FD_EVENTS == |s| == |s0|
    && (forall j | i <= j < MAX_FD_EVENTS :: s[j] == s0[j])
    && (forall j | 0 <= j < i :: s[j] == s0[j] || s[j] == Empty)
    && s[..i] + AfterReady(s0[i..], rfds, left) == AfterReady(s0, rfds, n)
  }

  ghost predicate PendingScanned<E>(s0: seq<Slot<E>>, p0: seq<Item<E>>, p: seq<Item<E>>, rfds: set<int>, n: int,
                                    i: nat, left: int) {
    && i <= |s0| && p + ReadyItems(s0[i..], rfds, left) == p0 + ReadyItems(s0, rfds, n)
    && (forall k, j | 0 <= k < |p| && i <= j < |s0| && s0[j].Watch? :: p[k].ev != s0[j].ev)
  }

  ghost predicate Scanned<E>(q0: Queues<E>, q: Queues<E>, rfds: set<int>, n: int, i: nat, left: int) {
    && q.info == q0.info && q.timers == q0.timers
    && SlotsScanned(q0.slots, q.slots, rfds, n, i, left)
    && PendingScanned(q0.slots, q0.pending, q.pending, rfds, n, i, left)
  }

  /** Slot i may be queued: its event is in neither list, and the slots agree with info. */
  ghost predicate Queueable<E>(q: Queues<E>, i: nat) {
    && i < |q.slots| == MAX_FD_EVENTS && DistinctFds(q.slots)
    && (q.slots[i].Watch? ==>
          && (forall j | 0 <= j < |q.timers| :: q.timers[j].ev != q.slots[i].ev)
          && (forall j | 0 <= j < |q.pending| :: q.pending[j].ev != q.slots[i].ev))
    && (forall j | 0 <= j < |q.slots| && q.slots[j].Watch? ::
          && q.slots[j].ev in q.info && q.slots[j].fd >= 0
          && q.info[q.slots[j].ev] == Attr(q.slots[j].fd, q.slots[j].persist))
  }

  ghost function QueueSlot<E>(q: Queues<E>, i: nat, ready: bool): Queues<E>
    requires i < |q.slots| && (ready ==> q.slots[i].Watch?)
  {
    if !ready then q
    else q.(slots := if q.slots[i].persist then q.slots else q.slots[i := Empty],
            pending := q.pending + [Readied(q.slots[i].ev)])
  }

  lemma ScanStart<E>(q: Queues<E>, rfds: set<int>, n: int)
    requires Consistent(q) && forall i | 0 <= i < |q.pending| :: q.pending[i].Expired?
    ensures Scanned(q, q, rfds, n, 0, n)
  {
    assert q.slots[0..] == q.slots;
  }

  lemma ScanQueueable<E>(q0: Queues<E>, q: Queues<E>, rfds: set<int>, n: int, i: nat, left: int)
    requires Consistent(q0) && Scanned(q0, q, rfds, n, i, left) && i < MAX_FD_EVENTS
    ensures Queueable(q, i)
  {
    hide ReadyItems, AfterReady;
  }

  lemma ScanSlots<E>(s0: seq<Slot<E>>, s: seq<Slot<E>>, rfds: set<int>, n: int, i: nat, left: int)
    requires SlotsScanned(s0, s, rfds, n, i, left) && i < MAX_FD_EVENTS && left > 0
    ensures var ready := IsReady(s[i], rfds);
            SlotsScanned(s0, if ready && !s[i].persist then s[i := Empty] else s, rfds, n, i + 1,
                         if ready then left - 1 else left)
  {
    hide AfterReady;
    ReadyStep(s0, rfds, left, i);
    var s' := if IsReady(s[i], rfds) && !s[i].persist then s[i := Empty] else s;
    var rest := AfterReady(s0[i + 1..], rfds, if IsReady(s[i], rfds) then left - 1 else left);
    assert s'[..i + 1] + rest == s[..i] + ([s'[i]] + rest);
    hide IsReady;
  }

  lemma ScanPending<E>(s0: seq<Slot<E>>, p0: seq<Item<E>>, p: seq<Item<E>>, rfds: set<int>, n: int, i: nat, left: int)
    requires PendingScanned(s0, p0, p, rfds, n, i, left) && DistinctEvs(s0) && i < |s0| && left > 0
    ensures var ready := IsReady(s0[i], rfds);
            PendingScanned(s0, p0, if ready then p + [Readied(s0[i].ev)] else p, rfds, n, i + 1,
                           if ready then left - 1 else left)
  {
    hide ReadyItems;
    ReadyStep(s0, rfds, left, i);
  }

  lemma ScanStep<E>(q0: Queues<E>, q: Queues<E>, rfds: set<int>, n: int, i: nat, left: int)
    requires Consistent(q0) && Scanned(q0, q, rfds, n, i, left) && i < MAX_FD_EVENTS && left > 0
    ensures var ready := IsReady(q.slots[i], rfds);
            Scanned(q0, QueueSlot(q, i, ready), rfds, n, i + 1, if ready then left - 1 else left)
  {
    hide PendingScanned, IsReady;
    ScanSlots(q0.slots, q.slots, rfds, n, i, left);
    assert q.slots[i] == q0.slots[i];
    hide SlotsScanned;
    ScanPending(q0.slots, q0.pending, q.pending, rfds, n, i, left);
  }

  lemma ScanEnd<E>(q0: Queues<E>, q: Queues<E>, rfds: set<int>, n: int, i: nat, left: int)
    requires Consistent(q0) && forall i | 0 <= i < |q0.pending| :: q0.pending[i].Expired?
    requires Scanned(q0, q, rfds, n, i, left) && (i == MAX_FD_EVENTS || left <= 0)
    ensures q == Gather(q0, rfds, n)
  {
    ReadyDone(q0.slots, rfds, left, i);
    assert q.slots == q.slots[..i] + q0.slots[i..];
  }

  ghost predicate ItemOfSlot<E>(slots: seq<Slot<E>>, it: Item<E>) {
    exists i :: 0 <= i < |slots| && slots[i].Watch? && it == Readied(slots[i].ev)
  }

  lemma {:induction false} GatherKeeps<E>(slots: seq<Slot<E>>, rfds: set<int>, n: int)
    requires DistinctEvs(slots)
    ensures DistinctItems(ReadyItems(slots, rfds, n))
    ensures forall i | 0 <= i < |ReadyItems(slots, rfds, n)| :: ItemOfSlot(slots, ReadyItems(slots, rfds, n)[i])
    ensures forall i | 0 <= i < |slots| ::
              AfterReady(slots, rfds, n)[i] == slots[i] || AfterReady(slots, rfds, n)[i] == Empty
    decreases slots
  {
    if slots != [] && n > 0 {
      var rest := slots[1..];
      var n' := if IsReady(slots[0], rfds) then n - 1 else n;
      GatherKeeps(rest, rfds, n');
      var items := ReadyItems(rest, rfds, n');
      forall i | 0 <= i < |items|
        ensures ItemOfSlot(slots, items[i])
        ensures slots[0].Watch? ==> items[i].ev != slots[0].ev
      {
        assert ItemOfSlot(rest, items[i]);
        var j :| 0 <= j < |rest| && rest[j].Watch? && items[i] == Readied(rest[j].ev);
        assert rest[j] == slots[j + 1];
      }
      if IsReady(slots[0], rfds) {
        assert ItemOfSlot(slots, Readied(slots[0].ev));
      }
    }
  }

  /** firePending takes the head off the list before calling it. */
  ghost function Pop<E>(q: Queues<E>): (r: Queues<E>)
    requires Consistent(q) && q.pending != []
    ensures Consistent(r)
  {
    var r := q.(pending := q.pending[1..]);
    assert forall i | 0 <= i < |r.pending| :: r.pending[i] == q.pending[i + 1];
    r
  }

  /** scripts[i] is what happens while the i-th pending event is being called. */
  ghost predicate Fireable<E>(q: Queues<E>, scripts: seq<seq<Op<E>>>)
    requires Consistent(q)
    decreases scripts
  {
    && |scripts| == |q.pending|
    && (scripts != [] ==>
          && AllAllowed(Pop(q), scripts[0])
          && Fireable(ApplyAll(Pop(q), scripts[0]), scripts[1..]))
  }

  ghost function FireAll<E>(q: Queues<E>, scripts: seq<seq<Op<E>>>): (r: Queues<E>)
    requires Consistent(q) && Fireable(q, scripts)
    ensures Consistent(r) && r.pending == [] && r.info.Keys == q.info.Keys
    decreases scripts
  {
    if scripts == [] then q else FireAll(ApplyAll(Pop(q), scripts[0]), scripts[1..])
  }

  ghost function WatchedFds<E>(slots: seq<Slot<E>>): set<int> {
    set i | 0 <= i < |slots| && slots[i].Watch? :: slots[i].fd
  }

  /** nfds as select wants it: one more than the largest watched descriptor. */
  ghost predicate NfdsExact(nfds: int, fds: set<int>) {
    && (forall fd | fd in fds :: 0 <= fd < nfds)
    && (if fds == {} then 0 <= nfds <= 1 else nfds - 1 in fds)
  }

  ghost predicate IsMinDeadline<E>(d: int, ts: seq<Timer<E>>) {
    (exists i :: 0 <= i < |ts| && ts[i].deadline == d) && (forall i | 0 <= i < |ts| :: d <= ts[i].deadline)
  }

  /** The legality of one pass of the loop: what other threads do at each of its three gaps. */
  ghost predicate PassAllowed<E>(q: Queues<E>, inSelect: seq<Op<E>>, rfds: set<int>, n: int, now: TimeVal,
                                 between: seq<Op<E>>, scripts: seq<seq<Op<E>>>)
    requires Consistent(q) && q.pending == []
  {
    && Normal(now) && AllAllowed(q, inSelect)
    && (n >= 0 ==>
          && AllAllowed(Expire(ApplyAll(q, inSelect), Micros(now)), between)
          && Fireable(AtFiring(q, inSelect, rfds, n, now, between), scripts))
  }

  /** The queues when firePending starts. */
  ghost function AtFiring<E>(q: Queues<E>, inSelect: seq<Op<E>>, rfds: set<int>, n: int, now: TimeVal,
                             between: seq<Op<E>>): (r: Queues<E>)
    requires Consistent(q) && q.pending == [] && AllAllowed(q, inSelect)
    requires AllAllowed(Expire(ApplyAll(q, inSelect), Micros(now)), between)
    ensures Consistent(r)
  {
    Gather(ApplyAll(Expire(ApplyAll(q, inSelect), Micros(now)), between), rfds, n)
  }

  /** One turn of the loop in firePending. */
  lemma FireStep<E>(q: Queues<E>, scripts: seq<seq<Op<E>>>, i: nat)
    requires Consistent(q) && i <= |scripts| && Fireable(q, scripts[i..]) && q.pending != []
    ensures i < |scripts| && AllAllowed(Pop(q), scripts[i])
    ensures Fireable(ApplyAll(Pop(q), scripts[i]), scripts[i + 1..])
    ensures FireAll(ApplyAll(Pop(q), scripts[i]), scripts[i + 1..]) == FireAll(q, scripts[i..])
  {
    assert scripts[i..][0] == scripts[i] && scripts[i..][1..] == scripts[i + 1..];
  }

  lemma FireStop<E>(q: Queues<E>, scripts: seq<seq<Op<E>>>)
    requires Consistent(q) && Fireable(q, scripts) && q.pending == []
    ensures FireAll(q, scripts) == q
  {
  }
}
