/**
 ril_event.cpp on the heap: two circular doubly linked lists with sentinels, the watch table, the
 descriptor set and nfds. The ghost field q is the value-level state of EventSpec; Valid ties every
 pointer and field to it.
 */
module EventQueues {
  import opened Sequences
  import opened TimeVals
  import opened Wrappers
  import opened EventSpec

  class RilEvent {
    var next: RilEvent?
    var prev: RilEvent?
    var fd: int
    var index: int
    var persist: bool
    var timeout: TimeVal

    constructor (fd: int, persist: bool)
      ensures next == null && prev == null && index == -1
      ensures this.fd == fd && this.persist == persist && timeout == TimeVal(0, 0)
    {
      this.next, this.prev := null, null;
      this.fd, this.index, this.persist := fd, -1, persist;
      this.timeout := TimeVal(0, 0);
    }
  }

  // ---------- circular lists ----------

  ghost function NodeAt(head: RilEvent, s: seq<RilEvent>, k: nat): RilEvent {
    if k < |s| then s[k] else head
  }

  ghost function PrevAt(head: RilEvent, s: seq<RilEvent>, k: nat): RilEvent {
    if 0 < k <= |s| then s[k - 1] else head
  }

  /** Link k joins PrevAt(k) and NodeAt(k), in both directions; there are |s| + 1 links. */
  ghost predicate Ring(head: RilEvent, s: seq<RilEvent>)
    reads head`next, head`prev, s`next, s`prev
  {
    && head !in s
    && (forall i, j | 0 <= i < j < |s| :: s[i] != s[j])
    && (forall k | 0 <= k <= |s| :: PrevAt(head, s, k).next == NodeAt(head, s, k))
    && (forall k | 0 <= k <= |s| :: NodeAt(head, s, k).prev == PrevAt(head, s, k))
  }

  lemma RingLink(head: RilEvent, s: seq<RilEvent>, k: nat)
    requires Ring(head, s) && k <= |s|
    ensures NodeAt(head, s, k).prev == PrevAt(head, s, k) && PrevAt(head, s, k).next == NodeAt(head, s, k)
  {
  }

  /** Following next k times. */
  ghost function Follow(from: RilEvent?, k: nat, heap: set<RilEvent>): RilEvent?
    reads heap
  {
    if k == 0 then from
    else var e := Follow(from, k - 1, heap); if e == null || e !in heap then null else e.next
  }

  /** The sentinel is reached again after exactly |s| + 1 steps, having passed every node once. */
  lemma {:induction false} RingWalk(head: RilEvent, s: seq<RilEvent>, k: nat, heap: set<RilEvent>)
    requires Ring(head, s) && head in heap && (forall e | e in s :: e in heap)
    requires 1 <= k <= |s| + 1
    ensures Follow(head, k, heap) == NodeAt(head, s, k - 1)
    ensures Follow(head, k, heap) == head <==> k == |s| + 1
  {
    if k == 1 {
      assert Follow(head, 0, heap) == head;
    } else {
      RingWalk(head, s, k - 1, heap);
    }
  }

  /** addToList: ev goes in front of list, which is the sentinel or any node. */
  method AddToList(ev: RilEvent, list: RilEvent, ghost head: RilEvent, ghost s: seq<RilEvent>, ghost k: nat)
    requires Ring(head, s) && ev != head && ev !in s
    requires k <= |s| && list == NodeAt(head, s, k) && list.prev == PrevAt(head, s, k)
    modifies ev`next, ev`prev, list`prev, list.prev`next
    ensures Ring(head, Splice(s, k, ev))
  {
    ghost var before := PrevAt(head, s, k);
    ev.next := list;
    ev.prev := list.prev;
    ev.prev.next := ev;
    list.prev := ev;
    ghost var r := Splice(s, k, ev);
    forall i | 0 <= i <= |r|
      ensures PrevAt(head, r, i).next == NodeAt(head, r, i) && NodeAt(head, r, i).prev == PrevAt(head, r, i)
    {
      if i <= k {
        assert PrevAt(head, r, i) == PrevAt(head, s, i);
      } else {
        assert NodeAt(head, r, i) == NodeAt(head, s, i - 1);
      }
    }
  }

  method RemoveFromList(ev: RilEvent, ghost head: RilEvent, ghost s: seq<RilEvent>, ghost k: nat)
    requires Ring(head, s) && k < |s| && s[k] == ev
    requires ev.next == NodeAt(head, s, k + 1) && ev.prev == PrevAt(head, s, k)
    modifies ev`next, ev`prev, ev.next`prev, ev.prev`next
    ensures Ring(head, Without(s, k))
    ensures ev.next == null && ev.prev == null && ev !in Without(s, k)
  {
    assert NodeAt(head, s, k) == ev == PrevAt(head, s, k + 1);
    ev.next.prev := ev.prev;
    ev.prev.next := ev.next;
    ev.next := null;
    ev.prev := null;
    ghost var r := Without(s, k);
    forall i | 0 <= i <= |r|
      ensures PrevAt(head, r, i).next == NodeAt(head, r, i) && NodeAt(head, r, i).prev == PrevAt(head, r, i)
    {
      assert i <= k ==> PrevAt(head, r, i) == PrevAt(head, s, i);
      assert i >= k ==> NodeAt(head, r, i) == NodeAt(head, s, i + 1);
      assert i < k ==> NodeAt(head, r, i) == NodeAt(head, s, i);
      assert i > k ==> PrevAt(head, r, i) == PrevAt(head, s, i + 1);
    }
  }

  // ---------- the queues ----------

  ghost function TimerEvs(ts: seq<Timer<RilEvent>>): (r: seq<RilEvent>)
    ensures |r| == |ts| && forall i | 0 <= i < |r| :: r[i] == ts[i].ev
  {
    seq(|ts|, i requires 0 <= i < |ts| => ts[i].ev)
  }

  ghost function ItemEvs(p: seq<Item<RilEvent>>): (r: seq<RilEvent>)
    ensures |r| == |p| && forall i | 0 <= i < |r| :: r[i] == p[i].ev
  {
    seq(|p|, i requires 0 <= i < |p| => p[i].ev)
  }

  /** Two disjoint rings whose nodes carry the abstract deadlines; the sentinels are no one's event. */
  ghost predicate ListsMatch(timerList: RilEvent, pendingList: RilEvent, timers: seq<Timer<RilEvent>>,
                             pending: seq<Item<RilEvent>>, events: set<RilEvent>)
    reads timerList`next, timerList`prev, pendingList`next, pendingList`prev
    reads events`next, events`prev, events`timeout
  {
    && timerList != pendingList && timerList !in events && pendingList !in events
    && (forall i | 0 <= i < |timers| :: timers[i].ev in events)
    && (forall i | 0 <= i < |pending| :: pending[i].ev in events)
    && (forall i, j | 0 <= i < |timers| && 0 <= j < |pending| :: timers[i].ev != pending[j].ev)
    && Ring(timerList, TimerEvs(timers))
    && Ring(pendingList, ItemEvs(pending))
    && (forall i | 0 <= i < |timers| ::
          Normal(timers[i].ev.timeout) && Micros(timers[i].ev.timeout) == timers[i].deadline)
  }

  /** Slot i holds ev exactly when ev.index is i, and the fields of every event are the recorded ones. */
  ghost predicate TableMatches(table: array<RilEvent?>, slots: seq<Slot<RilEvent>>, info: map<RilEvent, Attr>)
    reads table, info.Keys`index, info.Keys`fd, info.Keys`persist
  {
    && table.Length == MAX_FD_EVENTS == |slots|
    && (forall i | 0 <= i < |slots| :: slots[i].Empty? <==> table[i] == null)
    && (forall i | 0 <= i < |slots| && slots[i].Watch? ::
          slots[i].ev in info && table[i] == slots[i].ev && slots[i].ev.index == i)
    && (forall ev | ev in info ::
          ev.index == -1 || (0 <= ev.index < |slots| && slots[ev.index].Watch? && slots[ev.index].ev == ev))
    && (forall ev | ev in info :: ev.fd == info[ev].fd && ev.persist == info[ev].persist)
  }

  ghost predicate FdsRecorded(q: Queues<RilEvent>) {
    forall i | 0 <= i < |q.slots| && q.slots[i].Watch? ::
      q.slots[i].ev in q.info && q.slots[i].fd == q.info[q.slots[i].ev].fd >= 0
  }

  ghost predicate FdsMatch(readFds: set<int>, nfds: int, slots: seq<Slot<RilEvent>>) {
    readFds == WatchedFds(slots) && NfdsExact(nfds, readFds)
  }

  class EventQueues {
    const timerList: RilEvent
    const pendingList: RilEvent
    const watchTable: array<RilEvent?>
    var readFds: set<int>
    var nfds: int
    ghost var q: Queues<RilEvent>

    ghost predicate Valid()
      reads this, watchTable, timerList, pendingList, q.info.Keys
    {
      && Consistent(q)
      && ListsMatch(timerList, pendingList, q.timers, q.pending, q.info.Keys)
      && WatchesMatch()
    }

    ghost predicate WatchesMatch()
      reads this, watchTable, q.info.Keys`index, q.info.Keys`fd, q.info.Keys`persist
    {
      TableMatches(watchTable, q.slots, q.info) && FdsMatch(readFds, nfds, q.slots)
    }

    /** ril_event_init */
    constructor ()
      ensures Valid() && fresh(watchTable) && fresh(timerList) && fresh(pendingList)
      ensures q == Queues(map[], [], [], seq(MAX_FD_EVENTS, _ => Empty))
    {
      var t := new RilEvent(-1, false);
      var p := new RilEvent(-1, false);
      t.next, t.prev := t, t;
      p.next, p.prev := p, p;
      timerList, pendingList := t, p;
      watchTable := new RilEvent?[MAX_FD_EVENTS](_ => null);
      readFds, nfds := {}, 0;
      q := Queues(map[], [], [], seq(MAX_FD_EVENTS, _ => Empty));
    }

    /** ril_event_set, on a new event or again on one that is in no list and no slot. */
    method Set(ev: RilEvent, fd: int, persist: bool)
      requires Valid() && ev != timerList && ev != pendingList
      requires !InTimers(q, ev) && !InPending(q, ev) && !Watched(q, ev)
      modifies this`q, ev
      ensures Valid() && q == old(q).(info := old(q.info)[ev := Attr(fd, persist)])
      ensures ev.next == null == ev.prev && ev.index == -1 && ev.timeout == TimeVal(0, 0)
      ensures ev.fd == fd && ev.persist == persist
    {
      hide FdsMatch, Ring, TableMatches, ListsMatch, Consistent;
      SetKeeps(q, ev, Attr(fd, persist));
      NotListed(q, ev);
      ResetLinks(ev);
      ResetWatch(ev, fd, persist);
      assert q.info[ev := Attr(fd, persist)].Keys == q.info.Keys + {ev};
      q := q.(info := q.info[ev := Attr(fd, persist)]);
    }

    method ResetLinks(ev: RilEvent)
      requires ListsMatch(timerList, pendingList, q.timers, q.pending, q.info.Keys)
      requires ev != timerList && ev != pendingList
      requires forall i | 0 <= i < |q.timers| :: q.timers[i].ev != ev
      requires forall i | 0 <= i < |q.pending| :: q.pending[i].ev != ev
      modifies ev`next, ev`prev, ev`timeout
      ensures ListsMatch(timerList, pendingList, q.timers, q.pending, q.info.Keys + {ev})
      ensures ev.next == null == ev.prev && ev.timeout == TimeVal(0, 0)
    {
      hide Ring, Micros, Normal;
      ev.next, ev.prev, ev.timeout := null, null, TimeVal(0, 0);
    }

    method ResetWatch(ev: RilEvent, fd: int, persist: bool)
      requires TableMatches(watchTable, q.slots, q.info)
      requires forall i | 0 <= i < |q.slots| && q.slots[i].Watch? :: q.slots[i].ev != ev
      modifies ev`fd, ev`index, ev`persist
      ensures TableMatches(watchTable, q.slots, q.info[ev := Attr(fd, persist)])
      ensures ev.index == -1 && ev.fd == fd && ev.persist == persist
    {
      ev.fd, ev.index, ev.persist := fd, -1, persist;
    }

    /** removeWatch */
    method RemoveWatch(ev: RilEvent, index: int)
      requires WatchesMatch() && DistinctFds(q.slots) && FdsRecorded(q)
      requires 0 <= index < |q.slots| && q.slots[index].Watch? && q.slots[index].ev == ev
      modifies this`readFds, this`nfds, this`q, watchTable, ev`index
      ensures WatchesMatch()
      ensures q == old(q).(slots := old(q.slots)[index := Empty])
      ensures watchTable[..] == old(watchTable[..])[index := null] && ev.index == -1
      ensures readFds == old(readFds) - {ev.fd}
    {
      hide NfdsExact, WatchedFds, TableMatches, FdsRecorded;
      EmptySlot(ev, index);
      if ev.fd + 1 == nfds {
        RecomputeNfds();
      }
    }

    /** The table, the slots and the descriptor set; nfds may be too large now, but only if ev's was the largest. */
    method EmptySlot(ev: RilEvent, index: int)
      requires WatchesMatch() && DistinctFds(q.slots) && FdsRecorded(q)
      requires 0 <= index < |q.slots| && q.slots[index].Watch? && q.slots[index].ev == ev
      modifies this`readFds, this`q, watchTable, ev`index
      ensures q == old(q).(slots := old(q.slots)[index := Empty])
      ensures watchTable[..] == old(watchTable[..])[index := null] && ev.index == -1
      ensures readFds == old(readFds) - {ev.fd}
      ensures TableMatches(watchTable, q.slots, q.info) && readFds == WatchedFds(q.slots) && FdsRecorded(q)
      ensures ev.fd + 1 != nfds ==> NfdsExact(nfds, readFds)
    {
      hide NfdsExact, WatchedFds;
      ReleasedFd(q.slots, index);
      NfdsStays(nfds, readFds, ev.fd);
      RemoveFromTable(watchTable, ev, index, q.slots, q.info);
      readFds := readFds - {ev.fd};
      q := q.(slots := q.slots[index := Empty]);
    }

    method RecomputeNfds()
      requires TableMatches(watchTable, q.slots, q.info) && readFds == WatchedFds(q.slots) && FdsRecorded(q)
      modifies this`nfds
      ensures NfdsExact(nfds, readFds)
    {
      var n := LargestFd(watchTable, q.slots, q.info);
      nfds := n + 1;
    }

    /** The body of ril_event_add once a free slot is found. */
    method TakeSlot(ev: RilEvent, index: int)
      requires WatchesMatch() && ev in q.info && ev.fd >= 0
      requires 0 <= index < |q.slots| && q.slots[index].Empty?
      requires forall i | 0 <= i < |q.slots| && q.slots[i].Watch? :: q.slots[i].ev != ev
      modifies this`readFds, this`nfds, this`q, watchTable, ev`index
      ensures WatchesMatch()
      ensures q == old(q).(slots := old(q.slots)[index := Watch(ev, ev.fd, ev.persist)])
      ensures watchTable[..] == old(watchTable[..])[index := ev] && ev.index == index
      ensures readFds == old(readFds) + {ev.fd} && nfds == if ev.fd >= old(nfds) then ev.fd + 1 else old(nfds)
    {
      hide NfdsExact, WatchedFds;
      TakenFd(q.slots, index, Watch(ev, ev.fd, ev.persist));
      NfdsGrows(nfds, readFds, ev.fd);
      PutInTable(watchTable, ev, index, q.slots, q.info);
      readFds := readFds + {ev.fd};
      if ev.fd >= nfds {
        nfds := ev.fd + 1;
      }
      q := q.(slots := q.slots[index := Watch(ev, ev.fd, ev.persist)]);
    }

    /** ril_event_add */
    method EventAdd(ev: RilEvent)
      requires Valid() && Allowed(q, AddWatch(ev))
      modifies this`readFds, this`nfds, this`q, watchTable, ev`index
      ensures Valid() && q == Apply(old(q), AddWatch(ev))
      ensures null !in old(watchTable[..]) ==>
                && watchTable[..] == old(watchTable[..]) && ev.index == old(ev.index)
                && readFds == old(readFds) && nfds == old(nfds)
      ensures null in old(watchTable[..]) ==>
                && 0 <= ev.index < MAX_FD_EVENTS && old(watchTable[..])[ev.index] == null
                && null !in old(watchTable[..])[..ev.index]
                && watchTable[..] == old(watchTable[..])[ev.index := ev]
                && readFds == old(readFds) + {ev.fd} && nfds == if ev.fd >= old(nfds) then ev.fd + 1 else old(nfds)
    {
      hide ListsMatch, FdsMatch, WatchedFds;
      for i := 0 to MAX_FD_EVENTS
        invariant forall j | 0 <= j < i :: q.slots[j].Watch?
        invariant q == old(q) && Valid() && watchTable[..] == old(watchTable[..]) && ev.index == old(ev.index)
        invariant readFds == old(readFds) && nfds == old(nfds)
        invariant null !in old(watchTable[..])[..i]
      {
        assert old(watchTable[..])[..i + 1] == old(watchTable[..])[..i] + [watchTable[i]];
        if watchTable[i] == null {
          TakeSlot(ev, i);
          assert q == Apply(old(q), AddWatch(ev));
          assert ListsMatch(timerList, pendingList, q.timers, q.pending, q.info.Keys);
          assert TableMatches(watchTable, q.slots, q.info);
          assert FdsMatch(readFds, nfds, q.slots);
          return;
        }
      }
      assert old(watchTable[..])[..MAX_FD_EVENTS] == old(watchTable[..]);
    }

    /** ril_event_del: despite its comment, it only ever removes a watch. */
    method EventDel(ev: RilEvent)
      requires Valid() && Allowed(q, Delete(ev))
      modifies this`readFds, this`nfds, this`q, watchTable, ev`index
      ensures Valid() && q == Apply(old(q), Delete(ev))
      ensures ev.index == -1
      ensures forall i | 0 <= i < MAX_FD_EVENTS ::
                watchTable[i] == if old(watchTable[i]) == ev then null else old(watchTable[i])
      ensures readFds == if ev in old(watchTable[..]) then old(readFds) - {ev.fd} else old(readFds)
      ensures q.timers == old(q).timers && q.pending == old(q).pending && q.info == old(q).info
    {
      hide Consistent, ListsMatch, FdsMatch, DistinctFds;
      ConsistentParts(q);
      ghost var forgotten := Forget(q.slots, ev);
      if ev.index < 0 || ev.index >= MAX_FD_EVENTS {
        assert forgotten == q.slots;
        return;
      }
      assert forgotten == q.slots[ev.index := Empty];
      RemoveWatch(ev, ev.index);
      assert q == Apply(old(q), Delete(ev));
    }

    /** ril_timer_add; now is the reading of the monotonic clock taken under the mutex. */
    method TimerAdd(ev: RilEvent, tv: Option<TimeVal>, now: TimeVal)
      requires Valid() && Allowed(q, AddTimer(ev, tv, now))
      modifies this`q, timerList`next, timerList`prev, q.info.Keys`next, q.info.Keys`prev, ev`fd, ev`timeout
      ensures Valid() && q == Apply(old(q), AddTimer(ev, tv, now))
      ensures tv.None? ==> q == old(q) && ev.fd == old(ev.fd)
      ensures tv.Some? ==>
                && ev.fd == -1 && Normal(ev.timeout) && Micros(ev.timeout) == Micros(now) + Micros(tv.value)
                && QueuedInOrder(old(q.timers), q.timers, Timer(ev, Micros(now) + Micros(tv.value)))
                && q.pending == old(q).pending && q.slots == old(q).slots
    {
      hide ListsMatch, WatchesMatch, Consistent, AddTimerTo;
      if tv.Some? {
        AddTimed(ev, tv.value, now);
        assert q == Apply(old(q), AddTimer(ev, tv, now));
      }
    }

    method AddTimed(ev: RilEvent, tv: TimeVal, now: TimeVal)
      requires ListsMatch(timerList, pendingList, q.timers, q.pending, q.info.Keys) && WatchesMatch()
      requires Allowed(q, AddTimer(ev, Some(tv), now))
      modifies this`q, timerList`next, timerList`prev, q.info.Keys`next, q.info.Keys`prev, ev`fd, ev`timeout
      ensures ListsMatch(timerList, pendingList, q.timers, q.pending, q.info.Keys) && WatchesMatch()
      ensures ev in old(q).info && q == AddTimerTo(old(q), ev, Micros(now) + Micros(tv))
      ensures ev.fd == -1 && ev.timeout == Add(now, tv)
      ensures q.pending == old(q).pending && q.slots == old(q).slots
      ensures QueuedInOrder(old(q.timers), q.timers, Timer(ev, Micros(now) + Micros(tv)))
    {
      hide ListsMatch, WatchesMatch, Leading, Splice, QueuedInOrder;
      NotListed(q, ev);
      MarkTimer(ev, Add(now, tv));
      var list, k := FindPlace(ev.timeout);
      InsertAt(ev, list, k);
      QueuedAt(old(q.timers), Timer(ev, Micros(now) + Micros(tv)), k);
    }

    method InsertAt(ev: RilEvent, list: RilEvent, ghost k: nat)
      requires ListsMatch(timerList, pendingList, q.timers, q.pending, q.info.Keys) && WatchesMatch()
      requires ev in q.info && Normal(ev.timeout)
      requires forall i | 0 <= i < |q.timers| :: q.timers[i].ev != ev
      requires forall i | 0 <= i < |q.pending| :: q.pending[i].ev != ev
      requires k <= |q.timers| && list == NodeAt(timerList, TimerEvs(q.timers), k)
      modifies this`q, timerList`next, timerList`prev, q.info.Keys`next, q.info.Keys`prev
      ensures ListsMatch(timerList, pendingList, q.timers, q.pending, q.info.Keys) && WatchesMatch()
      ensures q == old(q).(timers := Splice(old(q.timers), k, Timer(ev, Micros(ev.timeout))))
    {
      hide ListsMatch, TableMatches, FdsMatch, Splice;
      LinkTimer(timerList, pendingList, ev, list, k, q.timers, q.pending, q.info.Keys);
      q := q.(timers := Splice(q.timers, k, Timer(ev, Micros(ev.timeout))));
    }

    method MarkTimer(ev: RilEvent, timeout: TimeVal)
      requires ListsMatch(timerList, pendingList, q.timers, q.pending, q.info.Keys) && WatchesMatch()
      requires ev in q.info && forall i | 0 <= i < |q.timers| :: q.timers[i].ev != ev
      modifies this`q, ev`fd, ev`timeout
      ensures ListsMatch(timerList, pendingList, q.timers, q.pending, q.info.Keys) && WatchesMatch()
      ensures ev.timeout == timeout && q == old(q).(info := old(q.info)[ev := old(q.info)[ev].(fd := -1)])
      ensures ev.fd == -1
      ensures q.info.Keys == old(q.info.Keys)
    {
      hide FdsMatch, TableMatches, ListsMatch;
      MarkDeadline(ev, timeout);
      MarkFd(ev);
      assert q.info[ev := q.info[ev].(fd := -1)].Keys == q.info.Keys;
      q := q.(info := q.info[ev := q.info[ev].(fd := -1)]);
    }

    method MarkDeadline(ev: RilEvent, timeout: TimeVal)
      requires ListsMatch(timerList, pendingList, q.timers, q.pending, q.info.Keys)
      requires forall i | 0 <= i < |q.timers| :: q.timers[i].ev != ev
      modifies ev`timeout
      ensures ListsMatch(timerList, pendingList, q.timers, q.pending, q.info.Keys) && ev.timeout == timeout
    {
      hide Ring;
      ev.timeout := timeout;
    }

    method MarkFd(ev: RilEvent)
      requires TableMatches(watchTable, q.slots, q.info) && ev in q.info
      modifies ev`fd
      ensures TableMatches(watchTable, q.slots, q.info[ev := q.info[ev].(fd := -1)]) && ev.fd == -1
    {
      ev.fd := -1;
    }

    /** The search in ril_timer_add: stops at the first timer that is not earlier, or at the sentinel. */
    method FindPlace(timeout: TimeVal) returns (list: RilEvent, ghost k: nat)
      requires ListsMatch(timerList, pendingList, q.timers, q.pending, q.info.Keys) && Normal(timeout)
      ensures k == Leading(q.timers, Micros(timeout)) && list == NodeAt(timerList, TimerEvs(q.timers), k)
    {
      list := FirstTimer();
      k := 0;
      while Less(list.timeout, timeout) && list != timerList
        invariant k <= |q.timers| && list == NodeAt(timerList, TimerEvs(q.timers), k)
        invariant forall i | 0 <= i < k :: q.timers[i].deadline < Micros(timeout)
        decreases |q.timers| - k
      {
        list := NextTimer(list, k);
        k := k + 1;
      }
      assert k < |q.timers| ==> list == q.timers[k].ev;
      LeadingIs(q.timers, Micros(timeout), k);
    }

    method FirstTimer() returns (ev: RilEvent)
      requires ListsMatch(timerList, pendingList, q.timers, q.pending, q.info.Keys)
      ensures ev == NodeAt(timerList, TimerEvs(q.timers), 0)
    {
      assert timerList == PrevAt(timerList, TimerEvs(q.timers), 0);
      ev := timerList.next;
    }

    method NextTimer(list: RilEvent, ghost k: nat) returns (ev: RilEvent)
      requires ListsMatch(timerList, pendingList, q.timers, q.pending, q.info.Keys)
      requires k < |q.timers| && list == q.timers[k].ev
      ensures ev == NodeAt(timerList, TimerEvs(q.timers), k + 1)
    {
      assert list == PrevAt(timerList, TimerEvs(q.timers), k + 1);
      ev := list.next;
    }

    /** calcNextTimeout: how long select may sleep. Leaves tv alone when no timer is queued. */
    method CalcNextTimeout(now: TimeVal, tv: TimeVal) returns (r: int, tv': TimeVal)
      requires Valid() && Normal(now)
      ensures r == (if q.timers == [] then -1 else 0)
      ensures r == -1 ==> tv' == tv
      ensures r == 0 ==> Normal(tv') && SleepsUntil(Micros(tv'), Micros(now), q.timers)
    {
      hide TableMatches, FdsMatch;
      var tev := FirstTimer();
      if tev == timerList {
        return -1, tv;
      }
      assert IsMinDeadline(q.timers[0].deadline, q.timers);
      if Less(now, tev.timeout) {
        tv' := Sub(tev.timeout, now);
      } else {
        tv' := TimeVal(0, 0);
      }
      r := 0;
    }

    /** processTimeouts */
    method ProcessTimeouts(now: TimeVal)
      requires Valid() && Normal(now)
      modifies this`q, timerList`next, timerList`prev, pendingList`next, pendingList`prev
      modifies q.info.Keys`next, q.info.Keys`prev
      ensures Valid() && q == Expire(old(q), Micros(now))
      ensures MovesDue(old(q), q, Micros(now))
    {
      hide MovesDue;
      ExpireBoundary(q, Micros(now));
      hide Consistent, ListsMatch, WatchesMatch, Expire, MoveFirst;
      ghost var q0 := q;
      var tev := FirstTimer();
      while tev != timerList && Less(tev.timeout, now)
        invariant q.info == q0.info && Consistent(q) && Expire(q, Micros(now)) == Expire(q0, Micros(now))
        invariant ListsMatch(timerList, pendingList, q.timers, q.pending, q.info.Keys) && WatchesMatch()
        invariant tev == NodeAt(timerList, TimerEvs(q.timers), 0)
        decreases |q.timers|
      {
        TimerHead();
        ExpireStep(q, Micros(now));
        tev := TakeExpired(tev);
      }
      TimerHead();
      ExpireStop(q, Micros(now));
    }

    lemma TimerHead()
      requires ListsMatch(timerList, pendingList, q.timers, q.pending, q.info.Keys)
      ensures NodeAt(timerList, TimerEvs(q.timers), 0) == if q.timers == [] then timerList else q.timers[0].ev
      ensures q.timers != [] ==> q.timers[0].ev != timerList && q.timers[0].ev in q.info
      ensures q.timers != [] ==> Normal(q.timers[0].ev.timeout)
                                 && Micros(q.timers[0].ev.timeout) == q.timers[0].deadline
    {
    }

    /** Notes the timer that follows, then moves this one to the end of the pending list. */
    method TakeExpired(tev: RilEvent) returns (next: RilEvent)
      requires ListsMatch(timerList, pendingList, q.timers, q.pending, q.info.Keys) && WatchesMatch()
      requires q.timers != [] && tev == q.timers[0].ev
      modifies this`q, timerList`next, timerList`prev, pendingList`next, pendingList`prev
      modifies q.info.Keys`next, q.info.Keys`prev
      ensures ListsMatch(timerList, pendingList, q.timers, q.pending, q.info.Keys) && WatchesMatch()
      ensures q == MoveFirst(old(q)) && |q.timers| < |old(q.timers)| && q.info == old(q.info)
      ensures next == NodeAt(timerList, TimerEvs(q.timers), 0)
    {
      hide ListsMatch, TableMatches, FdsMatch;
      next := NextTimer(tev, 0);
      MoveToPending(timerList, pendingList, tev, q.timers, q.pending, q.info.Keys);
      q := MoveFirst(q);
    }

    /** processReadReadies; n is what select returned for rfds. */
    method ProcessReadReadies(rfds: set<int>, n: int)
      requires Valid() && forall i | 0 <= i < |q.pending| :: q.pending[i].Expired?
      modifies this, watchTable, pendingList`next, pendingList`prev
      modifies q.info.Keys`next, q.info.Keys`prev, q.info.Keys`index
      ensures Valid() && q == Gather(old(q), rfds, n)
    {
      hide ListsMatch, TableMatches, FdsMatch, Consistent, Scanned, Queueable, QueueSlot, Gather;
      ghost var q0 := q;
      var left, i := n, 0;
      ScanStart(q, rfds, n);
      while i < MAX_FD_EVENTS && left > 0
        invariant 0 <= i <= MAX_FD_EVENTS
        invariant q.info == q0.info && Scanned(q0, q, rfds, n, i, left)
        invariant ListsMatch(timerList, pendingList, q.timers, q.pending, q.info.Keys) && WatchesMatch()
      {
        ScanQueueable(q0, q, rfds, n, i, left);
        ScanStep(q0, q, rfds, n, i, left);
        var queued := QueueIfReady(i, rfds);
        left := if queued then left - 1 else left;
        i := i + 1;
      }
      ScanEnd(q0, q, rfds, n, i, left);
    }

    /** The loop body of processReadReadies. */
    method QueueIfReady(i: int, rfds: set<int>) returns (queued: bool)
      requires ListsMatch(timerList, pendingList, q.timers, q.pending, q.info.Keys) && WatchesMatch()
      requires 0 <= i && Queueable(q, i)
      modifies this, watchTable, pendingList`next, pendingList`prev
      modifies q.info.Keys`next, q.info.Keys`prev, q.info.Keys`index
      ensures ListsMatch(timerList, pendingList, q.timers, q.pending, q.info.Keys) && WatchesMatch()
      ensures q.info == old(q.info)
      ensures queued == IsReady(old(q).slots[i], rfds) && q == QueueSlot(old(q), i, queued)
    {
      hide ListsMatch, FdsMatch;
      var rev := watchTable[i];
      queued := rev != null && rev.fd in rfds;
      if queued {
        AppendReady(timerList, pendingList, rev, q.timers, q.pending, q.info.Keys);
        q := q.(pending := q.pending + [Readied(rev)]);
        if !rev.persist {
          RemoveWatch(rev, i);
        }
      }
    }

    /** One call made by a callback or by another thread. */
    method Perform(op: Op<RilEvent>)
      requires Valid() && Allowed(q, op)
      modifies this, watchTable, timerList, q.info.Keys
      ensures Valid() && q == Apply(old(q), op)
    {
      hide Consistent, ListsMatch, WatchesMatch, Apply;
      match op
      case AddTimer(ev, tv, now) => TimerAdd(ev, tv, now);
      case AddWatch(ev) => EventAdd(ev);
      case Delete(ev) => EventDel(ev);
      case SetEvent(ev, fd, persist) =>
        NotSentinel(ev);
        ApplySet(q, ev, fd, persist);
        Set(ev, fd, persist);
        assert q.info.Keys == old(q.info.Keys);
    }

    lemma NotSentinel(ev: RilEvent)
      requires ListsMatch(timerList, pendingList, q.timers, q.pending, q.info.Keys) && ev in q.info
      ensures ev != timerList && ev != pendingList
    {
    }

    method PerformAll(ops: seq<Op<RilEvent>>)
      requires Valid() && AllAllowed(q, ops)
      modifies this, watchTable, timerList, q.info.Keys
      ensures Valid() && q == ApplyAll(old(q), ops)
    {
      hide Consistent, ListsMatch, WatchesMatch, Apply, Allowed;
      ghost var q0, keys := q, q.info.Keys;
      for i := 0 to |ops|
        invariant Valid() && q.info.Keys == keys && AllAllowed(q, ops[i..])
        invariant ApplyAll(q, ops[i..]) == ApplyAll(q0, ops)
      {
        assert ops[i..][0] == ops[i] && ops[i..][1..] == ops[i + 1..];
        Perform(ops[i]);
      }
    }

    /**
     firePending. The saved next pointer stays good across each callback because nothing a callback or
     another thread may call touches the pending list; for the same reason the loop ends.
     */
    method FirePending(scripts: seq<seq<Op<RilEvent>>>) returns (fired: seq<RilEvent>)
      requires Valid() && Fireable(q, scripts)
      modifies this, watchTable, timerList, pendingList, q.info.Keys
      ensures Valid() && q == FireAll(old(q), scripts)
      ensures fired == ItemEvs(old(q.pending))
    {
      hide Consistent, ListsMatch, WatchesMatch, ItemEvs, NodeAt, Pop, Fireable, FireAll;
      ghost var q0, keys := q, q.info.Keys;
      var i := 0;
      fired := [];
      assert scripts[0..] == scripts;
      var ev := FirstPending();
      while ev != pendingList
        invariant Valid() && q.info.Keys == keys
        invariant i <= |scripts| && Fireable(q, scripts[i..])
        invariant FireAll(q, scripts[i..]) == FireAll(q0, scripts)
        invariant ev == NodeAt(pendingList, ItemEvs(q.pending), 0)
        invariant fired + ItemEvs(q.pending) == ItemEvs(q0.pending)
        decreases |scripts| - i
      {
        PendingHead();
        FireStep(q, scripts, i);
        var next := TakePending(ev);
        PerformAll(scripts[i]);
        fired := fired + [ev];
        ev := next;
        i := i + 1;
      }
      PendingHead();
      FireStop(q, scripts[i..]);
    }

    method FirstPending() returns (ev: RilEvent)
      requires ListsMatch(timerList, pendingList, q.timers, q.pending, q.info.Keys)
      ensures ev == NodeAt(pendingList, ItemEvs(q.pending), 0)
    {
      assert pendingList == PrevAt(pendingList, ItemEvs(q.pending), 0);
      ev := pendingList.next;
    }

    lemma PendingHead()
      requires ListsMatch(timerList, pendingList, q.timers, q.pending, q.info.Keys)
      ensures NodeAt(pendingList, ItemEvs(q.pending), 0) == if q.pending == [] then pendingList else q.pending[0].ev
      ensures q.pending != [] ==> q.pending[0].ev != pendingList
    {
    }

    /** Notes the pending event that follows, then takes this one off the list. */
    method TakePending(ev: RilEvent) returns (next: RilEvent)
      requires Valid() && q.pending != [] && ev == q.pending[0].ev
      modifies this`q, pendingList`next, pendingList`prev, q.info.Keys`next, q.info.Keys`prev
      ensures Valid() && q == Pop(old(q))
      ensures next == NodeAt(pendingList, ItemEvs(q.pending), 0)
      ensures ItemEvs(old(q.pending)) == [ev] + ItemEvs(q.pending)
    {
      hide TableMatches, FdsMatch, Consistent;
      assert ev == PrevAt(pendingList, ItemEvs(q.pending), 1);
      next := ev.next;
      UnlinkPending(timerList, pendingList, ev, q.timers, q.pending, q.info.Keys);
      q := Pop(q);
    }

    /**
     One turn of ril_event_loop. select returns rfds with count n, or n < 0 when interrupted; inSelect,
     between and scripts are what callbacks and other threads do while the loop is inside select, after
     processTimeouts, and during each callback. The expired timers fire in list order, then the ready
     watches in slot order.
     */
    method LoopPass(calcNow: TimeVal, inSelect: seq<Op<RilEvent>>, rfds: set<int>, n: int, now: TimeVal,
                    between: seq<Op<RilEvent>>, scripts: seq<seq<Op<RilEvent>>>)
      returns (sleep: Option<TimeVal>, fired: seq<RilEvent>)
      requires Valid() && q.pending == [] && Normal(calcNow)
      requires PassAllowed(q, inSelect, rfds, n, now, between, scripts)
      modifies this, watchTable, timerList, pendingList, q.info.Keys
      ensures Valid() && q.pending == []
      ensures n < 0 ==> fired == [] && q == ApplyAll(old(q), inSelect)
      ensures n >= 0 ==> q == FireAll(AtFiring(old(q), inSelect, rfds, n, now, between), scripts)
      ensures n >= 0 ==>
                var atTimeouts := ApplyAll(old(q), inSelect);
                var atReady := ApplyAll(Expire(atTimeouts, Micros(now)), between);
                fired == TimerEvs(atTimeouts.timers[..Leading(atTimeouts.timers, Micros(now))])
                         + ItemEvs(ReadyItems(atReady.slots, rfds, n))
      ensures n >= |rfds| ==>
                var atTimeouts := ApplyAll(old(q), inSelect);
                var atReady := ApplyAll(Expire(atTimeouts, Micros(now)), between);
                FiresReady(fired, Leading(atTimeouts.timers, Micros(now)), atReady.slots, rfds)
      ensures sleep.None? <==> old(q.timers) == []
      ensures sleep.Some? ==> Normal(sleep.value) && SleepsUntil(Micros(sleep.value), Micros(calcNow), old(q.timers))
    {
      hide Consistent, ListsMatch, WatchesMatch, ReadyItems, Leading, Expire, Gather, ItemEvs, TimerEvs;
      hide FiresReady, SleepsUntil;
      var r, tv := CalcNextTimeout(calcNow, TimeVal(0, 0));
      sleep := if r == -1 then None else Some(tv);
      PerformAll(inSelect);
      fired := [];
      if n >= 0 {
        FiringOrder(q, rfds, n, Micros(now), between);
        if n >= |rfds| {
          FiringReady(q, rfds, n, Micros(now), between);
        }
        ProcessTimeouts(now);
        PerformAll(between);
        ProcessReadReadies(rfds, n);
        fired := FirePending(scripts);
      }
    }
  }

  /** The timer stands in front of the first one that is not earlier; the others are as before. */
  ghost predicate QueuedInOrder(before: seq<Timer<RilEvent>>, after: seq<Timer<RilEvent>>, t: Timer<RilEvent>) {
    exists k: nat :: QueuedBefore(before, after, t, k)
  }

  ghost predicate QueuedBefore(before: seq<Timer<RilEvent>>, after: seq<Timer<RilEvent>>, t: Timer<RilEvent>, k: nat) {
    && k <= |before| && after == before[..k] + [t] + before[k..]
    && (forall i | 0 <= i < k :: before[i].deadline < t.deadline)
    && (k < |before| ==> t.deadline <= before[k].deadline)
  }

  lemma QueuedAt(before: seq<Timer<RilEvent>>, t: Timer<RilEvent>, k: nat)
    requires k == Leading(before, t.deadline)
    ensures QueuedInOrder(before, Splice(before, k, t), t)
  {
    assert QueuedBefore(before, Splice(before, k, t), t, k);
  }

  /** micros is the time from now to the least deadline, or 0 if that has passed. */
  ghost predicate SleepsUntil(micros: int, now: int, timers: seq<Timer<RilEvent>>) {
    exists d :: IsMinDeadline(d, timers) && micros == if d > now then d - now else 0
  }

  /** After the first k, fired holds every ready watch once, at its place in slot order, and nothing else. */
  ghost predicate FiresReady(fired: seq<RilEvent>, k: nat, slots: seq<Slot<RilEvent>>, rfds: set<int>) {
    && |fired| == k + Rank(slots, rfds, |slots|)
    && (forall i | 0 <= i < |slots| && IsReady(slots[i], rfds) ::
          k + Rank(slots, rfds, i) < |fired| && fired[k + Rank(slots, rfds, i)] == slots[i].ev)
  }

  lemma FiringReady(q: Queues<RilEvent>, rfds: set<int>, n: int, now: int, between: seq<Op<RilEvent>>)
    requires Consistent(q) && AllAllowed(Expire(q, now), between) && n >= |rfds|
    ensures var atReady := ApplyAll(Expire(q, now), between);
            var k := Leading(q.timers, now);
            FiresReady(TimerEvs(q.timers[..k]) + ItemEvs(ReadyItems(atReady.slots, rfds, n)), k, atReady.slots, rfds)
  {
    hide Consistent, ReadyItems, Leading, Rank, IsReady;
    var atReady := ApplyAll(Expire(q, now), between);
    ConsistentParts(atReady);
    ReadyExact(atReady.slots, rfds, n);
  }

  lemma ItemEvsJoin(a: seq<Item<RilEvent>>, b: seq<Item<RilEvent>>)
    ensures ItemEvs(a + b) == ItemEvs(a) + ItemEvs(b)
  {
  }

  lemma FiringOrder(q: Queues<RilEvent>, rfds: set<int>, n: int, now: int, between: seq<Op<RilEvent>>)
    requires Consistent(q) && q.pending == [] && AllAllowed(Expire(q, now), between)
    ensures forall i | 0 <= i < |Expire(q, now).pending| :: Expire(q, now).pending[i].Expired?
    ensures var atReady := ApplyAll(Expire(q, now), between);
            ItemEvs(Gather(atReady, rfds, n).pending)
            == TimerEvs(q.timers[..Leading(q.timers, now)]) + ItemEvs(ReadyItems(atReady.slots, rfds, n))
  {
    hide Consistent, ReadyItems, AfterReady, Leading;
    var expired := q.timers[..Leading(q.timers, now)];
    var atReady := ApplyAll(Expire(q, now), between);
    assert atReady.pending == Expire(q, now).pending == Items(expired);
    ItemEvsJoin(Items(expired), ReadyItems(atReady.slots, rfds, n));
    assert ItemEvs(Items(expired)) == TimerEvs(expired);
  }

  lemma NotListed(q: Queues<RilEvent>, ev: RilEvent)
    requires !InTimers(q, ev) && !InPending(q, ev) && !Watched(q, ev)
    ensures forall i | 0 <= i < |q.timers| :: q.timers[i].ev != ev
    ensures forall i | 0 <= i < |q.pending| :: q.pending[i].ev != ev
    ensures forall i | 0 <= i < |q.slots| && q.slots[i].Watch? :: q.slots[i].ev != ev
  {
  }

  lemma SpliceMembers<T>(s: seq<T>, k: nat, x: T)
    requires k <= |s|
    ensures forall i | 0 <= i < |Splice(s, k, x)| :: Splice(s, k, x)[i] in s || Splice(s, k, x)[i] == x
  {
    forall i | 0 <= i < |Splice(s, k, x)|
      ensures Splice(s, k, x)[i] in s || Splice(s, k, x)[i] == x
    {
      if i != k {
        assert Splice(s, k, x)[i] == s[if i < k then i else i - 1];
      }
    }
  }

  /** The insertion at the end of ril_timer_add. */
  method LinkTimer(timerList: RilEvent, pendingList: RilEvent, ev: RilEvent, list: RilEvent, ghost k: nat,
                   ghost timers: seq<Timer<RilEvent>>, ghost pending: seq<Item<RilEvent>>, ghost events: set<RilEvent>)
    requires ListsMatch(timerList, pendingList, timers, pending, events) && ev in events
    requires forall i | 0 <= i < |timers| :: timers[i].ev != ev
    requires forall i | 0 <= i < |pending| :: pending[i].ev != ev
    requires k <= |timers| && list == NodeAt(timerList, TimerEvs(timers), k) && Normal(ev.timeout)
    modifies timerList`next, timerList`prev, events`next, events`prev
    ensures ListsMatch(timerList, pendingList, Splice(timers, k, Timer(ev, Micros(ev.timeout))), pending, events)
  {
    hide Ring, Micros, Normal;
    ghost var s := TimerEvs(timers);
    ghost var r := Splice(timers, k, Timer(ev, Micros(ev.timeout)));
    assert TimerEvs(r) == Splice(s, k, ev);
    RingLink(timerList, s, k);
    AddToList(ev, list, timerList, s, k);
    assert Ring(timerList, TimerEvs(r)) && Ring(pendingList, ItemEvs(pending));
    hide TimerEvs, ItemEvs, Splice;
    Linked(timerList, pendingList, ev, k, timers, pending, events);
  }

  /** Once the timer ring holds the new event, the lists match again. */
  lemma Linked(timerList: RilEvent, pendingList: RilEvent, ev: RilEvent, k: nat,
               timers: seq<Timer<RilEvent>>, pending: seq<Item<RilEvent>>, events: set<RilEvent>)
    requires timerList != pendingList && timerList !in events && pendingList !in events && ev in events
    requires k <= |timers| && Normal(ev.timeout)
    requires forall i | 0 <= i < |timers| ::
               && timers[i].ev in events
               && Normal(timers[i].ev.timeout) && Micros(timers[i].ev.timeout) == timers[i].deadline
    requires forall i | 0 <= i < |pending| :: pending[i].ev in events && pending[i].ev != ev
    requires forall i, j | 0 <= i < |timers| && 0 <= j < |pending| :: timers[i].ev != pending[j].ev
    requires Ring(timerList, TimerEvs(Splice(timers, k, Timer(ev, Micros(ev.timeout)))))
    requires Ring(pendingList, ItemEvs(pending))
    ensures ListsMatch(timerList, pendingList, Splice(timers, k, Timer(ev, Micros(ev.timeout))), pending, events)
  {
    hide Ring, Micros, Normal, TimerEvs, ItemEvs;
    var r := Splice(timers, k, Timer(ev, Micros(ev.timeout)));
    SpliceMembers(timers, k, Timer(ev, Micros(ev.timeout)));
    hide Splice;
    forall i | 0 <= i < |r|
      ensures r[i].ev in events && Normal(r[i].ev.timeout) && Micros(r[i].ev.timeout) == r[i].deadline
      ensures forall j | 0 <= j < |pending| :: r[i].ev != pending[j].ev
    {
      assert r[i] in timers || r[i] == Timer(ev, Micros(ev.timeout));
    }
  }

  /** One turn of the loop in processTimeouts. */
  method MoveToPending(timerList: RilEvent, pendingList: RilEvent, tev: RilEvent,
                       ghost timers: seq<Timer<RilEvent>>, ghost pending: seq<Item<RilEvent>>,
                       ghost events: set<RilEvent>)
    requires ListsMatch(timerList, pendingList, timers, pending, events)
    requires timers != [] && tev == timers[0].ev
    modifies timerList`next, timerList`prev, pendingList`next, pendingList`prev, events`next, events`prev
    ensures ListsMatch(timerList, pendingList, timers[1..],
                       pending + [Expired(tev, timers[0].deadline)], events)
  {
    hide Ring;
    ghost var s, p := TimerEvs(timers), ItemEvs(pending);
    RingLink(timerList, s, 0);
    RingLink(timerList, s, 1);
    RemoveFromList(tev, timerList, s, 0);
    assert TimerEvs(timers[1..]) == Without(s, 0);
    RingLink(pendingList, p, |p|);
    AddToList(tev, pendingList, pendingList, p, |p|);
    assert ItemEvs(pending + [Expired(tev, timers[0].deadline)]) == Splice(p, |p|, tev);
  }

  /** A ready watch goes to the end of the pending list. */
  method AppendReady(timerList: RilEvent, pendingList: RilEvent, rev: RilEvent,
                     ghost timers: seq<Timer<RilEvent>>, ghost pending: seq<Item<RilEvent>>,
                     ghost events: set<RilEvent>)
    requires ListsMatch(timerList, pendingList, timers, pending, events) && rev in events
    requires forall i | 0 <= i < |timers| :: timers[i].ev != rev
    requires forall i | 0 <= i < |pending| :: pending[i].ev != rev
    modifies pendingList`next, pendingList`prev, events`next, events`prev
    ensures ListsMatch(timerList, pendingList, timers, pending + [Readied(rev)], events)
  {
    hide Ring;
    ghost var p := ItemEvs(pending);
    RingLink(pendingList, p, |p|);
    AddToList(rev, pendingList, pendingList, p, |p|);
    assert ItemEvs(pending + [Readied(rev)]) == Splice(p, |p|, rev);
  }

  /** The head of the pending list leaves it. */
  method UnlinkPending(timerList: RilEvent, pendingList: RilEvent, ev: RilEvent,
                       ghost timers: seq<Timer<RilEvent>>, ghost pending: seq<Item<RilEvent>>,
                       ghost events: set<RilEvent>)
    requires ListsMatch(timerList, pendingList, timers, pending, events)
    requires pending != [] && ev == pending[0].ev
    modifies pendingList`next, pendingList`prev, events`next, events`prev
    ensures ListsMatch(timerList, pendingList, timers, pending[1..], events)
  {
    hide Ring;
    ghost var p := ItemEvs(pending);
    RingLink(pendingList, p, 0);
    RingLink(pendingList, p, 1);
    RemoveFromList(ev, pendingList, p, 0);
    assert ItemEvs(pending[1..]) == Without(p, 0);
  }

  /** The slot becomes free, and the event remembers no slot. */
  method RemoveFromTable(table: array<RilEvent?>, ev: RilEvent, index: int,
                         ghost slots: seq<Slot<RilEvent>>, ghost info: map<RilEvent, Attr>)
    requires TableMatches(table, slots, info)
    requires 0 <= index < |slots| && slots[index].Watch? && slots[index].ev == ev
    modifies table, ev`index
    ensures TableMatches(table, slots[index := Empty], info)
    ensures table[..] == old(table[..])[index := null] && ev.index == -1
  {
    table[index] := null;
    ev.index := -1;
  }

  /** The slot holds the event, and the event remembers the slot. */
  method PutInTable(table: array<RilEvent?>, ev: RilEvent, index: int,
                    ghost slots: seq<Slot<RilEvent>>, ghost info: map<RilEvent, Attr>)
    requires TableMatches(table, slots, info)
    requires 0 <= index < |slots| && slots[index].Empty? && ev in info
    requires forall i | 0 <= i < |slots| && slots[i].Watch? :: slots[i].ev != ev
    modifies table, ev`index
    ensures TableMatches(table, slots[index := Watch(ev, ev.fd, ev.persist)], info)
    ensures table[..] == old(table[..])[index := ev] && ev.index == index
  {
    table[index] := ev;
    ev.index := index;
  }

  /** The scan in removeWatch: it starts from 0, so an empty table yields 0. */
  method LargestFd(table: array<RilEvent?>, ghost slots: seq<Slot<RilEvent>>, ghost info: map<RilEvent, Attr>)
    returns (n: int)
    requires TableMatches(table, slots, info)
    requires forall i | 0 <= i < |slots| && slots[i].Watch? :: slots[i].fd == info[slots[i].ev].fd >= 0
    ensures NfdsExact(n + 1, WatchedFds(slots)) && (WatchedFds(slots) == {} ==> n == 0)
  {
    n := 0;
    for i := 0 to MAX_FD_EVENTS
      invariant n >= 0
      invariant forall j | 0 <= j < i && slots[j].Watch? :: slots[j].fd <= n
      invariant n == 0 || n in WatchedFds(slots)
    {
      var rev := table[i];
      if rev != null && rev.fd > n {
        n := rev.fd;
      }
    }
  }

  /** Dropping a watch frees exactly its descriptor, and only the largest one can change nfds. */
  lemma ReleasedFd(slots: seq<Slot<RilEvent>>, k: nat)
    requires k < |slots| && slots[k].Watch? && DistinctFds(slots)
    ensures slots[k].fd in WatchedFds(slots)
    ensures WatchedFds(slots[k := Empty]) == WatchedFds(slots) - {slots[k].fd}
  {
    var r := slots[k := Empty];
    forall fd | fd in WatchedFds(slots) && fd != slots[k].fd
      ensures fd in WatchedFds(r)
    {
      var i :| 0 <= i < |slots| && slots[i].Watch? && slots[i].fd == fd;
      assert r[i].Watch?;
    }
  }

  lemma TakenFd(slots: seq<Slot<RilEvent>>, k: nat, w: Slot<RilEvent>)
    requires k < |slots| && slots[k].Empty? && w.Watch?
    ensures WatchedFds(slots[k := w]) == WatchedFds(slots) + {w.fd}
  {
    var r := slots[k := w];
    assert r[k].fd == w.fd;
    forall fd | fd in WatchedFds(slots)
      ensures fd in WatchedFds(r)
    {
      var i :| 0 <= i < |slots| && slots[i].Watch? && slots[i].fd == fd;
      assert r[i].Watch?;
    }
  }

  lemma NfdsGrows(nfds: int, fds: set<int>, fd: int)
    requires NfdsExact(nfds, fds) && fd >= 0
    ensures NfdsExact(if fd >= nfds then fd + 1 else nfds, fds + {fd})
  {
  }

  /** Why removeWatch may skip the scan unless it drops the largest descriptor. */
  lemma NfdsStays(nfds: int, fds: set<int>, fd: int)
    requires NfdsExact(nfds, fds) && fd in fds
    ensures fd + 1 != nfds ==> NfdsExact(nfds, fds - {fd})
  {
    if fd + 1 != nfds {
      assert nfds - 1 in fds - {fd};
    }
  }
}
