/** The state of Looper.cpp as values: the message queue, the fd requests and the kernel's interest set. */
module LooperSpec {
  import opened Sequences
  import opened Wrappers

  const LLONG_MAX := 0x7fff_ffff_ffff_ffff
  const NANOS_PER_MILLI := 1_000_000

  const POLL_WAKE := -1
  const POLL_CALLBACK := -2
  const POLL_TIMEOUT := -3
  const POLL_ERROR := -4

  /** arrival numbers the messages in the order in which they were sent. */
  datatype Envelope = Envelope(uptime: int, handler: nat, what: int, arrival: nat)
  datatype Request = Request(fd: int, ident: int, callback: Option<nat>, data: int)
  datatype Response = Response(events: int, request: Request)

  datatype State = State(envelopes: seq<Envelope>, sends: nat, sending: bool, wakeBytes: nat,
                         requests: map<int, Request>, interest: map<int, int>)

  // ---------- the message queue ----------

  /** By due time, and by arrival among equals. */
  ghost predicate Ordered(q: seq<Envelope>) {
    forall i, j | 0 <= i < j < |q| ::
      q[i].uptime < q[j].uptime || (q[i].uptime == q[j].uptime && q[i].arrival < q[j].arrival)
  }

  ghost predicate ArrivedBefore(q: seq<Envelope>, n: nat) {
    forall i | 0 <= i < |q| :: q[i].arrival < n
  }

  /** Where sendMessageAtTime puts a message: behind everything that is not later. */
  ghost function SendPos(q: seq<Envelope>, uptime: int): (k: nat)
    ensures k <= |q|
    ensures forall i | 0 <= i < k :: q[i].uptime <= uptime
    ensures k < |q| ==> uptime < q[k].uptime
  {
    if q == [] || uptime < q[0].uptime then 0 else 1 + SendPos(q[1..], uptime)
  }

  lemma SendPosIs(q: seq<Envelope>, uptime: int, k: nat)
    requires k <= |q|
    requires forall i | 0 <= i < k :: q[i].uptime <= uptime
    requires k < |q| ==> uptime < q[k].uptime
    ensures k == SendPos(q, uptime)
  {
  }

  ghost function Insert(q: seq<Envelope>, e: Envelope): seq<Envelope> {
    Splice(q, SendPos(q, e.uptime), e)
  }

  lemma InsertOrdered(q: seq<Envelope>, e: Envelope)
    requires Ordered(q) && ArrivedBefore(q, e.arrival)
    ensures Ordered(Insert(q, e)) && ArrivedBefore(Insert(q, e), e.arrival + 1)
  {
    var k, r := SendPos(q, e.uptime), Insert(q, e);
    forall i, j | 0 <= i < j < |r|
      ensures r[i].uptime < r[j].uptime || (r[i].uptime == r[j].uptime && r[i].arrival < r[j].arrival)
    {
      assert i != k ==> r[i] == q[if i < k then i else i - 1];
      assert j != k ==> r[j] == q[if j < k then j else j - 1];
      assert i == k ==> q[k].uptime <= q[j - 1].uptime;
    }
    assert forall i | 0 <= i < |r| && i != k :: r[i] == q[if i < k then i else i - 1];
  }

  predicate Matches(e: Envelope, handler: nat, what: Option<int>) {
    e.handler == handler && (what.Some? ==> e.what == what.value)
  }

  /** removeMessages: the messages of a handler, or only those of one type, leave; the rest keep their order. */
  ghost function Remove(q: seq<Envelope>, handler: nat, what: Option<int>): (r: seq<Envelope>)
    ensures forall i | 0 <= i < |r| :: r[i] in q && !Matches(r[i], handler, what)
    ensures |r| <= |q|
  {
    if q == [] then []
    else if Matches(q[|q| - 1], handler, what) then Remove(q[..|q| - 1], handler, what)
    else Remove(q[..|q| - 1], handler, what) + [q[|q| - 1]]
  }

  lemma NoneRemoved(q: seq<Envelope>, handler: nat, what: Option<int>)
    ensures Remove(q[..0], handler, what) == []
  {
  }

  /** One step of the scan from the back. */
  lemma RemoveStep(q: seq<Envelope>, handler: nat, what: Option<int>, i: nat)
    requires i < |q|
    ensures Remove(q[..i + 1], handler, what)
         == Remove(q[..i], handler, what) + if Matches(q[i], handler, what) then [] else [q[i]]
  {
    assert q[..i + 1][..i] == q[..i];
  }

  /** Exactly the messages that the caller named are gone. */
  lemma {:induction false} RemoveCounts(q: seq<Envelope>, handler: nat, what: Option<int>, e: Envelope)
    ensures multiset(Remove(q, handler, what))[e]
         == if e.handler == handler && (what.None? || e.what == what.value) then 0 else multiset(q)[e]
    decreases q
  {
    if q != [] {
      RemoveCounts(q[..|q| - 1], handler, what, e);
      assert q == q[..|q| - 1] + [q[|q| - 1]];
    }
  }

  /** The messages of the handler (of one type, if only names one) are gone, and each other is there as often. */
  ghost predicate OnlyGone(before: seq<Envelope>, after: seq<Envelope>, handler: nat, only: Option<int>) {
    forall e :: multiset(after)[e] ==
      if e.handler == handler && (only.None? || e.what == only.value) then 0 else multiset(before)[e]
  }

  lemma RemoveOnly(q: seq<Envelope>, handler: nat, what: Option<int>)
    ensures OnlyGone(q, Remove(q, handler, what), handler, what) && Subsequence(Remove(q, handler, what), q)
  {
    hide Remove;
    forall e
      ensures multiset(Remove(q, handler, what))[e] ==
                if e.handler == handler && (what.None? || e.what == what.value) then 0 else multiset(q)[e]
    {
      RemoveCounts(q, handler, what, e);
    }
    var at := RemoveTakes(q, handler, what);
  }

  lemma {:induction false} RemoveTakes(q: seq<Envelope>, handler: nat, what: Option<int>) returns (at: seq<nat>)
    ensures TakenFrom(Remove(q, handler, what), q, at)
    decreases q
  {
    at := [];
    if q != [] {
      at := RemoveTakes(q[..|q| - 1], handler, what);
      if !Matches(q[|q| - 1], handler, what) {
        at := at + [|q| - 1];
      }
    }
  }

  ghost function Removed(q: seq<Envelope>, handler: nat, what: Option<int>): seq<Envelope> {
    if q == [] then []
    else if Matches(q[|q| - 1], handler, what) then Removed(q[..|q| - 1], handler, what) + [q[|q| - 1]]
    else Removed(q[..|q| - 1], handler, what)
  }

  /** Nothing but the matching messages is lost, and the rest stay in order. */
  lemma {:induction false} RemoveSplits(q: seq<Envelope>, handler: nat, what: Option<int>)
    ensures multiset(Remove(q, handler, what)) + multiset(Removed(q, handler, what)) == multiset(q)
    ensures forall e | e in Removed(q, handler, what) :: e in q && Matches(e, handler, what)
    decreases q
  {
    if q != [] {
      RemoveSplits(q[..|q| - 1], handler, what);
      assert q == q[..|q| - 1] + [q[|q| - 1]];
    }
  }

  lemma {:induction false} RemoveOrdered(q: seq<Envelope>, handler: nat, what: Option<int>)
    requires Ordered(q)
    ensures Ordered(Remove(q, handler, what))
    ensures forall n: nat | ArrivedBefore(q, n) :: ArrivedBefore(Remove(q, handler, what), n)
    decreases q
  {
    if q != [] {
      var front, last := q[..|q| - 1], q[|q| - 1];
      var r := Remove(front, handler, what);
      assert Ordered(r) && forall n: nat | ArrivedBefore(q, n) :: ArrivedBefore(r, n) by {
        RemoveOrdered(front, handler, what);
      }
      forall i | 0 <= i < |r|
        ensures r[i].uptime < last.uptime || (r[i].uptime == last.uptime && r[i].arrival < last.arrival)
      {
        var j :| 0 <= j < |front| && front[j] == r[i];
        assert q[j] == r[i];
      }
    }
  }

  /** Removing can only push the head further into the future. */
  lemma HeadAfterRemove(q: seq<Envelope>, handler: nat, what: Option<int>)
    requires Ordered(q)
    ensures Remove(q, handler, what) != [] ==> q != [] && q[0].uptime <= Remove(q, handler, what)[0].uptime
  {
    var r := Remove(q, handler, what);
    if r != [] {
      var j :| 0 <= j < |q| && q[j] == r[0];
    }
  }

  // ---------- time-outs ----------

  /**
   toMillisecondTimeoutDelay is not part of this model; what it has to guarantee is that the delay covers
   the interval and exceeds it by less than a millisecond.
   */
  predicate CoversDelay(delay: int, now: int, due: int) {
    if due <= now then delay == 0
    else due - now <= delay * NANOS_PER_MILLI < due - now + NANOS_PER_MILLI
  }

  /** The time-out pollInner passes to epoll_wait. */
  function EffectiveTimeout(timeoutMillis: int, nextUptime: int, delay: int): (r: int)
    ensures timeoutMillis == 0 || nextUptime == LLONG_MAX || delay < 0 ==> r == timeoutMillis
    ensures timeoutMillis != 0 && nextUptime != LLONG_MAX && delay >= 0 ==>
              && (r == delay || r == timeoutMillis) && 0 <= r <= delay && (timeoutMillis > 0 ==> r <= timeoutMillis)
  {
    if timeoutMillis != 0 && nextUptime != LLONG_MAX && delay >= 0 && (timeoutMillis < 0 || delay < timeoutMillis)
    then delay else timeoutMillis
  }

  // ---------- the calls ----------

  /** A message at the head wakes the poll, unless the looper is busy delivering and will look again. */
  ghost function Send(s: State, uptime: int, handler: nat, what: int): State {
    s.(envelopes := Insert(s.envelopes, Envelope(uptime, handler, what, s.sends)),
       sends := s.sends + 1,
       wakeBytes := if !s.sending && SendPos(s.envelopes, uptime) == 0 then s.wakeBytes + 1 else s.wakeBytes)
  }

  /** What epoll_ctl accepts: an add of a new descriptor, a change or removal of a known one. */
  datatype Ctl = CtlAdd | CtlMod | CtlDel

  ghost predicate CtlPossible(interest: map<int, int>, ctl: Ctl, fd: int) {
    if ctl.CtlAdd? then fd !in interest else fd in interest
  }

  const EVENT_INPUT := 1
  const EVENT_OUTPUT := 2
  const EPOLLIN := 1
  const EPOLLOUT := 4

  /** Is this one-bit flag set in x? */
  predicate Has(x: int, flag: int)
    requires flag > 0
  {
    x / flag % 2 == 1
  }

  /** Input and output are passed on to epoll; other flags a caller may set are not. */
  function EpollEvents(events: int): (r: int)
    ensures Has(r, EPOLLIN) <==> Has(events, EVENT_INPUT)
    ensures Has(r, EPOLLOUT) <==> Has(events, EVENT_OUTPUT)
    ensures 0 <= r <= EPOLLIN + EPOLLOUT && r != 2 && r != 3
  {
    (if Has(events, EVENT_INPUT) then EPOLLIN else 0) + (if Has(events, EVENT_OUTPUT) then EPOLLOUT else 0)
  }

  /** granted: the kernel's decision, whenever the call is possible at all. */
  ghost function AddFd(s: State, allowNonCallbacks: bool, r: Request, events: int, granted: bool): (State, int) {
    if r.callback.None? && (!allowNonCallbacks || r.ident < 0) then (s, -1)
    else
      var request := if r.callback.Some? then r.(ident := POLL_CALLBACK) else r;
      var ctl := if r.fd in s.requests then CtlMod else CtlAdd;
      if granted && CtlPossible(s.interest, ctl, r.fd)
      then (s.(requests := s.requests[r.fd := request], interest := s.interest[r.fd := EpollEvents(events)]), 1)
      else (s, -1)
  }

  ghost function RemoveFd(s: State, fd: int, granted: bool): (State, int) {
    if fd !in s.requests then (s, 0)
    else if granted && CtlPossible(s.interest, CtlDel, fd)
    then (s.(requests := s.requests - {fd}, interest := s.interest - {fd}), 1)
    else (s, -1)
  }

  /** What a handler, a callback or another thread may do while the lock is free. */
  datatype Call =
    | SendCall(uptime: int, handler: nat, what: int)
    | RemoveCall(handler: nat, only: Option<int>)
    | AddFdCall(request: Request, events: int, granted: bool)
    | RemoveFdCall(fd: int, granted: bool)

  ghost function Perform(s: State, allowNonCallbacks: bool, c: Call): (r: State)
    ensures c.AddFdCall? ==> r == AddFd(s, allowNonCallbacks, c.request, c.events, c.granted).0
    ensures c.RemoveFdCall? ==> r == RemoveFd(s, c.fd, c.granted).0
  {
    match c
    case SendCall(uptime, handler, what) => Send(s, uptime, handler, what)
    case RemoveCall(handler, only) => s.(envelopes := Remove(s.envelopes, handler, only))
    case AddFdCall(request, events, granted) => AddFd(s, allowNonCallbacks, request, events, granted).0
    case RemoveFdCall(fd, granted) => RemoveFd(s, fd, granted).0
  }

  ghost function PerformAll(s: State, allowNonCallbacks: bool, calls: seq<Call>): State
    decreases calls
  {
    if calls == [] then s else PerformAll(Perform(s, allowNonCallbacks, calls[0]), allowNonCallbacks, calls[1..])
  }

  // ---------- invariants ----------

  /** A request has a callback and POLL_CALLBACK, or no callback and an identifier to return. */
  predicate WellTagged(r: Request) {
    if r.callback.Some? then r.ident == POLL_CALLBACK else r.ident >= 0
  }

  ghost predicate RequestsOk(requests: map<int, Request>) {
    forall fd | fd in requests :: WellTagged(requests[fd]) && requests[fd].fd == fd
  }

  /** The kernel watches the wake pipe and exactly the requested descriptors. */
  ghost predicate InterestMirrors(s: State, wakeFd: int) {
    wakeFd !in s.requests && s.interest.Keys == {wakeFd} + s.requests.Keys
  }

  ghost predicate Inv(s: State, wakeFd: int) {
    Ordered(s.envelopes) && ArrivedBefore(s.envelopes, s.sends) && RequestsOk(s.requests) && InterestMirrors(s, wakeFd)
  }

  lemma PerformKeeps(s: State, allowNonCallbacks: bool, wakeFd: int, c: Call)
    requires Inv(s, wakeFd)
    ensures Inv(Perform(s, allowNonCallbacks, c), wakeFd)
  {
    hide Ordered, ArrivedBefore;
    match c
    case SendCall(uptime, handler, what) => InsertOrdered(s.envelopes, Envelope(uptime, handler, what, s.sends));
    case RemoveCall(handler, only) => RemoveOrdered(s.envelopes, handler, only);
    case AddFdCall(request, events, granted) =>
    case RemoveFdCall(fd, granted) =>
  }

  /** Whatever epoll_ctl answers, addFd changes both sides or neither. */
  lemma AddFdBothOrNeither(s: State, allowNonCallbacks: bool, wakeFd: int, r: Request, events: int, granted: bool)
    requires InterestMirrors(s, wakeFd)
    ensures var (s', result) := AddFd(s, allowNonCallbacks, r, events, granted);
            && InterestMirrors(s', wakeFd)
            && (result == 1 <==> granted && r.fd != wakeFd && (r.callback.Some? || (allowNonCallbacks && r.ident >= 0)))
            && (result != 1 ==> s' == s && result == -1)
            && (result == 1 ==>
                  && s'.requests == s.requests[r.fd := r.(ident := if r.callback.Some? then POLL_CALLBACK else r.ident)]
                  && s'.envelopes == s.envelopes && s'.wakeBytes == s.wakeBytes)
            && (result == 1 ==> r.fd in s'.requests && r.fd in s'.interest && s'.interest[r.fd] == EpollEvents(events)
                                && WellTagged(s'.requests[r.fd]))
  {
  }

  lemma RemoveFdBothOrNeither(s: State, wakeFd: int, fd: int, granted: bool)
    requires InterestMirrors(s, wakeFd)
    ensures var (s', result) := RemoveFd(s, fd, granted);
            && InterestMirrors(s', wakeFd)
            && (result == 1 <==> granted && fd in s.requests)
            && (result == 0 <==> fd !in s.requests)
            && (result != 1 ==> s' == s)
            && (result == 1 ==> s'.requests == s.requests - {fd} && s'.interest == s.interest - {fd})
  {
  }
}
