/**
 Looper.cpp as a class: its fields and its loops. Snapshot is the part other threads share; the responses
 belong to the polling thread. calledBack and returned record, by position in the order of gathering,
 which responses were consumed by a callback and which by a return of pollOnce.
 */
module Loopers {
  import opened Sequences
  import opened Wrappers
  import opened LooperSpec

  const EVENT_ERROR := 4
  const EVENT_HANGUP := 8

  /** The bits of an epoll event that pollInner looks at. */
  datatype Bits = Bits(input: bool, output: bool, error: bool, hangup: bool)

  /** EVENT_INPUT, EVENT_OUTPUT, EVENT_ERROR and EVENT_HANGUP. */
  function EventMask(b: Bits): (r: int)
    ensures Has(r, EVENT_INPUT) == b.input && Has(r, EVENT_OUTPUT) == b.output
    ensures Has(r, EVENT_ERROR) == b.error && Has(r, EVENT_HANGUP) == b.hangup
    ensures 0 <= r < 16
  {
    (if b.input then 1 else 0) + (if b.output then 2 else 0) + (if b.error then 4 else 0) + (if b.hangup then 8 else 0)
  }

  /** How epoll_wait ended. */
  datatype Poll = Failed | Interrupted | TimedOut | Events(events: seq<(int, Bits)>)

  /** One turn of the message loop: the clock it read, and what was called while the handler ran. */
  datatype Turn = Turn(now: int, calls: seq<Call>)

  /** A response callback: its result, and what was called while it ran. */
  datatype Callback = Callback(result: int, calls: seq<Call>, granted: bool)

  // ---------- the message loop ----------

  ghost function TakeHead(s: State): State
    requires s.envelopes != []
  {
    s.(envelopes := s.envelopes[1..], sending := true)
  }

  ghost predicate Due(q: seq<Envelope>, now: int) {
    q != [] && q[0].uptime <= now
  }

  /** turns and the last clock reading describe a complete run of the message loop. */
  ghost predicate Turns(s: State, allow: bool, turns: seq<Turn>, lastNow: int)
    decreases turns
  {
    if turns == [] then !Due(s.envelopes, lastNow)
    else Due(s.envelopes, turns[0].now) && Turns(AfterTurn(s, allow, turns[0]), allow, turns[1..], lastNow)
  }

  ghost function AfterTurn(s: State, allow: bool, turn: Turn): State
    requires s.envelopes != []
  {
    PerformAll(TakeHead(s), allow, turn.calls).(sending := false)
  }

  ghost function AfterTurns(s: State, allow: bool, turns: seq<Turn>, lastNow: int): State
    requires Turns(s, allow, turns, lastNow)
    decreases turns
  {
    if turns == [] then s else AfterTurns(AfterTurn(s, allow, turns[0]), allow, turns[1..], lastNow)
  }

  ghost function NextUptime(q: seq<Envelope>): int {
    if q == [] then LLONG_MAX else q[0].uptime
  }

  lemma TakeHeadInv(s: State, wakeFd: int)
    requires Inv(s, wakeFd) && s.envelopes != []
    ensures Inv(TakeHead(s), wakeFd)
  {
  }

  lemma SendingInv(s: State, wakeFd: int)
    requires Inv(s, wakeFd)
    ensures Inv(s.(sending := false), wakeFd)
  {
  }

  lemma RemoveFdInv(s: State, wakeFd: int, fd: int, granted: bool)
    requires Inv(s, wakeFd)
    ensures Inv(LooperSpec.RemoveFd(s, fd, granted).0, wakeFd)
  {
  }

  // ---------- responses ----------

  /** One response for each event on a requested descriptor, in the order reported. */
  ghost function Gathered(requests: map<int, Request>, wakeFd: int, events: seq<(int, Bits)>): (r: seq<Response>)
    requires RequestsOk(requests)
    ensures |r| <= |events| && forall i | 0 <= i < |r| :: WellTagged(r[i].request)
    decreases events
  {
    if events == [] then []
    else
      var (fd, bits) := events[|events| - 1];
      var rest := Gathered(requests, wakeFd, events[..|events| - 1]);
      if fd != wakeFd && fd in requests then rest + [Response(EventMask(bits), requests[fd])] else rest
  }

  /** The bits reported for an event, as flags. */
  ghost predicate Reports(flags: int, bits: Bits) {
    && Has(flags, EVENT_INPUT) == bits.input && Has(flags, EVENT_OUTPUT) == bits.output
    && Has(flags, EVENT_ERROR) == bits.error && Has(flags, EVENT_HANGUP) == bits.hangup
  }

  ghost predicate ResponseFor(r: Response, requests: map<int, Request>, event: (int, Bits)) {
    event.0 in requests && r.request == requests[event.0] && Reports(r.events, event.1)
  }

  /** Response i is for event at[i]; the events that have one are those on a requested descriptor. */
  ghost predicate GatheredFrom(rs: seq<Response>, requests: map<int, Request>, wakeFd: int, events: seq<(int, Bits)>,
                               at: seq<nat>) {
    && |at| == |rs| && (forall i, j | 0 <= i < j < |at| :: at[i] < at[j])
    && (forall i | 0 <= i < |at| :: at[i] < |events| && ResponseFor(rs[i], requests, events[at[i]]))
    && (forall j: nat | j < |events| :: j in at <==> events[j].0 != wakeFd && events[j].0 in requests)
  }

  lemma GatheredOne(rs: seq<Response>, requests: map<int, Request>, wakeFd: int, events: seq<(int, Bits)>, at: seq<nat>,
                    n: nat)
    requires n == |events| - 1 && GatheredFrom(rs, requests, wakeFd, events[..n], at)
    ensures var (fd, bits) := events[n];
            if fd != wakeFd && fd in requests then
              GatheredFrom(rs + [Response(EventMask(bits), requests[fd])], requests, wakeFd, events, at + [n])
            else
              GatheredFrom(rs, requests, wakeFd, events, at)
  {
    assert forall j: nat | j < n :: events[..n][j] == events[j];
    assert Reports(EventMask(events[n].1), events[n].1);
    hide Reports, EventMask;
    assert n !in at;
    if events[n].0 != wakeFd && events[n].0 in requests {
      var r, at' := rs + [Response(EventMask(events[n].1), requests[events[n].0])], at + [n];
      assert forall i | 0 <= i < |at'| :: at'[i] < |events| && ResponseFor(r[i], requests, events[at'[i]]);
      hide ResponseFor;
      assert forall j: nat | j < |events| :: j in at' <==> j in at || j == n;
    }
  }

  lemma {:induction false} GatheredWhere(requests: map<int, Request>, wakeFd: int, events: seq<(int, Bits)>)
    returns (at: seq<nat>)
    requires RequestsOk(requests)
    ensures GatheredFrom(Gathered(requests, wakeFd, events), requests, wakeFd, events, at)
    decreases events
  {
    at := [];
    if events != [] {
      var n := |events| - 1;
      at := GatheredWhere(requests, wakeFd, events[..n]);
      GatheredOne(Gathered(requests, wakeFd, events[..n]), requests, wakeFd, events, at, n);
      hide GatheredFrom, RequestsOk;
      if events[n].0 != wakeFd && events[n].0 in requests {
        at := at + [n];
      }
    }
  }

  /** e stands at place k, behind everything that is not later; the others are as before. */
  ghost predicate SentAt(before: seq<Envelope>, after: seq<Envelope>, e: Envelope, k: nat) {
    && k <= |before| && after == before[..k] + [e] + before[k..]
    && (forall i | 0 <= i < k :: before[i].uptime <= e.uptime)
    && (k < |before| ==> e.uptime < before[k].uptime)
  }

  ghost predicate SentInto(before: seq<Envelope>, after: seq<Envelope>, e: Envelope) {
    exists k: nat :: SentAt(before, after, e, k)
  }

  /** A callback that returns 0 has its descriptor removed. */
  ghost function AfterCallback(s: State, allow: bool, r: Response, c: Callback): State {
    if r.request.ident != POLL_CALLBACK then s
    else
      var t := PerformAll(s, allow, c.calls);
      if c.result == 0 then LooperSpec.RemoveFd(t, r.request.fd, c.granted).0 else t
  }

  ghost function AfterCallbacks(s: State, allow: bool, rs: seq<Response>, cs: seq<Callback>): State
    requires |rs| == |cs|
    decreases rs
  {
    if rs == [] then s
    else AfterCallback(AfterCallbacks(s, allow, rs[..|rs| - 1], cs[..|cs| - 1]), allow, rs[|rs| - 1], cs[|cs| - 1])
  }

  lemma NoCallback(s: State, allow: bool, r: Response, c: Callback)
    ensures r.request.ident != POLL_CALLBACK ==> AfterCallback(s, allow, r, c) == s
  {
  }

  predicate HasCallback(rs: seq<Response>) {
    exists i :: 0 <= i < |rs| && rs[i].request.ident == POLL_CALLBACK
  }

  /** No called response holds on to its callback. */
  ghost predicate LetGo(rs: seq<Response>) {
    forall i | 0 <= i < |rs| && rs[i].request.ident == POLL_CALLBACK :: rs[i].request.callback.None?
  }

  lemma CallbackThere(rs: seq<Response>)
    ensures HasCallback(rs) <==> exists i :: 0 <= i < |rs| && rs[i].request.ident == POLL_CALLBACK
  {
  }

  predicate Tagged(rs: seq<Response>) {
    forall i | 0 <= i < |rs| :: rs[i].request.ident == POLL_CALLBACK || rs[i].request.ident >= 0
  }

  class Looper {
    const allowNonCallbacks: bool
    const wakeFd: int
    var envelopes: seq<Envelope>
    var sends: nat
    var sendingMessage: bool
    var wakeBytes: nat
    var requests: map<int, Request>
    var interest: map<int, int>
    var nextMessageUptime: int
    var responses: seq<Response>
    var responseIndex: nat
    ghost var cleared: nat
    ghost var calledBack: multiset<nat>
    ghost var returned: multiset<nat>
    ghost var polls: nat

    ghost function Snapshot(): State
      reads this
    {
      State(envelopes, sends, sendingMessage, wakeBytes, requests, interest)
    }

    ghost predicate Valid()
      reads this
    {
      && Inv(Snapshot(), wakeFd) && !sendingMessage
      && responseIndex <= |responses|
      && Tagged(responses)
      && Accounted(|responses|, responseIndex)
    }

    /**
     Every cleared response was consumed once; of the current ones, the callbacks before position called
     have been called, and the others before position taken have been returned.
     */
    ghost predicate Accounted(called: nat, taken: nat)
      requires called <= |responses| && taken <= |responses|
      reads this`responses, this`cleared, this`calledBack, this`returned
    {
      && (forall k: nat | k < cleared :: calledBack[k] + returned[k] == 1)
      && (forall k: nat | cleared <= k < cleared + |responses| ::
            if responses[k - cleared].request.ident == POLL_CALLBACK
            then returned[k] == 0 && calledBack[k] == if k - cleared < called then 1 else 0
            else calledBack[k] == 0 && returned[k] == if k - cleared < taken then 1 else 0)
      && (forall k: nat | cleared + |responses| <= k :: calledBack[k] + returned[k] == 0)
    }

    constructor (allowNonCallbacks: bool, wakeFd: int)
      ensures Valid() && this.allowNonCallbacks == allowNonCallbacks && this.wakeFd == wakeFd
      ensures Snapshot() == State([], 0, false, 0, map[], map[wakeFd := EPOLLIN]) && nextMessageUptime == LLONG_MAX
    {
      this.allowNonCallbacks, this.wakeFd := allowNonCallbacks, wakeFd;
      envelopes, sends, sendingMessage, wakeBytes := [], 0, false, 0;
      requests, interest := map[], map[wakeFd := EPOLLIN];
      nextMessageUptime, responses, responseIndex := LLONG_MAX, [], 0;
      cleared, calledBack, returned, polls := 0, multiset{}, multiset{}, 0;
    }

    method Wake()
      modifies this`wakeBytes
      ensures wakeBytes == old(wakeBytes) + 1
    {
      wakeBytes := wakeBytes + 1;
    }

    /** awoken: reads sixteen bytes at a time until a read comes back short. */
    method Awoken()
      modifies this`wakeBytes
      ensures wakeBytes == 0
    {
      var nRead := 16;
      while nRead == 16
        invariant 0 <= nRead <= 16 && (nRead < 16 ==> wakeBytes == 0)
        decreases wakeBytes + nRead
      {
        nRead := if wakeBytes < 16 then wakeBytes else 16;
        wakeBytes := wakeBytes - nRead;
      }
    }

    method SendMessageAtTime(uptime: int, handler: nat, what: int)
      modifies this`envelopes, this`sends, this`wakeBytes
      ensures Snapshot() == Send(old(Snapshot()), uptime, handler, what)
      ensures sends == old(sends) + 1
      ensures SentInto(old(envelopes), envelopes, Envelope(uptime, handler, what, old(sends)))
      ensures wakeBytes == old(wakeBytes) +
                if !sendingMessage && (old(envelopes) == [] || uptime < old(envelopes)[0].uptime) then 1 else 0
    {
      var i := 0;
      while i < |envelopes| && uptime >= envelopes[i].uptime
        invariant i <= |envelopes|
        invariant forall j | 0 <= j < i :: envelopes[j].uptime <= uptime
      {
        i := i + 1;
      }
      SendPosIs(envelopes, uptime, i);
      ghost var q := envelopes;
      envelopes := envelopes[..i] + [Envelope(uptime, handler, what, sends)] + envelopes[i..];
      assert SentAt(q, envelopes, Envelope(uptime, handler, what, sends), i);
      sends := sends + 1;
      if sendingMessage {
        return;
      }
      if i == 0 {
        Wake();
      }
    }

    /** Both forms of removeMessages: scan from the back, dropping matches. */
    method RemoveMessages(handler: nat, only: Option<int>)
      modifies this`envelopes
      ensures envelopes == Remove(old(envelopes), handler, only)
      ensures OnlyGone(old(envelopes), envelopes, handler, only) && Subsequence(envelopes, old(envelopes))
    {
      ghost var q0 := envelopes;
      hide Remove, Matches, OnlyGone, Subsequence;
      ghost var kept: seq<Envelope> := [];
      var i := |envelopes|;
      assert q0[..i] == q0;
      while i != 0
        invariant 0 <= i <= |q0| && envelopes == q0[..i] + kept
        invariant Remove(q0, handler, only) == Remove(q0[..i], handler, only) + kept
      {
        i := i - 1;
        RemoveStep(q0, handler, only, i);
        if Matches(envelopes[i], handler, only) {
          envelopes := envelopes[..i] + envelopes[i + 1..];
        } else {
          kept := [q0[i]] + kept;
        }
      }
      NoneRemoved(q0, handler, only);
      RemoveOnly(q0, handler, only);
    }

    method EpollCtl(ctl: Ctl, fd: int, events: int, granted: bool) returns (result: int)
      modifies this`interest
      ensures result == if granted && CtlPossible(old(interest), ctl, fd) then 0 else -1
      ensures interest == if result != 0 then old(interest)
                          else if ctl.CtlDel? then old(interest) - {fd} else old(interest)[fd := events]
    {
      result := -1;
      if granted && (if ctl.CtlAdd? then fd !in interest else fd in interest) {
        interest := if ctl.CtlDel? then interest - {fd} else interest[fd := events];
        result := 0;
      }
    }

    method AddFd(r: Request, events: int, granted: bool) returns (result: int)
      modifies this`requests, this`interest
      ensures (Snapshot(), result) == LooperSpec.AddFd(old(Snapshot()), allowNonCallbacks, r, events, granted)
      ensures result == 1 <==>
                && (r.callback.Some? || (allowNonCallbacks && r.ident >= 0))
                && granted && (r.fd in old(requests) <==> r.fd in old(interest))
      ensures result != 1 ==> result == -1 && requests == old(requests) && interest == old(interest)
      ensures result == 1 ==>
                && requests == old(requests)[r.fd := r.(ident := if r.callback.Some? then POLL_CALLBACK else r.ident)]
                && interest == old(interest)[r.fd := EpollEvents(events)]
    {
      var request := r;
      if r.callback.None? {
        if !allowNonCallbacks {
          return -1;
        }
        if r.ident < 0 {
          return -1;
        }
      } else {
        request := r.(ident := POLL_CALLBACK);
      }
      var epollEvents := 0;
      if Has(events, EVENT_INPUT) {
        epollEvents := epollEvents + EPOLLIN;
      }
      if Has(events, EVENT_OUTPUT) {
        epollEvents := epollEvents + EPOLLOUT;
      }
      var epollResult;
      if r.fd !in requests {
        epollResult := EpollCtl(CtlAdd, r.fd, epollEvents, granted);
      } else {
        epollResult := EpollCtl(CtlMod, r.fd, epollEvents, granted);
      }
      if epollResult < 0 {
        return -1;
      }
      requests := requests[r.fd := request];
      return 1;
    }

    method RemoveFd(fd: int, granted: bool) returns (result: int)
      modifies this`requests, this`interest
      ensures (Snapshot(), result) == LooperSpec.RemoveFd(old(Snapshot()), fd, granted)
      ensures result == 0 <==> fd !in old(requests)
      ensures result == 1 <==> fd in old(requests) && fd in old(interest) && granted
      ensures result != 1 ==> result in {0, -1} && requests == old(requests) && interest == old(interest)
      ensures result == 1 ==> requests == old(requests) - {fd} && interest == old(interest) - {fd}
    {
      if fd !in requests {
        return 0;
      }
      var epollResult := EpollCtl(CtlDel, fd, 0, granted);
      if epollResult < 0 {
        return -1;
      }
      requests := requests - {fd};
      return 1;
    }

    /** Calls made by handlers, callbacks and other threads while the lock is free. */
    method Serve(calls: seq<Call>)
      requires Inv(Snapshot(), wakeFd)
      modifies this`envelopes, this`sends, this`wakeBytes, this`requests, this`interest
      ensures Snapshot() == PerformAll(old(Snapshot()), allowNonCallbacks, calls) && Inv(Snapshot(), wakeFd)
    {
      hide Inv, Perform;
      ghost var s0 := Snapshot();
      for i := 0 to |calls|
        invariant PerformAll(Snapshot(), allowNonCallbacks, calls[i..]) == PerformAll(s0, allowNonCallbacks, calls)
        invariant Inv(Snapshot(), wakeFd)
      {
        assert calls[i..][0] == calls[i] && calls[i..][1..] == calls[i + 1..];
        PerformKeeps(Snapshot(), allowNonCallbacks, wakeFd, calls[i]);
        ServeOne(calls[i]);
      }
    }

    method ServeOne(c: Call)
      modifies this`envelopes, this`sends, this`wakeBytes, this`requests, this`interest
      ensures Snapshot() == Perform(old(Snapshot()), allowNonCallbacks, c)
    {
      hide Insert, Remove, LooperSpec.AddFd, LooperSpec.RemoveFd;
      match c
      case SendCall(uptime, handler, what) => SendMessageAtTime(uptime, handler, what);
      case RemoveCall(handler, only) => RemoveMessages(handler, only);
      case AddFdCall(request, events, granted) => var _ := AddFd(request, events, granted);
      case RemoveFdCall(fd, granted) => var _ := RemoveFd(fd, granted);
    }

    /** Lines 255-278 of pollInner. */
    method GatherResponses(events: seq<(int, Bits)>)
      requires RequestsOk(requests) && responses == []
      modifies this`responses, this`wakeBytes
      ensures responses == Gathered(requests, wakeFd, events)
      ensures exists at: seq<nat> :: GatheredFrom(responses, requests, wakeFd, events, at)
      ensures wakeBytes == if (exists i :: 0 <= i < |events| && events[i].0 == wakeFd && events[i].1.input)
                           then 0 else old(wakeBytes)
    {
      for i := 0 to |events|
        invariant responses == Gathered(requests, wakeFd, events[..i])
        invariant wakeBytes == if (exists j :: 0 <= j < i && events[j].0 == wakeFd && events[j].1.input)
                               then 0 else old(wakeBytes)
      {
        assert events[..i + 1][..i] == events[..i];
        var (fd, bits) := events[i];
        if fd == wakeFd {
          if bits.input {
            Awoken();
          }
        } else if fd in requests {
          responses := responses + [Response(EventMask(bits), requests[fd])];
        }
      }
      assert events[..|events|] == events;
      ghost var at := GatheredWhere(requests, wakeFd, events);
    }

    /** The message loop of pollInner. sent tells whether any message was delivered. */
    method DispatchMessages(turns: seq<Turn>, lastNow: int) returns (sent: bool)
      requires Inv(Snapshot(), wakeFd) && !sendingMessage && Turns(Snapshot(), allowNonCallbacks, turns, lastNow)
      modifies this`envelopes, this`sends, this`sendingMessage, this`wakeBytes, this`requests, this`interest
      modifies this`nextMessageUptime
      ensures Snapshot() == AfterTurns(old(Snapshot()), allowNonCallbacks, turns, lastNow)
      ensures Inv(Snapshot(), wakeFd) && !sendingMessage
      ensures nextMessageUptime == NextUptime(envelopes) && !Due(envelopes, lastNow)
      ensures sent == (turns != [])
    {
      hide Inv, Perform;
      ghost var s0 := Snapshot();
      nextMessageUptime := LLONG_MAX;
      var i := 0;
      while |envelopes| != 0
        invariant 0 <= i <= |turns| && nextMessageUptime == LLONG_MAX && !sendingMessage
        invariant Inv(Snapshot(), wakeFd) && Turns(Snapshot(), allowNonCallbacks, turns[i..], lastNow)
        invariant AfterTurns(Snapshot(), allowNonCallbacks, turns[i..], lastNow)
               == AfterTurns(s0, allowNonCallbacks, turns, lastNow)
        decreases |turns| - i
      {
        var now := if i < |turns| then turns[i].now else lastNow;
        if envelopes[0].uptime <= now {
          assert turns[i..][0] == turns[i] && turns[i..][1..] == turns[i + 1..];
          TakeHeadInv(Snapshot(), wakeFd);
          envelopes := envelopes[1..];
          sendingMessage := true;
          Serve(turns[i].calls);
          SendingInv(Snapshot(), wakeFd);
          sendingMessage := false;
          i := i + 1;
        } else {
          nextMessageUptime := envelopes[0].uptime;
          break;
        }
      }
      sent := i > 0;
    }

    method Invoke(response: Response, callback: Callback)
      requires Inv(Snapshot(), wakeFd) && response.request.ident == POLL_CALLBACK
      modifies this`envelopes, this`sends, this`wakeBytes, this`requests, this`interest
      ensures Snapshot() == AfterCallback(old(Snapshot()), allowNonCallbacks, response, callback)
      ensures Inv(Snapshot(), wakeFd)
      ensures var t := PerformAll(old(Snapshot()), allowNonCallbacks, callback.calls);
              var fd := response.request.fd;
              && envelopes == t.envelopes && wakeBytes == t.wakeBytes
              && (if callback.result == 0 && callback.granted && fd in t.requests && fd in t.interest then
                    requests == t.requests - {fd} && interest == t.interest - {fd}
                  else
                    requests == t.requests && interest == t.interest)
    {
      hide Inv, Perform;
      Serve(callback.calls);
      if callback.result == 0 {
        RemoveFdInv(Snapshot(), wakeFd, response.request.fd, callback.granted);
        var _ := RemoveFd(response.request.fd, callback.granted);
      }
    }

    /** The last loop of pollInner: calls every response that has a callback, once. */
    method RunCallbacks(callbacks: seq<Callback>) returns (called: bool)
      requires Inv(Snapshot(), wakeFd) && |callbacks| == |responses| && Accounted(0, 0)
      modifies this`envelopes, this`sends, this`wakeBytes, this`requests, this`interest
      modifies this`responses, this`calledBack
      ensures Snapshot() == AfterCallbacks(old(Snapshot()), allowNonCallbacks, old(responses), callbacks)
      ensures Inv(Snapshot(), wakeFd)
      ensures SameButCallbacks(old(responses), responses)
      ensures Accounted(|responses|, 0)
      ensures LetGo(responses)
      ensures called == HasCallback(old(responses))
    {
      hide Inv, Perform, AfterCallback, Accounted, SameButCallbacks, HasCallback;
      ghost var rs, s0 := responses, Snapshot();
      called := false;
      SameStart(rs);
      for i := 0 to |responses|
        invariant |responses| == |rs| && SameButCallbacks(rs, responses) && responses[i..] == rs[i..]
        invariant Inv(Snapshot(), wakeFd) && Accounted(i, 0)
        invariant Snapshot() == AfterCallbacks(s0, allowNonCallbacks, rs[..i], callbacks[..i])
        invariant called == HasCallback(rs[..i]) && LetGo(responses[..i])
      {
        var response := responses[i];
        assert response == rs[i..][0] == rs[i];
        assert rs[..i + 1][..i] == rs[..i] && callbacks[..i + 1][..i] == callbacks[..i];
        OneMore(rs, i);
        if response.request.ident == POLL_CALLBACK {
          Invoke(response, callbacks[i]);
          MarkCalled(i, rs);
          called := true;
        } else {
          NoCallback(Snapshot(), allowNonCallbacks, rs[i], callbacks[i]);
          SkipAccounted(i);
          assert responses[i + 1..] == responses[i..][1..];
        }
      }
      assert responses[..|rs|] == responses;
      assert rs[..|rs|] == rs && callbacks[..|rs|] == callbacks;
    }

    /** The called response lets go of its callback. */
    method MarkCalled(i: int, ghost rs: seq<Response>)
      requires 0 <= i < |responses| == |rs| && Accounted(i, 0)
      requires SameButCallbacks(rs, responses) && responses[i..] == rs[i..]
      requires responses[i].request.ident == POLL_CALLBACK
      modifies this`responses, this`calledBack
      ensures |responses| == |rs| && Accounted(i + 1, 0)
      ensures SameButCallbacks(rs, responses) && responses[i + 1..] == rs[i + 1..]
      ensures responses == old(responses)[i := responses[i]] && responses[i].request.callback.None?
    {
      assert responses[i + 1..] == responses[i..][1..] == rs[i + 1..];
      responses := responses[i := responses[i].(request := responses[i].request.(callback := None))];
      calledBack := calledBack + multiset{cleared + i};
    }

    lemma SkipAccounted(i: int)
      requires 0 <= i < |responses| && Accounted(i, 0) && responses[i].request.ident != POLL_CALLBACK
      ensures Accounted(i + 1, 0)
    {
    }

    /**
     pollInner. waiting is what other threads do until the lock is taken; poll is the answer of epoll_wait;
     the other scripts cover the two times the lock is free. Every response of the previous poll has been
     consumed when the vector is cleared; every response with a callback is consumed before the return.
     */
    method PollInner(timeoutMillis: int, delay: int, waiting: seq<Call>, poll: Poll, turns: seq<Turn>,
                     lastNow: int, callbacks: seq<Callback>) returns (result: int, waited: int)
      requires Valid() && responseIndex == |responses|
      requires PollPossible(Snapshot(), allowNonCallbacks, wakeFd, waiting, poll, turns, lastNow, callbacks)
      modifies this
      ensures Valid() && responseIndex == 0 && cleared == old(cleared) + |old(responses)|
      ensures polls == old(polls) + 1 && returned == old(returned)
      ensures waited == EffectiveTimeout(timeoutMillis, old(nextMessageUptime), delay)
      ensures LetGo(responses)
      ensures SameButCallbacks(NewResponses(old(Snapshot()), allowNonCallbacks, wakeFd, waiting, poll), responses)
      ensures Snapshot() == AfterCallbacks(
                AfterTurns(AtLock(old(Snapshot()), allowNonCallbacks, wakeFd, waiting, poll), allowNonCallbacks,
                           turns, lastNow),
                allowNonCallbacks,
                NewResponses(old(Snapshot()), allowNonCallbacks, wakeFd, waiting, poll), callbacks)
      ensures nextMessageUptime == NextUptime(AfterTurns(
                AtLock(old(Snapshot()), allowNonCallbacks, wakeFd, waiting, poll), allowNonCallbacks,
                turns, lastNow).envelopes)
      ensures result ==
                if turns != [] || (exists i :: 0 <= i < |responses| && responses[i].request.ident == POLL_CALLBACK)
                then POLL_CALLBACK
                else match poll
                  case Failed => POLL_ERROR
                  case TimedOut => POLL_TIMEOUT
                  case Interrupted => POLL_WAKE
                  case Events(_) => POLL_WAKE
    {
      hide Inv, Perform, AfterTurns, Turns, AfterCallbacks, AtLock, NewResponses, SameButCallbacks, HasCallback;
      hide Tagged, Accounted;
      polls := polls + 1;
      waited := timeoutMillis;
      if timeoutMillis != 0 && nextMessageUptime != LLONG_MAX {
        if delay >= 0 && (timeoutMillis < 0 || delay < timeoutMillis) {
          waited := delay;
        }
      }
      result := WaitAndGather(waiting, poll);
      var sent := DispatchMessages(turns, lastNow);
      if sent {
        result := POLL_CALLBACK;
      }
      ghost var rs := responses;
      var called := RunCallbacks(callbacks);
      if called {
        result := POLL_CALLBACK;
      }
      SameTags(rs, responses);
      CallbackThere(responses);
    }

    /** Every cleared response was consumed exactly once, and no later one has been touched. */
    ghost predicate Settled()
      reads this`cleared, this`calledBack, this`returned
    {
      forall k: nat :: calledBack[k] + returned[k] == if k < cleared then 1 else 0
    }

    /** The vector is emptied: by now all of its responses have been consumed. */
    method ClearResponses()
      requires Accounted(|responses|, |responses|)
      modifies this`responses, this`responseIndex, this`cleared
      ensures responses == [] && responseIndex == 0 && cleared == old(cleared) + |old(responses)| && Settled()
    {
      cleared := cleared + |responses|;
      responses := [];
      responseIndex := 0;
    }

    lemma SettledAccounts()
      requires Settled()
      ensures Accounted(0, 0)
    {
    }

    /** The first half of pollInner, up to the message loop. */
    method WaitAndGather(waiting: seq<Call>, poll: Poll) returns (result: int)
      requires Valid() && responseIndex == |responses|
      modifies this`envelopes, this`sends, this`wakeBytes, this`requests, this`interest
      modifies this`responses, this`responseIndex, this`cleared
      ensures Inv(Snapshot(), wakeFd)
      ensures Snapshot() == AtLock(old(Snapshot()), allowNonCallbacks, wakeFd, waiting, poll)
      ensures responses == NewResponses(old(Snapshot()), allowNonCallbacks, wakeFd, waiting, poll)
      ensures responseIndex == 0 && cleared == old(cleared) + |old(responses)| && Accounted(0, 0)
      ensures result == PollResult(poll) && Tagged(responses)
    {
      hide Inv, Perform, Gathered, Accounted, Settled;
      result := POLL_WAKE;
      ClearResponses();
      Serve(waiting);
      match poll {
        case Interrupted =>
        case Failed => result := POLL_ERROR;
        case TimedOut => result := POLL_TIMEOUT;
        case Events(events) =>
          ghost var before := Snapshot();
          InvRequests(before, wakeFd);
          GatherResponses(events);
          WakeBytesInv(before, wakeFd, wakeBytes);
      }
      SettledAccounts();
    }

    /** Responses waiting to be returned by pollOnce. */
    ghost predicate Pending()
      reads this`responses, this`responseIndex
    {
      exists i :: responseIndex <= i < |responses| && responses[i].request.ident >= 0
    }

    /** The bookkeeping of one step of mResponseIndex. */
    ghost method MarkTaken(i: nat)
      requires i < |responses| && Accounted(|responses|, i) && Tagged(responses)
      modifies this`returned
      ensures Accounted(|responses|, i + 1)
      ensures responses[i].request.ident >= 0 ==> old(returned)[cleared + i] == 0
      ensures returned == old(returned) + if responses[i].request.ident >= 0 then multiset{cleared + i} else multiset{}
    {
      if responses[i].request.ident >= 0 {
        returned := returned + multiset{cleared + i};
      }
    }

    /** The inner loop of pollOnce. */
    method TakeResponse() returns (out: Option<Response>)
      requires Valid()
      modifies this`responseIndex, this`returned
      ensures Valid()
      ensures out.Some? <==> old(Pending())
      ensures out.None? ==> responseIndex == |responses| && returned == old(returned)
      ensures out.Some? ==>
                && old(responseIndex) < responseIndex <= |responses| && out == Some(responses[responseIndex - 1])
                && out.value.request.ident >= 0 && old(returned)[cleared + responseIndex - 1] == 0
                && returned == old(returned) + multiset{cleared + responseIndex - 1}
    {
      hide Inv, Accounted;
      while responseIndex < |responses|
        invariant Valid() && returned == old(returned) && old(responseIndex) <= responseIndex
        invariant forall i | old(responseIndex) <= i < responseIndex :: responses[i].request.ident < 0
        decreases |responses| - responseIndex
      {
        var response := responses[responseIndex];
        responseIndex := responseIndex + 1;
        MarkTaken(responseIndex - 1);
        if response.request.ident >= 0 {
          return Some(response);
        }
      }
      out := None;
    }

    /**
     pollOnce polls only when no gathered response is waiting, and then once. It returns either one
     response that had not been returned before, with its identifier, or a POLL code when none is left.
     */
    method PollOnce(timeoutMillis: int, delay: int, waiting: seq<Call>, poll: Poll, turns: seq<Turn>,
                    lastNow: int, callbacks: seq<Callback>) returns (result: int, out: Option<Response>)
      requires Valid()
      requires Pending()
            || PollPossible(Snapshot(), allowNonCallbacks, wakeFd, waiting, poll, turns, lastNow, callbacks)
      modifies this
      ensures Valid()
      ensures polls == old(polls) + if old(Pending()) then 0 else 1
      ensures out.Some? ==>
                && result == out.value.request.ident >= 0
                && 0 < responseIndex <= |responses| && out.value == responses[responseIndex - 1]
                && old(returned)[cleared + responseIndex - 1] == 0
                && returned == old(returned) + multiset{cleared + responseIndex - 1}
      ensures out.None? ==> POLL_ERROR <= result <= POLL_WAKE && !Pending() && returned == old(returned)
    {
      hide Inv, Accounted, Tagged, SameButCallbacks, PollPossible, AfterTurns, Turns, AfterCallbacks, AtLock;
      hide NewResponses, HasCallback;
      result := 0;
      while true
        invariant Valid() && returned == old(returned)
        invariant result == 0 ==>
                    && polls == old(polls) && Pending() == old(Pending())
                    && (Pending()
                        || PollPossible(Snapshot(), allowNonCallbacks, wakeFd, waiting, poll, turns, lastNow,
                                        callbacks))
        invariant result != 0 ==>
                    POLL_ERROR <= result <= POLL_WAKE && polls == old(polls) + 1 && !old(Pending())
        decreases if result == 0 then 1 else 0
      {
        out := TakeResponse();
        if out.Some? {
          return out.value.request.ident, out;
        }
        if result != 0 {
          return result, None;
        }
        var waited;
        result, waited := PollInner(timeoutMillis, delay, waiting, poll, turns, lastNow, callbacks);
      }
    }
  }

  lemma InvRequests(s: State, wakeFd: int)
    requires Inv(s, wakeFd)
    ensures RequestsOk(s.requests)
  {
  }

  lemma WakeBytesInv(s: State, wakeFd: int, n: nat)
    requires Inv(s, wakeFd)
    ensures Inv(s.(wakeBytes := n), wakeFd)
  {
  }

  lemma {:induction false} PerformAllKeeps(s: State, allow: bool, wakeFd: int, calls: seq<Call>)
    requires Inv(s, wakeFd)
    ensures Inv(PerformAll(s, allow, calls), wakeFd)
    decreases calls
  {
    hide Inv, Perform;
    if calls != [] {
      PerformKeeps(s, allow, wakeFd, calls[0]);
      PerformAllKeeps(Perform(s, allow, calls[0]), allow, wakeFd, calls[1..]);
    }
  }

  ghost function PollResult(poll: Poll): int {
    match poll
    case Failed => POLL_ERROR
    case Interrupted => POLL_WAKE
    case TimedOut => POLL_TIMEOUT
    case Events(_) => POLL_WAKE
  }

  /** The shared state when pollInner enters its message loop: an event on the wake pipe drains it. */
  ghost function AtLock(s: State, allow: bool, wakeFd: int, waiting: seq<Call>, poll: Poll): State {
    var t := PerformAll(s, allow, waiting);
    if poll.Events? && exists i :: 0 <= i < |poll.events| && poll.events[i].0 == wakeFd && poll.events[i].1.input
    then t.(wakeBytes := 0) else t
  }

  ghost function NewResponses(s: State, allow: bool, wakeFd: int, waiting: seq<Call>, poll: Poll): seq<Response>
    requires Inv(s, wakeFd)
  {
    PerformAllKeeps(s, allow, wakeFd, waiting);
    if poll.Events? then Gathered(PerformAll(s, allow, waiting).requests, wakeFd, poll.events) else []
  }

  /** The scripts fit: the message loop runs as described, and there is one callback entry per response. */
  ghost predicate PollPossible(s: State, allow: bool, wakeFd: int, waiting: seq<Call>, poll: Poll,
                               turns: seq<Turn>, lastNow: int, callbacks: seq<Callback>)
    requires Inv(s, wakeFd)
  {
    && Turns(AtLock(s, allow, wakeFd, waiting, poll), allow, turns, lastNow)
    && |callbacks| == |NewResponses(s, allow, wakeFd, waiting, poll)|
  }

  lemma SameStart(rs: seq<Response>)
    ensures SameButCallbacks(rs, rs) && !HasCallback(rs[..0])
  {
  }

  lemma OneMore(rs: seq<Response>, i: nat)
    requires i < |rs|
    ensures HasCallback(rs[..i + 1]) == (HasCallback(rs[..i]) || rs[i].request.ident == POLL_CALLBACK)
  {
    assert rs[..i + 1] == rs[..i] + [rs[i]];
    if HasCallback(rs[..i]) {
      var j :| 0 <= j < i && rs[..i][j].request.ident == POLL_CALLBACK;
      assert rs[..i + 1][j].request.ident == POLL_CALLBACK;
    }
    assert rs[..i + 1][i] == rs[i];
  }

  lemma SameTags(a: seq<Response>, b: seq<Response>)
    requires SameButCallbacks(a, b)
    ensures Tagged(a) ==> Tagged(b)
    ensures HasCallback(a) == HasCallback(b)
  {
    assert forall i | 0 <= i < |a| :: a[i].request.ident == b[i].request.ident;
  }

  /** Clearing the callback reference changes nothing else of a response. */
  ghost predicate SameButCallbacks(a: seq<Response>, b: seq<Response>) {
    && |a| == |b|
    && forall i | 0 <= i < |a| ::
         b[i].(request := b[i].request.(callback := None)) == a[i].(request := a[i].request.(callback := None))
  }
}
