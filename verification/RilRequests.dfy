/**
 The pending-request list of ril.cpp on the heap, edited through a pointer to a pointer, and the two
 calls the vendor RIL makes with a request token. One SIM slot; the token is the request object itself.
 */
module RilRequests {
  import opened Sequences
  import opened Wrappers
  import P = RequestProtocol

  const NUM_COMMANDS := 146
  const RESPONSE_SOLICITED := 0
  const RESPONSE_SOLICITED_ACK_EXP := 3
  const RIL_E_INTERNAL_ERR := 38

  class RequestInfo {
    const token: int
    const requestNumber: int
    const socketId: int
    var pNext: RequestInfo?
    var cancelled: int
    var local: int
    var wasAckSent: int

    /** calloc, then the three assignments of addRequestToList. */
    constructor (token: int, requestNumber: int, socketId: int)
      ensures this.token == token && this.requestNumber == requestNumber && this.socketId == socketId
      ensures pNext == null && cancelled == 0 && local == 0 && wasAckSent == 0
    {
      this.token, this.requestNumber, this.socketId := token, requestNumber, socketId;
      pNext, cancelled, local, wasAckSent := null, 0, 0, 0;
    }
  }

  /** A response sent up to the client for req. */
  datatype Sent = Sent(req: RequestInfo, serial: int, slot: int, kind: int, error: int)

  // ---------- the list ----------

  ghost function At(list: seq<RequestInfo>, k: nat): RequestInfo? {
    if k < |list| then list[k] else null
  }

  ghost predicate Distinct(list: seq<RequestInfo>) {
    forall i, j | 0 <= i < j < |list| :: list[i] != list[j]
  }

  ghost predicate Chain(head: RequestInfo?, list: seq<RequestInfo>)
    reads list`pNext
  {
    && head == At(list, 0)
    && Distinct(list)
    && (forall i | 0 <= i < |list| :: list[i].pNext == At(list, i + 1))
  }

  lemma DistinctChain(head: RequestInfo?, list: seq<RequestInfo>)
    requires Chain(head, list)
    ensures Distinct(list)
  {
  }

  /** The list without x; the rest keeps its order. */
  ghost function Minus(list: seq<RequestInfo>, x: RequestInfo): (r: seq<RequestInfo>)
    ensures x !in list ==> r == list
  {
    if list == [] then [] else if list[0] == x then list[1..] else [list[0]] + Minus(list[1..], x)
  }

  lemma {:induction false} MinusDrops(list: seq<RequestInfo>, k: nat)
    requires k < |list| && forall i | 0 <= i < k :: list[i] != list[k]
    ensures Minus(list, list[k]) == Without(list, k)
    decreases list
  {
    if k > 0 {
      MinusDrops(list[1..], k - 1);
      assert Without(list, k) == [list[0]] + Without(list[1..], k - 1);
    } else {
      assert Without(list, 0) == list[1..];
    }
  }

  /** Only x leaves, and x leaves altogether, as it was listed once. */
  lemma MinusMembers(list: seq<RequestInfo>, x: RequestInfo)
    requires x in list && Distinct(list)
    ensures x !in Minus(list, x)
    ensures forall e | e in Minus(list, x) :: e in list
    ensures forall e | e in list :: e == x || e in Minus(list, x)
  {
    var k :| 0 <= k < |list| && list[k] == x;
    MinusDrops(list, k);
    var r := Without(list, k);
    forall e | e in list && e != x
      ensures e in r
    {
      var i :| 0 <= i < |list| && list[i] == e;
      assert r[if i < k then i else i - 1] == e;
    }
  }

  class Pending {
    /** s_pendingRequests */
    var head: RequestInfo?
    ghost var list: seq<RequestInfo>

    ghost predicate Valid()
      reads this, list`pNext
    {
      Chain(head, list)
    }

    constructor ()
      ensures Valid() && list == []
    {
      head, list := null, [];
    }

    /** addRequestToList: unsupported numbers get no request; new requests go to the front. */
    method AddRequest(serial: int, slotId: int, request: int) returns (pRI: RequestInfo?)
      requires Valid() && 0 <= request
      modifies this
      ensures Valid()
      ensures pRI == null <==> request >= NUM_COMMANDS
      ensures pRI == null ==> list == old(list)
      ensures pRI != null ==>
                && fresh(pRI) && list == [pRI] + old(list)
                && pRI.token == serial && pRI.requestNumber == request && pRI.socketId == slotId
                && pRI.cancelled == 0 && pRI.local == 0 && pRI.wasAckSent == 0
    {
      if request >= NUM_COMMANDS {
        return null;
      }
      var r := new RequestInfo(serial, request, slotId);
      r.pNext := head;
      head := r;
      list := [r] + list;
      return r;
    }

    /** Makes whatever pointed to cur point to what follows it. */
    method Unlink(prev: RequestInfo?, cur: RequestInfo, ghost k: nat)
      requires Valid() && k < |list| && cur == list[k]
      requires prev == if k == 0 then null else list[k - 1]
      modifies this, list`pNext
      ensures Valid() && list == Without(old(list), k)
    {
      if prev == null {
        head := cur.pNext;
      } else {
        prev.pNext := cur.pNext;
      }
      list := Without(list, k);
    }

    /**
     checkAndDequeueRequestInfoIfAck. prev plays ppCur: the node whose pNext is inspected, or null for
     the list head. A token that is not in the list is never looked into.
     */
    method CheckAndDequeue(pRI: RequestInfo?, isAck: bool) returns (ret: int)
      requires Valid()
      modifies this, list`pNext, list`wasAckSent
      ensures Valid()
      ensures ret == if pRI in old(list) then 1 else 0
      ensures isAck || ret == 0 ==> list == old(list)
      ensures !isAck && ret == 1 ==> list == Minus(old(list), pRI)
      ensures forall r | r in old(list) :: r.wasAckSent == if isAck && r == pRI then 1 else old(r.wasAckSent)
    {
      hide Minus, Without;
      ret := 0;
      if pRI == null {
        return 0;
      }
      var prev: RequestInfo? := null;
      var cur := head;
      ghost var k := 0;
      while cur != null
        invariant Valid() && list == old(list) && k <= |list|
        invariant cur == At(list, k) && prev == if k == 0 then null else list[k - 1]
        invariant forall i | 0 <= i < k :: list[i] != pRI
        invariant forall r | r in list :: r.wasAckSent == old(r.wasAckSent)
        decreases |list| - k
      {
        if cur == pRI {
          ret := 1;
          if isAck {
            if pRI.wasAckSent != 1 {
              pRI.wasAckSent := 1;
            }
          } else {
            MinusDrops(list, k);
            Unlink(prev, cur, k);
          }
          return;
        }
        prev := cur;
        cur := cur.pNext;
        k := k + 1;
      }
    }
  }

  // ---------- the protocol, step by step ----------

  /** Nothing is under way: every completion has ended with the free, every accepted ack has been passed on. */
  ghost predicate Idle(s: P.World) {
    s.flights == [] && s.unread == [] && s.misread == 0
  }

  ghost function AckRun(s: P.World, id: nat): seq<P.Step> {
    [P.Ack(id)] + if P.Listed(s, id) then [P.ReadAck(0)] else []
  }

  ghost function Acked(s: P.World, id: nat): P.World {
    if !P.Listed(s, id) || id >= |s.issued| then s
    else s.(acked := s.acked + {id}, acknowledged := s.acknowledged + [s.issued[id].serial])
  }

  lemma One(s: P.World, step: P.Step, rest: seq<P.Step>)
    requires P.Enabled(s, step) && P.Legal(P.Next(s, step), rest)
    ensures P.Legal(s, [step] + rest) && P.Run(s, [step] + rest) == P.Run(P.Next(s, step), rest)
  {
    P.Prepend(s, step, rest);
  }

  lemma AckIsRun(s: P.World, id: nat)
    requires P.Inv(s) && Idle(s)
    ensures P.Legal(s, AckRun(s, id)) && P.Run(s, AckRun(s, id)) == Acked(s, id)
    ensures P.Inv(Acked(s, id)) && Idle(Acked(s, id))
  {
    var s1 := P.Next(s, P.Ack(id));
    P.StepKeeps(s, P.Ack(id));
    if P.Listed(s, id) {
      assert s.listed[P.Find(s.listed, id)].id == id;
      P.NotFreedWhileListed(s1, id);
      assert s1.unread == [id] && Without(s1.unread, 0) == [];
      P.StepKeeps(s1, P.ReadAck(0));
      var s2 := P.Next(s1, P.ReadAck(0));
      assert s2 == Acked(s, id);
      P.NoSteps(s2);
      One(s1, P.ReadAck(0), []);
      One(s, P.Ack(id), [P.ReadAck(0)] + []);
    } else {
      P.NoSteps(s1);
      One(s, P.Ack(id), []);
    }
  }

  /** first is the step that takes the request off the list: the vendor's completion, or the dispatcher's own. */
  ghost function CompleteRun(s: P.World, first: P.Step, id: nat): seq<P.Step> {
    [first]
    + if !P.Listed(s, id) then []
      else (if s.acks && id in s.acked then [P.Grab(0)] else []) + [P.Respond(0), P.Free(id)]
  }

  ghost function Completed(s: P.World, first: P.Step, id: nat): P.World {
    var t := if first.Fake? then s.(owed := s.owed - {id}) else s;
    if !P.Listed(s, id) then t
    else
      var k := P.Find(s.listed, id);
      var ack := s.acks && id in s.acked;
      t.(listed := Without(s.listed, k),
         responses := s.responses + [P.Response(id, s.listed[k].serial, s.listed[k].slot, ack)],
         freed := s.freed + {id}, grabs := if ack then s.grabs + 1 else s.grabs)
  }

  lemma CompleteIsRun(s: P.World, first: P.Step, id: nat)
    requires P.Inv(s) && Idle(s) && P.Enabled(s, first) && (first == P.Complete(id) || first == P.Fake(id))
    ensures P.Legal(s, CompleteRun(s, first, id))
    ensures P.Run(s, CompleteRun(s, first, id)) == Completed(s, first, id)
    ensures P.Inv(Completed(s, first, id)) && Idle(Completed(s, first, id))
  {
    hide P.Inv, P.Legal, P.Run;
    var s1 := P.Next(s, first);
    P.StepKeeps(s, first);
    if P.Listed(s, id) {
      var k, ack := P.Find(s.listed, id), s.acks && id in s.acked;
      assert s1.flights == [P.Flight(s.listed[k], ack, false)];
      NotFreed(s, id);
      if ack {
        P.StepKeeps(s1, P.Grab(0));
        var s2 := P.Next(s1, P.Grab(0));
        assert s2.flights == [P.Flight(s.listed[k], ack, true)];
        AnswerAndFree(s2, id);
        One(s1, P.Grab(0), [P.Respond(0), P.Free(id)]);
        assert [P.Grab(0)] + [P.Respond(0), P.Free(id)] == CompleteRun(s, first, id)[1..];
        One(s, first, [P.Grab(0)] + [P.Respond(0), P.Free(id)]);
      } else {
        AnswerAndFree(s1, id);
        assert [P.Respond(0), P.Free(id)] == CompleteRun(s, first, id)[1..];
        One(s, first, [P.Respond(0), P.Free(id)]);
      }
    } else {
      P.NoSteps(s1);
      One(s, first, []);
    }
  }

  lemma NotFreed(s: P.World, id: nat)
    requires P.Inv(s) && P.Listed(s, id)
    ensures id !in s.freed
  {
    hide P.Places, P.Find;
    P.NotFreedWhileListed(s, id);
  }

  lemma ListedRequest(s: P.World, id: nat)
    requires P.Inv(s) && P.Listed(s, id)
    ensures id < |s.issued| && s.listed[P.Find(s.listed, id)] == s.issued[id]
  {
    hide P.Places, P.Find;
  }

  lemma AckedIssued(s: P.World)
    requires P.Inv(s)
    ensures |s.issued| !in s.acked
  {
    hide P.Places;
  }

  lemma AnswerAndFree(s: P.World, id: nat)
    requires P.Inv(s) && |s.flights| == 1 && s.flights[0].req.id == id && id !in s.freed
    requires s.flights[0].ackSent == s.flights[0].grabbed
    ensures var req := s.flights[0].req;
            var r := s.(flights := [], freed := s.freed + {id},
                        responses := s.responses + [P.Response(id, req.serial, req.slot, s.flights[0].ackSent)]);
            && P.Legal(s, [P.Respond(0), P.Free(id)]) && P.Run(s, [P.Respond(0), P.Free(id)]) == r && P.Inv(r)
  {
    hide P.Inv, P.Legal, P.Run;
    var s1 := P.Next(s, P.Respond(0));
    P.StepKeeps(s, P.Respond(0));
    assert s1.responses[|s.responses|].id == id;
    P.StepKeeps(s1, P.Free(id));
    assert Without(s.flights, 0) == [];
    P.NoSteps(P.Next(s1, P.Free(id)));
    One(s1, P.Free(id), []);
    One(s, P.Respond(0), [P.Free(id)] + []);
    assert [P.Respond(0)] + ([P.Free(id)] + []) == [P.Respond(0), P.Free(id)];
  }

  // ---------- requests and responses ----------

  /** The identity of a request is the place of its token among the tokens issued. */
  ghost function Identity(order: seq<RequestInfo>, t: RequestInfo?): (k: nat)
    ensures k <= |order| && (k < |order| ==> order[k] == t) && (k == |order| <==> t !in order)
  {
    if order == [] || order[0] == t then 0 else 1 + Identity(order[1..], t)
  }

  ghost function Flags(order: seq<RequestInfo>): (r: seq<int>)
    reads order
    ensures |r| == |order| && forall i | 0 <= i < |r| :: r[i] == order[i].wasAckSent
  {
    seq(|order|, i requires 0 <= i < |order| reads order => order[i].wasAckSent)
  }

  /** All that RequestsMatch says besides the flags. */
  ghost predicate FieldsMatch(order: seq<RequestInfo>, issued: seq<P.Req>)
    reads order`cancelled, order`local
  {
    && |order| == |issued|
    && forall i | 0 <= i < |order| ::
         && issued[i] == P.Req(i, order[i].token, order[i].socketId, order[i].requestNumber)
         && order[i].cancelled == 0 && order[i].local == 0
  }

  lemma Unchanged(order: seq<RequestInfo>, issued: seq<P.Req>, acked: set<nat>)
    requires RequestsMatch(order, issued, acked)
    ensures FieldsMatch(order, issued) && forall i | 0 <= i < |order| :: Flags(order)[i] == if i in acked then 1 else 0
  {
  }

  lemma FlagsMatch(order: seq<RequestInfo>, issued: seq<P.Req>, acked: set<nat>, was: seq<int>, t: RequestInfo?,
                   found: bool)
    requires Distinct(order) && FieldsMatch(order, issued) && |was| == |order|
    requires forall i | 0 <= i < |order| :: was[i] == if i in acked then 1 else 0
    requires forall i | 0 <= i < |order| :: order[i].wasAckSent == if order[i] == t && found then 1 else was[i]
    ensures found && t in order ==> RequestsMatch(order, issued, acked + {Identity(order, t)})
    ensures !found ==> RequestsMatch(order, issued, acked)
  {
    IdentityOnly(order, t);
    hide Identity;
  }

  lemma IdentityOnly(order: seq<RequestInfo>, t: RequestInfo?)
    requires Distinct(order)
    ensures forall i | 0 <= i < |order| :: order[i] == t <==> i == Identity(order, t)
  {
  }

  ghost predicate ListMatches(order: seq<RequestInfo>, list: seq<RequestInfo>, listed: seq<P.Req>) {
    && |list| == |listed| && Distinct(order)
    && forall i | 0 <= i < |list| :: listed[i].id < |order| && list[i] == order[listed[i].id]
  }

  ghost predicate RequestsMatch(order: seq<RequestInfo>, issued: seq<P.Req>, acked: set<nat>)
    reads order
  {
    && |order| == |issued|
    && forall i | 0 <= i < |order| ::
         && issued[i] == P.Req(i, order[i].token, order[i].socketId, order[i].requestNumber)
         && order[i].wasAckSent == (if i in acked then 1 else 0) && order[i].cancelled == 0 && order[i].local == 0
  }

  ghost predicate SentMatches(order: seq<RequestInfo>, sent: seq<Sent>, responses: seq<P.Response>) {
    && |sent| == |responses|
    && forall i | 0 <= i < |sent| ::
         && responses[i].id < |order| && sent[i].req == order[responses[i].id]
         && sent[i].serial == responses[i].serial && sent[i].slot == responses[i].slot
         && sent[i].kind == if responses[i].ackExpected then RESPONSE_SOLICITED_ACK_EXP else RESPONSE_SOLICITED
  }

  lemma ListedIffIn(order: seq<RequestInfo>, list: seq<RequestInfo>, listed: seq<P.Req>, t: RequestInfo?)
    requires ListMatches(order, list, listed)
    ensures var k := P.Find(listed, Identity(order, t));
            && (k < |list| <==> t in list) && (k < |list| ==> list[k] == t)
            && forall i | 0 <= i < k && i < |list| :: list[i] != t
  {
    var id := Identity(order, t);
    var k := P.Find(listed, id);
    if t in list {
      var i :| 0 <= i < |list| && list[i] == t;
      assert order[listed[i].id] == t == order[id];
    }
  }

  lemma ListDropped(order: seq<RequestInfo>, list: seq<RequestInfo>, listed: seq<P.Req>, k: nat)
    requires ListMatches(order, list, listed) && k < |list|
    ensures ListMatches(order, Without(list, k), Without(listed, k))
  {
  }

  lemma AnswersMatch(order: seq<RequestInfo>, sent: seq<Sent>, responses: seq<P.Response>, x: Sent, r: P.Response)
    requires SentMatches(order, sent, responses) && r.id < |order| && x.req == order[r.id]
    requires x.serial == r.serial && x.slot == r.slot
    requires x.kind == if r.ackExpected then RESPONSE_SOLICITED_ACK_EXP else RESPONSE_SOLICITED
    ensures SentMatches(order, sent + [x], responses + [r])
  {
  }

  lemma OrderGrows(order: seq<RequestInfo>, list: seq<RequestInfo>, listed: seq<P.Req>, r: RequestInfo, q: P.Req)
    requires ListMatches(order, list, listed) && r !in order && q.id == |order|
    ensures ListMatches(order + [r], [r] + list, [q] + listed)
  {
  }

  lemma SentGrows(order: seq<RequestInfo>, sent: seq<Sent>, responses: seq<P.Response>, r: RequestInfo)
    requires SentMatches(order, sent, responses)
    ensures SentMatches(order + [r], sent, responses)
  {
  }

  /** A response to a request whose ack has been sent asks for an ack, from version 13 on. */
  function Kind(version: int, wasAckSent: int): (r: int)
    ensures version >= 13 && wasAckSent == 1 ==> r == 3
    ensures version < 13 || wasAckSent != 1 ==> r == 0
  {
    if version >= 13 && wasAckSent == 1 then RESPONSE_SOLICITED_ACK_EXP else RESPONSE_SOLICITED
  }

  ghost predicate Answered(sent: seq<Sent>, r: RequestInfo) {
    exists i :: 0 <= i < |sent| && sent[i].req == r
  }

  /** While nothing is under way, every request ever issued is either listed or answered. */
  lemma AnsweredIffNotListed(order: seq<RequestInfo>, list: seq<RequestInfo>, sent: seq<Sent>, w: P.World, id: nat)
    requires P.Inv(w) && Idle(w) && ListMatches(order, list, w.listed) && SentMatches(order, sent, w.responses)
    requires id < |order| == |w.issued|
    ensures Answered(sent, order[id]) <==> !P.Listed(w, id)
    ensures order[id] in list <==> P.Listed(w, id)
  {
    assert Identity(order, order[id]) == id;
    ListedIffIn(order, list, w.listed, order[id]);
    if P.Listed(w, id) {
      P.ListedOnly(w, id);
    } else {
      ResponseOfUnlisted(w, id);
      var i :| 0 <= i < |w.responses| && w.responses[i].id == id;
      assert sent[i].req == order[id];
    }
  }

  lemma ResponseOfUnlisted(w: P.World, id: nat)
    requires P.Inv(w) && Idle(w) && id < |w.issued| && !P.Listed(w, id)
    ensures P.Responded(w.responses, id)
  {
    assert P.Places(w)[id] == 1;
    assert id !in P.ListedIds(w.listed);
    assert P.FlightIds(w.flights) == [];
    assert id in P.ResponseIds(w.responses);
    var i :| 0 <= i < |w.responses| && P.ResponseIds(w.responses)[i] == id;
    assert w.responses[i].id == id;
  }

  /** What the vendor does inside onRequest: on the token it was just given, or on any other. */
  datatype VendorCall = VendorCall(own: bool, other: RequestInfo?, isAck: bool, error: int)

  predicate CompletesOwn(call: VendorCall, own: RequestInfo) {
    !call.isAck && (call.own || call.other == own)
  }

  /** The error of the first call that completes the vendor's own token, if any does. */
  ghost function FirstAnswer(calls: seq<VendorCall>, own: RequestInfo): (r: Option<int>)
    ensures r.None? <==> forall i | 0 <= i < |calls| :: !CompletesOwn(calls[i], own)
    ensures r.Some? ==> exists i :: 0 <= i < |calls| && FirstIs(calls, own, i, r.value)
  {
    if calls == [] then None
    else if CompletesOwn(calls[0], own) then
      assert FirstIs(calls, own, 0, calls[0].error);
      Some(calls[0].error)
    else
      var r := FirstAnswer(calls[1..], own);
      assert forall i | 0 <= i < |calls| :: i > 0 ==> calls[i] == calls[1..][i - 1];
      assert r.Some? ==> forall i | 0 <= i < |calls| - 1 && FirstIs(calls[1..], own, i, r.value) ::
          FirstIs(calls, own, i + 1, r.value);
      r
  }

  ghost predicate FirstIs(calls: seq<VendorCall>, own: RequestInfo, i: nat, error: int) {
    && i < |calls| && CompletesOwn(calls[i], own) && calls[i].error == error
    && forall j | 0 <= j < i :: !CompletesOwn(calls[j], own)
  }

  /** One response went to the request, with its serial and slot and this error. */
  ghost predicate AnsweredBy(sent: seq<Sent>, r: RequestInfo, error: int) {
    exists i :: 0 <= i < |sent| && OnlyAnswer(sent, r, error, i)
  }

  ghost predicate OnlyAnswer(sent: seq<Sent>, r: RequestInfo, error: int, i: nat) {
    && i < |sent| && sent[i].req == r && sent[i].serial == r.token && sent[i].slot == r.socketId
    && sent[i].error == error && forall j | 0 <= j < |sent| && j != i :: sent[j].req != r
  }

  /** Still listed and unanswered, or off the list and answered once. */
  ghost predicate Fate(sent: seq<Sent>, list: seq<RequestInfo>, r: RequestInfo, answer: Option<int>) {
    if answer.None? then r in list && !Answered(sent, r) else r !in list && AnsweredBy(sent, r, answer.value)
  }

  lemma FateOfCompletion(sent: seq<Sent>, list: seq<RequestInfo>, after: seq<Sent>, list': seq<RequestInfo>,
                         r: RequestInfo, answer: Option<int>, t: RequestInfo?, e: int)
    requires Fate(sent, list, r, answer)
    requires t !in list ==> after == sent && list' == list
    requires t in list ==>
               && (forall x | x in list :: x == t || x in list') && (forall x | x in list' :: x in list) && t !in list'
               && exists kind :: after == sent + [Sent(t, t.token, t.socketId, kind, e)]
    ensures Fate(after, list', r, if answer.None? && t == r then Some(e) else answer)
  {
    if t in list {
      var n := |sent|;
      assert after[..n] == sent && after[n].req == t;
      assert forall i | 0 <= i < n :: after[i] == sent[i];
      if answer.None? && t == r {
        assert OnlyAnswer(after, r, e, n);
      } else if answer.Some? {
        var i :| 0 <= i < |sent| && OnlyAnswer(sent, r, answer.value, i);
        assert OnlyAnswer(after, r, answer.value, i);
      }
    }
  }

  lemma NotYetAnswered(order: seq<RequestInfo>, sent: seq<Sent>, responses: seq<P.Response>, r: RequestInfo)
    requires SentMatches(order, sent, responses) && r !in order
    ensures !Answered(sent, r)
  {
  }

  // ---------- the vendor call ----------

  ghost function TokenOf(call: VendorCall, own: RequestInfo): RequestInfo? {
    if call.own then own else call.other
  }

  ghost function CallRun(w: P.World, order: seq<RequestInfo>, own: RequestInfo, call: VendorCall): seq<P.Step> {
    var id := Identity(order, TokenOf(call, own));
    if call.isAck then AckRun(w, id) else CompleteRun(w, P.Complete(id), id)
  }

  lemma CallIsRun(w: P.World, order: seq<RequestInfo>, own: RequestInfo, call: VendorCall)
    requires P.Inv(w) && Idle(w)
    ensures var run := CallRun(w, order, own, call);
            P.Legal(w, run) && P.Inv(P.Run(w, run)) && Idle(P.Run(w, run))
  {
    hide P.Inv, P.Legal, P.Run, AckRun, CompleteRun, Acked, Completed, Idle;
    var id := Identity(order, TokenOf(call, own));
    if call.isAck {
      AckIsRun(w, id);
    } else {
      CompleteIsRun(w, P.Complete(id), id);
    }
  }

  /** Everything the vendor does, in order. */
  ghost function CallsRun(w: P.World, order: seq<RequestInfo>, own: RequestInfo, calls: seq<VendorCall>): seq<P.Step>
    requires P.Inv(w) && Idle(w)
    decreases calls
  {
    if calls == [] then []
    else
      CallIsRun(w, order, own, calls[0]);
      var run := CallRun(w, order, own, calls[0]);
      run + CallsRun(P.Run(w, run), order, own, calls[1..])
  }

  /** A dispatch from before to after: issued, handed over, what the vendor does, and a completion made up if due. */
  ghost predicate Dispatched(before: P.World, after: P.World, order: seq<RequestInfo>, own: RequestInfo,
                             serial: int, slot: int, number: int, calls: seq<VendorCall>) {
    var id := |before.issued|;
    var w1 := P.Next(before, P.Issue(serial, slot, number));
    && P.Enabled(w1, P.Hand(id))
    && var w2 := P.Next(w1, P.Hand(id));
    && P.Inv(w2) && Idle(w2)
    && var vendor := CallsRun(w2, order, own, calls);
    && P.Legal(w2, vendor)
    && var w3 := P.Run(w2, vendor);
    && if number != 47 then after == w3
       else
         var made := CompleteRun(w3, P.Fake(id), id);
         P.Enabled(w3, P.Fake(id)) && P.Legal(w3, made) && after == P.Run(w3, made)
  }

  /** A string from the client: what size() says of it, and how long its text is. */
  datatype HidlString = HidlString(size: nat, length: nat)

  /** What a dispatcher relies on while the vendor runs. */
  ghost predicate SameDispatch(a: P.World, b: P.World) {
    a.issued == b.issued && a.dispatching == b.dispatching && a.owed == b.owed && a.errors == b.errors
  }

  class Ril {
    const version: int
    const pending: Pending
    var sent: seq<Sent>
    /** The answers of sendErrorResponse. */
    var errors: seq<Sent>
    /** Serials passed to acknowledgeRequest. */
    var acknowledged: seq<int>
    var grabs: nat
    /** The tokens of every request issued, in order; addresses are not reused. */
    ghost var order: seq<RequestInfo>
    ghost var w: P.World

    /** The fields are the protocol's state w, in which nothing is under way. */
    ghost predicate Valid()
      reads this, pending, order
    {
      && P.Inv(w) && Idle(w) && w.acks == (version >= 13)
      && ListMatches(order, pending.list, w.listed)
      && pending.Valid()
      && RequestsMatch(order, w.issued, w.acked)
      && SentMatches(order, sent, w.responses) && SentMatches(order, errors, w.errors)
      && acknowledged == w.acknowledged && grabs == w.grabs
    }

    constructor (version: int)
      ensures Valid() && fresh(pending) && this.version == version && P.Init(w)
      ensures sent == [] && errors == [] && order == [] && pending.list == []
    {
      this.version := version;
      pending := new Pending();
      sent, errors, acknowledged, grabs, order := [], [], [], 0, [];
      w := P.World(version >= 13, [], {}, {}, [], {}, [], [], 0, [], [], {}, 0, []);
      new;
      P.NothingYet(w);
    }

    /** The search of an ack: the flag of a listed request is set, and nothing else changes. */
    method MarkAcked(t: RequestInfo?) returns (found: int)
      requires ListMatches(order, pending.list, w.listed) && pending.Valid()
      requires RequestsMatch(order, w.issued, w.acked)
      modifies pending, order`pNext, order`wasAckSent
      ensures pending.Valid() && pending.list == old(pending.list) && found == if t in pending.list then 1 else 0
      ensures found == 1 ==> RequestsMatch(order, w.issued, w.acked + {Identity(order, t)})
      ensures found == 0 ==> RequestsMatch(order, w.issued, w.acked)
      ensures forall r | r in order :: r.wasAckSent == if r == t && found == 1 then 1 else old(r.wasAckSent)
    {
      hide Chain, RequestsMatch;
      ghost var was := Flags(order);
      Unchanged(order, w.issued, w.acked);
      assert forall r | r in pending.list :: r in order;
      hide ListMatches;
      found := FlagAcked(t);
      FlagsMatch(order, w.issued, w.acked, was, t, found == 1);
    }

    /** What the search does to the flags of all requests ever issued. */
    method FlagAcked(t: RequestInfo?) returns (found: int)
      requires pending.Valid() && forall r | r in pending.list :: r in order
      modifies pending, order`pNext, order`wasAckSent
      ensures pending.Valid() && pending.list == old(pending.list) && found == if t in pending.list then 1 else 0
      ensures forall r | r in order :: r.wasAckSent == if r == t && found == 1 then 1 else old(r.wasAckSent)
    {
      hide Chain;
      assert forall i | 0 <= i < |pending.list| :: pending.list[i] in order;
      found := pending.CheckAndDequeue(t, true);
    }

    /** RIL_onRequestAck */
    method OnRequestAck(t: RequestInfo?)
      requires Valid()
      modifies this`acknowledged, this`w, pending, order`pNext, order`wasAckSent
      ensures Valid() && pending.list == old(pending.list)
      ensures acknowledged == if t in old(pending.list) then old(acknowledged) + [t.token] else old(acknowledged)
      ensures forall r | r in order ::
                r.wasAckSent == if r == t && r in old(pending.list) then 1 else old(r.wasAckSent)
      ensures var run := AckRun(old(w), Identity(order, t)); P.Legal(old(w), run) && w == P.Run(old(w), run)
    {
      hide P.Inv, P.Legal, P.Run, P.Find, Chain, SentMatches;
      ghost var id := Identity(order, t);
      ListedIffIn(order, pending.list, w.listed, t);
      AckIsRun(w, id);
      var found := MarkAcked(t);
      hide ListMatches;
      w := Acked(w, id);
      if found == 0 {
        return;
      }
      assert order[id] == t;
      if t.cancelled == 0 {
        acknowledged := acknowledged + [t.token];
      }
    }

    /** The search of a completion: a listed request is unlinked, and nothing else changes. */
    method TakeOff(t: RequestInfo?) returns (found: int)
      requires ListMatches(order, pending.list, w.listed) && pending.Valid()
      requires RequestsMatch(order, w.issued, w.acked)
      modifies pending, order`pNext, order`wasAckSent
      ensures pending.Valid() && RequestsMatch(order, w.issued, w.acked)
      ensures found == if t in old(pending.list) then 1 else 0
      ensures found == 0 ==> pending.list == old(pending.list)
      ensures t !in pending.list && (forall r | r in old(pending.list) :: r == t || r in pending.list)
      ensures forall r | r in pending.list :: r in old(pending.list)
      ensures found == 1 ==>
                && pending.list == Minus(old(pending.list), t)
                && var k := P.Find(w.listed, Identity(order, t));
                && k < |w.listed| && ListMatches(order, pending.list, Without(w.listed, k))
      ensures forall r | r in order :: r.wasAckSent == old(r.wasAckSent)
    {
      hide Chain, Minus, Without, P.Find;
      ghost var list, k := pending.list, P.Find(w.listed, Identity(order, t));
      ListedIffIn(order, list, w.listed, t);
      DistinctChain(pending.head, list);
      found := pending.CheckAndDequeue(t, false);
      if found == 1 {
        MinusMembers(list, t);
        MinusDrops(list, k);
        ListDropped(order, list, w.listed, k);
      }
    }

    /** RIL_onRequestComplete. fake: called by the dispatcher itself. */
    method OnRequestComplete(t: RequestInfo?, e: int, ghost fake: bool)
      requires Valid() && (fake ==> Identity(order, t) in w.owed)
      modifies this`sent, this`grabs, this`w, pending, order`pNext, order`wasAckSent
      ensures Valid() && t !in pending.list
      ensures t !in old(pending.list) ==> sent == old(sent) && pending.list == old(pending.list) && grabs == old(grabs)
      ensures t in old(pending.list) ==>
                && pending.list == Minus(old(pending.list), t)
                && (forall r | r in old(pending.list) :: r == t || r in pending.list)
                && (forall r | r in pending.list :: r in old(pending.list))
                && sent == old(sent) + [Sent(t, t.token, t.socketId, Kind(version, t.wasAckSent), e)]
                && grabs == old(grabs) + if version >= 13 && t.wasAckSent == 1 then 1 else 0
      ensures forall r | r in order :: r.wasAckSent == old(r.wasAckSent)
      ensures var id := Identity(order, t);
              var run := CompleteRun(old(w), if fake then P.Fake(id) else P.Complete(id), id);
              P.Legal(old(w), run) && w == P.Run(old(w), run)
    {
      hide P.Inv, P.Legal, P.Run, P.Find, Chain, SentMatches, Minus, Without;
      ghost var id := Identity(order, t);
      ghost var first := if fake then P.Fake(id) else P.Complete(id);
      ghost var k := P.Find(w.listed, id);
      ListedIffIn(order, pending.list, w.listed, t);
      CompleteIsRun(w, first, id);
      if P.Listed(w, id) {
        ListedRequest(w, id);
      }
      var found := TakeOff(t);
      hide ListMatches;
      if found == 0 {
        w := Completed(w, first, id);
        return;
      }
      assert order[id] == t;
      hide RequestsMatch, Completed;
      Finish(t, e, first, id);
    }

    /** What RIL_onRequestComplete does with a request it has taken off the list. */
    method Finish(t: RequestInfo, e: int, ghost first: P.Step, ghost id: nat)
      requires P.Inv(Completed(w, first, id)) && Idle(Completed(w, first, id)) && w.acks == (version >= 13)
      requires id < |order| == |w.issued| && order[id] == t
      requires var k := P.Find(w.listed, id);
               && k < |w.listed| && w.listed[k] == w.issued[id]
               && ListMatches(order, pending.list, Without(w.listed, k))
      requires pending.Valid() && RequestsMatch(order, w.issued, w.acked)
      requires SentMatches(order, sent, w.responses) && SentMatches(order, errors, w.errors)
      requires acknowledged == w.acknowledged && grabs == w.grabs
      modifies this`sent, this`grabs, this`w
      ensures Valid() && w == Completed(old(w), first, id)
      ensures sent == old(sent) + [Sent(t, t.token, t.socketId, Kind(version, t.wasAckSent), e)]
      ensures grabs == old(grabs) + if version >= 13 && t.wasAckSent == 1 then 1 else 0
    {
      hide P.Inv, P.Find, Chain, SentMatches, ListMatches, Without;
      assert t.local == 0 && t.cancelled == 0;
      if t.local > 0 {
        return;
      }
      if t.cancelled == 0 {
        Respond(t, e, P.Response(id, t.token, t.socketId, w.acks && id in w.acked));
        w := Completed(w, first, id);
      }
    }

    /** The part of RIL_onRequestComplete between the removal and the free. */
    method Respond(t: RequestInfo, e: int, ghost r: P.Response)
      requires SentMatches(order, sent, w.responses) && r.id < |order| && order[r.id] == t
      requires r.serial == t.token && r.slot == t.socketId && r.ackExpected == (version >= 13 && t.wasAckSent == 1)
      modifies this`sent, this`grabs
      ensures SentMatches(order, sent, w.responses + [r]) && grabs == old(grabs) + if r.ackExpected then 1 else 0
      ensures sent == old(sent) + [Sent(t, t.token, t.socketId, Kind(version, t.wasAckSent), e)]
    {
      hide SentMatches;
      var responseType;
      if version >= 13 && t.wasAckSent == 1 {
        responseType := RESPONSE_SOLICITED_ACK_EXP;
        grabs := grabs + 1;
      } else {
        responseType := RESPONSE_SOLICITED;
      }
      AnswersMatch(order, sent, w.responses, Sent(t, t.token, t.socketId, responseType, e), r);
      sent := sent + [Sent(t, t.token, t.socketId, responseType, e)];
    }

    /** addRequestToList, with the new token noted. */
    method Issue(serial: int, slotId: int, request: int) returns (pRI: RequestInfo?)
      requires Valid() && 0 <= request
      modifies this`order, this`w, pending
      ensures Valid() && (pRI == null <==> request >= NUM_COMMANDS)
      ensures pRI == null ==> order == old(order) && pending.list == old(pending.list) && w == old(w)
      ensures pRI != null ==>
                && fresh(pRI) && order == old(order) + [pRI] && pending.list == [pRI] + old(pending.list)
                && pRI.token == serial && pRI.socketId == slotId && pRI.requestNumber == request
                && w == P.Next(old(w), P.Issue(serial, slotId, request)) && Identity(order, pRI) == |old(w).issued|
                && Fate(sent, pending.list, pRI, None)
    {
      hide P.Inv, Chain, ListMatches, SentMatches;
      pRI := pending.AddRequest(serial, slotId, request);
      if pRI != null {
        P.StepKeeps(w, P.Issue(serial, slotId, request));
        AckedIssued(w);
        NotYetAnswered(order, sent, w.responses, pRI);
        OrderGrows(order, old(pending.list), w.listed, pRI, P.Req(|order|, serial, slotId, request));
        SentGrows(order, sent, w.responses, pRI);
        SentGrows(order, errors, w.errors, pRI);
        order := order + [pRI];
        w := P.Next(w, P.Issue(serial, slotId, request));
      }
    }

    /** The call of onRequest begins: from here on the vendor knows the token. */
    ghost method Hand(pRI: RequestInfo)
      requires Valid() && pRI in order && Identity(order, pRI) in w.dispatching
      modifies this`w
      ensures Valid() && w == P.Next(old(w), P.Hand(Identity(order, pRI)))
      ensures P.Inv(w) && Idle(w)
    {
      hide P.Inv, Chain, ListMatches, SentMatches;
      P.StepKeeps(w, P.Hand(Identity(order, pRI)));
      w := P.Next(w, P.Hand(Identity(order, pRI)));
    }

    /** The vendor acknowledging and completing tokens from inside onRequest. */
    method OnRequest(pRI: RequestInfo, calls: seq<VendorCall>)
      requires Valid() && pRI in order && Fate(sent, pending.list, pRI, None)
      modifies this`sent, this`acknowledged, this`grabs, this`w, pending, order`pNext, order`wasAckSent
      ensures Valid() && SameDispatch(old(w), w)
      ensures Fate(sent, pending.list, pRI, FirstAnswer(calls, pRI))
      ensures var run := CallsRun(old(w), order, pRI, calls); P.Legal(old(w), run) && w == P.Run(old(w), run)
    {
      hide P.Inv, P.Legal, P.Run, ListMatches, SentMatches, RequestsMatch, Chain, Fate, FirstAnswer, CallRun;
      P.NoSteps(w);
      ghost var got: Option<int>, done: seq<P.Step> := None, [];
      assert calls[0..] == calls;
      for i := 0 to |calls|
        invariant Valid() && SameDispatch(old(w), w)
        invariant Fate(sent, pending.list, pRI, got)
        invariant (if got.Some? then got else FirstAnswer(calls[i..], pRI)) == FirstAnswer(calls, pRI)
        invariant P.Legal(old(w), done) && w == P.Run(old(w), done)
        invariant done + CallsRun(w, order, pRI, calls[i..]) == CallsRun(old(w), order, pRI, calls)
      {
        assert calls[i..][0] == calls[i] && calls[i..][1..] == calls[i + 1..];
        ghost var run := CallRun(w, order, pRI, calls[i]);
        AnswerStep(calls[i..], pRI);
        got := Call(pRI, calls[i], got);
        P.Then(old(w), done, run);
        done := done + run;
      }
      assert done + [] == done;
    }

    /** One call of the vendor. */
    method Call(pRI: RequestInfo, call: VendorCall, ghost got: Option<int>) returns (ghost got': Option<int>)
      requires Valid() && pRI in order && Fate(sent, pending.list, pRI, got)
      modifies this`sent, this`acknowledged, this`grabs, this`w, pending, order`pNext, order`wasAckSent
      ensures Valid() && SameDispatch(old(w), w)
      ensures got' == if got.None? && CompletesOwn(call, pRI) then Some(call.error) else got
      ensures Fate(sent, pending.list, pRI, got')
      ensures var run := CallRun(old(w), order, pRI, call); P.Legal(old(w), run) && w == P.Run(old(w), run)
    {
      hide P.Inv, P.Legal, P.Run, ListMatches, SentMatches, RequestsMatch, Chain, Minus, Fate;
      var t := if call.own then pRI else call.other;
      ghost var id := Identity(order, t);
      got' := got;
      if call.isAck {
        AckIsRun(w, id);
        OnRequestAck(t);
      } else {
        CompleteIsRun(w, P.Complete(id), id);
        ghost var sent0, list0 := sent, pending.list;
        OnRequestComplete(t, call.error, false);
        FateOfCompletion(sent0, list0, sent, pending.list, pRI, got, t, call.error);
        got' := if got.None? && t == pRI then Some(call.error) else got;
      }
    }

    /** The completion a dispatcher makes up: whatever the vendor has done, the request is answered and gone. */
    method FakeCompletion(pRI: RequestInfo, ghost got: Option<int>)
      requires Valid() && pRI in order && Identity(order, pRI) in w.owed && Fate(sent, pending.list, pRI, got)
      modifies this`sent, this`grabs, this`w, pending, order`pNext, order`wasAckSent
      ensures Valid() && Fate(sent, pending.list, pRI, if got.None? then Some(0) else got)
      ensures var id := Identity(order, pRI);
              var run := CompleteRun(old(w), P.Fake(id), id); P.Legal(old(w), run) && w == P.Run(old(w), run)
    {
      hide P.Inv, P.Legal, P.Run, Chain, Minus, ListMatches, SentMatches, Fate, P.Find;
      ghost var sent0, list0 := sent, pending.list;
      OnRequestComplete(pRI, 0, true);
      FateOfCompletion(sent0, list0, sent, pending.list, pRI, got, pRI, 0);
    }

    /** sendErrorResponse: the request stays in the list. */
    method SendErrorResponse(pRI: RequestInfo, err: int)
      requires Valid() && pRI in order && Identity(order, pRI) in w.dispatching
      modifies this`errors, this`w
      ensures Valid() && w == P.Next(old(w), P.SendError(Identity(order, pRI)))
      ensures errors == old(errors) + [Sent(pRI, pRI.token, pRI.socketId, RESPONSE_SOLICITED, err)]
    {
      hide P.Inv, Chain, ListMatches, SentMatches;
      ghost var id := Identity(order, pRI);
      P.StepKeeps(w, P.SendError(id));
      AnswersMatch(order, errors, w.errors, Sent(pRI, pRI.token, pRI.socketId, RESPONSE_SOLICITED, err),
                   P.Response(id, pRI.token, pRI.socketId, false));
      errors := errors + [Sent(pRI, pRI.token, pRI.socketId, RESPONSE_SOLICITED, err)];
      w := P.Next(w, P.SendError(id));
    }

    /** Copies the strings one by one; a text longer than its size says is refused and answered with an error. */
    method CopyStrings(pRI: RequestInfo, strings: seq<HidlString>, allowEmpty: bool) returns (ok: bool)
      requires Valid() && pRI in order && Identity(order, pRI) in w.dispatching
      modifies this`errors, this`w
      ensures Valid() && (ok <==> forall i | 0 <= i < |strings| ::
                             (strings[i].size == 0 && !allowEmpty) || strings[i].length <= strings[i].size)
      ensures ok ==> w == old(w) && errors == old(errors)
      ensures !ok ==> w == P.Next(old(w), P.SendError(Identity(order, pRI)))
      ensures !ok ==>
                errors == old(errors)
                       + [Sent(pRI, pRI.token, pRI.socketId, RESPONSE_SOLICITED, RIL_E_INTERNAL_ERR)]
    {
      hide Valid, P.Next;
      for i := 0 to |strings|
        invariant Valid() && w == old(w) && errors == old(errors)
        invariant forall j | 0 <= j < i ::
                    (strings[j].size == 0 && !allowEmpty) || strings[j].length <= strings[j].size
      {
        if strings[i].size == 0 && !allowEmpty {
          continue;
        }
        if strings[i].length >= strings[i].size + 1 {
          SendErrorResponse(pRI, RIL_E_INTERNAL_ERR);
          return false;
        }
      }
      return true;
    }

    /**
     dispatchStrings. Network selection requests are completed here, whether or not the vendor has already
     done so; by Valid the request has one response all the same. If a string cannot be copied the vendor is
     not called, and the request gets an error answer and stays listed.
     */
    method DispatchStrings(serial: int, slotId: int, request: int, allowEmpty: bool, strings: seq<HidlString>,
                           calls: seq<VendorCall>)
      returns (ok: bool, pRI: RequestInfo?)
      requires Valid() && 0 <= request
      modifies this`sent, this`errors, this`acknowledged, this`grabs, this`order, this`w
      modifies pending, order`pNext, order`wasAckSent
      ensures Valid()
      ensures pRI == null <==> request >= NUM_COMMANDS
      ensures pRI == null ==> !ok && w == old(w) && order == old(order)
      ensures pRI != null ==>
                && fresh(pRI) && order == old(order) + [pRI] && pRI.token == serial && pRI.socketId == slotId
                && (ok <==> forall i | 0 <= i < |strings| ::
                             (strings[i].size == 0 && !allowEmpty) || strings[i].length <= strings[i].size)
      ensures ok ==>
                Fate(sent, pending.list, pRI,
                     if FirstAnswer(calls, pRI).None? && request == 47 then Some(0) else FirstAnswer(calls, pRI))
      ensures ok ==> Dispatched(old(w), w, order, pRI, serial, slotId, request, calls)
      ensures !ok ==> sent == old(sent) && acknowledged == old(acknowledged)
      ensures !ok && pRI != null ==>
                && pending.list == [pRI] + old(pending.list)
                && errors == old(errors) + [Sent(pRI, serial, slotId, RESPONSE_SOLICITED, RIL_E_INTERNAL_ERR)]
    {
      hide Valid, Identity, Fate, FirstAnswer, CallsRun, CompleteRun, P.Inv, Idle, P.Legal, P.Run;
      pRI := Issue(serial, slotId, request);
      if pRI == null {
        return false, null;
      }
      ok := CopyStrings(pRI, strings, allowEmpty);
      if !ok {
        return;
      }
      Hand(pRI);
      OnRequest(pRI, calls);
      if request == P.RIL_REQUEST_SET_NETWORK_SELECTION_MANUAL {
        FakeCompletion(pRI, FirstAnswer(calls, pRI));
      }
    }
  }

  lemma AnswerStep(calls: seq<VendorCall>, own: RequestInfo)
    requires calls != []
    ensures FirstAnswer(calls, own)
         == if CompletesOwn(calls[0], own) then Some(calls[0].error) else FirstAnswer(calls[1..], own)
  {
  }
}
