/**
 Ril_queue and the SAP socket that uses it: requests waiting for the modem, found again by message id and
 token, and freed together with their headers.
 */
module SapQueue {
  import opened Sequences

  class MsgHeader {
    const id: int
    const token: int

    constructor (id: int, token: int)
      ensures this.id == id && this.token == token
    {
      this.id, this.token := id, token;
    }
  }

  class SapSocketRequest {
    const token: int
    const curr: MsgHeader
    var pNext: SapSocketRequest?

    constructor (curr: MsgHeader)
      ensures this.curr == curr && token == curr.token && pNext == null
    {
      this.curr, this.token, this.pNext := curr, curr.token, null;
    }
  }

  datatype Response = Response(id: int, token: int, error: int)

  // ---------- the list ----------

  ghost function At(list: seq<SapSocketRequest>, k: nat): SapSocketRequest? {
    if k < |list| then list[k] else null
  }

  ghost predicate Chain(front: SapSocketRequest?, list: seq<SapSocketRequest>)
    reads list`pNext
  {
    && front == At(list, 0)
    && (forall i, j | 0 <= i < j < |list| :: list[i] != list[j])
    && (forall i | 0 <= i < |list| :: list[i].pNext == At(list, i + 1))
  }

  predicate Matches(r: SapSocketRequest, id: int, token: int) {
    token == r.token && id == r.curr.id
  }

  /** Where the first match is, or the length of the list. */
  ghost function FirstMatch(list: seq<SapSocketRequest>, id: int, token: int): (k: nat)
    ensures k <= |list|
    ensures forall i | 0 <= i < k :: !Matches(list[i], id, token)
    ensures k < |list| ==> Matches(list[k], id, token)
  {
    if list == [] || Matches(list[0], id, token) then 0 else 1 + FirstMatch(list[1..], id, token)
  }

  lemma FirstMatchIs(list: seq<SapSocketRequest>, id: int, token: int, k: nat)
    requires k <= |list|
    requires forall i | 0 <= i < k :: !Matches(list[i], id, token)
    requires k < |list| ==> Matches(list[k], id, token)
    ensures k == FirstMatch(list, id, token)
  {
  }

  ghost function Reversed(s: seq<SapSocketRequest>): (r: seq<SapSocketRequest>)
    ensures |r| == |s| && (forall i | 0 <= i < |r| :: r[i] == s[|s| - 1 - i])
    ensures forall x | x in r :: x in s
  {
    if s == [] then [] else [s[|s| - 1]] + Reversed(s[..|s| - 1])
  }

  /**
   The request nearest the front with this id and this token, if there is one, has left the list and been
   freed; the others keep their order.
   */
  ghost predicate Taken(before: seq<SapSocketRequest>, after: seq<SapSocketRequest>, freedBefore: set<SapSocketRequest>,
                        freedAfter: set<SapSocketRequest>, id: int, token: int, ret: int) {
    if forall i | 0 <= i < |before| :: before[i].token != token || before[i].curr.id != id then
      ret == 0 && after == before && freedAfter == freedBefore
    else
      && ret == 1
      && exists k :: 0 <= k < |before| && before[k].token == token && before[k].curr.id == id
                     && (forall i | 0 <= i < k :: before[i].token != token || before[i].curr.id != id)
                     && after == before[..k] + before[k + 1..] && freedAfter == freedBefore + {before[k]}
  }

  lemma TakenFirst(list: seq<SapSocketRequest>, freed: set<SapSocketRequest>, id: int, token: int)
    ensures var k := FirstMatch(list, id, token);
            if k == |list| then Taken(list, list, freed, freed, id, token, 0)
            else Taken(list, Without(list, k), freed, freed + {list[k]}, id, token, 1)
  {
    hide FirstMatch;
  }

  class RilQueue {
    var front: SapSocketRequest?
    /** The request structures given to free so far. */
    var freed: set<SapSocketRequest>
    ghost var list: seq<SapSocketRequest>

    ghost predicate Valid()
      reads this, list`pNext
    {
      Chain(front, list)
    }

    constructor ()
      ensures Valid() && list == [] && freed == {}
    {
      front, freed, list := null, {}, [];
    }

    /** New requests go to the front: the queue is last in, first out. */
    method Enqueue(request: SapSocketRequest)
      requires Valid() && request !in list
      modifies this`front, this`list, request`pNext
      ensures Valid() && list == [request] + old(list)
    {
      if front == null {
        front := request;
        request.pNext := null;
      } else {
        request.pNext := front;
        front := request;
      }
      list := [request] + list;
    }

    /**
     Waits until the queue is not empty, then takes the first request: the newest one. idle counts the
     times the wait ends with the queue still empty; arrivals are enqueued before it ends for good.
     */
    method Dequeue(idle: nat, arrivals: seq<SapSocketRequest>) returns (temp: SapSocketRequest)
      requires Valid() && (list != [] || arrivals != [])
      requires forall i, j | 0 <= i < j < |arrivals| :: arrivals[i] != arrivals[j]
      modifies this`front, this`list, arrivals`pNext
      ensures Valid()
      ensures old(list) != [] ==> [temp] + list == old(list)
      ensures old(list) == [] ==> [temp] + list == Reversed(arrivals)
    {
      var left := idle;
      while front == null
        invariant Valid() && (if old(list) == [] then list == [] || list == Reversed(arrivals) else list == old(list))
        decreases front == null, left
      {
        if left > 0 {
          left := left - 1;
        } else {
          EnqueueAll(arrivals);
        }
      }
      temp := front;
      if front.pNext != null {
        front := front.pNext;
      } else {
        front := null;
      }
      list := list[1..];
    }

    method EnqueueAll(requests: seq<SapSocketRequest>)
      requires Valid() && list == [] && forall i, j | 0 <= i < j < |requests| :: requests[i] != requests[j]
      modifies this`front, this`list, requests`pNext
      ensures Valid() && list == Reversed(requests)
    {
      for i := 0 to |requests|
        invariant Valid() && list == Reversed(requests[..i])
      {
        assert requests[..i + 1][..i] == requests[..i];
        assert requests[i] !in requests[..i];
        Enqueue(requests[i]);
      }
      assert requests[..|requests|] == requests;
    }

    method Unlink(prev: SapSocketRequest?, cur: SapSocketRequest, ghost k: nat)
      requires Valid() && k < |list| && cur == list[k]
      requires prev == if k == 0 then null else list[k - 1]
      modifies this`front, this`list, list`pNext
      ensures Valid() && list == Without(old(list), k)
    {
      if prev == null {
        front := cur.pNext;
      } else {
        prev.pNext := cur.pNext;
      }
      list := Without(list, k);
    }

    /** prev plays ppCur, as null for the front pointer. Removes and frees the first match only. */
    method CheckAndDequeue(id: int, token: int) returns (ret: int)
      requires Valid()
      modifies this, list`pNext
      ensures Valid()
      ensures var k := FirstMatch(old(list), id, token);
              if k == |old(list)| then ret == 0 && list == old(list) && freed == old(freed)
              else ret == 1 && list == Without(old(list), k) && freed == old(freed) + {old(list)[k]}
      ensures Taken(old(list), list, old(freed), freed, id, token, ret)
    {
      hide FirstMatch, Without, Taken;
      TakenFirst(list, freed, id, token);
      ret := 0;
      var prev: SapSocketRequest? := null;
      var cur := front;
      ghost var k := 0;
      while cur != null
        invariant Valid() && list == old(list) && freed == old(freed) && k <= |list|
        invariant cur == At(list, k) && prev == if k == 0 then null else list[k - 1]
        invariant forall i | 0 <= i < k :: !Matches(list[i], id, token)
        decreases |list| - k
      {
        if token == cur.token && id == cur.curr.id {
          FirstMatchIs(list, id, token, k);
          ret := 1;
          Unlink(prev, cur, k);
          freed := freed + {cur};
          return;
        }
        prev := cur;
        cur := cur.pNext;
        k := k + 1;
      }
      FirstMatchIs(list, id, token, |list|);
    }
  }

  // ---------- the socket ----------

  /** No two pending requests have the same message id and token. */
  ghost predicate DistinctKeys(list: seq<SapSocketRequest>) {
    forall i, j | 0 <= i < j < |list| :: !Matches(list[j], list[i].curr.id, list[i].token)
  }

  /** Pending requests have headers of their own. */
  ghost predicate OwnHeaders(list: seq<SapSocketRequest>) {
    && (forall i | 0 <= i < |list| :: list[i].token == list[i].curr.token)
    && (forall i, j | 0 <= i < j < |list| :: list[i].curr != list[j].curr && list[i] != list[j])
  }

  ghost predicate HeadersLive(list: seq<SapSocketRequest>, freedHeaders: set<MsgHeader>) {
    forall i | 0 <= i < |list| :: list[i].curr !in freedHeaders
  }

  /** What a completion of list[k] does to the queue. */
  ghost function Completed(list: seq<SapSocketRequest>, k: nat): seq<SapSocketRequest>
    requires k < |list|
  {
    var m := FirstMatch(list, list[k].curr.id, list[k].token);
    Without(list, m)
  }

  /** No request nearer the front has the key of list[k]. */
  ghost predicate FirstOfKey(list: seq<SapSocketRequest>, k: nat)
    requires k < |list|
  {
    forall i | 0 <= i < k :: !Matches(list[i], list[k].curr.id, list[k].token)
  }

  /**
   Completing list[k] frees list[k] itself, and leaves no pending request with a freed header, if and only
   if no request nearer the front has the same message id and token.
   */
  lemma CompletesOwnIffFirst(list: seq<SapSocketRequest>, k: nat, freedHeaders: set<MsgHeader>)
    requires k < |list| && OwnHeaders(list) && HeadersLive(list, freedHeaders)
    ensures var first := FirstOfKey(list, k);
            var m := FirstMatch(list, list[k].curr.id, list[k].token);
            && m <= k
            && (list[m] == list[k] <==> first)
            && (HeadersLive(Completed(list, k), freedHeaders + {list[k].curr}) <==> first)
            && (first ==> Completed(list, k) == Without(list, k))
  {
    hide FirstMatch, Without;
    var id, token := list[k].curr.id, list[k].token;
    var m := FirstMatch(list, id, token);
    assert Matches(list[k], id, token);
    var r := Without(list, m);
    if m < k {
      assert r[k - 1] == list[k];
    } else {
      assert forall i | 0 <= i < |r| :: r[i] == list[if i < k then i else i + 1];
      assert HeadersLive(r, freedHeaders + {list[k].curr});
    }
  }

  class SapSocket {
    const pending: RilQueue
    var freedHeaders: set<MsgHeader>
    var responses: seq<Response>

    /** The list is well formed, its requests have headers of their own, and none of them has been freed. */
    ghost predicate Valid()
      reads this, pending, pending.list`pNext
    {
      && pending.Valid() && OwnHeaders(pending.list)
      && (forall i | 0 <= i < |pending.list| :: pending.list[i] !in pending.freed)
    }

    /** No pending request refers to a freed header. */
    ghost predicate Sound()
      reads this, pending
    {
      HeadersLive(pending.list, freedHeaders)
    }

    constructor ()
      ensures Valid() && Sound() && fresh(pending)
      ensures pending.list == [] && pending.freed == {} && freedHeaders == {} && responses == []
    {
      pending := new RilQueue();
      freedHeaders, responses := {}, [];
    }

    /** dispatchRequest, up to the call of the vendor. The header is a new one; its key may be pending already. */
    method DispatchRequest(req: MsgHeader) returns (request: SapSocketRequest)
      requires Valid() && req !in freedHeaders && forall i | 0 <= i < |pending.list| :: pending.list[i].curr != req
      modifies pending
      ensures Valid() && Sound() == old(Sound())
      ensures fresh(request) && request.curr == req && pending.list == [request] + old(pending.list)
      ensures pending.freed == old(pending.freed)
      ensures DistinctKeys(pending.list) <==>
                && DistinctKeys(old(pending.list))
                && forall i | 0 <= i < |old(pending.list)| :: !Matches(old(pending.list)[i], req.id, req.token)
    {
      hide Chain, DistinctKeys, Matches, OwnHeaders, HeadersLive;
      request := new SapSocketRequest(req);
      KeysWith(pending.list, request, freedHeaders);
      pending.Enqueue(request);
    }

    /**
     onRequestComplete, for any request whose memory is still there: one response with its id and token, the
     first pending request with its key is freed, and so is its header. For a pending request these are its
     own, and no pending request keeps a freed header, if and only if none nearer the front has its key.
     */
    method OnRequestComplete(t: SapSocketRequest?, e: int)
      requires Valid() && Sound() && (t != null ==> t.curr !in freedHeaders && t !in pending.freed)
      modifies this, pending, pending.list`pNext
      ensures Valid()
      ensures t == null ==>
                pending.list == old(pending.list) && responses == old(responses) && freedHeaders == old(freedHeaders)
      ensures t != null ==>
                && responses == old(responses) + [Response(t.curr.id, t.curr.token, e)]
                && freedHeaders == old(freedHeaders) + {t.curr}
                && var m := FirstMatch(old(pending.list), t.curr.id, t.curr.token);
                   if m == |old(pending.list)| then
                     pending.list == old(pending.list) && pending.freed == old(pending.freed)
                   else
                     && pending.list == Without(old(pending.list), m)
                     && pending.freed == old(pending.freed) + {old(pending.list)[m]}
      ensures forall k | 0 <= k < |old(pending.list)| && old(pending.list)[k] == t ::
                var first := FirstOfKey(old(pending.list), k);
                && (Sound() <==> first)
                && (pending.freed == old(pending.freed) + {t} <==> first)
                && (first ==> pending.list == Without(old(pending.list), k))
      ensures DistinctKeys(old(pending.list)) ==> DistinctKeys(pending.list) && (t in old(pending.list) ==> Sound())
    {
      hide FirstMatch, Without, Chain, Matches, FirstOfKey, DistinctKeys, Taken;
      if t == null {
        return;
      }
      var hdr := t.curr;
      responses := responses + [Response(hdr.id, hdr.token, e)];
      ghost var list := pending.list;
      forall k | 0 <= k < |list| && list[k] == t
        ensures FirstMatch(list, hdr.id, hdr.token) <= k
        ensures list[FirstMatch(list, hdr.id, hdr.token)] == t <==> FirstOfKey(list, k)
        ensures HeadersLive(Completed(list, k), freedHeaders + {hdr}) <==> FirstOfKey(list, k)
        ensures FirstOfKey(list, k) ==> Completed(list, k) == Without(list, k)
        ensures DistinctKeys(list) ==> FirstOfKey(list, k)
      {
        CompletesOwnIffFirst(list, k, freedHeaders);
        DistinctFirst(list, k);
      }
      ghost var m := FirstMatch(list, hdr.id, hdr.token);
      if m < |list| {
        KeysWithout(list, m);
      }
      var found := pending.CheckAndDequeue(hdr.id, hdr.token);
      freedHeaders := freedHeaders + {hdr};
    }
  }

  lemma KeysWith(list: seq<SapSocketRequest>, r: SapSocketRequest, freedHeaders: set<MsgHeader>)
    requires r.token == r.curr.token && r !in list && r.curr !in freedHeaders && OwnHeaders(list)
    requires forall i | 0 <= i < |list| :: list[i].curr != r.curr
    ensures OwnHeaders([r] + list) && (HeadersLive([r] + list, freedHeaders) <==> HeadersLive(list, freedHeaders))
    ensures DistinctKeys([r] + list) <==>
              DistinctKeys(list) && forall i | 0 <= i < |list| :: !Matches(list[i], r.curr.id, r.curr.token)
  {
    hide Matches;
    var l := [r] + list;
    assert forall i | 0 < i < |l| :: l[i] == list[i - 1];
    if DistinctKeys(l) {
      forall i | 0 <= i < |list|
        ensures !Matches(list[i], r.curr.id, r.curr.token)
      {
        assert !Matches(l[i + 1], l[0].curr.id, l[0].token);
      }
      forall i, j | 0 <= i < j < |list|
        ensures !Matches(list[j], list[i].curr.id, list[i].token)
      {
        assert !Matches(l[j + 1], l[i + 1].curr.id, l[i + 1].token);
      }
    }
    if HeadersLive(l, freedHeaders) {
      assert forall i | 0 <= i < |list| :: list[i] == l[i + 1];
    }
  }

  lemma DistinctFirst(list: seq<SapSocketRequest>, k: nat)
    requires k < |list| && OwnHeaders(list)
    ensures DistinctKeys(list) ==> FirstOfKey(list, k)
  {
    if DistinctKeys(list) {
      forall i | 0 <= i < k
        ensures !Matches(list[i], list[k].curr.id, list[k].token)
      {
        assert !Matches(list[k], list[i].curr.id, list[i].token);
      }
    }
  }

  lemma KeysWithout(list: seq<SapSocketRequest>, k: nat)
    requires k < |list| && OwnHeaders(list)
    ensures OwnHeaders(Without(list, k)) && (DistinctKeys(list) ==> DistinctKeys(Without(list, k)))
  {
    var r := Without(list, k);
    assert forall i | 0 <= i < |r| :: r[i] == list[if i < k then i else i + 1];
  }

  /**
   Two pending requests with one key: completing the older frees the newer, and leaves the older pending
   with its header freed.
   */
  method SameKeyFreesWrong(id: int, token: int)
    returns (older: SapSocketRequest, newer: SapSocketRequest, socket: SapSocket)
    ensures older != newer && older.curr != newer.curr
    ensures socket.Valid() && socket.pending.list == [older] && socket.pending.freed == {newer}
    ensures socket.freedHeaders == {older.curr} && !socket.Sound()
  {
    hide Chain, Without, FirstMatch, FirstOfKey, Taken;
    socket := new SapSocket();
    var h1 := new MsgHeader(id, token);
    var h2 := new MsgHeader(id, token);
    older := socket.DispatchRequest(h1);
    newer := socket.DispatchRequest(h2);
    FirstMatchIs(socket.pending.list, id, token, 0);
    assert Without(socket.pending.list, 0) == [older];
    socket.OnRequestComplete(older, 0);
    assert socket.pending.list[0].curr in socket.freedHeaders;
  }
}
