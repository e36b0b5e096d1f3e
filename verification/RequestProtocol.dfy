/**
 Requests, acks and completions from any number of threads. The critical sections of
 s_pendingRequestsMutex are steps; what an ack or a completion does after it has left the mutex (reading
 the request, grabbing the wake lock, calling the response function, freeing the request) are later steps,
 which may be overtaken by anything.
 */
module RequestProtocol {
  import opened Sequences

  const RIL_REQUEST_SET_NETWORK_SELECTION_MANUAL := 47

  datatype Req = Req(id: nat, serial: int, slot: int, number: int)

  /** A request taken off the list, on its way to its response. grabbed: its wake lock has been taken. */
  datatype Flight = Flight(req: Req, ackSent: bool, grabbed: bool)

  datatype Response = Response(id: nat, serial: int, slot: int, ackExpected: bool)

  /**
   acks: the vendor library has version 13 or later. issued[i] is the request with identity i; dispatching
   are those whose dispatcher has not called the vendor yet, owed those whose dispatcher is about to fake a
   completion. unread are accepted acks whose thread has yet to read the request; acknowledged are the serials
   those threads passed on, and misread counts the reads that met a freed request. errors are the answers of
   sendErrorResponse, which leaves the request listed.
   */
  datatype World = World(acks: bool, issued: seq<Req>, dispatching: set<nat>, owed: set<nat>, listed: seq<Req>,
                         acked: set<nat>, unread: seq<nat>, acknowledged: seq<int>, misread: nat,
                         flights: seq<Flight>, responses: seq<Response>, freed: set<nat>, grabs: nat,
                         errors: seq<Response>)

  datatype Step =
    | Issue(serial: int, slot: int, number: int)
    | Hand(id: nat)
    | SendError(id: nat)
    | Ack(id: nat)
    | ReadAck(k: nat)
    | Complete(id: nat)
    | Fake(id: nat)
    | Grab(f: nat)
    | Respond(f: nat)
    | Free(id: nat)

  /** Where the token is in the list, or the length of the list. */
  ghost function Find(list: seq<Req>, id: nat): (k: nat)
    ensures k <= |list|
    ensures forall i | 0 <= i < k :: list[i].id != id
    ensures k < |list| ==> list[k].id == id
  {
    if list == [] || list[0].id == id then 0 else 1 + Find(list[1..], id)
  }

  ghost predicate Listed(s: World, id: nat) {
    Find(s.listed, id) < |s.listed|
  }

  ghost predicate Responded(rs: seq<Response>, id: nat) {
    exists i :: 0 <= i < |rs| && rs[i].id == id
  }

  ghost predicate Enabled(s: World, step: Step) {
    match step
    case Issue(_, _, _) => true
    case Hand(id) => id in s.dispatching && id < |s.issued|
    case SendError(id) => id in s.dispatching && id < |s.issued|
    case Ack(_) => true
    case ReadAck(k) => k < |s.unread| && s.unread[k] < |s.issued|
    case Complete(_) => true
    case Fake(id) => id in s.owed
    case Grab(f) => f < |s.flights| && s.flights[f].ackSent && !s.flights[f].grabbed
    case Respond(f) => f < |s.flights| && s.flights[f].ackSent == s.flights[f].grabbed
    case Free(id) => Responded(s.responses, id) && id !in s.freed
  }

  /** Completing a token that is not listed changes nothing. */
  ghost function Dequeue(s: World, id: nat): World {
    if !Listed(s, id) then s
    else
      var k := Find(s.listed, id);
      s.(listed := Without(s.listed, k),
         flights := s.flights + [Flight(s.listed[k], s.acks && id in s.acked, false)])
  }

  ghost function Next(s: World, step: Step): World
    requires Enabled(s, step)
  {
    match step
    case Issue(serial, slot, number) =>
      var r := Req(|s.issued|, serial, slot, number);
      s.(issued := s.issued + [r], listed := [r] + s.listed, dispatching := s.dispatching + {r.id})
    case Hand(id) =>
      var manual := s.issued[id].number == RIL_REQUEST_SET_NETWORK_SELECTION_MANUAL;
      s.(dispatching := s.dispatching - {id}, owed := if manual then s.owed + {id} else s.owed)
    case SendError(id) =>
      s.(dispatching := s.dispatching - {id},
         errors := s.errors + [Response(id, s.issued[id].serial, s.issued[id].slot, false)])
    case Ack(id) => if Listed(s, id) then s.(acked := s.acked + {id}, unread := s.unread + [id]) else s
    case ReadAck(k) =>
      var t := s.(unread := Without(s.unread, k));
      if s.unread[k] in s.freed then t.(misread := s.misread + 1)
      else t.(acknowledged := s.acknowledged + [s.issued[s.unread[k]].serial])
    case Complete(id) => Dequeue(s, id)
    case Fake(id) => Dequeue(s.(owed := s.owed - {id}), id)
    case Grab(f) => s.(flights := s.flights[f := s.flights[f].(grabbed := true)], grabs := s.grabs + 1)
    case Respond(f) =>
      var fl := s.flights[f];
      s.(flights := Without(s.flights, f),
         responses := s.responses + [Response(fl.req.id, fl.req.serial, fl.req.slot, fl.ackSent)])
    case Free(id) => s.(freed := s.freed + {id})
  }

  ghost predicate Init(s: World) {
    s == World(s.acks, [], {}, {}, [], {}, [], [], 0, [], [], {}, 0, [])
  }

  // ---------- every request is in one place ----------

  ghost function ListedIds(list: seq<Req>): (r: seq<nat>)
    ensures |r| == |list| && forall i | 0 <= i < |r| :: r[i] == list[i].id
  {
    seq(|list|, i requires 0 <= i < |list| => list[i].id)
  }

  ghost function FlightIds(fs: seq<Flight>): (r: seq<nat>)
    ensures |r| == |fs| && forall i | 0 <= i < |r| :: r[i] == fs[i].req.id
  {
    seq(|fs|, i requires 0 <= i < |fs| => fs[i].req.id)
  }

  ghost function ResponseIds(rs: seq<Response>): (r: seq<nat>)
    ensures |r| == |rs| && forall i | 0 <= i < |r| :: r[i] == rs[i].id
  {
    seq(|rs|, i requires 0 <= i < |rs| => rs[i].id)
  }

  ghost function GrabFlags(fs: seq<Flight>): (r: seq<bool>)
    ensures |r| == |fs| && forall i | 0 <= i < |r| :: r[i] == fs[i].grabbed
  {
    seq(|fs|, i requires 0 <= i < |fs| => fs[i].grabbed)
  }

  ghost function AckFlags(rs: seq<Response>): (r: seq<bool>)
    ensures |r| == |rs| && forall i | 0 <= i < |r| :: r[i] == rs[i].ackExpected
  {
    seq(|rs|, i requires 0 <= i < |rs| => rs[i].ackExpected)
  }

  ghost function Places(s: World): multiset<nat> {
    multiset(ListedIds(s.listed)) + multiset(FlightIds(s.flights)) + multiset(ResponseIds(s.responses))
  }

  /** Each identity handed out is listed, in flight or answered: exactly one of these, exactly once. */
  ghost predicate Placed(s: World) {
    forall id: nat :: Places(s)[id] == if id < |s.issued| then 1 else 0
  }

  /** As many grabs as responses that expect an ack, counting those still on their way. */
  ghost predicate GrabsMatch(s: World) {
    s.grabs == multiset(AckFlags(s.responses))[true] + multiset(GrabFlags(s.flights))[true]
  }

  ghost predicate ListGenuine(s: World) {
    && (forall i | 0 <= i < |s.issued| :: s.issued[i].id == i)
    && (forall i | 0 <= i < |s.listed| :: s.listed[i].id < |s.issued| && s.listed[i] == s.issued[s.listed[i].id])
    && (forall id | id in s.acked :: id < |s.issued|)
  }

  ghost predicate FlightsGenuine(s: World) {
    forall i | 0 <= i < |s.flights| ::
      && s.flights[i].req.id < |s.issued| && s.flights[i].req == s.issued[s.flights[i].req.id]
      && s.flights[i].ackSent == (s.acks && s.flights[i].req.id in s.acked)
      && (s.flights[i].grabbed ==> s.flights[i].ackSent)
  }

  ghost predicate ResponsesGenuine(s: World) {
    forall i | 0 <= i < |s.responses| ::
      && s.responses[i].id < |s.issued|
      && s.responses[i].serial == s.issued[s.responses[i].id].serial
      && s.responses[i].slot == s.issued[s.responses[i].id].slot
      && s.responses[i].ackExpected == (s.acks && s.responses[i].id in s.acked)
  }

  /** Ids waiting anywhere name issued requests, and only answered requests have been freed. */
  ghost predicate IdsGenuine(s: World) {
    && (forall id | id in s.dispatching || id in s.owed :: id < |s.issued|)
    && (forall k | 0 <= k < |s.unread| :: s.unread[k] < |s.issued|)
    && (forall id | id in s.freed :: Responded(s.responses, id))
  }

  /** Errors go to requests that were never handed to the vendor, one each. */
  ghost predicate ErrorsGenuine(s: World) {
    && (forall i | 0 <= i < |s.errors| ::
          && s.errors[i].id < |s.issued| && s.errors[i].id !in s.dispatching && s.errors[i].id !in s.owed
          && s.errors[i].serial == s.issued[s.errors[i].id].serial
          && s.errors[i].slot == s.issued[s.errors[i].id].slot)
    && (forall i, j | 0 <= i < j < |s.errors| :: s.errors[i].id != s.errors[j].id)
    && s.dispatching !! s.owed
  }

  /** A network selection request that the vendor has seen is listed only while its dispatcher owes a completion. */
  ghost predicate OwedGenuine(s: World) {
    forall i | 0 <= i < |s.listed| && s.listed[i].number == RIL_REQUEST_SET_NETWORK_SELECTION_MANUAL ::
      s.listed[i].id in s.dispatching || s.listed[i].id in s.owed || Responded(s.errors, s.listed[i].id)
  }

  ghost predicate Genuine(s: World) {
    && ListGenuine(s) && FlightsGenuine(s) && ResponsesGenuine(s)
    && IdsGenuine(s) && ErrorsGenuine(s) && OwedGenuine(s)
  }

  ghost predicate Inv(s: World) {
    Placed(s) && Genuine(s) && GrabsMatch(s)
  }

  lemma IssuePlaced(s: World, serial: int, slot: int, number: int)
    requires Placed(s)
    ensures Placed(Next(s, Issue(serial, slot, number)))
    ensures GrabsMatch(Next(s, Issue(serial, slot, number))) == GrabsMatch(s)
  {
    var t, n := Next(s, Issue(serial, slot, number)), |s.issued|;
    assert ListedIds(t.listed) == [n] + ListedIds(s.listed);
    assert Places(t) == Places(s) + multiset{n};
  }

  lemma MoveOne(a: seq<nat>, k: nat, b: seq<nat>)
    requires k < |a|
    ensures multiset(Without(a, k)) + multiset(b + [a[k]]) == multiset(a) + multiset(b)
  {
    WithoutOne(a, k);
  }

  lemma DequeuePlaced(s: World, id: nat)
    ensures Places(Dequeue(s, id)) == Places(s)
  {
    hide ListedIds, FlightIds, ResponseIds;
    if Listed(s, id) {
      var k, t := Find(s.listed, id), Dequeue(s, id);
      assert ListedIds(t.listed) == Without(ListedIds(s.listed), k);
      assert FlightIds(t.flights) == FlightIds(s.flights) + [id];
      MoveOne(ListedIds(s.listed), k, FlightIds(s.flights));
    }
  }

  lemma DequeueGrabs(s: World, id: nat)
    ensures GrabsMatch(Dequeue(s, id)) == GrabsMatch(s)
  {
    if Listed(s, id) {
      assert GrabFlags(Dequeue(s, id).flights) == GrabFlags(s.flights) + [false];
    }
  }

  lemma GrabPlaced(s: World, f: nat)
    requires Enabled(s, Grab(f))
    ensures Places(Next(s, Grab(f))) == Places(s) && GrabsMatch(Next(s, Grab(f))) == GrabsMatch(s)
  {
    var t := Next(s, Grab(f));
    assert FlightIds(t.flights) == FlightIds(s.flights);
    assert GrabFlags(t.flights) == GrabFlags(s.flights)[f := true];
  }

  lemma RespondPlaced(s: World, f: nat)
    requires Enabled(s, Respond(f))
    ensures Places(Next(s, Respond(f))) == Places(s)
  {
    hide ListedIds, FlightIds, ResponseIds;
    var t := Next(s, Respond(f));
    assert FlightIds(t.flights) == Without(FlightIds(s.flights), f);
    assert ResponseIds(t.responses) == ResponseIds(s.responses) + [FlightIds(s.flights)[f]];
    MoveOne(FlightIds(s.flights), f, ResponseIds(s.responses));
    var l := multiset(ListedIds(s.listed));
    assert Places(t) == l + (multiset(FlightIds(t.flights)) + multiset(ResponseIds(t.responses)));
    assert Places(s) == l + (multiset(FlightIds(s.flights)) + multiset(ResponseIds(s.responses)));
  }

  lemma RespondGrabs(s: World, f: nat)
    requires Enabled(s, Respond(f))
    ensures GrabsMatch(Next(s, Respond(f))) == GrabsMatch(s)
  {
    var t := Next(s, Respond(f));
    assert GrabFlags(t.flights) == Without(GrabFlags(s.flights), f);
    WithoutOne(GrabFlags(s.flights), f);
    assert AckFlags(t.responses) == AckFlags(s.responses) + [s.flights[f].ackSent];
  }

  /** While a request is listed it is neither in flight nor answered, so an ack never changes their record. */
  lemma ListedOnly(s: World, id: nat)
    requires Placed(s) && Listed(s, id)
    ensures forall i | 0 <= i < |s.flights| :: s.flights[i].req.id != id
    ensures forall i | 0 <= i < |s.responses| :: s.responses[i].id != id
  {
    assert ListedIds(s.listed)[Find(s.listed, id)] == id;
    assert id in multiset(ListedIds(s.listed));
    forall i | 0 <= i < |s.flights|
      ensures s.flights[i].req.id != id
    {
      assert FlightIds(s.flights)[i] in multiset(FlightIds(s.flights));
      assert Places(s)[id] <= 1;
    }
    forall i | 0 <= i < |s.responses|
      ensures s.responses[i].id != id
    {
      assert ResponseIds(s.responses)[i] in multiset(ResponseIds(s.responses));
      assert Places(s)[id] <= 1;
    }
  }

  lemma ListGenuineKeeps(s: World, step: Step)
    requires ListGenuine(s) && Enabled(s, step)
    ensures ListGenuine(Next(s, step))
  {
    if step.Ack? && Listed(s, step.id) {
      assert s.listed[Find(s.listed, step.id)].id == step.id;
    }
  }

  lemma FlightsGenuineKeeps(s: World, step: Step)
    requires Placed(s) && ListGenuine(s) && FlightsGenuine(s) && Enabled(s, step)
    ensures FlightsGenuine(Next(s, step))
  {
    hide Placed;
    if step.Ack? && Listed(s, step.id) {
      ListedOnly(s, step.id);
    }
  }

  lemma ResponsesGenuineKeeps(s: World, step: Step)
    requires Placed(s) && FlightsGenuine(s) && ResponsesGenuine(s) && Enabled(s, step)
    ensures ResponsesGenuine(Next(s, step))
  {
    hide Placed;
    if step.Ack? && Listed(s, step.id) {
      ListedOnly(s, step.id);
    }
  }

  lemma RespondedGrows(rs: seq<Response>, r: Response, id: nat)
    ensures Responded(rs + [r], id) <==> Responded(rs, id) || id == r.id
  {
    if Responded(rs, id) {
      var i :| 0 <= i < |rs| && rs[i].id == id;
      assert (rs + [r])[i].id == id;
    }
    assert (rs + [r])[|rs|] == r;
  }

  lemma IdsGenuineKeeps(s: World, step: Step)
    requires ListGenuine(s) && FlightsGenuine(s) && IdsGenuine(s) && Enabled(s, step)
    ensures IdsGenuine(Next(s, step))
  {
    match step
    case Ack(id) =>
      if Listed(s, id) {
        assert s.listed[Find(s.listed, id)].id == id;
      }
    case Respond(f) => RespondIds(s, f);
    case _ => hide Responded;
  }

  lemma RespondIds(s: World, f: nat)
    requires IdsGenuine(s) && Enabled(s, Respond(f))
    ensures IdsGenuine(Next(s, Respond(f)))
  {
    hide Responded;
    var t := Next(s, Respond(f));
    forall id | id in t.freed
      ensures Responded(t.responses, id)
    {
      RespondedGrows(s.responses, t.responses[|s.responses|], id);
    }
  }

  lemma ErrorsGenuineKeeps(s: World, step: Step)
    requires IdsGenuine(s) && ErrorsGenuine(s) && Enabled(s, step)
    ensures ErrorsGenuine(Next(s, step))
  {
  }

  lemma OwedGenuineKeeps(s: World, step: Step)
    requires Placed(s) && ListGenuine(s) && OwedGenuine(s) && Enabled(s, step)
    ensures OwedGenuine(Next(s, step))
  {
    hide Responded, Placed, Dequeue;
    match step
    case SendError(id) => OwedSendError(s, id);
    case Complete(id) => OwedDequeue(s, s, id);
    case Fake(id) => OwedDequeue(s, s.(owed := s.owed - {id}), id);
    case _ => hide ListGenuine;
  }

  lemma OwedSendError(s: World, id: nat)
    requires OwedGenuine(s) && Enabled(s, SendError(id))
    ensures OwedGenuine(Next(s, SendError(id)))
  {
    hide Responded;
    var t := Next(s, SendError(id));
    forall i | 0 <= i < |s.listed|
      ensures Responded(t.errors, s.listed[i].id) <==> Responded(s.errors, s.listed[i].id) || s.listed[i].id == id
    {
      RespondedGrows(s.errors, t.errors[|s.errors|], s.listed[i].id);
    }
  }

  lemma OwedDequeue(s: World, s': World, id: nat)
    requires Placed(s) && OwedGenuine(s) && (s' == s || s' == s.(owed := s.owed - {id}))
    ensures OwedGenuine(Dequeue(s', id))
  {
    hide Responded, Placed, Find;
    var t, k := Dequeue(s', id), Find(s.listed, id);
    if Listed(s, id) {
      forall i | 0 <= i < |t.listed|
        ensures t.listed[i].id != id && exists j :: 0 <= j < |s.listed| && s.listed[j] == t.listed[i]
      {
        var j := if i < k then i else i + 1;
        ListedOnce(s, k, j);
        assert s.listed[j] == t.listed[i];
      }
    } else {
      assert forall i | 0 <= i < |s.listed| :: s.listed[i].id != id;
    }
  }

  lemma ListedOnce(s: World, i: nat, j: nat)
    requires Placed(s) && i < |s.listed| && j < |s.listed| && i != j
    ensures s.listed[i].id != s.listed[j].id
  {
    if s.listed[i].id == s.listed[j].id {
      assert Places(s)[s.listed[i].id] <= 1;
      TwicePlaced(ListedIds(s.listed), if i < j then i else j, if i < j then j else i);
    }
  }

  lemma StepKeeps(s: World, step: Step)
    requires Inv(s) && Enabled(s, step)
    ensures Inv(Next(s, step))
  {
    hide Places, GrabsMatch, ListGenuine, FlightsGenuine, ResponsesGenuine, IdsGenuine, ErrorsGenuine, OwedGenuine;
    ListGenuineKeeps(s, step);
    FlightsGenuineKeeps(s, step);
    ResponsesGenuineKeeps(s, step);
    IdsGenuineKeeps(s, step);
    ErrorsGenuineKeeps(s, step);
    OwedGenuineKeeps(s, step);
    PlacedKeeps(s, step);
  }

  lemma PlacedKeeps(s: World, step: Step)
    requires Placed(s) && Enabled(s, step)
    ensures Placed(Next(s, step)) && GrabsMatch(Next(s, step)) == GrabsMatch(s)
  {
    hide Places, GrabsMatch;
    match step
    case Issue(serial, slot, number) => IssuePlaced(s, serial, slot, number);
    case Complete(id) =>
      DequeuePlaced(s, id);
      DequeueGrabs(s, id);
    case Fake(id) =>
      SamePlaces(s, s.(owed := s.owed - {id}));
      DequeuePlaced(s.(owed := s.owed - {id}), id);
      DequeueGrabs(s.(owed := s.owed - {id}), id);
    case Grab(f) => GrabPlaced(s, f);
    case Respond(f) =>
      RespondPlaced(s, f);
      RespondGrabs(s, f);
    case _ => SamePlaces(s, Next(s, step));
  }

  lemma SamePlaces(s: World, t: World)
    requires s.listed == t.listed && s.flights == t.flights && s.responses == t.responses && s.grabs == t.grabs
    ensures Places(t) == Places(s) && GrabsMatch(t) == GrabsMatch(s)
  {
  }

  // ---------- runs ----------

  ghost predicate Legal(s: World, run: seq<Step>)
    decreases run
  {
    run != [] ==> Enabled(s, run[0]) && Legal(Next(s, run[0]), run[1..])
  }

  ghost function Run(s: World, run: seq<Step>): World
    requires Legal(s, run)
    decreases run
  {
    if run == [] then s else Run(Next(s, run[0]), run[1..])
  }

  lemma {:induction false} RunKeeps(s: World, run: seq<Step>)
    requires Inv(s) && Legal(s, run)
    ensures Inv(Run(s, run))
    decreases run
  {
    hide Inv, Next, Enabled;
    if run != [] {
      StepKeeps(s, run[0]);
      RunKeeps(Next(s, run[0]), run[1..]);
    }
  }

  lemma {:induction false} InitRun(s: World, run: seq<Step>)
    requires Init(s) && Legal(s, run)
    ensures Inv(Run(s, run))
  {
    hide Next, Enabled, Run, Legal;
    assert Inv(s);
    RunKeeps(s, run);
  }

  /**
   In every interleaving, no request is answered twice, a request is answered only after it has left the
   list, and each response carries the serial and slot of its own request.
   */
  lemma {:induction false} AnsweredAtMostOnce(s: World, run: seq<Step>)
    requires Init(s) && Legal(s, run)
    ensures var r := Run(s, run);
            && (forall i, j | 0 <= i < j < |r.responses| :: r.responses[i].id != r.responses[j].id)
            && (forall i | 0 <= i < |r.responses| ::
                  && !Listed(r, r.responses[i].id) && r.responses[i].id < |r.issued|
                  && r.responses[i].serial == r.issued[r.responses[i].id].serial
                  && r.responses[i].slot == r.issued[r.responses[i].id].slot)
  {
    hide Run, Legal, Next, Enabled;
    InitRun(s, run);
    var r := Run(s, run);
    forall i, j | 0 <= i < j < |r.responses|
      ensures r.responses[i].id != r.responses[j].id
    {
      if r.responses[i].id == r.responses[j].id {
        assert Places(r)[r.responses[i].id] <= 1;
        TwicePlaced(ResponseIds(r.responses), i, j);
      }
    }
    forall i | 0 <= i < |r.responses|
      ensures !Listed(r, r.responses[i].id)
    {
      if Listed(r, r.responses[i].id) {
        ListedOnly(r, r.responses[i].id);
      }
    }
  }

  lemma TwicePlaced(ids: seq<nat>, i: nat, j: nat)
    requires i < j < |ids| && ids[i] == ids[j]
    ensures multiset(ids)[ids[i]] >= 2
  {
    assert ids == ids[..j] + ids[j..];
    assert ids[..j][i] in multiset(ids[..j]);
    assert ids[j..][0] in multiset(ids[j..]);
  }

  /** A response expects an ack, and a wake lock was grabbed for it, exactly when an ack was accepted before. */
  lemma {:induction false} AckExpectedIffAcked(s: World, run: seq<Step>)
    requires Init(s) && Legal(s, run)
    ensures var r := Run(s, run);
            && (forall i | 0 <= i < |r.responses| ::
                  r.responses[i].ackExpected <==> s.acks && r.responses[i].id in r.acked)
            && r.grabs == multiset(AckFlags(r.responses))[true] + multiset(GrabFlags(r.flights))[true]
  {
    hide Run, Legal, Next, Enabled;
    InitRun(s, run);
    SameVersion(s, run);
  }

  lemma {:induction false} SameVersion(s: World, run: seq<Step>)
    requires Legal(s, run)
    ensures Run(s, run).acks == s.acks
    decreases run
  {
    if run != [] {
      SameVersion(Next(s, run[0]), run[1..]);
    }
  }

  // ---------- after the answer ----------

  lemma {:induction false} ResponsesGrow(s: World, run: seq<Step>)
    requires Legal(s, run)
    ensures s.responses <= Run(s, run).responses && s.freed <= Run(s, run).freed
    decreases run
  {
    if run != [] {
      ResponsesGrow(Next(s, run[0]), run[1..]);
    }
  }

  /** An answered request is neither listed nor in flight. */
  lemma RespondedOnly(s: World, id: nat)
    requires Placed(s) && Responded(s.responses, id)
    ensures !Listed(s, id)
    ensures forall i | 0 <= i < |s.flights| :: s.flights[i].req.id != id
  {
    if Listed(s, id) {
      ListedOnly(s, id);
    }
    var i :| 0 <= i < |s.responses| && s.responses[i].id == id;
    assert ResponseIds(s.responses)[i] in multiset(ResponseIds(s.responses));
    assert Places(s)[id] <= 1;
    forall j | 0 <= j < |s.flights|
      ensures s.flights[j].req.id != id
    {
      assert FlightIds(s.flights)[j] in multiset(FlightIds(s.flights));
    }
  }

  /**
   An answer is final. Once a request has its response, however the run goes on, acks and completions of its
   token change nothing, and the response stays as it is and remains the only one.
   */
  lemma {:induction false} AnswerIsFinal(s: World, run: seq<Step>, later: seq<Step>, i: nat)
    requires Init(s) && Legal(s, run) && Legal(Run(s, run), later) && i < |Run(s, run).responses|
    ensures var answer, r := Run(s, run).responses[i], Run(Run(s, run), later);
            && Next(r, Ack(answer.id)) == r && Next(r, Complete(answer.id)) == r
            && (answer.id in r.owed ==> Next(r, Fake(answer.id)) == r.(owed := r.owed - {answer.id}))
            && i < |r.responses| && r.responses[i] == answer
            && (forall j | 0 <= j < |r.responses| && j != i :: r.responses[j].id != answer.id)
            && (forall j | 0 <= j < |r.flights| :: r.flights[j].req.id != answer.id)
            && (answer.id in Run(s, run).acked && s.acks <==> answer.id in r.acked && s.acks)
  {
    hide Run, Legal, Places;
    InitRun(s, run);
    RunKeeps(Run(s, run), later);
    ResponsesGrow(Run(s, run), later);
    SameVersion(s, run);
    SameVersion(Run(s, run), later);
    var answer, r := Run(s, run).responses[i], Run(Run(s, run), later);
    assert r.responses[..|Run(s, run).responses|][i] == answer;
    RespondedOnly(r, answer.id);
    forall j | 0 <= j < |r.responses| && j != i
      ensures r.responses[j].id != answer.id
    {
      RespondedOnce(r, i, j);
    }
  }

  lemma RespondedOnce(s: World, i: nat, j: nat)
    requires Placed(s) && i < |s.responses| && j < |s.responses| && i != j
    ensures s.responses[i].id != s.responses[j].id
  {
    if s.responses[i].id == s.responses[j].id {
      assert Places(s)[s.responses[i].id] <= 1;
      TwicePlaced(ResponseIds(s.responses), if i < j then i else j, if i < j then j else i);
    }
  }

  /**
   Manual network selection: once the vendor call and the dispatcher's own completion are over, and no
   completion is in flight, the request has exactly one response, whatever the vendor did with its token.
   */
  lemma {:induction false} FakeCompletionAnswersOnce(s: World, run: seq<Step>, id: nat)
    requires Init(s) && Legal(s, run)
    requires var r := Run(s, run);
             && id < |r.issued| && r.issued[id].number == RIL_REQUEST_SET_NETWORK_SELECTION_MANUAL
             && id !in r.dispatching && id !in r.owed && !Responded(r.errors, id) && r.flights == []
    ensures var r := Run(s, run);
            !Listed(r, id) && multiset(ResponseIds(r.responses))[id] == 1
  {
    hide Run, Legal, Next, Enabled;
    InitRun(s, run);
    var r := Run(s, run);
    assert id !in ListedIds(r.listed);
    assert Places(r)[id] == 1;
  }

  // ---------- the read after an ack ----------

  lemma {:induction false} ListedStays(s: World, run: seq<Step>, id: nat)
    requires Legal(s, run) && Listed(s, id) && Complete(id) !in run && Fake(id) !in run
    ensures Listed(Run(s, run), id)
    decreases run
  {
    if run != [] {
      ListedStep(s, run[0], id);
      ListedStays(Next(s, run[0]), run[1..], id);
    }
  }

  /** Another request leaves the list. */
  lemma FoundAfterWithout(list: seq<Req>, k: nat, id: nat)
    requires k < |list| && list[k].id != id && Find(list, id) < |list|
    ensures Find(Without(list, k), id) < |list| - 1
  {
    var j := Find(list, id);
    assert Without(list, k)[if j < k then j else j - 1].id == id;
  }

  lemma ListedAfterDequeue(s: World, x: nat, id: nat)
    requires Listed(s, id) && x != id
    ensures Listed(Dequeue(s, x), id)
  {
    if Listed(s, x) {
      FoundAfterWithout(s.listed, Find(s.listed, x), id);
    }
  }

  lemma ListedStep(s: World, step: Step, id: nat)
    requires Enabled(s, step) && Listed(s, id) && step != Complete(id) && step != Fake(id)
    ensures Listed(Next(s, step), id)
  {
    hide Dequeue, Find;
    match step
    case Issue(_, _, _) => assert Next(s, step).listed[Find(s.listed, id) + 1] == s.listed[Find(s.listed, id)];
    case Complete(x) => ListedAfterDequeue(s, x, id);
    case Fake(x) => ListedAfterDequeue(s.(owed := s.owed - {x}), x, id);
    case _ => assert Next(s, step).listed == s.listed;
  }

  /** No further completion of id is accepted in the run. */
  ghost predicate NotCompleted(run: seq<Step>, id: nat) {
    Complete(id) !in run && Fake(id) !in run
  }

  /** The threads already under way can finish a completion that has been accepted. */
  lemma CompletionEnds(s: World, id: nat) returns (more: seq<Step>)
    requires Inv(s) && id < |s.issued| && !Listed(s, id)
    ensures Legal(s, more) && id in Run(s, more).freed && Run(s, more).unread == s.unread
    ensures forall i | 0 <= i < |more| :: more[i].Grab? || more[i].Respond? || more[i] == Free(id)
  {
    hide Inv, Legal, Run, Responded;
    if id in s.freed {
      more := [];
      NoSteps(s);
    } else if Responded(s.responses, id) {
      more := [Free(id)];
      One(s, Free(id));
    } else {
      var f := FlightOf(s, id);
      var fl := s.flights[f];
      var s1 := s;
      var first: seq<Step> := [];
      NoSteps(s);
      if fl.ackSent && !fl.grabbed {
        s1 := Next(s, Grab(f));
        first := [Grab(f)];
        One(s, Grab(f));
      }
      var s2 := Next(s1, Respond(f));
      assert s2.responses[|s1.responses|].id == id;
      assert Responded(s2.responses, id) by {
        ResponseAt(s2.responses, |s1.responses|);
      }
      One(s1, Respond(f));
      One(s2, Free(id));
      Then(s1, [Respond(f)], [Free(id)]);
      Then(s, first, [Respond(f)] + [Free(id)]);
      more := first + ([Respond(f)] + [Free(id)]);
    }
  }

  lemma ResponseAt(rs: seq<Response>, i: nat)
    requires i < |rs|
    ensures Responded(rs, rs[i].id)
  {
  }

  lemma One(s: World, step: Step)
    requires Enabled(s, step)
    ensures Legal(s, [step]) && Run(s, [step]) == Next(s, step)
  {
    NoSteps(Next(s, step));
    Prepend(s, step, []);
    assert [step] + [] == [step];
  }

  lemma {:induction false} Then(s: World, a: seq<Step>, b: seq<Step>)
    requires Legal(s, a) && Legal(Run(s, a), b)
    ensures Legal(s, a + b) && Run(s, a + b) == Run(Run(s, a), b)
    decreases a
  {
    hide Next, Enabled;
    if a == [] {
      assert a + b == b;
    } else {
      Then(Next(s, a[0]), a[1..], b);
      assert (a + b)[1..] == a[1..] + b;
    }
  }

  /** A request that is neither listed nor answered is in flight. */
  lemma FlightOf(s: World, id: nat) returns (f: nat)
    requires Inv(s) && id < |s.issued| && !Listed(s, id) && !Responded(s.responses, id)
    ensures f < |s.flights| && s.flights[f].req.id == id
    ensures s.flights[f].grabbed ==> s.flights[f].ackSent
  {
    assert Places(s)[id] == 1;
    assert id !in ListedIds(s.listed) && id !in ResponseIds(s.responses);
    assert id in FlightIds(s.flights);
    f :| 0 <= f < |s.flights| && FlightIds(s.flights)[f] == id;
  }

  /**
   The thread of an accepted ack reads the request after it has left the mutex. As long as no further
   completion of the token is accepted, that read meets a live request, whatever the threads already under
   way do first, if and only if the request is still listed: no completion has been accepted yet.
   */
  lemma {:induction false} AckReadsLiveIff(s: World, run: seq<Step>, k: nat)
    requires Init(s) && Legal(s, run) && k < |Run(s, run).unread|
    ensures var r := Run(s, run);
            var id := r.unread[k];
            Listed(r, id) <==>
            forall more | Legal(r, more) && NotCompleted(more, id) :: id !in Run(r, more).freed
  {
    hide Run, Legal, Places, Find, GrabsMatch;
    hide FlightsGenuine, ResponsesGenuine, ListGenuine, ErrorsGenuine, OwedGenuine;
    InitRun(s, run);
    var r := Run(s, run);
    var id := r.unread[k];
    if Listed(r, id) {
      forall more | Legal(r, more) && NotCompleted(more, id)
        ensures id !in Run(r, more).freed
      {
        ListedStays(r, more, id);
        RunKeeps(r, more);
        NotFreedWhileListed(Run(r, more), id);
      }
    } else {
      var more := CompletionEnds(r, id);
      assert NotCompleted(more, id);
    }
  }

  lemma NotFreedWhileListed(s: World, id: nat)
    requires Placed(s) && IdsGenuine(s) && Listed(s, id)
    ensures id !in s.freed
  {
    if id in s.freed {
      RespondedOnly(s, id);
    }
  }

  lemma Prepend(s: World, step: Step, run: seq<Step>)
    requires Enabled(s, step) && Legal(Next(s, step), run)
    ensures Legal(s, [step] + run) && Run(s, [step] + run) == Run(Next(s, step), run)
  {
    assert ([step] + run)[1..] == run;
  }

  const REQUEST := Req(0, 1, 0, 5)

  /** The only request is answered, and its accepted ack has not been read yet. */
  const ANSWERED := World(false, [REQUEST], {}, {}, [], {0}, [0], [], 0, [], [Response(0, 1, 0, false)], {}, 0, [])

  lemma ReachAnswered() returns (s: World, run: seq<Step>)
    ensures Init(s) && Legal(s, run) && Run(s, run) == ANSWERED
  {
    hide Legal, Run;
    s := World(false, [], {}, {}, [], {}, [], [], 0, [], [], {}, 0, []);
    var s1 := Next(s, Issue(1, 0, 5));
    var s2 := Next(s1, Hand(0));
    assert s2 == World(false, [REQUEST], {}, {}, [REQUEST], {}, [], [], 0, [], [], {}, 0, []);
    assert Find(s2.listed, 0) == 0;
    var s3 := Next(s2, Ack(0));
    var s4 := Next(s3, Complete(0));
    assert s4.flights == [Flight(REQUEST, false, false)];
    var s5 := Next(s4, Respond(0));
    assert s5 == ANSWERED;
    hide Next, Enabled, Find;
    NoSteps(s5);
    Prepend(s4, Respond(0), []);
    run := [Respond(0)] + [];
    Prepend(s3, Complete(0), run);
    run := [Complete(0)] + run;
    Prepend(s2, Ack(0), run);
    run := [Ack(0)] + run;
    Prepend(s1, Hand(0), run);
    run := [Hand(0)] + run;
    Prepend(s, Issue(1, 0, 5), run);
    run := [Issue(1, 0, 5)] + run;
  }

  /** A run after which the request may be freed, and then the read after the accepted ack meets it freed. */
  lemma AckCanMisread() returns (s: World, run: seq<Step>)
    ensures Init(s) && Legal(s, run)
    ensures var r := Run(s, run);
            && Enabled(r, Free(0)) && Enabled(Next(r, Free(0)), ReadAck(0))
            && Next(Next(r, Free(0)), ReadAck(0)).misread == 1
  {
    hide Legal, Run;
    s, run := ReachAnswered();
    assert ANSWERED.responses[0].id == 0 && Responded(ANSWERED.responses, 0);
  }

  lemma NoSteps(s: World)
    ensures Legal(s, []) && Run(s, []) == s
  {
  }

  // ---------- error answers ----------

  /** The vendor completes a request only once it has been given its token. */
  ghost predicate Given(s: World, step: Step) {
    step.Complete? && Listed(s, step.id) ==> step.id !in s.dispatching && !Responded(s.errors, step.id)
  }

  /** Requests that the vendor has not been given are still listed. */
  ghost predicate Untouched(s: World) {
    && (forall id | id in s.dispatching :: Listed(s, id))
    && (forall i | 0 <= i < |s.errors| :: Listed(s, s.errors[i].id))
  }

  ghost predicate AlwaysGiven(s: World, run: seq<Step>)
    requires Legal(s, run)
    decreases run
  {
    run != [] ==> Given(s, run[0]) && AlwaysGiven(Next(s, run[0]), run[1..])
  }

  ghost predicate AlwaysUntouched(s: World, run: seq<Step>)
    requires Legal(s, run)
    decreases run
  {
    Untouched(s) && (run != [] ==> AlwaysUntouched(Next(s, run[0]), run[1..]))
  }

  lemma DequeuedNotListed(s: World, id: nat)
    requires Placed(s)
    ensures !Listed(Dequeue(s, id), id)
  {
    var t, k := Dequeue(s, id), Find(s.listed, id);
    if Listed(s, id) {
      forall i | 0 <= i < |t.listed|
        ensures t.listed[i].id != id
      {
        ListedOnce(s, k, if i < k then i else i + 1);
      }
    }
  }

  lemma StepUntouched(s: World, step: Step)
    requires Inv(s) && Untouched(s) && Enabled(s, step)
    ensures Untouched(Next(s, step)) <==> Given(s, step)
  {
    hide Placed, ListGenuine, FlightsGenuine, ResponsesGenuine, OwedGenuine, Find;
    var t := Next(s, step);
    assert forall i | 0 <= i < |s.errors| :: t.errors[i] == s.errors[i];
    if !Given(s, step) {
      DequeuedNotListed(s, step.id);
      if Responded(s.errors, step.id) {
        var i :| 0 <= i < |s.errors| && s.errors[i].id == step.id;
        assert t.errors[i].id == step.id;
      }
    } else {
      forall id | id in t.dispatching || Responded(t.errors, id)
        ensures Listed(t, id)
      {
        UntouchedId(s, step, id);
      }
      forall i | 0 <= i < |t.errors|
        ensures Listed(t, t.errors[i].id)
      {
        assert Responded(t.errors, t.errors[i].id);
      }
    }
  }

  lemma UntouchedId(s: World, step: Step, id: nat)
    requires IdsGenuine(s) && ErrorsGenuine(s) && Untouched(s) && Enabled(s, step) && Given(s, step)
    requires id in Next(s, step).dispatching || Responded(Next(s, step).errors, id)
    ensures Listed(Next(s, step), id)
  {
    if step.Issue? && id == |s.issued| {
      assert Next(s, step).listed[0].id == id;
    } else {
      assert Listed(s, id);
      if step.Complete? && step.id == id {
        assert false;
      } else if step.Fake? && step.id == id {
        assert false;
      } else {
        ListedStep(s, step, id);
      }
    }
  }

  lemma {:induction false} UntouchedIffGivenFrom(s: World, run: seq<Step>)
    requires Inv(s) && Untouched(s) && Legal(s, run)
    ensures AlwaysUntouched(s, run) <==> AlwaysGiven(s, run)
    ensures AlwaysGiven(s, run) ==> Untouched(Run(s, run))
    decreases run
  {
    hide Inv, Next, Enabled, Untouched, Given;
    if run != [] {
      StepKeeps(s, run[0]);
      StepUntouched(s, run[0]);
      if Untouched(Next(s, run[0])) {
        UntouchedIffGivenFrom(Next(s, run[0]), run[1..]);
      }
    }
  }

  /**
   sendErrorResponse answers a request and leaves it listed. Throughout a run, requests that the vendor has
   not been given stay listed if and only if the vendor never completes one of them; and then no request has
   two answers, be they errors or responses.
   */
  lemma {:induction false} AnswersOnceIfGiven(s: World, run: seq<Step>)
    requires Init(s) && Legal(s, run)
    ensures AlwaysUntouched(s, run) <==> AlwaysGiven(s, run)
    ensures AlwaysGiven(s, run) ==>
              var r := Run(s, run);
              && (forall i, j | 0 <= i < |r.errors| && 0 <= j < |r.responses| :: r.errors[i].id != r.responses[j].id)
              && (forall i, j | 0 <= i < j < |r.errors| :: r.errors[i].id != r.errors[j].id)
  {
    hide Run, Legal, Next, Enabled, AlwaysGiven, AlwaysUntouched, Places;
    assert Untouched(s) && Inv(s) by {
      NothingYet(s);
    }
    UntouchedIffGivenFrom(s, run);
    RunKeeps(s, run);
    if AlwaysGiven(s, run) {
      var r := Run(s, run);
      forall i, j | 0 <= i < |r.errors| && 0 <= j < |r.responses|
        ensures r.errors[i].id != r.responses[j].id
      {
        ListedOnly(r, r.errors[i].id);
      }
    }
  }

  /** Some request has been answered twice. */
  ghost predicate TwoAnswers(s: World) {
    || (exists i, j :: 0 <= i < |s.errors| && 0 <= j < |s.responses| && s.errors[i].id == s.responses[j].id)
    || (exists i, j :: 0 <= i < j < |s.errors| && s.errors[i].id == s.errors[j].id)
    || (exists i, j :: 0 <= i < j < |s.responses| && s.responses[i].id == s.responses[j].id)
  }

  lemma UntouchedSingle(s: World)
    requires Inv(s) && Untouched(s)
    ensures !TwoAnswers(s)
  {
    hide Places, Find;
    forall i, j | 0 <= i < |s.errors| && 0 <= j < |s.responses|
      ensures s.errors[i].id != s.responses[j].id
    {
      ListedOnly(s, s.errors[i].id);
    }
    forall i, j | 0 <= i < j < |s.responses|
      ensures s.responses[i].id != s.responses[j].id
    {
      RespondedOnce(s, i, j);
    }
  }

  /** Steps that the dispatcher and the completing thread still have to take, none of them the vendor's. */
  ghost predicate NoVendor(run: seq<Step>) {
    forall i | 0 <= i < |run| :: run[i].SendError? || run[i].Grab? || run[i].Respond? || run[i].Free?
  }

  lemma {:induction false} NoVendorGiven(s: World, run: seq<Step>)
    requires Legal(s, run) && NoVendor(run)
    ensures AlwaysGiven(s, run)
    decreases run
  {
    if run != [] {
      assert forall i | 0 <= i < |run[1..]| :: run[1..][i] == run[i + 1];
      NoVendorGiven(Next(s, run[0]), run[1..]);
    }
  }

  /** A request that has an error answer, or will get one, and has left the list, can get a response as well. */
  lemma SecondAnswer(s: World, id: nat) returns (more: seq<Step>)
    requires Inv(s) && id < |s.issued| && !Listed(s, id)
    requires id in s.dispatching || Responded(s.errors, id)
    ensures Legal(s, more) && NoVendor(more) && TwoAnswers(Run(s, more))
  {
    hide Inv, Legal, Run, Responded, Find, TwoAnswers;
    var s1 := s;
    var first: seq<Step> := [];
    NoSteps(s);
    if id in s.dispatching {
      s1 := Next(s, SendError(id));
      first := [SendError(id)];
      One(s, SendError(id));
      StepKeeps(s, SendError(id));
      ResponseAt(s1.errors, |s.errors|);
    }
    var rest := CompletionEnds(s1, id);
    RunKeeps(s1, rest);
    ErrorsGrow(s1, rest, id);
    FreedResponded(Run(s1, rest), id);
    Then(s, first, rest);
    more := first + rest;
  }

  lemma {:induction false} ErrorsGrow(s: World, run: seq<Step>, id: nat)
    requires Legal(s, run) && Responded(s.errors, id)
    ensures Responded(Run(s, run).errors, id)
    decreases run
  {
    if run != [] {
      ErrorStays(s, run[0], id);
      ErrorsGrow(Next(s, run[0]), run[1..], id);
    }
  }

  lemma ErrorStays(s: World, step: Step, id: nat)
    requires Enabled(s, step) && Responded(s.errors, id)
    ensures Responded(Next(s, step).errors, id)
  {
    var i :| 0 <= i < |s.errors| && s.errors[i].id == id;
    assert Next(s, step).errors[i] == s.errors[i];
  }

  lemma FreedResponded(s: World, id: nat)
    requires Inv(s) && id in s.freed && Responded(s.errors, id)
    ensures TwoAnswers(s)
  {
    var j :| 0 <= j < |s.responses| && s.responses[j].id == id;
    var i :| 0 <= i < |s.errors| && s.errors[i].id == id;
  }

  /**
   A single answer, exactly: after a run in which the vendor has completed only what it was given, a step is
   of that kind too if and only if no continuation of that kind ends with a request answered twice.
   */
  lemma {:induction false} SingleAnswerIffGiven(s: World, run: seq<Step>, step: Step)
    requires Init(s) && Legal(s, run) && AlwaysGiven(s, run) && Enabled(Run(s, run), step)
    ensures var t := Next(Run(s, run), step);
            Given(Run(s, run), step) <==>
            forall more | Legal(t, more) && AlwaysGiven(t, more) :: !TwoAnswers(Run(t, more))
  {
    hide Run, Legal, Next, Enabled, AlwaysGiven, AlwaysUntouched, Given, Untouched, TwoAnswers, Inv;
    NothingYet(s);
    UntouchedIffGivenFrom(s, run);
    RunKeeps(s, run);
    var r := Run(s, run);
    var t := Next(r, step);
    StepKeeps(r, step);
    StepUntouched(r, step);
    if Given(r, step) {
      forall more | Legal(t, more) && AlwaysGiven(t, more)
        ensures !TwoAnswers(Run(t, more))
      {
        UntouchedIffGivenFrom(t, more);
        RunKeeps(t, more);
        UntouchedSingle(Run(t, more));
      }
    } else {
      UngivenStep(r, step);
      var more := SecondAnswer(t, step.id);
      NoVendorGiven(t, more);
    }
  }

  lemma UngivenStep(r: World, step: Step)
    requires Inv(r) && Enabled(r, step) && !Given(r, step)
    ensures step.Complete?
    ensures var t := Next(r, step);
            && step.id < |t.issued| && !Listed(t, step.id)
            && (step.id in t.dispatching || Responded(t.errors, step.id))
  {
    hide Places, Find, FlightsGenuine, ResponsesGenuine, IdsGenuine, ErrorsGenuine, OwedGenuine;
    DequeuedNotListed(r, step.id);
  }

  lemma NothingYet(s: World)
    requires Init(s)
    ensures Untouched(s) && Inv(s)
  {
  }
}
