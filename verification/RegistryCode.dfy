/**
 The client list of a server as registration.c and liblwm2m.c change it in place.

 The server is an object whose list of clients its methods reassign. Each method has the loops and branches of one C
 function and leaves the list that the function of the same behaviour in Registry gives, so that the lemmas there are
 about the lists that arise here.
 */
module RegistryCode {
  import opened Core
  import opened Registry
  import SortedList
  import R = RegisterPayload
  import U = Uri

  class Server {
    var clients: seq<Client>

    constructor ()
      ensures clients == []
    {
      clients := [];
    }

    /** prv_getClientByName */
    method FindByName(name: string) returns (i: nat)
      ensures i == ByName(clients, name)
    {
      i := 0;
      while i < |clients| && clients[i].name != name
        invariant i <= |clients| && ByName(clients, name) == i + ByName(clients[i..], name)
      {
        assert clients[i..][1..] == clients[i + 1..];
        i := i + 1;
      }
    }

    /** lwm2m_list_find */
    method FindById(id: uint16) returns (i: nat)
      ensures i == ById(clients, id)
    {
      i := 0;
      while i < |clients| && clients[i].internalID < id
        invariant i <= |clients| && ById(clients, id) == i + ById(clients[i..], id)
      {
        assert clients[i..][1..] == clients[i + 1..];
        i := i + 1;
      }
      if i < |clients| && clients[i].internalID != id {
        i := |clients|;
      }
    }

    /** The loop over the observations of an updated client. */
    method PruneObservations(observations: seq<Observation>, objects: seq<R.Object>)
      returns (kept: seq<Observation>, deleted: seq<Observation>)
      ensures (kept, deleted) == Prune(observations, observations, objects)
    {
      hide Gone, SortedList.Remove;
      kept, deleted := observations, [];
      var i := 0;
      ghost var all := Prune(observations, observations, objects);
      assert observations[0..] == observations;
      while i < |observations|
        invariant 0 <= i <= |observations|
        invariant var rest := Prune(kept, observations[i..], objects); all.0 == rest.0 && all.1 == deleted + rest.1
      {
        var o := observations[i];
        assert observations[i..][0] == o && observations[i..][1..] == observations[i + 1..];
        if Gone(o, objects) {
          deleted := deleted + [o];
          kept := SortedList.Remove(kept, o.id, ObservationId);
        }
        i := i + 1;
      }
      assert observations[i..] == [] && deleted + [] == deleted;
    }

    /** The POST branch of handle_registration_request. */
    method HandlePost(r: Request) returns (answer: Response)
      modifies this
      ensures (clients, answer) == Register(old(clients), r)
    {
      hide R.Decode, ByName, SortedList.NewId, SortedList.Insert, U.LocationText;
      if !NoId(r.uri) || r.query.None? {
        return Refused(BAD_REQUEST);
      }
      var q := r.query.value;
      var (altPath, objects) := R.Decode(r.payload);
      if objects == [] {
        return Refused(BAD_REQUEST);
      }
      if q.name.None? {
        return Refused(BAD_REQUEST);
      }
      var i := FindByName(q.name.value);
      var id: uint16;
      if i < |clients| {
        id := clients[i].internalID;
        clients := clients[i := Registered(id, q.name.value, q, altPath, objects, r, clients[i].observations)];
      } else {
        id := SortedList.NewId(clients, InternalId);
        var c := Registered(id, q.name.value, q, altPath, objects, r, []);
        clients := SortedList.Insert(clients, c, InternalId);
      }
      answer := Response(CREATED, Some(U.LocationText(id)), []);
    }

    /** The PUT branch. */
    method HandlePut(r: Request) returns (answer: Response)
      modifies this
      ensures (clients, answer) == Update(old(clients), r)
    {
      hide R.Decode, ById, Prune;
      if !ClientOnly(r.uri) {
        return Refused(BAD_REQUEST);
      }
      var i := FindById(r.uri.objectId.value);
      if i == |clients| {
        return Refused(NOT_FOUND);
      }
      if r.query.None? {
        return Refused(BAD_REQUEST);
      }
      var objects := R.Decode(r.payload).1;
      var q := r.query.value;
      if q.name.Some? {
        return Refused(BAD_REQUEST);
      }
      var c := clients[i];
      if !q.binding.UnknownBinding? {
        c := c.(binding := q.binding);
      }
      if q.msisdn.Some? {
        c := c.(msisdn := q.msisdn);
      }
      if q.lifetime != 0 {
        c := c.(lifetime := q.lifetime);
      }
      c := c.(session := r.session);
      var deleted := [];
      if objects != [] {
        var kept;
        kept, deleted := PruneObservations(c.observations, objects);
        c := c.(observations := kept);
        c := c.(objects := objects);
      }
      c := c.(endOfLife := r.now + c.lifetime);
      clients := clients[i := c];
      answer := Response(CHANGED, None, deleted);
    }

    /** The DELETE branch. */
    method HandleDelete(r: Request) returns (answer: Response)
      modifies this
      ensures (clients, answer) == Deregister(old(clients), r)
    {
      hide ById, SortedList.Remove;
      if !ClientOnly(r.uri) {
        return Refused(BAD_REQUEST);
      }
      var i := FindById(r.uri.objectId.value);
      if i == |clients| {
        return Refused(BAD_REQUEST);
      }
      clients := SortedList.Remove(clients, r.uri.objectId.value, InternalId);
      answer := Refused(DELETED);
    }

    /** handle_registration_request */
    method HandleRegistrationRequest(r: Request) returns (answer: Response)
      modifies this
      ensures (clients, answer) == Handle(old(clients), r)
    {
      hide Register, Update, Deregister;
      if r.now < 0 {
        return Refused(INTERNAL_ERROR);
      }
      var code := r.code;
      if code == POST && ClientOnly(r.uri) {
        code := PUT;
      }
      if code == POST {
        answer := HandlePost(r);
      } else if code == PUT {
        answer := HandlePut(r);
      } else if code == DELETE {
        answer := HandleDelete(r);
      } else {
        answer := Refused(BAD_REQUEST);
      }
    }

    /** The last loop of lwm2m_step. */
    method ExpireClients(now: int)
      modifies this
      ensures clients == Expire(old(clients), old(clients), now)
    {
      hide SortedList.Remove;
      var all := clients;
      var i := 0;
      assert all[0..] == all;
      while i < |all|
        invariant 0 <= i <= |all|
        invariant Expire(clients, all[i..], now) == Expire(old(clients), all, now)
      {
        assert all[i..][0] == all[i] && all[i..][1..] == all[i + 1..];
        if all[i].endOfLife <= now {
          clients := SortedList.Remove(clients, all[i].internalID, InternalId);
        }
        i := i + 1;
      }
    }

    // ---------- runs ----------

    method Process(e: Event)
      modifies this
      ensures clients == Apply(old(clients), e)
    {
      hide Handle, Expire;
      match e {
        case Received(r) =>
          var answer := HandleRegistrationRequest(r);
        case Step(now) =>
          if now >= 0 {
            ExpireClients(now);
          }
      }
    }

    /** A server that goes through the events of a run has the clients of the run. While there is room, its list stays
        in order with distinct identifiers and names, and no client leaves it that is not disturbed. */
    method Drive(events: seq<Event>)
      modifies this
      ensures clients == Run(old(clients), events)
      ensures Inv(old(clients)) && RoomFor(old(clients), events) ==>
        Inv(clients) && forall c | c in old(clients) && AllUndisturbed(c, events) :: c in clients
    {
      hide Apply, Inv, RoomFor, AllUndisturbed;
      var i := 0;
      assert events[0..] == events;
      while i < |events|
        invariant 0 <= i <= |events| && Run(clients, events[i..]) == Run(old(clients), events)
      {
        assert events[i..][0] == events[i] && events[i..][1..] == events[i + 1..];
        Process(events[i]);
        i := i + 1;
      }
      assert events[i..] == [];
      if Inv(old(clients)) && RoomFor(old(clients), events) {
        RunKeepsInv(old(clients), events);
        forall c | c in old(clients) && AllUndisturbed(c, events) ensures c in clients {
          UndisturbedClientStays(old(clients), events, c);
        }
      }
    }
  }
}
