/** The clients of an LWM2M server (wakaama/registration.c, liblwm2m.c). */
module Registry {
  // The list that Register, Update and Deregister requests change and from which a step takes the clients whose
  // lifetime is over.

  import opened Core
  import SortedList
  import R = RegisterPayload
  import U = Uri

  datatype Binding = UnknownBinding | BindingU | BindingUQ | BindingS | BindingSQ | BindingUS | BindingUQS

  datatype Observation = Observation(id: uint16, uri: U.Uri)

  datatype Client = Client(
    internalID: uint16, name: string, msisdn: Option<string>, altPath: Option<string>, binding: Binding,
    lifetime: nat, endOfLife: int, objects: seq<R.Object>, session: Session, observations: seq<Observation>)

  /** What prv_getParameters reads from the query; an absent lifetime is 0. */
  datatype Parameters = Parameters(name: Option<string>, lifetime: nat, msisdn: Option<string>, binding: Binding)

  /** A request for the registration resource; no parameters stands for a query that was refused. */
  datatype Request = Request(
    code: byte, uri: U.Uri, query: Option<Parameters>, payload: string, session: Session, now: int)

  /** The result code, the location sent back, and the observations reported as deleted. */
  datatype Response = Response(code: byte, location: Option<string>, deleted: seq<Observation>)

  const DEFAULT_LIFETIME: nat := 86400

  function InternalId(c: Client): uint16 { c.internalID }

  function ObservationId(o: Observation): uint16 { o.id }

  function Refused(code: byte): Response { Response(code, None, []) }

  predicate NoId(uri: U.Uri) { uri.objectId.None? && uri.instanceId.None? && uri.resourceId.None? }

  predicate ClientOnly(uri: U.Uri) { uri.objectId.Some? && uri.instanceId.None? && uri.resourceId.None? }

  // ---------- requests ----------

  /** prv_getClientByName */
  function ByName(clients: seq<Client>, name: string): (i: nat)
    ensures i <= |clients| && (i < |clients| ==> clients[i].name == name)
    ensures forall j | 0 <= j < i :: clients[j].name != name
  {
    if clients == [] || clients[0].name == name then 0 else 1 + ByName(clients[1..], name)
  }

  /** lwm2m_list_find, giving the place of the client. */
  function ById(clients: seq<Client>, id: uint16): (i: nat)
    ensures i <= |clients| && (i < |clients| ==> clients[i].internalID == id)
  {
    if clients == [] || clients[0].internalID > id then |clients|
    else if clients[0].internalID == id then 0
    else 1 + ById(clients[1..], id)
  }

  /** A client as a registration makes it; what it observed before stays. */
  function Registered(id: uint16, name: string, q: Parameters, altPath: Option<string>, objects: seq<R.Object>,
                      r: Request, observations: seq<Observation>): Client {
    var lifetime := if q.lifetime == 0 then DEFAULT_LIFETIME else q.lifetime;
    Client(id, name, q.msisdn, altPath, q.binding, lifetime, r.now + lifetime, objects, r.session, observations)
  }

  /** The POST branch of handle_registration_request: the same name registers again under the same identifier. */
  function Register(clients: seq<Client>, r: Request): (seq<Client>, Response) {
    if !NoId(r.uri) || r.query.None? then (clients, Refused(BAD_REQUEST))
    else
      var (altPath, objects) := R.Decode(r.payload);
      if objects == [] || r.query.value.name.None? then (clients, Refused(BAD_REQUEST))
      else
        var q := r.query.value;
        var i := ByName(clients, q.name.value);
        if i < |clients| then
          var c := Registered(clients[i].internalID, q.name.value, q, altPath, objects, r, clients[i].observations);
          (clients[i := c], Response(CREATED, Some(U.LocationText(c.internalID)), []))
        else
          var id := SortedList.NewId(clients, InternalId);
          var c := Registered(id, q.name.value, q, altPath, objects, r, []);
          (SortedList.Insert(clients, c, InternalId), Response(CREATED, Some(U.LocationText(id)), []))
  }

  /** An observation of an object or an instance that is not in the list any more. */
  predicate Gone(o: Observation, objects: seq<R.Object>) {
    var id: uint16 := if o.uri.objectId.Some? then o.uri.objectId.value else 0;
    var found := SortedList.Find<R.Object>(objects, id, R.ObjectId);
    found.None?
    || (o.uri.instanceId.Some?
        && SortedList.Find<uint16>(found.value.instances, o.uri.instanceId.value, R.Itself).None?)
  }

  /** The loop over the observations: those that are gone are reported and taken out by their identifier. */
  function Prune(observations: seq<Observation>, todo: seq<Observation>, objects: seq<R.Object>)
    : (seq<Observation>, seq<Observation>)
    decreases |todo|
  {
    if todo == [] then (observations, [])
    else if Gone(todo[0], objects) then
      var r := Prune(SortedList.Remove(observations, todo[0].id, ObservationId), todo[1..], objects);
      (r.0, [todo[0]] + r.1)
    else Prune(observations, todo[1..], objects)
  }

  /** The PUT branch. */
  function Update(clients: seq<Client>, r: Request): (seq<Client>, Response) {
    if !ClientOnly(r.uri) then (clients, Refused(BAD_REQUEST))
    else
      var i := ById(clients, r.uri.objectId.value);
      if i == |clients| then (clients, Refused(NOT_FOUND))
      else if r.query.None? || r.query.value.name.Some? then (clients, Refused(BAD_REQUEST))
      else
        var c, q := clients[i], r.query.value;
        var objects := R.Decode(r.payload).1;
        var kept := if objects == [] then (c.observations, []) else Prune(c.observations, c.observations, objects);
        var lifetime := if q.lifetime == 0 then c.lifetime else q.lifetime;
        (clients[i := c.(
           binding := if q.binding.UnknownBinding? then c.binding else q.binding,
           msisdn := if q.msisdn.Some? then q.msisdn else c.msisdn,
           lifetime := lifetime,
           session := r.session,
           observations := kept.0,
           objects := if objects == [] then c.objects else objects,
           endOfLife := r.now + lifetime)],
         Response(CHANGED, None, kept.1))
  }

  /** The DELETE branch. */
  function Deregister(clients: seq<Client>, r: Request): (seq<Client>, Response) {
    if !ClientOnly(r.uri) then (clients, Refused(BAD_REQUEST))
    else if ById(clients, r.uri.objectId.value) == |clients| then (clients, Refused(BAD_REQUEST))
    else (SortedList.Remove(clients, r.uri.objectId.value, InternalId), Refused(DELETED))
  }

  /** handle_registration_request. A POST to a client's location is an update. */
  function Handle(clients: seq<Client>, r: Request): (seq<Client>, Response) {
    if r.now < 0 then (clients, Refused(INTERNAL_ERROR))
    else if r.code == PUT || (r.code == POST && ClientOnly(r.uri)) then Update(clients, r)
    else if r.code == POST then Register(clients, r)
    else if r.code == DELETE then Deregister(clients, r)
    else (clients, Refused(BAD_REQUEST))
  }

  /** The loop of lwm2m_step over the clients, each taken out by its identifier. */
  function Expire(clients: seq<Client>, todo: seq<Client>, now: int): seq<Client>
    decreases |todo|
  {
    if todo == [] then clients
    else if todo[0].endOfLife <= now
    then Expire(SortedList.Remove(clients, todo[0].internalID, InternalId), todo[1..], now)
    else Expire(clients, todo[1..], now)
  }

  // ---------- the invariant ----------

  predicate DistinctNames(clients: seq<Client>) {
    forall i, j | 0 <= i < j < |clients| :: clients[i].name != clients[j].name
  }

  predicate Inv(clients: seq<Client>) {
    SortedList.StrictlySorted(clients, InternalId) && DistinctNames(clients)
  }

  lemma {:induction false} ByIdIsExact(clients: seq<Client>, i: nat)
    requires SortedList.StrictlySorted(clients, InternalId) && i < |clients|
    ensures ById(clients, clients[i].internalID) == i
  {
    if i > 0 {
      assert InternalId(clients[0]) < InternalId(clients[i]);
      assert clients[1..][i - 1] == clients[i];
      assert forall k | 0 <= k < |clients| - 1 :: clients[1..][k] == clients[k + 1];
      ByIdIsExact(clients[1..], i - 1);
    }
  }

  lemma ReplaceKeeps(clients: seq<Client>, i: nat, c: Client)
    requires Inv(clients) && i < |clients| && c.internalID == clients[i].internalID && c.name == clients[i].name
    ensures Inv(clients[i := c])
  {
    var r := clients[i := c];
    assert forall k | 0 <= k < |r| :: InternalId(r[k]) == InternalId(clients[k]) && r[k].name == clients[k].name;
  }

  lemma SortedIsSorted(clients: seq<Client>)
    requires SortedList.StrictlySorted(clients, InternalId)
    ensures SortedList.Sorted(clients, InternalId)
  {
  }

  lemma InsertedNames(clients: seq<Client>, at: nat, c: Client)
    requires DistinctNames(clients) && at <= |clients| && ByName(clients, c.name) == |clients|
    ensures DistinctNames(clients[..at] + [c] + clients[at..])
  {
    hide ByName, DistinctNames;
    SortedList.SplicedAt(clients, c, at);
    SplicedNames(clients, clients[..at] + [c] + clients[at..], at, c);
  }

  lemma SplicedNames(clients: seq<Client>, r: seq<Client>, at: nat, c: Client)
    requires DistinctNames(clients) && at <= |clients| && |r| == |clients| + 1
    requires forall k | 0 <= k < |r| :: r[k] == SortedList.Spliced(clients, at, c, k)
    requires forall k | 0 <= k < |clients| :: clients[k].name != c.name
    ensures DistinctNames(r)
  {
    forall i, j | 0 <= i < j < |r| ensures r[i].name != r[j].name {
      assert r[i] == SortedList.Spliced(clients, at, c, i) && r[j] == SortedList.Spliced(clients, at, c, j);
    }
  }

  /** A new client gets the least identifier that is not in use, and is then found by it; nobody else
      changes. This keeps the invariant just while there is an identifier left. */
  lemma NewClient(clients: seq<Client>, c: Client)
    requires Inv(clients) && c.internalID == SortedList.NewId(clients, InternalId)
    requires ByName(clients, c.name) == |clients|
    ensures var r := SortedList.Insert(clients, c, InternalId);
            && (|clients| < 0x1_0000 ==> Inv(r) && ById(r, c.internalID) < |r| && r[ById(r, c.internalID)] == c)
            && multiset(r) == multiset(clients) + multiset{c}
            && (Inv(r) ==> |clients| < 0x1_0000)
    ensures forall k | 0 <= k < c.internalID :: SortedList.HasId(clients, k, InternalId)
  {
    hide SortedList.Insert, SortedList.NewId, SortedList.StrictlySorted, SortedList.Sorted, SortedList.HasId;
    hide DistinctNames;
    SortedIsSorted(clients);
    SortedList.NewIdIsFresh(clients, InternalId);
    SortedList.InsertKeepsSorted(clients, c, InternalId);
    SortedList.InsertAt(clients, c, InternalId);
    var at := SortedList.Position(clients, c, InternalId);
    InsertedNames(clients, at, c);
    var r := SortedList.Insert(clients, c, InternalId);
    assert r[at] == c;
    if |clients| < 0x1_0000 {
      ByIdIsExact(r, at);
    } else {
      TwiceIsNotStrict(clients, at, c, r);
    }
  }

  lemma TwiceIsNotStrict(clients: seq<Client>, at: nat, c: Client, r: seq<Client>)
    requires at <= |clients| && r == clients[..at] + [c] + clients[at..]
    requires SortedList.HasId(clients, c.internalID, InternalId)
    ensures !SortedList.StrictlySorted(r, InternalId)
  {
    var i :| 0 <= i < |clients| && InternalId(clients[i]) == c.internalID;
    var j := if i < at then i else i + 1;
    assert r[j] == clients[i] && r[at] == c;
  }

  lemma RemoveKeeps(clients: seq<Client>, id: uint16)
    requires Inv(clients)
    ensures Inv(SortedList.Remove(clients, id, InternalId))
  {
    hide SortedList.Remove, SortedList.StrictlySorted;
    SortedList.RemoveIsExact(clients, id, InternalId);
    if SortedList.HasId(clients, id, InternalId) {
      var at :| 0 <= at < |clients| && InternalId(clients[at]) == id;
      SortedList.RemoveAt(clients, at, InternalId);
      var r := SortedList.Remove(clients, id, InternalId);
      assert forall k | 0 <= k < |r| :: r[k] == clients[if k < at then k else k + 1];
    } else {
      SortedList.RemoveAbsent(clients, id, InternalId);
    }
  }

  // ---------- what each operation does ----------

  /** A client is found by its identifier exactly if it is there. */
  lemma FoundById(clients: seq<Client>, id: uint16)
    requires Inv(clients)
    ensures ById(clients, id) < |clients| <==> exists c | c in clients :: c.internalID == id
  {
    if c :| c in clients && c.internalID == id {
      var i :| 0 <= i < |clients| && clients[i] == c;
      ByIdIsExact(clients, i);
    }
    var j := ById(clients, id);
    assert j < |clients| ==> clients[j] in clients;
  }

  predicate Updates(r: Request) { r.code == PUT || (r.code == POST && ClientOnly(r.uri)) }

  predicate Names(clients: seq<Client>, r: Request) {
    ClientOnly(r.uri) && exists c | c in clients :: c.internalID == r.uri.objectId.value
  }

  /** What a request is answered with: a registration at the resource itself, an update or a deregistration at the
      location of a client that is there. */
  lemma HandleCodes(clients: seq<Client>, r: Request)
    requires Inv(clients)
    ensures Handle(clients, r).1.code ==
            if r.now < 0 then INTERNAL_ERROR
            else if Updates(r) then
              if !ClientOnly(r.uri) then BAD_REQUEST
              else if !Names(clients, r) then NOT_FOUND
              else if r.query.Some? && r.query.value.name.None? then CHANGED
              else BAD_REQUEST
            else if r.code == POST then
              if NoId(r.uri) && r.query.Some? && r.query.value.name.Some? && R.Decode(r.payload).1 != [] then CREATED
              else BAD_REQUEST
            else if r.code == DELETE && Names(clients, r) then DELETED
            else BAD_REQUEST
  {
    hide R.Decode, Prune, Registered, Inv;
    if ClientOnly(r.uri) {
      FoundById(clients, r.uri.objectId.value);
    }
  }

  /** A registration that is accepted answers with a location that leads back, through the decoding of requests, to
      the one client of that name, with what the request gives and the lifetime, by default a day, counted from now.
      It keeps its identifier and its observations if it was registered before. The other clients stay. */
  lemma RegisterIsAnswered(clients: seq<Client>, r: Request, altPath: Option<string>)
    requires Inv(clients) && |clients| < 0x1_0000
    ensures Handle(clients, r).1.code == CREATED <==>
              && r.now >= 0 && r.code == POST && NoId(r.uri)
              && r.query.Some? && r.query.value.name.Some? && R.Decode(r.payload).1 != []
    ensures var (after, answer) := Handle(clients, r);
            answer.code == CREATED ==>
            && Inv(after) && answer.location.Some?
            && var back := U.DecodeUri(altPath, U.Cut(answer.location.value));
            && back.Some? && back.value.target == U.Registration && ClientOnly(back.value)
            && var i := ById(after, back.value.objectId.value);
            && i < |after| && after[i].name == r.query.value.name.value && after[i].session == r.session
            && after[i].objects == R.Decode(r.payload).1 != []
            && after[i].endOfLife == r.now + after[i].lifetime
            && var q := r.query.value;
            && after[i].lifetime == (if q.lifetime != 0 then q.lifetime else 86400)
            && after[i].binding == q.binding && after[i].msisdn == q.msisdn
            && after[i].altPath == R.Decode(r.payload).0
            && (forall c | c in clients && c.name == after[i].name ::
                  c.internalID == after[i].internalID && c.observations == after[i].observations)
            && ((forall c | c in clients :: c.name != after[i].name) ==> after[i].observations == [])
            && (forall c | c in clients && c.name != after[i].name :: c in after)
            && (forall c | c in after && c.name != after[i].name :: c in clients)
  {
    hide SortedList.Insert, SortedList.NewId, R.Decode, U.DecodeUri, U.Cut, U.LocationText, SortedList.StrictlySorted;
    HandleCodes(clients, r);
    if Handle(clients, r).1.code != CREATED {
      return;
    }
    var q := r.query.value;
    var (alt, objects) := R.Decode(r.payload);
    var after := Register(clients, r).0;
    var i := ByName(clients, q.name.value);
    if i < |clients| {
      var c := Registered(clients[i].internalID, q.name.value, q, alt, objects, r, clients[i].observations);
      ReplaceKeeps(clients, i, c);
      ByIdIsExact(after, i);
      U.LocationRoundTrip(altPath, c.internalID);
      OthersStay(clients, i, c);
    } else {
      var c := Registered(SortedList.NewId(clients, InternalId), q.name.value, q, alt, objects, r, []);
      NewClient(clients, c);
      U.LocationRoundTrip(altPath, c.internalID);
      assert forall x :: x in after <==> x in clients || x == c by {
        assert forall x :: x in after <==> x in multiset(after);
      }
    }
  }

  lemma OthersStay(clients: seq<Client>, i: nat, c: Client)
    requires i < |clients| && c.name == clients[i].name
    ensures forall x | x in clients && x.name != c.name :: x in clients[i := c]
    ensures forall x | x in clients[i := c] && x.name != c.name :: x in clients
  {
    var r := clients[i := c];
    forall x | x in clients && x.name != c.name
      ensures x in r
    {
      var j :| 0 <= j < |clients| && clients[j] == x;
      assert r[j] == x;
    }
  }

  lemma {:induction false} PruneRemoves(obs: seq<Observation>, todo: seq<Observation>, objects: seq<R.Object>)
    requires SortedList.StrictlySorted(obs, ObservationId)
    ensures var r := Prune(obs, todo, objects);
            && SortedList.StrictlySorted(r.0, ObservationId)
            && (forall o :: o in r.0 <==> o in obs && forall t | t in todo && Gone(t, objects) :: t.id != o.id)
            && (forall o :: o in r.1 <==> o in todo && Gone(o, objects))
    decreases |todo|
  {
    hide Gone, SortedList.Remove, SortedList.StrictlySorted;
    if todo != [] {
      var rest := todo[1..];
      assert forall t :: t in todo <==> t == todo[0] || t in rest;
      if Gone(todo[0], objects) {
        SortedList.RemoveIsExact(obs, todo[0].id, ObservationId);
        PruneRemoves(SortedList.Remove(obs, todo[0].id, ObservationId), rest, objects);
      } else {
        PruneRemoves(obs, rest, objects);
      }
    }
  }

  /** The object of the observation is declared, and so is its instance if it has one. */
  predicate Declares(objects: seq<R.Object>, o: Observation) {
    exists x | x in objects ::
      && x.id == (if o.uri.objectId.Some? then o.uri.objectId.value else 0)
      && (o.uri.instanceId.Some? ==> o.uri.instanceId.value in x.instances)
  }

  /** The searches in the lists find just that. */
  lemma GoneIs(o: Observation, objects: seq<R.Object>)
    requires R.Listed(objects)
    ensures Gone(o, objects) <==> !Declares(objects, o)
  {
    hide SortedList.Find, SortedList.StrictlySorted;
    var id: uint16 := if o.uri.objectId.Some? then o.uri.objectId.value else 0;
    var found := SortedList.Find<R.Object>(objects, id, R.ObjectId);
    ObjectIsFound(objects, id);
    if found.Some? && o.uri.instanceId.Some? {
      InstanceIsFound(found.value.instances, o.uri.instanceId.value);
    }
  }

  lemma ObjectIsFound(objects: seq<R.Object>, id: uint16)
    requires R.Listed(objects)
    ensures match SortedList.Find<R.Object>(objects, id, R.ObjectId)
            case None => forall x | x in objects :: x.id != id
            case Some(x) =>
              && x in objects && x.id == id && SortedList.StrictlySorted(x.instances, R.Itself)
              && forall y | y in objects && y.id == id :: y == x
  {
    hide SortedList.Find;
    SortedList.FindIsExact<R.Object>(objects, id, R.ObjectId);
    forall x, y | x in objects && y in objects && x.id == y.id ensures x == y {
      var i, j :| 0 <= i < |objects| && 0 <= j < |objects| && objects[i] == x && objects[j] == y;
      assert R.ObjectId(objects[i]) == R.ObjectId(objects[j]);
    }
    forall x | x in objects && x.id == id ensures SortedList.HasId(objects, id, R.ObjectId) {
      var i :| 0 <= i < |objects| && objects[i] == x;
      assert R.ObjectId(objects[i]) == id;
    }
  }

  lemma InstanceIsFound(instances: seq<uint16>, id: uint16)
    requires SortedList.StrictlySorted(instances, R.Itself)
    ensures SortedList.Find<uint16>(instances, id, R.Itself).Some? <==> id in instances
  {
    hide SortedList.Find;
    SortedList.FindIsExact<uint16>(instances, id, R.Itself);
    forall i | 0 <= i < |instances| ensures R.Itself(instances[i]) == instances[i] {
    }
  }

  /** An update with objects reports exactly the observations whose object or instance is gone, and keeps
      exactly the others. */
  lemma PruneIsExact(obs: seq<Observation>, objects: seq<R.Object>)
    requires SortedList.StrictlySorted(obs, ObservationId)
    ensures var (kept, deleted) := Prune(obs, obs, objects);
            forall o ::
              && (o in kept <==> o in obs && !Gone(o, objects))
              && (o in deleted <==> o in obs && Gone(o, objects))
    ensures R.Listed(objects) ==> forall o :: Gone(o, objects) <==> !Declares(objects, o)
  {
    hide Gone, Prune, SortedList.StrictlySorted, Declares, R.Listed;
    PruneRemoves(obs, obs, objects);
    if R.Listed(objects) {
      forall o ensures Gone(o, objects) <==> !Declares(objects, o) {
        GoneIs(o, objects);
      }
    }
    forall o, t | o in obs && t in obs && o.id == t.id
      ensures o == t
    {
      SameId(obs, o, t);
    }
  }

  lemma SameId(obs: seq<Observation>, o: Observation, t: Observation)
    requires SortedList.StrictlySorted(obs, ObservationId) && o in obs && t in obs && o.id == t.id
    ensures o == t
  {
    var i :| 0 <= i < |obs| && obs[i] == o;
    var j :| 0 <= j < |obs| && obs[j] == t;
    assert ObservationId(obs[i]) == ObservationId(obs[j]);
  }

  /** An update that is accepted is for the client at the location and touches no other. It renews the lifetime and
      takes over what the request gives: lifetime, binding, telephone number, objects. What it does not give stays, and
      identifier, name and alternative path stay in any case. With objects given, exactly the observations of what
      is gone are reported and end; without, none. */
  lemma UpdateIsAnswered(clients: seq<Client>, r: Request)
    requires Inv(clients)
    ensures Handle(clients, r).1.code == CHANGED <==>
              && r.now >= 0 && r.code in {PUT, POST} && ClientOnly(r.uri)
              && (exists c | c in clients :: c.internalID == r.uri.objectId.value)
              && r.query.Some? && r.query.value.name.None?
    ensures var (after, answer) := Handle(clients, r);
            answer.code == CHANGED ==>
            && var i := ById(clients, r.uri.objectId.value);
            && Inv(after) && i < |clients| == |after| && after == clients[i := after[i]]
            && after[i].internalID == clients[i].internalID == r.uri.objectId.value && after[i].name == clients[i].name
            && after[i].endOfLife == r.now + after[i].lifetime && after[i].session == r.session
            && var (c, d, q, objects) := (clients[i], after[i], r.query.value, R.Decode(r.payload).1);
            && d.altPath == c.altPath && answer.location.None?
            && d.lifetime == (if q.lifetime != 0 then q.lifetime else c.lifetime)
            && d.binding == (if q.binding != UnknownBinding then q.binding else c.binding)
            && d.msisdn == (if q.msisdn != None then q.msisdn else c.msisdn)
            && d.objects == (if objects != [] then objects else c.objects)
            && (objects == [] ==> d.observations == c.observations && answer.deleted == [])
            && (objects != [] && SortedList.StrictlySorted(c.observations, ObservationId) ==>
                  forall o :: && (o in d.observations <==> o in c.observations && Declares(objects, o))
                              && (o in answer.deleted <==> o in c.observations && !Declares(objects, o)))
  {
    hide R.Decode, R.Listed, Prune, SortedList.StrictlySorted, Declares, Gone;
    R.DecodedIsListed(r.payload);
    HandleCodes(clients, r);
    if Handle(clients, r).1.code == CHANGED {
      var i := ById(clients, r.uri.objectId.value);
      ReplaceKeeps(clients, i, Handle(clients, r).0[i]);
      var objects := R.Decode(r.payload).1;
      if objects != [] && SortedList.StrictlySorted(clients[i].observations, ObservationId) {
        PruneIsExact(clients[i].observations, objects);
      }
    }
  }

  /** A deregistration that is accepted takes out the client at the location and no other. */
  lemma DeregisterIsAnswered(clients: seq<Client>, r: Request)
    requires Inv(clients)
    ensures Handle(clients, r).1.code == DELETED <==>
              && r.now >= 0 && r.code == DELETE && ClientOnly(r.uri)
              && exists c | c in clients :: c.internalID == r.uri.objectId.value
    ensures var (after, answer) := Handle(clients, r);
            answer.code == DELETED ==>
            && Inv(after) && |after| == |clients| - 1
            && forall c :: c in after <==> c in clients && c.internalID != r.uri.objectId.value
  {
    hide SortedList.Remove, SortedList.StrictlySorted;
    HandleCodes(clients, r);
    if Handle(clients, r).1.code == DELETED {
      var id := r.uri.objectId.value;
      RemoveKeeps(clients, id);
      SortedList.RemoveIsExact(clients, id, InternalId);
      SortedList.RemoveAt(clients, ById(clients, id), InternalId);
    }
  }

  /** What is refused changes nothing. */
  lemma RefusedChangesNothing(clients: seq<Client>, r: Request)
    requires Handle(clients, r).1.code !in {CREATED, CHANGED, DELETED}
    ensures Handle(clients, r).0 == clients
  {
    hide R.Decode, Prune, SortedList.Remove, SortedList.Insert, SortedList.NewId;
  }

  lemma {:induction false} ExpireRemoves(clients: seq<Client>, todo: seq<Client>, now: int)
    requires Inv(clients)
    ensures var r := Expire(clients, todo, now);
            Inv(r)
            && forall c :: c in r <==>
                 c in clients && forall t | t in todo && t.endOfLife <= now :: t.internalID != c.internalID
    decreases |todo|
  {
    hide SortedList.Remove, SortedList.StrictlySorted, DistinctNames;
    if todo != [] {
      var rest := todo[1..];
      assert forall t :: t in todo <==> t == todo[0] || t in rest;
      if todo[0].endOfLife <= now {
        RemoveKeeps(clients, todo[0].internalID);
        SortedList.RemoveIsExact(clients, todo[0].internalID, InternalId);
        ExpireRemoves(SortedList.Remove(clients, todo[0].internalID, InternalId), rest, now);
      } else {
        ExpireRemoves(clients, rest, now);
      }
    }
  }

  /** After a step exactly the clients remain whose lifetime is not over. */
  lemma ExpireIsExact(clients: seq<Client>, now: int)
    requires Inv(clients)
    ensures Inv(Expire(clients, clients, now))
    ensures forall c :: c in Expire(clients, clients, now) <==> c in clients && c.endOfLife > now
  {
    hide Expire, SortedList.StrictlySorted, DistinctNames;
    ExpireRemoves(clients, clients, now);
    forall c, t | c in clients && t in clients && c.internalID == t.internalID
      ensures c == t
    {
      SameClient(clients, c, t);
    }
  }

  lemma SameClient(clients: seq<Client>, c: Client, t: Client)
    requires SortedList.StrictlySorted(clients, InternalId)
    requires c in clients && t in clients && c.internalID == t.internalID
    ensures c == t
  {
    var i :| 0 <= i < |clients| && clients[i] == c;
    var j :| 0 <= j < |clients| && clients[j] == t;
    assert InternalId(clients[i]) == InternalId(clients[j]);
  }

  // ---------- runs ----------

  datatype Event = Received(request: Request) | Step(now: int)

  function Apply(clients: seq<Client>, e: Event): seq<Client> {
    match e
    case Received(r) => Handle(clients, r).0
    case Step(now) => if now < 0 then clients else Expire(clients, clients, now)
  }

  function Run(clients: seq<Client>, events: seq<Event>): seq<Client>
    decreases |events|
  {
    if events == [] then clients else Run(Apply(clients, events[0]), events[1..])
  }

  /** There is an identifier left whenever a request comes in. */
  predicate RoomFor(clients: seq<Client>, events: seq<Event>)
    decreases |events|
  {
    events == [] || (|clients| < 0x1_0000 && RoomFor(Apply(clients, events[0]), events[1..]))
  }

  lemma HandleKeeps(clients: seq<Client>, r: Request)
    requires Inv(clients) && |clients| < 0x1_0000
    ensures Inv(Handle(clients, r).0)
  {
    hide Register, Update, Deregister, Inv;
    var code := Handle(clients, r).1.code;
    RegisterCodes(clients, r);
    if r.now >= 0 {
      if r.code == PUT || (r.code == POST && ClientOnly(r.uri)) {
        if code == CHANGED { UpdateIsAnswered(clients, r); }
      } else if r.code == POST {
        if code == CREATED { RegisterIsAnswered(clients, r, None); }
      } else if r.code == DELETE {
        if code == DELETED { DeregisterIsAnswered(clients, r); }
      }
    }
  }

  lemma RegisterCodes(clients: seq<Client>, r: Request)
    ensures Register(clients, r).1.code != CREATED ==> Register(clients, r).0 == clients
    ensures Update(clients, r).1.code != CHANGED ==> Update(clients, r).0 == clients
    ensures Deregister(clients, r).1.code != DELETED ==> Deregister(clients, r).0 == clients
    ensures Update(clients, r).1.code == CHANGED || Deregister(clients, r).1.code == DELETED ==> ClientOnly(r.uri)
  {
    hide R.Decode, Prune, SortedList.Remove, SortedList.Insert, SortedList.NewId;
  }

  /** In every run from an empty server, while there is room, identifiers and names stay distinct and the list
      stays in order. */
  lemma {:induction false} RunKeepsInv(clients: seq<Client>, events: seq<Event>)
    requires Inv(clients) && RoomFor(clients, events)
    ensures Inv(Run(clients, events))
    decreases |events|
  {
    hide Handle, Expire, Inv;
    if events != [] {
      match events[0] {
        case Received(r) => HandleKeeps(clients, r);
        case Step(now) => ExpireIsExact(clients, now);
      }
      RunKeepsInv(Apply(clients, events[0]), events[1..]);
    }
  }

  /** A client that was registered stays registered, with the same identifier, while only requests for other
      clients come in and no step is later than its lifetime. */
  predicate Undisturbed(c: Client, e: Event) {
    match e
    case Received(r) =>
      && (r.query.Some? && r.query.value.name.Some? ==> r.query.value.name.value != c.name)
      && r.uri.objectId != Some(c.internalID)
    case Step(now) => now < c.endOfLife
  }

  predicate AllUndisturbed(c: Client, events: seq<Event>) {
    events == [] || (Undisturbed(c, events[0]) && AllUndisturbed(c, events[1..]))
  }

  lemma ApplyKeepsClient(clients: seq<Client>, e: Event, c: Client)
    requires Inv(clients) && |clients| < 0x1_0000 && c in clients && Undisturbed(c, e)
    ensures c in Apply(clients, e)
  {
    hide Register, Update, Deregister, Expire, R.Decode, U.DecodeUri, U.Cut;
    match e
    case Step(now) => ExpireIsExact(clients, now);
    case Received(r) =>
      RegisterCodes(clients, r);
      if r.now >= 0 {
        var i :| 0 <= i < |clients| && clients[i] == c;
        if r.code == PUT || (r.code == POST && ClientOnly(r.uri)) {
          if Update(clients, r).1.code == CHANGED {
            UpdateIsAnswered(clients, r);
            var after := Update(clients, r).0;
            assert after[i] == c;
          }
        } else if r.code == POST {
          if Register(clients, r).1.code == CREATED {
            RegisterIsAnswered(clients, r, None);
            RegisterIsNamed(clients, r);
          }
        } else if r.code == DELETE {
          if Deregister(clients, r).1.code == DELETED { DeregisterIsAnswered(clients, r); }
        }
      }
  }

  lemma RegisterIsNamed(clients: seq<Client>, r: Request)
    requires Register(clients, r).1.code == CREATED
    ensures r.query.Some? && r.query.value.name.Some?
  {
    hide R.Decode, SortedList.Insert, SortedList.NewId;
  }

  lemma {:induction false} UndisturbedClientStays(clients: seq<Client>, events: seq<Event>, c: Client)
    requires Inv(clients) && RoomFor(clients, events) && c in clients && AllUndisturbed(c, events)
    ensures c in Run(clients, events)
    decreases |events|
  {
    hide Apply, Inv, Undisturbed;
    if events != [] {
      ApplyKeepsClient(clients, events[0], c);
      RunKeepsInv(clients, events[..1]);
      OneEvent(clients, events);
      UndisturbedClientStays(Apply(clients, events[0]), events[1..], c);
    }
  }

  lemma OneEvent(clients: seq<Client>, events: seq<Event>)
    requires events != [] && RoomFor(clients, events)
    ensures RoomFor(clients, events[..1]) && Run(clients, events[..1]) == Apply(clients, events[0])
  {
    assert events[..1][1..] == [];
    assert RoomFor(Apply(clients, events[0]), events[..1][1..]);
  }
}
