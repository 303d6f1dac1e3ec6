/** What a request from a server makes a client do: which callbacks of an object it reaches, and what it answers. */
module Requests {
  import opened Core
  import opened Client
  import opened Management
  import opened Engine
  import Observe
  import SortedList
  import Tlv
  import U = Uri

  // ---------- who is served ----------

  predicate FirstWith(servers: seq<Server>, session: Session, i: nat) {
    && i < |servers| && servers[i].session == Some(session)
    && forall j | 0 <= j < i :: servers[j].session != Some(session)
  }

  predicate Nobody(servers: seq<Server>, session: Session) { forall v | v in servers :: v.session != Some(session) }

  /** Outside a bootstrap the server is a management server, the i-th, and counts the client as registered. */
  predicate Manages(s: State, session: Session, i: nat) {
    s.bsState != Pending && FirstWith(s.servers, session, i) && s.servers[i].status in {Registered, RegUpdatePending}
  }

  /** During a bootstrap it is a bootstrap server and no management server. */
  predicate Bootstraps(s: State, session: Session) {
    s.bsState == Pending && Nobody(s.servers, session) && !Nobody(s.bsServers, session)
  }

  predicate Admitted(s: State, session: Session) {
    Bootstraps(s, session) || exists i | 0 <= i < |s.servers| :: Manages(s, session, i)
  }

  lemma {:induction false} FindServerIs(servers: seq<Server>, session: Session)
    ensures var i := FindServer(servers, session);
            if i < |servers| then FirstWith(servers, session, i) else Nobody(servers, session)
    ensures forall i: nat | FirstWith(servers, session, i) :: i == FindServer(servers, session)
  {
    if servers != [] && servers[0].session != Some(session) {
      FindServerIs(servers[1..], session);
      assert forall i | 0 < i < |servers| :: servers[i] == servers[1..][i - 1];
      forall i: nat | FirstWith(servers, session, i) ensures i == FindServer(servers, session) {
        assert FirstWith(servers[1..], session, i - 1);
      }
    }
  }

  // ---------- which object ----------

  /** The request is for the object at this place, which is not hidden. */
  predicate IsFor(s: State, uri: U.Uri, at: nat) {
    && at < |s.objects| && uri.objectId == Some(s.objects[at].id)
    && (forall j | 0 <= j < at :: s.objects[j].id != s.objects[at].id)
    && (s.objects[at].id == SECURITY_OBJECT ==> s.bsState == Pending)
  }

  predicate IsForNone(s: State, uri: U.Uri) {
    && uri.objectId.Some?
    && ((forall o | o in s.objects :: o.id != uri.objectId.value)
        || (uri.objectId.value == SECURITY_OBJECT && s.bsState != Pending))
  }

  lemma {:induction false} FirstObjectIs(objects: seq<Object>, id: uint16)
    ensures var i := FirstObject(objects, id);
            if i < |objects| then objects[i].id == id && forall j | 0 <= j < i :: objects[j].id != id
            else forall o | o in objects :: o.id != id
  {
    if objects != [] && objects[0].id != id {
      FirstObjectIs(objects[1..], id);
      assert forall i | 0 < i < |objects| :: objects[i] == objects[1..][i - 1];
    }
  }

  lemma FoundIs(s: State, uri: U.Uri)
    requires uri.objectId.Some?
    ensures forall at: nat | IsFor(s, uri, at) :: FindObject(s, Number(uri.objectId)) == Some(at)
    ensures IsForNone(s, uri) <==> FindObject(s, Number(uri.objectId)) == None
  {
    FirstObjectIs(s.objects, uri.objectId.value);
    var i := FirstObject(s.objects, uri.objectId.value);
    assert i < |s.objects| ==> s.objects[i] in s.objects;
    forall at: nat | IsFor(s, uri, at) ensures at == i {
      assert s.objects[at] in s.objects;
    }
  }

  // ---------- which callback ----------

  /** The payload can be read: as records, unless it is the value of one resource. */
  predicate Readable(uri: U.Uri, m: Message) { uri.resourceId.Some? || Tlv.Accepted(m.payload) != [] }

  /** A PUT to an instance writes, and so does a POST to one that is there, outside a bootstrap. During a bootstrap the
      instance must be there. */
  predicate Writes(o: Object, uri: U.Uri, m: Message, pending: bool) {
    && o.writable && uri.instanceId.Some? && Readable(uri, m)
    && var there := uri.instanceId.value in o.instances;
    if pending then m.code == PUT && there
    else m.code == PUT || (m.code == POST && uri.resourceId.None? && there)
  }

  /** A POST outside a bootstrap creates the instance it names, if it is new, or one under a new identifier; during a
      bootstrap a PUT does, to an instance that is new. */
  predicate Creates(o: Object, uri: U.Uri, m: Message, pending: bool) {
    && o.creatable && Tlv.Accepted(m.payload) != [] && m.payload != []
    && var isNew := uri.instanceId.Some? && uri.instanceId.value !in o.instances;
    if pending then m.code == PUT && isNew
    else m.code == POST && (uri.instanceId.None? || (uri.resourceId.None? && isNew))
  }

  function CreatedId(o: Object, uri: U.Uri): uint16 {
    if uri.instanceId.Some? then uri.instanceId.value else SortedList.NewId<uint16>(o.instances, Itself)
  }

  /** A POST to a resource executes it, outside a bootstrap. */
  predicate Executes(o: Object, uri: U.Uri, m: Message, pending: bool) {
    o.executable && m.code == POST && uri.instanceId.Some? && uri.resourceId.Some? && !pending
  }

  /** A DELETE of an instance deletes it. */
  predicate Deletes(o: Object, uri: U.Uri, m: Message) {
    o.deletable && m.code == DELETE && uri.instanceId.Some? && uri.resourceId.None?
  }

  /** The callback that a request reaches, but for those that read. */
  function Reached(o: Object, uri: U.Uri, m: Message, pending: bool): Option<(Operation, uint16)> {
    if Writes(o, uri, m, pending) then Some((Write, uri.instanceId.value))
    else if Creates(o, uri, m, pending) then Some((Create, CreatedId(o, uri)))
    else if Executes(o, uri, m, pending) then Some((Execute, uri.instanceId.value))
    else if Deletes(o, uri, m) then Some((Delete, uri.instanceId.value))
    else None
  }

  /** What is answered if there is such an object and no callback is reached. */
  function Refusal(o: Object, uri: U.Uri, m: Message, pending: bool): byte {
    var there := uri.instanceId.Some? && uri.instanceId.value in o.instances;
    if m.code == DELETE then
      if uri.instanceId.None? || uri.resourceId.Some? then BAD_REQUEST else METHOD_NOT_ALLOWED
    else if m.code == PUT && uri.instanceId.None? then BAD_REQUEST
    else if m.code == POST && pending then METHOD_NOT_ALLOWED
    else if m.code == POST && uri.instanceId.Some? && uri.resourceId.Some? then METHOD_NOT_ALLOWED
    else if (m.code == PUT && !pending) || there then
      if !o.writable then METHOD_NOT_ALLOWED else INTERNAL_ERROR
    else if m.payload == [] then BAD_REQUEST
    else if !o.creatable then METHOD_NOT_ALLOWED
    else INTERNAL_ERROR
  }

  lemma DmReaches(s: State, uri: U.Uri, session: Session, m: Message, env: Env, at: nat)
    requires IsRequest(m) && m.code != GET && Admitted(s, session) && IsFor(s, uri, at)
    ensures var (r, code) := HandleDm(s, uri, session, m, env);
            var o, pending := s.objects[at], s.bsState == Pending;
            match Reached(o, uri, m, pending)
            case None => r.log == s.log && code == Refusal(o, uri, m, pending)
            case Some((op, inst)) =>
              && r.log == s.log + [Called(op, o.id, inst)]
              && code == if pending && op == Create && env.result(op, o.id, inst) == CREATED then CHANGED
                         else env.result(op, o.id, inst)
  {
    hide Tlv.Accepted, SortedList.Insert, SortedList.Remove, SortedList.NewId, FindServer, FindObject;
    FindServerIs(s.servers, session);
    FindServerIs(s.bsServers, session);
    FoundIs(s, uri);
  }

  // ---------- what is read ----------

  /** The read callback was called for one instance after the other, up to the first that failed. */
  predicate ReadUpTo(calls: seq<Output>, id: uint16, list: seq<uint16>, env: Env) {
    && |calls| <= |list|
    && (forall k | 0 <= k < |calls| :: calls[k] == Called(Read, id, list[k]))
    && (forall k | 0 <= k < |calls| - 1 :: env.result(Read, id, list[k]) == CONTENT)
    && (|calls| < |list| ==> calls != [] && env.result(Read, id, list[|calls| - 1]) != CONTENT)
  }

  lemma {:induction false} ReadsInOrder(id: uint16, list: seq<uint16>, env: Env)
    ensures var (code, calls) := ReadInstances(id, list, env);
            ReadUpTo(calls, id, list, env) &&
            code == if calls == [] then CONTENT else env.result(Read, id, list[|calls| - 1])
  {
    if list != [] {
      ReadsInOrder(id, list[1..], env);
      var calls := ReadInstances(id, list, env).1;
      assert forall k | 0 < k < |calls| :: list[1..][k - 1] == list[k];
    }
  }

  /** The instances that a GET asks for; an object without a list has one instance, the first. */
  function Asked(o: Object, uri: U.Uri): Option<seq<uint16>> {
    if uri.instanceId.None? then Some(if o.instances == [] then [0] else o.instances)
    else if uri.instanceId.value in o.instances || (o.instances == [] && uri.instanceId.value == 0)
    then Some([uri.instanceId.value])
    else None
  }

  /** A request to observe that is granted, once the value could be read. */
  predicate Observes(uri: U.Uri, m: Message) {
    m.observe && m.token != [] && !(uri.instanceId.None? && uri.resourceId.Some?)
  }

  /** What a GET from the management server at place i reads and answers, and who watches then. The instances it
      asks for are read in order, up to the first failure. The answer is the result of the last callback; and only a
      success makes the server watch the path, if it asks for that. */
  predicate Gets(s: State, uri: U.Uri, i: nat, m: Message, env: Env, o: Object,
                 calls: seq<Output>, code: byte, observed: seq<Observe.Observed>) {
    if !o.readable then calls == [] && code == METHOD_NOT_ALLOWED && observed == s.observed
    else match Asked(o, uri)
      case None => calls == [] && code == NOT_FOUND && observed == s.observed
      case Some(list) =>
        && calls != [] && ReadUpTo(calls, o.id, list, env)
        && var last := env.result(Read, o.id, list[|calls| - 1]);
        && code == (if last != CONTENT then last
                    else if env.empty then INTERNAL_ERROR
                    else if m.observe && !Observes(uri, m) then BAD_REQUEST
                    else CONTENT)
        && observed == if last == CONTENT && !env.empty && Observes(uri, m)
                       then Observe.Add(s.observed, uri, i, m.token) else s.observed
  }

  lemma ObjectIsRead(s: State, uri: U.Uri, env: Env, at: nat)
    requires s.bsState != Pending && IsFor(s, uri, at)
    ensures var (code, calls), o := ReadObject(s, uri, env), s.objects[at];
            if !o.readable then (code, calls) == (METHOD_NOT_ALLOWED, [])
            else match Asked(o, uri)
              case None => (code, calls) == (NOT_FOUND, [])
              case Some(list) =>
                && calls != [] && ReadUpTo(calls, o.id, list, env)
                && var last := env.result(Read, o.id, list[|calls| - 1]);
                code == if last == CONTENT && env.empty then INTERNAL_ERROR else last
  {
    hide ReadInstances, FindObject, ReadUpTo;
    FoundIs(s, uri);
    var o := s.objects[at];
    if Asked(o, uri).Some? {
      var list := Asked(o, uri).value;
      ReadsInOrder(o.id, list, env);
      SomeIsRead(list, ReadInstances(o.id, list, env).1, o.id, env);
    }
  }

  lemma SomeIsRead(list: seq<uint16>, calls: seq<Output>, id: uint16, env: Env)
    requires list != [] && ReadUpTo(calls, id, list, env)
    ensures 0 < |calls| <= |list|
  {
  }

  lemma GetIs(s: State, uri: U.Uri, i: nat, m: Message, env: Env, at: nat)
    requires s.bsState != Pending && IsFor(s, uri, at)
    ensures var (r, code) := HandleGet(s, uri, i, m, env);
            && s.log <= r.log && r == s.(log := r.log, observed := r.observed)
            && Gets(s, uri, i, m, env, s.objects[at], r.log[|s.log|..], code, r.observed)
  {
    hide ReadObject, Observe.Add, ReadUpTo, Asked, IsFor;
    ObjectIsRead(s, uri, env, at);
    var calls := ReadObject(s, uri, env).1;
    assert (s.log + calls)[|s.log|..] == calls;
  }

  lemma DmReads(s: State, uri: U.Uri, session: Session, i: nat, m: Message, env: Env, at: nat)
    requires m.code == GET && Manages(s, session, i) && IsFor(s, uri, at)
    ensures var (r, code) := HandleDm(s, uri, session, m, env);
            && s.log <= r.log && r == s.(log := r.log, observed := r.observed)
            && Gets(s, uri, i, m, env, s.objects[at], r.log[|s.log|..], code, r.observed)
  {
    hide HandleGet, FindServer, Gets, IsFor;
    FindServerIs(s.servers, session);
    GetIs(s, uri, i, m, env, at);
  }

  // ---------- what is changed ----------

  /** The request reaches the callback, with this result. */
  predicate Does(o: Object, uri: U.Uri, m: Message, pending: bool, env: Env, op: Operation, result: byte) {
    match Reached(o, uri, m, pending)
    case None => false
    case Some((done, inst)) => done == op && env.result(op, o.id, inst) == result
  }

  lemma InsertedId(list: seq<uint16>, k: uint16)
    requires SortedList.StrictlySorted(list, Itself)
    ensures forall x: uint16 :: x in SortedList.Insert(list, k, Itself) <==> x in list || x == k
    ensures k !in list ==> SortedList.StrictlySorted(SortedList.Insert(list, k, Itself), Itself)
  {
    hide SortedList.Insert;
    assert SortedList.Sorted(list, Itself);
    SortedList.InsertKeepsSorted(list, k, Itself);
    var t := SortedList.Insert(list, k, Itself);
    assert forall x: uint16 :: x in t <==> x in multiset(t);
  }

  lemma HasItself(list: seq<uint16>, k: uint16)
    ensures SortedList.HasId(list, k, Itself) <==> k in list
  {
    assert forall i | 0 <= i < |list| :: Itself(list[i]) == list[i];
  }

  lemma NewIsUnused(list: seq<uint16>)
    requires SortedList.StrictlySorted(list, Itself) && |list| < 0x1_0000
    ensures SortedList.NewId<uint16>(list, Itself) !in list
  {
    hide SortedList.NewId, SortedList.StrictlySorted;
    SortedList.NewIdIsFresh<uint16>(list, Itself);
    HasItself(list, SortedList.NewId<uint16>(list, Itself));
  }

  /** What the object operations change. */
  lemma CreateChanges(s: State, uri: U.Uri, m: Message, env: Env, at: nat)
    requires IsFor(s, uri, at)
    ensures var o, id := s.objects[at], CreatedId(s.objects[at], uri);
            var r := CreateObject(s, uri, m.payload, env).0;
            r == s.(log := r.log, objects :=
              if o.creatable && m.payload != [] && Tlv.Accepted(m.payload) != []
                 && !(uri.instanceId.Some? && id in o.instances) && env.result(Create, o.id, id) == CREATED
              then s.objects[at := o.(instances := SortedList.Insert<uint16>(o.instances, id, Itself))] else s.objects)
  {
    hide Tlv.Accepted, SortedList.Insert, SortedList.NewId, FindObject;
    FoundIs(s, uri);
  }

  lemma DeleteChanges(s: State, uri: U.Uri, env: Env, at: nat)
    requires IsFor(s, uri, at)
    ensures var o, id := s.objects[at], Number(uri.instanceId);
            var r := DeleteObject(s, uri, env).0;
            r == s.(log := r.log, objects :=
              if o.deletable && env.result(Delete, o.id, id) == DELETED
              then s.objects[at := o.(instances := SortedList.Remove<uint16>(o.instances, id, Itself))] else s.objects)
  {
    hide SortedList.Remove, FindObject;
    FoundIs(s, uri);
  }

  lemma WriteChanges(s: State, uri: U.Uri, m: Message, env: Env, at: nat)
    requires IsFor(s, uri, at)
    ensures var o, id := s.objects[at], Number(uri.instanceId);
            var r := WriteObject(s, uri, m.payload, env).0;
            var ok := o.writable && Readable(uri, m) && env.result(Write, o.id, id) == CHANGED;
            && r == s.(log := r.log, bsState := r.bsState, bsStart := r.bsStart)
            && (if s.bsState != Pending then r.bsState == s.bsState && r.bsStart == s.bsStart
                else r.bsStart == env.now && r.bsState == if ok then Pending else Failed)
  {
    hide Tlv.Accepted, FindObject;
    FoundIs(s, uri);
  }

  lemma ExecuteChanges(s: State, uri: U.Uri, env: Env)
    ensures var r := ExecuteObject(s, uri, env).0; r == s.(log := r.log)
  {
  }

  /** The instances of the object after the request. */
  function Instances(o: Object, uri: U.Uri, m: Message, pending: bool, env: Env): seq<uint16> {
    if Does(o, uri, m, pending, env, Create, CREATED)
    then SortedList.Insert<uint16>(o.instances, CreatedId(o, uri), Itself)
    else if Does(o, uri, m, pending, env, Delete, DELETED)
    then SortedList.Remove<uint16>(o.instances, uri.instanceId.value, Itself)
    else o.instances
  }

  /** Nothing changes but the instances of the object. During a bootstrap a write to an instance that succeeds, and only
      that, restarts its timer, and one that does not ends it. */
  predicate ChangesAt(s: State, r: State, uri: U.Uri, m: Message, env: Env, at: nat)
    requires at < |s.objects|
  {
    var o, pending := s.objects[at], s.bsState == Pending;
    && r.objects == s.objects[at := o.(instances := Instances(o, uri, m, pending, env))]
    && r == s.(log := r.log, bsState := r.bsState, bsStart := r.bsStart, objects := r.objects)
    && (if pending && m.code == PUT && uri.instanceId.Some? && uri.instanceId.value in o.instances
        then r.bsStart == env.now &&
             r.bsState == if Does(o, uri, m, pending, env, Write, CHANGED) then Pending else Failed
        else r.bsStart == s.bsStart && r.bsState == s.bsState)
  }

  /** A POST or, during a bootstrap, a PUT that goes to object_create. */
  lemma CreationChanges(s: State, uri: U.Uri, m: Message, env: Env, at: nat)
    requires IsFor(s, uri, at) && if s.bsState == Pending then m.code == PUT else m.code == POST
    requires if uri.instanceId.None? then m.code == POST
             else uri.instanceId.value !in s.objects[at].instances && (m.code == POST ==> uri.resourceId.None?)
    ensures ChangesAt(s, CreateObject(s, uri, m.payload, env).0, uri, m, env, at)
  {
    hide Tlv.Accepted, SortedList.Insert, SortedList.NewId, CreateObject;
    CreateChanges(s, uri, m, env, at);
    assert s.objects[at := s.objects[at].(instances := s.objects[at].instances)] == s.objects;
  }

  /** A PUT or POST that goes to object_write. */
  lemma WritingChanges(s: State, uri: U.Uri, m: Message, env: Env, at: nat)
    requires IsFor(s, uri, at) && m.code in {PUT, POST} && uri.instanceId.Some?
    requires uri.instanceId.value in s.objects[at].instances || (m.code == PUT && s.bsState != Pending)
    requires m.code == POST ==> uri.resourceId.None? && s.bsState != Pending
    ensures ChangesAt(s, WriteObject(s, uri, m.payload, env).0, uri, m, env, at)
  {
    hide Tlv.Accepted, WriteObject;
    WriteChanges(s, uri, m, env, at);
    assert s.objects[at := s.objects[at].(instances := s.objects[at].instances)] == s.objects;
  }

  lemma ExecutionChanges(s: State, uri: U.Uri, m: Message, env: Env, at: nat)
    requires IsFor(s, uri, at) && m.code == POST && uri.instanceId.Some? && uri.resourceId.Some?
    ensures ChangesAt(s, ExecuteObject(s, uri, env).0, uri, m, env, at)
  {
    hide Tlv.Accepted, ExecuteObject;
    ExecuteChanges(s, uri, env);
    assert s.objects[at := s.objects[at].(instances := s.objects[at].instances)] == s.objects;
  }

  lemma PostChanges(s: State, uri: U.Uri, m: Message, env: Env, at: nat)
    requires m.code == POST && IsFor(s, uri, at)
    ensures ChangesAt(s, HandlePost(s, uri, m, env).0, uri, m, env, at)
  {
    hide FindObject, CreateObject, WriteObject, ExecuteObject, ChangesAt;
    FoundIs(s, uri);
    if s.bsState == Pending {
      NothingChanges(s, uri, m, env, at);
    } else if uri.instanceId.Some? && uri.resourceId.Some? {
      ExecutionChanges(s, uri, m, env, at);
    } else if uri.instanceId.Some? && uri.instanceId.value in s.objects[at].instances {
      WritingChanges(s, uri, m, env, at);
    } else {
      CreationChanges(s, uri, m, env, at);
    }
  }

  lemma PutChanges(s: State, uri: U.Uri, m: Message, env: Env, at: nat)
    requires m.code == PUT && IsFor(s, uri, at)
    ensures ChangesAt(s, HandlePut(s, uri, m, env).0, uri, m, env, at)
  {
    hide FindObject, CreateObject, WriteObject, ChangesAt;
    FoundIs(s, uri);
    if uri.instanceId.None? {
      NothingChanges(s, uri, m, env, at);
    } else if s.bsState == Pending && uri.instanceId.value !in s.objects[at].instances {
      CreationChanges(s, uri, m, env, at);
    } else {
      WritingChanges(s, uri, m, env, at);
    }
  }

  lemma NothingChanges(s: State, uri: U.Uri, m: Message, env: Env, at: nat)
    requires IsFor(s, uri, at)
    requires if m.code == POST then s.bsState == Pending
             else if m.code == PUT then uri.instanceId.None?
             else m.code == DELETE && (uri.instanceId.None? || uri.resourceId.Some?)
    ensures ChangesAt(s, s, uri, m, env, at)
  {
    assert s.objects[at := s.objects[at].(instances := s.objects[at].instances)] == s.objects;
  }

  lemma DeletionChanges(s: State, uri: U.Uri, m: Message, env: Env, at: nat)
    requires m.code == DELETE && IsFor(s, uri, at) && uri.instanceId.Some? && uri.resourceId.None?
    ensures ChangesAt(s, DeleteObject(s, uri, env).0, uri, m, env, at)
  {
    hide SortedList.Remove, FindObject, DeleteObject;
    assert s.objects[at := s.objects[at].(instances := s.objects[at].instances)] == s.objects;
    DeleteChanges(s, uri, env, at);
  }

  lemma DmChanges(s: State, uri: U.Uri, session: Session, m: Message, env: Env, at: nat)
    requires IsRequest(m) && m.code != GET && Admitted(s, session) && IsFor(s, uri, at)
    ensures ChangesAt(s, HandleDm(s, uri, session, m, env).0, uri, m, env, at)
  {
    hide FindServer, HandlePost, HandlePut, DeleteObject, ChangesAt;
    FindServerIs(s.servers, session);
    FindServerIs(s.bsServers, session);
    if m.code == POST {
      PostChanges(s, uri, m, env, at);
    } else if m.code == PUT {
      PutChanges(s, uri, m, env, at);
    } else if uri.instanceId.Some? && uri.resourceId.None? {
      DeletionChanges(s, uri, m, env, at);
    } else {
      NothingChanges(s, uri, m, env, at);
    }
  }

  /** The instance that was created is there then, the one that was deleted is not, and all others stay. */
  lemma InstancesAre(o: Object, uri: U.Uri, m: Message, pending: bool, env: Env)
    requires SortedList.StrictlySorted(o.instances, Itself)
    ensures var list := Instances(o, uri, m, pending, env);
            && (forall k: uint16 :: k in list <==>
                  if Does(o, uri, m, pending, env, Create, CREATED) then k in o.instances || k == CreatedId(o, uri)
                  else if Does(o, uri, m, pending, env, Delete, DELETED)
                  then k in o.instances && k != uri.instanceId.value
                  else k in o.instances)
            && (|o.instances| < 0x1_0000 ==> SortedList.StrictlySorted(list, Itself))
  {
    hide Tlv.Accepted, SortedList.Insert, SortedList.Remove, SortedList.NewId, SortedList.StrictlySorted;
    InsertedId(o.instances, CreatedId(o, uri));
    SortedList.RemoveIsExact<uint16>(o.instances, Number(uri.instanceId), Itself);
    if |o.instances| < 0x1_0000 {
      NewIsUnused(o.instances);
    }
  }

  // ---------- who is not served, and what is not there ----------

  /** A request from a stranger, or from a server that does not count the client as registered, is ignored; a management
      server is refused during a bootstrap, and a bootstrap server outside of one. */
  lemma StrangersAreRefused(s: State, uri: U.Uri, session: Session, m: Message, env: Env)
    requires !Admitted(s, session)
    ensures HandleDm(s, uri, session, m, env) == (s,
              if Nobody(s.servers, session) && Nobody(s.bsServers, session) then IGNORE
              else if Nobody(s.servers, session) then NOT_IMPLEMENTED
              else if s.bsState == Pending then UNAUTHORIZED
              else IGNORE)
  {
    hide HandleGet, HandlePost, HandlePut, DeleteObject, FindServer;
    FindServerIs(s.servers, session);
    FindServerIs(s.bsServers, session);
    var i := FindServer(s.servers, session);
    assert i < |s.servers| ==> s.servers[i] in s.servers;
    assert i < |s.servers| && s.bsState != Pending ==> !Manages(s, session, i);
  }

  /** A request for an object that is not there, or is hidden, is refused. */
  lemma MissingObject(s: State, uri: U.Uri, session: Session, m: Message, env: Env)
    requires IsRequest(m) && Admitted(s, session) && IsForNone(s, uri)
    ensures var pending := s.bsState == Pending;
            HandleDm(s, uri, session, m, env) == (s,
              if m.code == GET then if pending then METHOD_NOT_ALLOWED else NOT_FOUND
              else if m.code == DELETE then
                if uri.instanceId.None? || uri.resourceId.Some? then BAD_REQUEST else NOT_FOUND
              else if m.code == PUT && uri.instanceId.None? then BAD_REQUEST
              else if m.code == POST && pending then METHOD_NOT_ALLOWED
              else if m.code == PUT && !pending then NOT_FOUND
              else if m.code == POST && uri.instanceId.Some? && uri.resourceId.Some? then NOT_FOUND
              else if m.payload == [] then BAD_REQUEST
              else NOT_FOUND)
  {
    hide FindServer, FindObject;
    FindServerIs(s.servers, session);
    FindServerIs(s.bsServers, session);
    FoundIs(s, uri);
    assert s.log + [] == s.log;
  }

  // ---------- packets ----------

  /** What a packet adds to the log. */
  function New(s: State, r: State): seq<Output>
    requires s.log <= r.log
  {
    r.log[|s.log|..]
  }

  function Reply(session: Session, code: byte): seq<Output> { if code == IGNORE then [] else [Answered(session, code)] }

  lemma PacketIs(s: State, session: Session, m: Message, env: Env, uri: U.Uri)
    requires IsRequest(m) && U.DecodeUri(s.altPath, m.path) == Some(uri) && uri.target == U.Dm
    ensures var s1 := if m.mtype == Con then s else Draw(s);
            var (s2, code) := HandleDm(s1, uri, session, m, env);
            var r := HandlePacket(s, session, m, env);
            r == s2.(log := r.log) && r.log == s2.log + Reply(session, code)
  {
    hide HandleDm, U.DecodeUri;
    var s1 := if m.mtype == Con then s else Draw(s);
    var s2 := HandleDm(s1, uri, session, m, env).0;
    assert s2.log + [] == s2.log;
  }

  function Calls(o: Object, reached: Option<(Operation, uint16)>): seq<Output> {
    match reached
    case None => []
    case Some((op, inst)) => [Called(op, o.id, inst)]
  }

  /** The code that is answered to a request other than a GET. */
  function Result(o: Object, uri: U.Uri, m: Message, pending: bool, env: Env): byte {
    match Reached(o, uri, m, pending)
    case None => Refusal(o, uri, m, pending)
    case Some((op, inst)) =>
      var result := env.result(op, o.id, inst);
      if pending && op == Create && result == CREATED then CHANGED else result
  }

  lemma NewIs(s: State, session: Session, m: Message, env: Env, uri: U.Uri, at: nat)
    requires IsRequest(m) && m.code != GET && Admitted(s, session)
    requires U.DecodeUri(s.altPath, m.path) == Some(uri) && uri.target == U.Dm && IsFor(s, uri, at)
    ensures var r, o, pending := HandlePacket(s, session, m, env), s.objects[at], s.bsState == Pending;
            s.log <= r.log &&
            New(s, r) == Calls(o, Reached(o, uri, m, pending)) + Reply(session, Result(o, uri, m, pending, env))
  {
    hide HandleDm, HandlePacket, U.DecodeUri, Reached, Refusal, Reply, Admitted, IsFor;
    var s1 := if m.mtype == Con then s else Draw(s);
    DrawnIsSame(s, session, uri, at);
    DmReaches(s1, uri, session, m, env, at);
    PacketIs(s, session, m, env, uri);
    var (s2, code) := HandleDm(s1, uri, session, m, env);
    var r, o, pending := HandlePacket(s, session, m, env), s.objects[at], s.bsState == Pending;
    assert s.log + [] == s.log;
    assert s2.log == s.log + Calls(o, Reached(o, uri, m, pending));
    assert r.log == s.log + (Calls(o, Reached(o, uri, m, pending)) + Reply(session, code));
  }

  /** A request other than a GET, from a server that is served, for an object that is there: it reaches the callback
      that its method and path stand for, if the object has that callback and the payload can be read, and no other
      callback of this or any other object; the callback's result is what is answered. Only, a creation during a
      bootstrap is answered as a change. If it reaches none, the refusal says why. */
  lemma RequestReaches(s: State, session: Session, m: Message, env: Env, uri: U.Uri, at: nat)
    requires IsRequest(m) && m.code != GET && Admitted(s, session)
    requires U.DecodeUri(s.altPath, m.path) == Some(uri) && uri.target == U.Dm && IsFor(s, uri, at)
    ensures var r, o, pending := HandlePacket(s, session, m, env), s.objects[at], s.bsState == Pending;
            && s.log <= r.log
            && (forall op, id, inst :: Called(op, id, inst) in New(s, r) <==>
                  && id == o.id
                  && match op
                     case Read => false
                     case Write => Writes(o, uri, m, pending) && Some(inst) == uri.instanceId
                     case Create => Creates(o, uri, m, pending) && inst == CreatedId(o, uri)
                     case Execute => Executes(o, uri, m, pending) && Some(inst) == uri.instanceId
                     case Delete => Deletes(o, uri, m) && Some(inst) == uri.instanceId)
            && (forall op, inst | Called(op, o.id, inst) in New(s, r) ::
                  var result := env.result(op, o.id, inst);
                  New(s, r) == [Called(op, o.id, inst)]
                               + Reply(session, if pending && op == Create && result == CREATED then CHANGED
                                                else result))
            && (Reached(o, uri, m, pending).None? ==> New(s, r) == Reply(session, Refusal(o, uri, m, pending)))
  {
    hide HandlePacket, U.DecodeUri, Tlv.Accepted, SortedList.NewId, Refusal, Admitted;
    NewIs(s, session, m, env, uri, at);
    var r, o, pending := HandlePacket(s, session, m, env), s.objects[at], s.bsState == Pending;
    var calls, reply := Calls(o, Reached(o, uri, m, pending)), Reply(session, Result(o, uri, m, pending, env));
    assert New(s, r) == calls + reply;
    assert forall x | x in reply :: x.Answered?;
    forall op, id: uint16, inst: uint16
      ensures Called(op, id, inst) in New(s, r) <==> id == o.id && Reached(o, uri, m, pending) == Some((op, inst))
    {
      var x := Called(op, id, inst);
      assert x in New(s, r) <==> x in calls || x in reply;
    }
    assert [] + reply == reply;
  }

  /** Drawing an identifier changes nothing about who is served and what is there. */
  lemma DrawnIsSame(s: State, session: Session, uri: U.Uri, at: nat)
    ensures Admitted(s, session) ==> Admitted(Draw(s), session)
    ensures IsFor(s, uri, at) ==> IsFor(Draw(s), uri, at)
    ensures forall i: nat | Manages(s, session, i) :: Manages(Draw(s), session, i)
  {
    if i :| 0 <= i < |s.servers| && Manages(s, session, i) {
      assert Manages(Draw(s), session, i);
    }
  }

  /** A GET from a management server calls read callbacks only, and answers what they give. */
  lemma GetReads(s: State, session: Session, i: nat, m: Message, env: Env, uri: U.Uri, at: nat)
    requires m.code == GET && Manages(s, session, i)
    requires U.DecodeUri(s.altPath, m.path) == Some(uri) && uri.target == U.Dm && IsFor(s, uri, at)
    ensures var r := HandlePacket(s, session, m, env);
            && s.log <= r.log && r.objects == s.objects && r.bsState == s.bsState
            && exists calls, code ::
                 New(s, r) == calls + Reply(session, code)
                 && Gets(s, uri, i, m, env, s.objects[at], calls, code, r.observed)
  {
    hide HandleDm, HandlePacket, U.DecodeUri, Manages, IsFor, Gets, Reply;
    var s1 := if m.mtype == Con then s else Draw(s);
    DrawnIsSame(s, session, uri, at);
    DmReads(s1, uri, session, i, m, env, at);
    PacketIs(s, session, m, env, uri);
    var (s2, code) := HandleDm(s1, uri, session, m, env);
    var r, calls := HandlePacket(s, session, m, env), s2.log[|s.log|..];
    GetsSame(s, s1, uri, i, m, env, s.objects[at], calls, code, r.observed);
    assert r.log == s2.log + Reply(session, code);
    assert New(s, r) == calls + Reply(session, code);
  }

  lemma GetsSame(s: State, a: State, uri: U.Uri, i: nat, m: Message, env: Env, o: Object,
                 calls: seq<Output>, code: byte, observed: seq<Observe.Observed>)
    requires a.observed == s.observed && Gets(a, uri, i, m, env, o, calls, code, observed)
    ensures Gets(s, uri, i, m, env, o, calls, code, observed)
  {
  }

  // ---------- deleting everything ----------

  /** Deleting everything takes the instances of the Security and of the Server object, where they can be deleted. */
  predicate Emptied(o: Object) { o.id in {SECURITY_OBJECT, SERVER_OBJECT} && o.deletable }

  /** It is an instance of such an object, from the i-th on. */
  predicate Goes(objects: seq<Object>, i: nat, id: uint16, inst: uint16) {
    exists j | i <= j < |objects| :: Emptied(objects[j]) && objects[j].id == id && inst in objects[j].instances
  }

  lemma GoesOn(objects: seq<Object>, i: nat, id: uint16, inst: uint16)
    requires i < |objects|
    ensures Goes(objects, i, id, inst) <==>
            (Emptied(objects[i]) && objects[i].id == id && inst in objects[i].instances)
            || Goes(objects, i + 1, id, inst)
  {
  }

  lemma {:induction false} DeleteAllDeletes(s: State, i: nat)
    requires i <= |s.objects|
    ensures var r := DeleteAllFrom(s, i);
            && s.log <= r.log && |r.objects| == |s.objects| && r == s.(objects := r.objects, log := r.log)
            && (forall j | 0 <= j < |s.objects| ::
                  r.objects[j] == if i <= j && Emptied(s.objects[j]) then s.objects[j].(instances := [])
                                  else s.objects[j])
    decreases |s.objects| - i
  {
    if i < |s.objects| {
      var o := s.objects[i];
      if Emptied(o) {
        DeleteAllDeletes(s.(objects := s.objects[i := o.(instances := [])],
                            log := s.log + DeleteInstances(o.id, o.instances)), i + 1);
      } else {
        DeleteAllDeletes(s, i + 1);
      }
    }
  }

  /** Each of these instances, and no other, is handed to the delete callback, and no other callback is called. */
  lemma {:induction false} DeleteAllCalls(s: State, i: nat, o: Output)
    requires i <= |s.objects|
    ensures s.log <= DeleteAllFrom(s, i).log
    ensures o in New(s, DeleteAllFrom(s, i)) <==>
              o.Called? && o.op == Delete && Goes(s.objects, i, o.objectId, o.instanceId)
    decreases |s.objects| - i
  {
    hide Goes;
    DeleteAllDeletes(s, i);
    if i < |s.objects| {
      var x := s.objects[i];
      if o.Called? {
        GoesOn(s.objects, i, o.objectId, o.instanceId);
      }
      if Emptied(x) {
        var deletes := DeleteInstances(x.id, x.instances);
        var s1 := s.(objects := s.objects[i := x.(instances := [])], log := s.log + deletes);
        DeletesEach(x.id, x.instances);
        DeleteAllCalls(s1, i + 1, o);
        SameGoes(s, s1, i + 1);
        assert New(s, DeleteAllFrom(s, i)) == deletes + New(s1, DeleteAllFrom(s1, i + 1));
      } else {
        DeleteAllCalls(s, i + 1, o);
      }
    } else {
      NothingGoes(s.objects, i);
    }
  }

  lemma SameGoes(s: State, r: State, i: nat)
    requires |r.objects| == |s.objects| && forall j | i <= j < |s.objects| :: r.objects[j] == s.objects[j]
    ensures forall id, inst :: Goes(r.objects, i, id, inst) == Goes(s.objects, i, id, inst)
  {
  }

  lemma NothingGoes(objects: seq<Object>, i: nat)
    requires i >= |objects|
    ensures forall id, inst :: !Goes(objects, i, id, inst)
  {
  }

  lemma {:induction false} DeletesEach(id: uint16, instances: seq<uint16>)
    ensures forall o :: o in DeleteInstances(id, instances) <==>
              o.Called? && o.op == Delete && o.objectId == id && o.instanceId in instances
  {
    if instances != [] {
      DeletesEach(id, instances[1..]);
    }
  }

  /** Only a DELETE by a bootstrap server during a bootstrap deletes everything. */
  lemma DeleteAllRequest(s: State, session: Session, m: Message, env: Env, uri: U.Uri)
    requires IsRequest(m) && U.DecodeUri(s.altPath, m.path) == Some(uri) && uri.target == U.DeleteAll
    ensures var s1 := if m.mtype == Con then s else Draw(s);
            var r := HandlePacket(s, session, m, env);
            if m.code == DELETE && s.bsState == Pending && !Nobody(s.bsServers, session)
            then r == Log(DeleteAllFrom(s1, 0), Answered(session, DELETED))
            else r == s1.(log := s.log + Reply(session, if m.code != DELETE then BAD_REQUEST
                                                        else if Nobody(s.bsServers, session) then UNAUTHORIZED
                                                        else IGNORE))
  {
    hide U.DecodeUri, FindServer;
    FindServerIs(s.bsServers, session);
    assert s.log + [] == s.log;
    var i := FindServer(s.bsServers, session);
    assert i < |s.bsServers| ==> s.bsServers[i] in s.bsServers;
  }

  /** A path that cannot be read is refused, and requests of other kinds, which are for servers, are ignored. */
  lemma OtherRequests(s: State, session: Session, m: Message, env: Env)
    requires IsRequest(m)
    requires var uri := U.DecodeUri(s.altPath, m.path); uri.Some? ==> uri.value.target !in {U.Dm, U.DeleteAll}
    ensures var s1 := if m.mtype == Con then s else Draw(s);
            HandlePacket(s, session, m, env) ==
            s1.(log := s.log + Reply(session, if U.DecodeUri(s.altPath, m.path).None? then BAD_REQUEST else IGNORE))
  {
    hide U.DecodeUri;
    assert s.log + [] == s.log;
  }
}
