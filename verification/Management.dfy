/**
 Requests to a client: the object operations of wakaama/objects.c, their gating by server status and
 bootstrap state (management.c), observation (observe.c) and the dispatch of packets (packet.c).
 */
module Management {
  import opened Core
  import opened Client
  import SortedList
  import Observe
  import Tlv
  import U = Uri

  // an identifier that is not set is 0
  function Number(id: Option<uint16>): uint16 { if id.Some? then id.value else 0 }

  function Itself(id: uint16): uint16 { id }

  // ---------- objects.c ----------

  function FirstObject(objects: seq<Object>, id: uint16): (i: nat)
    ensures i <= |objects| && (i < |objects| ==> objects[i].id == id)
  {
    if objects == [] || objects[0].id == id then 0 else 1 + FirstObject(objects[1..], id)
  }

  /** prv_find_object: the place of an object; the Security object is hidden outside a bootstrap. */
  function FindObject(s: State, id: uint16): (r: Option<nat>)
    ensures r.Some? ==> r.value < |s.objects| && s.objects[r.value].id == id
    ensures r.Some? && id == SECURITY_OBJECT ==> s.bsState == Pending
  {
    if s.bsState != Pending && id == SECURITY_OBJECT then None
    else
      var i := FirstObject(s.objects, id);
      if i < |s.objects| then Some(i) else None
  }

  /** The read callback for one instance after the other, while it succeeds. */
  function ReadInstances(id: uint16, instances: seq<uint16>, env: Env): (byte, seq<Output>) {
    if instances == [] then (CONTENT, [])
    else
      var code := env.result(Read, id, instances[0]);
      var rest := if code == CONTENT then ReadInstances(id, instances[1..], env) else (code, []);
      (rest.0, [Called(Read, id, instances[0])] + rest.1)
  }

  /** object_read: the result code and the calls made. */
  function ReadObject(s: State, uri: U.Uri, env: Env): (byte, seq<Output>) {
    if s.bsState == Pending then (METHOD_NOT_ALLOWED, [])
    else
      var at := FindObject(s, Number(uri.objectId));
      if at.None? then (NOT_FOUND, [])
      else
        var o := s.objects[at.value];
        if !o.readable then (METHOD_NOT_ALLOWED, [])
        else if o.instances == [] && uri.instanceId.Some? && uri.instanceId.value != 0 then (NOT_FOUND, [])
        else if o.instances != [] && uri.instanceId.Some? && uri.instanceId.value !in o.instances then (NOT_FOUND, [])
        else
          var (code, calls) :=
            if o.instances != [] && uri.instanceId.None? then ReadInstances(o.id, o.instances, env)
            else ReadInstances(o.id, [Number(uri.instanceId)], env);
          (if code == CONTENT && env.empty then INTERNAL_ERROR else code, calls)
  }

  /** object_write. During a bootstrap a failure ends the bootstrap and a success restarts its timer. */
  function WriteObject(s: State, uri: U.Uri, payload: seq<byte>, env: Env): (State, byte) {
    var at := FindObject(s, Number(uri.objectId));
    var (s1, code) :=
      if at.None? then (s, NOT_FOUND)
      else
        var o := s.objects[at.value];
        if !o.writable then (s, METHOD_NOT_ALLOWED)
        else if uri.resourceId.None? && Tlv.Accepted(payload) == [] then (s, INTERNAL_ERROR)
        else (Log(s, Called(Write, o.id, Number(uri.instanceId))), env.result(Write, o.id, Number(uri.instanceId)));
    if s.bsState != Pending then (s1, code)
    else if code == CHANGED then (s1.(bsStart := env.now), code)
    else (BootstrapFailed(s1, env.now), code)
  }

  /** object_execute */
  function ExecuteObject(s: State, uri: U.Uri, env: Env): (State, byte) {
    if s.bsState == Pending then (s, METHOD_NOT_ALLOWED)
    else
      var at := FindObject(s, Number(uri.objectId));
      if at.None? then (s, NOT_FOUND)
      else
        var o := s.objects[at.value];
        if !o.executable then (s, METHOD_NOT_ALLOWED)
        else (Log(s, Called(Execute, o.id, Number(uri.instanceId))), env.result(Execute, o.id, Number(uri.instanceId)))
  }

  /** object_create. A create callback that reports success has added the instance to its list. */
  function CreateObject(s: State, uri: U.Uri, payload: seq<byte>, env: Env): (State, byte) {
    if payload == [] then (s, BAD_REQUEST)
    else
      var at := FindObject(s, Number(uri.objectId));
      if at.None? then (s, NOT_FOUND)
      else
        var o := s.objects[at.value];
        if !o.creatable then (s, METHOD_NOT_ALLOWED)
        else if uri.instanceId.Some? && uri.instanceId.value in o.instances then (s, NOT_ACCEPTABLE)
        else
          var inst :=
            if uri.instanceId.Some? then uri.instanceId.value else SortedList.NewId<uint16>(o.instances, Itself);
          if Tlv.Accepted(payload) == [] then (s, INTERNAL_ERROR)
          else
            var code := env.result(Create, o.id, inst);
            var s1 := Log(s, Called(Create, o.id, inst));
            (if code == CREATED
             then
               var instances := SortedList.Insert<uint16>(o.instances, inst, Itself);
               s1.(objects := s.objects[at.value := o.(instances := instances)])
             else s1, code)
  }

  /** object_delete. A delete callback that reports success has taken the instance out of its list. */
  function DeleteObject(s: State, uri: U.Uri, env: Env): (State, byte) {
    var at := FindObject(s, Number(uri.objectId));
    if at.None? then (s, NOT_FOUND)
    else
      var o := s.objects[at.value];
      if !o.deletable then (s, METHOD_NOT_ALLOWED)
      else
        var inst := Number(uri.instanceId);
        var code := env.result(Delete, o.id, inst);
        var s1 := Log(s, Called(Delete, o.id, inst));
        (if code == DELETED
         then
           var instances := SortedList.Remove<uint16>(o.instances, inst, Itself);
           s1.(objects := s.objects[at.value := o.(instances := instances)])
         else s1, code)
  }

  /** object_isInstanceNew */
  predicate IsInstanceNew(s: State, uri: U.Uri) {
    var at := FindObject(s, Number(uri.objectId));
    at.Some? ==> Number(uri.instanceId) !in s.objects[at.value].instances
  }

  // ---------- management.c ----------

  function DeleteInstances(id: uint16, instances: seq<uint16>): seq<Output> {
    if instances == [] then [] else [Called(Delete, id, instances[0])] + DeleteInstances(id, instances[1..])
  }

  /** handle_delete_all, from object i on: each instance of the Security and of the Server object goes. */
  function DeleteAllFrom(s: State, i: nat): State
    decreases |s.objects| - i
  {
    if i >= |s.objects| then s
    else
      var o := s.objects[i];
      if o.id in {SECURITY_OBJECT, SERVER_OBJECT} && o.deletable
      then DeleteAllFrom(s.(objects := s.objects[i := o.(instances := [])],
                            log := s.log + DeleteInstances(o.id, o.instances)), i + 1)
      else DeleteAllFrom(s, i + 1)
  }

  /** prv_findServer and utils_findBootstrapServer: the first server with the session. */
  function FindServer(servers: seq<Server>, session: Session): (i: nat)
    ensures i <= |servers| && (i < |servers| ==> servers[i].session == Some(session))
  {
    if servers == [] || servers[0].session == Some(session) then 0 else 1 + FindServer(servers[1..], session)
  }

  /** The GET branch of handle_dm_request, for the management server at place i. */
  function HandleGet(s: State, uri: U.Uri, i: nat, m: Message, env: Env): (State, byte) {
    var (code, calls) := ReadObject(s, uri, env);
    var s1 := s.(log := s.log + calls);
    if code == CONTENT && m.observe then
      if (uri.instanceId.None? && uri.resourceId.Some?) || m.token == [] then (s1, BAD_REQUEST)
      else (s1.(observed := Observe.Add(s.observed, uri, i, m.token)), CONTENT)
    else (s1, code)
  }

  /** The POST branch of handle_dm_request. */
  function HandlePost(s: State, uri: U.Uri, m: Message, env: Env): (State, byte) {
    if s.bsState == Pending then (s, METHOD_NOT_ALLOWED)
    else if uri.instanceId.None? then CreateObject(s, uri, m.payload, env)
    else if uri.resourceId.None? then
      if IsInstanceNew(s, uri) then CreateObject(s, uri, m.payload, env) else WriteObject(s, uri, m.payload, env)
    else ExecuteObject(s, uri, env)
  }

  /** The PUT branch of handle_dm_request. */
  function HandlePut(s: State, uri: U.Uri, m: Message, env: Env): (State, byte) {
    if uri.instanceId.None? then (s, BAD_REQUEST)
    else if s.bsState == Pending && IsInstanceNew(s, uri) then
      var (s1, code) := CreateObject(s, uri, m.payload, env);
      (s1, if code == CREATED then CHANGED else code)
    else WriteObject(s, uri, m.payload, env)
  }

  /** handle_dm_request: management servers are served outside a bootstrap once they are registered, and
      bootstrap servers during one. */
  function HandleDm(s: State, uri: U.Uri, session: Session, m: Message, env: Env): (State, byte) {
    var i := FindServer(s.servers, session);
    var known := i < |s.servers|;
    if !known && FindServer(s.bsServers, session) == |s.bsServers| then (s, IGNORE)
    else if s.bsState == Pending && known then (s, UNAUTHORIZED)
    else if s.bsState != Pending && !known then (s, NOT_IMPLEMENTED)
    else if s.bsState != Pending && s.servers[i].status !in {Registered, RegUpdatePending} then (s, IGNORE)
    else if m.code == GET then HandleGet(s, uri, i, m, env)
    else if m.code == POST then HandlePost(s, uri, m, env)
    else if m.code == PUT then HandlePut(s, uri, m, env)
    else if uri.instanceId.Some? && uri.resourceId.None? then DeleteObject(s, uri, env)
    else (s, BAD_REQUEST)
  }

  // ---------- packet.c ----------

  /** handle_request in a client: registration and bootstrap requests are for servers. */
  function HandleRequest(s: State, session: Session, m: Message, env: Env): (State, byte) {
    var uri := U.DecodeUri(s.altPath, m.path);
    if uri.None? then (s, BAD_REQUEST)
    else match uri.value.target
      case Dm => HandleDm(s, uri.value, session, m, env)
      case DeleteAll =>
        if m.code != DELETE then (s, BAD_REQUEST)
        else if FindServer(s.bsServers, session) == |s.bsServers| then (s, UNAUTHORIZED)
        else if s.bsState == Pending then (DeleteAllFrom(s, 0), DELETED)
        else (s, IGNORE)
      case _ => (s, IGNORE)
  }

  predicate IsRequest(m: Message) { GET <= m.code <= DELETE }

  function ServersOf(s: State, session: Session): set<nat> {
    set i | 0 <= i < |s.servers| && s.servers[i].session == Some(session)
  }

  /** lwm2m_handle_packet, for a message that was parsed. */
  function HandlePacket(s: State, session: Session, m: Message, env: Env): State
  {
    if IsRequest(m) then
      var s1 := if m.mtype == Con then s else Draw(s);
      var (s2, code) := HandleRequest(s1, session, m, env);
      if code == IGNORE then s2 else Log(s2, Answered(session, code))
    else match m.mtype
      case Rst =>
        var s1 := s.(observed := Observe.Cancel(s.observed, m.mid, ServersOf(s, session)));
        HandleResponse(s1, session, m, false, env.now, 0).0
      case Ack => HandleResponse(s, session, m, false, env.now, 0).0
      case _ =>
        var (s1, done) := HandleResponse(s, session, m, true, env.now, 0);
        if !done && m.mtype == Con then Log(s1, Answered(session, 0)) else s1
  }

  // ---------- notification ----------

  /** The loop of lwm2m_resource_value_changed: each overlapping entry is read and its watchers are told. */
  function NotifyFrom(s: State, places: seq<nat>, env: Env): State
    requires forall k | 0 <= k < |places| :: places[k] < |s.observed|
    decreases |places|
  {
    if places == [] then s
    else
      var o := s.observed[places[0]];
      var (code, calls) := ReadObject(s, o.uri, env);
      var s1 := s.(log := s.log + calls);
      if code != CONTENT then NotifyFrom(s1, places[1..], env)
      else NotifyFrom(s1.(
        observed := s.observed[places[0] := o.(watchers := Observe.Told(o.watchers, s.nextMID))],
        nextMID := Observe.Mid(s.nextMID, |o.watchers|), drawn := s.drawn + |o.watchers|,
        log := s1.log + Notices(Observe.Messages(o, s.nextMID))), places[1..], env)
  }

  function Notices(msgs: seq<Observe.Notification>): (r: seq<Output>)
    ensures |r| == |msgs| && forall k | 0 <= k < |r| :: r[k] == Notified(msgs[k])
  {
    seq(|msgs|, k requires 0 <= k < |msgs| => Notified(msgs[k]))
  }

  /** lwm2m_resource_value_changed */
  function ValueChanged(s: State, uri: U.Uri, env: Env): State {
    NotifyFrom(s, Observe.Overlapping(s.observed, uri, |s.observed|), env)
  }
}
