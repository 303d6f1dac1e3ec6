/**
 The client engine of wakaama.

 CoAP transactions (transaction.c), registration (registration.c), bootstrap (bootstrap.c) and the periodic
 step (liblwm2m.c). The state is a value; each function is one C function, from the state before to the state
 after. Clock, network and object callbacks are parameters.
 */
module Client {
  import opened Core
  import Observe
  import R = RegisterPayload
  import SortedList
  import U = Uri

  // ---------- state ----------

  datatype Status = Deregistered | RegPending | Registered | RegFailed | RegUpdatePending | DeregPending

  datatype BsState =
    NotBootstrapped | Requested | ClientHoldOff | Initiated | Pending | Finished | Failed | Bootstrapped

  datatype Server = Server(
    secInst: uint16, shortID: uint16, lifetime: nat, registration: int,
    session: Option<Session>, status: Status, location: Option<string>)

  /** What a transaction was sent for, which is also which reply handler it has. */
  datatype Kind = Register | Update | Deregister | Bootstrap

  /** The server a transaction is sent to: a management server, by its place in the server list, or a
      bootstrap server, which has a session by then. */
  datatype Peer = ManagementServer(index: nat) | BootstrapServer(session: Session)

  /** A lwm2m_transaction_t, with the Uri-Path of its message, which is missing if the server has given no location.
      `serial` tells which transaction it is: the first ever made is 0. `draw` tells which message identifier it got:
      the first ever drawn is 0. */
  datatype Transaction = Transaction(
    serial: nat, draw: nat, mID: uint16, kind: Kind, peer: Peer, path: Option<string>, token: seq<byte>,
    ackReceived: bool, responseTimeout: nat, retransCounter: nat, retransTime: int)

  datatype MessageType = Con | Non | Ack | Rst

  datatype Message = Message(
    mtype: MessageType, code: byte, mid: uint16, token: seq<byte>,
    path: seq<string>, observe: bool, payload: seq<byte>, location: seq<string>)

  datatype Object = Object(
    id: uint16, instances: seq<uint16>,
    readable: bool, writable: bool, executable: bool, creatable: bool, deletable: bool)

  datatype Operation = Read | Write | Execute | Create | Delete

  /** What the engine does to its surroundings. */
  datatype Output =
    // a transaction goes to bufferSendCallback
    | Sent(serial: nat, kind: Kind, peer: Peer, session: Option<Session>, path: Option<string>, time: int)
    // a transaction's reply handler is called, when `age` identifiers were drawn behind its own, with the code of the
    // reply, or without one
    | Ended(serial: nat, kind: Kind, age: int, reply: Option<byte>)
    | Dropped(serial: nat, age: int)                              // lwm2m_start frees a transaction
    | Called(op: Operation, objectId: uint16, instanceId: uint16) // an object callback is called
    | Answered(to: Session, code: byte)                      // a response or an acknowledgement
    | Notified(n: Observe.Notification)

  /** lwm2m_context_t. `altPath` is the memory from the alternative path on, if there is one. `drawn` counts the message
      identifiers drawn and `created` the transactions made; `clashed` tells whether transaction_remove has ever taken
      out another transaction than the one that ended, and `log` is what was done so far. */
  datatype State = State(
    bsState: BsState, bsStart: int,
    servers: seq<Server>, bsServers: seq<Server>,
    objects: seq<Object>, altPath: Option<string>,
    observed: seq<Observe.Observed>,
    transactions: seq<Transaction>, nextMID: uint16,
    drawn: nat, created: nat, clashed: bool, log: seq<Output>)

  /** The values that the read callback of the Security object gives for an instance; None is a value that is not there
      or not of its type. */
  datatype SecurityInfo = SecurityInfo(bootstrap: Option<bool>, shortID: Option<int>, holdOff: Option<int>)

  /** The same for the Server object, and whether the binding is a known one. */
  datatype ServerInfo = ServerInfo(shortID: Option<int>, lifetime: Option<int>, binding: bool)

  /** An instance of the Security object, as object_getServers reads it together with its Server object
      instance. */
  datatype SecurityEntry =
    | Unreadable
    | BootstrapEntry(inst: uint16, shortID: uint16, holdOff: nat)
    | ServerEntry(inst: uint16, shortID: uint16, lifetime: nat)

  /** What the surroundings answer during one call: the clock, the sessions that connectCallback opens, the
      servers whose registration query or payload does not fit its buffer, the values in the Security and the
      Server object, the result code of each object callback and whether what is read serialises to nothing. */
  datatype Env = Env(
    now: int, connect: map<uint16, Session>, refused: set<uint16>,
    security: uint16 -> SecurityInfo, server: uint16 -> ServerInfo,
    result: (Operation, uint16, uint16) -> byte, empty: bool)

  // wakaama/er-coap-13/er-coap-13.h
  const RESPONSE_TIMEOUT: nat := 2
  const MAX_RETRANSMIT: nat := 4
  const DEFAULT_MAX_AGE: nat := 60

  function Mid(t: Transaction): uint16 { t.mID }
  function SecInst(v: Server): uint16 { v.secInst }

  function Without<T>(s: seq<T>, i: nat): (r: seq<T>)
    requires i < |s|
    ensures |r| == |s| - 1
  {
    s[..i] + s[i + 1..]
  }

  function SetStatus(s: State, i: nat, status: Status): State {
    if i < |s.servers| then s.(servers := s.servers[i := s.servers[i].(status := status)]) else s
  }

  function SessionOf(s: State, p: Peer): Option<Session> {
    match p
    case ManagementServer(i) => if i < |s.servers| then s.servers[i].session else None
    case BootstrapServer(session) => Some(session)
  }

  /** The server lists keep their lengths, and the bootstrap servers do not change. */
  predicate SameLists(a: State, b: State) { |a.servers| == |b.servers| && a.bsServers == b.bsServers }

  /** How many message identifiers were drawn behind that of a transaction. */
  function Age(s: State, t: Transaction): int { s.drawn - t.draw - 1 }

  function Ending(s: State, t: Transaction, reply: Option<Message>): Output {
    Ended(t.serial, t.kind, Age(s, t), if reply.Some? then Some(reply.value.code) else None)
  }

  function Log(s: State, o: Output): State { s.(log := s.log + [o]) }

  function LogAll(s: State, outputs: seq<Output>): State { s.(log := s.log + outputs) }

  /** contextP->nextMID++ */
  function Draw(s: State): State { s.(nextMID := (s.nextMID + 1) % 0x1_0000, drawn := s.drawn + 1) }

  // ---------- reply handlers ----------

  /** bootstrap_failed */
  function BootstrapFailed(s: State, now: int): State {
    s.(bsState := Failed, bsStart := now)
  }

  function Settled(s: State, i: nat, now: int, ok: bool): State
    requires i < |s.servers|
  {
    var v := s.servers[i];
    s.(servers := s.servers[i := v.(
      registration := if now >= 0 then now else v.registration,
      status := if ok then Registered else RegFailed)])
  }

  /** The Location-Path of a reply as coap_get_multi_option_as_string joins it, up to the first NUL. */
  function LocationText(path: seq<string>): string { R.CString(U.Joined(path)) }

  /** prv_handleRegistrationReply, which also keeps the location: a text even if the reply has none. */
  function RegistrationReply(s: State, i: nat, reply: Option<Message>, now: int): State {
    if i >= |s.servers| || s.servers[i].status != RegPending then s
    else
      var ok := reply.Some? && reply.value.code == CREATED;
      var s1 := Settled(s, i, now, ok);
      if ok
      then s1.(servers := s1.servers[i := s1.servers[i].(location := Some(LocationText(reply.value.location)))])
      else s1
  }

  /** prv_handleRegistrationUpdateReply */
  function UpdateReply(s: State, i: nat, reply: Option<Message>, now: int): State {
    if i >= |s.servers| || s.servers[i].status != RegUpdatePending then s
    else Settled(s, i, now, reply.Some? && reply.value.code == CHANGED)
  }

  /** prv_handleDeregistrationReply */
  function DeregistrationReply(s: State, i: nat): State {
    if i >= |s.servers| || s.servers[i].status != DeregPending then s else SetStatus(s, i, Deregistered)
  }

  /** prv_handleBootstrapReply and handle_bootstrap_response */
  function BootstrapReply(s: State, reply: Option<Message>, now: int): State {
    if reply.Some? && reply.value.mtype != Rst && reply.value.code == CHANGED
    then s.(bsState := Pending, bsStart := now)
    else BootstrapFailed(s, now)
  }

  /** The call of a transaction's callback; no reply stands for its null message. */
  function Handle(s: State, t: Transaction, reply: Option<Message>, now: int): (r: State)
    ensures SameLists(s, r)
  {
    var s1 := Log(s, Ending(s, t, reply));
    match (t.kind, t.peer)
    case (Register, ManagementServer(i)) => RegistrationReply(s1, i, reply, now)
    case (Update, ManagementServer(i)) => UpdateReply(s1, i, reply, now)
    case (Deregister, ManagementServer(i)) => DeregistrationReply(s1, i)
    case (Bootstrap, _) => BootstrapReply(s1, reply, now)
    case _ => s1
  }

  /** The end of a transaction: its callback, then transaction_remove, which finds it by its message identifier. If that
      takes out another one, whose turn it was goes all the same here. */
  function Finish(s: State, i: nat, reply: Option<Message>, now: int): (r: State)
    requires i < |s.transactions|
    ensures SameLists(s, r)
  {
    var left := Without(s.transactions, i);
    Handle(s, s.transactions[i], reply, now).(
      transactions := left,
      clashed := s.clashed || SortedList.Remove(s.transactions, s.transactions[i].mID, Mid) != left)
  }

  // ---------- transactions ----------

  /** The Uri-Path that the message gets: registrations and bootstraps have their own, the others go to the location
      of their server. */
  function Destination(s: State, kind: Kind, peer: Peer): Option<string> {
    match kind
    case Register => Some("/rd")
    case Bootstrap => Some("/bs")
    case _ => if peer.ManagementServer? && peer.index < |s.servers| then s.servers[peer.index].location else None
  }

  /** transaction_new, with the token made of the message identifier and the time. */
  function NewTransaction(s: State, kind: Kind, peer: Peer, now: int): Transaction {
    Transaction(s.created, s.drawn, s.nextMID, kind, peer, Destination(s, kind, peer),
                [s.nextMID % 0x100, s.nextMID / 0x100, now % 0x100, now / 0x100 % 0x100],
                false, 0, 0, 0)
  }

  /** What transaction_send makes of a transaction, whether it goes out, and whether it is over. */
  function Transmit(t: Transaction, now: int): (Transaction, bool, bool) {
    if t.ackReceived then (t, false, true)
    else
      var first := t.retransCounter == 0;
      var t1 := if first && now >= 0 then t.(retransTime := now, retransCounter := 1) else t;
      var timeout := if first then RESPONSE_TIMEOUT else RESPONSE_TIMEOUT * t.retransCounter;
      if t1.retransCounter <= MAX_RETRANSMIT
      then
        (t1.(retransTime := t1.retransTime + timeout, retransCounter := t1.retransCounter + 1), true, first && now < 0)
      else (t1, false, true)
  }

  function Sending(s: State, t: Transaction, now: int): Output {
    Sent(t.serial, t.kind, t.peer, SessionOf(s, t.peer), t.path, now)
  }

  /** transaction_send: the state after, and whether the transaction was removed. */
  function Send(s: State, i: nat, now: int): (r: (State, bool))
    requires i < |s.transactions|
    ensures SameLists(s, r.0) && |r.0.transactions| == |s.transactions| - if r.1 then 1 else 0
  {
    var (t, sent, over) := Transmit(s.transactions[i], now);
    var s1 := s.(transactions := s.transactions[i := t]);
    var s2 := if sent then Log(s1, Sending(s, t, now)) else s1;
    if over then (Finish(s2, i, None, now), true) else (s2, false)
  }

  /** A new transaction is put into the list and sent. The flag says whether it is still there. */
  function Begin(s: State, kind: Kind, peer: Peer, now: int): (r: (State, bool))
    ensures SameLists(s, r.0)
  {
    var t := NewTransaction(s, kind, peer, now);
    var s1 := s.(transactions := SortedList.Insert(s.transactions, t, Mid),
                 nextMID := (s.nextMID + 1) % 0x1_0000, drawn := s.drawn + 1, created := s.created + 1);
    var r := Send(s1, SortedList.Position(s.transactions, t, Mid), now);
    (r.0, !r.1)
  }

  /** prv_transaction_check_finished. Every transaction made here is a request with a token. */
  predicate IsFinishedBy(t: Transaction, m: Message) { m.token == t.token }

  predicate Acknowledges(t: Transaction, m: Message) {
    !t.ackReceived && (m.mtype == Ack || m.mtype == Rst) && t.mID == m.mid
  }

  /** transaction_handle_response from transaction i on: the state after, and whether a transaction took the
      message. `answers` says whether the caller passed a response to fill. */
  function HandleResponse(s: State, session: Session, m: Message, answers: bool, now: int, i: nat): (State, bool)
    decreases |s.transactions| - i
  {
    if i >= |s.transactions| then (s, false)
    else
      var t := s.transactions[i];
      if SessionOf(s, t.peer) != Some(session) then HandleResponse(s, session, m, answers, now, i + 1)
      else
        var found := Acknowledges(t, m);
        var reset := found && m.mtype == Rst;
        var t1 := if found then t.(ackReceived := true) else t;
        var s1 := s.(transactions := s.transactions[i := t1]);
        if reset then (Finish(s1, i, Some(m), now), true)
        else if IsFinishedBy(t1, m) then
          var s2 := if m.mtype == Con && answers then Log(s1, Answered(session, 0)) else s1;
          if m.code == UNAUTHORIZED && MAX_RETRANSMIT > t1.retransCounter then
            var t2 := t1.(ackReceived := false, retransTime := t1.retransTime + RESPONSE_TIMEOUT);
            (s2.(transactions := s2.transactions[i := t2]), true)
          else (Finish(s2, i, Some(m), now), true)
        else if found then
          var start := if now >= 0 then now else t1.retransTime;
          var wait := if t1.responseTimeout != 0 then t1.responseTimeout else RESPONSE_TIMEOUT * t1.retransCounter;
          (s1.(transactions := s1.transactions[i := t1.(retransTime := start + wait)]), true)
        else HandleResponse(s, session, m, answers, now, i + 1)
  }

  /** The transaction loop of lwm2m_step, from transaction i on. */
  function StepTransactions(s: State, i: nat, now: int): State
    decreases |s.transactions| - i
  {
    if i >= |s.transactions| then s
    else if s.transactions[i].retransTime > now then StepTransactions(s, i + 1, now)
    else
      var (s1, removed) := Send(s, i, now);
      StepTransactions(s1, if removed then i else i + 1, now)
  }

  // ---------- registration ----------

  /** connectCallback, called once for a server without a session. */
  function Connected(session: Option<Session>, inst: uint16, env: Env): Option<Session> {
    if session.Some? then session
    else if inst in env.connect then Some(env.connect[inst])
    else None
  }

  /** prv_register */
  function RegisterServer(s: State, i: nat, env: Env): (r: State)
    requires i < |s.servers|
    ensures SameLists(s, r)
  {
    var v := s.servers[i];
    if v.secInst in env.refused then s
    else
      var session := Connected(v.session, v.secInst, env);
      var s1 := s.(servers := s.servers[i := v.(session := session)]);
      if session.None? then s1
      else
        var (s2, live) := Begin(s1, Register, ManagementServer(i), env.now);
        if live then SetStatus(s2, i, RegPending) else s2
  }

  /** prv_update_registration */
  function UpdateServer(s: State, i: nat, now: int): (r: State)
    ensures SameLists(s, r)
  {
    var (s1, live) := Begin(s, Update, ManagementServer(i), now);
    if live then SetStatus(s1, i, RegUpdatePending) else s1
  }

  predicate AnyRegistered(servers: seq<Server>) { exists i | 0 <= i < |servers| :: servers[i].status == Registered }

  predicate AllFailed(servers: seq<Server>) { forall i | 0 <= i < |servers| :: servers[i].status == RegFailed }

  /** The second loop of registration_update, for server i. */
  function UpdateOne(s: State, env: Env, anyRegistered: bool, i: nat): (r: State)
    requires i < |s.servers|
    ensures SameLists(s, r)
  {
    var v := s.servers[i];
    match v.status
    case Registered =>
      var ahead := if 30 < v.lifetime then v.lifetime - 15 else v.lifetime;
      if v.registration + ahead - env.now <= 0 then UpdateServer(s, i, env.now) else s
    case Deregistered => RegisterServer(s, i, env)
    case RegFailed =>
      if (anyRegistered || s.bsServers == []) && v.registration + v.lifetime - env.now <= 0
      then RegisterServer(s, i, env) else s
    case _ => s
  }

  /** The second loop of registration_update, from server i on. */
  function UpdateFrom(s: State, env: Env, anyRegistered: bool, i: nat): State
    decreases |s.servers| - i
  {
    if i >= |s.servers| then s else UpdateFrom(UpdateOne(s, env, anyRegistered, i), env, anyRegistered, i + 1)
  }

  /** registration_update */
  function RegistrationUpdate(s: State, env: Env): State {
    var s1 := UpdateFrom(s, env, AnyRegistered(s.servers), 0);
    if AllFailed(s.servers) && s1.bsServers != [] && s1.bsState in {Bootstrapped, NotBootstrapped}
    then s1.(bsState := Requested) else s1
  }

  /** registration_deregister */
  function DeregisterServer(s: State, now: int, i: nat): (r: State)
    requires i < |s.servers|
    ensures SameLists(s, r)
  {
    var v := s.servers[i];
    if v.status in {Deregistered, RegPending, DeregPending, RegFailed} || v.location.None? then s
    else
      var (s1, live) := Begin(s, Deregister, ManagementServer(i), now);
      if live then SetStatus(s1, i, DeregPending) else s1
  }

  /** lwm2m_deregister, from server i on. */
  function DeregisterFrom(s: State, now: int, i: nat): State
    decreases |s.servers| - i
  {
    if i >= |s.servers| then s else DeregisterFrom(DeregisterServer(s, now, i), now, i + 1)
  }

  // ---------- start ----------

  function NewServer(inst: uint16, shortID: uint16, lifetime: nat): Server {
    Server(inst, shortID, lifetime, 0, None, Deregistered, None)
  }

  /** prv_findServerInstance: the first instance of the Server object with the short identifier, and the calls made. */
  function FindServerInstance(instances: seq<uint16>, shortID: int, env: Env): (Option<uint16>, seq<Output>) {
    if instances == [] then (None, [])
    else
      var inst := instances[0];
      var call := Called(Read, SERVER_OBJECT, inst);
      if env.result(Read, SERVER_OBJECT, inst) != CONTENT then (None, [call])
      else if env.server(inst).shortID == Some(shortID) then (Some(inst), [call])
      else
        var rest := FindServerInstance(instances[1..], shortID, env);
        (rest.0, [call] + rest.1)
  }

  predicate Within(x: Option<int>, low: int, high: int) { x.Some? && low <= x.value <= high }

  /** One round of the loop of object_getServers, for an instance of the Security object: what it says, with the
      lifetime that prv_getMandatoryInfo reads in the Server object, and the calls made. */
  function ReadEntry(inst: uint16, instances: seq<uint16>, env: Env): (SecurityEntry, seq<Output>) {
    var v := env.security(inst);
    var call := Called(Read, SECURITY_OBJECT, inst);
    if env.result(Read, SECURITY_OBJECT, inst) != CONTENT || v.bootstrap.None? then (Unreadable, [call])
    else if !Within(v.shortID, if v.bootstrap.value then 0 else 1, 0xFFFF) then (Unreadable, [call])
    else if v.bootstrap.value then
      (if Within(v.holdOff, 0, 0xFFFF_FFFF) then BootstrapEntry(inst, v.shortID.value, v.holdOff.value) else Unreadable,
       [call])
    else
      var (at, calls) := FindServerInstance(instances, v.shortID.value, env);
      if at.None? then (Unreadable, [call] + calls)
      else
        var w := env.server(at.value);
        var ok :=
          env.result(Read, SERVER_OBJECT, at.value) == CONTENT && Within(w.lifetime, 0, 0xFFFF_FFFF) && w.binding;
        (if ok then ServerEntry(inst, v.shortID.value, w.lifetime.value) else Unreadable,
         [call] + calls + [Called(Read, SERVER_OBJECT, at.value)])
  }

  /** The entries up to the first that cannot be read, which is the last one then, and the calls made. */
  function ReadEntries(list: seq<uint16>, instances: seq<uint16>, env: Env): (seq<SecurityEntry>, seq<Output>) {
    if list == [] then ([], [])
    else
      var (entry, calls) := ReadEntry(list[0], instances, env);
      if entry.Unreadable? then ([entry], calls)
      else
        var rest := ReadEntries(list[1..], instances, env);
        ([entry] + rest.0, calls + rest.1)
  }

  /** What the entries make of the server lists, up to one that cannot be read. */
  function GetFrom(s: State, entries: seq<SecurityEntry>): (State, bool)
    decreases entries
  {
    if entries == [] then (s, true)
    else match entries[0]
      case Unreadable => (s, false)
      case BootstrapEntry(inst, shortID, holdOff) =>
        var v := NewServer(inst, shortID, holdOff);
        GetFrom(s.(bsServers := SortedList.Insert(s.bsServers, v, SecInst)), entries[1..])
      case ServerEntry(inst, shortID, lifetime) =>
        var v := NewServer(inst, shortID, lifetime);
        GetFrom(s.(servers := SortedList.Insert(s.servers, v, SecInst)), entries[1..])
  }

  predicate HasObject(s: State, id: uint16) { exists i | 0 <= i < |s.objects| :: s.objects[i].id == id }

  /** The instances of the last object with the identifier. */
  function InstancesOf(objects: seq<Object>, id: uint16): seq<uint16> {
    if objects == [] then []
    else
      var o := objects[|objects| - 1];
      if o.id == id then o.instances else InstancesOf(objects[..|objects| - 1], id)
  }

  function Entries(s: State, env: Env): (seq<SecurityEntry>, seq<Output>) {
    ReadEntries(InstancesOf(s.objects, SECURITY_OBJECT), InstancesOf(s.objects, SERVER_OBJECT), env)
  }

  /** The calls that object_getServers makes. */
  function ServerReads(s: State, env: Env): seq<Output> {
    if HasObject(s, SECURITY_OBJECT) then Entries(s, env).1 else []
  }

  /** object_getServers: the flag is false for its result -1, which keeps what was already added. */
  function GetServers(s: State, env: Env): (State, bool) {
    if HasObject(s, SECURITY_OBJECT) then GetFrom(LogAll(s, ServerReads(s, env)), Entries(s, env).0) else (s, false)
  }

  function DropAll(transactions: seq<Transaction>, drawn: nat): seq<Output> {
    if transactions == [] then []
    else [Dropped(transactions[0].serial, drawn - transactions[0].draw - 1)] + DropAll(transactions[1..], drawn)
  }

  /** lwm2m_start: every transaction and observation is forgotten and the servers are read anew. */
  function Start(s: State, env: Env): (State, bool) {
    var cleanup := s.bsServers != [] || s.servers != [];
    var s1 := s.(transactions := [], log := s.log + DropAll(s.transactions, s.drawn), observed := [],
                 servers := [], bsServers := []);
    var (s2, ok) := GetServers(s1, env);
    if !ok && cleanup then (s2.(servers := [], bsServers := []), false) else (s2, ok)
  }

  // ---------- bootstrap ----------

  /** bootstrap_initiating_request, for bootstrap server i: a request if it has a session. */
  function InitiateOne(s: State, env: Env, i: nat): (r: State)
    requires i < |s.bsServers|
    ensures |r.bsServers| == |s.bsServers|
  {
    var v := s.bsServers[i];
    var session := Connected(v.session, v.secInst, env);
    var s1 := s.(bsServers := s.bsServers[i := v.(session := session)]);
    if session.None? then s1
    else
      var (s2, live) := Begin(s1, Bootstrap, BootstrapServer(session.value), env.now);
      if live then s2.(bsState := Initiated, bsStart := env.now) else s2
  }

  /** bootstrap_initiating_request, from bootstrap server i on. */
  function InitiateFrom(s: State, env: Env, i: nat): State
    decreases |s.bsServers| - i
  {
    if i >= |s.bsServers| then s else InitiateFrom(InitiateOne(s, env, i), env, i + 1)
  }

  // a time difference kept in 32 bits
  function Int32(x: int): int { (x + 0x8000_0000) % 0x1_0000_0000 - 0x8000_0000 }

  /** The wait in hold-off and after a failure is the hold-off time of the first bootstrap server. */
  predicate WaitOver(s: State, now: int)
    requires s.bsServers != []
  {
    Int32(s.bsStart + s.bsServers[0].lifetime - now) <= 0
  }

  function UpdateHoldOff(s: State, env: Env): State {
    var s1 := if s.bsState == Requested then s.(bsState := ClientHoldOff, bsStart := env.now) else s;
    if s1.bsState != ClientHoldOff then s1
    else if s1.bsServers == [] then BootstrapFailed(s1, env.now)
    else if WaitOver(s1, env.now) then InitiateFrom(s1, env, 0)
    else s1
  }

  function UpdatePending(s: State, env: Env): State {
    if s.bsState == Pending then
      if Int32(s.bsStart + DEFAULT_MAX_AGE - env.now) <= 0 then s.(bsState := Finished, bsStart := env.now) else s
    else if s.bsState == Finished then
      var (s1, ok) := Start(s.(bsStart := env.now), env);
      if ok then s1.(bsState := Bootstrapped) else BootstrapFailed(s1, env.now)
    else s
  }

  function UpdateFailed(s: State, env: Env): State {
    if s.bsState == Failed && s.bsServers != [] && WaitOver(s, env.now)
    then s.(bsState := NotBootstrapped, bsStart := env.now) else s
  }

  /** update_bootstrap_state */
  function UpdateBootstrapState(s: State, env: Env): State {
    UpdateFailed(UpdatePending(UpdateHoldOff(s, env), env), env)
  }

  // ---------- the step ----------

  /** lwm2m_step */
  function Step(s: State, env: Env): State {
    if env.now < 0 then s
    else
      var s1 := StepTransactions(s, 0, env.now);
      var s2 := if s1.bsState in {ClientHoldOff, Pending, Finished, Failed} then s1 else RegistrationUpdate(s1, env);
      UpdateBootstrapState(s2, env)
  }

  /** lwm2m_update_registration. With no server known it reads the servers and still finds none. */
  function UpdateByShortId(s: State, shortID: uint16, env: Env): State {
    if s.servers == [] then GetServers(s, env).0
    else
      var i := FindShortId(s.servers, shortID);
      if i < |s.servers| then UpdateServer(s, i, env.now) else s
  }

  function FindShortId(servers: seq<Server>, shortID: uint16): (i: nat)
    ensures i <= |servers|
  {
    if servers == [] || servers[0].shortID == shortID then 0 else 1 + FindShortId(servers[1..], shortID)
  }
}
