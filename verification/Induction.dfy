/**
 How a property of states is shown for every run of the client engine.

 It is enough that the elementary operations keep it. The loops, the branches and the order of the engine are gone
 through here, once for all properties.
 */
module Induction {
  import opened Core
  import opened Client
  import opened Management
  import opened ClientFacts
  import opened ManagementFacts
  import opened Engine
  import SortedList
  import Observe
  import U = Uri

  type Property = State -> bool

  // ---------- elementary operations ----------

  /** An acknowledgement, or another deadline. */
  function Touch(s: State, i: nat, acked: bool, time: int): State
    requires i < |s.transactions|
  {
    s.(transactions := s.transactions[i := s.transactions[i].(ackReceived := acked, retransTime := time)])
  }

  function SetBootstrap(s: State, bsState: BsState, bsStart: int): State { s.(bsState := bsState, bsStart := bsStart) }

  function CancelObserved(s: State, mid: uint16, sharing: set<nat>): State {
    s.(observed := Observe.Cancel(s.observed, mid, sharing))
  }

  ghost predicate KeptBySend(inv: Property) {
    forall s: State, i: nat, now: int | i < |s.transactions| && inv(s) :: inv(Send(s, i, now).0)
  }

  ghost predicate KeptByReply(inv: Property) {
    && (forall s: State, i: nat, acked: bool, time: int | i < |s.transactions| && inv(s) ::
          inv(Touch(s, i, acked, time)))
    && (forall s: State, i: nat, reply: Option<Message>, now: int | i < |s.transactions| && inv(s) ::
          inv(Finish(s, i, reply, now)))
    && (forall s: State, to: Session, code: byte | inv(s) :: inv(Log(s, Answered(to, code))))
  }

  ghost predicate KeptByServers(inv: Property) {
    && (forall s: State, i: nat, env: Env
          | i < |s.servers| && s.servers[i].status in {Deregistered, RegFailed} && inv(s) ::
          inv(RegisterServer(s, i, env)))
    && (forall s: State, i: nat, now: int | i < |s.servers| && s.servers[i].status == Registered && inv(s) ::
          inv(UpdateServer(s, i, now)))
    && (forall s: State, i: nat, now: int | i < |s.servers| && inv(s) :: inv(DeregisterServer(s, now, i)))
  }

  ghost predicate KeptByInitiate(inv: Property) {
    forall s: State, i: nat, env: Env | i < |s.bsServers| && inv(s) :: inv(InitiateOne(s, env, i))
  }

  ghost predicate KeptByBootstrap(inv: Property) {
    && KeptByInitiate(inv)
    && (forall s: State, bsState: BsState, bsStart: int | inv(s) :: inv(SetBootstrap(s, bsState, bsStart)))
    && (forall s: State, env: Env | inv(s) :: inv(Start(s, env).0))
  }

  ghost predicate KeptByRequests(inv: Property) {
    && (forall s: State, session: Session, m: Message, env: Env | inv(s) :: inv(HandleRequest(s, session, m, env).0))
    && (forall s: State, uri: U.Uri, env: Env | inv(s) :: inv(ValueChanged(s, uri, env)))
    && (forall s: State | inv(s) :: inv(Draw(s)))
    && (forall s: State, mid: uint16, sharing: set<nat> | inv(s) :: inv(CancelObserved(s, mid, sharing)))
  }

  /** What object_getServers calls. */
  ghost predicate KeptByReads(inv: Property) {
    forall s: State, calls: seq<Output> | AllReads(calls) && inv(s) :: inv(LogAll(s, calls))
  }

  /** Every elementary operation but lwm2m_update_registration keeps the property. */
  ghost predicate Kept(inv: Property) {
    KeptBySend(inv) && KeptByReply(inv) && KeptByServers(inv) && KeptByBootstrap(inv) && KeptByRequests(inv)
  }

  ghost predicate KeptByUpdate(inv: Property) {
    forall s: State, shortID: uint16, env: Env | inv(s) :: inv(UpdateByShortId(s, shortID, env))
  }

  // ---------- the engine keeps what they keep ----------

  lemma {:induction false} StepTransactionsKeep(inv: Property, s: State, i: nat, now: int)
    requires KeptBySend(inv) && inv(s)
    ensures inv(StepTransactions(s, i, now))
    decreases |s.transactions| - i
  {
    hide Send;
    if i < |s.transactions| {
      if s.transactions[i].retransTime > now {
        StepTransactionsKeep(inv, s, i + 1, now);
      } else {
        var (s1, removed) := Send(s, i, now);
        StepTransactionsKeep(inv, s1, if removed then i else i + 1, now);
      }
    }
  }

  lemma {:induction false} HandleResponseKeeps(inv: Property, s: State, session: Session, m: Message, answers: bool,
                                               now: int, i: nat)
    requires KeptByReply(inv) && inv(s)
    ensures inv(HandleResponse(s, session, m, answers, now, i).0)
    decreases |s.transactions| - i
  {
    hide Finish;
    if i < |s.transactions| {
      var t := s.transactions[i];
      var s1 := Touch(s, i, t.ackReceived || Acknowledges(t, m), t.retransTime);
      if SessionOf(s, t.peer) != Some(session) || (!Acknowledges(t, m) && !IsFinishedBy(t, m)) {
        assert s.transactions[i := t] == s.transactions;
        HandleResponseKeeps(inv, s, session, m, answers, now, i + 1);
      } else {
        ReplyKeeps(inv, s, s1, session, m, answers, now, i);
      }
    }
  }

  /** The transaction at i takes the reply. */
  lemma ReplyKeeps(inv: Property, s: State, s1: State, session: Session, m: Message, answers: bool, now: int, i: nat)
    requires KeptByReply(inv) && inv(s) && i < |s.transactions|
    requires var t := s.transactions[i];
             && SessionOf(s, t.peer) == Some(session) && (Acknowledges(t, m) || IsFinishedBy(t, m))
             && s1 == Touch(s, i, t.ackReceived || Acknowledges(t, m), t.retransTime)
    ensures inv(HandleResponse(s, session, m, answers, now, i).0)
  {
    hide Finish;
    var t := s.transactions[i];
    var t1 := s1.transactions[i];
    assert inv(s1);
    var s2 := Log(s1, Answered(session, 0));
    assert inv(s2);
    var late := t1.retransTime + RESPONSE_TIMEOUT;
    var wait := if t1.responseTimeout != 0 then t1.responseTimeout else RESPONSE_TIMEOUT * t1.retransCounter;
    var due := (if now >= 0 then now else t1.retransTime) + wait;
    assert inv(Finish(s1, i, Some(m), now)) && inv(Finish(s2, i, Some(m), now));
    assert inv(Touch(s1, i, false, late)) && inv(Touch(s2, i, false, late)) && inv(Touch(s1, i, t1.ackReceived, due));
    assert t1 == if Acknowledges(t, m) then t.(ackReceived := true) else t;
  }

  lemma {:induction false} UpdateFromKeeps(inv: Property, s: State, env: Env, anyRegistered: bool, i: nat)
    requires KeptByServers(inv) && inv(s)
    ensures inv(UpdateFrom(s, env, anyRegistered, i))
    decreases |s.servers| - i
  {
    hide RegisterServer, UpdateServer;
    if i < |s.servers| {
      UpdateFromKeeps(inv, UpdateOne(s, env, anyRegistered, i), env, anyRegistered, i + 1);
    }
  }

  lemma {:induction false} DeregisterFromKeeps(inv: Property, s: State, now: int, i: nat)
    requires KeptByServers(inv) && inv(s)
    ensures inv(DeregisterFrom(s, now, i))
    decreases |s.servers| - i
  {
    hide DeregisterServer;
    if i < |s.servers| {
      DeregisterFromKeeps(inv, DeregisterServer(s, now, i), now, i + 1);
    }
  }

  lemma {:induction false} InitiateFromKeeps(inv: Property, s: State, env: Env, i: nat)
    requires KeptByInitiate(inv) && inv(s)
    ensures inv(InitiateFrom(s, env, i))
    decreases |s.bsServers| - i
  {
    hide InitiateOne;
    if i < |s.bsServers| {
      InitiateFromKeeps(inv, InitiateOne(s, env, i), env, i + 1);
    }
  }

  lemma UpdateBootstrapStateKeeps(inv: Property, s: State, env: Env)
    requires KeptByBootstrap(inv) && inv(s)
    ensures inv(UpdateBootstrapState(s, env))
  {
    hide InitiateFrom, Start;
    var s0 := if s.bsState == Requested then SetBootstrap(s, ClientHoldOff, env.now) else s;
    InitiateFromKeeps(inv, s0, env, 0);
    assert inv(SetBootstrap(s0, Failed, env.now));
    var s1 := UpdateHoldOff(s, env);
    var s2 := Start(SetBootstrap(s1, s1.bsState, env.now), env).0;
    assert inv(s2) && inv(SetBootstrap(s2, Bootstrapped, s2.bsStart)) && inv(SetBootstrap(s2, Failed, env.now));
    assert inv(SetBootstrap(s1, Finished, env.now));
    var s3 := UpdatePending(s1, env);
    assert inv(SetBootstrap(s3, NotBootstrapped, env.now));
  }

  lemma StepKeeps(inv: Property, s: State, env: Env)
    requires KeptBySend(inv) && KeptByServers(inv) && KeptByBootstrap(inv) && inv(s)
    ensures inv(Step(s, env))
  {
    hide StepTransactions, UpdateFrom, UpdateBootstrapState, KeptBySend, KeptByServers;
    if env.now >= 0 {
      var s1 := StepTransactions(s, 0, env.now);
      StepTransactionsKeep(inv, s, 0, env.now);
      var s2 := UpdateFrom(s1, env, AnyRegistered(s1.servers), 0);
      UpdateFromKeeps(inv, s1, env, AnyRegistered(s1.servers), 0);
      assert inv(SetBootstrap(s2, Requested, s2.bsStart));
      UpdateBootstrapStateKeeps(inv, if s1.bsState in {ClientHoldOff, Pending, Finished, Failed} then s1
                                     else RegistrationUpdate(s1, env), env);
    }
  }

  lemma PacketKeeps(inv: Property, s: State, session: Session, m: Message, env: Env)
    requires KeptByReply(inv) && KeptByRequests(inv) && inv(s)
    ensures inv(HandlePacket(s, session, m, env))
  {
    hide HandleRequest, HandleResponse;
    if IsRequest(m) {
      var s1 := if m.mtype == Con then s else Draw(s);
      var (s2, code) := HandleRequest(s1, session, m, env);
      assert inv(s1) && inv(s2) && inv(Log(s2, Answered(session, code)));
    } else {
      var s1 := CancelObserved(s, m.mid, ServersOf(s, session));
      assert inv(s1);
      HandleResponseKeeps(inv, s1, session, m, false, env.now, 0);
      HandleResponseKeeps(inv, s, session, m, false, env.now, 0);
      HandleResponseKeeps(inv, s, session, m, true, env.now, 0);
      assert inv(Log(HandleResponse(s, session, m, true, env.now, 0).0, Answered(session, 0)));
    }
  }

  lemma ApplyKeeps(inv: Property, s: State, e: Event, env: Env)
    requires Kept(inv) && inv(s) && (e.UpdateRegistration? ==> KeptByUpdate(inv))
    ensures inv(Apply(s, e, env))
  {
    hide Step, HandlePacket, ValueChanged, Start, UpdateByShortId, DeregisterFrom;
    hide KeptBySend, KeptByReply, KeptByServers;
    match e
    case Tick => StepKeeps(inv, s, env);
    case Packet(session, m) => PacketKeeps(inv, s, session, m, env);
    case Changed(uri) =>
    case StartAll =>
    case UpdateRegistration(shortID) =>
    case DeregisterAll => DeregisterFromKeeps(inv, s, env.now, 0);
  }

  /** Everything but lwm2m_update_registration, which overrules the status of a server. */
  predicate Plain(e: Event) { !e.UpdateRegistration? }

  predicate AllPlain(events: seq<(Event, Env)>) {
    events == [] || (Plain(events[0].0) && AllPlain(events[1..]))
  }

  /** What every elementary operation keeps holds throughout every run. */
  lemma {:induction false} RunKeeps(inv: Property, s: State, events: seq<(Event, Env)>)
    requires Kept(inv) && inv(s) && (AllPlain(events) || KeptByUpdate(inv))
    ensures inv(Run(s, events))
    decreases |events|
  {
    hide Apply, Kept, KeptByUpdate;
    if events != [] {
      ApplyKeeps(inv, s, events[0].0, events[0].1);
      RunKeeps(inv, Apply(s, events[0].0, events[0].1), events[1..]);
    }
  }

  /** The property holds in every state of the run, from the first to the last. */
  ghost predicate Throughout(inv: Property, s: State, events: seq<(Event, Env)>)
    decreases |events|
  {
    inv(s) && (events == [] || Throughout(inv, Apply(s, events[0].0, events[0].1), events[1..]))
  }

  lemma {:induction false} ThroughoutMeans(inv: Property, s: State, events: seq<(Event, Env)>)
    ensures Throughout(inv, s, events) <==> forall j | 0 <= j <= |events| :: inv(Run(s, events[..j]))
    decreases |events|
  {
    hide Apply;
    assert Run(s, events[..0]) == s;
    if events != [] {
      var s1, rest := Apply(s, events[0].0, events[0].1), events[1..];
      ThroughoutMeans(inv, s1, rest);
      forall j | 0 <= j <= |rest| ensures Run(s1, rest[..j]) == Run(s, events[..j + 1]) {
        assert events[..j + 1][1..] == rest[..j];
      }
      assert forall j | 1 <= j <= |events| :: Run(s, events[..j]) == Run(s1, rest[..j - 1]);
    }
  }

  /** What requests and notifications leave alone is enough for a property that looks at nothing else. */
  lemma ManagesIsEnough(inv: Property)
    requires forall a: State, b: State | inv(a) && OnlyManages(a, b) :: inv(b)
    ensures KeptByRequests(inv)
    ensures KeptByReads(inv)
    ensures forall s: State, to: Session, code: byte | inv(s) :: inv(Log(s, Answered(to, code)))
  {
    hide OnlyManages, HandleRequest, NotifyFrom;
    forall s: State, session: Session, m: Message, env: Env | inv(s) ensures inv(HandleRequest(s, session, m, env).0) {
      RequestManages(s, session, m, env);
    }
    forall s: State, uri: U.Uri, env: Env | inv(s) ensures inv(ValueChanged(s, uri, env)) {
      NotifyManages(s, Observe.Overlapping(s.observed, uri, |s.observed|), env);
    }
    forall s: State | inv(s) ensures inv(Draw(s)) {
      Logs(s, Draw(s), []);
    }
    forall s: State, mid: uint16, sharing: set<nat> | inv(s) ensures inv(CancelObserved(s, mid, sharing)) {
      Logs(s, CancelObserved(s, mid, sharing), []);
    }
    forall s: State, to: Session, code: byte | inv(s) ensures inv(Log(s, Answered(to, code))) {
      Logs(s, Log(s, Answered(to, code)), [Answered(to, code)]);
    }
    forall s: State, calls: seq<Output> | AllReads(calls) && inv(s) ensures inv(LogAll(s, calls)) {
      assert forall i | 0 <= i < |calls| :: calls[i] in calls;
      Logs(s, LogAll(s, calls), calls);
    }
  }

  // ---------- properties that do not look at the servers ----------

  function SetServers(s: State, servers: seq<Server>, bsServers: seq<Server>): State {
    s.(servers := servers, bsServers := bsServers)
  }

  /** The property looks neither at the servers nor at the bootstrap state, and a new transaction keeps it. */
  ghost predicate KeptByBegin(inv: Property) {
    && (forall s: State, kind: Kind, peer: Peer, now: int | inv(s) :: inv(Begin(s, kind, peer, now).0))
    && (forall s: State, servers: seq<Server>, bsServers: seq<Server> | inv(s) ::
          inv(SetServers(s, servers, bsServers)))
    && (forall s: State, bsState: BsState, bsStart: int | inv(s) :: inv(SetBootstrap(s, bsState, bsStart)))
  }

  lemma RegisterServerKeeps(inv: Property, s: State, i: nat, env: Env)
    requires KeptByBegin(inv) && inv(s) && i < |s.servers|
    ensures inv(RegisterServer(s, i, env))
  {
    hide Begin;
    var v := s.servers[i];
    var s1 := SetServers(s, s.servers[i := v.(session := Connected(v.session, v.secInst, env))], s.bsServers);
    assert inv(s1);
    var s2 := Begin(s1, Register, ManagementServer(i), env.now).0;
    assert inv(s2);
    assert inv(SetServers(s2, SetStatus(s2, i, RegPending).servers, s2.bsServers));
  }

  lemma UpdateServerKeeps(inv: Property, s: State, i: nat, now: int)
    requires KeptByBegin(inv) && inv(s)
    ensures inv(UpdateServer(s, i, now))
  {
    hide Begin;
    var s1 := Begin(s, Update, ManagementServer(i), now).0;
    assert inv(SetServers(s1, SetStatus(s1, i, RegUpdatePending).servers, s1.bsServers));
  }

  lemma DeregisterServerKeeps(inv: Property, s: State, i: nat, now: int)
    requires KeptByBegin(inv) && inv(s) && i < |s.servers|
    ensures inv(DeregisterServer(s, now, i))
  {
    hide Begin;
    var s1 := Begin(s, Deregister, ManagementServer(i), now).0;
    assert inv(SetServers(s1, SetStatus(s1, i, DeregPending).servers, s1.bsServers));
  }

  lemma InitiateOneKeeps(inv: Property, s: State, i: nat, env: Env)
    requires KeptByBegin(inv) && inv(s) && i < |s.bsServers|
    ensures inv(InitiateOne(s, env, i))
  {
    hide Begin;
    var v := s.bsServers[i];
    var session := Connected(v.session, v.secInst, env);
    var s1 := SetServers(s, s.servers, s.bsServers[i := v.(session := session)]);
    assert inv(s1);
    if session.Some? {
      var s2 := Begin(s1, Bootstrap, BootstrapServer(session.value), env.now).0;
      assert inv(s2) && inv(SetBootstrap(s2, Initiated, env.now));
    }
  }

  lemma {:induction false} GetFromKeeps(inv: Property, s: State, entries: seq<SecurityEntry>)
    requires KeptByBegin(inv) && inv(s)
    ensures inv(GetFrom(s, entries).0)
    decreases entries
  {
    if entries != [] {
      match entries[0]
      case Unreadable =>
      case BootstrapEntry(inst, shortID, holdOff) =>
        var bsServers := SortedList.Insert(s.bsServers, NewServer(inst, shortID, holdOff), SecInst);
        GetFromKeeps(inv, SetServers(s, s.servers, bsServers), entries[1..]);
      case ServerEntry(inst, shortID, lifetime) =>
        var servers := SortedList.Insert(s.servers, NewServer(inst, shortID, lifetime), SecInst);
        GetFromKeeps(inv, SetServers(s, servers, s.bsServers), entries[1..]);
    }
  }

  lemma UpdateByShortIdKeeps(inv: Property, s: State, shortID: uint16, env: Env)
    requires KeptByBegin(inv) && KeptByReads(inv) && inv(s)
    ensures inv(UpdateByShortId(s, shortID, env))
  {
    hide UpdateServer, GetFrom, Entries, AllReads;
    ServerReadsAreReads(s, env);
    GetFromKeeps(inv, LogAll(s, ServerReads(s, env)), Entries(s, env).0);
    UpdateServerKeeps(inv, s, FindShortId(s.servers, shortID), env.now);
  }

  /** For such a property registration and bootstrap need no look, but for lwm2m_start and what is read. */
  lemma BeginIsEnough(inv: Property)
    requires KeptByBegin(inv)
    ensures KeptByServers(inv) && KeptByInitiate(inv)
    ensures KeptByReads(inv) && (forall s: State, env: Env | inv(s) :: inv(Start(s, env).0)) ==>
      KeptByBootstrap(inv) && KeptByUpdate(inv)
  {
    hide RegisterServer, UpdateServer, DeregisterServer, InitiateOne, UpdateByShortId, Start;
    forall s: State, i: nat, env: Env | i < |s.servers| && inv(s) ensures inv(RegisterServer(s, i, env)) {
      RegisterServerKeeps(inv, s, i, env);
    }
    forall s: State, i: nat, now: int | inv(s) ensures inv(UpdateServer(s, i, now)) {
      UpdateServerKeeps(inv, s, i, now);
    }
    forall s: State, i: nat, now: int | i < |s.servers| && inv(s) ensures inv(DeregisterServer(s, now, i)) {
      DeregisterServerKeeps(inv, s, i, now);
    }
    forall s: State, i: nat, env: Env | i < |s.bsServers| && inv(s) ensures inv(InitiateOne(s, env, i)) {
      InitiateOneKeeps(inv, s, i, env);
    }
    if KeptByReads(inv) {
      forall s: State, shortID: uint16, env: Env | inv(s) ensures inv(UpdateByShortId(s, shortID, env)) {
        UpdateByShortIdKeeps(inv, s, shortID, env);
      }
    }
  }
}
