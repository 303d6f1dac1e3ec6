/** The network does not reach the Security object, except for a bootstrap server during a bootstrap. */
module SecurityIsolation {
  import opened Core
  import opened Client
  import opened Management
  import opened Engine
  import opened Induction
  import opened ClientFacts
  import opened ManagementFacts
  import SortedList
  import Observe
  import U = Uri

  /** How the callbacks of the Security object may be called: not at all, to read, or to change its instances. */
  datatype Access = Nothing | Reading | Changing

  predicate Allowed(o: Output, access: Access) {
    o.Called? && o.objectId == SECURITY_OBJECT ==>
      match access
      case Nothing => false
      case Reading => o.op == Read
      case Changing => o.op in {Write, Create, Delete}
  }

  /** The log is continued with allowed outputs. */
  predicate Isolated(s: State, r: State, access: Access) {
    && |r.log| >= |s.log| && r.log[..|s.log|] == s.log
    && (forall i | |s.log| <= i < |r.log| :: Allowed(r.log[i], access))
  }

  lemma Chain(a: State, b: State, c: State, access: Access)
    ensures Isolated(a, b, access) && Isolated(b, c, access) ==> Isolated(a, c, access)
  {
    if Isolated(a, b, access) && Isolated(b, c, access) {
      assert c.log[..|a.log|] == c.log[..|b.log|][..|a.log|];
      assert forall i | |a.log| <= i < |b.log| :: c.log[i] == c.log[..|b.log|][i];
    }
  }

  lemma Extended(s: State, r: State, outputs: seq<Output>, access: Access)
    requires r.log == s.log + outputs && forall i | 0 <= i < |outputs| :: Allowed(outputs[i], access)
    ensures Isolated(s, r, access)
  {
  }

  lemma Same(s: State, r: State, access: Access)
    ensures r.log == s.log ==> Isolated(s, r, access)
  {
  }

  // ---------- transactions, registration and bootstrap call no object ----------

  lemma FinishIsolated(s: State, i: nat, reply: Option<Message>, now: int, access: Access)
    requires i < |s.transactions|
    ensures Isolated(s, Finish(s, i, reply, now), access)
  {
    hide Handle;
    HandleFrame(s, s.transactions[i], reply, now);
  }

  lemma SendIsolated(s: State, i: nat, now: int, access: Access)
    requires i < |s.transactions|
    ensures Isolated(s, Send(s, i, now).0, access)
  {
    hide Finish, Send;
    SendFrame(s, i, now);
    var (t, sent, over) := Transmit(s.transactions[i], now);
    var s1 := s.(transactions := s.transactions[i := t],
                 log := if sent then s.log + [Sending(s, t, now)] else s.log);
    if over {
      FinishIsolated(s1, i, None, now, access);
      Chain(s, s1, Send(s, i, now).0, access);
    }
  }

  lemma BeginIsolated(s: State, kind: Kind, peer: Peer, now: int, access: Access)
    ensures Isolated(s, Begin(s, kind, peer, now).0, access)
  {
    hide Send;
    var t := NewTransaction(s, kind, peer, now);
    SendIsolated(s.(transactions := SortedList.Insert(s.transactions, t, Mid),
                    nextMID := (s.nextMID + 1) % 0x1_0000, drawn := s.drawn + 1, created := s.created + 1),
                 SortedList.Position(s.transactions, t, Mid), now, access);
  }

  lemma ReadsAllowed(calls: seq<Output>)
    requires AllReads(calls)
    ensures forall i | 0 <= i < |calls| :: Allowed(calls[i], Reading)
  {
    assert forall i | 0 <= i < |calls| :: calls[i] in calls;
  }

  lemma StartIsolated(s: State, env: Env)
    ensures Isolated(s, Start(s, env).0, Reading)
  {
    hide Start, DropAll, ServerReads, AllReads;
    StartFrame(s, env);
    DropsOnly(s.transactions, s.drawn);
    ReadsAllowed(ServerReads(s, env));
    var outputs := DropAll(s.transactions, s.drawn) + ServerReads(s, env);
    assert s.log + outputs == s.log + DropAll(s.transactions, s.drawn) + ServerReads(s, env);
    Extended(s, Start(s, env).0, outputs, Reading);
  }

  /** The log goes on from that of `from`, where only lwm2m_start and lwm2m_update_registration read. */
  lemma EngineIsIsolated(from: State, access: Access, inv: Property)
    requires forall s: State :: inv(s) <==> Isolated(from, s, access)
    ensures KeptBySend(inv) && KeptByReply(inv) && KeptByBegin(inv)
    ensures KeptByServers(inv)
    ensures access == Reading ==> KeptByBootstrap(inv) && KeptByUpdate(inv)
  {
    hide Isolated, Send, Finish, Begin, Start;
    forall s: State, i: nat, now: int | i < |s.transactions| && inv(s) ensures inv(Send(s, i, now).0) {
      SendIsolated(s, i, now, access);
      Chain(from, s, Send(s, i, now).0, access);
    }
    forall s: State, i: nat, reply: Option<Message>, now: int | i < |s.transactions| && inv(s)
      ensures inv(Finish(s, i, reply, now))
    {
      FinishIsolated(s, i, reply, now, access);
      Chain(from, s, Finish(s, i, reply, now), access);
    }
    forall s: State, to: Session, code: byte | inv(s) ensures inv(Log(s, Answered(to, code))) {
      Extended(s, Log(s, Answered(to, code)), [Answered(to, code)], access);
      Chain(from, s, Log(s, Answered(to, code)), access);
    }
    forall s: State, i: nat, acked: bool, time: int | i < |s.transactions| && inv(s)
      ensures inv(Touch(s, i, acked, time))
    {
      Same(s, Touch(s, i, acked, time), access);
      Chain(from, s, Touch(s, i, acked, time), access);
    }
    forall s: State, kind: Kind, peer: Peer, now: int | inv(s) ensures inv(Begin(s, kind, peer, now).0) {
      BeginIsolated(s, kind, peer, now, access);
      Chain(from, s, Begin(s, kind, peer, now).0, access);
    }
    forall s: State, servers: seq<Server>, bsServers: seq<Server> | inv(s)
      ensures inv(SetServers(s, servers, bsServers))
    {
      Same(s, SetServers(s, servers, bsServers), access);
      Chain(from, s, SetServers(s, servers, bsServers), access);
    }
    forall s: State, bsState: BsState, bsStart: int | inv(s) ensures inv(SetBootstrap(s, bsState, bsStart)) {
      Same(s, SetBootstrap(s, bsState, bsStart), access);
      Chain(from, s, SetBootstrap(s, bsState, bsStart), access);
    }
    if access == Reading {
      forall s: State, env: Env | inv(s) ensures inv(Start(s, env).0) {
        StartIsolated(s, env);
        Chain(from, s, Start(s, env).0, access);
      }
      forall s: State, calls: seq<Output> | AllReads(calls) && inv(s) ensures inv(LogAll(s, calls)) {
        ReadsAllowed(calls);
        Extended(s, LogAll(s, calls), calls, access);
        Chain(from, s, LogAll(s, calls), access);
      }
    }
    BeginIsEnough(inv);
  }

  // ---------- a step reads only when it ends a bootstrap ----------

  /** The bootstrap goes on, or a reply to its request came or did not. */
  predicate Onward(s: State, r: State) { r.bsState in {s.bsState, Pending, Failed} }

  lemma SendOnward(s: State, i: nat, now: int)
    requires i < |s.transactions|
    ensures Onward(s, Send(s, i, now).0)
  {
    hide Send, Handle;
    SendFrame(s, i, now);
    var (t, sent, over) := Transmit(s.transactions[i], now);
    HandleFrame(s.(transactions := s.transactions[i := t],
                   log := if sent then s.log + [Sending(s, t, now)] else s.log), t, None, now);
  }

  lemma BeginOnward(s: State, kind: Kind, peer: Peer, now: int)
    ensures Onward(s, Begin(s, kind, peer, now).0)
  {
    hide Send;
    var t := NewTransaction(s, kind, peer, now);
    SendOnward(s.(transactions := SortedList.Insert(s.transactions, t, Mid),
                  nextMID := (s.nextMID + 1) % 0x1_0000, drawn := s.drawn + 1, created := s.created + 1),
               SortedList.Position(s.transactions, t, Mid), now);
  }

  /** What a step does to transactions and servers neither calls an object nor finishes a bootstrap. */
  lemma EngineIsUnread(from: State, isolated: Property, inv: Property)
    requires forall s: State :: isolated(s) <==> Isolated(from, s, Nothing)
    requires forall s: State :: inv(s) <==> isolated(s) && s.bsState != Finished
    ensures KeptBySend(inv) && KeptByServers(inv) && KeptByInitiate(inv)
  {
    hide Isolated, Send, Begin, KeptByReply, KeptByBegin;
    EngineIsIsolated(from, Nothing, isolated);
    assert KeptByInitiate(isolated) by { BeginIsEnough(isolated); }
    forall s: State, i: nat, now: int | i < |s.transactions| && inv(s) ensures inv(Send(s, i, now).0) {
      SendOnward(s, i, now);
    }
    forall s: State, i: nat, env: Env | i < |s.servers| && s.servers[i].status in {Deregistered, RegFailed} && inv(s)
      ensures inv(RegisterServer(s, i, env))
    {
      var v := s.servers[i];
      BeginOnward(s.(servers := s.servers[i := v.(session := Connected(v.session, v.secInst, env))]), Register,
                  ManagementServer(i), env.now);
      assert RegisterServer(s, i, env).bsState != Finished;
    }
    forall s: State, i: nat, now: int | i < |s.servers| && s.servers[i].status == Registered && inv(s)
      ensures inv(UpdateServer(s, i, now))
    {
      BeginOnward(s, Update, ManagementServer(i), now);
      assert UpdateServer(s, i, now).bsState != Finished;
    }
    forall s: State, i: nat, now: int | i < |s.servers| && inv(s) ensures inv(DeregisterServer(s, now, i)) {
      BeginOnward(s, Deregister, ManagementServer(i), now);
      assert DeregisterServer(s, now, i).bsState != Finished;
    }
    forall s: State, i: nat, env: Env | i < |s.bsServers| && inv(s) ensures inv(InitiateOne(s, env, i)) {
      var v := s.bsServers[i];
      var session := Connected(v.session, v.secInst, env);
      if session.Some? {
        BeginOnward(s.(bsServers := s.bsServers[i := v.(session := session)]), Bootstrap,
                    BootstrapServer(session.value), env.now);
      }
      assert InitiateOne(s, env, i).bsState != Finished;
    }
  }

  /** Only a step that begins when a bootstrap is finished reads the servers. */
  lemma StepUnread(s: State, env: Env)
    requires s.bsState != Finished
    ensures Isolated(s, Step(s, env), Nothing)
  {
    hide Isolated, StepTransactions, UpdateFrom, InitiateFrom, Start, KeptBySend, KeptByServers, KeptByInitiate;
    var isolated := (x: State) => Isolated(s, x, Nothing);
    var inv := (x: State) => isolated(x) && x.bsState != Finished;
    EngineIsUnread(s, isolated, inv);
    Same(s, s, Nothing);
    if env.now >= 0 {
      var s1 := StepTransactions(s, 0, env.now);
      StepTransactionsKeep(inv, s, 0, env.now);
      UpdateFromKeeps(inv, s1, env, AnyRegistered(s1.servers), 0);
      var s2 := if s1.bsState in {ClientHoldOff, Pending, Finished, Failed} then s1 else RegistrationUpdate(s1, env);
      SameLog(s, UpdateFrom(s1, env, AnyRegistered(s1.servers), 0), s2);
      SameLog(s, s1, s2);
      assert isolated(s2) && s2.bsState != Finished;
      var s3 := if s2.bsState == Requested then SetBootstrap(s2, ClientHoldOff, env.now) else s2;
      SameLog(s, s2, s3);
      InitiateFromKeeps(inv, s3, env, 0);
      var s4 := UpdateHoldOff(s2, env);
      SameLog(s, s3, s4);
      assert isolated(s4) && s4.bsState != Finished;
      SameLog(s, s4, UpdateBootstrapState(s2, env));
    }
  }

  lemma SameLog(s: State, a: State, b: State)
    ensures b.log == a.log && Isolated(s, a, Nothing) ==> Isolated(s, b, Nothing)
  {
  }

  // ---------- requests and notifications ----------

  /** A read never reaches the Security object. */
  lemma ReadsIsolated(s: State, uri: U.Uri, env: Env, access: Access)
    ensures var calls := ReadObject(s, uri, env).1; forall i | 0 <= i < |calls| :: Allowed(calls[i], access)
  {
    ReadIsSilent(s, uri, env);
    var calls := ReadObject(s, uri, env).1;
    var id: uint16 :| id != SECURITY_OBJECT && ReadsOf(id, calls);
    assert forall i | 0 <= i < |calls| :: calls[i] in calls;
  }

  function During(s: State): Access { if s.bsState == Pending then Changing else Nothing }

  lemma WriteIsolated(s: State, uri: U.Uri, payload: seq<byte>, env: Env)
    ensures Isolated(s, WriteObject(s, uri, payload, env).0, During(s))
  {
  }

  lemma ExecuteIsolated(s: State, uri: U.Uri, env: Env)
    ensures Isolated(s, ExecuteObject(s, uri, env).0, During(s))
  {
  }

  lemma CreateIsolated(s: State, uri: U.Uri, payload: seq<byte>, env: Env)
    ensures Isolated(s, CreateObject(s, uri, payload, env).0, During(s))
  {
  }

  lemma DeleteIsolated(s: State, uri: U.Uri, env: Env)
    ensures Isolated(s, DeleteObject(s, uri, env).0, During(s))
  {
  }

  lemma {:induction false} DeleteAllIsolated(s: State, i: nat)
    ensures Isolated(s, DeleteAllFrom(s, i), Changing)
    decreases |s.objects| - i
  {
    if i < |s.objects| {
      var o := s.objects[i];
      if o.id in {SECURITY_OBJECT, SERVER_OBJECT} && o.deletable {
        var deletes := DeleteInstances(o.id, o.instances);
        var s1 := s.(objects := s.objects[i := o.(instances := [])], log := s.log + deletes);
        DeletesAreSilent(o.id, o.instances);
        Extended(s, s1, deletes, Changing);
        DeleteAllIsolated(s1, i + 1);
        Chain(s, s1, DeleteAllFrom(s1, i + 1), Changing);
      } else {
        DeleteAllIsolated(s, i + 1);
      }
    }
  }

  lemma GetIsolated(s: State, uri: U.Uri, i: nat, m: Message, env: Env, access: Access)
    ensures Isolated(s, HandleGet(s, uri, i, m, env).0, access)
  {
    hide ReadObject;
    ReadsIsolated(s, uri, env, access);
    Extended(s, HandleGet(s, uri, i, m, env).0, ReadObject(s, uri, env).1, access);
  }

  /** The session is that of a bootstrap server, while the bootstrap is going on. */
  predicate Granted(s: State, session: Session) {
    s.bsState == Pending && FindServer(s.bsServers, session) < |s.bsServers|
  }

  function Given(s: State, session: Session): Access { if Granted(s, session) then Changing else Nothing }

  lemma DmIsolated(s: State, uri: U.Uri, session: Session, m: Message, env: Env)
    ensures Isolated(s, HandleDm(s, uri, session, m, env).0, Given(s, session))
  {
    hide HandleGet, WriteObject, CreateObject, ExecuteObject, DeleteObject, Isolated;
    Same(s, s, Given(s, session));
    GetIsolated(s, uri, FindServer(s.servers, session), m, env, Given(s, session));
    WriteIsolated(s, uri, m.payload, env);
    CreateIsolated(s, uri, m.payload, env);
    ExecuteIsolated(s, uri, env);
    DeleteIsolated(s, uri, env);
  }

  lemma RequestIsolated(s: State, session: Session, m: Message, env: Env)
    ensures Isolated(s, HandleRequest(s, session, m, env).0, Given(s, session))
  {
    hide HandleDm, DeleteAllFrom, Isolated;
    Same(s, s, Given(s, session));
    DeleteAllIsolated(s, 0);
    var uri := U.DecodeUri(s.altPath, m.path);
    if uri.Some? {
      DmIsolated(s, uri.value, session, m, env);
    }
  }

  lemma PacketIsolated(s: State, session: Session, m: Message, env: Env)
    ensures Isolated(s, HandlePacket(s, session, m, env), Given(s, session))
  {
    hide HandleRequest, HandleResponse;
    var access := Given(s, session);
    var r := HandlePacket(s, session, m, env);
    if IsRequest(m) {
      var s1 := if m.mtype == Con then s else Draw(s);
      RequestIsolated(s1, session, m, env);
      Chain(s, HandleRequest(s1, session, m, env).0, r, access);
    } else {
      var inv := (x: State) => Isolated(s, x, access);
      EngineIsIsolated(s, access, inv);
      Same(s, s, access);
      var s1 := s.(observed := Observe.Cancel(s.observed, m.mid, ServersOf(s, session)));
      Same(s, s1, access);
      HandleResponseKeeps(inv, s1, session, m, false, env.now, 0);
      HandleResponseKeeps(inv, s, session, m, false, env.now, 0);
      HandleResponseKeeps(inv, s, session, m, true, env.now, 0);
    }
  }

  lemma {:induction false} NotifyIsolated(s: State, places: seq<nat>, env: Env)
    requires forall k | 0 <= k < |places| :: places[k] < |s.observed|
    ensures Isolated(s, NotifyFrom(s, places, env), Nothing)
    decreases |places|
  {
    hide ReadObject, Isolated;
    Same(s, s, Nothing);
    if places != [] {
      var o := s.observed[places[0]];
      var (code, calls) := ReadObject(s, o.uri, env);
      ReadsIsolated(s, o.uri, env, Nothing);
      var s1 := s.(log := s.log + calls);
      Extended(s, s1, calls, Nothing);
      var notices := Notices(Observe.Messages(o, s.nextMID));
      var s2 := if code != CONTENT then s1 else s1.(
        observed := s.observed[places[0] := o.(watchers := Observe.Told(o.watchers, s.nextMID))],
        nextMID := Observe.Mid(s.nextMID, |o.watchers|), drawn := s.drawn + |o.watchers|,
        log := s1.log + notices);
      Extended(s1, s2, if code != CONTENT then [] else notices, Nothing);
      Chain(s, s1, s2, Nothing);
      NotifyIsolated(s2, places[1..], env);
      Chain(s, s2, NotifyFrom(s, places, env), Nothing);
    }
  }

  // ---------- events and runs ----------

  /** The event is a packet from a bootstrap server during a bootstrap. */
  predicate Grants(s: State, e: Event) { e.Packet? && Granted(s, e.session) }

  /** The event is one that may read the servers: a start, a step that finds a bootstrap finished, or an update while
      no server is known. */
  predicate MayRead(s: State, e: Event) {
    e.StartAll? || (e.Tick? && s.bsState == Finished) || (e.UpdateRegistration? && s.servers == [])
  }

  function AccessIn(s: State, e: Event): Access {
    if Grants(s, e) then Changing else if MayRead(s, e) then Reading else Nothing
  }

  lemma ApplyIsolated(s: State, e: Event, env: Env)
    ensures Isolated(s, Apply(s, e, env), AccessIn(s, e))
  {
    hide Step, HandlePacket, NotifyFrom, Start, UpdateServer, GetServers, DeregisterFrom, Isolated, KeptByBegin;
    var access := AccessIn(s, e);
    var inv := (x: State) => Isolated(s, x, access);
    EngineIsIsolated(s, access, inv);
    Same(s, s, access);
    match e
    case Tick =>
      if s.bsState == Finished {
        StepKeeps(inv, s, env);
      } else {
        StepUnread(s, env);
      }
    case Packet(session, m) => PacketIsolated(s, session, m, env);
    case Changed(uri) => NotifyIsolated(s, Observe.Overlapping(s.observed, uri, |s.observed|), env);
    case StartAll => StartIsolated(s, env);
    case UpdateRegistration(shortID) =>
      if s.servers != [] {
        UpdateServerKeeps(inv, s, FindShortId(s.servers, shortID), env.now);
      }
    case DeregisterAll => DeregisterFromKeeps(inv, s, env.now, 0);
  }

  lemma {:induction false} RunExtends(s: State, events: seq<(Event, Env)>)
    ensures var r := Run(s, events); |r.log| >= |s.log| && r.log[..|s.log|] == s.log
    decreases |events|
  {
    hide Apply, Allowed;
    if events != [] {
      var s1 := Apply(s, events[0].0, events[0].1);
      ApplyIsolated(s, events[0].0, events[0].1);
      RunExtends(s1, events[1..]);
      var r := Run(s, events);
      assert r.log[..|s.log|] == r.log[..|s1.log|][..|s.log|];
    }
  }

  /** Output k of the run was made by event j. */
  predicate MadeBy(s: State, events: seq<(Event, Env)>, k: nat, j: nat)
    requires j < |events|
  {
    |Run(s, events[..j]).log| <= k < |Run(s, events[..j + 1]).log|
  }

  lemma {:induction false} EachOutputHasItsEvent(s: State, events: seq<(Event, Env)>, k: nat) returns (j: nat)
    requires |s.log| <= k < |Run(s, events).log|
    ensures j < |events| && MadeBy(s, events, k, j)
    ensures Allowed(Run(s, events).log[k], AccessIn(Run(s, events[..j]), events[j].0))
    decreases |events|
  {
    hide Apply, Allowed;
    var (e, env) := events[0];
    var s1 := Apply(s, e, env);
    ApplyIsolated(s, e, env);
    RunExtends(s1, events[1..]);
    if k < |s1.log| {
      j := 0;
      assert events[..0] == [] && events[..1][1..] == [];
      assert Run(s, events[..1]) == s1;
      assert Run(s, events).log[k] == Run(s, events).log[..|s1.log|][k];
    } else {
      var i := EachOutputHasItsEvent(s1, events[1..], k);
      j := i + 1;
      assert events[..j][1..] == events[1..][..i];
      assert events[..j + 1][1..] == events[1..][..i + 1];
      assert Run(s, events[..j]) == Run(s1, events[1..][..i]);
      assert Run(s, events[..j + 1]) == Run(s1, events[1..][..i + 1]);
    }
  }

  /** In every run, from whatever state, no callback of the Security object executes; one that reads was called by a
      start, a step that found a bootstrap finished or an update without servers, never for a packet or a changed
      value; one that writes, creates or deletes an instance was called for a packet that came from the session of a
      bootstrap server while the bootstrap was pending. */
  lemma SecurityObjectIsIsolated(s: State, events: seq<(Event, Env)>, k: nat)
    requires |s.log| <= k < |Run(s, events).log|
    requires Run(s, events).log[k].Called? && Run(s, events).log[k].objectId == SECURITY_OBJECT
    ensures Run(s, events).log[k].op != Execute
    ensures exists j | 0 <= j < |events| :: MadeBy(s, events, k, j) &&
              if Run(s, events).log[k].op == Read then MayRead(Run(s, events[..j]), events[j].0)
              else Grants(Run(s, events[..j]), events[j].0)
  {
    hide Run, MadeBy, Granted;
    var j := EachOutputHasItsEvent(s, events, k);
  }
}
