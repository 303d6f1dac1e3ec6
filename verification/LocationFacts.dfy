/**
 Where updates and deregistrations go, operation by operation.

 The message gets its path when its transaction is made. The engine itself asks only servers that have given a
 location: every elementary operation but lwm2m_update_registration keeps it so that a server which counts the
 client as registered has given one, and that each message to a location has it.
 */
module LocationFacts {
  import opened Core
  import opened Client
  import opened ClientFacts
  import opened ManagementFacts
  import opened Induction
  import SortedList

  /** A location that leads somewhere: a reply without a Location-Path leaves the empty text. */
  predicate Named(location: Option<string>) { location.Some? && location.value != "" }

  lemma LocationIsNamed(path: seq<string>)
    ensures LocationText(path) == "" <==> path == []
  {
  }

  /** A server accepts the registration that it was waiting for, and gives no location. */
  predicate Nameless(s: State, t: Transaction, reply: Option<Message>) {
    && t.kind == Register && t.peer.ManagementServer? && t.peer.index < |s.servers|
    && s.servers[t.peer.index].status == RegPending
    && reply.Some? && reply.value.code == CREATED && reply.value.location == []
  }

  /** A server that counts the client as registered, or is about to, or about to stop, has given a location. */
  predicate Located(servers: seq<Server>) {
    forall v | v in servers :: v.status in {Registered, RegUpdatePending, DeregPending} ==> Named(v.location)
  }

  /** A message that goes to a location has one. */
  predicate Addressed(o: Output) { o.Sent? && o.kind in {Update, Deregister} ==> Named(o.path) }

  predicate Pathed(t: Transaction) { t.kind in {Update, Deregister} ==> Named(t.path) }

  predicate Sound(s: State) {
    && Located(s.servers)
    && (forall t | t in s.transactions :: Pathed(t))
    && (forall o | o in s.log :: Addressed(o))
  }

  // ---------- the elementary operations ----------

  lemma ReplacedLocated(servers: seq<Server>, i: nat, v: Server)
    requires Located(servers) && i < |servers|
    requires v.status in {Registered, RegUpdatePending, DeregPending} ==> Named(v.location)
    ensures Located(servers[i := v])
  {
  }

  lemma HasLocation(servers: seq<Server>, i: nat)
    requires Located(servers) && i < |servers|
    ensures servers[i].status in {Registered, RegUpdatePending, DeregPending} ==> Named(servers[i].location)
  {
    assert servers[i] in servers;
  }

  lemma SoundParts(s: State)
    ensures Sound(s) <==>
      && Located(s.servers)
      && (forall t | t in s.transactions :: Pathed(t))
      && (forall o | o in s.log :: Addressed(o))
  {
  }

  lemma HandleLocated(s: State, t: Transaction, reply: Option<Message>, now: int)
    requires Located(s.servers)
    ensures Located(Handle(s, t, reply, now).servers) <==> !Nameless(s, t, reply)
  {
    hide Located, LocationText;
    if reply.Some? {
      LocationIsNamed(reply.value.location);
    }
    if t.peer.ManagementServer? && t.peer.index < |s.servers| && t.kind != Bootstrap {
      var i := t.peer.index;
      var r := Handle(s, t, reply, now);
      HandleFrame(s, t, reply, now);
      assert r.servers == s.servers[i := r.servers[i]];
      assert s.servers[i] in s.servers;
      HasLocation(s.servers, i);
      if Nameless(s, t, reply) {
        NotLocated(r.servers, i);
      } else {
        ReplacedLocated(s.servers, i, r.servers[i]);
      }
    }
  }

  lemma NotLocated(servers: seq<Server>, i: nat)
    requires i < |servers| && servers[i].status == Registered && !Named(servers[i].location)
    ensures !Located(servers)
  {
    assert servers[i] in servers;
  }

  lemma FinishSound(s: State, i: nat, reply: Option<Message>, now: int)
    requires i < |s.transactions| && Sound(s) && !Nameless(s, s.transactions[i], reply)
    ensures Sound(Finish(s, i, reply, now))
  {
    hide Handle, Located, Pathed;
    HandleLocated(s, s.transactions[i], reply, now);
    HandleFrame(s, s.transactions[i], reply, now);
  }

  lemma ReplaceSound(s: State, i: nat, t: Transaction)
    requires i < |s.transactions| && Sound(s) && t.kind == s.transactions[i].kind && t.path == s.transactions[i].path
    ensures Sound(s.(transactions := s.transactions[i := t]))
  {
    hide Located;
    assert s.transactions[i] in s.transactions;
  }

  /** Something else is logged, or the servers change and stay located. */
  lemma LogSound(s: State, r: State, outputs: seq<Output>)
    requires Sound(s) && r.transactions == s.transactions && Located(r.servers) && r.log == s.log + outputs
    requires forall i | 0 <= i < |outputs| :: Addressed(outputs[i])
    ensures Sound(r)
  {
    hide Located, Pathed;
  }

  lemma SendSound(s: State, i: nat, now: int)
    requires Sound(s) && i < |s.transactions|
    ensures Sound(Send(s, i, now).0)
    ensures !Send(s, i, now).1 ==> Send(s, i, now).0.servers == s.servers
  {
    hide Send, Handle, Finish, Located, Sound;
    SoundParts(s);
    SendFrame(s, i, now);
    assert s.transactions[i] in s.transactions;
    var (t, sent, over) := Transmit(s.transactions[i], now);
    ReplaceSound(s, i, t);
    var s1 := s.(transactions := s.transactions[i := t]);
    var s2 := s1.(log := if sent then s.log + [Sending(s, t, now)] else s.log);
    assert s.log + [] == s.log;
    LogSound(s1, s2, if sent then [Sending(s, t, now)] else []);
    if over {
      FinishSound(s2, i, None, now);
    }
  }

  lemma BeginSound(s: State, kind: Kind, peer: Peer, now: int)
    requires Sound(s) && Pathed(NewTransaction(s, kind, peer, now))
    ensures Sound(Begin(s, kind, peer, now).0)
    ensures Begin(s, kind, peer, now).1 ==> Begin(s, kind, peer, now).0.servers == s.servers
  {
    hide Send, Located, SortedList.Insert;
    var t := NewTransaction(s, kind, peer, now);
    SortedList.InsertAt(s.transactions, t, Mid);
    SendSound(s.(transactions := SortedList.Insert(s.transactions, t, Mid),
                 nextMID := (s.nextMID + 1) % 0x1_0000, drawn := s.drawn + 1, created := s.created + 1),
              SortedList.Position(s.transactions, t, Mid), now);
  }

  lemma SetStatusSound(s: State, i: nat, v: Server)
    requires Sound(s) && i < |s.servers|
    requires v.status in {Registered, RegUpdatePending, DeregPending} ==> Named(v.location)
    ensures Sound(s.(servers := s.servers[i := v]))
  {
    hide Located, Addressed, Pathed;
    ReplacedLocated(s.servers, i, v);
  }

  lemma RegisterServerSound(s: State, i: nat, env: Env)
    requires Sound(s) && i < |s.servers|
    ensures Sound(RegisterServer(s, i, env))
  {
    hide Begin, Sound;
    SoundParts(s);
    HasLocation(s.servers, i);
    var v := s.servers[i];
    var s1 := s.(servers := s.servers[i := v.(session := Connected(v.session, v.secInst, env))]);
    SetStatusSound(s, i, s1.servers[i]);
    BeginSound(s1, Register, ManagementServer(i), env.now);
    var (s2, live) := Begin(s1, Register, ManagementServer(i), env.now);
    if live {
      SetStatusSound(s2, i, s2.servers[i].(status := RegPending));
    }
  }

  lemma UpdateServerSound(s: State, i: nat, now: int)
    requires Sound(s) && i < |s.servers| && Named(s.servers[i].location)
    ensures Sound(UpdateServer(s, i, now))
  {
    hide Begin, Sound;
    BeginSound(s, Update, ManagementServer(i), now);
    var (s1, live) := Begin(s, Update, ManagementServer(i), now);
    if live {
      SetStatusSound(s1, i, s1.servers[i].(status := RegUpdatePending));
    }
  }

  lemma UpdateRegisteredSound(s: State, i: nat, now: int)
    requires Sound(s) && i < |s.servers| && s.servers[i].status == Registered
    ensures Sound(UpdateServer(s, i, now))
  {
    hide UpdateServer, Sound;
    SoundParts(s);
    HasLocation(s.servers, i);
    UpdateServerSound(s, i, now);
  }

  lemma DeregisterServerSound(s: State, now: int, i: nat)
    requires Sound(s) && i < |s.servers|
    ensures Sound(DeregisterServer(s, now, i))
  {
    hide Begin, Sound;
    SoundParts(s);
    HasLocation(s.servers, i);
    var v := s.servers[i];
    if v.status in {Deregistered, RegPending, DeregPending, RegFailed} || v.location.None? {
      assert DeregisterServer(s, now, i) == s;
    } else {
      assert v.status == Registered || v.status == RegUpdatePending;
      BeginSound(s, Deregister, ManagementServer(i), now);
      var (s1, live) := Begin(s, Deregister, ManagementServer(i), now);
      if live {
        SetStatusSound(s1, i, s1.servers[i].(status := DeregPending));
      }
    }
  }

  lemma InitiateOneSound(s: State, env: Env, i: nat)
    requires Sound(s) && i < |s.bsServers|
    ensures Sound(InitiateOne(s, env, i))
  {
    hide Begin, Located, Pathed, Addressed;
    var v := s.bsServers[i];
    var session := Connected(v.session, v.secInst, env);
    if session.Some? {
      var s1 := s.(bsServers := s.bsServers[i := v.(session := session)]);
      assert Pathed(NewTransaction(s1, Bootstrap, BootstrapServer(session.value), env.now)) by {
        OthersArePathed(s1, session.value, env.now);
      }
      BeginSound(s1, Bootstrap, BootstrapServer(session.value), env.now);
    }
  }

  lemma OthersArePathed(s: State, session: Session, now: int)
    ensures Pathed(NewTransaction(s, Bootstrap, BootstrapServer(session), now))
  {
  }

  lemma {:induction false} GetFromLocated(s: State, entries: seq<SecurityEntry>)
    requires Located(s.servers)
    ensures Located(GetFrom(s, entries).0.servers)
    decreases entries
  {
    if entries != [] {
      match entries[0]
      case Unreadable =>
      case BootstrapEntry(inst, shortID, holdOff) =>
        var v := NewServer(inst, shortID, holdOff);
        GetFromLocated(s.(bsServers := SortedList.Insert(s.bsServers, v, SecInst)), entries[1..]);
      case ServerEntry(inst, shortID, lifetime) =>
        var v := NewServer(inst, shortID, lifetime);
        SortedList.InsertAt(s.servers, v, SecInst);
        GetFromLocated(s.(servers := SortedList.Insert(s.servers, v, SecInst)), entries[1..]);
    }
  }

  /** object_getServers logs its calls only. */
  lemma GetServersSound(s: State, env: Env)
    requires Sound(s)
    ensures Sound(GetServers(s, env).0)
  {
    hide GetFrom, ReadEntries, Located;
    ServerReadsAreReads(s, env);
    var calls := ServerReads(s, env);
    assert forall i | 0 <= i < |calls| :: calls[i] in calls;
    assert s.log + [] == s.log;
    if HasObject(s, SECURITY_OBJECT) {
      GetFromFrame(LogAll(s, calls), Entries(s, env).0);
      GetFromLocated(LogAll(s, calls), Entries(s, env).0);
      LogSound(s, GetServers(s, env).0, calls);
    }
  }

  lemma StartSound(s: State, env: Env)
    requires Sound(s)
    ensures Sound(Start(s, env).0)
  {
    hide GetServers, Pathed;
    var s1 := s.(transactions := [], log := s.log + DropAll(s.transactions, s.drawn), observed := [],
                 servers := [], bsServers := []);
    DropsOnly(s.transactions, s.drawn);
    assert Sound(s1);
    GetServersSound(s1, env);
  }

  /** Every elementary operation but a reply and lwm2m_update_registration keeps the state sound. */
  lemma SoundIsKept(inv: Property)
    requires forall s: State :: inv(s) <==> Sound(s)
    ensures KeptBySend(inv) && KeptByServers(inv) && KeptByBootstrap(inv) && KeptByRequests(inv)
  {
    hide Sound, Located, Send, Finish, RegisterServer, UpdateServer, DeregisterServer, InitiateOne, Start, OnlyManages;
    forall s: State, i: nat, now: int | i < |s.transactions| && inv(s) ensures inv(Send(s, i, now).0) {
      SendSound(s, i, now);
    }
    forall s: State, i: nat, env: Env | i < |s.servers| && inv(s) ensures inv(RegisterServer(s, i, env)) {
      RegisterServerSound(s, i, env);
    }
    forall s: State, i: nat, now: int | i < |s.servers| && s.servers[i].status == Registered && inv(s)
      ensures inv(UpdateServer(s, i, now))
    {
      UpdateRegisteredSound(s, i, now);
    }
    forall s: State, i: nat, now: int | i < |s.servers| && inv(s) ensures inv(DeregisterServer(s, now, i)) {
      DeregisterServerSound(s, now, i);
    }
    forall s: State, i: nat, env: Env | i < |s.bsServers| && inv(s) ensures inv(InitiateOne(s, env, i)) {
      InitiateOneSound(s, env, i);
    }
    forall s: State, bsState: BsState, bsStart: int | inv(s) ensures inv(SetBootstrap(s, bsState, bsStart)) {
      SoundParts(s);
      SoundParts(SetBootstrap(s, bsState, bsStart));
    }
    forall s: State, env: Env | inv(s) ensures inv(Start(s, env).0) {
      StartSound(s, env);
    }
    forall a: State, b: State | inv(a) && OnlyManages(a, b) ensures inv(b) {
      ManagesSound(a, b);
    }
    ManagesIsEnough(inv);
  }

  lemma ManagesSound(a: State, b: State)
    requires Sound(a) && OnlyManages(a, b)
    ensures Sound(b)
  {
    hide Located;
    assert b.log == a.log + b.log[|a.log|..];
    LogSound(a, b, b.log[|a.log|..]);
  }
}
