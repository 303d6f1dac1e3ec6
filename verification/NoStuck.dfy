/** No server waits for an answer that cannot come any more. */
module NoStuck {
  import opened Core
  import opened Client
  import opened Engine
  import opened ClientFacts
  import opened ManagementFacts
  import opened Induction
  import SortedList

  /** The kind of transaction a server in this status waits for. */
  function Awaits(status: Status): Option<Kind> {
    match status
    case RegPending => Some(Register)
    case RegUpdatePending => Some(Update)
    case DeregPending => Some(Deregister)
    case _ => None
  }

  /** If server i waits for a transaction, a transaction of that kind for that server is in the list. */
  predicate Backed(s: State, i: nat) {
    i < |s.servers| && Awaits(s.servers[i].status).Some? ==>
      Count(s.transactions, OfKind(Awaits(s.servers[i].status).value, i)) >= 1
  }

  /** The end of a transaction, with whatever reply, moves a server that waits for it out of that status, and
      leaves a server that waits for another kind alone. */
  lemma EndMovesServer(s: State, t: Transaction, i: nat, reply: Option<Message>, now: int)
    requires i < |s.servers| && t.peer == ManagementServer(i) && t.kind != Bootstrap
    ensures var v := Handle(s, t, reply, now).servers[i];
            if Awaits(s.servers[i].status) == Some(t.kind) then Awaits(v.status).None? else v == s.servers[i]
  {
  }

  lemma FinishKeepsBacked(s: State, j: nat, reply: Option<Message>, now: int, i: nat)
    requires j < |s.transactions| && Backed(s, i)
    ensures Backed(Finish(s, j, reply, now), i)
  {
    hide Count, Handle;
    var t := s.transactions[j];
    HandleFrame(s, t, reply, now);
    if i < |s.servers| {
      if t.kind != Bootstrap && t.peer == ManagementServer(i) {
        EndMovesServer(s, t, i, reply, now);
      }
      var awaited := Awaits(s.servers[i].status);
      if awaited.Some? {
        CountWithout(s.transactions, j, OfKind(awaited.value, i));
      }
    }
  }

  lemma SendKeepsBacked(s: State, j: nat, now: int, i: nat)
    requires j < |s.transactions| && Backed(s, i)
    ensures Backed(Send(s, j, now).0, i)
    ensures forall p: Pick | p.OfKind? && !Send(s, j, now).1 ::
      Count(Send(s, j, now).0.transactions, p) == Count(s.transactions, p)
  {
    hide Count, Finish, Send;
    SendFrame(s, j, now);
    var (t, sent, over) := Transmit(s.transactions[j], now);
    var s1 := s.(transactions := s.transactions[j := t],
                 log := if sent then s.log + [Sending(s, t, now)] else s.log);
    forall p: Pick | p.OfKind?
      ensures Count(s1.transactions, p) == Count(s.transactions, p)
    {
      CountReplace(s.transactions, j, t, p);
    }
    if over {
      FinishKeepsBacked(s1, j, None, now, i);
    }
  }

  /** A transaction that is begun backs its own server, if it stays, and unbacks no other. */
  lemma BeginKeepsBacked(s: State, kind: Kind, peer: Peer, now: int, i: nat)
    requires Backed(s, i)
    ensures Backed(Begin(s, kind, peer, now).0, i)
    ensures Begin(s, kind, peer, now).1 && peer == ManagementServer(i) ==>
      Count(Begin(s, kind, peer, now).0.transactions, OfKind(kind, i)) >= 1
  {
    hide Count, Send;
    var t := NewTransaction(s, kind, peer, now);
    var s1 := s.(transactions := SortedList.Insert(s.transactions, t, Mid),
                 nextMID := (s.nextMID + 1) % 0x1_0000, drawn := s.drawn + 1, created := s.created + 1);
    CountInsert(s.transactions, t, OfKind(kind, i));
    if i < |s.servers| && Awaits(s.servers[i].status).Some? {
      CountInsert(s.transactions, t, OfKind(Awaits(s.servers[i].status).value, i));
    }
    SendKeepsBacked(s1, SortedList.Position(s.transactions, t, Mid), now, i);
  }

  lemma SameServersBacked(s: State, r: State, i: nat)
    requires Backed(s, i) && r.servers == s.servers && r.transactions == s.transactions
    ensures Backed(r, i)
  {
  }

  lemma StatusBacked(s: State, j: nat, status: Status, i: nat)
    requires Backed(s, i)
    requires i == j && Awaits(status).Some? ==> Count(s.transactions, OfKind(Awaits(status).value, i)) >= 1
    ensures Backed(SetStatus(s, j, status), i)
  {
  }

  lemma ReplaceBacked(s: State, j: nat, t: Transaction, i: nat)
    requires Backed(s, i) && j < |s.transactions|
    requires t.kind == s.transactions[j].kind && t.peer == s.transactions[j].peer
    ensures Backed(s.(transactions := s.transactions[j := t]), i)
  {
    if i < |s.servers| && Awaits(s.servers[i].status).Some? {
      CountReplace(s.transactions, j, t, OfKind(Awaits(s.servers[i].status).value, i));
    }
  }

  lemma RegisterServerKeepsBacked(s: State, j: nat, env: Env, i: nat)
    requires j < |s.servers| && Backed(s, i)
    ensures Backed(RegisterServer(s, j, env), i)
  {
    hide Begin, Count;
    var v := s.servers[j];
    var s1 := s.(servers := s.servers[j := v.(session := Connected(v.session, v.secInst, env))]);
    BeginKeepsBacked(s1, Register, ManagementServer(j), env.now, i);
    if Begin(s1, Register, ManagementServer(j), env.now).1 {
      StatusBacked(Begin(s1, Register, ManagementServer(j), env.now).0, j, RegPending, i);
    }
  }

  lemma UpdateServerKeepsBacked(s: State, j: nat, now: int, i: nat)
    requires Backed(s, i)
    ensures Backed(UpdateServer(s, j, now), i)
  {
    hide Begin, Count;
    BeginKeepsBacked(s, Update, ManagementServer(j), now, i);
    if Begin(s, Update, ManagementServer(j), now).1 {
      StatusBacked(Begin(s, Update, ManagementServer(j), now).0, j, RegUpdatePending, i);
    }
  }

  lemma DeregisterServerKeepsBacked(s: State, j: nat, now: int, i: nat)
    requires j < |s.servers| && Backed(s, i)
    ensures Backed(DeregisterServer(s, now, j), i)
  {
    hide Begin, Count;
    BeginKeepsBacked(s, Deregister, ManagementServer(j), now, i);
    if Begin(s, Deregister, ManagementServer(j), now).1 {
      StatusBacked(Begin(s, Deregister, ManagementServer(j), now).0, j, DeregPending, i);
    }
  }

  lemma InitiateOneKeepsBacked(s: State, env: Env, j: nat, i: nat)
    requires j < |s.bsServers| && Backed(s, i)
    ensures Backed(InitiateOne(s, env, j), i)
  {
    hide Begin;
    var v := s.bsServers[j];
    var session := Connected(v.session, v.secInst, env);
    var s1 := s.(bsServers := s.bsServers[j := v.(session := session)]);
    SameServersBacked(s, s1, i);
    if session.Some? {
      BeginKeepsBacked(s1, Bootstrap, BootstrapServer(session.value), env.now, i);
    }
  }

  /** Servers that were just read are not registered. */
  predicate Fresh(servers: seq<Server>) { forall v | v in servers :: v.status == Deregistered }

  lemma {:induction false} GetFromIsFresh(s: State, entries: seq<SecurityEntry>)
    requires Fresh(s.servers)
    ensures Fresh(GetFrom(s, entries).0.servers)
    decreases entries
  {
    if entries != [] {
      match entries[0]
      case Unreadable =>
      case BootstrapEntry(inst, shortID, holdOff) =>
        var v := NewServer(inst, shortID, holdOff);
        GetFromIsFresh(s.(bsServers := SortedList.Insert(s.bsServers, v, SecInst)), entries[1..]);
      case ServerEntry(inst, shortID, lifetime) =>
        var v := NewServer(inst, shortID, lifetime);
        SortedList.InsertAt(s.servers, v, SecInst);
        GetFromIsFresh(s.(servers := SortedList.Insert(s.servers, v, SecInst)), entries[1..]);
    }
  }

  lemma StartIsFresh(s: State, env: Env)
    ensures Fresh(Start(s, env).0.servers)
  {
    hide GetFrom, ReadEntries;
    var s1 := s.(transactions := [], log := s.log + DropAll(s.transactions, s.drawn), observed := [],
                 servers := [], bsServers := []);
    GetFromIsFresh(LogAll(s1, ServerReads(s, env)), Entries(s, env).0);
  }

  lemma FreshIsBacked(s: State, i: nat)
    requires Fresh(s.servers)
    ensures Backed(s, i)
  {
  }

  lemma UpdateByShortIdKeepsBacked(s: State, shortID: uint16, env: Env, i: nat)
    requires Backed(s, i)
    ensures Backed(UpdateByShortId(s, shortID, env), i)
  {
    hide Backed, UpdateServer, GetFrom, Entries;
    if s.servers == [] {
      GetFromIsFresh(LogAll(s, ServerReads(s, env)), Entries(s, env).0);
      FreshIsBacked(UpdateByShortId(s, shortID, env), i);
    }
    UpdateServerKeepsBacked(s, FindShortId(s.servers, shortID), env.now, i);
  }

  /** Every elementary operation keeps server i backed. */
  lemma BackedIsKept(i: nat, inv: Property)
    requires forall s: State :: inv(s) <==> Backed(s, i)
    ensures Kept(inv) && KeptByUpdate(inv)
  {
    hide Backed, Send, Finish, RegisterServer, UpdateServer, DeregisterServer, InitiateOne, Start, UpdateByShortId,
      OnlyManages;
    forall s: State, j: nat, now: int | j < |s.transactions| && inv(s) ensures inv(Send(s, j, now).0) {
      SendKeepsBacked(s, j, now, i);
    }
    forall s: State, j: nat, acked: bool, time: int | j < |s.transactions| && inv(s)
      ensures inv(Touch(s, j, acked, time))
    {
      ReplaceBacked(s, j, Touch(s, j, acked, time).transactions[j], i);
    }
    forall s: State, j: nat, reply: Option<Message>, now: int | j < |s.transactions| && inv(s)
      ensures inv(Finish(s, j, reply, now))
    {
      FinishKeepsBacked(s, j, reply, now, i);
    }
    forall s: State, j: nat, env: Env | j < |s.servers| && inv(s) ensures inv(RegisterServer(s, j, env)) {
      RegisterServerKeepsBacked(s, j, env, i);
    }
    forall s: State, j: nat, now: int | inv(s) ensures inv(UpdateServer(s, j, now)) {
      UpdateServerKeepsBacked(s, j, now, i);
    }
    forall s: State, j: nat, now: int | j < |s.servers| && inv(s) ensures inv(DeregisterServer(s, now, j)) {
      DeregisterServerKeepsBacked(s, j, now, i);
    }
    forall s: State, j: nat, env: Env | j < |s.bsServers| && inv(s) ensures inv(InitiateOne(s, env, j)) {
      InitiateOneKeepsBacked(s, env, j, i);
    }
    forall s: State, bsState: BsState, bsStart: int | inv(s) ensures inv(SetBootstrap(s, bsState, bsStart)) {
      SameServersBacked(s, SetBootstrap(s, bsState, bsStart), i);
    }
    forall s: State, env: Env ensures inv(Start(s, env).0) {
      StartIsFresh(s, env);
      FreshIsBacked(Start(s, env).0, i);
    }
    forall s: State, shortID: uint16, env: Env | inv(s) ensures inv(UpdateByShortId(s, shortID, env)) {
      UpdateByShortIdKeepsBacked(s, shortID, env, i);
    }
    forall a: State, b: State | inv(a) && OnlyManages(a, b) ensures inv(b) {
      ManagedIsBacked(a, b, i);
    }
    ManagesIsEnough(inv);
  }

  lemma ManagedIsBacked(a: State, b: State, i: nat)
    requires Backed(a, i) && OnlyManages(a, b)
    ensures Backed(b, i)
  {
    SameServersBacked(a, b, i);
  }

  /** In every run, each server that waits for the answer to a registration, an update or a deregistration
      has a transaction of that kind in the list, however many transactions for it overlap. */
  lemma NoServerIsStuck(s: State, events: seq<(Event, Env)>, i: nat)
    requires Initial(s) && i < |Run(s, events).servers|
    ensures var r := Run(s, events);
            Awaits(r.servers[i].status).Some? ==>
              exists j | 0 <= j < |r.transactions| ::
                r.transactions[j].kind == Awaits(r.servers[i].status).value
                && r.transactions[j].peer == ManagementServer(i)
  {
    hide Run;
    var inv := (r: State) => Backed(r, i);
    BackedIsKept(i, inv);
    RunKeeps(inv, s, events);
    var r := Run(s, events);
    if Awaits(r.servers[i].status).Some? {
      CountMember(r.transactions, OfKind(Awaits(r.servers[i].status).value, i));
    }
  }
}
