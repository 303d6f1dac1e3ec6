/** A server has at most one registration under way, and only while it waits for the answer. */
module Registering {
  // The registrations to each server are counted. One is begun only for a server that is deregistered or has failed,
  // and while one is under way its server waits for it, unless lwm2m_update_registration overrules the status.

  import opened Core
  import opened Client
  import opened Engine
  import opened Induction
  import opened ClientFacts
  import opened ManagementFacts
  import opened Management
  import opened OneServer
  import NoStuck
  import SortedList

  predicate Pends(s: State, i: nat) { i < |s.servers| && s.servers[i].status == RegPending }

  /** The registrations counted by p are no more than the servers that wait for them. */
  predicate Held(s: State, p: Pick) {
    match p
    case OfKind(Register, i) => Count(s.transactions, p) <= One(Pends(s, i))
    case Misdirected => Count(s.transactions, p) == 0
    case _ => true
  }

  predicate Counted(p: Pick) { p.Misdirected? || (p.OfKind? && p.kind == Register) }

  lemma FinishHolds(s: State, j: nat, reply: Option<Message>, now: int, p: Pick)
    requires j < |s.transactions| && Held(s, p)
    ensures Held(Finish(s, j, reply, now), p)
  {
    hide Count, Handle;
    HandleFrame(s, s.transactions[j], reply, now);
    CountWithout(s.transactions, j, p);
    if s.transactions[j].kind != Register {
      EndKeepsPending(s, s.transactions[j], reply, now);
    }
  }

  /** Only the end of its registration makes a server stop waiting for one. */
  lemma EndKeepsPending(s: State, t: Transaction, reply: Option<Message>, now: int)
    requires t.kind == Register && t.peer.ManagementServer? ==> !Pends(s, t.peer.index)
    ensures forall i: nat :: Pends(Handle(s, t, reply, now), i) == Pends(s, i)
  {
  }

  lemma SendHolds(s: State, j: nat, now: int, p: Pick)
    requires j < |s.transactions| && Held(s, p)
    ensures Held(Send(s, j, now).0, p)
  {
    hide Count, Finish, Send;
    SendFrame(s, j, now);
    var (t, sent, over) := Transmit(s.transactions[j], now);
    CountReplace(s.transactions, j, t, p);
    if over {
      FinishHolds(s.(transactions := s.transactions[j := t],
                     log := if sent then s.log + [Sending(s, t, now)] else s.log),
                  j, None, now, p);
    }
  }

  /** A transaction that is begun counts once while it stays. */
  lemma BeginCounts(s: State, kind: Kind, peer: Peer, now: int, p: Pick)
    requires Counted(p)
    ensures var r := Begin(s, kind, peer, now);
            && Count(r.0.transactions, p) ==
                 Count(s.transactions, p) + One(r.1 && Picks(p, NewTransaction(s, kind, peer, now)))
            && (r.1 ==> r.0.servers == s.servers)
            && (!(kind == Register && peer.ManagementServer? && Pends(s, peer.index)) ==>
                  forall i: nat :: Pends(r.0, i) == Pends(s, i))
  {
    hide Count, Handle, Send, SortedList.Insert, SortedList.Position, SortedList.Remove;
    var t := NewTransaction(s, kind, peer, now);
    var s1 := s.(transactions := SortedList.Insert(s.transactions, t, Mid),
                 nextMID := (s.nextMID + 1) % 0x1_0000, drawn := s.drawn + 1, created := s.created + 1);
    var at := SortedList.Position(s.transactions, t, Mid);
    CountInsert(s.transactions, t, p);
    InsertedAt(s.transactions, t);
    SendFrame(s1, at, now);
    var (u, sent, over) := Transmit(t, now);
    CountReplace(s1.transactions, at, u, p);
    var s2 := s1.(transactions := s1.transactions[at := u],
                  log := if sent then s1.log + [Sending(s1, t, now)] else s1.log);
    CountWithout(s2.transactions, at, p);
    HandleFrame(s2, u, None, now);
    if !(kind == Register && peer.ManagementServer? && Pends(s, peer.index)) {
      EndKeepsPending(s2, u, None, now);
      assert forall i: nat :: Pends(s2, i) == Pends(s, i);
    }
  }

  lemma ReplaceHolds(s: State, j: nat, t: Transaction, p: Pick)
    requires Held(s, p) && j < |s.transactions|
    requires t.kind == s.transactions[j].kind && t.peer == s.transactions[j].peer
    ensures Held(s.(transactions := s.transactions[j := t]), p)
  {
    CountReplace(s.transactions, j, t, p);
  }

  lemma SameHolds(s: State, r: State, p: Pick)
    requires Held(s, p) && r.servers == s.servers && r.transactions == s.transactions
    ensures Held(r, p)
  {
  }

  lemma RegisterServerHolds(s: State, j: nat, env: Env, p: Pick)
    requires j < |s.servers| && s.servers[j].status != RegPending && Held(s, p)
    ensures Held(RegisterServer(s, j, env), p)
  {
    hide Begin, Count;
    if Counted(p) {
      var v := s.servers[j];
      var s1 := s.(servers := s.servers[j := v.(session := Connected(v.session, v.secInst, env))]);
      assert forall i: nat :: Pends(s1, i) == Pends(s, i);
      BeginCounts(s1, Register, ManagementServer(j), env.now, p);
    }
  }

  lemma UpdateServerHolds(s: State, j: nat, now: int, p: Pick)
    requires j < |s.servers| && (s.servers[j].status != RegPending || now < 0) && Held(s, p)
    ensures Held(UpdateServer(s, j, now), p)
  {
    hide Begin, Count;
    if Counted(p) {
      BeginCounts(s, Update, ManagementServer(j), now, p);
      BeginIsLive(s, Update, ManagementServer(j), now);
    }
  }

  /** A transaction stays in the list if there is a time to send it at. */
  lemma BeginIsLive(s: State, kind: Kind, peer: Peer, now: int)
    ensures Begin(s, kind, peer, now).1 <==> now >= 0
  {
    hide SortedList.Insert, SortedList.Position;
    InsertedAt(s.transactions, NewTransaction(s, kind, peer, now));
  }

  lemma DeregisterServerHolds(s: State, j: nat, now: int, p: Pick)
    requires j < |s.servers| && Held(s, p)
    ensures Held(DeregisterServer(s, now, j), p)
  {
    hide Begin, Count;
    if Counted(p) {
      BeginCounts(s, Deregister, ManagementServer(j), now, p);
    }
  }

  lemma InitiateOneHolds(s: State, env: Env, j: nat, p: Pick)
    requires j < |s.bsServers| && Held(s, p)
    ensures Held(InitiateOne(s, env, j), p)
  {
    hide Begin, Count;
    var v := s.bsServers[j];
    var session := Connected(v.session, v.secInst, env);
    var s1 := s.(bsServers := s.bsServers[j := v.(session := session)]);
    assert forall i: nat :: Pends(s1, i) == Pends(s, i);
    if session.Some? && Counted(p) {
      BeginCounts(s1, Bootstrap, BootstrapServer(session.value), env.now, p);
    }
  }

  lemma EmptyHolds(s: State, p: Pick)
    requires s.transactions == []
    ensures Held(s, p)
  {
  }

  /** Every elementary operation but lwm2m_update_registration keeps the count. */
  lemma HeldIsKept(p: Pick, inv: Property)
    requires forall s: State :: inv(s) <==> Held(s, p)
    ensures Kept(inv)
  {
    hide Held, Send, Finish, RegisterServer, UpdateServer, DeregisterServer, InitiateOne, Start, OnlyManages;
    forall s: State, j: nat, now: int | j < |s.transactions| && inv(s) ensures inv(Send(s, j, now).0) {
      SendHolds(s, j, now, p);
    }
    forall s: State, j: nat, acked: bool, time: int | j < |s.transactions| && inv(s)
      ensures inv(Touch(s, j, acked, time))
    {
      ReplaceHolds(s, j, Touch(s, j, acked, time).transactions[j], p);
    }
    forall s: State, j: nat, reply: Option<Message>, now: int | j < |s.transactions| && inv(s)
      ensures inv(Finish(s, j, reply, now))
    {
      FinishHolds(s, j, reply, now, p);
    }
    forall s: State, j: nat, env: Env | j < |s.servers| && s.servers[j].status in {Deregistered, RegFailed} && inv(s)
      ensures inv(RegisterServer(s, j, env))
    {
      RegisterServerHolds(s, j, env, p);
    }
    forall s: State, j: nat, now: int | j < |s.servers| && s.servers[j].status == Registered && inv(s)
      ensures inv(UpdateServer(s, j, now))
    {
      UpdateServerHolds(s, j, now, p);
    }
    forall s: State, j: nat, now: int | j < |s.servers| && inv(s) ensures inv(DeregisterServer(s, now, j)) {
      DeregisterServerHolds(s, j, now, p);
    }
    forall s: State, j: nat, env: Env | j < |s.bsServers| && inv(s) ensures inv(InitiateOne(s, env, j)) {
      InitiateOneHolds(s, env, j, p);
    }
    forall s: State, bsState: BsState, bsStart: int | inv(s) ensures inv(SetBootstrap(s, bsState, bsStart)) {
      SameHolds(s, SetBootstrap(s, bsState, bsStart), p);
    }
    forall s: State, env: Env ensures inv(Start(s, env).0) {
      StartFrame(s, env);
      EmptyHolds(Start(s, env).0, p);
    }
    forall a: State, b: State | inv(a) && OnlyManages(a, b) ensures inv(b) {
      ManagedHolds(a, b, p);
    }
    ManagesIsEnough(inv);
  }

  lemma ManagedHolds(a: State, b: State, p: Pick)
    requires Held(a, p) && OnlyManages(a, b)
    ensures Held(b, p)
  {
    SameHolds(a, b, p);
  }

  lemma StepTransactionsHold(s: State, now: int, p: Pick)
    requires Held(s, p)
    ensures Held(StepTransactions(s, 0, now), p)
  {
    hide Held, StepTransactions, Kept;
    var inv := (r: State) => Held(r, p);
    HeldIsKept(p, inv);
    assert KeptBySend(inv) by { KeptIsKeptBySend(inv); }
    StepTransactionsKeep(inv, s, 0, now);
  }

  lemma KeptIsKeptBySend(inv: Property)
    requires Kept(inv)
    ensures KeptBySend(inv)
  {
  }

  // ---------- runs ----------

  /** A call of lwm2m_update_registration finds no server that waits for its registration, or there is no time. */
  predicate Calm(s: State, e: Event, env: Env) {
    e.UpdateRegistration? && env.now >= 0 ==>
      var i := FindShortId(s.servers, e.shortID);
      i < |s.servers| ==> s.servers[i].status != RegPending
  }

  predicate AllCalm(s: State, events: seq<(Event, Env)>)
    decreases |events|
  {
    events == [] || (Calm(s, events[0].0, events[0].1) && AllCalm(Apply(s, events[0].0, events[0].1), events[1..]))
  }

  lemma ApplyHolds(s: State, e: Event, env: Env, p: Pick)
    requires Calm(s, e, env) && Held(s, p)
    ensures Held(Apply(s, e, env), p)
  {
    hide Held, Kept, Step, HandlePacket, ValueChanged, Start, UpdateByShortId, DeregisterFrom;
    var inv := (r: State) => Held(r, p);
    HeldIsKept(p, inv);
    if e.UpdateRegistration? {
      UpdateByShortIdHolds(s, e.shortID, env, p);
    } else {
      ApplyKeeps(inv, s, e, env);
    }
  }

  lemma UpdateByShortIdHolds(s: State, shortID: uint16, env: Env, p: Pick)
    requires Calm(s, UpdateRegistration(shortID), env) && Held(s, p)
    ensures Held(UpdateByShortId(s, shortID, env), p)
  {
    hide UpdateServer, GetFrom, Entries, Count;
    var i := FindShortId(s.servers, shortID);
    if s.servers == [] {
      GetFromFrame(LogAll(s, ServerReads(s, env)), Entries(s, env).0);
    } else if i < |s.servers| {
      UpdateServerHolds(s, i, env.now, p);
    }
  }

  /** No server has two registrations under way, and none has one that does not wait for its answer. */
  ghost predicate OneEach(s: State) { forall i: nat :: Count(s.transactions, OfKind(Register, i)) <= One(Pends(s, i)) }

  /** Such a call makes a server stop waiting for the registration that is still under way. */
  lemma CallDisturbs(s: State, e: Event, env: Env)
    requires !Calm(s, e, env)
    requires Count(s.transactions, OfKind(Register, FindShortId(s.servers, e.shortID))) > 0
    ensures !OneEach(Apply(s, e, env))
    ensures var (r, i) := (Apply(s, e, env), FindShortId(s.servers, e.shortID));
            Count(r.transactions, OfKind(Register, i)) > One(Pends(r, i))
  {
    hide Begin, Count;
    var i := FindShortId(s.servers, e.shortID);
    BeginCounts(s, Update, ManagementServer(i), env.now, OfKind(Register, i));
    BeginIsLive(s, Update, ManagementServer(i), env.now);
    var r := Apply(s, e, env);
    assert !Pends(r, i) && Count(r.transactions, OfKind(Register, i)) > 0;
  }

  lemma HeldEach(s: State)
    ensures OneEach(s) <==> forall i: nat :: Held(s, OfKind(Register, i))
  {
    hide Count;
    forall i: nat
      ensures Held(s, OfKind(Register, i)) <==> Count(s.transactions, OfKind(Register, i)) <= One(Pends(s, i))
    {
    }
  }

  ghost predicate BackedEach(s: State) { forall i: nat :: NoStuck.Backed(s, i) }

  lemma BackedStays(s: State, e: Event, env: Env)
    requires BackedEach(s)
    ensures BackedEach(Apply(s, e, env))
  {
    hide Apply, NoStuck.Backed, Kept;
    forall i: nat ensures NoStuck.Backed(Apply(s, e, env), i) {
      var inv := (r: State) => NoStuck.Backed(r, i);
      NoStuck.BackedIsKept(i, inv);
      ApplyKeeps(inv, s, e, env);
    }
  }

  lemma {:induction false} RunIsHeld(s: State, events: seq<(Event, Env)>)
    requires OneEach(s) && BackedEach(s)
    ensures Throughout(OneEach, s, events) <==> AllCalm(s, events)
    decreases |events|
  {
    hide Apply, Calm, OneEach, Held, Count, NoStuck.Backed;
    if events != [] {
      var (e, env) := events[0];
      var s1 := Apply(s, e, env);
      if Calm(s, e, env) {
        HeldEach(s);
        forall i: nat ensures Held(s1, OfKind(Register, i)) {
          ApplyHolds(s, e, env, OfKind(Register, i));
        }
        HeldEach(s1);
        BackedStays(s, e, env);
        RunIsHeld(s1, events[1..]);
      } else {
        PendingIsBacked(s, e, env);
        CallDisturbs(s, e, env);
        assert !Throughout(OneEach, s1, events[1..]);
      }
    }
  }

  lemma PendingIsBacked(s: State, e: Event, env: Env)
    requires !Calm(s, e, env) && BackedEach(s)
    ensures Count(s.transactions, OfKind(Register, FindShortId(s.servers, e.shortID))) > 0
  {
    hide Count;
    assert NoStuck.Backed(s, FindShortId(s.servers, e.shortID));
  }

  /** All through a run no server has two registrations under way, and one that has a registration under way waits for
      its answer, if and only if no call of lwm2m_update_registration finds a server that waits for its registration
      (at a time when something can be sent). */
  lemma OneRegistrationAtATime(s: State, events: seq<(Event, Env)>)
    requires Initial(s)
    ensures (forall j, i: nat | 0 <= j <= |events| ::
               var r := Run(s, events[..j]); Count(r.transactions, OfKind(Register, i)) <= One(Pends(r, i)))
       <==> AllCalm(s, events)
  {
    hide Run, AllCalm;
    RunIsHeld(s, events);
    ThroughoutMeans(OneEach, s, events);
    assert (forall j, i: nat | 0 <= j <= |events| ::
              var r := Run(s, events[..j]); Count(r.transactions, OfKind(Register, i)) <= One(Pends(r, i)))
      <==> (forall j | 0 <= j <= |events| :: OneEach(Run(s, events[..j])));
  }

  /** There is such a run: an update is asked for while the registration is sent for the second time. */
  lemma UpdateTooEarly() returns (s: State, events: seq<(Event, Env)>)
    ensures Initial(s) && !AllCalm(s, events)
    ensures var r := Run(s, events); Count(r.transactions, OfKind(Register, 0)) > One(Pends(r, 0))
  {
    hide Run, AllCalm, Step, Start, UpdateByShortId;
    s := Configured();
    events := [(StartAll, At(0)), (Tick, At(0)), (Tick, At(2)), (UpdateRegistration(1), At(2))];
    Started();
    var s1 := Start(s, At(0)).0;
    FirstTick(s1, 0);
    var s2 := Step(s1, At(0));
    NextTick(s2, 2, s2.transactions[0]);
    var s3 := Step(s2, At(2));
    assert FindShortId(s3.servers, 1) == 0;
    var t := s3.transactions[0];
    assert s3.transactions[1..] == [] && Picks(OfKind(Register, 0), t);
    CallDisturbs(s3, UpdateRegistration(1), At(2));
    FourEvents(s, events);
    OneRegistrationAtATime(s, events);
    assert events[..4] == events;
  }
}
