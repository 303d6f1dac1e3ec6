/** Updates and deregistrations go to the location that the server gave at the registration, or nowhere. */
module Locations {
  import opened Core
  import opened Client
  import opened Management
  import opened Engine
  import opened ClientFacts
  import opened ManagementFacts
  import opened Induction
  import opened LocationFacts
  import opened Matching
  import opened OneServer
  import Observe
  import SecurityIsolation
  import SortedList

  // ---------- what the application and the servers contribute ----------

  /** A call of lwm2m_update_registration finds no server, or one that has given a location. */
  predicate Aimed(s: State, e: Event) {
    e.UpdateRegistration? ==>
      var i := FindShortId(s.servers, e.shortID);
      i < |s.servers| ==> Named(s.servers[i].location)
  }

  /** A reply that ends a registration does not accept it without a location. */
  predicate Answers(s: State, session: Session, m: Message) {
    var i := Taker(s, session, m, 0);
    && i < |s.transactions|
    && (IsFinishedBy(s.transactions[i], m) || (m.mtype == Rst && Acknowledges(s.transactions[i], m)))
    ==> !Nameless(s, s.transactions[i], Some(m))
  }

  predicate Naming(s: State, e: Event) { e.Packet? && !IsRequest(e.message) ==> Answers(s, e.session, e.message) }

  predicate AllAimed(s: State, events: seq<(Event, Env)>)
    decreases |events|
  {
    events == [] || (Aimed(s, events[0].0) && AllAimed(Apply(s, events[0].0, events[0].1), events[1..]))
  }

  predicate AllNaming(s: State, events: seq<(Event, Env)>)
    decreases |events|
  {
    events == [] || (Naming(s, events[0].0) && AllNaming(Apply(s, events[0].0, events[0].1), events[1..]))
  }

  // ---------- replies ----------

  /** The reply is taken, at a place where it finds the end of a registration with it or something else. */
  lemma ResponseSound(s: State, session: Session, m: Message, answers: bool, now: int)
    requires Sound(s)
    ensures Answers(s, session, m) ==> Sound(HandleResponse(s, session, m, answers, now, 0).0)
    ensures !Answers(s, session, m) ==> !Located(HandleResponse(s, session, m, answers, now, 0).0.servers)
  {
    hide Finish, Sound, Located, Takes, Nameless;
    var i := Taker(s, session, m, 0);
    PassesBy(s, session, m, answers, now, 0, i);
    if i < |s.transactions| {
      TakenSound(s, session, m, answers, now, i);
    }
  }

  lemma TakenSound(s: State, session: Session, m: Message, answers: bool, now: int, i: nat)
    requires Sound(s) && i < |s.transactions| && Takes(s, s.transactions[i], session, m)
    ensures var r := HandleResponse(s, session, m, answers, now, i).0;
            var t := s.transactions[i];
            if (IsFinishedBy(t, m) || (m.mtype == Rst && Acknowledges(t, m))) && Nameless(s, t, Some(m))
            then !Located(r.servers) else Sound(r)
  {
    hide Finish, Sound, Located, Handle, SessionOf;
    var t := s.transactions[i];
    var t1 := if Acknowledges(t, m) then t.(ackReceived := true) else t;
    var s1 := s.(transactions := s.transactions[i := t1]);
    var s2 := if m.mtype == Con && answers then Log(s1, Answered(session, 0)) else s1;
    var r := HandleResponse(s, session, m, answers, now, i).0;
    ReplaceSound(s, i, t1);
    SoundParts(s1);
    if s2 != s1 {
      LogSound(s1, s2, [Answered(session, 0)]);
    }
    SoundParts(s2);
    if r == Finish(s1, i, Some(m), now) {
      EndSound(s1, i, m, now);
    } else if r == Finish(s2, i, Some(m), now) {
      EndSound(s2, i, m, now);
    } else if IsFinishedBy(t1, m) {
      ReplaceSound(s2, i, r.transactions[i]);
    } else {
      ReplaceSound(s1, i, r.transactions[i]);
    }
  }

  lemma EndSound(s: State, i: nat, m: Message, now: int)
    requires Sound(s) && i < |s.transactions|
    ensures var r := Finish(s, i, Some(m), now);
            if Nameless(s, s.transactions[i], Some(m)) then !Located(r.servers) else Sound(r)
  {
    hide Handle, Sound, Located, Nameless;
    SoundParts(s);
    HandleLocated(s, s.transactions[i], Some(m), now);
    if !Nameless(s, s.transactions[i], Some(m)) {
      FinishSound(s, i, Some(m), now);
    }
  }

  lemma {:induction false} TakerReads(s: State, r: State, session: Session, m: Message, i: nat)
    requires r.transactions == s.transactions && r.servers == s.servers && i <= |s.transactions|
    ensures Taker(r, session, m, i) == Taker(s, session, m, i)
    decreases |s.transactions| - i
  {
    if i < |s.transactions| {
      TakerReads(s, r, session, m, i + 1);
    }
  }

  lemma PacketSound(s: State, session: Session, m: Message, env: Env)
    requires Sound(s) && !IsRequest(m)
    ensures var r := HandlePacket(s, session, m, env);
            if Answers(s, session, m) then Sound(r) else !Located(r.servers)
  {
    hide HandleResponse, Sound, Located, Taker, Nameless;
    var answers := m.mtype != Rst && m.mtype != Ack;
    var observed := if m.mtype == Rst then Observe.Cancel(s.observed, m.mid, ServersOf(s, session)) else s.observed;
    var s1 := s.(observed := observed);
    SoundParts(s);
    SoundParts(s1);
    TakerReads(s, s1, session, m, 0);
    NamelessReads(s, s1, m);
    ResponseSound(s1, session, m, answers, env.now);
    var s2 := HandleResponse(s1, session, m, answers, env.now, 0).0;
    if Sound(s2) {
      SoundParts(s2);
      LogSound(s2, Log(s2, Answered(session, 0)), [Answered(session, 0)]);
    }
  }

  lemma NamelessReads(s: State, r: State, m: Message)
    requires r.servers == s.servers
    ensures forall t :: Nameless(r, t, Some(m)) == Nameless(s, t, Some(m))
  {
  }

  // ---------- events ----------

  lemma EventSound(s: State, e: Event, env: Env)
    requires Sound(s) && Aimed(s, e) && Naming(s, e)
    ensures Sound(Apply(s, e, env))
  {
    hide Sound, Aimed, Answers, Step, HandleRequest, ValueChanged, Start, UpdateByShortId, DeregisterFrom,
      KeptBySend, KeptByServers, KeptByBootstrap;
    var inv := (r: State) => Sound(r);
    SoundIsKept(inv);
    assert inv(s);
    match e
    case Tick => StepKeeps(inv, s, env);
    case Packet(session, m) =>
      if IsRequest(m) {
        var s1 := if m.mtype == Con then s else Draw(s);
        assert inv(s1);
        var (s2, code) := HandleRequest(s1, session, m, env);
        assert inv(s2);
        SoundParts(s2);
        LogSound(s2, Log(s2, Answered(session, code)), [Answered(session, code)]);
      } else {
        PacketSound(s, session, m, env);
      }
    case Changed(uri) =>
    case StartAll => StartSound(s, env);
    case UpdateRegistration(shortID) => UpdateByShortIdSound(s, shortID, env);
    case DeregisterAll => DeregisterFromKeeps(inv, s, env.now, 0);
  }

  lemma UpdateByShortIdSound(s: State, shortID: uint16, env: Env)
    requires Sound(s) && Aimed(s, UpdateRegistration(shortID))
    ensures Sound(UpdateByShortId(s, shortID, env))
  {
    hide Sound, GetServers, UpdateServer;
    var i := FindShortId(s.servers, shortID);
    if s.servers == [] {
      GetServersSound(s, env);
    } else if i < |s.servers| {
      UpdateServerSound(s, i, env.now);
    }
  }

  /** The message is sent whether there is a location or not. */
  lemma MissedIsSent(s: State, e: Event, env: Env)
    requires !Aimed(s, e)
    ensures exists o | o in Apply(s, e, env).log ::
      o.Sent? && o.kind == Update && o.path == s.servers[FindShortId(s.servers, e.shortID)].location
  {
    hide SortedList.Insert, SortedList.Position, Handle, Send;
    var i := FindShortId(s.servers, e.shortID);
    var t := NewTransaction(s, Update, ManagementServer(i), env.now);
    InsertedAt(s.transactions, t);
    var s1 := s.(transactions := SortedList.Insert(s.transactions, t, Mid),
                 nextMID := (s.nextMID + 1) % 0x1_0000, drawn := s.drawn + 1, created := s.created + 1);
    var at := SortedList.Position(s.transactions, t, Mid);
    SendFrame(s1, at, env.now);
    var u := Transmit(t, env.now).0;
    var o := Sending(s1, u, env.now);
    HandleFrame(s1.(transactions := s1.transactions[at := u], log := s1.log + [o]), u, None, env.now);
    assert o in Send(s1, at, env.now).0.log && o.kind == Update && o.path == s.servers[i].location;
    assert Apply(s, e, env).log == Send(s1, at, env.now).0.log;
  }

  // ---------- runs ----------

  /** Who needs a location has one, and so has every message that was sent there. */
  predicate WellLocated(s: State) { Located(s.servers) && forall o | o in s.log :: Addressed(o) }

  lemma SoundIsWell(s: State)
    requires Sound(s)
    ensures WellLocated(s)
  {
  }

  lemma {:induction false} RunIsLocated(s: State, events: seq<(Event, Env)>)
    requires Sound(s)
    ensures Throughout(WellLocated, s, events) <==> AllAimed(s, events) && AllNaming(s, events)
    ensures AllNaming(s, events) ==> ((forall o | o in Run(s, events).log :: Addressed(o)) <==> AllAimed(s, events))
    decreases |events|
  {
    hide Apply, Sound, Aimed, Naming, Located, WellLocated;
    SoundIsWell(s);
    if events == [] {
      SoundParts(s);
    } else {
      var (e, env) := events[0];
      var s1 := Apply(s, e, env);
      if !Aimed(s, e) {
        MissedIsSent(s, e, env);
        var o :| o in s1.log && o.Sent? && o.kind == Update && !Named(o.path) by { MissedIsNamed(s, e); }
        SecurityIsolation.RunExtends(s1, events[1..]);
        assert o in Run(s, events).log[..|s1.log|] && !Addressed(o);
        NotWell(s1, o);
        assert !Throughout(WellLocated, s1, events[1..]);
      } else if Naming(s, e) {
        EventSound(s, e, env);
        RunIsLocated(s1, events[1..]);
      } else {
        NamelessIsUnlocated(s, e, env);
        assert !Throughout(WellLocated, s1, events[1..]);
      }
    }
  }

  lemma MissedIsNamed(s: State, e: Event)
    requires !Aimed(s, e)
    ensures e.UpdateRegistration? && FindShortId(s.servers, e.shortID) < |s.servers|
    ensures !Named(s.servers[FindShortId(s.servers, e.shortID)].location)
  {
  }

  lemma NotWell(s: State, o: Output)
    requires o in s.log && !Addressed(o)
    ensures !WellLocated(s)
  {
  }

  lemma NamelessIsUnlocated(s: State, e: Event, env: Env)
    requires Sound(s) && !Naming(s, e)
    ensures !WellLocated(Apply(s, e, env))
  {
    hide Sound, Located, Answers, HandlePacket;
    PacketSound(s, e.session, e.message, env);
  }

  /** In every run, each server that is registered, or waits for the answer to an update or a deregistration, has given
      a location, and each update and deregistration that was sent goes to one, all the time, if and only if each
      call of lwm2m_update_registration finds a server that has given one, or none at all, and no server accepts a
      registration without giving one. If no server does, it is the calls alone that decide what is sent where. */
  lemma EveryUpdateHasALocation(s: State, events: seq<(Event, Env)>)
    requires Initial(s)
    ensures (forall j | 0 <= j <= |events| :: WellLocated(Run(s, events[..j]))) <==>
      AllAimed(s, events) && AllNaming(s, events)
    ensures AllNaming(s, events) ==>
      ((forall o | o in Run(s, events).log :: o.Sent? && o.kind in {Update, Deregister} ==> Named(o.path))
       <==> AllAimed(s, events))
  {
    hide Run, AllAimed, AllNaming, WellLocated;
    ThroughoutMeans(WellLocated, s, events);
    RunIsLocated(s, events);
  }

  /** Without such calls there is nothing to ask for. */
  lemma {:induction false} PlainIsAimed(s: State, events: seq<(Event, Env)>)
    requires AllPlain(events)
    ensures AllAimed(s, events)
    decreases |events|
  {
    hide Apply;
    if events != [] {
      PlainIsAimed(Apply(s, events[0].0, events[0].1), events[1..]);
    }
  }

  // ---------- runs in which it goes wrong ----------

  predicate Unlocated(servers: seq<Server>) { forall v | v in servers :: v.location.None? }

  lemma {:induction false} GetFromUnlocated(s: State, entries: seq<SecurityEntry>)
    requires Unlocated(s.servers)
    ensures Unlocated(GetFrom(s, entries).0.servers)
    decreases entries
  {
    if entries != [] {
      match entries[0]
      case Unreadable =>
      case BootstrapEntry(inst, shortID, holdOff) =>
        var v := NewServer(inst, shortID, holdOff);
        GetFromUnlocated(s.(bsServers := SortedList.Insert(s.bsServers, v, SecInst)), entries[1..]);
      case ServerEntry(inst, shortID, lifetime) =>
        var v := NewServer(inst, shortID, lifetime);
        SortedList.InsertAt(s.servers, v, SecInst);
        GetFromUnlocated(s.(servers := SortedList.Insert(s.servers, v, SecInst)), entries[1..]);
    }
  }

  lemma StartUnlocated(s: State, env: Env)
    ensures Unlocated(Start(s, env).0.servers)
  {
    hide GetFrom, ReadEntries;
    var s1 := s.(transactions := [], log := s.log + DropAll(s.transactions, s.drawn), observed := [],
                 servers := [], bsServers := []);
    GetFromUnlocated(LogAll(s1, ServerReads(s, env)), Entries(s, env).0);
  }

  lemma {:induction false} FindShortIdIsFirst(servers: seq<Server>, shortID: uint16)
    ensures FindShortId(servers, shortID) < |servers| <==> exists v :: v in servers && v.shortID == shortID
  {
    if servers != [] && servers[0].shortID != shortID {
      FindShortIdIsFirst(servers[1..], shortID);
      if v :| v in servers && v.shortID == shortID {
        assert v in servers[1..];
      }
    }
  }

  /** A call right after a start, for any server that was read, sends an update that has no location to go to. */
  lemma UpdateAfterStart(s: State, env: Env, v: Server)
    requires v in Start(s, env).0.servers
    ensures var events := [(StartAll, env), (UpdateRegistration(v.shortID), env)];
            exists o | o in Run(s, events).log :: o.Sent? && o.kind == Update && o.path.None?
  {
    hide Start, UpdateByShortId;
    var e, s1 := UpdateRegistration(v.shortID), Start(s, env).0;
    StartUnlocated(s, env);
    FindShortIdIsFirst(s1.servers, v.shortID);
    MissedIsSent(s1, e, env);
    TwoEvents(s, (StartAll, env), (e, env));
  }

  /** There is such a run: the three objects that lwm2m_configure asks for, and one server that can be read. */
  lemma UpdateToNowhere() returns (s: State, events: seq<(Event, Env)>)
    ensures Initial(s) && !AllAimed(s, events)
    ensures exists o | o in Run(s, events).log :: o.Sent? && o.kind == Update && o.path.None?
  {
    hide Run, AllAimed;
    s := Configured();
    events := [(StartAll, At(0)), (UpdateRegistration(1), At(0))];
    Started();
    UpdateAfterStart(s, At(0), NewServer(0, 1, 60));
    EveryUpdateHasALocation(s, events);
    assert AllNaming(s, events) by { NoPackets(s, events[0], events[1]); }
  }

  lemma NoPackets(s: State, a: (Event, Env), b: (Event, Env))
    requires !a.0.Packet? && !b.0.Packet?
    ensures AllNaming(s, [a, b])
  {
    hide Apply, Answers;
    assert [a, b][1..] == [b] && [b][1..] == [];
    assert AllNaming(Apply(s, a.0, a.1), [b]);
  }

  /** Without any call an update goes nowhere too: the server has accepted the registration without a location, and the
      update is due. */
  lemma UpdateToEmpty() returns (s: State, events: seq<(Event, Env)>)
    ensures Initial(s) && AllPlain(events) && !AllNaming(s, events)
    ensures exists o | o in Run(s, events).log :: o.Sent? && o.kind == Update && o.path == Some("")
  {
    hide Run, AllNaming, Step, HandlePacket, Start;
    s := Configured();
    var accept := Message(Ack, CREATED, 0, [0, 0, 0, 0], [], false, [], []);
    var before: seq<(Event, Env)> := [(StartAll, At(0)), (Tick, At(0)), (Packet(7, accept), At(0))];
    events := before + [(Tick, At(45))];
    var s1 := Start(s, At(0)).0;
    Started();
    FirstTick(s1, 0);
    var s2 := Step(s1, At(0));
    Accepted(s2, accept);
    var s3 := HandlePacket(s2, 7, accept, At(0));
    UpdateIsDue(s3);
    FourEvents(s, events);
    EachIsPlain(events);
    EveryUpdateHasALocation(s, events);
    PlainIsAimed(s, events);
  }

  lemma {:induction false} EachIsPlain(events: seq<(Event, Env)>)
    requires forall i | 0 <= i < |events| :: Plain(events[i].0)
    ensures AllPlain(events)
  {
    if events != [] {
      EachIsPlain(events[1..]);
    }
  }
}
