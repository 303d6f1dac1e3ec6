/** What a step sends to the servers, and when: registrations, updates and bootstrap requests. */
module Updating {
  import opened Bootstrapping
  import opened Core
  import opened Client
  import opened ClientFacts
  import opened Engine
  import SortedList

  // ---------- registrations and updates ----------

  /** The server is not registered with, nor is a registration under way: it never was, or it failed and the lifetime
      is over, while some server is registered or there is none to bootstrap from. What is to be sent fits, and there is
      a session, or one can be opened. */
  predicate NeedsRegistration(s: State, env: Env, i: nat)
    requires i < |s.servers|
  {
    var v := s.servers[i];
    && v.secInst !in env.refused && (v.session.Some? || v.secInst in env.connect)
    && (v.status == Deregistered
        || (v.status == RegFailed && env.now >= v.registration + v.lifetime
            && (s.bsServers == [] || exists j | 0 <= j < |s.servers| :: s.servers[j].status == Registered)))
  }

  /** The lifetime is over, or will be within 15 seconds if it is longer than 30. */
  predicate NeedsUpdate(s: State, now: int, i: nat)
    requires i < |s.servers|
  {
    var v := s.servers[i];
    v.status == Registered && now >= v.registration + if v.lifetime > 30 then v.lifetime - 15 else v.lifetime
  }

  /** The messages to the servers from the i-th on, one after the other: the first transaction is numbered `serial`. */
  function Messages(s: State, env: Env, i: nat, serial: nat): seq<Output>
    decreases |s.servers| - i
  {
    if i >= |s.servers| then []
    else
      var v := s.servers[i];
      if NeedsRegistration(s, env, i) then
        [Sent(serial, Register, ManagementServer(i), SessionWith(v, env), Some("/rd"), env.now)]
        + Messages(s, env, i + 1, serial + 1)
      else if NeedsUpdate(s, env.now, i) then
        [Sent(serial, Update, ManagementServer(i), v.session, v.location, env.now)]
        + Messages(s, env, i + 1, serial + 1)
      else Messages(s, env, i + 1, serial)
  }

  /** The server that gets one waits for the answer. */
  function Awaiting(s: State, env: Env, i: nat): Server
    requires i < |s.servers|
  {
    var v := s.servers[i];
    if NeedsRegistration(s, env, i) then v.(session := SessionWith(v, env), status := RegPending)
    else if NeedsUpdate(s, env.now, i) then v.(status := RegUpdatePending)
    else v
  }

  lemma Round(a: State, s: State, env: Env, i: nat)
    requires env.now >= 0 && i < |s.servers| == |a.servers| && s.servers[i] == a.servers[i]
    requires s.bsServers == a.bsServers
    ensures var r := UpdateOne(s, env, AnyRegistered(a.servers), i);
            && r.servers == s.servers[i := Awaiting(a, env, i)]
            && r.bsServers == s.bsServers && r.bsState == s.bsState && r.bsStart == s.bsStart
            && (if NeedsRegistration(a, env, i) then
                  r.created == s.created + 1 &&
                  r.log == s.log + [Sent(s.created, Register, ManagementServer(i), SessionWith(a.servers[i], env),
                                         Some("/rd"), env.now)]
                else if NeedsUpdate(a, env.now, i) then
                  r.created == s.created + 1 &&
                  r.log == s.log + [Sent(s.created, Update, ManagementServer(i), a.servers[i].session,
                                         a.servers[i].location, env.now)]
                else r.created == s.created && r.log == s.log)
  {
    hide Begin;
    var v := s.servers[i];
    var s1 := s.(servers := s.servers[i := v.(session := Connected(v.session, v.secInst, env))]);
    BeginSends(s1, Register, ManagementServer(i), env.now);
    BeginSends(s, Update, ManagementServer(i), env.now);
    assert s.servers[i := v] == s.servers;
  }

  /** The loop over the servers sends exactly these messages and leaves each server as it should be. */
  lemma {:induction false} LoopSends(a: State, s: State, env: Env, i: nat)
    requires env.now >= 0 && i <= |s.servers| == |a.servers| && s.bsServers == a.bsServers
    requires forall j | i <= j < |a.servers| :: s.servers[j] == a.servers[j]
    ensures var r := UpdateFrom(s, env, AnyRegistered(a.servers), i);
            && r.log == s.log + Messages(a, env, i, s.created)
            && |r.servers| == |a.servers|
            && r.bsServers == s.bsServers && r.bsState == s.bsState && r.bsStart == s.bsStart
            && (forall j | 0 <= j < i :: r.servers[j] == s.servers[j])
            && (forall j | i <= j < |a.servers| :: r.servers[j] == Awaiting(a, env, j))
            && r.created == s.created + |Messages(a, env, i, s.created)|
    decreases |s.servers| - i
  {
    hide UpdateOne, NeedsRegistration, NeedsUpdate, AnyRegistered, Awaiting;
    if i < |s.servers| {
      Round(a, s, env, i);
      var s1 := UpdateOne(s, env, AnyRegistered(a.servers), i);
      LoopSends(a, s1, env, i + 1);
    }
  }

  // ---------- a step ----------

  /** While a bootstrap is held off, under way, over or failed, a step leaves the servers alone. */
  predicate Busy(s: State) { s.bsState in {ClientHoldOff, Pending, Finished, Failed} }

  /** Once the transactions are dealt with, a step sends just these messages, in this order, and bootstrap requests
      behind them. Every server that gets one waits for the answer, and the others stay as they are. */
  lemma StepSends(s: State, env: Env)
    requires env.now >= 0
    ensures var s1, r := StepTransactions(s, 0, env.now), Step(s, env);
            var sent := if Busy(s1) then [] else Messages(s1, env, 0, s1.created);
            && s1.log + sent <= r.log
            && (forall o | o in r.log[|s1.log + sent|..] :: o.Sent? ==> o.kind == Bootstrap)
            && (!Busy(s1) ==> |r.servers| == |s1.servers|)
            && (!Busy(s1) ==> forall i | 0 <= i < |s1.servers| :: r.servers[i] == Awaiting(s1, env, i))
  {
    hide StepTransactions, UpdateFrom, UpdateBootstrapState, AnyRegistered, Awaiting, Messages;
    var s1 := StepTransactions(s, 0, env.now);
    if Busy(s1) {
      assert s1.log + [] == s1.log;
      RestOfStep(s1, env);
    } else {
      LoopSends(s1, s1, env, 0);
      RestOfStep(RegistrationUpdate(s1, env), env);
    }
  }

  /** A message of this kind to server i. */
  predicate SendsTo(o: Output, kind: Kind, i: nat) { o.Sent? && o.kind == kind && o.peer == ManagementServer(i) }

  /** Some of the messages is of this kind and goes to server i. */
  predicate Reaches(sent: seq<Output>, kind: Kind, i: nat) { exists o | o in sent :: SendsTo(o, kind, i) }

  lemma ReachesCons(o: Output, rest: seq<Output>, kind: Kind, i: nat)
    ensures Reaches([o] + rest, kind, i) <==> SendsTo(o, kind, i) || Reaches(rest, kind, i)
  {
    hide SendsTo;
    var all := [o] + rest;
    assert forall x :: x in all <==> x == o || x in rest;
  }

  lemma {:induction false} MessagesAreDue(s: State, env: Env, from: nat, serial: nat, i: nat)
    requires i < |s.servers|
    ensures Reaches(Messages(s, env, from, serial), Register, i) <==> from <= i && NeedsRegistration(s, env, i)
    ensures Reaches(Messages(s, env, from, serial), Update, i) <==> from <= i && NeedsUpdate(s, env.now, i)
    decreases |s.servers| - from
  {
    hide NeedsRegistration, NeedsUpdate, Reaches;
    NothingReaches(i);
    if from < |s.servers| {
      NotBoth(s, env, from);
      MessagesAreDue(s, env, from + 1, serial, i);
      MessagesAreDue(s, env, from + 1, serial + 1, i);
      var all := Messages(s, env, from, serial);
      if NeedsRegistration(s, env, from) || NeedsUpdate(s, env.now, from) {
        var rest := Messages(s, env, from + 1, serial + 1);
        assert all == [all[0]] + rest;
        ReachesCons(all[0], rest, Register, i);
        ReachesCons(all[0], rest, Update, i);
      }
    }
  }

  lemma NothingReaches(i: nat)
    ensures !Reaches([], Register, i) && !Reaches([], Update, i)
  {
  }

  lemma NotBoth(s: State, env: Env, i: nat)
    requires i < |s.servers|
    ensures !(NeedsRegistration(s, env, i) && NeedsUpdate(s, env.now, i))
  {
  }

  /** Whatever the step before, once the transactions are dealt with and unless the client bootstraps, a step sends a
      registration to a server if and only if it needs one, and an update if and only if it needs one. The server then
      waits for the answer, and is as it was if it gets neither. */
  lemma EachGetsWhatItNeeds(s: State, env: Env, i: nat)
    requires env.now >= 0 && i < |StepTransactions(s, 0, env.now).servers|
    ensures var s1, r := StepTransactions(s, 0, env.now), Step(s, env);
            && s1.log <= r.log
            && (Reaches(r.log[|s1.log|..], Register, i) <==> !Busy(s1) && NeedsRegistration(s1, env, i))
            && (Reaches(r.log[|s1.log|..], Update, i) <==> !Busy(s1) && NeedsUpdate(s1, env.now, i))
            && (!Busy(s1) ==> i < |r.servers|)
            && (!Busy(s1) ==> r.servers[i].status == if NeedsRegistration(s1, env, i) then RegPending
                                                     else if NeedsUpdate(s1, env.now, i) then RegUpdatePending
                                                     else s1.servers[i].status)
  {
    hide StepTransactions, Step, Messages, NeedsRegistration, NeedsUpdate;
    NothingReaches(i);
    var s1, r := StepTransactions(s, 0, env.now), Step(s, env);
    var sent := if Busy(s1) then [] else Messages(s1, env, 0, s1.created);
    StepSends(s, env);
    MessagesAreDue(s1, env, 0, s1.created, i);
    Parts(s1.log, sent, r.log);
  }

  lemma Parts(a: seq<Output>, b: seq<Output>, c: seq<Output>)
    requires a + b <= c
    ensures a <= c && c[|a|..] == b + c[|a + b|..]
  {
    assert c == a + b + c[|a + b|..];
  }

  /** A bootstrap is asked for by a step that finds every server failed and a bootstrap server known, unless one is
      already asked for or initiated; otherwise the step leaves the bootstrap state as it is. */
  lemma BootstrapIsAskedFor(s: State, env: Env)
    requires env.now >= 0 && StepTransactions(s, 0, env.now).bsState in {NotBootstrapped, Bootstrapped}
    ensures var s1, r := StepTransactions(s, 0, env.now), Step(s, env);
            if s1.bsServers != [] && forall i | 0 <= i < |s1.servers| :: s1.servers[i].status == RegFailed
            then r.bsState in {ClientHoldOff, Initiated} && (r.bsState == ClientHoldOff ==> r.bsStart == env.now)
            else r.bsState == s1.bsState
  {
    hide StepTransactions, UpdateFrom, UpdateBootstrapState, AnyRegistered, Awaiting, Messages, Requests;
    var s1 := StepTransactions(s, 0, env.now);
    LoopSends(s1, s1, env, 0);
    var s2 := RegistrationUpdate(s1, env);
    if s2.bsState == Requested {
      AfterTheHoldOff(s2, env);
      RequestsAreSent(s2, s2.(bsState := ClientHoldOff, bsStart := env.now), env, 0);
    } else {
      OtherwiseNothing(s2, env);
    }
  }

  // ---------- what the application asks for ----------

  /** It has been registered with and has given a location. */
  predicate CanDeregister(v: Server) {
    (v.status == Registered || v.status == RegUpdatePending) && v.location.Some?
  }

  /** One deregistration for each such server from the i-th on. Without a clock it is given up at once. */
  function Deregistrations(s: State, now: int, i: nat, serial: nat): seq<Output>
    decreases |s.servers| - i
  {
    if i >= |s.servers| then []
    else if !CanDeregister(s.servers[i]) then Deregistrations(s, now, i + 1, serial)
    else
      var v := s.servers[i];
      [Sent(serial, Deregister, ManagementServer(i), v.session, v.location, now)]
      + (if now < 0 then [Ended(serial, Deregister, 0, None)] else [])
      + Deregistrations(s, now, i + 1, serial + 1)
  }

  /** Without a clock a transaction that begins is sent, and over. */
  lemma BeginFails(s: State, kind: Kind, peer: Peer, now: int)
    requires now < 0 && kind in {Update, Deregister} && peer.ManagementServer? && peer.index < |s.servers|
    ensures var (r, live) := Begin(s, kind, peer, now);
            && !live && r.created == s.created + 1
            && (s.servers[peer.index].status != (if kind == Update then RegUpdatePending else DeregPending) ==>
                  r.servers == s.servers)
            && r.log == s.log + [Sent(s.created, kind, peer, SessionOf(s, peer), Destination(s, kind, peer), now)]
                              + [Ended(s.created, kind, 0, None)]
  {
    hide SortedList.Insert, SortedList.Position, Destination;
    InsertedAt(s.transactions, NewTransaction(s, kind, peer, now));
  }

  /** lwm2m_deregister sends exactly these, and each of these servers waits for the answer if one can come. */
  lemma {:induction false} DeregistersEach(a: State, s: State, now: int, i: nat)
    requires i <= |s.servers| == |a.servers|
    requires forall j | i <= j < |a.servers| :: s.servers[j] == a.servers[j]
    ensures var r := DeregisterFrom(s, now, i);
            && r.log == s.log + Deregistrations(a, now, i, s.created)
            && |r.servers| == |a.servers|
            && (forall j | 0 <= j < i :: r.servers[j] == s.servers[j])
            && (forall j | i <= j < |a.servers| ::
                  r.servers[j] == if CanDeregister(a.servers[j]) && now >= 0
                                  then a.servers[j].(status := DeregPending) else a.servers[j])
    decreases |s.servers| - i
  {
    hide Begin;
    if i < |s.servers| {
      if CanDeregister(s.servers[i]) {
        if now < 0 {
          BeginFails(s, Deregister, ManagementServer(i), now);
        } else {
          BeginSends(s, Deregister, ManagementServer(i), now);
        }
      }
      var s1 := DeregisterServer(s, now, i);
      DeregistersEach(a, s1, now, i + 1);
    }
  }

  /** The first server with the short identifier. */
  predicate FirstOf(servers: seq<Server>, shortID: uint16, i: nat) {
    i < |servers| && servers[i].shortID == shortID && forall j | 0 <= j < i :: servers[j].shortID != shortID
  }

  lemma {:induction false} FindShortIdIs(servers: seq<Server>, shortID: uint16)
    ensures var i := FindShortId(servers, shortID);
            if i < |servers| then FirstOf(servers, shortID, i) else forall v | v in servers :: v.shortID != shortID
  {
    if servers != [] && servers[0].shortID != shortID {
      FindShortIdIs(servers[1..], shortID);
      assert forall i | 0 < i < |servers| :: servers[i] == servers[1..][i - 1];
    }
  }

  /** lwm2m_update_registration sends an update to the first server with the short identifier, whatever its status, and
      that server waits for the answer, unless there is no clock and the update is given up at once. It does nothing if
      there is no such server, while others are known. */
  lemma CallUpdatesOne(s: State, shortID: uint16, env: Env)
    requires s.servers != []
    ensures var r := UpdateByShortId(s, shortID, env);
            && (forall i: nat | FirstOf(s.servers, shortID, i) ::
                  && (env.now >= 0 ==> r.servers == s.servers[i := s.servers[i].(status := RegUpdatePending)])
                  && r.log == s.log + [Sent(s.created, Update, ManagementServer(i), s.servers[i].session,
                                            s.servers[i].location, env.now)]
                                    + if env.now < 0 then [Ended(s.created, Update, 0, None)] else [])
            && ((forall v | v in s.servers :: v.shortID != shortID) ==> r == s)
  {
    hide Begin;
    FindShortIdIs(s.servers, shortID);
    var i := FindShortId(s.servers, shortID);
    if i < |s.servers| {
      if env.now < 0 {
        BeginFails(s, Update, ManagementServer(i), env.now);
      } else {
        BeginSends(s, Update, ManagementServer(i), env.now);
      }
    }
  }
}
