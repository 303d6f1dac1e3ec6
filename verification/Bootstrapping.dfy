/** What a step does about the bootstrap: when it is asked for, and what follows. */
module Bootstrapping {
  import opened Core
  import opened Client
  import opened ClientFacts
  import SortedList

  function SessionWith(v: Server, env: Env): Option<Session> {
    if v.session.None? && v.secInst in env.connect then Some(env.connect[v.secInst]) else v.session
  }

  /** A transaction that begins while there is time is sent at once, and stays. */
  lemma BeginSends(s: State, kind: Kind, peer: Peer, now: int)
    requires now >= 0
    ensures var (r, live) := Begin(s, kind, peer, now);
            && live
            && r == s.(transactions := r.transactions, nextMID := r.nextMID, drawn := r.drawn,
                       created := s.created + 1,
                       log := s.log + [Sent(s.created, kind, peer, SessionOf(s, peer), Destination(s, kind, peer),
                                            now)])
  {
    hide SortedList.Insert, SortedList.Position, Destination, Handle;
    InsertedAt(s.transactions, NewTransaction(s, kind, peer, now));
  }

  /** One request for each bootstrap server from the i-th on that has a session, or gets one. The first transaction is
      numbered `serial`. */
  function Requests(s: State, env: Env, i: nat, serial: nat): seq<Output>
    decreases |s.bsServers| - i
  {
    if i >= |s.bsServers| then []
    else
      var session := SessionWith(s.bsServers[i], env);
      if session.None? then Requests(s, env, i + 1, serial)
      else [Sent(serial, Bootstrap, BootstrapServer(session.value), session, Some("/bs"), env.now)]
           + Requests(s, env, i + 1, serial + 1)
  }

  function WithSession(v: Server, env: Env): Server { v.(session := SessionWith(v, env)) }

  /** One round of the loop. */
  lemma RequestIsSent(s: State, env: Env, i: nat)
    requires env.now >= 0 && i < |s.bsServers|
    ensures var r, session := InitiateOne(s, env, i), SessionWith(s.bsServers[i], env);
            && r.servers == s.servers && r.bsServers == s.bsServers[i := WithSession(s.bsServers[i], env)]
            && if session.None? then
                 r.log == s.log && r.created == s.created && r.bsState == s.bsState && r.bsStart == s.bsStart
               else
                 && r.log == s.log + [Sent(s.created, Bootstrap, BootstrapServer(session.value), session, Some("/bs"),
                                           env.now)]
                 && r.created == s.created + 1 && r.bsState == Initiated && r.bsStart == env.now
  {
    hide Begin;
    var v := s.bsServers[i];
    var session := Connected(v.session, v.secInst, env);
    if session.Some? {
      var s1 := s.(bsServers := s.bsServers[i := v.(session := session)]);
      BeginSends(s1, Bootstrap, BootstrapServer(session.value), env.now);
    }
  }

  /** bootstrap_initiating_request asks every bootstrap server that can be reached, and has initiated the bootstrap if
      there is one. */
  lemma {:induction false} RequestsAreSent(a: State, s: State, env: Env, i: nat)
    requires env.now >= 0 && i <= |s.bsServers| == |a.bsServers|
    requires forall j | i <= j < |a.bsServers| :: s.bsServers[j] == a.bsServers[j]
    ensures var r, sent := InitiateFrom(s, env, i), Requests(a, env, i, s.created);
            && r.log == s.log + sent && r.servers == s.servers && |r.bsServers| == |a.bsServers|
            && (forall j | 0 <= j < i :: r.bsServers[j] == s.bsServers[j])
            && (forall j | i <= j < |a.bsServers| :: r.bsServers[j] == WithSession(a.bsServers[j], env))
            && (if sent == [] then r.bsState == s.bsState && r.bsStart == s.bsStart
                else r.bsState == Initiated && r.bsStart == env.now)
    decreases |s.bsServers| - i
  {
    hide InitiateOne, SessionWith, WithSession;
    if i < |s.bsServers| {
      RequestIsSent(s, env, i);
      RequestsAreSent(a, InitiateOne(s, env, i), env, i + 1);
    }
  }

  // ---------- deadlines ----------

  /** The difference in 32 bits: within 2^31 seconds it is the difference itself. */
  lemma DifferenceIs(x: int)
    ensures -0x8000_0000 <= Int32(x) < 0x8000_0000 && (x - Int32(x)) % 0x1_0000_0000 == 0
    ensures -0x8000_0000 <= x < 0x8000_0000 ==> Int32(x) == x
  {
  }

  /** The time is not before the deadline, as far as 32 bits tell. */
  predicate Reached(deadline: int, now: int) { Int32(deadline - now) <= 0 }

  /** The first bootstrap server says how long to hold off. */
  function HoldOff(s: State): nat
    requires s.bsServers != []
  {
    s.bsServers[0].lifetime
  }

  /** A bootstrap that was asked for is held off from now on. After the hold-off time every bootstrap server that can be
      reached is asked, and the bootstrap is initiated if there is one; it fails if none is known. */
  lemma AfterTheHoldOff(s: State, env: Env)
    requires s.bsState in {Requested, ClientHoldOff} && env.now >= 0
    ensures var r := UpdateBootstrapState(s, env);
            var since := if s.bsState == Requested then env.now else s.bsStart;
            if s.bsServers == [] then r == s.(bsState := Failed, bsStart := env.now)
            else if !Reached(since + HoldOff(s), env.now) then r == s.(bsState := ClientHoldOff, bsStart := since)
            else
              var sent := Requests(s, env, 0, s.created);
              && r.log == s.log + sent && r.servers == s.servers
              && r.bsState == (if sent == [] then ClientHoldOff else Initiated)
              && r.bsStart == if sent == [] then since else env.now
  {
    hide InitiateFrom, Requests;
    var s0 := if s.bsState == Requested then s.(bsState := ClientHoldOff, bsStart := env.now) else s;
    RequestsAreSent(s, s0, env, 0);
  }

  /** A bootstrap server has DEFAULT_MAX_AGE seconds for its next request; then the bootstrap is over. */
  lemma AfterTheLastRequest(s: State, env: Env)
    requires s.bsState == Pending
    ensures UpdateBootstrapState(s, env) ==
            if Reached(s.bsStart + DEFAULT_MAX_AGE, env.now) then s.(bsState := Finished, bsStart := env.now) else s
  {
  }

  /** After a bootstrap the servers are read anew. The client is bootstrapped if that succeeds; else it has failed, and
      will try again after the hold-off time of the first bootstrap server that was read before the failure. */
  lemma AfterTheBootstrap(s: State, env: Env)
    requires s.bsState == Finished
    ensures var r := UpdateBootstrapState(s, env);
            var (s1, ok) := Start(s.(bsStart := env.now), env);
            if ok then r == s1.(bsState := Bootstrapped)
            else if s1.bsServers != [] && Reached(env.now + HoldOff(s1), env.now)
            then r == s1.(bsState := NotBootstrapped, bsStart := env.now)
            else r == s1.(bsState := Failed, bsStart := env.now)
  {
    hide Start;
    var (s1, ok) := Start(s.(bsStart := env.now), env);
    assert s1.bsState == Finished by { StartFrame(s.(bsStart := env.now), env); }
  }

  /** A failed bootstrap may be asked for again when the hold-off time has passed. */
  lemma AfterAFailure(s: State, env: Env)
    requires s.bsState == Failed
    ensures UpdateBootstrapState(s, env) ==
            if s.bsServers != [] && Reached(s.bsStart + HoldOff(s), env.now)
            then s.(bsState := NotBootstrapped, bsStart := env.now) else s
  {
  }

  /** In any other state a step leaves the bootstrap alone. */
  lemma OtherwiseNothing(s: State, env: Env)
    requires s.bsState in {NotBootstrapped, Initiated, Bootstrapped}
    ensures UpdateBootstrapState(s, env) == s
  {
  }

  // ---------- nothing else ----------

  /** The log has grown, by no other messages than bootstrap requests. */
  predicate OnlyRequests(s: State, r: State) {
    s.log <= r.log && forall o | o in r.log[|s.log|..] :: o.Sent? ==> o.kind == Bootstrap
  }

  lemma {:induction false} RequestsAreRequests(s: State, env: Env, i: nat, serial: nat)
    ensures forall o | o in Requests(s, env, i, serial) :: o.Sent? && o.kind == Bootstrap
    decreases |s.bsServers| - i
  {
    if i < |s.bsServers| {
      RequestsAreRequests(s, env, i + 1, serial);
      RequestsAreRequests(s, env, i + 1, serial + 1);
    }
  }

  lemma Appended(s: State, r: State, more: seq<Output>)
    requires r.log == s.log + more && forall o | o in more :: o.Sent? ==> o.kind == Bootstrap
    ensures OnlyRequests(s, r)
  {
    assert r.log[|s.log|..] == more;
  }

  lemma SameLogs(b: State, a: State, s: State, r: State)
    requires OnlyRequests(b, a) && s.log == b.log && r.log == a.log
    ensures OnlyRequests(s, r)
  {
  }

  lemma StartOnlyReads(s: State, env: Env)
    ensures OnlyRequests(s, Start(s, env).0)
  {
    hide Start, DropAll, ServerReads;
    StartFrame(s, env);
    DropsOnly(s.transactions, s.drawn);
    Appended(s, Start(s, env).0, DropAll(s.transactions, s.drawn) + ServerReads(s, env));
  }

  /** The rest of a step sends no other messages, and only after a bootstrap it touches the management servers. */
  lemma RestOfStep(s: State, env: Env)
    requires env.now >= 0
    ensures OnlyRequests(s, UpdateBootstrapState(s, env))
    ensures s.bsState != Finished ==> UpdateBootstrapState(s, env).servers == s.servers
  {
    hide UpdateBootstrapState, Start, Requests, Reached, OnlyRequests;
    var r := UpdateBootstrapState(s, env);
    assert s.log + [] == s.log;
    match s.bsState
    case Requested | ClientHoldOff =>
      AfterTheHoldOff(s, env);
      RequestsAreRequests(s, env, 0, s.created);
      Appended(s, r, if r.log == s.log then [] else Requests(s, env, 0, s.created));
    case Pending =>
      AfterTheLastRequest(s, env);
      Appended(s, r, []);
    case Finished =>
      AfterTheBootstrap(s, env);
      StartOnlyReads(s.(bsStart := env.now), env);
      SameLogs(s.(bsStart := env.now), Start(s.(bsStart := env.now), env).0, s, r);
    case Failed =>
      AfterAFailure(s, env);
      Appended(s, r, []);
    case _ =>
      OtherwiseNothing(s, env);
      Appended(s, r, []);
  }
}
