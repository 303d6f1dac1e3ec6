/** While the client bootstraps, it registers nowhere. */
module BootstrapExclusion {
  import opened Core
  import opened Client
  import opened Management
  import opened Engine
  import opened ClientFacts
  import opened ManagementFacts
  import opened Induction
  import opened Registering
  import opened BootstrapFacts
  import Observe

  /** Outside a bootstrap, updating the registrations starts none. */
  lemma {:induction false} UpdateFromStartsNone(s: State, env: Env, anyRegistered: bool, j: nat)
    requires NoBootstrap(s)
    ensures NoBootstrap(UpdateFrom(s, env, anyRegistered, j))
    decreases |s.servers| - j
  {
    hide Begin, Count;
    if j < |s.servers| {
      var v := s.servers[j];
      var s1 := s.(servers := s.servers[j := v.(session := Connected(v.session, v.secInst, env))]);
      BeginKeeps(s1, Register, ManagementServer(j), env.now, 0);
      BeginKeeps(s, Update, ManagementServer(j), env.now, 0);
      UpdateFromStartsNone(UpdateOne(s, env, anyRegistered, j), env, anyRegistered, j + 1);
    }
  }

  /** With every server failed and a bootstrap server at hand, nothing is registered again. */
  lemma {:induction false} UpdateFromIsIdle(s: State, env: Env, j: nat)
    requires AllFailed(s.servers) && s.bsServers != []
    ensures UpdateFrom(s, env, false, j) == s
    decreases |s.servers| - j
  {
    if j < |s.servers| {
      UpdateFromIsIdle(s, env, j + 1);
    }
  }

  lemma {:induction false} DeregisterFromKeepsBoth(s: State, now: int, j: nat, n: nat)
    ensures Keeps(s, DeregisterFrom(s, now, j), n)
    decreases |s.servers| - j
  {
    hide Begin, Count;
    if j < |s.servers| {
      BeginKeeps(s, Deregister, ManagementServer(j), now, n);
      DeregisterFromKeepsBoth(DeregisterServer(s, now, j), now, j + 1, n);
    }
  }

  lemma {:induction false} InitiateFromIsQuiet(s: State, env: Env, j: nat, n: nat)
    requires s.bsServers != [] && Quiet(s, n)
    ensures Quiet(InitiateFrom(s, env, j), n) && InitiateFrom(s, env, j).bsServers != []
    decreases |s.bsServers| - j
  {
    hide Begin, Count;
    if j < |s.bsServers| {
      var v := s.bsServers[j];
      var session := Connected(v.session, v.secInst, env);
      var s1 := s.(bsServers := s.bsServers[j := v.(session := session)]);
      if session.Some? {
        BeginKeeps(s1, Bootstrap, BootstrapServer(session.value), env.now, n);
      }
      InitiateFromIsQuiet(InitiateOne(s, env, j), env, j + 1, n);
    }
  }

  /** Without a bootstrap, or quiet with n registrations sent. */
  predicate Either(s: State, n: nat) { NoBootstrap(s) || Quiet(s, n) }

  /** No transaction stays, nothing is registered, and if no server could be read then none is known. */
  lemma StartIsSilent(s: State, env: Env)
    requires s.servers != [] || s.bsServers != []
    ensures var (r, ok) := Start(s, env);
            && r.transactions == [] && r.bsState == s.bsState
            && Tally(r.log, RegisterSent) == Tally(s.log, RegisterSent)
            && (!ok ==> r.servers == [] && r.bsServers == [])
  {
    hide Tally, GetFrom;
    StartFrame(s, env);
    TallyDropped(s.transactions, s.drawn, 0);
    StartTally(s, env, RegisterSent);
  }

  lemma PendingKeeps(s: State, env: Env, n: nat)
    requires Quiet(s, n)
    ensures Tally(UpdatePending(s, env).log, RegisterSent) == n && Either(UpdatePending(s, env), n)
  {
    hide Start;
    if s.bsState == Finished {
      StartIsSilent(s.(bsStart := env.now), env);
    }
  }

  lemma HoldOffKeeps(s: State, env: Env, n: nat)
    requires Quiet(s, n)
    ensures Quiet(UpdateHoldOff(s, env), n)
  {
    hide InitiateFrom;
    var s0 := if s.bsState == Requested then s.(bsState := ClientHoldOff, bsStart := env.now) else s;
    if s0.bsState == ClientHoldOff {
      InitiateFromIsQuiet(s0, env, 0, n);
    }
  }

  lemma BootstrapStateIsQuiet(s: State, env: Env, n: nat)
    requires Quiet(s, n)
    ensures Tally(UpdateBootstrapState(s, env).log, RegisterSent) == n && Either(UpdateBootstrapState(s, env), n)
  {
    hide UpdateHoldOff, UpdatePending, Count, Tally;
    HoldOffKeeps(s, env, n);
    PendingKeeps(UpdateHoldOff(s, env), env, n);
  }

  /** A step that begins during a bootstrap registers nowhere. */
  lemma StepKeepsQuiet(s: State, env: Env, n: nat)
    requires Quiet(s, n) && !NoBootstrap(s)
    ensures Tally(Step(s, env).log, RegisterSent) == n && Either(Step(s, env), n)
  {
    hide StepTransactions, UpdateFrom, UpdateBootstrapState, Count, Tally;
    if env.now >= 0 {
      var s1 := StepTransactions(s, 0, env.now);
      StepTransactionsKeepBoth(s, env.now, n);
      if s1.bsState in {ClientHoldOff, Pending, Finished, Failed} {
        BootstrapStateIsQuiet(s1, env, n);
      } else {
        NeverRegistered(s1.servers);
        UpdateFromIsIdle(s1, env, 0);
        BootstrapStateIsQuiet(RegistrationUpdate(s1, env), env, n);
      }
    }
  }

  lemma NeverRegistered(servers: seq<Server>)
    requires AllFailed(servers)
    ensures !AnyRegistered(servers)
  {
  }

  /** With every server failed, no registration is under way. */
  lemma FailedIsQuiet(s: State)
    requires AllFailed(s.servers) && forall p: Pick :: Held(s, p)
    ensures Count(s.transactions, AnyOf(Register)) == 0
  {
    CountMember(s.transactions, AnyOf(Register));
    if Count(s.transactions, AnyOf(Register)) > 0 {
      var j :| 0 <= j < |s.transactions| && Picks(AnyOf(Register), s.transactions[j]);
      var p := if s.transactions[j].peer.ManagementServer? then OfKind(Register, s.transactions[j].peer.index)
               else Misdirected;
      assert Held(s, p) && Picks(p, s.transactions[j]);
      CountMember(s.transactions, p);
    }
  }

  /** A bootstrap is asked for only when every server has failed. */
  lemma StepStartsQuiet(s: State, env: Env)
    requires NoBootstrap(s) && forall p: Pick :: Held(s, p)
    ensures var r := Step(s, env); Either(r, Tally(r.log, RegisterSent))
  {
    hide StepTransactions, UpdateFrom, UpdateBootstrapState, Count, Tally, Held;
    if env.now >= 0 {
      var s1 := StepTransactions(s, 0, env.now);
      StepTransactionsKeepBoth(s, env.now, 0);
      forall p: Pick ensures Held(s1, p) { StepTransactionsHold(s, env.now, p); }
      UpdateFromStartsNone(s1, env, AnyRegistered(s1.servers), 0);
      var s2 := RegistrationUpdate(s1, env);
      if NoBootstrap(s2) {
        NothingToUpdate(s2, env);
      } else {
        NeverRegistered(s1.servers);
        UpdateFromKeepsLists(s1, env, AnyRegistered(s1.servers), 0);
        UpdateFromIsIdle(s1, env, 0);
        FailedIsQuiet(s1);
        BootstrapStateIsQuiet(s2, env, Tally(s2.log, RegisterSent));
      }
    }
  }

  lemma NothingToUpdate(s: State, env: Env)
    requires NoBootstrap(s)
    ensures UpdateBootstrapState(s, env) == s
  {
  }

  lemma {:induction false} UpdateFromKeepsLists(s: State, env: Env, anyRegistered: bool, j: nat)
    ensures SameLists(s, UpdateFrom(s, env, anyRegistered, j))
    decreases |s.servers| - j
  {
    hide UpdateOne;
    if j < |s.servers| {
      UpdateFromKeepsLists(UpdateOne(s, env, anyRegistered, j), env, anyRegistered, j + 1);
    }
  }

  // ---------- events and runs ----------

  lemma PacketKeepsBoth(s: State, session: Session, m: Message, env: Env, n: nat)
    ensures Keeps(s, HandlePacket(s, session, m, env), n)
  {
    hide Keeps, HandlePacket;
    var inv := (r: State) => Keeps(s, r, n);
    RepliesKeep(s, n, inv);
    Steady(s, n);
    PacketKeeps(inv, s, session, m, env);
  }

  /** What can happen between two calls of lwm2m_start. */
  predicate Ordinary(e: Event) { Plain(e) && !e.StartAll? }

  predicate AllOrdinary(events: seq<(Event, Env)>) {
    events == [] || (Ordinary(events[0].0) && AllOrdinary(events[1..]))
  }

  lemma ApplyIsQuiet(s: State, e: Event, env: Env)
    requires Ordinary(e) && (forall p: Pick :: Held(s, p)) && Either(s, Tally(s.log, RegisterSent))
    ensures var r := Apply(s, e, env); Either(r, Tally(r.log, RegisterSent))
    ensures !NoBootstrap(s) ==> Tally(Apply(s, e, env).log, RegisterSent) == Tally(s.log, RegisterSent)
  {
    hide Step, HandlePacket, NotifyFrom, DeregisterFrom, Count, Tally, Held;
    var n := Tally(s.log, RegisterSent);
    match e
    case Tick =>
      if NoBootstrap(s) {
        StepStartsQuiet(s, env);
      } else {
        StepKeepsQuiet(s, env, n);
      }
    case Packet(session, m) => PacketKeepsBoth(s, session, m, env, n);
    case Changed(uri) =>
      NotifyManages(s, Observe.Overlapping(s.observed, uri, |s.observed|), env);
      ManagesKeep(s, ValueChanged(s, uri, env), n);
    case DeregisterAll => DeregisterFromKeepsBoth(s, env.now, 0, n);
  }

  lemma {:induction false} RunIsQuiet(s: State, events: seq<(Event, Env)>)
    requires AllOrdinary(events) && (forall p: Pick :: Held(s, p)) && Either(s, Tally(s.log, RegisterSent))
    ensures var r := Run(s, events); (forall p: Pick :: Held(r, p)) && Either(r, Tally(r.log, RegisterSent))
    decreases |events|
  {
    hide Apply, Held, Either;
    if events != [] {
      var (e, env) := events[0];
      var s1 := Apply(s, e, env);
      ApplyIsQuiet(s, e, env);
      forall p: Pick ensures Held(s1, p) { ApplyHolds(s, e, env, p); }
      RunIsQuiet(s1, events[1..]);
    }
  }

  lemma {:induction false} RunOneMore(s: State, events: seq<(Event, Env)>, j: nat)
    requires j < |events| && AllOrdinary(events)
    ensures Run(s, events[..j + 1]) == Apply(Run(s, events[..j]), events[j].0, events[j].1)
    ensures AllOrdinary(events[..j]) && Ordinary(events[j].0)
    decreases |events|
  {
    hide Apply;
    if j == 0 {
      assert events[..1][1..] == [];
    } else {
      RunOneMore(Apply(s, events[0].0, events[0].1), events[1..], j - 1);
      assert events[..j][1..] == events[1..][..j - 1] && events[..j + 1][1..] == events[1..][..j];
    }
  }

  /** After lwm2m_start, in every run of steps, packets, changed values and deregistrations: when an event begins while
      a bootstrap is asked for, under way or has failed, or a bootstrap request is live, every management server is in
      its failed state, and the event sends no registration. */
  lemma {:induction false} BootstrapExcludesRegistration(s: State, start: Env, events: seq<(Event, Env)>, j: nat)
    requires Initial(s) && AllOrdinary(events) && j < |events|
    ensures var before := Run(Start(s, start).0, events[..j]);
            !NoBootstrap(before) ==>
              && AllFailed(before.servers)
              && Tally(Run(Start(s, start).0, events[..j + 1]).log, RegisterSent) == Tally(before.log, RegisterSent)
  {
    hide Start, Run, Apply;
    StartFrame(s, start);
    RunOneMore(Start(s, start).0, events, j);
    RunIsQuiet(Start(s, start).0, events[..j]);
    ApplyIsQuiet(Run(Start(s, start).0, events[..j]), events[j].0, events[j].1);
  }
}
