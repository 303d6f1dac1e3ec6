/**
 A client with one server that can be read: the first steps of its runs, one after the other.

 The server is registered with at the first step. Either nothing comes back and the registration is sent again, or it
 is accepted without a location and an update is due later. The runs that show what goes wrong are put together from
 these steps.
 */
module OneServer {
  import opened Core
  import opened Client
  import opened Engine
  import opened Management
  import SortedList

  /** The three objects that lwm2m_configure asks for, with one instance each. */
  function Configured(): (s: State)
    ensures Initial(s)
  {
    State(NotBootstrapped, 0, [], [],
          [Object(SECURITY_OBJECT, [0], true, true, true, true, true),
           Object(SERVER_OBJECT, [0], true, true, true, true, true),
           Object(3, [0], true, true, true, true, true)],
          None, [], [], 0, 0, 0, false, [])
  }

  /** The surroundings at some time: a server with short identifier 1 and lifetime 60, to which session 7 leads. */
  function At(now: int): Env {
    Env(now, map[0 := 7], {}, inst => SecurityInfo(Some(false), Some(1), None),
        inst => ServerInfo(Some(1), Some(60), true), (op, id, inst) => CONTENT, false)
  }

  lemma Started()
    ensures var r := Start(Configured(), At(0)).0;
            r == Configured().(servers := [NewServer(0, 1, 60)], log := r.log)
  {
    var s, env := Configured(), At(0);
    var list: seq<uint16>, entry := [0], ServerEntry(0, 1, 60);
    assert s.objects[0].id == SECURITY_OBJECT;
    assert s.objects[..2] == [s.objects[0], s.objects[1]] && s.objects[..2][..1] == [s.objects[0]];
    assert InstancesOf(s.objects[..2], SERVER_OBJECT) == list;
    assert InstancesOf(s.objects[..2][..1], SECURITY_OBJECT) == list;
    assert InstancesOf(s.objects, SECURITY_OBJECT) == InstancesOf(s.objects[..2], SECURITY_OBJECT) == list;
    assert InstancesOf(s.objects, SERVER_OBJECT) == list;
    assert list[1..] == [];
    assert ReadEntry(0, list, env).0 == entry;
    assert ReadEntries(list, list, env).0 == [entry];
    var s1 := s.(log := s.log + DropAll(s.transactions, s.drawn));
    var s2 := LogAll(s1, ServerReads(s, env));
    var v := NewServer(0, 1, 60);
    assert SortedList.Insert(s2.servers, v, SecInst) == [v];
    assert [entry][1..] == [];
    assert GetFrom(s2, [entry]) == GetFrom(s2.(servers := [v]), []);
    assert GetServers(s1, env) == (s2.(servers := [v]), true);
  }

  /** The transaction of the registration, after it was sent n times and the last wait began. */
  function Registration(s: State, now: int, n: nat, due: int): Transaction {
    NewTransaction(s, Register, ManagementServer(0), now).(retransCounter := n + 1, retransTime := due)
  }

  function Waiting(): Server { NewServer(0, 1, 60).(session := Some(7), status := RegPending) }

  /** Nothing but a server that waits for its registration. */
  predicate Waits(s: State, t: Transaction) {
    s.transactions == [t] && s.servers == [Waiting()] && s.bsServers == [] && s.bsState == NotBootstrapped
  }

  /** The first step registers. */
  lemma FirstTick(s: State, now: nat)
    requires s.transactions == [] && s.servers == [NewServer(0, 1, 60)]
    requires s.bsServers == [] && s.bsState == NotBootstrapped
    ensures Waits(Step(s, At(now)), Registration(s, now, 1, now + RESPONSE_TIMEOUT))
  {
    var env := At(now);
    assert StepTransactions(s, 0, now) == s;
    var s1 := s.(servers := [NewServer(0, 1, 60).(session := Some(7))]);
    assert s.servers[0 := s1.servers[0]] == s1.servers;
    var t := NewTransaction(s1, Register, ManagementServer(0), now);
    assert SortedList.Insert([], t, Mid) == [t] && SortedList.Position([], t, Mid) == 0;
    var u := Registration(s, now, 1, now + RESPONSE_TIMEOUT);
    assert [t][0 := u] == [u];
    var r := RegisterServer(s, 0, env);
    assert r.servers == [Waiting()] && r.transactions == [u];
    assert UpdateOne(s, env, false, 0) == r;
    assert UpdateFrom(s, env, false, 0) == UpdateFrom(r, env, false, 1) == r;
  }

  /** A step at the deadline sends again, while a retry is left. */
  lemma NextTick(s: State, now: nat, t: Transaction)
    requires Waits(s, t) && !t.ackReceived && 1 <= t.retransCounter <= MAX_RETRANSMIT && t.retransTime <= now
    ensures var r := Step(s, At(now));
            Waits(r, t.(retransCounter := t.retransCounter + 1,
                        retransTime := t.retransTime + RESPONSE_TIMEOUT * t.retransCounter))
  {
    var env := At(now);
    var timeout := RESPONSE_TIMEOUT * t.retransCounter;
    var u := t.(retransCounter := t.retransCounter + 1, retransTime := t.retransTime + timeout);
    assert [t][0 := u] == [u];
    var (s1, removed) := Send(s, 0, now);
    assert !removed && Waits(s1, u);
    assert StepTransactions(s, 0, now) == StepTransactions(s1, 1, now) == s1;
    assert UpdateOne(s1, env, false, 0) == s1;
    assert UpdateFrom(s1, env, false, 0) == UpdateFrom(s1, env, false, 1) == s1;
    assert s1.servers[0].status == RegPending;
  }

  lemma TwoEvents(s: State, a: (Event, Env), b: (Event, Env))
    ensures Run(s, [a, b]) == Apply(Apply(s, a.0, a.1), b.0, b.1)
  {
    hide Apply;
    assert [a, b][1..] == [b] && [b][1..] == [];
    assert Run(s, [a, b]) == Run(Apply(s, a.0, a.1), [b]);
  }

  lemma FourEvents(s: State, events: seq<(Event, Env)>)
    requires |events| == 4
    ensures var (a, b, c, d) := (events[0], events[1], events[2], events[3]);
            Run(s, events) == Apply(Apply(Apply(Apply(s, a.0, a.1), b.0, b.1), c.0, c.1), d.0, d.1)
  {
    hide Apply;
    var t, u, v := events[1..], events[2..], events[3..];
    assert t[1..] == u && u[1..] == v && v[1..] == [];
    var s1 := Apply(s, events[0].0, events[0].1);
    var s2 := Apply(s1, events[1].0, events[1].1);
    var s3 := Apply(s2, events[2].0, events[2].1);
    assert Run(s3, v) == Apply(s3, events[3].0, events[3].1);
    assert Run(s2, u) == Run(s3, v);
    assert Run(s1, t) == Run(s2, u);
  }

  /** The registration is accepted, and no location is given. */
  lemma Accepted(s: State, m: Message)
    requires exists t :: Waits(s, t) && t.kind == Register && t.peer == ManagementServer(0) && m.token == t.token
    requires m.mtype == Ack && m.code == CREATED && m.location == []
    ensures var r := HandlePacket(s, 7, m, At(0));
            && r.transactions == [] && r.bsServers == [] && r.bsState == NotBootstrapped
            && r.servers == [Waiting().(status := Registered, location := Some(""))]
  {
    var t := s.transactions[0];
    assert LocationText([]) == "";
    var t1 := if Acknowledges(t, m) then t.(ackReceived := true) else t;
    assert Without([t1], 0) == [];
    assert s.transactions[0 := t1] == [t1];
  }

  lemma UpdateIsDue(s: State)
    requires s.transactions == [] && s.bsServers == [] && s.bsState == NotBootstrapped
    requires s.servers == [Waiting().(status := Registered, location := Some(""))]
    ensures exists o | o in Step(s, At(45)).log :: o.Sent? && o.kind == Update && o.path == Some("")
  {
    var env := At(45);
    assert StepTransactions(s, 0, 45) == s;
    var t := NewTransaction(s, Update, ManagementServer(0), 45);
    assert SortedList.Insert([], t, Mid) == [t] && SortedList.Position([], t, Mid) == 0;
    var u := Transmit(t, 45).0;
    var r := UpdateServer(s, 0, 45);
    var o := Sent(t.serial, Update, t.peer, Some(7), Some(""), 45);
    assert o in r.log;
    assert s.servers[0].status == Registered;
    assert UpdateOne(s, env, true, 0) == r;
    assert UpdateFrom(s, env, true, 0) == UpdateFrom(r, env, true, 1) == r;
  }
}
