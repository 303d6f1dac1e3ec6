/** Which servers a start finds: what the Security object and the Server object say. */
module Starting {
  import opened Core
  import opened Client
  import opened ClientFacts
  import SortedList

  // ---------- one instance of the Security object ----------

  /** The first instance of the Server object with the short identifier, up to which all could be read. */
  predicate FoundAt(list: seq<uint16>, shortID: int, env: Env, k: nat) {
    && k < |list| && env.server(list[k]).shortID == Some(shortID)
    && (forall j | 0 <= j <= k :: env.result(Read, SERVER_OBJECT, list[j]) == CONTENT)
    && (forall j | 0 <= j < k :: env.server(list[j]).shortID != Some(shortID))
  }

  lemma {:induction false} FindInstanceIs(list: seq<uint16>, shortID: int, env: Env)
    ensures forall k: nat | FoundAt(list, shortID, env, k) :: FindServerInstance(list, shortID, env).0 == Some(list[k])
    ensures FindServerInstance(list, shortID, env).0.Some? ==> exists k: nat :: FoundAt(list, shortID, env, k)
  {
    if list != [] {
      var rest := list[1..];
      FindInstanceIs(rest, shortID, env);
      assert forall j | 0 <= j < |rest| :: rest[j] == list[j + 1];
      forall k: nat | FoundAt(list, shortID, env, k)
        ensures FindServerInstance(list, shortID, env).0 == Some(list[k])
      {
        if k > 0 {
          assert FoundAt(rest, shortID, env, k - 1);
        }
      }
      if FindServerInstance(list, shortID, env).0.Some? {
        if env.server(list[0]).shortID == Some(shortID) {
          assert FoundAt(list, shortID, env, 0);
        } else {
          var k: nat :| FoundAt(rest, shortID, env, k);
          assert FoundAt(list, shortID, env, k + 1);
        }
      }
    }
  }

  /** The instance can be read and stands for a bootstrap server, which is v: its lifetime is the hold-off time. */
  predicate TellsBootstrap(inst: uint16, v: Server, env: Env) {
    var i := env.security(inst);
    && env.result(Read, SECURITY_OBJECT, inst) == CONTENT && i.bootstrap == Some(true)
    && i.shortID.Some? && 0 <= i.shortID.value <= 0xFFFF
    && i.holdOff.Some? && 0 <= i.holdOff.value <= 0xFFFF_FFFF
    && v == Server(inst, i.shortID.value, i.holdOff.value, 0, None, Deregistered, None)
  }

  /** The instance can be read, together with the Server object instance of its short identifier, and they stand for a
      management server, which is v. */
  predicate TellsServer(inst: uint16, v: Server, list: seq<uint16>, env: Env) {
    var i := env.security(inst);
    && env.result(Read, SECURITY_OBJECT, inst) == CONTENT && i.bootstrap == Some(false)
    && i.shortID.Some? && 1 <= i.shortID.value <= 0xFFFF
    && exists k | 0 <= k < |list| ::
         var w := env.server(list[k]);
         && FoundAt(list, i.shortID.value, env, k)
         && w.lifetime.Some? && 0 <= w.lifetime.value <= 0xFFFF_FFFF && w.binding
         && v == Server(inst, i.shortID.value, w.lifetime.value, 0, None, Deregistered, None)
  }

  /** What an entry becomes. */
  predicate Becomes(e: SecurityEntry, v: Server, bootstrap: bool) {
    match e
    case Unreadable => false
    case BootstrapEntry(inst, shortID, holdOff) => bootstrap && v == NewServer(inst, shortID, holdOff)
    case ServerEntry(inst, shortID, lifetime) => !bootstrap && v == NewServer(inst, shortID, lifetime)
  }

  lemma EntryTells(inst: uint16, list: seq<uint16>, env: Env, v: Server)
    ensures Becomes(ReadEntry(inst, list, env).0, v, true) <==> TellsBootstrap(inst, v, env)
    ensures Becomes(ReadEntry(inst, list, env).0, v, false) <==> TellsServer(inst, v, list, env)
  {
    hide FindServerInstance, FoundAt;
    var i := env.security(inst);
    if i.shortID.Some? {
      FindInstanceIs(list, i.shortID.value, env);
      FoundInside(list, i.shortID.value, env);
      var at := FindServerInstance(list, i.shortID.value, env).0;
      if Becomes(ReadEntry(inst, list, env).0, v, false) {
        var k: nat :| FoundAt(list, i.shortID.value, env, k);
        assert list[k] == at.value;
        assert TellsServer(inst, v, list, env);
      }
      if TellsServer(inst, v, list, env) {
        var k: nat :| k < |list| && FoundAt(list, i.shortID.value, env, k);
        assert at == Some(list[k]);
      }
    }
  }

  lemma FoundInside(list: seq<uint16>, shortID: int, env: Env)
    ensures forall k: nat | FoundAt(list, shortID, env, k) ::
      && k < |list| && env.server(list[k]).shortID == Some(shortID)
      && env.result(Read, SERVER_OBJECT, list[k]) == CONTENT
  {
  }

  // ---------- the lists ----------

  /** The entries tell of this server. */
  predicate Told(entries: seq<SecurityEntry>, v: Server, bootstrap: bool) {
    exists i | 0 <= i < |entries| :: Becomes(entries[i], v, bootstrap)
  }

  predicate AllReadable(entries: seq<SecurityEntry>) { forall e | e in entries :: !e.Unreadable? }

  lemma Inserted(servers: seq<Server>, v: Server)
    requires SortedList.Sorted(servers, SecInst)
    ensures SortedList.Sorted(SortedList.Insert(servers, v, SecInst), SecInst)
    ensures forall x :: x in SortedList.Insert(servers, v, SecInst) <==> x in servers || x == v
  {
    hide SortedList.Insert, SortedList.Sorted;
    SortedList.InsertKeepsSorted(servers, v, SecInst);
    var t := SortedList.Insert(servers, v, SecInst);
    assert forall x :: x in t <==> x in multiset(t);
  }

  lemma ToldCons(entries: seq<SecurityEntry>, v: Server, bootstrap: bool)
    requires entries != []
    ensures Told(entries, v, bootstrap) <==> Becomes(entries[0], v, bootstrap) || Told(entries[1..], v, bootstrap)
  {
    hide Becomes;
    assert forall i | 0 < i < |entries| :: entries[i] == entries[1..][i - 1];
    if Told(entries[1..], v, bootstrap) {
      var i :| 0 <= i < |entries| - 1 && Becomes(entries[1..][i], v, bootstrap);
      assert Becomes(entries[i + 1], v, bootstrap);
    }
  }

  predicate SortedLists(s: State) { SortedList.Sorted(s.servers, SecInst) && SortedList.Sorted(s.bsServers, SecInst) }

  /** Each server that is told of is put in its list, in the order of the Security object. */
  lemma {:induction false} GetFromLists(s: State, entries: seq<SecurityEntry>, v: Server)
    requires SortedLists(s)
    ensures var (r, ok) := GetFrom(s, entries);
            && SortedLists(r) && ok == AllReadable(entries)
            && (ok ==> (v in r.servers <==> v in s.servers || Told(entries, v, false)))
            && (ok ==> (v in r.bsServers <==> v in s.bsServers || Told(entries, v, true)))
    decreases entries
  {
    hide SortedList.Insert, SortedList.Sorted, Told;
    NothingTold(v);
    if entries != [] {
      ToldCons(entries, v, false);
      ToldCons(entries, v, true);
      ReadableCons(entries);
      match entries[0]
      case Unreadable =>
      case BootstrapEntry(inst, shortID, holdOff) =>
        var x := NewServer(inst, shortID, holdOff);
        Inserted(s.bsServers, x);
        GetFromLists(s.(bsServers := SortedList.Insert(s.bsServers, x, SecInst)), entries[1..], v);
      case ServerEntry(inst, shortID, lifetime) =>
        var x := NewServer(inst, shortID, lifetime);
        Inserted(s.servers, x);
        GetFromLists(s.(servers := SortedList.Insert(s.servers, x, SecInst)), entries[1..], v);
    }
  }

  lemma NothingTold(v: Server)
    ensures !Told([], v, true) && !Told([], v, false)
  {
  }

  lemma ReadableCons(entries: seq<SecurityEntry>)
    requires entries != []
    ensures AllReadable(entries) <==> !entries[0].Unreadable? && AllReadable(entries[1..])
  {
    assert entries == [entries[0]] + entries[1..];
  }

  /** Some server is told of. */
  ghost predicate Tells(inst: uint16, list: seq<uint16>, env: Env) {
    exists v :: TellsBootstrap(inst, v, env) || TellsServer(inst, v, list, env)
  }

  lemma EntryReadable(inst: uint16, list: seq<uint16>, env: Env)
    ensures !ReadEntry(inst, list, env).0.Unreadable? <==> Tells(inst, list, env)
  {
    hide ReadEntry, TellsBootstrap, TellsServer;
    forall v
      ensures Becomes(ReadEntry(inst, list, env).0, v, true) <==> TellsBootstrap(inst, v, env)
      ensures Becomes(ReadEntry(inst, list, env).0, v, false) <==> TellsServer(inst, v, list, env)
    {
      EntryTells(inst, list, env, v);
    }
    match ReadEntry(inst, list, env).0
    case Unreadable =>
    case BootstrapEntry(i, shortID, holdOff) =>
      assert Becomes(ReadEntry(inst, list, env).0, NewServer(i, shortID, holdOff), true);
    case ServerEntry(i, shortID, lifetime) =>
      assert Becomes(ReadEntry(inst, list, env).0, NewServer(i, shortID, lifetime), false);
  }

  ghost predicate AllTell(sec: seq<uint16>, list: seq<uint16>, env: Env) {
    forall inst | inst in sec :: Tells(inst, list, env)
  }

  lemma {:induction false} EntriesTell(sec: seq<uint16>, list: seq<uint16>, env: Env, v: Server)
    ensures var entries := ReadEntries(sec, list, env).0;
            && (AllReadable(entries) <==> AllTell(sec, list, env))
            && (AllReadable(entries) ==>
                  (Told(entries, v, true) <==> exists inst | inst in sec :: TellsBootstrap(inst, v, env)))
            && (AllReadable(entries) ==>
                  (Told(entries, v, false) <==> exists inst | inst in sec :: TellsServer(inst, v, list, env)))
  {
    hide ReadEntry, Told, TellsBootstrap, TellsServer, Tells;
    NothingTold(v);
    if sec != [] {
      var entries := ReadEntries(sec, list, env).0;
      EntriesTell(sec[1..], list, env, v);
      EntryReadable(sec[0], list, env);
      EntryTells(sec[0], list, env, v);
      ToldCons(entries, v, true);
      ToldCons(entries, v, false);
      ReadableCons(entries);
      assert forall inst :: inst in sec <==> inst == sec[0] || inst in sec[1..];
    }
  }

  // ---------- the start ----------

  /** The instances of the last object with the identifier. */
  predicate LastWith(objects: seq<Object>, id: uint16, k: nat) {
    k < |objects| && objects[k].id == id && forall j | k < j < |objects| :: objects[j].id != id
  }

  lemma {:induction false} InstancesAre(objects: seq<Object>, id: uint16)
    ensures forall k: nat | LastWith(objects, id, k) :: InstancesOf(objects, id) == objects[k].instances
    ensures (forall o | o in objects :: o.id != id) ==> InstancesOf(objects, id) == []
  {
    if objects != [] {
      var n := |objects| - 1;
      InstancesAre(objects[..n], id);
      assert objects[n] in objects && forall o | o in objects[..n] :: o in objects;
      forall k: nat | LastWith(objects, id, k) ensures InstancesOf(objects, id) == objects[k].instances {
        if k < n {
          assert LastWith(objects[..n], id, k);
        }
      }
    }
  }

  /** With a Security object, a start succeeds if and only if each of its instances tells of a server. Then the
      client knows exactly these servers, the management servers in one list and the bootstrap servers in the other,
      each list in order. If it fails and servers were known before, none is known afterwards. */
  lemma StartReads(s: State, env: Env, sec: nat, srv: seq<uint16>, v: Server)
    requires LastWith(s.objects, SECURITY_OBJECT, sec)
    requires srv == InstancesOf(s.objects, SERVER_OBJECT)
    ensures var (r, ok) := Start(s, env);
            var list := s.objects[sec].instances;
            && (ok <==> AllTell(list, srv, env))
            && (ok ==> SortedLists(r))
            && (ok ==> (v in r.servers <==> exists inst | inst in list :: TellsServer(inst, v, srv, env)))
            && (ok ==> (v in r.bsServers <==> exists inst | inst in list :: TellsBootstrap(inst, v, env)))
            && (!ok && (s.servers != [] || s.bsServers != []) ==> r.servers == [] && r.bsServers == [])
  {
    hide AllTell, TellsServer, TellsBootstrap, ReadEntries, GetFrom, InstancesOf, AllReadable, Told;
    InstancesAre(s.objects, SECURITY_OBJECT);
    var list := s.objects[sec].instances;
    EntriesTell(list, srv, env, v);
    var s1 := s.(transactions := [], log := s.log + DropAll(s.transactions, s.drawn), observed := [],
                 servers := [], bsServers := []);
    GetFromLists(LogAll(s1, ServerReads(s1, env)), ReadEntries(list, srv, env).0, v);
  }

  /** Without a Security object it fails. */
  lemma NothingToRead(s: State, env: Env)
    requires forall o | o in s.objects :: o.id != SECURITY_OBJECT
    ensures !Start(s, env).1 && Start(s, env).0.servers == [] && Start(s, env).0.bsServers == []
  {
  }
}
