/**
 Counting transactions and outputs, and what each part of the client engine leaves alone.

 A property of one transaction counts the transactions with its serial number; a property of a server counts those of
 one kind that are sent to it. Transmissions, ends and registrations are counted in the log in the same way. The last
 part says, for each operation of the engine, which fields of the state it may change.
 */
module ClientFacts {
  import opened Core
  import opened Client
  import SortedList

  // ---------- counting transactions ----------

  /** What a transaction is counted as; the last is a registration that goes to no management server. */
  datatype Pick = OfSerial(serial: nat) | OfKind(kind: Kind, server: nat) | AnyOf(kind: Kind) | Misdirected

  predicate Picks(p: Pick, t: Transaction) {
    match p
    case OfSerial(k) => t.serial == k
    case OfKind(kind, i) => t.kind == kind && t.peer == ManagementServer(i)
    case AnyOf(kind) => t.kind == kind
    case Misdirected => t.kind == Register && !t.peer.ManagementServer?
  }

  function One(b: bool): nat { if b then 1 else 0 }

  function Count(ts: seq<Transaction>, p: Pick): nat {
    if ts == [] then 0 else One(Picks(p, ts[0])) + Count(ts[1..], p)
  }

  lemma {:induction false} CountAppend(a: seq<Transaction>, b: seq<Transaction>, p: Pick)
    ensures Count(a + b, p) == Count(a, p) + Count(b, p)
  {
    if a == [] {
      assert a + b == b;
    } else {
      assert (a + b)[1..] == a[1..] + b;
      CountAppend(a[1..], b, p);
    }
  }

  lemma CountOne(t: Transaction, p: Pick)
    ensures Count([t], p) == One(Picks(p, t))
  {
    assert [t][1..] == [];
  }

  lemma CountSplice(a: seq<Transaction>, t: Transaction, b: seq<Transaction>, p: Pick)
    ensures Count(a + [t] + b, p) == Count(a, p) + One(Picks(p, t)) + Count(b, p)
  {
    CountAppend(a + [t], b, p);
    CountAppend(a, [t], p);
    CountOne(t, p);
  }

  lemma CountInsert(ts: seq<Transaction>, t: Transaction, p: Pick)
    ensures Count(SortedList.Insert(ts, t, Mid), p) == Count(ts, p) + One(Picks(p, t))
  {
    var at := SortedList.Position(ts, t, Mid);
    SortedList.InsertAt(ts, t, Mid);
    CountSplice(ts[..at], t, ts[at..], p);
    CountAppend(ts[..at], ts[at..], p);
    assert ts == ts[..at] + ts[at..];
  }

  lemma CountWithout(ts: seq<Transaction>, i: nat, p: Pick)
    requires i < |ts|
    ensures Count(ts, p) == Count(Without(ts, i), p) + One(Picks(p, ts[i]))
  {
    assert ts == ts[..i] + [ts[i]] + ts[i + 1..];
    CountSplice(ts[..i], ts[i], ts[i + 1..], p);
    CountAppend(ts[..i], ts[i + 1..], p);
  }

  lemma CountReplace(ts: seq<Transaction>, i: nat, t: Transaction, p: Pick)
    requires i < |ts|
    ensures Count(ts[i := t], p) + One(Picks(p, ts[i])) == Count(ts, p) + One(Picks(p, t))
  {
    assert ts == ts[..i] + [ts[i]] + ts[i + 1..];
    assert ts[i := t] == ts[..i] + [t] + ts[i + 1..];
    CountSplice(ts[..i], ts[i], ts[i + 1..], p);
    CountSplice(ts[..i], t, ts[i + 1..], p);
  }

  lemma {:induction false} CountMember(ts: seq<Transaction>, p: Pick)
    ensures Count(ts, p) > 0 <==> exists i | 0 <= i < |ts| :: Picks(p, ts[i])
  {
    if ts != [] {
      CountMember(ts[1..], p);
      if Picks(p, ts[0]) {
      } else if exists i | 0 <= i < |ts| :: Picks(p, ts[i]) {
        var i :| 0 <= i < |ts| && Picks(p, ts[i]);
        assert Picks(p, ts[1..][i - 1]);
      }
    }
  }

  lemma {:induction false} CountUnique(ts: seq<Transaction>, p: Pick, i: nat, j: nat)
    requires i < j < |ts| && Picks(p, ts[i]) && Picks(p, ts[j])
    ensures Count(ts, p) >= 2
  {
    CountWithout(ts, j, p);
    assert Without(ts, j)[i] == ts[i];
    CountMember(Without(ts, j), p);
  }

  // ---------- counting outputs ----------

  datatype Mark = SentBy(serial: nat) | OverBy(serial: nat) | RegisterSent

  predicate Marks(k: Mark, o: Output) {
    match k
    case SentBy(n) => o.Sent? && o.serial == n
    case OverBy(n) => (o.Ended? || o.Dropped?) && o.serial == n
    case RegisterSent => o.Sent? && o.kind == Register
  }

  function Tally(log: seq<Output>, k: Mark): nat {
    if log == [] then 0 else Tally(log[..|log| - 1], k) + One(Marks(k, log[|log| - 1]))
  }

  lemma TallyOne(log: seq<Output>, o: Output, k: Mark)
    ensures Tally(log + [o], k) == Tally(log, k) + One(Marks(k, o))
  {
    assert (log + [o])[..|log|] == log;
  }

  lemma {:induction false} TallyAppend(a: seq<Output>, b: seq<Output>, k: Mark)
    ensures Tally(a + b, k) == Tally(a, k) + Tally(b, k)
  {
    if b == [] {
      assert a + b == a;
    } else {
      var c := b[..|b| - 1];
      assert a + b == (a + c) + [b[|b| - 1]];
      TallyOne(a + c, b[|b| - 1], k);
      TallyAppend(a, c, k);
    }
  }

  /** Outputs that say nothing about transactions. */
  predicate Silent(o: Output) { o.Called? || o.Answered? || o.Notified? }

  lemma {:induction false} TallySilent(log: seq<Output>, k: Mark)
    requires forall i | 0 <= i < |log| :: Silent(log[i])
    ensures Tally(log, k) == 0
  {
    if log != [] {
      TallySilent(log[..|log| - 1], k);
    }
  }

  lemma {:induction false} TallyDropped(ts: seq<Transaction>, drawn: nat, n: nat)
    ensures Tally(DropAll(ts, drawn), OverBy(n)) == Count(ts, OfSerial(n))
    ensures Tally(DropAll(ts, drawn), SentBy(n)) == 0 && Tally(DropAll(ts, drawn), RegisterSent) == 0
  {
    if ts != [] {
      TallyDropped(ts[1..], drawn, n);
      var o := Dropped(ts[0].serial, drawn - ts[0].draw - 1);
      TallyAppend([o], DropAll(ts[1..], drawn), OverBy(n));
      TallyAppend([o], DropAll(ts[1..], drawn), SentBy(n));
      TallyAppend([o], DropAll(ts[1..], drawn), RegisterSent);
      assert [o] == [] + [o];
      TallyOne([], o, OverBy(n));
      TallyOne([], o, SentBy(n));
      TallyOne([], o, RegisterSent);
    }
  }

  // ---------- frames ----------

  /** A reply handler: nothing but the server it is about, the bootstrap state and the log changes. */
  lemma HandleFrame(s: State, t: Transaction, reply: Option<Message>, now: int)
    ensures var r := Handle(s, t, reply, now);
            && r == s.(servers := r.servers, bsState := r.bsState, bsStart := r.bsStart,
                       log := s.log + [Ending(s, t, reply)])
            && (t.kind != Bootstrap ==> r.bsState == s.bsState && r.bsStart == s.bsStart)
            && (t.kind == Bootstrap ==> r.servers == s.servers && r.bsState in {Pending, Failed})
            && (forall i | 0 <= i < |s.servers| && (t.kind == Bootstrap || t.peer != ManagementServer(i)) ::
                  r.servers[i] == s.servers[i])
  {
  }

  /** transaction_send on a transaction that goes on, or on one that ends. */
  lemma SendFrame(s: State, i: nat, now: int)
    requires i < |s.transactions|
    ensures var (t, sent, over) := Transmit(s.transactions[i], now);
            var s1 := s.(transactions := s.transactions[i := t],
                         log := if sent then s.log + [Sending(s, t, now)] else s.log);
            Send(s, i, now) == if over then (Finish(s1, i, None, now), true) else (s1, false)
    ensures var t := Transmit(s.transactions[i], now).0;
            t == s.transactions[i].(retransCounter := t.retransCounter, retransTime := t.retransTime)
  {
  }

  lemma InsertedAt(ts: seq<Transaction>, t: Transaction)
    ensures var at := SortedList.Position(ts, t, Mid); SortedList.Insert(ts, t, Mid)[at] == t
  {
    SortedList.InsertAt(ts, t, Mid);
  }

  lemma {:induction false} GetFromFrame(s: State, entries: seq<SecurityEntry>)
    ensures var r := GetFrom(s, entries).0; r == s.(servers := r.servers, bsServers := r.bsServers)
    decreases entries
  {
    if entries != [] {
      match entries[0]
      case Unreadable =>
      case BootstrapEntry(inst, shortID, holdOff) =>
        var v := NewServer(inst, shortID, holdOff);
        GetFromFrame(s.(bsServers := SortedList.Insert(s.bsServers, v, SecInst)), entries[1..]);
      case ServerEntry(inst, shortID, lifetime) =>
        var v := NewServer(inst, shortID, lifetime);
        GetFromFrame(s.(servers := SortedList.Insert(s.servers, v, SecInst)), entries[1..]);
    }
  }

  lemma {:induction false} DropsOnly(ts: seq<Transaction>, drawn: nat)
    ensures forall i | 0 <= i < |DropAll(ts, drawn)| :: DropAll(ts, drawn)[i].Dropped?
  {
    if ts != [] {
      DropsOnly(ts[1..], drawn);
    }
  }

  predicate AllReads(calls: seq<Output>) { forall o | o in calls :: o.Called? && o.op == Read }

  lemma {:induction false} FindServerInstanceReads(instances: seq<uint16>, shortID: int, env: Env)
    ensures AllReads(FindServerInstance(instances, shortID, env).1)
  {
    if instances != [] {
      FindServerInstanceReads(instances[1..], shortID, env);
    }
  }

  lemma {:induction false} ReadEntriesReads(list: seq<uint16>, instances: seq<uint16>, env: Env)
    ensures AllReads(ReadEntries(list, instances, env).1)
  {
    if list != [] {
      var v := env.security(list[0]);
      if v.shortID.Some? {
        FindServerInstanceReads(instances, v.shortID.value, env);
      }
      ReadEntriesReads(list[1..], instances, env);
    }
  }

  lemma ServerReadsAreReads(s: State, env: Env)
    ensures AllReads(ServerReads(s, env))
  {
    ReadEntriesReads(InstancesOf(s.objects, SECURITY_OBJECT), InstancesOf(s.objects, SERVER_OBJECT), env);
  }

  /** lwm2m_start, whatever it reads. */
  lemma StartFrame(s: State, env: Env)
    ensures var r := Start(s, env).0;
            r == s.(servers := r.servers, bsServers := r.bsServers, transactions := [], observed := [],
                    log := s.log + DropAll(s.transactions, s.drawn) + ServerReads(s, env))
    ensures AllReads(ServerReads(s, env))
  {
    hide GetFrom, ReadEntries;
    var s1 := s.(transactions := [], log := s.log + DropAll(s.transactions, s.drawn), observed := [],
                 servers := [], bsServers := []);
    ServerReadsAreReads(s, env);
    GetFromFrame(LogAll(s1, ServerReads(s, env)), Entries(s, env).0);
    assert s1.log + [] == s1.log;
  }

  /** What lwm2m_start reads counts as nothing. */
  lemma StartTally(s: State, env: Env, k: Mark)
    ensures Tally(Start(s, env).0.log, k) == Tally(s.log, k) + Tally(DropAll(s.transactions, s.drawn), k)
  {
    hide Start, Tally;
    StartFrame(s, env);
    var calls := ServerReads(s, env);
    assert forall i | 0 <= i < |calls| :: calls[i] in calls;
    TallyAppend(s.log, DropAll(s.transactions, s.drawn), k);
    TallyAppend(s.log + DropAll(s.transactions, s.drawn), calls, k);
    TallySilent(calls, k);
  }
}
