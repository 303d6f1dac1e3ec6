/** Message identifiers go round in 16 bits: when live transactions share one, and when transaction_remove misses. */
module Identifiers {
  import opened Core
  import opened Client
  import opened Engine
  import opened Induction
  import opened ClientFacts
  import opened ManagementFacts
  import opened Matching
  import SortedList

  // ---------- when message identifiers are distinct ----------

  predicate DistinctMids(ts: seq<Transaction>) { forall i, j | 0 <= i < j < |ts| :: ts[i].mID != ts[j].mID }

  /** The next identifier is as many further as were drawn since the transaction got its own. */
  predicate Drawn(t: Transaction, mid: uint16, drawn: nat) {
    t.draw < drawn && mid == (t.mID + (drawn - t.draw)) % 0x1_0000
  }

  predicate Dated(ts: seq<Transaction>, mid: uint16, drawn: nat) {
    && (forall i | 0 <= i < |ts| :: Drawn(ts[i], mid, drawn))
    && (forall i, j | 0 <= i < j < |ts| :: ts[i].draw != ts[j].draw)
  }

  predicate WellDated(s: State) { Dated(s.transactions, s.nextMID, s.drawn) }

  lemma ReplaceDated(ts: seq<Transaction>, i: nat, t: Transaction, mid: uint16, drawn: nat)
    requires Dated(ts, mid, drawn) && i < |ts| && t.mID == ts[i].mID && t.draw == ts[i].draw
    ensures Dated(ts[i := t], mid, drawn)
  {
  }

  lemma WithoutDated(ts: seq<Transaction>, i: nat, mid: uint16, drawn: nat)
    requires Dated(ts, mid, drawn) && i < |ts|
    ensures Dated(Without(ts, i), mid, drawn)
  {
    assert forall k | 0 <= k < |ts| - 1 :: Without(ts, i)[k] == ts[if k < i then k else k + 1];
  }

  lemma InsertDated(ts: seq<Transaction>, t: Transaction, mid: uint16, drawn: nat)
    requires Dated(ts, mid, drawn) && t.mID == mid && t.draw == drawn
    ensures Dated(SortedList.Insert(ts, t, Mid), (mid + 1) % 0x1_0000, drawn + 1)
  {
    hide SortedList.Insert, SortedList.Position, Drawn;
    SortedList.InsertAt(ts, t, Mid);
    var at := SortedList.Position(ts, t, Mid);
    var us := SortedList.Insert(ts, t, Mid);
    SortedList.SplicedAt(ts, t, at);
    DrawnNow(t, mid, drawn);
    forall k | 0 <= k < |ts| ensures Drawn(ts[k], (mid + 1) % 0x1_0000, drawn + 1) && ts[k].draw < drawn {
      OneMoreDrawn(ts[k], mid, drawn);
    }
  }

  lemma OneMoreDrawn(t: Transaction, mid: uint16, drawn: nat)
    requires Drawn(t, mid, drawn)
    ensures Drawn(t, (mid + 1) % 0x1_0000, drawn + 1) && t.draw < drawn
  {
    var n := t.mID + (drawn - t.draw);
    assert (n % 0x1_0000 + 1) % 0x1_0000 == (n + 1) % 0x1_0000;
  }

  lemma DrawnNow(t: Transaction, mid: uint16, drawn: nat)
    requires t.mID == mid && t.draw == drawn
    ensures Drawn(t, (mid + 1) % 0x1_0000, drawn + 1)
  {
  }

  lemma FinishDated(s: State, i: nat, reply: Option<Message>, now: int)
    requires WellDated(s) && i < |s.transactions|
    ensures WellDated(Finish(s, i, reply, now))
  {
    hide Handle, Dated;
    HandleFrame(s, s.transactions[i], reply, now);
    WithoutDated(s.transactions, i, s.nextMID, s.drawn);
  }

  lemma ManagesDated(a: State, b: State)
    requires WellDated(a) && OnlyManages(a, b)
    ensures WellDated(b)
  {
    hide Drawn, Drew;
    DrewOnly(a, b);
    var ts := a.transactions;
    forall i | 0 <= i < |ts| ensures Drawn(ts[i], b.nextMID, b.drawn) {
      StillDrawn(ts[i], a, b);
    }
  }

  lemma DrewOnly(a: State, b: State)
    requires OnlyManages(a, b)
    ensures Drew(a, b) && a.transactions == b.transactions
  {
  }

  lemma StillDrawn(t: Transaction, a: State, b: State)
    requires Drawn(t, a.nextMID, a.drawn) && Drew(a, b)
    ensures Drawn(t, b.nextMID, b.drawn)
  {
    var n, m := t.mID + (a.drawn - t.draw), b.drawn - a.drawn;
    assert (n % 0x1_0000 + m) % 0x1_0000 == (n + m) % 0x1_0000;
  }

  lemma NoneDated(s: State)
    requires s.transactions == []
    ensures WellDated(s)
  {
  }

  lemma TwoDraws(t: Transaction, u: Transaction, mid: uint16, drawn: nat)
    requires Drawn(t, mid, drawn) && Drawn(u, mid, drawn)
    ensures t.draw < drawn && u.draw < drawn && (t.mID == u.mID <==> (t.draw - u.draw) % 0x1_0000 == 0)
  {
    var a, b := t.mID + (drawn - t.draw), u.mID + (drawn - u.draw);
    assert (a - b) % 0x1_0000 == 0;
    assert a - b == (t.mID - u.mID) - (t.draw - u.draw);
  }

  lemma DrawsTell(ts: seq<Transaction>, mid: uint16, drawn: nat, i: nat, j: nat)
    requires Dated(ts, mid, drawn) && i < j < |ts|
    ensures ts[i].draw != ts[j].draw && ts[i].draw < drawn && ts[j].draw < drawn
    ensures ts[i].mID == ts[j].mID <==> (ts[i].draw - ts[j].draw) % 0x1_0000 == 0
  {
    hide Drawn;
    assert Drawn(ts[i], mid, drawn) && Drawn(ts[j], mid, drawn);
    TwoDraws(ts[i], ts[j], mid, drawn);
  }

  // ---------- when transaction_remove takes out the right one ----------

  lemma {:induction false} FirstWith(ts: seq<Transaction>, i: nat, mid: uint16) returns (j: nat)
    requires i < |ts| && ts[i].mID == mid
    ensures j <= i && ts[j].mID == mid && forall k | 0 <= k < j :: ts[k].mID != mid
  {
    if k :| 0 <= k < i && ts[k].mID == mid {
      j := FirstWith(ts, k, mid);
    } else {
      j := i;
    }
  }

  /** transaction_remove takes a transaction out by its message identifier. That is the transaction it was called for
      if and only if no transaction in front of it in the list has the same identifier. */
  lemma RemovesTheRightOne(ts: seq<Transaction>, i: nat)
    requires Ordered(ts) && i < |ts| && forall k, l | 0 <= k < l < |ts| :: ts[k].draw != ts[l].draw
    ensures SortedList.Remove(ts, ts[i].mID, Mid) == Without(ts, i) <==> forall k | 0 <= k < i :: ts[k].mID != ts[i].mID
  {
    hide SortedList.Remove, SortedList.RemoveBehind, Tokened;
    var j := FirstWith(ts, i, ts[i].mID);
    SortedList.RemoveFirst(ts, j, Mid);
    if j < i {
      assert Without(ts, j)[j] == ts[j + 1] && Without(ts, i)[j] == ts[j];
    }
  }

  /** A transaction that is over had seen 65536 identifiers drawn behind its own, or more. */
  predicate OldEnded(log: seq<Output>) {
    exists o | o in log :: (o.Ended? || o.Dropped?) && o.age >= 0x1_0000
  }

  /** The same of one in the list. */
  predicate OldLive(s: State) { exists t | t in s.transactions :: Age(s, t) >= 0x1_0000 }

  /** A miss has an old transaction as its cause. */
  predicate Explained(s: State) {
    Ordered(s.transactions) && WellDated(s) && (s.clashed ==> OldEnded(s.log) || OldLive(s))
  }

  /** Of two transactions with one identifier the one that is older is old. */
  lemma OneIsOld(t: Transaction, u: Transaction, s: State)
    requires Drawn(t, s.nextMID, s.drawn) && Drawn(u, s.nextMID, s.drawn) && t.mID == u.mID && t.draw != u.draw
    ensures Age(s, t) >= 0x1_0000 || Age(s, u) >= 0x1_0000
  {
    TwoDraws(t, u, s.nextMID, s.drawn);
  }

  /** The log goes on, and each old transaction is still in the list, with its draw, or was logged as old. */
  lemma StillExplained(s: State, r: State)
    requires Explained(s) && Ordered(r.transactions) && WellDated(r) && r.drawn >= s.drawn
    requires |r.log| >= |s.log| && r.log[..|s.log|] == s.log
    requires r.clashed ==> s.clashed || OldEnded(r.log) || OldLive(r)
    requires forall t | t in s.transactions && Age(s, t) >= 0x1_0000 ::
               OldEnded(r.log) || exists u | u in r.transactions :: u.draw == t.draw
    ensures Explained(r)
  {
    hide Ordered, Dated;
    if r.clashed && s.clashed {
      if OldEnded(s.log) {
        var o :| o in s.log && (o.Ended? || o.Dropped?) && o.age >= 0x1_0000;
        assert o in r.log[..|s.log|];
      } else if !OldEnded(r.log) {
        var t :| t in s.transactions && Age(s, t) >= 0x1_0000;
        var u :| u in r.transactions && u.draw == t.draw;
        assert Age(r, u) >= 0x1_0000;
      }
    }
  }

  lemma FinishExplained(s: State, i: nat, reply: Option<Message>, now: int)
    requires Explained(s) && i < |s.transactions|
    ensures Explained(Finish(s, i, reply, now))
  {
    hide Handle, Ordered, Dated, Explained, SortedList.Remove;
    var ts, r := s.transactions, Finish(s, i, reply, now);
    assert Ordered(ts) && WellDated(s) by { ExplainedParts(s); }
    HandleFrame(s, ts[i], reply, now);
    FinishOrdered(s, i, reply, now);
    FinishDated(s, i, reply, now);
    var o := Ending(s, ts[i], reply);
    assert o in r.log && (o.age >= 0x1_0000 ==> OldEnded(r.log));
    forall j | 0 <= j < |ts| && j != i ensures ts[j] in r.transactions {
      assert r.transactions[if j < i then j else j - 1] == ts[j];
    }
    if r.clashed && !s.clashed {
      var k := Missed(s, i);
      DrawsTell(ts, s.nextMID, s.drawn, k, i);
      OneOfTwo(s, k, i);
      assert ts[k] in r.transactions;
    }
    StillExplained(s, r);
  }

  lemma ExplainedParts(s: State)
    requires Explained(s)
    ensures Ordered(s.transactions) && WellDated(s)
  {
  }

  lemma OneOfTwo(s: State, k: nat, i: nat)
    requires WellDated(s) && k < i < |s.transactions| && s.transactions[k].mID == s.transactions[i].mID
    ensures Age(s, s.transactions[k]) >= 0x1_0000 || Age(s, s.transactions[i]) >= 0x1_0000
  {
    hide Drawn;
    assert Drawn(s.transactions[k], s.nextMID, s.drawn) && Drawn(s.transactions[i], s.nextMID, s.drawn);
    OneIsOld(s.transactions[k], s.transactions[i], s);
  }

  /** The one that is taken out instead stands in front. */
  lemma Missed(s: State, i: nat) returns (k: nat)
    requires Ordered(s.transactions) && WellDated(s) && i < |s.transactions|
    requires SortedList.Remove(s.transactions, s.transactions[i].mID, Mid) != Without(s.transactions, i)
    ensures k < i && s.transactions[k].mID == s.transactions[i].mID
  {
    hide Ordered, Drawn;
    RemovesTheRightOne(s.transactions, i);
    k :| 0 <= k < i && s.transactions[k].mID == s.transactions[i].mID;
  }

  lemma ReplaceExplained(s: State, r: State, i: nat, t: Transaction)
    requires Explained(s) && i < |s.transactions| && Alike(t, s.transactions[i]) && t.draw == s.transactions[i].draw
    requires r.transactions == s.transactions[i := t] && r.nextMID == s.nextMID && r.drawn == s.drawn
    requires r.clashed == s.clashed && |r.log| >= |s.log| && r.log[..|s.log|] == s.log
    ensures Explained(r)
  {
    hide Ordered, Dated;
    ReplaceOrdered(s.transactions, i, t);
    ReplaceDated(s.transactions, i, t, s.nextMID, s.drawn);
    forall u | u in s.transactions ensures exists v | v in r.transactions :: v.draw == u.draw {
      var j :| 0 <= j < |s.transactions| && s.transactions[j] == u;
      assert r.transactions[j] in r.transactions && r.transactions[j].draw == u.draw;
    }
    StillExplained(s, r);
  }

  lemma SendExplained(s: State, i: nat, now: int)
    requires Explained(s) && i < |s.transactions|
    ensures Explained(Send(s, i, now).0)
  {
    hide Send, Finish, Explained;
    SendFrame(s, i, now);
    var (t, sent, over) := Transmit(s.transactions[i], now);
    var s1 := s.(transactions := s.transactions[i := t],
                 log := if sent then s.log + [Sending(s, t, now)] else s.log);
    ReplaceExplained(s, s1, i, t);
    if over {
      FinishExplained(s1, i, None, now);
    }
  }

  lemma BeginExplained(s: State, kind: Kind, peer: Peer, now: int)
    requires Explained(s)
    ensures Explained(Begin(s, kind, peer, now).0)
  {
    hide Send, Ordered, Dated, SortedList.Insert, SortedList.Position;
    var t := NewTransaction(s, kind, peer, now);
    var at := SortedList.Position(s.transactions, t, Mid);
    var s1 := s.(transactions := SortedList.Insert(s.transactions, t, Mid),
                 nextMID := (s.nextMID + 1) % 0x1_0000, drawn := s.drawn + 1, created := s.created + 1);
    InsertOrdered(s.transactions, t);
    InsertDated(s.transactions, t, s.nextMID, s.drawn);
    SortedList.InsertAt(s.transactions, t, Mid);
    assert forall u | u in s.transactions :: u in s1.transactions;
    StillExplained(s, s1);
    SendExplained(s1, at, now);
  }

  lemma {:induction false} DropsEach(ts: seq<Transaction>, drawn: nat, i: nat)
    requires i < |ts|
    ensures Dropped(ts[i].serial, drawn - ts[i].draw - 1) in DropAll(ts, drawn)
  {
    if i > 0 {
      DropsEach(ts[1..], drawn, i - 1);
    }
  }

  lemma StartExplained(s: State, env: Env)
    requires Explained(s)
    ensures Explained(Start(s, env).0)
  {
    hide Start;
    StartFrame(s, env);
    var r := Start(s, env).0;
    EmptyOrdered();
    forall t | t in s.transactions && Age(s, t) >= 0x1_0000 ensures OldEnded(r.log) {
      var i :| 0 <= i < |s.transactions| && s.transactions[i] == t;
      DropsEach(s.transactions, s.drawn, i);
      assert Dropped(t.serial, Age(s, t)) in r.log;
    }
    StillExplained(s, r);
  }

  lemma ManagesExplained(a: State, b: State)
    requires Explained(a) && OnlyManages(a, b)
    ensures Explained(b)
  {
    hide Ordered, Dated;
    ManagesDated(a, b);
    StillExplained(a, b);
  }

  lemma SameExplained(s: State, r: State)
    requires Explained(s) && r.transactions == s.transactions && r.nextMID == s.nextMID && r.drawn == s.drawn
    requires r.clashed == s.clashed && r.log == s.log
    ensures Explained(r)
  {
    hide Ordered, Dated;
  }

  lemma ExplainedIsKept(inv: Property)
    requires forall s: State :: inv(s) <==> Explained(s)
    ensures Kept(inv) && KeptByUpdate(inv)
  {
    hide Explained, Send, Finish, Begin, Start, OnlyManages, AllReads;
    forall s: State, i: nat, now: int | i < |s.transactions| && inv(s) ensures inv(Send(s, i, now).0) {
      SendExplained(s, i, now);
    }
    forall s: State, i: nat, acked: bool, time: int | i < |s.transactions| && inv(s)
      ensures inv(Touch(s, i, acked, time))
    {
      ReplaceExplained(s, Touch(s, i, acked, time), i, Touch(s, i, acked, time).transactions[i]);
    }
    forall s: State, i: nat, reply: Option<Message>, now: int | i < |s.transactions| && inv(s)
      ensures inv(Finish(s, i, reply, now))
    {
      FinishExplained(s, i, reply, now);
    }
    forall s: State, kind: Kind, peer: Peer, now: int | inv(s) ensures inv(Begin(s, kind, peer, now).0) {
      BeginExplained(s, kind, peer, now);
    }
    forall s: State, servers: seq<Server>, bsServers: seq<Server> | inv(s)
      ensures inv(SetServers(s, servers, bsServers))
    {
      SameExplained(s, SetServers(s, servers, bsServers));
    }
    forall s: State, bsState: BsState, bsStart: int | inv(s) ensures inv(SetBootstrap(s, bsState, bsStart)) {
      SameExplained(s, SetBootstrap(s, bsState, bsStart));
    }
    forall s: State, env: Env | inv(s) ensures inv(Start(s, env).0) {
      StartExplained(s, env);
    }
    forall a: State, b: State | inv(a) && OnlyManages(a, b) ensures inv(b) {
      ManagesExplained(a, b);
    }
    ManagesIsEnough(inv);
    BeginIsEnough(inv);
  }

  lemma RunExplained(s: State, events: seq<(Event, Env)>)
    requires Initial(s)
    ensures Explained(Run(s, events))
  {
    hide Run, Ordered, Dated;
    var inv := (r: State) => Explained(r);
    ExplainedIsKept(inv);
    NoneDated(s);
    assert Ordered(s.transactions) by { EmptyOrdered(); }
    RunKeeps(inv, s, events);
  }

  /** In every run, two transactions in the list share a message identifier if and only if their draws are a multiple of
      65536 apart. So all are distinct while fewer than 65536 identifiers were drawn behind that of any of them. */
  lemma YoungAreDistinct(s: State, events: seq<(Event, Env)>)
    requires Initial(s)
    ensures var r := Run(s, events);
            var ts := r.transactions;
            && (forall i, j | 0 <= i < j < |ts| ::
                  ts[i].draw != ts[j].draw && (ts[i].mID == ts[j].mID <==> (ts[i].draw - ts[j].draw) % 0x1_0000 == 0))
            && ((forall i | 0 <= i < |ts| :: Age(r, ts[i]) < 0x1_0000) ==> DistinctMids(ts))
  {
    hide Run, Ordered, Dated;
    RunExplained(s, events);
    var r := Run(s, events);
    var ts := r.transactions;
    forall i, j | 0 <= i < j < |ts|
      ensures ts[i].draw != ts[j].draw && ts[i].draw < r.drawn && ts[j].draw < r.drawn
      ensures ts[i].mID == ts[j].mID <==> (ts[i].draw - ts[j].draw) % 0x1_0000 == 0
    {
      DrawsTell(ts, r.nextMID, r.drawn, i, j);
    }
  }

  /** In every run in which fewer than 65536 identifiers are drawn behind that of each transaction while it lives,
      transaction_remove has always taken out the transaction that ended. So what is proved of such runs is true of
      the list that it leaves. */
  lemma RemoveNeverMisses(s: State, events: seq<(Event, Env)>)
    requires Initial(s)
    requires forall o | o in Run(s, events).log && (o.Ended? || o.Dropped?) :: o.age < 0x1_0000
    requires forall t | t in Run(s, events).transactions :: Age(Run(s, events), t) < 0x1_0000
    ensures !Run(s, events).clashed
  {
    hide Run, Ordered, Dated;
    RunExplained(s, events);
  }
}
