/** Which transaction a reply belongs to. */
module Matching {
  import opened Core
  import opened Client
  import opened Engine
  import opened Induction
  import opened ClientFacts
  import opened ManagementFacts
  import SortedList

  // ---------- what holds of the list in every run ----------

  /** The token was made of the message identifier. */
  predicate Tokened(t: Transaction) {
    |t.token| == 4 && t.token[0] == t.mID % 0x100 && t.token[1] == t.mID / 0x100
  }

  /** The list is in the order of its message identifiers, every token tells its identifier, and no transaction has a
      response timeout of its own. */
  predicate Ordered(ts: seq<Transaction>) {
    SortedList.Sorted(ts, Mid) && forall i | 0 <= i < |ts| :: Tokened(ts[i]) && ts[i].responseTimeout == 0
  }

  predicate Alike(a: Transaction, b: Transaction) {
    a.mID == b.mID && a.token == b.token && a.responseTimeout == b.responseTimeout
  }

  lemma ReplaceOrdered(ts: seq<Transaction>, i: nat, t: Transaction)
    requires Ordered(ts) && i < |ts| && Alike(t, ts[i])
    ensures Ordered(ts[i := t])
  {
    var us := ts[i := t];
    assert forall k | 0 <= k < |us| :: Mid(us[k]) == Mid(ts[k]) && Alike(us[k], ts[k]);
  }

  lemma FinishOrdered(s: State, i: nat, reply: Option<Message>, now: int)
    requires Ordered(s.transactions) && i < |s.transactions|
    ensures Ordered(Finish(s, i, reply, now).transactions)
  {
    hide Handle, SortedList.Remove, Ordered;
    WithoutOrdered(s.transactions, i);
  }

  lemma WithoutOrdered(ts: seq<Transaction>, i: nat)
    requires Ordered(ts) && i < |ts|
    ensures Ordered(Without(ts, i))
  {
    hide Tokened;
    assert forall k | 0 <= k < |ts| - 1 :: Without(ts, i)[k] == ts[if k < i then k else k + 1];
  }

  lemma SendOrdered(s: State, i: nat, now: int)
    requires Ordered(s.transactions) && i < |s.transactions|
    ensures Ordered(Send(s, i, now).0.transactions)
  {
    hide Send, Finish, Ordered;
    SendFrame(s, i, now);
    var (t, sent, over) := Transmit(s.transactions[i], now);
    ReplaceOrdered(s.transactions, i, t);
    if over {
      FinishOrdered(s.(transactions := s.transactions[i := t],
                       log := if sent then s.log + [Sending(s, t, now)] else s.log),
                    i, None, now);
    }
  }

  lemma InsertOrdered(ts: seq<Transaction>, t: Transaction)
    requires Ordered(ts) && Tokened(t) && t.responseTimeout == 0
    ensures Ordered(SortedList.Insert(ts, t, Mid))
  {
    hide SortedList.Sorted, SortedList.StrictlySorted, SortedList.HasId, SortedList.Insert, Tokened;
    SortedList.InsertKeepsSorted(ts, t, Mid);
    SortedList.InsertAt(ts, t, Mid);
  }

  lemma BeginOrdered(s: State, kind: Kind, peer: Peer, now: int)
    requires Ordered(s.transactions)
    ensures Ordered(Begin(s, kind, peer, now).0.transactions)
  {
    hide Send, Ordered, SortedList.Insert;
    var t := NewTransaction(s, kind, peer, now);
    InsertOrdered(s.transactions, t);
    SendOrdered(s.(transactions := SortedList.Insert(s.transactions, t, Mid),
                   nextMID := (s.nextMID + 1) % 0x1_0000, drawn := s.drawn + 1, created := s.created + 1),
                SortedList.Position(s.transactions, t, Mid), now);
  }

  /** Every elementary operation keeps the list ordered. */
  lemma OrderIsKept(inv: Property)
    requires forall s: State :: inv(s) <==> Ordered(s.transactions)
    ensures Kept(inv) && KeptByUpdate(inv)
  {
    hide Ordered, Send, Finish, Begin, Start, OnlyManages;
    forall s: State, i: nat, now: int | i < |s.transactions| && inv(s) ensures inv(Send(s, i, now).0) {
      SendOrdered(s, i, now);
    }
    forall s: State, i: nat, acked: bool, time: int | i < |s.transactions| && inv(s)
      ensures inv(Touch(s, i, acked, time))
    {
      ReplaceOrdered(s.transactions, i, Touch(s, i, acked, time).transactions[i]);
    }
    forall s: State, i: nat, reply: Option<Message>, now: int | i < |s.transactions| && inv(s)
      ensures inv(Finish(s, i, reply, now))
    {
      FinishOrdered(s, i, reply, now);
    }
    forall s: State, kind: Kind, peer: Peer, now: int | inv(s) ensures inv(Begin(s, kind, peer, now).0) {
      BeginOrdered(s, kind, peer, now);
    }
    forall s: State, env: Env | inv(s) ensures inv(Start(s, env).0) {
      StartFrame(s, env);
      EmptyOrdered();
    }
    forall a: State, b: State | inv(a) && OnlyManages(a, b) ensures inv(b) {
      SameTransactions(a, b);
    }
    ManagesIsEnough(inv);
    BeginIsEnough(inv);
  }

  lemma SameTransactions(a: State, b: State)
    requires OnlyManages(a, b)
    ensures a.transactions == b.transactions
  {
  }

  lemma EmptyOrdered()
    ensures Ordered([])
  {
  }

  /** In every run the list is ordered. */
  lemma RunOrdered(s: State, events: seq<(Event, Env)>)
    requires Ordered(s.transactions)
    ensures Ordered(Run(s, events).transactions)
  {
    hide Run, Ordered;
    var inv := (r: State) => Ordered(r.transactions);
    OrderIsKept(inv);
    RunKeeps(inv, s, events);
  }

  // ---------- which transaction a reply ends ----------

  /** A transaction takes a message from its session that carries its token, or, as long as it is not acknowledged, an
      acknowledgement or a reset with its message identifier (section 4.2 of RFC 7252). */
  predicate Takes(s: State, t: Transaction, session: Session, m: Message) {
    && SessionOf(s, t.peer) == Some(session)
    && (m.token == t.token || (!t.ackReceived && m.mtype in {Ack, Rst} && m.mid == t.mID))
  }

  lemma {:induction false} PassesBy(s: State, session: Session, m: Message, answers: bool, now: int, i: nat, j: nat)
    requires i <= j <= |s.transactions|
    requires forall k | i <= k < j :: !Takes(s, s.transactions[k], session, m)
    ensures HandleResponse(s, session, m, answers, now, i) == HandleResponse(s, session, m, answers, now, j)
    decreases j - i
  {
    hide Finish;
    if i < j {
      assert !Takes(s, s.transactions[i], session, m);
      assert s.transactions[i := s.transactions[i]] == s.transactions;
      PassesBy(s, session, m, answers, now, i + 1, j);
    }
  }

  /** The first transaction from place i on that takes the message, or the end of the list. */
  function Taker(s: State, session: Session, m: Message, i: nat): (j: nat)
    requires i <= |s.transactions|
    ensures i <= j <= |s.transactions|
    ensures forall k | i <= k < j :: !Takes(s, s.transactions[k], session, m)
    ensures j < |s.transactions| ==> Takes(s, s.transactions[j], session, m)
    decreases |s.transactions| - i
  {
    if i == |s.transactions| || Takes(s, s.transactions[i], session, m) then i else Taker(s, session, m, i + 1)
  }

  /** A reply that no transaction from its session waits for changes nothing. */
  lemma StrayIsIgnored(s: State, session: Session, m: Message, answers: bool, now: int)
    requires forall k | 0 <= k < |s.transactions| :: !Takes(s, s.transactions[k], session, m)
    ensures HandleResponse(s, session, m, answers, now, 0) == (s, false)
  {
    PassesBy(s, session, m, answers, now, 0, |s.transactions|);
  }

  /** A reply to t (sections 5.2.1 and 5.2.2 of RFC 7252): it carries t's token and, if it is an
      acknowledgement, t's message identifier too. */
  predicate RepliesTo(m: Message, t: Transaction) {
    m.token == t.token && m.mtype != Rst && (m.mtype == Ack ==> m.mid == t.mID)
  }

  /** No other transaction takes a reply to t. */
  lemma OnlyItsOwn(s: State, i: nat, k: nat, session: Session, m: Message)
    requires Ordered(s.transactions) && i < |s.transactions| && k < |s.transactions|
    requires s.transactions[k].mID != s.transactions[i].mID && RepliesTo(m, s.transactions[i])
    ensures !Takes(s, s.transactions[k], session, m)
  {
    var t, u := s.transactions[i], s.transactions[k];
    assert t.mID == 0x100 * (t.mID / 0x100) + t.mID % 0x100;
    assert u.mID == 0x100 * (u.mID / 0x100) + u.mID % 0x100;
    assert Tokened(t) && Tokened(u);
  }

  /** No other transaction in the list has the message identifier of this one. */
  predicate OwnMid(ts: seq<Transaction>, i: nat)
    requires i < |ts|
  {
    forall k | 0 <= k < |ts| && k != i :: ts[k].mID != ts[i].mID
  }

  /** In every run a reply to a transaction from its session ends that one, if no other in the list has its message
      identifier, with the reply handed to its handler, and no other. Only a 4.01 with retries left leaves it in the
      list, due later. The rest of the state is as the handler leaves it, except that a separate confirmable
      response is acknowledged. */
  lemma ReplyEndsItsTransaction(s0: State, events: seq<(Event, Env)>, i: nat, session: Session, m: Message,
                                answers: bool, now: int)
    requires Initial(s0)
    requires var s := Run(s0, events);
             && i < |s.transactions| && OwnMid(s.transactions, i)
             && SessionOf(s, s.transactions[i].peer) == Some(session) && RepliesTo(m, s.transactions[i])
    ensures var s := Run(s0, events);
            var t := s.transactions[i];
            var (r, taken) := HandleResponse(s, session, m, answers, now, 0);
            var s1 := if m.mtype == Con && answers then Log(s, Answered(session, 0)) else s;
            taken &&
            if m.code == UNAUTHORIZED && MAX_RETRANSMIT > t.retransCounter
            then r == s1.(transactions := s.transactions[i := t.(ackReceived := false,
                                                                 retransTime := t.retransTime + RESPONSE_TIMEOUT)])
            else r == Handle(s1, t, Some(m), now).(transactions := Without(s.transactions, i))
  {
    hide Run, Ordered, OwnMid, RepliesTo;
    assert Ordered(s0.transactions) by { EmptyOrdered(); }
    RunOrdered(s0, events);
    ReplyIsTaken(Run(s0, events), i, session, m, answers, now);
  }

  lemma ReplyIsTaken(s: State, i: nat, session: Session, m: Message, answers: bool, now: int)
    requires Ordered(s.transactions) && i < |s.transactions| && OwnMid(s.transactions, i)
    requires SessionOf(s, s.transactions[i].peer) == Some(session) && RepliesTo(m, s.transactions[i])
    ensures var t := s.transactions[i];
            var (r, taken) := HandleResponse(s, session, m, answers, now, 0);
            var s1 := if m.mtype == Con && answers then Log(s, Answered(session, 0)) else s;
            taken &&
            if m.code == UNAUTHORIZED && MAX_RETRANSMIT > t.retransCounter
            then r == s1.(transactions := s.transactions[i := t.(ackReceived := false,
                                                                 retransTime := t.retransTime + RESPONSE_TIMEOUT)])
            else r == Handle(s1, t, Some(m), now).(transactions := Without(s.transactions, i))
  {
    hide Ordered, Handle, Takes, Finish;
    forall k | 0 <= k < i ensures !Takes(s, s.transactions[k], session, m) { OnlyItsOwn(s, i, k, session, m); }
    PassesBy(s, session, m, answers, now, 0, i);
    var t := s.transactions[i];
    var t1 := if Acknowledges(t, m) then t.(ackReceived := true) else t;
    var s1 := if m.mtype == Con && answers then Log(s, Answered(session, 0)) else s;
    var s2 := s1.(transactions := s.transactions[i := t1]);
    HandleReads(s1, s2, t, t1, Some(m), now);
    ReplaceOrdered(s.transactions, i, t1);
    FinishTakesItself(s2, i, Some(m), now);
    assert Without(s.transactions[i := t1], i) == Without(s.transactions, i);
    assert s.transactions[i := t1][i := t1.(ackReceived := false, retransTime := t1.retransTime + RESPONSE_TIMEOUT)]
        == s.transactions[i := t.(ackReceived := false, retransTime := t.retransTime + RESPONSE_TIMEOUT)];
  }

  /** With its own identifier a transaction is taken out by it. */
  lemma FinishTakesItself(s: State, i: nat, reply: Option<Message>, now: int)
    requires Ordered(s.transactions) && i < |s.transactions| && OwnMid(s.transactions, i)
    ensures Finish(s, i, reply, now) ==
            Handle(s, s.transactions[i], reply, now).(transactions := Without(s.transactions, i))
  {
    hide Handle, SortedList.Remove, Tokened;
    SortedList.RemoveFirst(s.transactions, i, Mid);
    HandleFrame(s, s.transactions[i], reply, now);
  }

  predicate SameButList(a: State, b: State) { b == a.(transactions := b.transactions) }

  lemma RegistrationReads(a: State, b: State, i: nat, reply: Option<Message>, now: int)
    requires SameButList(a, b)
    ensures RegistrationReply(b, i, reply, now) == RegistrationReply(a, i, reply, now).(transactions := b.transactions)
  {
  }

  lemma UpdateReads(a: State, b: State, i: nat, reply: Option<Message>, now: int)
    requires SameButList(a, b)
    ensures UpdateReply(b, i, reply, now) == UpdateReply(a, i, reply, now).(transactions := b.transactions)
  {
  }

  lemma DeregistrationReads(a: State, b: State, i: nat)
    requires SameButList(a, b)
    ensures DeregistrationReply(b, i) == DeregistrationReply(a, i).(transactions := b.transactions)
  {
  }

  /** A reply handler does not look at the list, nor at whether its transaction was acknowledged. */
  lemma HandleReads(a: State, b: State, t: Transaction, u: Transaction, reply: Option<Message>, now: int)
    requires SameButList(a, b) && u == t.(ackReceived := u.ackReceived)
    ensures Handle(b, u, reply, now) == Handle(a, t, reply, now).(transactions := b.transactions)
  {
    hide RegistrationReply, UpdateReply, DeregistrationReply;
    var a1, b1 := Log(a, Ending(a, t, reply)), Log(b, Ending(b, t, reply));
    if t.peer.ManagementServer? {
      RegistrationReads(a1, b1, t.peer.index, reply, now);
      UpdateReads(a1, b1, t.peer.index, reply, now);
      DeregistrationReads(a1, b1, t.peer.index);
    }
  }
}
