/** Every transaction is accounted for. */
module Completion {
  // It is in the list, or its reply handler was called once, or lwm2m_start freed it; and it was transmitted as often
  // as its counter says, at most MAX_RETRANSMIT times.

  import opened Core
  import opened Client
  import opened Engine
  import opened Induction
  import opened ClientFacts
  import opened ManagementFacts
  import SortedList

  /** The transmissions a counter stands for. */
  function Transmissions(t: Transaction): nat { if t.retransCounter == 0 then 0 else t.retransCounter - 1 }

  predicate Paced(t: Transaction, log: seq<Output>) {
    t.retransCounter <= MAX_RETRANSMIT + 1 && Tally(log, SentBy(t.serial)) == Transmissions(t)
  }

  /** The account of transaction number k. */
  predicate Account(s: State, k: nat) {
    && Count(s.transactions, OfSerial(k)) + Tally(s.log, OverBy(k)) == One(k < s.created)
    && Tally(s.log, SentBy(k)) <= MAX_RETRANSMIT
    && (k >= s.created ==> Tally(s.log, SentBy(k)) == 0)
    && (forall i | 0 <= i < |s.transactions| && s.transactions[i].serial == k :: Paced(s.transactions[i], s.log))
  }

  lemma SilentKeeps(s: State, r: State, outputs: seq<Output>, k: nat)
    requires Account(s, k) && (forall i | 0 <= i < |outputs| :: Silent(outputs[i]))
    requires r.transactions == s.transactions && r.created == s.created && r.log == s.log + outputs
    ensures Account(r, k)
  {
    TallyAppend(s.log, outputs, OverBy(k));
    TallyAppend(s.log, outputs, SentBy(k));
    TallySilent(outputs, OverBy(k));
    TallySilent(outputs, SentBy(k));
  }

  lemma SameKeeps(s: State, r: State, k: nat)
    requires Account(s, k) && r.transactions == s.transactions && r.created == s.created && r.log == s.log
    ensures Account(r, k)
  {
  }

  /** Transaction i is changed in a way that shows in no account. */
  lemma ReplaceKeeps(s: State, i: nat, t: Transaction, k: nat)
    requires Account(s, k) && i < |s.transactions|
    requires t.serial == s.transactions[i].serial && t.retransCounter == s.transactions[i].retransCounter
    ensures Account(s.(transactions := s.transactions[i := t]), k)
  {
    CountReplace(s.transactions, i, t, OfSerial(k));
  }

  lemma FinishKeeps(s: State, i: nat, reply: Option<Message>, now: int, k: nat)
    requires i < |s.transactions|
    requires Count(s.transactions, OfSerial(k)) + Tally(s.log, OverBy(k)) == One(k < s.created)
    requires Tally(s.log, SentBy(k)) <= MAX_RETRANSMIT && (k >= s.created ==> Tally(s.log, SentBy(k)) == 0)
    requires forall j | 0 <= j < |s.transactions| && j != i && s.transactions[j].serial == k ::
      Paced(s.transactions[j], s.log)
    ensures Account(Finish(s, i, reply, now), k)
  {
    hide Handle, Count, Tally;
    var t := s.transactions[i];
    HandleFrame(s, t, reply, now);
    CountWithout(s.transactions, i, OfSerial(k));
    TallyOne(s.log, Ending(s, t, reply), OverBy(k));
    TallyOne(s.log, Ending(s, t, reply), SentBy(k));
    var rest := Without(s.transactions, i);
    assert forall j | 0 <= j < |rest| :: rest[j] == s.transactions[if j < i then j else j + 1];
  }

  lemma SendKeeps(s: State, i: nat, now: int, k: nat)
    requires Account(s, k) && i < |s.transactions|
    ensures Account(Send(s, i, now).0, k)
  {
    hide Send, Finish, Count, Tally;
    SendFrame(s, i, now);
    var (t, sent, over) := Transmit(s.transactions[i], now);
    var o := Sending(s, t, now);
    var s1 := s.(transactions := s.transactions[i := t], log := if sent then s.log + [o] else s.log);
    CountReplace(s.transactions, i, t, OfSerial(k));
    TallyOne(s.log, o, OverBy(k));
    TallyOne(s.log, o, SentBy(k));
    OneLive(s, k);
    NoneLive(s, k);
    if over {
      FinishKeeps(s1, i, None, now, k);
    }
  }

  lemma OneLive(s: State, k: nat)
    requires Count(s.transactions, OfSerial(k)) <= 1
    ensures forall i, j | 0 <= i < j < |s.transactions| ::
      s.transactions[i].serial != k || s.transactions[j].serial != k
  {
    forall i, j | 0 <= i < j < |s.transactions|
      ensures s.transactions[i].serial != k || s.transactions[j].serial != k
    {
      if s.transactions[i].serial == k && s.transactions[j].serial == k {
        CountUnique(s.transactions, OfSerial(k), i, j);
      }
    }
  }

  lemma BeginKeeps(s: State, kind: Kind, peer: Peer, now: int, k: nat)
    requires Account(s, k)
    ensures Account(Begin(s, kind, peer, now).0, k)
  {
    hide Send, Count, Tally, SortedList.Insert, SortedList.Position;
    var t := NewTransaction(s, kind, peer, now);
    var s1 := s.(transactions := SortedList.Insert(s.transactions, t, Mid),
                 nextMID := (s.nextMID + 1) % 0x1_0000, drawn := s.drawn + 1, created := s.created + 1);
    CountInsert(s.transactions, t, OfSerial(k));
    SortedList.InsertAt(s.transactions, t, Mid);
    var at := SortedList.Position(s.transactions, t, Mid);
    SortedList.SplicedAt(s.transactions, t, at);
    NoneLive(s, k);
    SendKeeps(s1, at, now, k);
  }

  lemma NoneLive(s: State, k: nat)
    ensures Count(s.transactions, OfSerial(k)) == 0 ==>
      forall i | 0 <= i < |s.transactions| :: s.transactions[i].serial != k
  {
    CountMember(s.transactions, OfSerial(k));
  }

  lemma FinishAccount(s: State, i: nat, reply: Option<Message>, now: int, k: nat)
    requires i < |s.transactions| && Account(s, k)
    ensures Account(Finish(s, i, reply, now), k)
  {
    FinishKeeps(s, i, reply, now, k);
  }

  lemma StartKeeps(s: State, env: Env, k: nat)
    requires Account(s, k)
    ensures Account(Start(s, env).0, k)
  {
    hide Start;
    StartFrame(s, env);
    StartTally(s, env, OverBy(k));
    StartTally(s, env, SentBy(k));
    TallyDropped(s.transactions, s.drawn, k);
  }

  lemma ManagesKeeps(s: State, r: State, k: nat)
    requires Account(s, k) && OnlyManages(s, r)
    ensures Account(r, k)
  {
    assert r.log == s.log + r.log[|s.log|..];
    SilentKeeps(s, r, r.log[|s.log|..], k);
  }

  /** Every elementary operation keeps the account of transaction k. */
  lemma AccountIsKept(k: nat, inv: Property)
    requires forall s: State :: inv(s) <==> Account(s, k)
    ensures Kept(inv) && KeptByUpdate(inv)
  {
    hide Account, Send, Finish, Begin, Start, OnlyManages;
    forall s: State, i: nat, now: int | i < |s.transactions| && inv(s) ensures inv(Send(s, i, now).0) {
      SendKeeps(s, i, now, k);
    }
    forall s: State, i: nat, acked: bool, time: int | i < |s.transactions| && inv(s)
      ensures inv(Touch(s, i, acked, time))
    {
      ReplaceKeeps(s, i, Touch(s, i, acked, time).transactions[i], k);
    }
    forall s: State, i: nat, reply: Option<Message>, now: int | i < |s.transactions| && inv(s)
      ensures inv(Finish(s, i, reply, now))
    {
      FinishAccount(s, i, reply, now, k);
    }
    forall s: State, kind: Kind, peer: Peer, now: int | inv(s) ensures inv(Begin(s, kind, peer, now).0) {
      BeginKeeps(s, kind, peer, now, k);
    }
    forall s: State, servers: seq<Server>, bsServers: seq<Server> | inv(s)
      ensures inv(SetServers(s, servers, bsServers))
    {
      SameKeeps(s, SetServers(s, servers, bsServers), k);
    }
    forall s: State, bsState: BsState, bsStart: int | inv(s) ensures inv(SetBootstrap(s, bsState, bsStart)) {
      SameKeeps(s, SetBootstrap(s, bsState, bsStart), k);
    }
    forall a: State, b: State | inv(a) && OnlyManages(a, b) ensures inv(b) {
      ManagesKeeps(a, b, k);
    }
    forall s: State, env: Env | inv(s) ensures inv(Start(s, env).0) {
      StartKeeps(s, env, k);
    }
    ManagesIsEnough(inv);
    BeginIsEnough(inv);
  }

  /** In every run every transaction ever made is in the list, has had its reply handler called, or was
      freed by lwm2m_start: exactly one of these, once. No transaction is sent more than MAX_RETRANSMIT
      times, and one in the list was sent as often as its counter says. */
  lemma ExactlyOnce(s: State, events: seq<(Event, Env)>, k: nat)
    requires Initial(s)
    ensures var r := Run(s, events);
            && Count(r.transactions, OfSerial(k)) + Tally(r.log, OverBy(k)) == One(k < r.created)
            && Tally(r.log, SentBy(k)) <= MAX_RETRANSMIT
            && (forall i | 0 <= i < |r.transactions| && r.transactions[i].serial == k ::
                  Paced(r.transactions[i], r.log))
  {
    hide Run;
    var inv := (r: State) => Account(r, k);
    AccountIsKept(k, inv);
    RunKeeps(inv, s, events);
  }
}
