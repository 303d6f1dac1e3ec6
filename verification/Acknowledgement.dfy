/** An acknowledged message is not sent again: its transaction waits for the response, and ends without one. */
module Acknowledgement {
  import opened Core
  import opened Client
  import opened Management
  import opened Engine
  import opened Induction
  import opened ClientFacts
  import opened ManagementFacts
  import opened Matching
  import opened OneServer
  import opened Retransmission
  import Completion
  import Observe
  import SortedList

  // ---------- the acknowledgement ----------

  /** The message acknowledges transaction i and is no response to it (section 5.2.2 of RFC 7252), and no
      transaction in front of it in the list takes the message. */
  predicate OnlyAcknowledges(s: State, i: nat, session: Session, m: Message)
    requires i < |s.transactions|
  {
    var t := s.transactions[i];
    && m.mtype == Ack && !IsRequest(m) && m.mid == t.mID && m.token != t.token
    && !t.ackReceived && SessionOf(s, t.peer) == Some(session)
    && forall j | 0 <= j < i :: !Takes(s, s.transactions[j], session, m)
  }

  /** The transaction as it waits for the response: once more as long as for an acknowledgement, from now on. */
  function Resting(t: Transaction, now: int): Transaction {
    t.(ackReceived := true,
       retransTime := (if now >= 0 then now else t.retransTime) + RESPONSE_TIMEOUT * t.retransCounter)
  }

  lemma AcknowledgementIsTaken(s: State, i: nat, session: Session, m: Message, env: Env)
    requires Ordered(s.transactions) && i < |s.transactions| && OnlyAcknowledges(s, i, session, m)
    ensures HandlePacket(s, session, m, env) ==
            s.(transactions := s.transactions[i := Resting(s.transactions[i], env.now)])
  {
    hide Finish, Takes, Ordered;
    PassesBy(s, session, m, false, env.now, 0, i);
    var ts, u := s.transactions, Resting(s.transactions[i], env.now);
    assert ts[i].responseTimeout == 0 by { OrderedAt(ts, i); }
    assert ts[i := ts[i].(ackReceived := true)][i := u] == ts[i := u];
  }

  lemma OrderedAt(ts: seq<Transaction>, i: nat)
    requires Ordered(ts) && i < |ts|
    ensures ts[i].responseTimeout == 0
  {
  }

  // ---------- what follows ----------

  /** The message is a 4.01 for transaction k that makes it go on, for it still has a retry. */
  predicate Rouses(s: State, session: Session, m: Message, k: nat) {
    && !IsRequest(m) && m.code == UNAUTHORIZED
    && exists t :: t in s.transactions && t.serial == k && SessionOf(s, t.peer) == Some(session)
                   && m.token == t.token && t.retransCounter < MAX_RETRANSMIT
  }

  predicate RousedBy(s: State, e: Event, k: nat) { e.Packet? && Rouses(s, e.session, e.message, k) }

  /** Nothing in the run makes transaction k go on. */
  predicate Undisturbed(s: State, events: seq<(Event, Env)>, k: nat)
    decreases |events|
  {
    events == [] || (!RousedBy(s, events[0].0, k) && Undisturbed(Apply(s, events[0].0, events[0].1), events[1..], k))
  }

  /** The transaction of u was sent n times, and is as u as long as it is in the list. */
  predicate Rests(s: State, u: Transaction, n: nat) {
    && u.ackReceived && u.serial < s.created && Tally(s.log, SentBy(u.serial)) == n
    && forall t | t in s.transactions && t.serial == u.serial :: t == u
  }

  lemma SendRests(s: State, i: nat, now: int, u: Transaction, n: nat)
    requires i < |s.transactions| && Rests(s, u, n)
    ensures Rests(Send(s, i, now).0, u, n)
  {
    hide Send, Tally;
    SendOutcome(s, i, now);
    TransmitKeepsSerial(s.transactions[i], now);
    var ts, r := s.transactions, Send(s, i, now).0;
    var (t, sent, over) := Transmit(ts[i], now);
    assert ts[i] in ts;
    var log := s.log + if sent then [Sending(s, t, now)] else [];
    TallyOne(s.log, Sending(s, t, now), SentBy(u.serial));
    TallyOne(log, Ending(s, t, None), SentBy(u.serial));
    assert s.log + [] == s.log && log + [] == log;
    assert forall x | x in r.transactions :: x in ts || (x == t && !over);
  }

  lemma BeginRests(s: State, kind: Kind, peer: Peer, now: int, u: Transaction, n: nat)
    requires Rests(s, u, n)
    ensures Rests(Begin(s, kind, peer, now).0, u, n)
  {
    hide Send, Tally, SortedList.Insert, SortedList.Position;
    var t := NewTransaction(s, kind, peer, now);
    InsertMembers(s.transactions, t);
    InsertedAt(s.transactions, t);
    SendRests(s.(transactions := SortedList.Insert(s.transactions, t, Mid),
                 nextMID := (s.nextMID + 1) % 0x1_0000, drawn := s.drawn + 1, created := s.created + 1),
              SortedList.Position(s.transactions, t, Mid), now, u, n);
  }

  lemma ManagedRests(s: State, r: State, u: Transaction, n: nat)
    requires OnlyManages(s, r) && Rests(s, u, n)
    ensures Rests(r, u, n)
  {
    hide Tally;
    assert r.log == s.log + r.log[|s.log|..];
    TallyAppend(s.log, r.log[|s.log|..], SentBy(u.serial));
    TallySilent(r.log[|s.log|..], SentBy(u.serial));
  }

  lemma StartRests(s: State, env: Env, u: Transaction, n: nat)
    requires Rests(s, u, n)
    ensures Rests(Start(s, env).0, u, n)
  {
    hide Start, Tally;
    StartFrame(s, env);
    StartTally(s, env, SentBy(u.serial));
    TallyDropped(s.transactions, s.drawn, u.serial);
  }

  lemma SameRests(s: State, r: State, u: Transaction, n: nat)
    requires r.transactions == s.transactions && r.created == s.created && r.log == s.log
    ensures Rests(r, u, n) == Rests(s, u, n)
  {
  }

  /** Everything but a message that it takes leaves it at rest. */
  lemma RestIsKept(u: Transaction, n: nat, inv: Property)
    requires forall s: State :: inv(s) <==> Rests(s, u, n)
    ensures KeptBySend(inv) && KeptByServers(inv) && KeptByBootstrap(inv) && KeptByUpdate(inv) && KeptByRequests(inv)
    ensures forall s: State, to: Session, code: byte | inv(s) :: inv(Log(s, Answered(to, code)))
  {
    hide Rests, Send, Begin, Start, OnlyManages, AllReads;
    forall s: State, i: nat, now: int | i < |s.transactions| && inv(s) ensures inv(Send(s, i, now).0) {
      SendRests(s, i, now, u, n);
    }
    forall s: State, kind: Kind, peer: Peer, now: int | inv(s) ensures inv(Begin(s, kind, peer, now).0) {
      BeginRests(s, kind, peer, now, u, n);
    }
    forall s: State, servers: seq<Server>, bsServers: seq<Server> | inv(s)
      ensures inv(SetServers(s, servers, bsServers))
    {
      SameRests(s, SetServers(s, servers, bsServers), u, n);
    }
    forall s: State, bsState: BsState, bsStart: int | inv(s) ensures inv(SetBootstrap(s, bsState, bsStart)) {
      SameRests(s, SetBootstrap(s, bsState, bsStart), u, n);
    }
    forall s: State, env: Env | inv(s) ensures inv(Start(s, env).0) {
      StartRests(s, env, u, n);
    }
    forall a: State, b: State | inv(a) && OnlyManages(a, b) ensures inv(b) {
      ManagedRests(a, b, u, n);
    }
    ManagesIsEnough(inv);
    BeginIsEnough(inv);
  }

  // ---------- messages ----------

  /** The transactions of s are r's, and maybe more, and r has sent nothing more about transaction k. */
  predicate Fewer(s: State, r: State, k: nat) {
    r.created == s.created && Tally(r.log, SentBy(k)) == Tally(s.log, SentBy(k))
    && forall t | t in r.transactions && t.serial == k :: t in s.transactions
  }

  lemma FewerRests(s: State, r: State, u: Transaction, n: nat)
    requires Rests(s, u, n) && Fewer(s, r, u.serial)
    ensures Rests(r, u, n)
  {
  }

  /** Nothing is sent when a reply comes. */
  lemma RepliesSendNothing(s: State, session: Session, m: Message, answers: bool, now: int, k: nat)
    ensures Tally(HandleResponse(s, session, m, answers, now, 0).0.log, SentBy(k)) == Tally(s.log, SentBy(k))
  {
    hide HandleResponse, Finish, Tally;
    var inv: Property := (r: State) => Tally(r.log, SentBy(k)) == Tally(s.log, SentBy(k));
    forall r: State, i: nat, reply: Option<Message>, at: int | i < |r.transactions| && inv(r)
      ensures inv(Finish(r, i, reply, at))
    {
      FinishSendsNothing(r, i, reply, at, k);
    }
    forall r: State, to: Session, code: byte | inv(r) ensures inv(Log(r, Answered(to, code))) {
      TallyOne(r.log, Answered(to, code), SentBy(k));
    }
    HandleResponseKeeps(inv, s, session, m, answers, now, 0);
  }

  lemma FinishSendsNothing(s: State, i: nat, reply: Option<Message>, now: int, k: nat)
    requires i < |s.transactions|
    ensures Tally(Finish(s, i, reply, now).log, SentBy(k)) == Tally(s.log, SentBy(k))
  {
    hide Handle, Tally;
    HandleFrame(s, s.transactions[i], reply, now);
    TallyOne(s.log, Ending(s, s.transactions[i], reply), SentBy(k));
  }

  /** A response to a transaction at rest ends it. */
  lemma ResponseEnds(s: State, session: Session, m: Message, answers: bool, now: int, i: nat)
    requires i < |s.transactions| && Takes(s, s.transactions[i], session, m) && s.transactions[i].ackReceived
    requires !(m.code == UNAUTHORIZED && s.transactions[i].retransCounter < MAX_RETRANSMIT)
    ensures HandleResponse(s, session, m, answers, now, i).0.transactions == Without(s.transactions, i)
    ensures HandleResponse(s, session, m, answers, now, i).0.created == s.created
  {
    hide Handle, SessionOf;
    var t := s.transactions[i];
    assert s.transactions[i := t] == s.transactions;
    var s2 := if m.mtype == Con && answers then Log(s, Answered(session, 0)) else s;
    HandleFrame(s2, t, Some(m), now);
  }

  lemma ResponseRests(s: State, session: Session, m: Message, answers: bool, now: int, u: Transaction, n: nat)
    requires Rests(s, u, n) && !IsRequest(m) && !Rouses(s, session, m, u.serial)
    ensures Rests(HandleResponse(s, session, m, answers, now, 0).0, u, n)
  {
    hide HandleResponse, Tally, SessionOf;
    var j := Taker(s, session, m, 0);
    PassesBy(s, session, m, answers, now, 0, j);
    RepliesSendNothing(s, session, m, answers, now, u.serial);
    var ts, r := s.transactions, HandleResponse(s, session, m, answers, now, 0).0;
    if j == |ts| {
      NothingTaken(s, session, m, answers, now, j);
    } else if ts[j].serial == u.serial {
      assert ts[j] in ts;
      ResponseEnds(s, session, m, answers, now, j);
      assert forall t | t in Without(ts, j) :: t in ts;
    } else {
      TakenSpares(s, session, m, answers, now, j, u.serial);
    }
    FewerRests(s, r, u, n);
  }

  lemma PacketRests(s: State, session: Session, m: Message, env: Env, u: Transaction, n: nat)
    requires Rests(s, u, n) && !IsRequest(m) && !Rouses(s, session, m, u.serial)
    ensures Rests(HandlePacket(s, session, m, env), u, n)
  {
    hide HandleResponse, Tally, SessionOf;
    var answers := m.mtype != Rst && m.mtype != Ack;
    var s1 := if m.mtype == Rst then s.(observed := Observe.Cancel(s.observed, m.mid, ServersOf(s, session))) else s;
    assert forall p: Peer :: SessionOf(s1, p) == SessionOf(s, p) by {
      forall p: Peer ensures SessionOf(s1, p) == SessionOf(s, p) { SessionOfReads(s, s1, p); }
    }
    assert !Rouses(s1, session, m, u.serial);
    ResponseRests(s1, session, m, answers, env.now, u, n);
    TallyOne(HandleResponse(s1, session, m, answers, env.now, 0).0.log, Answered(session, 0), SentBy(u.serial));
  }

  lemma ApplyRests(s: State, e: Event, env: Env, u: Transaction, n: nat)
    requires Rests(s, u, n) && !RousedBy(s, e, u.serial)
    ensures Rests(Apply(s, e, env), u, n)
  {
    hide Rests, Step, HandlePacket, HandleRequest, ValueChanged, Start, UpdateByShortId, DeregisterFrom,
      KeptBySend, KeptByServers, KeptByBootstrap, Rouses;
    var inv := (r: State) => Rests(r, u, n);
    RestIsKept(u, n, inv);
    match e
    case Tick => StepKeeps(inv, s, env);
    case Packet(session, m) =>
      if IsRequest(m) {
        RequestRests(inv, s, session, m, env);
      } else {
        PacketRests(s, session, m, env, u, n);
      }
    case Changed(uri) => assert inv(s);
    case StartAll => StartRests(s, env, u, n);
    case UpdateRegistration(shortID) => assert inv(s);
    case DeregisterAll => DeregisterFromKeeps(inv, s, env.now, 0);
  }

  lemma RequestRests(inv: Property, s: State, session: Session, m: Message, env: Env)
    requires KeptByRequests(inv) && inv(s) && IsRequest(m)
    requires forall s: State, to: Session, code: byte | inv(s) :: inv(Log(s, Answered(to, code)))
    ensures inv(HandlePacket(s, session, m, env))
  {
    hide HandleRequest;
    var s1 := if m.mtype == Con then s else Draw(s);
    assert inv(s1);
    var (s2, code) := HandleRequest(s1, session, m, env);
    assert inv(s2) && inv(Log(s2, Answered(session, code)));
  }

  lemma {:induction false} RunRests(s: State, events: seq<(Event, Env)>, u: Transaction, n: nat)
    requires Rests(s, u, n) && Undisturbed(s, events, u.serial)
    ensures Rests(Run(s, events), u, n)
    decreases |events|
  {
    hide Apply, Rests, RousedBy;
    if events != [] {
      ApplyRests(s, events[0].0, events[0].1, u, n);
      RunRests(Apply(s, events[0].0, events[0].1), events[1..], u, n);
    }
  }

  // ---------- the deadline ----------

  /** The log has grown, and its new part tells of an end of transaction k without a reply. */
  predicate GivenUp(s: State, r: State, k: nat) {
    s.log <= r.log && exists o | o in r.log[|s.log|..] :: o.Ended? && o.serial == k && o.reply == None
  }

  /** The log has grown, and its new part does not tell of an end of transaction k. */
  predicate NotEnded(s: State, r: State, k: nat) {
    s.log <= r.log && forall o | o in r.log[|s.log|..] :: !(o.Ended? && o.serial == k)
  }

  lemma NotEndedOn(a: State, b: State, c: State, k: nat)
    requires NotEnded(a, b, k) && NotEnded(b, c, k)
    ensures NotEnded(a, c, k)
  {
    assert c.log[|a.log|..] == b.log[|a.log|..] + c.log[|b.log|..];
  }

  lemma GivenUpBehind(a: State, b: State, c: State, k: nat)
    requires NotEnded(a, b, k) && GivenUp(b, c, k)
    ensures GivenUp(a, c, k)
  {
    assert c.log[|a.log|..] == b.log[|a.log|..] + c.log[|b.log|..];
  }

  lemma GivenUpBefore(a: State, b: State, c: State, k: nat)
    requires GivenUp(a, b, k) && b.log <= c.log
    ensures GivenUp(a, c, k)
  {
    assert c.log[|a.log|..] == b.log[|a.log|..] + c.log[|b.log|..];
  }

  /** One transmission ends at most its own transaction, and one that was acknowledged without a reply. */
  lemma SendEnds(s: State, i: nat, now: int, k: nat)
    requires i < |s.transactions|
    ensures s.transactions[i].serial != k ==> NotEnded(s, Send(s, i, now).0, k)
    ensures s.transactions[i].serial == k && s.transactions[i].ackReceived ==> GivenUp(s, Send(s, i, now).0, k)
    ensures s.log <= Send(s, i, now).0.log
  {
    hide Send, Transmit, NotEnded, GivenUp;
    SendOutcome(s, i, now);
    TransmitKeepsSerial(s.transactions[i], now);
    AcknowledgedIsOver(s.transactions[i], now);
    var (t, sent, over) := Transmit(s.transactions[i], now);
    var first := if sent then [Sending(s, t, now)] else [];
    var last := if over then [Ending(s, t, None)] else [];
    Joined(s, Send(s, i, now).0, first, last, k);
  }

  lemma AcknowledgedIsOver(t: Transaction, now: int)
    ensures t.ackReceived ==> Transmit(t, now) == (t, false, true)
  {
  }

  lemma Joined(s: State, r: State, first: seq<Output>, last: seq<Output>, k: nat)
    requires r.log == s.log + first + last && |last| <= 1
    requires forall o | o in first :: !o.Ended?
    ensures s.log <= r.log
    ensures (last == [] || !(last[0].Ended? && last[0].serial == k)) ==> NotEnded(s, r, k)
    ensures last != [] && last[0].Ended? && last[0].serial == k && last[0].reply == None ==> GivenUp(s, r, k)
  {
    assert r.log == s.log + (first + last);
    assert r.log[|s.log|..] == first + last;
    assert last != [] ==> last[0] in first + last;
  }

  /** The loop over the transactions ends the acknowledged ones that are due, without a reply, and no others. */
  lemma {:induction false} LoopEnds(s: State, i: nat, now: int, u: Transaction)
    requires i <= |s.transactions| && u.ackReceived
    requires forall t | t in s.transactions[i..] && t.serial == u.serial :: t == u
    ensures var r := StepTransactions(s, i, now);
            if u.retransTime <= now && u in s.transactions[i..] then GivenUp(s, r, u.serial)
            else NotEnded(s, r, u.serial)
    decreases |s.transactions| - i
  {
    hide Send, Transmit, NotEnded, GivenUp;
    var ts, k := s.transactions, u.serial;
    if i >= |ts| {
      NothingEnded(s, k);
    } else {
      assert ts[i..] == [ts[i]] + ts[i + 1..];
      if ts[i].retransTime > now {
        LoopEnds(s, i + 1, now, u);
      } else {
        SendOutcome(s, i, now);
        SendEnds(s, i, now, k);
        var (s1, removed) := Send(s, i, now);
        var j := if removed then i else i + 1;
        assert s1.transactions[j..] == ts[i + 1..];
        LoopEnds(s1, j, now, u);
        var r := StepTransactions(s1, j, now);
        if ts[i].serial == k {
          Grows(s1, r, k);
          GivenUpBefore(s, s1, r, k);
        } else if u.retransTime <= now && u in ts[i + 1..] {
          GivenUpBehind(s, s1, r, k);
        } else {
          NotEndedOn(s, s1, r, k);
        }
      }
    }
  }

  lemma NothingEnded(s: State, k: nat)
    ensures NotEnded(s, s, k)
  {
  }

  lemma Grows(s: State, r: State, k: nat)
    requires GivenUp(s, r, k) || NotEnded(s, r, k)
    ensures s.log <= r.log
  {
  }

  // ---------- the rest of a step ----------

  /** What comes behind the transactions in a step ends none that was made before. */
  predicate Spares(s: State, r: State, k: nat) { r.created >= s.created && NotEnded(s, r, k) }

  lemma AppendSpares(s: State, r: State, more: seq<Output>, k: nat)
    requires r.log == s.log + more && r.created >= s.created
    requires forall o | o in more :: !(o.Ended? && o.serial == k)
    ensures Spares(s, r, k)
  {
    assert r.log[|s.log|..] == more;
  }

  lemma SparesOn(a: State, b: State, c: State, k: nat)
    requires Spares(a, b, k) && Spares(b, c, k)
    ensures Spares(a, c, k)
  {
    NotEndedOn(a, b, c, k);
  }

  lemma BeginSpares(s: State, kind: Kind, peer: Peer, now: int, k: nat)
    requires k < s.created
    ensures Spares(s, Begin(s, kind, peer, now).0, k)
  {
    hide Send, SortedList.Insert, SortedList.Position;
    var t := NewTransaction(s, kind, peer, now);
    InsertedAt(s.transactions, t);
    var s1 := s.(transactions := SortedList.Insert(s.transactions, t, Mid),
                 nextMID := (s.nextMID + 1) % 0x1_0000, drawn := s.drawn + 1, created := s.created + 1);
    SendOutcome(s1, SortedList.Position(s.transactions, t, Mid), now);
    SendEnds(s1, SortedList.Position(s.transactions, t, Mid), now, k);
  }

  lemma StartSpares(s: State, env: Env, k: nat)
    ensures Spares(s, Start(s, env).0, k)
  {
    hide Start;
    StartFrame(s, env);
    DropsOnly(s.transactions, s.drawn);
    var r := Start(s, env).0;
    assert r.log == s.log + (DropAll(s.transactions, s.drawn) + ServerReads(s, env));
    AppendSpares(s, r, DropAll(s.transactions, s.drawn) + ServerReads(s, env), k);
  }

  lemma SparingIsKept(from: State, k: nat, inv: Property)
    requires k < from.created && forall s: State :: inv(s) <==> Spares(from, s, k)
    ensures KeptByServers(inv) && KeptByBootstrap(inv)
  {
    hide Begin, Start, NotEnded;
    forall s: State, kind: Kind, peer: Peer, now: int | inv(s) ensures inv(Begin(s, kind, peer, now).0) {
      BeginSpares(s, kind, peer, now, k);
      SparesOn(from, s, Begin(s, kind, peer, now).0, k);
    }
    forall s: State, r: State | inv(s) && r.log == s.log && r.created == s.created ensures inv(r) {
      AppendSpares(s, r, [], k);
      SparesOn(from, s, r, k);
    }
    forall s: State, env: Env | inv(s) ensures inv(Start(s, env).0) {
      StartSpares(s, env, k);
      SparesOn(from, s, Start(s, env).0, k);
    }
    forall s: State, calls: seq<Output> | AllReads(calls) && inv(s) ensures inv(LogAll(s, calls)) {
      AppendSpares(s, LogAll(s, calls), calls, k);
      SparesOn(from, s, LogAll(s, calls), k);
    }
    BeginIsEnough(inv);
  }

  lemma RestSpares(s: State, env: Env, k: nat)
    requires k < s.created
    ensures NotEnded(s, UpdateBootstrapState(s, env), k)
    ensures NotEnded(s, UpdateBootstrapState(RegistrationUpdate(s, env), env), k)
  {
    hide UpdateFrom, UpdateBootstrapState, NotEnded;
    var inv := (r: State) => Spares(s, r, k);
    SparingIsKept(s, k, inv);
    NothingEnded(s, k);
    assert inv(s);
    var s1 := UpdateFrom(s, env, AnyRegistered(s.servers), 0);
    UpdateFromKeeps(inv, s, env, AnyRegistered(s.servers), 0);
    SameLog(s1, SetBootstrap(s1, Requested, s1.bsStart), k);
    SparesOn(s, s1, SetBootstrap(s1, Requested, s1.bsStart), k);
    UpdateBootstrapStateKeeps(inv, s, env);
    UpdateBootstrapStateKeeps(inv, RegistrationUpdate(s, env), env);
  }

  lemma SameLog(s: State, r: State, k: nat)
    requires r.log == s.log && r.created == s.created
    ensures Spares(s, r, k)
  {
    AppendSpares(s, r, [], k);
  }

  /** A step that begins before the deadline of an acknowledged transaction does not end it; the first one at its
      deadline or later ends it, without a reply. */
  lemma StepAtDeadline(s: State, env: Env, u: Transaction, n: nat)
    requires Rests(s, u, n) && u in s.transactions && env.now >= 0
    ensures var r := Step(s, env);
            if u.retransTime <= env.now
            then GivenUp(s, r, u.serial) && forall t | t in r.transactions :: t.serial != u.serial
            else NotEnded(s, r, u.serial)
  {
    hide StepTransactions, RegistrationUpdate, UpdateBootstrapState, NotEnded, GivenUp, Survivors, Tally;
    var k, r, s1 := u.serial, Step(s, env), StepTransactions(s, 0, env.now);
    assert s.transactions[0..] == s.transactions;
    LoopEnds(s, 0, env.now, u);
    StepTreatsEachOnce(s, 0, env.now);
    RestSpares(s1, env, k);
    if u.retransTime <= env.now {
      Grows(s1, r, k);
      GivenUpBefore(s, s1, r, k);
      forall t | t in r.transactions ensures t.serial != k {
        if t.serial == k {
          StepComes(s, env, k, t);
          SurvivorsCome(s.transactions, env.now, t);
          var x :| x in s.transactions &&
                   if x.retransTime > env.now then t == x else t == Transmit(x, env.now).0 && !Transmit(x, env.now).2;
          TransmitKeepsSerial(x, env.now);
        }
      }
    } else {
      NotEndedOn(s, s1, r, k);
    }
  }

  // ---------- runs ----------

  /** A message from the server of transaction i that acknowledges it, and is no response, changes nothing but this
      transaction, which is now due one response timeout for each transmission later. From then on, whatever happens but
      a 4.01 for it, the transaction is not sent again, and it stays as it is while it is in the list. A step before its
      deadline does not end it, and the first one at its deadline or later does, without a reply. */
  lemma AcknowledgedIsNotSentAgain(s0: State, before: seq<(Event, Env)>, i: nat, session: Session, m: Message, at: Env,
                                   after: seq<(Event, Env)>, step: Env)
    requires Initial(s0)
    requires var s := Run(s0, before);
             && i < |s.transactions| && OnlyAcknowledges(s, i, session, m)
             && Undisturbed(Apply(s, Packet(session, m), at), after, s.transactions[i].serial)
    ensures var s := Run(s0, before);
            var u := Resting(s.transactions[i], at.now);
            var r := Run(Apply(s, Packet(session, m), at), after);
            && Apply(s, Packet(session, m), at) == s.(transactions := s.transactions[i := u])
            && Tally(r.log, SentBy(u.serial)) == Tally(s.log, SentBy(u.serial))
            && (forall t | t in r.transactions && t.serial == u.serial :: t == u)
            && (u in r.transactions && step.now >= 0 ==>
                  if u.retransTime <= step.now
                  then GivenUp(r, Step(r, step), u.serial)
                       && forall t | t in Step(r, step).transactions :: t.serial != u.serial
                  else NotEnded(r, Step(r, step), u.serial))
  {
    hide Run, Step, HandlePacket, OnlyAcknowledges, Undisturbed, Ordered, Tally, GivenUp, NotEnded;
    EmptyOrdered();
    RunOrdered(s0, before);
    var s := Run(s0, before);
    var t, u := s.transactions[i], Resting(s.transactions[i], at.now);
    AcknowledgementIsTaken(s, i, session, m, at);
    var a := s.(transactions := s.transactions[i := u]);
    var n := Tally(s.log, SentBy(t.serial));
    Completion.ExactlyOnce(s0, before, t.serial);
    ReplacedRests(s, i, u, n);
    RunRests(a, after, u, n);
    var r := Run(a, after);
    if u in r.transactions && step.now >= 0 {
      StepAtDeadline(r, step, u, n);
    }
  }

  lemma ReplacedRests(s: State, i: nat, u: Transaction, n: nat)
    requires i < |s.transactions| && u.serial == s.transactions[i].serial && u.ackReceived
    requires Tally(s.log, SentBy(u.serial)) == n
    requires Count(s.transactions, OfSerial(u.serial)) + Tally(s.log, OverBy(u.serial)) == One(u.serial < s.created)
    ensures Rests(s.(transactions := s.transactions[i := u]), u, n)
  {
    hide Tally, Count;
    CountMember(s.transactions, OfSerial(u.serial));
    assert Picks(OfSerial(u.serial), s.transactions[i]);
    Completion.OneLive(s, u.serial);
  }

  /** There is such a run: the first registration is acknowledged by an empty message, and given up four seconds
      later. */
  lemma AcknowledgedRegistration() returns (s: State, before: seq<(Event, Env)>, m: Message)
    ensures Initial(s) && |Run(s, before).transactions| == 1 && OnlyAcknowledges(Run(s, before), 0, 7, m)
    ensures var a := Apply(Run(s, before), Packet(7, m), At(1));
            var r := Step(a, At(5));
            GivenUp(a, r, 0) && (forall t | t in r.transactions :: t.serial != 0)
  {
    hide Run, Step, Start, GivenUp, NotEnded;
    s := Configured();
    before := [(StartAll, At(0)), (Tick, At(0))];
    m := Message(Ack, 0, 0, [], [], false, [], []);
    Started();
    FirstTick(Start(s, At(0)).0, 0);
    TwoEvents(s, before[0], before[1]);
    var t := Run(s, before).transactions[0];
    var a := Apply(Run(s, before), Packet(7, m), At(1));
    assert t.serial == 0 && Resting(t, 1).retransTime == 5;
    AcknowledgedIsNotSentAgain(s, before, 0, 7, m, At(1), [], At(5));
    NoEvents(a);
    assert a.transactions[0] == Resting(t, 1);
  }

  lemma NoEvents(s: State)
    ensures Run(s, []) == s
  {
  }
}
