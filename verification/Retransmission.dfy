/** When a transaction that gets no reply is sent again, and that it ends, whatever happens to the others. */
module Retransmission {
  import opened Core
  import opened Client
  import opened Management
  import opened Engine
  import opened Induction
  import opened ClientFacts
  import opened ManagementFacts
  import opened Matching
  import opened OneServer
  import Completion
  import Observe
  import SortedList

  /** A transaction first sent at t0, whose counter is one more than the number n of times it was sent: it is
      due again when 1 + 2 + ... + n response timeouts have gone by. */
  predicate OnSchedule(t: Transaction, t0: int) {
    var n := t.retransCounter - 1;
    !t.ackReceived && 1 <= n <= MAX_RETRANSMIT && t.retransTime == t0 + RESPONSE_TIMEOUT * (n * (n + 1) / 2)
  }

  /** The time at which the last transmission is given up. */
  function LastDeadline(t0: int): int { t0 + RESPONSE_TIMEOUT * (MAX_RETRANSMIT * (MAX_RETRANSMIT + 1) / 2) }

  /** A transaction keeps its schedule when it is sent again, and goes on just while it may be sent again. */
  lemma TransmitKeepsSchedule(t: Transaction, t0: int, now: int)
    requires OnSchedule(t, t0)
    ensures t.retransTime <= LastDeadline(t0)
    ensures var (u, sent, over) := Transmit(t, now);
            if t.retransCounter <= MAX_RETRANSMIT
            then sent && !over && OnSchedule(u, t0) && u.retransCounter == t.retransCounter + 1
            else !sent && over
  {
  }

  // ---------- one step ----------

  /** The transactions that a step at this time leaves, if none gets a reply. */
  function Survivors(ts: seq<Transaction>, now: int): seq<Transaction> {
    if ts == [] then []
    else
      Survivor(ts[0], now) + Survivors(ts[1..], now)
  }

  /** What one step makes of one transaction. */
  function Survivor(t: Transaction, now: int): seq<Transaction> {
    if t.retransTime > now then [t] else if Transmit(t, now).2 then [] else [Transmit(t, now).0]
  }

  lemma SurvivorsCons(ts: seq<Transaction>, i: nat, now: int)
    requires i < |ts|
    ensures Survivors(ts[i..], now) == Survivor(ts[i], now) + Survivors(ts[i + 1..], now)
  {
    hide Transmit;
    assert ts[i..][0] == ts[i] && ts[i..][1..] == ts[i + 1..];
  }

  /** The loop over a list that shrinks under it treats every transaction once, for itself. */
  lemma {:induction false} StepTreatsEachOnce(s: State, i: nat, now: int)
    requires i <= |s.transactions|
    ensures StepTransactions(s, i, now).transactions ==
            s.transactions[..i] + Survivors(s.transactions[i..], now)
    ensures StepTransactions(s, i, now).created == s.created
    decreases |s.transactions| - i
  {
    hide Send, Transmit, Survivors;
    var ts := s.transactions;
    if i >= |ts| {
      NoSurvivors(now);
      assert ts[i..] == [] && ts[..i] == ts;
    } else {
      SurvivorsCons(ts, i, now);
      var rest := Survivors(ts[i + 1..], now);
      if ts[i].retransTime > now {
        StepTreatsEachOnce(s, i + 1, now);
        OneStays(ts, ts, i, rest);
      } else {
        SendOutcome(s, i, now);
        var (s1, removed) := Send(s, i, now);
        var us := s1.transactions;
        if removed {
          StepTreatsEachOnce(s1, i, now);
          OneGoes(ts, i, rest);
        } else {
          StepTreatsEachOnce(s1, i + 1, now);
          OneStays(ts, us, i, rest);
        }
      }
    }
  }

  lemma OneStays(ts: seq<Transaction>, us: seq<Transaction>, i: nat, rest: seq<Transaction>)
    requires i < |us| && i < |ts| && us == ts[i := us[i]]
    ensures us[i + 1..] == ts[i + 1..] && us[..i + 1] + rest == ts[..i] + ([us[i]] + rest)
  {
    assert us[..i + 1] == ts[..i] + [us[i]];
    SortedList.Associates(ts[..i], [us[i]], rest);
  }

  lemma OneGoes(ts: seq<Transaction>, i: nat, rest: seq<Transaction>)
    requires i < |ts|
    ensures Without(ts, i)[..i] == ts[..i] && Without(ts, i)[i..] == ts[i + 1..] && [] + rest == rest
  {
  }

  lemma NoSurvivors(now: int)
    ensures Survivors([], now) == []
  {
  }

  /** transaction_send leaves all other transactions alone. */
  lemma SendOutcome(s: State, i: nat, now: int)
    requires i < |s.transactions|
    ensures var (t, sent, over) := Transmit(s.transactions[i], now);
            var (r, removed) := Send(s, i, now);
            && removed == over && r.created == s.created
            && r.log == s.log + (if sent then [Sending(s, t, now)] else [])
                              + (if over then [Ending(s, t, None)] else [])
            && r.transactions == if over then Without(s.transactions, i) else s.transactions[i := t]
  {
    hide Send, Handle, Transmit;
    SendFrame(s, i, now);
    var (t, sent, over) := Transmit(s.transactions[i], now);
    HandleFrame(s.(transactions := s.transactions[i := t],
                   log := if sent then s.log + [Sending(s, t, now)] else s.log),
                t, None, now);
    assert Without(s.transactions[i := t], i) == Without(s.transactions, i);
  }

  /** Every transaction left was there before; it was due and was sent again, or it was not due. */
  lemma {:induction false} SurvivorsCome(ts: seq<Transaction>, now: int, t: Transaction)
    requires t in Survivors(ts, now)
    ensures exists u :: u in ts &&
              if u.retransTime > now then t == u else t == Transmit(u, now).0 && !Transmit(u, now).2
  {
    hide Transmit;
    if t in Survivors(ts[1..], now) {
      SurvivorsCome(ts[1..], now, t);
    } else {
      assert ts[0] in ts;
    }
  }

  // ---------- what else happens leaves transaction k alone ----------

  /** No transaction k appears that was not there, as it is, before. */
  predicate Untouched(s: State, r: State, k: nat) {
    r.created >= s.created && forall t | t in r.transactions && t.serial == k :: t in s.transactions
  }

  lemma InsertMembers(ts: seq<Transaction>, t: Transaction)
    ensures forall u | u in SortedList.Insert(ts, t, Mid) && u != t :: u in ts
  {
    hide SortedList.Insert;
    SortedList.InsertAt(ts, t, Mid);
  }

  /** Sending another transaction leaves transaction k alone. */
  lemma SendUntouched(s: State, i: nat, now: int, k: nat)
    requires i < |s.transactions| && s.transactions[i].serial != k
    ensures Untouched(s, Send(s, i, now).0, k)
  {
    hide Send, Transmit;
    SendOutcome(s, i, now);
    TransmitKeepsSerial(s.transactions[i], now);
    var ts := s.transactions;
    assert forall u | u in Without(ts, i) :: u in ts;
    var t := Transmit(ts[i], now).0;
    assert forall u | u in ts[i := t] && u != t :: u in ts;
  }

  lemma BeginUntouched(s: State, kind: Kind, peer: Peer, now: int, k: nat)
    requires k < s.created
    ensures Untouched(s, Begin(s, kind, peer, now).0, k)
  {
    hide Send, SortedList.Insert, SortedList.Position;
    var t := NewTransaction(s, kind, peer, now);
    InsertMembers(s.transactions, t);
    InsertedAt(s.transactions, t);
    SendUntouched(s.(transactions := SortedList.Insert(s.transactions, t, Mid),
                     nextMID := (s.nextMID + 1) % 0x1_0000, drawn := s.drawn + 1, created := s.created + 1),
                  SortedList.Position(s.transactions, t, Mid), now, k);
  }

  /** The log apart, nothing but a step and a reply touches transaction k. */
  lemma UntouchedIsKept(from: State, k: nat, inv: Property)
    requires k < from.created && forall s: State :: inv(s) <==> Untouched(from, s, k)
    ensures KeptByServers(inv) && KeptByBootstrap(inv) && KeptByUpdate(inv)
  {
    hide Begin, Start;
    forall s: State, kind: Kind, peer: Peer, now: int | inv(s) ensures inv(Begin(s, kind, peer, now).0) {
      BeginUntouched(s, kind, peer, now, k);
    }
    forall s: State, env: Env | inv(s) ensures inv(Start(s, env).0) {
      StartFrame(s, env);
    }
    BeginIsEnough(inv);
  }

  /** What comes after the transactions in a step leaves transaction k alone. */
  lemma RestOfStepUntouched(s: State, env: Env, k: nat)
    requires k < s.created
    ensures Untouched(s, UpdateBootstrapState(s, env), k)
    ensures Untouched(s, UpdateBootstrapState(RegistrationUpdate(s, env), env), k)
  {
    hide UpdateFrom, UpdateBootstrapState, Untouched;
    var inv := (r: State) => Untouched(s, r, k);
    UntouchedIsKept(s, k, inv);
    assert inv(s) by { Itself(s, k); }
    var s1 := UpdateFrom(s, env, AnyRegistered(s.servers), 0);
    UpdateFromKeeps(inv, s, env, AnyRegistered(s.servers), 0);
    assert inv(SetBootstrap(s1, Requested, s1.bsStart));
    UpdateBootstrapStateKeeps(inv, s, env);
    UpdateBootstrapStateKeeps(inv, RegistrationUpdate(s, env), env);
  }

  lemma Itself(s: State, k: nat)
    ensures Untouched(s, s, k)
  {
  }

  /** A step sends transaction k again if it is due, and does nothing else to it. */
  lemma StepComes(s: State, env: Env, k: nat, t: Transaction)
    requires k < s.created && t in Step(s, env).transactions && t.serial == k && env.now >= 0
    ensures t in Survivors(s.transactions, env.now)
  {
    hide StepTransactions, RegistrationUpdate, UpdateBootstrapState, Survivors;
    StepTreatsEachOnce(s, 0, env.now);
    assert s.transactions[..0] == [] && s.transactions[0..] == s.transactions;
    RestOfStepUntouched(StepTransactions(s, 0, env.now), env, k);
  }

  // ---------- replies to others ----------

  /** The time at which transaction k was first sent. */
  function FirstSent(log: seq<Output>, k: nat): Option<int> {
    if log == [] then None
    else
      var before := FirstSent(log[..|log| - 1], k);
      var o := log[|log| - 1];
      if before.Some? then before else if o.Sent? && o.serial == k then Some(o.time) else None
  }

  lemma FirstSentOne(log: seq<Output>, o: Output, k: nat)
    ensures FirstSent(log + [o], k) ==
            if FirstSent(log, k).Some? then FirstSent(log, k)
            else if o.Sent? && o.serial == k then Some(o.time) else None
  {
    assert (log + [o])[..|log|] == log;
  }

  lemma {:induction false} FirstSentAppend(log: seq<Output>, more: seq<Output>, k: nat)
    requires forall i | 0 <= i < |more| :: !(more[i].Sent? && more[i].serial == k)
    ensures FirstSent(log + more, k) == FirstSent(log, k)
  {
    if more == [] {
      assert log + more == log;
    } else {
      var most := more[..|more| - 1];
      assert log + more == (log + most) + [more[|more| - 1]];
      FirstSentOne(log + most, more[|more| - 1], k);
      FirstSentAppend(log, most, k);
    }
  }

  /** Transaction k is as it was, and so is the time it was first sent. */
  predicate Spared(s: State, r: State, k: nat) {
    Untouched(s, r, k) && r.created == s.created && FirstSent(r.log, k) == FirstSent(s.log, k)
  }

  lemma ReplaceSpared(s: State, i: nat, u: Transaction, k: nat)
    requires i < |s.transactions| && u.serial != k
    ensures Spared(s, s.(transactions := s.transactions[i := u]), k)
  {
  }

  lemma FinishSpared(s: State, i: nat, reply: Option<Message>, now: int, k: nat)
    requires i < |s.transactions|
    ensures Spared(s, Finish(s, i, reply, now), k)
  {
    hide Handle, FirstSent;
    var t := s.transactions[i];
    HandleFrame(s, t, reply, now);
    FirstSentOne(s.log, Ending(s, t, reply), k);
  }

  lemma AnsweredSpared(s: State, to: Session, code: byte, k: nat)
    ensures Spared(s, Log(s, Answered(to, code)), k)
  {
    hide FirstSent;
    FirstSentOne(s.log, Answered(to, code), k);
  }

  lemma SparedOn(a: State, b: State, c: State, k: nat)
    requires Spared(a, b, k) && Spared(b, c, k)
    ensures Spared(a, c, k)
  {
  }

  /** Another transaction takes the reply. */
  lemma TakenSpares(s: State, session: Session, m: Message, answers: bool, now: int, i: nat, k: nat)
    requires i < |s.transactions| && Takes(s, s.transactions[i], session, m) && s.transactions[i].serial != k
    ensures Spared(s, HandleResponse(s, session, m, answers, now, i).0, k)
  {
    hide Finish, Spared, SessionOf;
    var t := s.transactions[i];
    var t1 := if Acknowledges(t, m) then t.(ackReceived := true) else t;
    var s1 := s.(transactions := s.transactions[i := t1]);
    var s2 := if m.mtype == Con && answers then Log(s1, Answered(session, 0)) else s1;
    ReplaceSpared(s, i, t1, k);
    AnsweredSpared(s1, session, 0, k);
    if s2 != s1 {
      SparedOn(s, s1, s2, k);
    }
    var r := HandleResponse(s, session, m, answers, now, i).0;
    if r == Finish(s1, i, Some(m), now) {
      FinishSpared(s1, i, Some(m), now, k);
      SparedOn(s, s1, r, k);
    } else if r == Finish(s2, i, Some(m), now) {
      FinishSpared(s2, i, Some(m), now, k);
      SparedOn(s, s2, r, k);
    } else if IsFinishedBy(t1, m) {
      ReplaceSpared(s2, i, r.transactions[i], k);
      SparedOn(s, s2, r, k);
    } else {
      ReplaceSpared(s1, i, r.transactions[i], k);
      SparedOn(s, s1, r, k);
    }
  }

  /** The loop of transaction_handle_response leaves transaction k alone if k does not take the message. */
  lemma {:induction false} ReplySpares(s: State, session: Session, m: Message, answers: bool, now: int, i: nat, k: nat)
    requires forall t | t in s.transactions && t.serial == k :: !Takes(s, t, session, m)
    ensures Spared(s, HandleResponse(s, session, m, answers, now, i).0, k)
    decreases |s.transactions| - i
  {
    hide Finish, Takes, HandleResponse;
    if i >= |s.transactions| {
      NothingTaken(s, session, m, answers, now, i);
    } else if Takes(s, s.transactions[i], session, m) {
      assert s.transactions[i] in s.transactions;
      TakenSpares(s, session, m, answers, now, i, k);
    } else {
      PassesBy(s, session, m, answers, now, i, i + 1);
      ReplySpares(s, session, m, answers, now, i + 1, k);
    }
  }

  lemma NothingTaken(s: State, session: Session, m: Message, answers: bool, now: int, i: nat)
    requires i >= |s.transactions|
    ensures HandleResponse(s, session, m, answers, now, i) == (s, false)
  {
  }

  /** The event brings no reply to transaction k: no message from its server that acknowledges it or has its token.
      Replies to others and requests may come. */
  predicate Passes(s: State, e: Event, k: nat) {
    e.Packet? && !IsRequest(e.message) ==>
      forall t | t in s.transactions && t.serial == k :: !Takes(s, t, e.session, e.message)
  }

  lemma PacketSpares(s: State, session: Session, m: Message, env: Env, k: nat)
    requires !IsRequest(m) && Passes(s, Packet(session, m), k)
    ensures Spared(s, HandlePacket(s, session, m, env), k)
  {
    hide HandleResponse, SessionOf, Acknowledges, IsFinishedBy, FirstSent;
    var answers := m.mtype != Rst && m.mtype != Ack;
    var s1 := if m.mtype == Rst then s.(observed := Observe.Cancel(s.observed, m.mid, ServersOf(s, session))) else s;
    forall t | t in s.transactions && t.serial == k ensures !Takes(s1, t, session, m) {
      assert !Takes(s, t, session, m) && SessionOf(s1, t.peer) == SessionOf(s, t.peer) by {
        SessionOfReads(s, s1, t.peer);
      }
    }
    ReplySpares(s1, session, m, answers, env.now, 0, k);
    AnsweredSpared(HandleResponse(s1, session, m, answers, env.now, 0).0, session, 0, k);
  }

  lemma SessionOfReads(s: State, r: State, p: Peer)
    requires r.servers == s.servers
    ensures SessionOf(r, p) == SessionOf(s, p)
  {
  }

  /** Transaction k gets no reply in the run. */
  predicate Unanswered(s: State, events: seq<(Event, Env)>, k: nat)
    decreases |events|
  {
    events == [] || (Passes(s, events[0].0, k) && Unanswered(Apply(s, events[0].0, events[0].1), events[1..], k))
  }

  // ---------- the schedule of every transaction ----------

  /** Transaction k, if it is in the list, is on the schedule of the time it was first sent. */
  predicate Scheduled(s: State, k: nat) {
    && (k < s.created <==> FirstSent(s.log, k).Some?)
    && (forall t | t in s.transactions && t.serial == k :: k < s.created && OnSchedule(t, FirstSent(s.log, k).value))
  }

  lemma SparedScheduled(s: State, r: State, k: nat)
    requires Scheduled(s, k) && Spared(s, r, k)
    ensures Scheduled(r, k)
  {
  }

  lemma SendScheduled(s: State, i: nat, now: int, k: nat)
    requires Scheduled(s, k) && i < |s.transactions|
    ensures Scheduled(Send(s, i, now).0, k)
  {
    hide Send, Transmit, FirstSent, OnSchedule;
    SendOutcome(s, i, now);
    TransmitKeepsSerial(s.transactions[i], now);
    SentLog(s, i, now, k);
    var ts, r := s.transactions, Send(s, i, now).0;
    assert ts[i] in ts;
    if ts[i].serial == k {
      TransmitKeepsSchedule(ts[i], FirstSent(s.log, k).value, now);
    }
    var u := Transmit(ts[i], now).0;
    forall t | t in r.transactions && t.serial == k ensures k < s.created && OnSchedule(t, FirstSent(s.log, k).value) {
      assert t in ts || (t == u && !Transmit(ts[i], now).2);
    }
  }

  /** What transaction_send logs about transaction k. */
  lemma SentLog(s: State, i: nat, now: int, k: nat)
    requires i < |s.transactions|
    ensures var (t, sent, over) := Transmit(s.transactions[i], now);
            FirstSent(Send(s, i, now).0.log, k) ==
            if FirstSent(s.log, k).Some? || !sent || t.serial != k then FirstSent(s.log, k) else Some(now)
  {
    hide Send, Transmit, FirstSent;
    SendOutcome(s, i, now);
    var (t, sent, over) := Transmit(s.transactions[i], now);
    var log := s.log + if sent then [Sending(s, t, now)] else [];
    FirstSentOne(s.log, Sending(s, t, now), k);
    FirstSentOne(log, Ending(s, t, None), k);
    assert s.log + [] == s.log && log + [] == log;
  }

  lemma BeginScheduled(s: State, kind: Kind, peer: Peer, now: int, k: nat)
    requires Scheduled(s, k)
    ensures Scheduled(Begin(s, kind, peer, now).0, k)
  {
    hide Send, FirstSent, SortedList.Insert, SortedList.Position, OnSchedule;
    var t := NewTransaction(s, kind, peer, now);
    var at := SortedList.Position(s.transactions, t, Mid);
    var s1 := s.(transactions := SortedList.Insert(s.transactions, t, Mid),
                 nextMID := (s.nextMID + 1) % 0x1_0000, drawn := s.drawn + 1, created := s.created + 1);
    InsertMembers(s.transactions, t);
    InsertedAt(s.transactions, t);
    if k != s.created {
      SendScheduled(s1, at, now, k);
    } else {
      SortedList.InsertAt(s.transactions, t, Mid);
      assert forall j | 0 <= j < |s1.transactions| && j != at :: s1.transactions[j] in s.transactions;
      FirstScheduled(s1, at, now);
    }
  }

  /** The first transmission of a transaction that is alone with its number. */
  lemma FirstScheduled(s: State, at: nat, now: int)
    requires at < |s.transactions| && s.transactions[at].retransCounter == 0 && !s.transactions[at].ackReceived
    requires var k := s.transactions[at].serial;
             && FirstSent(s.log, k) == None && k < s.created
             && forall j | 0 <= j < |s.transactions| && j != at :: s.transactions[j].serial != k
    ensures Scheduled(Send(s, at, now).0, s.transactions[at].serial)
  {
    hide Send, Transmit, FirstSent, OnSchedule;
    var us, k := s.transactions, s.transactions[at].serial;
    SendOutcome(s, at, now);
    SentLog(s, at, now, k);
    FirstOnSchedule(us[at], now);
    TransmitKeepsSerial(us[at], now);
    assert forall j | 0 <= j < |us| - 1 :: Without(us, at)[j] == us[if j < at then j else j + 1];
  }

  /** The first transmission sets the schedule. */
  lemma FirstOnSchedule(t: Transaction, now: int)
    requires t.retransCounter == 0 && !t.ackReceived
    ensures var (u, sent, over) := Transmit(t, now); sent && over == (now < 0) && (now >= 0 ==> OnSchedule(u, now))
  {
  }

  lemma StartScheduled(s: State, env: Env, k: nat)
    requires Scheduled(s, k)
    ensures Scheduled(Start(s, env).0, k)
  {
    hide Start, FirstSent;
    StartFrame(s, env);
    DropsOnly(s.transactions, s.drawn);
    var calls := ServerReads(s, env);
    assert forall i | 0 <= i < |calls| :: calls[i] in calls;
    FirstSentAppend(s.log, DropAll(s.transactions, s.drawn), k);
    FirstSentAppend(s.log + DropAll(s.transactions, s.drawn), calls, k);
  }

  lemma ManagesSpares(s: State, r: State, k: nat)
    requires OnlyManages(s, r)
    ensures Spared(s, r, k)
  {
    hide FirstSent;
    assert r.log == s.log + r.log[|s.log|..];
    FirstSentAppend(s.log, r.log[|s.log|..], k);
  }

  /** Everything but a reply keeps transaction k on schedule. */
  lemma ScheduledIsKept(k: nat, inv: Property)
    requires forall s: State :: inv(s) <==> Scheduled(s, k)
    ensures KeptBySend(inv) && KeptByServers(inv) && KeptByBootstrap(inv) && KeptByUpdate(inv) && KeptByRequests(inv)
  {
    hide Scheduled, Spared, Send, Begin, Start, OnlyManages, AllReads;
    forall s: State, i: nat, now: int | i < |s.transactions| && inv(s) ensures inv(Send(s, i, now).0) {
      SendScheduled(s, i, now, k);
    }
    forall s: State, kind: Kind, peer: Peer, now: int | inv(s) ensures inv(Begin(s, kind, peer, now).0) {
      BeginScheduled(s, kind, peer, now, k);
    }
    forall s: State, servers: seq<Server>, bsServers: seq<Server> | inv(s)
      ensures inv(SetServers(s, servers, bsServers))
    {
      SameSpared(s, SetServers(s, servers, bsServers), k);
      SparedScheduled(s, SetServers(s, servers, bsServers), k);
    }
    forall s: State, bsState: BsState, bsStart: int | inv(s) ensures inv(SetBootstrap(s, bsState, bsStart)) {
      SameSpared(s, SetBootstrap(s, bsState, bsStart), k);
      SparedScheduled(s, SetBootstrap(s, bsState, bsStart), k);
    }
    forall s: State, env: Env | inv(s) ensures inv(Start(s, env).0) {
      StartScheduled(s, env, k);
    }
    forall a: State, b: State | inv(a) && OnlyManages(a, b) ensures inv(b) {
      ManagesSpares(a, b, k);
      SparedScheduled(a, b, k);
    }
    ManagesIsEnough(inv);
    BeginIsEnough(inv);
  }

  lemma SameSpared(s: State, r: State, k: nat)
    requires r.transactions == s.transactions && r.created == s.created && r.log == s.log
    ensures Spared(s, r, k)
  {
  }

  lemma ApplyScheduled(s: State, e: Event, env: Env, k: nat)
    requires Scheduled(s, k) && Passes(s, e, k)
    ensures Scheduled(Apply(s, e, env), k)
  {
    hide Scheduled, Spared, Passes, Step, HandleRequest, ValueChanged, Start, UpdateByShortId, DeregisterFrom,
      KeptBySend, KeptByServers, KeptByBootstrap;
    var inv := (r: State) => Scheduled(r, k);
    ScheduledIsKept(k, inv);
    match e
    case Tick => StepKeeps(inv, s, env);
    case Packet(session, m) =>
      if IsRequest(m) {
        var s1 := if m.mtype == Con then s else Draw(s);
        assert inv(s1);
        var (s2, code) := HandleRequest(s1, session, m, env);
        assert inv(s2);
        AnsweredSpared(s2, session, code, k);
        SparedScheduled(s2, Log(s2, Answered(session, code)), k);
      } else {
        PacketSpares(s, session, m, env, k);
        SparedScheduled(s, HandlePacket(s, session, m, env), k);
      }
    case Changed(uri) => assert inv(s);
    case StartAll => StartScheduled(s, env, k);
    case UpdateRegistration(shortID) => assert inv(s);
    case DeregisterAll => DeregisterFromKeeps(inv, s, env.now, 0);
  }

  lemma {:induction false} RunScheduled(s: State, events: seq<(Event, Env)>, k: nat)
    requires Scheduled(s, k) && Unanswered(s, events, k)
    ensures Scheduled(Run(s, events), k)
    decreases |events|
  {
    hide Apply, Scheduled, Passes;
    if events != [] {
      ApplyScheduled(s, events[0].0, events[0].1, k);
      RunScheduled(Apply(s, events[0].0, events[0].1), events[1..], k);
    }
  }

  /** In every run a transaction that gets no reply is due, after it was sent n times, RESPONSE_TIMEOUT * n(n+1)/2
      after it was first sent: the waits grow by a constant, where section 4.2 of RFC 7252 doubles them. */
  lemma ScheduleIsKept(s: State, events: seq<(Event, Env)>, k: nat)
    requires Initial(s) && Unanswered(s, events, k)
    ensures var r := Run(s, events);
            && (k < r.created <==> FirstSent(r.log, k).Some?)
            && forall i | 0 <= i < |r.transactions| && r.transactions[i].serial == k ::
                 && k < r.created && OnSchedule(r.transactions[i], FirstSent(r.log, k).value)
                 && Tally(r.log, SentBy(k)) == r.transactions[i].retransCounter - 1
  {
    hide Run, Unanswered, FirstSent, OnSchedule, Tally;
    assert Scheduled(s, k) by { NothingSent(k); }
    RunScheduled(s, events, k);
    Completion.ExactlyOnce(s, events, k);
    var r := Run(s, events);
    assert forall i | 0 <= i < |r.transactions| :: r.transactions[i] in r.transactions;
    assert forall t | t in r.transactions && t.serial == k :: t.retransCounter >= 2 by { OnScheduleIsSent(r, k); }
  }

  lemma NothingSent(k: nat)
    ensures FirstSent([], k) == None
  {
  }

  lemma OnScheduleIsSent(r: State, k: nat)
    requires Scheduled(r, k)
    ensures forall t | t in r.transactions && t.serial == k :: t.retransCounter >= 2
  {
  }

  // ---------- what section 4.2 of RFC 7252 asks for ----------

  function Power2(n: nat): nat { if n == 0 then 1 else 2 * Power2(n - 1) }

  /** The waits double from one transmission to the next: after n of them 1 + 2 + 4 + ... waits have gone by. */
  predicate Doubles(t: Transaction, t0: int) {
    t.retransCounter >= 1
    && t.retransTime == t0 + RESPONSE_TIMEOUT * (Power2(t.retransCounter - 1) - 1)
  }

  /** Up to the second transmission the waits are those of section 4.2 of RFC 7252; from the third on they fall short of
      them, in every run, for every transaction that gets no reply. */
  lemma DoublingEndsAtTwo(s: State, events: seq<(Event, Env)>, k: nat, i: nat)
    requires Initial(s) && Unanswered(s, events, k)
    requires i < |Run(s, events).transactions| && Run(s, events).transactions[i].serial == k
    ensures var r := Run(s, events);
            && FirstSent(r.log, k).Some?
            && (Doubles(r.transactions[i], FirstSent(r.log, k).value) <==> Tally(r.log, SentBy(k)) <= 2)
  {
    hide Run, Unanswered, FirstSent, Tally;
    ScheduleIsKept(s, events, k);
    var r := Run(s, events);
    TriangleOrPower(r.transactions[i], FirstSent(r.log, k).value);
  }

  lemma TriangleOrPower(t: Transaction, t0: int)
    requires OnSchedule(t, t0)
    ensures Doubles(t, t0) <==> t.retransCounter - 1 <= 2
  {
    assert Power2(1) == 2 && Power2(2) == 4 && Power2(3) == 8 && Power2(4) == 16;
    var n := t.retransCounter - 1;
    assert n == 1 || n == 2 || n == 3 || n == 4;
  }

  /** A run in which a transaction is sent for the third time, at its deadlines, and is due too early then. */
  lemma ThirdTransmission() returns (s: State, events: seq<(Event, Env)>)
    ensures Initial(s) && Unanswered(s, events, 0)
    ensures var r := Run(s, events);
            && |r.transactions| == 1 && r.transactions[0].serial == 0 && Tally(r.log, SentBy(0)) == 3
            && FirstSent(r.log, 0).Some? && !Doubles(r.transactions[0], FirstSent(r.log, 0).value)
  {
    hide Run, Unanswered, FirstSent, Tally, Step, Start;
    s := Configured();
    events := [(StartAll, At(0)), (Tick, At(0)), (Tick, At(2)), (Tick, At(6))];
    Started();
    var s1 := Start(s, At(0)).0;
    FirstTick(s1, 0);
    var s2 := Step(s1, At(0));
    var t := s2.transactions[0];
    NextTick(s2, 2, t);
    var s3 := Step(s2, At(2));
    NextTick(s3, 6, s3.transactions[0]);
    FourEvents(s, events);
    SilentIsUnanswered(s, events, 0);
    ScheduleIsKept(s, events, 0);
    DoublingEndsAtTwo(s, events, 0, 0);
  }

  lemma {:induction false} SilentIsUnanswered(s: State, events: seq<(Event, Env)>, k: nat)
    requires forall i | 0 <= i < |events| :: !events[i].0.Packet?
    ensures Unanswered(s, events, k)
    decreases |events|
  {
    hide Apply;
    if events != [] {
      SilentIsUnanswered(Apply(s, events[0].0, events[0].1), events[1..], k);
    }
  }

  // ---------- the end of the schedule ----------

  /** Transaction k, if it is in the list, was first sent at t0 and sent at least n times. */
  predicate Paced(s: State, k: nat, t0: int, n: int) {
    k < s.created
    && forall t | t in s.transactions && t.serial == k :: OnSchedule(t, t0) && t.retransCounter - 1 >= n
  }

  /** A step after the last deadline. */
  predicate Late(e: Event, env: Env, t0: int) { e.Tick? && env.now >= 0 && env.now >= LastDeadline(t0) }

  function LateSteps(events: seq<(Event, Env)>, t0: int): nat {
    if events == [] then 0 else One(Late(events[0].0, events[0].1, t0)) + LateSteps(events[1..], t0)
  }

  lemma UntouchedIsPaced(s: State, r: State, k: nat, t0: int, n: int)
    requires Paced(s, k, t0, n) && Untouched(s, r, k)
    ensures Paced(r, k, t0, n)
  {
  }

  lemma StepIsPaced(s: State, env: Env, k: nat, t0: int, n: int)
    requires Paced(s, k, t0, n)
    ensures Paced(Step(s, env), k, t0, n + One(Late(Tick, env, t0)))
  {
    hide Step, Survivors, Transmit, OnSchedule;
    var r := Step(s, env);
    StepCreates(s, env);
    if env.now >= 0 {
      forall t | t in r.transactions && t.serial == k
        ensures OnSchedule(t, t0) && t.retransCounter - 1 >= n + One(Late(Tick, env, t0))
      {
        StepComes(s, env, k, t);
        SurvivorsCome(s.transactions, env.now, t);
        var u :| u in s.transactions &&
                 if u.retransTime > env.now then t == u else t == Transmit(u, env.now).0 && !Transmit(u, env.now).2;
        TransmitKeepsSerial(u, env.now);
        TransmitKeepsSchedule(u, t0, env.now);
      }
    }
  }

  lemma TransmitKeepsSerial(t: Transaction, now: int)
    ensures Transmit(t, now).0.serial == t.serial
  {
  }

  lemma StepCreates(s: State, env: Env)
    ensures env.now < 0 ==> Step(s, env) == s
    ensures Step(s, env).created >= s.created
  {
    hide StepTransactions, RegistrationUpdate, UpdateBootstrapState;
    StepTreatsEachOnce(s, 0, env.now);
    if s.created > 0 {
      RestOfStepUntouched(StepTransactions(s, 0, env.now), env, 0);
    }
  }

  lemma ApplyIsPaced(s: State, e: Event, env: Env, k: nat, t0: int, n: int)
    requires Paced(s, k, t0, n) && Passes(s, e, k)
    ensures Paced(Apply(s, e, env), k, t0, n + One(Late(e, env, t0)))
  {
    hide Step, HandleRequest, NotifyFrom, Start, UpdateByShortId, DeregisterFrom, Paced, Passes, FirstSent;
    assert k < s.created by { PacedIsMade(s, k, t0, n); }
    var inv := (r: State) => Untouched(s, r, k);
    UntouchedIsKept(s, k, inv);
    match e
    case Tick => StepIsPaced(s, env, k, t0, n);
    case Packet(session, m) =>
      RequestManages(if m.mtype == Con then s else Draw(s), session, m, env);
      if !IsRequest(m) {
        PacketSpares(s, session, m, env, k);
      }
      UntouchedIsPaced(s, Apply(s, e, env), k, t0, n);
    case Changed(uri) =>
      NotifyManages(s, Observe.Overlapping(s.observed, uri, |s.observed|), env);
      UntouchedIsPaced(s, Apply(s, e, env), k, t0, n);
    case StartAll =>
      StartFrame(s, env);
      UntouchedIsPaced(s, Apply(s, e, env), k, t0, n);
    case UpdateRegistration(shortID) =>
      assert inv(s);
      UntouchedIsPaced(s, Apply(s, e, env), k, t0, n);
    case DeregisterAll =>
      DeregisterFromKeeps(inv, s, env.now, 0);
      UntouchedIsPaced(s, Apply(s, e, env), k, t0, n);
  }

  lemma PacedIsMade(s: State, k: nat, t0: int, n: int)
    requires Paced(s, k, t0, n)
    ensures k < s.created
  {
  }

  /** Every step after the last deadline sends an unanswered transaction once more, or ends it. */
  lemma {:induction false} LateStepsCount(s: State, events: seq<(Event, Env)>, k: nat, t0: int, n: int)
    requires Paced(s, k, t0, n) && Unanswered(s, events, k)
    ensures Paced(Run(s, events), k, t0, n + LateSteps(events, t0))
    decreases |events|
  {
    hide Apply, Paced, Passes;
    if events != [] {
      ApplyIsPaced(s, events[0].0, events[0].1, k, t0, n);
      var (e, env) := events[0];
      LateStepsCount(Apply(s, e, env), events[1..], k, t0, n + One(Late(e, env, t0)));
    }
  }

  lemma {:induction false} RunInTwo(s: State, before: seq<(Event, Env)>, after: seq<(Event, Env)>, k: nat)
    ensures Run(s, before + after) == Run(Run(s, before), after)
    ensures Unanswered(s, before + after, k) <==> Unanswered(s, before, k) && Unanswered(Run(s, before), after, k)
    decreases |before|
  {
    hide Apply, Passes;
    if before == [] {
      assert before + after == after;
    } else {
      assert (before + after)[1..] == before[1..] + after;
      RunInTwo(Apply(s, before[0].0, before[0].1), before[1..], after, k);
    }
  }

  /** In every run a transaction that gets no reply has ended, with one call of its handler or a start, once
      MAX_RETRANSMIT steps have come after its last deadline. */
  lemma UnansweredEnds(s: State, before: seq<(Event, Env)>, after: seq<(Event, Env)>, k: nat, t0: int)
    requires Initial(s) && Unanswered(s, before + after, k)
    requires FirstSent(Run(s, before).log, k) == Some(t0) && LateSteps(after, t0) >= MAX_RETRANSMIT
    ensures forall t | t in Run(s, before + after).transactions :: t.serial != k
    ensures Tally(Run(s, before + after).log, OverBy(k)) == 1
  {
    hide Run, Unanswered, FirstSent, Tally, Count, LateSteps;
    RunInTwo(s, before, after, k);
    ScheduleIsKept(s, before, k);
    var s1 := Run(s, before);
    forall t | t in s1.transactions && t.serial == k ensures OnSchedule(t, t0) {
      var i :| 0 <= i < |s1.transactions| && s1.transactions[i] == t;
    }
    LateStepsCount(s1, after, k, t0, 1);
    var r := Run(s1, after);
    assert forall i | 0 <= i < |r.transactions| :: r.transactions[i] in r.transactions;
    CountMember(r.transactions, OfSerial(k));
    Completion.ExactlyOnce(s, before + after, k);
  }
}
