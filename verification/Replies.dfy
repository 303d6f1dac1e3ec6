/** What the end of a transaction means for its server: a reply settles what was asked for, or nothing comes. */
module Replies {
  import opened Core
  import opened Client
  import opened ClientFacts
  import opened Engine
  import opened Induction
  import opened Management
  import opened Matching
  import opened Retransmission
  import Observe
  import R = RegisterPayload
  import U = Uri

  // ---------- one end ----------

  /** The server counts the client as registered if the answer is the one hoped for, and has failed otherwise. The
      time of the registration is the time of the answer, as far as it is known. */
  predicate Judged(v: Server, w: Server, ok: bool, now: int) {
    && w.status == (if ok then Registered else RegFailed)
    && w.registration == (if now >= 0 then now else v.registration)
    && w == v.(status := w.status, registration := w.registration, location := w.location)
  }

  /** What the end of t, with this code or without a reply, makes of the servers and of the bootstrap. */
  predicate Settles(s: State, r: State, t: Transaction, reply: Option<Message>, now: int) {
    && |r.servers| == |s.servers|
    && (forall j | 0 <= j < |s.servers| && (t.kind == Bootstrap || t.peer != ManagementServer(j)) ::
          r.servers[j] == s.servers[j])
    && (forall j | 0 <= j < |s.servers| && t.peer == ManagementServer(j) ::
          var v, w := s.servers[j], r.servers[j];
          match (t.kind, v.status)
          case (Register, RegPending) =>
            var ok := reply.Some? && reply.value.code == CREATED;
            Judged(v, w, ok, now) && w.location == if ok then Some(LocationText(reply.value.location)) else v.location
          case (Update, RegUpdatePending) =>
            Judged(v, w, reply.Some? && reply.value.code == CHANGED, now) && w.location == v.location
          case (Deregister, DeregPending) => w == v.(status := Deregistered)
          case _ => w == v)
    && (if t.kind != Bootstrap then r.bsState == s.bsState && r.bsStart == s.bsStart
        else r.bsStart == now && r.bsState == if reply.Some? && reply.value.code == CHANGED && reply.value.mtype != Rst
                                              then Pending else Failed)
  }

  lemma HandleSettles(s: State, t: Transaction, reply: Option<Message>, now: int)
    ensures Settles(s, Handle(s, t, reply, now), t, reply, now)
  {
    hide LocationText;
  }

  // ---------- in runs ----------

  lemma SettlesFrom(s: State, a: State, r: State, t: Transaction, reply: Option<Message>, now: int)
    requires a.servers == s.servers && a.bsState == s.bsState && a.bsStart == s.bsStart
    requires Settles(a, r, t, reply, now)
    ensures Settles(s, r, t, reply, now)
  {
    hide LocationText;
  }

  lemma SettlesTo(s: State, a: State, r: State, t: Transaction, reply: Option<Message>, now: int)
    requires r.servers == a.servers && r.bsState == a.bsState && r.bsStart == a.bsStart
    requires Settles(s, a, t, reply, now)
    ensures Settles(s, r, t, reply, now)
  {
    hide LocationText;
  }

  /** In every run a response to a transaction from its server takes that one out of the list and settles what it was
      about, unless it is a 4.01 and a retry is left. */
  lemma ReplySettles(s0: State, events: seq<(Event, Env)>, i: nat, session: Session, m: Message, env: Env)
    requires Initial(s0) && !IsRequest(m)
    requires var s := Run(s0, events);
             && i < |s.transactions| && OwnMid(s.transactions, i)
             && SessionOf(s, s.transactions[i].peer) == Some(session) && RepliesTo(m, s.transactions[i])
             && !(m.code == UNAUTHORIZED && MAX_RETRANSMIT > s.transactions[i].retransCounter)
    ensures var s := Run(s0, events);
            var r := Apply(s, Packet(session, m), env);
            r.transactions == Without(s.transactions, i) && Settles(s, r, s.transactions[i], Some(m), env.now)
  {
    hide Run, HandleResponse, Handle, Settles, OwnMid, SessionOf;
    var s, answers := Run(s0, events), m.mtype != Ack;
    var t := s.transactions[i];
    ReplyEndsItsTransaction(s0, events, i, session, m, answers, env.now);
    var s1 := if m.mtype == Con && answers then Log(s, Answered(session, 0)) else s;
    var h := Handle(s1, t, Some(m), env.now);
    HandleSettles(s1, t, Some(m), env.now);
    SettlesFrom(s, s1, h, t, Some(m), env.now);
    SettlesTo(s, h, Apply(s, Packet(session, m), env), t, Some(m), env.now);
  }

  /** So does a reset, which is an empty message with the identifier of a transaction that is not acknowledged yet. */
  lemma ResetSettles(s0: State, events: seq<(Event, Env)>, i: nat, session: Session, m: Message, env: Env)
    requires Initial(s0) && !IsRequest(m)
    requires var s := Run(s0, events);
             && i < |s.transactions| && OwnMid(s.transactions, i)
             && SessionOf(s, s.transactions[i].peer) == Some(session) && !s.transactions[i].ackReceived
             && m.mtype == Rst && m.token == [] && m.mid == s.transactions[i].mID
    ensures var s := Run(s0, events);
            var r := Apply(s, Packet(session, m), env);
            r.transactions == Without(s.transactions, i) && Settles(s, r, s.transactions[i], Some(m), env.now)
  {
    hide Run, Handle, Settles, Ordered, SessionOf, Finish;
    EmptyOrdered();
    RunOrdered(s0, events);
    var s := Run(s0, events);
    var t, ts := s.transactions[i], s.transactions;
    var s1 := s.(observed := Observe.Cancel(s.observed, m.mid, ServersOf(s, session)));
    forall k | 0 <= k < i ensures !Takes(s1, ts[k], session, m) {
      TokenIsThere(ts, k);
    }
    SessionOfReads(s, s1, t.peer);
    PassesBy(s1, session, m, false, env.now, 0, i);
    var t1 := t.(ackReceived := true);
    var s2 := s1.(transactions := ts[i := t1]);
    ReplaceOrdered(ts, i, t1);
    FinishTakesItself(s2, i, Some(m), env.now);
    HandleSettles(s2, t1, Some(m), env.now);
    var h, r := Handle(s2, t1, Some(m), env.now), Apply(s, Packet(session, m), env);
    SettlesFrom(s, s2, h, t1, Some(m), env.now);
    SettlesTo(s, h, r, t1, Some(m), env.now);
    SameSettles(s, r, t, t1, Some(m), env.now);
    assert Without(ts[i := t1], i) == Without(ts, i);
  }

  lemma TokenIsThere(ts: seq<Transaction>, k: nat)
    requires Ordered(ts) && k < |ts|
    ensures ts[k].token != []
  {
  }

  lemma SameSettles(s: State, r: State, t: Transaction, u: Transaction, reply: Option<Message>, now: int)
    requires t.kind == u.kind && t.peer == u.peer && Settles(s, r, u, reply, now)
    ensures Settles(s, r, t, reply, now)
  {
    hide LocationText;
  }

  /** A transaction that is given up settles it too: without a reply. */
  lemma GivingUpSettles(s: State, i: nat, now: int)
    requires i < |s.transactions| && Send(s, i, now).1
    ensures Settles(s, Send(s, i, now).0, s.transactions[i], None, now)
  {
    hide Handle, Settles;
    SendFrame(s, i, now);
    var (t, sent, over) := Transmit(s.transactions[i], now);
    var s1 := s.(transactions := s.transactions[i := t],
                 log := if sent then s.log + [Sending(s, t, now)] else s.log);
    HandleSettles(s1, t, None, now);
    SettlesFrom(s, s1, Handle(s1, t, None, now), t, None, now);
    SettlesTo(s, Handle(s1, t, None, now), Send(s, i, now).0, t, None, now);
    SameSettles(s, Send(s, i, now).0, s.transactions[i], t, None, now);
  }

  // ---------- acknowledgements ----------

  /** What a message that is no request adds to the log: an acknowledgement if it is confirmable, whoever takes it or
      nobody, and then the end of one transaction, or none. */
  predicate Acknowledged(log: seq<Output>, after: seq<Output>, session: Session, m: Message) {
    var ack := if m.mtype == Con then [Answered(session, 0)] else [];
    after == log + ack || (after != [] && after[|after| - 1].Ended? && after[..|after| - 1] == log + ack)
  }

  lemma TakenIsAcknowledged(s: State, session: Session, m: Message, answers: bool, now: int, i: nat)
    requires i < |s.transactions| && Takes(s, s.transactions[i], session, m) && answers == (m.mtype !in {Ack, Rst})
    ensures var (r, taken) := HandleResponse(s, session, m, answers, now, i);
            taken && Acknowledged(s.log, r.log, session, m)
  {
    hide Handle, SessionOf;
    var t := s.transactions[i];
    var t1 := if Acknowledges(t, m) then t.(ackReceived := true) else t;
    var s1 := s.(transactions := s.transactions[i := t1]);
    var s2 := if m.mtype == Con && answers then Log(s1, Answered(session, 0)) else s1;
    HandleFrame(s1, t1, Some(m), now);
    HandleFrame(s2, t1, Some(m), now);
    assert s.log + [] == s.log;
  }

  lemma MessagesAreAcknowledged(s: State, session: Session, m: Message, env: Env)
    requires !IsRequest(m)
    ensures Acknowledged(s.log, HandlePacket(s, session, m, env).log, session, m)
  {
    hide HandleResponse, Takes;
    var answers := m.mtype !in {Ack, Rst};
    var s1 := if m.mtype == Rst then s.(observed := Observe.Cancel(s.observed, m.mid, ServersOf(s, session))) else s;
    var j := Taker(s1, session, m, 0);
    PassesBy(s1, session, m, answers, env.now, 0, j);
    assert s.log + [] == s.log;
    if j == |s1.transactions| {
      NothingTaken(s1, session, m, answers, env.now, j);
    } else {
      TakenIsAcknowledged(s1, session, m, answers, env.now, j);
    }
  }

  // ---------- the way back ----------

  /** A path that a text of slashes and segments can hold: no segment has a slash or a NUL in it, and only the first
      may be empty if it is the last. */
  predicate Textual(path: seq<string>) {
    && path != [] && (forall segment | segment in path :: '/' !in segment && NUL !in segment)
    && (|path| > 1 ==> path[|path| - 1] != "")
  }

  lemma {:induction false} JoinedPlain(path: seq<string>)
    requires forall segment | segment in path :: NUL !in segment
    ensures NUL !in U.Joined(path)
  {
    if path != [] {
      JoinedPlain(path[1..]);
    }
  }

  lemma {:induction false} CutsJoined(path: seq<string>)
    requires path != [] && (forall segment | segment in path :: '/' !in segment)
    requires |path| > 1 ==> path[|path| - 1] != ""
    ensures U.Joined(path) != "" && U.CutRest(U.Joined(path)[1..]) == path
  {
    hide U.CutRest;
    var rest := U.Joined(path[1..]);
    assert U.Joined(path)[1..] == path[0] + rest;
    CutsOne(path[0], rest);
    if |path| > 1 {
      assert path[1..][|path| - 2] == path[|path| - 1];
      CutsJoined(path[1..]);
      LongerThanSlash(path[1..]);
      assert path == [path[0]] + path[1..];
    } else {
      assert path[1..] == [];
    }
  }

  lemma CutsOne(segment: string, rest: string)
    requires '/' !in segment && (rest != "" ==> rest[0] == '/')
    ensures U.CutRest(segment + rest) == [segment] + if |rest| > 1 then U.CutRest(rest[1..]) else []
  {
    U.UpToSlashAll(segment, rest);
    if |rest| > 1 {
      assert (segment + rest)[|segment| + 1..] == rest[1..];
    }
  }

  lemma {:induction false} LongerThanSlash(path: seq<string>)
    requires path != [] && path[|path| - 1] != ""
    ensures |U.Joined(path)| > 1
  {
    if |path| > 1 {
      assert path[1..][|path| - 2] == path[|path| - 1];
      LongerThanSlash(path[1..]);
    }
  }

  /** What the client keeps of a Location-Path leads back to it. */
  lemma LocationLeadsBack(path: seq<string>)
    requires Textual(path)
    ensures U.Cut(LocationText(path)) == path
  {
    JoinedPlain(path);
    CutsJoined(path);
    R.UpToAll(U.Joined(path), "", NUL, NUL);
    assert U.Joined(path) + "" == U.Joined(path);
  }
}
