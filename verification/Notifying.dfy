/** Observation in runs of the client engine. */
module Notifying {
  import opened Core
  import opened Client
  import opened Management
  import opened Engine
  import I = Induction
  import opened ClientFacts
  import SortedList
  import O = Observe
  import U = Uri

  // ---------- the engine's notifications are those of Observe ----------

  /** The observed paths that object_read can read now. */
  function Readable(s: State, env: Env): set<U.Uri> {
    set i | 0 <= i < |s.observed| && ReadObject(s, s.observed[i].uri, env).0 == CONTENT :: s.observed[i].uri
  }

  /** The notifications among the outputs. */
  function Notifications(log: seq<Output>): seq<O.Notification> {
    if log == [] then []
    else Notifications(log[..|log| - 1])
         + if log[|log| - 1].Notified? then [log[|log| - 1].n] else []
  }

  lemma {:induction false} NotificationsAppend(a: seq<Output>, b: seq<Output>)
    ensures Notifications(a + b) == Notifications(a) + Notifications(b)
    decreases |b|
  {
    if b == [] {
      assert a + b == a;
    } else {
      var c := b[..|b| - 1];
      assert (a + b)[..|a + b| - 1] == a + c;
      NotificationsAppend(a, c);
    }
  }

  lemma {:induction false} NoNotifications(log: seq<Output>)
    requires forall i | 0 <= i < |log| :: !log[i].Notified?
    ensures Notifications(log) == []
  {
    if log != [] {
      NoNotifications(log[..|log| - 1]);
    }
  }

  lemma {:induction false} NoticesNotify(msgs: seq<O.Notification>)
    ensures Notifications(Notices(msgs)) == msgs
  {
    if msgs != [] {
      var c := msgs[..|msgs| - 1];
      assert Notices(msgs)[..|msgs| - 1] == Notices(c);
      NoticesNotify(c);
      assert msgs == c + [msgs[|msgs| - 1]];
    }
  }

  lemma {:induction false} ReadsNotifyNothing(id: uint16, instances: seq<uint16>, env: Env)
    ensures forall i | 0 <= i < |ReadInstances(id, instances, env).1| :: ReadInstances(id, instances, env).1[i].Called?
  {
    if instances != [] {
      ReadsNotifyNothing(id, instances[1..], env);
    }
  }

  lemma ReadObjectNotifiesNothing(s: State, uri: U.Uri, env: Env)
    ensures Notifications(ReadObject(s, uri, env).1) == []
  {
    hide ReadInstances;
    var at := FindObject(s, Number(uri.objectId));
    if at.Some? {
      ReadsNotifyNothing(s.objects[at.value].id, s.objects[at.value].instances, env);
      ReadsNotifyNothing(s.objects[at.value].id, [Number(uri.instanceId)], env);
    }
    NoNotifications(ReadObject(s, uri, env).1);
  }

  /** A read looks at the objects and the bootstrap state only. */
  predicate SameObjects(s: State, r: State) { s.objects == r.objects && s.bsState == r.bsState }

  lemma SameRead(s: State, r: State, uri: U.Uri, env: Env)
    requires SameObjects(s, r)
    ensures ReadObject(s, uri, env) == ReadObject(r, uri, env)
  {
  }

  /** What the loop of lwm2m_resource_value_changed does to the entries and sends is what Observe.Notify says,
      for any set of paths that agrees with object_read. */
  lemma {:induction false} LoopNotifies(s: State, places: seq<nat>, readable: set<U.Uri>, env: Env)
    requires forall k | 0 <= k < |places| :: places[k] < |s.observed|
    requires forall i | 0 <= i < |s.observed| ::
      s.observed[i].uri in readable <==> ReadObject(s, s.observed[i].uri, env).0 == CONTENT
    ensures var r := NotifyFrom(s, places, env);
            var (obs, msgs) := O.Notify(s.observed, places, readable, s.nextMID);
            && r.observed == obs && Notifications(r.log) == Notifications(s.log) + msgs
            && r.nextMID == O.Mid(s.nextMID, |msgs|)
    decreases |places|
  {
    hide ReadObject, O.Told, O.Messages, O.Mid, Notices, Notifications;
    if places == [] {
      MidZero(s.nextMID);
    } else {
      var o := s.observed[places[0]];
      var (code, calls) := ReadObject(s, o.uri, env);
      ReadObjectNotifiesNothing(s, o.uri, env);
      NotificationsAppend(s.log, calls);
      var s1 := s.(log := s.log + calls);
      if code != CONTENT {
        forall i | 0 <= i < |s.observed| { SameRead(s, s1, s.observed[i].uri, env); }
        LoopNotifies(s1, places[1..], readable, env);
      } else {
        var first := O.Messages(o, s.nextMID);
        var s2 := s1.(
          observed := s.observed[places[0] := o.(watchers := O.Told(o.watchers, s.nextMID))],
          nextMID := O.Mid(s.nextMID, |o.watchers|), drawn := s.drawn + |o.watchers|,
          log := s1.log + Notices(first));
        NotificationsAppend(s1.log, Notices(first));
        NoticesNotify(first);
        forall i | 0 <= i < |s2.observed|
          ensures s2.observed[i].uri in readable <==> ReadObject(s2, s2.observed[i].uri, env).0 == CONTENT
        {
          assert s2.observed[i].uri == s.observed[i].uri;
          SameRead(s, s2, s.observed[i].uri, env);
        }
        LoopNotifies(s2, places[1..], readable, env);
        O.MidAdd(s.nextMID, |o.watchers|, |O.Notify(s2.observed, places[1..], readable, s2.nextMID).1|);
      }
    }
  }

  lemma MidZero(n: uint16)
    ensures O.Mid(n, 0) == n
  {
  }

  // ---------- the invariant in every run ----------

  predicate Keeps(s: State, r: State) { O.Inv(s.observed) ==> O.Inv(r.observed) }

  lemma SendKeepsObserved(s: State, i: nat, now: int)
    requires i < |s.transactions|
    ensures Send(s, i, now).0.observed == s.observed
  {
    hide Handle, Send;
    SendFrame(s, i, now);
    var (t, sent, over) := Transmit(s.transactions[i], now);
    HandleFrame(s.(transactions := s.transactions[i := t],
                   log := if sent then s.log + [Sending(s, t, now)] else s.log),
                t, None, now);
  }

  lemma BeginKeepsObserved(s: State, kind: Kind, peer: Peer, now: int)
    ensures Begin(s, kind, peer, now).0.observed == s.observed
  {
    hide Send;
    var t := NewTransaction(s, kind, peer, now);
    SendKeepsObserved(s.(transactions := SortedList.Insert(s.transactions, t, Mid),
                         nextMID := (s.nextMID + 1) % 0x1_0000, drawn := s.drawn + 1, created := s.created + 1),
                      SortedList.Position(s.transactions, t, Mid), now);
  }

  lemma FinishKeepsObserved(s: State, i: nat, reply: Option<Message>, now: int)
    requires i < |s.transactions|
    ensures Finish(s, i, reply, now).observed == s.observed
  {
    hide Handle;
    HandleFrame(s, s.transactions[i], reply, now);
  }

  lemma NoneObserved()
    ensures O.Inv([])
  {
  }

  lemma ObjectsKeepObserved(s: State, uri: U.Uri, payload: seq<byte>, env: Env)
    ensures WriteObject(s, uri, payload, env).0.observed == s.observed
    ensures CreateObject(s, uri, payload, env).0.observed == s.observed
    ensures ExecuteObject(s, uri, env).0.observed == s.observed
    ensures DeleteObject(s, uri, env).0.observed == s.observed
  {
    hide SortedList.Insert, SortedList.Remove, SortedList.NewId;
  }

  lemma {:induction false} DeleteAllKeepsObserved(s: State, i: nat)
    ensures DeleteAllFrom(s, i).observed == s.observed
    decreases |s.objects| - i
  {
    if i < |s.objects| {
      var o := s.objects[i];
      DeleteAllKeepsObserved(s.(objects := s.objects[i := o.(instances := [])],
                                log := s.log + DeleteInstances(o.id, o.instances)), i + 1);
      DeleteAllKeepsObserved(s, i + 1);
    }
  }

  lemma GetKeeps(s: State, uri: U.Uri, i: nat, m: Message, env: Env)
    ensures Keeps(s, HandleGet(s, uri, i, m, env).0)
  {
    hide ReadObject, O.Add, O.Inv;
    if O.Inv(s.observed) {
      O.AddKeepsInv(s.observed, uri, i, m.token);
    }
  }

  lemma RequestKeeps(s: State, session: Session, m: Message, env: Env)
    ensures Keeps(s, HandleRequest(s, session, m, env).0)
  {
    hide HandleDm, DeleteAllFrom, O.Inv;
    DeleteAllKeepsObserved(s, 0);
    var uri := U.DecodeUri(s.altPath, m.path);
    if uri.Some? {
      DmKeeps(s, uri.value, session, m, env);
    }
  }

  lemma DmKeeps(s: State, uri: U.Uri, session: Session, m: Message, env: Env)
    ensures Keeps(s, HandleDm(s, uri, session, m, env).0)
  {
    hide HandleGet, WriteObject, CreateObject, ExecuteObject, DeleteObject, O.Inv;
    ObjectsKeepObserved(s, uri, m.payload, env);
    GetKeeps(s, uri, FindServer(s.servers, session), m, env);
  }

  lemma ChangedKeeps(s: State, uri: U.Uri, env: Env)
    requires O.Inv(s.observed)
    ensures var r := ValueChanged(s, uri, env);
            var hit := O.Overlapping(s.observed, uri, |s.observed|);
            var (obs, msgs) := O.Notify(s.observed, hit, Readable(s, env), s.nextMID);
            && O.Inv(r.observed) && r.observed == obs && Notifications(r.log) == Notifications(s.log) + msgs
            && r.nextMID == O.Mid(s.nextMID, |msgs|)
  {
    hide ReadObject, NotifyFrom, O.Notify, Notifications, O.Inv, O.Overlapping, O.Share;
    O.NotifiesExactlyOnce(s.observed, uri, Readable(s, env), s.nextMID);
    forall i | 0 <= i < |s.observed|
      ensures s.observed[i].uri in Readable(s, env) <==> ReadObject(s, s.observed[i].uri, env).0 == CONTENT
    {
    }
    LoopNotifies(s, O.Overlapping(s.observed, uri, |s.observed|), Readable(s, env), env);
  }

  /** Every elementary operation keeps the invariant. */
  lemma InvIsKept(inv: I.Property)
    requires forall s: State :: inv(s) <==> O.Inv(s.observed)
    ensures I.Kept(inv) && I.KeptByUpdate(inv)
  {
    hide O.Inv, Send, Finish, Begin, Start, HandleRequest, ValueChanged, O.Cancel;
    forall s: State, i: nat, now: int | i < |s.transactions| && inv(s) ensures inv(Send(s, i, now).0) {
      SendKeepsObserved(s, i, now);
    }
    forall s: State, i: nat, reply: Option<Message>, now: int | i < |s.transactions| && inv(s)
      ensures inv(Finish(s, i, reply, now))
    {
      FinishKeepsObserved(s, i, reply, now);
    }
    forall s: State, kind: Kind, peer: Peer, now: int | inv(s) ensures inv(Begin(s, kind, peer, now).0) {
      BeginKeepsObserved(s, kind, peer, now);
    }
    forall s: State, env: Env | inv(s) ensures inv(Start(s, env).0) {
      StartFrame(s, env);
      NoneObserved();
    }
    I.BeginIsEnough(inv);
    forall s: State, session: Session, m: Message, env: Env | inv(s) ensures inv(HandleRequest(s, session, m, env).0) {
      RequestKeeps(s, session, m, env);
    }
    forall s: State, uri: U.Uri, env: Env | inv(s) ensures inv(ValueChanged(s, uri, env)) {
      ChangedKeeps(s, uri, env);
    }
    forall s: State, mid: uint16, sharing: set<nat> | inv(s) ensures inv(I.CancelObserved(s, mid, sharing)) {
      O.CancelKeepsInv(s.observed, mid, sharing);
    }
  }

  /** In every run each observed path is in the list once, with at least one watcher and each server watching it at
      most once. */
  lemma RunKeepsInv(s: State, events: seq<(Event, Env)>)
    requires O.Inv(s.observed)
    ensures O.Inv(Run(s, events).observed)
  {
    hide Run, O.Inv;
    var inv := (r: State) => O.Inv(r.observed);
    InvIsKept(inv);
    I.RunKeeps(inv, s, events);
  }

  /** After any run, a changed value is reported once, and only once, to each server that watches a path that can be
      read and has a resource in common with the changed one; nobody else hears of it, about whatever path. */
  lemma ChangeIsReportedOnce(s: State, events: seq<(Event, Env)>, uri: U.Uri, env: Env, path: U.Uri, server: nat)
    requires Initial(s)
    ensures var r := Run(s, events);
            O.Count(Notifications(ValueChanged(r, uri, env).log), path, server) ==
            O.Count(Notifications(r.log), path, server) +
            if O.Share(uri, path) && ReadObject(r, path, env).0 == CONTENT && O.Watches(r.observed, path, server)
            then 1 else 0
  {
    hide Run, ValueChanged, ReadObject, Notifications, O.Notify, O.Inv, O.Count, O.Servers, O.Overlapping, O.Share;
    NoneObserved();
    RunKeepsInv(s, events);
    var r := Run(s, events);
    ChangedKeeps(r, uri, env);
    O.NotifiesExactlyOnce(r.observed, uri, Readable(r, env), r.nextMID);
    var msgs := O.Notify(r.observed, O.Overlapping(r.observed, uri, |r.observed|), Readable(r, env), r.nextMID).1;
    O.CountAppend(Notifications(r.log), msgs, path, server);
  }

  // ---------- resets ----------

  lemma ResponseKeepsObserved(s: State, session: Session, m: Message, answers: bool, now: int)
    ensures HandleResponse(s, session, m, answers, now, 0).0.observed == s.observed
  {
    hide HandleResponse, Finish;
    var inv: I.Property := (r: State) => r.observed == s.observed;
    forall r: State, i: nat, reply: Option<Message>, at: int | i < |r.transactions| && inv(r)
      ensures inv(Finish(r, i, reply, at))
    {
      FinishKeepsObserved(r, i, reply, at);
    }
    I.HandleResponseKeeps(inv, s, session, m, answers, now, 0);
  }

  /** The server at this place was last told about the path by the message with this identifier, and has the session. */
  predicate Notified(s: State, session: Session, mid: uint16, path: U.Uri, server: nat) {
    var w := O.WatcherOf(s.observed, path, server);
    w.Some? && w.value.lastMid == mid && server < |s.servers| && s.servers[server].session == Some(session)
  }

  /** In every run, a reset from a server that was last told about a path under its identifier makes one such server
      stop watching, and no other; every other message that is no request leaves the watchers as they are. */
  lemma ResetStopsWatching(s: State, events: seq<(Event, Env)>, session: Session, m: Message, env: Env,
                           path: U.Uri, server: nat)
    requires Initial(s) && !IsRequest(m)
    ensures var a := Run(s, events);
            var r := Apply(a, Packet(session, m), env);
            if m.mtype != Rst then r.observed == a.observed
            else if !Notified(a, session, m.mid, path, server)
            then O.WatcherOf(r.observed, path, server) == O.WatcherOf(a.observed, path, server)
            else exists p, sv: nat :: Notified(a, session, m.mid, p, sv) && O.WatcherOf(r.observed, p, sv) == None
                                 && ((p, sv) != (path, server) ==>
                                       O.WatcherOf(r.observed, path, server) == O.WatcherOf(a.observed, path, server))
  {
    hide Run, HandleResponse, O.Inv, O.Cancel, O.WatcherOf;
    NoneObserved();
    RunKeepsInv(s, events);
    var a := Run(s, events);
    var servers := ServersOf(a, session);
    var a1 := a.(observed := O.Cancel(a.observed, m.mid, servers));
    ResponseKeepsObserved(a, session, m, m.mtype != Ack, env.now);
    ResponseKeepsObserved(a1, session, m, false, env.now);
    O.CancelIs(a.observed, m.mid, servers, path, server);
    var v := O.Victim(a.observed, m.mid, servers);
    if v.Some? {
      O.CancelIs(a.observed, m.mid, servers, v.value.0, v.value.1);
    }
  }
}
