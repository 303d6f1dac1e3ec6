/**
 The client context as it is updated in place.

 Each method is one C function, with its branches and loops, and leaves the context in the state that the function
 of the same behaviour in Client or Management gives. The last two take the context through the events of a run, so
 that what is proved of runs is true of it.
 */
module ClientContext {
  import opened Core
  import opened Client
  import opened Management
  import ClientFacts
  import Completion
  import Engine
  import NoStuck
  import SortedList
  import Observe
  import Tlv
  import U = Uri

  class Context {
    var bsState: BsState
    var bsStart: int
    var servers: seq<Server>
    var bsServers: seq<Server>
    var objects: seq<Object>
    var altPath: Option<string>
    var observed: seq<Observe.Observed>
    var transactions: seq<Transaction>
    var nextMID: uint16
    // how many message identifiers were drawn and transactions made, whether transaction_remove has missed, and what
    // was done so far
    var drawn: nat
    var created: nat
    var clashed: bool
    var log: seq<Output>

    function Current(): State
      reads this
    {
      State(bsState, bsStart, servers, bsServers, objects, altPath, observed, transactions, nextMID, drawn,
            created, clashed, log)
    }

    /** lwm2m_init and lwm2m_configure */
    constructor (objects: seq<Object>, altPath: Option<string>, mid: uint16)
      ensures Engine.Initial(Current())
      ensures this.objects == objects && this.altPath == altPath && nextMID == mid
    {
      bsState := NotBootstrapped;
      bsStart := 0;
      servers, bsServers := [], [];
      this.objects := objects;
      this.altPath := altPath;
      observed, transactions := [], [];
      nextMID := mid;
      drawn, created, clashed := 0, 0, false;
      log := [];
    }

    // ---------- transaction.c ----------

    /** contextP->nextMID++ */
    method DrawMid()
      modifies this`nextMID, this`drawn
      ensures Current() == Draw(old(Current()))
    {
      nextMID := (nextMID + 1) % 0x1_0000;
      drawn := drawn + 1;
    }

    /** prv_handleRegistrationReply */
    method HandleRegistrationReply(i: nat, reply: Option<Message>, now: int)
      modifies this`servers
      ensures Current() == RegistrationReply(old(Current()), i, reply, now)
    {
      if i < |servers| && servers[i].status == RegPending {
        if now >= 0 {
          servers := servers[i := servers[i].(registration := now)];
        }
        if reply.Some? && reply.value.code == CREATED {
          servers := servers[i := servers[i].(status := Registered)];
          servers := servers[i := servers[i].(location := Some(LocationText(reply.value.location)))];
        } else {
          servers := servers[i := servers[i].(status := RegFailed)];
        }
      }
    }

    /** prv_handleRegistrationUpdateReply */
    method HandleRegistrationUpdateReply(i: nat, reply: Option<Message>, now: int)
      modifies this`servers
      ensures Current() == UpdateReply(old(Current()), i, reply, now)
    {
      if i < |servers| && servers[i].status == RegUpdatePending {
        if now >= 0 {
          servers := servers[i := servers[i].(registration := now)];
        }
        if reply.Some? && reply.value.code == CHANGED {
          servers := servers[i := servers[i].(status := Registered)];
        } else {
          servers := servers[i := servers[i].(status := RegFailed)];
        }
      }
    }

    /** prv_handleDeregistrationReply */
    method HandleDeregistrationReply(i: nat)
      modifies this`servers
      ensures Current() == DeregistrationReply(old(Current()), i)
    {
      if i < |servers| && servers[i].status == DeregPending {
        servers := servers[i := servers[i].(status := Deregistered)];
      }
    }

    /** prv_handleBootstrapReply, with handle_bootstrap_response and bootstrap_failed */
    method HandleBootstrapReply(reply: Option<Message>, now: int)
      modifies this`bsState, this`bsStart
      ensures Current() == BootstrapReply(old(Current()), reply, now)
    {
      bsStart := now;
      if reply.Some? && reply.value.mtype != Rst && reply.value.code == CHANGED {
        bsState := Pending;
      } else {
        bsState := Failed;
      }
    }

    /** The call of a transaction's callback. */
    method Callback(t: Transaction, reply: Option<Message>, now: int)
      modifies this`log, this`servers, this`bsState, this`bsStart
      ensures Current() == Handle(old(Current()), t, reply, now)
    {
      hide RegistrationReply, UpdateReply, DeregistrationReply, BootstrapReply;
      log := log + [Ending(Current(), t, reply)];
      if t.kind == Bootstrap {
        HandleBootstrapReply(reply, now);
      } else if t.peer.ManagementServer? {
        if t.kind == Register {
          HandleRegistrationReply(t.peer.index, reply, now);
        } else if t.kind == Update {
          HandleRegistrationUpdateReply(t.peer.index, reply, now);
        } else {
          HandleDeregistrationReply(t.peer.index);
        }
      }
    }

    /** The end of a transaction: its callback and transaction_remove. */
    method EndTransaction(i: nat, reply: Option<Message>, now: int)
      requires i < |transactions|
      modifies this
      ensures Current() == Finish(old(Current()), i, reply, now)
    {
      hide Handle;
      Callback(transactions[i], reply, now);
      var left := transactions[..i] + transactions[i + 1..];
      clashed := clashed || SortedList.Remove(transactions, transactions[i].mID, Mid) != left;
      transactions := left;
    }

    /** transaction_send */
    method TransactionSend(i: nat, now: int) returns (removed: bool)
      requires i < |transactions|
      modifies this
      ensures (Current(), removed) == Send(old(Current()), i, now)
    {
      hide Finish;
      var t := transactions[i];
      var maxRetriesReached := false;
      if !t.ackReceived {
        var timeout := RESPONSE_TIMEOUT;
        if t.retransCounter == 0 {
          if 0 <= now {
            t := t.(retransTime := now, retransCounter := 1);
          } else {
            maxRetriesReached := true;
          }
        } else {
          timeout := RESPONSE_TIMEOUT * t.retransCounter;
        }
        if MAX_RETRANSMIT >= t.retransCounter {
          log := log + [Sent(t.serial, t.kind, t.peer, SessionOf(Current(), t.peer), t.path, now)];
          t := t.(retransTime := t.retransTime + timeout);
          t := t.(retransCounter := t.retransCounter + 1);
        } else {
          maxRetriesReached := true;
        }
        transactions := transactions[i := t];
      }
      assert transactions == old(transactions)[i := t];
      if t.ackReceived || maxRetriesReached {
        EndTransaction(i, None, now);
        removed := true;
      } else {
        removed := false;
      }
    }

    /** transaction_new, LWM2M_LIST_ADD and transaction_send, as the requests below begin. */
    method BeginTransaction(kind: Kind, peer: Peer, now: int) returns (live: bool)
      modifies this
      ensures (Current(), live) == Begin(old(Current()), kind, peer, now)
    {
      hide Send, NewTransaction, SortedList.Insert, SortedList.Position;
      var t := NewTransaction(Current(), kind, peer, now);
      var at := SortedList.Position(transactions, t, Mid);
      transactions := SortedList.Insert(transactions, t, Mid);
      DrawMid();
      created := created + 1;
      var removed := TransactionSend(at, now);
      live := !removed;
    }

    /** transaction_handle_response */
    method TransactionHandleResponse(session: Session, m: Message, answers: bool, now: int) returns (done: bool)
      modifies this
      ensures (Current(), done) == HandleResponse(old(Current()), session, m, answers, now, 0)
    {
      hide Finish, SessionOf;
      var i := 0;
      while i < |transactions|
        invariant 0 <= i <= |transactions|
        invariant Current() == old(Current())
        invariant HandleResponse(Current(), session, m, answers, now, i)
               == HandleResponse(old(Current()), session, m, answers, now, 0)
      {
        var t := transactions[i];
        if SessionOf(Current(), t.peer) == Some(session) {
          var found, reset := false, false;
          if !t.ackReceived && (m.mtype == Ack || m.mtype == Rst) && t.mID == m.mid {
            found := true;
            t := t.(ackReceived := true);
            reset := m.mtype == Rst;
          }
          if reset || m.token == t.token {
            transactions := transactions[i := t];
            if !reset {
              if m.mtype == Con && answers {
                log := log + [Answered(session, 0)];
              }
              if m.code == UNAUTHORIZED && MAX_RETRANSMIT > t.retransCounter {
                t := t.(ackReceived := false, retransTime := t.retransTime + RESPONSE_TIMEOUT);
                transactions := transactions[i := t];
                return true;
              }
            }
            EndTransaction(i, Some(m), now);
            return true;
          }
          if found {
            transactions := transactions[i := t];
            if 0 <= now {
              t := t.(retransTime := now);
            }
            if t.responseTimeout != 0 {
              t := t.(retransTime := t.retransTime + t.responseTimeout);
            } else {
              t := t.(retransTime := t.retransTime + RESPONSE_TIMEOUT * t.retransCounter);
            }
            transactions := transactions[i := t];
            return true;
          }
        }
        assert transactions[i := transactions[i]] == transactions;
        i := i + 1;
      }
      return false;
    }

    /** The first loop of lwm2m_step, over a list that transaction_send shortens. */
    method SendDue(now: int)
      modifies this
      ensures Current() == StepTransactions(old(Current()), 0, now)
    {
      hide Send;
      var i := 0;
      while i < |transactions|
        invariant 0 <= i <= |transactions|
        invariant StepTransactions(Current(), i, now) == StepTransactions(old(Current()), 0, now)
        decreases |transactions| - i
      {
        var removed := false;
        if transactions[i].retransTime <= now {
          removed := TransactionSend(i, now);
        }
        if !removed {
          i := i + 1;
        }
      }
    }

    // ---------- registration.c ----------

    /** prv_register */
    method RegisterAt(i: nat, env: Env)
      requires i < |servers|
      modifies this
      ensures Current() == RegisterServer(old(Current()), i, env)
    {
      hide Begin;
      var v := servers[i];
      if v.secInst in env.refused {
        return;
      }
      if v.session.None? && v.secInst in env.connect {
        v := v.(session := Some(env.connect[v.secInst]));
      }
      servers := servers[i := v];
      if v.session.Some? {
        var live := BeginTransaction(Register, ManagementServer(i), env.now);
        if live {
          servers := servers[i := servers[i].(status := RegPending)];
        }
      }
    }

    /** prv_update_registration */
    method UpdateAt(i: nat, now: int)
      requires i < |servers|
      modifies this
      ensures Current() == UpdateServer(old(Current()), i, now)
    {
      hide Begin;
      var live := BeginTransaction(Update, ManagementServer(i), now);
      if live {
        servers := servers[i := servers[i].(status := RegUpdatePending)];
      }
    }

    /** The first loop of registration_update. */
    method CheckServers() returns (serverRegistered: bool, allServerFailed: bool)
      ensures serverRegistered == AnyRegistered(servers) && allServerFailed == AllFailed(servers)
    {
      serverRegistered, allServerFailed := false, true;
      var i := 0;
      while i < |servers|
        invariant 0 <= i <= |servers| && !serverRegistered
        invariant forall j | 0 <= j < i :: servers[j].status != Registered
        invariant allServerFailed == forall j | 0 <= j < i :: servers[j].status == RegFailed
      {
        if servers[i].status == Registered {
          return true, false;
        } else if servers[i].status != RegFailed {
          allServerFailed := false;
        }
        i := i + 1;
      }
    }

    /** lwm2m_update_registration, which looks through the servers that were there before it reads them. */
    method UpdateByShortID(shortID: uint16, env: Env)
      modifies this
      ensures Current() == UpdateByShortId(old(Current()), shortID, env)
    {
      hide UpdateServer, GetServers;
      if servers == [] {
        var ok := ReadServers(env);
        return;
      }
      var i := 0;
      while i < |servers|
        invariant 0 <= i <= |servers| && Current() == old(Current())
        invariant FindShortId(servers, shortID) == i + FindShortId(servers[i..], shortID)
      {
        if servers[i].shortID == shortID {
          UpdateAt(i, env.now);
          return;
        }
        assert servers[i..][1..] == servers[i + 1..];
        i := i + 1;
      }
    }

    /** registration_update */
    method UpdateRegistrations(env: Env)
      modifies this
      ensures Current() == RegistrationUpdate(old(Current()), env)
    {
      hide AnyRegistered, AllFailed, RegisterServer, UpdateServer;
      var serverRegistered, allServerFailed := CheckServers();
      UpdateEach(env, serverRegistered);
      if allServerFailed && bsServers != [] && (bsState == Bootstrapped || bsState == NotBootstrapped) {
        bsState := Requested;
      }
    }

    /** The second loop of registration_update. */
    method UpdateEach(env: Env, serverRegistered: bool)
      modifies this
      ensures Current() == UpdateFrom(old(Current()), env, serverRegistered, 0)
    {
      hide RegisterServer, UpdateServer;
      var i := 0;
      while i < |servers|
        invariant 0 <= i <= |servers|
        invariant UpdateFrom(Current(), env, serverRegistered, i) ==
                  UpdateFrom(old(Current()), env, serverRegistered, 0)
        decreases |servers| - i
      {
        ghost var before := Current();
        var v := servers[i];
        match v.status {
          case Registered =>
            var nextUpdate := v.lifetime;
            if 30 < nextUpdate {
              nextUpdate := nextUpdate - 15;
            }
            if 0 >= v.registration + nextUpdate - env.now {
              UpdateAt(i, env.now);
            }
          case Deregistered => RegisterAt(i, env);
          case RegFailed =>
            if (serverRegistered || bsServers == []) && 0 >= v.registration + v.lifetime - env.now {
              RegisterAt(i, env);
            }
          case _ =>
        }
        assert Current() == UpdateOne(before, env, serverRegistered, i);
        i := i + 1;
      }
    }

    /** lwm2m_deregister, with registration_deregister for each server. */
    method DeregisterAll(now: int)
      modifies this
      ensures Current() == DeregisterFrom(old(Current()), now, 0)
    {
      hide Begin;
      var i := 0;
      while i < |servers|
        invariant 0 <= i <= |servers|
        invariant DeregisterFrom(Current(), now, i) == DeregisterFrom(old(Current()), now, 0)
        decreases |servers| - i
      {
        ghost var before := Current();
        var v := servers[i];
        if v.status !in {Deregistered, RegPending, DeregPending, RegFailed} && v.location.Some? {
          var live := BeginTransaction(Deregister, ManagementServer(i), now);
          if live {
            servers := servers[i := servers[i].(status := DeregPending)];
          }
        }
        assert Current() == DeregisterServer(before, now, i);
        i := i + 1;
      }
    }

    // ---------- objects.c and liblwm2m.c ----------

    /** The first loop of object_getServers, which goes on behind an object it has found. */
    method FindInstances(id: uint16) returns (found: bool, list: seq<uint16>)
      ensures found == HasObject(Current(), id) && list == InstancesOf(objects, id)
    {
      found, list := false, [];
      var i := 0;
      while i < |objects|
        invariant 0 <= i <= |objects| && list == InstancesOf(objects[..i], id)
        invariant found == exists j | 0 <= j < i :: objects[j].id == id
      {
        assert objects[..i + 1][..i] == objects[..i];
        if objects[i].id == id {
          found, list := true, objects[i].instances;
        }
        i := i + 1;
      }
      assert objects[..i] == objects;
    }

    /** prv_findServerInstance */
    method FindInstanceOf(instances: seq<uint16>, shortID: int, env: Env) returns (at: Option<uint16>)
      modifies this`log
      ensures at == FindServerInstance(instances, shortID, env).0
      ensures log == old(log) + FindServerInstance(instances, shortID, env).1
    {
      var i := 0;
      while i < |instances|
        invariant 0 <= i <= |instances|
        invariant var all := FindServerInstance(instances, shortID, env);
                  var rest := FindServerInstance(instances[i..], shortID, env);
                  all.0 == rest.0 && old(log) + all.1 == log + rest.1
      {
        assert instances[i..][0] == instances[i] && instances[i..][1..] == instances[i + 1..];
        log := log + [Called(Read, SERVER_OBJECT, instances[i])];
        if env.result(Read, SERVER_OBJECT, instances[i]) != CONTENT {
          return None;
        }
        if env.server(instances[i]).shortID == Some(shortID) {
          return Some(instances[i]);
        }
        i := i + 1;
      }
      return None;
    }

    /** One round of object_getServers, with prv_getMandatoryInfo. */
    method ReadInstance(inst: uint16, instances: seq<uint16>, env: Env) returns (entry: SecurityEntry)
      modifies this`log
      ensures entry == ReadEntry(inst, instances, env).0 && log == old(log) + ReadEntry(inst, instances, env).1
    {
      hide FindServerInstance;
      log := log + [Called(Read, SECURITY_OBJECT, inst)];
      if env.result(Read, SECURITY_OBJECT, inst) != CONTENT {
        return Unreadable;
      }
      var v := env.security(inst);
      if v.bootstrap.None? || !Within(v.shortID, if v.bootstrap.value then 0 else 1, 0xFFFF) {
        return Unreadable;
      }
      if v.bootstrap.value {
        if !Within(v.holdOff, 0, 0xFFFF_FFFF) {
          return Unreadable;
        }
        return BootstrapEntry(inst, v.shortID.value, v.holdOff.value);
      }
      var at := FindInstanceOf(instances, v.shortID.value, env);
      if at.None? {
        return Unreadable;
      }
      log := log + [Called(Read, SERVER_OBJECT, at.value)];
      var w := env.server(at.value);
      if env.result(Read, SERVER_OBJECT, at.value) != CONTENT || !Within(w.lifetime, 0, 0xFFFF_FFFF) || !w.binding {
        return Unreadable;
      }
      return ServerEntry(inst, v.shortID.value, w.lifetime.value);
    }

    /** object_getServers, whose loop keeps what it read when it fails. */
    method ReadServers(env: Env) returns (ok: bool)
      modifies this
      ensures (Current(), ok) == GetServers(old(Current()), env)
    {
      hide ReadEntry, ReadingOn, InstancesOf, HasObject, GetFrom, Entries, SortedList.Insert;
      var found, list := FindInstances(SECURITY_OBJECT);
      var known, instances := FindInstances(SERVER_OBJECT);
      ReadsAll(Current(), env);
      if !found {
        return false;
      }
      var i := 0;
      assert list[0..] == list;
      while i < |list|
        invariant 0 <= i <= |list|
        invariant ReadingOn(Current(), list[i..], instances, env) == GetServers(old(Current()), env)
      {
        ReadingGoesOn(Current(), list[i..], instances, env);
        assert list[i..][0] == list[i] && list[i..][1..] == list[i + 1..];
        var entry := ReadInstance(list[i], instances, env);
        match entry {
          case Unreadable => return false;
          case BootstrapEntry(inst, shortID, holdOff) =>
            bsServers := SortedList.Insert(bsServers, NewServer(inst, shortID, holdOff), SecInst);
          case ServerEntry(inst, shortID, lifetime) =>
            servers := SortedList.Insert(servers, NewServer(inst, shortID, lifetime), SecInst);
        }
        i := i + 1;
      }
      ReadingGoesOn(Current(), list[i..], instances, env);
      return true;
    }

    method DeleteTransactions()
      modifies this
      ensures Current() == old(Current()).(transactions := [], log := old(log) + DropAll(old(transactions), drawn))
    {
      hide DropAll;
      while transactions != []
        invariant log + DropAll(transactions, drawn) == old(log) + DropAll(old(transactions), drawn)
        invariant Current() == old(Current()).(transactions := transactions, log := log)
        decreases |transactions|
      {
        ghost var rest := DropAll(transactions[1..], drawn);
        DropGoesOn(transactions, drawn);
        assert log + ([Dropped(transactions[0].serial, drawn - transactions[0].draw - 1)] + rest)
            == log + [Dropped(transactions[0].serial, drawn - transactions[0].draw - 1)] + rest;
        log := log + [Dropped(transactions[0].serial, drawn - transactions[0].draw - 1)];
        transactions := transactions[1..];
      }
      DropGoesOn(transactions, drawn);
    }

    /** lwm2m_start */
    method StartClient(env: Env) returns (ok: bool)
      modifies this
      ensures (Current(), ok) == Start(old(Current()), env)
    {
      hide GetServers, DropAll;
      var cleanup := bsServers != [] || servers != [];
      DeleteTransactions();
      observed := [];
      if cleanup {
        servers, bsServers := [], [];
      }
      ok := ReadServers(env);
      if !ok && cleanup {
        servers, bsServers := [], [];
      }
    }

    // ---------- bootstrap.c ----------

    /** bootstrap_initiating_request */
    method InitiateBootstrap(env: Env)
      modifies this
      ensures Current() == InitiateFrom(old(Current()), env, 0)
    {
      hide Begin;
      var i := 0;
      while i < |bsServers|
        invariant 0 <= i <= |bsServers|
        invariant InitiateFrom(Current(), env, i) == InitiateFrom(old(Current()), env, 0)
        decreases |bsServers| - i
      {
        ghost var before := Current();
        var v := bsServers[i];
        if v.session.None? && v.secInst in env.connect {
          v := v.(session := Some(env.connect[v.secInst]));
        }
        bsServers := bsServers[i := v];
        if v.session.Some? {
          var live := BeginTransaction(Bootstrap, BootstrapServer(v.session.value), env.now);
          if live {
            bsState := Initiated;
            bsStart := env.now;
          }
        }
        assert Current() == InitiateOne(before, env, i);
        i := i + 1;
      }
    }

    /** The part of update_bootstrap_state up to the bootstrap request. */
    method HoldOff(env: Env)
      modifies this
      ensures Current() == UpdateHoldOff(old(Current()), env)
    {
      hide InitiateFrom;
      if bsState == Requested {
        bsState := ClientHoldOff;
        bsStart := env.now;
      }
      if bsState == ClientHoldOff {
        if bsServers != [] {
          if 0 >= Int32(bsStart + bsServers[0].lifetime - env.now) {
            InitiateBootstrap(env);
          }
        } else {
          bsStart := env.now;
          bsState := Failed;
        }
      }
    }

    /** The part of update_bootstrap_state for a bootstrap that is pending or finished. */
    method EndBootstrap(env: Env)
      modifies this
      ensures Current() == UpdatePending(old(Current()), env)
    {
      hide Start;
      if bsState == Pending {
        if 0 >= Int32(bsStart + DEFAULT_MAX_AGE - env.now) {
          bsState := Finished;
          bsStart := env.now;
        }
      } else if bsState == Finished {
        bsStart := env.now;
        var ok := StartClient(env);
        if ok {
          bsState := Bootstrapped;
        } else {
          bsStart := env.now;
          bsState := Failed;
        }
      }
    }

    /** update_bootstrap_state */
    method UpdateBootstrap(env: Env)
      modifies this
      ensures Current() == UpdateBootstrapState(old(Current()), env)
    {
      hide UpdateHoldOff, UpdatePending;
      HoldOff(env);
      EndBootstrap(env);
      if bsState == Failed && bsServers != [] && 0 >= Int32(bsStart + bsServers[0].lifetime - env.now) {
        bsState := NotBootstrapped;
        bsStart := env.now;
      }
    }

    /** lwm2m_step */
    method Tick(env: Env)
      modifies this
      ensures Current() == Step(old(Current()), env)
    {
      hide StepTransactions, RegistrationUpdate, UpdateBootstrapState;
      if env.now < 0 {
        return;
      }
      SendDue(env.now);
      if bsState != ClientHoldOff && bsState != Pending && bsState != Finished && bsState != Failed {
        UpdateRegistrations(env);
      }
      UpdateBootstrap(env);
    }

    // ---------- objects.c ----------

    /** prv_find_object */
    method Find(id: uint16) returns (at: Option<nat>)
      ensures at == FindObject(Current(), id)
    {
      if bsState != Pending && id == SECURITY_OBJECT {
        return None;
      }
      var i := 0;
      while i < |objects|
        invariant 0 <= i <= |objects| && FirstObject(objects, id) == i + FirstObject(objects[i..], id)
      {
        if objects[i].id == id {
          return Some(i);
        }
        assert objects[i..][1..] == objects[i + 1..];
        i := i + 1;
      }
      return None;
    }

    /** object_read, with its loop over the instances. */
    method ObjectRead(uri: U.Uri, env: Env) returns (code: byte)
      modifies this`log
      ensures code == ReadObject(old(Current()), uri, env).0
      ensures Current() == old(Current()).(log := old(log) + ReadObject(old(Current()), uri, env).1)
    {
      hide ReadInstances;
      if bsState == Pending {
        return METHOD_NOT_ALLOWED;
      }
      var at := Find(Number(uri.objectId));
      if at.None? {
        return NOT_FOUND;
      }
      var o := objects[at.value];
      if !o.readable {
        return METHOD_NOT_ALLOWED;
      }
      if o.instances == [] {
        if uri.instanceId.Some? && uri.instanceId.value != 0 {
          return NOT_FOUND;
        }
      } else if uri.instanceId.Some? {
        if uri.instanceId.value !in o.instances {
          return NOT_FOUND;
        }
      } else {
        code := ReadEach(o.id, o.instances, env);
        if code == CONTENT && env.empty {
          code := INTERNAL_ERROR;
        }
        return code;
      }
      code := ReadEach(o.id, [Number(uri.instanceId)], env);
      if code == CONTENT && env.empty {
        code := INTERNAL_ERROR;
      }
    }

    method ReadEach(id: uint16, instances: seq<uint16>, env: Env) returns (code: byte)
      modifies this`log
      ensures code == ReadInstances(id, instances, env).0
      ensures log == old(log) + ReadInstances(id, instances, env).1
    {
      code := CONTENT;
      var i := 0;
      while i < |instances| && code == CONTENT
        invariant 0 <= i <= |instances|
        invariant code == CONTENT ==>
          var rest := ReadInstances(id, instances[i..], env);
          var all := ReadInstances(id, instances, env);
          all.0 == rest.0 && old(log) + all.1 == log + rest.1
        invariant code != CONTENT ==>
          code == ReadInstances(id, instances, env).0 && log == old(log) + ReadInstances(id, instances, env).1
      {
        assert instances[i..][0] == instances[i] && instances[i..][1..] == instances[i + 1..];
        code := env.result(Read, id, instances[i]);
        log := log + [Called(Read, id, instances[i])];
        i := i + 1;
      }
    }

    /** object_write */
    method ObjectWrite(uri: U.Uri, payload: seq<byte>, env: Env) returns (code: byte)
      modifies this
      ensures (Current(), code) == WriteObject(old(Current()), uri, payload, env)
    {
      code := NO_ERROR;
      var during := bsState == Pending;
      var at := Find(Number(uri.objectId));
      if at.None? {
        code := NOT_FOUND;
      } else if !objects[at.value].writable {
        code := METHOD_NOT_ALLOWED;
      } else if uri.resourceId.None? && Tlv.Accepted(payload) == [] {
        code := INTERNAL_ERROR;
      }
      if code == NO_ERROR {
        var o := objects[at.value];
        log := log + [Called(Write, o.id, Number(uri.instanceId))];
        code := env.result(Write, o.id, Number(uri.instanceId));
      }
      if during {
        bsStart := env.now;
        if code != CHANGED {
          bsState := Failed;
        }
      }
    }

    /** object_create */
    method ObjectCreate(uri: U.Uri, payload: seq<byte>, env: Env) returns (code: byte)
      modifies this
      ensures (Current(), code) == CreateObject(old(Current()), uri, payload, env)
    {
      hide SortedList.Insert;
      if payload == [] {
        return BAD_REQUEST;
      }
      var at := Find(Number(uri.objectId));
      if at.None? {
        return NOT_FOUND;
      }
      var o := objects[at.value];
      if !o.creatable {
        return METHOD_NOT_ALLOWED;
      }
      var inst: uint16;
      if uri.instanceId.Some? {
        inst := uri.instanceId.value;
        if inst in o.instances {
          return NOT_ACCEPTABLE;
        }
      } else {
        inst := SortedList.NewId<uint16>(o.instances, Itself);
      }
      if Tlv.Accepted(payload) == [] {
        return INTERNAL_ERROR;
      }
      code := env.result(Create, o.id, inst);
      log := log + [Called(Create, o.id, inst)];
      if code == CREATED {
        o := o.(instances := SortedList.Insert<uint16>(o.instances, inst, Itself));
        objects := objects[at.value := o];
      }
    }

    /** object_execute and object_delete */
    method ObjectExecute(uri: U.Uri, env: Env) returns (code: byte)
      modifies this`log
      ensures (Current(), code) == ExecuteObject(old(Current()), uri, env)
    {
      if bsState == Pending {
        return METHOD_NOT_ALLOWED;
      }
      var at := Find(Number(uri.objectId));
      if at.None? {
        return NOT_FOUND;
      }
      var o := objects[at.value];
      if !o.executable {
        return METHOD_NOT_ALLOWED;
      }
      log := log + [Called(Execute, o.id, Number(uri.instanceId))];
      code := env.result(Execute, o.id, Number(uri.instanceId));
    }

    method ObjectDelete(uri: U.Uri, env: Env) returns (code: byte)
      modifies this`log, this`objects
      ensures (Current(), code) == DeleteObject(old(Current()), uri, env)
    {
      hide SortedList.Remove;
      var at := Find(Number(uri.objectId));
      if at.None? {
        return NOT_FOUND;
      }
      var o := objects[at.value];
      if !o.deletable {
        return METHOD_NOT_ALLOWED;
      }
      var inst := Number(uri.instanceId);
      code := env.result(Delete, o.id, inst);
      log := log + [Called(Delete, o.id, inst)];
      if code == DELETED {
        o := o.(instances := SortedList.Remove<uint16>(o.instances, inst, Itself));
        objects := objects[at.value := o];
      }
    }

    // ---------- management.c and observe.c ----------

    /** handle_delete_all, where each delete callback takes an instance out of its list. */
    method DeleteAllInstances()
      modifies this`log, this`objects
      ensures Current() == DeleteAllFrom(old(Current()), 0)
    {
      hide DeleteInstances;
      var i := 0;
      while i < |objects|
        invariant 0 <= i <= |objects|
        invariant DeleteAllFrom(Current(), i) == DeleteAllFrom(old(Current()), 0)
        decreases |objects| - i
      {
        if objects[i].id in {SECURITY_OBJECT, SERVER_OBJECT} && objects[i].deletable {
          DeleteInstancesOf(i);
        }
        i := i + 1;
      }
    }

    /** management_delete_all_instances */
    method DeleteInstancesOf(i: nat)
      requires i < |objects|
      modifies this`log, this`objects
      ensures log == old(log) + DeleteInstances(old(objects)[i].id, old(objects)[i].instances)
      ensures objects == old(objects)[i := old(objects)[i].(instances := [])]
    {
      ghost var o := objects[i];
      while objects[i].instances != []
        invariant |objects| == |old(objects)| && objects == old(objects)[i := o.(instances := objects[i].instances)]
        invariant log + DeleteInstances(o.id, objects[i].instances) == old(log) + DeleteInstances(o.id, o.instances)
        decreases |objects[i].instances|
      {
        log := log + [Called(Delete, objects[i].id, objects[i].instances[0])];
        objects := objects[i := objects[i].(instances := objects[i].instances[1..])];
      }
    }

    /** prv_findObserved */
    method FindObserved(uri: U.Uri) returns (i: nat)
      ensures i == Observe.FindObserved(observed, uri)
    {
      i := 0;
      while i < |observed| && observed[i].uri != uri
        invariant i <= |observed| && Observe.FindObserved(observed, uri) == i + Observe.FindObserved(observed[i..], uri)
      {
        assert observed[i..][1..] == observed[i + 1..];
        i := i + 1;
      }
    }

    /** prv_findWatcher */
    method FindWatcher(ws: seq<Observe.Watcher>, server: nat) returns (i: nat)
      ensures i == Observe.FindWatcher(ws, server)
    {
      i := 0;
      while i < |ws| && ws[i].server != server
        invariant i <= |ws| && Observe.FindWatcher(ws, server) == i + Observe.FindWatcher(ws[i..], server)
      {
        assert ws[i..][1..] == ws[i + 1..];
        i := i + 1;
      }
    }

    /** The watcher of a server, found or new, gets the token and its counter goes up. */
    method WatchBy(watchers: seq<Observe.Watcher>, server: nat, token: seq<byte>) returns (ws: seq<Observe.Watcher>)
      ensures ws == Observe.Watch(watchers, server, token)
    {
      hide Observe.FindWatcher;
      ws := watchers;
      var j := FindWatcher(ws, server);
      if j == |ws| {
        ws := [Observe.Watcher(server, [], 0, 0)] + ws;
        j := 0;
      }
      ws := ws[j := ws[j].(token := token)];
      ws := ws[j := ws[j].(counter := (ws[j].counter + 1) % Observe.COUNTERS)];
      assert Observe.FindWatcher(watchers, server) == |watchers| ==>
          ws == [Observe.Watcher(server, token, 1, 0)] + watchers;
    }

    /** handle_observe_request, once it accepts the request. */
    method ObserveRequest(uri: U.Uri, server: nat, token: seq<byte>)
      modifies this`observed
      ensures observed == Observe.Add(old(observed), uri, server, token)
    {
      hide Observe.FindObserved, Observe.Watch;
      var i := FindObserved(uri);
      if i == |observed| {
        observed := [Observe.Observed(uri, [])] + observed;
        i := 0;
      }
      var ws := WatchBy(observed[i].watchers, server, token);
      observed := observed[i := observed[i].(watchers := ws)];
      assert Observe.FindObserved(old(observed), uri) == |old(observed)| ==>
          observed == [Observe.Observed(uri, ws)] + old(observed);
    }

    /** The search of cancel_observe through the watchers of an entry. */
    method FindMid(ws: seq<Observe.Watcher>, mid: uint16, sharing: set<nat>) returns (i: nat)
      ensures i == Observe.FindMid(ws, mid, sharing)
    {
      i := 0;
      while i < |ws| && !(ws[i].lastMid == mid && ws[i].server in sharing)
        invariant i <= |ws| && Observe.FindMid(ws, mid, sharing) == i + Observe.FindMid(ws[i..], mid, sharing)
      {
        assert ws[i..][1..] == ws[i + 1..];
        i := i + 1;
      }
    }

    /** cancel_observe */
    method CancelObserve(mid: uint16, sharing: set<nat>)
      modifies this`observed
      ensures observed == Observe.Cancel(old(observed), mid, sharing)
    {
      hide Observe.FindMid, Observe.Cancel;
      ghost var all := observed;
      var i := 0;
      assert all[0..] == all;
      while i < |observed|
        invariant 0 <= i <= |observed| && observed == all
        invariant Observe.Cancel(all, mid, sharing) == all[..i] + Observe.Cancel(all[i..], mid, sharing)
      {
        var ws := observed[i].watchers;
        var j := FindMid(ws, mid, sharing);
        CancelStep(all, i, mid, sharing);
        if j < |ws| {
          ws := ws[..j] + ws[j + 1..];
          if ws == [] {
            observed := observed[..i] + observed[i + 1..];
          } else {
            observed := observed[..i] + [observed[i].(watchers := ws)] + observed[i + 1..];
          }
          return;
        }
        assert all[..i + 1] == all[..i] + [all[i]];
        i := i + 1;
      }
      assert all[i..] == [] && all[..i] == all;
      NothingToCancel(mid, sharing);
    }

    /** prv_getObservedList: each overlapping entry is put in front of the list. */
    method ObservedList(uri: U.Uri) returns (list: seq<nat>)
      ensures list == Observe.Overlapping(observed, uri, |observed|)
      ensures forall i | 0 <= i < |observed| :: i in list <==> Observe.Share(uri, observed[i].uri)
    {
      hide Observe.Share;
      list := [];
      var i := 0;
      while i < |observed|
        invariant 0 <= i <= |observed| && list == Observe.Overlapping(observed, uri, i)
      {
        var p := observed[i].uri;
        if p.objectId == uri.objectId {
          if uri.instanceId.None? || p.instanceId.None? || uri.instanceId == p.instanceId {
            if uri.resourceId.None? || p.resourceId.None? || uri.resourceId == p.resourceId {
              list := [i] + list;
            }
          }
        }
        i := i + 1;
      }
      Observe.OverlappingIsExact(observed, uri, |observed|);
    }

    /** The GET branch of handle_dm_request and handle_observe_request. */
    method Get(uri: U.Uri, i: nat, m: Message, env: Env) returns (code: byte)
      modifies this
      ensures (Current(), code) == HandleGet(old(Current()), uri, i, m, env)
    {
      hide ReadObject, Observe.Add;
      code := ObjectRead(uri, env);
      if code == CONTENT && m.observe {
        if (uri.instanceId.None? && uri.resourceId.Some?) || m.token == [] {
          code := BAD_REQUEST;
        } else {
          ObserveRequest(uri, i, m.token);
        }
      }
    }

    /** The POST branch of handle_dm_request. */
    method Post(uri: U.Uri, m: Message, env: Env) returns (code: byte)
      modifies this
      ensures (Current(), code) == HandlePost(old(Current()), uri, m, env)
    {
      hide CreateObject, WriteObject, ExecuteObject;
      if bsState == Pending {
        return METHOD_NOT_ALLOWED;
      }
      if uri.instanceId.None? {
        code := ObjectCreate(uri, m.payload, env);
      } else if uri.resourceId.None? {
        if IsInstanceNew(Current(), uri) {
          code := ObjectCreate(uri, m.payload, env);
        } else {
          code := ObjectWrite(uri, m.payload, env);
        }
      } else {
        code := ObjectExecute(uri, env);
      }
    }

    /** The PUT branch of handle_dm_request. */
    method Put(uri: U.Uri, m: Message, env: Env) returns (code: byte)
      modifies this
      ensures (Current(), code) == HandlePut(old(Current()), uri, m, env)
    {
      hide CreateObject, WriteObject;
      if uri.instanceId.None? {
        code := BAD_REQUEST;
      } else if bsState == Pending && IsInstanceNew(Current(), uri) {
        code := ObjectCreate(uri, m.payload, env);
        if code == CREATED {
          code := CHANGED;
        }
      } else {
        code := ObjectWrite(uri, m.payload, env);
      }
    }

    /** prv_findServer and utils_findBootstrapServer */
    method FindSession(list: seq<Server>, session: Session) returns (i: nat)
      ensures i == FindServer(list, session)
    {
      i := 0;
      while i < |list| && list[i].session != Some(session)
        invariant i <= |list| && FindServer(list, session) == i + FindServer(list[i..], session)
      {
        assert list[i..][1..] == list[i + 1..];
        i := i + 1;
      }
    }

    /** handle_dm_request */
    method HandleDmRequest(uri: U.Uri, session: Session, m: Message, env: Env) returns (code: byte)
      modifies this
      ensures (Current(), code) == HandleDm(old(Current()), uri, session, m, env)
    {
      hide HandleGet, HandlePost, HandlePut, DeleteObject, FindServer;
      var i := FindSession(servers, session);
      var known := i < |servers|;
      if !known {
        var b := FindSession(bsServers, session);
        if b == |bsServers| {
          return IGNORE;
        }
      }
      if bsState != Pending {
        if !known {
          return NOT_IMPLEMENTED;
        }
        if servers[i].status != Registered && servers[i].status != RegUpdatePending {
          return IGNORE;
        }
      } else if known {
        return UNAUTHORIZED;
      }
      if m.code == GET {
        code := Get(uri, i, m, env);
      } else if m.code == POST {
        code := Post(uri, m, env);
      } else if m.code == PUT {
        code := Put(uri, m, env);
      } else if uri.instanceId.Some? && uri.resourceId.None? {
        code := ObjectDelete(uri, env);
      } else {
        code := BAD_REQUEST;
      }
    }

    // ---------- packet.c ----------

    /** handle_request */
    method Request(session: Session, m: Message, env: Env) returns (code: byte)
      modifies this
      ensures (Current(), code) == HandleRequest(old(Current()), session, m, env)
    {
      hide HandleDm, DeleteAllFrom, FindServer;
      var uri := U.DecodeUri(altPath, m.path);
      if uri.None? {
        return BAD_REQUEST;
      }
      if uri.value.target.Dm? {
        code := HandleDmRequest(uri.value, session, m, env);
      } else if uri.value.target.DeleteAll? {
        var b := FindSession(bsServers, session);
        if m.code != DELETE {
          code := BAD_REQUEST;
        } else if b == |bsServers| {
          code := UNAUTHORIZED;
        } else if bsState == Pending {
          DeleteAllInstances();
          code := DELETED;
        } else {
          code := IGNORE;
        }
      } else {
        code := IGNORE;
      }
    }

    /** lwm2m_handle_packet */
    method Receive(session: Session, m: Message, env: Env)
      modifies this
      ensures Current() == HandlePacket(old(Current()), session, m, env)
    {
      hide HandleRequest, HandleResponse, Observe.Cancel;
      if IsRequest(m) {
        if m.mtype != Con {
          DrawMid();
        }
        var code := Request(session, m, env);
        if code != IGNORE {
          log := log + [Answered(session, code)];
        }
      } else if m.mtype == Rst {
        CancelObserve(m.mid, ServersOf(Current(), session));
        var done := TransactionHandleResponse(session, m, false, env.now);
      } else if m.mtype == Ack {
        var done := TransactionHandleResponse(session, m, false, env.now);
      } else {
        var done := TransactionHandleResponse(session, m, true, env.now);
        if !done && m.mtype == Con {
          log := log + [Answered(session, 0)];
        }
      }
    }

    /** lwm2m_resource_value_changed */
    method ResourceValueChanged(uri: U.Uri, env: Env)
      modifies this
      ensures Current() == ValueChanged(old(Current()), uri, env)
    {
      hide ReadObject, Observe.Overlapping, Observe.Told, Observe.Messages;
      var list: seq<nat> := ObservedList(uri);
      while list != []
        invariant forall k | 0 <= k < |list| :: list[k] < |observed|
        invariant NotifyFrom(Current(), list, env) == ValueChanged(old(Current()), uri, env)
        decreases |list|
      {
        var o := observed[list[0]];
        var code := ObjectRead(o.uri, env);
        if code == CONTENT {
          TellWatchers(list[0]);
        }
        list := list[1..];
      }
    }

    /** The inner loop of lwm2m_resource_value_changed. */
    method TellWatchers(i: nat)
      requires i < |observed|
      modifies this`observed, this`nextMID, this`drawn, this`log
      ensures var o := old(observed)[i];
              && observed == old(observed)[i := o.(watchers := Observe.Told(o.watchers, old(nextMID)))]
              && nextMID == Observe.Mid(old(nextMID), |o.watchers|) && drawn == old(drawn) + |o.watchers|
              && log == old(log) + Notices(Observe.Messages(o, old(nextMID)))
    {
      hide Observe.Told, Observe.Messages, Observe.Mid, Notices;
      ghost var o := observed[i];
      ghost var told, notices := Observe.Told(o.watchers, nextMID), Notices(Observe.Messages(o, nextMID));
      MidStarts(nextMID);
      var ws := observed[i].watchers;
      var j := 0;
      while j < |ws|
        invariant 0 <= j <= |ws| == |o.watchers|
        invariant forall k | 0 <= k < j :: ws[k] == told[k]
        invariant forall k | j <= k < |ws| :: ws[k] == o.watchers[k]
        invariant nextMID == Observe.Mid(old(nextMID), j) && drawn == old(drawn) + j
        invariant log == old(log) + notices[..j]
        invariant observed == old(observed)
      {
        var w := ws[j];
        w := w.(lastMid := nextMID);
        MidGoesOn(old(nextMID), j);
        DrawMid();
        assert notices[..j + 1] == notices[..j] + [notices[j]];
        log := log + [Notified(Observe.Notification(observed[i].uri, w.server, w.token, w.lastMid, w.counter))];
        w := w.(counter := (w.counter + 1) % Observe.COUNTERS);
        ws := ws[j := w];
        j := j + 1;
      }
      observed := observed[i := observed[i].(watchers := ws)];
      assert ws == told && notices[..j] == notices;
    }

    // ---------- runs ----------

    method Process(e: Engine.Event, env: Env)
      modifies this
      ensures Current() == Engine.Apply(old(Current()), e, env)
    {
      hide Step, HandlePacket, ValueChanged, Start, UpdateByShortId, DeregisterFrom;
      match e {
        case Tick => Tick(env);
        case Packet(session, m) => Receive(session, m, env);
        case Changed(uri) => ResourceValueChanged(uri, env);
        case StartAll =>
          var ok := StartClient(env);
        case UpdateRegistration(shortID) => UpdateByShortID(shortID, env);
        case DeregisterAll => DeregisterAll(env.now);
      }
    }

    /** A context that goes through the events of a run is in the state of the run, so that what is proved of runs is
        true of it: no server waits for an answer that cannot come, and every transaction is accounted for. */
    method Drive(events: seq<(Engine.Event, Env)>)
      modifies this
      ensures Current() == Engine.Run(old(Current()), events)
      ensures Engine.Initial(old(Current())) ==>
        forall i | 0 <= i < |servers| && NoStuck.Awaits(servers[i].status).Some? ::
          exists j | 0 <= j < |transactions| ::
            && transactions[j].kind == NoStuck.Awaits(servers[i].status).value
            && transactions[j].peer == ManagementServer(i)
      ensures Engine.Initial(old(Current())) ==>
        forall k: nat ::
          && ClientFacts.Count(transactions, ClientFacts.OfSerial(k)) + ClientFacts.Tally(log, ClientFacts.OverBy(k)) ==
             ClientFacts.One(k < created)
          && ClientFacts.Tally(log, ClientFacts.SentBy(k)) <= MAX_RETRANSMIT
    {
      hide Engine.Apply, ClientFacts.Count, ClientFacts.Tally;
      ghost var start := Current();
      var i := 0;
      while i < |events|
        invariant 0 <= i <= |events| && Engine.Run(Current(), events[i..]) == Engine.Run(old(Current()), events)
      {
        assert events[i..][0] == events[i] && events[i..][1..] == events[i + 1..];
        Process(events[i].0, events[i].1);
        i := i + 1;
      }
      assert events[i..] == [];
      if Engine.Initial(start) {
        forall i: nat | i < |servers| && NoStuck.Awaits(servers[i].status).Some?
          ensures exists j | 0 <= j < |transactions| ::
            && transactions[j].kind == NoStuck.Awaits(servers[i].status).value
            && transactions[j].peer == ManagementServer(i)
        {
          NoStuck.NoServerIsStuck(start, events, i);
        }
        forall k: nat {
          Completion.ExactlyOnce(start, events, k);
        }
      }
    }
  }

  lemma DropGoesOn(ts: seq<Transaction>, drawn: nat)
    ensures DropAll(ts, drawn) ==
            if ts == [] then [] else [Dropped(ts[0].serial, drawn - ts[0].draw - 1)] + DropAll(ts[1..], drawn)
  {
  }

  /** The loop of object_getServers from some instance on. */
  function ReadingOn(s: State, list: seq<uint16>, instances: seq<uint16>, env: Env): (State, bool) {
    var (entries, calls) := ReadEntries(list, instances, env);
    GetFrom(LogAll(s, calls), entries)
  }

  lemma ReadsAll(s: State, env: Env)
    ensures GetServers(s, env) ==
            if HasObject(s, SECURITY_OBJECT)
            then ReadingOn(s, InstancesOf(s.objects, SECURITY_OBJECT), InstancesOf(s.objects, SERVER_OBJECT), env)
            else (s, false)
  {
    hide ReadEntries, GetFrom, InstancesOf;
  }

  lemma ReadingGoesOn(s: State, list: seq<uint16>, instances: seq<uint16>, env: Env)
    ensures list == [] ==> ReadingOn(s, list, instances, env) == (s, true)
    ensures list != [] ==>
      var (entry, calls) := ReadEntry(list[0], instances, env);
      var s1 := LogAll(s, calls);
      ReadingOn(s, list, instances, env) ==
      match entry
      case Unreadable => (s1, false)
      case BootstrapEntry(inst, shortID, holdOff) =>
        ReadingOn(s1.(bsServers := SortedList.Insert(s.bsServers, NewServer(inst, shortID, holdOff), SecInst)),
                  list[1..], instances, env)
      case ServerEntry(inst, shortID, lifetime) =>
        ReadingOn(s1.(servers := SortedList.Insert(s.servers, NewServer(inst, shortID, lifetime), SecInst)),
                  list[1..], instances, env)
  {
    hide ReadEntry, SortedList.Insert;
    assert s.log + [] == s.log;
    if list != [] {
      var (entry, calls) := ReadEntry(list[0], instances, env);
      var (entries, more) := ReadEntries(list[1..], instances, env);
      assert s.log + (calls + more) == s.log + calls + more;
      assert ([entry] + entries)[1..] == entries;
    }
  }

  /** What cancel_observe does from entry i on. */
  lemma CancelStep(all: seq<Observe.Observed>, i: nat, mid: uint16, sharing: set<nat>)
    requires i < |all|
    ensures var ws := all[i].watchers;
            var j := Observe.FindMid(ws, mid, sharing);
            Observe.Cancel(all[i..], mid, sharing) ==
            if j == |ws| then [all[i]] + Observe.Cancel(all[i + 1..], mid, sharing)
            else if |ws| == 1 then all[i + 1..]
            else [all[i].(watchers := ws[..j] + ws[j + 1..])] + all[i + 1..]
  {
    hide Observe.FindMid;
    assert all[i..][0] == all[i] && all[i..][1..] == all[i + 1..];
  }

  lemma NothingToCancel(mid: uint16, sharing: set<nat>)
    ensures Observe.Cancel([], mid, sharing) == []
  {
  }

  lemma MidStarts(n: uint16)
    ensures Observe.Mid(n, 0) == n
  {
  }

  lemma MidGoesOn(n: uint16, j: nat)
    ensures (Observe.Mid(n, j) + 1) % 0x1_0000 == Observe.Mid(n, j + 1)
  {
  }
}
