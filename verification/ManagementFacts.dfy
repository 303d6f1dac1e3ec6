/**
 What requests and notifications leave alone.

 Whatever a request asks for, and whatever is notified, the servers, the bootstrap servers and the transactions stay as
 they are, and the state of a bootstrap can only go from pending to failed. What is logged is calls of object
 callbacks, answers and notifications.
 */
module ManagementFacts {
  import opened Core
  import opened Client
  import opened Management
  import opened ClientFacts
  import Observe
  import Tlv
  import U = Uri

  /** Message identifiers may have been drawn. */
  predicate Drew(s: State, r: State) {
    r.drawn >= s.drawn && r.nextMID == (s.nextMID + (r.drawn - s.drawn)) % 0x1_0000
  }

  /** Servers and transactions stay; a bootstrap can only fail; what is logged says nothing about
      transactions. */
  predicate OnlyManages(s: State, r: State) {
    && Drew(s, r)
    && r.servers == s.servers && r.bsServers == s.bsServers && r.altPath == s.altPath
    && r.transactions == s.transactions && r.created == s.created && r.clashed == s.clashed
    && (r.bsState == s.bsState || (s.bsState == Pending && r.bsState == Failed))
    && |r.log| >= |s.log| && r.log[..|s.log|] == s.log
    && (forall i | |s.log| <= i < |r.log| :: Silent(r.log[i]))
  }

  lemma Follows(a: State, b: State, c: State)
    requires OnlyManages(a, b) && OnlyManages(b, c)
    ensures OnlyManages(a, c)
  {
    assert c.log[..|a.log|] == c.log[..|b.log|][..|a.log|];
    assert forall i | |a.log| <= i < |b.log| :: c.log[i] == c.log[..|b.log|][i];
  }

  lemma Logs(s: State, r: State, outputs: seq<Output>)
    requires r.servers == s.servers && r.bsServers == s.bsServers && r.altPath == s.altPath
    requires r.transactions == s.transactions && r.created == s.created && r.clashed == s.clashed
    requires Drew(s, r) && r.log == s.log + outputs
    requires r.bsState == s.bsState || (s.bsState == Pending && r.bsState == Failed)
    requires forall i | 0 <= i < |outputs| :: Silent(outputs[i])
    ensures OnlyManages(s, r)
  {
  }

  /** Read callbacks of one object, and nothing else. */
  predicate ReadsOf(id: uint16, calls: seq<Output>) {
    forall o | o in calls :: o.Called? && o.op == Read && o.objectId == id
  }

  lemma {:induction false} ReadsAreReads(id: uint16, instances: seq<uint16>, env: Env)
    ensures ReadsOf(id, ReadInstances(id, instances, env).1)
  {
    if instances != [] {
      ReadsAreReads(id, instances[1..], env);
    }
  }

  /** object_read calls read callbacks of one object, and never those of the Security object. */
  lemma ReadIsSilent(s: State, uri: U.Uri, env: Env)
    ensures exists id: uint16 :: id != SECURITY_OBJECT && ReadsOf(id, ReadObject(s, uri, env).1)
    ensures var r := ReadObject(s, uri, env).1; forall i | 0 <= i < |r| :: Silent(r[i])
  {
    var at := FindObject(s, Number(uri.objectId));
    var r := ReadObject(s, uri, env).1;
    var id: uint16 := if at.Some? then s.objects[at.value].id else SERVER_OBJECT;
    if s.bsState == Pending || at.None? {
      assert ReadsOf(SERVER_OBJECT, r);
    } else {
      ReadsAreReads(id, s.objects[at.value].instances, env);
      ReadsAreReads(id, [Number(uri.instanceId)], env);
      assert ReadsOf(id, r);
    }
    assert forall i | 0 <= i < |r| :: r[i] in r;
  }

  lemma WriteManages(s: State, uri: U.Uri, payload: seq<byte>, env: Env)
    ensures OnlyManages(s, WriteObject(s, uri, payload, env).0)
  {
    hide Tlv.Accepted, FindObject, OnlyManages;
    var r := WriteObject(s, uri, payload, env).0;
    Logs(s, r, r.log[|s.log|..]);
  }

  lemma CreateManages(s: State, uri: U.Uri, payload: seq<byte>, env: Env)
    ensures OnlyManages(s, CreateObject(s, uri, payload, env).0)
  {
    hide Tlv.Accepted, FindObject, OnlyManages;
    var r := CreateObject(s, uri, payload, env).0;
    Logs(s, r, r.log[|s.log|..]);
  }

  lemma ExecuteManages(s: State, uri: U.Uri, env: Env)
    ensures OnlyManages(s, ExecuteObject(s, uri, env).0)
  {
    var r := ExecuteObject(s, uri, env).0;
    Logs(s, r, r.log[|s.log|..]);
  }

  lemma DeleteManages(s: State, uri: U.Uri, env: Env)
    ensures OnlyManages(s, DeleteObject(s, uri, env).0)
  {
    var r := DeleteObject(s, uri, env).0;
    Logs(s, r, r.log[|s.log|..]);
  }

  lemma {:induction false} DeletesAreSilent(id: uint16, instances: seq<uint16>)
    ensures var r := DeleteInstances(id, instances);
            |r| == |instances| && forall i | 0 <= i < |r| :: r[i] == Called(Delete, id, instances[i])
  {
    if instances != [] {
      DeletesAreSilent(id, instances[1..]);
    }
  }

  lemma {:induction false} DeleteAllManages(s: State, i: nat)
    ensures OnlyManages(s, DeleteAllFrom(s, i))
    decreases |s.objects| - i
  {
    if i < |s.objects| {
      var o := s.objects[i];
      if o.id in {SECURITY_OBJECT, SERVER_OBJECT} && o.deletable {
        var deletes := DeleteInstances(o.id, o.instances);
        var s1 := s.(objects := s.objects[i := o.(instances := [])], log := s.log + deletes);
        DeletesAreSilent(o.id, o.instances);
        Logs(s, s1, deletes);
        DeleteAllManages(s1, i + 1);
        Follows(s, s1, DeleteAllFrom(s1, i + 1));
      } else {
        DeleteAllManages(s, i + 1);
      }
    }
  }

  lemma GetManages(s: State, uri: U.Uri, i: nat, m: Message, env: Env)
    ensures OnlyManages(s, HandleGet(s, uri, i, m, env).0)
  {
    hide ReadObject;
    ReadIsSilent(s, uri, env);
    Logs(s, HandleGet(s, uri, i, m, env).0, ReadObject(s, uri, env).1);
  }

  lemma DmManages(s: State, uri: U.Uri, session: Session, m: Message, env: Env)
    ensures OnlyManages(s, HandleDm(s, uri, session, m, env).0)
  {
    hide HandleGet, WriteObject, CreateObject, ExecuteObject, DeleteObject, OnlyManages;
    Logs(s, s, []);
    GetManages(s, uri, FindServer(s.servers, session), m, env);
    WriteManages(s, uri, m.payload, env);
    CreateManages(s, uri, m.payload, env);
    ExecuteManages(s, uri, env);
    DeleteManages(s, uri, env);
  }

  lemma RequestManages(s: State, session: Session, m: Message, env: Env)
    ensures OnlyManages(s, HandleRequest(s, session, m, env).0)
  {
    hide HandleDm, DeleteAllFrom, OnlyManages;
    Logs(s, s, []);
    DeleteAllManages(s, 0);
    var uri := U.DecodeUri(s.altPath, m.path);
    if uri.Some? {
      DmManages(s, uri.value, session, m, env);
    }
  }

  lemma {:induction false} NotifyManages(s: State, places: seq<nat>, env: Env)
    requires forall k | 0 <= k < |places| :: places[k] < |s.observed|
    ensures OnlyManages(s, NotifyFrom(s, places, env))
    decreases |places|
  {
    hide ReadObject;
    if places == [] {
      Logs(s, s, []);
    } else {
      var o := s.observed[places[0]];
      var (code, calls) := ReadObject(s, o.uri, env);
      ReadIsSilent(s, o.uri, env);
      var s1 := s.(log := s.log + calls);
      Logs(s, s1, calls);
      if code != CONTENT {
        NotifyManages(s1, places[1..], env);
        Follows(s, s1, NotifyFrom(s1, places[1..], env));
      } else {
        var notices := Notices(Observe.Messages(o, s.nextMID));
        var s2 := s1.(
          observed := s.observed[places[0] := o.(watchers := Observe.Told(o.watchers, s.nextMID))],
          nextMID := Observe.Mid(s.nextMID, |o.watchers|), drawn := s.drawn + |o.watchers|,
          log := s1.log + notices);
        Logs(s1, s2, notices);
        NotifyManages(s2, places[1..], env);
        Follows(s, s1, s2);
        Follows(s, s2, NotifyFrom(s2, places[1..], env));
      }
    }
  }
}
