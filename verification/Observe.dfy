/** The resources that servers observe on a client (wakaama/observe.c, RFC 7641). */
module Observe {
  // Each observed path has a list of watchers; each watcher is a server, by its place in the server list, with
  // its token, its notification counter and the message identifier of its last notification.

  import opened Core
  import opened Uri

  datatype Watcher = Watcher(server: nat, token: seq<byte>, counter: nat, lastMid: uint16)
  datatype Observed = Observed(uri: Uri, watchers: seq<Watcher>)

  /** A notification handed to message_send. */
  datatype Notification = Notification(uri: Uri, server: nat, token: seq<byte>, mid: uint16, counter: nat)

  // counters are 32 bits wide
  const COUNTERS := 0x1_0000_0000

  // ---------- observe requests ----------

  /** prv_findObserved: the place of a path in the list, or the length of the list. */
  function FindObserved(obs: seq<Observed>, uri: Uri): (i: nat)
    ensures i <= |obs| && (i < |obs| ==> obs[i].uri == uri)
    ensures forall j | 0 <= j < i :: obs[j].uri != uri
  {
    if obs == [] || obs[0].uri == uri then 0 else 1 + FindObserved(obs[1..], uri)
  }

  /** prv_findWatcher */
  function FindWatcher(ws: seq<Watcher>, server: nat): (i: nat)
    ensures i <= |ws| && (i < |ws| ==> ws[i].server == server)
    ensures forall j | 0 <= j < i :: ws[j].server != server
  {
    if ws == [] || ws[0].server == server then 0 else 1 + FindWatcher(ws[1..], server)
  }

  function Watch(ws: seq<Watcher>, server: nat, token: seq<byte>): seq<Watcher> {
    var i := FindWatcher(ws, server);
    if i == |ws| then [Watcher(server, token, 1, 0)] + ws
    else ws[i := ws[i].(token := token, counter := (ws[i].counter + 1) % COUNTERS)]
  }

  /** handle_observe_request, for a request that it does not refuse: a server asking again keeps its
      place and its counter and gets the new token. */
  function Add(obs: seq<Observed>, uri: Uri, server: nat, token: seq<byte>): seq<Observed> {
    var i := FindObserved(obs, uri);
    if i == |obs| then [Observed(uri, Watch([], server, token))] + obs
    else obs[i := obs[i].(watchers := Watch(obs[i].watchers, server, token))]
  }

  // ---------- cancellation ----------

  /** The first watcher with the message identifier, among servers that share a session. */
  function FindMid(ws: seq<Watcher>, mid: uint16, servers: set<nat>): (i: nat)
    ensures i <= |ws| && (i < |ws| ==> ws[i].lastMid == mid && ws[i].server in servers)
  {
    if ws == [] || (ws[0].lastMid == mid && ws[0].server in servers) then 0
    else 1 + FindMid(ws[1..], mid, servers)
  }

  /** cancel_observe: takes out the first matching watcher, and its path when it was the last one. */
  function Cancel(obs: seq<Observed>, mid: uint16, servers: set<nat>): seq<Observed> {
    if obs == [] then []
    else
      var ws := obs[0].watchers;
      var i := FindMid(ws, mid, servers);
      if i == |ws| then [obs[0]] + Cancel(obs[1..], mid, servers)
      else if |ws| == 1 then obs[1..]
      else [obs[0].(watchers := ws[..i] + ws[i + 1..])] + obs[1..]
  }

  // ---------- notification ----------

  predicate Agrees(a: Option<uint16>, b: Option<uint16>) { a.None? || b.None? || a == b }

  predicate Overlaps(uri: Uri, observed: Uri) {
    && uri.objectId == observed.objectId
    && Agrees(uri.instanceId, observed.instanceId)
    && Agrees(uri.resourceId, observed.resourceId)
  }

  /** A resource lies under the path: it is of the object of the path, of its instance if it has one, and it is its
      resource if it has one. */
  predicate Covers(p: Uri, owner: Option<uint16>, instance: uint16, resource: uint16) {
    && p.objectId == owner
    && (p.instanceId.None? || p.instanceId.value == instance)
    && (p.resourceId.None? || p.resourceId.value == resource)
  }

  /** Some resource lies under both paths. */
  ghost predicate Share(a: Uri, b: Uri) {
    exists o: Option<uint16>, i: uint16, r: uint16 :: Covers(a, o, i, r) && Covers(b, o, i, r)
  }

  /** The tests of prv_getObservedList find exactly the paths that have a resource in common with the changed one. */
  lemma OverlapsMeans(uri: Uri, observed: Uri)
    ensures Overlaps(uri, observed) <==> Share(uri, observed)
  {
    if Overlaps(uri, observed) {
      var i := if uri.instanceId.Some? then uri.instanceId else observed.instanceId;
      var r := if uri.resourceId.Some? then uri.resourceId else observed.resourceId;
      var inst: uint16, res: uint16 := if i.Some? then i.value else 0, if r.Some? then r.value else 0;
      assert Covers(uri, uri.objectId, inst, res) && Covers(observed, uri.objectId, inst, res);
    }
  }

  /** prv_getObservedList: the places of the overlapping entries, the last one first. */
  function Overlapping(obs: seq<Observed>, uri: Uri, n: nat): (places: seq<nat>)
    requires n <= |obs|
    ensures forall k | 0 <= k < |places| :: places[k] < n
  {
    if n == 0 then []
    else (if Overlaps(uri, obs[n - 1].uri) then [n - 1] else []) + Overlapping(obs, uri, n - 1)
  }

  function Mid(nextMID: uint16, k: nat): uint16 { (nextMID + k) % 0x1_0000 }

  function Told(ws: seq<Watcher>, nextMID: uint16): (r: seq<Watcher>)
    ensures |r| == |ws|
    ensures forall j | 0 <= j < |ws| ::
      r[j] == ws[j].(lastMid := Mid(nextMID, j), counter := (ws[j].counter + 1) % COUNTERS)
  {
    seq(|ws|, j requires 0 <= j < |ws| =>
      ws[j].(lastMid := Mid(nextMID, j), counter := (ws[j].counter + 1) % COUNTERS))
  }

  function Messages(o: Observed, nextMID: uint16): (r: seq<Notification>)
    ensures |r| == |o.watchers|
    ensures forall j | 0 <= j < |r| ::
      r[j] == Notification(o.uri, o.watchers[j].server, o.watchers[j].token, Mid(nextMID, j), o.watchers[j].counter)
  {
    seq(|o.watchers|, j requires 0 <= j < |o.watchers| =>
      Notification(o.uri, o.watchers[j].server, o.watchers[j].token, Mid(nextMID, j), o.watchers[j].counter))
  }

  /** The loop of lwm2m_resource_value_changed over the entries at `places`, given the paths that
      object_read can read: the entries and the messages sent. */
  function Notify(obs: seq<Observed>, places: seq<nat>, readable: set<Uri>, nextMID: uint16)
    : (seq<Observed>, seq<Notification>)
    requires forall k | 0 <= k < |places| :: places[k] < |obs|
    decreases |places|
  {
    if places == [] then (obs, [])
    else
      var o := obs[places[0]];
      if o.uri !in readable then Notify(obs, places[1..], readable, nextMID)
      else
        var told := obs[places[0] := o.(watchers := Told(o.watchers, nextMID))];
        var r := Notify(told, places[1..], readable, Mid(nextMID, |o.watchers|));
        (r.0, Messages(o, nextMID) + r.1)
  }

  // ---------- the invariant ----------

  predicate DistinctServers(ws: seq<Watcher>) {
    forall i, j | 0 <= i < j < |ws| :: ws[i].server != ws[j].server
  }

  /** Paths are observed once, by at least one server, and by each server at most once. */
  predicate Inv(obs: seq<Observed>) {
    && (forall i, j | 0 <= i < j < |obs| :: obs[i].uri != obs[j].uri)
    && (forall i | 0 <= i < |obs| :: obs[i].watchers != [] && DistinctServers(obs[i].watchers))
  }

  function Servers(ws: seq<Watcher>): set<nat> { set j | 0 <= j < |ws| :: ws[j].server }

  /** Who watches what. */
  function Watching(obs: seq<Observed>): set<(Uri, nat)> {
    if obs == [] then {}
    else (set sv | sv in Servers(obs[0].watchers) :: (obs[0].uri, sv)) + Watching(obs[1..])
  }

  // ---------- adding and cancelling keep the invariant ----------

  lemma WatchKeeps(ws: seq<Watcher>, server: nat, token: seq<byte>)
    requires DistinctServers(ws)
    ensures var r := Watch(ws, server, token);
            DistinctServers(r) && r != [] && Servers(r) == Servers(ws) + {server}
  {
    var i := FindWatcher(ws, server);
    var r := Watch(ws, server, token);
    if i == |ws| {
      assert forall j | 0 < j < |r| :: r[j] == ws[j - 1];
      assert r[0].server == server;
      forall sv | sv in Servers(ws)
        ensures sv in Servers(r)
      {
        var j :| 0 <= j < |ws| && ws[j].server == sv;
        assert r[j + 1].server == sv;
      }
    } else {
      assert forall j | 0 <= j < |ws| :: r[j].server == ws[j].server;
    }
  }

  lemma {:induction false} WatchingAppend(a: seq<Observed>, b: seq<Observed>)
    ensures Watching(a + b) == Watching(a) + Watching(b)
  {
    if a == [] {
      assert a + b == b;
    } else {
      assert (a + b)[1..] == a[1..] + b;
      WatchingAppend(a[1..], b);
    }
  }

  /** Replacing one entry changes who watches by that entry alone. */
  lemma WatchingAt(obs: seq<Observed>, i: nat, o: Observed)
    requires i < |obs|
    ensures Watching(obs[i := o]) == Watching(obs[..i]) + Watching([o]) + Watching(obs[i + 1..])
  {
    assert obs[i := o] == obs[..i] + [o] + obs[i + 1..];
    WatchingAppend(obs[..i] + [o], obs[i + 1..]);
    WatchingAppend(obs[..i], [o]);
  }

  /** An observe request adds the one server to the one path, and nothing else. */
  lemma AddKeepsInv(obs: seq<Observed>, uri: Uri, server: nat, token: seq<byte>)
    requires Inv(obs)
    ensures Inv(Add(obs, uri, server, token))
    ensures Watching(Add(obs, uri, server, token)) == Watching(obs) + {(uri, server)}
  {
    hide Watch, Watching;
    var i := FindObserved(obs, uri);
    if i == |obs| {
      WatchKeeps([], server, token);
      var w := Observed(uri, Watch([], server, token));
      var r := [w] + obs;
      assert forall k | 0 < k < |r| :: r[k] == obs[k - 1];
      WatchingAppend([w], obs);
      WatchingOne(w);
    } else {
      WatchKeeps(obs[i].watchers, server, token);
      var w := obs[i].(watchers := Watch(obs[i].watchers, server, token));
      WatchingAt(obs, i, w);
      WatchingAt(obs, i, obs[i]);
      assert obs[i := obs[i]] == obs;
      WatchingOne(w);
      WatchingOne(obs[i]);
    }
  }

  lemma WatchingOne(o: Observed)
    ensures Watching([o]) == set sv | sv in Servers(o.watchers) :: (o.uri, sv)
  {
    assert [o][1..] == [];
  }

  lemma {:induction false} UrisWatched(obs: seq<Observed>)
    ensures forall p | p in Watching(obs) :: p.0 in Uris(obs)
  {
    if obs != [] {
      UrisWatched(obs[1..]);
      assert forall i | 0 <= i < |obs[1..]| :: obs[1..][i] == obs[i + 1];
      assert obs[0].uri in Uris(obs);
    }
  }

  lemma DropWatcher(ws: seq<Watcher>, i: nat)
    requires DistinctServers(ws) && i < |ws|
    ensures var r := ws[..i] + ws[i + 1..];
            DistinctServers(r) && Servers(r) == Servers(ws) - {ws[i].server}
  {
    var r := ws[..i] + ws[i + 1..];
    assert forall j | 0 <= j < |r| :: r[j] == ws[if j < i then j else j + 1];
    forall sv | sv in Servers(ws) && sv != ws[i].server
      ensures sv in Servers(r)
    {
      var j :| 0 <= j < |ws| && ws[j].server == sv;
      assert r[if j < i then j else j - 1].server == sv;
    }
  }

  /** Where cancel_observe finds what it takes out. */
  function Victim(obs: seq<Observed>, mid: uint16, servers: set<nat>): Option<(Uri, nat)> {
    if obs == [] then None
    else
      var i := FindMid(obs[0].watchers, mid, servers);
      if i < |obs[0].watchers| then Some((obs[0].uri, obs[0].watchers[i].server))
      else Victim(obs[1..], mid, servers)
  }

  function Uris(obs: seq<Observed>): set<Uri> { set i | 0 <= i < |obs| :: obs[i].uri }

  lemma InvCons(o: Observed, obs: seq<Observed>)
    ensures Inv([o] + obs) <==> Inv(obs) && o.uri !in Uris(obs) && o.watchers != [] && DistinctServers(o.watchers)
    ensures Uris([o] + obs) == {o.uri} + Uris(obs)
  {
    hide DistinctServers;
    var r := [o] + obs;
    assert forall i | 0 < i < |r| :: r[i] == obs[i - 1];
    assert forall i | 0 <= i < |obs| :: obs[i] == r[i + 1];
    assert r[0] == o;
    UrisCons(o, obs);
  }

  lemma UrisCons(o: Observed, obs: seq<Observed>)
    ensures Uris([o] + obs) == {o.uri} + Uris(obs)
  {
    var r := [o] + obs;
    assert r[0] == o;
    forall u | u in Uris(obs) ensures u in Uris(r) {
      var i :| 0 <= i < |obs| && obs[i].uri == u;
      assert r[i + 1] == obs[i];
    }
    forall u | u in Uris(r) && u != o.uri ensures u in Uris(obs) {
      var i :| 0 <= i < |r| && r[i].uri == u;
      assert r[i] == obs[i - 1];
    }
  }

  lemma WatchingCons(o: Observed, obs: seq<Observed>)
    ensures Watching([o] + obs) == (set sv | sv in Servers(o.watchers) :: (o.uri, sv)) + Watching(obs)
  {
    hide Servers;
    assert ([o] + obs)[1..] == obs;
  }

  /** The first entry loses a watcher. */
  lemma DropKeepsInv(o: Observed, obs: seq<Observed>, i: nat)
    requires Inv([o] + obs) && i < |o.watchers|
    ensures var ws := o.watchers[..i] + o.watchers[i + 1..];
            var r := if |o.watchers| == 1 then obs else [o.(watchers := ws)] + obs;
            && Inv(r) && Uris(r) <= Uris([o] + obs)
            && Watching(r) == Watching([o] + obs) - {(o.uri, o.watchers[i].server)}
            && (o.uri, o.watchers[i].server) in Watching([o] + obs)
  {
    hide Inv, Uris, Watching, Servers;
    var ws := o.watchers;
    var rest := o.(watchers := ws[..i] + ws[i + 1..]);
    InvCons(o, obs);
    InvCons(rest, obs);
    WatchingCons(o, obs);
    WatchingCons(rest, obs);
    DropWatcher(ws, i);
    UrisWatched(obs);
    IsServer(ws, i);
    if |ws| == 1 {
      assert ws[..i] + ws[i + 1..] == [];
      NoServers();
    }
  }

  lemma IsServer(ws: seq<Watcher>, i: nat)
    requires i < |ws|
    ensures ws[i].server in Servers(ws)
  {
  }

  lemma NoServers()
    ensures Servers([]) == {}
  {
  }

  /** A reset stops at most one server from watching one path, keeps everybody else, and leaves no path
      without a watcher. */
  lemma {:induction false} CancelKeepsInv(obs: seq<Observed>, mid: uint16, servers: set<nat>)
    requires Inv(obs)
    ensures Inv(Cancel(obs, mid, servers)) && Uris(Cancel(obs, mid, servers)) <= Uris(obs)
    ensures Watching(Cancel(obs, mid, servers)) == match Victim(obs, mid, servers)
            case None => Watching(obs)
            case Some(v) => Watching(obs) - {v}
    ensures Victim(obs, mid, servers).Some? ==> Victim(obs, mid, servers).value in Watching(obs)
  {
    hide Inv, Uris, Watching, Servers;
    if obs != [] {
      var o, rest := obs[0], obs[1..];
      assert obs == [o] + rest;
      var i := FindMid(o.watchers, mid, servers);
      if i == |o.watchers| {
        var r := Cancel(rest, mid, servers);
        InvCons(o, rest);
        CancelKeepsInv(rest, mid, servers);
        InvCons(o, r);
        WatchingCons(o, rest);
        WatchingCons(o, r);
        UrisWatched(rest);
      } else {
        DropKeepsInv(o, rest, i);
      }
    }
  }

  // ---------- who is told what ----------

  /** How a server watches a path: with its token, its counter and the identifier of its last notification. */
  function WatcherOf(obs: seq<Observed>, path: Uri, server: nat): Option<Watcher> {
    var i := FindObserved(obs, path);
    if i == |obs| then None else WatcherIn(obs[i].watchers, server)
  }

  function WatcherIn(ws: seq<Watcher>, server: nat): Option<Watcher> {
    var j := FindWatcher(ws, server);
    if j == |ws| then None else Some(ws[j])
  }

  lemma WatcherIs(ws: seq<Watcher>, server: nat, token: seq<byte>, other: nat)
    ensures WatcherIn(Watch(ws, server, token), other) ==
            if other != server then WatcherIn(ws, other)
            else match WatcherIn(ws, server)
              case None => Some(Watcher(server, token, 1, 0))
              case Some(w) => Some(w.(token := token, counter := (w.counter + 1) % COUNTERS))
  {
    var r := Watch(ws, server, token);
    if FindWatcher(ws, server) == |ws| {
      assert r[1..] == ws;
    } else {
      SamePlaces(ws, r, other);
    }
  }

  lemma {:induction false} SamePlaces(ws: seq<Watcher>, r: seq<Watcher>, server: nat)
    requires |r| == |ws| && forall j | 0 <= j < |ws| :: r[j].server == ws[j].server
    ensures FindWatcher(r, server) == FindWatcher(ws, server)
  {
    if ws != [] {
      SamePlaces(ws[1..], r[1..], server);
    }
  }

  /** An observe request makes the server watch the path under its new token, with a counter that goes on if it did so
      before. Everybody else, and every other path, is watched as before. */
  lemma AddIs(obs: seq<Observed>, uri: Uri, server: nat, token: seq<byte>, path: Uri, other: nat)
    ensures WatcherOf(Add(obs, uri, server, token), path, other) ==
            if path != uri || other != server then WatcherOf(obs, path, other)
            else match WatcherOf(obs, uri, server)
              case None => Some(Watcher(server, token, 1, 0))
              case Some(w) => Some(w.(token := token, counter := (w.counter + 1) % COUNTERS))
  {
    hide Watch, WatcherIn;
    var i, r := FindObserved(obs, uri), Add(obs, uri, server, token);
    NobodyWatches(other);
    if i == |obs| {
      WatcherIs([], server, token, other);
      assert r[1..] == obs;
    } else {
      WatcherIs(obs[i].watchers, server, token, other);
      SamePaths(obs, r, path);
    }
  }

  lemma NobodyWatches(server: nat)
    ensures WatcherIn([], server) == None
  {
  }

  lemma {:induction false} SamePaths(obs: seq<Observed>, r: seq<Observed>, path: Uri)
    requires |r| == |obs| && forall i | 0 <= i < |obs| :: r[i].uri == obs[i].uri
    ensures FindObserved(r, path) == FindObserved(obs, path)
  {
    if obs != [] {
      SamePaths(obs[1..], r[1..], path);
    }
  }

  /** The server watches the path, and its last notification about it had this identifier. */
  predicate Fits(obs: seq<Observed>, v: (Uri, nat), mid: uint16, servers: set<nat>) {
    var w := WatcherOf(obs, v.0, v.1);
    w.Some? && w.value.lastMid == mid && v.1 in servers
  }

  lemma DroppedIs(ws: seq<Watcher>, i: nat, other: nat)
    requires DistinctServers(ws) && i < |ws|
    ensures WatcherIn(ws[..i] + ws[i + 1..], other) == if other == ws[i].server then None else WatcherIn(ws, other)
    ensures WatcherIn(ws, ws[i].server) == Some(ws[i])
    decreases i
  {
    var r := ws[..i] + ws[i + 1..];
    assert forall j | 0 <= j < |r| :: r[j] == ws[if j < i then j else j + 1];
    var j, k := FindWatcher(ws, other), FindWatcher(r, other);
    if k < |r| {
      assert r[k].server == ws[if k < i then k else k + 1].server == other;
    }
    if j < |ws| && j != i {
      assert r[if j < i then j else j - 1].server == other;
    }
  }

  lemma MidIsFound(ws: seq<Watcher>, mid: uint16, servers: set<nat>)
    requires DistinctServers(ws)
    ensures FindMid(ws, mid, servers) == |ws| <==>
            forall j | 0 <= j < |ws| :: !(ws[j].lastMid == mid && ws[j].server in servers)
  {
    NoneFound(ws, mid, servers);
  }

  lemma {:induction false} NoneFound(ws: seq<Watcher>, mid: uint16, servers: set<nat>)
    ensures FindMid(ws, mid, servers) == |ws| ==>
            forall j | 0 <= j < |ws| :: !(ws[j].lastMid == mid && ws[j].server in servers)
  {
    if ws != [] && FindMid(ws, mid, servers) == |ws| {
      NoneFound(ws[1..], mid, servers);
      assert forall j | 0 < j < |ws| :: ws[j] == ws[1..][j - 1];
    }
  }

  lemma WatcherOfCons(o: Observed, obs: seq<Observed>, path: Uri, server: nat)
    ensures WatcherOf([o] + obs, path, server) ==
            if o.uri == path then WatcherIn(o.watchers, server) else WatcherOf(obs, path, server)
  {
    hide WatcherIn;
    assert ([o] + obs)[1..] == obs;
  }

  lemma {:induction false} NotObserved(obs: seq<Observed>, path: Uri, server: nat)
    requires path !in Uris(obs)
    ensures WatcherOf(obs, path, server) == None
  {
  }

  /** A reset takes out one server that was last told about the path under this identifier, if there is one, and nobody
      else. */
  lemma {:induction false} CancelIs(obs: seq<Observed>, mid: uint16, servers: set<nat>, path: Uri, other: nat)
    requires Inv(obs)
    ensures WatcherOf(Cancel(obs, mid, servers), path, other) ==
            if Victim(obs, mid, servers) == Some((path, other)) then None else WatcherOf(obs, path, other)
    ensures Victim(obs, mid, servers).Some? ==> Fits(obs, Victim(obs, mid, servers).value, mid, servers)
    ensures Victim(obs, mid, servers) == None ==> !Fits(obs, (path, other), mid, servers)
  {
    hide Inv, Uris, WatcherIn, WatcherOf;
    if obs == [] {
      NothingObserved(path, other);
    } else {
      var o, rest := obs[0], obs[1..];
      assert obs == [o] + rest;
      InvCons(o, rest);
      MidIsFound(o.watchers, mid, servers);
      WatcherOfCons(o, rest, path, other);
      var i := FindMid(o.watchers, mid, servers);
      if i == |o.watchers| {
        CancelIs(rest, mid, servers, path, other);
        WatcherOfCons(o, Cancel(rest, mid, servers), path, other);
        InWatchers(o.watchers, other);
        var v := Victim(rest, mid, servers);
        if v.Some? {
          WatcherOfCons(o, rest, v.value.0, v.value.1);
          if v.value.0 == o.uri {
            NotObserved(rest, o.uri, v.value.1);
          }
        }
      } else {
        DroppedIs(o.watchers, i, other);
        WatcherOfCons(o, rest, o.uri, o.watchers[i].server);
        WatcherOfCons(o.(watchers := o.watchers[..i] + o.watchers[i + 1..]), rest, path, other);
        if path == o.uri {
          NotObserved(rest, path, other);
        }
        if |o.watchers| == 1 {
          OneWatcher(o.watchers, other);
        }
      }
    }
  }

  lemma NothingObserved(path: Uri, server: nat)
    ensures WatcherOf([], path, server) == None
  {
  }

  lemma InWatchers(ws: seq<Watcher>, server: nat)
    ensures WatcherIn(ws, server).Some? ==>
            exists j | 0 <= j < |ws| :: WatcherIn(ws, server) == Some(ws[j]) && ws[j].server == server
  {
  }

  lemma OneWatcher(ws: seq<Watcher>, server: nat)
    requires |ws| == 1
    ensures WatcherIn(ws, server) == if ws[0].server == server then Some(ws[0]) else None
  {
  }

  // ---------- notifications are sent exactly once ----------

  /** How many messages tell a server about a path. */
  function Count(msgs: seq<Notification>, uri: Uri, server: nat): nat {
    if msgs == [] then 0
    else (if msgs[0].uri == uri && msgs[0].server == server then 1 else 0) + Count(msgs[1..], uri, server)
  }

  lemma {:induction false} CountAppend(a: seq<Notification>, b: seq<Notification>, uri: Uri, server: nat)
    ensures Count(a + b, uri, server) == Count(a, uri, server) + Count(b, uri, server)
  {
    if a == [] {
      assert a + b == b;
    } else {
      assert (a + b)[1..] == a[1..] + b;
      CountAppend(a[1..], b, uri, server);
    }
  }

  lemma ServersCons(w: Watcher, ws: seq<Watcher>)
    ensures Servers([w] + ws) == {w.server} + Servers(ws)
  {
    var r := [w] + ws;
    assert r[0] == w;
    forall sv | sv in Servers(ws)
      ensures sv in Servers(r)
    {
      var j :| 0 <= j < |ws| && ws[j].server == sv;
      assert r[j + 1] == ws[j];
    }
  }

  lemma {:induction false} CountTail(o: Observed, msgs: seq<Notification>, from: nat, uri: Uri, server: nat)
    requires from <= |o.watchers| && |msgs| == |o.watchers| - from && DistinctServers(o.watchers)
    requires forall j | 0 <= j < |msgs| :: msgs[j].uri == o.uri && msgs[j].server == o.watchers[from + j].server
    ensures Count(msgs, uri, server) == if o.uri == uri && server in Servers(o.watchers[from..]) then 1 else 0
    decreases |msgs|
  {
    var rest := o.watchers[from..];
    if msgs != [] {
      CountTail(o, msgs[1..], from + 1, uri, server);
      var w := o.watchers[from];
      assert rest == [w] + o.watchers[from + 1..];
      ServersCons(w, o.watchers[from + 1..]);
      assert w.server !in Servers(o.watchers[from + 1..]);
    }
  }

  /** What the notification of one entry may change: counters and message identifiers. */
  predicate SameEntry(a: Observed, b: Observed) {
    && a.uri == b.uri && |a.watchers| == |b.watchers|
    && forall j | 0 <= j < |a.watchers| ::
         a.watchers[j].server == b.watchers[j].server && a.watchers[j].token == b.watchers[j].token
  }

  /** One watcher was told: one message went out with its token and its counter, under the identifier
      now kept for a reset, and the counter went up by one. */
  predicate ToldBy(before: Watcher, after: Watcher, uri: Uri, m: Notification) {
    && m == Notification(uri, before.server, before.token, after.lastMid, before.counter)
    && after == before.(lastMid := m.mid, counter := (before.counter + 1) % COUNTERS)
  }

  predicate HasMessage(before: Watcher, after: Watcher, uri: Uri, msgs: seq<Notification>) {
    exists k | 0 <= k < |msgs| :: ToldBy(before, after, uri, msgs[k])
  }

  predicate WasTold(before: Observed, after: Observed, msgs: seq<Notification>) {
    && |after.watchers| == |before.watchers|
    && forall j | 0 <= j < |before.watchers| :: HasMessage(before.watchers[j], after.watchers[j], before.uri, msgs)
  }

  lemma MessagesTell(o: Observed, nextMID: uint16, more: seq<Notification>)
    ensures WasTold(o, o.(watchers := Told(o.watchers, nextMID)), Messages(o, nextMID) + more)
  {
    var first, told := Messages(o, nextMID), Told(o.watchers, nextMID);
    forall j | 0 <= j < |o.watchers|
      ensures HasMessage(o.watchers[j], told[j], o.uri, first + more)
    {
      assert ToldBy(o.watchers[j], told[j], o.uri, (first + more)[j]);
    }
  }

  lemma StillTold(before: Observed, after: Observed, first: seq<Notification>, more: seq<Notification>)
    requires WasTold(before, after, more)
    ensures WasTold(before, after, first + more)
  {
    forall j | 0 <= j < |before.watchers|
      ensures HasMessage(before.watchers[j], after.watchers[j], before.uri, first + more)
    {
      assert HasMessage(before.watchers[j], after.watchers[j], before.uri, more);
      var k :| 0 <= k < |more| && ToldBy(before.watchers[j], after.watchers[j], before.uri, more[k]);
      assert (first + more)[|first| + k] == more[k];
    }
  }

  predicate Descending(places: seq<nat>, n: nat) {
    && (forall k | 0 <= k < |places| :: places[k] < n)
    && (forall k, l | 0 <= k < l < |places| :: places[k] > places[l])
  }

  lemma {:induction false} OverlappingIsExact(obs: seq<Observed>, uri: Uri, n: nat)
    requires n <= |obs|
    ensures Descending(Overlapping(obs, uri, n), n)
    ensures forall i | 0 <= i < n :: i in Overlapping(obs, uri, n) <==> Share(uri, obs[i].uri)
  {
    hide Overlaps, Share;
    if n > 0 {
      OverlapsMeans(uri, obs[n - 1].uri);
      OverlappingIsExact(obs, uri, n - 1);
      var rest := Overlapping(obs, uri, n - 1);
      assert forall i | i in rest :: i < n - 1;
    }
  }

  lemma MidAdd(nextMID: uint16, a: nat, b: nat)
    ensures Mid(Mid(nextMID, a), b) == Mid(nextMID, a + b)
  {
  }

  /** The identifiers of the messages are the next ones, in order. */
  lemma {:induction false} NotifyMids(obs: seq<Observed>, places: seq<nat>, readable: set<Uri>, nextMID: uint16)
    requires forall k | 0 <= k < |places| :: places[k] < |obs|
    ensures var msgs := Notify(obs, places, readable, nextMID).1;
            forall k | 0 <= k < |msgs| :: msgs[k].mid == Mid(nextMID, k)
    decreases |places|
  {
    if places != [] {
      var o := obs[places[0]];
      if o.uri in readable {
        var told := obs[places[0] := o.(watchers := Told(o.watchers, nextMID))];
        var next := Mid(nextMID, |o.watchers|);
        NotifyMids(told, places[1..], readable, next);
        var first: seq<Notification>, rest := Messages(o, nextMID), Notify(told, places[1..], readable, next).1;
        var msgs: seq<Notification> := first + rest;
        forall k | 0 <= k < |msgs|
          ensures msgs[k].mid == Mid(nextMID, k)
        {
          if k >= |first| {
            MidAdd(nextMID, |first|, k - |first|);
          }
        }
      } else {
        NotifyMids(obs, places[1..], readable, nextMID);
      }
    }
  }

  predicate Hit(obs: seq<Observed>, places: seq<nat>, readable: set<Uri>, i: nat)
    requires i < |obs|
  {
    i in places && obs[i].uri in readable
  }

  /** Entries that are not listed, or cannot be read, stay as they are; each watcher of the others is told. */
  lemma {:induction false} NotifyEntries(obs: seq<Observed>, places: seq<nat>, readable: set<Uri>, nextMID: uint16)
    requires Descending(places, |obs|)
    ensures var (after, msgs) := Notify(obs, places, readable, nextMID);
            && |after| == |obs|
            && (forall i | 0 <= i < |obs| :: SameEntry(obs[i], after[i]))
            && (forall i | 0 <= i < |obs| && !Hit(obs, places, readable, i) :: after[i] == obs[i])
            && (forall i | 0 <= i < |obs| && Hit(obs, places, readable, i) :: WasTold(obs[i], after[i], msgs))
    decreases |places|
  {
    if places != [] {
      var p, rest := places[0], places[1..];
      var o := obs[p];
      assert forall i | i in places :: i == p || i in rest;
      assert p !in rest;
      if o.uri !in readable {
        NotifyEntries(obs, rest, readable, nextMID);
        assert forall i | 0 <= i < |obs| :: Hit(obs, places, readable, i) <==> Hit(obs, rest, readable, i);
      } else {
        var told := obs[p := o.(watchers := Told(o.watchers, nextMID))];
        NotifyEntries(told, rest, readable, Mid(nextMID, |o.watchers|));
        var (after, msgs) := Notify(obs, places, readable, nextMID);
        hide WasTold, Inv;
        var first := Messages(o, nextMID);
        assert after[p] == told[p];
        var more := Notify(told, rest, readable, Mid(nextMID, |o.watchers|)).1;
        assert msgs == first + more;
        forall i | 0 <= i < |obs| && Hit(obs, places, readable, i)
          ensures WasTold(obs[i], after[i], msgs)
        {
          if i == p {
            MessagesTell(o, nextMID, more);
          } else {
            assert told[i] == obs[i] && Hit(told, rest, readable, i);
            StillTold(obs[i], after[i], first, more);
          }
        }
      }
    }
  }

  /** No server is told about a path more than once, and exactly the watchers of hit entries are told. */
  lemma {:induction false} NotifyCounts(obs: seq<Observed>, places: seq<nat>, readable: set<Uri>, nextMID: uint16,
                                        i: nat, server: nat)
    requires Inv(obs) && Descending(places, |obs|) && i < |obs|
    ensures Count(Notify(obs, places, readable, nextMID).1, obs[i].uri, server)
         == if Hit(obs, places, readable, i) && server in Servers(obs[i].watchers) then 1 else 0
    decreases |places|
  {
    if places != [] {
      var p, rest := places[0], places[1..];
      var o := obs[p];
      assert i in places <==> i == p || i in rest;
      assert p !in rest;
      if o.uri !in readable {
        NotifyCounts(obs, rest, readable, nextMID, i, server);
      } else {
        var told := obs[p := o.(watchers := Told(o.watchers, nextMID))];
        ToldKeepsInv(obs, p, nextMID);
        NotifyCounts(told, rest, readable, Mid(nextMID, |o.watchers|), i, server);
        CountAppend(Messages(o, nextMID), Notify(told, rest, readable, Mid(nextMID, |o.watchers|)).1,
                    obs[i].uri, server);
        CountTail(o, Messages(o, nextMID), 0, obs[i].uri, server);
        assert o.watchers[0..] == o.watchers;
      }
    }
  }

  /** Nobody is told about a path that is not observed. */
  lemma {:induction false} UnobservedCounts(obs: seq<Observed>, places: seq<nat>, readable: set<Uri>, nextMID: uint16,
                                            path: Uri, server: nat)
    requires forall k | 0 <= k < |places| :: places[k] < |obs|
    requires forall i | 0 <= i < |obs| :: obs[i].uri != path
    ensures Count(Notify(obs, places, readable, nextMID).1, path, server) == 0
    decreases |places|
  {
    hide Mid, Told, Messages;
    if places != [] {
      var p, rest := places[0], places[1..];
      var o := obs[p];
      if o.uri !in readable {
        UnobservedCounts(obs, rest, readable, nextMID, path, server);
      } else {
        var told := obs[p := o.(watchers := Told(o.watchers, nextMID))];
        var next := Mid(nextMID, |o.watchers|);
        UnobservedCounts(told, rest, readable, next, path, server);
        CountAppend(Messages(o, nextMID), Notify(told, rest, readable, next).1, path, server);
        MessagesElsewhere(Messages(o, nextMID), path, server);
      }
    }
  }

  lemma {:induction false} MessagesElsewhere(msgs: seq<Notification>, path: Uri, server: nat)
    requires forall k | 0 <= k < |msgs| :: msgs[k].uri != path
    ensures Count(msgs, path, server) == 0
  {
    if msgs != [] {
      MessagesElsewhere(msgs[1..], path, server);
    }
  }

  /** The server watches the path. */
  predicate Watches(obs: seq<Observed>, path: Uri, server: nat) {
    exists i | 0 <= i < |obs| :: obs[i].uri == path && server in Servers(obs[i].watchers)
  }

  lemma ToldKeepsInv(obs: seq<Observed>, p: nat, nextMID: uint16)
    requires Inv(obs) && p < |obs|
    ensures var told := obs[p := obs[p].(watchers := Told(obs[p].watchers, nextMID))];
            Inv(told) && Servers(told[p].watchers) == Servers(obs[p].watchers)
  {
    var ws, t := obs[p].watchers, Told(obs[p].watchers, nextMID);
    assert forall j | 0 <= j < |ws| :: t[j].server == ws[j].server;
  }

  /** lwm2m_resource_value_changed sends each watcher of every readable path that has a resource in common with the
      changed one exactly one message, under fresh consecutive identifiers, and leaves everything else alone. */
  lemma NotifiesExactlyOnce(obs: seq<Observed>, uri: Uri, readable: set<Uri>, nextMID: uint16)
    requires Inv(obs)
    ensures var (after, msgs) := Notify(obs, Overlapping(obs, uri, |obs|), readable, nextMID);
            && Inv(after) && |after| == |obs|
            && (forall i | 0 <= i < |obs| :: SameEntry(obs[i], after[i]))
            && (forall k | 0 <= k < |msgs| :: msgs[k].mid == Mid(nextMID, k))
            && (forall path, server ::
                  Count(msgs, path, server)
                  == if Share(uri, path) && path in readable && Watches(obs, path, server) then 1 else 0)
            && (forall i | 0 <= i < |obs| && !(Share(uri, obs[i].uri) && obs[i].uri in readable) ::
                  after[i] == obs[i])
            && (forall i | 0 <= i < |obs| && Share(uri, obs[i].uri) && obs[i].uri in readable ::
                  WasTold(obs[i], after[i], msgs))
  {
    hide Notify, Count, Overlapping, Share;
    var places := Overlapping(obs, uri, |obs|);
    OverlappingIsExact(obs, uri, |obs|);
    NotifyMids(obs, places, readable, nextMID);
    NotifyEntries(obs, places, readable, nextMID);
    forall path, server
      ensures Count(Notify(obs, places, readable, nextMID).1, path, server)
           == if Share(uri, path) && path in readable && Watches(obs, path, server) then 1 else 0
    {
      if i :| 0 <= i < |obs| && obs[i].uri == path {
        NotifyCounts(obs, places, readable, nextMID, i, server);
      } else {
        UnobservedCounts(obs, places, readable, nextMID, path, server);
      }
    }
    SameEntriesKeepInv(obs, Notify(obs, places, readable, nextMID).0);
    assert forall i | 0 <= i < |obs| ::
      Hit(obs, places, readable, i) <==> Share(uri, obs[i].uri) && obs[i].uri in readable;
  }

  lemma SameEntriesKeepInv(obs: seq<Observed>, after: seq<Observed>)
    requires Inv(obs) && |after| == |obs| && forall i | 0 <= i < |obs| :: SameEntry(obs[i], after[i])
    ensures Inv(after)
  {
  }
}
