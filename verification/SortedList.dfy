/** The sorted singly linked list of wakaama/list.c. */
module SortedList {
  // It holds transactions, servers, clients, client objects and object instances. The functions describe a list
  // by the sequence of its elements, for any element with an identifier; the methods at the end are the pointer
  // code, proved to do the same.

  import opened Core

  predicate Sorted<T>(s: seq<T>, id: T -> uint16) {
    forall i, j | 0 <= i < j < |s| :: id(s[i]) <= id(s[j])
  }

  predicate StrictlySorted<T>(s: seq<T>, id: T -> uint16) {
    forall i, j | 0 <= i < j < |s| :: id(s[i]) < id(s[j])
  }

  ghost predicate HasId<T>(s: seq<T>, k: int, id: T -> uint16) {
    exists i | 0 <= i < |s| :: id(s[i]) == k
  }

  /** lwm2m_list_add: behind a head with the same identifier, before any later element with it. */
  function Insert<T>(s: seq<T>, x: T, id: T -> uint16): (r: seq<T>)
    ensures |r| == |s| + 1
  {
    if s == [] || id(s[0]) > id(x) then [x] + s else [s[0]] + InsertBehind(s[1..], x, id)
  }

  function InsertBehind<T>(s: seq<T>, x: T, id: T -> uint16): (r: seq<T>)
    ensures |r| == |s| + 1
  {
    if s == [] || id(s[0]) >= id(x) then [x] + s else [s[0]] + InsertBehind(s[1..], x, id)
  }

  /** lwm2m_list_find */
  function Find<T>(s: seq<T>, k: uint16, id: T -> uint16): Option<T> {
    if s == [] || id(s[0]) > k then None
    else if id(s[0]) == k then Some(s[0])
    else Find(s[1..], k, id)
  }

  /** lwm2m_list_remove */
  function Remove<T>(s: seq<T>, k: uint16, id: T -> uint16): seq<T> {
    if s == [] then [] else if id(s[0]) == k then s[1..] else [s[0]] + RemoveBehind(s[1..], k, id)
  }

  function RemoveBehind<T>(s: seq<T>, k: uint16, id: T -> uint16): seq<T> {
    if s == [] || id(s[0]) > k then s
    else if id(s[0]) == k then s[1..]
    else [s[0]] + RemoveBehind(s[1..], k, id)
  }

  /** lwm2m_list_newId, counting on from n in 16 bits. */
  function NewIdFrom<T>(s: seq<T>, n: uint16, id: T -> uint16): uint16 {
    if s != [] && id(s[0]) == n then NewIdFrom(s[1..], (n + 1) % 0x1_0000, id) else n
  }

  function NewId<T>(s: seq<T>, id: T -> uint16): uint16 { NewIdFrom(s, 0, id) }

  // ---------- properties ----------

  function PositionBehind<T>(s: seq<T>, x: T, id: T -> uint16): (at: nat)
    ensures at <= |s| && (forall i | 0 <= i < at :: id(s[i]) < id(x)) && (at < |s| ==> id(s[at]) >= id(x))
  {
    if s == [] || id(s[0]) >= id(x) then 0 else 1 + PositionBehind(s[1..], x, id)
  }

  /** The place at which lwm2m_list_add puts an element. */
  function Position<T>(s: seq<T>, x: T, id: T -> uint16): (at: nat)
    ensures at <= |s| && (forall i | 0 <= i < at :: id(s[i]) <= id(x)) && (at < |s| ==> id(s[at]) >= id(x))
  {
    if s == [] || id(s[0]) > id(x) then 0 else 1 + PositionBehind(s[1..], x, id)
  }

  lemma Associates<T>(a: seq<T>, b: seq<T>, c: seq<T>)
    ensures a + (b + c) == (a + b) + c
  {
  }

  /** The first element stays in front of what is done to the rest. */
  lemma PutBehind<T>(s: seq<T>, at: nat, x: T)
    requires 0 < at <= |s|
    ensures [s[0]] + (s[1..][..at - 1] + [x] + s[1..][at - 1..]) == s[..at] + [x] + s[at..]
  {
    var b, c := s[1..][..at - 1], s[1..][at - 1..];
    assert s[..at] == [s[0]] + b;
    assert s[at..] == c;
    Associates([s[0]], b + [x], c);
    Associates([s[0]], b, [x]);
  }

  lemma TakenBehind<T>(s: seq<T>, at: nat)
    requires 0 < at < |s|
    ensures [s[0]] + (s[1..][..at - 1] + s[1..][at..]) == s[..at] + s[at + 1..]
  {
    var b, c := s[1..][..at - 1], s[1..][at..];
    assert s[..at] == [s[0]] + b;
    assert s[at + 1..] == c;
    Associates([s[0]], b, c);
  }

  lemma {:induction false} InsertBehindAt<T>(s: seq<T>, x: T, id: T -> uint16)
    ensures var at := PositionBehind(s, x, id); InsertBehind(s, x, id) == s[..at] + [x] + s[at..]
  {
    if s != [] && id(s[0]) < id(x) {
      InsertBehindAt(s[1..], x, id);
      var at := PositionBehind(s, x, id);
      PutBehind(s, at, x);
    }
  }

  /** An insertion leaves the other elements where they are. */
  lemma InsertAt<T>(s: seq<T>, x: T, id: T -> uint16)
    ensures var at := Position(s, x, id); Insert(s, x, id) == s[..at] + [x] + s[at..]
  {
    if s != [] && id(s[0]) <= id(x) {
      InsertBehindAt(s[1..], x, id);
      var at := Position(s, x, id);
      PutBehind(s, at, x);
    }
  }

  lemma SplicedIn<T>(s: seq<T>, at: nat, x: T, t: seq<T>, id: T -> uint16)
    requires at <= |s| && t == s[..at] + [x] + s[at..]
    ensures forall k :: HasId(t, k, id) <==> HasId(s, k, id) || k == id(x)
    ensures multiset(t) == multiset(s) + multiset{x}
  {
    assert s == s[..at] + s[at..];
    forall k
      ensures HasId(t, k, id) <==> HasId(s, k, id) || k == id(x)
    {
      if HasId(s, k, id) {
        var i :| 0 <= i < |s| && id(s[i]) == k;
        assert id(t[if i < at then i else i + 1]) == k;
      }
      if k == id(x) {
        assert id(t[at]) == k;
      }
    }
  }

  /** Adding to a sorted list keeps it sorted and adds just the one element. */
  lemma InsertKeepsSorted<T>(s: seq<T>, x: T, id: T -> uint16)
    requires Sorted(s, id)
    ensures Sorted(Insert(s, x, id), id)
    ensures multiset(Insert(s, x, id)) == multiset(s) + multiset{x}
    ensures StrictlySorted(s, id) && !HasId(s, id(x), id) ==> StrictlySorted(Insert(s, x, id), id)
    ensures forall k :: HasId(Insert(s, x, id), k, id) <==> HasId(s, k, id) || k == id(x)
  {
    hide Insert, HasId, Sorted, StrictlySorted;
    var at := Position(s, x, id);
    InsertAt(s, x, id);
    var t := Insert(s, x, id);
    SplicedIn(s, at, x, t, id);
    Neighbours(s, at, x, id);
    SplicedSorted(s, at, x, t, id);
  }

  lemma SplicedSorted<T>(s: seq<T>, at: nat, x: T, t: seq<T>, id: T -> uint16)
    requires Sorted(s, id) && at <= |s| && t == s[..at] + [x] + s[at..]
    requires forall i | 0 <= i < at :: id(s[i]) <= id(x)
    requires forall i | at <= i < |s| :: id(s[i]) >= id(x)
    ensures Sorted(t, id)
    ensures StrictlySorted(s, id) && (forall i | 0 <= i < |s| :: id(s[i]) != id(x)) ==> StrictlySorted(t, id)
  {
    forall i, j | 0 <= i < j < |t|
      ensures id(t[i]) <= id(t[j])
      ensures StrictlySorted(s, id) && (forall i | 0 <= i < |s| :: id(s[i]) != id(x)) ==> id(t[i]) < id(t[j])
    {
      var p, q := if i < at then i else i - 1, if j < at then j else j - 1;
      assert i != at ==> t[i] == s[p];
      assert j != at ==> t[j] == s[q];
    }
  }

  lemma Neighbours<T>(s: seq<T>, at: nat, x: T, id: T -> uint16)
    requires Sorted(s, id) && at <= |s| && (at < |s| ==> id(s[at]) >= id(x))
    requires forall i | 0 <= i < at :: id(s[i]) <= id(x)
    ensures forall i | at <= i < |s| :: id(s[i]) >= id(x)
    ensures !HasId(s, id(x), id) ==> forall i | 0 <= i < |s| :: id(s[i]) != id(x)
  {
  }

  /** A search finds an element exactly when the identifier is there. */
  lemma {:induction false} FindIsExact<T>(s: seq<T>, k: uint16, id: T -> uint16)
    requires Sorted(s, id)
    ensures Find(s, k, id).Some? <==> HasId(s, k, id)
    ensures Find(s, k, id).Some? ==> Find(s, k, id).value in s && id(Find(s, k, id).value) == k
  {
    if s != [] && id(s[0]) < k {
      FindIsExact(s[1..], k, id);
      assert forall i | 0 < i < |s| :: s[i] == s[1..][i - 1];
    }
  }

  lemma {:induction false} RemoveBehindAt<T>(s: seq<T>, k: uint16, id: T -> uint16)
    requires StrictlySorted(s, id)
    ensures !HasId(s, k, id) ==> RemoveBehind(s, k, id) == s
    ensures forall at | 0 <= at < |s| && id(s[at]) == k :: RemoveBehind(s, k, id) == s[..at] + s[at + 1..]
  {
    if s != [] && id(s[0]) < k {
      RemoveBehindAt(s[1..], k, id);
      assert s == [s[0]] + s[1..];
      assert forall i | 0 < i < |s| :: s[i] == s[1..][i - 1];
      forall at | 0 <= at < |s| && id(s[at]) == k
        ensures RemoveBehind(s, k, id) == s[..at] + s[at + 1..]
      {
        assert id(s[1..][at - 1]) == k;
        TakenBehind(s, at);
      }
    }
  }

  lemma RemoveAt<T>(s: seq<T>, at: nat, id: T -> uint16)
    requires StrictlySorted(s, id) && at < |s|
    ensures Remove(s, id(s[at]), id) == s[..at] + s[at + 1..]
  {
    RemoveFirst(s, at, id);
  }

  /** Element i of a list after x was put in at a place. */
  function Spliced<T>(s: seq<T>, at: nat, x: T, i: nat): T
    requires at <= |s| && i <= |s|
  {
    if i < at then s[i] else if i == at then x else s[i - 1]
  }

  lemma SplicedAt<T>(s: seq<T>, x: T, at: nat)
    requires at <= |s|
    ensures var r := s[..at] + [x] + s[at..];
            |r| == |s| + 1 && forall k | 0 <= k < |r| :: r[k] == Spliced(s, at, x, k)
  {
  }

  /** Of several elements with the identifier the first is taken out. */
  lemma {:induction false} RemoveFirst<T>(s: seq<T>, at: nat, id: T -> uint16)
    requires Sorted(s, id) && at < |s| && forall k | 0 <= k < at :: id(s[k]) != id(s[at])
    ensures Remove(s, id(s[at]), id) == RemoveBehind(s, id(s[at]), id) == s[..at] + s[at + 1..]
  {
    if at > 0 {
      assert s[1..][at - 1] == s[at];
      RemoveFirst(s[1..], at - 1, id);
      TakenBehind(s, at);
    }
  }

  lemma RemoveAbsent<T>(s: seq<T>, k: uint16, id: T -> uint16)
    requires StrictlySorted(s, id) && !HasId(s, k, id)
    ensures Remove(s, k, id) == s
  {
    if s != [] {
      RemoveBehindAt(s[1..], k, id);
      assert forall i | 0 < i < |s| :: s[i] == s[1..][i - 1];
      assert s == [s[0]] + s[1..];
    }
  }

  /** Removing takes out the one element with the identifier, or nothing. */
  lemma RemoveIsExact<T>(s: seq<T>, k: uint16, id: T -> uint16)
    requires StrictlySorted(s, id)
    ensures StrictlySorted(Remove(s, k, id), id)
    ensures forall x :: x in Remove(s, k, id) <==> x in s && id(x) != k
  {
    hide Remove, StrictlySorted;
    if HasId(s, k, id) {
      var at :| 0 <= at < |s| && id(s[at]) == k;
      RemoveAt(s, at, id);
      TakenOutAt(s, at, Remove(s, k, id), id);
    } else {
      RemoveAbsent(s, k, id);
      forall x | x in s
        ensures id(x) != k
      {
        var i :| 0 <= i < |s| && s[i] == x;
      }
    }
  }

  lemma TakenOutAt<T>(s: seq<T>, at: nat, t: seq<T>, id: T -> uint16)
    requires StrictlySorted(s, id) && at < |s| && t == s[..at] + s[at + 1..]
    ensures StrictlySorted(t, id)
    ensures forall x :: x in t <==> x in s && id(x) != id(s[at])
  {
    forall i, j | 0 <= i < j < |t|
      ensures id(t[i]) < id(t[j])
    {
      var p, q := if i < at then i else i + 1, if j < at then j else j + 1;
      assert t[i] == s[p] && t[j] == s[q];
    }
    forall x
      ensures x in t <==> x in s && id(x) != id(s[at])
    {
      assert x in t <==> x in s[..at] || x in s[at + 1..];
      if x in s && id(x) != id(s[at]) {
        var i :| 0 <= i < |s| && s[i] == x;
        assert if i < at then s[..at][i] == x else s[at + 1..][i - at - 1] == x;
      }
      if x in t {
        var i :| 0 <= i < |t| && t[i] == x;
        var p := if i < at then i else i + 1;
        assert s[p] == x && p != at;
      }
    }
  }

  lemma {:induction false} NewIdIsLeast<T>(s: seq<T>, n: uint16, id: T -> uint16)
    requires StrictlySorted(s, id) && (s != [] ==> id(s[0]) >= n) && n + |s| < 0x1_0000
    ensures n <= NewIdFrom(s, n, id) && !HasId(s, NewIdFrom(s, n, id), id)
    ensures forall k | n <= k < NewIdFrom(s, n, id) :: HasId(s, k, id)
  {
    if s != [] && id(s[0]) == n {
      NewIdIsLeast(s[1..], n + 1, id);
      assert forall i | 0 < i < |s| :: s[i] == s[1..][i - 1];
      forall k | n <= k < NewIdFrom(s, n, id)
        ensures HasId(s, k, id)
      {
        if k > n {
          assert HasId(s[1..], k, id);
        }
      }
    }
  }

  lemma {:induction false} FullListWraps<T>(s: seq<T>, n: nat, id: T -> uint16)
    requires StrictlySorted(s, id) && n + |s| == 0x1_0000 && s != [] && id(s[0]) >= n
    ensures NewIdFrom(s, n, id) == 0
  {
    IdsAreSpread(s, 0, id);
    if |s| > 1 {
      FullListWraps(s[1..], n + 1, id);
    }
  }

  lemma {:induction false} IdsAreSpread<T>(s: seq<T>, i: nat, id: T -> uint16)
    requires StrictlySorted(s, id) && i < |s|
    ensures id(s[i]) + (|s| - 1 - i) <= 0xFFFF
    decreases |s| - i
  {
    if i + 1 < |s| {
      IdsAreSpread(s, i + 1, id);
    }
  }

  /** A new identifier is the lowest unused one, unless all 65536 are taken: then it is 0 again. */
  lemma NewIdIsFresh<T>(s: seq<T>, id: T -> uint16)
    requires StrictlySorted(s, id)
    ensures !HasId(s, NewId(s, id), id) <==> |s| < 0x1_0000
    ensures forall k | 0 <= k < NewId(s, id) :: HasId(s, k, id)
  {
    if s != [] {
      IdsAreSpread(s, 0, id);
    }
    if |s| < 0x1_0000 {
      NewIdIsLeast(s, 0, id);
    } else {
      FullListWraps(s, 0, id);
      assert id(s[0]) == 0;
    }
  }

  // ---------- the pointer code ----------

  class Node {
    var next: Node?
    const id: uint16

    constructor (id: uint16)
      ensures this.id == id && next == null
    {
      this.id := id;
      next := null;
    }
  }

  function Id(n: Node): uint16 { n.id }

  function At(nodes: seq<Node>, i: nat): Node? {
    if i < |nodes| then nodes[i] else null
  }

  ghost predicate IsList(head: Node?, nodes: seq<Node>)
    reads nodes
  {
    && head == At(nodes, 0)
    && (forall i | 0 <= i < |nodes| :: nodes[i].next == At(nodes, i + 1))
    && (forall i, j | 0 <= i < j < |nodes| :: nodes[i] != nodes[j])
  }

  /** The loop of lwm2m_list_add and lwm2m_list_remove: the node behind which the identifier belongs. */
  method Walk(head: Node, id: uint16, ghost nodes: seq<Node>) returns (target: Node, ghost at: nat)
    requires IsList(head, nodes)
    ensures at < |nodes| && target == nodes[at]
    ensures forall i | 1 <= i <= at :: nodes[i].id < id
    ensures at + 1 < |nodes| ==> nodes[at + 1].id >= id
  {
    target := head;
    at := 0;
    while target.next != null && target.next.id < id
      invariant at < |nodes| && target == nodes[at]
      invariant forall i | 1 <= i <= at :: nodes[i].id < id
      decreases |nodes| - at
    {
      assert nodes[at].next == At(nodes, at + 1);
      at := at + 1;
      target := target.next;
    }
    assert nodes[at].next == At(nodes, at + 1);
  }

  lemma {:induction false} InsertBehindIs(s: seq<Node>, at: nat, node: Node)
    requires at <= |s| && (forall i | 0 <= i < at :: s[i].id < node.id) && (at < |s| ==> s[at].id >= node.id)
    ensures InsertBehind(s, node, Id) == s[..at] + [node] + s[at..]
  {
    if at > 0 {
      InsertBehindIs(s[1..], at - 1, node);
      PutBehind(s, at, node);
    }
  }

  lemma InsertIs(s: seq<Node>, at: nat, node: Node)
    requires at < |s| && s[0].id <= node.id && (forall i | 1 <= i <= at :: s[i].id < node.id)
    requires at + 1 < |s| ==> s[at + 1].id >= node.id
    ensures Insert(s, node, Id) == s[..at + 1] + [node] + s[at + 1..]
  {
    InsertBehindIs(s[1..], at, node);
    PutBehind(s, at + 1, node);
  }

  lemma {:induction false} RemoveBehindIs(s: seq<Node>, at: nat, id: uint16)
    requires at <= |s| && (forall i | 0 <= i < at :: s[i].id < id) && (at < |s| ==> s[at].id >= id)
    ensures RemoveBehind(s, id, Id) == if at < |s| && s[at].id == id then s[..at] + s[at + 1..] else s
  {
    if at > 0 {
      RemoveBehindIs(s[1..], at - 1, id);
      assert s == [s[0]] + s[1..];
      if at < |s| {
        TakenBehind(s, at);
      }
    }
  }

  lemma RemoveIs(s: seq<Node>, at: nat, id: uint16)
    requires at < |s| && s[0].id != id && (forall i | 1 <= i <= at :: s[i].id < id)
    requires at + 1 < |s| ==> s[at + 1].id >= id
    ensures Remove(s, id, Id) == if at + 1 < |s| && s[at + 1].id == id then s[..at + 1] + s[at + 2..] else s
  {
    hide RemoveBehind;
    assert forall i | 0 <= i < |s| - 1 :: s[1..][i] == s[i + 1];
    RemoveBehindIs(s[1..], at, id);
    assert s == [s[0]] + s[1..];
    if at + 1 < |s| {
      TakenBehind(s, at + 1);
    }
  }

  /** lwm2m_list_add */
  method ListAdd(head: Node?, node: Node, ghost nodes: seq<Node>) returns (newHead: Node)
    requires IsList(head, nodes) && node !in nodes && (head == null ==> node.next == null)
    modifies nodes, node
    ensures IsList(newHead, Insert(nodes, node, Id))
  {
    if head == null {
      return node;
    }
    if head.id > node.id {
      LinkFirst(head, node, nodes);
      return node;
    }
    ghost var at;
    var target;
    target, at := Walk(head, node.id, nodes);
    InsertIs(nodes, at, node);
    Link(target, node, nodes, at);
    return head;
  }

  method LinkFirst(head: Node, node: Node, ghost nodes: seq<Node>)
    requires IsList(head, nodes) && node !in nodes
    modifies node
    ensures IsList(node, [node] + nodes)
  {
    assert forall i | 0 <= i < |nodes| :: nodes[i] != node;
    node.next := head;
    ghost var all := [node] + nodes;
    forall i | 0 <= i < |all|
      ensures all[i].next == At(all, i + 1)
    {
      assert i > 0 ==> all[i] == nodes[i - 1] && nodes[i - 1].next == At(nodes, i);
    }
    assert forall i | 0 < i < |all| :: all[i] == nodes[i - 1];
  }

  method Link(target: Node, node: Node, ghost nodes: seq<Node>, ghost at: nat)
    requires nodes != [] && IsList(nodes[0], nodes) && node !in nodes && at < |nodes| && target == nodes[at]
    modifies nodes, node
    ensures IsList(nodes[0], nodes[..at + 1] + [node] + nodes[at + 1..])
  {
    assert forall i | 0 <= i < |nodes| :: nodes[i] != node;
    assert nodes[at].next == At(nodes, at + 1);
    node.next := target.next;
    target.next := node;
    ghost var all := nodes[..at + 1] + [node] + nodes[at + 1..];
    forall i | 0 <= i < |all|
      ensures all[i] == Spliced(nodes, at + 1, node, i) && all[i].next == At(all, i + 1)
    {
      assert i + 1 < |all| ==> all[i + 1] == Spliced(nodes, at + 1, node, i + 1);
    }
    forall i, j | 0 <= i < j < |all|
      ensures all[i] != all[j]
    {
      assert all[i] == Spliced(nodes, at + 1, node, i) && all[j] == Spliced(nodes, at + 1, node, j);
    }
  }

  /** lwm2m_list_find */
  method ListFind(head: Node?, id: uint16, ghost nodes: seq<Node>) returns (found: Node?)
    requires IsList(head, nodes)
    ensures match Find(nodes, id, Id) case None => found == null case Some(n) => found == n
  {
    var target := head;
    ghost var at := 0;
    while target != null && target.id < id
      invariant 0 <= at <= |nodes| && target == At(nodes, at)
      invariant Find(nodes, id, Id) == Find(nodes[at..], id, Id)
      decreases |nodes| - at
    {
      at := at + 1;
      target := target.next;
    }
    return if target != null && target.id == id then target else null;
  }

  /** lwm2m_list_remove */
  method ListRemove(head: Node?, id: uint16, ghost nodes: seq<Node>) returns (newHead: Node?, removed: Node?)
    requires IsList(head, nodes)
    modifies nodes
    ensures IsList(newHead, Remove(nodes, id, Id))
    ensures removed == null ==> Remove(nodes, id, Id) == nodes
    ensures removed != null ==> removed in nodes && removed.id == id
  {
    if head == null {
      return null, null;
    }
    if head.id == id {
      assert forall i | 0 <= i < |nodes| - 1 :: nodes[1..][i] == nodes[i + 1];
      return head.next, head;
    }
    ghost var at;
    var target;
    target, at := Walk(head, id, nodes);
    RemoveIs(nodes, at, id);
    assert nodes[at].next == At(nodes, at + 1);
    if target.next != null && target.next.id == id {
      removed := target.next;
      Unlink(target, nodes, at);
    } else {
      removed := null;
    }
    newHead := head;
  }

  method Unlink(target: Node, ghost nodes: seq<Node>, ghost at: nat)
    requires nodes != [] && IsList(nodes[0], nodes) && at + 1 < |nodes| && target == nodes[at]
    modifies nodes
    ensures IsList(nodes[0], nodes[..at + 1] + nodes[at + 2..])
  {
    assert nodes[at].next == At(nodes, at + 1);
    target.next := target.next.next;
    ghost var rest := nodes[..at + 1] + nodes[at + 2..];
    assert forall i | 0 <= i < |rest| :: rest[i] == nodes[if i <= at then i else i + 1];
  }

  /** lwm2m_list_newId */
  method ListNewId(head: Node?, ghost nodes: seq<Node>) returns (id: uint16)
    requires IsList(head, nodes)
    ensures id == NewId(nodes, Id)
  {
    id := 0;
    var target := head;
    ghost var at := 0;
    while target != null && id == target.id
      invariant 0 <= at <= |nodes| && target == At(nodes, at)
      invariant NewId(nodes, Id) == NewIdFrom(nodes[at..], id, Id)
      decreases |nodes| - at
    {
      id := (target.id + 1) % 0x1_0000;
      at := at + 1;
      target := target.next;
    }
  }
}
