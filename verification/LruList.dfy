/** The circular doubly linked list under the LRU cache. */
module LruLists {

  class Node<T> {
    var value: T
    var promotions: nat
    var nxt: Node<T>
    var pre: Node<T>

    /** Outside a list a node is its own neighbour. */
    constructor (value: T)
      ensures this.value == value && promotions == 0 && nxt == this && pre == this
    {
      this.value, promotions := value, 0;
      nxt, pre := this, this;
    }
  }

  ghost predicate Distinct<T>(ring: seq<Node<T>>) {
    forall i, j :: 0 <= i < j < |ring| ==> ring[i] != ring[j]
  }

  function Without<T>(s: seq<T>, i: nat): seq<T>
    requires i < |s|
  {
    s[..i] + s[i + 1..]
  }

  lemma PlaceWithout<T>(s: seq<T>, i: nat)
    requires i < |s|
    ensures |Without(s, i)| == |s| - 1
    ensures forall j :: 0 <= j < |s| - 1 ==> Without(s, i)[j] == s[if j < i then j else j + 1]
  {
  }

  lemma WithoutKeeps<T>(s: seq<T>, i: nat)
    requires i < |s|
    ensures forall x :: x in Without(s, i) ==> x in s
  {
  }

  ghost function After(n: nat, i: nat): nat {
    if i + 1 == n then 0 else i + 1
  }

  ghost function Before(n: nat, i: nat): int {
    if i == 0 then n - 1 else i - 1
  }

  /** Each node's neighbours are those of the ring, and the ends are each other's neighbours. */
  ghost predicate Linked<T>(ring: seq<Node<T>>)
    reads ring`nxt, ring`pre
  {
    && Distinct(ring)
    && (forall i :: 0 <= i < |ring| ==> ring[i].nxt == ring[After(|ring|, i)])
    && (forall i :: 0 <= i < |ring| ==> ring[i].pre == ring[Before(|ring|, i)])
  }

  lemma DistinctFront<T>(dummy: Node<T>, nodes: seq<Node<T>>, node: Node<T>)
    requires Distinct([dummy] + nodes) && node !in [dummy] + nodes
    ensures Distinct([dummy] + ([node] + nodes))
  {
    var was, now := [dummy] + nodes, [dummy] + ([node] + nodes);
    forall i, j | 0 <= i < j < |now| ensures now[i] != now[j] {
      assert now[0] == was[0] && now[1] == node;
      assert i > 1 ==> now[i] == was[i - 1];
      assert j > 1 ==> now[j] == was[j - 1] && was[j - 1] in was;
    }
  }

  lemma DistinctWithout<T>(dummy: Node<T>, nodes: seq<Node<T>>, k: nat)
    requires Distinct([dummy] + nodes) && k < |nodes|
    ensures Without([dummy] + nodes, k + 1) == [dummy] + Without(nodes, k)
    ensures Distinct([dummy] + Without(nodes, k)) && nodes[k] !in [dummy] + Without(nodes, k)
  {
    var was, now := [dummy] + nodes, [dummy] + Without(nodes, k);
    forall i, j | 0 <= i < j < |now| ensures now[i] != now[j] {
      assert now[i] == was[if i <= k then i else i + 1];
      assert now[j] == was[if j <= k then j else j + 1];
    }
    assert was[k + 1] == nodes[k];
    forall j | 0 <= j < |now| ensures now[j] != nodes[k] {
      assert now[j] == was[if j <= k then j else j + 1];
    }
  }

  /** The neighbours of the node at p lead past it. */
  ghost predicate Bypassed<T>(ring: seq<Node<T>>, p: nat)
    requires 0 < p < |ring|
    reads ring
  {
    && (forall j :: 0 <= j < |ring| ==> ring[j].nxt == ring[After(|ring|, if j == p - 1 then p else j)])
    && (forall j :: 0 <= j < |ring| ==> ring[j].pre == ring[if j == After(|ring|, p) then p - 1 else Before(|ring|, j)])
  }

  lemma Neighbours<T>(ring: seq<Node<T>>, p: nat)
    requires Linked(ring) && 0 < p < |ring|
    ensures Distinct(ring) && ring[p].pre in ring && ring[p].nxt in ring
  {
  }

  method Unlink<T>(node: Node<T>, ghost ring: seq<Node<T>>, ghost p: nat)
    requires Linked(ring) && 0 < p < |ring| && ring[p] == node
    modifies node.pre`nxt, node.nxt`pre
    ensures Bypassed(ring, p)
  {
    var before, after := node.pre, node.nxt;
    assert before == ring[p - 1] && after == ring[After(|ring|, p)];
    before.nxt := after;
    after.pre := before;
  }

  lemma StillLinked<T>(was: seq<Node<T>>, p: nat, now: seq<Node<T>>)
    requires 0 < p < |was| && now == Without(was, p)
    requires Distinct(now) && Bypassed(was, p)
    ensures Linked(now)
  {
    assert forall j :: 0 <= j < |now| ==> now[j] == was[if j < p then j else j + 1];
  }

  class List<T> {
    const dummy: Node<T>
    var size: nat
    // The nodes from the front to the back.
    ghost var nodes: seq<Node<T>>

    ghost function Ring(): seq<Node<T>>
      reads this
    {
      [dummy] + nodes
    }

    ghost predicate Valid()
      reads this, dummy`nxt, dummy`pre, nodes`nxt, nodes`pre
    {
      Linked(Ring())
    }

    lemma NodesDiffer()
      requires Valid()
      ensures Distinct(nodes)
    {
      assert forall i :: 0 <= i < |nodes| ==> Ring()[i + 1] == nodes[i];
    }

    lemma DummyPre()
      requires Valid() && nodes != []
      ensures dummy.pre == nodes[|nodes| - 1]
    {
      assert Ring()[0] == dummy && Ring()[|nodes|] == nodes[|nodes| - 1];
    }

    /** blank is the dummy's value, which is never looked at. */
    constructor (blank: T)
      ensures Valid() && size == 0 && nodes == [] && fresh(dummy)
    {
      dummy := new Node(blank);
      size := 0;
      nodes := [];
    }

    method PushFront(value: T) returns (node: Node<T>)
      requires Valid()
      modifies this, dummy`nxt, dummy`pre, nodes`nxt, nodes`pre
      ensures Valid() && fresh(node) && node.value == value && node.promotions == 0
      ensures nodes == [node] + old(nodes) && size == old(size) + 1
    {
      node := new Node(value);
      InsertFront(node);
      size := size + 1;
    }

    /** Does not count the node. */
    method InsertFront(node: Node<T>)
      requires Valid() && node !in Ring()
      modifies this`nodes, node`nxt, node`pre, dummy`nxt, dummy`pre, nodes`nxt, nodes`pre
      ensures Valid() && nodes == [node] + old(nodes)
    {
      ghost var was, n := Ring(), |Ring()|;
      DistinctFront(dummy, nodes, node);
      var first := dummy.nxt;
      assert was[0] == dummy && first == was[After(n, 0)] && first in was;
      node.nxt := first;
      node.pre := dummy;
      first.pre := node;
      dummy.nxt := node;
      nodes := [node] + nodes;
      ghost var now := Ring();
      assert |now| == n + 1 && now[0] == dummy && now[1] == node;
      assert forall i :: 1 <= i < n ==> now[i + 1] == was[i];
      forall i | 0 <= i < |now|
        ensures now[i].nxt == now[After(|now|, i)] && now[i].pre == now[Before(|now|, i)]
      {
        if i > 1 {
          assert now[i] == was[i - 1];
          assert i > 2 ==> now[i - 1] == was[i - 2];
        }
      }
      hide Distinct, After, Before;
    }

    /** Does not count the node out; its own links still lead into the list. */
    method Extract(node: Node<T>, ghost i: nat)
      requires Valid() && i < |nodes| && nodes[i] == node
      modifies this`nodes, dummy`nxt, dummy`pre, nodes`nxt, nodes`pre
      ensures Valid() && nodes == Without(old(nodes), i) && node !in Ring()
      ensures forall n :: n in nodes ==> n in old(nodes)
    {
      hide Linked, Distinct, Bypassed, After, Before, Without;
      ghost var was := Ring();
      Neighbours(was, i + 1);
      DistinctWithout(dummy, nodes, i);
      Unlink(node, was, i + 1);
      nodes := Without(nodes, i);
      WithoutKeeps(old(nodes), i);
      StillLinked(was, i + 1, Ring());
    }

    /** As a promotion does it: out of its place and in again at the front. */
    method MoveToFront(node: Node<T>, ghost i: nat)
      requires Valid() && i < |nodes| && nodes[i] == node
      modifies this`nodes, dummy`nxt, dummy`pre, nodes`nxt, nodes`pre
      ensures Valid() && nodes == [node] + Without(old(nodes), i)
    {
      hide Linked, Without;
      Extract(node, i);
      assert forall j :: 0 <= j < |nodes| ==> nodes[j] in old(nodes);
      InsertFront(node);
    }

    method PopBack() returns (node: Node?<T>)
      requires Valid() && size == |nodes|
      modifies this, dummy`nxt, dummy`pre, nodes`nxt, nodes`pre
      ensures Valid() && size == |nodes|
      ensures old(nodes) == [] ==> node == null && nodes == []
      ensures old(nodes) != [] ==> old(nodes) == nodes + [node]
    {
      if size == 0 {
        return null;
      }
      size := size - 1;
      node := dummy.pre;
      assert Ring()[0] == dummy && Ring()[|nodes|] == node;
      Extract(node, |nodes| - 1);
    }
  }
}
