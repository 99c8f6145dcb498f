/** The cache object: a hash table of list nodes that does what the list specification says. */
module LruCaches {
  import opened Keys
  import opened LruLists
  import opened LruSpec

  /** Every value in the list is found under its key, and nothing else is. */
  ghost predicate Indexed<K, V>(table: map<K, Node<Cached<K, V>>>, nodes: seq<Node<Cached<K, V>>>,
                                items: seq<Item<K, V>>)
  {
    && |nodes| == |items|
    && table.Keys == LruSpec.Keys(items)
    && forall i :: 0 <= i < |items| ==> items[i].value.key in table && table[items[i].value.key] == nodes[i]
  }

  lemma {:induction false} KeysCount<K, V>(items: seq<Item<K, V>>)
    requires forall i, j :: 0 <= i < j < |items| ==> items[i].value.key != items[j].value.key
    ensures |LruSpec.Keys(items)| == |items|
  {
    if items != [] {
      KeysCount(items[1..]);
      KeysHead(items[0], items[1..]);
      assert items == [items[0]] + items[1..];
    }
  }

  ghost predicate Mirrored<K, V>(nodes: seq<Node<Cached<K, V>>>, items: seq<Item<K, V>>)
    reads nodes
  {
    && |nodes| == |items|
    && forall i :: 0 <= i < |items| ==> items[i] == Item(nodes[i].value, nodes[i].promotions)
  }

  /** What a move to the front does to the places. */
  lemma MovedAt<T>(s: seq<T>, i: nat)
    requires i < |s|
    ensures var now := [s[i]] + Without(s, i);
            |now| == |s| && forall j :: 0 <= j < |s| ==> now[j] == s[if j == 0 then i else if j <= i then j - 1 else j]
  {
  }

  lemma TouchedAt<K, V>(items: seq<Item<K, V>>, i: nat, limit: nat)
    requires i < |items|
    ensures var now, it := Touched(items, i, limit), items[i];
            && |now| == |items|
            && forall j :: 0 <= j < |items| ==>
                 now[j] == if it.hits < limit then if j == i then Item(it.value, it.hits + 1) else items[j]
                           else if j == 0 then Item(it.value, 0)
                           else items[if j <= i then j - 1 else j]
  {
  }

  lemma TouchedSize<K, V>(items: seq<Item<K, V>>, i: nat, limit: nat)
    requires i < |items|
    ensures |Touched(items, i, limit)| == |items|
  {
  }

  /** The nodes after the touch, where only the touched one has another count. */
  lemma MirroredTouched<K, V>(was: seq<Node<Cached<K, V>>>, items: seq<Item<K, V>>, i: nat, limit: nat,
                              now: seq<Node<Cached<K, V>>>)
    requires |was| == |items| && i < |items| && items[i].value == was[i].value
    requires forall k :: 0 <= k < |items| && k != i ==> items[k] == Item(was[k].value, was[k].promotions)
    requires var moved := items[i].hits >= limit;
             && was[i].promotions == (if moved then 0 else items[i].hits + 1)
             && now == if moved then [was[i]] + Without(was, i) else was
    ensures Mirrored(now, Touched(items, i, limit))
  {
    TouchedAt(items, i, limit);
    MovedAt(was, i);
  }

  lemma TouchedIndexed<K, V>(table: map<K, Node<Cached<K, V>>>, nodes: seq<Node<Cached<K, V>>>,
                             items: seq<Item<K, V>>, i: nat, limit: nat)
    requires Indexed(table, nodes, items) && i < |items|
    requires Distinct(nodes)
    ensures var now := Touched(items, i, limit);
            if items[i].hits >= limit then Indexed(table, [nodes[i]] + Without(nodes, i), now)
            else Indexed(table, nodes, now)
  {
    var it := items[i].(hits := 0);
    if items[i].hits >= limit {
      MovedAt(nodes, i);
      MovedAt(items, i);
      KeysWithout(items, i);
      KeysHead(it, Without(items, i));
      var now, nodes' := [it] + Without(items, i), [nodes[i]] + Without(nodes, i);
      forall j | 0 <= j < |now| ensures now[j].value.key in table && table[now[j].value.key] == nodes'[j] {
        assert j > 0 ==> now[j] == ([items[i]] + Without(items, i))[j];
      }
    } else {
      KeysUpdate(items, i, items[i].(hits := items[i].hits + 1));
    }
  }

  lemma EvictIndexed<K, V>(table: map<K, Node<Cached<K, V>>>, nodes: seq<Node<Cached<K, V>>>, items: seq<Item<K, V>>)
    requires Indexed(table, nodes, items) && items != [] && Distinct(nodes)
    ensures var n := |items| - 1; Indexed(table - {items[n].value.key}, nodes[..n], items[..n])
  {
    var n := |items| - 1;
    KeysWithout(items, n);
    assert Without(items, n) == items[..n];
  }

  lemma AddIndexed<K, V>(table: map<K, Node<Cached<K, V>>>, nodes: seq<Node<Cached<K, V>>>, items: seq<Item<K, V>>,
                         value: Cached<K, V>, node: Node<Cached<K, V>>)
    requires Indexed(table, nodes, items) && value.key !in table
    ensures Indexed(table[value.key := node], [node] + nodes, [Item(value, 0)] + items)
  {
    KeysHead(Item(value, 0), items);
  }

  lemma Elsewhere<T>(nodes: seq<Node<T>>, i: nat)
    requires Distinct(nodes) && i < |nodes|
    ensures forall k :: 0 <= k < |nodes| && k != i ==> nodes[k] != nodes[i]
  {
  }

  class LruCache<K(==), V> {
    const capacity: nat
    const limit: nat
    var table: map<K, Node<Cached<K, V>>>
    const list: List<Cached<K, V>>
    // What the list holds, from the front to the back.
    ghost var items: seq<Item<K, V>>

    ghost predicate Valid()
      reads this, list, list.dummy, list.nodes
    {
      && list.Valid() && list.size == |list.nodes| && |items| <= capacity && 1 <= capacity
      && Mirrored(list.nodes, items) && Indexed(table, list.nodes, items)
    }

    constructor (blank: Cached<K, V>, capacity: nat, limit: nat)
      requires 1 <= capacity
      ensures Valid() && items == [] && this.capacity == capacity && this.limit == limit
      ensures fresh(list) && fresh(list.dummy) && list.nodes == []
    {
      this.capacity, this.limit := capacity, limit;
      table := map[];
      list := new List(blank);
      items := [];
    }

    /** Table and list are as large as each other. */
    lemma TableSize()
      requires Valid()
      ensures |table| == list.size
    {
      list.NodesDiffer();
      KeysCount(items);
    }

    /** One more hit; beyond the limit the node moves to the front. */
    method Promote(node: Node<Cached<K, V>>, ghost i: nat)
      requires Valid() && i < |items| && list.nodes[i] == node
      modifies this`items, list`nodes, list.dummy, list.nodes
      ensures Valid() && items == Touched(old(items), i, limit)
      ensures forall i :: 0 <= i < |list.nodes| ==> list.nodes[i] in old(list.nodes)
    {
      hide Indexed, Linked, Without, Distinct, Touched;
      list.NodesDiffer();
      Elsewhere(list.nodes, i);
      TouchedIndexed(table, list.nodes, items, i, limit);
      TouchedSize(items, i, limit);
      ghost var was := list.nodes;
      WithoutKeeps(was, i);
      var before := node.promotions;
      assert items[i] == Item(node.value, before);
      node.promotions := node.promotions + 1;
      if before >= limit {
        list.MoveToFront(node, i);
        node.promotions := 0;
      }
      MirroredTouched(was, items, i, limit, list.nodes);
      items := Touched(items, i, limit);
    }

    /** The ghost place of a cached key. */
    lemma PlaceOf(key: K)
      requires Valid()
      ensures key in table <==> Find(items, key) < |items|
      ensures key in table ==> table[key] == list.nodes[Find(items, key)]
    {
    }

    /** Makes room; the value that goes is the one at the back. */
    method EvictBack() returns (value: Cached<K, V>)
      requires Valid() && list.size == capacity
      modifies this`table, this`items, list, list.dummy`nxt, list.dummy`pre, list.nodes`nxt, list.nodes`pre
      ensures Valid() && value == old(items)[|old(items)| - 1].value && items == old(items)[..|old(items)| - 1]
      ensures table.Keys == old(table).Keys - {value.key}
      ensures forall i :: 0 <= i < |list.nodes| ==> list.nodes[i] in old(list.nodes)
    {
      hide Linked;
      ghost var was, n := items, |items| - 1;
      list.NodesDiffer();
      EvictIndexed(table, list.nodes, items);
      var node := list.PopBack();
      value := node.value;
      table := table - {value.key};
      items := items[..n];
    }

    method AddFront(value: Cached<K, V>)
      requires Valid() && list.size < capacity && value.key !in table
      modifies this`table, this`items, list, list.dummy`nxt, list.dummy`pre, list.nodes`nxt, list.nodes`pre
      ensures Valid() && items == [Item(value, 0)] + old(items)
      ensures forall i :: 0 <= i < |list.nodes| ==> list.nodes[i] in old(list.nodes) || fresh(list.nodes[i])
    {
      hide Linked, Indexed;
      ghost var was := list.nodes;
      var node := list.PushFront(value);
      AddIndexed(table, was, items, value, node);
      table := table[value.key := node];
      items := [Item(value, 0)] + items;
    }

    /** A new value, after making room if there is none. */
    method Insert(value: Cached<K, V>) returns (disused: Option<Cached<K, V>>)
      requires Valid() && value.key !in table
      modifies this`table, this`items, list, list.dummy`nxt, list.dummy`pre, list.nodes`nxt, list.nodes`pre
      ensures Valid() && items == Pushed(old(items), value, capacity)
      ensures disused == if |old(items)| < capacity then None else Some(old(items)[capacity - 1].value)
      ensures forall i :: 0 <= i < |list.nodes| ==> list.nodes[i] in old(list.nodes) || fresh(list.nodes[i])
    {
      hide Linked, Indexed;
      disused := None;
      if list.size == capacity {
        var evicted := EvictBack();
        disused := Some(evicted);
        assert forall j :: 0 <= j < |list.nodes| ==> list.nodes[j] in old(list.nodes);
      }
      AddFront(value);
    }

    /** A value already there is kept as it is. */
    method Put(value: Cached<K, V>)
      requires Valid()
      modifies this`table, this`items, list, list.dummy, list.nodes
      ensures Valid() && items == Next(old(items), Event.Put(value, true), limit, capacity)
      ensures forall i :: 0 <= i < |list.nodes| ==> list.nodes[i] in old(list.nodes) || fresh(list.nodes[i])
    {
      hide Linked, Indexed, Mirrored, Touched;
      PlaceOf(value.key);
      if value.key in table {
        Promote(table[value.key], Find(items, value.key));
        return;
      }
      var disused := Insert(value);
    }

    /** As Put, and hands out what had to go. */
    method PutWithDisuse(value: Cached<K, V>) returns (disused: Option<Cached<K, V>>)
      requires Valid()
      modifies this`table, this`items, list, list.dummy, list.nodes
      ensures Valid() && items == Next(old(items), Event.Put(value, true), limit, capacity)
      ensures disused == if Find(old(items), value.key) < |old(items)| || |old(items)| < capacity then None
                         else Some(old(items)[capacity - 1].value)
      ensures forall i :: 0 <= i < |list.nodes| ==> list.nodes[i] in old(list.nodes) || fresh(list.nodes[i])
    {
      hide Linked, Indexed, Mirrored, Touched;
      PlaceOf(value.key);
      if value.key in table {
        Promote(table[value.key], Find(items, value.key));
        return None;
      }
      disused := Insert(value);
    }

    /** Replaces the value at the back only when compair says so. */
    method PutWithCompair(value: Cached<K, V>, compair: (Cached<K, V>, Cached<K, V>) -> bool)
      requires Valid()
      modifies this`table, this`items, list, list.dummy, list.nodes
      ensures Valid()
      ensures var wins := old(items) != [] && compair(old(items)[|old(items)| - 1].value, value);
              items == Next(old(items), Event.Put(value, wins), limit, capacity)
      ensures forall i :: 0 <= i < |list.nodes| ==> list.nodes[i] in old(list.nodes) || fresh(list.nodes[i])
    {
      hide Linked, Indexed, Touched;
      PlaceOf(value.key);
      if value.key in table {
        Promote(table[value.key], Find(items, value.key));
        return;
      }
      if list.size == capacity {
        list.DummyPre();
        var back := list.dummy.pre;
        if !compair(back.value, value) {
          return;
        }
      }
      var disused := Insert(value);
    }

    method Get(key: K) returns (value: Option<Cached<K, V>>)
      requires Valid()
      modifies this`items, list`nodes, list.dummy, list.nodes
      ensures Valid() && items == Next(old(items), Event.Get(key), limit, capacity)
      ensures value == if key in table then Some(old(items)[Find(old(items), key)].value) else None
      ensures forall i :: 0 <= i < |list.nodes| ==> list.nodes[i] in old(list.nodes)
    {
      hide Linked, Indexed, Touched;
      PlaceOf(key);
      value := None;
      if key in table {
        value := Some(table[key].value);
        Promote(table[key], Find(items, key));
      }
    }

    method Peek(key: K) returns (value: Option<Cached<K, V>>)
      requires Valid()
      ensures value == if key in table then Some(items[Find(items, key)].value) else None
    {
      PlaceOf(key);
      value := if key in table then Some(table[key].value) else None;
    }
  }

  /** A new cache taken through any calls holds what the specification's run holds. */
  method Play<K(==), V>(blank: Cached<K, V>, evs: seq<Event<K, V>>, limit: nat, capacity: nat)
    returns (cache: LruCache<K, V>)
    requires 1 <= capacity
    ensures fresh(cache) && cache.Valid() && cache.items == Run([], evs, limit, capacity)
  {
    hide Linked, Indexed, Mirrored, Touched, Pushed;
    cache := new LruCache(blank, capacity, limit);
    for i := 0 to |evs|
      invariant fresh(cache) && fresh(cache.list) && fresh(cache.list.dummy) && cache.Valid()
      invariant cache.limit == limit && cache.capacity == capacity
      invariant forall k :: 0 <= k < |cache.list.nodes| ==> fresh(cache.list.nodes[k])
      invariant Run(cache.items, evs[i..], limit, capacity) == Run([], evs, limit, capacity)
    {
      var ev := evs[i];
      assert evs[i..][1..] == evs[i + 1..];
      match ev
      case Get(key) =>
        var found := cache.Get(key);
      case Put(value, wins) =>
        cache.PutWithCompair(value, (back, front) => wins);
    }
  }
}
