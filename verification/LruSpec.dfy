/** The LRU cache as a list of values, and what its order means. */
module LruSpec {
  import opened LruLists

  datatype Cached<K, V> = Cached(key: K, data: V)

  /** hits counts since the value was last put at the front. */
  datatype Item<K, V> = Item(value: Cached<K, V>, hits: nat)

  /** The place of a key, or the length of the list. */
  function Find<K(==), V>(items: seq<Item<K, V>>, k: K): (i: nat)
    ensures i <= |items|
    ensures i < |items| ==> items[i].value.key == k
    ensures forall j :: 0 <= j < i ==> items[j].value.key != k
  {
    if items == [] then 0
    else if items[0].value.key == k then 0
    else 1 + Find(items[1..], k)
  }

  /** A hit is counted; one too many moves the value to the front. */
  function Touched<K, V>(items: seq<Item<K, V>>, i: nat, limit: nat): seq<Item<K, V>>
    requires i < |items|
  {
    if items[i].hits >= limit then [items[i].(hits := 0)] + Without(items, i)
    else items[i := items[i].(hits := items[i].hits + 1)]
  }

  /** A new value at the front; the back makes room. */
  function Pushed<K, V>(items: seq<Item<K, V>>, value: Cached<K, V>, capacity: nat): seq<Item<K, V>>
    requires capacity >= 1
  {
    [Item(value, 0)] + if |items| == capacity then items[..|items| - 1] else items
  }

  /** wins says whether the new value may replace the one at the back; an ordinary put always may. */
  datatype Event<K, V> = Get(key: K) | Put(value: Cached<K, V>, wins: bool)

  function KeyOf<K, V>(ev: Event<K, V>): K {
    if ev.Get? then ev.key else ev.value.key
  }

  function Next<K(==), V>(items: seq<Item<K, V>>, ev: Event<K, V>, limit: nat, capacity: nat): seq<Item<K, V>>
    requires capacity >= 1
  {
    var i := Find(items, KeyOf(ev));
    if i < |items| then Touched(items, i, limit)
    else if ev.Get? || (|items| == capacity && !ev.wins) then items
    else Pushed(items, ev.value, capacity)
  }

  function Run<K(==), V>(items: seq<Item<K, V>>, evs: seq<Event<K, V>>, limit: nat, capacity: nat): seq<Item<K, V>>
    requires capacity >= 1
    decreases |evs|
  {
    if evs == [] then items else Run(Next(items, evs[0], limit, capacity), evs[1..], limit, capacity)
  }

  // ---------- a reference without a list: when each key was last moved, and how often it was hit ----------

  datatype Slot<K, V> = Slot(value: Cached<K, V>, hits: nat, moved: nat)

  datatype Ref<K, V> = Ref(clock: nat, slots: map<K, Slot<K, V>>)

  /** Hits since the last time their number was a multiple of limit + 1. */
  function Pending(hits: nat, limit: nat): nat {
    hits % (limit + 1)
  }

  /** Every (limit + 1)-th hit moves the key. */
  ghost function Hit<K, V>(r: Ref<K, V>, k: K, limit: nat): Ref<K, V>
    requires k in r.slots
  {
    var Slot(value, hits, moved) := r.slots[k];
    Ref(r.clock + 1, r.slots[k := Slot(value, hits + 1, if Pending(hits + 1, limit) == 0 then r.clock else moved)])
  }

  ghost function Add<K, V>(r: Ref<K, V>, v: Cached<K, V>): Ref<K, V> {
    Ref(r.clock + 1, r.slots[v.key := Slot(v, 0, r.clock)])
  }

  ghost function Drop<K, V>(r: Ref<K, V>, k: K): Ref<K, V> {
    Ref(r.clock, r.slots - {k})
  }

  /** The key whose last move, or arrival, is longest ago. */
  ghost predicate Oldest<K, V>(r: Ref<K, V>, k: K) {
    k in r.slots && forall o :: o in r.slots && o != k ==> r.slots[k].moved < r.slots[o].moved
  }

  ghost predicate NextRef<K(!new), V(!new)>(r: Ref<K, V>, ev: Event<K, V>, limit: nat, capacity: nat, r': Ref<K, V>) {
    if KeyOf(ev) in r.slots then r' == Hit(r, KeyOf(ev), limit)
    else if ev.Get? then r' == r
    else if |r.slots| < capacity then r' == Add(r, ev.value)
    else if !ev.wins then r' == r
    else exists last :: Oldest(r, last) && r' == Add(Drop(r, last), ev.value)
  }

  ghost function Keys<K, V>(items: seq<Item<K, V>>): set<K> {
    set i | 0 <= i < |items| :: items[i].value.key
  }

  ghost predicate Agrees<K, V>(it: Item<K, V>, r: Ref<K, V>, limit: nat) {
    var k := it.value.key;
    && k in r.slots && r.slots[k].value == it.value && it.hits == Pending(r.slots[k].hits, limit)
    && r.slots[k].moved < r.clock
  }

  /** a was moved after b. */
  ghost predicate Newer<K, V>(a: Item<K, V>, b: Item<K, V>, r: Ref<K, V>) {
    a.value.key in r.slots && b.value.key in r.slots && r.slots[a.value.key].moved > r.slots[b.value.key].moved
  }

  /** The list is the reference's keys, those moved last in front. */
  ghost predicate Refines<K, V>(items: seq<Item<K, V>>, r: Ref<K, V>, limit: nat) {
    && r.slots.Keys == Keys(items)
    && (forall i :: 0 <= i < |items| ==> Agrees(items[i], r, limit))
    && (forall i, j :: 0 <= i < j < |items| ==> Newer(items[i], items[j], r))
  }

  lemma ModOf(q: int, c: int, n: int)
    requires 0 <= c < n
    ensures (n * q + c) % n == c
  {
    var x := n * q + c;
    var d := x / n - q;
    assert x == n * (x / n) + x % n;
    assert n * d == c - x % n;
    assert d >= 1 ==> n * d >= n;
    assert d <= -1 ==> n * d <= -n;
  }

  lemma NextCount(h: nat, n: nat)
    requires n > 0
    ensures (h + 1) % n == if h % n == n - 1 then 0 else h % n + 1
  {
    var q: int, c: int := h / n, h % n;
    assert h == n * q + c;
    if c == n - 1 {
      assert h + 1 == n * (q + 1);
      ModOf(q + 1, 0, n);
    } else {
      ModOf(q, c + 1, n);
    }
  }

  lemma KeysDiffer<K, V>(items: seq<Item<K, V>>, r: Ref<K, V>, limit: nat)
    requires Refines(items, r, limit)
    ensures forall i, j :: 0 <= i < j < |items| ==> items[i].value.key != items[j].value.key
  {
    forall i, j | 0 <= i < j < |items| ensures items[i].value.key != items[j].value.key {
      assert Newer(items[i], items[j], r);
    }
  }

  lemma KeysHead<K, V>(it: Item<K, V>, items: seq<Item<K, V>>)
    ensures Keys([it] + items) == {it.value.key} + Keys(items)
  {
    var now := [it] + items;
    assert now[0] == it;
    forall i | 0 <= i < |items| ensures items[i].value.key in Keys(now) {
      assert now[i + 1] == items[i];
    }
  }

  lemma KeysWithout<K, V>(items: seq<Item<K, V>>, i: nat)
    requires i < |items|
    requires forall a, b :: 0 <= a < b < |items| ==> items[a].value.key != items[b].value.key
    ensures Keys(Without(items, i)) == Keys(items) - {items[i].value.key}
  {
    var now := Without(items, i);
    forall k | k in Keys(items) - {items[i].value.key} ensures k in Keys(now) {
      var j :| 0 <= j < |items| && items[j].value.key == k;
      assert now[if j < i then j else j - 1] == items[j];
    }
  }

  lemma KeysUpdate<K, V>(items: seq<Item<K, V>>, i: nat, it: Item<K, V>)
    requires i < |items| && it.value.key == items[i].value.key
    ensures Keys(items[i := it]) == Keys(items)
  {
    var now := items[i := it];
    forall o | o in Keys(items) ensures o in Keys(now) {
      var a :| 0 <= a < |items| && items[a].value.key == o;
      assert now[a].value.key == o;
    }
  }

  lemma AgreesAt<K, V>(items: seq<Item<K, V>>, r: Ref<K, V>, i: nat, limit: nat)
    requires Refines(items, r, limit) && i < |items|
    ensures Agrees(items[i], r, limit)
  {
  }

  /** Taking a value out changes nothing for the others. */
  lemma DropRefines<K, V>(items: seq<Item<K, V>>, r: Ref<K, V>, i: nat, limit: nat)
    requires Refines(items, r, limit) && i < |items|
    ensures Refines(Without(items, i), Drop(r, items[i].value.key), limit)
  {
    var k, now, r' := items[i].value.key, Without(items, i), Drop(r, items[i].value.key);
    KeysDiffer(items, r, limit);
    KeysWithout(items, i);
    forall a | 0 <= a < |now| ensures Agrees(now[a], r', limit) {
      assert Agrees(items[if a < i then a else a + 1], r, limit);
    }
    forall a, b | 0 <= a < b < |now| ensures Newer(now[a], now[b], r') {
      assert Newer(items[if a < i then a else a + 1], items[if b < i then b else b + 1], r);
    }
  }

  /** A value at the front that the reference has just moved there. */
  lemma FrontRefines<K, V>(items: seq<Item<K, V>>, r: Ref<K, V>, v: Cached<K, V>, hits: nat, limit: nat)
    requires Refines(items, r, limit) && v.key !in r.slots && Pending(hits, limit) == 0
    ensures Refines([Item(v, 0)] + items, Ref(r.clock + 1, r.slots[v.key := Slot(v, hits, r.clock)]), limit)
  {
    hide Pending;
    var now, r' := [Item(v, 0)] + items, Ref(r.clock + 1, r.slots[v.key := Slot(v, hits, r.clock)]);
    KeysHead(Item(v, 0), items);
    forall a | 0 <= a < |now| ensures Agrees(now[a], r', limit) {
      assert a > 0 ==> Agrees(items[a - 1], r, limit);
    }
    forall a, b | 0 <= a < b < |now| ensures Newer(now[a], now[b], r') {
      assert Agrees(items[b - 1], r, limit);
      assert a > 0 ==> Newer(items[a - 1], items[b - 1], r);
    }
  }

  lemma StayRefines<K, V>(items: seq<Item<K, V>>, r: Ref<K, V>, i: nat, limit: nat)
    requires Refines(items, r, limit) && i < |items|
    requires Pending(r.slots[items[i].value.key].hits + 1, limit) == items[i].hits + 1
    ensures Refines(items[i := items[i].(hits := items[i].hits + 1)], Hit(r, items[i].value.key, limit), limit)
  {
    hide Pending;
    var k, now := items[i].value.key, items[i := items[i].(hits := items[i].hits + 1)];
    var r' := Hit(r, k, limit);
    KeysDiffer(items, r, limit);
    assert forall a :: 0 <= a < |items| ==> now[a].value == items[a].value;
    assert Agrees(items[i], r, limit);
    KeysUpdate(items, i, now[i]);
    hide Keys;
    forall a | 0 <= a < |now| ensures Agrees(now[a], r', limit) {
      assert Agrees(items[a], r, limit);
    }
    forall a, b | 0 <= a < b < |now| ensures Newer(now[a], now[b], r') {
      assert Newer(items[a], items[b], r);
    }
  }

  lemma TouchedRefines<K, V>(items: seq<Item<K, V>>, r: Ref<K, V>, i: nat, limit: nat)
    requires Refines(items, r, limit) && i < |items|
    ensures Refines(Touched(items, i, limit), Hit(r, items[i].value.key, limit), limit)
    ensures |Touched(items, i, limit)| == |items|
  {
    hide Refines;
    var it := items[i];
    AgreesAt(items, r, i, limit);
    var slot := r.slots[it.value.key];
    NextCount(slot.hits, limit + 1);
    if it.hits >= limit {
      hide Without;
      DropRefines(items, r, i, limit);
      FrontRefines(Without(items, i), Drop(r, it.value.key), it.value, slot.hits + 1, limit);
      assert Drop(r, it.value.key).slots[it.value.key := Slot(it.value, slot.hits + 1, r.clock)]
          == r.slots[it.value.key := Slot(it.value, slot.hits + 1, r.clock)];
    } else {
      StayRefines(items, r, i, limit);
    }
  }

  /** The value at the back is the one that was moved longest ago. */
  lemma BackIsOldest<K, V>(items: seq<Item<K, V>>, r: Ref<K, V>, limit: nat)
    requires Refines(items, r, limit) && items != []
    ensures Oldest(r, items[|items| - 1].value.key)
  {
    var n := |items| - 1;
    assert Agrees(items[n], r, limit);
    forall o | o in r.slots && o != items[n].value.key ensures r.slots[items[n].value.key].moved < r.slots[o].moved {
      var j :| 0 <= j < |items| && items[j].value.key == o;
      assert Newer(items[j], items[n], r);
    }
  }

  lemma {:induction false} SizeRefines<K, V>(items: seq<Item<K, V>>, r: Ref<K, V>, limit: nat)
    requires Refines(items, r, limit)
    ensures |r.slots| == |items|
    decreases |items|
  {
    if items == [] {
      assert r.slots.Keys == {};
    } else {
      var k := items[0].value.key;
      DropRefines(items, r, 0, limit);
      SizeRefines(Without(items, 0), Drop(r, k), limit);
      assert Agrees(items[0], r, limit);
      assert r.slots.Keys == Drop(r, k).slots.Keys + {k};
    }
  }

  lemma FoundInRef<K, V>(items: seq<Item<K, V>>, r: Ref<K, V>, k: K, limit: nat)
    requires Refines(items, r, limit)
    ensures k in r.slots <==> Find(items, k) < |items|
  {
  }

  /** One event: the cache does what the reference does, and stays within its capacity. */
  lemma NextRefines<K(!new), V(!new)>(items: seq<Item<K, V>>, r: Ref<K, V>, ev: Event<K, V>, limit: nat, capacity: nat)
    returns (r': Ref<K, V>)
    requires Refines(items, r, limit) && |items| <= capacity && capacity >= 1
    ensures NextRef(r, ev, limit, capacity, r') && Refines(Next(items, ev, limit, capacity), r', limit)
    ensures |Next(items, ev, limit, capacity)| <= capacity
  {
    hide Refines, Touched, Hit, Oldest;
    var i := Find(items, KeyOf(ev));
    SizeRefines(items, r, limit);
    FoundInRef(items, r, KeyOf(ev), limit);
    if i < |items| {
      TouchedRefines(items, r, i, limit);
      r' := Hit(r, KeyOf(ev), limit);
    } else if ev.Get? || (|items| == capacity && !ev.wins) {
      r' := r;
    } else if |items| < capacity {
      FrontRefines(items, r, ev.value, 0, limit);
      r' := Add(r, ev.value);
    } else {
      var n := |items| - 1;
      var last := items[n].value.key;
      BackIsOldest(items, r, limit);
      DropRefines(items, r, n, limit);
      assert Without(items, n) == items[..n];
      FrontRefines(items[..n], Drop(r, last), ev.value, 0, limit);
      r' := Add(Drop(r, last), ev.value);
    }
  }

  ghost predicate RunRef<K(!new), V(!new)>(r: Ref<K, V>, evs: seq<Event<K, V>>, limit: nat, capacity: nat,
                                           r': Ref<K, V>)
    decreases |evs|
  {
    if evs == [] then r' == r
    else exists mid :: NextRef(r, evs[0], limit, capacity, mid) && RunRef(mid, evs[1..], limit, capacity, r')
  }

  /** Every run of the cache is a run of the reference, and never holds more than its capacity. */
  lemma {:induction false} RunRefines<K(!new), V(!new)>(items: seq<Item<K, V>>, r: Ref<K, V>, evs: seq<Event<K, V>>,
                                                        limit: nat, capacity: nat)
    returns (r': Ref<K, V>)
    requires Refines(items, r, limit) && |items| <= capacity && capacity >= 1
    ensures RunRef(r, evs, limit, capacity, r') && Refines(Run(items, evs, limit, capacity), r', limit)
    ensures |Run(items, evs, limit, capacity)| <= capacity
    decreases |evs|
  {
    if evs == [] {
      r' := r;
    } else {
      var mid := NextRefines(items, r, evs[0], limit, capacity);
      r' := RunRefines(Next(items, evs[0], limit, capacity), mid, evs[1..], limit, capacity);
    }
  }
}
