/** Strictly sorted entry lists, the value of a memtable and of an SST, and the maps they denote. */
module Entries {
  import opened Keys

  datatype Entry = Entry(key: Key, value: Value)

  ghost predicate Sorted(es: seq<Entry>) {
    forall i, j :: 0 <= i < j < |es| ==> Less(es[i].key, es[j].key)
  }

  /** The map a list denotes; a later entry for the same key wins. */
  function Contents(es: seq<Entry>): map<Key, Value> {
    if es == [] then map[]
    else Contents(es[..|es| - 1])[es[|es| - 1].key := es[|es| - 1].value]
  }

  function Lookup(m: map<Key, Value>, k: Key): Option<Value> {
    if k in m then Some(m[k]) else None
  }

  /** Puts one entry into a sorted list, replacing the value of an equal key. */
  function Insert(es: seq<Entry>, e: Entry): seq<Entry> {
    if es == [] then [e]
    else
      var last := es[|es| - 1];
      if Less(last.key, e.key) then es + [e]
      else if last.key == e.key then es[..|es| - 1] + [e]
      else Insert(es[..|es| - 1], e) + [last]
  }

  /** The entries of newer put one by one into older. */
  function Overlay(older: seq<Entry>, newer: seq<Entry>): seq<Entry> {
    if newer == [] then older
    else Insert(Overlay(older, newer[..|newer| - 1]), newer[|newer| - 1])
  }

  lemma {:induction false} ContentsAppend(es: seq<Entry>, e: Entry)
    ensures Contents(es + [e]) == Contents(es)[e.key := e.value]
  {
    assert (es + [e])[..|es|] == es;
  }

  lemma {:induction false} KeyInContents(es: seq<Entry>, k: Key)
    ensures k in Contents(es) <==> exists i :: 0 <= i < |es| && es[i].key == k
  {
    if es != [] {
      var n := |es| - 1;
      KeyInContents(es[..n], k);
      if k in Contents(es) && k != es[n].key {
        var i :| 0 <= i < n && es[..n][i].key == k;
        assert es[i].key == k;
      }
      if i :| 0 <= i < |es| && es[i].key == k {
        if i < n {
          assert es[..n][i].key == k;
        }
      }
    }
  }

  /** A sorted list maps the key at each position to the value at that position. */
  lemma {:induction false} ContentsAt(es: seq<Entry>, i: nat)
    requires Sorted(es) && i < |es|
    ensures es[i].key in Contents(es) && Contents(es)[es[i].key] == es[i].value
  {
    var n := |es| - 1;
    if i < n {
      ContentsAt(es[..n], i);
      Order();
      assert Less(es[i].key, es[n].key);
    }
  }

  lemma {:induction false} InsertSorted(es: seq<Entry>, e: Entry)
    requires Sorted(es)
    ensures Sorted(Insert(es, e))
    ensures Insert(es, e) != []
    ensures forall k: Key :: (Less(e.key, k) && (forall i :: 0 <= i < |es| ==> Less(es[i].key, k))) ==>
              forall i :: 0 <= i < |Insert(es, e)| ==> Less(Insert(es, e)[i].key, k)
  {
    Order();
    if es != [] {
      var n := |es| - 1;
      InsertSorted(es[..n], e);
    }
  }

  lemma InsertCommutes(m: map<Key, Value>, d: Entry, e: Entry)
    requires d.key != e.key
    ensures m[d.key := d.value][e.key := e.value] == m[e.key := e.value][d.key := d.value]
  {
  }

  lemma {:induction false} InsertContents(es: seq<Entry>, e: Entry)
    ensures Contents(Insert(es, e)) == Contents(es)[e.key := e.value]
  {
    if es == [] {
      ContentsAppend([], e);
      assert [e] == [] + [e];
    } else {
      var init, last := es[..|es| - 1], es[|es| - 1];
      assert Contents(es) == Contents(init)[last.key := last.value];
      if Less(last.key, e.key) {
        ContentsAppend(es, e);
      } else if last.key == e.key {
        ContentsAppend(init, e);
      } else {
        InsertContents(init, e);
        ContentsAppend(Insert(init, e), last);
        assert Insert(es, e) == Insert(init, e) + [last];
        InsertCommutes(Contents(init), e, last);
      }
    }
  }

  lemma {:induction false} OverlaySorted(older: seq<Entry>, newer: seq<Entry>)
    requires Sorted(older)
    ensures Sorted(Overlay(older, newer))
    ensures older != [] || newer != [] ==> Overlay(older, newer) != []
  {
    if newer != [] {
      var n := |newer| - 1;
      OverlaySorted(older, newer[..n]);
      InsertSorted(Overlay(older, newer[..n]), newer[n]);
    }
  }

  lemma AddThenUpdate(m: map<Key, Value>, n: map<Key, Value>, e: Entry)
    ensures (m + n)[e.key := e.value] == m + n[e.key := e.value]
  {
  }

  /** Overlaying two lists is adding their maps, the newer one winning. */
  lemma {:induction false} OverlayContents(older: seq<Entry>, newer: seq<Entry>)
    ensures Contents(Overlay(older, newer)) == Contents(older) + Contents(newer)
  {
    if newer == [] {
      assert Contents(older) + map[] == Contents(older);
    } else {
      var init, last := newer[..|newer| - 1], newer[|newer| - 1];
      OverlayContents(older, init);
      InsertContents(Overlay(older, init), last);
      AddThenUpdate(Contents(older), Contents(init), last);
    }
  }

  lemma {:induction false} ContentsWithoutLast(es: seq<Entry>)
    requires Sorted(es) && es != []
    ensures Contents(es[..|es| - 1]) == Contents(es) - {es[|es| - 1].key}
  {
    var n := |es| - 1;
    KeyInContents(es[..n], es[n].key);
    Order();
  }

  /** Two sorted lists that denote the same map are the same list. */
  lemma {:induction false} SortedUnique(a: seq<Entry>, b: seq<Entry>)
    requires Sorted(a) && Sorted(b) && Contents(a) == Contents(b)
    ensures a == b
  {
    if a == [] || b == [] {
      if a != [] { ContentsAt(a, 0); }
      if b != [] { ContentsAt(b, 0); }
    } else {
      var n, m := |a| - 1, |b| - 1;
      Order();
      ContentsAt(a, n);
      ContentsAt(b, m);
      KeyInContents(b, a[n].key);
      KeyInContents(a, b[m].key);
      assert a[n] == b[m];
      ContentsWithoutLast(a);
      ContentsWithoutLast(b);
      SortedUnique(a[..n], b[..m]);
      assert a == a[..n] + [a[n]] && b == b[..m] + [b[m]];
    }
  }

  /** Where an entry goes: at position p when all keys before are smaller and none from p on is. */
  lemma {:induction false} InsertAt(es: seq<Entry>, e: Entry, p: nat)
    requires Sorted(es) && p <= |es|
    requires forall i :: 0 <= i < p ==> Less(es[i].key, e.key)
    requires p < |es| ==> !Less(es[p].key, e.key)
    ensures p < |es| && es[p].key == e.key ==> Insert(es, e) == es[p := e]
    ensures p == |es| || es[p].key != e.key ==> Insert(es, e) == es[..p] + [e] + es[p..]
  {
    Order();
    var n := |es| - 1;
    if es == [] {
    } else if Less(es[n].key, e.key) {
      assert p == |es|;
    } else if es[n].key == e.key {
      assert p == n;
      assert es[..n] + [e] == es[n := e];
    } else {
      var last := es[n];
      assert p <= n;
      if p < n {
        assert es[..n][p] == es[p];
      }
      InsertAt(es[..n], e, p);
      if p < n && es[p].key == e.key {
        assert es[..n][p := e] + [last] == es[p := e];
      } else {
        assert es[..n][..p] + [e] + es[..n][p..] + [last] == es[..p] + [e] + es[p..];
      }
    }
  }
}
