/** The priority-queue merge of compaction: many sorted sources, the first of them the newest. */
module HeapMerge {
  import opened Keys
  import opened Entries

  /** An iterator into source number src; that number is also the second sort key of the queue. */
  datatype Cursor = Cursor(src: nat, pos: nat)

  ghost predicate ValidSources(sources: seq<seq<Entry>>) {
    forall s :: 0 <= s < |sources| ==> sources[s] != [] && Sorted(sources[s])
  }

  predicate InRange(sources: seq<seq<Entry>>, c: Cursor) {
    c.src < |sources| && c.pos < |sources[c.src]|
  }

  /** The comparison of the max-heap: a is below b when b has the smaller key, or the smaller number at equal keys. */
  predicate Below(sources: seq<seq<Entry>>, a: Cursor, b: Cursor)
    requires InRange(sources, a) && InRange(sources, b)
  {
    var x, y := sources[a.src][a.pos].key, sources[b.src][b.pos].key;
    if x == y then a.src > b.src else Less(y, x)
  }

  predicate IsTop(sources: seq<seq<Entry>>, queue: set<Cursor>, c: Cursor) {
    && c in queue
    && (forall d :: d in queue ==> InRange(sources, d))
    && (forall d :: d in queue ==> !Below(sources, c, d))
  }

  /** What the merge means: the first source overlays all the later ones. */
  function Merged(sources: seq<seq<Entry>>): seq<Entry> {
    if sources == [] then [] else Overlay(Merged(sources[1..]), sources[0])
  }

  function MergedMap(sources: seq<seq<Entry>>): map<Key, Value> {
    if sources == [] then map[] else MergedMap(sources[1..]) + Contents(sources[0])
  }

  lemma {:induction false} MergedCorrect(sources: seq<seq<Entry>>)
    ensures Sorted(Merged(sources))
    ensures Contents(Merged(sources)) == MergedMap(sources)
    ensures ValidSources(sources) && sources != [] ==> Merged(sources) != []
  {
    if sources != [] {
      MergedCorrect(sources[1..]);
      OverlaySorted(Merged(sources[1..]), sources[0]);
      OverlayContents(Merged(sources[1..]), sources[0]);
    }
  }

  ghost predicate FirstHolder(sources: seq<seq<Entry>>, k: Key, s: int) {
    && 0 <= s < |sources|
    && k in Contents(sources[s])
    && forall t :: 0 <= t < s ==> k !in Contents(sources[t])
  }

  /** The merge gives a key the value of the first source that holds it, and no other keys. */
  lemma {:induction false} FirstSourceWins(sources: seq<seq<Entry>>, k: Key)
    ensures k in MergedMap(sources) <==> exists s :: 0 <= s < |sources| && k in Contents(sources[s])
    ensures forall s :: FirstHolder(sources, k, s) ==>
                          k in MergedMap(sources) && MergedMap(sources)[k] == Contents(sources[s])[k]
  {
    if sources != [] {
      var rest := sources[1..];
      FirstSourceWins(rest, k);
      if s :| 0 <= s < |sources| && k in Contents(sources[s]) {
        if s > 0 {
          assert rest[s - 1] == sources[s];
        }
      }
      forall s | FirstHolder(sources, k, s)
        ensures k in MergedMap(sources) && MergedMap(sources)[k] == Contents(sources[s])[k]
      {
        if s > 0 {
          assert rest[s - 1] == sources[s];
          assert k !in Contents(sources[0]);
          assert FirstHolder(rest, k, s - 1);
        }
      }
    }
  }

  ghost predicate Heads(sources: seq<seq<Entry>>, heads: seq<nat>) {
    |heads| == |sources| && forall s :: 0 <= s < |sources| ==> heads[s] <= |sources[s]|
  }

  /** heads[s] entries of source s have been popped; the queue holds one cursor for each source that has more. */
  ghost predicate QueueInv(sources: seq<seq<Entry>>, heads: seq<nat>, queue: set<Cursor>) {
    && Heads(sources, heads)
    && (forall c :: c in queue ==> InRange(sources, c) && c.pos == heads[c.src])
    && (forall s :: 0 <= s < |sources| && heads[s] < |sources[s]| ==> Cursor(s, heads[s]) in queue)
  }

  /** Every popped entry has its key among keys. */
  ghost predicate PoppedIn(sources: seq<seq<Entry>>, heads: seq<nat>, keys: set<Key>)
    requires Heads(sources, heads)
  {
    forall s, p :: 0 <= s < |sources| && 0 <= p < heads[s] ==> sources[s][p].key in keys
  }

  /** No entry still to be popped has a key below k. */
  ghost predicate NoneBelow(sources: seq<seq<Entry>>, heads: seq<nat>, k: Key)
    requires Heads(sources, heads)
  {
    forall s, p :: 0 <= s < |sources| && heads[s] <= p < |sources[s]| ==> !Less(sources[s][p].key, k)
  }

  ghost predicate OutputInv(sources: seq<seq<Entry>>, heads: seq<nat>, entries: seq<Entry>)
    requires Heads(sources, heads)
  {
    && Sorted(entries)
    && Contents(entries).Items <= MergedMap(sources).Items
    && PoppedIn(sources, heads, Contents(entries).Keys)
    && (entries != [] ==> NoneBelow(sources, heads, entries[|entries| - 1].key))
  }

  function Push(entries: seq<Entry>, e: Entry): seq<Entry> {
    if entries == [] || entries[|entries| - 1].key != e.key then entries + [e] else entries
  }

  /** No entry still in the sources has a key below the top of the queue. */
  lemma TopIsLeast(sources: seq<seq<Entry>>, heads: seq<nat>, queue: set<Cursor>, c: Cursor, s: nat, p: nat)
    requires ValidSources(sources) && QueueInv(sources, heads, queue) && IsTop(sources, queue, c)
    requires s < |sources| && heads[s] <= p < |sources[s]|
    ensures !Less(sources[s][p].key, sources[c.src][c.pos].key)
    ensures sources[s][p].key == sources[c.src][c.pos].key ==> c.src <= s
  {
    Order();
    var d := Cursor(s, heads[s]);
    assert d in queue && !Below(sources, c, d);
    assert p == heads[s] || Less(sources[s][heads[s]].key, sources[s][p].key);
  }

  /** A key that the output lacks is taken from the newest source that has it. */
  lemma TopIsNewest(sources: seq<seq<Entry>>, heads: seq<nat>, queue: set<Cursor>, entries: seq<Entry>, c: Cursor)
    requires ValidSources(sources) && QueueInv(sources, heads, queue) && IsTop(sources, queue, c)
    requires OutputInv(sources, heads, entries)
    requires sources[c.src][c.pos].key !in Contents(entries)
    ensures var e := sources[c.src][c.pos]; e.key in MergedMap(sources) && MergedMap(sources)[e.key] == e.value
  {
    var e := sources[c.src][c.pos];
    forall t | 0 <= t < c.src ensures e.key !in Contents(sources[t]) {
      KeyInContents(sources[t], e.key);
      if q :| 0 <= q < |sources[t]| && sources[t][q].key == e.key {
        if heads[t] <= q {
          TopIsLeast(sources, heads, queue, c, t, q);
        }
      }
    }
    ContentsAt(sources[c.src], c.pos);
    FirstSourceWins(sources, e.key);
    assert FirstHolder(sources, e.key, c.src);
  }

  lemma NewKeyIsLargest(sources: seq<seq<Entry>>, heads: seq<nat>, entries: seq<Entry>, c: Cursor)
    requires InRange(sources, c) && Heads(sources, heads) && c.pos == heads[c.src]
    requires OutputInv(sources, heads, entries)
    requires entries != [] && entries[|entries| - 1].key != sources[c.src][c.pos].key
    ensures sources[c.src][c.pos].key !in Contents(entries)
    ensures Sorted(entries + [sources[c.src][c.pos]])
  {
    Order();
    KeyInContents(entries, sources[c.src][c.pos].key);
    assert Less(entries[|entries| - 1].key, sources[c.src][c.pos].key);
  }

  lemma PushItems(m: map<Key, Value>, n: map<Key, Value>, e: Entry)
    requires m.Items <= n.Items && e.key in n && n[e.key] == e.value
    ensures m[e.key := e.value].Items <= n.Items
  {
    forall kv | kv in m[e.key := e.value].Items ensures kv in n.Items {
      if kv.0 != e.key {
        assert kv in m.Items;
      }
    }
  }

  /** Pushing the top keeps the output sorted and within the merge, and leaves the top's key last. */
  lemma PushKeeps(sources: seq<seq<Entry>>, heads: seq<nat>, queue: set<Cursor>, entries: seq<Entry>, c: Cursor)
    requires ValidSources(sources) && QueueInv(sources, heads, queue) && IsTop(sources, queue, c)
    requires OutputInv(sources, heads, entries)
    ensures var e := sources[c.src][c.pos];
            var entries' := Push(entries, e);
            && Sorted(entries') && Contents(entries').Items <= MergedMap(sources).Items
            && Contents(entries).Keys + {e.key} == Contents(entries').Keys
            && entries' != [] && entries'[|entries'| - 1].key == e.key
  {
    var e := sources[c.src][c.pos];
    if Push(entries, e) == entries {
      ContentsAt(entries, |entries| - 1);
    } else {
      if entries != [] {
        NewKeyIsLargest(sources, heads, entries, c);
      }
      TopIsNewest(sources, heads, queue, entries, c);
      ContentsAppend(entries, e);
      PushItems(Contents(entries), MergedMap(sources), e);
    }
  }

  lemma AdvanceHead(sources: seq<seq<Entry>>, heads: seq<nat>, queue: set<Cursor>, c: Cursor, keys: set<Key>)
    requires ValidSources(sources) && QueueInv(sources, heads, queue) && IsTop(sources, queue, c)
    requires PoppedIn(sources, heads, keys)
    ensures Heads(sources, heads[c.src := c.pos + 1])
    ensures NoneBelow(sources, heads[c.src := c.pos + 1], sources[c.src][c.pos].key)
    ensures PoppedIn(sources, heads[c.src := c.pos + 1], keys + {sources[c.src][c.pos].key})
  {
    var heads' := heads[c.src := c.pos + 1];
    forall s, p | 0 <= s < |sources| && heads'[s] <= p < |sources[s]|
      ensures !Less(sources[s][p].key, sources[c.src][c.pos].key)
    {
      TopIsLeast(sources, heads, queue, c, s, p);
    }
  }

  /** One round of the merge loop keeps the output invariant. */
  lemma MergeStep(sources: seq<seq<Entry>>, heads: seq<nat>, queue: set<Cursor>, entries: seq<Entry>, c: Cursor)
    requires ValidSources(sources) && QueueInv(sources, heads, queue) && IsTop(sources, queue, c)
    requires OutputInv(sources, heads, entries)
    ensures OutputInv(sources, heads[c.src := c.pos + 1], Push(entries, sources[c.src][c.pos]))
  {
    PushKeeps(sources, heads, queue, entries, c);
    AdvanceHead(sources, heads, queue, c, Contents(entries).Keys);
  }

  /** When every source is used up the output is the merge. */
  lemma MergeDone(sources: seq<seq<Entry>>, heads: seq<nat>, entries: seq<Entry>)
    requires Heads(sources, heads) && forall s :: 0 <= s < |sources| ==> heads[s] == |sources[s]|
    requires OutputInv(sources, heads, entries)
    ensures entries == Merged(sources)
  {
    forall k | k in MergedMap(sources) ensures k in Contents(entries) && Contents(entries)[k] == MergedMap(sources)[k] {
      FirstSourceWins(sources, k);
      var s :| 0 <= s < |sources| && k in Contents(sources[s]);
      KeyInContents(sources[s], k);
      assert (k, Contents(entries)[k]) in Contents(entries).Items;
    }
    forall k | k in Contents(entries) ensures k in MergedMap(sources) {
      assert (k, Contents(entries)[k]) in Contents(entries).Items;
    }
    MergedCorrect(sources);
    SortedUnique(entries, Merged(sources));
  }

  ghost function Left(sources: seq<seq<Entry>>, heads: seq<nat>): int
    requires |heads| == |sources|
  {
    if sources == [] then 0 else |sources[0]| - heads[0] + Left(sources[1..], heads[1..])
  }

  lemma {:induction false} LeftNonNegative(sources: seq<seq<Entry>>, heads: seq<nat>)
    requires Heads(sources, heads)
    ensures Left(sources, heads) >= 0
  {
    if sources != [] {
      LeftNonNegative(sources[1..], heads[1..]);
    }
  }

  lemma {:induction false} LeftDrops(sources: seq<seq<Entry>>, heads: seq<nat>, s: nat)
    requires Heads(sources, heads) && s < |sources|
    ensures Left(sources, heads) >= 0
    ensures Left(sources, heads[s := heads[s] + 1]) == Left(sources, heads) - 1
  {
    LeftNonNegative(sources, heads);
    if s == 0 {
      assert heads[s := heads[s] + 1][1..] == heads[1..];
    } else {
      LeftDrops(sources[1..], heads[1..], s - 1);
      assert heads[s := heads[s] + 1][1..] == heads[1..][s - 1 := heads[s] + 1];
    }
  }

  lemma TopExists(sources: seq<seq<Entry>>, queue: set<Cursor>)
    requires queue != {} && forall d :: d in queue ==> InRange(sources, d)
    ensures exists c :: IsTop(sources, queue, c)
    decreases |queue|
  {
    Order();
    var c :| c in queue;
    var rest := queue - {c};
    assert queue == rest + {c};
    if rest == {} {
      assert IsTop(sources, queue, c);
    } else {
      TopExists(sources, rest);
      var d :| IsTop(sources, rest, d);
      var top := if Below(sources, d, c) then c else d;
      forall e | e in queue ensures !Below(sources, top, e) {
        assert e == c || !Below(sources, d, e);
      }
      assert IsTop(sources, queue, top);
    }
  }

  /** The queue without its top, or with the top's iterator moved on. */
  function Requeue(sources: seq<seq<Entry>>, queue: set<Cursor>, c: Cursor): set<Cursor>
    requires InRange(sources, c)
  {
    queue - {c} + if c.pos + 1 < |sources[c.src]| then {Cursor(c.src, c.pos + 1)} else {}
  }

  lemma RequeueKeeps(sources: seq<seq<Entry>>, heads: seq<nat>, queue: set<Cursor>, c: Cursor)
    requires QueueInv(sources, heads, queue) && c in queue
    ensures QueueInv(sources, heads[c.src := c.pos + 1], Requeue(sources, queue, c))
  {
  }

  /** The merge loop: pop the top, keep its entry unless the key was just written, advance its iterator. */
  method Merge(sources: seq<seq<Entry>>) returns (entries: seq<Entry>)
    requires ValidSources(sources)
    ensures entries == Merged(sources)
  {
    var queue := set s | 0 <= s < |sources| :: Cursor(s, 0);
    entries := [];
    ghost var heads: seq<nat> := seq(|sources|, _ => 0);
    LeftNonNegative(sources, heads);
    while queue != {}
      invariant QueueInv(sources, heads, queue)
      invariant OutputInv(sources, heads, entries)
      invariant Left(sources, heads) >= 0
      decreases Left(sources, heads)
    {
      TopExists(sources, queue);
      var data :| IsTop(sources, queue, data);
      MergeStep(sources, heads, queue, entries, data);
      LeftDrops(sources, heads, data.src);
      RequeueKeeps(sources, heads, queue, data);
      entries := Push(entries, sources[data.src][data.pos]);
      queue := Requeue(sources, queue, data);
      heads := heads[data.src := data.pos + 1];
      LeftNonNegative(sources, heads);
    }
    MergeDone(sources, heads, entries);
  }
}
