/** Levels of SSTs as values: what they denote, how they are searched, and one compaction. */
module Levels {
  import opened Keys
  import opened Entries
  import opened HeapMerge

  /** An SST is immutable: its number, its sorted entries and the size of its file. */
  datatype Sst = Sst(id: nat, entries: seq<Entry>, fileSize: nat)

  type Level = seq<Sst>

  ghost predicate ValidSst(s: Sst) {
    s.entries != [] && Sorted(s.entries)
  }

  ghost predicate ValidLevel(level: Level) {
    forall i :: 0 <= i < |level| ==> ValidSst(level[i])
  }

  function MinKey(s: Sst): Key {
    if s.entries == [] then [] else s.entries[0].key
  }

  function MaxKey(s: Sst): Key {
    if s.entries == [] then [] else s.entries[|s.entries| - 1].key
  }

  /** The key ranges are disjoint and ascending. */
  ghost predicate Disjoint(level: Level) {
    forall i, j :: 0 <= i < j < |level| ==> Less(MaxKey(level[i]), MinKey(level[j]))
  }

  /** Level 0 may overlap; every further level is disjoint. */
  ghost predicate ValidLevels(levels: seq<Level>) {
    && levels != []
    && (forall i :: 0 <= i < |levels| ==> ValidLevel(levels[i]))
    && (forall i :: 1 <= i < |levels| ==> Disjoint(levels[i]))
  }

  /** Later SSTs of a level are newer. */
  ghost function LevelMap(level: Level): map<Key, Value> {
    if level == [] then map[]
    else LevelMap(level[..|level| - 1]) + Contents(level[|level| - 1].entries)
  }

  /** Lower levels are newer. */
  ghost function AllMap(levels: seq<Level>): map<Key, Value> {
    if levels == [] then map[] else AllMap(levels[1..]) + LevelMap(levels[0])
  }

  lemma AddAssociative(a: map<Key, Value>, b: map<Key, Value>, c: map<Key, Value>)
    ensures (a + b) + c == a + (b + c)
  {
  }

  lemma {:induction false} LevelMapConcat(a: Level, b: Level)
    ensures LevelMap(a + b) == LevelMap(a) + LevelMap(b)
  {
    if b == [] {
      assert a + b == a;
    } else {
      var init, last := b[..|b| - 1], b[|b| - 1];
      LevelMapConcat(a, init);
      assert (a + b)[..|a + b| - 1] == a + init;
      AddAssociative(LevelMap(a), LevelMap(init), Contents(last.entries));
    }
  }

  lemma {:induction false} LevelKeys(level: Level, k: Key)
    ensures k in LevelMap(level) <==> exists i :: 0 <= i < |level| && k in Contents(level[i].entries)
  {
    if level != [] {
      var n := |level| - 1;
      LevelKeys(level[..n], k);
      if i :| 0 <= i < |level| && k in Contents(level[i].entries) {
        assert i < n ==> level[..n][i] == level[i];
      }
      if i :| 0 <= i < n && k in Contents(level[..n][i].entries) {
        assert level[..n][i] == level[i];
      }
    }
  }

  /** Every key of an SST lies between its first and its last key. */
  lemma KeyWithinSst(s: Sst, k: Key)
    requires ValidSst(s) && k in Contents(s.entries)
    ensures !Less(k, MinKey(s)) && !Less(MaxKey(s), k)
  {
    Order();
    KeyInContents(s.entries, k);
  }

  lemma MinBelowMax(s: Sst)
    requires ValidSst(s)
    ensures !Less(MaxKey(s), MinKey(s))
    ensures MinKey(s) in Contents(s.entries) && MaxKey(s) in Contents(s.entries)
  {
    Order();
    ContentsAt(s.entries, 0);
    ContentsAt(s.entries, |s.entries| - 1);
  }

  // ---------- searching ----------

  /** Level 0 is searched from its newest SST. */
  function ScanGet(level: Level, k: Key): Option<Value> {
    if level == [] then None
    else
      var found := Lookup(Contents(level[|level| - 1].entries), k);
      if found.Some? then found else ScanGet(level[..|level| - 1], k)
  }

  /** The binary search over first keys. */
  function Probe(level: Level, k: Key, l: nat, r: nat): (p: nat)
    requires l <= r <= |level|
    ensures l <= p <= r
    decreases r - l
  {
    if l == r then l
    else
      var mid := (l + r) / 2;
      if Less(k, MinKey(level[mid])) then Probe(level, k, l, mid) else Probe(level, k, mid + 1, r)
  }

  /** Every other level is searched in one SST only. */
  function ProbeGet(level: Level, k: Key): Option<Value> {
    var p := Probe(level, k, 0, |level|);
    if p > 0 then Lookup(Contents(level[p - 1].entries), k) else None
  }

  function GetFrom(levels: seq<Level>, i: nat, k: Key): Option<Value>
    requires i <= |levels|
    decreases |levels| - i
  {
    if i == |levels| then None
    else
      var found := if i == 0 then ScanGet(levels[i], k) else ProbeGet(levels[i], k);
      if found.Some? then found else GetFrom(levels, i + 1, k)
  }

  lemma {:induction false} ScanGetFinds(level: Level, k: Key)
    ensures ScanGet(level, k) == Lookup(LevelMap(level), k)
  {
    if level != [] {
      ScanGetFinds(level[..|level| - 1], k);
    }
  }

  lemma MinsAscend(level: Level)
    requires ValidLevel(level) && Disjoint(level)
    ensures forall i, j :: 0 <= i < j < |level| ==> Less(MinKey(level[i]), MinKey(level[j]))
  {
    Order();
    forall i, j | 0 <= i < j < |level| ensures Less(MinKey(level[i]), MinKey(level[j])) {
      MinBelowMax(level[i]);
    }
  }

  /** On a disjoint level the search stops right after the last SST that starts at or below k. */
  lemma {:induction false} ProbeSplits(level: Level, k: Key, l: nat, r: nat)
    requires ValidLevel(level) && Disjoint(level)
    requires l <= r <= |level|
    requires forall i :: 0 <= i < l ==> !Less(k, MinKey(level[i]))
    requires forall i :: r <= i < |level| ==> Less(k, MinKey(level[i]))
    ensures forall i :: 0 <= i < Probe(level, k, l, r) ==> !Less(k, MinKey(level[i]))
    ensures forall i :: Probe(level, k, l, r) <= i < |level| ==> Less(k, MinKey(level[i]))
    decreases r - l
  {
    if l < r {
      var mid := (l + r) / 2;
      MinsAscend(level);
      Order();
      if Less(k, MinKey(level[mid])) {
        ProbeSplits(level, k, l, mid);
      } else {
        ProbeSplits(level, k, mid + 1, r);
      }
    }
  }

  /** In a disjoint level a key of one SST lies below every later SST. */
  lemma KeyOnlyOnce(level: Level, i: nat, j: nat, k: Key)
    requires ValidLevel(level) && Disjoint(level) && i < j < |level| && k in Contents(level[i].entries)
    ensures Less(k, MinKey(level[j])) && k !in Contents(level[j].entries)
  {
    Order();
    KeyWithinSst(level[i], k);
    assert Less(MaxKey(level[i]), MinKey(level[j]));
    if k in Contents(level[j].entries) {
      KeyWithinSst(level[j], k);
    }
  }

  lemma {:induction false} DisjointLookup(level: Level, i: nat, k: Key)
    requires ValidLevel(level) && Disjoint(level) && i < |level| && k in Contents(level[i].entries)
    ensures k in LevelMap(level) && LevelMap(level)[k] == Contents(level[i].entries)[k]
  {
    var n := |level| - 1;
    if i < n {
      DisjointLookup(level[..n], i, k);
      KeyOnlyOnce(level, i, n, k);
    }
  }

  /** The one-probe search of a disjoint level equals looking into every SST of it. */
  lemma ProbeGetFinds(level: Level, k: Key)
    requires ValidLevel(level) && Disjoint(level)
    ensures ProbeGet(level, k) == Lookup(LevelMap(level), k)
  {
    ProbeSplits(level, k, 0, |level|);
    var p := Probe(level, k, 0, |level|);
    LevelKeys(level, k);
    if i :| 0 <= i < |level| && k in Contents(level[i].entries) {
      KeyWithinSst(level[i], k);
      DisjointLookup(level, i, k);
      if i + 1 < |level| {
        KeyOnlyOnce(level, i, i + 1, k);
      }
      assert p == i + 1;
    }
  }

  /** Searching level by level answers with the overlay of all levels. */
  lemma {:induction false} GetFromFinds(levels: seq<Level>, i: nat, k: Key)
    requires ValidLevels(levels) && i <= |levels|
    ensures GetFrom(levels, i, k) == Lookup(AllMap(levels[i..]), k)
    decreases |levels| - i
  {
    if i < |levels| {
      GetFromFinds(levels, i + 1, k);
      assert levels[i..][1..] == levels[i + 1..];
      if i == 0 {
        ScanGetFinds(levels[i], k);
      } else {
        ProbeGetFinds(levels[i], k);
      }
    }
  }

  lemma GetFinds(levels: seq<Level>, k: Key)
    requires ValidLevels(levels)
    ensures GetFrom(levels, 0, k) == Lookup(AllMap(levels), k)
  {
    GetFromFinds(levels, 0, k);
    assert levels[0..] == levels;
  }

  // ---------- the key range of a level, scanned from its newest SST ----------

  /** The running minimum, with the empty key meaning "unset". */
  function ScanMin(level: Level): Key {
    if level == [] then []
    else
      var m := ScanMin(level[1..]);
      if m == [] || Less(MinKey(level[0]), m) then MinKey(level[0]) else m
  }

  function ScanMax(level: Level): Key {
    if level == [] then []
    else
      var m := ScanMax(level[1..]);
      if m == [] || Less(m, MaxKey(level[0])) then MaxKey(level[0]) else m
  }

  ghost predicate LowerBound(level: Level, m: Key) {
    forall i :: 0 <= i < |level| ==> !Less(MinKey(level[i]), m)
  }

  ghost predicate UpperBound(level: Level, m: Key) {
    forall i :: 0 <= i < |level| ==> !Less(m, MaxKey(level[i]))
  }

  /** The sentinel does no harm: no SST starts with the empty key, or the oldest one does. */
  predicate SentinelSafe(level: Level) {
    level == [] || MinKey(level[0]) == [] || forall i :: 0 <= i < |level| ==> MinKey(level[i]) != []
  }

  lemma EmptyIsLeast(k: Key)
    ensures !Less(k, []) && (k != [] ==> Less([], k))
  {
  }

  lemma {:induction false} ScanMaxExact(level: Level)
    ensures UpperBound(level, ScanMax(level))
    ensures level != [] ==> exists i :: 0 <= i < |level| && ScanMax(level) == MaxKey(level[i])
  {
    if level != [] {
      Order();
      var rest := level[1..];
      ScanMaxExact(rest);
      EmptyIsLeast(MaxKey(level[0]));
      forall i | 0 <= i < |level| ensures !Less(ScanMax(level), MaxKey(level[i])) {
        if i > 0 {
          assert level[i] == rest[i - 1];
          EmptyIsLeast(MaxKey(level[i]));
        }
      }
      if ScanMax(level) != MaxKey(level[0]) {
        var i :| 0 <= i < |rest| && ScanMax(rest) == MaxKey(rest[i]);
        assert level[i + 1] == rest[i];
      } else {
        assert ScanMax(level) == MaxKey(level[0]);
      }
    }
  }

  lemma {:induction false} ScanMinIsAMin(level: Level)
    requires level != []
    ensures exists i :: 0 <= i < |level| && ScanMin(level) == MinKey(level[i])
  {
    var rest := level[1..];
    assert rest == [] ==> ScanMin(rest) == [];
    if ScanMin(level) != MinKey(level[0]) {
      ScanMinIsAMin(rest);
      var i :| 0 <= i < |rest| && ScanMin(rest) == MinKey(rest[i]);
      assert level[i + 1] == rest[i];
    } else {
      assert ScanMin(level) == MinKey(level[0]);
    }
  }

  lemma {:induction false} ScanMinWithoutEmpty(level: Level)
    requires forall i :: 0 <= i < |level| ==> MinKey(level[i]) != []
    ensures LowerBound(level, ScanMin(level))
  {
    if level != [] {
      Order();
      var rest := level[1..];
      assert forall i :: 0 <= i < |rest| ==> rest[i] == level[i + 1];
      ScanMinWithoutEmpty(rest);
      if rest != [] {
        ScanMinIsAMin(rest);
      }
      forall i | 0 <= i < |level| ensures !Less(MinKey(level[i]), ScanMin(level)) {
        if i > 0 {
          assert level[i] == rest[i - 1];
        }
      }
    }
  }

  /** The scanned minimum is the minimum exactly when the sentinel is safe. */
  lemma ScanMinExact(level: Level)
    ensures LowerBound(level, ScanMin(level)) <==> SentinelSafe(level)
  {
    if level != [] {
      Order();
      if MinKey(level[0]) == [] {
        EmptyIsLeast(ScanMin(level[1..]));
        assert ScanMin(level) == [];
        forall i | 0 <= i < |level| ensures !Less(MinKey(level[i]), ScanMin(level)) {
          EmptyIsLeast(MinKey(level[i]));
        }
      } else if SentinelSafe(level) {
        ScanMinWithoutEmpty(level);
      } else {
        var i :| 0 <= i < |level| && MinKey(level[i]) == [];
        assert ScanMin(level) != [];
        EmptyIsLeast(ScanMin(level));
        assert Less(MinKey(level[i]), ScanMin(level));
      }
    }
  }
}
