/** The manifest object: searching levels, inserting an SST by copy-on-write, and compaction in place. */
module ManifestObject {
  import opened Keys
  import opened Entries
  import opened HeapMerge
  import opened Levels
  import opened Compaction
  import opened Cascade

  lemma {:induction false} InOrderAppend(level: Level, s: Sst)
    ensures InOrder(level + [s]) == InOrder(level) + [s.entries]
  {
    if level == [] {
      assert (level + [s])[1..] == [];
    } else {
      assert (level + [s])[1..] == level[1..] + [s];
      InOrderAppend(level[1..], s);
    }
  }

  /** One level, searched as its number demands. */
  method LevelGet(level: Level, number: nat, key: Key) returns (value: Option<Value>)
    ensures value == if number == 0 then ScanGet(level, key) else ProbeGet(level, key)
  {
    hide Contents, Less, Lookup;
    if number == 0 {
      var i := |level|;
      assert level[..i] == level;
      while i > 0
        invariant 0 <= i <= |level|
        invariant ScanGet(level, key) == ScanGet(level[..i], key)
      {
        i := i - 1;
        assert level[..i + 1][..i] == level[..i];
        value := Lookup(Contents(level[i].entries), key);
        if value.Some? {
          return;
        }
      }
    } else {
      ghost var place := Probe(level, key, 0, |level|);
      var l, r := 0, |level|;
      while l < r
        invariant 0 <= l <= r <= |level|
        invariant Probe(level, key, l, r) == place
        decreases r - l
      {
        var mid := (l + r) / 2;
        if Less(key, MinKey(level[mid])) {
          r := mid;
        } else {
          l := mid + 1;
        }
      }
      if l > 0 {
        return Lookup(Contents(level[l - 1].entries), key);
      }
    }
    value := None;
  }

  method BinarySize(level: Level) returns (size: nat)
    ensures size == LevelSize(level) == BytesIn(level)
  {
    LevelSizeIs(level);
    size := 0;
    for i := 0 to |level|
      invariant size == LevelSize(level[..i])
    {
      assert level[..i + 1][..i] == level[..i];
      size := size + level[i].fileSize;
    }
    assert level[..|level|] == level;
  }

  lemma ScanStep(cur: Level, i: nat)
    requires i < |cur|
    ensures NewestFirst(cur[..i + 1]) == [cur[i].entries] + NewestFirst(cur[..i])
    ensures var m := ScanMin(cur[i + 1..]);
            ScanMin(cur[i..]) == if m == [] || Less(MinKey(cur[i]), m) then MinKey(cur[i]) else m
    ensures var m := ScanMax(cur[i + 1..]);
            ScanMax(cur[i..]) == if m == [] || Less(m, MaxKey(cur[i])) then MaxKey(cur[i]) else m
  {
    assert cur[..i + 1][..i] == cur[..i];
    assert cur[i..][1..] == cur[i + 1..];
  }

  /** The SSTs of the compacted level, newest first, with the range of their keys. */
  method CollectLevel(cur: Level) returns (sources: seq<seq<Entry>>, minKey: Key, maxKey: Key)
    ensures sources == NewestFirst(cur) && minKey == ScanMin(cur) && maxKey == ScanMax(cur)
  {
    sources, minKey, maxKey := [], [], [];
    var i := |cur|;
    assert cur[..i] == cur;
    while i > 0
      invariant 0 <= i <= |cur|
      invariant NewestFirst(cur) == sources + NewestFirst(cur[..i])
      invariant minKey == ScanMin(cur[i..]) && maxKey == ScanMax(cur[i..])
    {
      i := i - 1;
      ScanStep(cur, i);
      sources := sources + [cur[i].entries];
      if minKey == [] || Less(MinKey(cur[i]), minKey) {
        minKey := MinKey(cur[i]);
      }
      if maxKey == [] || Less(maxKey, MaxKey(cur[i])) {
        maxKey := MaxKey(cur[i]);
      }
    }
    assert cur[0..] == cur;
  }

  /** What the two comparisons of the collecting loop decide at position i. */
  lemma NextStep(next: Level, minKey: Key, maxKey: Key, i: nat)
    requires ValidLevel(next) && Disjoint(next) && i < |next|
    ensures var a := EndingBelow(next, minKey);
            var b := StartingAbove(next, maxKey, a);
            && (Less(MaxKey(next[i]), minKey) <==> i < a)
            && (a <= i ==> (Less(maxKey, MinKey(next[i])) <==> b <= i))
            && (a <= i ==> InOrder(next[a..i + 1]) == InOrder(next[a..i]) + [next[i].entries])
  {
    hide EndingBelow, StartingAbove, InOrder, Disjoint, ValidLevel, Less;
    var a := EndingBelow(next, minKey);
    EndingBelowSplits(next, minKey);
    StartingAboveSplits(next, maxKey, a);
    if a <= i {
      assert next[a..i + 1] == next[a..i] + [next[i]];
      InOrderAppend(next[a..i], next[i]);
    }
  }

  /** The overlapping SSTs of the next level; those up to insertL stay left of them, those from insertR right. */
  method CollectNext(next: Level, minKey: Key, maxKey: Key)
    returns (sources: seq<seq<Entry>>, insertL: int, insertR: nat)
    requires ValidLevel(next) && Disjoint(next)
    ensures insertL + 1 == EndingBelow(next, minKey)
    ensures insertR == StartingAbove(next, maxKey, EndingBelow(next, minKey))
    ensures sources == InOrder(next[insertL + 1..insertR])
  {
    hide EndingBelow, StartingAbove, Disjoint, ValidLevel, Less;
    ghost var a: int := EndingBelow(next, minKey);
    ghost var b: int := StartingAbove(next, maxKey, a);
    sources, insertL, insertR := [], -1, |next|;
    var i := 0;
    while i < |next|
      invariant 0 <= i <= b
      invariant i <= a ==> insertL == i - 1 && sources == []
      invariant i > a ==> insertL == a - 1 && sources == InOrder(next[a..i])
      invariant insertR == |next|
    {
      NextStep(next, minKey, maxKey, i);
      if Less(MaxKey(next[i]), minKey) {
        insertL := i;
      } else if Less(maxKey, MinKey(next[i])) {
        insertR := i;
        break;
      } else {
        sources := sources + [next[i].entries];
      }
      i := i + 1;
    }
    assert insertR == b;
  }

  /** The next level with the merged SST between its untouched neighbours. */
  method Splice(next: Level, insertL: int, merged: Sst, insertR: nat) returns (ssts: Level)
    requires -1 <= insertL < insertR <= |next|
    ensures ssts == next[..insertL + 1] + [merged] + next[insertR..]
  {
    ssts := [];
    for i := 0 to insertL + 1
      invariant ssts == next[..i]
    {
      ssts := ssts + [next[i]];
    }
    ssts := ssts + [merged];
    for i := insertR to |next|
      invariant ssts == next[..insertL + 1] + [merged] + next[insertR..i]
    {
      ssts := ssts + [next[i]];
    }
    assert next[insertR..|next|] == next[insertR..];
  }

  class Manifest {
    var version: nat
    var levels: seq<Level>
    var maxSstId: nat

    ghost predicate Valid()
      reads this
    {
      ValidLevels(levels)
    }

    /** No manifest file: version 1 with an empty level 0. */
    constructor Fresh()
      ensures Valid() && version == 1 && levels == [[]] && maxSstId == 0
    {
      version, levels, maxSstId := 1, [[]], 0;
    }

    /** A manifest file: what was parsed from it, and the largest number met. */
    constructor Load(version: nat, levels: seq<Level>, maxSstId: nat)
      ensures this.version == version && this.levels == levels && this.maxSstId == maxSstId
    {
      this.version, this.levels, this.maxSstId := version, levels, maxSstId;
    }

    /** The copy of copy-on-write shares the SSTs but not the largest number. */
    constructor Copy(m: Manifest)
      ensures version == m.version + 1 && levels == m.levels && maxSstId == 0
    {
      version, levels, maxSstId := m.version + 1, m.levels, 0;
    }

    method Get(key: Key) returns (value: Option<Value>)
      requires Valid()
      ensures value == GetFrom(levels, 0, key)
      ensures value == Lookup(AllMap(levels), key)
    {
      GetFinds(levels, key);
      for i := 0 to |levels|
        invariant GetFrom(levels, 0, key) == GetFrom(levels, i, key)
      {
        value := LevelGet(levels[i], i, key);
        if value.Some? {
          return;
        }
      }
      value := None;
    }

    /** A new manifest with one more SST in level 0; this one keeps its levels. */
    method InsertAndUpdate(s: Sst) returns (res: Manifest)
      requires Valid() && ValidSst(s)
      modifies this`maxSstId
      ensures maxSstId == if s.id > old(maxSstId) then s.id else old(maxSstId)
      ensures fresh(res) && res.Valid() && res.version == version + 1
      ensures res.levels == InsertSst(levels, s)
    {
      if s.id > maxSstId {
        maxSstId := s.id;
      }
      res := new Manifest.Copy(this);
      InsertSstMap(levels, s);
      res.levels := InsertSst(res.levels, s);
    }

    /** Merges one level into the next one. */
    method CompactLevel(level: nat, id: nat, size: seq<Entry> -> nat)
      requires Valid() && level < |levels| && levels[level] != []
      modifies this`levels, this`maxSstId
      ensures levels == Compact(old(levels), level, id, size)
      ensures maxSstId == if id > old(maxSstId) then id else old(maxSstId)
      ensures AllMap(levels) == AllMap(old(levels))
      ensures Valid() <==> CanSplice(old(levels)[level], Extended(old(levels), level)[level + 1])
    {
      var curSources, minKey, maxKey := CollectLevel(levels[level]);
      ExtendedValid(levels, level);
      if level + 1 == |levels| {
        levels := levels + [[]];
      }
      var cur, next := levels[level], levels[level + 1];
      var nextSources, insertL, insertR := CollectNext(next, minKey, maxKey);
      SplitValid(cur, next);
      NewestFirstMap(cur);
      InOrderSources(next[insertL + 1..insertR]);
      var entries := Merge(curSources + nextSources);
      var merged := Build(entries, id, size);
      if id > maxSstId {
        maxSstId := id;
      }
      var ssts := Splice(next, insertL, merged, insertR);
      levels := levels[level := []][level + 1 := ssts];
      CompactKeepsMap(old(levels), level, id, size);
    }

    /** Compacts level after level until one is within its budget. */
    method CompactFrom0(id: nat, size: seq<Entry> -> nat)
      requires Valid() && SentinelSafe(levels[0])
      modifies this`levels, this`maxSstId
      ensures levels == Run(old(levels), 0, id, size)
      ensures Valid() && AllMap(levels) == AllMap(old(levels))
    {
      hide Compact, AllMap, Disjoint, ValidLevel;
      RunKeepsMap(levels, 0, id, size);
      var i := 0;
      while i < |levels| && i < MAX_LEVEL_SIZE
        invariant 0 <= i <= MAX_LEVEL_SIZE
        invariant Valid() && (i == 0 ==> SentinelSafe(levels[0]))
        invariant Run(levels, i, id, size) == Run(old(levels), 0, id, size)
        decreases MAX_LEVEL_SIZE - i
      {
        var bytes := BinarySize(levels[i]);
        if bytes > Threshold(i) {
          if i > 0 {
            DisjointSentinelSafe(levels[i]);
          }
          CompactLevel(i, id, size);
        } else {
          break;
        }
        i := i + 1;
      }
    }

    method CanDoCompaction() returns (can: bool)
      requires Valid()
      ensures can == OverBudget(levels, 0) == (BytesIn(levels[0]) > 1024)
    {
      var bytes := BinarySize(levels[0]);
      can := bytes > Threshold(0);
    }
  }
}
