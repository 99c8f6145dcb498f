/** One size-tiered compaction and the cascade, as functions on levels, and why they change no answer. */
module Compaction {
  import opened Keys
  import opened Entries
  import opened HeapMerge
  import opened Levels

  function NewestFirst(level: Level): seq<seq<Entry>> {
    if level == [] then []
    else [level[|level| - 1].entries] + NewestFirst(level[..|level| - 1])
  }

  function InOrder(level: Level): seq<seq<Entry>> {
    if level == [] then [] else [level[0].entries] + InOrder(level[1..])
  }

  /** How many leading SSTs end below m: one more than insert_l. */
  function EndingBelow(level: Level, m: Key): (n: nat)
    ensures n <= |level|
  {
    if level == [] || !Less(MaxKey(level[0]), m) then 0 else 1 + EndingBelow(level[1..], m)
  }

  /** The first position from a on whose SST starts above m: insert_r. */
  function StartingAbove(level: Level, m: Key, a: nat): (b: nat)
    requires a <= |level|
    ensures a <= b <= |level|
    decreases |level| - a
  {
    if a == |level| || Less(m, MinKey(level[a])) then a else StartingAbove(level, m, a + 1)
  }

  /** The level after l gets created when l is the last one. */
  function Extended(levels: seq<Level>, l: nat): seq<Level>
    requires l < |levels|
  {
    if l + 1 == |levels| then levels + [[]] else levels
  }

  datatype Split = Split(left: Level, overlap: Level, right: Level)

  function SplitNext(cur: Level, next: Level): Split {
    var a := EndingBelow(next, ScanMin(cur));
    var b := StartingAbove(next, ScanMax(cur), a);
    Split(next[..a], next[a..b], next[b..])
  }

  function Sources(cur: Level, overlap: Level): seq<seq<Entry>> {
    NewestFirst(cur) + InOrder(overlap)
  }

  function Build(entries: seq<Entry>, id: nat, size: seq<Entry> -> nat): Sst {
    Sst(id, entries, size(entries))
  }

  /** The SST that the compacted level and the overlapping SSTs are merged into. */
  function MergedSst(cur: Level, next: Level, id: nat, size: seq<Entry> -> nat): Sst {
    Build(Merged(Sources(cur, SplitNext(cur, next).overlap)), id, size)
  }

  /** The level that replaces the next one. */
  function NewNext(cur: Level, next: Level, id: nat, size: seq<Entry> -> nat): Level {
    var s := SplitNext(cur, next);
    s.left + [MergedSst(cur, next, id, size)] + s.right
  }

  /** Compaction of level l into level l + 1; size gives the file size of a freshly built SST. */
  function Compact(levels: seq<Level>, l: nat, id: nat, size: seq<Entry> -> nat): seq<Level>
    requires l < |levels|
  {
    var ext := Extended(levels, l);
    ext[l := []][l + 1 := NewNext(ext[l], ext[l + 1], id, size)]
  }

  lemma {:induction false} MergedMapConcat(a: seq<seq<Entry>>, b: seq<seq<Entry>>)
    ensures MergedMap(a + b) == MergedMap(b) + MergedMap(a)
  {
    if a == [] {
      assert a + b == b;
    } else {
      MergedMapConcat(a[1..], b);
      assert (a + b)[1..] == a[1..] + b;
      AddAssociative(MergedMap(b), MergedMap(a[1..]), Contents(a[0]));
    }
  }

  lemma {:induction false} NewestFirstMap(level: Level)
    requires ValidLevel(level)
    ensures MergedMap(NewestFirst(level)) == LevelMap(level)
    ensures ValidSources(NewestFirst(level)) && |NewestFirst(level)| == |level|
  {
    if level != [] {
      NewestFirstMap(level[..|level| - 1]);
      assert NewestFirst(level)[1..] == NewestFirst(level[..|level| - 1]);
    }
  }

  lemma DisjointAddCommutes(a: map<Key, Value>, b: map<Key, Value>)
    requires a.Keys !! b.Keys
    ensures a + b == b + a
  {
  }

  lemma FirstApart(level: Level)
    requires ValidLevel(level) && Disjoint(level) && level != []
    ensures LevelMap(level[1..]).Keys !! Contents(level[0].entries).Keys
  {
    var rest := level[1..];
    forall k | k in LevelMap(rest) ensures k !in Contents(level[0].entries) {
      LevelKeys(rest, k);
      var i :| 0 <= i < |rest| && k in Contents(rest[i].entries);
      if k in Contents(level[0].entries) {
        KeyOnlyOnce(level, 0, i + 1, k);
      }
    }
  }

  lemma SingletonMap(s: Sst)
    ensures LevelMap([s]) == Contents(s.entries)
  {
    assert [s][..0] == [];
  }

  lemma {:induction false} InOrderMap(level: Level)
    requires ValidLevel(level) && Disjoint(level)
    ensures MergedMap(InOrder(level)) == LevelMap(level)
  {
    if level != [] {
      var first, rest := level[0], level[1..];
      InOrderMap(rest);
      assert InOrder(level)[1..] == InOrder(rest);
      FirstApart(level);
      DisjointAddCommutes(LevelMap(rest), Contents(first.entries));
      SingletonMap(first);
      LevelMapConcat([first], rest);
      assert [first] + rest == level;
    }
  }

  lemma {:induction false} InOrderSources(level: Level)
    requires ValidLevel(level)
    ensures ValidSources(InOrder(level))
  {
    if level != [] {
      InOrderSources(level[1..]);
    }
  }

  // ---------- where the merged SST goes ----------

  lemma {:induction false} EndingBelowSplits(level: Level, m: Key)
    requires ValidLevel(level) && Disjoint(level)
    ensures forall i :: 0 <= i < EndingBelow(level, m) ==> Less(MaxKey(level[i]), m)
    ensures forall i :: EndingBelow(level, m) <= i < |level| ==> !Less(MaxKey(level[i]), m)
  {
    if level != [] {
      var rest := level[1..];
      assert forall i :: 0 <= i < |rest| ==> rest[i] == level[i + 1];
      EndingBelowSplits(rest, m);
      Order();
      if Less(MaxKey(level[0]), m) {
        forall i | 0 <= i < |level| ensures i < EndingBelow(level, m) <==> Less(MaxKey(level[i]), m) {
          if i > 0 {
            assert level[i] == rest[i - 1];
          }
        }
      } else {
        forall i | 0 <= i < |level| ensures !Less(MaxKey(level[i]), m) {
          if i > 0 {
            MinBelowMax(level[i]);
            assert Less(MaxKey(level[0]), MinKey(level[i]));
          }
        }
      }
    }
  }

  lemma {:induction false} StartingAboveSplits(level: Level, m: Key, a: nat)
    requires ValidLevel(level) && Disjoint(level) && a <= |level|
    ensures forall i :: a <= i < StartingAbove(level, m, a) ==> !Less(m, MinKey(level[i]))
    ensures forall i :: StartingAbove(level, m, a) <= i < |level| ==> Less(m, MinKey(level[i]))
    decreases |level| - a
  {
    MinsAscend(level);
    Order();
    if a < |level| && !Less(m, MinKey(level[a])) {
      StartingAboveSplits(level, m, a + 1);
    }
  }

  /** No key of the compacted level lies above the scanned range, and none below it if the sentinel does no harm. */
  lemma KeysInRange(cur: Level, k: Key)
    requires ValidLevel(cur) && k in LevelMap(cur)
    ensures SentinelSafe(cur) ==> !Less(k, ScanMin(cur))
    ensures !Less(ScanMax(cur), k)
  {
    Order();
    LevelKeys(cur, k);
    var i :| 0 <= i < |cur| && k in Contents(cur[i].entries);
    KeyWithinSst(cur[i], k);
    ScanMinExact(cur);
    ScanMaxExact(cur);
    assert SentinelSafe(cur) ==> !Less(MinKey(cur[i]), ScanMin(cur));
    assert !Less(ScanMax(cur), MaxKey(cur[i]));
  }

  lemma PartsMap(s: Split)
    ensures LevelMap(s.left + s.overlap + s.right) == LevelMap(s.left) + LevelMap(s.overlap) + LevelMap(s.right)
  {
    LevelMapConcat(s.left + s.overlap, s.right);
    LevelMapConcat(s.left, s.overlap);
  }

  ghost predicate AllEndBelow(level: Level, m: Key) {
    forall i :: 0 <= i < |level| ==> Less(MaxKey(level[i]), m)
  }

  ghost predicate AllStartAbove(level: Level, m: Key) {
    forall i :: 0 <= i < |level| ==> Less(m, MinKey(level[i]))
  }

  lemma SlicesKeep(level: Level, a: nat, b: nat)
    requires ValidLevel(level) && Disjoint(level) && a <= b <= |level|
    ensures ValidLevel(level[a..b]) && Disjoint(level[a..b])
  {
    var part := level[a..b];
    forall i, j | 0 <= i < j < |part| ensures Less(MaxKey(part[i]), MinKey(part[j])) {
      assert part[i] == level[a + i] && part[j] == level[a + j];
    }
  }

  lemma SplitValid(cur: Level, next: Level)
    requires ValidLevel(next) && Disjoint(next)
    ensures var s := SplitNext(cur, next);
            && next == s.left + s.overlap + s.right
            && ValidLevel(s.left) && ValidLevel(s.overlap) && ValidLevel(s.right)
            && Disjoint(s.left) && Disjoint(s.overlap) && Disjoint(s.right)
  {
    hide EndingBelow, StartingAbove, Disjoint, ValidLevel;
    var a := EndingBelow(next, ScanMin(cur));
    var b := StartingAbove(next, ScanMax(cur), a);
    SlicesKeep(next, 0, a);
    SlicesKeep(next, a, b);
    SlicesKeep(next, b, |next|);
    assert next[0..a] == next[..a] && next[b..|next|] == next[b..];
  }

  /** The parts of the next level: all below the range, then the overlapping ones, then all above it. */
  lemma SplitSides(cur: Level, next: Level)
    requires ValidLevel(next) && Disjoint(next)
    ensures var s := SplitNext(cur, next); AllEndBelow(s.left, ScanMin(cur)) && AllStartAbove(s.right, ScanMax(cur))
  {
    EndingBelowSplits(next, ScanMin(cur));
    StartingAboveSplits(next, ScanMax(cur), EndingBelow(next, ScanMin(cur)));
  }

  /** Only the overlapping SSTs are merged: the others share no range with them or with the compacted level. */
  lemma OnlyOverlapTouched(cur: Level, next: Level, i: nat)
    requires ValidLevel(next) && Disjoint(next) && i < |SplitNext(cur, next).overlap|
    ensures var s := SplitNext(cur, next).overlap[i]; !Less(MaxKey(s), ScanMin(cur)) && !Less(ScanMax(cur), MinKey(s))
  {
    var a := EndingBelow(next, ScanMin(cur));
    EndingBelowSplits(next, ScanMin(cur));
    StartingAboveSplits(next, ScanMax(cur), a);
    assert SplitNext(cur, next).overlap[i] == next[a + i];
  }

  // ---------- one compaction changes no answer ----------

  lemma MergedSources(cur: Level, overlap: Level)
    requires ValidLevel(cur) && cur != [] && ValidLevel(overlap) && Disjoint(overlap)
    ensures var merged := Merged(Sources(cur, overlap));
            merged != [] && Sorted(merged) && Contents(merged) == LevelMap(overlap) + LevelMap(cur)
  {
    NewestFirstMap(cur);
    InOrderMap(overlap);
    InOrderSources(overlap);
    MergedMapConcat(NewestFirst(cur), InOrder(overlap));
    MergedCorrect(Sources(cur, overlap));
  }

  lemma RightApart(cur: Level, right: Level)
    requires ValidLevel(cur) && ValidLevel(right) && AllStartAbove(right, ScanMax(cur))
    ensures LevelMap(right).Keys !! LevelMap(cur).Keys
  {
    forall k | k in LevelMap(right) ensures k !in LevelMap(cur) {
      LevelKeys(right, k);
      var i :| 0 <= i < |right| && k in Contents(right[i].entries);
      KeyWithinSst(right[i], k);
      Order();
      if k in LevelMap(cur) {
        KeysInRange(cur, k);
      }
    }
  }

  lemma Regroup(l: map<Key, Value>, o: map<Key, Value>, r: map<Key, Value>, c: map<Key, Value>)
    requires r.Keys !! c.Keys
    ensures l + (o + c) + r == (l + o + r) + c
  {
  }

  /** The level that replaces the next one denotes the old one overlaid by the compacted level. */
  lemma NewNextMap(cur: Level, next: Level, id: nat, size: seq<Entry> -> nat)
    requires ValidLevel(cur) && cur != [] && ValidLevel(next) && Disjoint(next)
    ensures LevelMap(NewNext(cur, next, id, size)) == LevelMap(next) + LevelMap(cur)
  {
    var s := SplitNext(cur, next);
    SplitValid(cur, next);
    SplitSides(cur, next);
    PartsMap(s);
    MergedSources(cur, s.overlap);
    RightApart(cur, s.right);
    var merged := MergedSst(cur, next, id, size);
    SingletonMap(merged);
    PartsMap(Split(s.left, [merged], s.right));
    Regroup(LevelMap(s.left), LevelMap(s.overlap), LevelMap(s.right), LevelMap(cur));
  }

  /** The merged keys come from the compacted level or from the overlapping SSTs. */
  lemma MergedKeyOrigin(cur: Level, overlap: Level, k: Key)
    requires ValidLevel(cur) && cur != [] && ValidLevel(overlap) && Disjoint(overlap)
    requires k in Contents(Merged(Sources(cur, overlap)))
    ensures ((SentinelSafe(cur) ==> !Less(k, ScanMin(cur))) && !Less(ScanMax(cur), k))
         || exists i :: 0 <= i < |overlap| && k in Contents(overlap[i].entries)
  {
    MergedSources(cur, overlap);
    if k in LevelMap(cur) {
      KeysInRange(cur, k);
    } else {
      LevelKeys(overlap, k);
    }
  }

  lemma KeyBetween(level: Level, a: nat, b: nat, at: nat, k: Key)
    requires ValidLevel(level) && Disjoint(level) && a <= at < b <= |level| && k in Contents(level[at].entries)
    ensures AllEndBelow(level[..a], k) && AllStartAbove(level[b..], k)
  {
    Order();
    KeyWithinSst(level[at], k);
    forall j | 0 <= j < a ensures Less(MaxKey(level[..a][j]), k) {
      assert Less(MaxKey(level[j]), MinKey(level[at]));
    }
    forall j | 0 <= j < |level[b..]| ensures Less(k, MinKey(level[b..][j])) {
      KeyOnlyOnce(level, at, b + j, k);
    }
  }

  /** A key merged in from the overlap lies between the SSTs left of it and those right of it. */
  lemma OverlapBetween(cur: Level, next: Level, i: nat, k: Key)
    requires ValidLevel(next) && Disjoint(next)
    requires i < |SplitNext(cur, next).overlap| && k in Contents(SplitNext(cur, next).overlap[i].entries)
    ensures AllEndBelow(SplitNext(cur, next).left, k) && AllStartAbove(SplitNext(cur, next).right, k)
  {
    var a := EndingBelow(next, ScanMin(cur));
    var b := StartingAbove(next, ScanMax(cur), a);
    KeyBetween(next, a, b, a + i, k);
  }

  /** The scanned range starts no later than the compacted level does, or nothing of the next level lies before it. */
  predicate CanSplice(cur: Level, next: Level) {
    SentinelSafe(cur) || EndingBelow(next, ScanMin(cur)) == 0
  }

  /** The merged SST fits between its untouched neighbours. */
  lemma MergedFits(cur: Level, next: Level, k: Key)
    requires ValidLevel(cur) && cur != [] && CanSplice(cur, next) && ValidLevel(next) && Disjoint(next)
    requires k in Contents(Merged(Sources(cur, SplitNext(cur, next).overlap)))
    ensures AllEndBelow(SplitNext(cur, next).left, k) && AllStartAbove(SplitNext(cur, next).right, k)
  {
    var s := SplitNext(cur, next);
    SplitValid(cur, next);
    MergedKeyOrigin(cur, s.overlap, k);
    if i :| 0 <= i < |s.overlap| && k in Contents(s.overlap[i].entries) {
      OverlapBetween(cur, next, i, k);
    } else {
      SplitSides(cur, next);
      Order();
    }
  }

  lemma SpliceDisjoint(left: Level, m: Sst, right: Level)
    requires Disjoint(left) && Disjoint(right)
    requires AllEndBelow(left, MinKey(m)) && AllStartAbove(right, MaxKey(m))
    requires forall i, j :: 0 <= i < |left| && 0 <= j < |right| ==> Less(MaxKey(left[i]), MinKey(right[j]))
    ensures Disjoint(left + [m] + right)
  {
    var all := left + [m] + right;
    var n := |left|;
    forall i, j | 0 <= i < j < |all| ensures Less(MaxKey(all[i]), MinKey(all[j])) {
      assert j > n ==> all[j] == right[j - n - 1];
      assert i > n ==> all[i] == right[i - n - 1];
    }
  }

  lemma SidesApart(cur: Level, next: Level)
    requires Disjoint(next)
    ensures var s := SplitNext(cur, next);
            forall i, j :: 0 <= i < |s.left| && 0 <= j < |s.right| ==> Less(MaxKey(s.left[i]), MinKey(s.right[j]))
  {
    var s := SplitNext(cur, next);
    forall i, j | 0 <= i < |s.left| && 0 <= j < |s.right| ensures Less(MaxKey(s.left[i]), MinKey(s.right[j])) {
      assert s.left[i] == next[i] && s.right[j] == next[|s.left| + |s.overlap| + j];
    }
  }

  lemma NewNextDisjoint(cur: Level, next: Level, id: nat, size: seq<Entry> -> nat)
    requires ValidLevel(cur) && cur != [] && CanSplice(cur, next) && ValidLevel(next) && Disjoint(next)
    ensures Disjoint(NewNext(cur, next, id, size))
  {
    hide Less, SplitNext, Merged, Contents, Disjoint, AllEndBelow, AllStartAbove, Sorted, CanSplice;
    var s := SplitNext(cur, next);
    SplitValid(cur, next);
    MergedSources(cur, s.overlap);
    var merged := MergedSst(cur, next, id, size);
    MinBelowMax(merged);
    MergedFits(cur, next, MinKey(merged));
    MergedFits(cur, next, MaxKey(merged));
    SidesApart(cur, next);
    SpliceDisjoint(s.left, merged, s.right);
  }

  /** Unless the sentinel does no harm, the merged SST starts with the empty key. */
  lemma MergedStartsEmpty(cur: Level, next: Level, id: nat, size: seq<Entry> -> nat)
    requires ValidLevel(cur) && !SentinelSafe(cur) && ValidLevel(next) && Disjoint(next)
    ensures MinKey(MergedSst(cur, next, id, size)) == []
  {
    var i :| 0 <= i < |cur| && MinKey(cur[i]) == [];
    var merged := MergedSst(cur, next, id, size);
    SplitValid(cur, next);
    MergedSources(cur, SplitNext(cur, next).overlap);
    MinBelowMax(cur[i]);
    LevelKeys(cur, []);
    KeyWithinSst(merged, []);
    EmptyIsLeast(MinKey(merged));
  }

  /** Compaction keeps the next level sorted with disjoint key ranges exactly when the merged SST can be spliced in. */
  lemma NewNextExact(cur: Level, next: Level, id: nat, size: seq<Entry> -> nat)
    requires ValidLevel(cur) && cur != [] && ValidLevel(next) && Disjoint(next)
    ensures ValidLevel(NewNext(cur, next, id, size))
    ensures Disjoint(NewNext(cur, next, id, size)) <==> CanSplice(cur, next)
  {
    var s, all := SplitNext(cur, next), NewNext(cur, next, id, size);
    SplitValid(cur, next);
    MergedSources(cur, s.overlap);
    if CanSplice(cur, next) {
      NewNextDisjoint(cur, next, id, size);
    } else {
      MergedStartsEmpty(cur, next, id, size);
      EmptyIsLeast(MaxKey(all[0]));
      assert all[|s.left|] == MergedSst(cur, next, id, size) && |s.left| > 0;
    }
  }

  lemma {:induction false} AllMapReplace(before: seq<Level>, after: seq<Level>, l: nat)
    requires l + 1 < |before| == |after|
    requires forall i :: 0 <= i < |before| && i != l && i != l + 1 ==> before[i] == after[i]
    requires LevelMap(after[l + 1]) + LevelMap(after[l]) == LevelMap(before[l + 1]) + LevelMap(before[l])
    ensures AllMap(after) == AllMap(before)
  {
    if l > 0 {
      assert forall i :: 0 <= i < |before| - 1 ==> before[1..][i] == before[i + 1] && after[1..][i] == after[i + 1];
      AllMapReplace(before[1..], after[1..], l - 1);
    } else {
      assert before[1..][1..] == before[2..] == after[2..] == after[1..][1..];
      AddAssociative(AllMap(before[2..]), LevelMap(before[1]), LevelMap(before[0]));
      AddAssociative(AllMap(after[2..]), LevelMap(after[1]), LevelMap(after[0]));
    }
  }

  lemma {:induction false} ExtendedMap(levels: seq<Level>)
    ensures AllMap(levels + [[]]) == AllMap(levels)
  {
    if levels == [] {
      assert (levels + [[]])[1..] == [];
    } else {
      assert (levels + [[]])[1..] == levels[1..] + [[]];
      ExtendedMap(levels[1..]);
    }
  }

  lemma ExtendedValid(levels: seq<Level>, l: nat)
    requires ValidLevels(levels) && l < |levels|
    ensures ValidLevels(Extended(levels, l)) && l + 1 < |Extended(levels, l)|
    ensures AllMap(Extended(levels, l)) == AllMap(levels)
    ensures Extended(levels, l)[l] == levels[l]
  {
    ExtendedMap(levels);
  }

  lemma ReplaceTwo(ext: seq<Level>, l: nat, next: Level)
    requires ValidLevels(ext) && l + 1 < |ext|
    requires ValidLevel(next) && LevelMap(next) == LevelMap(ext[l + 1]) + LevelMap(ext[l])
    ensures ValidLevels(ext[l := []][l + 1 := next]) <==> Disjoint(next)
    ensures AllMap(ext[l := []][l + 1 := next]) == AllMap(ext)
  {
    var after := ext[l := []][l + 1 := next];
    if Disjoint(next) {
      forall i | 1 <= i < |after| ensures Disjoint(after[i]) {}
    } else {
      assert !Disjoint(after[l + 1]);
    }
    assert LevelMap(after[l + 1]) + LevelMap(after[l]) == LevelMap(next);
    AllMapReplace(ext, after, l);
  }

  /** One compaction keeps the map the levels denote, and their shape exactly when the merged SST can be spliced in. */
  lemma CompactKeepsMap(levels: seq<Level>, l: nat, id: nat, size: seq<Entry> -> nat)
    requires ValidLevels(levels) && l < |levels| && levels[l] != []
    ensures ValidLevels(Compact(levels, l, id, size)) <==> CanSplice(levels[l], Extended(levels, l)[l + 1])
    ensures AllMap(Compact(levels, l, id, size)) == AllMap(levels)
  {
    var ext := Extended(levels, l);
    ExtendedValid(levels, l);
    var next := NewNext(ext[l], ext[l + 1], id, size);
    NewNextMap(ext[l], ext[l + 1], id, size);
    NewNextExact(ext[l], ext[l + 1], id, size);
    ReplaceTwo(ext, l, next);
  }

  /** One compaction changes no answer. */
  lemma CompactKeepsAnswers(levels: seq<Level>, l: nat, id: nat, size: seq<Entry> -> nat, k: Key)
    requires ValidLevels(levels) && l < |levels| && levels[l] != [] && CanSplice(levels[l], Extended(levels, l)[l + 1])
    ensures GetFrom(Compact(levels, l, id, size), 0, k) == GetFrom(levels, 0, k)
  {
    CompactKeepsMap(levels, l, id, size);
    GetFinds(levels, k);
    GetFinds(Compact(levels, l, id, size), k);
  }

  lemma NotInRest(next: Level, a: nat, k: Key)
    requires ValidLevel(next) && Disjoint(next) && 0 < a <= |next| && k in Contents(next[a - 1].entries)
    ensures forall j :: a <= j < |next| ==> Less(k, MinKey(next[j])) && k !in Contents(next[j].entries)
  {
    forall j | a <= j < |next| ensures Less(k, MinKey(next[j])) && k !in Contents(next[j].entries) {
      KeyOnlyOnce(next, a - 1, j, k);
    }
  }

  lemma NotBefore(next: Level, a: nat, k: Key, j: nat)
    requires ValidLevel(next) && Disjoint(next) && j < a <= |next| && k in Contents(next[a - 1].entries)
    ensures !Less(k, MinKey(next[j]))
  {
    KeyWithinSst(next[a - 1], k);
    MinsAscend(next);
    Order();
  }

  lemma SplicedAt(next: Level, a: nat, b: nat, m: Sst, i: nat)
    requires a <= b <= |next| && i < a + 1 + |next| - b
    ensures (next[..a] + [m] + next[b..])[i] == if i < a then next[i] else if i == a then m else next[b + i - a - 1]
  {
  }

  /** What stands where in the level that replaces the next one. */
  lemma NewNextAt(cur: Level, next: Level, id: nat, size: seq<Entry> -> nat, i: nat)
    requires i < |NewNext(cur, next, id, size)|
    ensures var at, a := NewNext(cur, next, id, size)[i], EndingBelow(next, ScanMin(cur));
            var b := StartingAbove(next, ScanMax(cur), a);
            && (i < a ==> at == next[i])
            && (i == a ==> at == MergedSst(cur, next, id, size))
            && (i > a ==> b + i - a - 1 < |next| && at == next[b + i - a - 1])
  {
    hide Less, EndingBelow, StartingAbove, ScanMin, ScanMax, MergedSst;
    var a := EndingBelow(next, ScanMin(cur));
    SplicedAt(next, a, StartingAbove(next, ScanMax(cur), a), MergedSst(cur, next, id, size), i);
  }

  lemma MisplacedOrder(cur: Level, next: Level, id: nat, size: seq<Entry> -> nat, k: Key, i: nat)
    requires ValidLevel(cur) && cur != [] && ValidLevel(next) && Disjoint(next) && !CanSplice(cur, next)
    requires k in Contents(next[EndingBelow(next, ScanMin(cur)) - 1].entries) && i < |NewNext(cur, next, id, size)|
    ensures Less(k, MinKey(NewNext(cur, next, id, size)[i])) <==> i > EndingBelow(next, ScanMin(cur))
  {
    var a: int := EndingBelow(next, ScanMin(cur));
    assert a > 0 && !SentinelSafe(cur);
    NewNextAt(cur, next, id, size, i);
    NotInRest(next, a, k);
    MergedStartsEmpty(cur, next, id, size);
    EmptyIsLeast(k);
    hide NewNext, Less, EndingBelow, StartingAbove, MergedSst, Disjoint, ValidLevel, Contents, MinKey, CanSplice;
    forall j | 0 <= j < a ensures !Less(k, MinKey(next[j])) {
      NotBefore(next, a, k, j);
    }
  }

  /** The probe finds the place where the order of the first keys changes, if there is one such place. */
  lemma {:induction false} ProbeAt(level: Level, k: Key, p: nat, l: nat, r: nat)
    requires l <= p <= r <= |level|
    requires forall i :: 0 <= i < |level| ==> (Less(k, MinKey(level[i])) <==> i >= p)
    ensures Probe(level, k, l, r) == p
    decreases r - l
  {
    if l < r {
      var mid := (l + r) / 2;
      if Less(k, MinKey(level[mid])) {
        ProbeAt(level, k, p, l, mid);
      } else {
        ProbeAt(level, k, p, mid + 1, r);
      }
    }
  }

  lemma NotMerged(cur: Level, next: Level, id: nat, size: seq<Entry> -> nat, k: Key)
    requires ValidLevel(cur) && cur != [] && ValidLevel(next) && Disjoint(next) && !CanSplice(cur, next)
    requires k in Contents(next[EndingBelow(next, ScanMin(cur)) - 1].entries) && k !in LevelMap(cur)
    ensures var all, a := NewNext(cur, next, id, size), EndingBelow(next, ScanMin(cur));
            a < |all| && k !in Contents(all[a].entries)
  {
    hide Less, Contents, Merged, Disjoint, ScanMin, ScanMax, LevelMap;
    var s, a := SplitNext(cur, next), EndingBelow(next, ScanMin(cur));
    SplitValid(cur, next);
    MergedSources(cur, s.overlap);
    NotInRest(next, a, k);
    LevelKeys(s.overlap, k);
    assert NewNext(cur, next, id, size)[a] == MergedSst(cur, next, id, size);
    forall j | 0 <= j < |s.overlap| ensures k !in Contents(s.overlap[j].entries) {
      assert s.overlap[j] == next[a + j];
    }
  }

  /**
   * When it cannot be spliced in, every key of the SST before it is lost to the probe, unless the compacted level
   * holds it too.
   */
  lemma MisplacedHides(cur: Level, next: Level, id: nat, size: seq<Entry> -> nat, k: Key)
    requires ValidLevel(cur) && cur != [] && ValidLevel(next) && Disjoint(next) && !CanSplice(cur, next)
    requires k in Contents(next[EndingBelow(next, ScanMin(cur)) - 1].entries) && k !in LevelMap(cur)
    ensures ProbeGet(next, k).Some? && ProbeGet(NewNext(cur, next, id, size), k) == None
  {
    var all, a := NewNext(cur, next, id, size), EndingBelow(next, ScanMin(cur));
    NotMerged(cur, next, id, size, k);
    ProbeGetFinds(next, k);
    DisjointLookup(next, a - 1, k);
    forall i | 0 <= i < |all| ensures Less(k, MinKey(all[i])) <==> i > a {
      MisplacedOrder(cur, next, id, size, k, i);
    }
    hide NewNext, Less, EndingBelow, ValidLevel, Disjoint, CanSplice, MinKey, Contents, LevelMap;
    ProbeAt(all, k, a + 1, 0, |all|);
  }

  /** A disjoint level has at most its first SST starting with the empty key. */
  lemma DisjointSentinelSafe(level: Level)
    requires ValidLevel(level) && Disjoint(level)
    ensures SentinelSafe(level)
  {
    MinsAscend(level);
    forall i | 0 < i < |level| ensures MinKey(level[i]) != [] {
      EmptyIsLeast(MinKey(level[0]));
    }
  }
}
