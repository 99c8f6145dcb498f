/** Flushing a memtable into level 0 and the cascade of compactions after it: answers, budgets and SST numbers. */
module Cascade {
  import opened Keys
  import opened Entries
  import opened HeapMerge
  import opened Levels
  import opened Compaction

  const MAX_LEVEL_SIZE := 5

  /** The largest size in bytes a level may have before it is compacted. */
  function Threshold(level: nat): nat
    requires level < MAX_LEVEL_SIZE
  {
    match level
    case 0 => 1024
    case 1 => 10 * 1024 * 1024
    case 2 => 100 * 1024 * 1024
    case 3 => 1000 * 1024 * 1024
    case _ => 10000 * 1024 * 1024
  }

  function LevelSize(level: Level): nat {
    if level == [] then 0 else LevelSize(level[..|level| - 1]) + level[|level| - 1].fileSize
  }

  predicate OverBudget(levels: seq<Level>, i: nat) {
    i < |levels| && i < MAX_LEVEL_SIZE && LevelSize(levels[i]) > Threshold(i)
  }

  /** The bytes of all files of a level. */
  function BytesIn(level: Level): nat {
    if level == [] then 0 else level[0].fileSize + BytesIn(level[1..])
  }

  lemma {:induction false} BytesConcat(a: Level, b: Level)
    ensures BytesIn(a + b) == BytesIn(a) + BytesIn(b)
  {
    if a == [] {
      assert a + b == b;
    } else {
      assert (a + b)[1..] == a[1..] + b;
      BytesConcat(a[1..], b);
    }
  }

  lemma {:induction false} LevelSizeIs(level: Level)
    ensures LevelSize(level) == BytesIn(level)
  {
    if level != [] {
      var init, last := level[..|level| - 1], level[|level| - 1];
      LevelSizeIs(init);
      BytesConcat(init, [last]);
      assert level == init + [last];
      assert [last][1..] == [];
    }
  }

  /** What each level may hold: 1 KB, then 10 MB and ten times as much from level to level. */
  const BUDGETS: seq<nat> := [1024, 10_485_760, 104_857_600, 1_048_576_000, 10_485_760_000]

  lemma OverBudgetExact(levels: seq<Level>, i: nat)
    ensures OverBudget(levels, i) <==> i < |levels| && i < 5 && BytesIn(levels[i]) > BUDGETS[i]
  {
    if i < |levels| {
      LevelSizeIs(levels[i]);
    }
  }

  /** The compactions of levels i, i + 1, ... until the first level within its budget; all of them reuse one id. */
  function Run(levels: seq<Level>, i: nat, id: nat, size: seq<Entry> -> nat): seq<Level>
    decreases MAX_LEVEL_SIZE - i
  {
    if OverBudget(levels, i) then Run(Compact(levels, i, id, size), i + 1, id, size) else levels
  }

  /** Level 0 with one more SST. */
  function InsertSst(levels: seq<Level>, s: Sst): seq<Level>
    requires levels != []
  {
    levels[0 := levels[0] + [s]]
  }

  /** What inserting a flushed SST leaves, with the cascade it may set off. */
  function Flush(levels: seq<Level>, s: Sst, id: nat, size: seq<Entry> -> nat): seq<Level>
    requires levels != []
  {
    var inserted := InsertSst(levels, s);
    if OverBudget(inserted, 0) then Run(inserted, 0, id, size) else inserted
  }

  // ---------- answers ----------

  /** A cascade changes no answer. */
  lemma {:induction false} RunKeepsMap(levels: seq<Level>, i: nat, id: nat, size: seq<Entry> -> nat)
    requires ValidLevels(levels) && (i == 0 ==> SentinelSafe(levels[0]))
    ensures ValidLevels(Run(levels, i, id, size)) && AllMap(Run(levels, i, id, size)) == AllMap(levels)
    decreases MAX_LEVEL_SIZE - i
  {
    if OverBudget(levels, i) {
      if i > 0 {
        DisjointSentinelSafe(levels[i]);
      }
      CompactKeepsMap(levels, i, id, size);
      RunKeepsMap(Compact(levels, i, id, size), i + 1, id, size);
    }
  }

  lemma InsertSstMap(levels: seq<Level>, s: Sst)
    requires ValidLevels(levels) && ValidSst(s)
    ensures ValidLevels(InsertSst(levels, s))
    ensures AllMap(InsertSst(levels, s)) == AllMap(levels) + Contents(s.entries)
  {
    LevelMapConcat(levels[0], [s]);
    SingletonMap(s);
    AddAssociative(AllMap(levels[1..]), LevelMap(levels[0]), Contents(s.entries));
  }

  /** Level 0 never holds an SST that starts with the empty key, nor does any other level. */
  ghost predicate NoEmptyKeys(levels: seq<Level>) {
    forall x, y :: 0 <= x < |levels| && 0 <= y < |levels[x]| ==> MinKey(levels[x][y]) != []
  }

  lemma FlushIsRun(levels: seq<Level>, s: Sst, id: nat, size: seq<Entry> -> nat)
    requires levels != []
    ensures Flush(levels, s, id, size) == Run(InsertSst(levels, s), 0, id, size)
  {
  }

  /** A flush with its cascade overlays the old answers with the flushed table. */
  lemma FlushMap(levels: seq<Level>, s: Sst, id: nat, size: seq<Entry> -> nat)
    requires ValidLevels(levels) && ValidSst(s) && SentinelSafe(levels[0] + [s])
    ensures ValidLevels(Flush(levels, s, id, size))
    ensures AllMap(Flush(levels, s, id, size)) == AllMap(levels) + Contents(s.entries)
  {
    InsertSstMap(levels, s);
    RunKeepsMap(InsertSst(levels, s), 0, id, size);
    FlushIsRun(levels, s, id, size);
  }

  // ---------- budgets ----------

  /** Levels 0 to 4 are within their budgets, level skip excepted, and there are at most six levels. */
  ghost predicate WithinBudget(levels: seq<Level>, skip: int) {
    && |levels| <= MAX_LEVEL_SIZE + 1
    && forall i :: 0 <= i < MAX_LEVEL_SIZE && i != skip ==> !OverBudget(levels, i)
  }

  lemma {:induction false} RunKeepsBudget(levels: seq<Level>, i: nat, id: nat, size: seq<Entry> -> nat)
    requires WithinBudget(levels, i)
    ensures WithinBudget(Run(levels, i, id, size), -1)
    decreases MAX_LEVEL_SIZE - i
  {
    if OverBudget(levels, i) {
      var next := Compact(levels, i, id, size);
      assert LevelSize(next[i]) == 0;
      forall j | 0 <= j < MAX_LEVEL_SIZE && j != i + 1 ensures !OverBudget(next, j) {
        if j == i {
          assert next[j] == [];
        } else {
          assert !OverBudget(levels, j);
          assert j < |next| ==> j < |levels| && next[j] == levels[j];
        }
      }
      RunKeepsBudget(next, i + 1, id, size);
    }
  }

  lemma InsertSstBudget(levels: seq<Level>, s: Sst)
    requires levels != [] && WithinBudget(levels, -1)
    ensures WithinBudget(InsertSst(levels, s), 0)
  {
    forall j | 0 < j < MAX_LEVEL_SIZE ensures !OverBudget(InsertSst(levels, s), j) {
      assert !OverBudget(levels, j);
    }
  }

  /** After every flush with its cascade all budgets hold again. */
  lemma FlushKeepsBudget(levels: seq<Level>, s: Sst, id: nat, size: seq<Entry> -> nat)
    requires levels != [] && WithinBudget(levels, -1)
    ensures WithinBudget(Flush(levels, s, id, size), -1)
  {
    InsertSstBudget(levels, s);
    RunKeepsBudget(InsertSst(levels, s), 0, id, size);
    FlushIsRun(levels, s, id, size);
  }

  lemma {:induction false} RunLeaves(levels: seq<Level>, i: nat, j: nat, id: nat, size: seq<Entry> -> nat)
    requires j < i && j < |levels|
    ensures j < |Run(levels, i, id, size)| && Run(levels, i, id, size)[j] == levels[j]
    decreases MAX_LEVEL_SIZE - i
  {
    if OverBudget(levels, i) {
      assert Compact(levels, i, id, size)[j] == levels[j];
      RunLeaves(Compact(levels, i, id, size), i + 1, j, id, size);
    }
  }

  /** A level is compacted away, and the cascade goes on, exactly when its files exceed its budget. */
  lemma CascadesExact(levels: seq<Level>, i: nat, id: nat, size: seq<Entry> -> nat)
    requires i < |levels| && i < 5
    ensures if BytesIn(levels[i]) > BUDGETS[i] then
              && Run(levels, i, id, size) == Run(Compact(levels, i, id, size), i + 1, id, size)
              && i < |Run(levels, i, id, size)| && Run(levels, i, id, size)[i] == []
            else Run(levels, i, id, size) == levels
  {
    OverBudgetExact(levels, i);
    if OverBudget(levels, i) {
      RunLeaves(Compact(levels, i, id, size), i + 1, i, id, size);
    }
  }

  /** A flush sets off a cascade exactly when level 0 exceeds 1024 bytes with the new SST. */
  lemma FlushCascadesExact(levels: seq<Level>, s: Sst, id: nat, size: seq<Entry> -> nat)
    requires levels != []
    ensures if BytesIn(levels[0]) + s.fileSize > 1024 then
              Flush(levels, s, id, size) != [] && Flush(levels, s, id, size)[0] == []
            else Flush(levels, s, id, size) == InsertSst(levels, s)
  {
    FlushIsRun(levels, s, id, size);
    CascadesExact(InsertSst(levels, s), 0, id, size);
    BytesConcat(levels[0], [s]);
    assert [s][1..] == [];
  }

  // ---------- SST numbers ----------

  predicate At(levels: seq<Level>, x: int, y: int) {
    0 <= x < |levels| && 0 <= y < |levels[x]|
  }

  ghost predicate DistinctIds(levels: seq<Level>) {
    forall x, y, u, v :: At(levels, x, y) && At(levels, u, v) && levels[x][y].id == levels[u][v].id ==> x == u && y == v
  }

  ghost predicate IdsAtMost(levels: seq<Level>, n: nat) {
    forall x, y :: At(levels, x, y) ==> levels[x][y].id <= n
  }

  ghost predicate HasId(levels: seq<Level>, n: nat) {
    exists x, y :: At(levels, x, y) && levels[x][y].id == n
  }

  /** The live numbers are distinct and n is the largest of them, or there are none and n is 0. */
  ghost predicate NumberedUpTo(levels: seq<Level>, n: nat) {
    DistinctIds(levels) && IdsAtMost(levels, n) && (n > 0 ==> HasId(levels, n))
  }

  /** During a cascade number id is used by the level about to be compacted at most. */
  ghost predicate OnlyIn(levels: seq<Level>, l: nat, id: nat) {
    DistinctIds(levels) && IdsAtMost(levels, id) && forall x, y :: At(levels, x, y) && levels[x][y].id == id ==> x == l
  }

  /** Where an untouched SST of the next level was before the splice. */
  function OldIndex(a: nat, b: nat, y: int): int {
    if y < a then y else y - 1 + b - a
  }

  /** Each SST after a compaction is the merged one or an untouched one. */
  lemma CompactOrigin(levels: seq<Level>, l: nat, id: nat, size: seq<Entry> -> nat, x: int, y: int)
    requires l < |levels| && At(Compact(levels, l, id, size), x, y)
    ensures var ext, after := Extended(levels, l), Compact(levels, l, id, size);
            var a := EndingBelow(ext[l + 1], ScanMin(ext[l]));
            var b := StartingAbove(ext[l + 1], ScanMax(ext[l]), a);
            && x != l
            && (x == l + 1 && y == a ==> after[x][y] == MergedSst(ext[l], ext[l + 1], id, size))
            && (x == l + 1 && y != a ==>
                  At(levels, x, OldIndex(a, b, y)) && after[x][y] == levels[x][OldIndex(a, b, y)])
            && (x != l + 1 ==> At(levels, x, y) && after[x][y] == levels[x][y])
  {
  }

  lemma CompactIds(levels: seq<Level>, l: nat, id: nat, size: seq<Entry> -> nat)
    requires l < |levels| && OnlyIn(levels, l, id)
    ensures OnlyIn(Compact(levels, l, id, size), l + 1, id)
    ensures HasId(Compact(levels, l, id, size), id)
  {
    var ext, after := Extended(levels, l), Compact(levels, l, id, size);
    var a := EndingBelow(ext[l + 1], ScanMin(ext[l]));
    assert At(after, l + 1, a) && after[l + 1][a].id == id;
    forall x, y | At(after, x, y)
      ensures after[x][y].id <= id && (after[x][y].id == id ==> x == l + 1)
    {
      CompactOrigin(levels, l, id, size, x, y);
    }
    forall x, y, u, v | At(after, x, y) && At(after, u, v) && after[x][y].id == after[u][v].id
      ensures x == u && y == v
    {
      CompactOrigin(levels, l, id, size, x, y);
      CompactOrigin(levels, l, id, size, u, v);
    }
  }

  lemma {:induction false} RunIds(levels: seq<Level>, i: nat, id: nat, size: seq<Entry> -> nat)
    requires OnlyIn(levels, i, id) && (HasId(levels, id) || OverBudget(levels, i))
    ensures NumberedUpTo(Run(levels, i, id, size), id)
    decreases MAX_LEVEL_SIZE - i
  {
    if OverBudget(levels, i) {
      CompactIds(levels, i, id, size);
      RunIds(Compact(levels, i, id, size), i + 1, id, size);
    }
  }

  lemma InsertedIds(levels: seq<Level>, s: Sst, n: nat)
    requires levels != [] && NumberedUpTo(levels, n) && s.id == n + 1
    ensures NumberedUpTo(InsertSst(levels, s), n + 1)
  {
    var inserted, last := InsertSst(levels, s), |levels[0]|;
    assert At(inserted, 0, last) && inserted[0][last].id == n + 1;
    forall x, y | At(inserted, x, y)
      ensures inserted[x][y].id <= n + 1 && (x != 0 || y != last ==> inserted[x][y].id <= n)
    {
      assert x != 0 || y != last ==> At(levels, x, y) && inserted[x][y] == levels[x][y];
    }
    forall x, y, u, v | At(inserted, x, y) && At(inserted, u, v) && inserted[x][y].id == inserted[u][v].id
      ensures x == u && y == v
    {
      assert x != 0 || y != last ==> At(levels, x, y) && inserted[x][y] == levels[x][y];
      assert u != 0 || v != last ==> At(levels, u, v) && inserted[u][v] == levels[u][v];
    }
  }

  /** Live numbers stay distinct, and the largest is always the last one handed out. */
  lemma FlushIds(levels: seq<Level>, s: Sst, n: nat, size: seq<Entry> -> nat)
    requires levels != [] && NumberedUpTo(levels, n) && s.id == n + 1
    ensures NumberedUpTo(Flush(levels, s, n + 2, size), if OverBudget(InsertSst(levels, s), 0) then n + 2 else n + 1)
  {
    InsertedIds(levels, s, n);
    if OverBudget(InsertSst(levels, s), 0) {
      RunIds(InsertSst(levels, s), 0, n + 2, size);
    }
  }

  // ---------- which file a compaction reads while it writes number id ----------

  ghost predicate Holds(level: Level, id: nat) {
    exists y :: 0 <= y < |level| && level[y].id == id
  }

  /** The cascade that starts at level i comes to compact level n. */
  ghost predicate Compacts(levels: seq<Level>, i: nat, n: nat, id: nat, size: seq<Entry> -> nat)
    decreases n - i
  {
    i <= n && OverBudget(levels, i) && (i < n ==> Compacts(Compact(levels, i, id, size), i + 1, n, id, size))
  }

  /** The levels at that moment. */
  ghost function LevelsAt(levels: seq<Level>, i: nat, n: nat, id: nat, size: seq<Entry> -> nat): (at: seq<Level>)
    requires Compacts(levels, i, n, id, size)
    ensures n < |at|
    decreases n - i
  {
    if i == n then levels else LevelsAt(Compact(levels, i, id, size), i + 1, n, id, size)
  }

  lemma {:induction false} StillHolds(levels: seq<Level>, i: nat, n: nat, id: nat, size: seq<Entry> -> nat)
    requires Compacts(levels, i, n, id, size) && OnlyIn(levels, i, id) && HasId(levels, id)
    ensures Holds(LevelsAt(levels, i, n, id, size)[n], id)
    decreases n - i
  {
    if i == n {
      var x, y :| At(levels, x, y) && levels[x][y].id == id;
      assert levels[i][y].id == id;
    } else {
      CompactIds(levels, i, id, size);
      StillHolds(Compact(levels, i, id, size), i + 1, n, id, size);
    }
  }

  /**
   * In a cascade under a fresh number, a compaction reads the SST whose file it is writing exactly when it is not
   * the cascade's first.
   */
  lemma OwnFileExact(levels: seq<Level>, i: nat, n: nat, id: nat, size: seq<Entry> -> nat)
    requires Compacts(levels, i, n, id, size) && DistinctIds(levels)
    requires forall x, y :: At(levels, x, y) ==> levels[x][y].id < id
    ensures Holds(LevelsAt(levels, i, n, id, size)[n], id) <==> n > i
  {
    if i < n {
      CompactIds(levels, i, id, size);
      StillHolds(Compact(levels, i, id, size), i + 1, n, id, size);
    } else {
      forall y | 0 <= y < |levels[i]| ensures levels[i][y].id != id {
        assert At(levels, i, y);
      }
    }
  }

  /** A cascade of one compaction reads no file that it writes. */
  lemma OneCompaction(levels: seq<Level>, i: nat, id: nat, size: seq<Entry> -> nat)
    requires OverBudget(levels, i) && !OverBudget(Compact(levels, i, id, size), i + 1)
    requires forall x, y :: At(levels, x, y) ==> levels[x][y].id < id
    ensures Run(levels, i, id, size) == Compact(levels, i, id, size)
    ensures !Holds(levels[i], id) && !Holds(Extended(levels, i)[i + 1], id)
  {
    var ext := Extended(levels, i);
    forall x | i <= x <= i + 1 ensures !Holds(ext[x], id) {
      forall y | 0 <= y < |ext[x]| ensures ext[x][y].id != id {
        assert At(levels, x, y);
      }
    }
    assert ext[i] == levels[i];
  }

  // ---------- keys ----------

  lemma {:induction false} AllKeys(levels: seq<Level>, x: nat, k: Key)
    requires x < |levels| && k in LevelMap(levels[x])
    ensures k in AllMap(levels)
  {
    if x > 0 {
      AllKeys(levels[1..], x - 1, k);
    }
  }

  /** Levels that do not answer for the empty key hold no SST that starts with it. */
  lemma NoEmptyKey(levels: seq<Level>)
    requires ValidLevels(levels) && [] !in AllMap(levels)
    ensures NoEmptyKeys(levels)
  {
    forall x, y | 0 <= x < |levels| && 0 <= y < |levels[x]| ensures MinKey(levels[x][y]) != [] {
      assert ValidSst(levels[x][y]);
      MinBelowMax(levels[x][y]);
      LevelKeys(levels[x], MinKey(levels[x][y]));
      AllKeys(levels, x, MinKey(levels[x][y]));
    }
  }
}
