/** Runs of the database: no rotation, flush, cascade, shutdown or reopening changes what it denotes. */
module DbRuns {
  import opened Keys
  import opened Entries
  import opened Words
  import opened SstFormat
  import opened HeapMerge
  import opened Levels
  import opened Compaction
  import opened Cascade
  import opened DbState
  import M = ManifestFile

  // ---------- publishing ----------

  lemma MergedStored(levels: seq<Level>, l: nat, id: nat, build: Builder, disk: map<nat, seq<Byte>>)
    requires l < |levels| && LoadsAs(build(id, MergedAt(levels, l)), MergedAt(levels, l))
    ensures var ext := Extended(levels, l);
            Stored(MergedSst(ext[l], ext[l + 1], id, SizeOf(build, id)),
                   disk[id := build(id, MergedAt(levels, l))], build)
  {
    hide LoadsAs, Merged, SplitNext;
  }

  lemma OtherStored(s: Sst, id: nat, file: seq<Byte>, disk: map<nat, seq<Byte>>, build: Builder)
    requires Stored(s, disk, build) && s.id != id
    ensures Stored(s, disk[id := file], build)
  {
    hide LoadsAs;
  }

  lemma OneStored(levels: seq<Level>, disk: map<nat, seq<Byte>>, build: Builder, x: int, y: int)
    requires OnDisk(levels, disk, build) && At(levels, x, y)
    ensures Stored(levels[x][y], disk, build)
  {
  }

  lemma AllStored(levels: seq<Level>, disk: map<nat, seq<Byte>>, build: Builder)
    requires forall x, y :: At(levels, x, y) ==> Stored(levels[x][y], disk, build)
    ensures OnDisk(levels, disk, build)
  {
  }

  lemma CompactStored(levels: seq<Level>, l: nat, id: nat, build: Builder, disk: map<nat, seq<Byte>>, x: int, y: int)
    requires l < |levels| && OnlyIn(levels, l, id) && OnDisk(levels, disk, build)
    requires LoadsAs(build(id, MergedAt(levels, l)), MergedAt(levels, l))
    requires At(Compact(levels, l, id, SizeOf(build, id)), x, y)
    ensures Stored(Compact(levels, l, id, SizeOf(build, id))[x][y], disk[id := build(id, MergedAt(levels, l))], build)
  {
    hide LoadsAs, OnDisk, Stored, Compact, MergedAt, MergedSst, EndingBelow, StartingAbove, ScanMin, ScanMax,
      DistinctIds, IdsAtMost;
    var file := build(id, MergedAt(levels, l));
    var ext := Extended(levels, l);
    var a := EndingBelow(ext[l + 1], ScanMin(ext[l]));
    var b := StartingAbove(ext[l + 1], ScanMax(ext[l]), a);
    CompactOrigin(levels, l, id, SizeOf(build, id), x, y);
    if x == l + 1 && y == a {
      MergedStored(levels, l, id, build, disk);
    } else {
      var was := if x == l + 1 then OldIndex(a, b, y) else y;
      OneStored(levels, disk, build, x, was);
      OtherStored(levels[x][was], id, file, disk, build);
    }
  }

  lemma CompactOnDisk(levels: seq<Level>, l: nat, id: nat, build: Builder, disk: map<nat, seq<Byte>>)
    requires l < |levels| && OnlyIn(levels, l, id) && OnDisk(levels, disk, build)
    requires LoadsAs(build(id, MergedAt(levels, l)), MergedAt(levels, l))
    ensures OnDisk(Compact(levels, l, id, SizeOf(build, id)), disk[id := build(id, MergedAt(levels, l))], build)
  {
    hide LoadsAs, OnDisk, OnlyIn, Stored, Compact, MergedAt;
    var disk' := disk[id := build(id, MergedAt(levels, l))];
    forall x, y | At(Compact(levels, l, id, SizeOf(build, id)), x, y)
      ensures Stored(Compact(levels, l, id, SizeOf(build, id))[x][y], disk', build)
    {
      CompactStored(levels, l, id, build, disk, x, y);
    }
    AllStored(Compact(levels, l, id, SizeOf(build, id)), disk', build);
  }

  lemma RunWritesStep(levels: seq<Level>, i: nat, id: nat, build: Builder)
    requires OverBudget(levels, i) && AllLoad(RunWrites(levels, i, id, build), build)
    ensures LoadsAs(build(id, MergedAt(levels, i)), MergedAt(levels, i))
    ensures AllLoad(RunWrites(Compact(levels, i, id, SizeOf(build, id)), i + 1, id, build), build)
  {
    hide LoadsAs, Compact, MergedAt;
    var all := RunWrites(levels, i, id, build);
    assert all[0] == (id, MergedAt(levels, i));
    assert all[1..] == RunWrites(Compact(levels, i, id, SizeOf(build, id)), i + 1, id, build);
    assert forall j :: 0 <= j < |all[1..]| ==> all[1..][j] == all[j + 1];
  }

  /** A cascade leaves the file of every live SST intact although it writes one name several times. */
  lemma {:induction false} RunOnDisk(levels: seq<Level>, i: nat, id: nat, build: Builder, disk: map<nat, seq<Byte>>)
    requires OnlyIn(levels, i, id) && OnDisk(levels, disk, build) && AllLoad(RunWrites(levels, i, id, build), build)
    ensures OnDisk(Run(levels, i, id, SizeOf(build, id)), RunFiles(levels, i, id, build, disk), build)
    decreases MAX_LEVEL_SIZE - i
  {
    hide LoadsAs, AllLoad, RunWrites, OnDisk, OnlyIn, Compact;
    if OverBudget(levels, i) {
      var after := Compact(levels, i, id, SizeOf(build, id));
      RunWritesStep(levels, i, id, build);
      CompactIds(levels, i, id, SizeOf(build, id));
      CompactOnDisk(levels, i, id, build, disk);
      RunOnDisk(after, i + 1, id, build, disk[id := build(id, MergedAt(levels, i))]);
    }
  }

  lemma FlushWritesStep(levels: seq<Level>, t: Table, id: nat, build: Builder)
    requires levels != [] && AllLoad(FlushWrites(levels, t, id, build), build)
    ensures LoadsAs(build(id, t), t)
    ensures AllLoad(RunWrites(InsertSst(levels, Flushed(t, id, build)), 0, id + 1, build), build)
  {
    hide LoadsAs, RunWrites;
    var all := FlushWrites(levels, t, id, build);
    assert all[0] == (id, t);
    assert all[1..] == RunWrites(InsertSst(levels, Flushed(t, id, build)), 0, id + 1, build);
    assert forall j :: 0 <= j < |all[1..]| ==> all[1..][j] == all[j + 1];
  }

  lemma InsertedOnDisk(levels: seq<Level>, t: Table, n: nat, build: Builder, disk: map<nat, seq<Byte>>)
    requires levels != [] && NumberedUpTo(levels, n) && OnDisk(levels, disk, build) && LoadsAs(build(n + 1, t), t)
    ensures OnDisk(InsertSst(levels, Flushed(t, n + 1, build)), disk[n + 1 := build(n + 1, t)], build)
  {
    hide LoadsAs;
    var inserted, disk' := InsertSst(levels, Flushed(t, n + 1, build)), disk[n + 1 := build(n + 1, t)];
    forall x, y | At(inserted, x, y) ensures Stored(inserted[x][y], disk', build) {
      assert x != 0 || y != |levels[0]| ==> At(levels, x, y) && inserted[x][y] == levels[x][y];
    }
  }

  lemma FlushOnDisk(levels: seq<Level>, t: Table, n: nat, build: Builder, disk: map<nat, seq<Byte>>)
    requires levels != [] && NumberedUpTo(levels, n) && OnDisk(levels, disk, build)
    requires AllLoad(FlushWrites(levels, t, n + 1, build), build)
    ensures OnDisk(FlushLevels(levels, t, n + 1, build), FlushFiles(levels, t, n + 1, build, disk), build)
  {
    hide LoadsAs, AllLoad, OnDisk, Run, RunFiles, RunWrites;
    var s := Flushed(t, n + 1, build);
    FlushWritesStep(levels, t, n + 1, build);
    InsertedIds(levels, s, n);
    InsertedOnDisk(levels, t, n, build, disk);
    RunOnDisk(InsertSst(levels, s), 0, n + 2, build, disk[n + 1 := build(n + 1, t)]);
    FlushIsRun(levels, s, n + 2, SizeOf(build, n + 2));
  }

  /** Without the empty key a flush is safe for the range scan of compaction. */
  lemma FlushSafe(levels: seq<Level>, s: Sst)
    requires ValidLevels(levels) && ValidSst(s) && [] !in AllMap(levels) + Contents(s.entries)
    ensures SentinelSafe(levels[0] + [s])
  {
    InsertSstMap(levels, s);
    NoEmptyKey(InsertSst(levels, s));
    var level := levels[0] + [s];
    forall i | 0 <= i < |level| ensures MinKey(level[i]) != [] {
      assert InsertSst(levels, s)[0][i] == level[i];
    }
  }

  /** Everything one flush does to the levels. */
  lemma FlushFacts(levels: seq<Level>, t: Table, n: nat, build: Builder, disk: map<nat, seq<Byte>>)
    requires LevelsOk(levels, n, disk, build) && GoodTable(t) && [] !in AllMap(levels) + Contents(t)
    requires AllLoad(FlushWrites(levels, t, n + 1, build), build)
    ensures var after := FlushLevels(levels, t, n + 1, build);
            && AllMap(after) == AllMap(levels) + Contents(t)
            && LevelsOk(after, LastId(levels, t, n + 1, build), FlushFiles(levels, t, n + 1, build, disk), build)
  {
    var sst := Flushed(t, n + 1, build);
    FlushSafe(levels, sst);
    FlushMap(levels, sst, n + 2, SizeOf(build, n + 2));
    FlushIds(levels, sst, n, SizeOf(build, n + 2));
    FlushKeepsBudget(levels, sst, n + 2, SizeOf(build, n + 2));
    FlushOnDisk(levels, t, n, build, disk);
  }

  /** FlushStore publishes what a flush under the next number leaves. */
  lemma FlushStoreIs(store: Store, t: Table, build: Builder, id: nat)
    requires Current(store) != [] && id == store.sstId + 1
    requires LevelsOk(FlushLevels(Current(store), t, id, build), LastId(Current(store), t, id, build),
                      FlushFiles(Current(store), t, id, build, store.disk), build)
    ensures StoreOk(FlushStore(store, t, build), build)
    ensures Current(FlushStore(store, t, build)) == FlushLevels(Current(store), t, id, build)
  {
    hide FlushLevels, FlushFiles, LastId, LevelsOk;
  }

  lemma FlushStoreKeeps(store: Store, t: Table, build: Builder)
    requires StoreOk(store, build) && GoodTable(t) && [] !in AllMap(Current(store)) + Contents(t)
    requires AllLoad(FlushWrites(Current(store), t, store.sstId + 1, build), build)
    ensures StoreOk(FlushStore(store, t, build), build)
    ensures AllMap(Current(FlushStore(store, t, build))) == AllMap(Current(store)) + Contents(t)
  {
    FlushFacts(Current(store), t, store.sstId, build, store.disk);
    FlushStoreIs(store, t, build, store.sstId + 1);
  }

  lemma NumberingGrows(store: Store, t: Table, build: Builder)
    ensures store.sstId <= FlushStore(store, t, build).sstId
  {
    hide FlushLevels, FlushFiles;
  }

  lemma PublishOverlay(base: map<Key, Value>, t: Tables)
    requires t.inFlight.Some?
    ensures Queued(base + Contents(t.inFlight.value), t.(inFlight := None)) == Queued(base, t)
    ensures [] !in Queued(base, t) + Contents(t.mem) ==> [] !in base + Contents(t.inFlight.value)
  {
  }

  /** What is in flight may be flushed. */
  lemma InFlightReady(s: State, build: Builder)
    requires Inv(s, build) && AllLoad(PublishWrites(s, build), build) && s.tables.inFlight.Some?
    ensures var t := s.tables.inFlight.value;
            && GoodTable(t) && [] !in AllMap(Current(s.store)) + Contents(t) && Current(s.store) != []
            && AllLoad(FlushWrites(Current(s.store), t, s.store.sstId + 1, build), build)
  {
    hide AllLoad, FlushWrites, Queued, Contents, AllMap, GoodTable, NumberedUpTo, WithinBudget, OnDisk;
    PublishOverlay(Base(s), s.tables);
  }

  lemma PublishFlushed(s: State, build: Builder)
    requires s.tables.inFlight.Some?
    ensures PublishStep(s, build) ==
            State(s.tables.(inFlight := None), FlushStore(s.store, s.tables.inFlight.value, build))
  {
    hide FlushStore;
  }

  lemma LandedTables(t: Tables)
    requires TablesOk(t)
    ensures TablesOk(t.(inFlight := None))
  {
    hide GoodTable, Sorted;
  }

  lemma InvParts(s: State, build: Builder)
    requires Inv(s, build)
    ensures TablesOk(s.tables) && StoreOk(s.store, build)
  {
    hide TablesOk, StoreOk;
  }

  /** Publishing the flushed manifest changes nothing that the database denotes. */
  lemma PublishKeeps(s: State, build: Builder)
    requires Inv(s, build) && AllLoad(PublishWrites(s, build), build)
    ensures TablesOk(PublishStep(s, build).tables) && StoreOk(PublishStep(s, build).store, build)
    ensures Queued(Base(PublishStep(s, build)), PublishStep(s, build).tables) == Queued(Base(s), s.tables)
    ensures PublishStep(s, build).tables == s.tables.(inFlight := None)
    ensures s.store.sstId <= PublishStep(s, build).store.sstId
  {
    hide Inv, AllLoad, StoreOk, TablesOk, GoodTable, FlushStore, FlushWrites, Queued, Contents, AllMap;
    InvParts(s, build);
    if s.tables.inFlight.Some? {
      var t := s.tables.inFlight.value;
      InFlightReady(s, build);
      PublishFlushed(s, build);
      PublishOverlay(Base(s), s.tables);
      FlushStoreKeeps(s.store, t, build);
      NumberingGrows(s.store, t, build);
      LandedTables(s.tables);
    }
  }

  // ---------- closing and reopening ----------

  lemma NothingQueued(base: map<Key, Value>, t: Tables)
    requires t.frozen == [] && t.inFlight.None?
    ensures Queued(base, t) == base
  {
  }

  lemma DrainWritesStep(s: State, build: Builder)
    requires AllLoad(DrainWrites(s, build), build)
    ensures AllLoad(PublishWrites(s, build), build)
    ensures var published := PublishStep(s, build);
            published.tables.frozen != [] ==>
              AllLoad(DrainWrites(published.(tables := TakeTables(published.tables)), build), build)
  {
    hide LoadsAs, PublishWrites, PublishStep, TakeTables;
    var all, n := DrainWrites(s, build), |PublishWrites(s, build)|;
    assert all[..n] == PublishWrites(s, build);
    assert forall j :: 0 <= j < n ==> all[..n][j] == all[j];
    assert forall j :: 0 <= j < |all[n..]| ==> all[n..][j] == all[n + j];
  }

  lemma {:induction false} DrainKeeps(s: State, build: Builder)
    requires Inv(s, build) && AllLoad(DrainWrites(s, build), build)
    ensures StoreOk(Drain(s, build).store, build)
    ensures AllMap(Current(Drain(s, build).store)) == Queued(Base(s), s.tables)
    ensures s.store.sstId <= Drain(s, build).store.sstId
    decreases |s.tables.frozen|
  {
    hide AllLoad, DrainWrites, PublishWrites, StoreOk;
    var published := PublishStep(s, build);
    DrainWritesStep(s, build);
    PublishKeeps(s, build);
    if published.tables.frozen == [] {
      NothingQueued(Base(published), published.tables);
    } else {
      TakeChanges(Base(published), published.tables);
      TakeKeepsTables(published.tables);
      DrainKeeps(published.(tables := TakeTables(published.tables)), build);
    }
  }

  /** After closing, the last manifest alone denotes the whole database. */
  lemma CloseKeeps(s: State, build: Builder)
    requires Inv(s, build) && AllLoad(CloseWrites(s, build), build)
    ensures StoreOk(Close(s, build).store, build) && s.store.sstId <= Close(s, build).store.sstId
    ensures AllMap(Current(Close(s, build).store)) == Overlaid(s)
  {
    hide AllLoad, StoreOk;
    QueueChanges(Base(s), s.tables);
    QueueAgain(Queued(Base(s), s.tables), Contents(s.tables.mem));
    DrainKeeps(s.(tables := QueueActive(s.tables)), build);
  }

  /** Loading the numbered files gives back every live SST: number, entries and size. */
  lemma LoadRestores(levels: seq<Level>, n: nat, disk: map<nat, seq<Byte>>, build: Builder)
    requires OnDisk(levels, disk, build) && IdsAtMost(levels, n) && n < 0x8000_0000
    ensures LoadLevels(AllIds(levels), disk) == levels
  {
    var loaded: seq<Level> := LoadLevels(AllIds(levels), disk);
    forall x, y | At(levels, x, y) ensures loaded[x][y] == levels[x][y] {
      assert loaded[x][y] == LoadSst(levels[x][y].id, disk);
      SmallOffset(levels[x][y].id);
      assert Stored(levels[x][y], disk, build);
    }
    forall x | 0 <= x < |levels| ensures loaded[x] == levels[x] {
      assert forall y :: 0 <= y < |levels[x]| ==> At(levels, x, y);
    }
  }

  /** The largest number in the file is the last one handed out, so numbering goes on without reuse. */
  lemma NumberingContinues(levels: seq<Level>, n: nat)
    requires NumberedUpTo(levels, n)
    ensures M.LargestOf(AllIds(levels)) == n
  {
    var ids := AllIds(levels);
    M.LargestOfExact(ids);
    if n > 0 {
      var x, y :| At(levels, x, y) && levels[x][y].id == n;
      assert ids[x][y] == n;
    }
    if M.LargestOf(ids) != 0 {
      var x, y :| 0 <= x < |ids| && 0 <= y < |ids[x]| && ids[x][y] == M.LargestOf(ids);
      assert At(levels, x, y) && levels[x][y].id == ids[x][y];
    }
  }

  /** Opening what was saved restores version, levels and order, whatever stale bytes follow. */
  lemma OpenSaved(version: nat, levels: seq<Level>, n: nat, disk: map<nat, seq<Byte>>, build: Builder, stale: seq<Byte>)
    requires version < TWO64 && n < 0x8000_0000 && LevelsOk(levels, n, disk, build)
    ensures Open(M.ManifestBytes(version, AllIds(levels)) + stale, disk)
         == State(NO_TABLES, Store(version, [levels], n, disk))
  {
    var bytes := M.ManifestBytes(version, AllIds(levels));
    assert (bytes + stale)[0..|bytes|] == bytes;
    forall i | 0 <= i < |levels| ensures M.Storable(AllIds(levels)[i]) {
      forall j | 0 <= j < |AllIds(levels)[i]| ensures AllIds(levels)[i][j] < M.END {
        assert At(levels, i, j);
      }
    }
    M.ManifestRoundTrip(bytes + stale, version, AllIds(levels));
    NumberingContinues(levels, n);
    LoadRestores(levels, n, disk, build);
  }

  /** When a database may be closed and opened again: every file that closing writes loads, and the counters fit. */
  ghost predicate CanRestart(s: State, build: Builder) {
    var store := Close(s, build).store;
    store.version < TWO64 && store.sstId < 0x8000_0000 && AllLoad(CloseWrites(s, build), build)
  }

  /** Closing and reopening gives back exactly the last manifest, and with it every answer. */
  lemma RestartKeeps(s: State, build: Builder, stale: seq<Byte>)
    requires Inv(s, build) && CanRestart(s, build)
    ensures var closed := Close(s, build).store;
            Restart(s, build, stale) == State(NO_TABLES, closed.(manifests := [Current(closed)]))
    ensures Inv(Restart(s, build, stale), build)
    ensures Overlaid(Restart(s, build, stale)) == Overlaid(s)
    ensures s.store.sstId <= Restart(s, build, stale).store.sstId
  {
    hide AllLoad, CloseWrites, Close, LevelsOk;
    var store := Close(s, build).store;
    var levels := Current(store);
    CloseKeeps(s, build);
    OpenSaved(store.version, levels, store.sstId, store.disk, build, stale);
    var after := Restart(s, build, stale);
    assert Current(after.store) == levels;
    NothingQueued(Base(after), after.tables);
    QueueAgain(Base(after), map[]);
  }

  // ---------- runs ----------

  /** Keys are not empty, and every file that gets written can be loaded. */
  ghost predicate Allowed(s: State, op: Op, build: Builder) {
    match op
    case OpPut(k, v) => k != []
    case OpTake => true
    case OpPublish => AllLoad(PublishWrites(s, build), build)
    case OpReopen(_) => CanRestart(s, build)
  }

  ghost predicate AllowedRun(s: State, ops: seq<Op>, maxSize: nat, build: Builder) {
    ops == [] || (AllowedRun(s, ops[..|ops| - 1], maxSize, build)
                  && Allowed(Exec(s, ops[..|ops| - 1], maxSize, build), ops[|ops| - 1], build))
  }

  /** The last value put for each key. */
  function LastPuts(ops: seq<Op>): map<Key, Value> {
    if ops == [] then map[]
    else
      var m := LastPuts(ops[..|ops| - 1]);
      match ops[|ops| - 1]
      case OpPut(k, v) => m[k := v]
      case _ => m
  }

  /** Every step keeps the invariant, and only a put changes what the database denotes. */
  lemma StepKeeps(s: State, op: Op, maxSize: nat, build: Builder)
    requires Inv(s, build) && Allowed(s, op, build)
    ensures Inv(Step(s, op, maxSize, build), build)
    ensures Overlaid(Step(s, op, maxSize, build)) == if op.OpPut? then Overlaid(s)[op.k := op.v] else Overlaid(s)
  {
    hide AllLoad, StoreOk, TablesOk, CanRestart, PublishWrites, Queued, PublishStep, Restart, PutTables, TakeTables;
    match op
    case OpPut(k, v) =>
      PutKeepsTables(s.tables, k, v, maxSize);
      PutChanges(Base(s), s.tables, k, v, maxSize);
    case OpTake =>
      TakeKeepsTables(s.tables);
      TakeChanges(Base(s), s.tables);
    case OpPublish =>
      PublishKeeps(s, build);
    case OpReopen(stale) =>
      RestartKeeps(s, build, stale);
  }

  /** After every run the database denotes the last value put for each key. */
  lemma {:induction false} RunDenotesLastPuts(ops: seq<Op>, maxSize: nat, build: Builder)
    requires AllowedRun(INITIAL, ops, maxSize, build)
    ensures Inv(Exec(INITIAL, ops, maxSize, build), build)
    ensures Overlaid(Exec(INITIAL, ops, maxSize, build)) == LastPuts(ops)
  {
    if ops == [] {
      InitialInv(build);
    } else {
      var init := ops[..|ops| - 1];
      RunDenotesLastPuts(init, maxSize, build);
      StepKeeps(Exec(INITIAL, init, maxSize, build), ops[|ops| - 1], maxSize, build);
    }
  }

  /** After every run, with nothing in flight, Get returns the last value put and nothing else. */
  lemma GetReturnsLastPut(ops: seq<Op>, maxSize: nat, build: Builder, k: Key)
    requires AllowedRun(INITIAL, ops, maxSize, build)
    requires Exec(INITIAL, ops, maxSize, build).tables.inFlight.None?
    ensures Get(Exec(INITIAL, ops, maxSize, build), k) ==
            if k in LastPuts(ops) then Some(LastPuts(ops)[k]) else None
  {
    RunDenotesLastPuts(ops, maxSize, build);
    GetExact(Exec(INITIAL, ops, maxSize, build), k);
  }

  /** The bytes that the files of a level have on disk. */
  function DiskBytes(level: Level, disk: map<nat, seq<Byte>>): nat {
    if level == [] then 0
    else (if level[0].id in disk then |disk[level[0].id]| else 0) + DiskBytes(level[1..], disk)
  }

  lemma {:induction false} DiskBytesAre(level: Level, disk: map<nat, seq<Byte>>, build: Builder)
    requires forall y :: 0 <= y < |level| ==> Stored(level[y], disk, build)
    ensures DiskBytes(level, disk) == BytesIn(level)
  {
    hide LoadsAs;
    if level != [] {
      assert Stored(level[0], disk, build);
      assert forall y :: 0 <= y < |level[1..]| ==> level[1..][y] == level[y + 1];
      DiskBytesAre(level[1..], disk, build);
    }
  }

  /** The files of level 0 to 4 keep their budgets in bytes, and there are at most six levels. */
  ghost predicate FitsOnDisk(store: Store) {
    var levels := Current(store);
    && |levels| <= 6
    && forall i :: 0 <= i < |levels| && i < 5 ==> DiskBytes(levels[i], store.disk) <= BUDGETS[i]
  }

  lemma StoreFits(store: Store, build: Builder)
    requires StoreOk(store, build)
    ensures FitsOnDisk(store)
  {
    hide LoadsAs, OverBudget, Stored, ValidLevels, NumberedUpTo;
    var levels := Current(store);
    forall i | 0 <= i < |levels| && i < 5 ensures DiskBytes(levels[i], store.disk) <= BUDGETS[i] {
      assert !OverBudget(levels, i);
      OverBudgetExact(levels, i);
      forall y | 0 <= y < |levels[i]| ensures Stored(levels[i][y], store.disk, build) {
        OneStored(levels, store.disk, build, i, y);
      }
      DiskBytesAre(levels[i], store.disk, build);
    }
  }

  /** After every run, reopenings included, the files of the live SSTs keep the budgets of their levels. */
  lemma RunKeepsBudgets(ops: seq<Op>, maxSize: nat, build: Builder)
    requires AllowedRun(INITIAL, ops, maxSize, build)
    ensures WithinBudget(Current(Exec(INITIAL, ops, maxSize, build).store), -1)
    ensures FitsOnDisk(Exec(INITIAL, ops, maxSize, build).store)
  {
    RunDenotesLastPuts(ops, maxSize, build);
    StoreFits(Exec(INITIAL, ops, maxSize, build).store, build);
  }

  /** Published manifests are never changed, only added to, until the database is closed. */
  lemma PublishedStay(s: State, op: Op, maxSize: nat, build: Builder)
    requires !op.OpReopen?
    ensures s.store.manifests <= Step(s, op, maxSize, build).store.manifests
  {
  }

  lemma HiddenGet(s: State)
    requires s.tables.mem == [] && s.tables.frozen == [] && Current(s.store) == [[]]
    ensures Get(s, [1]) == None
  {
    GetFinds([[]], [1]);
    assert LevelMap([]) == map[] && AllMap([]) == map[];
    assert AllMap([[]]) == map[];
  }

  lemma PutOnce()
    ensures PutTables(NO_TABLES, [1], [2], 0) == Tables([], [[Entry([1], [2])]], None)
  {
    var t := [Entry([1], [2])];
    assert t[..0] == [];
    assert PayloadSize(t) == 2;
  }

  lemma NothingDone(build: Builder)
    ensures AllowedRun(INITIAL, [], 0, build) && LastPuts([]) == map[] && Exec(INITIAL, [], 0, build) == INITIAL
  {
  }

  lemma ExecOne(s: State, ops: seq<Op>, op: Op, maxSize: nat, build: Builder)
    ensures Exec(s, ops + [op], maxSize, build) == Step(Exec(s, ops, maxSize, build), op, maxSize, build)
    ensures AllowedRun(s, ops + [op], maxSize, build) <==>
            AllowedRun(s, ops, maxSize, build) && Allowed(Exec(s, ops, maxSize, build), op, build)
    ensures LastPuts(ops + [op]) == if op.OpPut? then LastPuts(ops)[op.k := op.v] else LastPuts(ops)
  {
    assert (ops + [op])[..|ops|] == ops;
  }

  /** While a table is in flight, Get misses what was put into it. */
  lemma InFlightIsHidden(build: Builder)
    ensures exists ops: seq<Op>, k: Key ::
      && AllowedRun(INITIAL, ops, 0, build) && k in LastPuts(ops)
      && Get(Exec(INITIAL, ops, 0, build), k) == None
  {
    var put, take := OpPut([1], [2]), OpTake;
    var t := [Entry([1], [2])];
    PutOnce();
    var s1 := State(Tables([], [t], None), INITIAL.store);
    assert [] + [put] == [put] && [put] + [take] == [put, take];
    ExecOne(INITIAL, [], put, 0, build);
    ExecOne(INITIAL, [put], take, 0, build);
    hide AllowedRun, LastPuts;
    assert Exec(INITIAL, [], 0, build) == INITIAL;
    assert Exec(INITIAL, [put], 0, build) == s1;
    var s2 := State(Tables([], [], Some(t)), INITIAL.store);
    assert Exec(INITIAL, [put, take], 0, build) == s2;
    HiddenGet(s2);
    NothingDone(build);
    assert AllowedRun(INITIAL, [put], 0, build) && [1] in LastPuts([put]);
    assert AllowedRun(INITIAL, [put, take], 0, build) && [1] in LastPuts([put, take]);
  }
}
