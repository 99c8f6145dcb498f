/** Runs of the database over the files that the SST constructor really writes. */
module DbFiles {
  import opened Keys
  import opened Entries
  import opened Words
  import opened BloomFormat
  import opened BloomFilters
  import opened SstFormat
  import opened SstFiles
  import opened HeapMerge
  import opened Levels
  import opened Compaction
  import opened Cascade
  import opened DbState
  import opened DbRuns
  import opened SstLoads

  /** The file is one that the constructor leaves, with a filter that started empty or not. */
  ghost predicate Written(file: seq<Byte>, es: Table) {
    es != [] && exists start: Bloom, pad: seq<Byte> ::
      ValidBloom(start) && IsSstFile(file, ToRaw(AddAll(start, KeysOf(es))), pad, es)
  }

  ghost predicate WritesFiles(build: Builder) {
    forall id, es :: es != [] ==> Written(build(id, es), es)
  }

  /** The offset of the data block passes through an int, which is enough for an index below 2^31 bytes. */
  ghost predicate Small(file: seq<Byte>, es: Table)
    requires es != []
  {
    |file| < TWO64 && IndexBlockSize(es) < 0x8000_0000
  }

  lemma OneBlock(b: RawBlock)
    ensures Concat([b]) == b.entries
  {
    assert [b][..0] == [];
  }

  lemma LoadedIs(file: seq<Byte>, start: Bloom, es: Table)
    requires es != [] && ValidBloom(start) && ParseFile(file).Some? && |ParseFile(file).value| == 1
    requires Loaded(ParseFile(file).value[0]) == FileBlock(es, start)
    ensures ParseFile(file).value[0].entries == es
  {
  }

  lemma BuiltLoads(file: seq<Byte>, start: Bloom, pad: seq<Byte>, es: Table)
    requires ValidBloom(start) && IsSstFile(file, ToRaw(AddAll(start, KeysOf(es))), pad, es)
    requires es != [] && Small(file, es) && Sorted(es)
    ensures LoadsAs(file, es)
  {
    hide IsSstFile, AddAll, ParseFile, ValidBlocks, Contents, LevelMap, IndexBlockSize, FileBlock, ValidBloom, Sorted,
      ToRaw, Loaded, Concat, AsLevel;
    LoadedFile(file, start, pad, es);
    LoadedAnswers(es, start);
    LoadedIs(file, start, es);
    var blocks := ParseFile(file).value;
    OneBlock(blocks[0]);
    assert blocks == [blocks[0]];
    assert LoadedBlocks(blocks) == [FileBlock(es, start)];
  }

  /** The load with which the constructor ends, and opening begins, gives back the entries and answers with them. */
  lemma WrittenLoads(file: seq<Byte>, es: Table)
    requires Written(file, es) && Small(file, es) && Sorted(es)
    ensures LoadsAs(file, es)
  {
    var start: Bloom, pad: seq<Byte> :| ValidBloom(start) && IsSstFile(file, ToRaw(AddAll(start, KeysOf(es))), pad, es);
    BuiltLoads(file, start, pad, es);
  }

  /** With bit 31 of the index block's size set, the constructor's own load runs outside the file. */
  lemma LargeIndexCannotLoad(file: seq<Byte>, es: Table)
    requires Written(file, es) && |file| < TWO64 / 2
    requires IndexBlockSize(es) % 0x1_0000_0000 >= 0x8000_0000
    ensures ParseFile(file) == None && !LoadsAs(file, es)
  {
    var start: Bloom, pad: seq<Byte> :| ValidBloom(start) && IsSstFile(file, ToRaw(AddAll(start, KeysOf(es))), pad, es);
    LargeIndexFails(file, es);
  }

  // ---------- lookups on disk ----------

  /** Loading a file and looking a key up in it, through filter and both searches. */
  method FileGet(file: seq<Byte>, ghost es: Table, key: Key) returns (value: Option<Value>)
    requires LoadsAs(file, es)
    ensures value == Lookup(Contents(es), key)
  {
    var blocks := LoadFile(file);
    value := IndexGet(LoadedBlocks(blocks.value), key);
  }

  /** In every reachable state a lookup in the file of a live SST answers with the SST's entries. */
  method LiveGet(s: State, ghost build: Builder, x: nat, y: nat, key: Key) returns (value: Option<Value>)
    requires Inv(s, build) && At(Current(s.store), x, y)
    ensures value == Lookup(Contents(Current(s.store)[x][y].entries), key)
  {
    var sst := Current(s.store)[x][y];
    assert Stored(sst, s.store.disk, build);
    value := FileGet(s.store.disk[sst.id], sst.entries, key);
  }

  // ---------- nothing but sizes decides whether files load ----------

  ghost predicate AllSmall(writes: seq<Write>, build: Builder) {
    forall i :: 0 <= i < |writes| ==>
      writes[i].1 != [] ==> Small(build(writes[i].0, writes[i].1), writes[i].1)
  }

  ghost predicate AllGood(writes: seq<Write>) {
    forall i :: 0 <= i < |writes| ==> GoodTable(writes[i].1)
  }

  lemma SmallLoad(writes: seq<Write>, build: Builder)
    requires WritesFiles(build) && AllSmall(writes, build) && AllGood(writes)
    ensures AllLoad(writes, build)
  {
    hide LoadsAs, Written, Small;
    forall i | 0 <= i < |writes| ensures LoadsAs(build(writes[i].0, writes[i].1), writes[i].1) {
      WrittenLoads(build(writes[i].0, writes[i].1), writes[i].1);
    }
  }

  lemma MergedAtGood(levels: seq<Level>, i: nat)
    requires ValidLevels(levels) && i < |levels| && levels[i] != []
    ensures GoodTable(MergedAt(levels, i))
  {
    hide SplitNext, Merged, Contents;
    ExtendedValid(levels, i);
    var ext := Extended(levels, i);
    SplitValid(ext[i], ext[i + 1]);
    MergedSources(ext[i], SplitNext(ext[i], ext[i + 1]).overlap);
  }

  /** A cascade writes sorted entries, and never none. */
  lemma {:induction false} RunWritesGood(levels: seq<Level>, i: nat, id: nat, build: Builder)
    requires ValidLevels(levels) && (i == 0 ==> SentinelSafe(levels[0]))
    ensures AllGood(RunWrites(levels, i, id, build))
    decreases MAX_LEVEL_SIZE - i
  {
    hide Compact, MergedAt, GoodTable;
    if OverBudget(levels, i) {
      if i > 0 {
        DisjointSentinelSafe(levels[i]);
      }
      MergedAtGood(levels, i);
      CompactKeepsMap(levels, i, id, SizeOf(build, id));
      RunWritesGood(Compact(levels, i, id, SizeOf(build, id)), i + 1, id, build);
    }
  }

  lemma FirstGood(w: Write, rest: seq<Write>)
    requires GoodTable(w.1) && AllGood(rest)
    ensures AllGood([w] + rest)
  {
  }

  lemma PublishSmallLoads(s: State, build: Builder)
    requires Inv(s, build) && WritesFiles(build) && AllSmall(PublishWrites(s, build), build)
    ensures AllLoad(PublishWrites(s, build), build)
  {
    hide Small, Written, LoadsAs;
    if s.tables.inFlight.Some? {
      var levels, t, id := Current(s.store), s.tables.inFlight.value, s.store.sstId + 1;
      var sst := Flushed(t, id, build);
      PublishOverlay(Base(s), s.tables);
      FlushSafe(levels, sst);
      InsertSstMap(levels, sst);
      RunWritesGood(InsertSst(levels, sst), 0, id + 1, build);
      FirstGood((id, t), RunWrites(InsertSst(levels, sst), 0, id + 1, build));
    }
    SmallLoad(PublishWrites(s, build), build);
  }

  lemma SmallStep(s: State, build: Builder)
    requires AllSmall(DrainWrites(s, build), build)
    ensures AllSmall(PublishWrites(s, build), build)
    ensures var published := PublishStep(s, build);
            published.tables.frozen != [] ==>
              AllSmall(DrainWrites(published.(tables := TakeTables(published.tables)), build), build)
  {
    hide Small, PublishWrites, PublishStep, TakeTables;
    var all, n := DrainWrites(s, build), |PublishWrites(s, build)|;
    assert all[..n] == PublishWrites(s, build);
    assert forall j :: 0 <= j < n ==> all[..n][j] == all[j];
    assert forall j :: 0 <= j < |all[n..]| ==> all[n..][j] == all[n + j];
  }

  lemma BothLoad(a: seq<Write>, b: seq<Write>, build: Builder)
    requires AllLoad(a, build) && AllLoad(b, build)
    ensures AllLoad(a + b, build)
  {
    hide LoadsAs;
  }

  lemma {:induction false} DrainSmallLoads(s: State, build: Builder)
    requires Inv(s, build) && WritesFiles(build) && AllSmall(DrainWrites(s, build), build)
    ensures AllLoad(DrainWrites(s, build), build)
    decreases |s.tables.frozen|
  {
    hide AllSmall, AllLoad, PublishWrites, StoreOk;
    var published := PublishStep(s, build);
    SmallStep(s, build);
    PublishSmallLoads(s, build);
    PublishKeeps(s, build);
    if published.tables.frozen != [] {
      var taken := published.(tables := TakeTables(published.tables));
      TakeChanges(Base(published), published.tables);
      TakeKeepsTables(published.tables);
      DrainSmallLoads(taken, build);
      BothLoad(PublishWrites(s, build), DrainWrites(taken, build), build);
    } else {
      assert DrainWrites(s, build) == PublishWrites(s, build) + [];
      assert PublishWrites(s, build) + [] == PublishWrites(s, build);
    }
  }

  /** What has to hold to close the database and open it again: nothing but sizes. */
  ghost predicate SmallRestart(s: State, build: Builder) {
    var store := Close(s, build).store;
    store.version < TWO64 && store.sstId < 0x8000_0000 && AllSmall(CloseWrites(s, build), build)
  }

  lemma SmallCanRestart(s: State, build: Builder)
    requires Inv(s, build) && WritesFiles(build) && SmallRestart(s, build)
    ensures CanRestart(s, build)
  {
    hide AllSmall, AllLoad, Close;
    QueueChanges(Base(s), s.tables);
    QueueAgain(Queued(Base(s), s.tables), Contents(s.tables.mem));
    DrainSmallLoads(s.(tables := QueueActive(s.tables)), build);
  }

  // ---------- runs ----------

  /** Keys are not empty, and every file is small when it is written. */
  ghost predicate SmallRun(s: State, ops: seq<Op>, maxSize: nat, build: Builder) {
    ops == [] ||
    (var before := Exec(s, ops[..|ops| - 1], maxSize, build);
     && SmallRun(s, ops[..|ops| - 1], maxSize, build)
     && match ops[|ops| - 1]
        case OpPut(k, _) => k != []
        case OpTake => true
        case OpPublish => AllSmall(PublishWrites(before, build), build)
        case OpReopen(_) => SmallRestart(before, build))
  }

  lemma {:induction false} SmallRunAllowed(ops: seq<Op>, maxSize: nat, build: Builder)
    requires WritesFiles(build) && SmallRun(INITIAL, ops, maxSize, build)
    ensures AllowedRun(INITIAL, ops, maxSize, build)
  {
    hide Inv, AllSmall, AllLoad, SmallRestart, CanRestart, WritesFiles;
    if ops != [] {
      var init := ops[..|ops| - 1];
      SmallRunAllowed(init, maxSize, build);
      RunDenotesLastPuts(init, maxSize, build);
      match ops[|ops| - 1]
      case OpPublish =>
        PublishSmallLoads(Exec(INITIAL, init, maxSize, build), build);
      case OpReopen(_) =>
        SmallCanRestart(Exec(INITIAL, init, maxSize, build), build);
      case _ =>
    }
  }

  /** Over every run on such files, with nothing in flight, Get returns the last value put and nothing else. */
  lemma GetReturnsLastPutOnFiles(ops: seq<Op>, maxSize: nat, build: Builder, k: Key)
    requires WritesFiles(build) && SmallRun(INITIAL, ops, maxSize, build)
    requires Exec(INITIAL, ops, maxSize, build).tables.inFlight.None?
    ensures Get(Exec(INITIAL, ops, maxSize, build), k) ==
            if k in LastPuts(ops) then Some(LastPuts(ops)[k]) else None
  {
    SmallRunAllowed(ops, maxSize, build);
    GetReturnsLastPut(ops, maxSize, build, k);
  }

  /** A table with one very long key cannot be flushed: the load of its file runs outside it. */
  lemma LongKeyCannotFlush(s: State, build: Builder, k: Key, v: Value)
    requires WritesFiles(build) && s.tables.inFlight == Some([Entry(k, v)]) && Current(s.store) != []
    requires 0x8000_0000 <= 4 * WORD + |k| < 0x1_0000_0000
    requires |build(s.store.sstId + 1, [Entry(k, v)])| < TWO64 / 2
    ensures !AllLoad(PublishWrites(s, build), build)
  {
    hide LoadsAs, RunWrites, Written;
    var t, id := [Entry(k, v)], s.store.sstId + 1;
    assert Written(build(id, t), t);
    LargeIndexCannotLoad(build(id, t), t);
    assert PublishWrites(s, build)[0] == (id, t);
  }

  // ---------- such files exist ----------

  function Zeros(n: nat): (r: seq<Byte>)
    ensures |r| == n
  {
    seq(n, _ => 0)
  }

  /** One file the constructor may leave, with zeros wherever it does not write. */
  function PlainFile(start: Bloom, es: Table): seq<Byte>
    requires es != [] && start.length >= 1 && |start.words| == WordCount(start.length)
  {
    var r := ToRaw(AddAll(start, KeysOf(es)));
    IndexBytes(es) + Zeros(IndexBlockSize(es) - |IndexBytes(es)|)
    + (Encode(DataBlockSize(es, BinarySize(|r.seeds|, |r.words|)))
       + BodyBytes(r, Zeros(Align(2 * WORD + WORD * |r.seeds|)), es))
  }

  lemma EndsWith(a: seq<Byte>, b: seq<Byte>)
    ensures HasBytes(a + b, |a|, b) && HasBytes(a + b, 0, a)
  {
    assert (a + b)[|a|..|a| + |b|] == b;
    assert (a + b)[0..|a|] == a;
  }

  lemma PlainFileWritten(start: Bloom, es: Table)
    requires ValidBloom(start) && es != []
    ensures Written(PlainFile(start, es), es)
  {
    hide IndexBytes, BodyBytes, DataBlockSize, BinarySize, AddAll, Encode, IndexBlockSize, Align;
    var r := ToRaw(AddAll(start, KeysOf(es)));
    var pad := Zeros(Align(2 * WORD + WORD * |r.seeds|));
    var index, gap := IndexBytes(es), Zeros(IndexBlockSize(es) - |IndexBytes(es)|);
    var size, body := Encode(DataBlockSize(es, BinarySize(|r.seeds|, |r.words|))), BodyBytes(r, pad, es);
    var file := PlainFile(start, es);
    EndsWith(index + gap, size + body);
    HasSplit(file, 0, index, gap);
    HasSplit(file, IndexBlockSize(es), size, body);
    assert IsSstFile(file, r, pad, es);
  }

  /** So the condition on the builder can be met. */
  lemma SomeBuilderWrites()
    ensures exists build: Builder :: WritesFiles(build)
  {
    var start := Bloom(1, [0], [0]);
    var build: Builder := (id: nat, es: Table) => if es == [] then [] else PlainFile(start, es);
    forall id: nat, es: Table | es != [] ensures Written(build(id, es), es) {
      PlainFileWritten(start, es);
    }
    assert WritesFiles(build);
  }
}
