/** The DB object: its fields change step by step as the state machine says. */
module DbObject {
  import opened Keys
  import opened Entries
  import opened Levels
  import opened Cascade
  import opened DbState
  import opened DbRuns
  import opened ManifestFile
  import opened ManifestObject
  import opened ManifestLoads

  ghost function LevelsOf(queue: seq<Manifest>): (levels: seq<seq<Level>>)
    reads queue
    ensures |levels| == |queue|
    ensures forall i :: 0 <= i < |queue| ==> levels[i] == queue[i].levels
  {
    if queue == [] then [] else LevelsOf(queue[..|queue| - 1]) + [queue[|queue| - 1].levels]
  }

  lemma LevelsOfAppend(queue: seq<Manifest>, m: Manifest)
    ensures LevelsOf(queue + [m]) == LevelsOf(queue) + [m.levels]
  {
  }

  /** The manifest after inserting an SST; compaction only happens when level 0 is over its budget. */
  method InsertInto(last: Manifest, sst: Sst, id: nat, size: seq<Entry> -> nat) returns (m: Manifest, compacted: bool)
    requires last.Valid() && ValidSst(sst) && SentinelSafe(InsertSst(last.levels, sst)[0])
    modifies last`maxSstId
    ensures fresh(m) && m.Valid() && m.version == last.version + 1
    ensures m.levels == Flush(last.levels, sst, id, size)
    ensures compacted == OverBudget(InsertSst(last.levels, sst), 0)
  {
    m := last.InsertAndUpdate(sst);
    compacted := m.CanDoCompaction();
    if compacted {
      m.CompactFrom0(id, size);
    }
  }

  /** The table makes an SST, with it level 0 is safe for compaction, and every file the flush writes can be loaded. */
  ghost predicate CanInsert(levels: seq<Level>, t: Table, id: nat, build: Builder) {
    && levels != []
    && ValidSst(Flushed(t, id, build))
    && SentinelSafe(InsertSst(levels, Flushed(t, id, build))[0])
    && AllLoad(FlushWrites(levels, t, id, build), build)
  }

  lemma CanInsertMeans(levels: seq<Level>, t: Table, id: nat, build: Builder)
    requires CanInsert(levels, t, id, build)
    ensures levels != [] && ValidSst(Flushed(t, id, build)) && SentinelSafe(InsertSst(levels, Flushed(t, id, build))[0])
  {
  }

  /** Every state reached without empty keys may flush when the files load. */
  lemma FlushAllowed(s: State, build: Builder)
    requires Inv(s, build) && s.tables.inFlight.Some? && AllLoad(PublishWrites(s, build), build)
    ensures CanInsert(Current(s.store), s.tables.inFlight.value, s.store.sstId + 1, build)
  {
    PublishOverlay(Base(s), s.tables);
    FlushSafe(Current(s.store), Flushed(s.tables.inFlight.value, s.store.sstId + 1, build));
  }

  /** The manifest after flushing a table under number id, the last number used, and the files then on disk. */
  method NextManifest(last: Manifest, t: Table, id: nat, build: Builder, disk: map<nat, seq<Byte>>)
    returns (m: Manifest, lastId: nat, files: map<nat, seq<Byte>>)
    requires last.Valid() && CanInsert(last.levels, t, id, build)
    modifies last`maxSstId
    ensures fresh(m) && m.Valid() && m.version == last.version + 1
    ensures m.levels == FlushLevels(last.levels, t, id, build)
    ensures lastId == LastId(last.levels, t, id, build)
    ensures files == FlushFiles(last.levels, t, id, build, disk)
  {
    hide Run, RunFiles, CanInsert;
    assert ValidSst(Flushed(t, id, build)) && SentinelSafe(InsertSst(last.levels, Flushed(t, id, build))[0]) by {
      CanInsertMeans(last.levels, t, id, build);
    }
    var compacted;
    m, compacted := InsertInto(last, Flushed(t, id, build), id + 1, SizeOf(build, id + 1));
    lastId := if compacted then id + 1 else id;
    files := FlushFiles(last.levels, t, id, build, disk);
  }

  // ---------- the drain, step by step ----------

  lemma CloseStarts(s: State, build: Builder)
    requires Inv(s, build) && AllLoad(CloseWrites(s, build), build)
    ensures var queued := s.(tables := QueueActive(s.tables));
            && Inv(queued, build) && AllLoad(DrainWrites(queued, build), build)
            && Drain(queued, build) == DbState.Close(s, build)
  {
    hide AllLoad, StoreOk;
    QueueChanges(Base(s), s.tables);
    QueueAgain(Queued(Base(s), s.tables), Contents(s.tables.mem));
  }

  lemma NoWrites(build: Builder)
    ensures AllLoad([], build)
  {
  }

  lemma NothingToPublish(s: State, build: Builder)
    requires s.tables.inFlight.None?
    ensures PublishStep(s, build) == s && PublishWrites(s, build) == []
  {
  }

  lemma DrainAfterPublish(s: State, build: Builder)
    requires AllLoad(DrainWrites(s, build), build) && PublishStep(s, build).tables.inFlight.None?
    ensures AllLoad(DrainWrites(PublishStep(s, build), build), build)
    ensures Drain(PublishStep(s, build), build) == Drain(s, build)
  {
    hide AllLoad, PublishStep, PublishWrites, TakeTables;
    var published := PublishStep(s, build);
    DrainWritesStep(s, build);
    NothingToPublish(published, build);
    NoWrites(build);
    if published.tables.frozen != [] {
      var rest := DrainWrites(published.(tables := TakeTables(published.tables)), build);
      assert [] + rest == rest;
    } else {
      var none: seq<Write> := [];
      assert none + none == none;
    }
  }

  /** Publishing what is in flight is the drain's first step. */
  lemma DrainPublish(s: State, build: Builder)
    requires Inv(s, build) && AllLoad(DrainWrites(s, build), build) && s.tables.inFlight.Some?
    ensures CanInsert(Current(s.store), s.tables.inFlight.value, s.store.sstId + 1, build)
    ensures var published := PublishStep(s, build);
            && Inv(published, build) && AllLoad(DrainWrites(published, build), build)
            && Drain(published, build) == Drain(s, build)
  {
    hide AllLoad, StoreOk, PublishStep, PublishWrites, CanInsert, Queued, Drain, DrainWrites, TablesOk;
    DrainWritesStep(s, build);
    FlushAllowed(s, build);
    PublishKeeps(s, build);
    DrainAfterPublish(s, build);
  }

  /** With nothing in flight the drain goes on by taking a table. */
  lemma DrainTake(s: State, build: Builder)
    requires Inv(s, build) && AllLoad(DrainWrites(s, build), build) && s.tables.inFlight.None? && s.tables.frozen != []
    ensures var taken := s.(tables := TakeTables(s.tables));
            && Inv(taken, build) && AllLoad(DrainWrites(taken, build), build)
            && Drain(taken, build) == Drain(s, build)
  {
    hide AllLoad, StoreOk;
    DrainWritesStep(s, build);
    TakeChanges(Base(s), s.tables);
    TakeKeepsTables(s.tables);
    assert PublishStep(s, build) == s;
  }

  lemma DrainDone(s: State, build: Builder)
    requires s.tables.inFlight.None? && s.tables.frozen == []
    ensures Drain(s, build) == s
  {
  }

  lemma RestartedValid(s: State, build: Builder, stale: seq<Byte>)
    requires Inv(DbState.Restart(s, build, stale), build)
    ensures ValidLevels(Current(DbState.Restart(s, build, stale).store))
  {
  }

  class DB {
    const maxSize: nat
    var memtable: Table
    var inMemtables: seq<Table>
    var flushing: Option<Table>
    var manifestQueue: seq<Manifest>
    var sstId: nat
    var disk: map<nat, seq<Byte>>

    ghost predicate Valid()
      reads this, manifestQueue
    {
      && manifestQueue != []
      && forall i :: 0 <= i < |manifestQueue| ==> manifestQueue[i].Valid()
    }

    ghost function InMemory(): Tables
      reads this
    {
      Tables(memtable, inMemtables, flushing)
    }

    ghost function Published(): Store
      reads this, manifestQueue
      requires Valid()
    {
      Store(manifestQueue[|manifestQueue| - 1].version, LevelsOf(manifestQueue), sstId, disk)
    }

    ghost function Abstract(): State
      reads this, manifestQueue
      requires Valid()
    {
      State(InMemory(), Published())
    }

    /** Starts with the one manifest found on disk. */
    constructor (maxSize: nat, m: Manifest, disk: map<nat, seq<Byte>>)
      requires m.Valid()
      ensures Valid() && manifestQueue == [m] && this.maxSize == maxSize
      ensures Abstract() == State(NO_TABLES, Store(m.version, [m.levels], m.maxSstId, disk))
    {
      this.maxSize := maxSize;
      memtable, inMemtables, flushing, manifestQueue := [], [], None, [m];
      sstId, this.disk := m.maxSstId, disk;
    }

    method Get(key: Key) returns (value: Option<Value>)
      requires Valid()
      ensures value == DbState.Get(Abstract(), key)
    {
      value := Lookup(Contents(memtable), key);
      if value.Some? {
        return;
      }
      var i := |inMemtables|;
      assert inMemtables[..i] == inMemtables;
      while i > 0
        invariant 0 <= i <= |inMemtables|
        invariant FrozenGet(inMemtables, key) == FrozenGet(inMemtables[..i], key)
      {
        i := i - 1;
        assert inMemtables[..i + 1][..i] == inMemtables[..i];
        value := Lookup(Contents(inMemtables[i]), key);
        if value.Some? {
          return;
        }
      }
      value := manifestQueue[|manifestQueue| - 1].Get(key);
    }

    method Put(key: Key, value: Value)
      requires Valid()
      modifies this`memtable, this`inMemtables
      ensures Valid() && Published() == old(Published())
      ensures InMemory() == PutTables(old(InMemory()), key, value, maxSize)
    {
      memtable := Insert(memtable, Entry(key, value));
      if TableSize(memtable) > maxSize {
        inMemtables := inMemtables + [memtable];
        memtable := [];
      }
    }

    /** The flush thread takes the oldest frozen table. */
    method TakeFront()
      requires Valid() && flushing.None? && inMemtables != []
      modifies this`inMemtables, this`flushing
      ensures Valid() && Published() == old(Published())
      ensures InMemory() == TakeTables(old(InMemory())) && flushing.Some?
    {
      flushing := Some(inMemtables[0]);
      inMemtables := inMemtables[1..];
    }

    /** The destructor queues a non-empty active table; the flush thread then goes on until nothing is left. */
    method QueueForClose()
      requires Valid()
      modifies this`inMemtables
      ensures Valid() && Published() == old(Published())
      ensures InMemory() == QueueActive(old(InMemory()))
    {
      if memtable != [] {
        inMemtables := inMemtables + [memtable];
      }
    }

    /** Builds an SST from the table in flight and publishes a new manifest; older manifests keep their levels. */
    method ToSST(build: Builder)
      requires Valid() && flushing.Some? && CanInsert(Current(Published()), flushing.value, sstId + 1, build)
      modifies this, manifestQueue[|manifestQueue| - 1]
      ensures Valid() && InMemory() == old(InMemory()).(inFlight := None)
      ensures Published() == FlushStore(old(Published()), old(flushing.value), build)
      ensures |manifestQueue| == |old(manifestQueue)| + 1
      ensures forall i :: 0 <= i < |old(manifestQueue)| ==>
                manifestQueue[i] == old(manifestQueue)[i] && manifestQueue[i].levels == old(manifestQueue[i].levels)
      ensures fresh(manifestQueue[|old(manifestQueue)|])
    {
      hide FlushLevels, FlushFiles, LastId, CanInsert;
      ghost var before := Published();
      var last := manifestQueue[|manifestQueue| - 1];
      var newManifest, lastId, files := NextManifest(last, flushing.value, sstId + 1, build, disk);
      assert LevelsOf(manifestQueue) == before.manifests;
      AppendManifest(newManifest, lastId, files);
    }

    /** Publishing: the new manifest goes to the end of the queue and nothing is in flight any more. */
    method AppendManifest(m: Manifest, lastId: nat, files: map<nat, seq<Byte>>)
      requires Valid() && m.Valid() && m.version == manifestQueue[|manifestQueue| - 1].version + 1
      modifies this`flushing, this`manifestQueue, this`sstId, this`disk
      ensures Valid() && manifestQueue == old(manifestQueue) + [m]
      ensures InMemory() == old(InMemory()).(inFlight := None)
      ensures Published() == Publish(old(Published()), m.levels, lastId, files)
    {
      LevelsOfAppend(manifestQueue, m);
      disk := files;
      sstId := lastId;
      manifestQueue := manifestQueue + [m];
      flushing := None;
    }

    ghost function Last(): Manifest
      reads this
      requires manifestQueue != []
    {
      manifestQueue[|manifestQueue| - 1]
    }

    /** What a drain still needs: the invariant, and that every file to come loads. */
    ghost predicate CanDrain(build: Builder)
      reads this, manifestQueue
    {
      Valid() && Inv(Abstract(), build) && AllLoad(DrainWrites(Abstract(), build), build)
    }

    /** Publishes the table in flight. */
    method FlushOne(build: Builder)
      requires CanDrain(build) && flushing.Some?
      modifies this, Last()
      ensures CanDrain(build) && flushing.None? && inMemtables == old(inMemtables) && fresh(Last())
      ensures Drain(Abstract(), build) == Drain(old(Abstract()), build)
    {
      hide Inv, AllLoad, DrainWrites, Drain, CanInsert, FlushStore;
      DrainPublish(Abstract(), build);
      ToSST(build);
    }

    /** One round of the flush loop. */
    method FlushRound(build: Builder)
      requires CanDrain(build) && flushing.None? && inMemtables != []
      modifies this, Last()
      ensures CanDrain(build) && flushing.None? && |inMemtables| < |old(inMemtables)| && fresh(Last())
      ensures Drain(Abstract(), build) == Drain(old(Abstract()), build)
    {
      hide Inv, AllLoad, DrainWrites, Drain;
      DrainTake(Abstract(), build);
      TakeFront();
      FlushOne(build);
    }

    /** The destructor: the flush thread works off its queue, and the last manifest is saved. */
    method Close(build: Builder) returns (saved: seq<Byte>)
      requires Valid() && Inv(Abstract(), build) && AllLoad(CloseWrites(Abstract(), build), build)
      modifies this, manifestQueue
      ensures Valid() && Abstract() == DbState.Close(old(Abstract()), build)
      ensures saved == ManifestBytes(Published().version, AllIds(Current(Published())))
    {
      hide Inv, AllLoad, DrainWrites, Drain, DbState.Close, CloseWrites;
      CloseStarts(Abstract(), build);
      QueueForClose();
      if flushing.Some? {
        FlushOne(build);
      }
      while inMemtables != []
        invariant CanDrain(build) && flushing.None? && (Last() in old(manifestQueue) || fresh(Last()))
        invariant Drain(Abstract(), build) == DbState.Close(old(Abstract()), build)
        decreases |inMemtables|
      {
        FlushRound(build);
      }
      DrainDone(Abstract(), build);
      var last := manifestQueue[|manifestQueue| - 1];
      saved := ManifestBytes(last.version, AllIds(last.levels));
    }

    /** Opens what was saved. */
    constructor Open(maxSize: nat, file: seq<Byte>, disk: map<nat, seq<Byte>>)
      requires ValidLevels(Current(DbState.Open(file, disk).store))
      ensures Valid() && this.maxSize == maxSize && Abstract() == DbState.Open(file, disk)
      ensures forall i :: 0 <= i < |manifestQueue| ==> fresh(manifestQueue[i])
    {
      hide DbState.Open;
      var m := LoadManifest(file, disk);
      this.maxSize := maxSize;
      memtable, inMemtables, flushing, manifestQueue := [], [], None, [m];
      sstId, this.disk := m.maxSstId, disk;
    }
  }

  /** Closing a database and opening another on its files takes the restart step. */
  method Restart(db: DB, build: Builder, stale: seq<Byte>) returns (next: DB)
    requires db.Valid() && Inv(db.Abstract(), build) && CanRestart(db.Abstract(), build)
    modifies db, db.manifestQueue
    ensures fresh(next) && next.Valid() && next.maxSize == db.maxSize
    ensures forall i :: 0 <= i < |next.manifestQueue| ==> fresh(next.manifestQueue[i])
    ensures next.Abstract() == DbState.Restart(old(db.Abstract()), build, stale)
    ensures Inv(next.Abstract(), build) && Overlaid(next.Abstract()) == Overlaid(old(db.Abstract()))
  {
    hide Inv, AllLoad, DbState.Close, Overlaid;
    RestartKeeps(db.Abstract(), build, stale);
    ghost var was := db.Abstract();
    var saved := db.Close(build);
    RestartedValid(was, build, stale);
    next := new DB.Open(db.maxSize, saved + stale, db.disk);
  }

  lemma {:induction false} AllowedUpTo(ops: seq<Op>, n: nat, maxSize: nat, build: Builder)
    requires AllowedRun(INITIAL, ops, maxSize, build) && n < |ops|
    ensures AllowedRun(INITIAL, ops[..n], maxSize, build)
    ensures Allowed(Exec(INITIAL, ops[..n], maxSize, build), ops[n], build)
    decreases |ops|
  {
    hide Allowed, Exec;
    if n < |ops| - 1 {
      var init := ops[..|ops| - 1];
      AllowedUpTo(init, n, maxSize, build);
      assert init[..n] == ops[..n] && init[n] == ops[n];
    }
  }

  /** Where the run stands after n operations, and the next one. */
  lemma MayGoOn(ops: seq<Op>, n: nat, maxSize: nat, build: Builder)
    requires AllowedRun(INITIAL, ops, maxSize, build) && n < |ops|
    ensures var before := Exec(INITIAL, ops[..n], maxSize, build);
            && Inv(before, build) && Allowed(before, ops[n], build)
            && Exec(INITIAL, ops[..n + 1], maxSize, build) == Step(before, ops[n], maxSize, build)
  {
    hide Inv, Allowed, AllowedRun, Step, Exec;
    AllowedUpTo(ops, n, maxSize, build);
    RunDenotesLastPuts(ops[..n], maxSize, build);
    assert ops[..n + 1] == ops[..n] + [ops[n]];
    ExecOne(INITIAL, ops[..n], ops[n], maxSize, build);
  }

  lemma InitialExec(maxSize: nat, build: Builder)
    ensures Exec(INITIAL, [], maxSize, build) == INITIAL
  {
  }

  /** The manifests queued are those queued before, or new ones. */
  twostate predicate OldOrNew(was: seq<Manifest>, new now: seq<Manifest>) {
    forall i :: 0 <= i < |now| ==> now[i] in was || fresh(now[i])
  }

  lemma AppendedIsNew(was: seq<Manifest>, now: seq<Manifest>)
    requires |now| == |was| + 1 && forall i :: 0 <= i < |was| ==> now[i] == was[i]
    ensures forall i :: 0 <= i < |now| ==> now[i] in was || now[i] == now[|was|]
  {
  }

  method PublishIfAny(db: DB, build: Builder)
    requires db.Valid() && Inv(db.Abstract(), build) && AllLoad(PublishWrites(db.Abstract(), build), build)
    modifies db, db.manifestQueue
    ensures db.Valid() && db.Abstract() == PublishStep(old(db.Abstract()), build)
    ensures OldOrNew(old(db.manifestQueue), db.manifestQueue)
  {
    hide Inv, AllLoad, CanInsert, FlushStore, PublishWrites;
    if db.flushing.Some? {
      FlushAllowed(db.Abstract(), build);
      db.ToSST(build);
      AppendedIsNew(old(db.manifestQueue), db.manifestQueue);
    }
  }

  /** One operation on the object; reopening gives another one. */
  method PlayOne(db: DB, op: Op, build: Builder) returns (next: DB)
    requires db.Valid() && Inv(db.Abstract(), build) && Allowed(db.Abstract(), op, build)
    modifies db, db.manifestQueue
    ensures next == db || fresh(next)
    ensures next.Valid() && next.maxSize == db.maxSize
    ensures next.Abstract() == Step(old(db.Abstract()), op, db.maxSize, build)
    ensures OldOrNew(old(db.manifestQueue), next.manifestQueue)
  {
    hide Inv, AllLoad, CanRestart, PublishStep, PublishWrites, DbState.Restart, Overlaid, PutTables;
    next := db;
    match op
    case OpPut(k, v) =>
      db.Put(k, v);
    case OpTake =>
      if db.flushing.None? && db.inMemtables != [] {
        db.TakeFront();
      }
    case OpPublish =>
      PublishIfAny(db, build);
    case OpReopen(stale) =>
      next := Restart(db, build, stale);
  }

  /** A new object taken through any allowed run stands where the state machine's run ends. */
  method Play(ops: seq<Op>, maxSize: nat, build: Builder) returns (db: DB)
    requires AllowedRun(INITIAL, ops, maxSize, build)
    ensures fresh(db) && db.Valid() && db.Abstract() == Exec(INITIAL, ops, maxSize, build)
  {
    hide Inv, Allowed, AllowedRun, Step, Exec, Overlaid, LastPuts, ValidLevels;
    var m := new Manifest.Fresh();
    db := new DB(maxSize, m, map[]);
    InitialExec(maxSize, build);
    for i := 0 to |ops|
      invariant fresh(db) && db.Valid() && db.maxSize == maxSize
      invariant forall k :: 0 <= k < |db.manifestQueue| ==> fresh(db.manifestQueue[k])
      invariant db.Abstract() == Exec(INITIAL, ops[..i], maxSize, build)
    {
      MayGoOn(ops, i, maxSize, build);
      db := PlayOne(db, ops[i], build);
    }
    assert ops[..|ops|] == ops;
  }

  /** So what a new object answers after any allowed run, with nothing in flight, is the last value put. */
  method PlayAndGet(ops: seq<Op>, maxSize: nat, build: Builder, key: Key) returns (value: Option<Value>)
    requires AllowedRun(INITIAL, ops, maxSize, build) && Exec(INITIAL, ops, maxSize, build).tables.inFlight.None?
    ensures value == if key in LastPuts(ops) then Some(LastPuts(ops)[key]) else None
  {
    hide Inv, Allowed, AllowedRun, Step, Exec, Overlaid, LastPuts, DbState.Get;
    var db := Play(ops, maxSize, build);
    value := db.Get(key);
    GetReturnsLastPut(ops, maxSize, build, key);
  }
}
