/** The database as a state machine: memtables, a flush in flight, published manifests, files and restarts. */
module DbState {
  import opened Keys
  import opened Entries
  import opened Words
  import opened SstFormat
  import opened HeapMerge
  import opened Levels
  import opened Compaction
  import opened Cascade
  import ManifestFile
  import F = SstFiles

  type Table = seq<Entry>

  /** The bytes of the file that a flush or a compaction writes, given its number and its entries. */
  type Builder = (nat, seq<Entry>) -> seq<Byte>

  /**
   * The tables in memory. The flush thread takes a frozen table out of its queue before it publishes the manifest
   * that holds it; in between the table is in flight.
   */
  datatype Tables = Tables(mem: Table, frozen: seq<Table>, inFlight: Option<Table>)

  /** What is published: manifests are only ever appended and the last one answers; the files by number. */
  datatype Store = Store(version: nat, manifests: seq<seq<Level>>, sstId: nat, disk: map<nat, seq<Byte>>)

  datatype State = State(tables: Tables, store: Store)

  function Current(store: Store): seq<Level> {
    if store.manifests == [] then [[]] else store.manifests[|store.manifests| - 1]
  }

  // ---------- answers ----------

  function FrozenGet(frozen: seq<Table>, k: Key): Option<Value> {
    if frozen == [] then None
    else
      var found := Lookup(Contents(frozen[|frozen| - 1]), k);
      if found.Some? then found else FrozenGet(frozen[..|frozen| - 1], k)
  }

  /** The active table, then the frozen ones from the newest, then the last manifest. */
  function Get(s: State, k: Key): Option<Value> {
    var active := Lookup(Contents(s.tables.mem), k);
    if active.Some? then active
    else
      var frozen := FrozenGet(s.tables.frozen, k);
      if frozen.Some? then frozen else GetFrom(Current(s.store), 0, k)
  }

  ghost function FrozenMap(frozen: seq<Table>): map<Key, Value> {
    if frozen == [] then map[] else FrozenMap(frozen[..|frozen| - 1]) + Contents(frozen[|frozen| - 1])
  }

  ghost function InFlightMap(t: Tables): map<Key, Value> {
    if t.inFlight.Some? then Contents(t.inFlight.value) else map[]
  }

  /** The answers of a store overlaid by the tables that wait to be flushed. */
  ghost function Queued(base: map<Key, Value>, t: Tables): map<Key, Value> {
    base + InFlightMap(t) + FrozenMap(t.frozen)
  }

  ghost function Base(s: State): map<Key, Value> {
    AllMap(Current(s.store))
  }

  /** What the database denotes: manifest, table in flight, frozen tables, active table, each over the former. */
  ghost function Overlaid(s: State): map<Key, Value> {
    Queued(Base(s), s.tables) + Contents(s.tables.mem)
  }

  lemma {:induction false} FrozenGetFinds(frozen: seq<Table>, k: Key)
    ensures FrozenGet(frozen, k) == Lookup(FrozenMap(frozen), k)
  {
    if frozen != [] {
      FrozenGetFinds(frozen[..|frozen| - 1], k);
    }
  }

  /**
   * Get answers with the overlay exactly when the key is not hidden in flight: no table in flight holds it, a newer
   * table holds it too, or the manifest already gives it the same value.
   */
  lemma GetExact(s: State, k: Key)
    requires ValidLevels(Current(s.store))
    ensures Get(s, k) == Lookup(Overlaid(s), k) <==>
            || k !in InFlightMap(s.tables)
            || k in FrozenMap(s.tables.frozen) || k in Contents(s.tables.mem)
            || (k in Base(s) && Base(s)[k] == InFlightMap(s.tables)[k])
  {
    FrozenGetFinds(s.tables.frozen, k);
    GetFinds(Current(s.store), k);
  }

  // ---------- steps on the tables ----------

  /** The bytes of keys and values that the table counts. */
  function TableSize(t: Table): nat {
    PayloadSize(t)
  }

  function PutTables(t: Tables, k: Key, v: Value, maxSize: nat): Tables {
    var mem := Insert(t.mem, Entry(k, v));
    if TableSize(mem) > maxSize then t.(mem := [], frozen := t.frozen + [mem]) else t.(mem := mem)
  }

  function TakeTables(t: Tables): Tables {
    if t.inFlight.None? && t.frozen != [] then t.(inFlight := Some(t.frozen[0]), frozen := t.frozen[1..]) else t
  }

  /** The destructor queues a non-empty active table, which stays active too. */
  function QueueActive(t: Tables): Tables {
    if t.mem != [] then t.(frozen := t.frozen + [t.mem]) else t
  }

  // ---------- steps on the store ----------

  /** The file sizes that a builder gives to files numbered id. */
  function SizeOf(build: Builder, id: nat): seq<Entry> -> nat {
    es => |build(id, es)|
  }

  /** The entries that compacting level l writes. */
  function MergedAt(levels: seq<Level>, l: nat): Table
    requires l < |levels|
  {
    var ext := Extended(levels, l);
    Merged(Sources(ext[l], SplitNext(ext[l], ext[l + 1]).overlap))
  }

  /** The files a cascade leaves; each compaction writes over the file of the one before it. */
  function RunFiles(levels: seq<Level>, i: nat, id: nat, build: Builder, disk: map<nat, seq<Byte>>): map<nat, seq<Byte>>
    decreases MAX_LEVEL_SIZE - i
  {
    if OverBudget(levels, i) then
      RunFiles(Compact(levels, i, id, SizeOf(build, id)), i + 1, id, build, disk[id := build(id, MergedAt(levels, i))])
    else disk
  }

  /** The SST that a flush under number id builds. */
  function Flushed(t: Table, id: nat, build: Builder): Sst {
    Build(t, id, SizeOf(build, id))
  }

  /** The levels after flushing one table under number id; the cascade builds its files under number id + 1. */
  function FlushLevels(levels: seq<Level>, t: Table, id: nat, build: Builder): seq<Level>
    requires levels != []
  {
    Flush(levels, Flushed(t, id, build), id + 1, SizeOf(build, id + 1))
  }

  function FlushFiles(levels: seq<Level>, t: Table, id: nat, build: Builder, disk: map<nat, seq<Byte>>)
    : map<nat, seq<Byte>>
    requires levels != []
  {
    RunFiles(InsertSst(levels, Flushed(t, id, build)), 0, id + 1, build, disk[id := build(id, t)])
  }

  /** A file as it is written: its number and its entries. */
  type Write = (nat, Table)

  /** The files a cascade writes, in order. */
  function RunWrites(levels: seq<Level>, i: nat, id: nat, build: Builder): seq<Write>
    decreases MAX_LEVEL_SIZE - i
  {
    if OverBudget(levels, i) then
      [(id, MergedAt(levels, i))] + RunWrites(Compact(levels, i, id, SizeOf(build, id)), i + 1, id, build)
    else []
  }

  /** The files a flush writes: the table's own, then those of the cascade. */
  function FlushWrites(levels: seq<Level>, t: Table, id: nat, build: Builder): seq<Write>
    requires levels != []
  {
    [(id, t)] + RunWrites(InsertSst(levels, Flushed(t, id, build)), 0, id + 1, build)
  }

  function LastId(levels: seq<Level>, t: Table, id: nat, build: Builder): nat
    requires levels != []
  {
    if OverBudget(InsertSst(levels, Flushed(t, id, build)), 0) then id + 1 else id
  }

  /** A new manifest is published. */
  function Publish(store: Store, next: seq<Level>, lastId: nat, files: map<nat, seq<Byte>>): Store {
    Store(store.version + 1, store.manifests + [next], lastId, files)
  }

  /** One table is flushed, and the levels compacted as far as their budgets demand. */
  function FlushStore(store: Store, t: Table, build: Builder): Store {
    var levels, id := Current(store), store.sstId + 1;
    if levels == [] then store
    else Publish(store, FlushLevels(levels, t, id, build), LastId(levels, t, id, build),
                 FlushFiles(levels, t, id, build, store.disk))
  }

  // ---------- steps of the database ----------

  function PublishStep(s: State, build: Builder): State {
    if s.tables.inFlight.None? then s
    else State(s.tables.(inFlight := None), FlushStore(s.store, s.tables.inFlight.value, build))
  }

  function PublishWrites(s: State, build: Builder): seq<Write> {
    if s.tables.inFlight.None? || Current(s.store) == [] then []
    else FlushWrites(Current(s.store), s.tables.inFlight.value, s.store.sstId + 1, build)
  }

  /** The flush thread working off its queue. */
  function Drain(s: State, build: Builder): State
    decreases |s.tables.frozen|
  {
    var published := PublishStep(s, build);
    if published.tables.frozen == [] then published
    else Drain(published.(tables := TakeTables(published.tables)), build)
  }

  function DrainWrites(s: State, build: Builder): seq<Write>
    decreases |s.tables.frozen|
  {
    var published := PublishStep(s, build);
    PublishWrites(s, build) +
    if published.tables.frozen == [] then []
    else DrainWrites(published.(tables := TakeTables(published.tables)), build)
  }

  /** The destructor lets the flush thread finish. */
  function Close(s: State, build: Builder): State {
    Drain(s.(tables := QueueActive(s.tables)), build)
  }

  function CloseWrites(s: State, build: Builder): seq<Write> {
    DrainWrites(s.(tables := QueueActive(s.tables)), build)
  }

  function IdsOf(level: Level): seq<nat> {
    seq(|level|, i requires 0 <= i < |level| => level[i].id)
  }

  function AllIds(levels: seq<Level>): seq<seq<nat>> {
    seq(|levels|, i requires 0 <= i < |levels| => IdsOf(levels[i]))
  }

  function Concat(blocks: seq<RawBlock>): Table {
    if blocks == [] then [] else Concat(blocks[..|blocks| - 1]) + blocks[|blocks| - 1].entries
  }

  /** The entries that loading a file gives; None stands for a load that runs outside the file. */
  function EntriesIn(file: seq<Byte>): Option<Table> {
    var blocks := ParseFile(file);
    if blocks.None? then None else Some(Concat(blocks.value))
  }

  /** The blocks as lookups see them. */
  function LoadedBlocks(blocks: seq<RawBlock>): seq<F.Block> {
    seq(|blocks|, i requires 0 <= i < |blocks| => F.Loaded(blocks[i]))
  }

  /**
   * Loading the file, as a constructor does with every file it has just written and as opening does again, gives the
   * entries, and lookups in what is loaded answer with them.
   */
  ghost predicate LoadsAs(file: seq<Byte>, es: Table) {
    var blocks := ParseFile(file);
    && blocks.Some? && Concat(blocks.value) == es && F.ValidBlocks(LoadedBlocks(blocks.value))
    && LevelMap(F.AsLevel(LoadedBlocks(blocks.value))) == Contents(es)
  }

  /** Every one of the files can be loaded. */
  ghost predicate AllLoad(writes: seq<Write>, build: Builder) {
    forall i :: 0 <= i < |writes| ==> LoadsAs(build(writes[i].0, writes[i].1), writes[i].1)
  }

  /** Opens the file a saved number names; the number passes through an int on the way. */
  function LoadSst(id: nat, disk: map<nat, seq<Byte>>): Sst {
    var name := ThroughInt32(id);
    if name !in disk then Sst(name, [], 0)
    else
      var entries := EntriesIn(disk[name]);
      Sst(name, if entries.Some? then entries.value else [], |disk[name]|)
  }

  function LoadLevel(ids: seq<nat>, disk: map<nat, seq<Byte>>): Level {
    seq(|ids|, i requires 0 <= i < |ids| => LoadSst(ids[i], disk))
  }

  function LoadLevels(ids: seq<seq<nat>>, disk: map<nat, seq<Byte>>): seq<Level> {
    seq(|ids|, i requires 0 <= i < |ids| => LoadLevel(ids[i], disk))
  }

  const NO_TABLES := Tables([], [], None)

  /** Starts from the manifest file; numbering goes on after the largest number found in it. */
  function Open(file: seq<Byte>, disk: map<nat, seq<Byte>>): State {
    var parsed := ManifestFile.ParseManifest(file);
    State(NO_TABLES,
          if parsed.None? then Store(1, [[[]]], 0, disk)
          else Store(parsed.value.0, [LoadLevels(parsed.value.1, disk)], ManifestFile.LargestOf(parsed.value.1), disk))
  }

  /** Closing writes the manifest over the front of a file; stale is what an older, longer file leaves behind it. */
  function Restart(s: State, build: Builder, stale: seq<Byte>): State {
    var store := Close(s, build).store;
    Open(ManifestFile.ManifestBytes(store.version, AllIds(Current(store))) + stale, store.disk)
  }

  datatype Op =
    | OpPut(k: Key, v: Value)
    | OpTake
    | OpPublish
    | OpReopen(stale: seq<Byte>)

  function Step(s: State, op: Op, maxSize: nat, build: Builder): State {
    match op
    case OpPut(k, v) => s.(tables := PutTables(s.tables, k, v, maxSize))
    case OpTake => s.(tables := TakeTables(s.tables))
    case OpPublish => PublishStep(s, build)
    case OpReopen(stale) => Restart(s, build, stale)
  }

  function Exec(s: State, ops: seq<Op>, maxSize: nat, build: Builder): State {
    if ops == [] then s else Step(Exec(s, ops[..|ops| - 1], maxSize, build), ops[|ops| - 1], maxSize, build)
  }

  const INITIAL := State(NO_TABLES, Store(1, [[[]]], 0, map[]))

  // ---------- the invariant ----------

  /** The SST's file is the one built for it, has the size recorded, and loads as the SST. */
  ghost predicate Stored(s: Sst, disk: map<nat, seq<Byte>>, build: Builder) {
    s.id in disk && disk[s.id] == build(s.id, s.entries) && |disk[s.id]| == s.fileSize && LoadsAs(disk[s.id], s.entries)
  }

  /** Every live SST has its file, and only its file, under its number. */
  ghost predicate OnDisk(levels: seq<Level>, disk: map<nat, seq<Byte>>, build: Builder) {
    forall x, y :: At(levels, x, y) ==> Stored(levels[x][y], disk, build)
  }

  ghost predicate GoodTable(t: Table) {
    t != [] && Sorted(t)
  }

  ghost predicate TablesOk(t: Tables) {
    && Sorted(t.mem)
    && (forall i :: 0 <= i < |t.frozen| ==> GoodTable(t.frozen[i]))
    && (t.inFlight.Some? ==> GoodTable(t.inFlight.value))
  }

  ghost predicate LevelsOk(levels: seq<Level>, n: nat, disk: map<nat, seq<Byte>>, build: Builder) {
    ValidLevels(levels) && NumberedUpTo(levels, n) && WithinBudget(levels, -1) && OnDisk(levels, disk, build)
  }

  ghost predicate StoreOk(store: Store, build: Builder) {
    store.manifests != [] && LevelsOk(Current(store), store.sstId, store.disk, build)
  }

  ghost predicate Inv(s: State, build: Builder) {
    TablesOk(s.tables) && StoreOk(s.store, build) && [] !in Overlaid(s)
  }

  lemma InitialInv(build: Builder)
    ensures Inv(INITIAL, build) && Overlaid(INITIAL) == map[]
  {
    var levels: seq<Level> := [[]];
    assert levels[1..] == [] && Current(INITIAL.store) == levels;
  }

  // ---------- the tables ----------

  lemma {:induction false} FrozenConcat(a: seq<Table>, b: seq<Table>)
    ensures FrozenMap(a + b) == FrozenMap(a) + FrozenMap(b)
  {
    if b == [] {
      assert a + b == a;
    } else {
      var init, last := b[..|b| - 1], b[|b| - 1];
      FrozenConcat(a, init);
      assert (a + b)[..|a + b| - 1] == a + init;
      AddAssociative(FrozenMap(a), FrozenMap(init), Contents(last));
    }
  }

  lemma FrozenOne(t: Table)
    ensures FrozenMap([t]) == Contents(t)
  {
    assert [t][..0] == [];
  }

  lemma PutOverlay(queued: map<Key, Value>, mem: map<Key, Value>, k: Key, v: Value)
    ensures queued + mem[k := v] == (queued + mem)[k := v]
    ensures (queued + mem[k := v]) + map[] == (queued + mem)[k := v]
  {
  }

  lemma FrozenPush(base: map<Key, Value>, t: Tables, frozen: Table)
    ensures forall mem ::
              Queued(base, t.(mem := mem, frozen := t.frozen + [frozen])) == Queued(base, t) + Contents(frozen)
    ensures Queued(base, t.(frozen := t.frozen + [frozen])) == Queued(base, t) + Contents(frozen)
  {
    hide FrozenMap, Contents;
    FrozenConcat(t.frozen, [frozen]);
    FrozenOne(frozen);
    AddAssociative(base + InFlightMap(t), FrozenMap(t.frozen), Contents(frozen));
  }

  /** A put, with or without rotation, changes the answer for its key only. */
  lemma PutChanges(base: map<Key, Value>, t: Tables, k: Key, v: Value, maxSize: nat)
    ensures var after := PutTables(t, k, v, maxSize);
            Queued(base, after) + Contents(after.mem) == (Queued(base, t) + Contents(t.mem))[k := v]
  {
    var mem := Insert(t.mem, Entry(k, v));
    InsertContents(t.mem, Entry(k, v));
    PutOverlay(Queued(base, t), Contents(t.mem), k, v);
    FrozenPush(base, t, mem);
  }

  lemma PutKeepsTables(t: Tables, k: Key, v: Value, maxSize: nat)
    requires TablesOk(t)
    ensures TablesOk(PutTables(t, k, v, maxSize))
  {
    InsertSorted(t.mem, Entry(k, v));
  }

  /** The active table is frozen exactly when its keys and values exceed the limit. */
  lemma RotatesExact(t: Tables, k: Key, v: Value, maxSize: nat)
    ensures var mem := Insert(t.mem, Entry(k, v));
            PutTables(t, k, v, maxSize) ==
            if PayloadSize(mem) > maxSize then t.(mem := [], frozen := t.frozen + [mem]) else t.(mem := mem)
  {
  }

  lemma EmptyPayload()
    ensures PayloadSize([]) == 0
  {
  }

  /** So the active table stays within the limit over every run. */
  lemma {:induction false} RunKeepsTableSmall(ops: seq<Op>, maxSize: nat, build: Builder)
    ensures PayloadSize(Exec(INITIAL, ops, maxSize, build).tables.mem) <= maxSize
  {
    hide Drain, FlushStore, PayloadSize, Insert;
    EmptyPayload();
    if ops != [] {
      var before := Exec(INITIAL, ops[..|ops| - 1], maxSize, build);
      RunKeepsTableSmall(ops[..|ops| - 1], maxSize, build);
      match ops[|ops| - 1]
      case OpPut(k, v) =>
        RotatesExact(before.tables, k, v, maxSize);
      case _ =>
    }
  }

  lemma TakeOverlay(all: map<Key, Value>, first: map<Key, Value>, rest: map<Key, Value>)
    ensures all + map[] + (first + rest) == all + first + rest
  {
  }

  /** Taking a table out of the queue changes nothing that the database denotes. */
  lemma TakeChanges(base: map<Key, Value>, t: Tables)
    ensures Queued(base, TakeTables(t)) == Queued(base, t) && TakeTables(t).mem == t.mem
  {
    if t.inFlight.None? && t.frozen != [] {
      var first, rest := t.frozen[0], t.frozen[1..];
      FrozenConcat([first], rest);
      FrozenOne(first);
      assert [first] + rest == t.frozen;
      TakeOverlay(base, Contents(first), FrozenMap(rest));
    }
  }

  lemma TakeKeepsTables(t: Tables)
    requires TablesOk(t)
    ensures TablesOk(TakeTables(t))
  {
  }

  lemma QueueAgain(queued: map<Key, Value>, mem: map<Key, Value>)
    ensures (queued + mem) + mem == queued + mem
    ensures queued + map[] == queued
  {
  }

  /** Queueing the active table once more changes nothing that the database denotes. */
  lemma QueueChanges(base: map<Key, Value>, t: Tables)
    ensures Queued(base, QueueActive(t)) == Queued(base, t) + Contents(t.mem) && QueueActive(t).mem == t.mem
    ensures TablesOk(t) ==> TablesOk(QueueActive(t))
  {
    FrozenPush(base, t, t.mem);
    QueueAgain(Queued(base, t), Contents(t.mem));
  }
}
