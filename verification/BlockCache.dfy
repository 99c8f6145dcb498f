/** The block cache object: blocks shared by a hash table and a list in the order of use. */
module BlockCaches {
  import opened Keys
  import opened LruLists
  import opened BlockSpec

  class CacheBlock {
    const sst: bv64
    const offset: bv64
    var data: seq<Byte>
    var access: nat
    var hits: nat

    constructor (sst: bv64, offset: bv64, data: seq<Byte>)
      ensures this.sst == sst && this.offset == offset && this.data == data && access == 0 && hits == 0
    {
      this.sst, this.offset, this.data, access, hits := sst, offset, data, 0, 0;
    }
  }

  ghost predicate Differ(list: seq<CacheBlock>) {
    forall i, j :: 0 <= i < j < |list| ==> list[i] != list[j]
  }

  ghost predicate Mirrored(list: seq<CacheBlock>, blocks: seq<Block>)
    reads list
  {
    && |list| == |blocks|
    && forall i :: 0 <= i < |list| ==>
         blocks[i] == Block(list[i].sst, list[i].offset, list[i].data, list[i].access, list[i].hits)
  }

  ghost function KeySet(blocks: seq<Block>): set<CacheKey> {
    set i | 0 <= i < |blocks| :: KeyOf(blocks[i])
  }

  /** Table and list hold the same blocks. */
  ghost predicate Indexed(table: map<CacheKey, CacheBlock>, list: seq<CacheBlock>, blocks: seq<Block>) {
    && |list| == |blocks| && table.Keys == KeySet(blocks)
    && forall i :: 0 <= i < |blocks| ==> KeyOf(blocks[i]) in table && table[KeyOf(blocks[i])] == list[i]
  }

  /** list::remove takes out every occurrence. */
  function Removed(list: seq<CacheBlock>, b: CacheBlock): seq<CacheBlock> {
    if list == [] then []
    else if list[0] == b then Removed(list[1..], b)
    else [list[0]] + Removed(list[1..], b)
  }

  lemma {:induction false} RemovedNone(list: seq<CacheBlock>, b: CacheBlock)
    requires b !in list
    ensures Removed(list, b) == list
  {
    if list != [] {
      RemovedNone(list[1..], b);
    }
  }

  lemma {:induction false} RemovedIsWithout(list: seq<CacheBlock>, i: nat)
    requires Differ(list) && i < |list|
    ensures Removed(list, list[i]) == Without(list, i)
  {
    if i == 0 {
      RemovedNone(list[1..], list[0]);
    } else {
      RemovedIsWithout(list[1..], i - 1);
      assert Without(list, i) == [list[0]] + Without(list[1..], i - 1);
    }
  }

  lemma DifferWithout(list: seq<CacheBlock>, i: nat)
    requires Differ(list) && i < |list|
    ensures Differ(Without(list, i)) && list[i] !in Without(list, i)
  {
    PlaceWithout(list, i);
  }

  lemma MirroredWithout(list: seq<CacheBlock>, blocks: seq<Block>, i: nat)
    requires Mirrored(list, blocks) && i < |list|
    ensures Mirrored(Without(list, i), Without(blocks, i))
  {
    PlaceWithout(list, i);
    PlaceWithout(blocks, i);
  }

  lemma KeySetWithout(blocks: seq<Block>, i: nat)
    requires KeysDiffer(blocks) && i < |blocks|
    ensures KeySet(Without(blocks, i)) == KeySet(blocks) - {KeyOf(blocks[i])}
  {
    hide MakeKey;
    PlaceWithout(blocks, i);
    var now := Without(blocks, i);
    forall j | 0 <= j < |now| ensures KeyOf(now[j]) in KeySet(blocks) && KeyOf(now[j]) != KeyOf(blocks[i]) {
      assert now[j] == blocks[if j < i then j else j + 1];
    }
    forall k | k in KeySet(blocks) && k != KeyOf(blocks[i]) ensures k in KeySet(now) {
      var j :| 0 <= j < |blocks| && KeyOf(blocks[j]) == k;
      assert now[if j < i then j else j - 1] == blocks[j];
    }
  }

  lemma IndexedKeysDiffer(table: map<CacheKey, CacheBlock>, list: seq<CacheBlock>, blocks: seq<Block>)
    requires Indexed(table, list, blocks) && Differ(list)
    ensures KeysDiffer(blocks)
  {
    hide MakeKey, KeySet;
    forall i, j | 0 <= i < j < |blocks| ensures KeyOf(blocks[i]) != KeyOf(blocks[j]) {
      assert table[KeyOf(blocks[i])] == list[i] != list[j] == table[KeyOf(blocks[j])];
    }
  }

  lemma IndexedWithout(table: map<CacheKey, CacheBlock>, list: seq<CacheBlock>, blocks: seq<Block>, i: nat)
    requires Indexed(table, list, blocks) && Differ(list) && i < |list|
    ensures Indexed(table - {KeyOf(blocks[i])}, Without(list, i), Without(blocks, i))
  {
    IndexedKeysDiffer(table, list, blocks);
    KeySetWithout(blocks, i);
    PlaceWithout(list, i);
    PlaceWithout(blocks, i);
    hide MakeKey, KeySet, Without, Differ;
    var now, rest := Without(blocks, i), table - {KeyOf(blocks[i])};
    forall j | 0 <= j < |now| ensures KeyOf(now[j]) in rest && rest[KeyOf(now[j])] == Without(list, i)[j] {
      assert now[j] == blocks[if j < i then j else j + 1];
    }
  }

  lemma KeySetFront(b: Block, blocks: seq<Block>)
    ensures KeySet([b] + blocks) == {KeyOf(b)} + KeySet(blocks)
    ensures forall j :: 0 <= j < |blocks| ==> KeyOf(blocks[j]) in KeySet(blocks)
  {
    hide MakeKey;
    var now := [b] + blocks;
    assert now[0] == b && forall j :: 1 <= j < |now| ==> now[j] == blocks[j - 1];
    forall k | k in KeySet(blocks) ensures k in KeySet(now) {
      var j :| 0 <= j < |blocks| && KeyOf(blocks[j]) == k;
      assert now[j + 1] == blocks[j];
    }
  }

  lemma IndexedFront(table: map<CacheKey, CacheBlock>, list: seq<CacheBlock>, blocks: seq<Block>, b: Block,
                     node: CacheBlock)
    requires Indexed(table, list, blocks) && KeyOf(b) !in table
    ensures Indexed(table[KeyOf(b) := node], [node] + list, [b] + blocks)
  {
    KeySetFront(b, blocks);
    hide MakeKey, KeySet;
    var now := [b] + blocks;
    forall j | 1 <= j < |now| ensures KeyOf(now[j]) in table && table[KeyOf(now[j])] == list[j - 1] {
      assert now[j] == blocks[j - 1];
    }
  }

  /** Mirrored but for what may have changed in the block at i. */
  ghost predicate MirroredBut(list: seq<CacheBlock>, blocks: seq<Block>, i: nat)
    reads list
  {
    && |list| == |blocks|
    && forall j :: 0 <= j < |list| && j != i ==>
         blocks[j] == Block(list[j].sst, list[j].offset, list[j].data, list[j].access, list[j].hits)
  }

  lemma SameLength(list: seq<CacheBlock>, blocks: seq<Block>)
    requires Mirrored(list, blocks)
    ensures |list| == |blocks|
  {
  }

  lemma AloneAt(list: seq<CacheBlock>, i: nat)
    requires Differ(list) && i < |list|
    ensures forall j :: 0 <= j < |list| && j != i ==> list[j] != list[i]
  {
  }

  lemma DifferFront(list: seq<CacheBlock>, block: CacheBlock)
    requires Differ(list) && block !in list
    ensures Differ([block] + list)
  {
  }

  lemma MirroredFront(list: seq<CacheBlock>, blocks: seq<Block>, i: nat, b: Block)
    requires MirroredBut(list, blocks, i) && i < |list|
    requires b == Block(list[i].sst, list[i].offset, list[i].data, list[i].access, list[i].hits)
    ensures Mirrored([list[i]] + Without(list, i), [b] + Without(blocks, i))
  {
    PlaceWithout(list, i);
    PlaceWithout(blocks, i);
  }

  lemma MirroredAdd(list: seq<CacheBlock>, blocks: seq<Block>, block: CacheBlock, b: Block)
    requires Mirrored(list, blocks) && b == Block(block.sst, block.offset, block.data, block.access, block.hits)
    ensures Mirrored([block] + list, [b] + blocks)
  {
  }

  lemma IndexedMoved(table: map<CacheKey, CacheBlock>, list: seq<CacheBlock>, blocks: seq<Block>, i: nat, b: Block)
    requires Indexed(table, list, blocks) && Differ(list) && i < |list| && KeyOf(b) == KeyOf(blocks[i])
    ensures Indexed(table, [list[i]] + Without(list, i), [b] + Without(blocks, i))
  {
    IndexedWithout(table, list, blocks, i);
    assert KeyOf(blocks[i]) in table && table[KeyOf(blocks[i])] == list[i];
    var rest := table - {KeyOf(b)};
    IndexedFront(rest, Without(list, i), Without(blocks, i), b, list[i]);
    assert rest[KeyOf(b) := list[i]] == table;
  }

  class BlockCache {
    const config: Config
    var table: map<CacheKey, CacheBlock>
    var lru: seq<CacheBlock>
    var currentSize: int
    var currentCount: int
    var accessCounter: nat
    ghost var blocks: seq<Block>

    ghost predicate Valid()
      reads this, lru
    {
      Differ(lru) && Mirrored(lru, blocks) && Indexed(table, lru, blocks) && currentCount == |lru|
    }

    ghost function Now(): State
      reads this
    {
      State(blocks, accessCounter, currentSize)
    }

    constructor (config: Config)
      ensures Valid() && Now() == State([], 0, 0) && this.config == config && lru == []
      ensures Ok(Now(), config)
    {
      this.config := config;
      table, lru, currentSize, currentCount, accessCounter := map[], [], 0, 0, 0;
      blocks := [];
    }

    lemma PlaceOf(key: CacheKey)
      requires Valid()
      ensures key in table <==> Find(blocks, key) < |blocks|
      ensures key in table ==> Find(blocks, key) < |lru| && table[key] == lru[Find(blocks, key)]
    {
      hide MakeKey;
    }

    /** Takes a block out of the list and the table. */
    method Drop(block: CacheBlock, ghost i: nat)
      requires Valid() && i < |lru| && lru[i] == block
      modifies this
      ensures Valid() && lru == Without(old(lru), i) && table.Keys <= old(table).Keys
      ensures Now() == old(Now()).(blocks := Without(old(blocks), i), size := old(currentSize) - |old(blocks)[i].data|)
    {
      hide Indexed, Differ, Without, MakeKey, Removed;
      var key := MakeKey(block.sst, block.offset);
      assert key == KeyOf(blocks[i]);
      RemovedIsWithout(lru, i);
      DifferWithout(lru, i);
      MirroredWithout(lru, blocks, i);
      IndexedWithout(table, lru, blocks, i);
      PlaceWithout(lru, i);
      lru := Removed(lru, block);
      currentSize := currentSize - |block.data|;
      currentCount := currentCount - 1;
      table := table - {key};
      blocks := Without(blocks, i);
    }

    /** Stamps a cached block, changed or not, and moves it to the front. */
    method Use(block: CacheBlock, ghost i: nat)
      requires i < |lru| == |blocks| && lru[i] == block && currentCount == |lru|
      requires Differ(lru) && Indexed(table, lru, blocks)
      requires block.sst == blocks[i].sst && block.offset == blocks[i].offset && MirroredBut(lru, blocks, i)
      modifies this`accessCounter, this`lru, this`blocks, block`access
      ensures Valid()
      ensures var b := Block(block.sst, block.offset, block.data, old(accessCounter) + 1, block.hits);
              Now() == State([b] + Without(old(blocks), i), old(accessCounter) + 1, old(currentSize))
      ensures forall i :: 0 <= i < |lru| ==> lru[i] in old(lru)
    {
      hide Indexed, Differ, Without, MakeKey, Removed;
      AloneAt(lru, i);
      RemovedIsWithout(lru, i);
      DifferWithout(lru, i);
      DifferFront(Without(lru, i), block);
      LruLists.WithoutKeeps(lru, i);
      accessCounter := accessCounter + 1;
      block.access := accessCounter;
      ghost var b := Block(block.sst, block.offset, block.data, block.access, block.hits);
      MirroredFront(lru, blocks, i, b);
      IndexedMoved(table, lru, blocks, i, b);
      PlaceWithout(lru, i);
      lru := Removed(lru, block);
      lru := [block] + lru;
      blocks := [b] + Without(blocks, i);
    }

    /** The data of a cached block, which then counts as used. */
    method Get(sst: bv64, offset: bv64) returns (data: Option<seq<Byte>>)
      requires Valid()
      modifies this`accessCounter, this`lru, this`blocks, lru
      ensures Valid() && (Now(), data) == BlockSpec.Get(old(Now()), MakeKey(sst, offset))
      ensures data == Lookup(old(blocks), MakeKey(sst, offset))
      ensures forall i :: 0 <= i < |lru| ==> lru[i] in old(lru)
    {
      hide Indexed, Differ, Without, MakeKey;
      var key := MakeKey(sst, offset);
      PlaceOf(key);
      GetExact(Now(), key);
      if key !in table {
        return None;
      }
      var block := table[key];
      ghost var i := Find(blocks, key);
      AloneAt(lru, i);
      data := Some(block.data);
      block.hits := block.hits + 1;
      Use(block, i);
    }

    /** A new block in front, with the next stamp. */
    method AddFront(block: CacheBlock)
      requires Valid() && block !in lru && MakeKey(block.sst, block.offset) !in table
      modifies this, block`access
      ensures Valid()
      ensures var b := Block(block.sst, block.offset, block.data, old(accessCounter) + 1, block.hits);
              Now() == State([b] + old(blocks), old(accessCounter) + 1, old(currentSize) + |block.data|)
      ensures lru == [block] + old(lru)
    {
      hide Indexed, Differ, MakeKey;
      accessCounter := accessCounter + 1;
      block.access := accessCounter;
      assert Mirrored(lru, blocks);
      hide Mirrored;
      ghost var b := Block(block.sst, block.offset, block.data, block.access, block.hits);
      IndexedFront(table, lru, blocks, b, block);
      DifferFront(lru, block);
      MirroredAdd(lru, blocks, block, b);
      table := table[MakeKey(block.sst, block.offset) := block];
      lru := [block] + lru;
      currentSize := currentSize + |block.data|;
      currentCount := currentCount + 1;
      blocks := [b] + blocks;
    }

    /** From the back of the list, until there is room. */
    method EvictIfNeeded(need: nat)
      requires Valid()
      modifies this
      ensures Valid() && Now() == Evict(old(Now()), need, config) && table.Keys <= old(table).Keys
      ensures forall i :: 0 <= i < |lru| ==> lru[i] in old(lru)
    {
      hide Indexed, Differ, MakeKey, Mirrored;
      while currentSize + need > config.maxCapacity
            || (config.maxBlockCount > 0 && currentCount >= config.maxBlockCount)
        invariant Valid() && Evict(Now(), need, config) == Evict(old(Now()), need, config)
        invariant table.Keys <= old(table).Keys && forall b :: b in lru ==> b in old(lru)
        decreases |lru|
      {
        SameLength(lru, blocks);
        if lru == [] {
          break;
        }
        ghost var n := |lru| - 1;
        assert Without(blocks, n) == blocks[..n] && Without(lru, n) == lru[..n];
        Drop(lru[|lru| - 1], n);
      }
      SameLength(lru, blocks);
    }

    /** True when the data is cached afterwards; empty, oversized or tiny blocks are turned away. */
    method Put(sst: bv64, offset: bv64, data: seq<Byte>) returns (ok: bool)
      requires Valid()
      modifies this, lru
      ensures Valid() && ok == !Refused(data, config)
      ensures Now() == BlockSpec.Put(old(Now()), sst, offset, data, config)
      ensures forall i :: 0 <= i < |lru| ==> lru[i] in old(lru) || fresh(lru[i])
    {
      hide Indexed, Differ, Mirrored, MirroredBut, MakeKey, Evict, Without;
      if |data| == 0 {
        return false;
      }
      if |data| > config.maxBlockSize {
        return false;
      }
      if config.minBlockSize > 0 && |data| as real / config.minBlockSize as real < config.minUtilization {
        return false;
      }
      var key := MakeKey(sst, offset);
      PlaceOf(key);
      if key in table {
        Overwrite(table[key], Find(blocks, key), data);
      } else {
        InsertNew(sst, offset, data);
      }
      return true;
    }

    method Overwrite(block: CacheBlock, ghost i: nat, data: seq<Byte>)
      requires Valid() && i < |lru| && lru[i] == block
      modifies this`accessCounter, this`lru, this`blocks, block
      ensures Valid() && Now() == Used(old(Now()), i, old(blocks)[i].(data := data))
      ensures forall i :: 0 <= i < |lru| ==> lru[i] in old(lru)
    {
      hide Indexed, Differ, MakeKey, Without;
      AloneAt(lru, i);
      block.data := data;
      Use(block, i);
    }

    method InsertNew(sst: bv64, offset: bv64, data: seq<Byte>)
      requires Valid() && MakeKey(sst, offset) !in table
      modifies this
      ensures Valid()
      ensures var e := Evict(old(Now()), |data|, config);
              Now() == State([Block(sst, offset, data, e.counter + 1, 0)] + e.blocks, e.counter + 1, e.size + |data|)
      ensures forall i :: 0 <= i < |lru| ==> lru[i] in old(lru) || fresh(lru[i])
    {
      hide Indexed, Differ, Mirrored, MakeKey, Evict;
      EvictIfNeeded(|data|);
      var block := new CacheBlock(sst, offset, data);
      AddFront(block);
    }

    method Remove(sst: bv64, offset: bv64) returns (ok: bool)
      requires Valid()
      modifies this
      ensures Valid() && ok == (MakeKey(sst, offset) in old(table))
      ensures Now() == BlockSpec.Remove(old(Now()), MakeKey(sst, offset))
      ensures forall i :: 0 <= i < |lru| ==> lru[i] in old(lru)
    {
      hide Indexed, Differ, Mirrored, MakeKey;
      var key := MakeKey(sst, offset);
      PlaceOf(key);
      ok := key in table;
      if ok {
        LruLists.WithoutKeeps(lru, Find(blocks, key));
        Drop(table[key], Find(blocks, key));
      }
    }

    method Clear()
      requires Valid()
      modifies this
      ensures Valid() && Now() == old(Now()).(blocks := [], size := 0) && lru == []
    {
      table, lru, currentSize, currentCount := map[], [], 0, 0;
      blocks := [];
    }
  }

  lemma SplitKey(key: CacheKey)
    ensures MakeKey(0, key.word) == key
  {
  }

  /** A new cache taken through any calls holds what the specification's run holds. */
  method Play(config: Config, run: seq<Event>) returns (cache: BlockCache)
    ensures fresh(cache) && cache.Valid() && cache.Now() == BlockSpec.After(State([], 0, 0), run, config)
  {
    hide Indexed, Differ, Mirrored, MakeKey;
    cache := new BlockCache(config);
    for i := 0 to |run|
      invariant fresh(cache) && cache.Valid() && cache.config == config
      invariant forall k :: 0 <= k < |cache.lru| ==> fresh(cache.lru[k])
      invariant BlockSpec.After(cache.Now(), run[i..], config) == BlockSpec.After(State([], 0, 0), run, config)
    {
      var ev := run[i];
      assert run[i..][1..] == run[i + 1..];
      match ev
      case Access(key) =>
        SplitKey(key);
        var data := cache.Get(0, key.word);
      case Store(sst, offset, data) =>
        var ok := cache.Put(sst, offset, data);
      case Forget(key) =>
        SplitKey(key);
        var ok := cache.Remove(0, key.word);
      case Clear =>
        cache.Clear();
    }
  }
}
