/** The block cache on values: blocks from the most to the least recently used. */
module BlockSpec {
  import opened Keys
  import opened LruLists

  /** access is the value of the access counter when the block was last used. */
  datatype Block = Block(sst: bv64, offset: bv64, data: seq<Byte>, access: nat, hits: nat)

  datatype Config = Config(
    maxCapacity: nat, minBlockSize: nat, maxBlockSize: nat, maxBlockCount: nat, minUtilization: real)

  /** size is what the statistics say, which Total need not be. */
  datatype State = State(blocks: seq<Block>, counter: nat, size: int)

  datatype CacheKey = CacheKey(word: bv64)

  function MakeKey(sst: bv64, offset: bv64): CacheKey {
    CacheKey((sst << 32) | offset)
  }

  const WORD: bv64 := 0x1_0000_0000

  lemma WordsApart(a: bv64, i: bv64, b: bv64, j: bv64)
    requires a < WORD && i < WORD && b < WORD && j < WORD
    ensures ((a << 32) | i) == ((b << 32) | j) <==> a == b && i == j
  {
  }

  /** Ids and offsets of 32 bits never share a key. */
  lemma KeysApart(a: bv64, i: bv64, b: bv64, j: bv64)
    requires a < WORD && i < WORD && b < WORD && j < WORD
    ensures MakeKey(a, i) == MakeKey(b, j) <==> a == b && i == j
  {
    WordsApart(a, i, b, j);
  }

  predicate Narrow(sst: bv64, offset: bv64) {
    sst < WORD && offset < WORD
  }

  /** The pair of 32-bit numbers that has the key of the given pair. */
  function NarrowSst(sst: bv64, offset: bv64): bv64 {
    ((sst << 32) | offset) >> 32
  }

  function NarrowOffset(sst: bv64, offset: bv64): bv64 {
    ((sst << 32) | offset) & 0xFFFF_FFFF
  }

  lemma NarrowPair(sst: bv64, offset: bv64)
    ensures Narrow(NarrowSst(sst, offset), NarrowOffset(sst, offset))
    ensures (NarrowSst(sst, offset) << 32) | NarrowOffset(sst, offset) == (sst << 32) | offset
  {
  }

  /** A pair shares its key with another pair of 32-bit numbers exactly when it is not one itself. */
  lemma KeysMeetExact(sst: bv64, offset: bv64)
    ensures (exists a: bv64, i: bv64 ::
               Narrow(a, i) && (a != sst || i != offset) && MakeKey(a, i) == MakeKey(sst, offset))
            <==> !Narrow(sst, offset)
  {
    var a, i := NarrowSst(sst, offset), NarrowOffset(sst, offset);
    NarrowPair(sst, offset);
    if Narrow(sst, offset) {
      forall b: bv64, j: bv64 | Narrow(b, j) && (b != sst || j != offset)
        ensures MakeKey(b, j) != MakeKey(sst, offset)
      {
        KeysApart(b, j, sst, offset);
      }
    } else {
      assert Narrow(a, i) && MakeKey(a, i) == MakeKey(sst, offset);
    }
  }

  function KeyOf(b: Block): CacheKey {
    MakeKey(b.sst, b.offset)
  }

  function Find(blocks: seq<Block>, key: CacheKey): (i: nat)
    ensures i <= |blocks|
    ensures i < |blocks| ==> KeyOf(blocks[i]) == key
    ensures forall j :: 0 <= j < i ==> KeyOf(blocks[j]) != key
  {
    if blocks == [] then 0
    else if KeyOf(blocks[0]) == key then 0
    else 1 + Find(blocks[1..], key)
  }

  function Total(blocks: seq<Block>): nat {
    if blocks == [] then 0 else Total(blocks[..|blocks| - 1]) + |blocks[|blocks| - 1].data|
  }

  /** A block used again: changed, stamped and in front. */
  function Used(s: State, i: nat, b: Block): State
    requires i < |s.blocks|
  {
    s.(blocks := [b.(access := s.counter + 1)] + Without(s.blocks, i), counter := s.counter + 1)
  }

  function Get(s: State, key: CacheKey): (State, Option<seq<Byte>>) {
    var i := Find(s.blocks, key);
    if i < |s.blocks| then (Used(s, i, s.blocks[i].(hits := s.blocks[i].hits + 1)), Some(s.blocks[i].data))
    else (s, None)
  }

  predicate Crowded(size: int, count: nat, need: nat, c: Config) {
    size + need > c.maxCapacity || (c.maxBlockCount > 0 && count >= c.maxBlockCount)
  }

  /** The eviction loop: from the back, while there is no room. */
  function Evict(s: State, need: nat, c: Config): State
    decreases |s.blocks|
  {
    if s.blocks != [] && Crowded(s.size, |s.blocks|, need, c) then
      var n := |s.blocks| - 1;
      Evict(s.(blocks := s.blocks[..n], size := s.size - |s.blocks[n].data|), need, c)
    else s
  }

  /** With no minimal block size the utilization is beyond all bounds. */
  predicate Refused(data: seq<Byte>, c: Config) {
    || |data| == 0
    || |data| > c.maxBlockSize
    || (c.minBlockSize > 0 && |data| as real / c.minBlockSize as real < c.minUtilization)
  }

  function Put(s: State, sst: bv64, offset: bv64, data: seq<Byte>, c: Config): State {
    var i := Find(s.blocks, MakeKey(sst, offset));
    if Refused(data, c) then s
    else if i < |s.blocks| then Used(s, i, s.blocks[i].(data := data))
    else
      var e := Evict(s, |data|, c);
      State([Block(sst, offset, data, e.counter + 1, 0)] + e.blocks, e.counter + 1, e.size + |data|)
  }

  function Remove(s: State, key: CacheKey): State {
    var i := Find(s.blocks, key);
    if i < |s.blocks| then s.(blocks := Without(s.blocks, i), size := s.size - |s.blocks[i].data|) else s
  }

  // ---------- the invariant ----------

  ghost predicate KeysDiffer(blocks: seq<Block>) {
    forall i, j :: 0 <= i < j < |blocks| ==> KeyOf(blocks[i]) != KeyOf(blocks[j])
  }

  /** Last used first. */
  ghost predicate Recent(s: State) {
    && (forall i :: 0 <= i < |s.blocks| ==> s.blocks[i].access <= s.counter)
    && (forall i, j :: 0 <= i < j < |s.blocks| ==> s.blocks[i].access > s.blocks[j].access)
  }

  ghost predicate Ok(s: State, c: Config) {
    && KeysDiffer(s.blocks) && Recent(s) && s.size == Total(s.blocks) <= c.maxCapacity
    && (c.maxBlockCount > 0 ==> |s.blocks| <= c.maxBlockCount)
  }

  lemma {:induction false} TotalFront(b: Block, blocks: seq<Block>)
    ensures Total([b] + blocks) == |b.data| + Total(blocks)
  {
    var all, n := [b] + blocks, |blocks|;
    if n == 0 {
      assert all == [b] && all[..0] == [];
    } else {
      TotalFront(b, blocks[..n - 1]);
      assert all[..n] == [b] + blocks[..n - 1];
    }
  }

  lemma {:induction false} TotalWithout(blocks: seq<Block>, i: nat)
    requires i < |blocks|
    ensures Total(Without(blocks, i)) == Total(blocks) - |blocks[i].data|
  {
    var n := |blocks| - 1;
    if i == n {
      assert Without(blocks, i) == blocks[..n];
    } else {
      TotalWithout(blocks[..n], i);
      assert Without(blocks, i)[..n - 1] == Without(blocks[..n], i);
    }
  }

  lemma {:induction false} TotalPrefix(blocks: seq<Block>, k: nat)
    requires k <= |blocks|
    ensures Total(blocks[..k]) <= Total(blocks)
  {
    var n := |blocks| - 1;
    if k == |blocks| {
      assert blocks[..k] == blocks;
    } else {
      TotalPrefix(blocks[..n], k);
      assert blocks[..n][..k] == blocks[..k];
    }
  }

  lemma WithoutKeeps(blocks: seq<Block>, i: nat, s: State)
    requires i < |blocks| && s.blocks == blocks && KeysDiffer(blocks) && Recent(s)
    ensures KeysDiffer(Without(blocks, i)) && Recent(s.(blocks := Without(blocks, i)))
    ensures |Without(blocks, i)| == |blocks| - 1
    ensures forall j :: 0 <= j < |blocks| - 1 ==> KeyOf(Without(blocks, i)[j]) != KeyOf(blocks[i])
  {
    var now := Without(blocks, i);
    assert forall j :: 0 <= j < |now| ==> now[j] == blocks[if j < i then j else j + 1];
    forall a, b | 0 <= a < b < |now| ensures KeyOf(now[a]) != KeyOf(now[b]) && now[a].access > now[b].access {
      var a', b' := if a < i then a else a + 1, if b < i then b else b + 1;
      assert KeyOf(blocks[a']) != KeyOf(blocks[b']);
    }
  }

  lemma FrontKeeps(s: State, b: Block)
    requires KeysDiffer(s.blocks) && Recent(s) && b.access == s.counter + 1
    requires forall j :: 0 <= j < |s.blocks| ==> KeyOf(s.blocks[j]) != KeyOf(b)
    ensures KeysDiffer([b] + s.blocks) && Recent(s.(blocks := [b] + s.blocks, counter := s.counter + 1))
  {
    var now := [b] + s.blocks;
    assert forall j :: 1 <= j < |now| ==> now[j] == s.blocks[j - 1];
  }

  /** Using a block keeps the order and the keys; the bytes add up exactly when it keeps its length. */
  lemma UsedExact(s: State, i: nat, b: Block, c: Config)
    requires Ok(s, c) && i < |s.blocks| && KeyOf(b) == KeyOf(s.blocks[i])
    ensures Ok(Used(s, i, b), c) <==> |b.data| == |s.blocks[i].data|
  {
    hide MakeKey, Without;
    WithoutKeeps(s.blocks, i, s);
    FrontKeeps(s.(blocks := Without(s.blocks, i)), b.(access := s.counter + 1));
    TotalWithout(s.blocks, i);
    TotalFront(b.(access := s.counter + 1), Without(s.blocks, i));
  }

  lemma TotalBack(blocks: seq<Block>)
    ensures Total(blocks) == if blocks == [] then 0
                             else Total(blocks[..|blocks| - 1]) + |blocks[|blocks| - 1].data|
  {
  }

  lemma NoneCrowded(need: nat, c: Config)
    requires need <= c.maxCapacity
    ensures !Crowded(0, 0, need, c)
  {
  }

  /** What stays is the longest front part that leaves room for the new block. */
  lemma {:induction false} EvictShortest(s: State, need: nat, c: Config)
    requires s.size == Total(s.blocks) && need <= c.maxCapacity
    ensures var e := Evict(s, need, c); var kept := |e.blocks|;
            && kept <= |s.blocks| && e == State(s.blocks[..kept], s.counter, Total(s.blocks[..kept]))
            && !Crowded(e.size, kept, need, c)
            && forall k :: kept < k <= |s.blocks| ==> Crowded(Total(s.blocks[..k]), k, need, c)
    decreases |s.blocks|
  {
    hide MakeKey, Total, Crowded;
    var n := |s.blocks| - 1;
    assert s.blocks[..|s.blocks|] == s.blocks;
    TotalBack(s.blocks);
    NoneCrowded(need, c);
    if s.blocks != [] && Crowded(s.size, |s.blocks|, need, c) {
      var t := s.(blocks := s.blocks[..n], size := s.size - |s.blocks[n].data|);
      EvictShortest(t, need, c);
      assert forall k :: 0 <= k <= n ==> t.blocks[..k] == s.blocks[..k];
    }
  }

  /** There is room afterwards, and would not have been with one block more. */
  lemma EvictsExact(s: State, need: nat, c: Config)
    requires s.size == Total(s.blocks) && need <= c.maxCapacity
    ensures var kept := |Evict(s, need, c).blocks|;
            && kept <= |s.blocks| && Evict(s, need, c).blocks == s.blocks[..kept]
            && Total(s.blocks[..kept]) + need <= c.maxCapacity && (c.maxBlockCount > 0 ==> kept < c.maxBlockCount)
            && (kept < |s.blocks| ==>
                  || Total(s.blocks[..kept + 1]) + need > c.maxCapacity
                  || 0 < c.maxBlockCount <= kept + 1)
  {
    hide Total, Evict;
    EvictShortest(s, need, c);
  }

  lemma Portion(n: real, m: real, u: real)
    requires m > 0.0
    ensures n / m < u <==> n < u * m
  {
    assert n == n / m * m;
  }

  /** What is accepted: blocks that are not empty, not too large, and not too small a part of the least size. */
  lemma AcceptedExact(data: seq<Byte>, c: Config)
    ensures !Refused(data, c) <==>
            && 0 < |data| <= c.maxBlockSize
            && (c.minBlockSize > 0 ==> |data| as real >= c.minUtilization * c.minBlockSize as real)
  {
    if c.minBlockSize > 0 {
      Portion(|data| as real, c.minBlockSize as real, c.minUtilization);
    }
  }

  lemma PrefixKeeps(s: State, k: nat)
    requires KeysDiffer(s.blocks) && Recent(s) && k <= |s.blocks|
    ensures KeysDiffer(s.blocks[..k]) && Recent(s.(blocks := s.blocks[..k]))
  {
  }

  lemma GetKeeps(s: State, key: CacheKey, c: Config)
    requires Ok(s, c)
    ensures Ok(Get(s, key).0, c)
  {
    var i := Find(s.blocks, key);
    if i < |s.blocks| {
      UsedExact(s, i, s.blocks[i].(hits := s.blocks[i].hits + 1), c);
    }
  }

  lemma InsertKeeps(s: State, b: Block, c: Config)
    requires Ok(s, c) && |b.data| <= c.maxCapacity && Find(s.blocks, KeyOf(b)) == |s.blocks|
    requires b.access == s.counter + 1
    ensures var e := Evict(s, |b.data|, c); Ok(State([b] + e.blocks, e.counter + 1, e.size + |b.data|), c)
  {
    hide MakeKey, KeyOf, Evict, Total;
    EvictShortest(s, |b.data|, c);
    var e := Evict(s, |b.data|, c);
    PrefixKeeps(s, |e.blocks|);
    FrontKeeps(e, b);
    TotalFront(b, e.blocks);
  }

  lemma {:induction false} EvictCounter(s: State, need: nat, c: Config)
    ensures Evict(s, need, c).counter == s.counter
    decreases |s.blocks|
  {
    if s.blocks != [] && Crowded(s.size, |s.blocks|, need, c) {
      var n := |s.blocks| - 1;
      EvictCounter(s.(blocks := s.blocks[..n], size := s.size - |s.blocks[n].data|), need, c);
    }
  }

  /** A put keeps the cache in order exactly when it does not give a cached block another length. */
  lemma PutExact(s: State, sst: bv64, offset: bv64, data: seq<Byte>, c: Config)
    requires Ok(s, c) && c.maxBlockSize <= c.maxCapacity
    ensures var i := Find(s.blocks, MakeKey(sst, offset));
            Ok(Put(s, sst, offset, data, c), c) <==> Refused(data, c) || i == |s.blocks| || |data| == |s.blocks[i].data|
  {
    hide MakeKey, Ok, Evict, Used;
    var i := Find(s.blocks, MakeKey(sst, offset));
    if !Refused(data, c) {
      if i < |s.blocks| {
        UsedExact(s, i, s.blocks[i].(data := data), c);
      } else {
        EvictCounter(s, |data|, c);
        InsertKeeps(s, Block(sst, offset, data, s.counter + 1, 0), c);
      }
    }
  }

  lemma RemoveKeeps(s: State, key: CacheKey, c: Config)
    requires Ok(s, c)
    ensures Ok(Remove(s, key), c)
  {
    var i := Find(s.blocks, key);
    if i < |s.blocks| {
      WithoutKeeps(s.blocks, i, s);
      TotalWithout(s.blocks, i);
    }
  }

  // ---------- runs ----------

  datatype Event =
    | Access(key: CacheKey)
    | Store(sst: bv64, offset: bv64, data: seq<Byte>)
    | Forget(key: CacheKey)
    | Clear

  function Next(s: State, ev: Event, c: Config): State {
    match ev
    case Access(k) => Get(s, k).0
    case Store(a, o, d) => Put(s, a, o, d, c)
    case Forget(k) => Remove(s, k)
    case Clear => s.(blocks := [], size := 0)
  }

  function After(s: State, run: seq<Event>, c: Config): State
    decreases |run|
  {
    if run == [] then s else After(Next(s, run[0], c), run[1..], c)
  }

  /** Every key is stored with one length only, as an SST's blocks never change. */
  ghost predicate OneLength(run: seq<Event>, length: map<CacheKey, nat>) {
    forall i :: 0 <= i < |run| && run[i].Store? ==>
      var k := MakeKey(run[i].sst, run[i].offset); k in length && length[k] == |run[i].data|
  }

  ghost predicate Lengths(blocks: seq<Block>, length: map<CacheKey, nat>) {
    forall i :: 0 <= i < |blocks| ==> KeyOf(blocks[i]) in length && length[KeyOf(blocks[i])] == |blocks[i].data|
  }

  lemma LengthsWithout(blocks: seq<Block>, i: nat, length: map<CacheKey, nat>)
    requires Lengths(blocks, length) && i < |blocks|
    ensures Lengths(Without(blocks, i), length)
  {
    var now := Without(blocks, i);
    assert forall j :: 0 <= j < |now| ==> now[j] == blocks[if j < i then j else j + 1];
  }

  lemma LengthsFront(b: Block, blocks: seq<Block>, length: map<CacheKey, nat>)
    requires Lengths(blocks, length) && KeyOf(b) in length && length[KeyOf(b)] == |b.data|
    ensures Lengths([b] + blocks, length)
  {
    hide KeyOf;
    assert forall j :: 1 <= j <= |blocks| ==> ([b] + blocks)[j] == blocks[j - 1];
  }

  lemma LengthsUsed(s: State, i: nat, b: Block, length: map<CacheKey, nat>)
    requires Lengths(s.blocks, length) && i < |s.blocks|
    requires KeyOf(b) in length && length[KeyOf(b)] == |b.data|
    ensures Lengths(Used(s, i, b).blocks, length)
  {
    LengthsWithout(s.blocks, i, length);
    LengthsFront(b.(access := s.counter + 1), Without(s.blocks, i), length);
  }

  lemma LengthsStore(s: State, sst: bv64, offset: bv64, data: seq<Byte>, c: Config, length: map<CacheKey, nat>)
    requires Ok(s, c) && Lengths(s.blocks, length) && c.maxBlockSize <= c.maxCapacity
    requires MakeKey(sst, offset) in length && length[MakeKey(sst, offset)] == |data|
    ensures Lengths(Put(s, sst, offset, data, c).blocks, length)
  {
    hide MakeKey, Without, Evict, Used, Total;
    var i := Find(s.blocks, MakeKey(sst, offset));
    if !Refused(data, c) {
      if i < |s.blocks| {
        LengthsUsed(s, i, s.blocks[i].(data := data), length);
      } else {
        EvictShortest(s, |data|, c);
        var e := Evict(s, |data|, c);
        LengthsFront(Block(sst, offset, data, e.counter + 1, 0), e.blocks, length);
      }
    }
  }

  lemma LengthsNext(s: State, ev: Event, c: Config, length: map<CacheKey, nat>)
    requires Ok(s, c) && Lengths(s.blocks, length) && c.maxBlockSize <= c.maxCapacity && OneLength([ev], length)
    ensures Lengths(Next(s, ev, c).blocks, length)
  {
    assert [ev][0] == ev;
    hide MakeKey, Without, Evict, Used, OneLength, Total, Refused;
    match ev
    case Clear =>
    case Access(k) =>
      var i := Find(s.blocks, k);
      if i < |s.blocks| {
        LengthsUsed(s, i, s.blocks[i].(hits := s.blocks[i].hits + 1), length);
      }
    case Forget(k) =>
      var i := Find(s.blocks, k);
      if i < |s.blocks| {
        LengthsWithout(s.blocks, i, length);
      }
    case Store(a, o, d) =>
      LengthsStore(s, a, o, d, c, length);
  }

  lemma NextKeeps(s: State, ev: Event, c: Config, length: map<CacheKey, nat>)
    requires Ok(s, c) && Lengths(s.blocks, length) && c.maxBlockSize <= c.maxCapacity && OneLength([ev], length)
    ensures Ok(Next(s, ev, c), c)
  {
    hide MakeKey, Put, Get, Remove;
    assert [ev][0] == ev;
    match ev
    case Clear =>
    case Store(a, o, d) =>
      PutExact(s, a, o, d, c);
    case Access(k) =>
      GetKeeps(s, k, c);
    case Forget(k) =>
      RemoveKeeps(s, k, c);
  }

  /** Over every run the sizes add up, nothing is over the limits, and the order is that of use. */
  lemma {:induction false} RunKeeps(s: State, run: seq<Event>, c: Config, length: map<CacheKey, nat>)
    requires Ok(s, c) && Lengths(s.blocks, length) && c.maxBlockSize <= c.maxCapacity && OneLength(run, length)
    ensures Ok(After(s, run, c), c)
    decreases |run|
  {
    if run != [] {
      assert OneLength([run[0]], length) && OneLength(run[1..], length);
      NextKeeps(s, run[0], c, length);
      LengthsNext(s, run[0], c, length);
      RunKeeps(Next(s, run[0], c), run[1..], c, length);
    }
  }

  // ---------- answers ----------

  function Lookup(blocks: seq<Block>, key: CacheKey): Option<seq<Byte>> {
    var i := Find(blocks, key);
    if i < |blocks| then Some(blocks[i].data) else None
  }

  lemma FindAt(blocks: seq<Block>, i: nat)
    requires KeysDiffer(blocks) && i < |blocks|
    ensures Find(blocks, KeyOf(blocks[i])) == i
  {
  }

  /** What was just put is what is found, and every other block is unchanged or gone. */
  lemma PutAnswers(s: State, sst: bv64, offset: bv64, data: seq<Byte>, c: Config, other: CacheKey)
    requires Ok(s, c) && c.maxBlockSize <= c.maxCapacity && !Refused(data, c)
    ensures var t := Put(s, sst, offset, data, c);
            && Lookup(t.blocks, MakeKey(sst, offset)) == Some(data)
            && (other != MakeKey(sst, offset) ==>
                  Lookup(t.blocks, other) == None || Lookup(t.blocks, other) == Lookup(s.blocks, other))
  {
    hide MakeKey, Without, Evict;
    var t, i := Put(s, sst, offset, data, c), Find(s.blocks, MakeKey(sst, offset));
    assert KeyOf(t.blocks[0]) == MakeKey(sst, offset);
    if i == |s.blocks| {
      EvictShortest(s, |data|, c);
      assert t.blocks[1..] == s.blocks[..|t.blocks| - 1];
    } else {
      assert t.blocks[1..] == Without(s.blocks, i);
      PlaceWithout(s.blocks, i);
    }
    var j := Find(t.blocks, other);
    if other != MakeKey(sst, offset) && j < |t.blocks| {
      var from := if i == |s.blocks| || j - 1 < i then j - 1 else j;
      assert t.blocks[j] == t.blocks[1..][j - 1] == s.blocks[from];
      FindAt(s.blocks, from);
    }
  }

  /** It is the data of the cached block with that key, if there is one. */
  lemma LookupExact(blocks: seq<Block>, key: CacheKey, data: seq<Byte>)
    requires KeysDiffer(blocks)
    ensures Lookup(blocks, key) == Some(data) <==>
            exists i :: 0 <= i < |blocks| && KeyOf(blocks[i]) == key && blocks[i].data == data
    ensures Lookup(blocks, key) == None <==> forall i :: 0 <= i < |blocks| ==> KeyOf(blocks[i]) != key
  {
    hide MakeKey;
    if i :| 0 <= i < |blocks| && KeyOf(blocks[i]) == key && blocks[i].data == data {
      FindAt(blocks, i);
    }
  }

  lemma LookupFront(b: Block, blocks: seq<Block>, key: CacheKey)
    ensures Lookup([b] + blocks, key) == if KeyOf(b) == key then Some(b.data) else Lookup(blocks, key)
  {
    hide MakeKey;
    assert ([b] + blocks)[1..] == blocks;
  }

  lemma FoundThere(blocks: seq<Block>, i: nat, key: CacheKey)
    requires KeysDiffer(blocks) && i < |blocks| && KeyOf(blocks[i]) == key
    ensures Lookup(blocks, key) == Some(blocks[i].data)
  {
    hide KeyOf;
    FindAt(blocks, i);
  }

  lemma NoneThere(blocks: seq<Block>, key: CacheKey)
    requires forall i :: 0 <= i < |blocks| ==> KeyOf(blocks[i]) != key
    ensures Lookup(blocks, key) == None
  {
    hide KeyOf;
  }

  lemma KeysWithout(blocks: seq<Block>, i: nat)
    requires KeysDiffer(blocks) && i < |blocks|
    ensures KeysDiffer(Without(blocks, i))
    ensures forall j :: 0 <= j < |Without(blocks, i)| ==> KeyOf(Without(blocks, i)[j]) != KeyOf(blocks[i])
  {
    hide KeyOf, Without;
    PlaceWithout(blocks, i);
    var now := Without(blocks, i);
    forall a, b | 0 <= a < b < |now| ensures KeyOf(now[a]) != KeyOf(now[b]) {
      var a', b' := if a < i then a else a + 1, if b < i then b else b + 1;
      assert KeyOf(blocks[a']) != KeyOf(blocks[b']);
    }
  }

  lemma LookupWithout(blocks: seq<Block>, i: nat, key: CacheKey)
    requires KeysDiffer(blocks) && i < |blocks|
    ensures Lookup(Without(blocks, i), key) == if KeyOf(blocks[i]) == key then None else Lookup(blocks, key)
  {
    hide KeyOf, Without, KeysDiffer, Lookup, Find;
    var now, k := Without(blocks, i), Find(blocks, key);
    KeysWithout(blocks, i);
    PlaceWithout(blocks, i);
    if KeyOf(blocks[i]) == key {
      NoneThere(now, key);
    } else if k < |blocks| {
      FoundThere(blocks, k, key);
      FoundThere(now, if k < i then k else k - 1, key);
    } else {
      NoneThere(blocks, key);
      NoneThere(now, key);
    }
  }

  /** A get answers with the block's data, and uses it: one hit more, the newest stamp, in front of all others. */
  lemma GetExact(s: State, key: CacheKey)
    ensures Get(s, key).1 == Lookup(s.blocks, key)
    ensures var i := Find(s.blocks, key);
            if Lookup(s.blocks, key) == None then Get(s, key).0 == s
            else
              && i < |s.blocks| && |Get(s, key).0.blocks| == |s.blocks|
              && Get(s, key).0.counter == s.counter + 1 && Get(s, key).0.size == s.size
              && Get(s, key).0.blocks[0] == s.blocks[i].(access := s.counter + 1, hits := s.blocks[i].hits + 1)
              && (forall j :: 0 < j < |s.blocks| ==> Get(s, key).0.blocks[j] == s.blocks[if j <= i then j - 1 else j])
  {
    hide MakeKey;
    var i := Find(s.blocks, key);
    if i < |s.blocks| {
      PlaceWithout(s.blocks, i);
    }
  }

  /** An accepted block stands in front with the newest stamp; one cached already keeps its names and hits. */
  lemma PutInFront(s: State, sst: bv64, offset: bv64, data: seq<Byte>, c: Config)
    requires !Refused(data, c)
    ensures var t, i := Put(s, sst, offset, data, c), Find(s.blocks, MakeKey(sst, offset));
            && t.counter == s.counter + 1 && t.blocks != []
            && t.blocks[0] == if i < |s.blocks| then s.blocks[i].(data := data, access := s.counter + 1)
                              else Block(sst, offset, data, s.counter + 1, 0)
  {
    hide MakeKey, Without, Evict, Refused;
    EvictCounter(s, |data|, c);
  }

  /** Looking at a block changes no answer. */
  lemma GetAnswers(s: State, key: CacheKey, other: CacheKey)
    requires KeysDiffer(s.blocks)
    ensures Lookup(Get(s, key).0.blocks, other) == Lookup(s.blocks, other)
  {
    hide MakeKey, Without, KeysDiffer, Find;
    var i := Find(s.blocks, key);
    if i < |s.blocks| {
      var b := s.blocks[i].(access := s.counter + 1, hits := s.blocks[i].hits + 1);
      LookupFront(b, Without(s.blocks, i), other);
      LookupWithout(s.blocks, i, other);
      FoundThere(s.blocks, i, key);
    }
  }

  /** What is removed is gone, and nothing else. */
  lemma RemoveAnswers(s: State, key: CacheKey, other: CacheKey)
    requires KeysDiffer(s.blocks)
    ensures Lookup(Remove(s, key).blocks, other) == if other == key then None else Lookup(s.blocks, other)
  {
    hide MakeKey, Without;
    var i := Find(s.blocks, key);
    if i < |s.blocks| {
      LookupWithout(s.blocks, i, other);
    }
  }

  /** The data last accepted for the key, unless it was removed since. */
  function LastStored(key: CacheKey, last: Option<seq<Byte>>, run: seq<Event>, c: Config): Option<seq<Byte>>
    decreases |run|
  {
    if run == [] then last
    else
      var next := match run[0]
        case Access(_) => last
        case Store(a, o, d) => if MakeKey(a, o) == key && !Refused(d, c) then Some(d) else last
        case Forget(k) => if k == key then None else last
        case Clear => None;
      LastStored(key, next, run[1..], c)
  }

  /** Cached at all, the key's data is the last one. */
  predicate UpToDate(blocks: seq<Block>, key: CacheKey, last: Option<seq<Byte>>) {
    Lookup(blocks, key) == None || Lookup(blocks, key) == last
  }

  lemma RefusedChanges(s: State, sst: bv64, offset: bv64, data: seq<Byte>, c: Config)
    requires Refused(data, c)
    ensures Put(s, sst, offset, data, c) == s
  {
  }

  lemma NothingCached(key: CacheKey)
    ensures Lookup([], key) == None
  {
  }

  lemma NextUpToDate(s: State, ev: Event, c: Config, key: CacheKey, last: Option<seq<Byte>>)
    requires Ok(s, c) && c.maxBlockSize <= c.maxCapacity && UpToDate(s.blocks, key, last)
    ensures UpToDate(Next(s, ev, c).blocks, key, LastStored(key, last, [ev], c))
  {
    hide MakeKey, Put, Get, Remove, Refused, Find;
    assert [ev][0] == ev && [ev][1..] == [];
    match ev
    case Clear =>
      NothingCached(key);
    case Access(k) =>
      GetAnswers(s, k, key);
    case Forget(k) =>
      RemoveAnswers(s, k, key);
    case Store(a, o, d) =>
      if Refused(d, c) {
        RefusedChanges(s, a, o, d, c);
      } else {
        PutAnswers(s, a, o, d, c, key);
      }
  }

  lemma LastStoredStep(key: CacheKey, last: Option<seq<Byte>>, run: seq<Event>, c: Config)
    requires run != []
    ensures LastStored(key, last, run, c) == LastStored(key, LastStored(key, last, [run[0]], c), run[1..], c)
  {
    hide MakeKey, Refused;
    assert [run[0]][1..] == [];
  }

  lemma NoneStored(key: CacheKey, last: Option<seq<Byte>>, c: Config)
    ensures LastStored(key, last, [], c) == last
  {
  }

  lemma OneLengthParts(run: seq<Event>, length: map<CacheKey, nat>)
    requires OneLength(run, length) && run != []
    ensures OneLength([run[0]], length) && OneLength(run[1..], length)
  {
  }

  /** Over every run, a get answers with nothing or with the data last accepted for the key. */
  lemma {:induction false} RunAnswers(s: State, run: seq<Event>, c: Config, length: map<CacheKey, nat>, key: CacheKey,
                                      last: Option<seq<Byte>>)
    requires Ok(s, c) && Lengths(s.blocks, length) && c.maxBlockSize <= c.maxCapacity && OneLength(run, length)
    requires UpToDate(s.blocks, key, last)
    ensures UpToDate(After(s, run, c).blocks, key, LastStored(key, last, run, c))
    ensures var answer := Get(After(s, run, c), key).1;
            answer == None || answer == LastStored(key, last, run, c)
    decreases |run|
  {
    hide Ok, Lengths, LastStored, Next, Get;
    GetExact(After(s, run, c), key);
    if run == [] {
      NoneStored(key, last, c);
    } else {
      OneLengthParts(run, length);
      NextKeeps(s, run[0], c, length);
      LengthsNext(s, run[0], c, length);
      NextUpToDate(s, run[0], c, key, last);
      LastStoredStep(key, last, run, c);
      RunAnswers(Next(s, run[0], c), run[1..], c, length, key, LastStored(key, last, [run[0]], c));
    }
  }

  /** What has just been accepted is what a get answers, whatever the cache held. */
  lemma PutThenGet(s: State, sst: bv64, offset: bv64, data: seq<Byte>, c: Config)
    requires Ok(s, c) && c.maxBlockSize <= c.maxCapacity && !Refused(data, c)
    ensures Get(Put(s, sst, offset, data, c), MakeKey(sst, offset)).1 == Some(data)
  {
    hide MakeKey, Put, Get;
    PutAnswers(s, sst, offset, data, c, MakeKey(sst, offset));
    GetExact(Put(s, sst, offset, data, c), MakeKey(sst, offset));
  }
}
