/** Building an SST file in a mapped buffer, loading it, and the lookup through its two binary searches. */
module SstFiles {
  import opened Keys
  import opened Entries
  import opened Words
  import opened BloomFormat
  import opened BloomFilters
  import opened SstFormat
  import opened SstLoads
  import opened Levels

  function KeysOf(es: seq<Entry>): (ks: seq<Key>)
    ensures |ks| == |es|
  {
    seq(|es|, i requires 0 <= i < |es| => es[i].key)
  }

  lemma PatchHas(s: seq<Byte>, at: nat, bs: seq<Byte>)
    requires at + |bs| <= |s|
    ensures HasBytes(Patch(s, at, bs), at, bs)
  {
  }

  lemma PatchElsewhere(s: seq<Byte>, at: nat, bs: seq<Byte>, from: nat, kept: seq<Byte>)
    requires at + |bs| <= |s| && from + |kept| <= at && HasBytes(s, from, kept)
    ensures HasBytes(Patch(s, at, bs), from, kept)
  {
    assert Patch(s, at, bs)[from..from + |kept|] == s[from..from + |kept|];
  }

  /** The sizes the constructor adds up before it maps the file. */
  method ComputeSizes(es: seq<Entry>, bloomSize: nat) returns (indexBlockSize: nat, dataBlockSize: nat)
    requires es != []
    ensures indexBlockSize == IndexBlockSize(es) && dataBlockSize == DataBlockSize(es, bloomSize)
  {
    dataBlockSize := WORD;
    indexBlockSize := 2 * WORD * (|es| + 1);
    indexBlockSize := indexBlockSize + |es[0].key|;
    for i := 0 to |es|
      invariant dataBlockSize == WORD + PayloadSize(es[..i])
    {
      assert es[..i + 1][..i] == es[..i];
      dataBlockSize := dataBlockSize + |es[i].key| + |es[i].value|;
    }
    assert es[..|es|] == es;
    dataBlockSize := dataBlockSize + |es| * 2 * WORD;
    dataBlockSize := dataBlockSize + bloomSize;
    dataBlockSize := dataBlockSize + WORD;
  }

  method WriteIndex(file: array<Byte>, es: seq<Entry>, size: nat)
    requires es != [] && size == IndexBlockSize(es) && size <= file.Length
    modifies file
    ensures file[..] == Patch(old(file[..]), 0, IndexBytes(es))
  {
    ghost var before := file[..];
    Write(file, 0, Encode(size));
    WriteNext(file, before, 0, Encode(size), WORD, Encode(1));
    WriteNext(file, before, 0, Encode(size) + Encode(1), 2 * WORD, Encode(size));
    WriteNext(file, before, 0, Encode(size) + Encode(1) + Encode(size), 3 * WORD, Encode(|es[0].key|));
    WriteNext(file, before, 0, Encode(size) + Encode(1) + Encode(size) + Encode(|es[0].key|), 4 * WORD, es[0].key);
  }

  method WriteEntry(file: array<Byte>, at: nat, e: Entry) returns (next: nat)
    requires at + |EntryBytes(e)| <= file.Length
    modifies file
    ensures next == at + |EntryBytes(e)|
    ensures file[..] == Patch(old(file[..]), at, EntryBytes(e))
  {
    ghost var before := file[..];
    next := at;
    Write(file, next, Encode(|e.key|));
    next := next + WORD;
    WriteNext(file, before, at, Encode(|e.key|), next, Encode(|e.value|));
    next := next + WORD;
    WriteNext(file, before, at, Encode(|e.key|) + Encode(|e.value|), next, e.key);
    next := next + |e.key|;
    WriteNext(file, before, at, Encode(|e.key|) + Encode(|e.value|) + e.key, next, e.value);
    next := next + |e.value|;
  }

  lemma {:induction false} EntriesPrefix(es: seq<Entry>, i: nat)
    requires i <= |es|
    ensures |EntriesBytes(es[..i])| <= |EntriesBytes(es)|
    ensures i < |es| ==> EntriesBytes(es[..i + 1]) == EntriesBytes(es[..i]) + EntryBytes(es[i])
    decreases |es| - i
  {
    if i < |es| {
      assert es[..i + 1][..i] == es[..i];
      EntriesPrefix(es, i + 1);
    } else {
      assert es[..i] == es;
    }
  }

  method WriteEntries(file: array<Byte>, at: nat, es: seq<Entry>)
    requires at + |EntriesBytes(es)| <= file.Length
    modifies file
    ensures file[..] == Patch(old(file[..]), at, EntriesBytes(es))
  {
    ghost var before := file[..];
    var index := at;
    for i := 0 to |es|
      invariant at + |EntriesBytes(es[..i])| <= file.Length && index == at + |EntriesBytes(es[..i])|
      invariant file[..] == Patch(before, at, EntriesBytes(es[..i]))
    {
      EntriesPrefix(es, i);
      EntriesPrefix(es, i + 1);
      PatchPatch(before, at, EntriesBytes(es[..i]), EntryBytes(es[i]));
      index := WriteEntry(file, index, es[i]);
    }
    assert es[..|es|] == es;
  }

  /** The count and the entries, behind the filter. */
  method WriteTail(file: array<Byte>, at: nat, es: seq<Entry>)
    requires at + WORD + |EntriesBytes(es)| <= file.Length
    modifies file
    ensures file[..] == Patch(old(file[..]), at, Encode(|es|) + EntriesBytes(es))
  {
    PatchPatch(file[..], at, Encode(|es|), EntriesBytes(es));
    Write(file, at, Encode(|es|));
    WriteEntries(file, at + WORD, es);
  }

  /** after is before with the size word, the filter and the tail written one behind the other. */
  ghost predicate BlockWritten(before: seq<Byte>, after: seq<Byte>, at: nat, size: nat, r: RawBloom, pad: seq<Byte>,
                               es: seq<Entry>)
  {
    var head, bloom, tail := Encode(size), RawBytes(r, pad), Encode(|es|) + EntriesBytes(es);
    && at + WORD + |bloom| + |tail| <= |before|
    && |pad| == Align(2 * WORD + WORD * |r.seeds|)
    && after == Patch(Patch(Patch(before, at, head), at + WORD, bloom), at + WORD + |bloom|, tail)
  }

  lemma BlockInParts(before: seq<Byte>, after: seq<Byte>, at: nat, size: nat, r: RawBloom, pad: seq<Byte>,
                     es: seq<Entry>)
    requires BlockWritten(before, after, at, size, r, pad, es)
    ensures WORD + |BodyBytes(r, pad, es)| == DataBlockSize(es, BinarySize(|r.seeds|, |r.words|))
    ensures after == Patch(before, at, Encode(size) + BodyBytes(r, pad, es))
  {
    var head, bloom, tail := Encode(size), RawBytes(r, pad), Encode(|es|) + EntriesBytes(es);
    PatchPatch(before, at, head, bloom);
    PatchPatch(before, at, head + bloom, tail);
    assert head + bloom + tail == head + BodyBytes(r, pad, es);
    BlockSizeExact(r, pad, es);
  }

  /** The data block: its size, the filter, the count, the entries. */
  method WriteBlock(file: array<Byte>, at: nat, r: RawBloom, es: seq<Entry>, size: nat) returns (ghost pad: seq<Byte>)
    requires at + WORD + BinarySize(|r.seeds|, |r.words|) + WORD + |EntriesBytes(es)| <= file.Length
    modifies file
    ensures BlockWritten(old(file[..]), file[..], at, size, r, pad, es)
  {
    assert DataStart(|r.seeds|) <= BinarySize(|r.seeds|, |r.words|);
    hide RawBytes, EntriesBytes, Encode, BinarySize, Align, DataStart, Patch, Filler;
    Write(file, at, Encode(size));
    pad := Filler(file[..], at + WORD, |r.seeds|);
    var written := SaveParts(file, at + WORD, r);
    assert written == |RawBytes(r, pad)|;
    WriteTail(file, at + WORD + written, es);
  }

  /** Fills the filter with the keys of the entries. */
  method FillFilter(filter: BloomFilter, es: seq<Entry>)
    requires filter.Valid()
    modifies filter.data
    ensures filter.Valid() && filter.Value() == AddAll(old(filter.Value()), KeysOf(es))
  {
    for i := 0 to |es|
      invariant filter.Valid() && filter.Value() == AddAll(old(filter.Value()), KeysOf(es)[..i])
    {
      assert KeysOf(es)[..i + 1][..i] == KeysOf(es)[..i];
      filter.Insert(es[i].key);
    }
    assert KeysOf(es)[..|es|] == KeysOf(es);
  }

  lemma WrittenParses(file: seq<Byte>, r: RawBloom, pad: seq<Byte>, es: seq<Entry>)
    requires IsSstFile(file, r, pad, es)
    ensures ValidRaw(r) && |file| < TWO64 && IndexBlockSize(es) < 0x8000_0000 ==>
              ParseFile(file) == Some([RawBlock(es[0].key, r, es)])
  {
    if ValidRaw(r) && |file| < TWO64 && IndexBlockSize(es) < 0x8000_0000 {
      FileRoundTrip(file, r, pad, es);
    }
  }

  lemma BothWritten(before: seq<Byte>, r: RawBloom, pad: seq<Byte>, es: seq<Entry>, after: seq<Byte>)
    requires es != [] && |before| == FileSize(es, BinarySize(|r.seeds|, |r.words|))
    requires BlockWritten(Patch(before, 0, IndexBytes(es)), after, IndexBlockSize(es),
                          DataBlockSize(es, BinarySize(|r.seeds|, |r.words|)), r, pad, es)
    ensures IsSstFile(after, r, pad, es)
  {
    var at, first := IndexBlockSize(es), Patch(before, 0, IndexBytes(es));
    var size := DataBlockSize(es, BinarySize(|r.seeds|, |r.words|));
    var body := BodyBytes(r, pad, es);
    BlockInParts(first, after, at, size, r, pad, es);
    PatchHas(before, 0, IndexBytes(es));
    PatchHas(first, at, Encode(size) + body);
    PatchElsewhere(first, at, Encode(size) + body, 0, IndexBytes(es));
    HasSplit(after, at, Encode(size), body);
  }

  /**
   * The uncompressed constructor: every write falls inside the file, the file then holds the entries, and in the end it
   * is loaded, which goes well when the offset of the data block survives the int it passes through.
   */
  method BuildSst(es: seq<Entry>, filter: BloomFilter, file: array<Byte>)
    returns (loaded: Option<seq<RawBlock>>, ghost pad: seq<Byte>)
    requires es != [] && filter.Valid()
    requires file.Length == FileSize(es, BinarySize(|filter.seeds|, filter.data.Length))
    modifies filter.data, file
    ensures filter.Valid() && filter.Value() == AddAll(old(filter.Value()), KeysOf(es))
    ensures IsSstFile(file[..], ToRaw(filter.Value()), pad, es)
    ensures loaded == ParseFile(file[..])
    ensures ValidRaw(ToRaw(filter.Value())) && file.Length < TWO64 && IndexBlockSize(es) < 0x8000_0000 ==>
              loaded == Some([RawBlock(es[0].key, ToRaw(filter.Value()), es)])
  {
    FillFilter(filter, es);
    var indexBlockSize, dataBlockSize := ComputeSizes(es, BinarySize(|filter.seeds|, filter.data.Length));
    EntriesSize(es);
    ghost var before := file[..];
    WriteIndex(file, es, indexBlockSize);
    var bloom := filter.Stored();
    pad := WriteBlock(file, indexBlockSize, ToRaw(bloom), es, dataBlockSize);
    BothWritten(before, ToRaw(filter.Value()), pad, es, file[..]);
    loaded := LoadFile(file[..]);
    WrittenParses(file[..], ToRaw(filter.Value()), pad, es);
  }

  // ---------- lookup ----------

  /** A loaded data block and the first key its index record gives. */
  datatype Block = Block(firstKey: Key, bloom: Bloom, entries: seq<Entry>)

  function Loaded(b: RawBlock): Block {
    Block(b.firstKey, FromRaw(b.bloom), b.entries)
  }

  /** A block seen as a little SST of its own, so that a list of blocks is a disjoint level. */
  function AsSst(b: Block): Sst {
    Sst(0, b.entries, 0)
  }

  function AsLevel(blocks: seq<Block>): (level: Level)
    ensures |level| == |blocks|
  {
    seq(|blocks|, i requires 0 <= i < |blocks| => AsSst(blocks[i]))
  }

  ghost predicate ValidBlock(b: Block) {
    && b.entries != [] && Sorted(b.entries)
    && b.firstKey == b.entries[0].key
    && ValidBloom(b.bloom)
    && forall i :: 0 <= i < |b.entries| ==> Has(b.bloom, b.entries[i].key)
  }

  ghost predicate ValidBlocks(blocks: seq<Block>) {
    && (forall i :: 0 <= i < |blocks| ==> ValidBlock(blocks[i]))
    && Disjoint(AsLevel(blocks))
  }

  /** The first position at or after l whose key is not below k. */
  function LowerBound(es: seq<Entry>, k: Key, l: nat, r: nat): (p: nat)
    requires l <= r <= |es|
    ensures l <= p <= r
    decreases r - l
  {
    if l == r then r
    else
      var mid := (l + r) / 2;
      if Less(es[mid].key, k) then LowerBound(es, k, mid + 1, r) else LowerBound(es, k, l, mid)
  }

  lemma {:induction false} LowerBoundSplits(es: seq<Entry>, k: Key, l: nat, r: nat)
    requires Sorted(es) && l <= r <= |es|
    requires forall i :: 0 <= i < l ==> Less(es[i].key, k)
    requires forall i :: r <= i < |es| ==> !Less(es[i].key, k)
    ensures forall i :: 0 <= i < LowerBound(es, k, l, r) ==> Less(es[i].key, k)
    ensures forall i :: LowerBound(es, k, l, r) <= i < |es| ==> !Less(es[i].key, k)
    decreases r - l
  {
    if l < r {
      var mid := (l + r) / 2;
      Order();
      if Less(es[mid].key, k) {
        LowerBoundSplits(es, k, mid + 1, r);
      } else {
        LowerBoundSplits(es, k, l, mid);
      }
    }
  }

  /** The position found holds the key, or no position does. */
  lemma LowerBoundFinds(es: seq<Entry>, k: Key)
    requires Sorted(es)
    ensures var p := LowerBound(es, k, 0, |es|);
            Lookup(Contents(es), k) == if p < |es| && es[p].key == k then Some(es[p].value) else None
  {
    LowerBoundSplits(es, k, 0, |es|);
    var p := LowerBound(es, k, 0, |es|);
    KeyInContents(es, k);
    Order();
    if i :| 0 <= i < |es| && es[i].key == k {
      ContentsAt(es, i);
      assert !Less(es[i].key, k) && p <= i;
      assert !Less(es[p].key, k);
      assert p == i;
    }
  }

  method Search(es: seq<Entry>, key: Key) returns (value: Option<Value>)
    requires Sorted(es)
    ensures value == Lookup(Contents(es), key)
  {
    hide Sorted, Contents, Less;
    LowerBoundFinds(es, key);
    ghost var place := LowerBound(es, key, 0, |es|);
    var l, r := 0, |es|;
    while l < r
      invariant 0 <= l <= r <= |es|
      invariant LowerBound(es, key, l, r) == place
      decreases r - l
    {
      var mid := (l + r) / 2;
      if Less(es[mid].key, key) {
        l := mid + 1;
      } else {
        r := mid;
      }
    }
    if r == |es| || es[r].key != key {
      value := None;
    } else {
      value := Some(es[r].value);
    }
  }

  /** The lookup in one block: the filter first, then a binary search. */
  method BlockGet(b: Block, key: Key) returns (value: Option<Value>)
    requires ValidBlock(b)
    ensures value == Lookup(Contents(b.entries), key)
  {
    if !Has(b.bloom, key) {
      KeyInContents(b.entries, key);
      return None;
    }
    value := Search(b.entries, key);
  }

  ghost predicate FirstKeysMatch(blocks: seq<Block>) {
    forall i :: 0 <= i < |blocks| ==> blocks[i].firstKey == MinKey(AsSst(blocks[i]))
  }

  method FindBlock(blocks: seq<Block>, key: Key) returns (r: nat)
    requires FirstKeysMatch(blocks)
    ensures r == Probe(AsLevel(blocks), key, 0, |blocks|)
  {
    ghost var level := AsLevel(blocks);
    var l := 0;
    r := |blocks|;
    while l < r
      invariant 0 <= l <= r <= |blocks|
      invariant Probe(level, key, l, r) == Probe(level, key, 0, |level|)
      decreases r - l
    {
      var mid := (l + r) / 2;
      assert level[mid] == AsSst(blocks[mid]);
      if Less(key, blocks[mid].firstKey) {
        r := mid;
      } else {
        l := mid + 1;
      }
    }
  }

  lemma ValidAsLevel(blocks: seq<Block>)
    requires ValidBlocks(blocks)
    ensures FirstKeysMatch(blocks) && ValidLevel(AsLevel(blocks)) && Disjoint(AsLevel(blocks))
  {
    hide Sorted, Disjoint, ValidBloom, Has;
    forall i | 0 <= i < |blocks|
      ensures ValidSst(AsLevel(blocks)[i]) && blocks[i].firstKey == MinKey(AsSst(blocks[i]))
    {
      assert ValidBlock(blocks[i]);
    }
  }

  lemma BlocksAnswer(blocks: seq<Block>, key: Key)
    requires ValidBlocks(blocks)
    ensures FirstKeysMatch(blocks)
    ensures var r := Probe(AsLevel(blocks), key, 0, |blocks|);
            Lookup(LevelMap(AsLevel(blocks)), key) ==
            if r > 0 then Lookup(Contents(blocks[r - 1].entries), key) else None
  {
    hide Contents, LevelMap, Probe, Disjoint, ValidLevel, ValidBlocks, FirstKeysMatch;
    ValidAsLevel(blocks);
    ProbeGetFinds(AsLevel(blocks), key);
  }

  /** The lookup in a file: a binary search over first keys, then one block. It finds exactly the stored entry. */
  method IndexGet(blocks: seq<Block>, key: Key) returns (value: Option<Value>)
    requires ValidBlocks(blocks)
    ensures value == Lookup(LevelMap(AsLevel(blocks)), key)
  {
    BlocksAnswer(blocks, key);
    var r := FindBlock(blocks, key);
    if r != 0 {
      value := BlockGet(blocks[r - 1], key);
    } else {
      value := None;
    }
  }

  /** What a freshly filled filter and the entries make when the file is loaded. */
  function FileBlock(es: seq<Entry>, empty: Bloom): Block
    requires es != [] && ValidBloom(empty)
  {
    Block(es[0].key, AddAll(empty, KeysOf(es)), es)
  }

  lemma FileBlockValid(es: seq<Entry>, empty: Bloom)
    requires ValidBloom(empty) && es != [] && Sorted(es)
    ensures ValidBlock(FileBlock(es, empty))
  {
    AddAllHas(empty, KeysOf(es));
    forall i | 0 <= i < |es| ensures Has(FileBlock(es, empty).bloom, es[i].key) {
      assert KeysOf(es)[i] in KeysOf(es);
    }
  }

  /** Loading a built file gives a valid block list that denotes exactly the entries. */
  lemma LoadedFile(file: seq<Byte>, empty: Bloom, pad: seq<Byte>, es: seq<Entry>)
    requires ValidBloom(empty) && es != [] && Sorted(es)
    requires IsSstFile(file, ToRaw(AddAll(empty, KeysOf(es))), pad, es)
    requires |file| < TWO64 && IndexBlockSize(es) < 0x8000_0000
    ensures ParseFile(file).Some? && |ParseFile(file).value| == 1
    ensures Loaded(ParseFile(file).value[0]) == FileBlock(es, empty)
  {
    RawRoundTrip(AddAll(empty, KeysOf(es)));
    FileRoundTrip(file, ToRaw(AddAll(empty, KeysOf(es))), pad, es);
  }

  /** A lookup in the loaded file answers with the stored entries. */
  lemma LoadedAnswers(es: seq<Entry>, empty: Bloom)
    requires ValidBloom(empty) && es != [] && Sorted(es)
    ensures ValidBlocks([FileBlock(es, empty)])
    ensures LevelMap(AsLevel([FileBlock(es, empty)])) == Contents(es)
  {
    FileBlockValid(es, empty);
    var level := AsLevel([FileBlock(es, empty)]);
    assert level[..0] == [];
  }
}
