/** The bytes of an SST file: what the constructor writes and what the loaders read back. */
module SstFormat {
  import opened Keys
  import opened Entries
  import opened Words
  import opened BloomFormat

  function EntryBytes(e: Entry): (bs: seq<Byte>)
    ensures |bs| == 2 * WORD + |e.key| + |e.value|
  {
    Encode(|e.key|) + Encode(|e.value|) + e.key + e.value
  }

  function EntriesBytes(es: seq<Entry>): seq<Byte> {
    if es == [] then [] else EntriesBytes(es[..|es| - 1]) + EntryBytes(es[|es| - 1])
  }

  function ParseEntry(file: seq<Byte>, at: nat): Option<(Entry, nat)> {
    var k := ReadWord(file, at);
    var v := ReadWord(file, at + WORD);
    if k.None? || v.None? then None
    else
      var key := ReadBytes(file, at + 2 * WORD, k.value);
      var value := ReadBytes(file, at + 2 * WORD + k.value, v.value);
      if key.None? || value.None? then None
      else Some((Entry(key.value, value.value), at + 2 * WORD + k.value + v.value))
  }

  /** The first n entries stored from a position on, and the position after them. */
  function ParseEntries(file: seq<Byte>, at: nat, n: nat): Option<(seq<Entry>, nat)> {
    if n == 0 then Some(([], at))
    else
      var init := ParseEntries(file, at, n - 1);
      if init.None? then None
      else
        var last := ParseEntry(file, init.value.1);
        if last.None? then None else Some((init.value.0 + [last.value.0], last.value.1))
  }

  lemma EntryRoundTrip(file: seq<Byte>, at: nat, e: Entry)
    requires |file| < TWO64 && HasBytes(file, at, EntryBytes(e))
    ensures ParseEntry(file, at) == Some((e, at + |EntryBytes(e)|))
  {
    HasSplit(file, at, Encode(|e.key|) + Encode(|e.value|) + e.key, e.value);
    HasSplit(file, at, Encode(|e.key|) + Encode(|e.value|), e.key);
    HasSplit(file, at, Encode(|e.key|), Encode(|e.value|));
    ReadEncoded(file, at, |e.key|);
    ReadEncoded(file, at + WORD, |e.value|);
  }

  lemma EntriesLast(es: seq<Entry>)
    requires es != []
    ensures EntriesBytes(es) == EntriesBytes(es[..|es| - 1]) + EntryBytes(es[|es| - 1])
  {
  }

  lemma EntriesStep(file: seq<Byte>, at: nat, n: nat, init: seq<Entry>, mid: nat, last: Entry, end: nat)
    requires ParseEntries(file, at, n) == Some((init, mid)) && ParseEntry(file, mid) == Some((last, end))
    ensures ParseEntries(file, at, n + 1) == Some((init + [last], end))
  {
  }

  lemma NoEntries(file: seq<Byte>, at: nat)
    ensures ParseEntries(file, at, 0) == Some(([], at)) && EntriesBytes([]) == []
  {
  }

  lemma {:induction false} EntriesRoundTrip(file: seq<Byte>, at: nat, es: seq<Entry>)
    requires |file| < TWO64 && HasBytes(file, at, EntriesBytes(es))
    ensures ParseEntries(file, at, |es|) == Some((es, at + |EntriesBytes(es)|))
  {
    hide EntriesBytes, EntryBytes, ParseEntry, ParseEntries, HasBytes;
    if es == [] {
      NoEntries(file, at);
    } else {
      var init, last := es[..|es| - 1], es[|es| - 1];
      var mid := at + |EntriesBytes(init)|;
      EntriesLast(es);
      HasSplit(file, at, EntriesBytes(init), EntryBytes(last));
      EntriesRoundTrip(file, at, init);
      EntryRoundTrip(file, mid, last);
      EntriesStep(file, at, |init|, init, mid, last, mid + |EntryBytes(last)|);
      assert es == init + [last];
    }
  }

  /** A data block as loaded. */
  datatype RawBlock = RawBlock(firstKey: Key, bloom: RawBloom, entries: seq<Entry>)

  /** The part of a data block behind its size word. */
  function BodyBytes(r: RawBloom, pad: seq<Byte>, es: seq<Entry>): seq<Byte> {
    RawBytes(r, pad) + Encode(|es|) + EntriesBytes(es)
  }

  function ParseBody(file: seq<Byte>, at: nat): Option<(RawBloom, seq<Entry>)> {
    var bloom := ParseRaw(file, at);
    if bloom.None? then None
    else
      var count := ReadWord(file, bloom.value.1);
      if count.None? then None
      else
        var entries := ParseEntries(file, bloom.value.1 + WORD, count.value);
        if entries.None? then None else Some((bloom.value.0, entries.value.0))
  }

  lemma BodyRoundTrip(file: seq<Byte>, at: nat, r: RawBloom, pad: seq<Byte>, es: seq<Entry>)
    requires |file| < TWO64 && ValidRaw(r) && |pad| == Align(2 * WORD + WORD * |r.seeds|) && |es| < TWO64
    requires HasBytes(file, at, BodyBytes(r, pad, es))
    ensures ParseBody(file, at) == Some((r, es))
  {
    hide RawBytes, ParseRaw, EntriesBytes, ParseEntries, Encode, ReadWord, HasBytes, ValidRaw, Align;
    HasSplit(file, at, RawBytes(r, pad) + Encode(|es|), EntriesBytes(es));
    HasSplit(file, at, RawBytes(r, pad), Encode(|es|));
    FormatRoundTrip(file, at, r, pad);
    ReadEncoded(file, at + |RawBytes(r, pad)|, |es|);
    EntriesRoundTrip(file, at + |RawBytes(r, pad)| + WORD, es);
  }

  /** The offset passes through an int32_t parameter and back into a size_t. */
  function ThroughInt32(n: nat): nat {
    var m := n % 0x1_0000_0000;
    if m < 0x8000_0000 then m else TWO64 - 0x1_0000_0000 + m
  }

  /** One index record with its data block, and the position after the record. */
  function ParseRecord(file: seq<Byte>, at: nat): Option<(RawBlock, nat)> {
    var offset := ReadWord(file, at);
    var size := ReadWord(file, at + WORD);
    if offset.None? || size.None? then None
    else
      var key := ReadBytes(file, at + 2 * WORD, size.value);
      var blockSize := ReadWord(file, ThroughInt32(offset.value));
      var body := ParseBody(file, ThroughInt32(offset.value) + WORD);
      if key.None? || blockSize.None? || body.None? then None
      else Some((RawBlock(key.value, body.value.0, body.value.1), at + 2 * WORD + size.value))
  }

  function ParseRecords(file: seq<Byte>, at: nat, n: nat): Option<(seq<RawBlock>, nat)> {
    if n == 0 then Some(([], at))
    else
      var init := ParseRecords(file, at, n - 1);
      if init.None? then None
      else
        var last := ParseRecord(file, init.value.1);
        if last.None? then None else Some((init.value.0 + [last.value.0], last.value.1))
  }

  /** Everything the index of a file leads to. */
  function ParseFile(file: seq<Byte>): Option<seq<RawBlock>> {
    var size := ReadWord(file, 0);
    var count := ReadWord(file, WORD);
    if size.None? || count.None? then None
    else
      var records := ParseRecords(file, 2 * WORD, count.value);
      if records.None? then None else Some(records.value.0)
  }

  /** Room for n records is reserved although only one is written. */
  function IndexBlockSize(es: seq<Entry>): nat
    requires es != []
  {
    2 * WORD * (|es| + 1) + |es[0].key|
  }

  function IndexBytes(es: seq<Entry>): (bs: seq<Byte>)
    requires es != []
    ensures |bs| == 4 * WORD + |es[0].key| <= IndexBlockSize(es)
  {
    var size := IndexBlockSize(es);
    Encode(size) + Encode(1) + Encode(size) + Encode(|es[0].key|) + es[0].key
  }

  function PayloadSize(es: seq<Entry>): nat {
    if es == [] then 0
    else PayloadSize(es[..|es| - 1]) + |es[|es| - 1].key| + |es[|es| - 1].value|
  }

  /** data_block_size as the constructor adds it up. */
  function DataBlockSize(es: seq<Entry>, bloomSize: nat): nat {
    WORD + PayloadSize(es) + |es| * 2 * WORD + bloomSize + WORD
  }

  function FileSize(es: seq<Entry>, bloomSize: nat): nat
    requires es != []
  {
    IndexBlockSize(es) + DataBlockSize(es, bloomSize)
  }

  lemma {:induction false} EntriesSize(es: seq<Entry>)
    ensures |EntriesBytes(es)| == PayloadSize(es) + |es| * 2 * WORD
  {
    if es != [] {
      EntriesSize(es[..|es| - 1]);
    }
  }

  /** The precomputed sizes are the sizes written. */
  lemma BlockSizeExact(r: RawBloom, pad: seq<Byte>, es: seq<Entry>)
    requires |pad| == Align(2 * WORD + WORD * |r.seeds|)
    ensures WORD + |BodyBytes(r, pad, es)| == DataBlockSize(es, BinarySize(|r.seeds|, |r.words|))
  {
    EntriesSize(es);
  }

  /** What the constructor leaves in a file, whatever is between the two blocks and after them. */
  ghost predicate IsSstFile(file: seq<Byte>, r: RawBloom, pad: seq<Byte>, es: seq<Entry>) {
    && es != []
    && |pad| == Align(2 * WORD + WORD * |r.seeds|)
    && HasBytes(file, 0, IndexBytes(es))
    && HasBytes(file, IndexBlockSize(es), Encode(DataBlockSize(es, BinarySize(|r.seeds|, |r.words|))))
    && HasBytes(file, IndexBlockSize(es) + WORD, BodyBytes(r, pad, es))
  }

  lemma IndexRoundTrip(file: seq<Byte>, es: seq<Entry>)
    requires es != [] && |file| < TWO64 && IndexBlockSize(es) < TWO64 && HasBytes(file, 0, IndexBytes(es))
    ensures ReadWord(file, 0) == Some(IndexBlockSize(es)) && ReadWord(file, WORD) == Some(1)
    ensures ReadWord(file, 2 * WORD) == Some(IndexBlockSize(es)) && ReadWord(file, 3 * WORD) == Some(|es[0].key|)
    ensures ReadBytes(file, 4 * WORD, |es[0].key|) == Some(es[0].key)
  {
    var size := IndexBlockSize(es);
    HasSplit(file, 0, Encode(size) + Encode(1) + Encode(size) + Encode(|es[0].key|), es[0].key);
    HasSplit(file, 0, Encode(size) + Encode(1) + Encode(size), Encode(|es[0].key|));
    HasSplit(file, 0, Encode(size) + Encode(1), Encode(size));
    HasSplit(file, 0, Encode(size), Encode(1));
    ReadEncoded(file, 0, size);
    ReadEncoded(file, WORD, 1);
    ReadEncoded(file, 2 * WORD, size);
    ReadEncoded(file, 3 * WORD, |es[0].key|);
  }

  lemma CountFits(file: seq<Byte>, r: RawBloom, pad: seq<Byte>, es: seq<Entry>)
    requires IsSstFile(file, r, pad, es) && |file| < TWO64
    ensures |es| < TWO64
  {
    EntriesSize(es);
  }

  lemma BlockRoundTrip(file: seq<Byte>, r: RawBloom, pad: seq<Byte>, es: seq<Entry>)
    requires IsSstFile(file, r, pad, es) && ValidRaw(r) && |file| < TWO64
    ensures ParseBody(file, IndexBlockSize(es) + WORD) == Some((r, es))
  {
    var at := IndexBlockSize(es) + WORD;
    assert |es| < TWO64 by {
      CountFits(file, r, pad, es);
    }
    BodyRoundTrip(file, at, r, pad, es);
  }

  lemma SmallOffset(n: nat)
    requires n < 0x8000_0000
    ensures ThroughInt32(n) == n
  {
  }

  lemma RecordOf(file: seq<Byte>, at: nat, offset: nat, key: Key, r: RawBloom, es: seq<Entry>)
    requires ReadWord(file, at) == Some(offset) && ReadWord(file, at + WORD) == Some(|key|)
    requires ReadBytes(file, at + 2 * WORD, |key|) == Some(key)
    requires offset < 0x8000_0000 && ReadWord(file, offset).Some?
    requires ParseBody(file, offset + WORD) == Some((r, es))
    ensures ParseRecord(file, at) == Some((RawBlock(key, r, es), at + 2 * WORD + |key|))
  {
    SmallOffset(offset);
  }

  /** The one record of a written index leads to the block behind it. */
  lemma RecordRoundTrip(file: seq<Byte>, r: RawBloom, pad: seq<Byte>, es: seq<Entry>)
    requires IsSstFile(file, r, pad, es) && ValidRaw(r) && |file| < TWO64
    requires IndexBlockSize(es) < 0x8000_0000
    ensures ParseRecord(file, 2 * WORD) == Some((RawBlock(es[0].key, r, es), 4 * WORD + |es[0].key|))
  {
    hide IndexBytes, BodyBytes, Encode, ParseRecord, ParseBody, DataBlockSize, ValidRaw;
    IndexRoundTrip(file, es);
    BlockRoundTrip(file, r, pad, es);
    RecordOf(file, 2 * WORD, IndexBlockSize(es), es[0].key, r, es);
  }

  /** An offset comes through the int unchanged exactly below 2^31. */
  lemma OffsetExact(n: nat)
    requires n < TWO64 / 2
    ensures ThroughInt32(n) == n <==> n < 0x8000_0000
  {
  }

  lemma OneRecord(file: seq<Byte>, at: nat)
    ensures ParseRecord(file, at).None? ==> ParseRecords(file, at, 1) == None
    ensures ParseRecord(file, at).Some? ==>
              ParseRecords(file, at, 1) == Some(([ParseRecord(file, at).value.0], ParseRecord(file, at).value.1))
  {
    assert ParseRecords(file, at, 0) == Some(([], at));
    if ParseRecord(file, at).Some? {
      assert [] + [ParseRecord(file, at).value.0] == [ParseRecord(file, at).value.0];
    }
  }

  /** Loading a written file gives back the filter, the first key and exactly the entries. */
  lemma FileRoundTrip(file: seq<Byte>, r: RawBloom, pad: seq<Byte>, es: seq<Entry>)
    requires IsSstFile(file, r, pad, es) && ValidRaw(r) && |file| < TWO64
    requires IndexBlockSize(es) < 0x8000_0000
    ensures ParseFile(file) == Some([RawBlock(es[0].key, r, es)])
  {
    RecordRoundTrip(file, r, pad, es);
    IndexRoundTrip(file, es);
    var at: nat := 2 * WORD;
    OneRecord(file, at);
  }

  /**
   * With 2^32 bytes of index or more, and the sign bit of the offset clear, the block is looked for inside the index:
   * whatever is loaded does not come from the data block.
   */
  lemma HugeIndexMisleads(file: seq<Byte>, es: seq<Entry>)
    requires es != [] && |file| < TWO64 && IndexBlockSize(es) < TWO64 && HasBytes(file, 0, IndexBytes(es))
    requires 0x1_0000_0000 <= IndexBlockSize(es) && IndexBlockSize(es) % 0x1_0000_0000 < 0x8000_0000
    ensures ThroughInt32(IndexBlockSize(es)) + 0x1_0000_0000 <= IndexBlockSize(es)
    ensures ParseRecord(file, 2 * WORD).Some? ==>
              ParseBody(file, ThroughInt32(IndexBlockSize(es)) + WORD) ==
                Some((ParseRecord(file, 2 * WORD).value.0.bloom, ParseRecord(file, 2 * WORD).value.0.entries))
  {
    IndexRoundTrip(file, es);
  }

  /** With the sign bit of the 32-bit offset set, a file that was just written cannot be loaded. */
  lemma LargeIndexFails(file: seq<Byte>, es: seq<Entry>)
    requires es != [] && |file| < TWO64 / 2 && IndexBlockSize(es) < TWO64 && HasBytes(file, 0, IndexBytes(es))
    requires IndexBlockSize(es) % 0x1_0000_0000 >= 0x8000_0000
    ensures ParseFile(file) == None
  {
    var size := IndexBlockSize(es);
    IndexRoundTrip(file, es);
    assert ReadWord(file, ThroughInt32(size)) == None;
    OneRecord(file, 2 * WORD);
  }
}
