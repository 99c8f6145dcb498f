/** The stored form of a Bloom filter, its packed words taken as numbers. */
module BloomFormat {
  import opened Keys
  import opened Words

  datatype RawBloom = RawBloom(length: nat, seeds: seq<nat>, words: seq<nat>)

  function WordCount(length: nat): nat {
    length / 64 + 1
  }

  ghost predicate AllWords(ns: seq<nat>) {
    forall i :: 0 <= i < |ns| ==> ns[i] < TWO64
  }

  ghost predicate ValidRaw(r: RawBloom) {
    && 1 <= r.length < TWO64 - 64
    && 1 <= |r.seeds| < TWO64
    && AllWords(r.seeds) && AllWords(r.words)
    && |r.words| == WordCount(r.length)
  }

  /** The filler up to the next word boundary; a whole word when already at one. */
  function Align(index: nat): nat {
    WORD - index % WORD
  }

  /** Where the packed words start. */
  function DataStart(seedCount: nat): nat {
    var index := 2 * WORD + WORD * seedCount;
    index + Align(index)
  }

  /** The head always ends at a word boundary, so the filler is always one word. */
  lemma FillerIsOneWord(seedCount: nat)
    ensures Align(2 * WORD + WORD * seedCount) == WORD
    ensures DataStart(seedCount) == 3 * WORD + WORD * seedCount
  {
  }

  function HeadBytes(r: RawBloom): seq<Byte> {
    Encode(|r.seeds|) + Encode(r.length) + EncodeAll(r.seeds)
  }

  /** pad is whatever the buffer held before: the filler is skipped, not written. */
  function RawBytes(r: RawBloom, pad: seq<Byte>): seq<Byte> {
    HeadBytes(r) + pad + EncodeAll(r.words)
  }

  function BinarySize(seedCount: nat, wordCount: nat): nat {
    var index := seedCount * WORD + 2 * WORD;
    seedCount * WORD + 2 * WORD + wordCount * WORD + Align(index)
  }

  /** The filter stored at a position, and the position after it. */
  function ParseRaw(file: seq<Byte>, at: nat): Option<(RawBloom, nat)> {
    var hashNum := ReadWord(file, at);
    var length := ReadWord(file, at + WORD);
    if hashNum.None? || length.None? then None
    else
      var seeds := ReadWords(file, at + 2 * WORD, hashNum.value);
      var data := at + DataStart(hashNum.value);
      var words := ReadWords(file, data, WordCount(length.value));
      if seeds.None? || words.None? then None
      else Some((RawBloom(length.value, seeds.value, words.value), data + WORD * WordCount(length.value)))
  }

  lemma HeadRoundTrip(file: seq<Byte>, at: nat, r: RawBloom)
    requires ValidRaw(r) && HasBytes(file, at, HeadBytes(r))
    ensures ReadWord(file, at) == Some(|r.seeds|) && ReadWord(file, at + WORD) == Some(r.length)
    ensures ReadWords(file, at + 2 * WORD, |r.seeds|) == Some(r.seeds)
  {
    HasSplit(file, at, Encode(|r.seeds|) + Encode(r.length), EncodeAll(r.seeds));
    HasSplit(file, at, Encode(|r.seeds|), Encode(r.length));
    ReadEncoded(file, at, |r.seeds|);
    ReadEncoded(file, at + WORD, r.length);
    ReadEncodedAll(file, at + 2 * WORD, r.seeds);
  }

  lemma RawParts(file: seq<Byte>, at: nat, r: RawBloom, pad: seq<Byte>)
    requires |pad| == WORD && HasBytes(file, at, RawBytes(r, pad))
    ensures HasBytes(file, at, HeadBytes(r))
    ensures HasBytes(file, at + 3 * WORD + WORD * |r.seeds|, EncodeAll(r.words))
    ensures |RawBytes(r, pad)| == 3 * WORD + WORD * |r.seeds| + WORD * |r.words|
  {
    HasSplit(file, at, HeadBytes(r) + pad, EncodeAll(r.words));
    HasSplit(file, at, HeadBytes(r), pad);
  }

  lemma RawOf(file: seq<Byte>, at: nat, r: RawBloom)
    requires ReadWord(file, at) == Some(|r.seeds|) && ReadWord(file, at + WORD) == Some(r.length)
    requires ReadWords(file, at + 2 * WORD, |r.seeds|) == Some(r.seeds)
    requires ReadWords(file, at + DataStart(|r.seeds|), WordCount(r.length)) == Some(r.words)
    ensures ParseRaw(file, at) == Some((r, at + DataStart(|r.seeds|) + WORD * WordCount(r.length)))
  {
  }

  /** Save writes binary_size bytes, and loading what was saved gives back the filter wherever it was put. */
  lemma FormatRoundTrip(file: seq<Byte>, at: nat, r: RawBloom, pad: seq<Byte>)
    requires ValidRaw(r) && |pad| == Align(2 * WORD + WORD * |r.seeds|)
    requires HasBytes(file, at, RawBytes(r, pad))
    ensures |RawBytes(r, pad)| == BinarySize(|r.seeds|, |r.words|)
    ensures ParseRaw(file, at) == Some((r, at + |RawBytes(r, pad)|))
  {
    hide RawBytes, HeadBytes, HasBytes, EncodeAll, ParseRaw, Encode, ReadWord, ReadWords;
    FillerIsOneWord(|r.seeds|);
    RawParts(file, at, r, pad);
    HeadRoundTrip(file, at, r);
    ReadEncodedAll(file, at + 3 * WORD + WORD * |r.seeds|, r.words);
    RawOf(file, at, r);
  }
}
