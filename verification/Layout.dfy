/** Where everything stands in the files, in absolute positions and byte by byte. */
module Layouts {
  import opened Keys
  import opened Entries
  import opened Words
  import opened BloomFormat
  import opened SstFormat
  import M = ManifestFile

  /** Eight bytes from a position on are the number, the lowest byte first. */
  predicate Stands(file: seq<Byte>, at: nat, n: nat) {
    && at + 8 <= |file|
    && file[at] == n % 256
    && file[at + 1] == n / 256 % 256
    && file[at + 2] == n / 256 / 256 % 256
    && file[at + 3] == n / 256 / 256 / 256 % 256
    && file[at + 4] == n / 256 / 256 / 256 / 256 % 256
    && file[at + 5] == n / 256 / 256 / 256 / 256 / 256 % 256
    && file[at + 6] == n / 256 / 256 / 256 / 256 / 256 / 256 % 256
    && file[at + 7] == n / 256 / 256 / 256 / 256 / 256 / 256 / 256 % 256
  }

  lemma {:induction false} ByteIs(n: nat, i: nat)
    ensures i == 0 ==> ByteAt(n, i) == n % 256
    ensures i == 1 ==> ByteAt(n, i) == n / 256 % 256
    ensures i == 2 ==> ByteAt(n, i) == n / 256 / 256 % 256
    ensures i == 3 ==> ByteAt(n, i) == n / 256 / 256 / 256 % 256
    ensures i == 4 ==> ByteAt(n, i) == n / 256 / 256 / 256 / 256 % 256
    ensures i == 5 ==> ByteAt(n, i) == n / 256 / 256 / 256 / 256 / 256 % 256
    ensures i == 6 ==> ByteAt(n, i) == n / 256 / 256 / 256 / 256 / 256 / 256 % 256
    ensures i == 7 ==> ByteAt(n, i) == n / 256 / 256 / 256 / 256 / 256 / 256 / 256 % 256
  {
    if i > 0 {
      ByteIs(n / 256, i - 1);
    }
  }

  lemma EncodeStands(file: seq<Byte>, at: nat, n: nat)
    requires HasBytes(file, at, Encode(n))
    ensures Stands(file, at, n)
  {
    forall i | 0 <= i < 8 ensures file[at + i] == ByteAt(n, i) {
      assert file[at..at + 8][i] == Encode(n)[i];
    }
    hide ByteAt;
    ByteIs(n, 0);
    ByteIs(n, 1);
    ByteIs(n, 2);
    ByteIs(n, 3);
    ByteIs(n, 4);
    ByteIs(n, 5);
    ByteIs(n, 6);
    ByteIs(n, 7);
  }

  lemma {:induction false} AllStand(file: seq<Byte>, at: nat, ns: seq<nat>, i: nat)
    requires HasBytes(file, at, EncodeAll(ns)) && i < |ns|
    ensures Stands(file, at + 8 * i, ns[i])
  {
    hide Stands, HasBytes, Encode;
    var n := |ns| - 1;
    HasSplit(file, at, EncodeAll(ns[..n]), Encode(ns[n]));
    if i < n {
      AllStand(file, at, ns[..n], i);
    } else {
      EncodeStands(file, at + 8 * n, ns[n]);
    }
  }

  // ---------- SST files ----------

  /** An entry: both lengths, then key and value. */
  lemma EntryStands(file: seq<Byte>, at: nat, e: Entry)
    requires HasBytes(file, at, EntryBytes(e))
    ensures Stands(file, at, |e.key|) && Stands(file, at + 8, |e.value|)
    ensures HasBytes(file, at + 16, e.key) && HasBytes(file, at + 16 + |e.key|, e.value)
  {
    hide Stands, HasBytes, Encode;
    HasSplit(file, at, Encode(|e.key|) + Encode(|e.value|) + e.key, e.value);
    HasSplit(file, at, Encode(|e.key|) + Encode(|e.value|), e.key);
    HasSplit(file, at, Encode(|e.key|), Encode(|e.value|));
    EncodeStands(file, at, |e.key|);
    EncodeStands(file, at + 8, |e.value|);
  }

  /** The entries follow each other, each with 16 bytes of lengths. */
  lemma {:induction false} EntriesStand(file: seq<Byte>, at: nat, es: seq<Entry>, i: nat)
    requires HasBytes(file, at, EntriesBytes(es)) && i < |es|
    ensures HasBytes(file, at + 16 * i + PayloadSize(es[..i]), EntryBytes(es[i]))
  {
    hide HasBytes, EntryBytes;
    var n := |es| - 1;
    EntriesLast(es);
    HasSplit(file, at, EntriesBytes(es[..n]), EntryBytes(es[n]));
    if i < n {
      EntriesStand(file, at, es[..n], i);
      assert es[..n][..i] == es[..i];
    } else {
      EntriesSize(es[..n]);
    }
  }

  /** A filter: how many hashes, the length in bits, the seeds, one word left as it was, the packed words. */
  lemma FilterStands(file: seq<Byte>, at: nat, r: RawBloom, pad: seq<Byte>)
    requires HasBytes(file, at, RawBytes(r, pad)) && |pad| == 8
    ensures Stands(file, at, |r.seeds|) && Stands(file, at + 8, r.length)
    ensures forall i :: 0 <= i < |r.seeds| ==> Stands(file, at + 16 + 8 * i, r.seeds[i])
    ensures forall i :: 0 <= i < |r.words| ==> Stands(file, at + 24 + 8 * |r.seeds| + 8 * i, r.words[i])
    ensures ValidRaw(r) ==> |r.words| == r.length / 64 + 1
  {
    hide Stands, HasBytes, Encode, EncodeAll;
    HasSplit(file, at, HeadBytes(r) + pad, EncodeAll(r.words));
    HasSplit(file, at, HeadBytes(r), pad);
    HasSplit(file, at, Encode(|r.seeds|) + Encode(r.length), EncodeAll(r.seeds));
    HasSplit(file, at, Encode(|r.seeds|), Encode(r.length));
    EncodeStands(file, at, |r.seeds|);
    EncodeStands(file, at + 8, r.length);
    forall i | 0 <= i < |r.seeds| ensures Stands(file, at + 16 + 8 * i, r.seeds[i]) {
      AllStand(file, at + 16, r.seeds, i);
    }
    forall i | 0 <= i < |r.words| ensures Stands(file, at + 24 + 8 * |r.seeds| + 8 * i, r.words[i]) {
      AllStand(file, at + 24 + 8 * |r.seeds|, r.words, i);
    }
  }

  lemma IndexStands(file: seq<Byte>, es: seq<Entry>)
    requires es != [] && HasBytes(file, 0, IndexBytes(es))
    ensures var d := 16 * (|es| + 1) + |es[0].key|;
            && Stands(file, 0, d) && Stands(file, 8, 1) && Stands(file, 16, d) && Stands(file, 24, |es[0].key|)
            && HasBytes(file, 32, es[0].key)
  {
    hide Stands, HasBytes, Encode;
    var d, k := IndexBlockSize(es), es[0].key;
    HasSplit(file, 0, Encode(d) + Encode(1) + Encode(d) + Encode(|k|), k);
    HasSplit(file, 0, Encode(d) + Encode(1) + Encode(d), Encode(|k|));
    HasSplit(file, 0, Encode(d) + Encode(1), Encode(d));
    HasSplit(file, 0, Encode(d), Encode(1));
    EncodeStands(file, 0, d);
    EncodeStands(file, 8, 1);
    EncodeStands(file, 16, d);
    EncodeStands(file, 24, |k|);
  }

  /** Index block, then data block: its size, the filter, the number of entries, the entries. */
  lemma SstLayout(file: seq<Byte>, r: RawBloom, pad: seq<Byte>, es: seq<Entry>, i: nat)
    requires IsSstFile(file, r, pad, es) && i < |es|
    ensures var d, b := 16 * (|es| + 1) + |es[0].key|, 24 + 8 * |r.seeds| + 8 * |r.words|;
            && Stands(file, 0, d) && Stands(file, 8, 1) && Stands(file, 16, d) && Stands(file, 24, |es[0].key|)
            && HasBytes(file, 32, es[0].key)
            && Stands(file, d, 16 + b + 16 * |es| + PayloadSize(es))
            && HasBytes(file, d + 8, RawBytes(r, pad)) && |pad| == 8
            && Stands(file, d + 8 + b, |es|)
            && HasBytes(file, d + 16 + b + 16 * i + PayloadSize(es[..i]), EntryBytes(es[i]))
  {
    hide Stands, HasBytes, Encode, EncodeAll, EntriesBytes, EntryBytes, PayloadSize, IndexBytes;
    var d, b := IndexBlockSize(es), |RawBytes(r, pad)|;
    FillerIsOneWord(|r.seeds|);
    IndexStands(file, es);
    EncodeStands(file, d, DataBlockSize(es, BinarySize(|r.seeds|, |r.words|)));
    HasSplit(file, d + 8, RawBytes(r, pad) + Encode(|es|), EntriesBytes(es));
    HasSplit(file, d + 8, RawBytes(r, pad), Encode(|es|));
    EncodeStands(file, d + 8 + b, |es|);
    EntriesStand(file, d + 16 + b, es, i);
  }

  // ---------- manifest files ----------

  /** Where level x starts: behind two words, and each level before it with its numbers and one word more. */
  function LevelStart(levels: seq<M.Ids>, x: nat): nat
    requires x <= |levels|
  {
    if x == 0 then 16 else LevelStart(levels, x - 1) + 8 * |levels[x - 1]| + 8
  }

  lemma {:induction false} LevelStartIs(levels: seq<M.Ids>, x: nat)
    requires x <= |levels|
    ensures LevelStart(levels, x) == 16 + |M.LevelsBytes(levels[..x])|
  {
    if x > 0 {
      LevelStartIs(levels, x - 1);
      assert levels[..x][..x - 1] == levels[..x - 1];
    }
  }

  lemma LevelStands(file: seq<Byte>, at: nat, ids: M.Ids)
    requires HasBytes(file, at, M.LevelBytes(ids))
    ensures forall y :: 0 <= y < |ids| ==> Stands(file, at + 8 * y, ids[y])
    ensures Stands(file, at + 8 * |ids|, 0xFFFF_FFFF_FFFF_FFFF)
  {
    hide Stands, HasBytes, Encode, EncodeAll;
    HasSplit(file, at, EncodeAll(ids), Encode(M.END));
    EncodeStands(file, at + 8 * |ids|, M.END);
    forall y | 0 <= y < |ids| ensures Stands(file, at + 8 * y, ids[y]) {
      AllStand(file, at, ids, y);
    }
  }

  lemma {:induction false} LevelThere(file: seq<Byte>, at: nat, levels: seq<M.Ids>, x: nat)
    requires HasBytes(file, at, M.LevelsBytes(levels)) && x < |levels|
    ensures HasBytes(file, at + |M.LevelsBytes(levels[..x])|, M.LevelBytes(levels[x]))
  {
    hide HasBytes, M.LevelBytes;
    var n := |levels| - 1;
    HasSplit(file, at, M.LevelsBytes(levels[..n]), M.LevelBytes(levels[n]));
    if x < n {
      LevelThere(file, at, levels[..n], x);
      assert levels[..n][..x] == levels[..x];
    }
  }

  /** Version, number of levels, and level by level the numbers and a word of ones. */
  lemma ManifestLayout(file: seq<Byte>, version: nat, levels: seq<M.Ids>, x: nat)
    requires HasBytes(file, 0, M.ManifestBytes(version, levels)) && x < |levels|
    ensures Stands(file, 0, version) && Stands(file, 8, |levels|)
    ensures var at, ids := LevelStart(levels, x), levels[x];
            && (forall y :: 0 <= y < |ids| ==> Stands(file, at + 8 * y, ids[y]))
            && Stands(file, at + 8 * |ids|, 0xFFFF_FFFF_FFFF_FFFF)
  {
    hide Stands, HasBytes, Encode, M.LevelsBytes, M.LevelBytes, LevelStart;
    HasSplit(file, 0, Encode(version) + Encode(|levels|), M.LevelsBytes(levels));
    HasSplit(file, 0, Encode(version), Encode(|levels|));
    EncodeStands(file, 0, version);
    EncodeStands(file, 8, |levels|);
    LevelThere(file, 16, levels, x);
    LevelStartIs(levels, x);
    LevelStands(file, LevelStart(levels, x), levels[x]);
  }
}
