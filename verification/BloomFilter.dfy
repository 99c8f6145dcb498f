/** The Bloom filter: bits packed in 64-bit words, polynomial hashes, and its stored form. */
module BloomFilters {
  import opened Keys
  import opened Words
  import opened BloomFormat

  /** The value of a filter; words holds length / 64 + 1 packed words. */
  datatype Bloom = Bloom(length: nat, seeds: seq<nat>, words: seq<bv64>)

  ghost predicate ValidBloom(b: Bloom) {
    && 1 <= b.length < TWO64 - 64
    && 1 <= |b.seeds| < TWO64
    && (forall i :: 0 <= i < |b.seeds| ==> b.seeds[i] < TWO64)
    && |b.words| == WordCount(b.length)
  }

  function Mask(i: nat): bv64
    requires i < 64
  {
    (1 as bv64) << (i as bv6)
  }

  predicate TestBit(words: seq<bv64>, p: nat)
    requires p / 64 < |words|
  {
    words[p / 64] & Mask(p % 64) != 0
  }

  function SetBit(words: seq<bv64>, p: nat): seq<bv64>
    requires p / 64 < |words|
  {
    words[p / 64 := words[p / 64] | Mask(p % 64)]
  }

  lemma MaskBits(w: bv64, i: bv6, j: bv6)
    ensures (w | ((1 as bv64) << i)) & ((1 as bv64) << j) != 0 <==> i == j || w & ((1 as bv64) << j) != 0
  {
  }

  lemma SmallShift(i: nat)
    requires i < 64
    ensures (i as bv6) as nat == i
  {
  }

  lemma MaskExact(w: bv64, i: nat, j: nat)
    requires i < 64 && j < 64
    ensures (w | Mask(i)) & Mask(j) != 0 <==> i == j || w & Mask(j) != 0
  {
    SmallShift(i);
    SmallShift(j);
    MaskBits(w, i as bv6, j as bv6);
  }

  lemma SamePosition(p: nat, q: nat)
    ensures p == q <==> p / 64 == q / 64 && p % 64 == q % 64
  {
  }

  lemma SameWord(words: seq<bv64>, p: nat, q: nat)
    requires p / 64 == q / 64 < |words|
    ensures TestBit(SetBit(words, p), q) <==> p % 64 == q % 64 || TestBit(words, q)
  {
    MaskExact(words[p / 64], p % 64, q % 64);
  }

  lemma OtherWord(words: seq<bv64>, p: nat, q: nat)
    requires p / 64 != q / 64 && p / 64 < |words| && q / 64 < |words|
    ensures TestBit(SetBit(words, p), q) == TestBit(words, q)
  {
    hide Mask;
  }

  /** Setting bit p sets it and leaves every other bit of the packed array alone. */
  lemma SetBitExact(words: seq<bv64>, p: nat, q: nat)
    requires p / 64 < |words| && q / 64 < |words|
    ensures TestBit(SetBit(words, p), q) <==> p == q || TestBit(words, q)
  {
    hide TestBit, SetBit;
    SamePosition(p, q);
    if p / 64 == q / 64 {
      SameWord(words, p, q);
    } else {
      OtherWord(words, p, q);
    }
  }

  /** A char is signed: bytes from 128 on are sign-extended to 64 bits. */
  function SignExtend(b: Byte): nat {
    if b < 128 then b else TWO64 - 256 + b
  }

  function HashStep(res: nat, seed: nat, b: Byte): nat {
    ((res * seed) % TWO64 + SignExtend(b)) % TWO64
  }

  function Hash(s: Key, seed: nat): nat {
    if s == [] then 0 else HashStep(Hash(s[..|s| - 1], seed), seed, s[|s| - 1])
  }

  method CalcHash(s: Key, seed: nat) returns (res: nat)
    ensures res == Hash(s, seed)
  {
    res := 0;
    for i := 0 to |s|
      invariant res == Hash(s[..i], seed)
    {
      assert s[..i + 1][..i] == s[..i];
      res := HashStep(res, seed, s[i]);
    }
    assert s[..|s|] == s;
  }

  function Position(s: Key, seed: nat, length: nat): (p: nat)
    requires length >= 1
    ensures p < length && p / 64 < WordCount(length)
  {
    Hash(s, seed) % length
  }

  /** words with the bits of the first n hashes of s set. */
  function SetHashes(b: Bloom, s: Key, n: nat): (words: seq<bv64>)
    requires b.length >= 1 && |b.words| == WordCount(b.length) && n <= |b.seeds|
    ensures |words| == |b.words|
  {
    if n == 0 then b.words else SetBit(SetHashes(b, s, n - 1), Position(s, b.seeds[n - 1], b.length))
  }

  function Add(b: Bloom, s: Key): Bloom
    requires b.length >= 1 && |b.words| == WordCount(b.length)
  {
    b.(words := SetHashes(b, s, |b.seeds|))
  }

  /** All hash positions of s are set. */
  predicate Has(b: Bloom, s: Key)
    requires b.length >= 1 && |b.words| == WordCount(b.length)
  {
    forall i :: 0 <= i < |b.seeds| ==> TestBit(b.words, Position(s, b.seeds[i], b.length))
  }

  /** The bits set afterwards are those set before and the hash positions. */
  lemma {:induction false} SetHashesExact(b: Bloom, s: Key, n: nat, q: nat)
    requires b.length >= 1 && |b.words| == WordCount(b.length) && n <= |b.seeds| && q / 64 < |b.words|
    ensures TestBit(SetHashes(b, s, n), q) <==>
            TestBit(b.words, q) || exists i :: 0 <= i < n && Position(s, b.seeds[i], b.length) == q
  {
    if n > 0 {
      SetHashesExact(b, s, n - 1, q);
      SetBitExact(SetHashes(b, s, n - 1), Position(s, b.seeds[n - 1], b.length), q);
    }
  }

  /** A stored key is never hidden, whatever is added before or later. */
  lemma AddKeeps(b: Bloom, s: Key)
    requires b.length >= 1 && |b.words| == WordCount(b.length)
    ensures Has(Add(b, s), s)
    ensures forall t :: Has(b, t) ==> Has(Add(b, s), t)
  {
    forall i | 0 <= i < |b.seeds| ensures TestBit(Add(b, s).words, Position(s, b.seeds[i], b.length)) {
      SetHashesExact(b, s, |b.seeds|, Position(s, b.seeds[i], b.length));
    }
    forall t | Has(b, t) ensures Has(Add(b, s), t) {
      forall i | 0 <= i < |b.seeds| ensures TestBit(Add(b, s).words, Position(t, b.seeds[i], b.length)) {
        SetHashesExact(b, s, |b.seeds|, Position(t, b.seeds[i], b.length));
      }
    }
  }

  function AddAll(b: Bloom, keys: seq<Key>): (r: Bloom)
    requires b.length >= 1 && |b.words| == WordCount(b.length)
    ensures r.length == b.length && r.seeds == b.seeds && |r.words| == |b.words|
  {
    if keys == [] then b else Add(AddAll(b, keys[..|keys| - 1]), keys[|keys| - 1])
  }

  /** After any sequence of insertions every inserted key passes the check. */
  lemma {:induction false} AddAllHas(b: Bloom, keys: seq<Key>)
    requires b.length >= 1 && |b.words| == WordCount(b.length)
    ensures forall k :: k in keys || Has(b, k) ==> Has(AddAll(b, keys), k)
  {
    if keys != [] {
      var init := keys[..|keys| - 1];
      AddAllHas(b, init);
      AddKeeps(AddAll(b, init), keys[|keys| - 1]);
      assert keys == init + [keys[|keys| - 1]];
    }
  }

  /** Some hash of some of the keys gives the position. */
  ghost predicate Hit(b: Bloom, keys: seq<Key>, q: nat)
    requires b.length >= 1
  {
    exists j, i :: 0 <= j < |keys| && 0 <= i < |b.seeds| && Position(keys[j], b.seeds[i], b.length) == q
  }

  lemma HitMore(b: Bloom, keys: seq<Key>, k: Key, q: nat)
    requires b.length >= 1
    ensures Hit(b, keys + [k], q) <==>
            Hit(b, keys, q) || exists i :: 0 <= i < |b.seeds| && Position(k, b.seeds[i], b.length) == q
  {
    hide Position;
    var all := keys + [k];
    if i :| 0 <= i < |b.seeds| && Position(k, b.seeds[i], b.length) == q {
      assert all[|keys|] == k;
    }
    if Hit(b, keys, q) {
      var j, i :| 0 <= j < |keys| && 0 <= i < |b.seeds| && Position(keys[j], b.seeds[i], b.length) == q;
      assert all[j] == keys[j];
    }
  }

  lemma NoHit(b: Bloom, q: nat)
    requires b.length >= 1
    ensures !Hit(b, [], q)
  {
  }

  /** The bits set are those set before and the hash positions of the keys, and no others. */
  lemma {:induction false} AddAllExact(b: Bloom, keys: seq<Key>, q: nat)
    requires b.length >= 1 && |b.words| == WordCount(b.length) && q / 64 < |b.words|
    ensures TestBit(AddAll(b, keys).words, q) <==> TestBit(b.words, q) || Hit(b, keys, q)
  {
    hide Position, TestBit, SetHashes, Hit;
    if keys == [] {
      NoHit(b, q);
    } else {
      var init, last := keys[..|keys| - 1], keys[|keys| - 1];
      AddAllExact(b, init, q);
      SetHashesExact(AddAll(b, init), last, |b.seeds|, q);
      HitMore(b, init, last, q);
      assert init + [last] == keys;
    }
  }

  /** A key passes the check of a filter that started empty exactly when the keys hit all of its positions. */
  lemma PassesExact(b: Bloom, keys: seq<Key>, k: Key)
    requires b.length >= 1 && |b.words| == WordCount(b.length)
    requires forall q :: 0 <= q && q / 64 < |b.words| ==> !TestBit(b.words, q)
    ensures Has(AddAll(b, keys), k) <==>
            forall i :: 0 <= i < |b.seeds| ==> Hit(b, keys, Position(k, b.seeds[i], b.length))
  {
    hide Position, TestBit, Hit, AddAll;
    forall i | 0 <= i < |b.seeds|
      ensures TestBit(AddAll(b, keys).words, Position(k, b.seeds[i], b.length)) <==>
              Hit(b, keys, Position(k, b.seeds[i], b.length))
    {
      AddAllExact(b, keys, Position(k, b.seeds[i], b.length));
    }
  }

  // ---------- what the hash is ----------

  /** A char as a signed number. */
  function Signed(b: Byte): int {
    if b < 128 then b else b - 256
  }

  function Power(x: nat, n: nat): nat {
    if n == 0 then 1 else x * Power(x, n - 1)
  }

  /** The polynomial in the seed whose coefficients are the signed bytes, the first one leading. */
  function Polynomial(s: Key, seed: nat): int {
    if s == [] then 0 else Signed(s[0]) * Power(seed, |s| - 1) + Polynomial(s[1..], seed)
  }

  lemma Raised(c: int, x: nat, p: nat, rest: int)
    ensures (c * p + rest) * x == c * (x * p) + rest * x
  {
  }

  lemma {:induction false} PolynomialStep(s: Key, seed: nat, b: Byte)
    ensures Polynomial(s + [b], seed) == Polynomial(s, seed) * seed + Signed(b)
  {
    if s == [] {
      assert ([] + [b])[1..] == [] && s + [b] == [b];
    } else {
      assert (s + [b])[1..] == s[1..] + [b];
      PolynomialStep(s[1..], seed, b);
      Raised(Signed(s[0]), seed, Power(seed, |s| - 1), Polynomial(s[1..], seed));
    }
  }

  lemma Wrapped(a: int, k: int)
    ensures (a + TWO64 * k) % TWO64 == a % TWO64
  {
  }

  lemma Spread(r: nat, q: int, seed: nat)
    ensures (r + TWO64 * q) * seed == r * seed + TWO64 * (q * seed)
  {
  }

  /** Reducing in between changes nothing. */
  lemma StepWraps(res: int, seed: nat, b: Byte)
    ensures HashStep(res % TWO64, seed, b) == (res * seed + Signed(b)) % TWO64
  {
    var r, q := res % TWO64, res / TWO64;
    Spread(r, q, seed);
    Wrapped(r * seed, q * seed);
    var x := r * seed;
    Wrapped(x % TWO64 + Signed(b), x / TWO64);
    Wrapped(x + Signed(b), q * seed);
    if b >= 128 {
      Wrapped(x % TWO64 + Signed(b), 1);
    }
  }

  /** The hash is that polynomial modulo 2^64. */
  lemma {:induction false} HashIs(s: Key, seed: nat)
    ensures Hash(s, seed) == Polynomial(s, seed) % TWO64
  {
    hide HashStep;
    if s != [] {
      var init, last := s[..|s| - 1], s[|s| - 1];
      HashIs(init, seed);
      PolynomialStep(init, seed, last);
      StepWraps(Polynomial(init, seed), seed, last);
      assert init + [last] == s;
    }
  }

  /** A bit position is that hash by the filter's length. */
  lemma PositionIs(s: Key, seed: nat, length: nat)
    requires length >= 1
    ensures Position(s, seed, length) == Polynomial(s, seed) % TWO64 % length
  {
    HashIs(s, seed);
  }

  // ---------- the stored form ----------

  /** The packed words as numbers, the way memcpy moves them. */
  function Numbers(words: seq<bv64>): (ns: seq<nat>)
    ensures |ns| == |words|
  {
    seq(|words|, i requires 0 <= i < |words| => words[i] as nat)
  }

  function Packed(ns: seq<nat>): (words: seq<bv64>)
    ensures |words| == |ns|
  {
    seq(|ns|, i requires 0 <= i < |ns| => if ns[i] < TWO64 then ns[i] as bv64 else 0)
  }

  lemma WordFits(w: bv64)
    ensures (w as nat) < TWO64 && (w as nat) as bv64 == w
  {
  }

  lemma PackedNumbers(words: seq<bv64>)
    ensures Packed(Numbers(words)) == words
    ensures forall i :: 0 <= i < |words| ==> Numbers(words)[i] < TWO64
  {
    forall i | 0 <= i < |words| ensures Packed(Numbers(words))[i] == words[i] && Numbers(words)[i] < TWO64 {
      WordFits(words[i]);
    }
  }

  function ToRaw(b: Bloom): (r: RawBloom)
    ensures r.length == b.length && r.seeds == b.seeds && |r.words| == |b.words|
  {
    RawBloom(b.length, b.seeds, Numbers(b.words))
  }

  function FromRaw(r: RawBloom): Bloom {
    Bloom(r.length, r.seeds, Packed(r.words))
  }

  /** The stored filter reads back as the filter that was saved. */
  lemma RawRoundTrip(b: Bloom)
    requires ValidBloom(b)
    ensures ValidRaw(ToRaw(b)) && FromRaw(ToRaw(b)) == b
  {
    PackedNumbers(b.words);
  }

  method LoadRaw(file: array<Byte>, at: nat) returns (r: Option<(RawBloom, nat)>)
    ensures r == ParseRaw(file[..], at)
  {
    var hashNum, length := ReadWord(file[..], at), ReadWord(file[..], at + WORD);
    if hashNum.None? || length.None? {
      return None;
    }
    var seeds := LoadWords(file, at + 2 * WORD, hashNum.value);
    var start := at + DataStart(hashNum.value);
    var words := LoadWords(file, start, WordCount(length.value));
    if seeds.None? || words.None? {
      return None;
    }
    r := Some((RawBloom(length.value, seeds.value, words.value), start + WORD * WordCount(length.value)));
  }

  class BloomFilter {
    var length: nat
    var seeds: seq<nat>
    var data: array<bv64>

    ghost predicate Valid()
      reads this, data
    {
      ValidBloom(Value())
    }

    ghost function Value(): Bloom
      reads this, data
    {
      Bloom(length, seeds, data[..])
    }

    /** Init with the length and seeds that the size formula and the random source give. */
    constructor (length: nat, seeds: seq<nat>)
      requires 1 <= length < TWO64 - 64 && 1 <= |seeds| < TWO64 && forall i :: 0 <= i < |seeds| ==> seeds[i] < TWO64
      ensures Valid() && fresh(data)
      ensures Value() == Bloom(length, seeds, seq(WordCount(length), _ => 0))
    {
      this.length := length;
      this.seeds := seeds;
      data := new bv64[WordCount(length)](_ => 0);
      new;
      assert data[..] == seq(WordCount(length), _ => 0);
    }

    method Insert(s: Key)
      requires Valid()
      modifies data
      ensures Valid() && Value() == Add(old(Value()), s) && data == old(data)
    {
      hide Hash, Mask;
      for i := 0 to |seeds|
        invariant data[..] == SetHashes(old(Value()), s, i)
      {
        var hash := CalcHash(s, seeds[i]);
        var key := hash % length;
        data[key / 64] := data[key / 64] | Mask(key % 64);
      }
    }

    method Check(s: Key) returns (found: bool)
      requires Valid()
      ensures found == Has(Value(), s)
    {
      for i := 0 to |seeds|
        invariant forall j :: 0 <= j < i ==> TestBit(data[..], Position(s, seeds[j], length))
      {
        var hash := CalcHash(s, seeds[i]);
        var key := hash % length;
        if data[key / 64] & Mask(key % 64) == 0 {
          assert !TestBit(data[..], Position(s, seeds[i], length));
          return false;
        }
      }
      found := true;
    }

    /** The filter as a value, for storing it. */
    method Stored() returns (b: Bloom)
      ensures b == Value()
    {
      b := Bloom(length, seeds, data[..]);
    }

    /** Reads a stored filter; None when the file ends before it does. */
    method Load(file: array<Byte>, at: nat) returns (next: Option<nat>)
      modifies this
      ensures ParseRaw(file[..], at).None? ==> next.None?
      ensures ParseRaw(file[..], at).Some? ==>
                && next == Some(ParseRaw(file[..], at).value.1)
                && Value() == FromRaw(ParseRaw(file[..], at).value.0)
                && fresh(data)
    {
      var r := LoadRaw(file, at);
      if r.None? {
        return None;
      }
      length, seeds := r.value.0.length, r.value.0.seeds;
      var packed := Packed(r.value.0.words);
      data := new bv64[|packed|](i requires 0 <= i < |packed| => packed[i]);
      assert data[..] == packed;
      next := Some(r.value.1);
    }
  }

  method SaveHead(buf: array<Byte>, at: nat, r: RawBloom) returns (index: nat)
    requires at + 2 * WORD + WORD * |r.seeds| <= buf.Length
    modifies buf
    ensures index == 2 * WORD + WORD * |r.seeds|
    ensures buf[..] == Patch(old(buf[..]), at, HeadBytes(r))
  {
    ghost var before := buf[..];
    PatchPatch(before, at, Encode(|r.seeds|) + Encode(r.length), EncodeAll(r.seeds));
    Write(buf, at, Encode(|r.seeds|));
    index := WORD;
    WriteNext(buf, before, at, Encode(|r.seeds|), at + index, Encode(r.length));
    index := index + WORD;
    SaveWords(buf, at + index, r.seeds);
    index := index + WORD * |r.seeds|;
  }

  /** What stays in the alignment gap. */
  function Filler(buf: seq<Byte>, at: nat, seedCount: nat): (pad: seq<Byte>)
    requires at + DataStart(seedCount) <= |buf|
    ensures |pad| == Align(2 * WORD + WORD * seedCount)
  {
    buf[at + 2 * WORD + WORD * seedCount..at + DataStart(seedCount)]
  }

  /** after is before with the filter written at the position, the filler being what was there. */
  ghost predicate Saved(before: seq<Byte>, after: seq<Byte>, at: nat, r: RawBloom) {
    && at + BinarySize(|r.seeds|, |r.words|) <= |before|
    && |RawBytes(r, Filler(before, at, |r.seeds|))| == BinarySize(|r.seeds|, |r.words|)
    && after == Patch(before, at, RawBytes(r, Filler(before, at, |r.seeds|)))
  }

  lemma PatchOwn(s: seq<Byte>, at: nat, bs: seq<Byte>, n: nat)
    requires at + |bs| + n <= |s|
    ensures Patch(s, at, bs) == Patch(s, at, bs + s[at + |bs|..at + |bs| + n])
  {
  }

  lemma SavedInParts(before: seq<Byte>, at: nat, r: RawBloom)
    requires at + BinarySize(|r.seeds|, |r.words|) <= |before|
    ensures Saved(before, Patch(Patch(before, at, HeadBytes(r)), at + DataStart(|r.seeds|), EncodeAll(r.words)), at, r)
  {
    var head, pad := HeadBytes(r), Filler(before, at, |r.seeds|);
    PatchOwn(before, at, head, |pad|);
    PatchPatch(before, at, head + pad, EncodeAll(r.words));
  }

  /** Stores the parts of a filter; the filler keeps the bytes the buffer had. */
  method SaveParts(buf: array<Byte>, at: nat, r: RawBloom) returns (written: nat)
    requires at + BinarySize(|r.seeds|, |r.words|) <= buf.Length
    modifies buf
    ensures written == BinarySize(|r.seeds|, |r.words|)
    ensures Saved(old(buf[..]), buf[..], at, r)
  {
    hide Saved, HeadBytes, EncodeAll;
    ghost var before := buf[..];
    FillerIsOneWord(|r.seeds|);
    var index := SaveHead(buf, at, r);
    index := index + Align(index);
    assert index == DataStart(|r.seeds|);
    ghost var head := buf[..];
    SaveWords(buf, at + index, r.words);
    assert buf[..] == Patch(head, at + DataStart(|r.seeds|), EncodeAll(r.words));
    written := index + WORD * |r.words|;
    SavedInParts(before, at, r);
  }
}
