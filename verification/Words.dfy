/** Byte buffers: 64-bit words stored little-endian, writes at an index, and reads that stay inside the buffer. */
module Words {
  import opened Keys

  const TWO64 := 0x1_0000_0000_0000_0000
  const WORD := 8

  function EncodeN(n: nat, k: nat): (bs: seq<Byte>)
    ensures |bs| == k
  {
    if k == 0 then [] else [n % 256] + EncodeN(n / 256, k - 1)
  }

  function Decode(bs: seq<Byte>): nat {
    if bs == [] then 0 else bs[0] + 256 * Decode(bs[1..])
  }

  function Pow256(k: nat): nat {
    if k == 0 then 1 else 256 * Pow256(k - 1)
  }

  lemma {:induction false} DecodeEncodeN(n: nat, k: nat)
    requires n < Pow256(k)
    ensures Decode(EncodeN(n, k)) == n
  {
    if k > 0 {
      DecodeEncodeN(n / 256, k - 1);
      assert EncodeN(n, k)[1..] == EncodeN(n / 256, k - 1);
    }
  }

  function ByteAt(n: nat, i: nat): Byte {
    if i == 0 then n % 256 else ByteAt(n / 256, i - 1)
  }

  /** The eight bytes of a word. */
  function Encode(n: nat): (bs: seq<Byte>)
    ensures |bs| == WORD
  {
    seq(WORD, i requires 0 <= i < WORD => ByteAt(n, i))
  }

  lemma {:induction false} EncodeNBytes(n: nat, k: nat, i: nat)
    requires i < k
    ensures EncodeN(n, k)[i] == ByteAt(n, i)
  {
    if i > 0 {
      EncodeNBytes(n / 256, k - 1, i - 1);
    }
  }

  lemma DecodeEncode(n: nat)
    requires n < TWO64
    ensures Decode(Encode(n)) == n
  {
    var k := WORD;
    forall i | 0 <= i < k ensures EncodeN(n, k)[i] == Encode(n)[i] {
      EncodeNBytes(n, k, i);
    }
    assert EncodeN(n, k) == Encode(n);
    assert Pow256(8) == TWO64;
    DecodeEncodeN(n, k);
  }

  /** s with bs written over it from position at on. */
  function Patch(s: seq<Byte>, at: nat, bs: seq<Byte>): (r: seq<Byte>)
    requires at + |bs| <= |s|
    ensures |r| == |s|
  {
    s[..at] + bs + s[at + |bs|..]
  }

  lemma PatchPatch(s: seq<Byte>, at: nat, x: seq<Byte>, y: seq<Byte>)
    requires at + |x| + |y| <= |s|
    ensures Patch(Patch(s, at, x), at + |x|, y) == Patch(s, at, x + y)
  {
  }

  /** memcpy into the buffer. */
  method Write(buf: array<Byte>, at: nat, bs: seq<Byte>)
    requires at + |bs| <= buf.Length
    modifies buf
    ensures buf[..] == Patch(old(buf[..]), at, bs)
  {
    forall i | 0 <= i < |bs| {
      buf[at + i] := bs[i];
    }
  }

  /** The next write at a moving index. */
  method WriteNext(buf: array<Byte>, ghost base: seq<Byte>, ghost from: nat, ghost written: seq<Byte>, at: nat,
                   bs: seq<Byte>)
    requires from + |written| + |bs| <= |base| == buf.Length
    requires buf[..] == Patch(base, from, written) && at == from + |written|
    modifies buf
    ensures buf[..] == Patch(base, from, written + bs)
  {
    PatchPatch(base, from, written, bs);
    Write(buf, at, bs);
  }

  ghost predicate HasBytes(file: seq<Byte>, at: nat, bs: seq<Byte>) {
    at + |bs| <= |file| && file[at..at + |bs|] == bs
  }

  lemma HasSplit(file: seq<Byte>, at: nat, x: seq<Byte>, y: seq<Byte>)
    ensures HasBytes(file, at, x + y) <==> HasBytes(file, at, x) && HasBytes(file, at + |x|, y)
  {
    if at + |x| + |y| <= |file| {
      var whole := file[at..at + |x| + |y|];
      assert whole[..|x|] == file[at..at + |x|];
      assert whole[|x|..] == file[at + |x|..at + |x| + |y|];
      assert whole == whole[..|x|] + whole[|x|..];
      if HasBytes(file, at, x + y) {
        assert (x + y)[..|x|] == x && (x + y)[|x|..] == y;
      }
    }
  }

  /** None stands for a read outside the mapped file, which the loaders do not guard against. */
  function ReadBytes(file: seq<Byte>, at: nat, n: nat): Option<seq<Byte>> {
    if at + n <= |file| then Some(file[at..at + n]) else None
  }

  function ReadWord(file: seq<Byte>, at: nat): Option<nat> {
    if at + WORD <= |file| then Some(Decode(file[at..at + WORD])) else None
  }

  lemma ReadEncoded(file: seq<Byte>, at: nat, n: nat)
    requires n < TWO64 && HasBytes(file, at, Encode(n))
    ensures ReadWord(file, at) == Some(n)
  {
    DecodeEncode(n);
  }

  function EncodeAll(ns: seq<nat>): (bs: seq<Byte>)
    ensures |bs| == WORD * |ns|
  {
    if ns == [] then [] else EncodeAll(ns[..|ns| - 1]) + Encode(ns[|ns| - 1])
  }

  function ReadWords(file: seq<Byte>, at: nat, n: nat): Option<seq<nat>> {
    if n == 0 then Some([])
    else
      var init := ReadWords(file, at, n - 1);
      var last := ReadWord(file, at + WORD * (n - 1));
      if init.Some? && last.Some? then Some(init.value + [last.value]) else None
  }

  lemma {:induction false} ReadEncodedAll(file: seq<Byte>, at: nat, ns: seq<nat>)
    requires (forall i :: 0 <= i < |ns| ==> ns[i] < TWO64) && HasBytes(file, at, EncodeAll(ns))
    ensures ReadWords(file, at, |ns|) == Some(ns)
  {
    if ns != [] {
      var init, last := ns[..|ns| - 1], ns[|ns| - 1];
      HasSplit(file, at, EncodeAll(init), Encode(last));
      ReadEncodedAll(file, at, init);
      ReadEncoded(file, at + |EncodeAll(init)|, last);
      assert ns == init + [last];
    }
  }

  lemma {:induction false} ReadWordsShort(file: seq<Byte>, at: nat, i: nat, n: nat)
    requires i <= n && ReadWords(file, at, i).None?
    ensures ReadWords(file, at, n).None?
  {
    if i < n {
      ReadWordsShort(file, at, i, n - 1);
    }
  }

  method LoadWords(file: array<Byte>, at: nat, n: nat) returns (ns: Option<seq<nat>>)
    ensures ns == ReadWords(file[..], at, n)
  {
    var read: seq<nat> := [];
    for i := 0 to n
      invariant ReadWords(file[..], at, i) == Some(read)
    {
      var word := ReadWord(file[..], at + WORD * i);
      if word.None? {
        ReadWordsShort(file[..], at, i + 1, n);
        return None;
      }
      read := read + [word.value];
    }
    ns := Some(read);
  }

  method SaveWords(buf: array<Byte>, at: nat, ns: seq<nat>)
    requires at + WORD * |ns| <= buf.Length
    modifies buf
    ensures buf[..] == Patch(old(buf[..]), at, EncodeAll(ns))
  {
    for i := 0 to |ns|
      invariant buf[..] == Patch(old(buf[..]), at, EncodeAll(ns[..i]))
    {
      assert ns[..i + 1][..i] == ns[..i];
      PatchPatch(old(buf[..]), at, EncodeAll(ns[..i]), Encode(ns[i]));
      Write(buf, at + WORD * i, Encode(ns[i]));
    }
    assert ns[..|ns|] == ns;
  }
}
