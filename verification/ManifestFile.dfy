/** The manifest file: version, level count, and per level its SST numbers closed by an all-ones word. */
module ManifestFile {
  import opened Keys
  import opened Words

  const END := TWO64 - 1

  type Ids = seq<nat>

  function LevelBytes(ids: Ids): (bs: seq<Byte>)
    ensures |bs| == WORD * (|ids| + 1)
  {
    EncodeAll(ids) + Encode(END)
  }

  function LevelsBytes(levels: seq<Ids>): seq<Byte> {
    if levels == [] then [] else LevelsBytes(levels[..|levels| - 1]) + LevelBytes(levels[|levels| - 1])
  }

  function ManifestBytes(version: nat, levels: seq<Ids>): seq<Byte> {
    Encode(version) + Encode(|levels|) + LevelsBytes(levels)
  }

  /** The size computed before saving. */
  function BinarySize(levels: seq<Ids>): nat {
    if levels == [] then 2 * WORD
    else BinarySize(levels[..|levels| - 1]) + (|levels[|levels| - 1]| + 1) * WORD
  }

  lemma {:induction false} SizeExact(version: nat, levels: seq<Ids>)
    ensures |ManifestBytes(version, levels)| == BinarySize(levels)
    ensures |LevelsBytes(levels)| == BinarySize(levels) - 2 * WORD
  {
    if levels != [] {
      SizeExact(version, levels[..|levels| - 1]);
    }
  }

  /** Reads numbers up to the end mark; None when the file ends first. */
  function ParseLevel(file: seq<Byte>, at: nat): Option<(Ids, nat)>
    decreases |file| - at
  {
    var id := ReadWord(file, at);
    if id.None? then None
    else if id.value == END then Some(([], at + WORD))
    else
      var rest := ParseLevel(file, at + WORD);
      if rest.None? then None else Some(([id.value] + rest.value.0, rest.value.1))
  }

  function ParseLevels(file: seq<Byte>, at: nat, n: nat): Option<(seq<Ids>, nat)> {
    if n == 0 then Some(([], at))
    else
      var init := ParseLevels(file, at, n - 1);
      if init.None? then None
      else
        var last := ParseLevel(file, init.value.1);
        if last.None? then None else Some((init.value.0 + [last.value.0], last.value.1))
  }

  function ParseManifest(file: seq<Byte>): Option<(nat, seq<Ids>)> {
    var version := ReadWord(file, 0);
    var count := ReadWord(file, WORD);
    if version.None? || count.None? then None
    else
      var levels := ParseLevels(file, 2 * WORD, count.value);
      if levels.None? then None else Some((version.value, levels.value.0))
  }

  /** No number looks like the end mark. */
  ghost predicate Storable(ids: Ids) {
    forall i :: 0 <= i < |ids| ==> ids[i] < END
  }

  lemma {:induction false} EncodeAllCons(n: nat, ns: seq<nat>)
    ensures EncodeAll([n] + ns) == Encode(n) + EncodeAll(ns)
  {
    if ns == [] {
      assert [n] + ns == [n] && [n][..0] == [];
    } else {
      var init := ns[..|ns| - 1];
      EncodeAllCons(n, init);
      assert ([n] + ns)[..|ns|] == [n] + init;
    }
  }

  lemma {:induction false} LevelRoundTrip(file: seq<Byte>, at: nat, ids: Ids)
    requires Storable(ids) && HasBytes(file, at, LevelBytes(ids))
    ensures ParseLevel(file, at) == Some((ids, at + |LevelBytes(ids)|))
    decreases |ids|
  {
    if ids == [] {
      ReadEncoded(file, at, END);
      assert LevelBytes(ids) == Encode(END);
    } else {
      var rest := ids[1..];
      assert ids == [ids[0]] + rest;
      EncodeAllCons(ids[0], rest);
      assert LevelBytes(ids) == Encode(ids[0]) + LevelBytes(rest);
      HasSplit(file, at, Encode(ids[0]), LevelBytes(rest));
      ReadEncoded(file, at, ids[0]);
      LevelRoundTrip(file, at + WORD, rest);
    }
  }

  lemma {:induction false} LevelsRoundTrip(file: seq<Byte>, at: nat, levels: seq<Ids>)
    requires (forall i :: 0 <= i < |levels| ==> Storable(levels[i])) && HasBytes(file, at, LevelsBytes(levels))
    ensures ParseLevels(file, at, |levels|) == Some((levels, at + |LevelsBytes(levels)|))
  {
    if levels != [] {
      var init, last := levels[..|levels| - 1], levels[|levels| - 1];
      HasSplit(file, at, LevelsBytes(init), LevelBytes(last));
      LevelsRoundTrip(file, at, init);
      LevelRoundTrip(file, at + |LevelsBytes(init)|, last);
      assert levels == init + [last];
    }
  }

  /** Loading a saved manifest restores version, levels and order, whatever stale bytes follow. */
  lemma ManifestRoundTrip(file: seq<Byte>, version: nat, levels: seq<Ids>)
    requires version < TWO64 && |levels| < TWO64 && forall i :: 0 <= i < |levels| ==> Storable(levels[i])
    requires HasBytes(file, 0, ManifestBytes(version, levels))
    ensures ParseManifest(file) == Some((version, levels))
  {
    HasSplit(file, 0, Encode(version) + Encode(|levels|), LevelsBytes(levels));
    HasSplit(file, 0, Encode(version), Encode(|levels|));
    ReadEncoded(file, 0, version);
    ReadEncoded(file, WORD, |levels|);
    LevelsRoundTrip(file, 2 * WORD, levels);
  }

  method SaveLevel(file: array<Byte>, ghost base: seq<Byte>, ghost written: seq<Byte>, at: nat, ids: Ids)
    returns (next: nat)
    requires |written| + |LevelBytes(ids)| <= |base| == file.Length
    requires file[..] == Patch(base, 0, written) && at == |written|
    modifies file
    ensures next == at + |LevelBytes(ids)|
    ensures file[..] == Patch(base, 0, written + LevelBytes(ids))
  {
    SaveWords(file, at, ids);
    PatchPatch(base, 0, written, EncodeAll(ids));
    next := at + WORD * |ids|;
    WriteNext(file, base, 0, written + EncodeAll(ids), next, Encode(END));
    next := next + WORD;
    assert written + EncodeAll(ids) + Encode(END) == written + LevelBytes(ids);
  }

  lemma {:induction false} LevelsPrefix(levels: seq<Ids>, i: nat)
    requires i <= |levels|
    ensures |LevelsBytes(levels[..i])| <= |LevelsBytes(levels)|
    ensures i < |levels| ==> LevelsBytes(levels[..i + 1]) == LevelsBytes(levels[..i]) + LevelBytes(levels[i])
    decreases |levels| - i
  {
    if i < |levels| {
      assert levels[..i + 1][..i] == levels[..i];
      LevelsPrefix(levels, i + 1);
    } else {
      assert levels[..i] == levels;
    }
  }

  /** Overwrites the front of the file, which may be longer than what is written. */
  method Save(file: array<Byte>, version: nat, levels: seq<Ids>) returns (written: nat)
    requires BinarySize(levels) <= file.Length
    modifies file
    ensures written == BinarySize(levels)
    ensures |ManifestBytes(version, levels)| == written
    ensures file[..] == Patch(old(file[..]), 0, ManifestBytes(version, levels))
    ensures HasBytes(file[..], 0, ManifestBytes(version, levels))
  {
    SizeExact(version, levels);
    ghost var before, head := file[..], Encode(version) + Encode(|levels|);
    Write(file, 0, Encode(version));
    WriteNext(file, before, 0, Encode(version), WORD, Encode(|levels|));
    written := 2 * WORD;
    for i := 0 to |levels|
      invariant written == |head + LevelsBytes(levels[..i])| <= file.Length
      invariant file[..] == Patch(before, 0, head + LevelsBytes(levels[..i]))
    {
      LevelsPrefix(levels, i);
      LevelsPrefix(levels, i + 1);
      assert head + LevelsBytes(levels[..i + 1]) == head + LevelsBytes(levels[..i]) + LevelBytes(levels[i]);
      written := SaveLevel(file, before, head + LevelsBytes(levels[..i]), written, levels[i]);
    }
    assert levels[..|levels|] == levels;
  }

  /** The largest number, or 0. */
  function Largest(ids: Ids): nat {
    if ids == [] then 0
    else
      var m := Largest(ids[..|ids| - 1]);
      if ids[|ids| - 1] > m then ids[|ids| - 1] else m
  }

  function LargestOf(levels: seq<Ids>): nat {
    if levels == [] then 0
    else
      var m, l := LargestOf(levels[..|levels| - 1]), Largest(levels[|levels| - 1]);
      if l > m then l else m
  }

  lemma {:induction false} LargestExact(ids: Ids)
    ensures forall i :: 0 <= i < |ids| ==> ids[i] <= Largest(ids)
    ensures Largest(ids) == 0 || Largest(ids) in ids
  {
    if ids != [] {
      var init := ids[..|ids| - 1];
      LargestExact(init);
      assert forall i :: 0 <= i < |init| ==> ids[i] == init[i];
    }
  }

  lemma {:induction false} LargestOfExact(levels: seq<Ids>)
    ensures forall x, y :: 0 <= x < |levels| && 0 <= y < |levels[x]| ==> levels[x][y] <= LargestOf(levels)
    ensures LargestOf(levels) == 0 ||
            exists x, y :: 0 <= x < |levels| && 0 <= y < |levels[x]| && levels[x][y] == LargestOf(levels)
  {
    if levels != [] {
      var n := |levels| - 1;
      LargestOfExact(levels[..n]);
      LargestExact(levels[n]);
      if LargestOf(levels) != 0 {
        if LargestOf(levels) == Largest(levels[n]) {
          var y :| 0 <= y < |levels[n]| && levels[n][y] == LargestOf(levels);
        } else {
          var x, y :| 0 <= x < n && 0 <= y < |levels[..n][x]| && levels[..n][x][y] == LargestOf(levels[..n]);
          assert levels[x][y] == LargestOf(levels);
        }
      }
    }
  }
}
