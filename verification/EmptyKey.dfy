/** The one input family that breaks compaction: the empty key, which the range scan reads as "unset". */
module EmptyKey {
  import opened Keys
  import opened Entries
  import opened HeapMerge
  import opened Levels
  import opened Compaction

  const A: Key := [97]
  const B: Key := [98]

  function One(k: Key): seq<Entry> {
    [Entry(k, [])]
  }

  /** Level 0 holds "b" and, newer, the empty key; level 1 holds "a". */
  function Before(): seq<Level> {
    [[Sst(1, One(B), 1), Sst(2, One([]), 1)], [Sst(0, One(A), 1)]]
  }

  function After(): seq<Level> {
    [[], [Sst(0, One(A), 1), Sst(3, One([]) + One(B), 1)]]
  }

  function OneByte(entries: seq<Entry>): nat {
    1
  }

  lemma OneContents(k: Key)
    ensures Contents(One(k)) == map[k := []] && Sorted(One(k))
  {
    assert One(k)[..0] == [];
  }

  lemma KeysOrdered()
    ensures Less([], A) && Less([], B) && Less(A, B) && !Less(B, A) && !Less(A, A)
  {
  }

  lemma BeforeAnswers()
    ensures ValidLevels(Before()) && GetFrom(Before(), 0, A) == Some([])
  {
    KeysOrdered();
    OneContents(A);
    OneContents(B);
    OneContents([]);
    var levels := Before();
    assert levels[0][..1] == [levels[0][0]] && levels[0][..1][..0] == [];
    assert ScanGet(levels[0], A) == ScanGet(levels[0][..1], A) == ScanGet([], A);
    assert Probe(levels[1], A, 0, 1) == 1;
  }

  /** The scan forgets the empty key and takes "b" for the minimum. */
  lemma BeforeRange()
    ensures ScanMin(Before()[0]) == B && !SentinelSafe(Before()[0])
  {
    KeysOrdered();
    var level := Before()[0];
    assert level[1..] == [level[1]] && level[1..][1..] == [];
    assert ScanMin(level[1..]) == [];
    assert MinKey(level[1]) == [];
  }

  lemma BeforeSources()
    ensures Sources(Before()[0], []) == [One([]), One(B)]
  {
    var level := Before()[0];
    assert level[..1] == [level[0]] && level[..1][..0] == [];
    assert NewestFirst(level[..1]) == [One(B)] + NewestFirst([]);
  }

  lemma BeforeMerged()
    ensures Merged([One([]), One(B)]) == One([]) + One(B)
  {
    KeysOrdered();
    assert [One([]), One(B)][1..] == [One(B)] && [One(B)][1..] == [];
    assert One(B)[..0] == [] && One([])[..0] == [];
    assert Overlay([], One(B)) == Insert([], Entry(B, [])) == One(B);
    assert Merged([One(B)]) == Overlay(Merged([]), One(B));
    assert Overlay(One(B), One([])) == Insert(One(B), Entry([], []));
  }

  lemma CompactsToAfter()
    ensures Compact(Before(), 0, 3, OneByte) == After()
  {
    KeysOrdered();
    BeforeRange();
    BeforeSources();
    BeforeMerged();
    var cur, next := Before()[0], Before()[1];
    assert next[1..] == [] && EndingBelow(next, B) == 1;
    assert SplitNext(cur, next) == Split(next, [], []);
    assert NewNext(cur, next, 3, OneByte) == next + [Build(One([]) + One(B), 3, OneByte)] + [];
    assert Extended(Before(), 0) == Before();
    assert Compact(Before(), 0, 3, OneByte) == Before()[0 := []][1 := NewNext(cur, next, 3, OneByte)];
    assert next + [Build(One([]) + One(B), 3, OneByte)] + [] == After()[1];
  }

  lemma AfterAnswers()
    ensures GetFrom(After(), 0, A) == None
  {
    KeysOrdered();
    var level := After()[1];
    assert Probe(level, A, 0, 2) == Probe(level, A, 2, 2) == 2;
    KeyInContents(level[1].entries, A);
    assert ProbeGet(level, A) == None;
  }

  /** The merged SST is put behind "a" although it starts before it, and "a" is no longer found. */
  lemma EmptyKeyLosesAnswer()
    ensures ValidLevels(Before()) && !SentinelSafe(Before()[0])
    ensures GetFrom(Before(), 0, A) == Some([])
    ensures GetFrom(Compact(Before(), 0, 3, OneByte), 0, A) == None
  {
    BeforeRange();
    BeforeAnswers();
    CompactsToAfter();
    AfterAnswers();
  }
}
