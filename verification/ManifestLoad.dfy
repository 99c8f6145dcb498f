/** Loading a manifest: numbers are read one by one, and the file of each is loaded when its number is met. */
module ManifestLoads {
  import opened Keys
  import opened Words
  import opened SstFormat
  import opened HeapMerge
  import opened Levels
  import opened DbState
  import opened SstLoads
  import F = ManifestFile
  import opened ManifestObject

  lemma {:induction false} NoLevelsAfter(file: seq<Byte>, at: nat, i: nat, n: nat)
    requires i <= n && F.ParseLevels(file, at, i).None?
    ensures F.ParseLevels(file, at, n).None?
    decreases n - i
  {
    if i < n {
      NoLevelsAfter(file, at, i + 1, n);
    }
  }

  lemma LargestMore(ids: F.Ids, id: nat)
    ensures F.Largest(ids + [id]) == if id > F.Largest(ids) then id else F.Largest(ids)
  {
    assert (ids + [id])[..|ids|] == ids;
  }

  lemma LargestOfMore(levels: seq<F.Ids>, ids: F.Ids)
    ensures F.LargestOf(levels + [ids]) ==
            if F.Largest(ids) > F.LargestOf(levels) then F.Largest(ids) else F.LargestOf(levels)
  {
    assert (levels + [ids])[..|levels|] == levels;
  }

  lemma LoadMore(levels: seq<F.Ids>, ids: F.Ids, disk: map<nat, seq<Byte>>)
    ensures LoadLevels(levels + [ids], disk) == LoadLevels(levels, disk) + [LoadLevel(ids, disk)]
  {
    assert forall i :: 0 <= i < |levels| ==> (levels + [ids])[i] == levels[i];
  }

  /** Opens the file that the number names. */
  method LoadOne(id: nat, disk: map<nat, seq<Byte>>) returns (s: Sst)
    ensures s == LoadSst(id, disk)
  {
    var name := ThroughInt32(id);
    if name !in disk {
      return Sst(name, [], 0);
    }
    var blocks := LoadFile(disk[name]);
    s := Sst(name, if blocks.None? then [] else Concat(blocks.value), |disk[name]|);
  }

  /** Numbers and their files up to the end mark; None when the manifest ends first. */
  method LoadUpToEnd(file: seq<Byte>, at: nat, largest: nat, disk: map<nat, seq<Byte>>)
    returns (level: Option<Level>, next: nat, most: nat, ghost ids: F.Ids)
    ensures level.None? <==> F.ParseLevel(file, at).None?
    ensures level.Some? ==> F.ParseLevel(file, at) == Some((ids, next)) && level.value == LoadLevel(ids, disk)
    ensures level.Some? ==> most == if F.Largest(ids) > largest then F.Largest(ids) else largest
  {
    var ssts: Level := [];
    next, most, ids := at, largest, [];
    assert forall rest: F.Ids :: ids + rest == rest;
    while true
      invariant ssts == LoadLevel(ids, disk)
      invariant most == if F.Largest(ids) > largest then F.Largest(ids) else largest
      invariant var rest := F.ParseLevel(file, next);
                F.ParseLevel(file, at) == if rest.None? then None else Some((ids + rest.value.0, rest.value.1))
      decreases |file| - next
    {
      var id := ReadWord(file, next);
      if id.None? {
        return None, next, most, ids;
      }
      next := next + WORD;
      if id.value == F.END {
        assert ids + [] == ids;
        return Some(ssts), next, most, ids;
      }
      var sst := LoadOne(id.value, disk);
      LargestMore(ids, id.value);
      assert forall rest: F.Ids :: ids + ([id.value] + rest) == (ids + [id.value]) + rest;
      ids := ids + [id.value];
      ssts := ssts + [sst];
      if id.value > most {
        most := id.value;
      }
    }
  }

  /** Version, level count and level by level; what cannot be read counts as no manifest. */
  method LoadManifest(file: seq<Byte>, disk: map<nat, seq<Byte>>) returns (m: Manifest)
    ensures fresh(m) && State(NO_TABLES, Store(m.version, [m.levels], m.maxSstId, disk)) == Open(file, disk)
  {
    var version, count := ReadWord(file, 0), ReadWord(file, WORD);
    if version.None? || count.None? {
      m := new Manifest.Fresh();
      return;
    }
    var levels: seq<Level>, at, most := [], 2 * WORD, 0;
    ghost var all: seq<F.Ids> := [];
    for i := 0 to count.value
      invariant F.ParseLevels(file, 2 * WORD, i) == Some((all, at))
      invariant levels == LoadLevels(all, disk) && most == F.LargestOf(all)
    {
      var level, next, larger, ids := LoadUpToEnd(file, at, most, disk);
      if level.None? {
        NoLevelsAfter(file, 2 * WORD, i + 1, count.value);
        m := new Manifest.Fresh();
        return;
      }
      LargestOfMore(all, ids);
      LoadMore(all, ids, disk);
      all := all + [ids];
      levels, at, most := levels + [level.value], next, larger;
    }
    m := new Manifest.Load(version.value, levels, most);
  }
}
