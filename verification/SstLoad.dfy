/** Loading an SST file: the loaders walk the mapped bytes and append to their lists. */
module SstLoads {
  import opened Keys
  import opened Entries
  import opened Words
  import opened BloomFormat
  import opened SstFormat

  lemma {:induction false} NoEntriesAfter(file: seq<Byte>, at: nat, i: nat, n: nat)
    requires i <= n && ParseEntries(file, at, i).None?
    ensures ParseEntries(file, at, n).None?
    decreases n - i
  {
    if i < n {
      NoEntriesAfter(file, at, i + 1, n);
    }
  }

  lemma {:induction false} NoRecordsAfter(file: seq<Byte>, at: nat, i: nat, n: nat)
    requires i <= n && ParseRecords(file, at, i).None?
    ensures ParseRecords(file, at, n).None?
    decreases n - i
  {
    if i < n {
      NoRecordsAfter(file, at, i + 1, n);
    }
  }

  /** None when an entry lies outside the file. */
  method LoadEntries(file: seq<Byte>, at: nat, n: nat) returns (loaded: Option<(seq<Entry>, nat)>)
    ensures loaded == ParseEntries(file, at, n)
  {
    var entries: seq<Entry>, next := [], at;
    for i := 0 to n
      invariant ParseEntries(file, at, i) == Some((entries, next))
    {
      var parsed := ParseEntry(file, next);
      if parsed.None? {
        NoEntriesAfter(file, at, i + 1, n);
        return None;
      }
      entries, next := entries + [parsed.value.0], parsed.value.1;
    }
    return Some((entries, next));
  }

  /** The data block behind its size word: the filter, then the entries. */
  method LoadBody(file: seq<Byte>, at: nat) returns (body: Option<(RawBloom, seq<Entry>)>)
    ensures body == ParseBody(file, at)
  {
    var bloom := ParseRaw(file, at);
    if bloom.None? {
      return None;
    }
    var count := ReadWord(file, bloom.value.1);
    if count.None? {
      return None;
    }
    var entries := LoadEntries(file, bloom.value.1 + WORD, count.value);
    return if entries.None? then None else Some((bloom.value.0, entries.value.0));
  }

  /** One index record; the block's offset passes through an int. */
  method LoadRecord(file: seq<Byte>, at: nat) returns (record: Option<(RawBlock, nat)>)
    ensures record == ParseRecord(file, at)
  {
    var offset, size := ReadWord(file, at), ReadWord(file, at + WORD);
    if offset.None? || size.None? {
      return None;
    }
    var key := ReadBytes(file, at + 2 * WORD, size.value);
    var blockSize := ReadWord(file, ThroughInt32(offset.value));
    if key.None? || blockSize.None? {
      return None;
    }
    var body := LoadBody(file, ThroughInt32(offset.value) + WORD);
    if body.None? {
      return None;
    }
    return Some((RawBlock(key.value, body.value.0, body.value.1), at + 2 * WORD + size.value));
  }

  method LoadFile(file: seq<Byte>) returns (blocks: Option<seq<RawBlock>>)
    ensures blocks == ParseFile(file)
  {
    var size, count := ReadWord(file, 0), ReadWord(file, WORD);
    if size.None? || count.None? {
      return None;
    }
    var loaded: seq<RawBlock>, next := [], 2 * WORD;
    for i := 0 to count.value
      invariant ParseRecords(file, 2 * WORD, i) == Some((loaded, next))
    {
      var record := LoadRecord(file, next);
      if record.None? {
        NoRecordsAfter(file, 2 * WORD, i + 1, count.value);
        return None;
      }
      loaded, next := loaded + [record.value.0], record.value.1;
    }
    return Some(loaded);
  }
}
