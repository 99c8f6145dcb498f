# Shuai-KV in Dafny

A Dafny 4.11 model of Shuai-KV, a key-value store written in C++, with proofs about it. Check it with
`dafny verify dfyconfig.toml`.

Two parts are modelled in depth.

**The storage engine.** A database is an active table, a queue of frozen tables and a queue of manifests. A manifest is
a list of levels of SSTs. `Keys`, `Entries` and `HeapMerge` are the ground: byte strings, sorted entry lists and the
priority-queue merge. `Levels`, `Compaction`, `Cascade` and `ManifestObject` are the manifest: how it is searched and
how one compaction, a cascade and a flush change it. `Words`, `BloomFormat`, `BloomFilters`, `SstFormat`, `SstFiles`,
`SstLoads`, `ManifestFile`, `ManifestLoads` and `Layouts` are the bytes: what is written into a file, where it stands,
and what is read back. `DbState`, `DbRuns`, `DbFiles` and `DbObject` put it together: the database as a state machine
over puts, rotations, flushes, shutdowns and reopenings, and the DB object that takes those steps. `SkipLists` is the
memtable's skip list.

**Replication.** `RingBuffers` and `RaftLogs` are one node's log and its replay into the DB. `Replication` is the
cluster within one leader's reign, a step system in which requests and replies are never taken out of the network, so
that any of them may be late, repeated or lost; `ReplicationRuns` shows that puts can get through, `ReplicationFaults`
on which runs the code falls short. `Pods` is the node object that solves requests and counts. `NodeDbs` joins the two
parts: what a cluster node answers.

Around them are the caches and the quorum reader: `LruLists`, `LruSpec` and `LruCaches` (lazy-promotion LRU over a
circular list), `BlockSpec` and `BlockCaches` (block cache), `CountMin` (four-bit count-min sketch) and `ReadQuorums`.

Objects of the source are classes here, and their loops are loops. What an object does is stated by functions on plain
values, and the laws are proved about those functions.

## Where the code does not do what it promises

Each of these is kept as the code has it. The lemmas named give an input on which the promise fails, or say exactly
when it holds, or both.

- A key can be missed while its table is in flight between the flush queue and the next manifest:
  `DbRuns.InFlightIsHidden`, `DbState.GetExact`.
- The empty key reads as "unset" in the range scan of compaction. `EmptyKey.EmptyKeyLosesAnswer` loses a stored key;
  `Levels.ScanMinExact` says when the scan is right and `Compaction.NewNextExact` when the compacted level is;
  otherwise `Compaction.MisplacedHides` shows the keys of the SST just before the merged one lost, and earlier ones may
  be missed too, depending on where the probe's midpoints fall. Runs put non-empty keys only.
- A data block's offset passes through an `int`. Each SST constructor loads the file it has just written, so already
  the flush or compaction that builds an index block with bit 31 of its size set reads outside its file:
  `DbFiles.LongKeyCannotFlush`, `DbFiles.LargeIndexCannotLoad`, `SstFormat.OffsetExact`, `SstFormat.HugeIndexMisleads`.
  Runs therefore ask of every file, when it is written, that it loads.
- Every compaction of a cascade writes the same file, without truncating it and while the entries it merges are still
  views into the mappings they came from. From the second compaction on, one of those is the file being written:
  `Cascade.OwnFileExact`. The results about cascades take merged entries as copied; for a cascade of one compaction
  nothing needs to be copied: `Cascade.OneCompaction`.
- A skip list whose head grows keeps short towers, and a later put behind one of them reads beyond it:
  `SkipLists.SkipList.Put` says exactly which puts stay inside, `SkipLists.SecondPutLeaves` has two puts of which the
  second does not, and `SkipLists.PutAll` shows a safe family.
- The SST iterator, moved past the last entry, looks into the block behind the last one
  (shuaikv/lsm/sst.hpp:634-639), so that every merge reads one block beyond the block list. The merge is modelled
  without that read.
- A log takes over an entry's commit stamp without looking at its own length, so that a lagging follower counts entries
  as commited that it does not hold: `ReplicationFaults.LaggardCommitsUnheld`, `Replication.SolveAppendExact`,
  `RaftLogs.AppendExact`.
- The replay thread then gives its DB whatever the ring's slot has in it, in a fresh ring the empty key and value, and
  the entry that belongs there is never replayed on that node: `ReplicationFaults.LaggardGivesSlot`,
  `RaftLogs.GivesEmptyKey`, and exactly when, `Replication.GiveNextExact`.
- A new leader looks for the end of a follower's log from its own commit index downwards only. A follower that holds
  anything beyond that index never gets another entry: `ReplicationFaults.GetsMoreExact`,
  `ReplicationFaults.AheadNeverGrows`. Its next index is counted down until it names no entry of the leader, and one
  round later a place in front of the ring's array: `ReplicationFaults.AheadFallsBelow`.
- A next index below zero counts as a very large number. When its thread is stopped, everything the leader holds becomes
  commited (`ReplicationFaults.StopCommitsAll`, `Replication.CountsExact`), and a client's put may return though nobody
  else holds its entry (`ReplicationFaults.AcknowledgedUnheld`, `Replication.AcknowledgedIsHeld`).
- A follower whose ring is full accepts entries without taking them, and they are counted: `Replication.AcceptedExact`,
  `ReplicationFaults.FullRingCommits`, `Replication.CountsExact`.
- A put waits for next indexes beyond its own entry, so the last one does not return until another follows:
  `Replication.LastPutWaits`.
- The leader's counting rule is a strict majority in every cluster but one of four nodes:
  `ReplicationFaults.FourNodesCommitWithTwo`, `Replication.MajorityExact`.
- Overwriting a cached block with another length leaves the block cache's size wrong: `BlockSpec.PutExact`; offsets of
  more than 32 bits share their key with another pair: `BlockSpec.KeysMeetExact`, `BlockSpec.KeysApart`.
- The count-min estimate of an even counter reads its neighbour too, so it is a bound and not the counter:
  `CountMin.EstimateExact`.

Code and comments differ in places, and the model follows the code: the LRU cache moves a value on the hit after the
threshold, not on reaching it (shuaikv/cache/concurrent_cache.hpp:24, 103-105); the skip list takes one spin lock, not
two phases of node locks (shuaikv/lsm/skiplist.hpp:189-200); the quorum reader compares versions only, never timestamps
(shuaikv/lsm/read_quorum.hpp:1-12, 223-248); the hash gives the first byte the highest power of the seed, not the lowest
(shuaikv/utils/bloom_filter.hpp:28, 232-239).

## Model

| member | source | states |
|---|---|---|
| DbFiles.GetReturnsLastPutOnFiles | shuaikv/db.hpp:41-160 | Over every run of puts with non-empty keys, rotations, flushes with their cascades, shutdowns and reopenings, in which every file is one the SST constructor writes and small enough for the load with which the constructor ends, `Get` with nothing in flight returns the last value put for the key, and nothing for keys never put. Merged entries count as copied, and memtables are sorted lists, which the skip list keeps to while its puts stay inside its towers. |
| DbRuns.RunDenotesLastPuts | shuaikv/db.hpp:74-160 | After every run in which every file can be loaded when it is written, the overlay active table > frozen tables, newest first > table in flight > manifest equals the map of last puts, and the invariant holds. |
| DbRuns.GetReturnsLastPut | shuaikv/db.hpp:74-91 | The same for `Get`, for any file builder, as long as every file can be loaded when it is written. |
| DbState.GetExact | shuaikv/db.hpp:74-91 | `Get` answers with the overlay exactly when the key is not hidden by the table in flight (not in it, in a newer table too, or the manifest has the same value already). |
| DbRuns.InFlightIsHidden | shuaikv/db.hpp:133-138 | Between taking a frozen table out of the queue and publishing its manifest, `Get` can miss a key that was put: a concrete run. |
| DbRuns.StepKeeps | shuaikv/db.hpp:93-160 | One step: only a put changes what the database denotes, and only for its key; the invariant is kept. |
| DbState.PutChanges | shuaikv/db.hpp:93-102 | A put, whether or not it rotates the table, changes the overlay at its key only. |
| DbState.RotatesExact | shuaikv/db.hpp:93-102 | A put freezes the active table exactly when its keys and values together exceed the limit. |
| DbState.RunKeepsTableSmall | shuaikv/db.hpp:93-102 | Over every run the active table holds at most that many bytes. |
| DbState.TakeChanges | shuaikv/db.hpp:133-136 | Taking the oldest frozen table into flight changes nothing the database denotes. |
| DbState.QueueChanges | shuaikv/db.hpp:53-59 | Queueing the active table once more at shutdown changes nothing the database denotes. |
| DbRuns.PublishKeeps | shuaikv/db.hpp:144-160 | Publishing a flushed and compacted manifest changes nothing the database denotes. |
| DbRuns.FlushStoreKeeps | shuaikv/db.hpp:144-160 | With merged entries copied, the published manifest denotes the old one overlaid by the flushed table, with valid levels, budgets kept, fresh numbers, and every live SST intact on disk. |
| DbRuns.PublishedStay | shuaikv/db.hpp:157-158 | Manifests published earlier keep their levels in every step that is not a restart; what a restart starts from, `DbRuns.RestartKeeps` says. |
| DbRuns.CloseKeeps | shuaikv/db.hpp:53-72 | After the destructor has drained all tables, the last manifest alone denotes the whole database. |
| DbRuns.OpenSaved | shuaikv/lsm/manifest.hpp:214-276 | Opening a saved manifest restores version and every level exactly, SST for SST with entries and file sizes, whatever stale bytes follow, and continues numbering after the largest live number. |
| DbRuns.NumberingContinues | shuaikv/lsm/manifest.hpp:101-121 | The largest number found while loading is the last one handed out, so numbers issued after a restart are fresh. |
| DbRuns.LoadRestores | shuaikv/lsm/sst.hpp:968-992 | Loading the numbered files gives back every live SST exactly: number, entries and size. |
| DbRuns.RestartKeeps | shuaikv/db.hpp:41-72 | Closing and reopening leaves exactly the last manifest of the drained database, with every answer and the invariant, and never lowers the last number. |
| DbRuns.RunOnDisk | shuaikv/lsm/manifest.hpp:484-492 | With merged entries copied, a cascade leaves each live SST its own entries on disk although it writes one file name several times. Without copies that is for cascades of one compaction: see `Cascade.OwnFileExact`. |
| DbFiles.SmallCanRestart | shuaikv/lsm/sst.hpp:510-516 | The restart condition reduces to sizes: numbers and the index blocks of the files that closing writes below 2^31, files and counters below 2^64. |
| DbFiles.WrittenLoads | shuaikv/lsm/sst.hpp:650-730 | A file left by the constructor, with an index block below 2^31 bytes, loads back to exactly its entries, and lookups in what is loaded answer with them. |
| DbFiles.LargeIndexCannotLoad | shuaikv/lsm/sst.hpp:725 | With bit 31 of the index block size set, the load at the end of the constructor runs outside the file just written. |
| DbFiles.LongKeyCannotFlush | shuaikv/lsm/sst.hpp:732-806 | A table with one key of 2^31 bytes, less 32, or more cannot be flushed: the load of its file runs outside it. |
| DbFiles.PublishSmallLoads | shuaikv/db.hpp:144-160 | In every reachable state all files of a flush and its cascade load if their sizes are small. |
| DbFiles.LiveGet | shuaikv/lsm/sst.hpp:1011-1013 | In every reachable state a lookup in the file of a live SST, through filter and both searches, answers with the SST's entries. |
| DbFiles.SomeBuilderWrites | shuaikv/lsm/sst.hpp:650-730 | The condition on the builder is met by a concrete one, so the results about files are not empty. |
| DbRuns.RunKeepsBudgets | shuaikv/lsm/manifest.hpp:501-514 | After every run, reopenings included, the bytes that the files of the live SSTs have on disk add up to at most 1024 in level 0, 10 MB in level 1, 100 MB, 1000 MB and 10000 MB in levels 2 to 4, and there are at most six levels. |
| DbObject.DB.constructor | shuaikv/db.hpp:41-51 | Starts with the loaded manifest and its largest number. |
| DbObject.DB.Get | shuaikv/db.hpp:74-91 | The object answers as the state machine does: active table, frozen tables from the newest, last manifest. |
| DbObject.DB.Put | shuaikv/db.hpp:93-102 | The object takes the put step and leaves everything published alone. |
| DbObject.DB.TakeFront | shuaikv/db.hpp:133-136 | The flush thread takes the oldest frozen table and nothing else changes. |
| DbObject.DB.QueueForClose | shuaikv/db.hpp:53-59 | A non-empty active table joins the queue at shutdown. |
| DbObject.DB.ToSST | shuaikv/db.hpp:144-160 | The object takes the publish step; every older manifest object keeps its levels and the new one is a fresh object. |
| DbObject.DB.FlushOne | shuaikv/db.hpp:133-138 | Flushing what is in flight keeps the invariant and the outcome of the drain. |
| DbObject.DB.Close | shuaikv/db.hpp:53-72 | The loop over the queue takes the object to the drained state, and the bytes saved are those of its last manifest. |
| DbObject.DB.Open | shuaikv/db.hpp:41-51 | The object opens what a manifest file and the numbered files say, with a manifest object of its own. |
| ManifestLoads.LoadManifest | shuaikv/lsm/manifest.hpp:214-240 | The loading constructor reads version, level count and level by level, and ends with the parsed levels, their files loaded, and the largest number; what cannot be read counts as no manifest. |
| ManifestLoads.LoadUpToEnd | shuaikv/lsm/manifest.hpp:101-121 | The loop reads numbers up to the end mark, loads the file of each and keeps the largest one. |
| DbObject.Restart | shuaikv/db.hpp:41-72 | Closing an object and opening another on its files takes the restart step, with every answer kept; the new object shares no manifest with the old one. |
| DbObject.PlayOne | shuaikv/db.hpp:41-160 | Each operation of the state machine is one that the object performs, reopening included. |
| DbObject.Play | shuaikv/db.hpp:41-160 | A new object taken through any allowed run stands where the state machine's run ends. |
| DbObject.PlayAndGet | shuaikv/db.hpp:74-91 | What such an object answers, with nothing in flight, is the last value put. |
| DbObject.FlushAllowed | shuaikv/lsm/manifest.hpp:398 | Every reachable state without empty keys meets what flushing needs, once its files load. |
| Compaction.CompactKeepsMap | shuaikv/lsm/manifest.hpp:384-476 | One compaction always leaves the map denoted by all levels unchanged, and leaves the levels valid exactly when the scanned range is not spoiled by an empty key or nothing of the next level lies before it. |
| Compaction.CompactKeepsAnswers | shuaikv/lsm/manifest.hpp:384-476 | Under that condition `Manifest::Get` answers every key the same before and after one compaction. |
| Compaction.NewNextExact | shuaikv/lsm/manifest.hpp:411-475 | The level a compaction writes stays sorted with disjoint key ranges exactly under that condition. |
| Compaction.MisplacedHides | shuaikv/lsm/manifest.hpp:411-475 | Where the condition fails, every key of the SST just before the merged one is lost to the probe unless the compacted level holds it too. |
| Compaction.NewNextMap | shuaikv/lsm/manifest.hpp:384-476 | The written level denotes the old one overlaid by the compacted level, empty keys or not. |
| Compaction.OnlyOverlapTouched | shuaikv/lsm/manifest.hpp:411-426 | Every SST of the next level that is merged meets the key range of the compacted level. |
| Compaction.SplitSides | shuaikv/lsm/manifest.hpp:411-426 | The SSTs left alone end below or start above the whole range of the compacted level. |
| Compaction.SplitValid | shuaikv/lsm/manifest.hpp:411-426 | Left part, merged part and right part are contiguous and together the whole level. |
| Compaction.MergedFits | shuaikv/lsm/manifest.hpp:411-466 | All merged keys lie strictly between the untouched neighbours. |
| Compaction.DisjointSentinelSafe | shuaikv/lsm/manifest.hpp:390-406 | A disjoint level can always be compacted safely by the range scan, even if it holds the empty key. |
| Levels.ScanMinExact | shuaikv/lsm/manifest.hpp:398-400 | The scan that treats an empty minimum as unset finds the least key exactly under the stated condition on where an empty key may stand. |
| Levels.ScanMaxExact | shuaikv/lsm/manifest.hpp:401-403 | The scan for the largest key is exact without any condition. |
| EmptyKey.EmptyKeyLosesAnswer | shuaikv/lsm/manifest.hpp:398 | With an empty key in level 0, one compaction can make a stored key unfindable: concrete levels. |
| HeapMerge.Merge | shuaikv/lsm/manifest.hpp:390-446 | The priority-queue loop terminates with the merge of its sources. |
| HeapMerge.MergedCorrect | shuaikv/lsm/manifest.hpp:430-446 | The merge has strictly ascending keys and denotes the sources overlaid, the first one winning. |
| HeapMerge.FirstSourceWins | shuaikv/lsm/manifest.hpp:354-369 | Each key carries the value of the source with the smallest number, that is the newest, and no key is lost or invented. |
| HeapMerge.TopIsNewest | shuaikv/lsm/manifest.hpp:358-369 | What the heap order puts on top for a key is the entry of the newest source holding it. |
| Entries.SortedUnique | shuaikv/lsm/skiplist.hpp:160-181 | A strictly sorted list is determined by the map it denotes. |
| Entries.InsertContents | shuaikv/lsm/skiplist.hpp:197-269 | Inserting into a sorted list updates the denoted map at one key. |
| Entries.InsertSorted | shuaikv/lsm/skiplist.hpp:197-269 | Inserting keeps the list strictly sorted. |
| Keys.Order | shuaikv/lsm/manifest.hpp:164 | Byte strings are totally and strictly ordered, proper prefixes first. |
| Keys.LessExact | shuaikv/lsm/manifest.hpp:164 | One byte string is below another exactly when, after a common beginning, it ends first or has the smaller byte, unsigned. |
| Levels.ProbeGetFinds | shuaikv/lsm/manifest.hpp:159-173 | On a disjoint level the single binary-search probe equals searching every SST of the level. |
| Levels.ScanGetFinds | shuaikv/lsm/manifest.hpp:152-158 | The reverse scan of level 0 gives the newest SST that holds the key. |
| Levels.GetFinds | shuaikv/lsm/manifest.hpp:308-319 | Walking the levels answers with the map they denote, lower levels over higher ones. |
| Cascade.RunKeepsMap | shuaikv/lsm/manifest.hpp:484-492 | A whole cascade keeps the denoted map and the validity of all levels. |
| Cascade.FlushMap | shuaikv/db.hpp:152-159 | Inserting an SST and cascading denotes the old map overlaid by the SST. |
| Cascade.RunKeepsBudget | shuaikv/lsm/manifest.hpp:484-515 | If only the level it starts at is over budget, a cascade ends with every budget kept and at most six levels. |
| Cascade.LevelSizeIs | shuaikv/lsm/manifest.hpp:190-196 | The size of a level is the sum of the file sizes of its SSTs. |
| Cascade.CascadesExact | shuaikv/lsm/manifest.hpp:484-492 | A level is emptied into the next one, and the cascade goes on, exactly when its files exceed its budget; otherwise nothing changes. |
| Cascade.FlushCascadesExact | shuaikv/db.hpp:152-159 | A flush compacts level 0 away exactly when its files, the new one among them, exceed 1024 bytes. |
| Cascade.OverBudgetExact | shuaikv/lsm/manifest.hpp:501-514 | The budgets in bytes, written out. |
| Cascade.FlushKeepsBudget | shuaikv/lsm/manifest.hpp:484-515 | After every flush with its cascade all budgets hold again. |
| Cascade.FlushIds | shuaikv/db.hpp:144-159 | Live SST numbers stay pairwise distinct and at most the last number used, which itself is live. |
| Cascade.RunIds | shuaikv/lsm/manifest.hpp:484-492 | Although a cascade reuses one number, at most one live SST carries it when it ends. |
| Cascade.OwnFileExact | shuaikv/lsm/sst.hpp:668-680 | In a cascade under a fresh number, a compaction merges from the SST whose file name it is writing exactly when it is not the first. |
| Cascade.OneCompaction | shuaikv/lsm/sst.hpp:668-680 | A cascade of one compaction reads no file that it writes. |
| ManifestObject.LevelGet | shuaikv/lsm/manifest.hpp:151-175 | The level search loop does what the level functions say: reverse scan for level 0, one probe otherwise. |
| ManifestObject.CollectLevel | shuaikv/lsm/manifest.hpp:390-406 | The first loop collects the level newest first and computes the two scans. |
| ManifestObject.CollectNext | shuaikv/lsm/manifest.hpp:411-426 | The second loop splits the next level at `insert_l` and `insert_r` and collects the overlap. |
| ManifestObject.Splice | shuaikv/lsm/manifest.hpp:454-468 | The rebuilt level is left part, new SST, right part. |
| ManifestObject.Manifest.Get | shuaikv/lsm/manifest.hpp:308-319 | The object answers with the map its levels denote. |
| ManifestObject.Manifest.Copy | shuaikv/lsm/manifest.hpp:291-292 | The copy has the levels of the original and the next version. |
| ManifestObject.Manifest.InsertAndUpdate | shuaikv/lsm/manifest.hpp:333-340 | Copy on write: a fresh manifest with the SST at the end of level 0 and the next version; the old one keeps its levels. |
| ManifestObject.Manifest.CompactLevel | shuaikv/lsm/manifest.hpp:384-476 | The in-place compaction leaves exactly the levels of the specification, keeps the map, and stays valid exactly under the condition above. |
| ManifestObject.Manifest.CompactFrom0 | shuaikv/lsm/manifest.hpp:484-492 | The loop over levels leaves exactly the cascade of the specification. |
| ManifestObject.Manifest.CanDoCompaction | shuaikv/lsm/manifest.hpp:495-497 | True exactly when the files of level 0 add up to more than 1024 bytes. |
| ManifestFile.ManifestRoundTrip | shuaikv/lsm/manifest.hpp:101-136 | Parsing the saved bytes gives back version, levels and order, whatever follows them. |
| Layouts.ManifestLayout | shuaikv/lsm/manifest.hpp:128-136 | Where everything stands in a manifest file: version, level count, and per level its numbers and a word of ones. |
| ManifestFile.SizeExact | shuaikv/lsm/manifest.hpp:278-285 | The precomputed size is the number of bytes written. |
| ManifestFile.Save | shuaikv/lsm/manifest.hpp:248-276 | Every write falls inside the file, which then starts with the manifest bytes and is unchanged behind them. |
| ManifestFile.LargestOfExact | shuaikv/lsm/manifest.hpp:101-121 | The number tracked while loading bounds every number in the file and is one of them. |
| SstFiles.BuildSst | shuaikv/lsm/sst.hpp:650-730 | The constructor writes only inside `file_size`, fills the filter with every key, leaves a file that the format describes, and loads it: with an index block below 2^31 bytes it gets back exactly what it wrote. |
| SstFiles.ComputeSizes | shuaikv/lsm/sst.hpp:650-664 | The sizes added up beforehand are those of the format. |
| SstFiles.WriteIndex | shuaikv/lsm/sst.hpp:690-705 | The index writes leave exactly the index bytes. |
| SstFiles.WriteBlock | shuaikv/lsm/sst.hpp:706-723 | The data block writes leave exactly size word, filter, count and entries. |
| SstFormat.FileRoundTrip | shuaikv/lsm/sst.hpp:510-560 | Loading a written file gives back the filter, the first key and exactly the entries, for an index block below 2^31 bytes. |
| Layouts.SstLayout | shuaikv/lsm/sst.hpp:650-730 | Where everything stands in an SST file, in absolute positions and byte by byte. |
| Layouts.EntryStands | shuaikv/lsm/sst.hpp:705-715 | An entry is its two lengths, lowest byte first, then key and value. |
| Layouts.FilterStands | shuaikv/utils/bloom_filter.hpp:124-143 | The stored filter: number of hashes, length in bits, seeds, one word left as it was, packed words. |
| SstFormat.LargeIndexFails | shuaikv/lsm/sst.hpp:510-516 | With bit 31 of the index block size set, a file just written cannot be loaded: the offset is sign-extended. |
| SstFormat.OffsetExact | shuaikv/lsm/sst.hpp:510-516 | An offset comes through the `int32_t` unchanged exactly below 2^31. |
| SstFormat.HugeIndexMisleads | shuaikv/lsm/sst.hpp:510-516 | With 2^32 bytes of index or more and bit 31 clear, the block is looked for inside the index and whatever loads does not come from the data block. |
| SstFormat.BlockSizeExact | shuaikv/lsm/sst.hpp:650-664 | `data_block_size` is the number of bytes the block takes. |
| SstFormat.EntriesRoundTrip | shuaikv/lsm/sst.hpp:89-95 | Parsing the stored entries gives them back and ends behind them. |
| SstLoads.LoadEntries | shuaikv/lsm/sst.hpp:123-145 | The loader loop reads the entries the format describes, or runs outside the file exactly when parsing does. |
| SstLoads.LoadFile | shuaikv/lsm/sst.hpp:544-560 | The index loop loads exactly the blocks the format describes, or fails exactly when parsing does. |
| SstFiles.Search | shuaikv/lsm/sst.hpp:157-179 | The binary search inside a block equals lookup in the sorted entry list. |
| SstFiles.BlockGet | shuaikv/lsm/sst.hpp:157-179 | Filter and binary search together equal lookup: the filter never hides a stored key. |
| SstFiles.FindBlock | shuaikv/lsm/sst.hpp:566-579 | The outer binary search over first keys is the level probe. |
| SstFiles.IndexGet | shuaikv/lsm/sst.hpp:566-584 | The two nested searches find exactly the stored entry. |
| SstFiles.LoadedFile | shuaikv/lsm/sst.hpp:968-992 | A built file loads to one block that has the filled filter, the first key and the entries. |
| SstFiles.LoadedAnswers | shuaikv/lsm/sst.hpp:1011-1013 | A lookup in the loaded file answers with the stored entries. |
| SstFiles.LowerBoundFinds | shuaikv/lsm/sst.hpp:162-177 | The position found holds the key, or no position does. |
| BloomFilters.AddAllHas | shuaikv/utils/bloom_filter.hpp:174-213 | After any sequence of insertions every inserted key passes the check. |
| BloomFilters.AddKeeps | shuaikv/utils/bloom_filter.hpp:174-191 | An insertion never makes a key that passed fail. |
| BloomFilters.AddAllExact | shuaikv/utils/bloom_filter.hpp:174-191 | The bits set in a filter are those that were set and the hash positions of the inserted keys, and no others. |
| BloomFilters.PassesExact | shuaikv/utils/bloom_filter.hpp:174-213 | A key passes a filter that started empty exactly when the inserted keys hit every one of its positions. |
| BloomFilters.SetBitExact | shuaikv/utils/bloom_filter.hpp:176-178 | Setting a bit in the packed words changes that bit and no other. |
| BloomFilters.RawRoundTrip | shuaikv/utils/bloom_filter.hpp:91-143 | Storing the packed words as numbers and loading them gives the same filter. |
| BloomFilters.CalcHash | shuaikv/utils/bloom_filter.hpp:232-239 | The loop computes the polynomial hash modulo 2^64, bytes sign-extended. |
| BloomFilters.HashIs | shuaikv/utils/bloom_filter.hpp:232-239 | The hash is the polynomial in the seed with the signed bytes as coefficients, modulo 2^64. |
| BloomFilters.PositionIs | shuaikv/utils/bloom_filter.hpp:176-178 | A bit position is that value modulo the length of the filter. |
| BloomFilters.BloomFilter.Insert | shuaikv/utils/bloom_filter.hpp:174-180 | The object gets exactly the bits of the key and keeps the others. |
| BloomFilters.BloomFilter.Check | shuaikv/utils/bloom_filter.hpp:205-213 | True exactly when all bits of the key are set. |
| BloomFilters.BloomFilter.Load | shuaikv/utils/bloom_filter.hpp:91-116 | Loads exactly the stored filter. |
| BloomFilters.SaveHead | shuaikv/utils/bloom_filter.hpp:124-134 | Count, length and seeds are written where the format has them. |
| BloomFormat.FormatRoundTrip | shuaikv/utils/bloom_filter.hpp:73-143 | The stored filter has the size announced and parses back to itself. |
| BloomFormat.FillerIsOneWord | shuaikv/utils/bloom_filter.hpp:73-84 | The alignment filler is always one whole word, since the head is aligned already. |
| Words.DecodeEncode | shuaikv/lsm/sst.hpp:698 | Eight bytes, least significant first, give back every number below 2^64. |
| Words.PatchPatch | shuaikv/lsm/sst.hpp:706-723 | Two adjacent writes are one write of both. |
| Words.LoadWords | shuaikv/utils/bloom_filter.hpp:100-112 | The loop reads consecutive words. |
| Words.SaveWords | shuaikv/lsm/manifest.hpp:127-136 | The loop writes consecutive words and nothing else. |
| SkipLists.SkipList.Put | shuaikv/lsm/skiplist.hpp:197-269 | For every height drawn: the put stays inside the towers exactly when the key is there already or the node before it is, or becomes, as tall as the head; then the stored entries become the sorted insertion of the pair, the list stays well formed and both counters exact. With all nodes of one height, and no height above the head's unless the list is empty, that is always so, and it stays so. |
| SkipLists.SkipList.Get | shuaikv/lsm/skiplist.hpp:160-181 | Answers with the map of the stored entries. |
| SkipLists.PutAll | shuaikv/lsm/skiplist.hpp:189-269 | Any sequence of puts with heights at most that of the first stays inside and leaves the fold of the sorted insertion. |
| SkipLists.SecondPutLeaves | shuaikv/lsm/skiplist.hpp:240-262 | Two puts: behind a lone node of height 1, a second node of greater height does not stay inside. |
| SkipLists.SkipList.StoredSorted | shuaikv/lsm/skiplist.hpp:134 | The lowest level lists the entries in strictly ascending order. |
| SkipLists.SkipList.Walk | shuaikv/lsm/skiplist.hpp:168-170 | Along links that lead to some later live node of that height, the walk stays before the key; on the lowest level it ends right before it. |
| SkipLists.SkipList.Locate | shuaikv/lsm/skiplist.hpp:205-223 | The descent never leaves a tower, ends at the last node before the key, and records the node where it turns down on each level above the lowest. |
| SkipLists.SkipList.Overwrite | shuaikv/lsm/skiplist.hpp:226-231 | Only the value of the node behind the place changes, and the byte count by the difference. |
| SkipLists.SkipList.GrowHead | shuaikv/lsm/skiplist.hpp:240-256 | Growing the head and the recorded nodes of any list keeps it well formed and makes exactly those as tall as asked. |
| SkipLists.GrowKeepsShape | shuaikv/lsm/skiplist.hpp:240-248 | Making the head and any nodes taller keeps the shape. |
| SkipLists.SkipList.InsertBehind | shuaikv/lsm/skiplist.hpp:234-269 | A new node goes right behind the place and nowhere else. |
| SkipLists.AddNode | shuaikv/lsm/skiplist.hpp:234-269 | On its own levels the new node takes over the predecessor's links and becomes its successor; other levels stay. |
| SkipLists.InsertKeepsShape | shuaikv/lsm/skiplist.hpp:258-269 | Behind a node as tall as the head, insertion keeps order, the complete lowest chain, no node taller than the head, and every link leading forward to a node of that height. |
| SkipLists.NoneCloser | shuaikv/lsm/skiplist.hpp:259-262 | The search at insertion never moves off the lowest-level predecessor. |
| SkipLists.RecordsTurns | shuaikv/lsm/skiplist.hpp:205-223 | The nodes a search records are, level by level, those behind which the level has no further node before the key. |
| RingBuffers.RingBufferQueue.PushBack | shuaikv/utils/ring_buffer_queue.hpp:10-24 | Appends unless one slot is left, and says which. |
| RingBuffers.RingBufferQueue.Truncate | shuaikv/utils/ring_buffer_queue.hpp:49-58 | Drops as many elements from the end as asked and possible, and counts them. |
| RingBuffers.RingBufferQueue.SameSlot | shuaikv/utils/ring_buffer_queue.hpp:72-78 | Counting from the front and from the back name the same slot. |
| RaftLogs.RunExact | shuaikv/raft/raft_log.hpp:42-59 | Over every run, restarts included: start <= lastAppend <= commited <= index, the pairs given to the DB are exactly entries 1 to lastAppend in order, once each, and no commited entry is ever taken back. |
| RaftLogs.HappenExact | shuaikv/raft/raft_log.hpp:91-150 | The same for one step. |
| RaftLogs.CommitedKept | shuaikv/raft/raft_log.hpp:91-150 | No append, commit or reset touches a commited entry. |
| RaftLogs.AppendExact | shuaikv/raft/raft_log.hpp:114-127 | Appending keeps commited <= index exactly when the entry's stamp is at most its own place (or the ring is full). |
| RaftLogs.ResetExact | shuaikv/raft/raft_log.hpp:131-140 | Resetting keeps it exactly when no commited entry is cut off, or none is held. |
| RaftLogs.DrainExact | shuaikv/raft/raft_log.hpp:61-66 | The destructor replays what is commited and changes nothing else. |
| RaftLogs.ReopenExact | shuaikv/raft/raft_log.hpp:152-157 | Saving the commited index and loading it keeps the commited ledger. |
| RaftLogs.RaftLog.Put | shuaikv/raft/raft_log.hpp:91-112 | The object appends its own entry under the next index, or refuses when stopped or full. |
| RaftLogs.RaftLog.PutEntry | shuaikv/raft/raft_log.hpp:114-127 | The object appends a received entry and takes over a larger stamp. |
| RaftLogs.RaftLog.Reset | shuaikv/raft/raft_log.hpp:131-140 | The object cuts its log back as specified. |
| RaftLogs.RaftLog.AdvanceCommit | shuaikv/raft/raft_log.hpp:147-150 | The commit index never falls and never passes the log. |
| RaftLogs.RaftLog.At | shuaikv/raft/raft_log.hpp:87-89 | Reading from the back gives the entry with that index. |
| RaftLogs.RaftLog.ReplayRound | shuaikv/raft/raft_log.hpp:46-52 | One round gives the next commited entry to the DB; beyond the log it gives whatever the ring slot holds. |
| RaftLogs.GivesEmptyKey | shuaikv/raft/raft_log.hpp:46-52 | A fresh node that takes one entry stamped 2 gives its DB that entry and then the empty key and value. |
| RaftLogs.RaftLog.Close | shuaikv/raft/raft_log.hpp:61-82 | The loop runs until everything counted as commited has been given to the DB, and that index is saved; within the log these are exactly the commited entries. |
| Replication.LogsStayPrefixes | shuaikv/raft/pod.hpp:90-148 | Within one reign, whatever requests and replies are lost, repeated or late, whatever thread is stopped and whatever is replayed from where, every follower's log holds only the leader's entries at their places, as far as the leader's log goes back; logs with the same start are prefixes, and the leader's log only grows. |
| Replication.CommitIsBacked | shuaikv/raft/pod.hpp:140-148 | A leader's commit index beyond the one at its election is within its log and backed by at least max(2, m) logs that hold everything up to it, m being the number of other followers, in every run in which no thread is stopped with its next index below zero and no full ring accepts an entry. |
| Replication.CountsExact | shuaikv/raft/pod.hpp:101-148 | A step keeps the meaning of counting exactly when it is not one of those two. |
| Replication.CommitHasMajority | shuaikv/raft/pod.hpp:140-148 | In such runs, in every cluster size but four, that is a strict majority. |
| ReplicationFaults.FourNodesCommitWithTwo | shuaikv/raft/pod.hpp:140-148 | In a cluster of four, a run commits an entry that two nodes do not hold. |
| Replication.EnoughExact | shuaikv/raft/pod.hpp:146 | The counting rule holds exactly when the count reaches m. |
| Replication.MajorityExact | shuaikv/raft/pod.hpp:140-148 | max(2, m) of m + 2 nodes is a strict majority exactly when m is not 2. |
| Replication.ReplaysAgree | shuaikv/raft/raft_log.hpp:42-59 | Over every run, of what two followers give to their DBs one is a beginning of the other, and likewise with the leader, if none of them takes an entry stamped beyond itself. |
| Replication.GiveNextExact | shuaikv/raft/raft_log.hpp:47-51 | A round of replay gives the leader's pair exactly when the log holds the entry or the slot happens to have that pair; for every slot, exactly when the log holds the entry. |
| NodeDbs.DenotesGiven | shuaikv/raft/raft_log.hpp:42-59 | A node's database denotes the pairs its log has given it, put one after the other, through rotations, flushes and restarts. |
| NodeDbs.NodesAnswerAlike | shuaikv/raft/raft_log.hpp:42-59 | Two such followers that have replayed equally far, or a follower and the leader, answer every key alike, with non-empty keys and nothing in flight. |
| ReplicationFaults.LaggardGivesSlot | shuaikv/raft/raft_log.hpp:47-51 | After any such election some run makes the follower give its DB, for any slot, the slot's pair in place of an entry that the leader has commited, and no run takes that back. |
| Replication.NextKeepsLogs | shuaikv/raft/pod.hpp:101-148 | Every step of leader threads, followers and network keeps the logs in agreement. |
| Replication.NextKeepsCounts | shuaikv/raft/pod.hpp:101-148 | Every sound step keeps what next indexes, replies and counts mean. |
| Replication.SolveAppendAgrees | shuaikv/raft/pod.hpp:320-345 | A delivered request leaves a follower with leader entries only and no shorter, and with room in its ring success means it holds the entry. |
| Replication.AcceptedExact | shuaikv/raft/pod.hpp:440-452 | An entry that is accepted is held exactly when the ring had room. |
| ReplicationFaults.FullRingCommits | shuaikv/raft/pod.hpp:440-452 | A follower with a full ring accepts the next entry without taking it, and its leader commits what nobody else holds. |
| Replication.NeverCut | shuaikv/raft/pod.hpp:440-447 | Requests that carry an entry never make a follower cut its log. |
| Replication.UpdateRaftLogExact | shuaikv/raft/pod.hpp:431-455 | With any commit index in the request: the log is cut to what is commited exactly when the entry is not the next one and that index is between the node's own and the end of its log; then the entry is taken exactly when it is next. |
| Replication.HeartBeatExact | shuaikv/raft/pod.hpp:320-345 | A heartbeat raises a follower's commit index to what it says, as far as the log goes, and does nothing else. |
| ReplicationRuns.HeartBeatsThrough | shuaikv/raft/pod.hpp:176-193 | A follower that holds what its leader has commited comes, with one heartbeat, to the leader's commit index. |
| ReplicationRuns.PutsAreServed | shuaikv/raft/pod.hpp:90-148 | From every settled state, whatever the size of the cluster, any puts that the rings have room for can get through: replicated, commited, told to the followers and given to the DB of every node, in order. |
| ReplicationRuns.FreshClusterServes | shuaikv/raft/pod.hpp:90-148 | In a new cluster any puts, fewer than the ring has slots, can reach the DB of every node. |
| Replication.LeaderHoldsPuts | shuaikv/raft/raft_log.hpp:91-112 | Over every run the leader's log holds the pairs it held and then those that clients put, in order, until the ring is full. |
| Replication.SolveAppendExact | shuaikv/raft/pod.hpp:320-345 | A follower keeps commited <= index exactly when the stamp of an entry it takes is at most the entry's index. |
| ReplicationFaults.LaggardCommitsUnheld | shuaikv/raft/pod.hpp:110-121 | After any election with a follower two or more entries behind the commit index, a log that can grow and something to send, some run makes it count an unheld entry as commited. |
| ReplicationFaults.BehindAndAhead | shuaikv/raft/pod.hpp:418-422 | Elections leave such followers, behind or ahead. |
| ReplicationFaults.FullRingExists | shuaikv/raft/pod.hpp:418-422 | So do elections after a restart with a full ring. |
| ReplicationFaults.GetsMoreExact | shuaikv/raft/pod.hpp:101-139 | With something to send, a follower can get another entry in some run exactly when its log has room and ends neither before the leader's log begins nor beyond the next index. |
| ReplicationFaults.AheadNeverGrows | shuaikv/raft/pod.hpp:127-135 | In every run, a follower that holds anything beyond a new leader's commit index keeps its log, and its next index never rises. |
| ReplicationFaults.AheadFallsBelow | shuaikv/raft/pod.hpp:127-135 | Its next index can be counted down until it names no entry of the leader any more. |
| ReplicationRuns.CatchesUp | shuaikv/raft/pod.hpp:101-139 | A follower that is behind gets its next entry after as many rejections as it is behind. |
| ReplicationFaults.StopCommitsAll | shuaikv/raft/pod.hpp:106-108 | With such a follower and a leader's log that starts at 0, stopping its thread can commit everything the leader holds, whatever the followers hold. |
| Replication.CountedBack | shuaikv/raft/pod.hpp:140-146 | Each follower counted really holds the log up to the counting thread's index. |
| Replication.CommitKept | shuaikv/raft/pod.hpp:146-148 | Every step, advancing the commit index among them, keeps it backed. |
| Replication.AcknowledgedIsHeld | shuaikv/raft/pod.hpp:348-371 | A client's put beyond the commit index at the election returns only when a strict majority holds its entry, if no next index is below zero. |
| Replication.AcknowledgedExact | shuaikv/raft/pod.hpp:360-370 | The wait ends exactly when the next index of more than half of the followers is past the entry. |
| ReplicationFaults.AcknowledgedUnheld | shuaikv/raft/pod.hpp:348-371 | With the only other node ahead of a leader whose log starts at 0, a put can return although nobody else holds its entry. |
| Replication.LastPutWaits | shuaikv/raft/pod.hpp:348-371 | The put of the last entry does not return before a later one is appended. |
| Pods.Pod.AppendEntries | shuaikv/raft/pod.hpp:431-455 | The object's branches, with the reset, do what the specification of a received entry says; other entry counts are refused. |
| Pods.Pod.SolveAppend | shuaikv/raft/pod.hpp:320-345 | The object solves heartbeats and single entries as the state machine does; its commit index becomes the larger of its own and the request's, as far as the log goes, before any entry is looked at. |
| Pods.Pod.CountAndAdvance | shuaikv/raft/pod.hpp:140-148 | The counting loop counts exactly the followers that got as far, and advances the commit index by the rule. |
| Pods.Pod.IsAcknowledged | shuaikv/raft/pod.hpp:360-370 | The waiting loop's round decides as specified whether the put may return. |
| LruSpec.RunRefines | shuaikv/cache/concurrent_cache.hpp:103-188 | Every run of the cache is a run of a reference that only knows when each key was last moved and how often it was hit: every (limit + 1)-th hit moves a key, a full cache drops the key moved longest ago, and the capacity is kept. |
| LruSpec.NextRefines | shuaikv/cache/concurrent_cache.hpp:103-188 | The same for one call. |
| LruSpec.TouchedRefines | shuaikv/cache/concurrent_cache.hpp:103-123 | A hit moves the value to the front exactly when the hits since its arrival become a multiple of limit + 1. |
| LruSpec.BackIsOldest | shuaikv/cache/concurrent_cache.hpp:147-152 | The value at the back is the one moved longest ago. |
| LruCaches.LruCache.Promote | shuaikv/cache/concurrent_cache.hpp:103-123 | The object counts the hit or moves the node, list and table staying in bijection. |
| LruCaches.LruCache.Put | shuaikv/cache/concurrent_cache.hpp:135-161 | The object takes the put step; a value already cached is kept. |
| LruCaches.LruCache.PutWithDisuse | shuaikv/cache/concurrent_cache.hpp:163-188 | As `Put`, and hands out exactly the value that had to go. |
| LruCaches.LruCache.PutWithCompair | shuaikv/cache/concurrent_cache.hpp:191-222 | Replaces the value at the back only when the comparison says so. |
| LruCaches.LruCache.Get | shuaikv/cache/concurrent_cache.hpp:255-265 | Returns the cached value and counts the hit. |
| LruCaches.LruCache.Peek | shuaikv/cache/concurrent_cache.hpp:267-273 | Returns the cached value and changes nothing. |
| LruCaches.Play | shuaikv/cache/concurrent_cache.hpp:135-265 | A new cache object taken through any calls holds what the specification's run holds. |
| LruCaches.LruCache.TableSize | shuaikv/cache/concurrent_cache.hpp:275-281 | Table and list have the same size. |
| LruLists.List.PushFront | shuaikv/cache/list.hpp:108-125 | The list stays a well-formed ring with a new node in front, counted. |
| LruLists.List.PopBack | shuaikv/cache/list.hpp:151-157 | The ring loses its last node, or nothing when empty. |
| LruLists.List.InsertFront | shuaikv/cache/list.hpp:161-166 | The ring gains the node in front, uncounted. |
| LruLists.List.Extract | shuaikv/cache/list.hpp:182-186 | The ring loses the node, uncounted. |
| LruLists.StillLinked | shuaikv/cache/list.hpp:182-186 | Bypassing one node leaves a well-formed ring of the others. |
| BlockSpec.RunKeeps | shuaikv/lsm/block_cache.hpp:123-304 | Over every run in which each key keeps one length: sizes add up and stay within capacity, the block count within its limit, access stamps fall strictly along the list, keys differ. |
| BlockSpec.PutExact | shuaikv/lsm/block_cache.hpp:156-203 | A put keeps the invariant exactly when it does not give a cached block another length. |
| BlockSpec.UsedExact | shuaikv/lsm/block_cache.hpp:128-140 | Using a block keeps order and keys; the sizes add up exactly when its length stays. |
| BlockSpec.EvictShortest | shuaikv/lsm/block_cache.hpp:287-304 | Eviction drops the shortest oldest suffix that makes room. |
| BlockSpec.EvictsExact | shuaikv/lsm/block_cache.hpp:287-304 | In bytes and blocks: there is room afterwards, and with one block more there would not have been. |
| BlockSpec.PutAnswers | shuaikv/lsm/block_cache.hpp:156-203 | What was just put is found, and every other block is unchanged or gone. |
| BlockSpec.AcceptedExact | shuaikv/lsm/block_cache.hpp:156-180 | A block is accepted exactly when it is not empty, not above the largest size, and not too small a part of the least size. |
| BlockSpec.RemoveAnswers | shuaikv/lsm/block_cache.hpp:211-223 | A removed key is gone and no other answer changes. |
| BlockSpec.KeysApart | shuaikv/lsm/block_cache.hpp:272-274 | Ids and offsets of 32 bits never share a key. |
| BlockSpec.KeysMeetExact | shuaikv/lsm/block_cache.hpp:272-274 | A pair shares its key with another pair of 32-bit numbers exactly when it is not one itself. |
| BlockCaches.BlockCache.Get | shuaikv/lsm/block_cache.hpp:123-147 | The object answers with the cached data, if any, and does what the specification says, table and list staying in bijection. |
| BlockSpec.GetExact | shuaikv/lsm/block_cache.hpp:123-147 | A get answers with the data of the block with that key, which then has one hit more, the newest stamp and the place in front of all others; without such a block nothing changes. |
| BlockSpec.LookupExact | shuaikv/lsm/block_cache.hpp:123-147 | There is an answer exactly when a cached block has the key, and it is that block's data. |
| BlockSpec.PutInFront | shuaikv/lsm/block_cache.hpp:156-203 | An accepted block stands in front with the newest stamp; one that was cached already keeps its names and its hits. |
| BlockSpec.PutThenGet | shuaikv/lsm/block_cache.hpp:123-203 | A get answers with what has just been accepted. |
| BlockSpec.RunAnswers | shuaikv/lsm/block_cache.hpp:123-223 | Over every run in which each key keeps one length, a get answers with nothing or with the data last accepted for its key and not removed since. |
| BlockCaches.BlockCache.Put | shuaikv/lsm/block_cache.hpp:156-203 | The object accepts exactly the blocks that are not refused and does what the specification says. |
| BlockCaches.BlockCache.Remove | shuaikv/lsm/block_cache.hpp:211-223 | Removes the block from table, list and size, or nothing. |
| BlockCaches.Play | shuaikv/lsm/block_cache.hpp:123-223 | A new cache object taken through any calls holds what the specification's run holds. |
| BlockCaches.BlockCache.EvictIfNeeded | shuaikv/lsm/block_cache.hpp:287-304 | The loop evicts as specified. |
| BlockCaches.RemovedIsWithout | shuaikv/lsm/block_cache.hpp:276-284 | Removing every occurrence of a block removes exactly the one. |
| CountMin.NeverUnderestimates | shuaikv/cache/cm_sketch.hpp:39-63 | Over every run of increments and resets, the estimate of an item is at most 15 and at least the item's own saturating, halved count. |
| CountMin.EstimateExact | shuaikv/cache/cm_sketch.hpp:48-55 | The estimate is the least over the rows of the counter itself, or of 15 where an even counter's upper neighbour is not empty. |
| CountMin.BumpRowExact | shuaikv/cache/cm_sketch.hpp:39-47 | An increment changes one four-bit counter by one, up to 15, and no other. |
| CountMin.PlacesMeetExact | shuaikv/cache/cm_sketch.hpp:41 | Two items share a counter exactly when they agree in their capacity_bit low bits, whatever the seed, and two seeds place an item alike exactly when they do. |
| CountMin.CountTouchesExact | shuaikv/cache/cm_sketch.hpp:39-47 | Counting an item bumps another item's counter exactly when they share it. |
| CountMin.EstimatesExactly | shuaikv/cache/cm_sketch.hpp:39-63 | From a new sketch on, over every run, an item that shares its byte with no other counted one is estimated at exactly its own saturating, halved count. |
| CountMin.Play | shuaikv/cache/cm_sketch.hpp:24-63 | A new sketch object taken through any calls estimates within those bounds. |
| CountMin.XorBits | shuaikv/cache/cm_sketch.hpp:41 | Combining with the seed is bit by bit. |
| CountMin.HalveRowExact | shuaikv/cache/cm_sketch.hpp:56-63 | A reset halves every counter on its own. |
| CountMin.CMSketch4Bits.constructor | shuaikv/cache/cm_sketch.hpp:24-32 | Every row starts zeroed, with 2^capacity_bit counters, two to a byte; accesses stay inside exactly when capacity_bit is at least 1 or there are no rows. |
| CountMin.CMSketch4Bits.Count | shuaikv/cache/cm_sketch.hpp:39-47 | The loop increments one counter in every row. |
| CountMin.CMSketch4Bits.Estimated | shuaikv/cache/cm_sketch.hpp:48-55 | The loop computes the estimate. |
| CountMin.CMSketch4Bits.HalveAll | shuaikv/cache/cm_sketch.hpp:56-63 | The loops halve every byte of every row. |
| ReadQuorums.AnswerIsFresh | shuaikv/lsm/read_quorum.hpp:263-280 | If a version is held by a write quorum and the quorums overlap, whatever a linearizable read returns is at least that version, comes from the first round in which enough replicas agree, and was reported by a read quorum of that very round. |
| ReadQuorums.StaleWithoutOverlap | shuaikv/lsm/read_quorum.hpp:263-280 | If the quorums need not overlap, an older version can be returned. |
| ReadQuorums.ReadQuorum.Read | shuaikv/lsm/read_quorum.hpp:201-254 | The loop finds the newest version, its first value and how many replicas report it. |
| ReadQuorums.ReadQuorum.LinearizableRead | shuaikv/lsm/read_quorum.hpp:263-280 | Reads on until enough replicas agree, and gives up at once on too few answers. |
| ReadQuorums.OutcomeExact | shuaikv/lsm/read_quorum.hpp:263-280 | With the first round that is not divided: it answers exactly when that round has enough answers, gives up exactly when it has too few, and reads on exactly when all rounds are divided, that is have enough answers but too few with the newest version. |
| ReadQuorums.NewestBounds | shuaikv/lsm/read_quorum.hpp:223-238 | The version found bounds all reported ones, and the value is that of the first replica that reports it; with version 0 there is no value. |

## Left out

- Elections, terms and votes: replication stays within one reign, and no safety across terms is claimed.
- Liveness of replication: ReplicationRuns.PutsAreServed says that puts can get through, not that they must. A client's
  wait in `InnerPut` (shuaikv/raft/pod.hpp:348-371) is its round of counting, taken at one moment.
- Threads, locks and memory order: every operation is one step; a leader thread's send, reply, each look at another
  follower and conclusion are separate steps, and so are taking a frozen table and publishing its manifest.
- Compression and the compressed SST constructors; the model builds SSTs with the uncompressed ones, whose two overloads
  (from entries and from a memtable) write the same bytes.
- mmap, file descriptors, gRPC, clocks, logging, configuration, daemon, client and server code. A file is a byte
  sequence or array, the disk a map from numbers to files.
- DbRuns.RunKeepsBudgets: the disk maps each number to the bytes last built under it. The original does not truncate, so
  in a cascade of two or more compactions a longer earlier build can leave bytes behind a shorter later one, which a
  reloaded file size would count.
- DbRuns.RunOnDisk: merged entries are copied values; what comes out when a compaction overwrites a mapping it still
  reads is not modelled, only when that happens (Cascade.OwnFileExact).
- Random numbers: Bloom and sketch seeds and skip-list heights are arbitrary inputs; Bloom sizing keeps only length >= 1
  and at least one hash, and no false-positive rate is claimed.
- Reads outside a file are a failed load here (`None`); in the original they are undefined.
- DbObject.DB.Put: the memtable inside the DB object is a sorted entry list for every height drawn; the object does not
  hold the linked nodes. SkipLists.SkipList.Put keeps to that list while puts stay inside the towers (TallEnough), which
  the original does not see to.
- DbObject.DB.ToSST: the files a flush leaves are given by a builder function from number and entries, not by calling
  SstFiles.BuildSst on each; DbFiles connects the two.
- DbRuns.PublishedStay: says nothing across a restart, where the manifest queue starts anew with the last manifest.
- SkipLists.SkipList.Put: nothing is promised once the original has read beyond a tower. Its search path has 32 places;
  the model's has as many as it needs.
- `Delete` of the skip list, its iterator object and `skiplist_simple.hpp`; the stored sequence stands for iteration.
- RingBuffers.RingBufferQueue.PushBack: nothing is ever taken from the front, as in the modelled paths; `PopFront`,
  `PopBack` and `Back` are not modelled.
- RaftLogs.RaftLog.ReplayRound: asks for an index within the ring's array, as the original's array does.
- Log indexes are unbounded numbers; the 32-bit fields of the wire format wrap at 2^31.
- Replication.LogsStayPrefixes: starts from logs that agree with the leader's, and sends only while `nextindex_ + 1`
  names an entry the leader holds.
- Replication.NextKeepsLogs: a stopped thread may go on after it has counted, which the original's does not; every run
  of the original is a run here.
- Replication.ReplaysAgree: asks of the nodes at the election that what they gave after the first pairs is the leader's,
  and that they stay within their logs.
- LruCaches.LruCache.Put: asks for a capacity of at least one; with none the original takes a node from an empty list.
- The sharded and two-level caches built from the LRU cache and the sketch, `List::Insert`, `PopFront` and `PushBack`.
- BlockCaches.BlockCache.Put: utilization is an exact quotient, not a rounded double; hit, miss and rejection counters
  are not modelled, nor `ResetStats`, which forgets the size.
- CountMin.CMSketch4Bits.Count: items and seeds are numbers, combined bit by bit; masking by a power of two minus one is
  written as a remainder.
- ReadQuorums.ReadQuorum.LinearizableRead: takes the answers of all rounds as given and is undecided when they run out;
  the original reads on. Without any answer the version, which the original leaves unset, is 0.
- Version manager, snapshots, asynchronous SST writer, batch commit and thread pool: unused or easy.
