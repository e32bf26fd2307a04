# A verified model of lsmdb

lsmdb is a log-structured merge tree: writes go to a write-ahead log and a skip-list memtable, full memtables are
flushed to sorted tables in level 0, and a background thread merges levels downwards. This project models the engine
in Dafny from the checksum bits up to whole runs with crashes, and proves that every layer agrees with a plain map
from keys to values.

How the layers build on each other:

- Bytes: `Coding`, `Crc32`, `Wal`, `Bloom`, `TableFormat`, `TableWriter`, `TableReader`, `ManifestFormat`. Each format
  has an encoder, a decoder written as the source's loops, and theorems in both directions.
- In-place structures: `SkipList` (linked nodes with any heights), `Cache` (recency list, map and byte account).
- Sorted runs: `Runs`, `Merge`, `TableGet`, `TableIterator`, `Merging`, `Scan`, `Reads`, `Staleness`. All reads and
  merges show one newest-wins view of a list of runs, and fail exactly where a block they need cannot be read.
- The tree: `Versions`, `CompactionSpec`, `CompactionProof`, `CompactionProgress`, `Picker`, `Compacting`. Compaction
  keeps every visible value, also when flushes come between pick and install; it keeps the level invariants; it
  terminates.
- The engine: `Engine` is a state machine with one atomic step for each piece of code that runs under the mutex or
  touches the disk. `EngineProof` shows that each step keeps one invariant, `Durability` and `Recovery` draw the
  conclusions for whole runs, crashes and the bytes a crash leaves. `EngineRuns` and `Opening` describe whole
  operations as runs.
- Sizes: `Room` and `MemRoom` bound what a table and a memtable can hold.
- The object: `Database.DB` has the source's fields and methods; every method leaves the object in a state the state
  machine can reach, so every theorem about runs holds of it.

The documentation and the code disagree in one place. `include/lsmdb/wal.h` says that a crash can never lose an
acknowledged write and that a torn record can only be the last one. Recovery reopens the log behind a torn record
without cutting it off, so records written from then on are not replayed. The model follows the code:
`Wal.AppendsSurviveIffIntact` says exactly when an append survives, `Durability.AcknowledgedWriteLost` gives a run that
loses one, and `Durability.SurvivesIffIntact` says exactly when a put survives. A crash with bytes behind a torn record
may lose operations; the history then restarts with what is on disk, and every theorem holds of it again.

A second failure is silent: a lookup that cannot read the block of a key passes over that table, and an older table may
answer. `Reads.NewestAnswersIff` says exactly when that happens and `Staleness.StaleRead` builds the two tables and the
changed byte. Scans and compactions report such a block instead.

A file's `run` in `Versions.FileMeta`, and in `Loading.TableFile`, is the list of records the table was written from; it
is there for the statements only. Point lookups, scans and merges all read through the readers' bytes; a store is
intact when every block of every live table can be read. The hash of the bloom filter is an arbitrary function and
heights of skip-list nodes are arguments.

## Model

| member | source | states |
|---|---|---|
| `Coding.Fixed32RoundTrip` | include/lsmdb/coding.h:13-34 | decoding the four bytes of any number, with anything behind them, gives the number modulo 2^32, the cast to `uint32_t` |
| `Coding.Fixed64RoundTrip` | include/lsmdb/coding.h:22-40 | the same for eight bytes and 2^64 |
| `Coding.Fixed32Inverse` | include/lsmdb/coding.h:13-34 | every four bytes are the encoding of the number they decode to |
| `Coding.Fixed64Inverse` | include/lsmdb/coding.h:22-40 | every eight bytes are the encoding of the number they decode to |
| `Crc32.BuildTable` | src/crc32.cpp:11-22 | all 256 table entries are the index shifted bit by bit through the division register |
| `Crc32.Remainder` | src/crc32.cpp:31-39 | the byte-at-a-time table loop equals bit-serial reflected division of the whole message, for every generator |
| `Crc32.Compute` | src/crc32.cpp:31-39 | the table-driven checksum equals the complement of the bit-serial remainder by 0xEDB88320 from an all-ones register |
| `Crc32.CheckValue` | src/crc32.cpp:11-39 | the checksum of FF FF FF 7F is 12477CDF, which fixes the generator 0xEDB88320, the starting register, the final complement and the bit order |
| `Crc32.DivideLinear` | src/crc32.cpp:31-39 | division is linear over xor in register and message together |
| `Crc32.ByteAtOnce` | src/crc32.cpp:36 | eight message bits at once: one table entry, picked by the low register byte, xored with the shifted rest |
| `Crc32.DivideInjective` | src/crc32.cpp:31-39 | two registers that differ still differ after any message |
| `Crc32.WindowInjective` | src/crc32.cpp:31-39 | two messages of at most 32 bits that differ drive a register to different states |
| `Crc32.BurstChangesChecksum` | src/crc32.cpp:31-39 | equal-length messages that differ only within four consecutive bytes have different checksums |
| `Crc32.ResidueTest` | src/sstable.cpp:285-298 | data with its stored checksum is accepted if and only if dividing the whole string leaves one fixed residue, the one 32 zero bits leave from the all-ones register |
| `Crc32.BurstRejected` | src/sstable.cpp:285-298 | damage within any four consecutive bytes of a block and its stored checksum together is rejected |
| `Wal.WalWriter.AddRecord` | src/wal.cpp:44-69 | the log file grows by exactly the frame of the record |
| `Wal.WalReplay` | src/wal.cpp:82-149 | the replay loop returns the records of the longest readable front of the log, and their count |
| `Wal.ReadIsFrame` | src/wal.cpp:117-145 | whatever is read is byte for byte the frame of the record reported, so replay never invents a record |
| `Wal.FrameReadsIffFits` | src/wal.cpp:44-69 | a record comes back from its own frame if and only if its payload length fits 32 bits |
| `Wal.ReplayCompose` | src/wal.cpp:117-145 | whole frames followed by any bytes replay to those records, then to what the rest replays to |
| `Wal.ReplaySplits` | src/wal.cpp:117-145 | every byte string is the frames of what it replays to, followed by a tail at which reading stops |
| `Wal.ReplayPrefix` | src/wal.cpp:117-145 | any byte prefix of a log replays to exactly the records whose frames lie wholly inside it |
| `Wal.WholeFramesExact` | src/wal.cpp:117-145 | the number of frames inside a prefix is the largest that fits |
| `Wal.TornFrame` | src/wal.cpp:120-131 | a frame cut at any byte is not read |
| `Wal.AppendsSurviveIffIntact` | src/wal.cpp:31-42 | a record appended on reopening is seen by the next replay, for every record, if and only if the log was readable to its end |
| `Wal.LostRecord` | src/wal.cpp:117-145 | behind any unreadable tail there is a record whose frame does not come back |
| `Wal.DamagedFrameStopsReplay` | src/wal.cpp:120-131 | damage within four consecutive bytes of checksum or payload of a frame ends the replay right before it |
| `Runs.SortedUnique` | src/skiplist.cpp:86-100 | a sorted run is determined by what it answers for every key |
| `Runs.UpsertLookup` | src/skiplist.cpp:42-84 | inserting changes the answer for its own key and for no other |
| `Merging.MergingIterator.SeekToFirst` | src/merging_iterator.cpp:8-11 | rewinds every table iterator and stands on the first merged entry |
| `Merging.MergingIterator.Next` | src/merging_iterator.cpp:13-16 | extends what was emitted by the next merged entry, or ends; the iterators come closer to their ends |
| `Merging.MergingIterator.Advance` | src/merging_iterator.cpp:18-57 | emits the newest entry of the least remaining key and moves every table iterator that stands on it; reports a failed iterator, and ends well only when all are consumed |
| `Merge.MergeStep` | src/merging_iterator.cpp:18-57 | what was emitted stays sorted, newest-wins and complete after one more step |
| `Merge.FinishedMerge` | src/merging_iterator.cpp:18-57 | a merge that ends without failure holds, in order, exactly the newest entry of every key any child has |
| `SkipList.SkipList.constructor` | src/skiplist.cpp:5-11 | a valid empty list |
| `SkipList.SkipList.Walk` | src/skiplist.cpp:45-52 | on every level the search stops at the last node left of the key |
| `SkipList.SkipList.Get` | src/skiplist.cpp:86-100 | equals lookup in the sorted list of entries |
| `SkipList.SkipList.Insert` | src/skiplist.cpp:42-84 | for every height drawn, the pointer structure stays valid (every link leads to the next tall enough node, keys ascend, `count` is the number of nodes, `memUsage` the exact per-node sum), its entries are the old ones with this key inserted or replaced, and the memory account grows by exactly that |
| `SkipList.SkipList.Put` | src/skiplist.cpp:34-36 | the entries with a live value for the key |
| `SkipList.SkipList.Delete` | src/skiplist.cpp:38-40 | the entries with a tombstone for the key |
| `SkipList.SkipList.Overwrite` | src/skiplist.cpp:54-63 | a value is replaced in place and the memory account follows without underflow |
| `SkipList.SkipList.Splice` | src/skiplist.cpp:65-84 | a new node of any height is linked in on all its levels at the place found |
| `SkipList.SkipCursor.SeekToFirst` | src/skiplist.cpp:107-109 | stands on the first entry |
| `SkipList.SkipCursor.Seek` | src/skiplist.cpp:111-119 | stands on the least entry whose key is not below the target |
| `SkipList.SkipCursor.Next` | src/skiplist.cpp:121-123 | moves on by exactly one entry |
| `SkipList.SpliceKeepsLinks` | src/skiplist.cpp:73-77 | re-linking the nodes found by the search gives the links of the longer list |
| `SkipList.SkipList.UpperLevelsNest` | src/skiplist.cpp:47-52 | the nodes met by following the links of one level from the head are a sublist of those met on the level below |
| `SkipList.SkipList.BottomLevelHoldsAll` | src/skiplist.cpp:107-109 | following the bottom links from the head meets every node, in key order |
| `Cache.BlockCache.constructor` | include/lsmdb/cache.h:28-46 | an empty cache of the given capacity |
| `Cache.BlockCache.Lookup` | src/cache.cpp:5-16 | returns what the recency list holds for the block, moves it to the front, counts a hit or a miss |
| `Cache.BlockCache.Insert` | src/cache.cpp:18-47 | refreshes in place or inserts and evicts; list and map stay in bijection and the byte account exact |
| `Cache.BlockCache.EvictOld` | src/cache.cpp:38-46 | drops blocks from the old end until within budget, always keeping one |
| `Cache.EvictIsLongest` | src/cache.cpp:38-46 | eviction takes no more than it must: every longer prefix is over budget |
| `Cache.AccessKeepsRecencyPrefix` | src/cache.cpp:5-47 | the contents are always a prefix of the recency order of all blocks ever touched |
| `Cache.StoreKeepsBudgetIff` | src/cache.cpp:18-47 | storing a block keeps the budget if and only if it does not refresh, beside others, a block with one that makes the sum too large |
| `Cache.AccessKeepsFaithful` | src/cache.cpp:5-47 | with one fixed block per file and offset, every access keeps every cached block right and the cache in budget |
| `Cache.CacheRun` | src/cache.cpp:5-47 | over any run of lookups and inserts on immutable files, the cache is faithful, in budget, and holds a prefix of the recency order |
| `Bloom.BloomBuilder.Add` | src/bloom.cpp:18-23 | remembers the hash of the key |
| `Bloom.BloomBuilder.Finish` | src/bloom.cpp:25-56 | the loops over keys and probes produce the specified filter bytes and forget the keys |
| `Bloom.Query` | src/bloom.cpp:72-84 | the probing loop tests exactly the probes of the key |
| `Bloom.PassesIff` | src/bloom.cpp:25-84 | a hash passes a filter if and only if each of its places h1 + j h2, modulo 2^64 and the bit count, is a place of some added key |
| `Bloom.SetBitTest` | src/bloom.cpp:48 | setting a bit sets that bit, no other, and clears none |
| `Bloom.NoFalseNegatives` | src/bloom.cpp:25-84 | every added key passes after Finish and Reset, for every hash, when the bit count fits 32 bits |
| `Bloom.NeverRulesOutIff` | src/bloom.cpp:31-37 | a filter never rules out one of its keys, whatever the hash, if and only if its bit count fits its 32-bit field or wraps to zero |
| `Bloom.FalseNegative` | src/bloom.cpp:31-37 | a hash under which a filter with a truncated bit count rules out its own key |
| `TableFormat.RecordParses` | src/sstable.cpp:21-28 | a record parses back from its bytes whatever follows |
| `TableFormat.ParseAt` | src/sstable.cpp:379-409 | behind the first m records of a block the next one parses to record m, and the block ends exactly behind the last |
| `TableWriter.SSTableWriter.constructor` | src/sstable.cpp:34-49 | an open writer with no records |
| `TableWriter.SSTableWriter.Add` | src/sstable.cpp:63-71 | the record is added behind the others; blocks are cut where they reach the block size |
| `TableWriter.SSTableWriter.FlushBlock` | src/sstable.cpp:73-90 | the block, its checksum and its index entry are appended; nothing happens where the buffer is empty |
| `TableWriter.SSTableWriter.Finish` | src/sstable.cpp:92-152 | the file is the table of all records added, and the file size is its length; a second call changes nothing |
| `TableWriter.BlocksOfFlatten` | src/sstable.cpp:63-90 | cutting loses and reorders nothing: the blocks joined are the records, and none is empty |
| `TableWriter.BlocksBySize` | src/sstable.cpp:63-71 | every finished block ends with exactly the record that brought it to the block size, and the block being filled is below it |
| `TableReader.Open` | src/sstable.cpp:180-283 | the parse of footer, index, filter and last block; whatever opens ends with the magic number, has an index, a filter and a last block that pass their checksums, and the reader holds what those parts say |
| `TableReader.OpenedIsSealed` | src/sstable.cpp:180-283 | the same of the parse as a function |
| `TableReader.ChangedMagicRejected` | src/sstable.cpp:215-218 | a file whose last four bytes are not the magic number does not open |
| `TableReader.DamagedTailRejected` | src/sstable.cpp:180-283 | a written table with a changed byte anywhere from its last block to the checksum of its index, within four consecutive bytes, does not open |
| `TableReader.OpenRoundTrip` | src/sstable.cpp:180-283 | opening the bytes of a table gives back its index, filter, entry count and first and last key |
| `TableReader.BlockReads` | src/sstable.cpp:285-298 | every block reads back through its index entry |
| `TableReader.OpenAround` | src/sstable.cpp:180-283 | a file whose footer, index, filter and last block are as written opens with the written index, filter, count and range, whatever the other blocks hold |
| `TableReader.DamagedBlockRejected` | src/sstable.cpp:285-298 | a block any of whose bytes, checksum included, changed within four consecutive bytes of the file is rejected, also where the four bytes reach past the edge of the block |
| `TableGet.OpenedServes` | src/sstable.cpp:180-283 | a written table opens, serves exactly its records, all of them readable, and its filter rules none out |
| `TableGet.UpperBound` | src/sstable.cpp:327-342 | the binary search finds the last block that does not start behind the key, the one block that can hold it |
| `TableGet.CandidateHolds` | src/sstable.cpp:327-342 | the whole table answers for a key as that one block does |
| `TableGet.GetBlock` | src/sstable.cpp:300-316 | a block through the cache is the block as written; it is there if and only if it was cached or the copy in the file can be read; the cache then holds exactly what it should |
| `TableGet.ScanBlock` | src/sstable.cpp:344-365 | the early-exit scan answers as lookup in the block's records |
| `TableGet.Get` | src/sstable.cpp:318-366 | filter, index, cache and scan together answer as lookup in all records of the table, if and only if the filter or the index rules the key out or its one candidate block is cached or readable; otherwise the table says it has nothing |
| `TableIterator.TableCursor.LoadBlock` | src/sstable.cpp:373-377 | the block is loaded at its first record, or the failure kept |
| `TableIterator.TableCursor.ParseCurrent` | src/sstable.cpp:379-409 | stands on record n of the table, crossing blocks as needed, or fails at the first unreadable block before it |
| `TableIterator.TableCursor.SeekToFirst` | src/sstable.cpp:411-418 | stands on the first record |
| `TableIterator.TableCursor.Seek` | src/sstable.cpp:420-447 | stands on the first record not below the target, unless an unreadable block comes first |
| `TableIterator.TableCursor.Next` | src/sstable.cpp:449-452 | moves on by exactly one record |
| `TableIterator.ReadAll` | tests/test_sstable.cpp:117-125 | iteration yields the records up to the first unreadable block, and succeeds if and only if that is all of them |
| `TableFiles.WrittenReopens` | src/sstable.cpp:63-283 | sorted records written to a table with any block size, opened again: the same records, all readable, a filter that rules none out, and the right first and last key |
| `TableFiles.WrittenOpens` | src/sstable.cpp:63-283 | at the engine's block size such a table has a reader that stands for its records |
| `TableFiles.ReadableRecords` | src/sstable.cpp:379-409 | a reader all of whose blocks can be read gives back the records of the blocks, in order |
| `TableFiles.DamagedOpens` | src/sstable.cpp:180-298 | a written table damaged within four consecutive bytes in front of its last block still opens, with the same index and range; a block of it can be read if and only if none of its bytes changed |
| `TableFiles.DamagedUnreadable` | src/sstable.cpp:285-298 | such damage always leaves a block that cannot be read |
| `TableFiles.DamagedOpensIff` | src/sstable.cpp:180-283 | a written table damaged within four consecutive bytes in front of its footer opens if and only if every byte from its last block on is as it was written |
| `ManifestFormat.Encode` | src/db.cpp:222-235 | the loops over levels and files produce the specified bytes |
| `ManifestFormat.ListingReads` | src/db.cpp:177-219 | an encoded manifest decodes to the same levels, files and bounds, whatever follows it |
| `ManifestFormat.ListingWasWritten` | src/db.cpp:177-219 | whatever decodes is byte for byte the encoding of what it decodes to |
| `ManifestFormat.AcceptedIffWritten` | src/db.cpp:177-219 | a file decodes to a manifest if and only if it begins with its encoding |
| `ManifestFormat.CutManifestRejected` | src/db.cpp:177-215 | every strict prefix of an encoding is rejected |
| `Loading.LoadLevel` | src/db.cpp:189-215 | rows of a level are read and their tables opened; it fails exactly where a row is cut or a table does not open |
| `Loading.LoadManifest` | src/db.cpp:155-220 | succeeds if and only if there is no manifest, or a whole one all of whose tables are there and open; what is loaded is the levels as listed, and the next number is the least that is not below the one listed and above all files, in 64 bits |
| `Loading.LoadsIff` | src/db.cpp:155-220 | the same condition for the load as a function, on every manifest and directory |
| `Loading.LoadedAsListed` | src/db.cpp:177-218 | a whole manifest whose tables open loads to the files it lists, level by level and in order, with the numbers, ranges, sizes and entry counts listed, and to the least next number that will do |
| `Loading.BadManifestsFail` | src/db.cpp:155-215 | a strict prefix of an encoding, and a manifest that names a table that is missing or does not open, never load |
| `Recovery.NextAboveAllIff` | src/db.cpp:212-218 | the next file number is above every file if and only if no file has the last 64-bit number |
| `Recovery.DiskLoads` | src/db.cpp:155-220 | manifest and table bytes of any consistent disk, tables perhaps damaged in front of their last blocks, load to its version and next number; each table has a reader that stands for its records and can read them all if and only if its file is as it was written |
| `Versions.PushL0View` | src/db.cpp:338-343 | a flushed file answers before everything that was in the version |
| `Versions.PushL0Valid` | src/db.cpp:338-343 | pushing a file with a new, larger number to L0 keeps all version invariants |
| `Versions.LevelViewMember` | src/db.cpp:391-411 | on a non-overlapping level the one file that has the key answers |
| `Picker.NeedsCompaction` | src/db.cpp:488-502 | true if and only if L0 has reached its trigger or the sum of the sizes of a deeper level but the last is over its budget, both modulo 2^64 |
| `Picker.BudgetIs` | src/db.cpp:495-496 | the multiplying loop gives the first target times the multiplier to the power of the level less one, modulo 2^64 |
| `Picker.PickCompaction` | src/db.cpp:504-566 | picks exactly when a compaction is needed, and then all of L0 newest first or the first file of the first level over budget, with exactly the files of the next level that reach into their range; bottommost if and only if every level below the target is empty |
| `Picker.PickIsChoice` | src/db.cpp:504-566 | the same of every pick, said without its definition |
| `Picker.Hull` | src/db.cpp:525-529 | the smallest range that covers all files |
| `Picker.SortNewestFirst` | src/db.cpp:519-524 | sorting L0 by descending number reverses it |
| `Picker.InstallCompaction` | src/db.cpp:639-671 | inputs stripped from both levels, outputs added, target sorted |
| `CompactionProof.PushKeepsInstallable` | src/db.cpp:568-637 | a flush between pick and install leaves the pick standing, its bottommost flag included |
| `CompactionProof.UnselectedOnOneSide` | src/db.cpp:514-563 | a target file that was not selected lies wholly on one side of every input, even of selected files that reach past the picked range |
| `CompactionProof.OutputApart` | src/db.cpp:574-627 | no output overlaps a target file that stays |
| `CompactionProof.NewTargetView` | src/db.cpp:639-671 | picked files and old target together answer what the new target answers, tombstones at the bottom aside |
| `CompactionProof.InstallPreservesView` | src/db.cpp:568-671 | installing a compaction, whatever was flushed since the pick, changes no visible value; only tombstones may disappear |
| `CompactionProof.InstallKeepsValid` | src/db.cpp:639-671 | levels stay sorted and non-overlapping, L0 in number order, numbers unique |
| `CompactionProof.InstallDropsInputs` | src/db.cpp:639-671 | no live file of the new version has the number of an input, so unlinking the inputs is safe |
| `CompactionProof.CompactedKey` | src/db.cpp:599-671 | a key of the inputs has its newest entry in the new target level, unless that is a tombstone and every level below is empty: then the key is gone |
| `CompactionProof.BottomHasNoTombstones` | src/db.cpp:600-602 | where every level below the target is empty no output holds a tombstone |
| `CompactionProgress.MergeNotLarger` | src/db.cpp:599-627 | a merge has no more entries than its inputs together |
| `CompactionProgress.CompactionLowersWeight` | src/db.cpp:673-697 | every compaction strictly lowers the sum of entries weighted by the levels they can still fall |
| `Compacting.FinishOutput` | src/db.cpp:579-597 | a finished output opens, is described by its own records, and its recorded size is the length of its file |
| `Compacting.AddToOutput` | src/db.cpp:604-623 | the record goes behind all others; an output ends with exactly the record that brought its full blocks to the target size, and every output fits the file format |
| `Compacting.MergeReadsAll` | src/db.cpp:599-627 | a merge over the inputs' iterators comes to its end without a failure if and only if every block of every input can be read |
| `Compacting.MergeInputs` | src/db.cpp:568-627 | driven by the merging iterator over the inputs' readers: succeeds if and only if every block of every input can be read, and then the outputs are, in order, the newest entry of every key of the inputs, without tombstones at the bottom, cut by size alone |
| `Reads.Ask` | src/db.cpp:383-387 | one table, asked only for keys in its range, gives its record if it holds the key and can answer, and nothing otherwise; the cache is then exactly what one turn leaves |
| `Reads.GetFromL0` | src/db.cpp:380-388 | the newest L0 file that holds the key and can answer does; if none can, the rest of the version is left to answer |
| `Reads.GetFromLevel` | src/db.cpp:391-411 | the one file found by binary search answers for the level if it holds the key and can answer |
| `Reads.GetFromVersion` | src/db.cpp:376-413 | the answer of the first file, from newest to oldest, that holds the key and can answer with the cache as the files before it left it |
| `Reads.NewestAnswersIff` | src/db.cpp:376-413 | the newest file that holds the key answers if and only if its candidate block is cached or readable when its turn comes |
| `Reads.RightIff` | src/db.cpp:376-413 | the answer is the newest entry of the version if and only if the newest holder can answer, or the older files happen to give the same |
| `Reads.IntactAnswers` | src/db.cpp:376-413 | where every block can be read, the answer is always the newest entry |
| `Staleness.DamagedAnswersIff` | src/sstable.cpp:318-366 | a written table damaged in front of its last block answers for a key it holds if and only if the bytes of that key's block are untouched or the block is cached |
| `Staleness.TwoTables` | src/db.cpp:380-388 | of two L0 tables that hold a key the newer answers if it can, and otherwise the older one does |
| `Staleness.StaleRead` | src/db.cpp:385-387 | two written tables, one byte of the newer one's first block changed: both open, and the lookup returns the overwritten value without an error |
| `Versions.SourcesView` | src/db.cpp:421-442 | memtable and tables in scan order, newest first, answer what a point lookup answers |
| `Scan.SeekSources` | src/db.cpp:444-447 | every table iterator and the memtable cursor stand at their first key not below the start; it fails exactly if one of the seeks meets an unreadable block |
| `Scan.MergeRange` | src/db.cpp:452-478 | while no source fails, what is put out is the merge so far without tombstones |
| `Scan.ScanComplete` | src/db.cpp:452-484 | a merge that has passed every key of the range holds exactly the live pairs of the range |
| `Scan.ScanRange` | src/db.cpp:415-484 | succeeds if and only if every table can be read from the block the seek starts in to the one with the first record behind the range; the output then ascends and is exactly the pairs of the range that a lookup finds |
| `Durability.InitialInv` | src/db.cpp:80-87 | the invariant holds of an empty directory |
| `Durability.StepKeepsInv` | src/db.cpp:123-697 | every step of every thread, every crash and every recovery keeps the invariant |
| `Durability.RunKeepsInv` | src/db.cpp:123-697 | so does every run, with any interleaving |
| `Durability.RunExtendsHistory` | src/db.cpp:278-299 | an operation the engine answers for is answered for over any run that does not crash with bytes behind a torn tail |
| `Durability.ReadersSeeHistory` | src/db.cpp:363-374 | in every running state of every run a reader sees the map of the history the engine answers for, plus the operation in flight once applied |
| `Durability.RecoveryRestoresHistory` | src/db.cpp:123-153 | after any run, a crash at any moment and a recovery the engine sees the map of the history it then answers for; unless bytes lay behind a torn tail that is all acknowledged operations plus at most the one in flight |
| `Durability.TablesAreSafe` | src/db.cpp:259-274 | at every moment the manifest names only finished files that exist, in a valid version, and no new file takes the number of a live one |
| `Durability.ReplayedStays` | src/wal.cpp:31-42 | the records that can be replayed at some moment are replayed first by every recovery until the log is truncated, whatever torn tails, writes and crashes come behind them |
| `Durability.SurvivesIffIntact` | src/db.cpp:123-153 | in every reachable idle state with nothing behind a torn tail, every put is in the map after a crash and a recovery if and only if the log was readable to its end |
| `EngineProof.RebasedRecovers` | src/db.cpp:123-153 | the operations the history restarts with after such a loss make exactly the map a recovery finds, so all later theorems hold again |
| `Durability.UntornRunsLoseNothing` | src/db.cpp:123-153 | if no crash ever tears a record, then at the end of any run a reader sees the map of a history that extends every earlier one, however many crashes there were |
| `Durability.AcknowledgedWriteLost` | src/db.cpp:148 | a concrete run in which an acknowledged write is gone after recovery |
| `EngineProof.CrashKeeps` | src/db.cpp:123-153 | a crash at any point leaves a recoverable disk |
| `EngineProof.RecoverKeeps` | src/db.cpp:123-153 | loading the manifest and replaying the log re-establishes the running invariant |
| `EngineProof.FlushInstallKeeps` | src/db.cpp:338-345 | swapping the manifest before truncating the log changes no answer |
| `EngineProof.FlushTruncateKeeps` | src/db.cpp:347-354 | truncating the log after the manifest swap loses nothing |
| `EngineProof.InstallOutputsKeeps` | src/db.cpp:629-634 | installing outputs over a possibly newer version keeps everything |
| `EngineProof.UnlinkInputKeeps` | src/db.cpp:635 | deleting an input never deletes a live file |
| `EngineRuns.WriteRun` | src/db.cpp:278-287 | a logged and applied write is a run of the machine |
| `EngineRuns.FlushRun` | src/db.cpp:303-359 | a flush is a run of the machine with the stated final state |
| `EngineRuns.CompactionRun` | src/db.cpp:568-637 | a compaction, for any number of outputs, is a run of the machine with the stated final state |
| `EngineRuns.AbandonedRun` | src/db.cpp:673-697 | so is a compaction that fails half way |
| `Opening.RemoveOrphanFiles` | src/db.cpp:259-274 | exactly the files no version names are deleted |
| `Opening.OpenReaders` | src/db.cpp:207-211 | every live table, and no other, gets the reader its file opens to |
| `Opening.OpenRun` | src/db.cpp:123-153 | recovery with orphan removal in any order is a run of the machine |
| `Recovery.BytesRecoverHistory` | src/db.cpp:123-220 | after any run that ended in a crash the bytes on disk give back the map of the history the engine answers for, with readers as above |
| `Database.DB.constructor` | src/db.cpp:80-87 | an unopened database over a directory |
| `Database.DB.Recover` | src/db.cpp:123-153 | for any directory: opening succeeds if and only if there is no manifest or a whole one all of whose tables are there and open, and changes no file otherwise; the version is then the one listed, exactly the live tables have readers, exactly their files are left and the memtable is the replayed log; over the directory of a stopped engine, also with tables damaged in front of their last blocks, the object is valid and answers for exactly the history answered for before, and the store is intact if and only if no live file is damaged |
| `Database.DB.Put` | src/db.cpp:278-287 | the history grows by this put and the object stays in step with the state machine; while the memory account with the entry stays below the threshold only memtable and log grow, by this entry and its frame, and otherwise all entries become the newest table; bytes come to lie behind a torn tail only if the log was torn before; an intact store stays intact |
| `Database.DB.Delete` | src/db.cpp:289-299 | the same for a delete |
| `Database.DB.FlushMemTable` | src/db.cpp:303-359 | nothing if empty; otherwise memtable and log are empty and their records are the newest L0 table, with its real size, its file and the new manifest, as a flush of the machine leaves them |
| `Database.DB.Get` | src/db.cpp:363-374 | the memtable answers, or else the first table that holds the key and can answer; that is the value in the map of the history whenever the newest holder can answer, and so always on an intact store |
| `Database.DB.Scan` | src/db.cpp:415-484 | succeeds if and only if every table can be read as far as the range reaches, and so always on an intact store; it then gives exactly the live pairs of the range in the map of the history, ascending |
| `Database.DB.DoCompaction` | src/db.cpp:568-637 | a picked compaction is carried out and installed if and only if every block of every input can be read, and so always on an intact store, which stays intact; the outputs are then cut by the target size, recorded with their real sizes and stored under the next numbers, and the files of the inputs are gone; otherwise version, manifest and readers stay as they were |
| `Database.DB.BackgroundLoop` | src/db.cpp:673-697 | ends with no level over its budget in real file bytes and L0 below its trigger, or with a compaction that is due and has an input that cannot be read; on an intact store it always ends the first way; nothing a reader can see changes |
| `Database.DB.NeedIsReal` | src/db.cpp:488-502 | in every valid state the recorded sizes call for a compaction if and only if the lengths of the files do |
| `Picker.PickUnique` | src/db.cpp:504-566 | a version has one pick, and only if a compaction is needed |
| `Database.DB.Retry` | src/db.cpp:673-697 | a store whose due compaction has an unreadable input stays so however often the thread tries again: every try fails and version, manifest, readers and history stay as they are |
| `Database.CompactedKeeps` | src/db.cpp:568-697 | a whole compaction keeps every visible value and lowers the weight |
| `Database.CompactedReclaims` | src/db.cpp:568-637 | after a whole compaction each key of the inputs has its newest entry in the target level; with nothing below, deleted keys are gone from it and no table written holds a tombstone |
| `Room.SmallTableFits` | src/sstable.cpp:21-152 | records that each fit a block's 32-bit length, under 2^60 bytes and 2^31 filter bits together, make a table all of whose sizes fit their fields |
| `Room.OutputRoom` | src/db.cpp:604-623 | a record that fits a block, added to an output below its target size, leaves a table that fits, however much the store holds |
| `MemRoom.BelowThreshold` | src/skiplist.cpp:42-84 | a memtable whose memory account is below the flush threshold is small enough for one more record, and still is with one more in it, as a crash before the flush would leave it |
| `MemRoom.UpsertFits` | src/db.cpp:278-299 | one more record in such a memtable leaves one that fits a table |

## Left out

- System calls and I/O errors other than a crash: files are byte strings, fsync is the point where bytes become durable, the rename of the manifest is atomic, and directory entries are not lost in a crash.
- Threads, mutexes and condition variables: the critical sections are the atomic steps of `Engine`; the methods of `Database.DB` run one at a time.
- Writes with `sync` off: the model has only synced writes, the ones durability is promised for.
- The MurmurHash3 function: every theorem about the filter holds for any hash.
- False-positive rate, hit rate, write amplification, statistics, benchmarks and the comparison with RocksDB: measurements, not behaviour.
- The distribution of skip-list heights: every height from 1 to 16 is covered.
- `FlushMemTableToSSTable`: it repeats the loop of the flush.
- File names: table files are known by their number.
- 64-bit wrap-around of `next_file_number_` while running: numbers given out are unbounded; the wrap while loading is modelled.
- The block cache during scans and compactions: the source bypasses it there.
- Bloom.Reset: a filter block whose 32-bit bit count is so close to 2^32 that rounding it up to bytes wraps is taken as no filter, where the source would read past its array.
- TableReader.Open: sums of offset and length in a footer are not wrapped, so a footer whose sums wrap is rejected here.
- TableGet.ScanBlock: a block that passes its checksum but does not hold whole records is not modelled; the writer never makes one.
- Bloom.BloomBuilder.Finish: a negative number of bits per key is taken as 0.
- Database.DB.Put: a record within 4109 bytes of 4 GB is not modelled; behind others in a block it could overflow the block's 32-bit length, which the source casts silently.
- Database.DB.Delete: the same for a key.
- Database.DB.Recover: the history is stated for directories an engine left behind whose files fit the formats and whose settings keep the filters below 2^31 bits; damage from a last block to the index checksum, and of the magic number, makes opening fail (`TableFiles.DamagedOpensIff`, `TableReader.ChangedMagicRejected`); the offsets and the count in a footer have no checksum, and nothing is promised where they are damaged.
- Database.DB.BackgroundLoop: stops when a compaction fails, where the source tries the same one again; `Database.DB.Retry` says what those tries do.
