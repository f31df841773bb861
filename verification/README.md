# LevelDB and nanopb, modelled and proved

The storage engine under `UIKit/Flash Chat/Pods/leveldb-library` keeps a database as a log, a
memtable, levels of sorted table files and a manifest of version edits. This project models
that engine in Dafny and proves that all of it agrees with one simple thing: a set of entries
(user key, sequence number, type, value) in which a read at snapshot s returns the newest entry
of the key with sequence number at most s. It also models nanopb, the Protocol Buffers codec
under `UIKit/Flash Chat/Pods/nanopb`, and proves that decoding restores what was encoded.

What is modelled, bottom up:

- `DbFormat`, `Coding`: internal keys and their order, the meaning of a read, fixed and
  variable-length integers, masked checksums.
- `LogWriter`, `LogReader`, `LogRoundTrip`: log framing in 32 KiB blocks, byte for byte. Every
  byte prefix of a written log reads back as exactly its whole records.
- `BlockFormat`, `BlockBuilder`, `BlockIter`, `BlockRoundTrip`: prefix-compressed blocks with
  restart points. Compression and binary search cannot be observed.
- `InternalKeys`, `FilterBlocks`, `Snapshots`: internal keys as bytes and separators between
  them, the layout of filter blocks, the linked list of snapshots.
- `SkipLists`: the memtable's skip list, with searches beside a half-done insertion.
- `Versions`, `InputSelection`, `Compactions`, `CompactionMeaning`, `VersionBuilder`,
  `LevelOrderKept`: files and levels, point reads, the choice of compaction inputs, the merge
  loop with its drop rules, version edits.
- `Engine`: the engine as a step machine. The level order holds in every state of every run,
  and every live snapshot shows the map of the operations before it.
- `SplitKey`, `SplitKeyRun`: the one way in which the code can break a read, exactly when, and a
  run that does.
- `DbIter`, `Scans`: the two-directional iterator as a cursor over the snapshot's sorted map.
- `GroupCommit`, `GroupRefinement`: the writer queue, in every interleaving, and as the driver of
  the durability machine: what a writer is told is what survives.
- `WriteBatches`, `BatchLog`, `EditCodec`, `ManifestFile`: batches and version edits as bytes, and
  the replay of a log file of batches, and of a manifest of edits, whole or torn.
- `Durability`, `DurableReads`, `PinnedReads`, `Recovery`, `CrashExample`: log records, memtable switches,
  flushes, manifest edits, garbage collection, crash and recovery. Nothing acknowledged is lost,
  the one unanswered group is recovered whole or not at all, and reads stay right, also
  those that go on through an older version.
- `ManifestSteps`: the bytes of the manifest stand for the durability machine's descriptor in
  every run, also when a crash cuts them.
- `PbFormat`, `PbEncode`: schemas, messages and their bytes; the encoding stream, which sizes or
  writes. The sizing pass agrees with the writing pass at any nesting depth.
- `PbDecode`, `PbStream`: what decoding computes, and the decoding stream, field iterator and
  loop that compute it.
- `PbRoundTrip`, `PbMessages`, `PbMeaning`: every in-bounds message comes back, also from among
  unknown fields, and its encoding depends on nothing but what it says.

Code that works step by step is modelled by classes and methods with loops, each proved equal
to a specification function or property, and what the engine promises is proved about those.
Protocols that interleave are step machines whose theorems range over all runs.

One promise does not hold as it stands. The files a compaction takes from level + 1 are not
extended to whole user keys (`AddBoundaryInputs` is applied to the files of `level` only,
`db/version_set.cc:1407` and `1422`), while the check that lets a deletion be dropped starts at
level + 2 (`db/version_set.cc:1536`). So a deletion can be dropped while an older value of its
key stays behind in level + 1. `CompactionMeaning.CompactionKeepsReads` gives the exact
condition, `SplitKey.ClosedInputsAreSafe` shows that taking whole user keys would rule it out,
and `SplitKeyRun.SplitKeyComesBack` is a run of steps the code takes that ends with a deleted
key read again. The comment in `db/db_impl.cc:951-957` claims that no such value exists; the model
follows the code.

## Model

| member | source | states |
|---|---|---|
| Versions.FindFile | UIKit/Flash Chat/Pods/leveldb-library/db/version_set.cc:88-106 | binary search over sorted, disjoint files: every file before the result ends before the key, every file from it on does not |
| Versions.SomeFileOverlapsRange | UIKit/Flash Chat/Pods/leveldb-library/db/version_set.cc:122-153 | true exactly when some file meets the user-key range, by linear search in level 0 and by binary search elsewhere |
| Versions.LookUpFinds | UIKit/Flash Chat/Pods/leveldb-library/db/version_set.cc:263-276 | the first entry of a sorted table that is not before the seek key decides for its user key exactly what the newest visible entry of the table says |
| Versions.SearchLevel0 | UIKit/Flash Chat/Pods/leveldb-library/db/version_set.cc:345-360 | newest-first search of the level-0 files that cover the key answers what a read of all level-0 entries answers |
| Versions.SearchSortedLevel | UIKit/Flash Chat/Pods/leveldb-library/db/version_set.cc:361-376 | one binary-searched file answers for its whole level, although a user key may go on in the next file |
| Versions.Search | UIKit/Flash Chat/Pods/leveldb-library/db/version_set.cc:326-421 | level-by-level search returns the read of everything stored in the version's files |
| Versions.Get | UIKit/Flash Chat/Pods/leveldb-library/db/db_impl.cc:1100-1145 | memtable, then immutable memtable, then files: the newest entry at or before the snapshot over all of them |
| InputSelection.GetOverlappingInputs | UIKit/Flash Chat/Pods/leveldb-library/db/version_set.cc:519-559 | in level 0 exactly the files meeting the least range that contains the request and is closed under overlap; elsewhere exactly the files that meet the range; the restarts terminate |
| InputSelection.WideningUsesUp | UIKit/Flash Chat/Pods/leveldb-library/db/version_set.cc:545-556 | each restart uses up a file end that stuck out of the range: the measure that makes the restart loop stop |
| InputSelection.FindSmallestBoundaryFile | UIKit/Flash Chat/Pods/leveldb-library/db/version_set.cc:1344-1362 | the file that continues the largest user key and starts earliest, if any file does |
| InputSelection.AddBoundaryInputs | UIKit/Flash Chat/Pods/leveldb-library/db/version_set.cc:1378-1401 | the chain of boundary files is followed to its end: no file left behind continues the last user key |
| InputSelection.ChainIsGapless | UIKit/Flash Chat/Pods/leveldb-library/db/version_set.cc:1378-1401 | following boundary files from a gapless choice leaves it gapless in the level's order |
| InputSelection.NothingGoesOn | UIKit/Flash Chat/Pods/leveldb-library/db/version_set.cc:1364-1377 | with the boundary chain closed, no file left behind after a chosen one holds an older entry of a chosen user key |
| InputSelection.GaplessLeavesNewer | UIKit/Flash Chat/Pods/leveldb-library/db/version_set.cc:1364-1377 | what a gapless, boundary-closed choice leaves behind in its level is newer than what it takes, key by key |
| InputSelection.GetRange | UIKit/Flash Chat/Pods/leveldb-library/db/version_set.cc:1205-1223 | smallest and largest internal key over the inputs |
| InputSelection.SetupOtherInputs | UIKit/Flash Chat/Pods/leveldb-library/db/version_set.cc:1403-1447 | whatever the size limit decides about growing the inputs, the result is a valid pick: newer entries stay, the next level gives exactly the files meeting the range, the grandparents are exactly the files two levels down in the range, and the pointer is the largest key taken |
| InputSelection.PickCompaction | UIKit/Flash Chat/Pods/leveldb-library/db/version_set.cc:1270-1322 | the first file behind the compaction pointer, or the first of the level when there is none, is among the inputs, and these are a valid pick |
| InputSelection.CompactRange | UIKit/Flash Chat/Pods/leveldb-library/db/version_set.cc:1464-1503 | a manual compaction's inputs are a valid pick that starts, below level 0, from the shortest prefix of the files in the range that reaches the size limit; none exactly when no file meets the range |
| InputSelection.PickLevelForMemTableOutput | UIKit/Flash Chat/Pods/leveldb-library/db/version_set.cc:491-516 | the deepest level, at most 2, that can be reached from level 0 step by step with nothing met on the way and little enough overlapped two levels below; 0 when level 0 meets the new table |
| Compactions.Compaction.IsBaseLevelForKey | UIKit/Flash Chat/Pods/leveldb-library/db/version_set.cc:1533-1552 | with the advancing per-level pointers, over ascending keys, the answer of a full scan of the deeper levels |
| Compactions.DoCompactionWork | UIKit/Flash Chat/Pods/leveldb-library/db/db_impl.cc:912-999 | the outputs, concatenated, are exactly the entries that the two drop rules keep, in order, however the outputs are cut |
| CompactionMeaning.HiddenIs | UIKit/Flash Chat/Pods/leveldb-library/db/db_impl.cc:939-949 | rule (A), which only looks at the previous entry, drops an entry exactly when a newer input entry of its key is visible to every live snapshot |
| CompactionMeaning.KeptIs | UIKit/Flash Chat/Pods/leveldb-library/db/db_impl.cc:939-963 | the survivors are exactly the entries neither hidden nor obsolete deletions |
| CompactionMeaning.CompactionKeepsReads | UIKit/Flash Chat/Pods/leveldb-library/db/db_impl.cc:890-999 | every read at or above the smallest snapshot is unchanged if and only if no dropped deletion uncovers a value left behind in level + 1 |
| CompactionMeaning.ResurrectedReadDiffers | UIKit/Flash Chat/Pods/leveldb-library/db/db_impl.cc:949-960 | when a dropped deletion uncovers such a value, the read at the smallest snapshot changes from nothing to that value |
| VersionBuilder.Builder.Apply | UIKit/Flash Chat/Pods/leveldb-library/db/version_set.cc:650-692 | the builder's per-level state after one more edit |
| VersionBuilder.Builder.SaveTo | UIKit/Flash Chat/Pods/leveldb-library/db/version_set.cc:695-739 | the saved version is the base version with every applied edit installed |
| VersionBuilder.SavedIs | UIKit/Flash Chat/Pods/leveldb-library/db/version_set.cc:695-754 | a saved level holds exactly the base and added files that are not deleted |
| VersionBuilder.SaveLevelSorted | UIKit/Flash Chat/Pods/leveldb-library/db/version_set.cc:695-731 | the merge keeps each level sorted by smallest key |
| VersionBuilder.AdditionsAre | UIKit/Flash Chat/Pods/leveldb-library/db/version_set.cc:665-691 | adding a file takes its number out of the deleted set and inserts it in order |
| VersionBuilder.ReplayIsStepwise | UIKit/Flash Chat/Pods/leveldb-library/db/version_set.cc:924-998 | one builder fed all edits yields the files that installing each edit with its own builder yields, when no level is given a file number twice |
| VersionBuilder.RecoveredVersion | UIKit/Flash Chat/Pods/leveldb-library/db/version_set.cc:1088-1116 | a manifest that starts with a snapshot record rebuilds the version its last edit installed |
| LevelOrderKept.FlushKeepsInvariant | UIKit/Flash Chat/Pods/leveldb-library/db/db_impl.cc:491-533 | installing a flushed table at the level picked for it keeps levels sorted, disjoint and ordered by age, and adds exactly its entries |
| LevelOrderKept.MoveKeepsInvariant | UIKit/Flash Chat/Pods/leveldb-library/db/db_impl.cc:718-766 | installing a compaction or a trivial move keeps levels sorted, disjoint and ordered by age |
| LevelOrderKept.MoveTradesContents | UIKit/Flash Chat/Pods/leveldb-library/db/db_impl.cc:860-876 | a move trades exactly the entries of its inputs for those of its outputs |
| LevelOrderKept.NextLevelDisjoint | UIKit/Flash Chat/Pods/leveldb-library/db/version_set.cc:1407-1418 | outputs fit between the files of the next level that were left behind |
| Engine.StepKeepsInvariant | UIKit/Flash Chat/Pods/leveldb-library/db/db_impl.cc:688-766 | writes, memtable switches, flushes, compactions, trivial moves and snapshots each keep the level order and what it rests on, with level-0 flushes beside a running compaction |
| Engine.RunKeepsInvariant | UIKit/Flash Chat/Pods/leveldb-library/db/db_impl.cc:688-766 | the level-order invariant holds in every state of every run |
| Engine.FinishKeepsReads | UIKit/Flash Chat/Pods/leveldb-library/db/db_impl.cc:860-876 | finishing a compaction keeps every read at or above the floor right if and only if it uncovers nothing |
| Engine.StepKeepsReads | UIKit/Flash Chat/Pods/leveldb-library/db/db_impl.cc:1100-1145 | the only step that can make a stored read wrong is finishing a compaction that uncovers a value |
| Engine.HistoryIsReplay | UIKit/Flash Chat/Pods/leveldb-library/db/write_batch.cc:116-131 | reading the whole history at a sequence number is looking up the map that the operations up to it build |
| Engine.SnapshotsShowTheirMap | UIKit/Flash Chat/Pods/leveldb-library/db/snapshot.h:57-86 | after any run of safe compactions, every live snapshot still shows the map of the operations before it |
| PinnedReads.PinnedRead | UIKit/Flash Chat/Pods/leveldb-library/db/db_impl.cc:1100-1145 | a read through an older version and the memtables of its start shows at every later moment the map of its snapshot, whatever is flushed, compacted or collected meanwhile; while the version is pinned its tables are on disk |
| PinnedReads.PinnedScan | UIKit/Flash Chat/Pods/leveldb-library/db/db_impl.cc:1045-1082 | a scan begun at a snapshot: at every later moment what its sources yield is sorted and unambiguous, and its live keys and values are those of the snapshot's map |
| Engine.GetAt | UIKit/Flash Chat/Pods/leveldb-library/db/db_impl.cc:1100-1145 | a point read of a running database returns what the map of the first q operations holds |
| SplitKey.ClosedInputsAreSafe | UIKit/Flash Chat/Pods/leveldb-library/db/version_set.cc:1403-1447 | if no file of level + 1 continues the last user key of the files taken from it, the compaction is safe |
| SplitKey.UncoveredIsSplit | UIKit/Flash Chat/Pods/leveldb-library/db/version_set.cc:1407-1411 | a value that a compaction can uncover lies in a file directly continuing the last user key of the level + 1 inputs, which the code does not extend |
| SplitKeyRun.SplitKeyComesBack | UIKit/Flash Chat/Pods/leveldb-library/db/version_set.cc:1403-1447 | a concrete run from the empty database, whose every flush goes to the level the code picks and whose every compaction has inputs the code could choose and is no trivial move; it is safe up to its last compaction, after which a deleted key is read again |
| DbIter.DBIter.Next | UIKit/Flash Chat/Pods/leveldb-library/db/db_iter.cc:141-166 | moves to the least live key after the current one, also after moving backwards |
| DbIter.DBIter.Prev | UIKit/Flash Chat/Pods/leveldb-library/db/db_iter.cc:200-225 | moves to the greatest live key before the current one, also after moving forwards |
| DbIter.DBIter.Seek | UIKit/Flash Chat/Pods/leveldb-library/db/db_iter.cc:269-281 | moves to the least live key not before the target |
| DbIter.DBIter.SeekToFirst | UIKit/Flash Chat/Pods/leveldb-library/db/db_iter.cc:283-292 | moves to the least live key |
| DbIter.DBIter.SeekToLast | UIKit/Flash Chat/Pods/leveldb-library/db/db_iter.cc:294-299 | moves to the greatest live key |
| DbIter.DBIter.FindNextUserEntry | UIKit/Flash Chat/Pods/leveldb-library/db/db_iter.cc:168-198 | from any position with nothing wanted behind it, the forward scan stops at the least live key wanted |
| DbIter.DBIter.FindPrevUserEntry | UIKit/Flash Chat/Pods/leveldb-library/db/db_iter.cc:227-267 | the backward scan stops with the newest visible value of the greatest live key before the limit, and stands before that key's entries |
| DbIter.DBIter.Run | UIKit/Flash Chat/Pods/leveldb-library/db/db_iter.cc:141-299 | after any sequence of operations the iterator is where a cursor over the sorted map of live keys would be, and shows what reads return |
| DbIter.TrailIsUnique | UIKit/Flash Chat/Pods/leveldb-library/db/db_iter.cc:141-299 | where the cursor goes is determined by the map and the operations |
| DbIter.FirstUnhidden | UIKit/Flash Chat/Pods/leveldb-library/db/db_iter.cc:168-198 | the first value that is not hidden is live and is the least live key wanted |
| DbIter.BackStops | UIKit/Flash Chat/Pods/leveldb-library/db/db_iter.cc:227-267 | when the backward scan stops, the entry found is live and no live key wanted is greater |
| Scans.IteratorWalksTheMap | UIKit/Flash Chat/Pods/leveldb-library/db/db_impl.cc:1062-1087 | an iterator at a live snapshot of a safe run walks over exactly the keys of the snapshot's map with its values |
| Coding.EncodeVarint32 | UIKit/Flash Chat/Pods/leveldb-library/util/coding.cc:47-73 | seven bits a byte, low bits first, the high bit on all bytes but the last |
| Coding.GetVarint32 | UIKit/Flash Chat/Pods/leveldb-library/util/coding.cc:112-140 | decodes at most five bytes before the limit, in 32 bits, or fails |
| Coding.Varint32RoundTrip | UIKit/Flash Chat/Pods/leveldb-library/util/coding.cc:47-140 | what was encoded is decoded, whatever follows it |
| Coding.Fixed32RoundTrip | UIKit/Flash Chat/Pods/leveldb-library/util/coding.cc:9-18 | little-endian 32-bit words decode to what was encoded |
| Coding.UnmaskMask | UIKit/Flash Chat/Pods/leveldb-library/util/crc32c.h:29-38 | unmasking inverts masking on all 32-bit checksums |
| Coding.ExtendOn | UIKit/Flash Chat/Pods/leveldb-library/util/crc32c.h:16-20 | extending the checksum of one string by another is checksumming their concatenation, whatever the register step is |
| LogWriter.Writer.AddRecord | UIKit/Flash Chat/Pods/leveldb-library/db/log_writer.cc:34-80 | appends exactly the framing of the record for the current block offset |
| LogWriter.Writer.EmitPhysicalRecord | UIKit/Flash Chat/Pods/leveldb-library/db/log_writer.cc:82-108 | appends one physical record: masked checksum over type and payload, length, type, payload |
| LogReader.Reader.ReadPhysicalRecord | UIKit/Flash Chat/Pods/leveldb-library/db/log_reader.cc:189-271 | next physical record, skipping trailers, with the reports and the end-of-file cases of every branch |
| LogReader.Reader.ReadRecord | UIKit/Flash Chat/Pods/leveldb-library/db/log_reader.cc:56-176 | the next whole record reassembled from fragments, with a report for everything dropped |
| LogReader.ReadLog | UIKit/Flash Chat/Pods/leveldb-library/db/db_impl.cc:415-448 | reading record after record yields everything the file holds |
| LogRoundTrip.ReadsRecord | UIKit/Flash Chat/Pods/leveldb-library/db/log_writer.cc:34-80 | a framed record that is wholly in the file is returned, without a report, wherever in a block it starts |
| LogRoundTrip.ReadsTornRecord | UIKit/Flash Chat/Pods/leveldb-library/db/log_reader.cc:144-151 | a record cut off anywhere is dropped without a report |
| LogRoundTrip.TornLogReadsItsWholeRecords | UIKit/Flash Chat/Pods/leveldb-library/db/log_reader.cc:191-233 | for every list of records and every byte prefix of their log, the reader returns exactly the records wholly in the prefix and reports nothing |
| LogRoundTrip.LogReadsItsRecords | UIKit/Flash Chat/Pods/leveldb-library/db/log_reader.cc:56-271 | reading a whole log returns exactly the records written |
| LogRoundTrip.WriteAndRead | UIKit/Flash Chat/Pods/leveldb-library/db/log_writer.cc:34-108 | writing any records with the writer and reading any prefix back with the reader |
| BlockBuilder.Builder.Add | UIKit/Flash Chat/Pods/leveldb-library/table/block_builder.cc:72-104 | appends one prefix-compressed entry, restarting the compression every `interval` entries |
| BlockBuilder.Builder.Finish | UIKit/Flash Chat/Pods/leveldb-library/table/block_builder.cc:62-70 | appends the restart array and its length |
| BlockFormat.DecodeEntry | UIKit/Flash Chat/Pods/leveldb-library/table/block.cc:54-74 | three lengths, by the one-byte fast path or as varints, or a failure |
| BlockFormat.EntryIsRead | UIKit/Flash Chat/Pods/leveldb-library/table/block.cc:54-74 | an entry decodes to its lengths, and its key delta and value follow them |
| BlockFormat.OffsetsAscend | UIKit/Flash Chat/Pods/leveldb-library/table/block_builder.cc:72-104 | offsets of entries order as the entries do |
| BlockIter.LaidOpens | UIKit/Flash Chat/Pods/leveldb-library/table/block.cc:19-39 | the constructor finds the restart array of a finished block |
| BlockIter.Iter.ParseNextKey | UIKit/Flash Chat/Pods/leveldb-library/table/block.cc:224-250 | in any block, the entry at the end of the last value, the end, or a corruption error, exactly as its bytes say; in a finished block the next entry, its whole key rebuilt from the shared prefix and the restart index bracketing it |
| BlockIter.Iter.Next | UIKit/Flash Chat/Pods/leveldb-library/table/block.cc:137-140 | shows the successor, or nothing after the last entry |
| BlockIter.Iter.Prev | UIKit/Flash Chat/Pods/leveldb-library/table/block.cc:142-161 | shows the predecessor, found from the restart point before it, or nothing before the first entry |
| BlockIter.Iter.Seek | UIKit/Flash Chat/Pods/leveldb-library/table/block.cc:163-201 | from any state, shows the first entry whose key is not before the target, for any transitive comparator; an earlier corruption error stays |
| BlockIter.Iter.SeekToFirst | UIKit/Flash Chat/Pods/leveldb-library/table/block.cc:203-206 | shows the first entry |
| BlockIter.Iter.SeekToLast | UIKit/Flash Chat/Pods/leveldb-library/table/block.cc:208-213 | shows the last entry |
| BlockRoundTrip.RoundTrip | UIKit/Flash Chat/Pods/leveldb-library/table/block_builder.cc:62-104 | every list of pairs built into a block under 4 GB is enumerated exactly, forwards and backwards |
| BlockRoundTrip.Find | UIKit/Flash Chat/Pods/leveldb-library/table/block.cc:163-201 | seeking finds the least pair not before the target, and nothing only when all pairs are before it |
| SkipLists.SkipList.FindGreaterOrEqual | UIKit/Flash Chat/Pods/leveldb-library/db/skiplist.h:262-282 | the earliest node not before the key, and on every level in use the node before it |
| SkipLists.SkipList.FindLessThan | UIKit/Flash Chat/Pods/leveldb-library/db/skiplist.h:285-302 | the last node before the key |
| SkipLists.SkipList.FindLast | UIKit/Flash Chat/Pods/leveldb-library/db/skiplist.h:305-322 | the last node |
| SkipLists.SkipList.Contains | UIKit/Flash Chat/Pods/leveldb-library/db/skiplist.h:371-378 | true exactly for the keys inserted |
| SkipLists.SkipList.Insert | UIKit/Flash Chat/Pods/leveldb-library/db/skiplist.h:337-368 | adds exactly the key, with every level sorted and nested after every store |
| SkipLists.SetOwnLinkOk | UIKit/Flash Chat/Pods/leveldb-library/db/skiplist.h:361-366 | setting the new node's own link, before it is published, changes no level |
| SkipLists.PublishLinkOk | UIKit/Flash Chat/Pods/leveldb-library/db/skiplist.h:361-366 | publishing the node on a level puts it in its sorted place there and leaves the levels nested |
| SkipLists.StepKeepsInvariant | UIKit/Flash Chat/Pods/leveldb-library/db/skiplist.h:337-368 | after every single store of an insertion and every read of a search, levels are sorted and nested and each search has its bearings |
| SkipLists.SearchFindsEarliest | UIKit/Flash Chat/Pods/leveldb-library/db/skiplist.h:262-282 | a search beside a running insertion finds the earliest node at its last read and misses no node linked when it began |
| GroupCommit.BuildBatchGroup | UIKit/Flash Chat/Pods/leveldb-library/db/db_impl.cc:1260-1306 | the longest prefix of the queue within the size cap in which no sync write follows a leader that does not sync, and its operations in order |
| GroupCommit.StepKeepsInvariant | UIKit/Flash Chat/Pods/leveldb-library/db/db_impl.cc:1185-1256 | every interleaving of arrivals with the leader's logging, syncing, inserting and answering keeps log, memtable, queue and statuses consistent |
| GroupCommit.OneAtATime | UIKit/Flash Chat/Pods/leveldb-library/db/db_impl.cc:1210-1230 | at most one writer is in the unlocked section |
| GroupCommit.EachInOneGroup | UIKit/Flash Chat/Pods/leveldb-library/db/db_impl.cc:1238-1248 | each writer is in exactly one group, in order of arrival, and gets its group's status |
| GroupCommit.LoggedOnce | UIKit/Flash Chat/Pods/leveldb-library/db/db_impl.cc:1207-1214 | each logged batch is in the log exactly once, in queue order |
| GroupCommit.RangesFollow | UIKit/Flash Chat/Pods/leveldb-library/db/db_impl.cc:1207-1235 | the sequence ranges of the records follow each other without gap or overlap |
| GroupCommit.ReadersSeeWholeGroups | UIKit/Flash Chat/Pods/leveldb-library/db/db_impl.cc:1214-1235 | a reader at LastSequence sees exactly the groups that succeeded, each whole |
| GroupCommit.SyncedWritesAreDurable | UIKit/Flash Chat/Pods/leveldb-library/db/db_impl.cc:1284-1287 | a sync write that succeeded was on disk before it was answered, and no sync write is in the group of a leader that does not sync |
| GroupRefinement.MoveKeepsAgreement | UIKit/Flash Chat/Pods/leveldb-library/db/db_impl.cc:1185-1256 | logging a group, publishing it and failing to sync are steps of the durability machine, all else the queue does is none, and no other step of the database disturbs their agreement |
| GroupRefinement.WritersCanMove | UIKit/Flash Chat/Pods/leveldb-library/db/db_impl.cc:1185-1256 | the database can follow whatever the queue does next, as long as sequence numbers last |
| GroupRefinement.QueueRunIsFollowed | UIKit/Flash Chat/Pods/leveldb-library/db/db_impl.cc:1185-1256 | every run of the writer queue is the queue's side of a run of both machines |
| GroupRefinement.RunAgrees | UIKit/Flash Chat/Pods/leveldb-library/db/db_impl.cc:1195-1248 | at every point of a run of both, with flushes, compactions and collections in between, the database holds exactly the groups that writers were told succeeded, and its log what the queue logged |
| GroupRefinement.AnsweredWritesStay | UIKit/Flash Chat/Pods/leveldb-library/db/db_impl.cc:1207-1248 | a write answered with success is in the database, whole and at its group's sequence numbers, and stays there through any steps, crashes and recoveries |
| Durability.StepKeepsInvariant | UIKit/Flash Chat/Pods/leveldb-library/db/db_impl.cc:1185-1370 | every step, crash and recovery included, keeps the disk such that recovery finds the current version and every operation since |
| Durability.RunKeepsInvariant | UIKit/Flash Chat/Pods/leveldb-library/db/db_impl.cc:1474-1503 | this holds in every state of every run, through any number of crashes, also crashes during recovery |
| Durability.OpsOnlyGrow | UIKit/Flash Chat/Pods/leveldb-library/db/db_impl.cc:1213-1236 | the operations of the database change only by a commit or a recovery, which add exactly the one unanswered group, whole, or nothing if its record was not completed |
| Durability.AcknowledgedStays | UIKit/Flash Chat/Pods/leveldb-library/db/db_impl.cc:280-365 | what had been acknowledged at some point of a run is there at every later point |
| Durability.RecoveryIsExact | UIKit/Flash Chat/Pods/leveldb-library/db/db_impl.cc:280-489 | what recovery reads from disk holds exactly what had been acknowledged plus the group that was in the log, and LastSequence is that of the last operation |
| Durability.LastSequenceIsRecovered | UIKit/Flash Chat/Pods/leveldb-library/db/db_impl.cc:360-363 | the larger of the manifest's sequence number and the logs' is that of the last recovered operation |
| Durability.CollectionIsSafe | UIKit/Flash Chat/Pods/leveldb-library/db/db_impl.cc:223-278 | deleting obsolete files deletes no table of a listed version, no output of the running compaction and no log record that recovery would read |
| Durability.LogEditKeeps | UIKit/Flash Chat/Pods/leveldb-library/db/version_set.cc:801-884 | once the manifest record is written, recovery finds the version that installing the edit will make |
| Durability.LoggedEditInstalls | UIKit/Flash Chat/Pods/leveldb-library/db/version_set.cc:871-876 | an edit written to the manifest can be installed whatever was written to the log or snapshotted meanwhile |
| Durability.RebuiltVersion | UIKit/Flash Chat/Pods/leveldb-library/db/db_impl.cc:439-466 | the level-0 tables written while replaying, one for each full memtable, hold the replayed operations and keep the level order |
| Durability.OneEditAddsAll | UIKit/Flash Chat/Pods/leveldb-library/db/db_impl.cc:1493-1497 | recovery's single edit makes the version that adding its tables one at a time makes |
| DurableReads.StepKeepsReads | UIKit/Flash Chat/Pods/leveldb-library/db/db_impl.cc:860-876 | with safe compactions, no step, crash or recovery makes a read at or above the floor wrong |
| DurableReads.DurableMap | UIKit/Flash Chat/Pods/leveldb-library/db/db_impl.cc:1100-1145 | after any run with crashes, every live snapshot and the present show the map of the acknowledged and recovered operations |
| Recovery.InsertInto | UIKit/Flash Chat/Pods/leveldb-library/db/write_batch.cc:116-147 | a batch's operations enter the memtable in key order under consecutive sequence numbers |
| Recovery.RecoverLogFile | UIKit/Flash Chat/Pods/leveldb-library/db/db_impl.cc:371-489 | replaying a log yields tables for exactly its records, cut where the memtable grew too large, and the largest sequence number |
| Recovery.RecoverLogs | UIKit/Flash Chat/Pods/leveldb-library/db/db_impl.cc:309-363 | all logs not older than the manifest's are replayed in order of their numbers, and new numbers are above theirs |
| Recovery.Replayed | UIKit/Flash Chat/Pods/leveldb-library/db/db_impl.cc:280-365 | from every disk that a crash can leave, no table is missing, and replaying succeeds with tables that reopening accepts |
| Recovery.MissingTables | UIKit/Flash Chat/Pods/leveldb-library/db/db_impl.cc:320-345 | the live tables whose number no file of the directory has |
| Recovery.AddLiveFiles | UIKit/Flash Chat/Pods/leveldb-library/db/version_set.cc:1167-1177 | the numbers of the tables of all listed versions, added to the pending outputs |
| Recovery.DeleteObsoleteFiles | UIKit/Flash Chat/Pods/leveldb-library/db/db_impl.cc:223-278 | over a full directory listing, leaves exactly the logs not older than the current one, the manifest and any newer, the live tables and temporary files, and the files without numbers; touches nothing after a background error |
| Recovery.NeededStays | UIKit/Flash Chat/Pods/leveldb-library/db/db_impl.cc:223-278 | CURRENT, the manifest, the log being written, temporary files of running outputs and all tables of listed versions stay |
| WriteBatches.WriteBatch.Put | UIKit/Flash Chat/Pods/leveldb-library/db/write_batch.cc:98-103 | the batch's bytes stay the encoding of its operations, with one more |
| WriteBatches.WriteBatch.Delete | UIKit/Flash Chat/Pods/leveldb-library/db/write_batch.cc:105-109 | likewise, with one deletion more |
| WriteBatches.WriteBatch.Append | UIKit/Flash Chat/Pods/leveldb-library/db/write_batch.cc:144-148 | appending another batch's bytes behind the header encodes the operations of both, counted in 32 bits |
| WriteBatches.Iterate | UIKit/Flash Chat/Pods/leveldb-library/db/write_batch.cc:42-80 | hands over the operations up to the first malformed record, and names what is wrong |
| WriteBatches.EncodedIsParsed | UIKit/Flash Chat/Pods/leveldb-library/db/write_batch.cc:42-113 | every encoded batch is read back, operation by operation |
| BatchLog.TornGroupLog | UIKit/Flash Chat/Pods/leveldb-library/db/db_impl.cc:371-448 | for every list of logged groups and every byte prefix of their log file, replaying yields exactly the groups wholly in the prefix, with no report and no error |
| BatchLog.ReplayFile | UIKit/Flash Chat/Pods/leveldb-library/db/db_impl.cc:405-466 | on any file, with paranoid checks on or off: which groups are replayed, the largest sequence number, and the error that ends it, if one does |
| EditCodec.EncodeTo | UIKit/Flash Chat/Pods/leveldb-library/db/version_edit.cc:41-85 | the fields in the order of the format |
| EditCodec.DecodeFrom | UIKit/Flash Chat/Pods/leveldb-library/db/version_edit.cc:108-205 | applies field after field into a fresh edit, up to the first malformed one, whose complaint it returns |
| EditCodec.EditRoundTrip | UIKit/Flash Chat/Pods/leveldb-library/db/version_edit.cc:41-205 | decoding an encoded edit gives the edit back |
| CrashExample.UnansweredWriteIsRecovered | UIKit/Flash Chat/Pods/leveldb-library/db/db_impl.cc:182-212 | a concrete run of the durability machine with the file numbers the code gives out: a write is logged, the process crashes before it is answered, and recovery finds it |
| ManifestFile.Recover | UIKit/Flash Chat/Pods/leveldb-library/db/version_set.cc:886-998 | reads the manifest's records into one builder and takes the last of each number; an error for a corrupt log, a malformed edit, a foreign comparator or a missing number |
| ManifestFile.TornManifest | UIKit/Flash Chat/Pods/leveldb-library/db/version_set.cc:925-998 | from a manifest cut at any byte, recovery applies exactly the edits wholly before the cut |
| ManifestFile.TornManifestRebuilds | UIKit/Flash Chat/Pods/leveldb-library/db/version_set.cc:1088-1116 | a snapshot of a version followed by edits of LogAndApply, cut at any byte: recovery fails exactly when no edit behind the snapshot is whole, and otherwise rebuilds the version that the last whole edit installed, with that edit's numbers |
| ManifestSteps.StepKeepsManifest | UIKit/Flash Chat/Pods/leveldb-library/db/version_set.cc:801-884 | whatever the database does, the records appended to its manifest go on standing for its descriptor: version, log number, next file and last sequence number |
| ManifestSteps.LogEditHistory | UIKit/Flash Chat/Pods/leveldb-library/db/version_set.cc:650-725 | no edit gives a level a file number that the level had before or that a file above it or a table to come has, which is what lets one builder replay the edits |
| ManifestSteps.ReopenHistory | UIKit/Flash Chat/Pods/leveldb-library/db/version_set.cc:1088-1116 | the snapshot and the edit that opening writes make the reopened version, and start such a history anew |
| ManifestSteps.TornLogAndApply | UIKit/Flash Chat/Pods/leveldb-library/db/version_set.cc:850-884 | a crash while LogAndApply writes its record, whatever part of it is on disk: recovery finds the descriptor of before the step, or of after it exactly when the record is whole |
| ManifestSteps.ManifestIsDescriptor | UIKit/Flash Chat/Pods/leveldb-library/db/version_set.cc:886-998 | in every run, through any crashes and reopenings, the bytes of the current manifest are read back as the descriptor that the durability machine keeps |
| InternalKeys.ParsedIsAppended | UIKit/Flash Chat/Pods/leveldb-library/db/dbformat.h:165-175 | a byte string parses to a key exactly when appending that key gives the string |
| InternalKeys.CompareIs | UIKit/Flash Chat/Pods/leveldb-library/db/dbformat.cc:51-67 | by user key, then the newer first, then values before deletions |
| InternalKeys.RanksAgree | UIKit/Flash Chat/Pods/leveldb-library/db/dbformat.cc:51-67 | with user keys ranked by the comparator, comparing bytes is the order that the rest of the model uses |
| InternalKeys.SeekKeySplits | UIKit/Flash Chat/Pods/leveldb-library/db/dbformat.cc:121-138 | the lookup key at a snapshot passes over exactly the smaller user keys and the entries newer than the snapshot |
| InternalKeys.LookupKey | UIKit/Flash Chat/Pods/leveldb-library/db/dbformat.cc:121-138 | the length-prefixed memtable key, whose tail is the internal key |
| InternalKeys.BytewiseIsOrder | UIKit/Flash Chat/Pods/leveldb-library/util/comparator.cc:25-27 | bytewise comparison is a total order |
| InternalKeys.BytewiseSeparates | UIKit/Flash Chat/Pods/leveldb-library/util/comparator.cc:29-50 | the bytewise separator of a start before the limit lies from the start to before the limit, and any other start is left as it is |
| InternalKeys.FindShortestSeparator | UIKit/Flash Chat/Pods/leveldb-library/util/comparator.cc:29-50 | no longer than the start, not before it, and before the limit if the start is |
| InternalKeys.ShortestInternalSeparator | UIKit/Flash Chat/Pods/leveldb-library/db/dbformat.cc:69-86 | for any user comparator whose separators keep to what Comparator asks: between two internal keys, and no longer than the first, so that the assertions in the code hold |
| InternalKeys.ShortInternalSuccessor | UIKit/Flash Chat/Pods/leveldb-library/db/dbformat.cc:88-101 | for any user comparator: not before the key, and no longer |
| Snapshots.SnapshotList.New | UIKit/Flash Chat/Pods/leveldb-library/db/snapshot.h:57-70 | relinks the ring so that it holds one snapshot more, at its end |
| Snapshots.SnapshotList.Delete | UIKit/Flash Chat/Pods/leveldb-library/db/snapshot.h:79-86 | takes exactly the one snapshot out, wherever it stands, and leaves a ring in order |
| Snapshots.SnapshotList.Oldest | UIKit/Flash Chat/Pods/leveldb-library/db/snapshot.h:47-50 | a snapshot with the least sequence number of all |
| Snapshots.SmallestSnapshot | UIKit/Flash Chat/Pods/leveldb-library/db/db_impl.cc:890-894 | the least sequence number of a live snapshot, or the last one if there is none |
| FilterBlocks.FilterBlockBuilder.StartBlock | UIKit/Flash Chat/Pods/leveldb-library/table/filter_block.cc:21-27 | opens the group of the block's offset, with empty groups before it |
| FilterBlocks.FilterBlockBuilder.AddKey | UIKit/Flash Chat/Pods/leveldb-library/table/filter_block.cc:29-33 | adds the key to the open group |
| FilterBlocks.FilterBlockBuilder.Finish | UIKit/Flash Chat/Pods/leveldb-library/table/filter_block.cc:35-49 | the filters of all groups, where each begins, where the last ends, and the base |
| FilterBlocks.LookupIs | UIKit/Flash Chat/Pods/leveldb-library/table/filter_block.cc:77-104 | on a finished block a lookup asks exactly the filter of the offset's group, and says yes behind the last one |
| FilterBlocks.OpenGroup | UIKit/Flash Chat/Pods/leveldb-library/table/filter_block.cc:21-24 | with nondecreasing offsets the assertion in StartBlock holds |
| FilterBlocks.NoFalseNegatives | UIKit/Flash Chat/Pods/leveldb-library/table/filter_block.cc:21-104 | a key added while a block was open is never denied at that block's offset, for every run and every policy that accepts its own keys |
| PbEncode.OStream.EncodeVarint | UIKit/Flash Chat/Pods/nanopb/pb_encode.c:608-628 | the bytes gathered in the ten-byte buffer are the base-128 varint, written whole or not at all |
| PbEncode.OStream.EncodeSubmessage | UIKit/Flash Chat/Pods/nanopb/pb_encode.c:717-765 | length and message: it fails only when the stream is full, so a submessage never changes its size |
| PbEncode.OStream.EncodeArray | UIKit/Flash Chat/Pods/nanopb/pb_encode.c:147-236 | one packed field with the size counted beforehand, or one field for each item |
| PbEncode.OStream.CheckProto3Default | UIKit/Flash Chat/Pods/nanopb/pb_encode.c:240-337 | true exactly for fields in which nothing is present |
| PbEncode.OStream.Encode | UIKit/Flash Chat/Pods/nanopb/pb_encode.c:528-550 | a stream takes exactly the message's bytes, or fails because they do not fit, having written a beginning of them |
| PbEncode.GetEncodedSize | UIKit/Flash Chat/Pods/nanopb/pb_encode.c:567-576 | counting with a sizing stream gives the length of the encoding |
| PbEncode.EncodeToBuffer | UIKit/Flash Chat/Pods/nanopb/pb_encode.c:103-124 | sizing pass and writing pass agree: encoding fails exactly when the counted size exceeds the buffer, and never writes more than the buffer holds |
| PbStream.FieldIter.Find | UIKit/Flash Chat/Pods/nanopb/pb_common.c:78-95 | from wherever the iterator stands, once around: stops at the field with the tag, or back where it was when there is none |
| PbStream.FieldIter.CountRequired | UIKit/Flash Chat/Pods/nanopb/pb_decode.c:1042-1060 | the number of required fields, at most 64, by seeking to the end |
| PbStream.AllSeen | UIKit/Flash Chat/Pods/nanopb/pb_decode.c:1062-1073 | comparing whole words and then the remaining bits asks for exactly the required fields |
| PbStream.IStream.DecodeVarint32 | UIKit/Flash Chat/Pods/nanopb/pb_decode.c:187-247 | 32-bit varints with the sign extension and overflow rules of the code |
| PbStream.IStream.MakeStringSubstream | UIKit/Flash Chat/Pods/nanopb/pb_decode.c:372-385 | a substream over exactly the delimited bytes, with the rest of the stream behind it |
| PbStream.IStream.DecodeArray | UIKit/Flash Chat/Pods/nanopb/pb_decode.c:421-459 | packed or item by item, never beyond the array |
| PbStream.IStream.DecodeNoinit | UIKit/Flash Chat/Pods/nanopb/pb_decode.c:928-1076 | the decoding loop with its iterator, bitmap and fixed-count tracking computes the decoded message or fails |
| PbRoundTrip.FromVarint32 | UIKit/Flash Chat/Pods/nanopb/pb_decode.c:187-247 | reading a varint from any position of the bits gives the number that was written |
| PbRoundTrip.NumberIsDecoded | UIKit/Flash Chat/Pods/nanopb/pb_decode.c:1328-1439 | every number of every numeric type is decoded from its encoding, whatever follows it |
| PbRoundTrip.UnknownsAreSkipped | UIKit/Flash Chat/Pods/nanopb/pb_decode.c:321-331 | unknown well-formed fields do not change what is decoded |
| PbMessages.UnionIsPlaced | UIKit/Flash Chat/Pods/nanopb/pb_decode.c:461-475 | decoding a member of a union leaves no other member set |
| PbMessages.PackedAreDecoded | UIKit/Flash Chat/Pods/nanopb/pb_decode.c:421-447 | a packed array is decoded item by item |
| PbMessages.FieldIsDecoded | UIKit/Flash Chat/Pods/nanopb/pb_decode.c:406-483 | one encoded field of any kind takes the decoder from the state after the fields before it to the state after it |
| PbMessages.MessageIsDecoded | UIKit/Flash Chat/Pods/nanopb/pb_decode.c:928-1090 | what an encoded message decodes to, field by field, with unknown fields in between |
| PbMeaning.MessageRoundTrip | UIKit/Flash Chat/Pods/nanopb/pb_encode.c:528-550 | for every schema and every in-bounds message, of any nesting, decoding the encoded bytes succeeds and gives a message that says the same, also with unknown fields before and between the fields |
| PbMeaning.EncodingIsCanonical | UIKit/Flash Chat/Pods/nanopb/pb_encode.c:341-426 | two messages have the same encoding exactly when the same fields are present with the same values |
| PbMeaning.EncodeThenDecode | UIKit/Flash Chat/Pods/nanopb/pb_decode.c:1078-1090 | the encoder into a buffer and the decoder from what it wrote, as code |

## Left out

- User keys are ranks in the comparator's order: the engine compares them only through the user's comparator (`InternalKeys.RanksAgree`). Blocks, logs, batches and internal keys are also modelled as bytes.
- Corrupt internal keys: a key that `ParseInternalKey` rejects does not occur, in the merge loop, in point reads or in the iterator.
- Table files are sorted entry lists: the bits of bloom filters, the index block, caches, compression of blocks and memory mapping are not part of this model, nor is the merging iterator beyond yielding its inputs in order.
- `ShouldStopBefore` and the size limit of output files: the outputs of a compaction may be cut anywhere.
- Scores and seek counts: which level is compacted next is arbitrary, and the size limit in `SetupOtherInputs` is any number.
- A flush into level 1 or 2 beside a running compaction: in the engine's step machine only flushes into level 0 run beside one.
- The numeric limit on sequence numbers: runs stay below 2^56 - 1 operations, as packing a key asserts. At a smallest snapshot of exactly 2^56 - 1 rule (A) would drop every entry.
- I/O errors other than a failed sync of the log: a failing append, table build or manifest write.
- `reuse_logs`, repair, and `paranoid_checks` anywhere but in the replay of a log file.
- CURRENT: that it names the new manifest is one step with writing it, when the database is opened; internal keys in file metadata are related to their bytes by a parameter of the manifest theorems, `View`.
- Bytes in the durability machine: a log record of it is the group it encodes; `BatchLog.TornGroupLog` says that the bytes of a torn log give exactly those groups.
- `MakeRoomForWrite`'s delays and waits: a writer at the head of the queue may wait any number of steps before it leads.
- Partly written table files: a table appears on disk in one step, under a number already given out.
- Memory order: each load and store of a skip-list link is one atomic step.
- LogReader.Reader.ReadPhysicalRecord: does not model an initial offset, a read error of the file, or a file that changes while it is read.
- LogReader.Reader.ReadRecord: does not model resynchronising from an initial offset, or `LastRecordOffset`.
- BlockIter.Iter.ParseNextKey: a delta whose 32-bit length sum wraps is cut off at the end of the block, where the code reads on.
- CRC32C itself: the register step is a parameter of the model, and every theorem holds for every step.
- nanopb callbacks, extension fields, pointer fields and their allocation, `PB_WITHOUT_64BIT`, streams other than buffers, and the layout of structs: a message is a list of slots, one for each field of its schema.
- nanopb descriptors that no generator makes: a field whose data size is not that of its type, or a key with field number zero read by a message type without fields.
- PbStream.IStream.DecodeVarint32: the wrap-around of an 8-bit `bitpos` on varints longer than 36 bytes is not modelled.
- PbMeaning.MessageRoundTrip: each field takes fewer than 2^32 bytes, since lengths are read back as 32-bit numbers.
- The table builder and reader, the LRU cache, the arena, `Env` and the Swift applications.
- Versions.LookUpFinds: does not model the corrupt outcome, since every stored key parses.
- Versions.Search: does not model the charging of seeks to files, or errors from the table cache.
- Compactions.DoCompactionWork: does not model unparsable keys, a shutdown during the loop, or the memtable flush inside it, which is a step of its own in `Engine`.
- VersionBuilder.Builder.Apply: does not model compaction pointers, which `InputSelection` takes as arbitrary.
- Engine.GetAt: reads the current version only; reads that hold an older one are `PinnedReads.PinnedRead`.
- Recovery.RecoverLogFile: takes the parsed groups of a log; the parsing, with and without paranoid checks, is `BatchLog.ReplayFile`.
- Recovery.RecoverLogs: does not model an error of one log ending recovery.
- PbEncode.OStream.Encode: does not model callbacks and extension fields.
- PbStream.FieldIter.Find: does not model the movement of the data pointer, since a message is a list of slots.
- PbStream.IStream.DecodeNoinit: does not model extension fields and callbacks.
