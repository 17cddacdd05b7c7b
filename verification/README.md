# A Dafny model of the storage, event-loop and wire-format libraries that BlindBoard ships with

BlindBoard is an iOS application whose Swift code is user interface and Firebase calls.
The difficult code is in the libraries it vendors: LevelDB (the storage engine below
Firestore), libuv (the event loop of gRPC) and nanopb (protocol buffers).  This project
models the hard parts of those three libraries in Dafny and proves what they promise.
`dafny verify dfyconfig.toml` checks all of it.

## What is modelled

**LevelDB, versions and compaction.** `Keys` has user keys as byte strings, internal keys
and their order; `Version` the levels of table files and `Version::Get`; `Inputs` and
`Selection` the choice of compaction inputs; `Compaction` and `Drop` the merge loop with its
drop rule and the forward-only cursors; `Builder` and `Manifest` the installation of edits
and recovery of the file lists; `CompactionProof` puts these together, and `CompactionRun` is
a whole background compaction, from the choice of inputs through the merging iterator to the
installed version; `Flush` is the memtable's way into a level.  What a reader at a sequence
number sees is `Version.View`, a function of the set of all entries, and the main theorem
says exactly when a compaction leaves it alone.  `SetupOtherInputs` seals only the upper
inputs against boundary files (version_set.cc:1407 and 1422).  So the statement that every
view is kept is false in general: `Boundary.PickedHere` runs the selection on a tree where it
picks inputs whose compaction brings a deleted key back (`Boundary.HypothesisIsNeeded`),
`CompactionProof.ViewsKeptExactly` is the exact condition, and
`CompactionProof.ViewsKeptWhenClosed` follows under the hypothesis that no file left at the
lower level holds an older entry for a user key of the inputs.

`FlushRace` and `FlushReads` are about a memtable flushed while a compaction runs
(db_impl.cc:907-918).  The version stays well-formed, and every search of the level that got
the flushed file gives the right answer, if and only if no output lies across that file.  If
one does, `FlushReads.WrongAnswers` says for which keys the answer is wrong and
`FlushReads.ReadsAcross` what a read then returns: the flushed file is never found, and where
the binary search looks at it before the output around it, keys of that output behind the
flushed file are missed too.  An output can lie across a flushed file only if the inputs
leave a gap between them.  The inputs of `PickCompaction` leave none, so an automatic
compaction never loses a flush (`FlushReads.NoGapNoLoss`); a manual one takes whatever meets
the range asked for, and `FlushLoss` runs `CompactRange` on a tree where it picks inputs with a
gap and a flush falls into it, with both kinds of loss.

`VersionSets` is the version set with its manifest as bytes: `LogAndApply` records every
change, and whatever prefix of the file a crash leaves, recovery brings back files, compaction
pointers and counters of the last whole record, exactly, if there is one behind the snapshot.
`ManifestExact` says when replaying all edits in one builder, as recovery does, gives the
files that were live: when no file comes back under a number used twice.  `FileNumbers` proves
that the numbers of `NewFileNumber`, used once each or moved with their file, see to that.

**LevelDB, read path.** `DBIter` is the user-level iterator over a sorted stream of entries,
with its direction switches; `Merging` and `MergingUnion` the merging iterator below it;
`BlockFormat`, `BlockIters` and `BlockRoundTrip` the bytes of a block, with prefix
compression and restart points; `Separator`, `Bloom`, `FilterBlock` and `Tables` the
shortened index keys and the filters of a table; `TableBlocks` and `TableFormat` its blocks,
handles, trailers and footer as bytes.  `TableBuilders` writes the bytes of a table file,
`TableFiles` opens them and looks keys up in them.

**LevelDB, memory and write path.** `SkipList` is the skip list, as a step relation whose
steps are single loads and stores, and as a class whose `Insert` goes through those steps.
`Rings`, `HandleTables`, `CacheModel`, `Cache` and `CacheRuns` are the LRU cache: the lists in
memory, the hash table, the operations on values with their invariant, the class that
refines them, and any sequence of calls a client can make.  `CacheHistory` says in terms of
the calls alone who holds what, where the table leads, and what is evicted first.  `GroupCommit` and `GroupCommitProof` are
`DBImpl::Write` as a queue protocol; `WriteBatches` and `VersionEdits` are batches and edits
as bytes; `LogFormat`, `LogReader` and `LogRoundTrip` are the record log.

**libuv.** `Heap` is the heap whose nodes are found by the bits of their index, `Timers` its
client, and `TimerRuns` what a run of due timers comes to when their callbacks call back into
the loop; `ThreadPool` and `ThreadPoolProof` are the worker pool with its slow-work queue and
cancellation as a state machine, and `ThreadPoolOrder` says in which order it takes up work
and that enough workers are woken for it; `Idna` is the Punycode encoder and `Punycode` the
decoder of section 6.2 and the bias adaptation of section 6.1 of RFC 3492, written from the RFC.

**nanopb.** `PbTypes` has descriptors, messages and the bytes they stand for, `PbEncode` the
encoder with its sizing and writing passes, `PbDecode` and `PbMessages` the decoder.
`PbWire` says what a list of fields on the wire means: fields may come in any order and more
than once, arrays grow, submessages merge, unknown fields are skipped; `PbLaws` has the laws
of fields that occur more than once, or not at all.  `PbItems` and `PbCanon` say what that makes of the bytes of a message, and `PbRoundTrip` puts encoder and
decoder together.

`Coding`, `Slices` and `Seqs` are shared: numbers as bytes, and sequences as lists.
`Formats` gives the bytes of a record of every format, number by number.

Code that updates objects is modelled by classes (the iterators, builders, readers and
writers, the compaction cursors, the timers, the cache).  The protocols are step relations,
and their theorems are about every state of every run.

## Where code and documentation differ

- `VersionEdit::Clear` (version_edit.cc:26-39) leaves the compaction pointers, so `DecodeFrom`
  undoes `EncodeTo` exactly when the edit that is decoded into has none
  (`VersionEdits.EncodeThenDecode`).
- The comment on `restart_index_` (block.cc:85) says that it is the restart block in which the
  current entry falls.  The code leaves it one behind exactly when the current entry is the
  restart point that follows (`BlockIters.BlockIter.RestartIndexLags`), and does so in every
  block with a second restart point (`BlockRoundTrip.LagsBehind`).

## Model

| member | source | states |
|---|---|---|
| Keys.Less | BlindBoard/Pods/leveldb-library/util/comparator.cc:25-27 | the byte-wise comparator is an order embedding: a < b exactly when the rank of a, a real number, is below that of b |
| Keys.CompareIsRank | BlindBoard/Pods/leveldb-library/util/comparator.cc:25-27 | from any position on, the sign of the comparison is that of the ranks, and equal ranks mean equal suffixes |
| Keys.ITotal | BlindBoard/Pods/leveldb-library/db/dbformat.cc:51-67 | internal keys are totally ordered: user keys ascending, then tags descending, and no two different keys compare equal |
| Version.FindFile | BlindBoard/Pods/leveldb-library/db/version_set.cc:88-106 | in a sorted level, splits the files into those whose largest key is before the key and those where it is not |
| Version.LookupIsNewest | BlindBoard/Pods/leveldb-library/db/version_set.cc:263-276 | the first entry of a table at or after the lookup key is the newest visible one for the user key, and there is none exactly when nothing is visible |
| Version.ZeroCandidates | BlindBoard/Pods/leveldb-library/db/version_set.cc:349-364 | the level-0 files searched are newest first, and every other file holds nothing visible for the key |
| Version.DeepCandidates | BlindBoard/Pods/leveldb-library/db/version_set.cc:365-382 | below level 0 the single file that binary search leaves is the only one that can hold the newest visible entry |
| Version.SearchLevel | BlindBoard/Pods/leveldb-library/db/version_set.cc:384-417 | the first hit among the candidates of a level is the newest visible entry of that whole level |
| Version.Get | BlindBoard/Pods/leveldb-library/db/version_set.cc:326-421 | the first hit, level by level, is what the globally newest entry with sequence at most the snapshot says, for every well-formed version |
| Version.AnswerIsView | BlindBoard/Pods/leveldb-library/db/version_set.cc:326-421 | the hit of the first level that has one decides: it is the newest entry of the whole version |
| Version.NewestFirst | BlindBoard/Pods/leveldb-library/db/version_set.cc:278-280 | the sort keeps the files and puts larger numbers first |
| Drop.DropKeepsView | BlindBoard/Pods/leveldb-library/db/db_impl.cc:930-963 | removing only entries hidden by newer ones at or below the smallest snapshot, or deletion markers with nothing older left, changes no view at or above that snapshot |
| Drop.DroppedIsHiddenOrLast | BlindBoard/Pods/leveldb-library/db/db_impl.cc:930-963 | what the drop rule drops is hidden in that sense, or is such a marker and takes every older input entry of its key with it |
| Drop.DroppedExactly | BlindBoard/Pods/leveldb-library/db/db_impl.cc:930-963 | an input entry is dropped if and only if a newer one for its user key at or below the smallest snapshot is in the input, or it is a deletion marker at or below it whose user key no deeper file covers |
| Compaction.Compaction.constructor | BlindBoard/Pods/leveldb-library/db/version_set.cc:1497-1507 | a new compaction has read nothing and its cursors stand at the first file of each level |
| Compaction.Compaction.IsBaseLevelForKey | BlindBoard/Pods/leveldb-library/db/version_set.cc:1533-1552 | the forward-only cursors give the same answer as a scan of all deeper levels, as long as keys do not decrease |
| Compaction.Compaction.ReadyForLater | BlindBoard/Pods/leveldb-library/db/version_set.cc:1533-1552 | cursors that may be asked about a key may be asked about every later one |
| Compaction.Compaction.ShouldStopBefore | BlindBoard/Pods/leveldb-library/db/version_set.cc:1554-1576 | passes exactly the grandparent files that end before the key, counts their bytes, and stops when the overlap since the last stop exceeds the limit |
| Compaction.Decide | BlindBoard/Pods/leveldb-library/db/db_impl.cc:930-963 | one turn of the loop drops the entry exactly when the rule, stated over the whole input, does |
| Compaction.DoCompactionWork | BlindBoard/Pods/leveldb-library/db/db_impl.cc:878-1036 | the outputs together are exactly the entries kept by the drop rule, in order, in non-overlapping files with consecutive numbers; behind every output but the last there is a reason to cut, its size or the grandparents passed, and there is none within an output |
| Compaction.OverlapIsBounded | BlindBoard/Pods/leveldb-library/db/version_set.cc:1554-1576 | so no more than the limit of grandparent bytes end between the first and the last key of an output |
| Compaction.FinishCompactionOutputFile | BlindBoard/Pods/leveldb-library/db/db_impl.cc:811-858 | closing an output keeps the outputs sorted and disjoint and holding what was kept so far |
| Inputs.GetOverlappingInputs | BlindBoard/Pods/leveldb-library/db/version_set.cc:519-559 | terminates, and returns exactly the files that meet the final range; at level 0 that range is the least one containing the request that no file sticks out of (the transitive closure of overlaps), and there is no gap in it that the request does not fill |
| Inputs.WiderSticksLess | BlindBoard/Pods/leveldb-library/db/version_set.cc:539-556 | each restart of the scan has fewer files sticking out of the range, which is why it ends |
| Inputs.FindLargestKey | BlindBoard/Pods/leveldb-library/db/version_set.cc:1326-1340 | returns a largest key of the files, and nothing exactly for no files |
| Inputs.FindSmallestBoundaryFile | BlindBoard/Pods/leveldb-library/db/version_set.cc:1344-1362 | returns a file that continues the user key of the given key with older entries, with the smallest key among those, if there is one |
| Inputs.AddBoundaryInputs | BlindBoard/Pods/leveldb-library/db/version_set.cc:1378-1401 | extends the inputs by a chain of boundary files, after which no file of the level continues the largest key; a contiguous selection stays contiguous, and the files are added in the order of the level |
| Selection.GetRange | BlindBoard/Pods/leveldb-library/db/version_set.cc:1205-1224 | the two keys are of the files and bound all of them |
| Selection.Seal | BlindBoard/Pods/leveldb-library/db/version_set.cc:1378-1401 | a selection of the kind compaction needs stays one when boundary files are added, and is then sealed |
| Selection.NextFile | BlindBoard/Pods/leveldb-library/db/version_set.cc:1284-1296 | the first file of the level that ends behind the compaction pointer, and the first of all if none does |
| Selection.SelectionLeavesNewer | BlindBoard/Pods/leveldb-library/db/version_set.cc:1364-1401 | after sealing, no file left in the upper level holds an older entry for a user key of the selection |
| Selection.MeetingIsRun | BlindBoard/Pods/leveldb-library/db/version_set.cc:519-559 | in a sorted level every overlap result, also one cut off by size, is contiguous |
| Selection.SetupOtherInputs | BlindBoard/Pods/leveldb-library/db/version_set.cc:1403-1462 | exactly the given upper files with their boundary files and the lower files that meet their range; more upper files, those that meet the range of both, are taken if and only if there are more, the bytes stay below the limit and the lower files are as many as before; the grandparents are the files that meet the range of both; inputs without a gap between their ranges stay so |
| Selection.PickCompaction | BlindBoard/Pods/leveldb-library/db/version_set.cc:1270-1322 | picks by size first, then by seeks, nothing exactly when neither asks for it; starts from the file after the compaction pointer, or from the file sought too often, in level 0 with all files that overlap it; a good choice of inputs, whose ranges leave no gap between them |
| Selection.CompactRange | BlindBoard/Pods/leveldb-library/db/version_set.cc:1464-1495 | starts from the files that meet the range, below level 0 up to the one that reaches the size limit, in level 0 with all that overlap them; a good choice of inputs; nothing is picked exactly when no file meets the range |
| Selection.Grandparents | BlindBoard/Pods/leveldb-library/db/version_set.cc:1449-1455 | the grandparents are the files two levels down that meet the range of all inputs |
| CompactionProof.StaysWellFormed | BlindBoard/Pods/leveldb-library/db/db_impl.cc:860-876 | replacing inputs by outputs keeps every invariant: shallower is newer, levels below 0 sorted and disjoint, file numbers distinct |
| CompactionProof.OnlyDroppedAreGone | BlindBoard/Pods/leveldb-library/db/db_impl.cc:878-1036 | a compaction invents no entry, and every entry that disappears is an input entry that the rule drops |
| CompactionProof.DroppedIsGone | BlindBoard/Pods/leveldb-library/db/db_impl.cc:930-963 | no dropped entry survives anywhere in the new version |
| CompactionProof.ViewIsKept | BlindBoard/Pods/leveldb-library/db/db_impl.cc:930-963 | a user key that no leftover lower file resurrects reads the same, at every sequence at or above the smallest snapshot |
| CompactionProof.ResurrectionShows | BlindBoard/Pods/leveldb-library/db/version_set.cc:1403-1424 | a resurrected key was deleted at the smallest snapshot before and has a value afterwards |
| CompactionProof.ViewsKeptExactly | BlindBoard/Pods/leveldb-library/db/version_set.cc:1403-1424 | every view at or above the smallest snapshot is kept if and only if no user key is resurrected: its newest entry is a deletion marker in a compacted lower file with an older value right after it in a lower file that is left alone |
| CompactionProof.ViewsKeptWhenClosed | BlindBoard/Pods/leveldb-library/db/db_impl.cc:878-1036 | if no lower file left alone is older than a lower input for a shared user key, every view is kept |
| CompactionProof.EntriesAreUnique | BlindBoard/Pods/leveldb-library/db/version_set.cc:326-421 | in a well-formed version no two entries share user key and sequence number |
| CompactionProof.AddInputDeletions | BlindBoard/Pods/leveldb-library/db/version_set.cc:1525-1531 | the edit deletes exactly the inputs, by level and number |
| CompactionProof.DeletionsHitInputs | BlindBoard/Pods/leveldb-library/db/db_impl.cc:860-876 | deleting by number removes exactly the input files of a well-formed version |
| CompactionProof.EditInstalls | BlindBoard/Pods/leveldb-library/db/db_impl.cc:860-876 | applying that edit gives, level by level, the old files without the inputs and with the outputs, in order |
| CompactionProof.InstallCompactionResults | BlindBoard/Pods/leveldb-library/db/db_impl.cc:860-876 | the installed version is the replacement of inputs by outputs |
| CompactionRun.ReadInputs | BlindBoard/Pods/leveldb-library/db/version_set.cc:1237-1268 | the iterators over the inputs, one for each file of level 0 and one in all for a deeper level, can always be merged, and give exactly the input entries in order |
| CompactionRun.Compact | BlindBoard/Pods/leveldb-library/db/db_impl.cc:878-1036 | a whole compaction, from the input files to the installed version: the inputs are replaced by files that hold exactly what is kept of their entries, the invariants hold again, and the views are kept if and only if no key is resurrected |
| CompactionRun.BackgroundCompaction | BlindBoard/Pods/leveldb-library/db/db_impl.cc:688-745 | the same for the inputs that PickCompaction selects, which leave no gap: a single file is moved if nothing below overlaps it and its grandparents are small enough, and all else is compacted; without any inputs the version stays as it is |
| CompactionProof.TrivialMove | BlindBoard/Pods/leveldb-library/db/db_impl.cc:716-735 | the file leaves its level for the next one, every other file is where it was, and the invariants and all entries are kept |
| Boundary.PickedHere | BlindBoard/Pods/leveldb-library/db/version_set.cc:1403-1462 | on a concrete tree, SetupOtherInputs picks exactly the inputs of the next row |
| Boundary.HypothesisIsNeeded | BlindBoard/Pods/leveldb-library/db/version_set.cc:1403-1424 | that tree is a well-formed version, and the compaction of those inputs brings a deleted key back |
| Flush.SomeFileOverlapsRange | BlindBoard/Pods/leveldb-library/db/version_set.cc:108-157 | answers exactly whether some file meets the range, in sorted levels from one binary search |
| Flush.PickLevelForMemTableOutput | BlindBoard/Pods/leveldb-library/db/version_set.cc:491-516 | level 0 exactly if a file there meets the range, and otherwise the deepest level up to 2 that is reached without meeting a file or too many bytes below |
| Flush.FlushKeeps | BlindBoard/Pods/leveldb-library/db/db_impl.cc:491-533 | a new newest table in the chosen level keeps every invariant of the version and adds exactly its entries |
| Flush.AddedKeeps | BlindBoard/Pods/leveldb-library/db/db_impl.cc:491-533 | the same at any level where the file fits: apart from the files there, and sharing no user key with those above |
| Flush.CompactMemTable | BlindBoard/Pods/leveldb-library/db/db_impl.cc:535-566 | the memtable becomes a file with the given number and size, at the level chosen for it, with all other files where they were; the version afterwards is well-formed and holds exactly the entries of version and memtable, so every read is as before; an empty memtable changes nothing |
| FlushRace.FlushDuringCompaction | BlindBoard/Pods/leveldb-library/db/db_impl.cc:907-918 | with a memtable flushed during a compaction the version is well-formed afterwards if and only if no output lies across the flushed file in the same level |
| FlushRace.RaceLosesNoEntry | BlindBoard/Pods/leveldb-library/db/db_impl.cc:907-918 | the entries then held still say at every sequence what version and memtable said, for every user key that the compaction does not resurrect |
| FlushRace.RaceKeepsViews | BlindBoard/Pods/leveldb-library/db/db_impl.cc:907-918 | adding the same newer entries to two sets with equal views gives equal views |
| FlushReads.SearchRightIfNoneAcross | BlindBoard/Pods/leveldb-library/db/db_impl.cc:907-918 | every search of the level that got the flushed file gives the newest visible entry of that level if and only if no output lies across the file |
| FlushReads.WrongAnswers | BlindBoard/Pods/leveldb-library/db/version_set.cc:365-382 | key by key, when a file lies within another: the answer is wrong exactly if the inner file holds a visible entry of the key, or the search passes the outer file over, which it does only if it looks at the inner one first, and the outer one holds such an entry |
| FlushReads.ReadsAcross | BlindBoard/Pods/leveldb-library/db/version_set.cc:326-421 | what Get then returns: the view without the flushed file, and without the output around it where the search passes that over |
| FlushReads.ReadsBeside | BlindBoard/Pods/leveldb-library/db/version_set.cc:326-421 | if no output lies across the flushed file, Get returns the view of all entries |
| FlushReads.NoGapNoneAcross | BlindBoard/Pods/leveldb-library/db/db_impl.cc:907-918 | inputs whose ranges leave no gap have no output across a file that is flushed meanwhile |
| FlushReads.NoGapNoLoss | BlindBoard/Pods/leveldb-library/db/db_impl.cc:907-918 | so with such inputs, as those of every automatic compaction, the version is well-formed after both and Get returns the view of all entries, for every key and sequence |
| FlushLoss.PickedHere | BlindBoard/Pods/leveldb-library/db/version_set.cc:1464-1495 | on a concrete tree, a manual compaction of the whole of level 1 picks exactly the inputs of the next row |
| FlushLoss.KeysAreLost | BlindBoard/Pods/leveldb-library/db/db_impl.cc:907-918 | those inputs and a flush into the gap between them, each satisfying its conditions: the version afterwards holds a key just written and a key written long before, and Get finds neither |
| FlushLoss.GetLost | BlindBoard/Pods/leveldb-library/db/version_set.cc:326-421 | Get at work on that version |
| Builder.Insert | BlindBoard/Pods/leveldb-library/db/version_set.cc:590-607 | inserting into the ordered file set keeps the order, and keeps an element that is already there |
| Builder.SameFilesSameLevel | BlindBoard/Pods/leveldb-library/db/version_set.cc:590-607 | a level in BySmallestKey order is determined by which files it holds |
| Builder.Builder.Apply | BlindBoard/Pods/leveldb-library/db/version_set.cc:650-692 | deletions first, then additions, which lift deletions of the same number, level by level |
| Builder.SaveLevel | BlindBoard/Pods/leveldb-library/db/version_set.cc:695-754 | the merge of base and added files is exactly the files that are not deleted, in order if base and added files are apart |
| Builder.Builder.SaveTo | BlindBoard/Pods/leveldb-library/db/version_set.cc:695-754 | the same for every level |
| Manifest.ReplayEqualsHistory | BlindBoard/Pods/leveldb-library/db/version_set.cc:933-998 | one builder for all edits gives, level by level, the same ordered file list as one builder per edit, if no file number is added again to a level it was in |
| ManifestExact.ReplayIsExactly | BlindBoard/Pods/leveldb-library/db/version_set.cc:933-998 | one builder for all edits gives the level as it was if and only if no file comes back: one that was dropped by its number, which was then added again for another file |
| ManifestExact.OneFileForANumber | BlindBoard/Pods/leveldb-library/db/version_set.cc:933-998 | where a number always names the same file, none does |
| ManifestExact.ReuseBringsBack | BlindBoard/Pods/leveldb-library/db/version_set.cc:590-692 | three edits that reuse a number and bring a deleted file back |
| Manifest.WriteSnapshot | BlindBoard/Pods/leveldb-library/db/version_set.cc:1088-1116 | the snapshot record adds exactly the files of every level |
| Manifest.SnapshotRestores | BlindBoard/Pods/leveldb-library/db/version_set.cc:1088-1116 | applying the snapshot record to nothing restores the version it was written from |
| Manifest.RecoveryIsExact | BlindBoard/Pods/leveldb-library/db/version_set.cc:886-1011 | recovery from a snapshot record and all later edits gives the live file lists |
| Manifest.Recover | BlindBoard/Pods/leveldb-library/db/version_set.cc:933-998 | every record goes through the same builder |
| Manifest.LogAndApply | BlindBoard/Pods/leveldb-library/db/version_set.cc:801-884 | one edit applied to the current version by a builder of its own |
| VersionSets.VersionSet.LogAndApply | BlindBoard/Pods/leveldb-library/db/version_set.cc:777-884 | the edit is completed with the counters, makes the next version and pointers, uses up the numbers of its files, and its record is the next one in the manifest, which begins with a snapshot if it is new |
| VersionSets.Recover | BlindBoard/Pods/leveldb-library/db/version_set.cc:886-1011 | from any byte prefix of a manifest: exactly the edits whose records are whole are taken over, and it fails exactly if they leave log, next-file or sequence number open |
| VersionSets.VersionSet.CrashAndRecover | BlindBoard/Pods/leveldb-library/db/version_set.cc:886-1011 | after any LogAndApply calls and a crash that cuts the manifest anywhere: counters, pointers and, level by level, exactly the files after the last whole edit are back, unless the snapshot alone is whole |
| VersionSets.VersionSet.Reopen | BlindBoard/Pods/leveldb-library/db/version_set.cc:886-1011 | with the whole manifest, exactly the present files and pointers are back, and it fails only if there is no edit behind the snapshot |
| VersionSets.VersionSet.Restart | BlindBoard/Pods/leveldb-library/db/version_set.cc:886-1011 | what is recovered after a crash is a version set that can go on, with those files and the next number; it fails exactly if the snapshot alone is whole or the numbers are used up |
| VersionSets.RecoveredIsLive | BlindBoard/Pods/leveldb-library/db/version_set.cc:933-998 | the recovered files of a level are the live ones if and only if no file comes back under a number used twice |
| VersionSets.VersionSet.NewFileNumber | BlindBoard/Pods/leveldb-library/db/version_set.h:194 | hands out a number that no file has or had in this manifest and that is not out already |
| VersionSets.VersionSet.ReuseFileNumber | BlindBoard/Pods/leveldb-library/db/version_set.h:199-203 | takes back a number that was handed out and not used; if it was the last one it is the next again |
| VersionSets.VersionSet.MarkFileNumberUsed | BlindBoard/Pods/leveldb-library/db/version_set.cc:1044-1048 | passes over the number, and the numbers in use stay in order |
| FileNumbers.NumberingKept | BlindBoard/Pods/leveldb-library/db/version_set.cc:777-884 | if every file that an edit adds has a number handed out for it, or is moved from another level, each number still names one file in one level, below the next number |
| FileNumbers.CompactionIsProper | BlindBoard/Pods/leveldb-library/db/db_impl.cc:782-876 | the edit of a compaction whose outputs have numbers handed out for them is such an edit |
| FileNumbers.MoveIsProper | BlindBoard/Pods/leveldb-library/db/db_impl.cc:716-735 | so is that of a trivial move |
| FileNumbers.NumberedReplays | BlindBoard/Pods/leveldb-library/db/version_set.cc:933-998 | with such numbers no file ever comes back when the edits are replayed |
| VersionSets.SnapshotLives | BlindBoard/Pods/leveldb-library/db/version_set.cc:1088-1116 | a manifest that holds a snapshot restores the version and the compaction pointers it was written from |
| VersionSets.WriteSnapshot | BlindBoard/Pods/leveldb-library/db/version_set.cc:1088-1116 | the record has comparator name, compaction pointers and all files |
| VersionEdits.VersionEdit.EncodeTo | BlindBoard/Pods/leveldb-library/db/version_edit.cc:41-85 | appends the records of the edit in their order, each as its tag and fields |
| VersionEdits.VersionEdit.DecodeFrom | BlindBoard/Pods/leveldb-library/db/version_edit.cc:107-205 | of bytes that are records, applies all of them to the cleared edit, and fails exactly when one names a level that does not exist |
| VersionEdits.RecordsMakeTheEdit | BlindBoard/Pods/leveldb-library/db/version_edit.cc:41-205 | applying the records of an edit to a cleared one gives the edit, after the compaction pointers that were left |
| VersionEdits.EncodeThenDecode | BlindBoard/Pods/leveldb-library/db/version_edit.cc:26-205 | decoding undoes encoding if and only if all levels exist and the edit decoded into had no compaction pointers |
| VersionEdits.VersionEdit.Clear | BlindBoard/Pods/leveldb-library/db/version_edit.cc:26-39 | clears everything but the compaction pointers |
| DBIter.LiveListAscends | BlindBoard/Pods/leveldb-library/db/db_iter.cc:141-299 | the list of live entries has each user key at most once, in order |
| DBIter.LiveListIsView | BlindBoard/Pods/leveldb-library/db/db_iter.cc:141-299 | a user key is in that list with a value exactly when a snapshot read returns the value |
| DBIter.DBIter.FindNextUserEntry | BlindBoard/Pods/leveldb-library/db/db_iter.cc:168-198 | stops at the first live entry from the given place on, or is invalid if there is none |
| DBIter.DBIter.FindPrevUserEntry | BlindBoard/Pods/leveldb-library/db/db_iter.cc:227-267 | stops behind the last live entry below the given place, or is invalid if there is none |
| DBIter.DBIter.Next | BlindBoard/Pods/leveldb-library/db/db_iter.cc:141-166 | one element further in the list of live entries, from either direction |
| DBIter.DBIter.Prev | BlindBoard/Pods/leveldb-library/db/db_iter.cc:200-225 | one element back in the list of live entries, from either direction |
| DBIter.DBIter.Seek | BlindBoard/Pods/leveldb-library/db/db_iter.cc:269-281 | on the first live entry whose user key is at or after the target |
| DBIter.DBIter.SeekToFirst | BlindBoard/Pods/leveldb-library/db/db_iter.cc:283-292 | on the first live entry |
| DBIter.DBIter.SeekToLast | BlindBoard/Pods/leveldb-library/db/db_iter.cc:294-299 | on the last live entry |
| DBIter.DBIter.KeyValue | BlindBoard/Pods/leveldb-library/db/db_iter.cc:63-70 | key and value are those of the live entry stood on, whichever the direction |
| Merging.MergingIterator.FindSmallest | BlindBoard/Pods/leveldb-library/table/merger.cc:148-162 | when every child is at its first element from a place of the sorted union on, picks the child that owns that place |
| Merging.MergingIterator.FindLargest | BlindBoard/Pods/leveldb-library/table/merger.cc:164-176 | when every child is at its last element below a place, picks the child that owns the one before it |
| Merging.MergingIterator.SeekToFirst | BlindBoard/Pods/leveldb-library/table/merger.cc:31-37 | on the first element of the sorted union |
| Merging.MergingIterator.SeekToLast | BlindBoard/Pods/leveldb-library/table/merger.cc:39-45 | on the last element of the sorted union |
| Merging.MergingIterator.Seek | BlindBoard/Pods/leveldb-library/table/merger.cc:47-53 | on the first element of the sorted union at or after the target |
| Merging.MergingIterator.Next | BlindBoard/Pods/leveldb-library/table/merger.cc:55-79 | one element further in the sorted union, also right after moving backwards |
| Merging.MergingIterator.Prev | BlindBoard/Pods/leveldb-library/table/merger.cc:81-108 | one element back in the sorted union, also right after moving forwards |
| Merging.MergingIterator.KeyValue | BlindBoard/Pods/leveldb-library/table/merger.cc:110-118 | key and value are those of that element of the union |
| Merging.AtItsPlace | BlindBoard/Pods/leveldb-library/table/merger.cc:148-176 | a child positioned around a place of the union that it owns stands exactly there |
| MergingUnion.UnionExists | BlindBoard/Pods/leveldb-library/table/merger.cc:16-25 | any sorted lists that share no key have a sorted union of this kind |
| MergingUnion.NewMergingIterator | BlindBoard/Pods/leveldb-library/table/merger.cc:179-189 | so the iterator can be made for any such children |
| BlockFormat.BlockBuilder.Add | BlindBoard/Pods/leveldb-library/table/block_builder.cc:72-106 | the buffer is laid out as entries that share prefixes with their predecessors, restart points come at the interval and share nothing, and one more entry is in it |
| BlockFormat.BlockBuilder.SharedPrefix | BlindBoard/Pods/leveldb-library/table/block_builder.cc:78-84 | the longest prefix that the key shares with the last one |
| BlockFormat.BlockBuilder.Finish | BlindBoard/Pods/leveldb-library/table/block_builder.cc:62-70 | the block is the buffer followed by the restart offsets and their number |
| BlockIters.DecodeEntry | BlindBoard/Pods/leveldb-library/table/block.cc:54-74 | reads back the three lengths of an encoded entry, in one byte each or as varints, and the bytes after them |
| BlockIters.BlockReads | BlindBoard/Pods/leveldb-library/table/block.cc:19-39 | the trailer of a finished block gives back where the entries end and every restart point |
| BlockIters.BlockIter.ParseNextKey | BlindBoard/Pods/leveldb-library/table/block.cc:224-251 | steps onto the next entry with its whole key and value, or off the end, and reports no corruption in a block that was built |
| BlockIters.BlockIter.Seek | BlindBoard/Pods/leveldb-library/table/block.cc:163-201 | for any order in which the keys ascend: on the first entry at or after the target, scanning no more than the restart block that binary search selects |
| BlockIters.BlockIter.Next | BlindBoard/Pods/leveldb-library/table/block.cc:137-140 | on the next entry, or off the end after the last |
| BlockIters.BlockIter.RestartIndexLags | BlindBoard/Pods/leveldb-library/table/block.cc:79-125 | restart_index_ is one behind the restart block of the current entry exactly when the entry is the restart point that follows |
| BlockIters.BlockIter.Prev | BlindBoard/Pods/leveldb-library/table/block.cc:142-161 | on the entry before, or invalid before the first |
| BlockIters.BlockIter.SeekToFirst | BlindBoard/Pods/leveldb-library/table/block.cc:203-206 | on the first entry, if there is one |
| BlockIters.BlockIter.SeekToLast | BlindBoard/Pods/leveldb-library/table/block.cc:208-213 | on the last entry, if there is one |
| BlockRoundTrip.RoundTrip | BlindBoard/Pods/leveldb-library/table/block_builder.cc:62-106 | for every restart interval, iterating a built block forwards, or backwards, gives exactly the pairs that were added |
| BlockRoundTrip.LagsBehind | BlindBoard/Pods/leveldb-library/table/block.cc:137-140 | in any block with a second restart point, restart_index_ is one behind when Next has come to it |
| BlockRoundTrip.BuildAndSeek | BlindBoard/Pods/leveldb-library/table/block.cc:163-201 | seeking in a built block finds the first of the added pairs at or after the target |
| Slices.GetVarint32 | BlindBoard/Pods/leveldb-library/util/coding.cc:112-140 | reads back any encoded 32-bit number and leaves the rest |
| Slices.GetVarint64 | BlindBoard/Pods/leveldb-library/util/coding.cc:142-169 | reads back any encoded 64-bit number and leaves the rest |
| Slices.PutVarint32 | BlindBoard/Pods/leveldb-library/util/coding.cc:47-79 | each of the five unrolled branches writes the base-128 digits of the number |
| Slices.PutVarint64 | BlindBoard/Pods/leveldb-library/util/coding.cc:81-96 | writes the base-128 digits of the number |
| Slices.GetLengthPrefixedSlice | BlindBoard/Pods/leveldb-library/util/coding.cc:181-190 | reads back any length-prefixed string and leaves the rest |
| Coding.FromLittleEndian | BlindBoard/Pods/leveldb-library/util/coding.cc:9-45 | reading a fixed-width number back gives the number |
| Formats.VarintIs | BlindBoard/Pods/leveldb-library/util/coding.cc:47-96 | a varint has seven bits a byte, the least significant first, with the high bit in all but the last byte, and no byte too many |
| Formats.WordIs | BlindBoard/Pods/leveldb-library/util/coding.cc:9-45 | a word has its least significant byte first |
| Formats.WrittenAsRead | BlindBoard/Pods/leveldb-library/util/coding.cc:9-45 | what is read from any bytes is written as these bytes |
| Formats.EditRecordsAre | BlindBoard/Pods/leveldb-library/db/version_edit.cc:14-24 | the bytes of the records with a name, a compaction pointer and a deleted file |
| Formats.AddedRecordIs | BlindBoard/Pods/leveldb-library/db/version_edit.cc:75-83 | the bytes of the record with a new file |
| Formats.EditIs | BlindBoard/Pods/leveldb-library/db/version_edit.cc:41-80 | the order of the records, and the tags of the numbers |
| Formats.BatchIs | BlindBoard/Pods/leveldb-library/db/write_batch.cc:98-109 | the bytes of a put and a deletion |
| Formats.KeyIs | BlindBoard/Pods/leveldb-library/db/dbformat.cc:14-23 | an internal key is the user key, the kind and the seven bytes of the sequence number |
| Formats.EntryIs | BlindBoard/Pods/leveldb-library/table/block_builder.cc:92-99 | the bytes of a block entry |
| Formats.BlockIs | BlindBoard/Pods/leveldb-library/table/table_builder.cc:177-196 | a block is followed by a zero and the checksum of both |
| Formats.FooterIs | BlindBoard/Pods/leveldb-library/table/format.cc:31-40 | the footer has 48 bytes, with the handles first and the eight bytes of the magic number last |
| Formats.LogIs | BlindBoard/Pods/leveldb-library/db/log_writer.cc:34-109 | the bytes of a record that fits into the first block of a log |
| Formats.FirstPartIs | BlindBoard/Pods/leveldb-library/db/log_writer.cc:34-109 | the bytes of the first fragment of one that does not |
| Formats.NumberFieldIs | BlindBoard/Pods/nanopb/pb_encode.c:769-833 | the bytes of bool, unsigned, signed and zig-zag fields |
| Formats.NegativeFieldIs | BlindBoard/Pods/nanopb/pb_encode.c:608-628 | a negative number takes ten bytes |
| Formats.FixedFieldIs | BlindBoard/Pods/nanopb/pb_encode.c:641-667 | the bytes of fixed-width fields |
| Formats.BytesFieldIs | BlindBoard/Pods/nanopb/pb_encode.c:852-871 | the bytes of a field with bytes, and of a packed array |
| Formats.NothingIsWritten | BlindBoard/Pods/nanopb/pb_encode.c:240-375 | absent fields, empty arrays and zeros of proto3 are not written, and zeros of required fields are |
| Formats.PunycodeIs | BlindBoard/Pods/Libuv-gRPC/src/idna.c:102-246 | the decoder that the encoder is proved against decodes a known name of three characters |
| Separator.FindShortestSeparator | BlindBoard/Pods/leveldb-library/util/comparator.cc:29-50 | the result is the start, exactly when the first differing byte cannot be incremented and stay below the limit, or else strictly between start and limit and no longer than the start |
| Separator.FindShortSuccessor | BlindBoard/Pods/leveldb-library/util/comparator.cc:52-64 | the result is the key, exactly when all its bytes are 0xFF, or else strictly after it and no longer |
| Separator.InternalSeparator | BlindBoard/Pods/leveldb-library/db/dbformat.cc:69-86 | unchanged, or a shorter user key strictly between with the number that sorts first |
| Separator.InternalSuccessor | BlindBoard/Pods/leveldb-library/db/dbformat.cc:88-101 | unchanged, or a shorter and later user key with the number that sorts first |
| Separator.SeparatorIsBetween | BlindBoard/Pods/leveldb-library/db/dbformat.cc:69-86 | the separator is at or after the start and before the limit |
| Separator.NothingBeyond | BlindBoard/Pods/leveldb-library/db/dbformat.cc:69-86 | a lookup key that falls between the last key of a block and its separator has no entry of its user key in any later block |
| Bloom.SetBit | BlindBoard/Pods/leveldb-library/util/bloom.cc:41-52 | setting a bit changes no other bit |
| Bloom.RotatedBits | BlindBoard/Pods/leveldb-library/util/bloom.cc:47 | the step between probes is the hash rotated right by 17 bits |
| Bloom.ProbeAt | BlindBoard/Pods/leveldb-library/util/bloom.cc:41-52 | probe j is j such steps on from the hash, in 32 bits |
| Bloom.BloomFilterPolicy.CreateFilter | BlindBoard/Pods/leveldb-library/util/bloom.cc:28-54 | every key matches the filter, no bit is set that no key needs, and earlier bytes are kept |
| Bloom.BloomFilterPolicy.KeyMayMatch | BlindBoard/Pods/leveldb-library/util/bloom.cc:56-80 | answers exactly whether all probed bits are set, and yes for encodings it does not know |
| FilterBlock.FilterBlockBuilder.GenerateFilter | BlindBoard/Pods/leveldb-library/table/filter_block.cc:51-75 | the keys collected so far become one more filter, and earlier filters stay as they are |
| FilterBlock.FilterBlockBuilder.StartBlock | BlindBoard/Pods/leveldb-library/table/filter_block.cc:21-27 | there is a filter for every 2 KB before the block; the keys collected so far are in the first new one |
| FilterBlock.FilterBlockBuilder.Finish | BlindBoard/Pods/leveldb-library/table/filter_block.cc:35-49 | the filters, their offsets, where those start, and the base |
| FilterBlock.FilterBlockReader.KeyMayMatch | BlindBoard/Pods/leveldb-library/table/filter_block.cc:90-104 | answers as the filter for the block offset does, so no key that was added for the block is missed |
| FilterBlock.ReadsFilter | BlindBoard/Pods/leveldb-library/table/filter_block.cc:90-104 | the two offsets that the reader decodes cut out exactly the filter that was written |
| Tables.NeverMissed | BlindBoard/Pods/leveldb-library/table/table.cc:216-244 | if some entry at or after the key has its user key, one is in the block that the index selects, despite shortened separators |
| Tables.FoundIsFirst | BlindBoard/Pods/leveldb-library/table/table.cc:216-244 | the entry found in that block is the first of the whole table at or after the key |
| TableBuilders.TableBuilder.Add | BlindBoard/Pods/leveldb-library/table/table_builder.cc:94-123 | keeps: all that was added is in the blocks and in the order added, the index separates the blocks, and every key is in the filter that the offset of its block selects; the open block is closed exactly when it reaches the block size |
| TableBuilders.TableBuilder.WriteBlock | BlindBoard/Pods/leveldb-library/table/table_builder.cc:141-194 | the block is found in the file where its handle says, and its index entry waits for the next key |
| TableBuilders.TableBuilder.Flush | BlindBoard/Pods/leveldb-library/table/table_builder.cc:125-139 | the same, with the keys of the block in the filter that its offset selects |
| TableBuilders.TableBuilder.Finish | BlindBoard/Pods/leveldb-library/table/table_builder.cc:198-253 | gives the bytes of a table of all that was added: blocks and index with their trailers, filters that know the keys of every block, metaindex and footer |
| TableFormat.ReadBlock | BlindBoard/Pods/leveldb-library/table/format.cc:64-139 | reads back the contents of any block stored with its trailer |
| TableFormat.DecodeFooter | BlindBoard/Pods/leveldb-library/table/format.cc:31-62 | reads back both handles of a footer |
| TableBlocks.KeyRoundTrip | BlindBoard/Pods/leveldb-library/db/dbformat.cc:20-23 | parsing an encoded internal key gives it back |
| TableBlocks.EncodedOrder | BlindBoard/Pods/leveldb-library/db/dbformat.cc:51-67 | encoded internal keys compare as the keys do |
| TableBlocks.DecodeHandle | BlindBoard/Pods/leveldb-library/table/format.cc:23-29 | reads back any encoded block handle |
| TableBlocks.IndexAscends | BlindBoard/Pods/leveldb-library/table/table_builder.cc:102-109 | the shortened keys of the index ascend strictly |
| TableBlocks.SeekInBlock | BlindBoard/Pods/leveldb-library/table/block.cc:163-201 | seeking in the bytes of a data block, for every restart interval, finds the first entry at or after the key |
| TableBlocks.SeekInIndex | BlindBoard/Pods/leveldb-library/table/table.cc:216-222 | seeking in the bytes of the index block finds the handle of the first block whose index key is at or after the key |
| TableFiles.FindFilter | BlindBoard/Pods/leveldb-library/table/table.cc:84-134 | the metaindex leads to the filter block exactly if the table has one |
| TableFiles.Open | BlindBoard/Pods/leveldb-library/table/table.cc:38-134 | the bytes of any finished table below 4 GB are opened, with index and filter |
| TableFiles.Table.InternalGet | BlindBoard/Pods/leveldb-library/table/table.cc:216-244 | from the bytes of the file: hands over the first entry at or after the key whenever an entry at or after it has its user key, and nothing but such first entries |
| TableFiles.BuildAndGet | BlindBoard/Pods/leveldb-library/table/table.cc:216-244 | building the file of a table of any ascending entries, with any block sizes and filter, opening it from its bytes and looking any key up in it never misses |
| SkipList.StepKeepsInv | BlindBoard/Pods/leveldb-library/db/skiplist.h:337-368 | after every single store of Insert, and with a stale or new height, each level is a sorted sublist of the level below |
| SkipList.RunKeepsInv | BlindBoard/Pods/leveldb-library/db/skiplist.h:260-368 | the same in every state of every run with any number of concurrent searches |
| SkipList.SearchIsAtomic | BlindBoard/Pods/leveldb-library/db/skiplist.h:260-322 | a search running at any time, for the first node at or after a key, the last one before a key or the last of all, answers right for the list at the moment of its last load |
| SkipList.ContentsChangeAtOnce | BlindBoard/Pods/leveldb-library/db/skiplist.h:337-368 | a step leaves the readable keys alone or adds exactly the key being inserted, so a search sees the old or the new set |
| SkipList.RunKeepsTowers | BlindBoard/Pods/leveldb-library/db/skiplist.h:337-368 | over every run, every node is on as many levels as it is high, apart from the one being inserted, which is on those that have been linked, and max_height_ is at least the height of each |
| SkipList.SkipList.FindGreaterOrEqual | BlindBoard/Pods/leveldb-library/db/skiplist.h:262-281 | the first node at or after the key, and its predecessor on every level in use |
| SkipList.SkipList.FindLessThan | BlindBoard/Pods/leveldb-library/db/skiplist.h:285-302 | the last node before the key |
| SkipList.SkipList.FindLast | BlindBoard/Pods/leveldb-library/db/skiplist.h:305-322 | the last node |
| SkipList.SkipList.Contains | BlindBoard/Pods/leveldb-library/db/skiplist.h:371-378 | exactly whether a node has the key |
| SkipList.SkipList.Insert | BlindBoard/Pods/leveldb-library/db/skiplist.h:337-368 | on each of the levels below the height drawn the new node is where its key belongs, the levels above are as they were, and max_height_ is the larger of the two |
| Rings.Append | BlindBoard/Pods/leveldb-library/util/cache.cc:244-250 | appends to a circular list and writes to no node outside it |
| Rings.Remove | BlindBoard/Pods/leveldb-library/util/cache.cc:239-242 | unlinks any node of a circular list and writes to no node outside it |
| HandleTables.HandleTable.FindPointer | BlindBoard/Pods/leveldb-library/util/cache.cc:114-120 | finds the entry with the key and hash exactly when the table holds it |
| HandleTables.HandleTable.Insert | BlindBoard/Pods/leveldb-library/util/cache.cc:78-92 | the table is the old one with the entry, and the replaced entry is returned |
| HandleTables.HandleTable.Remove | BlindBoard/Pods/leveldb-library/util/cache.cc:94-102 | the table is the old one without the entry, which is returned |
| HandleTables.HandleTable.Resize | BlindBoard/Pods/leveldb-library/util/cache.cc:122-146 | every lookup answers as before, and there are at least as many buckets as entries |
| CacheModel.ReleaseInv | BlindBoard/Pods/leveldb-library/util/cache.cc:225-264 | releasing a handle keeps the invariant: the table holds exactly the cached entries, each on one list, and references are the cache and the clients |
| CacheModel.LookupInv | BlindBoard/Pods/leveldb-library/util/cache.cc:252-259 | so does looking one up |
| CacheModel.EraseInv | BlindBoard/Pods/leveldb-library/util/cache.cc:307-321 | so does erasing one, which takes its charge off the usage |
| CacheModel.EvictSpec | BlindBoard/Pods/leveldb-library/util/cache.cc:293-300 | eviction deletes exactly the first k entries of the list of those that no client holds, in the order of the list, with the least k that suffices for the capacity |
| CacheModel.InsertSpec | BlindBoard/Pods/leveldb-library/util/cache.cc:266-303 | after Insert the usage is within the capacity or clients hold all that is cached; the new entry is found, and its handle belongs to the caller |
| CacheModel.PruneSpec | BlindBoard/Pods/leveldb-library/util/cache.cc:323-333 | exactly the entries that no client holds are deleted |
| CacheModel.Accounting | BlindBoard/Pods/leveldb-library/util/cache.cc:225-237 | a handle is live while the cache or a client holds it, and otherwise its deleter has run, once |
| CacheRuns.InvAlways | BlindBoard/Pods/leveldb-library/util/cache.cc:217-333 | from the empty cache on, the invariant holds after any sequence of calls in which clients release only what they hold |
| CacheRuns.RunGoesOn | BlindBoard/Pods/leveldb-library/util/cache.cc:217-333 | after any such sequence every call that a client may make can be made |
| CacheRuns.InOrderAlways | BlindBoard/Pods/leveldb-library/util/cache.cc:217-333 | after any such sequence a handle is live or its deleter has run once, clients hold only live ones, and an Insert has left the usage within the capacity or only held entries |
| CacheRuns.DeletedForGood | BlindBoard/Pods/leveldb-library/util/cache.cc:225-237 | over any sequence of calls the list of deleter runs only grows |
| CacheHistory.HeldAsGiven | BlindBoard/Pods/leveldb-library/util/cache.cc:217-264 | over any sequence of calls, clients hold a handle as often as Insert and Lookup gave it out, less the calls of Release |
| CacheHistory.HandleAsInserted | BlindBoard/Pods/leveldb-library/util/cache.cc:266-303 | a live handle has the identity and charge of the Insert that made it |
| CacheHistory.EntryIsLastInsert | BlindBoard/Pods/leveldb-library/util/cache.cc:252-333 | an identity in the table leads to the handle of its last Insert, and no Erase of it has been called since |
| CacheHistory.LastInsertIsEntry | BlindBoard/Pods/leveldb-library/util/cache.cc:252-333 | and it is in the table after an Insert until an Erase, unless a later Insert or Prune found it idle |
| CacheHistory.CachingIsOff | BlindBoard/Pods/leveldb-library/util/cache.cc:282-292 | with a capacity of zero nothing is ever in the table |
| CacheHistory.OldestFirst | BlindBoard/Pods/leveldb-library/util/cache.cc:225-250 | over any sequence of calls, of two idle entries the one whose last Release was earlier stands first |
| CacheHistory.EvictsOldest | BlindBoard/Pods/leveldb-library/util/cache.cc:293-300 | so an idle entry that Insert evicts was released for the last time earlier than any idle entry that it leaves |
| Cache.LRUCache.Insert | BlindBoard/Pods/leveldb-library/util/cache.cc:266-303 | the class, with its lists and table in memory and its usage counter, does what the model does |
| Cache.LRUCache.Lookup | BlindBoard/Pods/leveldb-library/util/cache.cc:252-259 | likewise |
| Cache.LRUCache.Release | BlindBoard/Pods/leveldb-library/util/cache.cc:261-264 | likewise |
| Cache.LRUCache.Erase | BlindBoard/Pods/leveldb-library/util/cache.cc:307-321 | likewise |
| Cache.LRUCache.Prune | BlindBoard/Pods/leveldb-library/util/cache.cc:323-333 | likewise |
| LogFormat.Writer.AddRecord | BlindBoard/Pods/leveldb-library/db/log_writer.cc:34-108 | appends the fragments of the record, cut at block boundaries, with trailers where no header fits |
| LogFormat.SplitAllConcat | BlindBoard/Pods/leveldb-library/db/log_writer.cc:34-80 | the fragments of a sequence of records are those of its parts, one after the other |
| LogReader.Reader.ReadPhysicalRecord | BlindBoard/Pods/leveldb-library/db/log_reader.cc:189-271 | in a log cut off anywhere, the next fragment, or end of file when it is not all there, with nothing reported |
| LogReader.Reader.ReadRecord | BlindBoard/Pods/leveldb-library/db/log_reader.cc:56-174 | the next record if the file holds all of it, and otherwise the end, with nothing reported |
| LogRoundTrip.WriteLog | BlindBoard/Pods/leveldb-library/db/log_writer.cc:34-108 | what any sequence of AddRecord calls leaves in the file is the log of those records |
| LogRoundTrip.ReadLog | BlindBoard/Pods/leveldb-library/db/log_reader.cc:56-271 | reading any byte prefix of a log gives exactly the records that lie wholly in it, and no corruption is reported |
| LogRoundTrip.RoundTrip | BlindBoard/Pods/leveldb-library/db/log_reader.cc:56-271 | reading the whole file gives back all records |
| GroupCommit.BuildBatchGroup | BlindBoard/Pods/leveldb-library/db/db_impl.cc:1260-1306 | the group is as long as its rules allow: a sync write never joins a non-sync leader, sizes stay bounded; the merged batch is the batches in queue order |
| GroupCommit.GroupBounds | BlindBoard/Pods/leveldb-library/db/db_impl.cc:1266-1304 | a group is at most 1 MB large, and at most 128 KB larger than its leader if that has at most 128 KB, unless it is the leader alone; no sync write joins a leader that is not; it ends only before a writer that would break one of these |
| GroupCommitProof.NextInv | BlindBoard/Pods/leveldb-library/db/db_impl.cc:1185-1256 | every step of the protocol keeps the invariant |
| GroupCommitProof.ReadsWholeBatches | BlindBoard/Pods/leveldb-library/db/db_impl.cc:1185-1256 | over every run, a read at LastSequence sees exactly the acknowledged batches, whole and in queue order, and entries have ascending numbers |
| GroupCommitProof.AcknowledgedIsApplied | BlindBoard/Pods/leveldb-library/db/db_impl.cc:1185-1256 | over every run, a writer acknowledged OK has its batch in memtable and log, once, with contiguous numbers below those of later writers |
| GroupCommitProof.SyncIsDurable | BlindBoard/Pods/leveldb-library/db/db_impl.cc:1200-1240 | over every run, a sync write acknowledged OK is in a record that was synced |
| GroupCommitProof.ReplayIsMemory | BlindBoard/Pods/leveldb-library/db/db_impl.cc:1185-1256 | over every run without a failed write, replaying the log gives the memtable |
| GroupCommitProof.RefusalHasCause | BlindBoard/Pods/leveldb-library/db/db_impl.cc:1185-1256 | over every run, a writer is refused only if making room for its group, logging it or syncing it failed |
| WriteBatches.WriteBatch.Put | BlindBoard/Pods/leveldb-library/db/write_batch.cc:98-103 | the batch holds one more operation, its count is one more, its number the same |
| WriteBatches.WriteBatch.Delete | BlindBoard/Pods/leveldb-library/db/write_batch.cc:105-109 | likewise |
| WriteBatches.WriteBatch.Append | BlindBoard/Pods/leveldb-library/db/write_batch.cc:144-148 | the operations of both batches in order, with the count of both and the number of the first; the other batch may be this one |
| WriteBatches.WriteBatch.SetSequence | BlindBoard/Pods/leveldb-library/db/write_batch.cc:94-96 | changes the number and nothing else |
| WriteBatches.WriteBatch.InsertInto | BlindBoard/Pods/leveldb-library/db/write_batch.cc:42-137 | a batch gives the memtable exactly its operations, numbered from its number on; of any other bytes, none are accepted that give another number of entries than their count |
| Heap.PathTo | BlindBoard/Pods/Libuv-gRPC/src/heap-inl.h:119-124 | the reversed low bits of an index lead from the root to that index of the complete tree |
| Heap.Walk | BlindBoard/Pods/Libuv-gRPC/src/heap-inl.h:126-136 | following them arrives at the slot with that index and at its parent |
| Heap.SwapKeepsTree | BlindBoard/Pods/Libuv-gRPC/src/heap-inl.h:72-104 | the stores of a swap, case by case, leave the tree linked with parent and child exchanged |
| Heap.NodeSwap | BlindBoard/Pods/Libuv-gRPC/src/heap-inl.h:72-104 | parent and child change places in level order, and nothing outside the tree is written |
| Heap.SiftUp | BlindBoard/Pods/Libuv-gRPC/src/heap-inl.h:143-147 | restores the heap order when only one node is too far down |
| Heap.SiftDown | BlindBoard/Pods/Libuv-gRPC/src/heap-inl.h:216-229 | restores it when only one node is too far up |
| Heap.SwapDownOrdered | BlindBoard/Pods/Libuv-gRPC/src/heap-inl.h:216-229 | swapping with the smaller child leaves the order broken at most around that child |
| Heap.RootIsLeast | BlindBoard/Pods/Libuv-gRPC/src/heap-inl.h:67-69 | no node of an ordered heap is before the root |
| Heap.Heap.Insert | BlindBoard/Pods/Libuv-gRPC/src/heap-inl.h:106-148 | the tree is complete, parent-linked and ordered again and holds exactly one more node |
| Heap.Heap.Remove | BlindBoard/Pods/Libuv-gRPC/src/heap-inl.h:150-237 | the same, with exactly the given node gone, whichever it is |
| Heap.Heap.Dequeue | BlindBoard/Pods/Libuv-gRPC/src/heap-inl.h:239-241 | removes a node that no other is before |
| Timers.LtIsWeakOrder | BlindBoard/Pods/Libuv-gRPC/src/timer.c:38-55 | the comparison of timers is a strict weak order |
| Timers.Loop.Start | BlindBoard/Pods/Libuv-gRPC/src/timer.c:66-94 | the timer is active with its clamped timeout and the next start number, or the call is refused |
| Timers.Loop.Stop | BlindBoard/Pods/Libuv-gRPC/src/timer.c:97-107 | the timer is inactive and out of the heap, and all others are as before |
| Timers.Loop.Again | BlindBoard/Pods/Libuv-gRPC/src/timer.c:110-120 | a repeating timer is restarted with its repeat as timeout |
| Timers.Loop.NextTimeout | BlindBoard/Pods/Libuv-gRPC/src/timer.c:133-151 | how long the loop may block: not at all exactly if a timer is due, forever exactly if none is active, and no timer is passed |
| Timers.Loop.RunOne | BlindBoard/Pods/Libuv-gRPC/src/timer.c:154-171 | of the timers that are due, one fires whose timeout is the earliest and, among equal ones, was started first; a repeating timer is started again and another becomes inactive, and the others stay as they are |
| Timers.Loop.UpdateTime | BlindBoard/Pods/Libuv-gRPC/src/unix/internal.h:304-308 | the clock is that in nanoseconds divided by a million, which keeps every repeat from being due at once |
| Timers.Loop.RunTimers | BlindBoard/Pods/Libuv-gRPC/src/timer.c:154-171 | whatever the callbacks do to the timers: turn by turn a least due timer fires and its callback runs, until none is due; it ends if from some turn on no callback starts a timer without a delay or sets the clock |
| TimerRuns.FiredInOrder | BlindBoard/Pods/Libuv-gRPC/src/timer.c:154-171 | with such callbacks only timers due from the start fire, each at most once, by timeout and, where these are equal, in the order in which they were started |
| TimerRuns.Untouched | BlindBoard/Pods/Libuv-gRPC/src/timer.c:154-171 | a timer that no callback names ends as it was, or stopped or started again if it fired |
| TimerRuns.AllDueFire | BlindBoard/Pods/Libuv-gRPC/src/timer.c:154-171 | every timer due at the start that no callback names fires |
| TimerRuns.ClosedNeverFires | BlindBoard/Pods/Libuv-gRPC/src/timer.c:174-176 | a closed timer never fires, whatever the callbacks do |
| TimerRuns.RunsOn | BlindBoard/Pods/Libuv-gRPC/src/timer.c:154-171 | a witness for callbacks with which the loop goes on: while every callback starts a timer anew without a delay, something stays due |
| ThreadPoolProof.NextInv | BlindBoard/Pods/Libuv-gRPC/src/threadpool.c:57-315 | every step of submitters, workers, cancellers and the loop keeps the invariant |
| ThreadPoolProof.OnePlace | BlindBoard/Pods/Libuv-gRPC/src/threadpool.c:57-315 | over every run, each submitted request is in exactly one place |
| ThreadPoolProof.CompletesOnce | BlindBoard/Pods/Libuv-gRPC/src/threadpool.c:269-315 | over every run, a request is executed at most once, completes at most once, and completes as cancelled exactly if it never was executed |
| ThreadPoolProof.SlowBounded | BlindBoard/Pods/Libuv-gRPC/src/threadpool.c:45-139 | over every run, at most half of the workers, rounded up, run slow work |
| ThreadPoolProof.SlowAnnounced | BlindBoard/Pods/Libuv-gRPC/src/threadpool.c:57-160 | over every run, the slow-work message is queued at most once, and once whenever slow work waits and the mutex is free |
| ThreadPoolProof.NoneStranded | BlindBoard/Pods/Libuv-gRPC/src/threadpool.c:57-160 | over every run, when all workers sleep no request is waiting |
| ThreadPoolProof.CancelIsFinal | BlindBoard/Pods/Libuv-gRPC/src/threadpool.c:269-292 | over every run, a request whose cancellation was accepted is never executed; a refused one is executing or was executed |
| ThreadPoolProof.NoStepIsBlocked | BlindBoard/Pods/Libuv-gRPC/src/threadpool.c:57-315 | in every reachable state each step that a submitter, worker, canceller or the loop is about to take can be taken: no counter would go below zero |
| ThreadPoolProof.TurnIsDefined | BlindBoard/Pods/Libuv-gRPC/src/threadpool.c:57-139 | a worker that holds the mutex always has a next step |
| ThreadPoolOrder.SlowGoesOn | BlindBoard/Pods/Libuv-gRPC/src/threadpool.c:45-123 | a worker that turns to the slow-work message takes the oldest slow request if and only if fewer than half of the workers, rounded up, are counted with slow work |
| ThreadPoolOrder.FirstComeFirstServed | BlindBoard/Pods/Libuv-gRPC/src/threadpool.c:57-160 | over every run, when a worker begins a request, every other one of its kind that waits was submitted later |
| ThreadPoolOrder.CalledBackInOrder | BlindBoard/Pods/Libuv-gRPC/src/threadpool.c:294-315 | over every run, callbacks are made in the order in which requests were finished or cancelled |
| ThreadPoolOrder.EnoughAreUp | BlindBoard/Pods/Libuv-gRPC/src/threadpool.c:57-160 | over every run, while a worker sleeps at least as many others are up and not executing as there are queue entries that could be taken |
| Punycode.ReadsWhole | BlindBoard/Pods/Libuv-gRPC/src/idna.c:192-218 | the decoder reads back exactly the digits of one variable-length integer |
| Punycode.RunsOneMore | BlindBoard/Pods/Libuv-gRPC/src/idna.c:184-239 | one more integer at the end of the input makes one more insertion |
| Idna.EmitInteger | BlindBoard/Pods/Libuv-gRPC/src/idna.c:192-218 | the digits that are written spell delta for the current bias, in 32-bit arithmetic |
| Idna.AdaptBias | BlindBoard/Pods/Libuv-gRPC/src/idna.c:220-236 | the bias update, with its halvings, is the adaptation of section 6.1 of RFC 3492 |
| Idna.StepInsert | BlindBoard/Pods/Libuv-gRPC/src/idna.c:189-239 | writing delta keeps encoder and decoder in step |
| Idna.Pass | BlindBoard/Pods/Libuv-gRPC/src/idna.c:183-239 | one pass inserts every occurrence of the current code point |
| Idna.ToAsciiLabel | BlindBoard/Pods/Libuv-gRPC/src/idna.c:102-246 | for labels with a non-ASCII point, if no overflow is reported, the decoder gives the input back from what follows "xn--"; ASCII labels are copied; invalid input is reported exactly when there is some; no overflow is reported for labels of Unicode code points up to a stated length |
| PbEncode.Write | BlindBoard/Pods/nanopb/pb_encode.c:103-132 | the bytes are written, or only counted, or the stream is full, exactly when they do not fit |
| PbEncode.EncodeVarint | BlindBoard/Pods/nanopb/pb_encode.c:608-628 | writes the base-128 digits, in at most ten bytes |
| PbEncode.EncodeSvarint | BlindBoard/Pods/nanopb/pb_encode.c:630-639 | writes the zig-zag form |
| PbEncode.EncodeTag | BlindBoard/Pods/nanopb/pb_encode.c:669-707 | writes field number and wire type |
| PbEncode.EncodeSubmessage | BlindBoard/Pods/nanopb/pb_encode.c:717-765 | the sizing and the writing pass count the same bytes, so a change of size is never reported, and the result is the message with its length |
| PbEncode.EncodeArray | BlindBoard/Pods/nanopb/pb_encode.c:147-236 | packed or not, exactly the bytes of the items, or an error exactly when the stream or the array bounds do not allow it |
| PbEncode.EncodeField | BlindBoard/Pods/nanopb/pb_encode.c:341-467 | exactly the bytes of the field, and none for an absent one |
| PbEncode.EncodeMessage | BlindBoard/Pods/nanopb/pb_encode.c:528-550 | exactly the bytes of the fields in descriptor order, the same in both kinds of stream |
| PbDecode.DecodeVarint32 | BlindBoard/Pods/nanopb/pb_decode.c:187-253 | reads back any 32-bit number and leaves the rest |
| PbDecode.DecodeVarint | BlindBoard/Pods/nanopb/pb_decode.c:255-276 | reads back any 64-bit number and leaves the rest |
| PbDecode.DecodeTag | BlindBoard/Pods/nanopb/pb_decode.c:298-319 | reads back field number and wire type |
| PbDecode.Substream | BlindBoard/Pods/nanopb/pb_decode.c:372-404 | the substream is exactly the bytes announced |
| PbDecode.SkipField | BlindBoard/Pods/nanopb/pb_decode.c:278-334 | skips exactly one field of a known wire type, and refuses others |
| PbDecode.Next | BlindBoard/Pods/nanopb/pb_common.c:29-85 | the next field in a circle, with the number of required fields before it kept right |
| PbDecode.Find | BlindBoard/Pods/nanopb/pb_common.c:87-104 | finds a field with the number, going once around from anywhere, exactly if there is one |
| PbDecode.CountRequired | BlindBoard/Pods/nanopb/pb_decode.c:1041-1055 | counts the required fields of the whole descriptor, wherever the iterator stands |
| PbDecode.DecodeNumber | BlindBoard/Pods/nanopb/pb_decode.c:1345-1445 | of anything that may stand on the wire for a number of any type: reads the number that it is, and refuses it exactly if it does not fit the width of its field |
| PbMessages.DecodeValue | BlindBoard/Pods/nanopb/pb_decode.c:1334-1570 | reads back a value of any type, with its submessages, and fails exactly if the place has no room for it, a number does not fit its width, or a submessage fails |
| PbMessages.DecodePacked | BlindBoard/Pods/nanopb/pb_decode.c:428-453 | adds all items of a packed array to those that are there, and fails exactly if there are too many or one does not fit its width |
| PbMessages.DecodeField | BlindBoard/Pods/nanopb/pb_decode.c:406-488 | what the field makes of its place: the last value counts, arrays grow, unions change sides, with has_ flag, count or which_ tag |
| PbMessages.DecodeNoinit | BlindBoard/Pods/nanopb/pb_decode.c:934-1082 | for any list of whole fields on the wire, in any order, repeated or unknown, with any numbers: succeeds exactly if every one can be taken and each of the first 64 required fields is there, and gives the message they make |
| PbMessages.Decode | BlindBoard/Pods/nanopb/pb_decode.c:1084-1096 | the same, starting from default values |
| PbWire.UnknownIsSkipped | BlindBoard/Pods/nanopb/pb_decode.c:966-995 | fields that the descriptor does not know change nothing, at any depth |
| PbWire.OrderIsFree | BlindBoard/Pods/nanopb/pb_decode.c:953-1030 | neighbouring fields with places of their own may change places |
| PbLaws.LastValueCounts | BlindBoard/Pods/nanopb/pb_decode.c:406-488 | of a field that is no array and no submessage the last occurrence counts: without all earlier ones, and without earlier sides of its union, the result is the same |
| PbLaws.SubmessagesMerge | BlindBoard/Pods/nanopb/pb_decode.c:406-488 | two occurrences of a submessage are one with the fields of both, also in a union that stays on its side |
| PbLaws.UnionForgets | BlindBoard/Pods/nanopb/pb_decode.c:465-482 | a union that changes sides keeps nothing of the other side: the result is that of starting with it empty |
| PbLaws.ArrayHoldsAll | BlindBoard/Pods/nanopb/pb_decode.c:425-463 | an array holds, behind what was there, the values of all its occurrences in order, packed or not, and never more than it has room for |
| PbLaws.PackedJoins | BlindBoard/Pods/nanopb/pb_decode.c:428-453 | two parts of a packed array are one |
| PbLaws.OneIsPacked | BlindBoard/Pods/nanopb/pb_decode.c:428-463 | a number on its own is a packed array of one |
| PbLaws.NotMentionedIsDefault | BlindBoard/Pods/nanopb/pb_decode.c:845-932 | a field that is not there has the value of the descriptor and no has_ flag, an array is empty, a union on no side |
| PbLaws.ItemsFit | BlindBoard/Pods/nanopb/pb_decode.c:934-1082 | whatever is on the wire, a decoded message has no more items in an array, no more bytes in a string and no larger number than the descriptor has room for, at any depth |
| PbItems.NumberIsRead | BlindBoard/Pods/nanopb/pb_decode.c:1345-1445 | a number of a well-formed message is one that fits, for every type and width, and is read as it was |
| PbItems.ItemsOfMessage | BlindBoard/Pods/nanopb/pb_decode.c:934-1082 | the bytes of a message are such a list, whose fields make the message |
| PbCanon.CanonMessageIsSame | BlindBoard/Pods/nanopb/pb_decode.c:845-932 | the decoded message and the encoded one agree on all data that flags and tags do not hide |
| PbRoundTrip.RoundTrip | BlindBoard/Pods/nanopb/pb_decode.c:934-1096 | for descriptors with distinct numbers and every well-formed nested message (packed arrays, unions, submessages): the computed size is the size written, and decoding gives the message back |
| PbRoundTrip.DecodeNewer | BlindBoard/Pods/nanopb/pb_decode.c:934-1096 | a message written with a larger descriptor, so with unknown fields anywhere in it and in its submessages, decodes to the same data |
| PbRoundTrip.EncodeInto | BlindBoard/Pods/nanopb/pb_encode.c:528-550 | into a buffer of any size: success exactly if the bytes fit, and otherwise the stream is full and nothing else is reported |

## Left out

- Swift code of the application, Firebase, images, network, BoringSSL error tables: no logic of their own, or calls into code that is not here.
- CompactionProof.ViewsKeptWhenClosed: assumes that the lower inputs are closed per user key, because the selection code does not ensure it; ViewsKeptExactly has no such assumption.
- CompactionRun.Compact: no memtable is flushed while the compaction runs (FlushRace and FlushReads have that case); sequence numbers of snapshots are below the largest one; the table files are lists of entries, so the two-level iterator over a sorted level is one list.
- CompactionRun.BackgroundCompaction: manual compactions are in Selection.CompactRange; errors and shutdown are left out.
- Flush.CompactMemTable: the memtable is the sorted sequence of its entries, all newer than those of the version, whose sequence numbers fit into a tag.
- Selection.PickCompaction: the scores computed in floating point are a parameter (the level they choose).
- Manifest.ReplayEqualsHistory: holds under the condition that no file number is added again to a level that it was in; the exact condition is in ManifestExact.ReplayIsExactly.
- Manifest.WriteSnapshot: says the files only; comparator and pointers are in VersionSets.WriteSnapshot.
- Manifest.Recover: starts from lists of edits; the bytes of the records and the counters are in VersionSets.Recover.
- Manifest.LogAndApply: says the files only; counters and the record are in VersionSets.VersionSet.LogAndApply.
- VersionSets.VersionSet.LogAndApply: a file that an edit adds has a number from NewFileNumber or is moved, as compactions and flushes see to; the callers of it are not in one model with it; writes to the manifest succeed, the lock is held throughout, and renaming of the CURRENT file is left out.
- VersionSets.Recover: a manifest is not continued after recovery (ReuseManifest), and the table file behind a number is any function of it.
- Version.NewestFirst: std::sort, and std::upper_bound in Builder.UpperBound, are functions with their specification, not their library code.
- LevelDB seek statistics, compaction pointers as a policy, logging, Arena accounting, RepairDB, file system and lock code: no effect on the results stated.
- DBIter.DBIter.Next: the inner iterator is a cursor over a sorted list; corrupted keys and read sampling are not modelled, and neither is the branch for an exhausted inner iterator in the forward direction, which cannot be reached.
- Merging.MergingIterator.Seek: the children are cursors over lists with pairwise distinct (user key, sequence number), and the status of children is not modelled.
- BlockIters.BlockIter.ParseNextKey: what lies beyond the bytes of a block, which a corrupted length could reach, is not modelled; blocks are smaller than 4 GB.
- BlockIters.BlockIter.Seek: the corruption branch for a restart point with a shared prefix is left out, since it cannot be taken in a block that was built.
- TableBuilders.TableBuilder.Add: the block being built is the list of its entries, encoded when it is written, and its size is any function of them.
- TableFiles.BuildAndGet: files of 4 GB or more may be reported as too large; block compression, the block cache and file handles are left out, and the checksum is any function.
- TableFormat.ReadBlock: says nothing of bytes that were not written as a block.
- Bloom.BloomFilterPolicy.CreateFilter: the number of probes, computed in floating point, is a parameter from 1 to 30; the hash is any function to 32 bits.
- SkipList.SkipList.Insert: nodes are addresses in a map of the memory, each load or store is one sequentially consistent step, and the height is any number up to the maximum.
- Cache.LRUCache.Insert: handles are numbers that are never used again, links are a map of the memory, the hash chains are sequences; the usage is unbounded; the sixteen shards and their locks are left out.
- HandleTables.HandleTable.FindPointer: the bucket is the hash modulo the length, which is a power of two in the code.
- LogReader.Reader.ReadPhysicalRecord: the initial offset is zero, reads return as many bytes as there are; the branches for corrupted bytes are in the model, but what they report is stated only as nothing for prefixes of a log; a log is not reopened after a torn tail.
- LogFormat.Writer.AddRecord: writes succeed, and the checksum is any function of type and payload.
- GroupCommitProof.ReadsWholeBatches: one database with one log, well-formed batches, and an AddRecord that fails has appended nothing.
- WriteBatches.WriteBatch.Put: the count stays below the largest 32-bit signed number.
- VersionEdits.VersionEdit.EncodeTo: internal keys are opaque strings, and std::set is its increasing sequence.
- Heap.Heap.Insert: the nodes are in a map of the memory instead of objects with references; fewer than 2^32 nodes.
- Timers.Loop.RunTimers: callbacks act through the timer calls and uv_update_time on handles that exist; from some turn on they start no timer without a delay, since the loop need not end otherwise (TimerRuns.RunsOn); other handles of the loop are left out.
- ThreadPoolProof.OnePlace: one event loop; the exit message and the cleanup of threads are left out, queues are sequences, and every step under a mutex is atomic.
- Idna.ToAsciiLabel: the input is decoded code points, labels are shorter than 2^32 - 1 of them, and the buffer is large enough; the UTF-8 decoder and the label splitter are left out.
- Punycode.ReadsWhole: the decoder, which is the reference, calculates with unbounded integers.
- PbRoundTrip.RoundTrip: no callbacks, extensions, pointer fields or fixed-count arrays; messages are smaller than 4 GB; field number zero and more than 64 required fields are only as the code treats them; streams are values that are passed along, and a struct is a sequence of slots.
- PbMessages.DecodeNoinit: says nothing of bytes that are no list of whole fields, such as a stream that ends within one, a zero tag, numbers in other than their shortest form or beyond 32 bits for a bool, strings with a zero byte, or a known field in the wire type of another.
