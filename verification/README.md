# tarpack, verified

A Dafny model of tarpack, a crash-safe, deduplicating backup packer written in C, and proofs about it. It covers
the whole life of a repository: a tree is scanned, its new contents are divided into packs and committed one disk
step at a time, a crash may fall after any step, the next run recovers, snapshots are restored, the repository is
verified, and it is copied to a remote.

`dafny verify dfyconfig.toml` checks everything.

## What is here

| part | modules |
|---|---|
| dividing objects into packs | `BinPacking`, `NextFit`, `FfdSort`, `Ffd`, `FfdOptimal`, `FfdVersusNextFit`, `Layout`, `Sizes`, `Decimals`, `Int64` |
| the repository on disk, one step at a time | `OnDisk`, `LineLog`, `PackNames`, `Commit`, `Recovery`, `PackRun`, `Resume`, `TornIndex`, `Repository` |
| integrity checking | `Verify`, `CleanRecovery`, `Leftovers` |
| identity of contents, across runs | `ObjectIndex`, `Scan`, `Identity`, `Collect` |
| restoring | `Links`, `Extract`, `Passes`, `PathSafe`, `Restore` |
| everything together, over time | `World`, `Overlap`, `MidCrash`, `Upload`, `RemoteRestore` |
| encodings | `Utf8`, `Base64`, `PathField`, `JsonLines`, `SnapshotFile`, `SoundCodec` |

The code that changes things step by step is modelled by classes and loops: `Repository.Repo` is the repository
directory, whose `trace` records the disk after every step; `ObjectIndex.Index` has the three hash tables of the
loaded index; `Scan.ObjectTable` and `Scan.Scanner` are the scan's state; `Upload.Store` is the remote. Each of
their methods is proved against a function of the old state, and the theorems are proved about those functions.

The results that say most:

- `World.RestoreAny`: after any number of edits, scans (fast or hashing), and pack runs crashed anywhere, run again or
  abandoned for a new scan, every snapshot whose runs went on to the end restores to exactly the paths and bytes it was
  scanned from. `World.BackUp` shows that the scan, the collection of objects and the pack run really do make up one
  more step of such a life.
- `MidCrash.RestoreAnytime`: the same right after a crash, before anything has recovered: the bytes come back exactly
  if the index can be read, and where a crash tore it in the middle of a line restore refuses before it writes
  anything. `RemoteRestore.RestoreFromRemote` is the same from the remote, after an upload that succeeded.
- `PackRun.HistorySafe` and `PackRun.HistoryPreserves`: in every reachable state each complete index line names a
  pack that is in place, listed, and holds the object, its manifest recording it as the line does; no object has two
  lines; and nothing an index line names is ever overwritten or deleted.
- `Restore.TpRestore`: of any repository, damaged or not, a restore that ends with status 0 has given back the bytes
  the index vouches for, and exactly a missing archive makes it give up.
- `CleanRecovery.HistoryRecoversClean`, `CleanRecovery.HistoryFinishesClean` and
  `CleanRecovery.RecoveredCleanExactly`: when a recovered repository, or one whose last run finished, passes
  verification. `Leftovers.NeverCleanAgain` is a history of three runs after which it never does again.
- `Ffd.FfdWithinThreeHalves`, `NextFit.NextFitWithinTwice` and `FfdOptimal.FfdOptimalFromThird`: the packing algorithms
  against every legal packing.
- `Upload.EventsKeepSafe` and `Upload.RemoteAlwaysSafe`: after any pack runs and uploads, and at every step of an
  upload, the remote index never names a pack that is not on the remote with its checksum lines.
- `Repository.Repo.PackMulti`: a pack run commits the missing objects in exactly the packs its algorithm makes of
  them, as few as that algorithm promises.

Five things the repository promises or relies on are false of its code as they stand. Each has an input that shows it,
and the condition under which it holds:

- `tests/integration/test_multipack.sh:224` has first-fit decreasing use no more packs than next-fit.
  `FfdVersusNextFit.FfdCanLoseToNextFit` has six small files for which it uses three instead of two.
  `FfdVersusNextFit.FfdNotAboveNextFitExactly`: it never uses more for files of at least a given size exactly if three
  of the smallest cost more than the target less 512 bytes and next-fit's loads cannot overflow.
- The comment at `src/packer.c:1425-1428` has a pack committed as a whole or not at all. The index is appended line by
  line (`src/index.c:497-533`), and `Commit.AllOrNothingExactly` has that exactly for packs of at most one object;
  `Commit.HalfCommitted` is a crash behind the first line. What does hold for every pack is `Commit.AppendedEntries`
  and `Resume.ResumedExactlyOnce`: some of the lines are there, and a later run stores exactly the objects that are
  still missing.
- The numbering of packs (`src/packer.c:814`) and recovery (`src/packer.c:1355-1367`) do not recognise the same names:
  `PackNames.ScansDiffer`, `PackNames.LongNameDiffers`. They do exactly for names shorter than 72 bytes without white
  space behind the number (`PackNames.ScansAgreeExactly`), and so for those the program writes.
- Recovery is said to bring the repository back to a fully consistent state (`src/packer.c:1317-1332`). A crash between
  an archive's unlink and its manifest's leaves a manifest that no recovery removes (`Leftovers.OrphanManifestRefused`),
  and can make verification fail for good (`Leftovers.NeverCleanAgain`). `CleanRecovery.RecoveredCleanExactly` says from
  which disks recovery ends clean, and `CleanRecovery.RunKeepsTidyExactly` which crashes lead to the others.
- Scanning gives ids from the index alone (`src/scanner.c:311-338`), so two scans without a pack run in between give the
  same id to different contents; after packing both, the second is restored with the first one's bytes
  (`Overlap.RestoresOtherBytes`). Whoever packs a snapshot before the next scan, or abandons it, is safe
  (`World.RestoreAny`).

## What is assumed

- A crash is a process crash: the steps completed so far persist, in order. One process works on a repository at a time.
- The steps of a commit are: opening the scratch archive, one step for each object added to it, its rename, writing the
  scratch manifest, its rename, one line-atomic append to SHA256SUMS for each file, and the index append, which
  can stop after any byte.
- Index lines and hashes are a `Codec`: a line read back gives the entry it was written from, contains no line break,
  and the text search for its pack's name finds that name; SHA-256 is injective, printable and never empty. Lines are
  assumed to come back only for entries as the program writes them (`OnDisk.Writable`): printable ids of at most 31
  characters, paths without a NUL, sizes and times within 2^53. That the entries written are such is proved, from
  files whose paths, sizes and times are (`World.TreeOk`). The codec is a parameter, and every theorem that needs these
  facts says so with `Sound(c)`; `JsonLines.IndexCodecSound` proves them of the codec made of a JSON library that
  reads back the records it wrote and of the way paths are stored. A piece of a JSON line is no JSON (`TornUnreadable`),
  which matters only where an index is read between a crash and the next recovery. `SoundCodec` shows that all of this
  can be met.
- Restoring and collecting work on a snapshot's lines as values; `SnapshotFile.SnapshotReadsBack` is how they come from
  its file, which is assumed to have been written whole.
- A walk yields paths of names, and none that leads through a file or a symbolic link (`World.TreeOk`,
  `PathSafe.Apart`): the destination is modelled by path, and these name places apart (`PathSafe.PlacesApart`).
- An archive is a sequence of pathnames with their bytes. What a scratch file holds is never read by anything here.
- Files do not change between their scan and the end of the run that packs them, and equal path, size and
  modification time mean equal bytes (`Identity.Honest`).
- Pack numbers stay below 1000000, which is as far as the directory scans recognise them
  (`PackRun.NextNumberFreshExactly`, `PackNames.RecognisedExactly`), and object numbers below 2^64 - 1
  (`ObjectIndex.NextIdFreshExactly`).
- A snapshot is packed before the next scan or not at all; the next id comes from the index only.
- A hash table lookup finds some node with the key. The library's sort is represented by an insertion sort.
- Next-fit's running sum wraps round like a 64-bit machine sum (`NextFit.Run64`). That packs are within the target is
  stated for costs on which it does not; `NextFit.NextFitOverflowExactly` says for which targets that is all.
  Everything else - numbering, the number of packs, permutation, safety - holds either way.

## Model

| member | source | states |
|---|---|---|
| NextFit.BinAssignNextFit | src/packer.c:225-265 | -1 for a target below 1, with nothing written; otherwise each item's bin and the number of bins are those of the one-pass rule with its load in 64 bits, and while that does not overflow those of the exact rule, oversized items alone in theirs; only the bins asked for are written |
| NextFit.Run64Numbered | src/packer.c:225-265 | even if the load wraps round, bins are numbered without gaps and items are not reordered |
| NextFit.NextFitLegal | src/packer.c:225-265 | without overflow every bin totals at most the target or is one oversized item, and bins are numbered without gaps |
| NextFit.NextFitWithinTwice | src/packer.c:225-265 | fewer than two bins for each bin of any legal packing, on every input, whether or not the 64-bit load wraps round |
| NextFit.TwiceAttained | src/packer.c:225-265 | for every m up to a target below the largest 64-bit number there are costs that fit m bins and take next-fit 2m - 1 |
| NextFit.SmallTargetNoOverflow | src/packer.c:252-261 | a target of at most half the largest 64-bit number keeps the running sums exact |
| NextFit.NextFitOverflowExactly | src/packer.c:252-261 | the sums are exact for every sequence of positive costs exactly when twice the target fits 64 signed bits |
| FfdSort.Merge | src/packer.c:333-344 | merging two sorted runs gives one sorted run of the same indices |
| FfdSort.InsertionSort | src/packer.c:318-331 | the fallback sorts its slice in place and touches nothing else |
| FfdSort.FfdSortIndices | src/packer.c:308-345 | whichever allocations fail, the slice comes out sorted by cost descending and index ascending, a permutation of what it was |
| FfdSort.SortedIsUnique | src/packer.c:290-345 | two sorted arrangements of the same indices are equal |
| FfdSort.VisitOrderIsUnique | src/packer.c:290-345 | there is only one order in which items can be visited, so failed allocations cannot change it |
| FfdSort.VisitOrderIsPermutation | src/packer.c:308-345 | the visiting order has every item once |
| Ffd.BinAssignFfd | src/packer.c:347-410 | each item's bin and the number of bins are those of first fit over the items in visiting order |
| Ffd.FirstFit | src/packer.c:371-403 | placing the items in order gives the bins and the room left of the functional form |
| Ffd.FindRoom | src/packer.c:386-392 | the first open bin with room for the item, or none |
| Ffd.FfdLegal | src/packer.c:347-410 | every bin totals at most the target or is one oversized item; no bin number is skipped |
| Ffd.FfdWithinThreeHalves | src/packer.c:347-410 | with k bins, 2k <= 3m for every legal packing into m bins |
| FfdOptimal.FfdOptimalFromThird | src/packer.c:347-410 | with no item below a third of the target, no legal packing has fewer bins |
| FfdOptimal.FfdNotAboveNextFit | tests/integration/test_multipack.sh:224 | so first-fit decreasing then needs no more bins than next-fit, as long as next-fit's load does not overflow |
| FfdOptimal.FfdAgainstNextFit | tests/integration/test_multipack.sh:224 | on any costs it needs at most three bins for every two of next-fit, as long as next-fit's load does not overflow |
| FfdOptimal.FfdAgainstNextFitExactly | tests/integration/test_multipack.sh:224 | for a target this holds of next-fit with its 64-bit load on all costs exactly if twice the target fits 64 signed bits |
| FfdVersusNextFit.FfdOptimalForSizes | src/packer.c:219-223 | for costs estimated from file sizes: no legal packing has fewer bins if three times every cost is above the target less a block |
| FfdVersusNextFit.FfdCanLoseToNextFit | tests/integration/test_multipack.sh:224 | files of 2048, 1024, 1024, 2048, 1024 and 1024 bytes need three packs of 10240 by first-fit decreasing and two by next-fit |
| FfdVersusNextFit.FfdNotAboveNextFitExactly | tests/integration/test_multipack.sh:224 | for all files of at least a given size first-fit decreasing needs no more packs than next-fit with its 64-bit load, exactly if three times the estimated cost of that size is above the target less 512, and twice the target fits 64 signed bits or that cost is above the target |
| FfdVersusNextFit.ThreeHalvesAttained | src/packer.c:347-410 | there are file sizes that fit two packs and take first-fit decreasing three |
| Sizes.ParseDigits | src/packer.c:188-196 | a run of digits is read exactly if it fits 64 unsigned bits and refused otherwise, with no wrap on the way |
| Sizes.ParseSize | src/packer.c:164-217 | succeeds exactly for digits and at most one of K, M, G in either case whose exact product fits 64 signed bits, and returns that product |
| Sizes.SuffixesScale | src/packer.c:198-205 | each suffix is 1024 times the one before, in either case |
| Sizes.EstimateEntryCost | src/packer.c:219-223 | a positive multiple of 512, at least 2048, that covers the file and less than a block more |
| Sizes.EstimateFitsExactly | src/packer.c:219-223 | every step of the estimate stays in 64 bits exactly for sizes at least 2559 below the largest |
| Layout.BinSizes | src/packer.c:1856-1858 | how many items each bin has |
| Layout.BinOffsets | src/packer.c:1859-1863 | where each bin's run starts: after all the items of earlier bins |
| Layout.CountingSort | src/packer.c:1850-1887 | the items reordered into one run for each bin, input order kept within a run |
| Layout.Partition | src/packer.c:1765-1780 | normal objects first, then the ones for store-level packs, each class in input order |
| Layout.WeaveSelects | src/packer.c:1804-1848 | the bins of the two classes, put back against the input, are those each class was given |
| Layout.AssignClasses | src/packer.c:1804-1848 | each class packed by itself into the bins of its algorithm, store bins numbered after normal ones, each class within the bound of its algorithm, and legal as far as its loads do not overflow |
| Layout.LayOut | src/packer.c:1765-1887 | the objects and run boundaries a pack run works through form a layout: one non-empty run for each bin, each of one class, in input order, normal runs first; each class's bins are those of its algorithm, as few as that promises; and each class whose loads do not overflow has runs within the target or of a single object |
| Layout.LayoutPermutes | src/packer.c:1765-1887 | a layout has every object exactly once |
| Layout.BucketsPermute | src/packer.c:1850-1887 | items taken bin by bin are a permutation of the items |
| LineLog.RepairIndexTail | src/packer.c:1084-1149 | reading backwards in chunks of 4096 bytes cuts the log to its longest prefix that is empty or ends a line |
| LineLog.GoodLengthUnique | src/packer.c:1084-1149 | a prefix that ends a line, with no newline after it, is the one kept |
| LineLog.RepairedIsLongest | src/packer.c:1084-1149 | no longer prefix ends a line, and repairing again changes nothing |
| LineLog.LinesOfText | src/index.c:497-533 | lines written behind complete lines are read back, after the lines that were there |
| LineLog.TornAppend | src/packer.c:1084-1149 | any byte prefix of an append, repaired, is the old log and a prefix of the new lines |
| PackNames.RecognisedExactly | src/packer.c:803-822 | a scan of the directory recognises the archives with six-digit numbers, reads their numbers right, and recognises nothing else that is written there |
| PackNames.ScansAgreeExactly | src/packer.c:1355-1367 | recovery recognises exactly the names the numbering does that are shorter than 72 bytes and have no white space behind the number |
| PackNames.ScansDiffer | src/packer.c:814 | the numbering reads `pack-000009.tar.zst (copy)` and `pack-000009 .tar.zst` as pack 9, recovery ignores both |
| PackNames.LongNameDiffers | src/packer.c:1359 | spaces enough in front of the number keep recovery from reading a name that the numbering reads |
| PackNames.OwnNamesAgree | src/packer.c:1357-1369 | of the names the program writes recovery recognises exactly the archives with six-digit numbers |
| PackNames.FileNamesApart | src/packer.c:1447-1463 | no two files of packs share a name |
| PackRun.NextPackNumber | src/packer.c:803-822 | one more than the highest recognised number |
| PackRun.NextNumberFreshExactly | src/packer.c:803-822 | the next number is above every archive's exactly while none has seven digits |
| PackRun.NextNumberLeast | src/packer.c:803-822 | it is 1 or follows the number of an archive that is there |
| Commit.AppendedEntries | src/index.c:473-548 | any byte prefix of the append adds a prefix of the pack's entries to the index, the whole append all of them |
| Commit.HalfCommitted | src/packer.c:1425-1428 | a crash behind the first line of a pack of two or more objects leaves the index with the first object and not the others |
| Commit.AllOrNothingExactly | src/packer.c:1425-1428 | wherever the append stops the index has none or all of a pack's objects, exactly if the pack has at most one |
| Commit.NewPackInPlace | src/packer.c:1440-1590 | once both checksum lines are there the new archive and manifest are in place, agree, and are listed with their current hashes |
| Commit.CommittedContents | src/packer.c:490-520 | archive and manifest of a committed pack have its objects in the order given, the archive their paths and bytes, the manifest each one's own id, path, size and hash, none twice |
| Commit.FinalNamesWhole | src/packer.c:1440-1552 | at every step of a commit, what has a final name is whole |
| Commit.CommitKeepsSafe | src/packer.c:1440-1617 | at every step of a commit the disk is safe and no earlier entry or its files are harmed |
| Recovery.DoomedExactly | src/packer.c:1333-1409 | recovery deletes exactly the scratch files, the archives no index line names, and those archives' manifests |
| Recovery.ToDeletePairs | src/packer.c:1377-1389 | an archive to be deleted is followed at once by its manifest |
| Recovery.ToDeleteMembers | src/packer.c:1341-1397 | the list has the scratch files, the archives no index line names and those archives' manifests, and nothing else |
| Recovery.RewrittenExactly | src/packer.c:1249-1315 | the checksums are written anew, and shorter, exactly if some line's file is gone; otherwise they stay as they are |
| Recovery.RecoveryKeepsSafe | src/packer.c:1084-1414 | at every step of recovery, itself interruptible, the disk is safe and no entry or its files are harmed |
| Recovery.RecoveredConsistent | src/packer.c:1333-1414 | a finished recovery leaves a whole index, no scratch file, exactly the archives of indexed packs, and no checksum line for a missing file |
| PackRun.CommitsKeepSafe | src/packer.c:1907-1937 | after any number of commits the index has grown by exactly the committed objects' entries, in order, and every state on the way is safe |
| PackRun.RunKeepsSafe | src/packer.c:1619-1937 | every state of a whole run, recovery and commits, is safe and harms nothing the index named before |
| PackRun.HistorySafe | src/packer.c:1333-1617 | after any number of runs, each crashed anywhere or finished: every complete index line names a pack whose archive and manifest are present, agree and are listed with current hashes, whose manifest has an entry with the line's id, path, size and hash, and whose archive holds the object; ids are not repeated |
| PackRun.HistoryPreserves | src/packer.c:1333-1617 | no later run loses an index entry or overwrites or deletes a file of its pack |
| Resume.SnapshotRunValid | src/packer.c:1705-1731 | a run that packs what the index lacks stores nothing twice |
| Resume.MissingInOrder | src/packer.c:1705-1722 | the missing objects are exactly those without a line, in the order of the snapshot |
| Resume.RunsGrow | src/packer.c:1696-1731 | over any crashed runs of a snapshot, the index is its old lines and then lines for objects it lacked |
| Resume.FinishedStoresAll | src/packer.c:1907-1937 | a run that finishes leaves every object of its snapshot with a line |
| Resume.ResumedExactlyOnce | src/packer.c:1696-1731 | after crashed runs and one that finishes, the old lines and exactly one line for each object that was missing |
| Resume.CommitMakesProgress | src/packer.c:1907-1937 | each pack committed in full leaves strictly fewer objects without a line |
| Repository.CommitTrace | src/packer.c:1440-1617 | the states a commit passes through, in the order of its disk operations |
| Repository.RecoveryTrace | src/packer.c:1084-1414 | the states recovery passes through, in the order of its disk operations |
| Repository.Repo.RepairTail | src/packer.c:1084-1149 | the index is truncated to its last complete line, in one step |
| Repository.Repo.CollectIndexedPacks | src/packer.c:1203-1243 | the numbers found by text search in the complete lines |
| Repository.Repo.GatherDoomed | src/packer.c:1341-1397 | the names to delete, each once, gathered in directory order before anything is deleted |
| Repository.Repo.RewriteChecksumsFiltered | src/packer.c:1249-1315 | the lines of missing files go, by scratch file and rename, and nothing is written when there are none |
| Repository.Repo.Recover | src/packer.c:1084-1414 | recovery performs exactly the recorded steps and ends in the recovered disk |
| Repository.Repo.IndexAppend | src/index.c:473-548 | the index grows byte by byte |
| Repository.Repo.WriteOnePackAndCommit | src/packer.c:1440-1617 | one commit performs exactly the recorded steps and ends in the committed disk, which `Commit.CommittedContents` and `Commit.CommitKeepsSafe` describe |
| Repository.Repo.SelectNew | src/packer.c:1705-1722 | the objects the index has no line for, in order |
| Repository.Repo.Divide | src/packer.c:1765-1887 | the groups that become packs are the new objects' layout: every object once, none empty, the algorithm's bins for each class, as few as it promises, and within the target or a single object unless its load overflows |
| Repository.Repo.PackMulti | src/packer.c:1619-1937 | a target below 1 is refused before any step; otherwise the run's packs are the layout of exactly the objects that were missing - each class by the algorithm asked for, in as few packs as it promises, none mixed or empty, within the target - and the run passes through exactly its states and is a valid run exactly if pack numbers last |
| Repository.FewObjectsLast | src/packer.c:1907-1937 | they do if one pack an object would not reach the first number that is not recognised |
| Verify.VerifyChecksumsFile | src/verify.c:118-178 | fails exactly if some line's file is missing or its hash differs; collects the names listed |
| Verify.VerifyPacksVsChecksums | src/verify.c:180-203 | fails exactly if an archive or manifest is not listed |
| Verify.VerifyIndexVsPacks | src/verify.c:207-253 | fails exactly if an index line, a torn last one too, names a missing archive |
| Verify.TpVerify | src/verify.c:462-499 | passes exactly a clean repository, deeply checked if asked |
| Verify.ChangedFileFails | src/verify.c:118-178 | a repository that passes no longer does if a file of a pack gets another digest |
| Verify.LostFileFails | src/verify.c:118-178 | or is lost |
| Verify.AddedFileFails | src/verify.c:183-203 | or if an archive or manifest is added |
| Verify.LostPackFails | src/verify.c:207-253 | or if an archive that the index of a safe repository names is lost, even with its checksum lines |
| Verify.TornLineFails | src/verify.c:207-253 | a torn last index line that names a missing archive makes verification fail |
| Verify.VerifyOnePackObjects | src/verify.c:281-422 | fails exactly if a member is not in the manifest with its size and hash, or a manifest path is not among the seen ones |
| Verify.VerifyAllPacksObjects | src/verify.c:426-458 | fails exactly if some archive's check does |
| Verify.DeepOkMeans | src/verify.c:330-412 | a pack that passes has the same pathnames in archive and manifest, and contents as recorded |
| Verify.ChangedMemberFails | src/verify.c:330-382 | a member with other bytes than the manifest's hash was made from makes its pack fail |
| Verify.DistinctAgreeingIsDeepOk | src/verify.c:330-412 | the converse, when neither side repeats a pathname |
| Verify.RepeatedPathCanFail | src/verify.c:330-412 | with a repeated pathname the bounded list of seen paths refuses an archive and manifest that agree |
| Verify.AgreeingPassesExactly | src/verify.c:330-412 | an archive and manifest that agree pass exactly if every pathname is met among as many members as the manifest has entries |
| CleanRecovery.RecoveredCleanExactly | src/verify.c:462-499 | after recovery from a safe disk verification passes exactly when no file that survives has an outdated checksum line and no manifest without an archive lacks one |
| CleanRecovery.RecoveredClean | src/packer.c:1333-1414 | from a tidy disk recovery leaves exactly the indexed packs, and both verifications pass |
| CleanRecovery.CommitKeepsTidy | src/packer.c:1440-1617 | no step of a commit leaves a manifest without an archive or an outdated checksum line |
| CleanRecovery.ArchiveListedFirst | src/packer.c:1554-1585 | an archive's checksum line is there before its manifest's, which is there exactly behind the step that writes it |
| CleanRecovery.RunKeepsTidyExactly | src/packer.c:1317-1332 | a run from a tidy disk, wherever it crashes, leaves it tidy exactly if that is not between an archive's unlink and its manifest's |
| CleanRecovery.HistoryRecoversClean | src/packer.c:1084-1414 | after any history without a crash between an archive's unlink and its manifest's, recovery ends with no scratch file, exactly the indexed packs, current and complete checksums, and verification passing |
| CleanRecovery.FinishedRunClean | src/packer.c:1619-1937 | a run that finishes from a tidy disk leaves exactly the indexed packs, and both verifications pass |
| CleanRecovery.HistoryFinishesClean | src/verify.c:462-499 | after any history outside the window whose last run finished, both verifications pass |
| Leftovers.OrphanManifestRefused | src/packer.c:1399-1407 | a history with such a crash leaves a manifest that no recovery removes, and verification fails |
| Leftovers.OutdatedForever | src/packer.c:1249-1315 | an outdated checksum line of a file of an indexed pack is there after every later run |
| Leftovers.NeverCleanAgain | src/packer.c:1399-1407 | if, after such a crash of a pack whose checksum lines were written, a run reuses the number for another object, verification fails after every later run and recovery |
| ObjectIndex.PathKeyInjective | src/index.c:65-84 | equal keys mean equal path, size and modification time |
| ObjectIndex.NextIdFreshExactly | src/index.c:178-192 | the next id is above every numbered id exactly while none reaches the largest 64-bit number |
| ObjectIndex.NextIdLeast | src/index.c:178-192 | the next id is 1 or one above the number of some entry |
| ObjectIndex.NumberOfFormat | src/object.c:97-105 | a formatted id has the number it was formatted from |
| ObjectIndex.WholeIndexLoads | src/index.c:367-417 | an index of complete lines loads, as exactly its entries |
| ObjectIndex.LoadedExactly | src/index.c:367-417 | an index loads exactly if each of its lines is empty or can be read |
| ObjectIndex.Index.Insert | src/index.c:302-365 | the three tables and the next id take one entry more, entries without a hash staying out of the hash table |
| ObjectIndex.Index.Load | src/index.c:367-417 | succeeds exactly if every line that is not empty can be read, with all the entries in the tables; otherwise nothing is kept |
| ObjectIndex.Index.FindByPath | src/index.c:125-140 | finds an entry with the path, size and time, of the 64-bit types they are kept in, exactly if the log has one |
| ObjectIndex.Index.FindBySha | src/index.c:142-153 | finds an entry with a hash that is not empty exactly if the log has one |
| ObjectIndex.Index.FindById | src/index.c:165-174 | finds an entry with the id exactly if the log has one |
| Scan.Scanner.ChooseId | src/scanner.c:313-341 | by path, size and time in the index; failing that, when hashed, by hash; failing that a fresh id |
| Scan.Scanner.HandleFile | src/scanner.c:303-364 | one file more is written with the id its inode, the index or the counter gives it |
| Scan.TpScan | src/scanner.c:384-440 | -1 exactly if the index cannot be read; otherwise the snapshot has every file, in order, each with the id the rule gives, and 1 is returned exactly if a file that had to be hashed could not be |
| Identity.NewObjectsApart | src/scanner.c:333-338 | new inodes get different ids, none of them in the index |
| Identity.KnownExactly | src/scanner.c:313-341 | a file's id is one the index has exactly if the index knows its inode's first name by path, size and time or, when it is hashed, its hash |
| Identity.ScannedIdWritable | src/object.c:97-115 | every id a scan gives, new or cut from the index to 31 characters, can be written and read back |
| Identity.EntryOfScanned | src/scanner.c:311-348 | if the index has an entry for a scanned file's id, it describes that file's bytes |
| Identity.OneContentPerId | src/scanner.c:311-348 | files of a scan that share an id have the same bytes |
| Collect.CollectObjects | src/packer.c:71-121 | the objects of a snapshot are collected from its lines |
| Collect.CollectedExactly | src/packer.c:71-121 | they are the first lines of the ids, every id's and nothing else, each id once |
| Collect.CollectedInOrder | src/packer.c:71-121 | in the order of those lines |
| Collect.CollectedPaths | src/packer.c:71-121 | their pathnames differ when the snapshot's do |
| Links.CollectLinks | src/restore.c:105-153 | the groups of names are collected from a snapshot's lines |
| Links.LinkedHolds | src/restore.c:105-153 | one group an id, with exactly the paths of that id's lines, in order |
| Extract.RestoreOnePack | src/restore.c:519-656 | stopping as soon as nothing more is wanted comes to the same files, marks and warnings as the pass over the whole archive, in which each member goes to the first item that still wants it |
| Extract.TakeAllPassed | src/restore.c:588-656 | when neither side repeats a pathname: exactly the items found are marked, each lies at its target with its member's bytes, nothing else is written, and a warning is given exactly if some item's member has not the size, or not the hash, where there is one, of its entry |
| Extract.TakeAllTaken | src/restore.c:519-656 | of any archive and items with different targets: each item marked has the bytes of a member of its pathname, and a warning is given exactly if some item marked has bytes of another size or another hash than its entry's |
| Restore.CountUnsafe | src/restore.c:701-730 | zero exactly if every path of a file, directory or symbolic link is safe to create |
| Restore.Resolve | src/restore.c:732-764 | each group with an entry of its id; none missing exactly if the index has them all |
| Passes.ExtractPacks | src/restore.c:791-809 | -1 exactly if an archive is missing; nothing but first names is written; otherwise, whatever the archives hold, each object marked lies at its first name with the bytes of a member of its pack that has its pathname, a warning is given exactly if some such bytes have not the size or the hash of their entry, and where no object's place is ambiguous none that its archive has is missed |
| Passes.CreateEmpty | src/restore.c:811-837 | exactly the objects of size 0 that were not found are created, empty, the rest stays; a warning exactly if another object was not found |
| Restore.LinkRest | src/restore.c:840-865 | every other name of a group has the bytes of the first, nothing is overwritten, and a name that is there already is warned of |
| Restore.TpRestore | src/restore.c:658-865 | an unsafe path of any kind, an unreadable index or a missing object is refused before anything is written; otherwise -1 exactly if an archive is missing, for an index of distinct ids; status 0 means, with no path twice, that every path is there with bytes that are in its pack and have the size and any hash of its entry, or is empty as its entry says; where ids, paths and members are not repeated it is 0 exactly if every object is in its archive with its size and any hash, or empty and not there, and 1 otherwise; only paths of the snapshot are ever written; a packed snapshot of an intact repository, no two of whose paths name one place, is restored without a warning, each path with the bytes its entry describes |
| PathSafe.RestorePathSafe | src/restore.c:35-56 | accepts exactly the paths that are not empty, not absolute and have no component `..` |
| PathSafe.AcceptedStaysInside | src/restore.c:239-250 | resolved component by component, an accepted path joined to the destination never leaves it |
| PathSafe.LeadingDotDotLeaves | src/restore.c:35-56 | a path that begins with `..` leaves every destination but the root |
| PathSafe.PlacesApart | src/restore.c:239-250 | different paths of names, none leading through another, name different places below the destination, none of them on the way to another |
| PathSafe.SamePlace | src/restore.c:35-56 | accepted paths need not: one with `./` in front names the same place |
| TornIndex.RunCloses | src/index.c:367-417 | at every step of a run the index cannot be read, or reads, a last line without its newline included, like that of some step |
| World.SessionSettles | src/packer.c:1696-1731 | whether a snapshot is packed to the end or abandoned after a crash, what the index says stays true and no entry is lost; if packed to the end, every file of its tree has an entry that describes its bytes |
| World.LifeSettles | src/scanner.c:311-348 | equal ids mean equal bytes across all snapshots: after any number of sessions, finished or abandoned, the index describes, for every file of each that finished, the bytes it had then |
| World.RestoreAny | src/restore.c:658-865 | every snapshot that was packed to the end, whatever became of the others, restores to exactly the paths and bytes that were scanned; only after an abandoned one can the index be unreadable, and then nothing is written |
| Overlap.NothingMissing | src/packer.c:1705-1722 | of two trees scanned against one index and packed one after the other, the second has nothing packed |
| Overlap.RestoresOtherBytes | src/scanner.c:333-338 | and is restored without a warning with the first one's bytes |
| MidCrash.RunsLeave | src/index.c:473-548 | after any runs, crashed anywhere, either the index cannot be read or what is read of it, a last line without its newline included, is a safe repository with every earlier entry |
| MidCrash.RestoreAnytime | src/restore.c:658-865 | at any moment, also between a crash and the next recovery, a packed snapshot restores to exactly the paths and bytes that were scanned if the index can be read; it is refused before anything is written exactly if not, and then the index ends in the middle of a line |
| World.BackUp | src/packer.c:1619-1937 | a scan, the collection of its objects and a pack run are one more finished session of the repository's life as long as pack numbers last; an index that cannot be read makes the scan fail and nothing change |
| Upload.Store.TpUpload | src/upload.c:156-174 | the parts are copied in order up to the first failure, whose status is returned, 2 standing for a command that could not be run or has none; 0 exactly if every copy succeeded; `Upload.UploadChanges` says what the remote then has |
| Upload.UploadChanges | src/upload.c:12-17 | the remote index changes only if packs, checksums and snapshots were all copied without error, the checksums only if the packs were; the packs transferred are the local ones and no other file changes |
| Upload.CopyKeepsRemoteSafe | src/upload.c:12-17 | no copy, whole or partial, lets the remote index name a pack that is not there with the checksum lines of its two files; the index needs packs and checksums to be there |
| Upload.RunKeepsRemoteSafe | src/packer.c:1333-1414 | what the remote index names is never changed locally |
| Upload.EventsKeepSafe | src/upload.c:156-174 | after any interleaving of pack runs, crashed or finished, and uploads, cut off anywhere, every complete remote index line names a pack that is on the remote with the local bytes and its checksum lines |
| Upload.RemoteAlwaysSafe | src/upload.c:156-174 | and so, after it and at every step of every further upload, the remote's index is safe in the sense of a local one: each line's pack is there, listed with current hashes, and has the line's object in archive and manifest |
| Upload.CompleteUploadSafe | src/upload.c:156-174 | after an upload that succeeds, every object of the index can be had from the remote |
| RemoteRestore.RestoreFromRemote | src/upload.c:156-174 | after an upload that succeeds, of a repository at any moment, every snapshot packed before restores from the remote to exactly the paths and bytes that were scanned if the index copied can be read, and is refused before anything is written exactly if not, which only a crash in the middle of a line brings about |
| Upload.IndexFirstFails | src/upload.c:12-17 | copying the index before the packs would break this |
| Utf8.Utf8Valid | src/util.c:62-116 | accepts exactly the concatenations of UTF-8 encoded Unicode scalar values (sections 3 and 4 of RFC 3629) |
| Utf8.EncodingExactly | src/util.c:62-116 | an encoding starts a string exactly when the sequence there is whole, shortest and spells that scalar value |
| Utf8.UniqueDecoding | src/util.c:62-116 | a string is UTF-8 in at most one way |
| Base64.Base64Encode | src/util.c:118-156 | the encoding of section 4 of RFC 4648, by 24-bit groups |
| Base64.EncodedLength | src/util.c:118-128 | the buffer computed for it is exactly filled |
| Base64.DigitTable | src/util.c:118-120 | each digit stands for its place in the alphabet of section 4 of RFC 4648 |
| Base64.TestVectors | src/util.c:122-156 | the encodings of section 10 of RFC 4648 of f, fo, foo and foobar |
| Base64.ManifestDecode | src/manifest.c:370-422 | the snapshot reader's decoder, group by group |
| Base64.IndexDecode | src/index.c:231-284 | the index loader's decoder, padding counting as 0 in any place |
| Base64.PackDecode | src/packer.c:566-600 | the pack manifest reader's decoder, padding cut off at the end |
| Base64.DecodedInvertsEncoded | src/util.c:118-156 | each of the three decoders inverts the encoder on every byte string |
| Base64.ManifestAcceptsExactly | src/index.c:231-284 | on every text the snapshot reader gives what the index loader does, or refuses padding in the first two places of a group |
| Base64.PackAgreesExactly | src/packer.c:566-600 | on every text the pack manifest reader accepts what the snapshot reader does, and agrees with it exactly when padding stands only at the very end and a digit behind padding there spells the byte begun |
| PathField.SetPathField | src/manifest.c:55-104 | text for UTF-8, base64 otherwise |
| PathField.GetPathField | src/manifest.c:322-359 | what a reader makes of either form |
| PathField.RoundTripsExactly | src/manifest.c:322-422 | a path comes back unchanged, from any of the three readers, exactly unless it is UTF-8 with a NUL in it |
| PathField.StoredAsText | src/manifest.c:55-104 | a path without a NUL is stored as text exactly if it is UTF-8 |
| PathField.StoredInjective | src/manifest.c:55-104 | paths without a NUL are stored alike only if they are the same |
| JsonLines.IndexCodecSound | src/index.c:473-548 | an index line that JSON carries, its path as text or base64, is read back as the entry it was written for |
| SnapshotFile.ReadSnapshot | src/manifest.c:539-576 | every line of a snapshot that is not empty is read in turn, -1 at the first that cannot be |
| SnapshotFile.SnapshotReadsBack | src/manifest.c:126-281 | a snapshot written is read back as exactly its files, directories and symbolic links, in order |
| SnapshotFile.TakenApart | src/restore.c:387-457 | taken apart into files, directories and symbolic links, the lines of a snapshot are all there and nothing else is |
| SnapshotFile.ScannedItemsOk | src/scanner.c:349-358 | every file line of a scan can be written |

## Left out

- libarchive, zstd and tar headers, locale handling and recorded offsets: an archive is a sequence of pathnames and bytes.
- cJSON, uthash and SHA-256 themselves; what becomes of integers beyond 2^53 on their way through a double.
- Which objects are incompressible: the class of an object is an arbitrary boolean.
- Errors of single system calls while writing (a failed write or rename, a full disk) and allocation failures, apart
  from the sort's fallback; fsync and the reordering of writes by a power loss.
- A SHA256SUMS line torn by a crash: its append is one short write and is taken to be atomic. A torn one would make
  recovery fail to read the file.
- Changes to files while they are packed: size mismatches, padding, files that vanish.
- Directories, symbolic links, ownership, modes, times and other metadata, on the way in and out; walking a tree. Two
  inodes that share an id are restored as hard links with the first one's metadata, so the round trip is stated on
  paths and bytes only.
- Building argument lists and running the copy command; a transferred file is taken to arrive whole.
- Choosing the latest snapshot, messages and counters shown to the user, and the command line.
- Passes.SortByPack: orders by pack only; the order of objects within a pack, which the source fixes by id, has no effect.
- Scan.TpScan: lines that cannot be written, entries and directories that cannot be read, and files of other kinds are
  not modelled; what is modelled of the status 1 is that a file could not be hashed.
- Restore.TpRestore: of directories and symbolic links only their paths' safety is modelled; creating them, and all
  metadata, is not.
- ObjectIndex.Index.FindBySha: hashes longer than 64 characters, which the loader would cut, are not modelled.
