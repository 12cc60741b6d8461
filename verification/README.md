# A verified model of an NTFS reader's algorithms

The library reads damaged NTFS volumes. Most of its algorithms are fast forms of a
simple meaning: a sweep stands for a condition of each cluster, a standing zone for
a fresh walk, a cache for the disk. This project models those algorithms in Dafny,
loops, fields and edge cases included, and proves each against its meaning.

## What is modelled

- **Cluster accounting** (`ClaimInventory`, `ClusterSweep`, `ContentCheck`,
  `ClusterPieces`, `ClusterTally`, `Assembler`, `ClusterAccounts`). Claims are cut
  from stream layouts and balanced with their accounts; a sweep over the sorted
  claims judges every cluster of every concerned stream; a content check splits the
  stretches it reads; compression units break, gaps are filled and neighbours
  join. The meaning is `ConditionAt`, a condition for one claim and one cluster
  over all claims of the scan. `ClusterAccounts.AccountClusters` ties the chain
  together and conserves every cluster.
- **Cluster bitmap and bad list** (`BadClusterList`, `BitmapBits`,
  `ClusterBitmap`). The bitmap is read by windows that may fail or come back short;
  the bad list is clamped, sorted and merged in place. Counts and runs agree with
  one state for each cluster.
- **Read-ahead protocol** (`ReadAhead`). The caller and the worker are a state
  machine of 24 kinds of steps, with two locks and two condition variables, taken
  in any order.
- **Standing lane** (`LanePlans`, `ProbeLane`). The lane's zone is topped up from
  call to call; it is proved equal to a fresh recomputation, and the ranges the
  reader holds equal to the runs announced.
- **Directory B+ tree** (`IndexTree`, `DirectoryIndex`). Lookup with equal keys of
  different spelling, hidden entries and a stop rule; the walk, the groups it
  probes, and the scan for orphaned blocks, on any graph of blocks.
- **Run planning** (`MftRuns`, `RecordSet`, `SlotCover`, `ProbeRuns`, `RunPlanner`,
  `EntryProber`). The greedy grouping is optimal without a wide gap; the hash set
  and the interval set refine mathematical sets; the planner foretells exactly
  what the prober reads.
- **Caches** (`BlockCache`, `FileReader`, `RecordWindow`, `RecordMemo`). A bounded
  least-recently-used cache under views that pin blocks, a loader of several blocks
  in one read, a window that serves the newest copy, and a direct-mapped table.
- **Run lists and stream reads** (`RunEntries`, `RunLists`, `AttributeMerge`,
  `StreamBytes`, `StreamReader`). Packed runs decode to ordered lists, with an
  encoder as the inverse; instances of one stream are spliced; reads by whole
  clusters refine the stream byte by byte.

`Prelude`, `AllocTypes` and `Media` hold what the modules share: options, 64-bit
limits, the contract of a sort, rounding to units, and a medium as a byte and a
readability at each address.

Integers are unbounded; the 64-bit, 32-bit and 31-bit limits of the code are written
out where they decide something. A reader of bytes is a function from ranges to bytes
or failure, arbitrary within what it promises. Ghost parameters and results name what
the code does not compute: which claim a stretch comes from, the states a count
stands for, the reads made so far.

## Where the code and its comments differ

- An empty run at VCN 0 under a bound of all ones is kept with last VCN 2^64 - 1
  (`RunEntries.DecodedUsable`). The walk over extents then never ends exactly when
  the range asked for is not empty and that run is a hole, or is real, the range
  starts at VCN 0 and the run's LCN is not past the limit (`RunLists.WalkEndsIff`,
  with an input in `RunLists.EmptyHoleStalls`).
- The instances of a stream are checked by their headers alone before they are spliced.
  An empty, an inverted range, or one that ends at 2^64 - 1, passes, and its runs may
  wrap over those of the other instances, against `src/io/file-record-attrs.cpp:514-518`
  (`AttributeMerge.SplicesRightIff`).
- A bad list clamped to no volume size can keep an empty extent at the largest LCN
  (`BadClusterList.ClampedMeans` and `MergedMeans` say exactly when).
- Slot 2^64 - 1 of the record memo has the mark of an empty place
  (`RecordMemo.EmptyFinds`). A record that cannot be kept drops an older one of its
  own slot, not of its place as `src/io/record-memo.h:42` says
  (`RecordMemo.RecordMemo.PutOne`).
- Lowering the bitmap's retention budget to a value other than 0 frees nothing, so
  the bound of `src/alloc/cluster-bitmap.h:160-161` can be passed
  (`ClusterBitmap.LoweredBudget`).
- Queries over the same clusters of several windows have windows read more than once,
  against `src/alloc/cluster-bitmap.h:70-71` (`ClusterBitmap.SharedReadTwice`). While
  no window is kept and none failed, `ClusterBitmap.ReadOnceIff` says exactly when
  not, whatever window was held before.
- `src/io/file-reader.cpp:489` calls the block just copied free to go, but the
  local pointer still holds it while the cache is trimmed
  (`FileReader.FileReader.TrimAround`).

## Model

| member | source | states |
|---|---|---|
| ClaimInventory.AppendPart | src/alloc/claim-inventory.cpp:53-72 | An empty part appends nothing. Any other appends one claim at the part's own LCN and VCN that holds at most 2^31 - 1 clusters with the part's flag, and an account ends up with every cluster of the part as real or invalid. |
| ClaimInventory.AppendRun | src/alloc/claim-inventory.cpp:79-109 | Of one run, each VCN is claimed exactly once, at its own LCN and as written or not, up to 2^31 - 1 clusters of each part; a hole goes to the sparse ranges, and an overflowing run or what a cut part leaves to the invalid ones, with or without an account. |
| ClaimInventory.AppendClaims | src/alloc/claim-inventory.cpp:77-110 | The same for a whole layout: each VCN is claimed once for each run that gives it an address and by this stream alone, sparse grows by the holes and invalid by what is lost, and the old claims stay. |
| ClaimInventory.TakeSizes | src/alloc/claim-inventory.cpp:113-124 | The span never shrinks and reaches the declared and the covered end; what the account counts, its name and its owner are untouched. |
| ClaimInventory.SizesOfFirstPart | src/alloc/claim-inventory.cpp:113-124 | Whatever the order of its parts, an account has the sizes of the last part that is no continuation, once that part or an earlier one spans a cluster, and the span of the furthest end. |
| ClaimInventory.CollectUncounted | src/alloc/claim-inventory.cpp:173-182 | A new stream without an account claims exactly the clusters of the layout; every account stays as it was, and the balance between claims and accounts holds. |
| ClaimInventory.CollectCounted | src/alloc/claim-inventory.cpp:166-172 | A further part of a $DATA stream is claimed, cluster by cluster, for the one account of its name, which lists its holes and what is lost; every other account stays. |
| ClaimInventory.CollectAttribute | src/alloc/claim-inventory.cpp:155-177 | Each cluster of any attribute is claimed for the account of its name, or for none; the bad cluster list adds no claim. |
| ClaimInventory.CollectClaims | src/alloc/claim-inventory.cpp:129-184 | Each cluster of each attribute but the bad cluster list, and of each claimed layout, is claimed exactly as its runs say by the streams of the right account; accounts list holes and lost clusters, have the sizes of their parts, and balance with their claims. |
| ClaimInventory.AddKeepsValid | src/alloc/claim-inventory.cpp:186-219 | Adding any record keeps the inventory balanced: references resolve, and every account counts the clusters of its own claims and no others. |
| ClaimInventory.AddTells | src/alloc/claim-inventory.cpp:186-219 | Each claim of an added record is reached by a new owner with that record's LSN, number and freed flag, and its account is the record's own, under the record's number. |
| ClaimInventory.AddKeeps | src/alloc/claim-inventory.cpp:186-219 | Claims and accounts added before keep their owners, accounts and record numbers. |
| ClaimInventory.AddedAccount | src/alloc/claim-inventory.cpp:186-219 | After a record is added, each account, old or new, still counts exactly the clusters its claims hold. |
| ClaimInventory.ClaimedByAdded | src/alloc/claim-inventory.cpp:200-215 | Claims rebased after others owe nothing to the accounts before them, and the others nothing to theirs. |
| ClaimInventory.InventoryOfIsValid | src/alloc/claim-inventory.cpp:186-219 | The inventory of any list of records is balanced. |
| ClaimInventory.InventoryTells | src/alloc/claim-inventory.cpp:186-219 | The claims and accounts of an inventory are exactly those of its records, in order, each under its record's facts, one owner for each record. |
| ClaimInventory.ClaimOrigin | src/alloc/claim-inventory.cpp:186-219 | Every claim of an inventory is one of some record that was taken. |
| ClusterSweep.SurveyRivals | src/alloc/cluster-sweep.cpp:89-110 | Each of the four facts holds if and only if some claim of another record in the list makes it true, whatever the order of the list. |
| ClusterSweep.RivalsSeen | src/alloc/cluster-sweep.cpp:56-110 | When the active list names the claims covering a cluster, the survey of the list answers for all the claims of the scan at that cluster. |
| ClusterSweep.FreedCondition | src/alloc/cluster-sweep.cpp:127-146 | The condition of a freed claim's cluster is the pointwise condition over all claims of the scan and the cluster's state. |
| ClusterSweep.LiveCondition | src/alloc/cluster-sweep.cpp:149-169 | The same for a live claim's cluster. |
| ClusterSweep.ConditionIsConstant | src/alloc/cluster-sweep.cpp:223-256 | Where the same claims cover two clusters, a claim's condition depends on the state alone. |
| ClusterSweep.IntactIsExclusive | include/ntfs-browser/alloc/cluster-account.h:66-68 | No cluster is presumed intact for two records. |
| ClusterSweep.SoundForOneLiveRecord | include/ntfs-browser/alloc/cluster-account.h:66-78 | A cluster that is consistent or presumed intact for one record is claimed by no other live record. |
| ClusterSweep.CoverIsConstant | src/alloc/cluster-sweep.cpp:180-205 | From a position to the first start or end of a claim after it, the same claims cover every cluster. |
| ClusterSweep.RunIsOneCondition | src/alloc/cluster-sweep.cpp:225-256 | Over one run of states inside such a stretch, every cluster has the condition of the first. |
| ClusterSweep.Sweeper.ConditionOf | src/alloc/cluster-sweep.cpp:238-240 | Freed or live, the condition found is the pointwise one. |
| ClusterSweep.Sweeper.JudgeRun | src/alloc/cluster-sweep.cpp:236-254 | One more run of states leaves the claim settled to the run's end, and the stretches of every other claim as they were. |
| ClusterSweep.Sweeper.JudgeClaim | src/alloc/cluster-sweep.cpp:225-256 | A claim is settled from its first cluster to the end of the stretch judged. |
| ClusterSweep.Sweeper.Judge | src/alloc/cluster-sweep.cpp:225-256 | Every active concerned claim is settled to the end of the stretch, and no other claim gains a stretch. |
| ClusterSweep.Sweeper.NextEnd | src/alloc/cluster-sweep.cpp:192-198 | The next stop is past the position and not past any active claim's end or the next claim's start. |
| ClusterSweep.Sweeper.DropEnded | src/alloc/cluster-sweep.cpp:200-202 | The claims left are exactly those that end past the position. |
| ClusterSweep.Sweeper.EnterAll | src/alloc/cluster-sweep.cpp:184-191 | Every claim that starts at the position is active, and none that starts later. |
| ClusterSweep.Sweeper.Step | src/alloc/cluster-sweep.cpp:180-205 | One turn of the sweep moves the position on, at most to the last end, and keeps every concerned claim settled up to it. |
| ClusterSweep.Sweeper.Run | src/alloc/cluster-sweep.cpp:180-205 | For every list of nonempty claims sorted by LCN the sweep ends, and the stretches of each concerned claim tile it exactly, at its VCNs, each cluster with its pointwise condition; no other claim has one. |
| ClusterPieces.UnitsOfPiece | src/alloc/cluster-sweep.cpp:569-572 | The range computed for a piece holds a VCN exactly when the piece holds a cluster of the same unit. |
| ClusterPieces.JoinRange | src/alloc/cluster-sweep.cpp:572-580 | Joining a range keeps the list sorted and apart, and adds exactly its VCNs. |
| ClusterPieces.BrokenUnits | src/alloc/cluster-sweep.cpp:560-582 | A VCN is in the broken ranges if and only if its unit holds a cell that is none of Intact, IntactChecked, Consistent, Sparse and NeverWritten; the ranges are sorted and never touch. |
| ClusterPieces.MarkBrokenUnits | src/alloc/cluster-sweep.cpp:584-628 | Cell by cell, the result is the pieces with the fine and sparse cells of the ranges lost: no cell moves, disappears or changes its LCN. |
| ClusterPieces.MarkPiece | src/alloc/cluster-sweep.cpp:592-626 | The same for one piece, starting from the first range that can touch it. |
| ClusterPieces.MarkUnits | src/alloc/cluster-sweep.cpp:560-628 | Cell by cell, a unit whose cells are all Intact, IntactChecked, Consistent, Sparse or NeverWritten stays as it was, and any other loses exactly its Intact, IntactChecked, Consistent and Sparse cells. |
| ClusterPieces.FillGaps | src/alloc/cluster-sweep.cpp:760-784 | The filled pieces are sorted, hold every VCN below the span and the last end and no other; what was added has no address and lies where no piece does. |
| ClusterPieces.FilledHolds | src/alloc/cluster-sweep.cpp:762-780 | The filled list holds exactly the VCNs below the end of the last piece. |
| ClusterPieces.FilledGaps | src/alloc/cluster-sweep.cpp:762-780 | Each piece of the filled list is one of the pieces or a gap that none of them holds. |
| ClusterPieces.Merge | src/alloc/cluster-sweep.cpp:786-805 | Joining neighbours changes no cell's VCN, condition or whether it has an address, and leaves no two neighbours that could join. |
| ClusterPieces.JoinsIff | src/alloc/cluster-sweep.cpp:786-805 | Two neighbours may join if and only if one piece shows the clusters of both. |
| ClusterTally.Tally.Add | include/ntfs-browser/alloc/cluster-account.h:106-109 | One counter grows by the clusters added, and every other keeps its count. |
| ClusterTally.TotalIsAddressed | include/ntfs-browser/alloc/cluster-account.h:95-104 | The counters of a list of cells add up to its cells with an address: none is counted twice or missed. |
| ClusterTally.MarkingKeepsAddressed | src/alloc/cluster-sweep.cpp:584-628 | Losing units never changes how many cells have an address. |
| ClusterTally.SortedCount | src/alloc/cluster-sweep.cpp:738-760 | Sorting pieces changes no count. |
| ClusterTally.FilledToCount | src/alloc/cluster-sweep.cpp:762-784 | Filling gaps changes no count of cells with an address. |
| Assembler.CompleteCount | src/alloc/cluster-sweep.cpp:738-760 | Completing a stream's map counts its stretches and nothing else. |
| Assembler.PlainCount | src/alloc/cluster-sweep.cpp:644-660 | An uncompressed stream's final cells count each stretch under its own condition. |
| Assembler.FinalUnits | src/alloc/cluster-sweep.cpp:560-628 | Of a compressed stream's final cells exactly those of units that are not whole are lost; of another stream none. |
| Assembler.UnitCounted | src/alloc/cluster-sweep.cpp:560-628 | A compressed stream counts its addressed cells so: those of whole units as they were, the fine ones of the others as lost. |
| Assembler.CompleteHolds | src/alloc/cluster-sweep.cpp:738-760 | The addressed cells of a stream's map are exactly the clusters of its stretches, each at its own VCN and LCN, as judged. |
| Assembler.CompleteHoles | src/alloc/cluster-sweep.cpp:738-760 | Its holes are exactly the clusters of the sparse ranges. |
| Assembler.OwnerCountAdded | src/alloc/cluster-sweep.cpp:644-660 | A stretch added changes its owner's early count by its clusters, under its condition alone, and only for an uncompressed stream. |
| Assembler.OwnerCountFinished | src/alloc/cluster-sweep.cpp:697-736 | Finishing one stream changes its owner's count by what of the stream had waited, and no other owner's. |
| Assembler.StreamFinished | src/alloc/cluster-sweep.cpp:697-736 | A finished stream leaves the results right for one stream more, counts and maps. |
| Assembler.Assembler.Add | src/alloc/cluster-sweep.cpp:644-660 | The state stays right for the stretches added so far, this one last. |
| Assembler.Assembler.CompletePieces | src/alloc/cluster-sweep.cpp:738-760 | The pieces of a stream are its stretches, holes and invalid ranges in VCN order with gaps filled to the span. |
| Assembler.Assembler.FinishPieces | src/alloc/cluster-sweep.cpp:708-735 | Each counter grows by the addressed clusters that had waited, judged after the broken units, and the map appended is the stream's. |
| Assembler.Assembler.FinishStream | src/alloc/cluster-sweep.cpp:697-736 | The results are right for one stream more. |
| Assembler.Assembler.Finish | src/alloc/cluster-sweep.cpp:664-678 | The accounts are those of the owners in order, each once, and a record is left out exactly when it has no cluster counted and no map. |
| ContentCheck.Cut | src/alloc/cluster-sweep.cpp:361-375 | The targets of a stretch are parts of it no longer than one read, share no cluster, and cover all of it. |
| ContentCheck.LowestStretches | src/alloc/cluster-sweep.cpp:335-350 | Each account with a readable stretch is given its readable stretch of lowest VCN. |
| ContentCheck.ChooseTargets | src/alloc/cluster-sweep.cpp:332-359 | Targets are readable and share no cluster; a full check targets every readable cluster, a sample the first cluster of the lowest readable stretch of each account that has one. |
| ContentCheck.PlanReads | src/alloc/cluster-sweep.cpp:378-405 | The reads take the sorted targets in order, each wholly in one read, start and end with their targets, and two neighbours share a read exactly when the gap between them and the length of the read allow it. |
| ContentCheck.Classify | src/alloc/cluster-sweep.cpp:464-502 | Each cluster of a target gets exactly one edit, with the condition of its own bytes, inside the target. |
| ContentCheck.ReadAll | src/alloc/cluster-sweep.cpp:428-462 | Edits tell what their clusters hold and never overlap; when every read is addressable and comes back, every targeted cluster has one; the count returned is that of the clusters of the reads that came back. |
| ContentCheck.AddressFits | src/alloc/cluster-sweep.cpp:431-445 | A read is addressable if and only if the byte address of its end fits 63 bits. |
| ContentCheck.ApplyTo | src/alloc/cluster-sweep.cpp:516-535 | One stretch becomes parts with the same cells, each edited cell with its edit's condition. |
| ContentCheck.Apply | src/alloc/cluster-sweep.cpp:504-537 | The cells after the split are those before it, in order, with exactly the edited ones re-judged. |
| ContentCheck.Check | src/alloc/cluster-sweep.cpp:305-326 | Only cells presumed intact, of streams that are not encrypted, change, and each takes the condition its own content gives; a full check over a medium that answers judges all of them; the count returned is that of the reads planned for the mode's targets. |
| ClusterAccounts.SortedIsReady | src/alloc/cluster-sweep.cpp:817-826 | Sorting the claims of a balanced inventory keeps it balanced and makes it one the sweep takes. |
| ClusterAccounts.SweptStretch | src/alloc/cluster-sweep.cpp:180-256 | Each stretch of a sweep lies in the claim it comes from, at its VCNs, with its pointwise conditions. |
| ClusterAccounts.IntactForOneRecord | include/ntfs-browser/alloc/cluster-account.h:66-68 | Two stretches of one sweep that presume the same cluster intact are of one record. |
| ClusterAccounts.SweepConserves | src/alloc/cluster-sweep.cpp:180-256 | The stretches of an account hold exactly as many clusters as its claims. |
| ClusterAccounts.CheckConserves | src/alloc/cluster-sweep.cpp:305-537 | The content check changes no account's number of clusters. |
| ClusterAccounts.FinalAddressed | src/alloc/cluster-sweep.cpp:697-760 | The cells with an address of a finished stream are as many as its stretches' clusters, compressed or not. |
| ClusterAccounts.StreamConserved | src/alloc/cluster-sweep.cpp:644-736 | The counts of a stream add up to max(span, real + sparse + invalid). |
| ClusterAccounts.TallyConserved | src/alloc/cluster-sweep.cpp:644-736 | The tally of a record adds up over its streams: each cluster is counted once. |
| ClusterAccounts.AssembleAll | src/alloc/cluster-sweep.cpp:834-838 | From any stretches that hold what the accounts say, every record that is not empty is reported once, in order, with a result that counts and conserves its clusters. |
| ClusterAccounts.AccountClusters | src/alloc/cluster-sweep.cpp:814-839 | End to end: every cluster of every concerned claim is judged against all claims, the check splits but never loses stretches and judges no cluster of an encrypted stream, a full one over a medium that answers judges every other cluster presumed intact, and every record's account conserves its clusters at either level. |
| BadClusterList.ClampToVolume | src/alloc/bad-cluster-list.cpp:33-57 | In place, the kept extents are the input's parts inside the volume in order; the flag is set exactly when some extent lost a cluster. |
| BadClusterList.ClampedMeans | src/alloc/bad-cluster-list.cpp:33-57 | Clamping keeps exactly the listed clusters of the volume, and leaves an empty extent exactly when no volume size is known and an extent starts at 2^64 - 1. |
| BadClusterList.NamesMeans | src/alloc/bad-cluster-list.cpp:26-33 | An extent names its clusters up to 2^64 - 1, and no other. |
| BadClusterList.MergedMeans | src/alloc/bad-cluster-list.cpp:60-79 | Merging keeps exactly the listed clusters, and an empty extent remains exactly when there was one and 2^64 - 2 is not listed. |
| BadClusterList.MergeSorted | src/alloc/bad-cluster-list.cpp:66-78 | In place, the kept extents are the merge of the sorted input. |
| BadClusterList.SortAndMerge | src/alloc/bad-cluster-list.cpp:60-79 | In place, the kept extents are sorted, apart, and list exactly the clusters the input did, with the exact condition for an empty one. |
| BadClusterList.Build | src/alloc/bad-cluster-list.cpp:92-132 | The list is refused exactly when strict and incomplete or too long; otherwise it is the whole list, or its lowest extents when recovering past the ceiling. |
| BadClusterList.Overlapping | src/alloc/bad-cluster-list.cpp:136-156 | The two binary searches find exactly the extents that meet the range. |
| BadClusterList.CountIn | src/alloc/bad-cluster-list.cpp:158-165 | The count is the number of clusters of the range that the list names, one by one. |
| BitmapBits.MaskedBit | src/alloc/cluster-bitmap.cpp:59-61 | The mask keeps a bit exactly when it is set and inside the range. |
| BitmapBits.OneByteCounted | src/alloc/cluster-bitmap.cpp:53-65 | The set bits of a masked byte are those of the part of the range the byte holds. |
| BitmapBits.CountSet | src/alloc/cluster-bitmap.cpp:48-67 | Counting by masked bytes gives the number of set bits of the range. |
| BitmapBits.AppendRun | src/alloc/cluster-bitmap.cpp:76-89 | The runs spell the states before it and the new ones, and stay maximal. |
| BitmapBits.EndOfRun | src/alloc/cluster-bitmap.cpp:105-118 | The end found, by bytes where it can, is where the bit first changes. |
| BitmapBits.AppendBitRuns | src/alloc/cluster-bitmap.cpp:91-123 | The runs spell the states of the bits, one for one, and stay maximal. |
| BitmapBits.SpelledTiles | src/alloc/cluster-bitmap.cpp:76-123 | Runs that spell a list of states tile its range with the state of each cluster. |
| ClusterBitmap.MoveToBad | src/alloc/cluster-bitmap.cpp:203-222 | Moving one extent's clusters leaves each counter equal to the count of its state, with that part bad. |
| ClusterBitmap.PartWithin | src/alloc/cluster-bitmap.cpp:209-221 | A part counts no more than the whole, so the subtractions never pass zero. |
| ClusterBitmap.ApplyBad | src/alloc/cluster-bitmap.cpp:198-223 | The counters are those of the range with exactly the listed clusters bad, and the disagreement flag is exact. |
| ClusterBitmap.OverlayRun | src/alloc/cluster-bitmap.cpp:372-405 | One run is cut where the list names its clusters, and the runs stay maximal. |
| ClusterBitmap.OverlayBad | src/alloc/cluster-bitmap.cpp:366-409 | The runs spell the states with exactly the listed clusters bad, stay maximal, and the disagreement flag is exact. |
| ClusterBitmap.SegmentRight | src/alloc/cluster-bitmap.cpp:243-262 | The part one window judges gives each cluster as the file has it, or unknown because a read failed. |
| ClusterBitmap.AnswerWithoutFailure | src/alloc/cluster-bitmap.h:62-72 | With a reader that never fails, an answer holds the state and the counts of the clusters' own states. |
| ClusterBitmap.RunsWithoutFailure | src/alloc/cluster-bitmap.h:74-81 | With a reader that never fails, the runs tile the range with each cluster's own state: past the volume, listed, its bit, or unknown past the file. |
| ClusterBitmap.CountsAddUp | src/alloc/cluster-bitmap.cpp:225-278 | Allocated + free + unknown + bad is the length of the range. |
| ClusterBitmap.ClusterBitmap.Keep | src/alloc/cluster-bitmap.cpp:190-195 | A window is kept only within the budget, and is otherwise the one held. |
| ClusterBitmap.ClusterBitmap.ReadWindow | src/alloc/cluster-bitmap.cpp:165-196 | The window read tells the truth of the file, is read once, is held after, and is remembered when short. |
| ClusterBitmap.ClusterBitmap.Load | src/alloc/cluster-bitmap.cpp:148-163 | A read happens exactly when the window is neither kept, held nor failed; none is given only for a failure. |
| ClusterBitmap.ClusterBitmap.Segment | src/alloc/cluster-bitmap.cpp:233-262 | The next part of a range lies in one window and is judged right, and one window is visited. |
| ClusterBitmap.ClusterBitmap.Count | src/alloc/cluster-bitmap.cpp:225-278 | The counters are the histogram of states that are right for each cluster, under any failures, with the listed ones bad. |
| ClusterBitmap.ClusterBitmap.BitRuns | src/alloc/cluster-bitmap.cpp:324-364 | The maximal runs spell states that are right for each cluster, under any failures. |
| ClusterBitmap.ClusterBitmap.StateRuns | src/alloc/cluster-bitmap.cpp:411-429 | The maximal runs spell the range: right states, the listed clusters bad, and out of range past the volume. |
| ClusterBitmap.ClusterBitmap.StatesInOrder | src/alloc/cluster-bitmap.cpp:280-322 | Every query keeps its place and range and is answered right; queries sharing no cluster never have a window read twice, and while nothing is kept or failed the windows read are exactly those visited in order from the one held before. |
| ClusterBitmap.ReadOnceIff | src/alloc/cluster-bitmap.h:70-72 | The promise to read each window once, with nothing kept or failed and any window held before: no window is read twice if and only if each query, in LCN order, starts in the window where the one before ended, or later, or the queries turn back once, to the held window alone. |
| ClusterBitmap.SharedReadTwice | src/alloc/cluster-bitmap.h:70-72 | An input where that promise fails: two queries over the first two windows read windows 0, 1, 0, 1. |
| ClusterBitmap.ClusterBitmap.Summary | src/alloc/cluster-bitmap.cpp:431-462 | Nothing is given exactly when every cluster is unknown; otherwise the counts are those of the whole volume's states, byte sizes saturated. |
| ClusterBitmap.SizeMeans | src/alloc/cluster-bitmap.cpp:444-458 | A size in bytes is the product, stopped at 2^64 - 1. |
| ClusterBitmap.BitsAll | src/alloc/cluster-bitmap.cpp:41-48 | The file has a bit exactly where it has the byte of it. |
| ClusterBitmap.ClusterBitmap.SetRetention | src/alloc/cluster-bitmap.cpp:470-476 | The kept bytes fit the new budget if and only if it is 0 or they already did. |
| ClusterBitmap.LoweredBudget | src/alloc/cluster-bitmap.h:160-161 | Over every file of two bytes or more a bitmap can be left keeping more bytes than its budget: one window kept, then the budget lowered below it. |
| ReadAhead.DropKeeps | src/io/read-ahead-disk-reader.cpp:244-249 | Dropping the window keeps the window and the worker right. |
| ReadAhead.TrimKeeps | src/io/read-ahead-disk-reader.cpp:251-258 | So does trimming what the caller has read past. |
| ReadAhead.TopUpKeeps | src/io/read-ahead-disk-reader.cpp:277-307 | So does queueing ahead; the window stays contiguous and no longer than allowed, and the worker is awake for what was queued. |
| ReadAhead.CopyRight | src/io/read-ahead-disk-reader.cpp:378-390 | Copying from a ready chunk moves on and keeps the bytes copied the medium's. |
| ReadAhead.RoundUpLeast | src/io/read-ahead-disk-reader.cpp:42-45 | A chunk's size is the least multiple of the alignment that holds it. |
| ReadAhead.StepKeeps | src/io/read-ahead-disk-reader.cpp:318-430 | Every step of either thread, in any order, keeps the invariant: locks exclude, the window is contiguous and bounded, chunks and copied bytes are the medium's, a waiting caller's chunk is wanted. |
| ReadAhead.EveryCallIsRight | src/io/read-ahead-disk-reader.cpp:394-430 | Under every interleaving a call succeeds exactly when all bytes asked for are readable, and then returns the medium's own. |
| ReadAhead.StepDecreases | src/io/read-ahead-disk-reader.cpp:335-392 | Each step during a call, spurious wakes aside, leaves strictly less to do. |
| ReadAhead.CallReturns | src/io/read-ahead-disk-reader.cpp:359-430 | A call lasts no more steps, of both threads together, than its measure. |
| ReadAhead.CallIsBounded | src/io/read-ahead-disk-reader.cpp:359-430 | That measure is at most linear in the bytes asked for and the chunks of the window. |
| ReadAhead.NeverStuck | src/io/read-ahead-disk-reader.cpp:335-430 | During a call some step that is not a spurious wake can always be taken. |
| ReadAhead.WaitIsServed | src/io/read-ahead-disk-reader.cpp:371-381 | Whenever the caller waits, its chunk is in the window, not cancelled and not finished, and the worker itself has an enabled step. |
| LanePlans.SetRunMeans | src/io/probe-lane.cpp:234-246 | Changing one run's state changes no other run, no cursor and no plan's shape. |
| LanePlans.ChainIsMeant | src/io/probe-lane.cpp:319-333 | The chain is the listed directory's plan, if any, then exactly the planned directories of the order, in its order, none of them the listed one. |
| LanePlans.FirstAreZone | src/io/probe-lane.cpp:319-356 | The first unread runs of the chain are unread runs in reading order, none left out but for want of room, the listed directory's first unread run at the head. |
| LanePlans.ApartMeans | src/io/probe-lane.cpp:93-106 | Two runs count as apart if and only if every slot of one lies further than the bound from every slot of the other. |
| LanePlans.LaneSlots | src/io/probe-lane.cpp:162-176 | The slots that the reader is told of are exactly those of the runs on the lane. |
| LanePlans.LiveLater | src/io/probe-lane.h:77-80 | Filtering a zone later by what is unread gives what filtering the whole chain then would: a zone only loses runs. |
| LanePlans.ZoneStays | src/io/probe-lane.h:191-194 | While runs become done, the zone and the rest of the chain still hold all unread runs in order. |
| LanePlans.ZoneIsFirst | src/io/probe-lane.cpp:359-396 | A zone that is full, or reached the chain's end, is the first unread runs of the chain. |
| LanePlans.TakenOff | src/io/probe-lane.cpp:162-176 | Withdrawing a run removes its own range from the reader and no other, though a withdrawal takes every overlapping range. |
| LanePlans.PutOn | src/io/probe-lane.cpp:410-439 | Announcing a run that overlaps none on the lane keeps the runs apart and the reader's ranges exact. |
| LanePlans.ForgetKeeps | src/io/probe-lane.cpp:178-183 | Forgetting unannounced runs leaves the list exactly the runs announced. |
| ProbeLane.ProbeLane.TakeOff | src/io/probe-lane.cpp:162-176 | Only the run's state and its own range change. |
| ProbeLane.ProbeLane.RetireRun | src/io/probe-lane.cpp:234-246 | The run is done; its range leaves the reader exactly when it was announced. |
| ProbeLane.ProbeLane.RetireRuns | src/io/probe-lane.cpp:185-195 | The runs of a stretch of a plan are done, their announced ranges gone, and every other run and cursor untouched. |
| ProbeLane.ProbeLane.ChainOf | src/io/probe-lane.cpp:314-330 | The chain starts with the plan of the directory listed exactly when there is one, does not hold it again, and goes on with exactly the planned directories of the order, in the order's order. |
| ProbeLane.ProbeLane.TopUpZone | src/io/probe-lane.cpp:339-356 | Only stamps change; the zone ends full or the chain ends. |
| ProbeLane.ProbeLane.RebuildZone | src/io/probe-lane.cpp:314-337 | The zone is filled afresh from such a chain of the directory listed. |
| ProbeLane.ProbeLane.VerifyZone | src/io/probe-lane.cpp:359-396 | The check answers exactly whether the zone is the first 2 * lane_runs unread runs and, without a rebuild, no announced run left it. |
| ProbeLane.ProbeLane.WithdrawLeftOut | src/io/probe-lane.cpp:398-408 | After it every announced run is of the zone's stamp, and no run became or ceased to be unread. |
| ProbeLane.ProbeLane.AnnounceRun | src/io/probe-lane.cpp:410-439 | The run is announced, or done exactly when its records are all held, or kept waiting by one it overlaps; no other run changes. |
| ProbeLane.HoldsMeans | src/io/probe-lane.cpp:102-118 | The records of a run are those of its part of the plan's list. |
| ProbeLane.ProbeLane.AnnounceZone | src/io/probe-lane.cpp:410-439 | The first lane_runs runs of the zone are so served, and no run outside the zone changes. |
| ProbeLane.ProbeLane.Refill | src/io/probe-lane.cpp:441-470 | The zone holds unread runs of the directory listed, then of those of the order, in that order and by place, leaves one out only when full of earlier ones, and is headed by the listed directory's first unread run; announced runs are in it, its first runs are served, and done runs stay done. |
| ProbeLane.ProbeLane.PlanRunsOf | src/io/probe-lane.cpp:115-134 | A plan joins exactly when the lane is on, the directory has none and the total stays within the bound. |
| ProbeLane.ProbeLane.Release | src/io/probe-lane.cpp:150-160 | The directory's plan is gone, the others are untouched, and only its own announced ranges leave the reader. |
| ProbeLane.ProbeLane.Reorder | src/io/probe-lane.cpp:136-148 | The order is the first upcoming directories, then exactly those of the old order that are planned and not among them, in the old order; done runs stay done and the lane is refilled. |
| ProbeLane.ProbeLane.FindReadRun | src/io/probe-lane.cpp:210-225 | The run found is the first unread one within the lookahead that holds what was read; none is given only when there is none. |
| ProbeLane.HoldsReadMeans | src/io/probe-lane.cpp:210-232 | A run matches a read if and only if it is unread and has every slot read. |
| ProbeLane.ProbeLane.MarkRead | src/io/probe-lane.cpp:249-258 | Every run up to the one read is done, and done runs stay done. |
| ProbeLane.ProbeLane.RunRead | src/io/probe-lane.cpp:260-286 | If the listed directory's plan has a run that holds what was read, it and those before it are done; the lane stays right. |
| ProbeLane.ProbeLane.Detach | src/io/probe-lane.cpp:88-92 | Nothing is planned or announced, and the reader holds no range. |
| ProbeLane.AllWithdrawn | src/io/probe-lane.cpp:197-207 | Withdrawing every announced run empties the reader's lane. |
| ProbeLane.LaneInZone | src/io/probe-lane.h:77-80 | Announced runs of the zone's stamp are in the zone, and no more than it holds. |
| IndexTree.WalkOnce | src/io/file-record-index.cpp:647-685 | On any graph of blocks the walk ends and tries each VCN at most once. |
| IndexTree.WalkInOrder | src/io/file-record-index.cpp:647-685 | On a well-formed tree with distinct VCNs it delivers the entries in index order and visits exactly the tree's blocks. |
| IndexTree.CollectsWhatIsProbed | src/io/file-record-index.cpp:694-719 | On any graph of held blocks, the groups collected ahead are those the walk probes, in its order. |
| IndexTree.NamedRecordsOf | src/io/file-record-index.cpp:144-176 | A node's group is the records of its named entries, in order. |
| DirectoryIndex.BelowSmaller | src/io/file-record-index.cpp:605-612 | In a sorted tree nothing before or below an entry that the name sorts after is equal to it. |
| DirectoryIndex.AboveGreater | src/io/file-record-index.cpp:613-636 | Nothing from an entry that the name sorts before on is equal to it: the stop rule is sound. |
| DirectoryIndex.FoundNext | src/io/file-record-index.cpp:593-638 | Searching two lists one after the other finds what searching both as one would. |
| DirectoryIndex.DirectoryIndex.VisitIndexBlock | src/io/file-record-index.cpp:516-548 | On a sorted tree the search below an entry answers for all entries below it; on any graph no block is tried twice. |
| DirectoryIndex.DirectoryIndex.MatchEqualEntry | src/io/file-record-index.cpp:550-584 | An equal entry gives itself when spelled alike, else a twin below it, else it is kept unless hidden or one was kept before. |
| DirectoryIndex.DirectoryIndex.SearchIndexEntries | src/io/file-record-index.cpp:593-638 | Over a sorted node: an exact visible entry if there is one, else the first visible equal one is kept; only its tree's blocks are visited. |
| DirectoryIndex.DirectoryIndex.FindSubEntryInOrder | src/io/file-record-index.cpp:486-513 | On every sorted tree the answer is a visible entry spelled as the name if one exists, else the first visible equal one in index order, else nothing; on any graph it ends and parses no block twice. |
| DirectoryIndex.DirectoryIndex.Find | src/io/file-record-index.cpp:432-462 | The tree's answer, or without the volume's own collation the best of the whole walk and its orphans, which are exactly the named, visible, reportable entries of the missed blocks that parse; a name is then absent only when no such entry is equal. |
| DirectoryIndex.DirectoryIndex.BestOf | src/io/file-record-index.cpp:449-460 | The first entry spelled like the name, else the first equal one. |
| DirectoryIndex.DirectoryIndex.Traverse | src/io/file-record-index.cpp:352-398 | The walk shows the entries not hidden, in the order met, and parses no block twice; with recovery, root or not, exactly the blocks of the scan that it missed are parsed, and exactly their named, visible, reportable entries follow, block by block in order; a root of another kind of index gives nothing at all. |
| DirectoryIndex.OrphansMean | src/io/file-record-index.cpp:793-849 | What the scan shows are exactly the named, visible, reportable entries of the missed blocks that parse, in the order of the blocks and within each. |
| DirectoryIndex.ScanSteps | src/io/file-record-index.cpp:817-849 | The scan starts at VCN 0 and goes on by one block. |
| DirectoryIndex.WholeInOrder | src/io/file-record-index.cpp:352-398 | On a sorted tree the whole walk delivers index order, so walk and lookup agree. |
| DirectoryIndex.CollectedIsProbed | src/io/file-record-index.cpp:721-757 | From the root, the groups collected ahead are those probed. |
| DirectoryIndex.ProbeGroups.HeldProbeGroups | src/io/file-record-index.cpp:721-757 | The object's groups are those the walk of the same blocks probes. |
| DirectoryIndex.TreeWalk.TraverseSubNode | src/io/file-record-index.cpp:647-685 | What the object meets, delivers and probes is the walk of the block. |
| DirectoryIndex.TreeWalk.ScanOrphanedIndexBlocks | src/io/file-record-index.cpp:817-849 | Every block of the scan is visited; exactly the missed ones are parsed, and exactly their named, visible, reportable entries shown, in order. |
| MftRuns.RunsToServe | src/io/mft-runs.cpp:26-55 | The runs partition any slots in order within the hole and span bounds, and none could have taken the next slot. |
| MftRuns.PlanMftRuns | src/io/mft-runs.cpp:26-55 | The loop gives those runs. |
| MftRuns.ServedBounds | src/io/mft-runs.cpp:27-56 | Inside a run the holes and the length keep to the limits, as numbers of slots. |
| MftRuns.GreedyBounds | src/io/mft-runs.cpp:27-56 | The slot after a run breaks one of those limits. |
| MftRuns.FewestRuns | src/io/mft-runs.cpp:26-55 | Without a wide gap no partition into runs within the bounds has fewer of them. |
| MftRuns.ServedInOrder | src/io/mft-runs.cpp:26-55 | Over sorted slots the runs are in order, disjoint, and hold the slots they serve. |
| MftRuns.WidenAllRight | src/io/mft-runs.cpp:67-90 | Widened runs are sorted, never touch, are whole clusters above the readable floor, and cover exactly the clusters the runs reach. |
| MftRuns.WidenHolds | src/io/mft-runs.cpp:67-90 | Each wanted slot stays inside the run that names it. |
| MftRuns.NoneBelow | src/io/mft-runs.cpp:75-78 | No run goes below the floor when no slot does. |
| MftRuns.WidenToClusters | src/io/mft-runs.cpp:67-90 | The loop gives those runs, and leaves them alone when a cluster holds one slot. |
| RecordSet.NotHeld | src/io/run-planner.cpp:82-92 | A probe that ends at a vacant slot proves the record absent. |
| RecordSet.SomeVacant | src/io/run-planner.cpp:56-59 | A table holding fewer records than slots has a vacant one, so every probe ends. |
| RecordSet.Put | src/io/run-planner.cpp:60-66 | Placing a record where its probe ended keeps every record reachable and adds exactly it. |
| RecordSet.SlotOf | src/io/run-planner.cpp:82-92 | The probe ends, at the record exactly when it is held, else at a vacant slot of its path. |
| RecordSet.RecordSet.Insert | src/io/run-planner.cpp:45-67 | The set gains the record, the vacant mark's own number included, and true is returned exactly when it was new. |
| RecordSet.RecordSet.Size | src/io/run-planner.cpp:36-36 | The size is the set's cardinality. |
| RecordSet.RecordSet.Clear | src/io/run-planner.cpp:39-43 | The set is empty and the table keeps its size. |
| RecordSet.RecordSet.Grow | src/io/run-planner.cpp:95-103 | The table doubles and the set is unchanged. |
| SlotCover.Merge | src/io/run-planner.cpp:138-141 | The merge is sorted and has the intervals of both lists and no other. |
| SlotCover.JoinNext | src/io/run-planner.cpp:142-150 | The intervals stay sorted and apart, and cover the new interval's slots besides. |
| SlotCover.SlotCover.Contains | src/io/run-planner.cpp:121-127 | The binary search answers exactly whether some interval holds the slot. |
| SlotCover.SlotCover.Add | src/io/run-planner.cpp:129-151 | Exactly the slots of the runs are added, in whatever order they come. |
| ProbeRuns.ChunkRunsRight | src/io/mft-runs.cpp:117-155 | The runs of a sorted chunk hold every record they read for, and read no slot with a fixed address. |
| ProbeRuns.PendingHolds | src/io/run-planner.cpp:159-172 | The pending records are sorted, distinct, and exactly those of the group not known. |
| ProbeRuns.SameIncreasing | src/io/entry-prober.cpp:36-57 | Two sorted lists of the same distinct records are one list, however each was made. |
| ProbeRuns.PlanRuns | src/io/mft-runs.cpp:147-153 | The records to read are grouped within the limits, no group able to take the next record, and with two slots or more in a cluster the runs are whole clusters that never touch and cover exactly the mapped clusters reached. |
| ProbeRuns.ChunkIsRead | src/io/mft-runs.cpp:117-155 | The reads of a chunk are its mapped records that are not found, grouped within the limits and widened to whole clusters. |
| ProbeRuns.ClusterRead | src/io/mft-runs.cpp:149-153 | Every mapped slot in the cluster of a record to read is read. |
| ProbeRuns.RoundMeans | src/io/entry-prober.cpp:36-57 | A round takes as many records as a chunk may hold, and one at least. |
| ProbeRuns.GroupsAreWhole | src/io/mft-runs.cpp:149-153 | With two slots or more in a cluster every read ends with a cluster, and starts with one or at the first mapped slot. |
| RunPlanner.TakeUnprobed | src/io/run-planner.cpp:159-172 | Pending is the group's unknown records sorted, and the hash set ends as the mathematical one, forgotten first when full. |
| RunPlanner.RunPlanner.Uncovered | src/io/run-planner.cpp:208-252 | The records a chunk must read are those neither held nor covered by earlier planned runs. |
| RunPlanner.RunPlanner.AppendRuns | src/io/run-planner.cpp:194-206 | The plan gains the runs in order, each with the records it reads for. |
| RunPlanner.RunPlanner.PlanOf | src/io/run-planner.cpp:208-252 | The intervals planned are the reads foretold for the groups: round by round the records neither held nor covered, grouped within the limits and widened to whole clusters; each run holds its records, and the plan is new. |
| EntryProber.EntryProber.ProbeChunk | src/io/entry-prober.cpp:74-134 | The memo gains exactly the chunk's records; its reads are those records not found, grouped within the limits and widened to whole clusters, and with no failed read those of the plan of the chunk. |
| EntryProber.EntryProber.ProbeGroup | src/io/entry-prober.cpp:36-57 | The memo gains exactly the group's records; with no failed read memo and reads step as foretold. |
| EntryProber.EntryProber.Take | src/io/entry-prober.cpp:59-72 | The state is the record's own, whatever the memo held; a held record costs nothing. |
| EntryProber.EntryProber.Walk | src/io/entry-prober.cpp:36-72 | With no failed read and no missed record, the reads of a whole walk are exactly those the planner foretells for the same groups, in whole clusters. |
| EntryProber.SmallWalkHits | src/io/run-planner.cpp:159-165 | A walk that takes only records it named, fewer than the memo may hold, never misses: the planner is then exact. |
| EntryProber.NothingForgotten | src/io/entry-prober.cpp:36-45 | While fewer records were met than the memo may hold, it holds every one of them. |
| EntryProber.ForgottenIsMissed | src/io/entry-prober.cpp:59-72 | A memo of one record that takes a second group misses the first record when it is taken again. |
| RecordWindow.NewestAdded | src/io/record-window.cpp:30-49 | A new run is the newest copy of its slots and of no others. |
| RecordWindow.RecordOfJoined | src/io/record-window.cpp:19-28 | Record k of a run of records is the one at k. |
| RecordWindow.RecordWindow.Find | src/io/record-window.cpp:19-28 | The bytes are the newest held copy, and empty exactly when no held run has the slot. |
| RecordWindow.RecordWindow.Put | src/io/record-window.cpp:30-49 | A run of no whole record, or larger than the budget, changes nothing; any other is kept newest, with the fewest oldest runs dropped to fit the budget. |
| RecordWindow.RecordWindow.MakeRoom | src/io/record-window.cpp:36-40 | Only oldest runs go, and not one more than needed. |
| RecordWindow.RecordWindow.DropOldest | src/io/record-window.cpp:51-64 | The oldest run goes with its bytes, and only places that still point to it. |
| BlockCache.HeldAndLetGo | src/cache/block-cache.cpp:52-59 | Holding a block and letting it go leaves the holders as they were. |
| BlockCache.BlockCache.Find | src/cache/block-cache.cpp:52-59 | The block held is returned and becomes the most recently used; nothing else moves. |
| BlockCache.BlockCache.Insert | src/cache/block-cache.cpp:65-76 | A new block is the most recently used; an index already cached keeps its block. |
| BlockCache.BlockCache.Trim | src/cache/block-cache.cpp:84-96 | Unused blocks go oldest first up to one point, pinned ones never, until the total fits or only pinned blocks remain. |
| BlockCache.BlockCache.Minify | src/cache/block-cache.cpp:98-109 | Exactly the pinned blocks remain, in their order. |
| FileReader.RunBlockLoader.ReadRun | src/io/file-reader.cpp:124-146 | One read brings missing blocks only, none past the range, and none is cached. |
| FileReader.RunBlockLoader.Get | src/io/file-reader.cpp:93-118 | The block is the medium's and is cached; none is given only when it cannot be read whole, and then a read failed. |
| FileReader.RunBlockLoader.CutBlock | src/io/file-reader.cpp:105-117 | A block cut from a run is the medium's. |
| FileReader.CutRight | src/io/file-reader.cpp:107-112 | Any part of a run that was read is the block at its place. |
| FileReader.FileReader.ReadUncached | src/io/file-reader.cpp:391-403 | Exactly the range is read, once, and nothing is cached. |
| FileReader.FileReader.Trim | src/cache/block-cache.cpp:84-96 | Blocks left are unchanged and no block in use is dropped. |
| FileReader.FileReader.ReadOneBlock | src/io/file-reader.cpp:405-496 | A range in one block gives a view of the cached block, held, or its own bytes when the block cannot be read whole. |
| FileReader.FileReader.Stitch | src/io/file-reader.cpp:405-496 | A range over blocks is copied right, and holds none of them after. |
| FileReader.FileReader.Read | src/io/file-reader.cpp:405-496 | For every range, ceiling, cache and set of views: it succeeds exactly when the bytes are readable, shows the medium's bytes, keeps every cached block the medium's, and with no failed read its disk reads are apart. |
| RecordMemo.RecordMemo.PutOne | src/io/record-memo.cpp:110-151 | The slot's place, and no other, is as specified: the record kept, an older one of the slot dropped, or another slot's left alone. |
| RecordMemo.RecordMemo.Put | src/io/record-memo.cpp:99-108 | A run of records is put one by one. |
| RecordMemo.RecordMemo.Rebuild | src/io/record-memo.cpp:153-187 | The parts copied back rebuild exactly the bytes a probe reads, and zeros elsewhere. |
| RecordMemo.RecordMemo.Find | src/io/record-memo.cpp:153-187 | For every slot but 2^64 - 1 at an empty place: the record kept for that slot as a probe judges it, else nothing; that one slot finds bytes nobody put. |
| RecordMemo.EmptyFinds | src/io/record-memo.cpp:110-116 | An empty place finds nothing if and only if the slot is not 2^64 - 1. |
| RecordMemo.PlacesApart | src/io/record-memo.cpp:94-97 | Slots closer than the table is long never share a place, and one that far away does. |
| RecordMemo.KeepableMeans | src/io/record-memo.cpp:110-131 | A record is kept exactly when it is a FILE record whose array starts after the header and whose words that a probe reads end before the last word of the first sector. |
| RunEntries.SignExtended | src/attr/run-list.cpp:261-267 | The sign fill gives a field its own two's-complement value. |
| RunEntries.PickTakesBack | src/attr/run-list.cpp:224-275 | Decoding one packed run gives back its length and offset, for any field widths that hold them, and leaves the bytes after it. |
| RunEntries.PackedDecodes | src/attr/run-list.cpp:25-45 | Packed runs, up to an end mark or the end of the attribute, decode run by run. |
| RunEntries.DecodeInvertsEncode | src/attr/run-list.cpp:25-45 | Every ordered list of adjoining runs within the bound has bytes that strict decoding turns back into exactly that list. |
| RunEntries.RecoveredIsStrict | src/attr/run-list.cpp:25-45 | What recovery keeps is what strict decoding makes of a prefix of the bytes. |
| RunEntries.DecodedInOrder | src/attr/run-list.cpp:277-338 | Under a bound that is not all ones, decoded runs follow each other from VCN 0, disjoint and below the declared span. |
| RunEntries.DecodedUsable | src/attr/run-list.cpp:322-325 | Under any bound, a decoded list is in order if and only if its first run is not empty. |
| RunEntries.AnyPlaces | src/attr/run-list.cpp:130-138 | In an ordered list a VCN's run is unique, whichever way it is found. |
| RunEntries.AppendOrdered | src/attr/run-list.cpp:49-56 | Splicing keeps runs in order and below the clusters covered, when their number does not wrap. |
| RunEntries.AppendPlaces | src/attr/run-list.cpp:49-56 | A spliced list places each VCN as the list that owns it, when the number of clusters does not wrap. |
| RunLists.RunList.AppendDataRun | src/attr/run-list.cpp:280-338 | A run is appended exactly when LCN, VCN and bound checks pass, and the list is otherwise unchanged. |
| RunLists.RunList.Parse | src/attr/run-list.cpp:25-45 | Strict decoding throws exactly on malformed bytes; recovering keeps the runs before the mistake, the same runs. |
| RunLists.RunList.Append | src/attr/run-list.cpp:49-56 | The object becomes the splice of the two lists, in 64-bit arithmetic. |
| RunLists.RunList.Find | src/attr/run-list.cpp:131-138 | The run found places the VCN; none is found exactly when no run holds it. |
| RunLists.RunList.ExtentsBetween | src/attr/run-list.cpp:140-165 | On every range of any decoded list on which the walk ends, its extents are exactly the real clusters of the VCNs passed, none past the limit; it stops early only at an unmapped VCN or a run part past the limit, and at once on an empty first run with no last VCN. |
| RunLists.WalkEndsIff | src/attr/run-list.cpp:140-165 | Over every decoded list the walk in 64-bit arithmetic ends if and only if the range is empty, or the first run is not an empty one with no last VCN, or is a real one and the range starts past VCN 0 or the run lies past the limit; under a bound that is not all ones it always ends. |
| RunLists.EmptyHoleStalls | src/attr/run-list.cpp:322-325 | The bytes of one empty hole decode to such a list under a bound of all ones, and the walk over its first cluster never ends. |
| RunEntries.DecodedShaped | src/attr/run-list.cpp:322-325 | Every decoded list is some empty runs with no last VCN, then runs in order. |
| RunLists.RunList.LeadingRealClusters | src/attr/run-list.cpp:171-218 | Over any decoded list the count is given exactly when the unit is wholly mapped with its real clusters before its holes, and is then how many are real. |
| RunLists.OrderedUnitLeads | src/attr/run-list.cpp:171-218 | Over runs in order that is said of the places of the unit's VCNs alone, whatever an empty first run would add. |
| RunLists.StuckUnitLeads | src/attr/run-list.cpp:322-325 | An empty first run with no last VCN maps every unit past VCN 0 whole, all real or all a hole. |
| RunLists.RunList.RealRanges | src/attr/run-list.cpp:98-124 | Over any decoded list the ranges hold exactly the VCNs of real runs that are not empty and do not wrap, in order and never touching; the flag and the covered end are exact. |
| RunLists.OverflowMeans | src/attr/run-list.cpp:108-113 | A real run wraps exactly when its end is no 64-bit number. |
| AttributeMerge.GroupNonResidentByName | src/io/file-record-attrs.cpp:230-247 | Each name has exactly its instances, in order. |
| AttributeMerge.StartsFollow | src/io/file-record-attrs.cpp:533-542 | The check answers whether each instance starts one past the one before, from 0, in 64-bit arithmetic. |
| AttributeMerge.MergeStreamChain | src/io/file-record-attrs.cpp:520-559 | A group that is one chain leaves its first instance with the splice of all and marks the rest; any other is left exactly as parsed. |
| AttributeMerge.ChainPlaces | src/io/file-record-attrs.cpp:551-558 | Where no range is empty, inverted or ends at 2^64 - 1, the splice of a contiguous chain maps each VCN as the instance that owns it. |
| AttributeMerge.ChainOwner | src/io/file-record-attrs.cpp:533-542 | Every VCN before the end of a contiguous chain has an owner, whatever the headers. |
| AttributeMerge.SplicesRightIff | src/io/file-record-attrs.cpp:514-559 | A contiguous chain that owns a VCN is spliced right whatever its run bytes if and only if no header's range is empty, inverted or ends at 2^64 - 1: under any other some bytes end in an empty run that wraps to hold every VCN. |
| AttributeMerge.DecodedInstance | src/attr/non-resident.cpp:134-149 | Whatever its run bytes, an instance parsed under a header whose range is not empty, inverted or up to 2^64 - 1 has runs in order inside that range. |
| AttributeMerge.EraseAll | src/io/file-record-attrs.cpp:583-586 | Erasing sorted indices from the back leaves exactly the other attributes, in order. |
| AttributeMerge.FileAttributes.MergeAttributeContinuations | src/io/file-record-attrs.cpp:564-588 | Each list becomes its attributes with each chain's keeper spliced, the absorbed gone and all else as it was, whatever order the names come in. |
| AttributeMerge.OneIsLeft | src/io/file-record-attrs.cpp:520-559 | Exactly one attribute of a chain is left: its first. |
| AttributeMerge.KeeperPlaces | src/io/file-record-attrs.cpp:520-559 | It places every VCN of the chain as the instance that owned it did, where no range is empty, inverted or ends at 2^64 - 1. |
| AttributeMerge.KeeperOwned | src/io/file-record-attrs.cpp:520-559 | And every VCN it covers was owned by an instance of its name, whatever the headers. |
| StreamBytes.RunPartByte | src/attr/non-resident.cpp:429-457 | The bytes of a run part are those of its clusters on the disk, or zeros for a hole. |
| StreamBytes.RunPartServed | src/attr/non-resident.cpp:429-457 | A run part can be read exactly when each of its clusters can. |
| StreamBytes.WholeServed | src/attr/non-resident.cpp:581-601 | A range of whole clusters is readable exactly when each cluster is. |
| StreamBytes.SplicedByte | src/attr/non-resident.cpp:904-909 | A spliced stream has the bytes of its first part, then those of its second, when the number of clusters does not wrap. |
| StreamReader.NonResident.ReadClusters | src/attr/non-resident.cpp:154-191 | Clusters come back exactly when all their bytes are readable at an addressable place and fit one 32-bit read. |
| StreamReader.NonResident.ReadRunClusters | src/attr/non-resident.cpp:431-457 | The buffer shows the run's bytes or zeros, nothing outside changes, and failure means a cluster that cannot be read. |
| StreamReader.NonResident.ReadVirtualClusters | src/attr/non-resident.cpp:459-510 | A full count means the buffer shows the stream's clusters and each could be read, and conversely; nothing is given exactly past the clusters covered. |
| StreamReader.NonResident.ReadClusterPart | src/attr/non-resident.cpp:536-557 | It succeeds exactly when the cluster can be read, and shows the part asked for. |
| StreamReader.NonResident.ReadLeadingPart | src/attr/non-resident.cpp:559-579 | It shows the bytes up to the first cluster boundary or the end of the range. |
| StreamReader.NonResident.ReadFromClusterStart | src/attr/non-resident.cpp:581-601 | It shows the rest of the range, whole clusters and the last part. |
| StreamReader.NonResident.ReadDataBounded | src/attr/non-resident.cpp:603-648 | Up to the limit, the buffer shows the runs' bytes exactly when every cluster touched can be read; the narrowing error is exact. |
| StreamReader.NonResident.ReadData | src/attr/non-resident.cpp:706-741 | For every offset and buffer: the stream's bytes, zeros from the initialized size to the real size, the rest of the buffer untouched; nothing if a cluster touched cannot be read. |

## Left out

- Logging, log capture and replay, statistics, benchmark scopes and read patterns: they change no result.
- Real disks, Win32 calls, media queries, path handling, and threads as objects of the system.
- EFS, LZNT1, the cache of decompressed units and `ReadVirtualClustersCompressed`: what they call is foreign.
- Change journal, `$UpCase` tables and MFT extents: collation is any total order of keys, a slot is its own address.
- Getters, `RunList::Extents` and `MappedClusters`, `NoCache` variants of reads, and `FoldDataState`: single-branch facts.
- On-disk structures: index blocks and headers are values that parse or do not; record bytes appear where a probe reads them.
- Sorting: `std::ranges::sort` and `stable_sort` are one stable sort; where equal keys are possible the code promises no order among them.
- ReadAhead.StepKeeps: `Prefetch`, `CancelPrefetch` and the standing hints are forwarded as they are and not modelled; a spurious wake is a step of its own.
- ReadAhead.CallReturns: it bounds the steps of a call without spurious wakes; the scheduler is assumed to take enabled steps.
- ClusterBitmap.ClusterBitmap.StatesInOrder: the exact windows read are stated for an object with nothing kept or failed, whatever window it holds; otherwise only that queries sharing no cluster repeat no window.
- ContentCheck.Check: a read succeeds or fails as a whole, the content of a cluster is a function of its number, and hints of the reads to come are not modelled.
- ClusterAccounts.AccountClusters: the volume's answer for the states of clusters is any function whose runs tile the range asked for.
- ProbeLane.ProbeLane.Refill: pointers to runs are a directory and an index; the order of announcements to the reader is not kept, only the set of ranges it holds.
- DirectoryIndex.DirectoryIndex.FindSubEntryInOrder: the level at which the fallback was found serves a log line only and is not kept.
- RunPlanner.RunPlanner.PlanOf: what the store finds is fixed while a plan is made; a run kept by the window stays kept.
- EntryProber.EntryProber.Walk: the captured logs replayed with a memo's answers are not modelled.
- FileReader.FileReader.Read: views are moved, not copied, and the ceiling counts blocks and stitched buffers as `HeldBytes` does.
- RecordMemo.RecordMemo.PutOne: a place is its parts and not their offsets within it, whose layout is fixed and disjoint.
- RunLists.RunList.ExtentsBetween: speaks of the ranges on which the walk ends, which `RunLists.WalkEndsIff` tells apart exactly.
- AttributeMerge.KeeperPlaces: asks for the headers that `AttributeMerge.SplicesRightIff` tells apart exactly; attributes are values in their list, which owns them.
- StreamReader.NonResident.ReadData: uncompressed and unencrypted streams; the look at the clusters' allocation before a read only logs; for buffers of 4 GiB and more a read of one run may fail for its length alone.
