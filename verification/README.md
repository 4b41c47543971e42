# Verification of a versioned adjacency store

A Dafny model of the repository's multiversion graph store and of the graph kernels that run on it,
with proofs of what the code is for. `dafny verify dfyconfig.toml` checks all of it.

## What is modelled

**One vertex.** `VertexEdges` keeps a sorted primary array, a 64-slot buffer, a hash index, 16 temporary
version blocks (by epoch modulo 16) and a chain of published version blocks.
- `History` is the reference: for each epoch, the writes made in it, in order.
- `VertexState`, `VertexReplay`, `VertexModel` and `VertexSteps` give the operations on values and the
  invariant that ties the stored heads, entries and blocks to the history. `std::sort` is a parameter: any
  order its comparator permits.
- `VertexSnapshot` and `VertexDegree` say what a reader is handed; `VertexRuns` states it for every run of
  the vertex alone, and `VertexProtocol` for every interleaving of the epoch manager, readers and collection
  around it.
- `MergeSpec`, `HashSet`, `EdgeStorage` and `VertexEdges` are the arrays and loops, proved against those
  values. `EdgeStorage.EdgeStore` holds the fields `start`, `tmp_item`, `capacity`, `num`, `tmp_ev`,
  `merge_times`, `edges_and_versions` and `M` of the source class; `VertexEdgesBlock.VertexEdges` holds the rest.
- `VertexReaders` has the scan, `VBIterator` and the versioned degree. The front of the chain may be freed; a
  block is looked at only after it is shown to be allocated.

The vertex starts empty and is read with no active temporary version block, at (epoch, INTRA_MAX). That
writers write only unpublished epochs, that slots are free for them, that epochs are published in order and
that readers stay above the watermark is not assumed but proved of the protocol (`VertexProtocol`). Assumed of
the callers is only that an edge is pending in at most one unpublished epoch and is not deleted twice. Intra
stamps may come in any order: a transaction draws one stamp, at its first write anywhere, and uses it for all of
its writes.

**The epoch manager.** `EpochManager` is a sequentially consistent machine with any number of writers and one
updater; every load and store of a shared variable is a step. `Reclamation` is the machine of readers against
garbage collection, with the reader's load and store of `read_epoch_` as separate steps. Beside safety in
every interleaving, both say what each thread achieves when it is left to run: a writer registers, opens an
epoch and leaves, the updater publishes, a reader is given the newest epoch, a round frees all it may. In the
first machine a writer does not start once `no_more_txn_` is set: `registerTransaction` does not look at the
flag, so this is assumed of the callers, as the comment on `FinalizeNoMoreTxn` does;
`EpochManager.LateStartIsUnsafe` shows that it must be.

**The executable semantics.** `FineMvcc` models `FineDriver` and `read_fine`, which read at any composite time;
`FineBridge` shows that the vertex reads the same at the end of an epoch.

**The kernels.** `BFS`, `SSSP`, `LCC`, `WCC`, `CDLP` and `CSR`, each on one thread, with `Hops`, `Sorting`,
`Counting` and `WCCSchedule` beside them. Adjacency is what the store reports for each vertex, in any order.

Where the code does not do what it promises, the model keeps the code and says exactly when it does:
- The binary search of `get_edge_index` starts one past the last edge, so a key above all stored ones is also
  compared with whatever that slot holds. `EdgeStorage.EdgeStore.GetEdgeIndex` is right if and only if that
  slot does not hold the key. Right after the first merge the array is full and the slot is the property half
  of its first edge, so the key is compared with a weight (`EdgeStorage.FullArrayMatchesAWeight`: no deletion
  is needed, and the item found lies outside the array); after a merge has dropped edges the slot may hold an
  old key.
- Within an epoch Transform replays the writes of an edge by the stamps of the versions they displace, and
  `std::sort` orders ties as it likes. Unless those stamps grow in write order another write than the last may
  set the weight (`VertexRuns.StampsOutOfOrderReadWrong`), and an edge deleted and re-inserted in one epoch
  reads as weight 0 (`VertexRuns.ReinsertedEdgeReadsZero`); readers of earlier epochs are then handed the
  re-inserted weight for the version it displaced (`VertexRuns.ReinsertRewritesThePast`).
  `VertexSnapshot.SnapshotWeights` says of every weight handed out when it must be right and when it must be
  wrong, in terms of the epoch that wrote it and the epoch that displaced it. In between `std::sort` decides:
  `VertexReplay.StaysExactlyLast` and `VertexReplay.SavesExactlyReinserts` are both directions.
- `get_degree(epoch)` counts an overwrite of a live edge as another edge
  (`VertexRuns.OverwriteInflatesDegree`), and goes on counting it once the edge is deleted, so a vertex of
  non-zero degree may have no neighbours (`VertexRuns.DegreeWithoutNeighbours`), which `compute_cdlp` does not
  expect; `VertexDegree.DegreeTheorem` is the exact condition.
- A reader that stalls between loading and storing `read_epoch_` can be accepted after its blocks are gone
  (`Reclamation.SplitRegistrationLosesBlocks`); `Reclamation.ReaderSafeIff` is the exact condition.
- `NoMoreTxn` while a writer is registered breaks publication safety (`EpochManager.EarlyCloseBreaksSafety`);
  it is safe exactly when every writer has finished (`EpochManager.CloseIsSafeIff`).
- `compute_wcc` stops after 100 rounds, which a long path defeats (`WCC.LongPathIsCutShort`);
  `WCCSchedule.NameIsLeastIff` is the exact condition, on the graph and the order in which the scans visit it.

## Model

| member | source | states |
|---|---|---|
| HashSet.HashTable2.constructor | data-structure/EdgeBlock/HashTable.h:137-143 | an empty set in a two-slot table |
| HashSet.HashTable2.GetDestHashTableVal | data-structure/EdgeBlock/HashTable.h:145-160 | the probe ends and finds a key exactly if the set contains it |
| HashSet.HashTable2.ResizeHashTable | data-structure/EdgeBlock/HashTable.h:162-200 | growth keeps the set; only size and placement change |
| HashSet.HashTable2.Rehash | data-structure/EdgeBlock/HashTable.h:180-192 | copying into the empty larger table stores every key once, reachable from its home |
| HashSet.HashTable2.SetDestHashTableVal | data-structure/EdgeBlock/HashTable.h:202-219 | a new key is added to the set and nothing else changes; the table doubles exactly when it would get more than half full |
| HashSet.HashTable2.RemoveDestHashTableVal | data-structure/EdgeBlock/HashTable.h:221-246 | the set loses exactly the key, absent keys included |
| HashSet.HashTable2.CloseHole | data-structure/EdgeBlock/HashTable.h:228-244 | the backward shift ends and leaves every key reachable with no hole on its path |
| HashSet.FreeSlot | data-structure/EdgeBlock/HashTable.h:203-205 | a table holding fewer keys than slots has a free slot, so every probe stops |
| HashSet.AbsentIfFree | data-structure/EdgeBlock/HashTable.h:147-159 | meeting a free slot on the way from its home proves a key absent |
| HashSet.PlaceKeeps | data-structure/EdgeBlock/HashTable.h:209-218 | a key put in the first free slot of its path keeps every other key reachable |
| HashSet.ShiftKeeps | data-structure/EdgeBlock/HashTable.h:235-243 | moving a key into the hole on its path keeps the table probeable but for the new hole |
| HashSet.MaskIsModulo | data-structure/EdgeBlock/HashTable.h:134 | for the table sizes that occur, masking a key with size - 1 is its remainder |
| EpochManager.Reachable | data-structure/VersionBlock/AllVBManager.cpp:272-442 | every interleaving of writer and updater steps keeps the protocol's invariant |
| EpochManager.PublicationSafety | data-structure/VersionBlock/AllVBManager.cpp:289-293 | a writer past its re-check holds an epoch neither published nor being transformed, until it deregisters |
| EpochManager.RingTheorem | data-structure/VersionBlock/AllVBManager.cpp:310-338 | at most 16 epochs are unpublished, each finds its own VBData in the ring, and epochs are published once each and in order |
| EpochManager.ClaimDiscardsNothing | data-structure/EdgeBlock/VertexEdges.cpp:399-406 | resetting a temporary version block for a new epoch finds no unpublished entry in it |
| EpochManager.PublishedIsDrained | data-structure/VersionBlock/AllVBManager.cpp:413-441 | no entry of a published epoch is left in a temporary version block |
| EpochManager.EarlyCloseBreaksSafety | data-structure/VersionBlock/AllVBManager.cpp:444-446 | a run where closing early lets the updater transform an epoch still being written |
| EpochManager.CloseIsSafeIff | data-structure/VersionBlock/AllVBManager.cpp:444-446 | in a reachable state, closing keeps publication safe in every continuation if and only if every writer has finished |
| EpochManager.LateStartIsUnsafe | data-structure/VersionBlock/AllVBManager.cpp:272-293 | a writer that starts after the close, which nothing in the code prevents, can end up in a published epoch |
| EpochManager.UpdaterDrains | data-structure/VersionBlock/AllVBManager.cpp:96-117 | after a close the updater on its own publishes every epoch |
| EpochManager.PublishesOnline | data-structure/VersionBlock/AllVBManager.cpp:96-117 | with the writer side open the updater on its own, from every reachable state, publishes every epoch below the newest one and below every announced one |
| EpochManager.ClosePublishesAll | data-structure/VersionBlock/AllVBManager.cpp:444-446 | closing takes effect once every writer has finished, and everything is then published |
| EpochManager.EpochIsCreated | data-structure/VersionBlock/AllVBManager.cpp:310-338 | a registered writer that draws the creation while the window is open and the flag free opens the next epoch: `cur_` one higher, its VBData in the ring, the flag free again |
| EpochManager.FlagIsHeld | data-structure/VersionBlock/AllVBManager.cpp:313-336 | the creation flag is taken exactly while some writer is creating an epoch, and never two are |
| EpochManager.AloneRegisters | data-structure/VersionBlock/AllVBManager.cpp:289-293 | a writer left alone while the window is open registers in the newest epoch |
| EpochManager.AloneLeaves | data-structure/VersionBlock/AllVBManager.cpp:378-384 | a registered writer left alone leaves, and its announcement is withdrawn, as long as epoch numbers last |
| EpochManager.WindowDecides | data-structure/VersionBlock/AllVBManager.cpp:237-243 | exactly the epochs of the window pass, wrap-around of the subtraction included; any other is loaded anew |
| Reclamation.PopKeepsTheRest | data-structure/VersionBlock/AllVBManager.cpp:73-82 | a round frees exactly the epochs below its bound, oldest first |
| Reclamation.ReaderSafeIff | data-structure/VersionBlock/AllVBManager.cpp:346-375 | an accepted reader keeps its blocks if and only if its store landed before they were freed |
| Reclamation.AtOnceIsSafe | data-structure/VersionBlock/AllVBManager.cpp:44-89 | with registration and rounds atomic the watermark never falls, readers stay at or above it, and none loses a block |
| Reclamation.RoundBound | data-structure/VersionBlock/AllVBManager.cpp:44-89 | a round frees up to the newest published epoch or the oldest announced one and no less, and keeps exactly the epochs from there on |
| Reclamation.PinnedRoundBound | data-structure/VersionBlock/AllVBManager.cpp:44-89 | with atomic registration that bound is the newest published epoch or the one some registered reader reads |
| Reclamation.RegistersAtNewest | data-structure/VersionBlock/AllVBManager.cpp:346-353 | atomic registration announces and hands out the newest published epoch, with its blocks there |
| Reclamation.SplitRegistersAtNewest | data-structure/VersionBlock/AllVBManager.cpp:346-353 | three uninterrupted steps do the same |
| Reclamation.RecheckDecides | data-structure/VersionBlock/AllVBManager.cpp:352 | the re-check turns a reader away exactly if the watermark has passed its epoch |
| Reclamation.DeregisterReleases | data-structure/VersionBlock/AllVBManager.cpp:371-375 | a reader that leaves holds nothing back any more |
| Reclamation.SplitRegistrationLosesBlocks | data-structure/VersionBlock/AllVBManager.cpp:348-352 | a run in which the re-check accepts a reader whose blocks have been freed |
| VertexProtocol.ExecutionIsSound | data-structure/VersionBlock/AllVBManager.cpp:272-442 | in every interleaving of writers, updater, merges, readers and collection on one vertex, what the protocol promises is what the vertex needs: its invariant holds throughout |
| VertexProtocol.WriterMayWrite | data-structure/EdgeBlock/VertexEdges.cpp:399-406 | a registered writer's epoch is one the vertex has not published, and its slot is that epoch's or free |
| VertexProtocol.MayTransform | data-structure/VersionBlock/AllVBManager.cpp:413-418 | the epoch the updater transforms is the vertex's oldest unpublished one |
| VertexProtocol.EveryReaderReadsItsEpoch | data-structure/EdgeBlock/VertexEdges.h:477-510 | in every interleaving a registered reader that finds no active temporary version block at the vertex finds the edges and degree of its epoch, and the weights as SnapshotWeights says, in blocks still allocated |
| VertexProtocol.PublishedIsFinal | data-structure/VersionBlock/AllVBManager.cpp:289-293 | no step ever writes to a published epoch |
| VertexProtocol.ReadsAreRepeatable | data-structure/VersionBlock/AllVBManager.cpp:346-375 | whenever no temporary version block is active, a reader is handed the edges it would have been handed at its registration, whatever the other threads do |
| VertexProtocol.RegistrationReadsNewest | data-structure/VersionBlock/AllVBManager.cpp:346-353 | in every interleaving a reader that registers is handed the history at the newest published epoch; between publications, with no active temporary version block, that is every write made so far |
| VertexProtocol.CollectionIsPrompt | data-structure/VersionBlock/AllVBManager.cpp:71-89 | in every interleaving a round moves the watermark to the newest published epoch or a registered reader's and keeps exactly the blocks from there on |
| History.AppendElsewhere | data-structure/EdgeBlock/VertexEdges.cpp:440-457 | a write changes nothing about other edges nor about earlier epochs |
| History.AppendHere | data-structure/EdgeBlock/VertexEdges.cpp:440-457 | a write is the last one of its edge from its epoch on |
| VertexReplay.ComparatorIs | data-structure/EdgeBlock/VertexEdges.cpp:45-54 | between two writes of one edge the comparator decides by the version displaced and, within the epoch, by its stamp |
| VertexReplay.HeadMoves | data-structure/EdgeBlock/VertexEdges.cpp:86-177 | every edge written in the epoch ends with that epoch as its head, stamped as a write the comparator puts last, under any order the sort may leave |
| VertexReplay.HeadWeight | data-structure/EdgeBlock/VertexEdges.cpp:166-177 | the head's weight is what some write that the comparator puts last leaves, 0 for a deletion, whatever the stamps |
| VertexReplay.StaysExactlyLast | data-structure/EdgeBlock/VertexEdges.cpp:45-54 | the weights an epoch may leave at the head are exactly those, each under some order the comparator permits |
| VertexReplay.StampsDecide | data-structure/EdgeBlock/VertexEdges.cpp:45-54 | if the edge's stamps grow in write order only one weight can stay: the last write's, or 0 if that write re-inserted the edge |
| VertexReplay.RecordWeight | data-structure/EdgeBlock/VertexEdges.cpp:153-163 | the weight saved for a displaced version is the true predecessor's |
| VertexReplay.SavesExactlyReinserts | data-structure/EdgeBlock/VertexEdges.cpp:45-54 | an epoch that re-inserts an edge it displaces may save a weight for the displaced version if and only if one of its re-insertions wrote it |
| VertexReplay.BlockIsOk | data-structure/EdgeBlock/VertexEdges.cpp:124-199 | the published block is sorted and records exactly the versions the epoch displaced, each older one once |
| VertexReplay.BlockNet | data-structure/EdgeBlock/VertexEdges.cpp:105-134 | the block's edge count is the epoch's insertions minus its deletions |
| VertexModel.EmptyOk | data-structure/EdgeBlock/VertexEdges.cpp:593-619 | the empty adjacency satisfies the invariant |
| VertexSteps.NewEntryOk | data-structure/EdgeBlock/VertexEdges.cpp:408-446 | the entry a write forms names exactly the version it displaces |
| VertexSteps.PutKeeps | data-structure/EdgeBlock/VertexEdges.cpp:363-495 | an insertion, overwrite or re-insertion keeps the vertex in step with the history, one write longer |
| VertexSteps.DeleteKeeps | data-structure/EdgeBlock/VertexEdges.cpp:497-591 | so does a deletion of an edge that is there |
| VertexSteps.TransformKeeps | data-structure/EdgeBlock/VertexEdges.cpp:39-242 | publishing the oldest unpublished epoch keeps the invariant and moves the end epoch to it |
| VertexSteps.DropKeeps | data-structure/EdgeBlock/VertexEdges.cpp:272-283 | dropping edges deleted below the watermark keeps the invariant |
| VertexSteps.PendingIsKept | data-structure/EdgeBlock/VertexEdges.cpp:269-275 | a merge never drops an edge with a pending write |
| VertexSteps.MarkMayRise | data-structure/VersionBlock/AllVBManager.cpp:83-88 | raising the watermark keeps the invariant |
| VertexSnapshot.SnapshotTopology | data-structure/EdgeBlock/VertexEdges.h:477-510 | heads and block records together are exactly the edges alive at the end of the epoch, each reported once; the prefix break loses nothing |
| VertexSnapshot.SnapshotWeights | data-structure/EdgeBlock/VertexEdges.h:553-586 | which weights may be handed out for an edge, and so when the one last written must be and when it cannot be, for any stamps |
| VertexSnapshot.NewestWeightIff | data-structure/EdgeBlock/VertexEdges.cpp:166-177 | the newest version's weight is one its epoch may leave: right if every write sorted last leaves it, wrong if none does |
| VertexSnapshot.DisplacedWeightIff | data-structure/EdgeBlock/VertexEdges.cpp:153-163 | so for a displaced version unless the displacing epoch re-inserts the edge; then it is right if every re-insertion wrote it and wrong if none did |
| VertexSnapshot.StampedVerdict | data-structure/EdgeBlock/VertexEdges.cpp:416-420 | with growing stamps and no such re-insertion the weight is right if and only if the last write did not re-insert an edge deleted in its epoch, or wrote 0 |
| VertexSnapshot.ScanWeighs | data-structure/EdgeBlock/VertexEdges.cpp:153-163 | what weight an older version is handed out with, re-insertions and any order of stamps included |
| VertexDegree.NetIsLivePlusOverwrites | data-structure/EdgeBlock/VertexEdges.cpp:105-134 | insertions minus deletions are the live edges plus the overwrites of live edges |
| VertexDegree.RewindIsExact | data-structure/VersionBlock/VertexVersionBlock/VersionBlockManager.cpp:118-125 | taking back the younger blocks leaves the sum of the deltas up to the epoch |
| VertexDegree.DegreeTheorem | data-structure/EdgeBlock/VertexEdges.cpp:623-625 | the degree is the snapshot's size plus the overwrites so far, so equal to it exactly when there were none |
| VertexRuns.EveryRunReadsItsHistory | data-structure/EdgeBlock/VertexEdges.h:477-510 | after any run of writes, deletions, publications, merges and collections, topology and degree read as the history says at every readable epoch, and every weight is one the writes may leave |
| VertexRuns.OverwriteInflatesDegree | data-structure/EdgeBlock/VertexEdges.cpp:131-134 | a run after which one live edge has degree two |
| VertexRuns.DegreeWithoutNeighbours | data-structure/EdgeBlock/VertexEdges.cpp:623-625 | a run after which a vertex of degree one has no neighbour |
| VertexRuns.StampsOutOfOrderReadWrong | data-structure/Transaction/Transaction.h:156-161 | a run whose last write of an edge wrote 8 and after which the edge is handed out with weight 6 |
| VertexRuns.ReinsertedEdgeReadsZero | data-structure/EdgeBlock/VertexEdges.cpp:153-177 | a run after which an edge written with weight 9 is handed out with weight 0 |
| VertexRuns.ReinsertRewritesThePast | data-structure/EdgeBlock/VertexEdges.cpp:86-163 | in that run a reader of epoch 1, in which the edge weighed 5, is handed the 9 written in epoch 2 |
| MergeSpec.KeepMembers | data-structure/EdgeBlock/VertexEdges.cpp:273-283 | the compaction keeps exactly the items not deleted below the watermark |
| MergeSpec.KeepSorted | data-structure/EdgeBlock/VertexEdges.cpp:273-283 | and leaves them strictly sorted by masked key |
| MergeSpec.MergeMembers | data-structure/EdgeBlock/VertexEdges.cpp:285-302 | the merge loses and invents nothing |
| MergeSpec.MergeSorted | data-structure/EdgeBlock/VertexEdges.cpp:285-302 | and is strictly sorted by masked key |
| EdgeStorage.IndexedMerge | data-structure/EdgeBlock/VertexEdges.cpp:244-313 | after a merge primary array and buffer hold each surviving key once, where the index of positions says |
| EdgeStorage.MergeDropsExactly | data-structure/EdgeBlock/VertexEdges.cpp:272-283 | exactly the edges of the primary array deleted below the watermark go |
| EdgeStorage.EdgeStore.constructor | data-structure/EdgeBlock/VertexEdges.cpp:593-619 | an empty primary array, buffer and index |
| EdgeStorage.EdgeStore.Append | data-structure/EdgeBlock/VertexEdges.cpp:381-392 | a new edge takes the next buffer slot and enters the index; the count grows with both |
| EdgeStorage.EdgeStore.Set | data-structure/EdgeBlock/VertexEdges.cpp:453-456 | writing through an item pair changes that edge and no other |
| EdgeStorage.EdgeStore.GetEdgeIndex2 | data-structure/EdgeBlock/VertexEdges.cpp:314-331 | the binary search ends and finds an edge of the primary array where it is |
| EdgeStorage.EdgeStore.GetEdgeIndex | data-structure/EdgeBlock/VertexEdges.cpp:332-361 | it finds exactly what is stored if and only if the slot past the last edge does not hold the key; otherwise it returns that slot |
| EdgeStorage.EdgeStore.SearchPrimary | data-structure/EdgeBlock/VertexEdges.cpp:334-350 | the search loop's index, in each case |
| EdgeStorage.EdgeStore.NoHitWhenMerged | data-structure/EdgeBlock/VertexEdges.cpp:370-372 | right after a merge no stored key is found past the end |
| EdgeStorage.FullArrayMatchesAWeight | data-structure/EdgeBlock/VertexEdges.cpp:332-349 | a store after one merge and no deletion in which the search for a buffered key ends on a weight |
| EdgeStorage.EdgeStore.Compact | data-structure/EdgeBlock/VertexEdges.cpp:273-283 | in place, the kept items move to the front and the dropped keys leave the index |
| EdgeStorage.EdgeStore.MergeLoop | data-structure/EdgeBlock/VertexEdges.cpp:285-297 | merging from the back, in place or into a grown array, overwrites nothing unread |
| EdgeStorage.EdgeStore.MergeInto | data-structure/EdgeBlock/VertexEdges.cpp:285-311 | the destination holds the whole merge |
| EdgeStorage.EdgeStore.GrownCapacity | data-structure/EdgeBlock/VertexEdges.cpp:257-266 | a capacity too small is doubled until it suffices and no further, so it stays below twice what is needed |
| EdgeStorage.EdgeStore.MergeTmpevWithEb | data-structure/EdgeBlock/VertexEdges.cpp:244-313 | the buffer is empty, capacity suffices and has doubled only as far as needed, index and arrays agree, and the items are the old ones minus what the merge drops |
| VertexEdgesBlock.LocatedMerge | data-structure/EdgeBlock/VertexEdges.cpp:73-84 | after a merge every unpublished entry finds its edge by the binary search |
| VertexEdgesBlock.DeletesDisplace | data-structure/EdgeBlock/VertexEdges.cpp:63-69 | a deletion always displaces a version, so the branch for deletions in the first replay loop is never taken |
| VertexEdgesBlock.VertexEdges.constructor | data-structure/EdgeBlock/VertexEdges.cpp:593-619 | an empty vertex with an empty history |
| VertexEdgesBlock.VertexEdges.Merge | data-structure/EdgeBlock/VertexEdges.cpp:370-372 | a merge keeps history and invariant and still locates every pending entry |
| VertexEdgesBlock.VertexEdges.InsertEdgeBlock | data-structure/EdgeBlock/VertexEdges.cpp:363-495 | refused exactly when a reading transaction would overwrite a version newer than its snapshot; otherwise the history gains the write |
| VertexEdgesBlock.VertexEdges.DeleteEdgeBlock | data-structure/EdgeBlock/VertexEdges.cpp:497-591 | succeeds exactly if the edge is alive and no newer than the snapshot; then the history gains the deletion |
| VertexEdgesBlock.VertexEdges.ReplayFresh | data-structure/EdgeBlock/VertexEdges.cpp:58-107 | the first replay loop applies the insertions that displace nothing, up to the first entry that does |
| VertexEdgesBlock.VertexEdges.ReplayDisplacing | data-structure/EdgeBlock/VertexEdges.cpp:124-199 | the second replay loop applies the rest and leaves one record for each |
| VertexEdgesBlock.VertexEdges.PushVB | data-structure/VersionBlock/VertexVersionBlock/VersionBlockManager.cpp:108-116 | the block joins the end of the chain, linked to the one before, and the edge count moves by its delta |
| VertexEdgesBlock.VertexEdges.Transform | data-structure/EdgeBlock/VertexEdges.cpp:39-242 | publishing keeps the history and invariant and drains the epoch's slot only; an epoch without entries publishes nothing |
| VertexEdgesBlock.VertexEdges.Collect | data-structure/VersionBlock/AllVBManager.cpp:71-89 | exactly the blocks below the new watermark are freed |
| VertexReaders.VBIterator.constructor | data-structure/VersionBlock/VertexVersionBlock/VBIterator.cpp:60-65 | what is left to report is the unpruned scan from the newest block |
| VertexReaders.VBIterator.FindIndex | data-structure/VersionBlock/VertexVersionBlock/VBIterator.cpp:9-40 | skipping blocks loses no record, and only allocated blocks are looked at |
| VertexReaders.VBIterator.GetNext | data-structure/VersionBlock/VertexVersionBlock/VBIterator.cpp:81-92 | what is left is the scan of the older blocks; stopping early loses nothing |
| VertexReaders.ReportBlock | data-structure/EdgeBlock/VertexEdges.h:487-505 | a block reports its prefix of old enough records, and nothing in the reader's own epoch |
| VertexReaders.WalkBlocks | data-structure/EdgeBlock/VertexEdges.h:485-509 | the pruned walk reports what a walk of the whole chain would |
| VertexReaders.GetDegreeVersioned | data-structure/VersionBlock/VertexVersionBlock/VersionBlockManager.cpp:118-125 | the walk takes back the deltas of exactly the younger blocks, none of them freed |
| VertexReaders.IterateEdges | data-structure/EdgeBlock/VertexEdges.h:335-408 | the scan reports the visible heads of buffer and primary array, and asks for the blocks when they may matter |
| VertexReaders.ForEachEdgeWithProperty | data-structure/EdgeBlock/VertexEdges.h:553-586 | a reader is handed each edge alive at its epoch once, with a weight as SnapshotWeights says |
| VertexReaders.GetDegree | data-structure/EdgeBlock/VertexEdges.cpp:623-625 | the degree is the snapshot's size plus the overwrites, and the size itself exactly without overwrites |
| FineMvcc.WantedIsSeen | test/test_avb_fine.cpp:69-84 | a destination written strictly before the reader's time offers it a version |
| FineMvcc.OneVersionAtATime | test/test_avb_fine.cpp:79-80 | and never two: the intervals of head and records partition time |
| FineMvcc.ReadFine | test/test_avb_fine.cpp:69-84 | at every composite time each unmasked destination reads as its latest published write strictly before, and nothing else appears |
| FineMvcc.Evolve | test/test_avb_fine.cpp:120-132 | the loop's heads and records are those of the longer sequence of writes |
| FineMvcc.PublishKeeps | test/test_avb_fine.cpp:133-159 | publishing keeps heads and records in step with the writes published |
| FineMvcc.FineDriver.constructor | test/test_avb_fine.cpp:89-102 | nothing published, nothing collected |
| FineMvcc.FineDriver.Write | test/test_avb_fine.cpp:101 | a write is collected with the next stamp |
| FineMvcc.FineDriver.Publish | test/test_avb_fine.cpp:104-160 | the collected writes are published in order, with records kept for those they displace |
| FineMvcc.FineDriver.FindVb | test/test_avb_fine.cpp:162-167 | the newest block no younger than the given epoch, or none |
| FineMvcc.FineDriver.Read | test/test_avb_fine.cpp:69-84 | after any writes and publications a read is exact at every composite time |
| FineBridge.WantIsHistory | test/test_avb_fine.cpp:69-84 | on histories without deletions the test's answer at the end of an epoch is the set of live edges with their weights |
| FineBridge.ReadersAgree | data-structure/EdgeBlock/VertexEdges.h:553-586 | there a reader of the vertex and one of the test's structure are handed the same edges and weights |
| Hops.WithinHasWalk | algorithm/BFS.cpp:34-126 | at most k hops means a walk of at most k edges |
| Hops.WalkIsWithin | algorithm/BFS.cpp:34-126 | and a walk of k edges means at most k hops |
| BFS.SlidingQueue.PushBack | third-party/gapbs.h:240-242 | an element joins behind the window, which does not change |
| BFS.SlidingQueue.SlideWindow | third-party/gapbs.h:254-257 | what waited becomes the window |
| BFS.InitDistance | algorithm/BFS.cpp:15-32 | every vertex starts with the negative of its degree, or -1, and half the sum of the degrees is returned |
| BFS.Discover | algorithm/BFS.cpp:245-251 | a vertex found is one hop further, was not queued before, and the queue has room for it |
| BFS.LeftoversAreHarmless | algorithm/BFS.cpp:103-125 | front bits left from earlier phases belong to vertices without unvisited neighbours |
| BFS.TDStep | algorithm/BFS.cpp:221-263 | a top-down step completes the next level, queues exactly that level, and returns the guessed degrees of the vertices it found |
| BFS.BUStep | algorithm/BFS.cpp:265-319 | a bottom-up step completes the next level, marks exactly it, and counts it |
| BFS.SweepVertex | algorithm/BFS.cpp:265-319 | an unvisited vertex wakes, and is marked and counted, exactly if it lies on the next level |
| BFS.BottomUp | algorithm/BFS.cpp:98-106 | the rounds end, at least one is made, and the front is exactly the last level |
| BFS.BitmapToQueue | algorithm/BFS.cpp:108-116 | the last level is queued exactly, within the queue's bounds |
| BFS.Turn | algorithm/BFS.cpp:81-126 | either phase leaves the loop one or more complete levels further, with the window exactly the last one and the guesses carried on |
| BFS.Search | algorithm/BFS.cpp:81-126 | for any guesses the main loop ends with the hop distances |
| BFS.Bfs | algorithm/BFS.cpp:34-126 | on a symmetric graph every reachable vertex gets its hop distance and every other stays negative |
| SSSP.BinAtLeast | algorithm/SSSP.cpp:70 | the test on delta selects exactly the labels of the current bin or a later one |
| SSSP.ImproveStep | algorithm/SSSP.cpp:83-103 | an improvement keeps labels walk lengths and keeps every unrelaxed vertex waiting in its bin |
| SSSP.RelaxArcs | algorithm/SSSP.cpp:74-105 | a vertex whose arcs are done is relaxed; labels fell or nothing changed |
| SSSP.DrainFrontier | algorithm/SSSP.cpp:66-108 | after a frontier every vertex is relaxed or waits in a bin no earlier than the current one |
| SSSP.NextBin | algorithm/SSSP.cpp:110-117 | the first non-empty bin from the current one on, or none |
| SSSP.TakeBin | algorithm/SSSP.cpp:126-133 | moving a bin to the frontier loses no waiting vertex |
| SSSP.NoShorterWalk | algorithm/SSSP.cpp:60-137 | once every arc is relaxed no walk is shorter than the label of its end |
| SSSP.ComputeSssp | algorithm/SSSP.cpp:11-138 | it ends, and every label is the length of a shortest walk, infinite exactly without one |
| LCC.StrictTotalOrder | algorithm/LCC.cpp:48-61 | the degree and id orientation is a strict total order |
| LCC.TwoPairsEach | algorithm/LCC.cpp:63-88 | each triangle through a vertex is exactly two of its adjacent ordered pairs of neighbours |
| LCC.PairsBound | algorithm/LCC.cpp:90-98 | there are at most deg * (deg - 1) such pairs |
| LCC.Orient | algorithm/LCC.cpp:52-61 | the forward list is strictly ascending and holds exactly the neighbours later in the order |
| LCC.Intersect | algorithm/LCC.cpp:70-87 | the two-pointer loop counts each common successor once, in all three counters |
| LCC.CountFrom | algorithm/LCC.cpp:68-88 | the triangles found so far are exactly those with an earlier first vertex, or this one |
| LCC.Score | algorithm/LCC.cpp:90-98 | the coefficient is the share of the pairs of neighbours that are counted, 0 below two neighbours, and at most 1 |
| LCC.ComputeLcc | algorithm/LCC.cpp:18-98 | each counter is its vertex's number of adjacent neighbour pairs, twice its triangles; together they are six times the triangles; each score is the share of neighbour pairs that are adjacent |
| WCC.RoundCarries | algorithm/WCC.cpp:36-71 | a round carries every label over every edge, both ways |
| WCC.RoundsReach | algorithm/WCC.cpp:32-72 | after k rounds a label is no larger than any vertex within k links |
| WCC.RoundsAreSound | algorithm/WCC.cpp:25-72 | after every round a label is a vertex of the component and no larger than the vertex |
| WCC.ExactIffAgree | algorithm/WCC.cpp:74-81 | the names are the components' smallest vertices if and only if no edge separates two names |
| WCC.EqualNamesAreJoined | algorithm/WCC.cpp:74-81 | equal names mean connected vertices, always |
| WCC.SettledIsExact | algorithm/WCC.cpp:32-72 | labels a round leaves alone are exact |
| WCC.CloseIsExact | algorithm/WCC.cpp:32-34 | a vertex within 100 links of its component's smallest vertex is named exactly |
| WCC.LongPathIsCutShort | algorithm/WCC.cpp:32-34 | on a path of 203 vertices or more the cap leaves a wrong name |
| WCCSchedule.LabelIsLeastCarried | algorithm/WCC.cpp:32-72 | after k rounds a label is the smallest vertex with a path to it whose links the k rounds visit in order |
| WCCSchedule.NameIsLeastIff | algorithm/WCC.cpp:74-81 | a name is its component's smallest vertex if and only if going over and over to the smallest vertex whose label the rounds carry there leads to it |
| WCC.ForwardPass | algorithm/WCC.cpp:36-54 | the forward loop computes the forward pass and reports a change exactly if some label fell |
| WCC.BackwardPass | algorithm/WCC.cpp:56-71 | the backward loop computes the backward pass and reports a change exactly if some label fell |
| WCC.Propagate | algorithm/WCC.cpp:25-72 | stopping early leaves what 100 rounds would, and a change is reported exactly if the hundredth round made one |
| WCC.Flatten | algorithm/WCC.cpp:74-81 | following labels ends, because they strictly descend, at the end of the chain |
| WCC.ComputeWcc | algorithm/WCC.cpp:17-93 | the names are always sound, exact if nothing changed last, and exact within 100 links |
| CDLP.RunCount | algorithm/CDLP.cpp:70-73 | a run of the sorted labels holds every copy of its label |
| CDLP.ModeIsUnique | algorithm/CDLP.cpp:67-79 | there is one smallest most frequent label |
| CDLP.BestLabel | algorithm/CDLP.cpp:65-79 | the scan selects the smallest label of maximal multiplicity |
| CDLP.Sweep | algorithm/CDLP.cpp:41-88 | one sweep is the synchronous update, and it reports a change exactly if there is one |
| CDLP.SettledStays | algorithm/CDLP.cpp:40 | labels an update leaves alone stay, so stopping early changes nothing |
| CDLP.ComputeCdlp | algorithm/CDLP.cpp:18-91 | the result is the one labelling that max_iterations synchronous updates produce |
| CSR.CSRGraph.GetOrAddDense | test/CSRBaseline.h:49-57 | ids keep their numbers, a new one takes the next, and the maps stay inverse to each other |
| CSR.CSRGraph.Densify | test/CSRBaseline.h:65-80 | the numbered ids are exactly the endpoints of the edges |
| CSR.RowsTakeAll | test/CSRBaseline.h:94-103 | the last row ends at the number of edges |
| CSR.CSRGraph.SumDegrees | test/CSRBaseline.h:94-99 | the prefix sums are where the rows start |
| CSR.NextCell | test/CSRBaseline.h:105-117 | every write stays inside its row and disturbs no other |
| CSR.CSRGraph.FillRows | test/CSRBaseline.h:101-117 | every row ends up holding exactly its edges |
| CSR.CSRGraph.Build | test/CSRBaseline.h:35-121 | dense ids are a bijection with the endpoints, and each row is exactly the edges that leave its vertex, in input order |

## Left out

- VertexEdgesBlock.VertexEdges.InsertEdgeBlock: asks that the slot past the last edge does not happen to hold a stored key when the buffer is not full, the exact condition of the search, and that the edge is pending in no other epoch.
- VertexEdgesBlock.VertexEdges.DeleteEdgeBlock: asks the same, and that the edge is not deleted already, which the code does not test.
- HashSet.HashTable2.SetDestHashTableVal: asks that the key is new, as its callers check; a second copy of a key would break the set.
- VertexReaders.ForEachEdgeWithProperty: reads with no active temporary version block, at INTRA_MAX; a scan of unpublished entries reports first insertions as versions and skips deletions, so it is no snapshot. `for_each_edge` is the same loop without the property half.
- SSSP.ComputeSssp: natural weights, and a frontier that grows; floating-point rounding and the fixed frontier size are not modelled.
- CSR.CSRGraph.Build: one thread, so rows keep input order; with several only the multiset of a row is fixed.
- CDLP.ComputeCdlp: asks that a vertex of non-zero degree has a neighbour, as the code reads the first one unchecked; the store does not promise it (VertexRuns.DegreeWithoutNeighbours).
- WCC.ComputeWcc: states the condition on its result and the bound of 100 links; the exact condition on the graph is WCCSchedule.NameIsLeastIff.
- Several unpublished epochs touching the same edge: Transform would reset the head to the older epoch.
- Adjacencies preloaded by `build(n > 0)`: epoch 0 doubles as "no earlier version".
- Contents of `pred_index`, and the link toggled by ChangeLastIndex: nothing modelled reads them.
- The doubling array of TmpVersionBlock is a sequence; 32-bit counters are bounded by the preconditions instead of wrapping.
- The 64-bit words of Bitmap and the local buffers of QueueBuffer: an array of bits and direct pushes.
- `for_each_edge_sorted`: CDLP takes the neighbours it reports as given, not empty where the degree is not zero.
- Transactions, locks, weak memory, OpenMP and the thread registry; of progress, that of a thread left alone is shown, not that of every fair schedule.
- The AVB_COARSE build, PageRank, memory pools, input files, drivers and statistics.
