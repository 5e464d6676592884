# SDSKV and its Bw-Tree: a verified model

This project models the parts of the Mochi SDSKV key-value service where correctness is
hardest to see, and proves what they promise.

**The Bw-Tree.** Every logical node is an immutable chain of delta records over a sorted
base array, reached through a mapping table that changes only by compare-and-swap. Chains
are datatypes; `Replay` gives a chain its meaning and `WF` says what holds of every chain
that the tree builds. Against this meaning the project proves

- the search paths with narrowed windows and early exits (`LeafSearch`, `InnerSearch`,
  `SeparatorLookup`, `LeftSibling`),
- consolidation through nested merges (`LeafMergeLoop`, `LeafConsolidation`,
  `InnerMergeLoop`, `InnerConsolidation`; `RecordCut` is common to both and `InnerBody` is the
  view of a separator list as a set), and leaf splits (`LeafSplit`),
- the contents of the leaf level, as a step machine over the mapping table in which threads
  use snapshots of any age (`LeafLevel`, `MappingTable`), and the walk over next ids while
  that table changes (`SiblingWalk`),
- forward iteration while other threads change the shape of the tree (`Iterator`, and
  `ScanDuringRun`, which takes its premise from runs of the step machine),
- the containers and allocators below: `BloomFilter`, `SortedSmallSet`, `AtomicStack`,
  `ChunkAllocator` with `ChunkChain`,
- the protocol on all levels at once: `NodeGraph` has every step that installs, retires or
  frees a physical node, with only those checks a thread makes on its own snapshots;
  `StepEffects` says what each step gives its thread, `Levels` and `Protocol` prove that ranges stay apart and linked and that every node is
  merged once, indexed in its parent once and deleted from it once,
- and memory reclamation: `Ownership` (every node has one holder, none is freed twice),
  `Epochs` (no held node is freed) and `GarbageList` (the linked list behind it).

**The service.** `MapStore` is the ordered in-memory store, `Migration` the loop that moves
all keys to another store, `WireFormat`, `BatchPut` and `BatchGet` the byte layouts of the
multi-key calls with client and server on both ends.

Classes and methods with loops stand for code that updates its state in place; each is
proved against a function of its inputs, about which the lemmas speak. The step machines
have one step per shared memory access or per compare-and-swap.

## Where the code does not do what one might expect

- Reading all values of a key from a leaf chain can miss a live value. The window indices
  recorded by data records above a merge belong to one branch, and they are kept when the
  merge sends the search into the other branch. `LeafSearch.ReadLosesValueAboveMerge` is
  such a chain.
- For the same reason the kept index can lie beyond the end of the array of the branch taken,
  and then the search reads outside that array: `LeafSearch.ReadLeavesArray` is a chain on
  which this happens for a key that is present. `LeafSearch.ReadIsExactIff` says, for all
  chains, exactly when a read is defined and complete, and `LeafSearch.SafeReadIsExact` that
  it is whenever no data record lies above a merge. The existence search has neither problem.
- Migrating all keys without erasing them never ends if the empty key, which as a start key
  means the beginning, is the last key of a full page. `Migration.PagingEndsIff` is the
  exact condition, `Migration.EndlessStoreIsStuck` a concrete store. In the default key
  order it cannot happen.

## Modelling choices

- The tree only compares keys, and a run has finitely many, so tree keys are integers. Values
  are only compared for equality and stay an abstract type. `INVALID_NODE_ID` in a high key pair
  is the constructor `PosInf`.
- A pointer into a base array (`location`) is its slot number; array capacity is the ghost or
  real length the code reserves.
- Metadata that constructors store in a record is a function of the chain.
- Outcomes of compare-and-swaps, network calls and memory addresses chosen by `operator new`
  are parameters or follow from the state of a step machine.

## Model

| member | source | states |
|---|---|---|
| BloomFilter.PairHashRespects | src/BwTree/src/bwtree.h:881-921 | The XOR hash of a key-value pair gives equal pairs equal hashes whenever the component hashes do, so the filter may be used with it |
| BloomFilter.Filter.Insert | src/BwTree/src/bloom_filter.h:137-152 | Appends the value and keeps the bit of every inserted value set |
| BloomFilter.Filter.Exists | src/BwTree/src/bloom_filter.h:170-193 | The answer is exactly membership up to equality: no false negative, and the scan removes every false positive |
| SortedSmallSet.InsertUpperSorted | src/BwTree/src/sorted_small_set.h:88-101 | InsertNoDedup keeps any window sorted, duplicates included, for every strict weak order |
| SortedSmallSet.InsertLowerSorted | src/BwTree/src/sorted_small_set.h:49-79 | Insert keeps the window strictly sorted when the element found is not equal |
| SortedSmallSet.SmallSet.Insert | src/BwTree/src/sorted_small_set.h:49-79 | The in-place shift is insertion at the lower bound; nothing changes if an equal element is there |
| SortedSmallSet.SmallSet.InsertNoDedup | src/BwTree/src/sorted_small_set.h:88-101 | Insertion behind all elements that are not larger |
| SortedSmallSet.SmallSet.PopFront | src/BwTree/src/sorted_small_set.h:129-133 | Returns the first element and leaves the rest |
| LeafChain.WFInfo | src/BwTree/src/bwtree.h:1429-1592 | Every live pair of a well-formed chain lies in its range, which is not empty |
| LeafChain.MergeBranch | src/BwTree/src/bwtree.h:1549-1592 | A pair is live in a merged node exactly when it is live in the branch of its key |
| LeafChain.ItemCountIsLiveCount | src/BwTree/src/bwtree.h:1429-1592 | On every well-formed chain item_count is the number of live pairs and depth the number of data records, so arrays sized by them are filled exactly and never overflow |
| LeafSearch.NavigateLeafNode | src/BwTree/src/bwtree.h:4441-4585 | The existence search with early exits finds a pair if and only if it is live after replay, and returns its true index in the base array below, through nested merges |
| LeafSearch.PostedRecordIsWellFormed | src/BwTree/src/bwtree.h:7356-7436 | A record built from the search result keeps the chain well formed, so every later search and consolidation is exact again |
| LeafSearch.ReadValues | src/BwTree/src/bwtree.h:4228-4420 | On every well-formed chain: each live value once, except those whose slot lies outside the part of the array that the data records met leave to search; no result if and only if that part is no range of the base array taken |
| LeafSearch.WindowIsRead | src/BwTree/src/bwtree.h:4343-4394 | A read begins at the index of the last record met below the key, or at 0, and searches up to the index of the last record met above it, or to the end of the array |
| LeafSearch.ReadIsExactIff | src/BwTree/src/bwtree.h:4375-4394 | On every well-formed chain the read is defined and complete if and only if the records met leave a range of the array of the branch taken that leaves out no unmentioned base slot of the key; indices are not reset when a merge branch is taken |
| LeafSearch.SafeReadIsExact | src/BwTree/src/bwtree.h:4277-4420 | On every chain whose data records were indexed in the branch that the key takes, in particular with no data record above a merge, the read returns all live values |
| LeafSearch.NoDataAboveMergeIsSafe | src/BwTree/src/bwtree.h:4343-4394 | A chain with no data record above a merge record is such a chain for every key |
| LeafSearch.LossyChainIsWellFormed | src/BwTree/src/bwtree.h:4343-4363 | The chain of the counterexample can be built: it satisfies all that every posted chain satisfies |
| LeafSearch.ReadLosesValueAboveMerge | src/BwTree/src/bwtree.h:4375-4394 | A concrete chain with an insert above a merge on which the read misses a live value |
| LeafSearch.ReadLeavesArray | src/BwTree/src/bwtree.h:4287-4303 | A concrete well-formed chain on which the read of a present key searches beyond the end of the array |
| LeafMergeLoop.IndexMonotone | src/BwTree/src/bwtree.h:4844-4880 | In the sorted set the recorded indices never decrease, and equal ones come from the same pair or gap |
| RecordCut.CutMembers | src/BwTree/src/bwtree.h:4958-4985 | Scanning the sorted set from its end splits it exactly at the high key of the branch |
| RecordCut.RestRest | src/BwTree/src/bwtree.h:5100-5115 | What is left for the branches further right does not depend on the cuts in between |
| LeafMergeLoop.TakeRecord | src/BwTree/src/bwtree.h:4985-5045 | Taking the next record of the set keeps the merged prefix sorted, duplicate-free and exact |
| LeafMergeLoop.MergeBase | src/BwTree/src/bwtree.h:4948-5050 | One base array merged with the records below the high key: sorted, no item skipped or repeated, exactly the records laid over the slots |
| LeafConsolidation.CollectRecursive | src/BwTree/src/bwtree.h:4931-5126 | Through all merge branches the set keeps what belongs to later branches, and the output is the effective pairs of this branch in order |
| LeafConsolidation.CollectAllValuesOnLeaf | src/BwTree/src/bwtree.h:4815-4908 | The new base array is key-sorted, holds exactly the replayed pairs below the high key, and fills item_count |
| LeafSplit.FindSplitPoint | src/BwTree/src/bwtree.h:2503-2547 | Of the key boundaries that leave more than 32 items on both sides: the nearest one left of the centre or at it, else the first one right of it, and -1 if and only if there is none |
| LeafSplit.GetSplitSibling | src/BwTree/src/bwtree.h:2576-2629 | No key is separated from its values; the left part cut at the new high key followed by the sibling is the original array |
| LeafSplit.SplitAtKey | src/BwTree/src/bwtree.h:1498-1516 | Split record and sibling are well formed and share the pairs by the split key |
| LeafLevel.WalkIsUnique | src/BwTree/src/bwtree.h:3388-3423 | The walk over next ids from the first leaf is determined by the mapping table |
| LeafLevel.CoverIsUnique | src/BwTree/src/bwtree.h:3388-3423 | At most one leaf of the walk covers a key |
| LeafLevel.PairIsWhereItsKeyIs | src/BwTree/src/bwtree.h:3388-3423 | A pair is live on the level exactly when it is live in the leaf that covers its key |
| LeafLevel.SplitKeepsTiling | src/BwTree/src/bwtree.h:6461-6522 | A split record with its sibling keeps the ranges tiling the key space |
| LeafLevel.SplitKeepsContents | src/BwTree/src/bwtree.h:6461-6522 | A split changes no pair |
| LeafLevel.MergeKeepsTiling | src/BwTree/src/bwtree.h:5900-5965 | A merge record that absorbs the next, removed leaf keeps the ranges tiling the key space |
| LeafLevel.MergeKeepsContents | src/BwTree/src/bwtree.h:5900-5965 | A merge changes no pair |
| MappingTable.InitEstablishesInv | src/BwTree/src/bwtree.h:3005-3100 | The initial tree tiles the key space with one empty leaf |
| MappingTable.StepKeepsInv | src/BwTree/src/bwtree.h:3146-3160 | Every load and compare-and-swap keeps the tiling; the pairs change only at a winning insert or delete, by exactly the pair the thread saw absent or present |
| MappingTable.RunsPreserveContents | src/BwTree/src/bwtree.h:3146-3160 | The same over every run, with snapshots of any age and any interleaving |
| MappingTable.InsertStep | src/BwTree/src/bwtree.h:7365-7431 | A winning insert adds its pair and nothing else |
| MappingTable.DeleteStep | src/BwTree/src/bwtree.h:7568-7625 | A winning delete removes its pair and nothing else |
| MappingTable.ConsolidateStep | src/BwTree/src/bwtree.h:6295-6313 | Replacing a chain by its consolidated array changes no pair |
| MappingTable.SplitStep | src/BwTree/src/bwtree.h:6495-6522 | Publishing a sibling by a winning split changes no pair; a losing one changes nothing |
| MappingTable.RemoveStep | src/BwTree/src/bwtree.h:6583-6611 | A remove record changes no pair |
| MappingTable.MergeFindsRemovedNext | src/BwTree/src/bwtree.h:5940-5978 | The node that a winning merge absorbs is the next one of the walk, still under the remove record seen earlier, and was not merged before |
| MappingTable.MergeStep | src/BwTree/src/bwtree.h:7316-7348 | A winning merge changes no pair and takes the absorbed id off the walk |
| MappingTable.EveryKeyHasOneLeaf | src/BwTree/src/bwtree.h:3388-3423 | In every reachable state each key is covered by exactly one published leaf that is not merged away, and its pairs are live exactly there |
| MappingTable.BoundsComeFromKeys | src/BwTree/src/bwtree.h:2576-2629 | Steps create no page bound except the key of a live pair |
| MappingTable.UncontendedInsert | src/BwTree/src/bwtree.h:7365-7431 | With no other thread in between, inserting an absent pair into the leaf that covers its key, unless that is being removed, makes exactly that pair live |
| MappingTable.UncontendedDelete | src/BwTree/src/bwtree.h:7568-7625 | So does deleting a present one |
| MappingTable.UncontendedSplit | src/BwTree/src/bwtree.h:6461-6522 | A sibling just stored can be published by a split of the base it was cut from |
| MappingTable.WinnerAchieves | src/BwTree/src/bwtree.h:3146-3160 | A winning swap leaves its own node under the id and every other node untouched, with the effect it is for: the pair added or gone, the sibling published with the upper part, the removed leaf taken over |
| MappingTable.LoserChangesNothing | src/BwTree/src/bwtree.h:6523-6545 | A lost swap changes nothing, except that the sibling of a lost split is given up |
| SiblingWalk.NavigateSiblingChain | src/BwTree/src/bwtree.h:3388-3423 | While the table changes between the loads, the hops over next ids end at or left of the key: at a leaf that is being removed, which the caller helps along, or at the one leaf that covers the key when it is loaded |
| SiblingWalk.Hop | src/BwTree/src/bwtree.h:3403-3410 | The next id still resolves when it is loaded later, and its leaf begins at the high key seen before |
| SiblingWalk.RunIsSteady | src/BwTree/src/bwtree.h:3388-3423 | In every run ids keep their low key, and what is on the walk stays loadable while epochs protect it |
| InnerChain.LocateIs | src/BwTree/src/bwtree.h:3465-3490 | The slot that an upper bound search from the second slot on selects is determined |
| InnerChain.ReplayOk | src/BwTree/src/bwtree.h:1656-1817 | On every well-formed inner chain the replayed separators are strictly sorted in the range of the node and their number is item_count |
| InnerChain.DepthCountsRecords | src/BwTree/src/bwtree.h:1656-1817 | depth counts the data records, from the depths of the base arrays on, so the array of recorded deltas has room for all of them |
| InnerSearch.LocateSeparatorByKey | src/BwTree/src/bwtree.h:3465-3490 | An upper bound inside any sound window gives the child that a search of the whole array gives |
| InnerSearch.ChildBelowInsert | src/BwTree/src/bwtree.h:3611-3638 | The early exit at an insert record is right, and otherwise the child is decided below |
| InnerSearch.ChildBelowDelete | src/BwTree/src/bwtree.h:3639-3672 | The early exit at a delete record is right, and otherwise the child is decided below |
| InnerSearch.NavigateInnerNode | src/BwTree/src/bwtree.h:3549-3732 | For every well-formed chain and key in range the early-exit search with narrowed windows returns the child that an upper bound search on the replayed separators returns, through nested merges |
| SeparatorLookup.FindSeparator | src/BwTree/src/bwtree.h:6902-7030 | The lookup before posting finds the separator with the key if and only if the replayed list has one, and returns the slot that a new record must carry |
| SeparatorLookup.SlotIsTheSame | src/BwTree/src/bwtree.h:6949-6969 | The slot recorded by a search that started below a merge is the slot a search from the top gives |
| SeparatorLookup.PostedRecordIsWellFormed | src/BwTree/src/bwtree.h:5720-5770 | A record built from that answer and the true neighbours keeps the chain well formed |
| InnerBody.BodyOfMerge | src/BwTree/src/bwtree.h:1783-1817 | The separators of a merged node are those of both branches, apart at the merge key |
| InnerMergeLoop.MergeSeps | src/BwTree/src/bwtree.h:3995-4120 | One array merged with its records by key: sorted, a record overrides the slot with its key, everything else is kept |
| InnerConsolidation.CollectRecursive | src/BwTree/src/bwtree.h:3953-4195 | Each branch takes its share of the shared record set and outputs its effective separators |
| InnerConsolidation.CollectAllSepsOnInner | src/BwTree/src/bwtree.h:3883-3939 | The new array is exactly the replayed separator list, placeholder included, and fills item_count |
| LeftSibling.TakeOne | src/BwTree/src/bwtree.h:7116-7180 | One round of the descending merge takes the highest separator that is left, or drops a record that stands for nothing |
| LeftSibling.FindLeftSibling | src/BwTree/src/bwtree.h:7048-7274 | For every chain in which the key is a separator other than the first: the id of the separator immediately before it, also when a merge forces consolidation and restart; then the new array, with the same separators and bounds, is installed and the old chain retired, or the other way round when the swap fails |
| LeftSibling.RetiredIsAnother | src/BwTree/src/bwtree.h:7231-7250 | Something is retired exactly when the walk meets a merge, never what the snapshot holds on to, and the old chain exactly when the swap went through |
| Epochs.StepKeepsInv | src/BwTree/src/bwtree.h:495-514 | Joining, leaving, unlinking, retiring, advancing and collecting, one memory access at a time, keep each holder no younger than the garbage it may still use |
| Epochs.NoHeldNodeIsFreed | src/BwTree/src/bwtree.h:9435-9467 | No run frees a node that a thread inside an operation may still hold |
| Epochs.FreedIsNotHeld | src/BwTree/src/bwtree.h:562-578 | An entry below the minimum, read thread by thread while others move on, has no holder left |
| Epochs.FreedOnce | src/BwTree/src/bwtree.h:9435-9467 | Only garbage of the collecting thread is freed, and freed is final |
| Epochs.CollectionEndsAtMinimum | src/BwTree/src/bwtree.h:9442-9465 | Every entry left after a collection is at or above the minimum |
| Epochs.GarbageIsListed | src/BwTree/src/bwtree.h:9410-9424 | In every run a retired node that is not freed stands in the list of its thread: nothing is leaked |
| Epochs.FreeHeadFreesEntry | src/BwTree/src/bwtree.h:9450-9460 | Taking an entry off the list frees exactly its nodes and leaves the others where they are |
| Epochs.AcquiredStaysUsable | src/BwTree/src/bwtree.h:7363-7433 | In every run a node acquired in an operation stays in memory until its thread leaves |
| Epochs.UncontendedJoinAndLeave | src/BwTree/src/bwtree.h:510-514 | Joining and leaving alone announce the current epoch |
| Epochs.UncontendedRetire | src/BwTree/src/bwtree.h:9405-9424 | Retiring alone puts the unlinked nodes under the current epoch at the end of the list |
| Epochs.UncontendedSum | src/BwTree/src/bwtree.h:562-578 | Reading the epochs thread by thread with nobody in between gives their exact minimum |
| GarbageList.SummarizeGCEpoch | src/BwTree/src/bwtree.h:562-578 | The minimum of all last active epochs |
| GarbageList.OlderIsExact | src/BwTree/src/bwtree.h:9449-9451 | In a sorted list the prefix that is cut off is exactly the set of older entries |
| GarbageList.AppendKeepsSorted | src/BwTree/src/bwtree.h:9396-9404 | Appending under the current global epoch keeps the list sorted |
| GarbageList.GCMetaData.PerformGC | src/BwTree/src/bwtree.h:9435-9467 | Frees exactly the entries older than the minimum, in order, keeps the rest in order of epochs, and leaves node_count and last_p right |
| GarbageList.GCMetaData.AddGarbageNode | src/BwTree/src/bwtree.h:9396-9422 | Appends at last_p; once more than 1024 entries are queued frees exactly those older than every thread has been active |
| NodeGraph.FreeEpochDeltaChain | src/BwTree/src/bwtree.h:8199-8366 | Frees every node the root owns exactly once, both branches of merges, nothing below remove and abort records |
| Levels.NextIsUnique | src/BwTree/src/bwtree.h:5202-5300 | On one level an id is the next id of at most one node |
| Levels.CoreSplit | src/BwTree/src/bwtree.h:6461-6522 | Publishing a split sibling keeps the ranges of its level apart and linked, and every separator in exactly one parent |
| Levels.CoreMerge | src/BwTree/src/bwtree.h:5900-5978 | So does taking over the next node |
| Levels.CoreInsert | src/BwTree/src/bwtree.h:5720-5770 | So does inserting the separator of an id that was never indexed |
| Levels.CoreDelete | src/BwTree/src/bwtree.h:5784-5853 | Deleting the separator of a merged node leaves it in no parent at all |
| Levels.CoreRoot | src/BwTree/src/bwtree.h:6093-6166 | A new root indexes an id that nobody indexed before |
| Protocol.MergeFindsRemoved | src/BwTree/src/bwtree.h:5265-5290 | A thread only sees that the left snapshot names the removed id; if its swap wins, that id still leads to the remove record it saw and nobody merged it before |
| Protocol.LoadProves | src/BwTree/src/bwtree.h:6064-6262 | When a thread loads a split node with a current parent snapshot in hand that lacks the separator, the new id was never indexed anywhere |
| Protocol.InsertIsFirst | src/BwTree/src/bwtree.h:6265-6275 | A winning insert of a separator is the first one for its id |
| Protocol.RootIsFirst | src/BwTree/src/bwtree.h:6156-6166 | So is a winning swap of the root |
| Protocol.DeleteFindsMerged | src/BwTree/src/bwtree.h:5814-5844 | A winning delete of a separator finds its id merged and its remove record not in the garbage yet |
| Protocol.StepKeepsLinks | src/BwTree/src/bwtree.h:5888-6290 | Every step on leaf and inner levels keeps ranges apart and linked, separators in one parent each, and what stale records and snapshots say true |
| StepEffects.LoadedChainWins | src/BwTree/src/bwtree.h:3146-3160 | A chain just loaded can be posted on and its swap wins unless a remove or abort record is on top |
| StepEffects.AbortBlocks | src/BwTree/src/bwtree.h:5888-5899 | While an abort record is on top, no swap wins against the chain that a thread loads |
| StepEffects.AbortIsUndone | src/BwTree/src/bwtree.h:6800-6826 | Taking the abort record off gives the chain below back and retires the record |
| StepEffects.SiblingIsPrepared | src/BwTree/src/bwtree.h:6461-6522 | A prepared sibling has the upper part of its base under an id nobody can reach, and a split on that base can publish it |
| StepEffects.RootIsPrepared | src/BwTree/src/bwtree.h:6119-6152 | A prepared root covers all keys with the one separator of the split below it, and can be published |
| StepEffects.RootGrows | src/BwTree/src/bwtree.h:6156-6166 | A winning root swap makes that node the root and counts its separator as indexed |
| StepEffects.SplitCanBeIndexed | src/BwTree/src/bwtree.h:6064-6275 | A thread that finds a split record under a current parent without its separator can insert it there |
| StepEffects.WinnerAchieves | src/BwTree/src/bwtree.h:5814-6290 | On every level a winning swap changes its own entry only, and the new meaning is the old one with the operation applied: divided, joined, a separator added or gone, or the same |
| StepEffects.LoserChangesNoEntry | src/BwTree/src/bwtree.h:6300-6336 | A lost swap changes no entry; its record is freed at once, or goes to the garbage if it was a consolidation |
| Ownership.InitEstablishesInv | src/BwTree/src/bwtree.h:3007-3100 | The initial root and first leaf satisfy all of this |
| Ownership.StepKeepsInv | src/BwTree/src/bwtree.h:6163-6191 | Every install, failed install, retirement and free on leaf and inner level leaves each node with exactly one holder |
| Ownership.RunsKeepOneHolder | src/BwTree/src/bwtree.h:8199-8366 | In every run each node is at all times in exactly one of a reachable entry, one garbage root, or the freed nodes |
| Ownership.MergedOnce | src/BwTree/src/bwtree.h:5940-5978 | In every run at most one merge wins for a removed node |
| Ownership.IndexedOnce | src/BwTree/src/bwtree.h:6205-6275 | In every run at most one insert of the separator for an id wins, in a parent or a new root |
| Ownership.UnindexedOnce | src/BwTree/src/bwtree.h:5814-5844 | In every run at most one delete of it wins, so its remove record is put into the garbage once |
| Ownership.NeverFreedTwice | src/BwTree/src/bwtree.h:8199-8366 | Freeing a garbage root frees nothing that was freed before and nothing an entry reaches |
| Ownership.EntriesAreNotFreed | src/BwTree/src/bwtree.h:3146-3160 | Nothing an entry stands for is freed, and as long as a published id leads anywhere it leads to a node that is not freed |
| Ownership.MergeOwners | src/BwTree/src/bwtree.h:5900-5978 | A merge hands the absorbed nodes to the left entry while the removed entry keeps its remove record |
| Ownership.HandOverOwners | src/BwTree/src/bwtree.h:5814-5844 | Retiring a remove record, or an unpublished sibling, moves exactly what its id owned to the garbage |
| Ownership.AbandonOwners | src/BwTree/src/bwtree.h:6512-6544 | After a failed split the fake remove record and the sibling are two garbage roots with disjoint nodes |
| Ownership.RemoveAbortOwners | src/BwTree/src/bwtree.h:6796-6826 | Removing an abort record retires it alone and gives its child back to the entry |
| AtomicStack.PopCasStep | src/BwTree/src/atomic_stack.h:312-363 | A winning pop returns the item on top at that moment and removes it |
| AtomicStack.PushStoreStep | src/BwTree/src/atomic_stack.h:260-296 | The store at the end of a push makes all its items appear on top at once |
| AtomicStack.StepKeepsInv | src/BwTree/src/atomic_stack.h:209-219 | A snapshot with the current version is the current top and its value is still in place |
| AtomicStack.NothingLostOrDuplicated | src/BwTree/src/atomic_stack.h:312-363 | In every last-in first-out history pushed items are popped items plus remaining ones |
| AtomicStack.RunsAreStacks | src/BwTree/src/atomic_stack.h:260-363 | Every interleaving of one pusher and any number of poppers is such a history, and the array holds what it leaves |
| AtomicStack.VersionsIncrease | src/BwTree/src/atomic_stack.h:209-219 | Versions of different non-null tops strictly increase along every run |
| AtomicStack.EmptyReportIsRight | src/BwTree/src/atomic_stack.h:312-363 | In every run a pop gives up only if the stack is empty or a push is under way, at its first load and after every lost swap; otherwise it holds the current top |
| AtomicStack.UncontendedPop | src/BwTree/src/atomic_stack.h:312-363 | With no other thread in between a pop returns the last item, down to the bottom one |
| AtomicStack.UncontendedPush | src/BwTree/src/atomic_stack.h:281-296 | A push alone ends with its items on top in order |
| AtomicStack.NeverStuck | src/BwTree/src/atomic_stack.h:312-363 | In every run a thread inside an operation has a next step, and the slot a pop reads lies in the array |
| ChunkAllocator.RegionsAreDisjoint | src/BwTree/src/bwtree.h:1935-1962 | In every interleaving the regions handed out, each as long as its request, are disjoint and lie between header and end of their chunk |
| ChunkAllocator.RegionMeetsRequest | src/BwTree/src/bwtree.h:1935-1962 | Every region of every run answers a request of exactly its length, on which one thread works from its start to the subtraction that takes the region off the tail |
| ChunkAllocator.StepServesItsThread | src/BwTree/src/bwtree.h:1941-1956 | A step hands out memory exactly when it is a subtraction that stays above the header: the bytes asked for, right below the old tail |
| ChunkAllocator.UncontendedAllocation | src/BwTree/src/bwtree.h:1935-1962 | A thread that meets no other one is served by a chunk with room |
| ChunkAllocator.FailureGrows | src/BwTree/src/bwtree.h:1938-1955 | A thread asks for a successor exactly when its chunk is exhausted or cannot hold its request, and keeps its size |
| ChunkAllocator.GrowFindsSuccessor | src/BwTree/src/bwtree.h:1975-2008 | The thread goes on with the next chunk, a fresh one if it had to be added, and a lost swap adds none |
| ChunkAllocator.UnderflowIsBounded | src/BwTree/src/bwtree.h:1936-1940 | However many allocations fail in a chunk, its tail stays within one request a thread below the limit: the guard against underflow |
| ChunkAllocator.FailedChunkServesNoMore | src/BwTree/src/bwtree.h:1941-1962 | A chunk that failed once never serves again, and at most one successor is ever linked to a chunk |
| ChunkAllocator.GrowingSawFailure | src/BwTree/src/bwtree.h:1975-2008 | Only a thread whose chunk failed for good looks for the next one |
| ChunkAllocator.StepKeepsInv | src/BwTree/src/bwtree.h:1935-2036 | Each atomic access keeps the chain, the regions and their order |
| ChunkChain.AllocationMeta.TryAllocate | src/BwTree/src/bwtree.h:1941-1962 | Serves right below the tail, or leaves the chunk exhausted |
| ChunkChain.AllocationMeta.GrowChunk | src/BwTree/src/bwtree.h:1975-2008 | Returns the linked successor, creating it at most once |
| ChunkChain.Allocate | src/BwTree/src/bwtree.h:2020-2036 | Without contention the loop ends for any size that fits an empty chunk: in the first chunk with room, or in one added chunk |
| Iterator.LoadPage | src/BwTree/src/bwtree.h:9184-9217 | A page holds exactly the live pairs of its range |
| Iterator.RemainingFromKey | src/BwTree/src/bwtree.h:9229-9232 | Skipping to the lower bound leaves exactly the pairs from the start key on |
| Iterator.ForwardIterator.constructor | src/BwTree/src/bwtree.h:8813-8824 | Opened at a key, the iterator still has exactly the pairs from that key on to deliver |
| Iterator.ForwardIterator.LowerBoundOf | src/BwTree/src/bwtree.h:9176-9250 | The page loop ends because the start key strictly increases, and loses no pair however the leaves changed in between |
| Iterator.ForwardIterator.MoveAheadByOne | src/BwTree/src/bwtree.h:9356-9384 | Leaves out exactly the current pair |
| Iterator.ScanFrom | src/BwTree/src/bwtree.h:9176-9384 | Opened at a key and advanced to the end: every live pair from the key on exactly once, in key order, with any content-preserving change between page loads |
| ScanDuringRun.QuietKeepsPairs | src/BwTree/src/bwtree.h:6295-6313 | A stretch of a run without a winning insert or delete keeps the pairs, and all page bounds it ever shows come from a fixed finite set |
| ScanDuringRun.QuietRunIsStable | src/BwTree/src/bwtree.h:9176-9250 | Such a stretch is exactly what the iterator needs, with loads falling anywhere in it |
| ScanDuringRun.DescentFindsThePage | src/BwTree/src/bwtree.h:9190-9200 | Any descent that ends in a leaf of the walk covering the key ends in the leaf whose page is loaded |
| MapStore.LexIsTotal | src/datastore/map_datastore.h:15-27 | The default order on keys is total |
| MapStore.FirstDifferenceDecides | src/datastore/map_datastore.h:15-27 | One key is before another exactly if it is smaller in the first byte in which they differ, or a proper prefix |
| MapStore.MapDataStore.Put | src/datastore/map_datastore.h:57-69 | Puts one value for the key, or refuses an existing key when overwriting is off |
| MapStore.MapDataStore.Get | src/datastore/map_datastore.h:99-110 | Finds exactly the stored value |
| MapStore.MapDataStore.Erase | src/datastore/map_datastore.h:146-153 | Removes the key and nothing else |
| MapStore.MapDataStore.ListKeyvals | src/datastore/map_datastore.h:202-228 | Neighbouring pairs in order, all above the start key, as many as there are but at most count; every pair above it that is left out comes after them |
| Migration.MigrateAllKeys | src/sdskv-server.cc:2507-2557 | However the calls fare, every original pair is still in the source or arrived; on success the target is its old contents overridden by the source, and the source is empty or unchanged; on failure exactly the pairs up to the failed call were moved |
| Migration.MoveAll | src/sdskv-server.cc:2507-2557 | The loop over pages of 64 ends and reaches the last pair unless a call fails |
| Migration.NothingLost | src/sdskv-server.cc:2521-2549 | Also right after a failed call no original pair is missing from both stores |
| Migration.ArrivedIsOverridden | src/sdskv-server.cc:2521-2541 | Putting the pairs one by one overrides with all of them at once |
| Migration.PagingEndsIff | src/sdskv-server.cc:2507-2557 | Without erasing, the paging ends if and only if the empty key is not the last key of a full page; a store without an empty key always ends |
| Migration.DefaultOrderNeverStuck | src/datastore/map_datastore.h:202-228 | In the default key order it always ends |
| Migration.EndlessStoreIsStuck | src/sdskv-server.cc:2550-2557 | A concrete store of 64 pairs in a descending order for which every page is the whole store again |
| WireFormat.SizeRoundTrip | src/sdskv-server.cc:967-970 | A 64-bit size written to the wire is read back |
| WireFormat.WordIsLittleEndian | src/sdskv-server.cc:967-970 | The byte of the lowest weight comes first |
| WireFormat.SizeAtPack | src/sdskv-server.cc:967-970 | Entry i of the header is the size of string i |
| WireFormat.SliceOfFlatten | src/sdskv-server.cc:973-985 | String i lies at the sum of the sizes before it |
| BatchPut.PutMultiClient | src/sdskv-client.c:523-565 | Rejects empty keys; leaves empty values out of the segments but not out of the sizes; bulk sizes are what the segments add up to |
| BatchPut.LocatePairs | src/sdskv-server.cc:967-985 | The offset walk finds every key and value, a null pointer standing for an empty value |
| BatchPut.PutMultiServer | src/datastore/datastore.h:39-51 | The default put_multi puts exactly the pairs that the pointers lead to, in order |
| BatchPut.PutMulti | src/sdskv-client.c:498-620 | Client, transfer and server together: the store ends as if the pairs were put one by one, or nothing happens because some key is empty |
| BatchPut.PutPackedClient | src/sdskv-client.c:642-656 | Four segments, three if there are no value bytes, and their total size |
| BatchPut.PutPackedServer | src/sdskv-server.cc:1050-1064 | Finds both size arrays, the keys, and by adding up key sizes the values |
| BatchPut.StorePutPacked | src/datastore/datastore.h:52-69 | The second offset walk puts exactly the packed pairs in order |
| BatchPut.PutPacked | src/sdskv-client.c:630-690 | For all lists of pairs packed back to back the store ends as if they were put one by one |
| BatchPut.PutAllDecides | src/datastore/datastore.h:39-51 | Among equal keys in one call the last wins, or the first when overwriting is off |
| BatchPut.PutAllElsewhere | src/datastore/datastore.h:39-51 | Keys that do not occur in the call keep their values |
| BatchGet.ServeSlot | src/sdskv-server.cc:1205-1226 | One slot: its final size in the header, its value behind the others, within what was allotted |
| BatchGet.GetMultiServer | src/sdskv-server.cc:1190-1230 | All writes stay inside the client buffer: sizes returned so far never exceed those allotted |
| BatchGet.Unpack | src/sdskv-client.c:948-954 | The client recovers every value and size |
| BatchGet.GetMulti | src/sdskv-client.c:834-954 | Slot i comes back with the stored value if the key is there and its value fits, and with size 0 otherwise |

## Left out

- Margo and Mercury plumbing: RPC registration, bulk handles, address lookup, locks, REMI, configuration, daemons. A bulk transfer is the copy of the concatenated segments.
- The LevelDB, BerkeleyDB and Bw-Tree backends of the service, and the C++ client templates: thin wrappers.
- Prefix listing and prefixed migration, range listing, sdskv_get_packed, and the return codes of put_multi and put_packed: the code has no clean promise there.
- SeparatorLookup.PostedRecordIsWellFormed: the true neighbours are its premise. The code takes them from the bounds of child nodes; that those are the neighbouring separators of the parent needs that a removed node is never the first child of a parent, which the code checks once (src/BwTree/src/bwtree.h:6549, 6713) and does not protect afterwards.
- Progress of the remove and abort protocol, and that a removed node is never leftmost under a splitting parent.
- Iteration from the very beginning without a key, backward iteration, and conditional insertion.
- The disabled old epoch manager, Peloton-only code, and tree destruction.
- Memory ordering: every shared access is one atomic step of a machine.
- 64-bit wrap-around of epochs, versions, counters and total sizes.
- Recycling of node ids through the free list, which the code has switched off (src/BwTree/src/bwtree.h:2824-2831).
- Raw memory layout: placement new, header recovery, destructor order inside chunks.
- Inner node splits choose the middle slot; only what the split record means is modelled.
- Ownership.StepKeepsInv: retiring a root is one step with the compare-and-swap that unlinks it.
- Protocol.DeleteFindsMerged: that the separator found under the merge key names the removed node is an assertion of the code (src/BwTree/src/bwtree.h:6038-6040) and a condition of the step.
- Protocol.InsertIsFirst: a parent snapshot is one level above the child loaded through it and does not begin to the right of the split key; the code has this from its descent and checks only the upper bound.
- Epochs.StepKeepsInv: a thread may start a collection at any time inside an operation; the threshold of 1024 entries is in GarbageList only. A remove record stays in the mapping table after it is retired; a thread that loads it then counts as holding it from the moment it loaded the node that names its id.
- SortedSmallSet.SmallSet.Insert: that the array has room is the caller's duty, as in the code, which does not check it; the callers' proofs show it holds.
- LeftSibling.FindLeftSibling: the key must be a separator other than the first one, as the code assumes; other keys are not described.
- BatchPut.PutMultiServer: messages are those a client builds; the code does not validate sizes sent by others.
- BatchGet.GetMulti: values come back as a list of byte strings instead of being copied into the caller's buffers.
- BatchPut.PutPacked: with nothing but empty keys the code exposes an empty key segment, which its own comment says the transport cannot take; here a bulk transfer copies it.
- MapStore.MapDataStore.Put: comparison functions that tie two different byte strings are excluded; under one the map would keep one entry for both.
- BatchPut.PutPackedClient: the caller's size arrays must match its packed buffers, as in the code.
- Iterator.LoadPage: reaches the leaf over next ids from the first leaf in the state of its last load; any descent that ends at a leaf covering the key then ends at the same one (ScanDuringRun.DescentFindsThePage), and SiblingWalk has the hops while the table changes, but that the inner levels lead to a leaf at or left of it is not modelled.
- SiblingWalk.NavigateSiblingChain: an id recycled during an operation was merged before it began, which is what epochs are for.
- Migration.MigrateAllKeys: the target store is distinct from the source, and no other client changes either store meanwhile.
