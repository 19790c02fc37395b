# A Dafny model of a Yjs-compatible CRDT

The repository is a Go implementation of the Yjs CRDT. Documents hold lists of items
that several replicas edit at the same time; updates carry the items and the deletions
from one replica to another, in any order and possibly more than once. This project
models the parts on which everything else rests and proves what they promise:

- **Item integration** (`ItemOrder`, `Integration`, `ConflictScan`, `Convergence`,
  `RunList`, `ItemList`, `RunDelivery`, `MapChain`). The conflict scan that places an item
  between its origin and its right origin is shown to compute the only place that agrees
  with one total order of all items of a history. From this follow convergence over every
  run of creations and deliveries, the preservation of what the author saw to the left and
  right, and, for map keys, that the winning value does not depend on delivery order. The
  scan is then refined to items of many units and to the linked list with its two sets,
  with the trimming and splitting that goes before it (`IndexedList`).
- **The causal scheduler** (`Scheduler`): the stack machine that integrates an update's
  structs, waits for other clients' structs and moves what cannot be applied to a pending
  buffer; and when these are worth trying again (`Retry`).
- **Delete sets** (`DeleteSets`): normal form, membership, union.
- **The store** (`Doom`, `PieceList`, `Cascade`, `ApplyDeletes`, `Delivery`): structs and
  deletes arrive in any order; lists, keys and deletions, with those that follow from them
  inside deleted types and among the values of a key, depend only on what has arrived.
  Together with the scheduler this is the convergence of whole documents.
- **Updates as values** (`UpdateStructs`, `UpdateMerge`, `UpdateDiff`, `LazyWriter`): the
  k-way merge, the diff against a state vector, the state vector of an update, and the
  exchange built from the three.
- **The position index** (`PositionTree`, `PositionIndex`, `IndexedList`): a balanced tree
  of blocks of list items whose sums must agree with a walk over the list, and the list
  operations that keep it so.
- **The struct store of a client** (`StructTree`, `LeafChain`, `StructLeaves`,
  `StructBuild`, `StructSearch`, `StructList`, `StructCheck`, `HybridList`): a slice that
  turns into a B+ tree with linked leaves and back.
- **Contents**: text split at UTF-16 offsets (`Utf16Split`), bytes normalised to UTF-8
  (`Utf8Text`), and backing arrays shared between contents (`SharedArrays`).
- **The column codecs** (`Powers`, `VarInts`, `ColumnRuns`, `ColumnCodecs`, `ClockCodec`,
  `ByteCodec`, `RangeCodec`) and **awareness** (`Awareness`).

`Wrappers` holds what the modules share.

Dafny is told to check everything with `dafny verify dfyconfig.toml`.

Two promises do not hold for every input. The state vector extracted from an update takes
over the end of the update's first struct before it looks whether that struct is a Skip. For
an update that begins with a Skip of clock 0 it therefore claims clocks the update does not
have; `UpdateDiff.StateVectorOf` shows that this is the only case. The repository's own
encoders never begin a client with a Skip, which `UpdateMerge.MergeUpdates` and
`UpdateDiff.Diff` show for merging and diffing.

The other is that pending structs are tried again as soon as one of them can
be integrated. A retry is triggered when a client passes the clock noted as missing. If a
struct waits for a client whose own next struct turns out to lie behind a gap, only the end of
that gap is noted, and the unit waited for may come earlier. `Retry.RetryIsMissed` gives such
a run and `Retry.TestIsEnough` shows exactly when the test is enough. Nothing is lost by this:
the struct stays pending (`Delivery.ReceivedIsKept`).

A comment in `crdt/update_decoder.go:334-342` explains the guard on a delete length by the
largest machine integer; the bound that is in force there is the largest safe integer,
2^53 - 1, and the model follows the code.

## Model

| member | source | states |
|---|---|---|
| `ItemOrder.Total` | crdt/item.go:331-368 | the order in which the scan's client tie break, applied along the chains of origins and right origins, puts items is total: of two different items of one history, one comes before the other |
| `ItemOrder.Asymmetric` | crdt/item.go:331-368 | no two items come before each other |
| `ItemOrder.Transitive` | crdt/item.go:331-368 | the document order is transitive, so each set of items has exactly one sorted list |
| `ItemOrder.NoTie` | crdt/item.go:337-348 | two items with the same origin never tie in the client comparison along their right origins, because a client's own earlier item lies between |
| `ConflictScan.JudgeIsRight` | crdt/item.go:331-368 | each pass through the scan's loop, deciding by origin, the two id sets and the client id, takes, passes or stops exactly as the document order demands |
| `ConflictScan.ScanIsPlace` | crdt/item.go:331-368 | the whole scan stops at the one place of the list that keeps it in document order |
| `ConflictScan.SubtreeEnds` | crdt/item.go:350-365 | stopping at an item whose origin is neither among the conflicting items nor before them is right: nothing further on can go before the new item |
| `ConflictScan.SameSpot` | crdt/item.go:337-348 | a conflicting item with the same origin, a larger client and the same right origin ends the scan |
| `Convergence.IntegrateAtPlace` | crdt/item.go:311-376 | integrating a ready item, with or without a scan, puts it at its place in the document order |
| `Convergence.IntegrateKeepsReplica` | crdt/item.go:293-446 | integration keeps the list sorted, its ids unique, and all origins and right origins inside |
| `Convergence.ConcurrentItemsCommute` | crdt/item.go:293-446 | two ready items give the same list in either order |
| `Convergence.DeliveryOrderIsIrrelevant` | crdt/item.go:293-446 | every causally consistent delivery order of the same items ends in the same list |
| `Convergence.CreateIsSound` | crdt/abstract.go:1087-1221 | an item created between two neighbours of a replica's own list extends the history soundly, and inserting it there is what integrating it would have done |
| `Convergence.RunIsGood` | crdt/item.go:293-446 | over every run of creations and deliveries, each replica's list stays sorted and closed and holds all the replica created |
| `Convergence.ReplicasConverge` | crdt/item.go:293-446 | after every run, two replicas that hold the same items hold the same list |
| `Convergence.ReplicasAgreeOnOrder` | crdt/item.go:293-446 | replicas never disagree about the order of two items that both hold |
| `Convergence.IntentionIsKept` | crdt/item.go:331-396 | every replica shows an item strictly between the neighbours it was typed between |
| `RunList.FlatSplit` | crdt/item.go:919-986 | splitting an item changes no unit |
| `RunList.CountedSplit` | crdt/item.go:919-986 | splitting changes no visible length and adds one to the item count |
| `RunList.MergeableContinues` | crdt/item.go:645-658 | the id tests of a merge are enough: the right neighbour continues the left one unit by unit |
| `RunList.MergeableIsGoesOn` | crdt/item.go:575-587 | in a replica the tests pass exactly if both items hold something, the right one begins with the unit that follows the last of the left one, and both are deleted or not and counted or not alike |
| `RunList.FlatMerge` | crdt/item.go:575-626 | merging changes no unit |
| `RunList.CountedMerge` | crdt/item.go:663-699 | merging changes no visible length and takes one off the item count |
| `RunList.FlatDelete` | crdt/item.go:702-733 | deleting changes no unit and not their order |
| `RunList.CountedDelete` | crdt/item.go:702-733 | deleting takes the item's length off the parent's length, and nothing if it did not count |
| `RunList.JudgeRunIsJudge` | crdt/item.go:331-368 | judging an item of many units by its first id and by its origin's holder is judging its first unit |
| `RunList.ScanRunsIsPlace` | crdt/item.go:331-368 | the scan over items of any length finds the place of the new item among the units |
| `RunList.UnitsShareThePlace` | crdt/item.go:293-446 | all units of an item belong in the same place, one behind the other |
| `ItemList.SpliceKeepsChain` | crdt/item.go:378-437 | linking an item between two neighbours keeps the links of the list mutually consistent and acyclic |
| `ItemList.UnlinkKeepsChain` | crdt/item.go:663-699 | unlinking the right neighbour keeps the links consistent |
| `ItemList.ScanCells` | crdt/item.go:324-368 | the loop over linked items with its two sets of references computes the scan over runs |
| `ItemList.ListType.Integrate` | crdt/item.go:293-446 | the new item is linked at the place the document order gives it; its units are inserted and nothing is reordered; length and item count stay exact |
| `ItemList.ListType.Split` | crdt/item.go:919-986 | the item falls in two, the units stay, links and counters stay exact |
| `ItemList.ListType.Merge` | crdt/item.go:575-626 | the right neighbour is absorbed exactly if it goes on where the item ends, with the same deletion and countability, one-unit items included; the units stay |
| `ItemList.ListType.Delete` | crdt/item.go:702-733 | the item is marked once, the parent's length shrinks by its visible length, the list does not change |
| `IndexedList.IndexedType.CleanEnd` | crdt/struct_store.go:300-322 | the item that holds a unit ends with it afterwards; the units of the list stay, and the index describes the list |
| `IndexedList.IndexedType.CleanStart` | crdt/struct_store.go:269-298 | the item that holds the right origin starts with it afterwards, and the left neighbour is where it was |
| `IndexedList.IndexedType.IntegrateFrom` | crdt/item.go:224-303 | an item of which the first units are there already is trimmed, its neighbours are split where its origins say, and the list becomes what delivering the missing units one by one would have made of it |
| `IndexedList.IndexedType.Integrate` | crdt/list_position_index.go:216-224 | after an integration the index, unless it was dropped, describes the list with the new item |
| `IndexedList.IndexedType.Split` | crdt/list_position_index.go:226-234 | after a split the index describes the list with both halves |
| `IndexedList.IndexedType.Delete` | crdt/list_position_index.go:236-244 | after a deletion the index describes what is still visible; a format takes the index with it |
| `IndexedList.IndexedType.Merge` | crdt/list_position_index.go:263-279 | the right neighbour is merged exactly if it goes on where the item ends; the units stay, and the index describes the merged list |
| `IndexedList.ShownAddsUp` | crdt/list_position_index.go:314-328 | what the index adds up over the first items is the number of their live, counted units, and of their live formats |
| `RunDelivery.ItemIsItsUnits` | crdt/item.go:293-446 | integrating an item of many units is integrating its units one after the other |
| `RunDelivery.IntegratedRuns` | crdt/item.go:293-446 | hence integration on items of any length refines integration of units |
| `MapChain.SiblingsByClient` | crdt/abstract.go:1391-1400 | without right origins, values set on the same predecessor are ordered by client id |
| `MapChain.ChainIsPreorder` | crdt/item.go:311-376 | a map key's chain is the preorder of its origin tree |
| `MapChain.IntegrateKeyKeeps` | crdt/item.go:397-437 | integrating a value keeps every value but the last one deleted, and the key at the last one |
| `MapChain.RunIsGood` | crdt/item.go:397-437 | that holds at every replica after every run of sets, unsets and deliveries |
| `MapChain.OnlyTheLastLives` | crdt/item.go:397-412 | after every run, only the last value of a key may be alive |
| `MapChain.SameValuesSameWinner` | crdt/item.go:397-437 | after every run, two replicas with the same values of a key have the same chain and the same current value, and show the same if they agree on whether that one was unset |
| `MapChain.WinnerIsDetermined` | crdt/item.go:434-437 | after every run, a replica that has every value shows the last one in document order, unless it was unset |
| `Scheduler.AwaitedIsNotActive` | crdt/merge.go:423-441 | for an acyclic update, the client that a struct waits for has no struct on the stack |
| `Scheduler.RunKeepsInv` | crdt/merge.go:315-502 | queues, stack, pending buffer and log are consistent in every state of every run of the stack machine |
| `Scheduler.NeverTwoOfOneClient` | crdt/merge.go:315-502 | in no state of any run are two structs of one client at hand |
| `Scheduler.AddStackToRest` | crdt/merge.go:368-400 | giving up moves, for each client on the stack, its queue from the struct at hand on to the rest, and nothing else |
| `Scheduler.NextTarget` | crdt/merge.go:329-345 | exhausted queues are dropped from the end of the list of clients, and the next one that has structs is found |
| `Scheduler.IntegrateStructs` | crdt/merge.go:315-502 | terminates for every acyclic update; each client's structs end up, in order and exactly once, covered by the store or pending; a pending struct is not ready in the final store; every struct integrated continued its client's clocks and has its origin, right origin and parent in the store; every clock noted as missing is that of a gap before a pending struct or of a unit that one refers to |
| `Scheduler.StoreGrows` | crdt/struct_store.go:172-187 | no client's clock ever goes back |
| `Scheduler.DependenciesAreThere` | crdt/item.go:207-222 | whatever was integrated has each of its origin, right origin and parent, if another client's, in the final store |
| `Scheduler.ClocksAreContiguous` | crdt/struct_store.go:172-187 | each client's integrated structs follow each other without gap or overlap |
| `Scheduler.NothingStaysPending` | crdt/merge.go:577-606 | once all that the structs refer to is in the store or in the update itself, nothing of the update stays pending |
| `Delivery.LogIsDelivered` | crdt/item.go:207-222 | what the scheduler integrates, in the order of its log, reaches the store with client clocks continued and with origins, right origins and parents there |
| `Delivery.NothingIsLost` | crdt/merge.go:315-502 | store and pending structs together hold exactly what the store had and the update brought |
| `Delivery.ReceivedIsKept` | crdt/merge.go:577-677 | over every run of messages and retries, what was received is in the store or pending, and nothing else is |
| `Delivery.RunIsSettled` | crdt/merge.go:516-681 | all through such a run the document has exactly the units the scheduler integrated, knows exactly the deletes received, is listed and deleted as they demand, and every struct comes to the store with what it needs |
| `Delivery.SameUpdatesSameDocument` | crdt/merge.go:516-681 | two replicas that start empty, receive the same messages in any order, however often and with any retries, and have nothing left pending hold the same lists in the same order, with the same items deleted and the same deletes waiting |
| `Retry.RetryIsFutile` | crdt/merge.go:670-677 | trying the pending structs again integrates nothing if and only if every client's next pending struct still has to wait |
| `Retry.TestIsEnough` | crdt/merge.go:579-586 | the test of the missing clocks misses no retry, whatever arrives later, if and only if every client's first pending struct waits for something that is noted as missing or for something at or behind another client's first pending struct |
| `Retry.LeftByIntegration` | crdt/merge.go:315-502 | what the scheduler leaves pending and notes as missing meets that condition unless a struct waits for a unit before another client's first pending struct |
| `Retry.RetryIsMissed` | crdt/merge.go:579-586 | such a run: a struct that could be integrated while the test triggers no retry |
| `DeleteSets.SortRanges` | crdt/delete_set.go:151-203 | the in-place sort leaves the same ranges in clock order |
| `DeleteSets.SortAndMerge` | crdt/delete_set.go:151-203 | sorting and merging keeps exactly the covered clocks and leaves ranges that do not even touch |
| `DeleteSets.NormalUnique` | crdt/delete_set.go:151-203 | that form is unique: equal coverage means equal lists of ranges |
| `DeleteSets.FindIndex` | crdt/delete_set.go:107-138 | the binary search finds a range exactly if the clock is covered |
| `DeleteSets.MergeDeleteSets` | crdt/delete_set.go:205-239 | merging delete sets is the union of their clocks, in normal form |
| `DeleteSets.EqualMeansSameClocks` | crdt/delete_set.go:668-687 | two normalised sets are equal exactly if they delete the same clocks |
| `DeleteSets.SnapshotHasDeletes` | crdt/snapshot.go:296-302 | comparing the snapshot's set with its merge with the update's says exactly whether all of the update's deletes are in the snapshot |
| `PieceList.FindStruct` | crdt/struct_store.go:198-245 | the search finds the struct with a clock exactly if the clock exists, whatever the first pivot |
| `PieceList.SplitKeeps` | crdt/client_struct_list.go:326-367 | splitting a struct keeps the clocks contiguous and deletes nothing |
| `Doom.ShutIsExact` | crdt/content_types.go:1285-1307 | if every deletion has a reason and reaches everything inside, what is deleted is exactly the closure of the reasons |
| `Doom.LastSuperseded` | crdt/item.go:400-412 | a value that comes last supersedes exactly the value that was last |
| `Doom.SelfSuperseded` | crdt/item.go:434-437 | a value that does not come last supersedes nothing and is superseded itself |
| `Cascade.DeleteTree` | crdt/content_types.go:1285-1307 | the recursion terminates, marks the item and whatever is alive inside, at any depth, and marks nothing that does not lie in it |
| `Cascade.DeletePiece` | crdt/item.go:702-733 | deleting an item adds it to the reasons: exactly what they demand is deleted afterwards |
| `Cascade.ApplyDeleteRange` | crdt/client_struct_list.go:326-367 | the existing clocks of the range are deleted with all that lies in them and nothing else, and structs are split at the two ends only |
| `ApplyDeletes.StructStore.ApplyDeleteSet` | crdt/delete_set.go:578-660 | a delete set falls into an applied part below each client's state and a returned part at or above it |
| `ApplyDeletes.StructStore.ApplyAndRetry` | crdt/merge.go:617-668 | the update's deletes and the pending ones are applied; what remains pending is exactly what does not exist yet |
| `ApplyDeletes.AddItem` | crdt/item.go:293-437 | an item takes its place in its list or key; the value before a new last one is deleted, an item that is not the last value or whose parent is deleted deletes itself, with exactly the deletions that follow |
| `ApplyDeletes.StructStore.ReadUpdate` | crdt/merge.go:516-681 | after every update each list holds what is there in document order; every struct that arrived exists and is listed, and is deleted if it came deleted; an existing unit is deleted exactly as the deletes received, the structs that came deleted, the order of values and the nesting of types demand; a delete named by the update is carried out or pending, and pending exactly if its unit does not exist |
| `ApplyDeletes.DeletedIff` | crdt/item.go:293-437 | an existing unit is deleted if and only if a delete for it arrived, it came deleted, it is the value of a key and a later one is in the key's list, or the item that holds its parent type is deleted |
| `ApplyDeletes.ArrivalOrderIsIrrelevant` | crdt/merge.go:516-681 | stores that received the same structs and deletes, in whatever order, have the same lists, the same deletions and the same pending deletes |
| `UpdateStructs.SliceSays` | crdt/updates.go:290-322 | slicing a struct says the same about the clocks it keeps, and an item cut at its front has the unit just before it as its origin |
| `UpdateStructs.UnitIsRunUnit` | crdt/updates.go:290-322 | the units of an update's item are those of an item in a list: the first has the item's origin, each other one the unit before it |
| `UpdateMerge.Pop` | crdt/updates.go:336-355 | the scheduler takes the reader with the largest client, for it the smallest clock, there rather not a Skip, and at last the smallest tie |
| `UpdateMerge.Requeue` | crdt/updates.go:324-355 | a reader that goes back into the queue comes before all that wait there with equal priority |
| `UpdateMerge.GapIsUnknown` | crdt/updates.go:482-497 | where a Skip is written no update has a struct |
| `UpdateMerge.SkipWritten` | crdt/updates.go:455-471 | what is passed over has been written already |
| `UpdateMerge.Round` | crdt/updates.go:445-544 | one turn keeps everything written in order, consumes a struct or covers one more reader's head, and leaves a current write that is not a Skip |
| `UpdateMerge.MergeUpdates` | crdt/updates.go:372-588 | terminates; the result is tiled by clients in descending order, covers exactly the union of the inputs' clocks, says of each clock what one of them says, and has Skips exactly in the gaps between structs of a client; every item written is one of the inputs or the end of one, with the unit just before it as its origin if it was cut |
| `UpdateMerge.MergeIsUnion` | crdt/updates.go:372-588 | for updates of one history the merge says exactly what they say together |
| `UpdateMerge.MergeOrderIsIrrelevant` | crdt/updates.go:372-588 | neither order nor repetition of the updates changes what the merge says |
| `UpdateMerge.MergeInSteps` | crdt/updates.go:372-588 | merging in steps says what merging at once says |
| `UpdateDiff.Diff` | crdt/updates.go:743-814 | a diff says exactly what the update says from the state vector on, starts no client with a Skip, and every item in it is one of the update's or the end of one, with the unit just before it as its origin |
| `UpdateDiff.StateVectorOf` | crdt/updates.go:143-218 | the extracted vector gives every client's longest gap-free prefix if and only if the update does not begin with a Skip of clock 0; then, the first client's entry is the length of that Skip |
| `UpdateDiff.LeadingSkipExample` | crdt/updates.go:147-157 | such an update, for which the vector promises three clocks that are not there |
| `UpdateDiff.DiffRestores` | crdt/updates.go:743-814 | merging the diff into anything that has what the state vector claims restores the whole update |
| `UpdateDiff.Sync` | crdt/updates.go:143-218 | state vector, diff and merge together: the exchange gives what merging both updates gives |
| `LazyWriter.Writer.WriteStruct` | crdt/updates.go:906-948 | what a reader gets back from the fragments are the structs handed to the writer, cut at their offsets; there is one fragment a client |
| `LazyWriter.WriteUpdate` | crdt/updates.go:953-976 | a tiled update that is written, in one fragment a client with only its first clock, and read again is the same update |
| `PositionTree.HeightIsLogarithmic` | crdt/list_position_index.go:505-522 | a balanced tree of h levels has at least 2^(h/2) - 1 blocks |
| `PositionTree.TotalsAreExact` | crdt/list_position_index.go:447-460 | height, items, visible length and formats that a node caches are the levels of its subtree and the sums over its blocks; sibling subtrees differ by one level at most |
| `PositionTree.HeightFitsByte` | crdt/list_position_index.go:296-312 | so a signed byte is enough for the height |
| `PositionTree.BalancedIsAvl` | crdt/list_position_index.go:505-522 | single and double rotations restore balance and exact totals from an imbalance of two |
| `PositionTree.BalancedKeepsOrder` | crdt/list_position_index.go:475-503 | rotations keep the order of the blocks |
| `PositionTree.RebalanceFrom` | crdt/list_position_index.go:505-522 | rebalancing up to the root gives a balanced tree with exact totals and the same blocks |
| `PositionTree.RefreshFrom` | crdt/list_position_index.go:524-529 | refreshing keeps the tree balanced and makes its totals exact |
| `PositionTree.InsertNodeAfter` | crdt/list_position_index.go:531-554 | the new block comes right behind the given one, in a balanced tree |
| `PositionTree.BuildBalanced` | crdt/list_position_index.go:391-402 | the built tree has the blocks in order and the least possible height |
| `PositionTree.FindPosition` | crdt/list_position_index.go:762-815 | a target is found exactly if it lies in the visible range and something is visible; the block's visible start is the sum of all blocks before it; at the end it is the last block that shows something |
| `PositionIndex.Index.constructor` | crdt/list_position_index.go:330-358 | the blocks built from a list, read in order, are the list: eight items each, and the rest in the last one |
| `PositionIndex.Index.BlockFor` | crdt/list_position_index.go:568-587 | walking left at most sixteen items to an anchor finds the block that holds an item; the anchors are exactly the first items of the blocks |
| `PositionIndex.Index.InsertItem` | crdt/list_position_index.go:622-654 | after an integration or a split the blocks are the new list, no block has more than sixteen items, and the call fails exactly if the list was empty but the tree was not |
| `PositionIndex.Index.SplitGrown` | crdt/list_position_index.go:589-617 | a block that has grown beyond sixteen items becomes one of eight and one of the rest |
| `PositionIndex.Index.DeleteItem` | crdt/list_position_index.go:656-664 | the block shows less by what the item showed; it never fails |
| `PositionIndex.Index.GrowTail` | crdt/list_position_index.go:249-261 | the block shows more by what the tail grew |
| `PositionIndex.Index.RemoveMergedRight` | crdt/list_position_index.go:670-698 | after a merge, within a block or across two, the blocks are the merged list |
| `PositionIndex.Index.FindPosition` | crdt/list_position_index.go:762-815 | the item and the visible start found are those of a walk from the head of the list |
| `PositionIndex.Index.VisibleStart` | crdt/list_position_index.go:175-198 | the visible index before an item is that of a walk |
| `StructTree.InsertSiblingAfter` | crdt/client_struct_tree.go:644-664 | the new node comes right behind the given one; all leaves stay at one depth, branches within their bounds, totals exact |
| `StructTree.Rebalance` | crdt/client_struct_tree.go:763-846 | removing a child, with borrowing and merging of branches up to the root, keeps the other leaves in order, one depth, bounds and totals |
| `StructTree.RefreshUp` | crdt/client_struct_tree.go:621-633 | refreshing up to the root makes counts and end clocks exact |
| `StructBuild.Partition` | crdt/client_struct_tree.go:128-142 | the sizes add up, none is above the maximum, and none below half of it unless it is the only one |
| `StructBuild.BuildLevels` | crdt/client_struct_tree.go:79-126 | levels of branches end in one root with all leaves at one depth and every branch filled |
| `LeafChain.LinkBehindKeepsChain` | crdt/client_struct_tree.go:362-371 | linking a new leaf behind another keeps the chain running through all leaves, in both directions and between first and last |
| `LeafChain.UnlinkKeepsChain` | crdt/client_struct_tree.go:749-761 | unlinking a leaf keeps the chain running through the others, also at the ends |
| `StructSearch.At` | crdt/client_struct_tree.go:206-223 | descending by counts finds the struct at a position |
| `StructSearch.FindLeaf` | crdt/client_struct_tree.go:267-283 | descending by end clocks finds the first leaf that ends behind a clock |
| `StructList.BPlusTree.FromFlat` | crdt/client_struct_tree.go:79-126 | a tree built from a slice holds the slice, with its leaves linked in order |
| `StructList.BPlusTree.Append` | crdt/client_struct_tree.go:307-339 | the struct comes last, only the last leaf may be underfull, and every cursor keeps its struct |
| `StructList.BPlusTree.InsertAfter` | crdt/client_struct_tree.go:341-380 | the struct comes behind the cursor's, as in a plain sequence, also when leaf and branches split and when the cursor's struct was just shortened in place; totals and links are exact afterwards, and the cursor returned stands on it |
| `StructList.BPlusTree.SplitStruct` | crdt/client_struct_list.go:336-339 | a struct shortened in place and its right half inserted behind it: the sequence has the two halves in its stead |
| `StructList.BPlusTree.At` | crdt/client_struct_tree.go:206-223 | the cursor at a position, exactly if there is a struct |
| `StructList.BPlusTree.RebalanceLeaf` | crdt/client_struct_tree.go:688-761 | an underfull leaf borrows or is merged and unlinked; the structs stay, the links are those of the leaves left, and there are fewer leaves or less is missing |
| `StructList.BPlusTree.Repair` | crdt/client_struct_tree.go:439-455 | the work queue terminates, by leaves, then missing structs, then its length, and leaves only the last leaf underfull and none empty |
| `StructList.BPlusTree.Remove` | crdt/client_struct_tree.go:384-464 | a range, walked along the links, is removed as from a plain sequence, also when the struct before it has just grown in place; the shape is restored, and the cursor returned stands on the struct that followed |
| `StructList.BPlusTree.Absorb` | crdt/client_struct_list.go:626-645 | a struct that has grown in place absorbs the range behind it: the leaf that is out of date is among those refreshed, and the rest is removal from a sequence |
| `StructList.LocatePatched` | crdt/client_struct_tree.go:394-400 | a leaf whose totals are out of date stands between the same siblings |
| `StructList.BPlusTree.Replace` | crdt/client_struct_tree.go:509-513 | one struct is replaced, totals stay exact |
| `StructList.BPlusTree.Find` | crdt/client_struct_tree.go:191-204 | the struct that has a clock is found if there is one, for any first pivot of the search in the leaf |
| `StructList.BPlusTree.Index` | crdt/client_struct_tree.go:225-238 | climbing to the root gives the position in the sequence |
| `StructList.BPlusTree.Next` | crdt/client_struct_tree.go:547-561 | the next cursor, along the links, stands one position further until the end |
| `StructList.BPlusTree.Prev` | crdt/client_struct_tree.go:563-577 | the previous cursor, along the links, stands one position before |
| `StructList.BPlusTree.Snapshot` | crdt/client_struct_tree.go:163-175 | following the links from the first leaf gives the whole sequence |
| `StructCheck.ValidPasses` | crdt/client_struct_tree.go:976-1050 | every tree that the operations leave passes the validator: one depth, exact counts and end clocks, leaves and branches half full but for the last leaf and the root, separators in order |
| `StructCheck.PassedIsValid` | crdt/client_struct_tree.go:976-1050 | what passes the validator has the shape and the occupancy the operations rely on |
| `HybridList.StructsOfClient.Append` | crdt/client_struct_list.go:56-67 | slice or tree, appending is appending to a sequence, and cursors stay good |
| `HybridList.StructsOfClient.InsertAfter` | crdt/client_struct_list.go:170-211 | inserting is inserting into a sequence, also behind a struct that was just shortened in place; the slice turns into a tree exactly if it has reached the activation size |
| `HybridList.StructsOfClient.Split` | crdt/client_struct_list.go:336-339 | in both representations the struct is replaced by its two halves |
| `HybridList.HalvesInOrder` | crdt/client_struct_list.go:336-339 | which leaves the clocks contiguous |
| `HybridList.StructsOfClient.Absorb` | crdt/client_struct_list.go:626-645 | in both representations a struct that grows over those behind it replaces them |
| `HybridList.AbsorbedInOrder` | crdt/client_struct_list.go:626-645 | which leaves the clocks contiguous |
| `HybridList.StructsOfClient.MergeWithLeft` | crdt/client_struct_list.go:606-624 | the struct at a position is taken in by the one before it |
| `HybridList.StructsOfClient.Remove` | crdt/client_struct_list.go:215-275 | removing is removing from a sequence, also behind a struct that has just grown in place; the tree turns back into a slice exactly if it is down to the deactivation size, and the successor's cursor is right in both |
| `HybridList.StructsOfClient.Find` | crdt/client_struct_list.go:145-168 | the answer is the same in both representations |
| `VarInts.WriteVarIntMag` | crdt/codec_varint.go:56-75 | the bytes of a sign and magnitude |
| `VarInts.AppendVarIntMag` | crdt/codec_varint.go:80-104 | the fast writer gives the same bytes |
| `VarInts.AppendVarUint` | crdt/update_encoder.go:276-288 | the fast writer gives the bytes of an unsigned number |
| `VarInts.ReadVarIntSigned` | crdt/codec_varint.go:116-152 | every 64-bit magnitude with its sign, and the sign of a negative zero, is read back from what was written, and no byte more is consumed; for any other bytes it succeeds exactly if they end within ten bytes and stay below 2^64, with the sum of their groups |
| `VarInts.ReadUvarint` | crdt/codec_varint.go:31-33 | for any bytes, an unsigned number is read exactly if they end within ten bytes and stay below 2^64, and it is the sum of their groups |
| `ColumnRuns.MaximalUnique` | crdt/uint_opt_rle_codec.go:62-70 | values fall into runs of equal values in one way only |
| `ColumnCodecs.WriteRun` | crdt/uint_opt_rle_codec.go:45-59 | a single number is its magnitude, a longer run its magnitude with the sign and the count less two; a difference d is 2d, or 2d + 1 and the count less two |
| `ColumnCodecs.ReadRun` | crdt/int_diff_opt_rle_codec.go:161-201 | a run is read back; for any other bytes it is refused exactly if no number can be read, a difference is beyond 63 bits or a count is beyond 2^31 - 1 |
| `ColumnCodecs.UintEncoder.WriteValue` | crdt/uint_opt_rle_codec.go:62-70 | the encoder holds the values written so far, as the only runs of equal values they fall into |
| `ColumnCodecs.UintEncoder.Bytes` | crdt/uint_opt_rle_codec.go:72-79 | the bytes are those of all runs; for one number and for one run of any length they are given byte by byte |
| `ColumnCodecs.UintDecoder.ReadValue` | crdt/uint_opt_rle_codec.go:101-129 | the decoder gives the next value written, and fails when there is none; on any bytes it goes on with the run at hand and otherwise takes the next run the bytes say |
| `ColumnCodecs.UintRoundTrip` | crdt/uint_opt_rle_codec.go:45-129 | decoding inverts encoding for all 64-bit values with no run beyond 2^31 - 1 |
| `ClockCodec.ClockEncoder.WriteValue` | crdt/int_diff_opt_rle_codec.go:83-96 | the checked writer fails exactly if a run ends whose difference is out of range |
| `ClockCodec.ClockEncoder.WriteTrusted` | crdt/update_encoder.go:1071-1103 | the trusted writer refuses a new difference out of range and otherwise gives the same state and bytes as the checked one |
| `ClockCodec.ClockEncoder.Bytes` | crdt/int_diff_opt_rle_codec.go:128-138 | the bytes are those of all runs of differences; for one run of any difference and length they are given byte by byte |
| `ClockCodec.ClockDecoder.ReadValue` | crdt/int_diff_opt_rle_codec.go:161-212 | the decoder gives the next clock written; on any bytes it adds the difference of the run at hand, or of the next run the bytes say, and refuses exactly if there is none or the sum leaves 64 bits |
| `ClockCodec.ClockRoundTrip` | crdt/int_diff_opt_rle_codec.go:51-212 | decoding inverts encoding for all clocks with encodable differences |
| `ByteCodec.ByteEncoder.WriteValue` | crdt/rle_codec.go:34-48 | each finished run is written with its length less one, the last one without |
| `ByteCodec.ByteDecoder.ReadValue` | crdt/rle_codec.go:80-108 | the decoder gives the next byte written, and repeats the last one; on any bytes it goes on with the run at hand, or takes the next one the bytes say unless its length is beyond 2^31 - 1 |
| `ByteCodec.ByteRoundTrip` | crdt/rle_codec.go:34-108 | decoding inverts encoding, for any length of the last run and for no bytes at all |
| `RangeCodec.RangeRoundTrip` | crdt/update_encoder.go:45-69 | delete ranges in order are read back from their distances |
| `RangeCodec.ReadableIs` | crdt/update_decoder.go:291-350 | the form in which ranges are read back: in order, distances and lengths less one are safe integers, and the clocks fit 63 bits |
| `RangeCodec.RangeDecoder.ReadClock` | crdt/update_decoder.go:291-319 | a clock is the distance read added to the end before; it is refused exactly if no number can be read, the distance is no safe integer or the sum does not fit |
| `RangeCodec.RangeDecoder.ReadLength` | crdt/update_decoder.go:324-350 | a length is one more than the number read, and refused exactly if none can be read, it is no safe integer or the sum does not fit |
| `RangeCodec.NormalIsReadable` | crdt/update_decoder.go:291-350 | every normalised set of ranges within the safe integers has that form |
| `SharedArrays.GrowInPlace` | crdt/content_types.go:50-58 | appending into spare capacity changes no other content that shares the array |
| `SharedArrays.Halves` | crdt/content_types.go:723-735 | of the two halves of a slice only the right one keeps spare capacity, and nobody else reaches into it |
| `SharedArrays.Contents.Append` | crdt/abstract.go:1108-1137 | in place exactly if there is room, else into a new array, the content grows by the values and every other content reads as before |
| `SharedArrays.Contents.Copy` | crdt/content_types.go:29-39 | the copy reads the same, and neither can write into the other |
| `SharedArrays.Contents.Splice` | crdt/content_types.go:723-735 | the halves read as the two parts of the content; the left one is copied out exactly if it holds less than half of the array, the right one if it holds less than a quarter |
| `SharedArrays.Contents.Merge` | crdt/content_types.go:50-58 | the content grows by what the other one reads; all others read as before |
| `Utf16Split.AsciiWidth` | crdt/content_types.go:913-918 | a text has as many bytes as UTF-16 units exactly if it is ASCII |
| `Utf16Split.PlainSplit` | crdt/utils.go:192-222 | the scan splits at the boundary with that many units before it, or replaces the pair it would cut on both sides |
| `Utf16Split.SplitUnique` | crdt/utils.go:192-222 | there is only one such split |
| `Utf16Split.SplitLengths` | crdt/utils.go:192-222 | the pieces have exactly the units asked for, also when a pair is cut, and are the text itself otherwise |
| `Utf16Split.SplitCodes` | crdt/utils.go:192-222 | the UTF-16 code units of the halves are those of the text before the offset and from it on, with U+FFFD on both sides for a surrogate pair exactly where the offset lies inside one |
| `Utf16Split.LengthsAre` | crdt/utils.go:192-222 | the lengths counted are those of the UTF-16 and UTF-8 encodings |
| `Utf16Split.Build` | crdt/content_types.go:932-985 | an index is built exactly for texts of at least 128 units; its samples are right, reach the end and are at most 65 units apart |
| `Utf16Split.IndexedSplit` | crdt/content_types.go:1098-1129 | splitting any fragment through the sparse index of the whole text is the plain split of the fragment |
| `Utf16Split.Splice` | crdt/content_types.go:840-911 | constant time for ASCII, scan or index: the split is the plain one |
| `Utf8Text.CharIsEncoded` | crdt/utf8_text.go:57-129 | the code point the decoder computes is a scalar value whose encoding is the bytes read |
| `Utf8Text.EncodeIsChar` | crdt/utf8_text.go:57-129 | the encoding of every scalar value is accepted as one character; four bytes are two UTF-16 units |
| `Utf8Text.ReplaceMalformed` | crdt/utf8_text.go:57-129 | any bytes fall into characters and pieces that cannot be continued to one; the result has the characters as they are and one U+FFFD for each other piece, so it is well formed, and well-formed input is returned unchanged |
| `Utf8Text.PiecesUnique` | crdt/utf8_text.go:57-129 | there is only one way for bytes to fall into such pieces |
| `Utf8Text.CountUnits` | crdt/utf8_text.go:40-55 | the loop over characters succeeds exactly for well-formed text and counts its UTF-16 units |
| `Utf8Text.Normalize` | crdt/utf8_text.go:19-55 | the result is well formed, unchanged if it was, and the length reported is its UTF-16 length |
| `Utf8Text.NormalizeTwice` | crdt/utf8_text.go:19-55 | normalising is idempotent |
| `Awareness.WinnerIsUnique` | crdt/awareness.go:568-632 | the entries delivered alone decide a client's clock and state |
| `Awareness.Awareness.ApplyEntry` | crdt/awareness.go:577-609 | per remote client the highest clock wins and a removal beats a state of the same clock; clocks never go back; a removal of the present local state leaves the state with a clock one above, so that the local state outlives every removal ever seen; other clients do not change |
| `Awareness.SameEntriesSameStates` | crdt/awareness.go:568-632 | replicas that saw the same entries, in any order and however often, agree about every client remote to both |

## Left out

- Items are trees: an item of `ItemOrder` contains its origin and right origin instead of their ids; that ids resolve to the items they name is what `ConflictScan.JudgeIsRight` uses unique ids for.
- Undo and redo create items whose neighbours are not those of the list at the time (`redoItem`); histories here are created between neighbours only.
- Origins, right origins and parents that were garbage collected in this store, which turn an item into a GC struct during integration; a struct without a place is one from the start.
- Moving through the item list to find an id is a walk in `ItemList`, where the code searches the client's structs.
- Item objects in `ItemList` are cells of a map from addresses, leaves of the struct tree are named and linked by name, and the nodes of both trees are values with explicit parent contexts; updating shared objects in place, aliasing and the parent pointers are not captured beyond that.
- PositionIndex.Index.BlockFor: the anchors are a set of items, and the block an anchor leads to is looked up in the tree; the two info bits on items are not modelled.
- PositionIndex.Index.GrowTail: is not joined with the list, because growing an item in place is not an operation of `ItemList`.
- ItemList.ListType.Integrate: begins where trimming and splitting are done, which `IndexedList.IndexedType.IntegrateFrom` adds.
- IndexedList.IndexedType.Integrate: an item without a parent, which is integrated as a GC, is modelled by `ApplyDeletes` only.
- StructList.BPlusTree.Absorb: the leaf that is out of date is refreshed before the range is compacted, and each leaf of the range right after it; the code compacts first and refreshes all of them together.
- Cursors that are stale or foreign make the code panic; here they are excluded by preconditions.
- Scheduler.IntegrateStructs: updates with cyclic dependencies, which no editing history produces, and the guards against hostile input are excluded.
- ApplyDeletes.StructStore.ReadUpdate: the place of an item is given with it, as its origins and its parent resolve; merging structs in the store is not modelled there; a value of a key has one unit, as every writer makes it.
- Cascade.DeleteTree: what lies in an item is found among all structs, in any order, where the code walks the type's list and its keys.
- Delivery.ReceivedIsKept: a retry may come at any time, whether the test of the missing clocks triggers it or not; the pending structs are the units they bring and not an encoded update.
- Delivery.SameUpdatesSameDocument: a struct that comes deleted is taken to come with the delete for it, or after it, as in every update the repository writes.
- Retry.TestIsEnough: later stores are all that hold, with a pending struct's first unit, what it depends on; which of them other clients can bring about is not asked.
- ItemList.ListType.Merge: whether two contents can be merged, and the tests for undo, are outside; that the units go on, the deletions and countability decide.
- UpdateMerge.MergeUpdates: the inputs are well formed (clients descending, clocks ascending, no empty struct); decoding errors and size limits are not modelled, and the heap is a search for its least entry.
- Delete sets are assumed sorted per client where the code documents it; ranges have a length of at least 1.
- DeleteSets.SortRanges: the sort is the insertion sort used for short slices; longer ones are sorted by the library, with the same normal form.
- Clocks and lengths are unbounded integers except where the code has explicit bounds in the codecs.
- Contents (strings, embeds, types, formats) are opaque outside `Utf16Split`, `Utf8Text` and `SharedArrays`; text formatting and XML are not modelled.
- Utf16Split.IndexedSplit: places in a text are counted in characters instead of bytes, and a fragment is a range of the indexed text instead of a pointer into it.
- Observers, transactions' cleanup, garbage collection, subdocuments, undo, snapshots other than the delete-set test, awareness timers and the wire protocol.
- Awareness.Awareness.ApplyEntry: the lists of added, updated and removed clients that are reported to observers are not modelled.
