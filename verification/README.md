# The kernSQL storage engine, modelled and proved

kernSQL keeps tables as chains of slotted heap pages, indexes them with B+trees, and reaches both through
a buffer pool over a disk file with an on-disk freelist. This project models those layers in Dafny and
proves what each of them is for.

- **B+tree** (`Nodes`, `NodeViews`, `Trees` … `BPlusTrees`, `IndexScan`, `IndexCheck`, `IndexRuns`).
  The concrete state is a map from page ids to pages; `Unfold` follows child pointers and returns the
  tree those pages describe. Nodes are 253-slot arrays with a count and a zeroed tail, split, rotated and
  merged in place. Insert and Delete are proved, down to the array writes, to add or remove exactly one
  entry, to keep every part of the tree invariant, to be all-or-nothing when a fetch or an allocation
  fails, to fail only then, and to conserve pages.
- **Buffer pool** (`PoolModel` … `PoolTheorems`, `PoolFetch`, `PoolFetchEnds`, `PoolFlush`, `PoolDeletion`,
  `PoolWitness`, `PoolAssertions`, `PoolProgress`). A transition system: 46 kinds of step, one for each critical
  section, latch operation, atomic access and I/O call, taken by any thread in any order. The main results are
  an inductive invariant, refinement of a plain page store, what a fetch, a flush and a deletion have achieved
  when they come back, what a pinned frame and a full pool mean, and which of the code's own assertions hold when.
- **Heap** (`HeapPages`, `HeapAudit`, `TableHeaps`, `TableScan`, `TableChain`). The page works on a
  4064-byte array with in-place compaction; the table is a page chain with a probing cursor. The
  concurrent extension protocol is a second transition system.
- **Two small cores** (`ClockReplacer`, `DiskFreelist`). The CLOCK sweep in closed form, and the ordered
  header writes of the freelist with a crash allowed after any of them.

A fetch, a read, a write or an allocation may fail at any call; a failed disk write is taken to have no
effect. Each failure leaves a mark: the ghost count `faults` of an index, a table or a disk manager rises by one
when a fetch of a page that is there, an allocation or a header access fails, and `leaks` when a page could not be
given back. An error the data do not explain is thus tied to a fault, and a call without one has the exact
answer; in the pool the failing steps themselves are named. `dafny verify dfyconfig.toml` checks the whole project.

Conventions. `hide` statements only narrow what the verifier looks at. `old` states of methods are tied to
new ones by functions on values (`Contents`, `Entries`, `TuplesOf`), about which the lemmas are proved.
A tree is `Lf`, `Nd` or `Broken` (a missing or mistyped page); `key` is the separator under which a
parent lists it.

Where code and comment disagree, the code is followed.

## Findings

Properties the code might be expected to have and does not, each with an input and its exact condition.

- `heap_page.cpp:139-141` says overlapping tuples cannot pass the accounting check. They can
  (`HeapAudit.OverlapAccepted`); they cannot exactly if the dead-byte count is the number of bytes no tuple
  covers (`HeapAudit.AuditExact`).
- `buffer_pool_manager.cpp:516` asserts that an abandoned load was of page 1 or above. The fetch refuses only
  0 and -1, so a fetch of page -2 reaches the assertion and fails it (`PoolWitness.FailedFetch`). It holds in
  all runs exactly if callers fetch no other negative id (`PoolAssertions.AbandonExact`).
- A DeletePage that the disk refuses is not without effect: the frame is gone, and writes that no flush had
  covered with it (`PoolWitness.LostWrite`). It is without effect if and only if the page read as it stood on
  disk, which is so whenever it has no such writes (`PoolDeletion.DeleteOutcome`).
- An error from `TableIterator::Next` leaves the cursor on a slot it has not looked at, and the next call starts
  after it (`table_heap.cpp:354-367`). The header rules out going on after an error; a caller that does loses the
  row there, which is the table's first if the first fetch fails (`TableScan.FirstRowLost`). Such a scan is
  complete exactly if no row lives at any slot passed over (`TableScan.ScanRetrying`).
- The index stores a row address without looking at it. After an insert it passes its own check exactly if it
  did before and the address is valid (`IndexCheck.InsertAccepted`).

## Model

| member | source | states |
|---|---|---|
| Nodes.LowerBound | src/indices/b_plus_tree_page.cpp:29-46 | the binary search returns the number of smaller keys, one past the end and empty leaf included |
| Nodes.ChildIndexFor | src/indices/b_plus_tree_page.cpp:159-173 | the binary search returns the last child whose separator is not above the key, never reading slot 0's key |
| Nodes.CheckLeafNode | src/indices/b_plus_tree_page.cpp:48-77 | accepts a leaf exactly if count, level, link, row addresses and pairwise key order are legal |
| Nodes.CheckInternalNode | src/indices/b_plus_tree_page.cpp:175-213 | accepts an internal node exactly if count, level, link, children, slot 0 and pairwise key order are legal |
| Nodes.NodeNumbers | src/indices/b_plus_tree_page.hpp:61-91 | a node holds 253 entries and they fit the page body; the floors at 253 are 126 entries and 127 children; at every legal fanout two leaves of which one is below the floor, and two such internal nodes, fit into one |
| NodeViews.NodeView.InsertAt | src/indices/b_plus_tree_page.cpp:90-103 | in place, the live entries become the old ones with the new one at the index; the tail stays zero |
| NodeViews.NodeView.RemoveAt | src/indices/b_plus_tree_page.cpp:105-120 | in place, the live entries become the old ones without that one; the freed slot is zeroed |
| NodeViews.NodeView.Assign | src/indices/b_plus_tree_page.cpp:122-138 | the live entries become a given stretch of another array and every slot past them is zero |
| NodeViews.AssignInternal | src/indices/b_plus_tree_page.cpp:272-298 | as Assign, and the unread key of slot 0 is rewritten to the minimum |
| NodeViews.SetKeyAt | src/indices/b_plus_tree_page.cpp:261-270 | one separator changes and nothing else |
| NodeViews.SplitLeaf | src/indices/b_plus_tree_page.cpp:352-378 | the entries with the new one among them are dealt into halves of equal size or the left one larger by one, the separator is the right half's first key, links are taken over in order |
| NodeViews.SplitInternal | src/indices/b_plus_tree_page.cpp:380-404 | the children with the new one among them are dealt into halves of equal size or the left one larger by one, and the separator moves up out of both halves |
| NodeViews.RotateLeafRight | src/indices/b_plus_tree_page.cpp:406-423 | the two leaves' entries, concatenated, are dealt one entry further left |
| NodeViews.RotateLeafLeft | src/indices/b_plus_tree_page.cpp:425-442 | the two leaves' entries, concatenated, are dealt one entry further right |
| NodeViews.RotateInternalRight | src/indices/b_plus_tree_page.cpp:444-472 | the children joined by the parent's separator are dealt one further left; the key at the cut goes up |
| NodeViews.RotateInternalLeft | src/indices/b_plus_tree_page.cpp:474-503 | the children joined by the parent's separator are dealt one further right; the key at the cut goes up |
| NodeViews.MergeLeaf | src/indices/b_plus_tree_page.cpp:505-522 | left holds both leaves' entries and right's link |
| NodeViews.MergeInternal | src/indices/b_plus_tree_page.cpp:524-543 | left holds both nodes' children joined by the separator |
| NodeRoundTrips.SplitThenMergeLeaf | src/indices/b_plus_tree_page.cpp:352-378 | splitting a leaf and merging the halves is a plain insert, link included |
| NodeRoundTrips.SplitThenMergeInternal | src/indices/b_plus_tree_page.cpp:380-404 | splitting an internal node and merging with the separator that went up is a plain insert |
| NodeRoundTrips.RotateInternalThereAndBack | src/indices/b_plus_tree_page.cpp:444-503 | rotating right then left with the keys handed up restores all 253 slots of both nodes and the separator |
| NodeRoundTrips.RotateLeafThereAndBack | src/indices/b_plus_tree_page.cpp:406-442 | rotating two leaves right then left restores all slots of both and the separator |
| Trees.ContentsInRange | src/indices/b_plus_tree.cpp:287-408 | separator bounds at every node imply that a whole subtree's entries lie in its interval in strictly increasing order |
| Trees.UnfoldFrame | src/indices/b_plus_tree.cpp:287-408 | the tree a store describes depends on the pages it reaches and on no other |
| TreeInsert.InsValid | src/indices/b_plus_tree.cpp:456-532 | inserting into any legal subtree gives one or two legal subtrees, bounds, levels and floors kept through any run of splits |
| TreeInsert.InsContents | src/indices/b_plus_tree.cpp:456-532 | the entries afterwards are the old ones with the new one at its ordered position |
| TreeInsert.InsPages | src/indices/b_plus_tree.cpp:456-532 | the pages afterwards are the old ones plus exactly the first n spare ones, none reached twice, n being the number of splits |
| TreeInsert.InsChained | src/indices/b_plus_tree.cpp:456-532 | the leaf chain still visits the leaves in key order and starts at the same leaf |
| TreeInsert.SplitsExact | src/indices/b_plus_tree.cpp:534-545 | a subtree splits exactly if the counted run of full nodes reaches its root |
| TreeInsert.InsertTheorem | src/indices/b_plus_tree.cpp:456-532 | on every legal tree: the whole invariant, exactly one more entry, exactly the needed pages, up to and including a new root |
| TreeDelete.DelValid | src/indices/b_plus_tree.cpp:574-737 | deleting from any legal subtree leaves it legal but for at most one missing entry at its own top node |
| TreeDelete.DelContents | src/indices/b_plus_tree.cpp:574-737 | exactly the key's entry is gone, through any cascade of merges and a final rotation |
| TreeDelete.DelPages | src/indices/b_plus_tree.cpp:574-737 | the old pages split exactly into the pages still reached and the pages to free |
| TreeDelete.DelChained | src/indices/b_plus_tree.cpp:574-737 | the leaf chain still visits the leaves in key order |
| TreeDelete.DeleteTheorem | src/indices/b_plus_tree.cpp:574-737 | on every legal tree holding the key: the whole invariant, exactly that entry gone, pages conserved, root collapse included |
| TreeSpine.Lift | src/indices/b_plus_tree.cpp:487-510 | a node replaced on the descent path under its own page id shows at the root with no other page written |
| TreeIndex.DescentFacts | src/indices/b_plus_tree.cpp:85-129 | the leaf a descent reaches holds an entry for the key exactly if the tree does |
| TreeIndex.InsertDone | src/indices/b_plus_tree.cpp:478-532 | once the store holds the grown tree and the header names its root, the index is legal and has one more entry |
| TreeApply.PlanFacts | src/indices/b_plus_tree.cpp:606-666 | every node, parent and sibling the planning pass reads is there, of the right type and level |
| TreeApply.PlanNumbers | src/indices/b_plus_tree.hpp:286-291 | in numbers: the leaf is fixed exactly if it holds at most half of leaf_max, a level above it exactly if the one below merged and it holds at most half of internal_max + 1; it borrows exactly if its sibling holds more than that, and merges otherwise |
| TreeApply.CascadeStep | src/indices/b_plus_tree.cpp:668-719 | one planned level applied: the store holds the functional delete's result one level further up |
| TreeApply.CascadeResult | src/indices/b_plus_tree.cpp:668-737 | the plan applied to its end, with or without a root collapse, leaves a legal index without the key |
| BPlusTrees.BPlusTree.Get | src/indices/b_plus_tree.cpp:117-129 | a found row address is the indexed one; NotFound exactly if no fetch failed and the key is absent; any other error is one failed fetch |
| BPlusTrees.BPlusTree.FindLeafRead | src/indices/b_plus_tree.cpp:85-115 | the descent ends at the leaf that covers the key, unless a fetch fails |
| BPlusTrees.BPlusTree.FindLeafWrite | src/indices/b_plus_tree.cpp:410-454 | the recorded path and child indexes are those of the descent for the key, unless a fetch fails |
| BPlusTrees.BPlusTree.CountSplits | src/indices/b_plus_tree.cpp:534-545 | the loop over the path counts exactly the nodes that split |
| BPlusTrees.BPlusTree.Locate | src/indices/b_plus_tree.cpp:457-466 | the descent path and the key's lower bound in its leaf, which decides whether the whole index has the key; an error is one failed fetch |
| BPlusTrees.BPlusTree.AllocatePages | src/indices/b_plus_tree.cpp:547-572 | all pages, distinct and new, or one failed allocation and the store exactly as before unless a page could not be given back; no existing page changes |
| BPlusTrees.BPlusTree.Insert | src/indices/b_plus_tree.cpp:456-532 | for any row address. OK: one more entry, reachable pages are the old ones plus exactly the new ones, nothing else changes; DuplicateKey exactly if no fault occurred and the key is present; any other error is one fault, with the store as it was but for pages that could not be given back |
| BPlusTrees.BPlusTree.SplitInsert | src/indices/b_plus_tree.cpp:474-532 | the insert into a full leaf: the same, and its only error is a failed allocation before the first write |
| BPlusTrees.BPlusTree.PlanDelete | src/indices/b_plus_tree.cpp:606-666 | the read-only pass yields the right step for every level up to where the cascade stops; below a root it fixes the leaf exactly if twice its entries are at most leaf_max; an error is one failed fetch |
| BPlusTrees.BPlusTree.ApplyDeletePlan | src/indices/b_plus_tree.cpp:668-737 | the write pass yields a legal index without the key and returns exactly the pages no longer reached; every precondition it meets on the way follows from the plan |
| BPlusTrees.BPlusTree.Delete | src/indices/b_plus_tree.cpp:574-604 | OK: exactly that entry gone, and exactly the pages no longer reached unless the freeing of one failed; any error: every page as it was; NotFound exactly if no fetch failed and the key is absent, any other error is one failed fetch |
| BPlusTrees.BPlusTree.FreePages | src/indices/b_plus_tree.cpp:600-604 | without a failed deletion all these pages are gone and no other; with some, only some of these |
| IndexScan.LeavesHoldContents | src/indices/b_plus_tree.cpp:177-221 | the leaves left to right hold the tree's entries in order |
| IndexScan.LeavesChained | src/indices/b_plus_tree.cpp:177-221 | in a legal stored tree the leaf links visit exactly those leaves in that order and end |
| IndexScan.DescentLeaf | src/indices/b_plus_tree.cpp:131-141 | everything left of the leaf a scan starts on is below its bound, everything right of it above |
| IndexScan.IndexIterator.Next | src/indices/b_plus_tree.cpp:177-221 | true: the next pending entry is delivered and the rest stays pending; false: nothing was pending; an error is one failed fetch; after false or an error every later call answers false |
| IndexScan.Scan | src/indices/b_plus_tree.cpp:131-141 | a new cursor has pending exactly the entries in [lo, hi], whatever the separators, also for lo > hi; an error is one failed fetch |
| IndexScan.Collect | src/indices/b_plus_tree.cpp:131-221 | scanning to the end yields exactly the entries with lo <= key <= hi, ascending, once each, unless a fetch fails |
| IndexCheck.CheckSubtree | src/indices/b_plus_tree.cpp:287-408 | on any store, accepts exactly the legal subtrees that reach no page twice or already seen; ends on cyclic stores |
| IndexCheck.ChainedIffLinks | src/indices/b_plus_tree.cpp:275-283 | comparing each leaf's link with the walk is the same as the leaf chain being right |
| IndexCheck.CheckLinks | src/indices/b_plus_tree.cpp:273-283 | accepts exactly the leaf lists in which each link names the next leaf and the last one none |
| IndexCheck.CheckInvariants | src/indices/b_plus_tree.cpp:223-285 | on any store, true exactly if header, tree invariant and leaf chain hold and every row address is valid |
| IndexCheck.ValidByNumbers | src/indices/b_plus_tree.cpp:287-408 | a subtree is legal exactly if keys, levels, ids and bounds are and every leaf below the root has leaf_max <= 2n + 1, every node internal_max <= 2n, none above its maximum |
| IndexCheck.AcceptedByNumbers | src/indices/b_plus_tree.cpp:223-408 | the check accepts exactly the indexes with that shape and those numbers, no page reached twice, the right leaf chain and valid row addresses |
| IndexCheck.LeavesFilled | src/indices/b_plus_tree_page.hpp:75-77 | in an index of height 2 or more with those numbers every leaf is at least half full, rounded down |
| IndexCheck.InsertAccepted | src/indices/b_plus_tree.cpp:456-472 | after an insert the index passes its check exactly if it did before and the inserted row address is valid |
| IndexCheck.DeleteAccepted | src/indices/b_plus_tree.cpp:574-604 | an accepted index is still accepted after a delete |
| IndexCheck.CheckedLookup | src/indices/b_plus_tree.cpp:85-285 | on any pages: once the check accepts them, Get of any key and a scan of everything agree, the scan is in key order with valid row addresses, and only a failed fetch cuts either short |
| TreeBounds.TreeSize | src/indices/b_plus_tree_page.hpp:61-91 | a legal tree of height h >= 2 has at least 2*ceil(internal_max/2)^(h-2) leaves and floor(leaf_max/2) times as many keys, in these numbers |
| TreeBounds.HeightBounded | src/indices/b_plus_tree.cpp:512-525 | with non-negative 32-bit page ids no legal tree is taller than 32, so the 16-bit height cannot wrap |
| TreeBounds.InsertFootprint | src/indices/b_plus_tree.hpp:155-155 | header, path and new pages together are at most 2h + 2 |
| TreeBounds.DeleteFootprint | src/indices/b_plus_tree.hpp:174-174 | header, path and planned siblings together are at most 2h |
| IndexRuns.Create | src/indices/b_plus_tree.cpp:20-68 | a legal empty index on two new pages; a bad fanout is refused before anything is allocated; any other error is one fault, and gives back what was allocated if that works; no existing page changes |
| IndexRuns.ExecuteAll | src/indices/b_plus_tree.hpp:18-24 | any run of lookups, inserts and deletes is a run of a key-to-RID map with the map's own outcomes, but for operations cut short without effect, which are exactly as many as there were faults |
| IndexRuns.NoCutsExact | src/indices/b_plus_tree.hpp:18-24 | a run without a fault has exactly the outcomes and the final map that replaying the operations on the map gives |
| IndexRuns.InsertedDescribed | src/indices/b_plus_tree.cpp:456-472 | inserting into the ordered entries is a map update |
| IndexRuns.RemovedDescribed | src/indices/b_plus_tree.cpp:574-604 | removing from the ordered entries is removing a key from the map |
| PoolInvariant.InitInv | src/buffer/buffer_pool_manager.cpp:23-30 | a fresh pool over any disk satisfies the invariant |
| PoolSteps.UnpinKeeps | src/buffer/buffer_pool_manager.cpp:169-203 | dropping a pin, and publishing the frame as a candidate on the last one, keeps the invariant |
| PoolSteps.LookupHitKeeps | src/buffer/buffer_pool_manager.cpp:232-247 | pinning under the shard lock keeps the invariant |
| PoolSteps.EvictKeeps | src/buffer/buffer_pool_manager.cpp:395-398 | taking a victim out of the candidates keeps the invariant, stale candidates included |
| PoolSteps.DirtyIsMapped | src/buffer/buffer_pool_manager.cpp:560-593 | a resident frame with a write to its name is past NewPage's unmapped window |
| PoolBytes.PutBytesKeeps | src/buffer/page_guard.hpp:167-169 | bytes written under a write guard disturb nobody's assumptions |
| PoolBytes.MarkDirtyKeeps | src/buffer/page_guard.cpp:47-56 | bumping the dirty epoch before the latch drops keeps "clean means equal to disk" |
| PoolBytes.WriteBackKeeps | src/buffer/buffer_pool_manager.cpp:94-98 | writing a page back under the shared latch keeps the invariant, racing flushers included |
| PoolBytes.MarkFlushedKeeps | src/buffer/frame.hpp:168-174 | raising the flushed epoch to a sampled value never makes a frame clean that differs from disk |
| PoolBytes.ReadInKeeps | src/buffer/buffer_pool_manager.cpp:328-370 | a read into a Loading frame, good or failed, keeps the invariant |
| PoolBytes.AllocateKeeps | src/storage/disk_manager.cpp:192-258 | allocating a page id nobody has in flight keeps the invariant: it is unmapped and on no frame |
| PoolBytes.DeallocateKeeps | src/buffer/buffer_pool_manager.cpp:674-690 | stamping a page FREE under its shard lock keeps the invariant |
| PoolFrames.TakeCleanKeeps | src/buffer/buffer_pool_manager.cpp:415-449 | reclaiming a re-validated clean victim keeps the invariant |
| PoolFrames.RetakeKeeps | src/buffer/buffer_pool_manager.cpp:469-494 | reclaiming a victim after its writeback keeps the invariant |
| PoolFrames.VacateKeeps | src/buffer/buffer_pool_manager.cpp:626-662 | vacating an unpinned page for deletion keeps the invariant |
| PoolFrames.StartLoadKeeps | src/buffer/buffer_pool_manager.cpp:296-326 | publishing a Loading mapping after the second lookup keeps the invariant |
| PoolFrames.PublishKeeps | src/buffer/buffer_pool_manager.cpp:372-383 | publishing loaded bytes keeps the invariant |
| PoolFrames.EraseKeeps | src/buffer/buffer_pool_manager.cpp:504-508 | unmapping a failed load keeps the invariant |
| PoolFrames.DrainKeeps | src/buffer/buffer_pool_manager.cpp:510-526 | disposing of a failed load once its waiters are gone keeps the invariant |
| PoolFrames.StampKeeps | src/buffer/buffer_pool_manager.cpp:560-571 | NewPage's stamping of a private frame keeps the invariant |
| PoolFrames.MapNewKeeps | src/buffer/buffer_pool_manager.cpp:590-597 | NewPage's mapping keeps the invariant |
| PoolFrames.TryPopKeeps | src/buffer/buffer_pool_manager.cpp:387-391 | a frame popped from the free list is the thread's alone |
| PoolFrames.PushKeeps | src/buffer/buffer_pool_manager.cpp:525-525 | a frame given back is on the free list once and in nobody's hands |
| PoolTheorems.NextKeeps | src/buffer/buffer_pool_manager.cpp:47-690 | every step of every thread keeps the invariant |
| PoolTheorems.FreshRunKeeps | src/buffer/buffer_pool_manager.cpp:23-690 | the invariant holds at every state of every run of a fresh pool |
| PoolTheorems.CleanIsDisk | src/buffer/buffer_pool_manager.cpp:437-449 | a clean frame nobody else has pinned is byte for byte the disk page, so evicting it loses nothing |
| PoolTheorems.Refinement | src/buffer/buffer_pool_manager.cpp:47-690 | every step is invisible to a plain page-to-bytes store or is the one write, allocation, creation, drop or deletion a caller asked for, on that page alone, with the bytes it then holds; a dropped page falls back to its disk bytes, which are its bytes if it was clean |
| PoolTheorems.ContentOnlyByCallers | src/buffer/buffer_pool_manager.cpp:47-690 | over any run a page's content is unchanged unless that page was written, created or deleted |
| PoolTheorems.GuardSeesContent | src/buffer/buffer_pool_manager.cpp:528-544 | a guard's bytes are the page's content |
| PoolTheorems.NewPageIsZero | src/buffer/buffer_pool_manager.cpp:573-597 | the page NewPage maps carries its own id, is marked allocated and has 4064 zero bytes |
| PoolTheorems.WriteGuardAlone | src/buffer/buffer_pool_manager.cpp:537-544 | a write guard is the only guard on its page |
| PoolTheorems.DeletedStaysDeleted | src/buffer/buffer_pool_manager.cpp:600-690 | over any run, a page FREE on disk keeps its disk bytes and yields no guard and no flush until it is allocated again |
| PoolTheorems.PinnedKeepsPage | src/buffer/buffer_pool_manager.cpp:232-280 | a frame another thread has pinned keeps its page and stays resident if it was |
| PoolTheorems.FrameOwnership | src/buffer/buffer_pool_manager.cpp:387-526 | every frame is free stock, in one thread's hands, or mapped to the page it carries; only a load is both of the last two |
| PoolTheorems.OneResidentFrame | src/buffer/page_table.hpp:37-46 | no two resident frames carry the same page |
| PoolTheorems.NoFrameLost | src/buffer/buffer_pool_manager.cpp:169-203 | at every state of every run of a fresh pool, every frame is free stock, in one thread's hands, pinned, a candidate or some reclaimer's undecided victim; when all threads are idle it is free stock or a candidate |
| PoolTheorems.FullMeansPinned | src/buffer/buffer_pool_manager.cpp:393-398 | with nobody between claiming and returning a frame, no candidate and no free frame means every frame is pinned |
| PoolFetch.FetchYields | src/buffer/buffer_pool_manager.cpp:205-383 | over any run, a fetch that has come back had the guard it asked for, or a load of that page failed in between, or its own search found no candidate, or its own writeback failed |
| PoolFetch.VainWaitExplained | src/buffer/buffer_pool_manager.cpp:250-271 | whoever finds the frame it waited on failed was already waiting when a load of that page failed |
| PoolFetch.ResidentIsHit | src/buffer/buffer_pool_manager.cpp:232-247 | a lookup of a resident page pins its frame |
| PoolFetch.HitYields | src/buffer/buffer_pool_manager.cpp:250-280 | over any run, a fetch that has found its page resident comes back only with the guard |
| PoolFetch.NewPageYields | src/buffer/buffer_pool_manager.cpp:546-597 | over any run, a NewPage that has come back had the guard, or found no candidate, or its own writeback or allocation failed |
| PoolFetch.GuardedIsUnlisted | src/buffer/buffer_pool_manager.cpp:273-280 | over any run, a frame that a fetch found unpinned is no eviction candidate once the fetch has its guard |
| PoolFetchEnds.FetchProgress | src/buffer/buffer_pool_manager.cpp:205-383 | alone and without I/O errors, each step of a fetch of a live page yields the guard, reports a truly full pool, or decreases a measure |
| PoolFetchEnds.FetchEnabled | src/buffer/buffer_pool_manager.cpp:205-383 | alone, such a fetch always has a step to take |
| PoolFetchEnds.FetchEnds | src/buffer/buffer_pool_manager.cpp:205-383 | alone and without I/O errors, a fetch that has taken 13n + 19 steps, n being the number of candidates, has ended with the guard or with every frame pinned |
| PoolFetchEnds.FetchCompletes | src/buffer/buffer_pool_manager.cpp:205-383 | from any point of such a fetch there is a run to such an end |
| PoolFlush.FlushWrites | src/buffer/buffer_pool_manager.cpp:47-103 | a FlushPage or a FlushAllPages visit that found the page resident and has come back with no write of its own failed: at some moment since the last time no write was pending the disk had exactly the page's content, so every write marked by then is on disk |
| PoolFlush.FlushedIsOnDisk | src/buffer/buffer_pool_manager.cpp:47-103 | if nobody wrote, created or deleted the page meanwhile, the disk has its content when the flush comes back |
| PoolAssertions.AssertionsHold | src/buffer/buffer_pool_manager.cpp:169-652 | every assertion there but the one at 516, the duplicate-mapping abort and the frame bounds hold wherever the code reaches them |
| PoolAssertions.AbandonExact | src/buffer/buffer_pool_manager.cpp:504-518 | for any set of ids callers fetch from: the assertion at 516 holds in all runs of a fresh pool if and only if every id of the set is at least 1 or refused at 206 |
| PoolAssertions.RunLoads | src/buffer/buffer_pool_manager.cpp:205-330 | in every run, a thread loads only a page that some caller asked for and the fetch did not refuse |
| PoolAssertions.AbandonIsLoad | src/buffer/buffer_pool_manager.cpp:510-516 | the frame whose page id is asserted carries the page that was being loaded |
| PoolWitness.FailedFetch | src/buffer/buffer_pool_manager.cpp:205-516 | a run of any fresh pool from the fetch of any accepted id, -2 included, to the assertion with that id in the frame |
| PoolDeletion.DeleteOutcome | src/buffer/buffer_pool_manager.cpp:600-690 | a whole DeletePage beside anything else: the page is FREE with the bytes it had on disk at the start, or, if the disk refuses, has those bytes as they were; a refused call has no effect if and only if the page read as it stood on disk, as it does without unflushed writes |
| PoolDeletion.DeleteYields | src/buffer/buffer_pool_manager.cpp:600-690 | over any run, a DeletePage that has come back was turned down while somebody had the page pinned, or asked the disk |
| PoolDeletion.WhileDeleting | src/buffer/buffer_pool_manager.cpp:626-680 | between the vacating and the disk's answer nobody maps the page or changes it on disk |
| PoolWitness.LostWrite | src/buffer/buffer_pool_manager.cpp:654-689 | any unflushed write to any page can be lost to a DeletePage that fails |
| PoolWitness.DeleteWorks | src/buffer/buffer_pool_manager.cpp:600-690 | with everybody else idle, any page on disk can be deleted: FREE on disk, unmapped, nothing else on disk changed |
| PoolProgress.AcquireProgress | src/buffer/buffer_pool_manager.cpp:387-502 | alone and without I/O errors, each step of AcquireFrame yields a frame, reports a truly full pool, or decreases a well-founded measure |
| PoolProgress.AcquireEnabled | src/buffer/buffer_pool_manager.cpp:387-502 | alone, AcquireFrame always has a step to take |
| PoolProgress.AcquireEnds | src/buffer/buffer_pool_manager.cpp:387-502 | alone and without I/O errors, a run of more than 13n + 25 steps, n being the number of candidates, has ended with a frame or with every frame pinned |
| PoolProgress.AcquireCompletes | src/buffer/buffer_pool_manager.cpp:387-502 | from any point of AcquireFrame, alone, there is a run to such an end |
| ClockReplacer.Replacer.Evict | src/buffer/replacer.hpp:61-85 | the victim is the evictable frame least in (usage, distance from the hand); every other count drops by the stated amount; None exactly if nothing is evictable |
| ClockReplacer.VictimFound | src/buffer/replacer.hpp:67-77 | a sweep that has passed every evictable count a known number of times stops at the lexicographic minimum |
| ClockReplacer.VictimIsUnique | src/buffer/replacer.hpp:57-85 | the closed form determines the victim |
| ClockReplacer.Replacer.SetEvictable | src/buffer/replacer.hpp:43-55 | one flag changes and the count follows it, idempotently |
| ClockReplacer.Replacer.RecordAccess | src/buffer/replacer.hpp:32-40 | one usage count rises by one, never above 3 |
| DiskFreelist.DiskManager.AllocatePage | src/storage/disk_manager.cpp:192-258 | hands out the first free page or a new last one, never one in somebody's hands; an error is exactly one failed header access and changes nothing the manager remembers; every disk state on the way is recoverable, failed writes included |
| DiskFreelist.DiskManager.DeallocatePage | src/storage/disk_manager.cpp:260-308 | puts the page at the head of the chain, a no-op if FREE; InvalidArgument exactly for pages 0 and 1 and those outside the file, any other error is one failed header access; every disk state on the way is recoverable |
| DiskFreelist.DiskManager.WritePage | src/storage/disk_manager.cpp:183-190 | writing a page somebody holds leaves the chain alone |
| DiskFreelist.TailRecoverable | src/storage/disk_manager.cpp:215-230 | with page 0 moved past its first page, whether or not that page is stamped, a restart finds the rest of the chain |
| DiskFreelist.RecoverFrom | src/storage/disk_manager.cpp:104-127 | the in-memory chain is what page 0 leads to or one FREE page longer, and either way a restart finds a finite, duplicate-free chain of FREE pages held by nobody |
| DiskFreelist.ChainUnique | src/storage/disk_manager.cpp:104-127 | a disk leads to one chain |
| DiskFreelist.Restart | src/storage/disk_manager.cpp:104-127 | a file the manager could have left is never found corrupt, and unless a read fails gives a working manager with no page in two hands |
| DiskFreelist.RestartAfterCrash | src/storage/disk_manager.cpp:192-308 | the same for the file after every single header write of every run so far, with the pages held at that moment |
| HeapPages.HeapPage.Get | src/heap/heap_page.cpp:76-86 | the tuple in the slot, or NotFound for a dead or missing slot |
| HeapPages.PageNumbers | src/heap/heap_page.hpp:42-57 | the constants, two largest tuples on every page, at most 1014 slots |
| HeapPages.HeapPage.Insert | src/heap/heap_page.cpp:156-204 | the first dead slot or a new one holds the tuple, all other slots as before; PageFull exactly when it does not fit, page byte-identical |
| HeapPages.HeapPage.Delete | src/heap/heap_page.cpp:206-225 | that slot is empty, all others as before, its bytes counted dead |
| HeapPages.HeapPage.Update | src/heap/heap_page.cpp:227-308 | the slot holds the new tuple, all others as before, in place, relocated or compacted; does not fit exactly when dead bytes and its own do not make room, page byte-identical |
| HeapPages.HeapPage.Compact | src/heap/heap_page.cpp:310-371 | no slot's content or index changes, no dead bytes remain, the low-water mark rises by exactly the old dead bytes |
| HeapPages.StoreTuple | src/heap/heap_page.cpp:187-194 | a tuple copied clear of all others changes one slot's content and keeps tuples disjoint |
| HeapPages.PackLive | src/heap/heap_page.cpp:335-349 | moving one tuple into the scratch buffer keeps the packed part disjoint and equal to the original |
| HeapPages.PackedAll | src/heap/heap_page.cpp:351-360 | copying back only the occupied tail preserves every tuple and both counts |
| HeapAudit.CheckInvariants | src/heap/heap_page.cpp:88-146 | on any directory, true exactly if bounds, dead slots, live count and byte accounting hold |
| HeapAudit.OverlapAccepted | src/heap/heap_page.cpp:138-143 | a page whose two tuples share bytes passes the accounting check |
| HeapAudit.AuditExact | src/heap/heap_page.cpp:138-143 | an accepted page has disjoint tuples exactly if its dead-byte count is the number of bytes no tuple covers |
| HeapAudit.CoveredSize | src/heap/heap_page.cpp:116-134 | the bytes covered are at most the sum of lengths, and equal exactly if no byte is shared |
| TableHeaps.TryInsertOnPage | src/heap/table_heap.cpp:72-90 | a slot holding the tuple, or no slot exactly if there is no room as it is and none after compaction or less dead space than the threshold, page then byte-identical; PageFull does not escape |
| TableHeaps.TableHeap.Probe | src/heap/table_heap.cpp:104-153 | without a fault the row goes to the first page, of the four from the hint round the chain, that takes it (three from the first page after a bad hint), or to none if all pass it over; an error is a fault; pages it passes over stay as they were |
| TableHeaps.TableHeap.Append | src/heap/table_heap.cpp:155-219 | the walk to the end terminates; one new page is linked exactly if the last page has no room even after compaction; an error is one fault and changes nothing |
| TableHeaps.TableHeap.Insert | src/heap/table_heap.cpp:94-219 | the address returned named no live row and every other row is as before; without a fault the page is the one the sweep, or after it the end of the chain, determines; InvalidArgument exactly for a bad size, any other error is a fault; an error changes nothing, and the chain grows only if its last page has no room |
| TableHeaps.TableHeap.Get | src/heap/table_heap.cpp:221-235 | without a fault, the row's bytes if a row lives there and otherwise the error its page and slot determine; with one, IOError |
| TableHeaps.TableHeap.Delete | src/heap/table_heap.cpp:237-252 | exactly that row is gone if one lives there and the fetch works; otherwise nothing changes, and the error is Get's |
| TableHeaps.TableHeap.Update | src/heap/table_heap.cpp:254-306 | the row is live exactly once, and keeps its address if and only if its page's free and dead bytes and its own make room; without a fault an error is the one size and address determine; an error changes nothing, but for Internal, which means a fault and two copies |
| TableHeaps.TableHeap.UpdateOnPage | src/heap/table_heap.cpp:254-290 | on the row's own page: rewritten, does not fit, or the error, each exactly as size, address and room determine, unless the fetch fails |
| TableHeaps.TableHeap.Move | src/heap/table_heap.cpp:284-306 | the row goes to another address and leaves its own; it fails only by a fault |
| TableHeaps.ExtendChain | src/heap/table_heap.cpp:192-217 | a linked new page extends the one chain and adds one row |
| TableScan.TableRowsExact | src/heap/table_heap.cpp:349-407 | the scan's list holds each live row of the chain once and nothing else |
| TableScan.TableIterator.Next | src/heap/table_heap.cpp:349-407 | true: the next pending row is delivered; false: none was pending, and every later call answers false; an error is one failed fetch and has passed over exactly one slot, the first of a page just reached or the next one of a page that failed before |
| TableScan.ScanRetrying | src/heap/table_heap.cpp:349-407 | a scan that goes on after failed fetches yields the table's rows but for those at the slots it passed over, one for each failure; it is complete exactly if no row lives at any of them |
| TableScan.FirstRowLost | src/heap/table_heap.cpp:354-367 | with one failure on the first page and a row in its first slot, exactly that row is missing |
| TableScan.ScanAll | src/heap/table_heap.cpp:308-407 | a scan yields every live row once in chain order, unless a fetch fails |
| TableChain.NextKeeps | src/heap/table_heap.cpp:104-219 | with any interleaving of inserts and deletes, failed fetches and allocations included, one acyclic chain that is only appended to, every allocated page on it or about to be linked, the last-page pointer on it |
| TableChain.FreshRunKeeps | src/heap/table_heap.cpp:104-219 | the same at every state of every run of a new table |
| TableChain.OneExtender | src/heap/table_heap.cpp:155-192 | whoever holds the last page is the only extender |
| TableChain.LastOnlyForward | src/heap/table_heap.cpp:213-214 | the last-page pointer never moves back along the chain |
| TableChain.DoneStaysOnChain | src/heap/table_heap.cpp:192-217 | a finished insert's page is on the chain ever after |
| TableChain.DoneOwns | src/heap/table_heap.cpp:104-219 | a finished insert's address names its own live row |
| TableChain.InsertYields | src/heap/table_heap.cpp:104-219 | over any run, an insert no longer under way owns its row, or a fetch or an allocation of its own failed |
| TableChain.InsertCompletes | src/heap/table_heap.cpp:104-219 | from any point of an insert, with the latches to itself and a page to be had, there is a run to its end |
| TableChain.RowSurvives | src/heap/table_heap.cpp:104-219 | over any run a live row stays its inserter's until it is deleted, so no two live inserts share an address |

## Left out

- The sub-header and slot array of a heap page are typed fields beside the 4064-byte array; their size enters every bound, their bytes are not modelled.
- The pool's frames are values in a state machine, not objects updated in place; pointers, mutex objects and condition variables are not modelled, waits are guarded steps, memory orderings are sequentially consistent.
- A shard lock is held per page, not per sixteenth of the table; that admits more interleavings than the code has.
- The pool model assumes that no fetch or deletion of a page id is under way when that id is allocated, that none begins before NewPage has mapped it, and that no caller stamps a page FREE through a write guard.
- Fairness and liveness of waiters, and freedom from deadlock across content latches, which depends on callers' latch order.
- Creation of a new database file, and writes to the catalog's page 1.
- Torn or partial writes: a disk write happens whole or not at all; pread and pwrite loops and fsync are not modelled.
- Byte marshalling of headers, slots and node entries; integer widths appear only where the proofs show the values fit.
- The replacer's sweep under concurrent RecordAccess, where its fallback can run.
- TableScan.ScanRetrying: promises nothing once 65536 fetches have failed, because the 16-bit slot number can then have wrapped.
- Shutdown, destructors, statistics, logging, status texts, guard and iterator move semantics, the shell.
- A RID naming a heap page of another table: the table layer's contracts ask that addresses be its own.
