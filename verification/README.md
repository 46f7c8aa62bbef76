# A verified model of the B+ tree storage engine

The repository is a small database: a B+ tree over 4096-byte pages, a buffer pool with
second-chance replacement below it, and a command line client with a query parser. This
project models those parts in Dafny 4.11 and proves that the whole behaves as a plain map
from 64-bit keys to payloads, however pages split, borrow, merge, overflow or are evicted.
`dafny verify dfyconfig.toml` checks everything.

## How the model is built

* **Bytes, Tuples, Memory** - little-endian fields, the 13-byte tuple header, copying within a page.
* **LeafLayout, LeafEdits, LeafPages, LeafTransfers, LeafSplits** - the slotted leaf page. The page
  buffer is an array that the methods overwrite; header fields and slot entries are typed.
  `Leaf.Valid` is the layout invariant: live regions disjoint and above the free space, live keys
  ascending whatever keys stale slots hold, and
  `live bytes + garbage == 4095 - free_space_end`, with the tombstoned lengths inside the garbage.
* **LeafMinimum** - how few tuples splits and deletions leave on a leaf.
* **InternalPages** - the page with 254 keys and 255 children as two fixed arrays shifted in place.
* **Pages, StoreEntry, Streams** - overflow chains: writing them, and reading them back piece by piece.
* **PoolState, ClockSweep, BufferPools** - the pool's tables, the clock sweep as a loop, and the class
  whose methods are the pool's operations. Clients see `View` (page contents), `Pins` (a multiset)
  and `Touched` (pages written to but not yet released dirty). A page whose last pin goes back clean
  after a write leaves `View`: nobody may rely on it any more.
* **Trees, TreeEdits, TreePairs, TreeStore, TreeInsert, TreeDelete** - the B+ tree as a value, and what
  splits, borrows and merges do to it. A `Site` is where a subtree hangs: its key range, height,
  minimum occupancy and the leaf after it. `Good` says of a subtree at a site: all leaves at one depth,
  separators strictly ascending, keys inside their separators, no page in two subtrees, the leaf chain
  in order, at most 254 keys a page, and at least 127 in every internal page that has a sibling.
  `Carries` ties the value to the pages of the store. `Stands` adds the meta page, and that a root
  directly above the leaves has a separator.
* **InsertSpec, DeleteShape** - what an insertion and a deletion make of a tree, page by page, in terms of
  trees alone: which pages split and where, which neighbour lends and what moves, which pages become one.
  They fix the new tree up to the layout inside leaves; the bytes a leaf uses are exact too, save for how
  many tombstones a borrower or a merged page keeps.
* **PageOps, FindPage, DeleteOps, Rebalance, DeleteSpec, DeleteSteps, BTrees, Orphans** - the tree's
  operations over the pool, with the source's pin, dirty and release discipline. `BTree.Valid` holds
  between calls. A pool carries its client's own pin limit (`MaxPins`) in its invariant, so no operation
  ever holds more; height plus two, eleven for every tree a file can hold, is enough for each.
* **Contents, LeafChain, Heights, Runs** - the map a tree stands for, the leaf chain, the height
  bound, and whole runs of requests.
* **Parsing, QueryWords, QueryGrammar** - the client's parser as a loop over its state, and the language it
  accepts, whose words are commands in any mix of cases and decimal keys.

A page-level step of the tree loads a page into an object, edits it with the page methods in place,
and writes the result back through the pinned page.

## What is found about the code

* **Deletion can report failure after succeeding** (database/src/impl/b-tree/b-tree.cpp:555-556). Root
  collapse after an internal merge is commented out, so pages with one child and no separator arise
  at the top of the tree. If such a page's child reports an underflow, the call returns
  `success = false` although the key is gone. `BTree.Delete` proves the exact condition
  (`Orphaned`, a predicate on the tree before the call). `OrphanExists` gives for every key a store
  and a tree of height 3 on which it happens, `DeleteReportsFailure` goes through it with the modelled
  operations, `OrphansNeedHeight` shows that no lower tree does it, `OrphansUnderLoneRoot` that the root
  has a single child then, and `BranchesNeverOrphans` that branching on the path is enough to rule it
  out. Over a run, replies are exact while the root has two children or more (`RepliesExact`), and only
  a deletion that finds it with two can leave it with one (`LoneRootArises`). The contents change
  correctly in every case.
* **The root that collapses is edited and released clean**
  (database/src/impl/b-tree/b-tree.cpp:330, 338, 383). The edit may be lost; the proof shows that the
  page is then unreachable.
* **The merge bound is met with equality.** A sibling that refuses to lend and the page that asked
  use at most 4065 bytes together, which is exactly a page; 127 and 126 keys with their separator are
  exactly the 254 of an internal page. The fatal error in the leaf merge is unreachable.
* **The pool evicts a pinned page when only pinned frames are queued and none is free**
  (database/src/impl/bufferpool/bufferpool.cpp:50-71). `BufferPool.RequestPage` proves that its
  invariant survives a request if and only if the page is resident, a frame is free or unpinned, or
  nothing is queued; otherwise a pinned page leaves the page table. `OnlyPinnedQueued` is a sound pool
  in which that happens, and `PinnedEvictLoses` says that such an eviction always takes a page from
  its holder. Fewer than 1000 pins rule it out; the tree holds at most eleven.
* **A leaf can hold two tuples**, although Architecture.md:207 says that every leaf keeps at least three.
  After a split the left half always has three or more; the right half has them if and only if all but
  the last three live tuples of the full page take more than 2032 bytes, slots not counted
  (`ThreeEach`, and `LeafSplits.HandleSplit` for the operation). `SplitLeavesTwo` gives a page of five
  808-byte tuples whose split leaves two. A deletion leaves fewer than three on a leaf that is not
  underflown if and only if it finds at most three and what they use without the key's tuple is above
  1626 (`DeletionLeavesFew`); only the slots of tombstones make that possible (`FewNeedTombstones`), and
  `DeleteLeavesTwo` does it. Neither merges nor borrows need the documented minimum.
* `CheckUnderflow` adds to an uninitialised variable
  (database/src/impl/page/internal_page.cpp:214, database/src/impl/b-tree/b-tree.cpp:345). The model
  takes its initial value to be 0, which is the evident intent.

## Model

| member | source | states |
|---|---|---|
| Tuples.HeaderBytes | database/src/include/page/leaf_page.h:51-55 | byte by byte: the flag, the overflow page in bytes 1 to 8 and the size in bytes 9 to 12, least byte first |
| Tuples.HeaderRoundTrip | database/src/include/page/leaf_page.h:51-55 | decoding the 13 header bytes of a tuple gives back the overflow flag, page and 32-bit size that were written |
| Tuples.RelinkHeader | database/src/impl/b-tree/b-tree.cpp:82-84 | linking a stored tuple to its overflow page changes the flag and page alone: size, key and bytes stay |
| Tuples.InsertInto | database/src/impl/b-tree/b-tree.cpp:119-180 | inserting into the part of a sorted run that covers the key is inserting into the whole run |
| LeafLayout.LiveSorted | database/src/impl/page/leaf_page.cpp:160-195 | the live tuples are in key order even though deleted slots between them hold arbitrary stale keys |
| LeafLayout.CostOfLive | database/src/impl/page/leaf_page.cpp:5-18 | used space is live tuples with their slots plus five bytes for each tombstone, and tombstones are covered by garbage |
| LeafLayout.UsedMeaning | database/src/impl/page/leaf_page.cpp:5-18 | space accounting of a valid page, and the bound of 156 slots behind the 780 bytes that tombstones can cost |
| LeafPages.LeafPage.UpperBound | database/src/impl/page/leaf_page.cpp:20-55 | finds the first live slot with a greater key, skipping tombstones, or the end; never reads past the slot array |
| LeafPages.LeafPage.LowerBound | database/src/impl/page/leaf_page.cpp:160-195 | finds the first live slot with a key not less than the given one, or the end |
| LeafPages.LeafPage.MakePage | database/src/impl/page/leaf_page.cpp:114-158 | rebuilds a page from the live slots of another: same live tuples in order, no garbage, no tombstones |
| LeafPages.LeafPage.DefragmentPage | database/src/impl/page/leaf_page.cpp:727-736 | keeps the ordered live tuples and leaves contiguous at least what was free and garbage together |
| LeafPages.LeafPage.WriteChunkLeaf | database/src/impl/page/leaf_page.cpp:419-522 | enters one tuple in key order and no other live tuple changes; the chunk is the longest that the payload, 813 bytes and the free space allow; the used space grows by the tuple, and by a slot unless a tombstone stood just before the key's place; a page without room in one piece is rebuilt first |
| LeafPages.LeafPage.SetOverflow | database/src/impl/b-tree/b-tree.cpp:82-84 | writing the overflow link through its address changes exactly that tuple of the page |
| LeafPages.LeafPage.DeleteTuple | database/src/impl/page/leaf_page.cpp:753-778 | removes exactly the key's tuple, reports whether it was there, and frees its bytes but not its slot |
| LeafPages.LeafPage.Search | database/src/impl/page/leaf_page.cpp:303-332 | found exactly if the key is live, and then the reported range holds its tuple and header |
| LeafEdits.PlaceValid | database/src/impl/page/leaf_page.cpp:419-522 | placing a tuple below the free space, over a tombstone or in a new slot, keeps the layout invariant and inserts in order |
| LeafEdits.MarkWithout | database/src/impl/page/leaf_page.cpp:774-776 | marking the slot that lower_bound found takes the key's tuple, and its bytes, out of the live run |
| LeafEdits.RebuildStep | database/src/impl/page/leaf_page.cpp:114-158 | each step of a rebuild has room for the next live tuple and stays compact and ordered |
| LeafEdits.LinkValid | database/src/impl/b-tree/b-tree.cpp:82-84 | rewriting nine bytes of a stored tuple keeps the page valid and swaps just that tuple |
| LeafTransfers.CanLendFromRight | database/src/impl/page/leaf_page.cpp:538-577 | grants exactly if something is asked for and some run of last live tuples yields the needed bytes and leaves more than 1626, and grants the least such run |
| LeafTransfers.CanLendFromLeft | database/src/impl/page/leaf_page.cpp:579-618 | the same for a run of first live tuples |
| LeafTransfers.RefusalFits | database/src/impl/page/leaf_page.cpp:683-724 | an underflown leaf and a sibling that refused to lend use at most 4065 bytes together |
| LeafTransfers.HandleLeftBorrow | database/src/impl/page/leaf_page.cpp:620-651 | moves the last live tuples, headers included, to the front of the borrower and returns the borrower's new least key; the lender's slots stay |
| LeafTransfers.HandleRightBorrow | database/src/impl/page/leaf_page.cpp:653-681 | moves the first live tuples to the end of the borrower and returns the lender's new least key |
| LeafTransfers.MergePages | database/src/impl/page/leaf_page.cpp:683-724 | when both fit, appends every live tuple and takes over the right pointer; the fatal error needs more than a page of tuples |
| LeafSplits.SplitRoom | database/src/impl/page/leaf_page.cpp:57-112 | a split by size leaves both halves non-empty with at least 128 free bytes |
| LeafSplits.ThreeEach | database/src/impl/page/leaf_page.cpp:57-112 | where a full page splits, the left half has three tuples or more, and the right half exactly if all live tuples but the last three exceed 2032 bytes |
| LeafMinimum.SplitLeavesTwo | database/src/impl/page/leaf_page.cpp:57-112 | five payloads of 795 bytes, stored whole, fill a page whose every split leaves two on the right |
| LeafMinimum.FewNeedTombstones | database/src/impl/page/leaf_page.cpp:5-18 | a leaf of at most two tuples is above the underflow threshold exactly if its tombstones' slots make up for what the tuples lack |
| LeafMinimum.DeletionLeavesFew | database/src/impl/page/leaf_page.cpp:753-778 | the condition on the page before a deletion under which it leaves fewer than three tuples and no underflow, both directions |
| LeafMinimum.DeleteLeavesTwo | database/src/impl/page/leaf_page.cpp:753-778 | writing three payloads of 795 bytes and deleting one leaves a leaf of two tuples that is not underflown |
| LeafSplits.HandleSplit | database/src/impl/page/leaf_page.cpp:57-112 | any page that refused an entry divides in order into two non-empty pages with room for it; the boundary is the new page's least key; the right chain runs through both; the exact condition for three tuples on each |
| InternalPages.InternalPage.InsertKeyValue | database/src/impl/page/internal_page.cpp:65-89 | the in-place shift is an insertion of the separator and of the child to its right |
| InternalPages.InternalPage.HandleSplit | database/src/impl/page/internal_page.cpp:92-131 | left keys, boundary and right keys are the keys with the new one inserted, the children likewise, halved |
| InternalPages.InternalPage.CanLend | database/src/impl/page/internal_page.cpp:265-281 | grants exactly if the page keeps 127 keys, or if the unsigned subtraction wraps |
| InternalPages.HandleLeftBorrow | database/src/impl/page/internal_page.cpp:284-321 | rotates the last entries of the left page through the parent's separator |
| InternalPages.HandleRightBorrow | database/src/impl/page/internal_page.cpp:323-359 | rotates the first entries of the right page through the parent's separator |
| InternalPages.MergePages | database/src/impl/page/internal_page.cpp:361-385 | the left page ends with its keys, the partition key and the right page's keys, the children likewise |
| InternalPages.InternalPage.DeleteKeyAndChildPtr | database/src/impl/page/internal_page.cpp:409-434 | removes the separator right of the absorbing child and the merged child |
| InternalPages.InternalPage.DeletePartitionKeyAndChildPtr | database/src/impl/page/internal_page.cpp:387-407 | the same, returning the separator that was removed |
| ClockSweep.Victim | database/src/impl/bufferpool/bufferpool.cpp:50-66 | an unpinned frame that the sweep finds at the front of the queue can be taken out: the pool is sound without it, and the sweep has changed nothing but queue places and second chances |
| ClockSweep.ChoiceMade | database/src/impl/bufferpool/bufferpool.cpp:50-66 | the frame a sweep stops at is the first unpinned one of the old queue without its reference bit, or the first unpinned one if all have it |
| BufferPools.BufferPool.FindPageToEvict | database/src/impl/bufferpool/bufferpool.cpp:47-72 | returns that frame if an unpinned one is queued: those before it have lost their bit and are queued again in order, all other bits are as before; otherwise the last queued one, pinned, or an error if the queue was empty |
| PoolState.EvictOk | database/src/impl/bufferpool/bufferpool.cpp:74-98 | evicting an unpinned frame, written back if dirty, leaves the content of every page as readers see it |
| PoolState.LoadOk | database/src/impl/bufferpool/bufferpool.cpp:143-157 | reading an absent page into a free frame keeps the tables consistent and the view |
| PoolState.UnpinOk | database/src/impl/bufferpool/bufferpool.cpp:162-176 | a dirty release, or a clean one of an unwritten page, keeps the view; a clean last release of a written page keeps all other pages |
| PoolState.SomeFrame | database/src/impl/bufferpool/bufferpool.cpp:110-141 | with fewer pins than frames there is a free or an unpinned queued frame |
| PoolState.OnlyPinnedQueued | database/src/impl/bufferpool/bufferpool.cpp:50-71 | a sound pool whose frames are all in use and whose queue holds nothing but a pinned frame |
| PoolState.PinnedEvictLoses | database/src/impl/bufferpool/bufferpool.cpp:74-98 | evicting a pinned frame takes its page out of the table while somebody holds the pin |
| BufferPools.BufferPool.RequestPage | database/src/impl/bufferpool/bufferpool.cpp:110-160 | pins the page, shows its content and sets its reference bit; takes the last free frame, else the second-chance victim, whose page leaves the table; fails exactly if the page is absent and nothing is free or queued; the pool stays sound and pinned pages stay where they are if and only if no pinned frame had to be evicted |
| BufferPools.BufferPool.ReleasePage | database/src/impl/bufferpool/bufferpool.cpp:162-176 | gives one pin back; the last one puts the frame at the end of the queue unless it is queued; the dirty flag only grows and the reference bit stays; the exact effect on the view and the error case |
| BufferPools.BufferPool.AllocateNewPage | database/src/impl/bufferpool/bufferpool.cpp:178-189 | a page number never used before, pinned and zeroed, whenever a frame is free or unpinned |
| BufferPools.BufferPool.Flush | database/src/impl/bufferpool/bufferpool.cpp:18-34 | after the destructor no frame is dirty and the disk shows every page of the view that is not mid-edit |
| StoreEntry.ExtendChain | database/src/impl/b-tree/b-tree.cpp:76-98 | appending a page to an open overflow chain extends the bytes it holds and disturbs none before |
| StoreEntry.StorePayload | database/src/impl/b-tree/b-tree.cpp:69-102 | the leaf's tuple and its chain hold exactly the payload, the tuple is entered in order with the longest first chunk that fits, the rest takes as many overflow pages as it fills, no other page changes, one pin is given back |
| Pages.StoredFrame | database/src/impl/b-tree/b-tree.cpp:72-98 | a stored payload survives any edit that leaves overflow pages alone, wherever its tuple is moved |
| Streams.PayloadStream.NextBytes | database/src/impl/page/leaf_page.cpp:372-416 | returns the next n bytes or all that is left, pins balanced, store untouched, terminating |
| Streams.ReadPieces | database/src/impl/page/leaf_page.cpp:372-416 | reading pieces of any sizes one after the other gives a prefix of the payload, ends exactly when the sizes reach its length, and leaves pins and store as they were |
| Streams.SendPayload | database/src/impl/server/server.cpp:105-119 | the announced length is that of the payload; the pieces sent are the payload, 1024 bytes each but the last; the loop stops |
| TreeEdits.SplitChild | database/src/impl/b-tree/b-tree.cpp:151-164 | entering a split child keeps the shape of the page above |
| TreeEdits.MoveSeparator | database/src/impl/b-tree/b-tree.cpp:262-268 | neighbours that traded entries across a new separator keep the shape of the page above |
| TreeEdits.DropSeparator | database/src/impl/b-tree/b-tree.cpp:329-350 | merged neighbours keep the shape of the page above, one key fewer |
| TreePairs.PairJoin | database/src/impl/page/internal_page.cpp:361-385 | the children of two neighbours around their separator form one well-formed run |
| TreePairs.PairCut | database/src/impl/page/internal_page.cpp:92-131 | such a run cut at a key makes two well-formed pages with that key between them |
| TreeInsert.NodeParts | database/src/impl/b-tree/b-tree.cpp:165-176 | a full page that takes a separator splits into two pages of 127 keys; contents, chain and the place of the new key are kept |
| InsertSpec.RoomRule | database/src/impl/b-tree/b-tree.cpp:116-125 | a leaf takes an entry exactly if it has 128 bytes free or room for the whole payload with 18 bytes more |
| InsertSpec.FitsUnchanged | database/src/impl/b-tree/b-tree.cpp:116-125 | a subtree whose leaf for the key has room is left as it is |
| InsertSpec.CleftDivides | database/src/impl/b-tree/b-tree.cpp:126-176 | the root page of a subtree splits only if the leaf has no room and every page above it, that page included, has 254 keys |
| FindPage.FindPageToWrite | database/src/impl/b-tree/b-tree.cpp:105-189 | the subtree keeps its tuples and shape; it becomes exactly the tree of the split rules, a page is taken from the file for each split and none otherwise, and a leaf with room leaves store and tree unchanged; the leaf for the key has room and is the one page left pinned |
| BTrees.BTree.MakeRoom | database/src/impl/b-tree/b-tree.cpp:55-70 | the tree grows by a level exactly if its root splits, and nothing changes if the leaf has room |
| BTrees.RootGrows | database/src/impl/b-tree/b-tree.cpp:60-70 | two halves under a new root form a tree one level higher with the same tuples |
| BTrees.BTree.Insert | database/src/impl/b-tree/b-tree.cpp:55-103 | for a new key the contents become the old map with the payload added; the tree is the one of the split rules with one tuple entered in the leaf for the key; height and pages taken are exact; invariant kept, pins as before |
| BTrees.BTree.Search | database/src/impl/b-tree/b-tree.cpp:191-224 | a stream over exactly the payload of the key, or an empty one if it is absent; store and pins unchanged |
| DeleteOps.LastFits | database/src/impl/page/leaf_page.cpp:538-577 | a granted left borrow never overflows the borrower and always leaves the lender a live tuple |
| DeleteOps.FirstFits | database/src/impl/page/leaf_page.cpp:579-618 | the same for a right borrow |
| TreeDelete.LeafTraded | database/src/impl/b-tree/b-tree.cpp:248-306 | after a leaf borrow the page above is well formed around a separator strictly between the neighbours, with the same tuples |
| TreeDelete.LeafMerged | database/src/impl/b-tree/b-tree.cpp:308-398 | after a leaf merge the page above is well formed, the chain skips the absorbed page, and the tuples are the same |
| Rebalance.MergePair | database/src/impl/b-tree/b-tree.cpp:308-327 | the left leaf holds both leaves' tuples, and the leaf after them points back to it |
| DeleteOps.BorrowLast | database/src/impl/b-tree/b-tree.cpp:251-277 | a leaf borrow from the left moves the least number of last tuples that yields the bytes asked for, keeps the lender above 1626 and returns the least key moved |
| DeleteOps.BorrowFirst | database/src/impl/b-tree/b-tree.cpp:279-306 | the same from the right |
| DeleteOps.RotateLast | database/src/impl/b-tree/b-tree.cpp:408-430 | a borrow from the left internal neighbour moves one child, which takes the separator along, and leaves both pages with 127 to 254 keys |
| DeleteOps.RotateFirst | database/src/impl/b-tree/b-tree.cpp:432-461 | the same from the right |
| TreeDelete.NodeRotated | database/src/impl/b-tree/b-tree.cpp:408-461 | such a rotation keeps the page above well formed, with the same tuples |
| DeleteSteps.MergeNodeStep | database/src/impl/b-tree/b-tree.cpp:463-533 | when neither neighbour lends, 126 keys, 127 keys and their separator make a page of at most 254; the page above loses the key, and reports its own underflow exactly |
| TreeDelete.NodeMerged | database/src/impl/b-tree/b-tree.cpp:463-533 | a merged page of 127 to 254 keys keeps the page above well formed, with the same tuples and one child fewer |
| DeleteSteps.RefusedFits | database/src/impl/b-tree/b-tree.cpp:250-398 | in the tree, the neighbour chosen for a leaf merge always fits together with the underflown leaf |
| DeleteSteps.NodeTurnSite | database/src/impl/b-tree/b-tree.cpp:406-533 | an underflown internal child has exactly 126 keys, asks for one entry, and its neighbour has at least 127 |
| DeleteSteps.LeaveConcludes | database/src/impl/b-tree/b-tree.cpp:555-556 | a page that does nothing is still well formed; an underflown only child makes the report a failure |
| DeleteSpec.ConcludesAtRoot | database/src/impl/b-tree/b-tree.cpp:333-341 | when the root loses its last separator its child is the whole tree, named by the meta page, and the old root is not needed |
| DeleteShape.MendedLeft | database/src/impl/b-tree/b-tree.cpp:250-278 | how a page is mended when the left neighbour of its underflown child lends |
| DeleteShape.MendedRight | database/src/impl/b-tree/b-tree.cpp:279-306 | the same for the right neighbour, if the left one does not lend |
| DeleteShape.MendedJoin | database/src/impl/b-tree/b-tree.cpp:308-398 | and when neither lends: the child merges with its left neighbour, or with the right one if it is the first |
| DeleteShape.ShrunkBare | database/src/impl/b-tree/b-tree.cpp:333-341 | a root above two leaves that merge would be left without a separator if it did not give way to them |
| BTrees.BTree.DeleteAt | database/src/impl/b-tree/b-tree.cpp:231-557 | the subtree becomes exactly the tree of the deletion rules: at every page on the path what an underflown child borrows, from whom, or with whom it merges; it loses the key and nothing else, keeps its shape and minimum occupancy, and reports exactly whether it underflowed and whether it found the key; pins as before |
| BTrees.BTree.Delete | database/src/impl/b-tree/b-tree.cpp:226-229 | the contents lose the key; success exactly if it was there and no underflown only child was met; the tree is exactly that of the deletion rules, one level lower if and only if the root's two leaves became one |
| Orphans.OrphanExists | database/src/impl/b-tree/b-tree.cpp:555-556 | for every key, a store whose meta page names a well-formed tree of height 3 that holds just that key and whose deletion finds an underflown only child |
| Orphans.DeleteReportsFailure | database/src/impl/b-tree/b-tree.cpp:555-556 | opening such a file, finding the key and deleting it: the deletion reports failure and the contents are empty |
| Orphans.OrphansNeedHeight | database/src/impl/b-tree/b-tree.cpp:333-341 | between calls a tree needs three levels for a deletion to report wrongly, since a root above leaves collapses with its last separator |
| DeleteSpec.OrphansUnderLoneRoot | database/src/impl/b-tree/b-tree.cpp:474-485 | in a well-formed tree an underflown only child sits below a root with a single child |
| DeleteSpec.BranchesNeverOrphans | database/src/impl/b-tree/b-tree.cpp:555-556 | if every page on the path has two children or more, the report is right |
| LeafChain.ChainHoldsContents | database/src/impl/page/leaf_page.cpp:102-108 | right pointers from the leftmost leaf visit exactly the tree's leaves in order and end; their live keys ascend and are the map's domain |
| LeafChain.WalkUnique | database/src/impl/page/leaf_page.cpp:683-688 | the store determines the walk along the chain |
| BTrees.LeafOrder | database/src/impl/page/leaf_page.cpp:102-108 | the same for every tree between calls |
| BTrees.TreeHeight | database/src/impl/b-tree/b-tree.cpp:59-70 | between calls a tree is at most 9 levels high, single-child pages at the top included |
| Heights.FullPages | database/src/impl/page/internal_page.cpp:211-220 | a half-full subtree of height h has at least 128 to the power h - 1 pages |
| BTrees.Restart | database/src/impl/bufferpool/bufferpool.cpp:18-34 | after the pool is closed, a tree opened on the disk has the same contents, in a pool whose client never holds more than eleven pins |
| BTrees.Open | database/src/impl/b-tree/b-tree.cpp:8-41 | finds the tree the meta page names, or starts an empty one and names it |
| Runs.Serve | database/src/impl/server/server.cpp:217-256 | over every run of requests the contents are a map's and every search answers with the payload of that moment or not at all; each request takes one well-formed tree to the next by the insertion or deletion rules, and a search leaves it alone; each deletion succeeds exactly if its key is there and the tree it meets does not orphan it; no pin is left, and at most eleven are ever held |
| Runs.RepliesExact | database/src/impl/server/server.cpp:217-256 | over a run, a deletion that meets a root with two children or more replies exactly whether the key was there |
| Runs.LoneRootArises | database/src/impl/b-tree/b-tree.cpp:474-485 | over a run, a root with a single child comes from an earlier deletion that found it with two |
| Parsing.Parser.ParseQuery | client/src/impl/parser.cpp:11-138 | the loop computes the run of the state machine and ends, by twice the unread input plus one in the two states that may not consume |
| QueryWords.CommandSpelled | client/src/impl/parser.cpp:26-51 | a word is taken for a command exactly if it spells its name letter by letter, each in either case |
| QueryWords.NumberPlaces | client/src/impl/parser.cpp:66-91 | the key is the sum of its digits' place values |
| QueryGrammar.WordAccepted | client/src/impl/parser.cpp:24-51 | a word before a space and a key is accepted if and only if it spells a command in some mix of cases, and then with that command |
| QueryGrammar.FormAccepted | client/src/impl/parser.cpp:11-138 | every well-formed query text is valid and has its form's command, key and payloads |
| QueryGrammar.AcceptedIsForm | client/src/impl/parser.cpp:11-138 | every text the parser accepts is a well-formed query text with that meaning |
| QueryGrammar.ValidExactly | client/src/impl/parser.cpp:11-138 | the accepted language, both directions |
| QueryGrammar.PrintParses | client/src/impl/parser.cpp:11-138 | printing any query with quotes and backslashes escaped and parsing the text gives the query back |

## Left out

- Storage manager: file reads, writes and preallocation are a map from page numbers to pages that never fails; page numbers come from a counter below the largest signed 64-bit file offset. Error paths of failed reads and writes are not modelled.
- Server and client sockets, signal handling, request headers and their checksum; `Runs.Serve` covers the order of requests only.
- Raw page bytes: page headers, slot entries and internal arrays are typed fields; the tuple region of a leaf and the data of an overflow page are bytes. The magic number, page type and key of a tuple are read as typed values.
- Page pointers: a pointer into the pool is modelled by the page number, pinned while it is read or written; an edited page is written back as a whole when the step that edits it ends.
- `left_pid`: leaf splits and merges write it as in the source, but the code keeps no coherent property for it (a split does not update the old right neighbour), so none is stated about a whole tree.
- Freed pages: a page absorbed by a merge is never reused, as in the source.
- BTrees.BTree.Insert: requires a new key, since the source relies on it without checking; that the file has room for the pages the call may allocate, since the source ignores allocation errors; and a payload whose length fits the 32-bit size field of the tuple header.
- BTrees.BTree.Delete: requires that nobody holds a pin on the root page, which a collapse releases clean.
- BufferPools.BufferPool.RequestPage: requires that the caller keeps to its own pin limit, which is a parameter of the pool and can be any number. Pin counts are unbounded in the model; the source's 16 bits are never exceeded by eleven pins.
- BufferPools.BufferPool.AllocateNewPage: requires a free or unpinned frame once 1000 pins are held; what happens without one is stated for `RequestPage`.
- BufferPools.BufferPool.ReleasePage: requires that a resident page is released only while somebody has it pinned; the source would wrap the unsigned pin count.
- LeafPages.LeafPage.WriteChunkLeaf: requires a key that is not live on the page, as `Insert` does.
- InternalPages.InternalPage.GetLeftSibling: the separate error codes for leaf and internal siblings are one code.
- Dump and print functions, test data generation, concurrency and crash recovery.
