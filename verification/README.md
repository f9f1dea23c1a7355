# index_lab, verified

A Dafny model of index_lab: a persistent B+ tree over 4096-byte slotted pages, the LRU write-back
buffer pool it may run behind, an append-only heap, and the composite and partial indexes built on the
tree. `dafny verify dfyconfig.toml` checks the whole project.

## How the model is laid out

- **Pages and storage.** `Pages` is a page as the tree edits it in place; `Storage` is the page file (a
  map from PageID to contents and an allocation counter). `SlottedPage` is the same page as an array of
  4096 bytes. `PageBytes` says what such bytes mean to the tree, for leaves and internal pages and both
  key sizes. `PageBytes`, `NodeBytes` and `PageSearch` carry out on the bytes every operation that the
  tree performs on a page (insert, delete, link, search, split, merge, redistribute) and show that they
  mean what the tree model says. `Images` proves which pages of the model are the meaning of some bytes,
  and `Sizing` that all pages of a tree of the right capacity are. `Codec` is the key encoding.
- **Buffer pool.** `Lru` describes the pool as a value machine, `Pool` is the class that works on page
  objects and refines it, `Caching` holds the theory over whole traces.
- **Access.** `PageAccess` is how the tree reads and writes pages, with or without a pool. It carries
  `model`, what a write-through store would hold, and `pending`, the pages edited in place but not
  written yet. No operation may read a pending page; the tree methods are verified under that
  discipline for a pooled and an unpooled tree at once.
- **Tree invariant.** `Levels`, `Stack` and `Trees` describe a tree as a stack of levels: level 0 is
  the sorted list of rows, level k lists the pages of height k with their lower bounds, and the pages of
  each level, laid side by side, cover the level below exactly. `Whole` is the invariant: strict order,
  separators bounding subtrees, all leaves at one depth, occupancy, and the leaf chain equal to the leaf
  level. `Shape` and `Recognition` prove this equivalent to the usual page-by-page reading from the
  root, so that nothing said about trees rests on ghost state.
- **Operations.** `NodeOps`, `Inserting`, `Lookup`, `Scanning`, `Shrinking`, `Repairing`, `Deleting`,
  `LeafRepair`, `Cousins` and `Truncation` are the theory; `Node` and `NodeMoves` are the operations on
  single pages; `BTree` is the tree itself. `Counting`, `Statistics`, `Bounds`, `Runs`, `Packing`,
  `Loading` and `Persistence` are about whole trees and whole runs. `Heap`, `Composite` and `Partial` are
  the remaining components.

Keys are modelled by rank: the number that their encoded bytes spell in big-endian order. `Codec` proves
that comparing encoded keys byte by byte is comparing ranks, that ranks of single and of composite keys
are ordered as the numbers and pairs they encode, and that decoding inverts encoding.

## Where the code departs from what it is meant to do

Each departure is modelled as the code has it, and the exact condition under which the code does the
right thing is proved.

- **Deleting next to a cousin.** An underflowing leaf is repaired with a neighbour of the leaf chain,
  not of its parent. If that neighbour has another parent, a reader finds no tree afterwards, pooled or
  not. In trees of height at most 2 this cannot happen; `ReachRuin` runs into it from a fresh tree by
  inserts and safe deletions, for every odd capacity from 5 to 4096.
- **Keys cut to eight bytes.** Internal repair takes the first eight bytes of a separator for the whole
  key. In a tree with composite keys the page being repaired gets an entry of another size than the
  rest, and a reader finds no tree afterwards. This happens exactly when a leaf is merged under a parent
  that is not the root and cannot spare an entry; `WideDeleteCanFail` is such a tree.
- Together: what `Delete` leaves is a tree for the remaining pairs if and only if `Deletable` holds
  before, that is, neither of the two happens; otherwise it is no tree at all. `CanDelete` computes that
  condition, for a key that is stored, by reading the leaf, its parent and its neighbours.
- **Even capacities.** Splitting a full internal page of even capacity leaves the right half one entry
  short (`InnerSplitNeedsOdd`). The two capacities in use, 203 and 145, are odd, and the tree is
  verified for every odd capacity from 5 up and for both key sizes.

## Model

| member | source | states |
|---|---|---|
| BTree.BPlusTree.constructor | internal/btree/btree.go:49-74 | a brand-new file becomes an empty valid tree of height 1 with page 0 naming the root and no split or merge counted, with or without a pool; without one this takes two page writes |
| BTree.BPlusTree.Reopen | internal/btree/btree.go:49-85 | opening a file that holds a tree takes the root from page 0 and yields that very tree, every page as it is on disk |
| Persistence.OpenAgain | internal/btree/btree.go:49-85 | after a sync, opening the file again, with or without a pool, gives a valid tree with the same rows, height and root |
| BTree.BPlusTree.FindLeafWithPath | internal/btree/btree.go:269-286 | reaches the one leaf responsible for the key, returns exactly the ancestors on the way, and accesses one page per level |
| BTree.BPlusTree.Search | internal/btree/btree.go:181-190 | finds the key exactly if the abstract map has it, with its RecordID, reading exactly height-many pages |
| BTree.BPlusTree.Insert | internal/btree/btree.go:130-178 | adds exactly (key, recordID) to the map and to its place in the row list, or reports a duplicate and changes no row; keeps the whole invariant through any cascade of splits; every level afterwards is determined page by page (full pages on the way split in half, from the leaf up); counts no merge, and as many splits as pages were allocated less the growth in height; without a pool writes one page, two per split, one per new root and one per relinked leaf |
| BTree.BPlusTree.PropagateSplit | internal/btree/btree.go:548-619 | from a tree whose only defect is one item missing above level g, climbing the ancestors restores the whole invariant, whether a page has room, every page splits, or a new root grows; rows are untouched, exactly the full pages on the way split, and splits are the pages allocated less the growth in height |
| BTree.BPlusTree.SplitUp | internal/btree/btree.go:582-618 | splitting the full page moves the single defect exactly one level up, with the item to be wired in being the new page, which is counted as one split; pages further up stay as they are |
| BTree.BPlusTree.GrowRoot | internal/btree/btree.go:548-568 | a split root gets a new internal root above it, page 0 names it, and the tree is whole again; one page is allocated, the height grows by one, and neither a split nor a merge is counted |
| BTree.BPlusTree.UpdateNextLeafPrevLink | internal/btree/btree.go:400-412 | changes the back link of the following leaf and no other page |
| BTree.BPlusTree.Scan | internal/btree/btree.go:199-241 | terminates and returns exactly the rows with start <= key <= end, in order; an inverted range is an error |
| Scanning.RangeExact | internal/btree/btree.go:199-241 | what Scan returns is strictly ascending and contains a row if and only if it is stored and in the range |
| BTree.BPlusTree.Delete | internal/btree/btree.go:244-266 | reports a missing key and changes nothing; otherwise what a reader finds is a tree for the map without the key if and only if the repair used a leaf under the same parent and cut no separator, and then exactly that row is gone, the merges counted are the pages dropped less the drop in height, and a short leaf was repaired by preference from the left, from the right, into the left, with the right; in every other case it is no tree; never counts a split or allocates a page |
| BTree.BPlusTree.FixLeafUnderflow | internal/btree/btree.go:289-319 | a leaf one entry short is repaired to a whole tree with the same rows if the chosen chain neighbour is a child of its parent and no wide separator gets cut, and then by preference: borrow left, borrow right, merge left, merge right; otherwise a reader finds no tree |
| BTree.BPlusTree.RedistributeLeafFromLeft | internal/btree/btree.go:322-336 | borrowing from the left mends the tree if the parent is shared; otherwise no tree is left |
| BTree.BPlusTree.RedistributeLeafFromRight | internal/btree/btree.go:339-353 | the same from the right |
| BTree.BPlusTree.MergeLeafWithLeft | internal/btree/btree.go:356-375 | merging into the left leaf, and repairing upward, mends the tree if the parent is shared and, with wide keys, does not underflow; otherwise no tree is left |
| BTree.BPlusTree.MergeLeafWithRight | internal/btree/btree.go:378-397 | merging the right leaf into this one, which only happens under one parent, and repairing upward mends the tree, unless keys are wide and the parent underflows |
| BTree.BPlusTree.FixInternalUnderflow | internal/btree/btree.go:415-460 | from a tree whole except for one internal page one entry short, or an empty root, the repair terminates; with eight-byte keys, or at the root, it leaves a whole tree with the same leaves and rows, by the same preference among its siblings, and with wider keys no tree |
| BTree.BPlusTree.FixRoot | internal/btree/btree.go:416-428 | an internal root without entries gives way to its only child; otherwise nothing but the write happens |
| BTree.BPlusTree.RedistributeInternalNodeFromLeft | internal/btree/btree.go:463-480 | with eight-byte keys, borrowing through the parent from the left sibling restores the whole tree |
| BTree.BPlusTree.RedistributeInternalNodeFromRight | internal/btree/btree.go:483-500 | the same from the right sibling |
| BTree.BPlusTree.MergeInternalWithLeft | internal/btree/btree.go:503-516 | with eight-byte keys, merging with the left sibling and finishing upward restores the whole tree |
| BTree.BPlusTree.MergeInternalWithRight | internal/btree/btree.go:519-532 | the same with the right sibling |
| BTree.BPlusTree.FinishInternalMerge | internal/btree/btree.go:535-545 | after a merge below, a page that still holds enough is written, any other is repaired; either way the tree is whole, unless a page other than the root underflows under wide keys |
| BTree.BPlusTree.FixWide | internal/btree/btree.go:429-532 | internal repair with keys wider than eight bytes: whichever sibling is used and however far the merges go up, a reader finds no tree |
| BTree.BPlusTree.FinishWide | internal/btree/btree.go:535-545 | once the page below is garbled, finishing, root shrink included, leaves no tree |
| Truncation.BorrowLeads | internal/btree/btree.go:463-500 | after a redistribution the parent still leads the walk for the key to the page that took the cut separator |
| Truncation.MergeLeads | internal/btree/btree.go:503-532 | after a merge the parent leads the walk for the key to the page that took the cut separator |
| BTree.BPlusTree.CanDelete | internal/btree/btree.go:295-318 | decides by reading pages, before a deletion, whether a tree will be left: always if the key is not stored or the height is at most 2, and otherwise if the code can repair the deletion |
| LeafRepair.LowTreesAreSafe | internal/btree/btree.go:295-318 | in every tree of height at most 2, with keys of any size, every deletion leaves a tree |
| Cousins.BadPage | internal/btree/btree.go:269-286 | pages whose walk for some key meets a page out of order or unreadable are no tree |
| Cousins.Misplaced | internal/btree/btree.go:269-286 | pages with a leaf that holds a key whose walk leads to another leaf are no tree |
| LeafRepair.CousinBorrows | internal/btree/btree.go:322-353 | borrowing from a leaf under another parent leaves no tree, whatever the leaves hold |
| Cousins.CousinLeft | internal/btree/btree.go:322-336 | borrowing from a left cousin appends to the parent an entry whose key is below the one before it, or overflows the page |
| Cousins.CousinRight | internal/btree/btree.go:339-353 | borrowing from a right cousin overwrites the parent's first entry with a key above its second |
| LeafRepair.CousinMerges | internal/btree/btree.go:356-375 | merging into a leaf under another parent leaves no tree, whatever a reader sees of the merged leaf itself |
| Counterexample.DeleteCanFail | internal/btree/btree.go:289-375 | for every odd capacity from 5 to 4096, a valid tree of height 3 and a key in it whose deletion repairs a leaf with its cousin |
| Counterexample.WideDeleteCanFail | internal/btree/btree.go:503-532 | in the same tree, another key whose deletion is repaired with eight-byte keys and not with sixteen-byte ones |
| Counterexample.DeleteRuins | internal/btree/btree.go:244-266 | opening that tree and deleting either key reports success and leaves no tree |
| Reaching.ReachRuin | internal/btree/btree.go:130-375 | for every such capacity, a run of inserts and repairable deletions on a fresh tree ends in a deletion that reports success and leaves no tree |
| Reaching.StartsUnsafe | internal/btree/btree.go:295-318 | in every tree of height at least 3, the rows of a minimal leaf that starts where its parent starts cannot be deleted safely once the leaf before it can spare an entry |
| Reaching.TallByCount | internal/btree/btree.go:548-568 | a tree with more than cap (cap + 1) rows has height at least 3 |
| BTree.BPlusTree.Sync | internal/btree/btree.go:111-116 | afterwards the disk alone holds every live page and the metadata page; the tree is unchanged |
| BTree.BPlusTree.SeenTree | internal/btree/btree.go:91-96 | what a reader of a valid tree finds, pooled or not, is a tree with exactly its contents |
| Shape.TreeIsProper | internal/btree/btree.go:130-178 | the invariant read from the root: uniform depth, strict order, separators bounding subtrees, occupancy at every page, and the rows are the entries of the leaves from left to right |
| Shape.ChainIsTheLeaves | internal/btree/btree.go:400-412 | following Next from the first leaf visits exactly the tree's leaves in key order and ends at 0; following Prev from the last visits the same backwards |
| Recognition.StoresIsReadable | internal/btree/btree.go:269-286 | pages are a tree with given contents if and only if, read from the root, they are proper at every page, reach no page twice, link the leaves in order and hold those rows |
| Recognition.NoTreeIsReadable | internal/btree/btree.go:269-286 | pages are no tree if and only if no such reading succeeds |
| Lookup.LeafAnswers | internal/btree/btree.go:269-286 | the leaf the descent reaches holds a key exactly if the tree does, with the same RecordID |
| Inserting.ClimbSplits | internal/btree/node.go:189-242 | dividing a full page and placing the pending item in the half its key selects keeps every level good and both halves at least half full |
| NodeOps.SplitGood | internal/btree/node.go:189-242 | splitting a full page of a good level leaves a good level: order, cover, chain and occupancy |
| Repairing.Borrow | internal/btree/node.go:105-127 | moving one entry between siblings and re-keying the parent mends a tree with one short page |
| Repairing.Join | internal/btree/node.go:134-154 | merging siblings and dropping the right one from the parent leaves a tree whose only possible defect is the parent |
| Deleting.RootShrinks | internal/btree/btree.go:415-428 | removing an internal root with a single child leaves a whole tree one level lower |
| Deleting.DropRow | internal/btree/btree.go:244-266 | removing the entry from its leaf removes exactly the row of that key and affects at most the size of that leaf |
| Node.FindChildPageID | internal/btree/node.go:26-44 | binary search selects the last child whose separator is at most the key |
| Node.FindKeyIndex | internal/btree/node.go:47-63 | binary search returns the first entry not below the key, and whether it is the key |
| Node.FindChildIndex | internal/btree/node.go:67-81 | the entry pointing at a child; the entry count for the leftmost child; index 0 and not found otherwise |
| Deleting.SiblingsAt | internal/btree/node.go:84-102 | in a page with distinct children, the siblings found for a child are the children just before and just after it, 0 at either end |
| Node.SplitLeaf | internal/btree/node.go:189-213 | the upper half moves to the new leaf, which is linked in behind; the separator is its first key |
| Node.SplitInner | internal/btree/node.go:216-242 | entries above the middle move out, the middle child becomes leftmost, the middle key goes up |
| Node.MergeLeaf | internal/btree/node.go:134-143 | the left leaf ends with all entries and the right one's Next; the right one is emptied |
| Node.MergeInner | internal/btree/node.go:146-154 | with eight-byte keys the left page ends with its entries, the separator over the right page's leftmost child, and the right page's entries; with wider keys it is unreadable |
| NodeMoves.RedistributeLeaves | internal/btree/node.go:105-127 | one entry crosses the border of two leaves and the right one's first key is returned |
| NodeMoves.RedistributeInners | internal/btree/node.go:157-186 | one child crosses the border of two internal pages, the old separator comes down and the moved key goes up; with wider keys the page that takes the cut separator is unreadable |
| NodeMoves.MergeUndoesSplit | internal/btree/node.go:134-242 | merging the halves of any split page with the promoted key gives back the page: entries, links, leftmost child |
| NodeMoves.ShiftKeepsOrder | internal/btree/node.go:105-186 | every redistribution keeps the in-order sequence left, separator, right |
| NodeMoves.InnerSplitNeedsOdd | internal/btree/node.go:216-242 | the right half of a full internal page holds MinEntries if and only if the capacity is odd |
| Statistics.Stats | internal/btree/stats.go:26-71 | the breadth-first walk reports the height, the leaves and pages of all levels and the size of the map, and both event counters; pages = splits - merges + height up to the conserved excess |
| Statistics.WalkLevel | internal/btree/stats.go:44-67 | visiting one level counts its pages and fetches exactly the pages of the level below, in order |
| Statistics.ChildPageIDs | internal/btree/stats.go:74-84 | the children in order, leftmost first |
| Runs.RunAndCount | internal/btree/stats.go:26-71 | over every run on a fresh tree, with or without a pool and for both key sizes: all answers are those of a sorted list, only deletions of stored keys that would leave no tree are refused, TotalPages = PageSplits - PageMerges + Height, and TotalEntries is the length of the list; splits are the pages ever allocated less the first leaf and the new roots, merges the pages gone again less the old roots, and a run without deletions reports no merge |
| Runs.Replay | internal/btree/btree.go:130-266 | every run of inserts, lookups, scans and deletions answers as a sorted list of pairs does, where the deletion of a stored key is refused exactly if the tree that held the list at that point could not repair itself; splits grow by the pages allocated less the steps up in height, and merges only by deletions |
| Runs.RefusedIsHigh | internal/btree/btree.go:295-318 | only a tree of height above 2 refuses a deletion, and only of a key it holds |
| Runs.CompareRuns | internal/btree/btree.go:91-108 | every run gives the same answers without a pool and behind a pool of any capacity, unless a deletion is refused; runs without deletions always do |
| Runs.Determined | internal/btree/btree.go:130-266 | the answers of runs that refuse nothing are determined by their operations |
| Bounds.HeightBound | internal/btree/btree.go:548-619 | a tree of height h >= 2 with half capacity m holds at least 2 m (m + 1)^(h - 2) rows; m = 101 for 8-byte keys |
| Loading.LoadAscending | FINDINGS.md:36-43 | loading any ascending rows into a fresh tree leaves every page but the last of its level exactly half full, so leaves, pages, height, splits and page writes are closed functions of the number of rows; nothing is merged |
| Loading.SequentialWorkload | FINDINGS.md:40 | for 200,000 rows of eight-byte keys these are 2,000 pages, height 3, 1,997 splits and 203,998 writes |
| Packing.StaysPacked | internal/btree/node.go:189-242 | a key above all rows keeps every level packed: only last pages fill up, and a full one leaves half its entries behind for good |
| Packing.PackedShape | internal/btree/stats.go:26-71 | the numbers of leaves, pages and levels of a packed tree follow from its number of rows |
| Inserting.ClimbsOn | internal/btree/btree.go:582-618 | one split and then the splits above it are the splits that the original pages call for |
| PageBytes.InsertEntry | internal/page/page.go:189-208 | bytes that mean a leaf or internal page mean that page with the entry inserted, if it has the right size and the page has room, and no page otherwise |
| PageBytes.DeleteEntry | internal/page/page.go:216-235 | bytes that mean a page mean that page without the entry; an index past the end changes nothing |
| PageBytes.SetLink | internal/page/page.go:100-123 | writing a link into the header changes that link in what the bytes mean, and nothing else |
| PageBytes.NewPage | internal/page/page.go:33-55 | the bytes of a new page mean an empty leaf, or an internal page with the given leftmost child |
| PageBytes.CountsAreBigEndian | internal/page/page.go:85-93 | the 16-bit numbers of header and slots are big-endian |
| Images.ImageIsFit | internal/page/page.go:176-208 | a leaf or internal page of the model is the meaning of some page of bytes if and only if its numbers are encodable and it has at most MaxEntries entries |
| Images.MetaHasImage | internal/page/page.go:57-73 | so is the metadata page, for every root that is a 64-bit PageID |
| Sizing.OpenTree | internal/btree/btree.go:49-74 | a tree opened for a key size has as capacity the number of its entries that fit a page |
| Sizing.PagesHaveImages | internal/page/page.go:176-208 | in every valid tree of that capacity with encodable rows, for both key sizes, every live page is the meaning of some page of bytes |
| Sizing.KeysBelow | internal/btree/btree.go:130-178 | every separator of a tree is at most some row, so separators are encodable whenever rows are |
| NodeBytes.SplitLeafBytes | internal/btree/node.go:189-213 | splitting a leaf on the bytes means splitting it in the tree model, for both key sizes |
| NodeBytes.SplitInnerBytes | internal/btree/node.go:216-242 | the same for internal pages |
| NodeBytes.MergeLeafBytes | internal/btree/node.go:134-143 | merging leaves on the bytes means merging them in the tree model |
| NodeBytes.MergeInnerBytes | internal/btree/node.go:146-154 | the same for internal pages; with sixteen-byte keys the cut separator leaves bytes that mean no page |
| NodeBytes.RedistributeLeafBytes | internal/btree/node.go:105-127 | borrowing between leaves on the bytes means borrowing in the tree model |
| NodeBytes.RedistributeInnerBytes | internal/btree/node.go:157-186 | the same for internal pages, with the cut separator and the child id read from the wrong bytes for sixteen-byte keys |
| Access.PageAccess.ReadPage | internal/btree/btree.go:91-96 | a page that has no unwritten edits reads as a write-through store would return it, pooled or not, and may be evicted at any time |
| Access.PageAccess.WritePage | internal/btree/btree.go:103-108 | makes the contents of the page what the store holds, and nothing else |
| Access.PageAccess.SeenIsModel | internal/btree/btree.go:91-108 | a reader finds every page without unwritten edits as it was last written, on disk or in the pool |
| Access.PageAccess.Edited | internal/btree/btree.go:91-108 | editing cached page objects in place disturbs no page that is not itself edited |
| SlottedPage.Page.constructor | internal/page/page.go:32-46 | a fresh page stands for no entries |
| SlottedPage.Page.InsertEntry | internal/page/page.go:189-208 | with room, insertion into the sequence of byte strings: page type and links stay, and no byte of an existing entry moves; without room, the slot array and the entry area collide and the bytes are no page |
| SlottedPage.Page.DeleteEntry | internal/page/page.go:216-235 | removal from the sequence of byte strings with full compaction; page type and links stay |
| SlottedPage.Page.GetEntry | internal/page/page.go:161-164 | the bytes of the entry the slot stands for |
| SlottedPage.InsertedMeans | internal/page/page.go:146-208 | slot shifting, copying and header updates together are sequence insertion, overwrite nothing and waste no byte |
| SlottedPage.RoomIsCount | internal/page/page.go:167-178 | on pages of equal-size entries HasSpaceFor holds if and only if the count is below MaxEntries |
| PageSearch.Capacities | internal/page/page.go:176-178 | MaxEntries is 203 for 16-byte and 145 for 24-byte entries, both odd |
| PageSearch.FindKeyIndex | internal/btree/node.go:47-63 | binary search by byte comparison over the raw page returns the rank of the key among the entries, for both key sizes |
| PageSearch.FindChildPageID | internal/btree/node.go:26-44 | binary search by byte comparison over the raw page selects the child the tree model descends into |
| PageSearch.FindChildIndex | internal/btree/node.go:67-81 | the linear search over the raw page finds the entry the tree model finds |
| PageSearch.Insert | internal/btree/tree.go:14-26 | on the bytes: full if and only if the page has MaxEntries rows, and otherwise the page gains the row at its place |
| PageSearch.Search | internal/btree/tree.go:29-38 | on the bytes: finds the key exactly if a row has it, with that row's RecordID |
| PageSearch.Delete | internal/btree/tree.go:41-49 | on the bytes: exactly the row of the key is removed, or nothing changes |
| Codec.EncodeInt64 | internal/btree/key.go:12-20 | eight bytes spelling n + 2^63 |
| Codec.Int64RoundTrip | internal/btree/key.go:12-26 | decoding inverts encoding |
| Codec.BytesRoundTrip | internal/btree/key.go:12-26 | encoding inverts decoding, for any eight bytes |
| Codec.CompareIsOrder | internal/btree/key.go:29-31 | byte comparison of strings of one length is the order of the numbers they spell |
| Codec.EncodingKeepsOrder | internal/btree/key.go:12-31 | byte comparison of encoded keys is int64 order |
| Codec.EncodeCompositeKey | internal/btree/key.go:37-41 | sixteen bytes spelling the pair in base 2^64 |
| Codec.CompositeRoundTrip | internal/btree/key.go:37-48 | decoding a composite key gives back both columns |
| Codec.CompositeKeepsOrder | internal/btree/key.go:29-41 | byte comparison of composite keys is the lexicographic order of the pairs |
| Pool.BufferPool.constructor | internal/buffer/pool.go:52-62 | an empty pool; a capacity below 1 becomes 1 |
| Pool.BufferPool.GetPage | internal/buffer/pool.go:66-85 | returns the cached page or a copy of the disk page and changes list, map, disk and counters as the machine says, reading the file once per miss and writing it once per flush; a missing page is an error |
| Pool.BufferPool.Put | internal/buffer/pool.go:92-108 | caches the page as most recent and dirty, evicting as the machine says |
| Pool.BufferPool.EvictIfNeeded | internal/buffer/pool.go:129-156 | a full pool drops its least recent page, writing it first if dirty |
| Pool.BufferPool.MarkDirty | internal/buffer/pool.go:114-124 | marks a cached page and nothing else, as the machine says |
| Lru.MarkedSurvives | internal/buffer/pool.go:110-156 | an edit in place that is marked is on disk after an eviction of the page, a flush or a sync, and no other page is touched |
| Lru.UnmarkedIsLost | internal/buffer/pool.go:110-124 | an edit that is not marked is on disk after a sync if and only if the page was dirty before |
| Pool.Modify | internal/buffer/pool.go:66-124 | fetching a page object, editing it in place and marking it is one step of the machine |
| Pool.BufferPool.FlushPage | internal/buffer/pool.go:162-177 | writes a dirty cached page and cleans it |
| Pool.BufferPool.Sync | internal/buffer/pool.go:181-197 | flushing page by page, in any order, is flushing them all |
| Lru.FlushOneMore | internal/buffer/pool.go:181-188 | flushing one more page extends the flushed set, so the order of flushes does not matter |
| Lru.GetWf | internal/buffer/pool.go:66-85 | map and list stay in bijection and within capacity |
| Lru.PutWf | internal/buffer/pool.go:92-108 | map and list stay in bijection and within capacity |
| Caching.RunSane | internal/buffer/pool.go:66-197 | over every trace at any capacity, with edits in place that are marked at once, the pool stands for the write-through store, clean pages equal the disk, and list and map stay in bijection within capacity |
| Caching.ReadsTransparent | internal/buffer/pool.go:66-197 | over every such trace GetPage returns what a write-through store would |
| Caching.SyncedDisk | internal/buffer/pool.go:181-197 | after a sync the disk equals the write-through store, marked edits included, and nothing is dirty |
| Caching.LruIsRecency | internal/buffer/pool.go:66-156 | the list of a pool is the unbounded move-to-front list cut off at the capacity |
| Caching.StackInclusion | internal/buffer/pool.go:66-156 | for one trace, the list of a smaller pool is a prefix of that of a larger one, its pages are among the larger one's, and it has no more hits |
| Caching.AmortisedWrites | internal/buffer/pool.go:66-177 | flushes plus dirty pages never exceed Put and MarkDirty calls, and hits plus misses are the GetPage calls |
| Caching.EvictionsExact | internal/buffer/pool.go:129-156 | over every trace evictions plus cached pages are the uses of pages that were not among the most recent ones |
| Storage.PageManager.AllocatePage | internal/storage/file.go:46-55 | hands out the next PageID with an empty leaf |
| Storage.PageManager.ReadPage | internal/storage/file.go:58-71 | a fresh copy of the page as last written |
| Heap.HeapFile.Put | internal/heap/heap.go:119-137 | issues a new RecordID for the row, made of page and slot: the next slot of the active page if that has room, and otherwise slot 0 of the next page; or rejects a row too large for a page and changes nothing |
| Heap.HeapFile.Get | internal/heap/heap.go:140-154 | returns the row of exactly the RecordIDs ever issued, and an error for every other number |
| Heap.Appended | internal/heap/heap.go:119-137 | appending a row to one page leaves every RecordID issued before leading to its row |
| Heap.PutAll | internal/heap/heap.go:119-154 | over every run of Puts the RecordIDs are those that the sizes of the rows assign by filling page after page, they are pairwise distinct, and each leads to its row at the end |
| Heap.EqualRows | internal/heap/heap.go:119-137 | rows of one size get consecutive RecordIDs as long as they fit the page |
| Heap.AssignedAscend | internal/heap/heap.go:119-137 | RecordIDs ascend over every run |
| Heap.PutSmall | internal/heap/heap.go:119-137 | on a new heap up to 815 rows of one byte get the RecordIDs 0, 1, 2 and so on |
| Composite.CompositeBTree.Insert | internal/btree/composite.go:50-88 | adds exactly the pair of columns with its RecordID, in a tree whose pages hold at most the 145 entries that fit |
| Composite.CompositeBTree.constructor | internal/btree/composite.go:13-42 | an empty valid tree whose capacity is the 145 entries of 24 bytes that fit a page |
| Composite.CompositeBTree.Search | internal/btree/composite.go:91-107 | finds the pair exactly if it was inserted |
| Composite.CompositeBTree.Delete | internal/btree/composite.go:110-130 | the file is a tree for the other pairs afterwards if and only if the repair of the leaf uses a leaf under the same parent and merges none under a parent that is not the root and cannot spare an entry |
| Composite.CompositeBTree.Scan | internal/btree/composite.go:149-191 | exactly the stored pairs with the given first column and second column in the range, ascending |
| Composite.ScanExact | internal/btree/composite.go:149-191 | a contiguous range of composite keys is exactly one first column with a range of second columns |
| Partial.PartialIndex.Upsert | internal/partial/partial.go:60-79 | an active row is indexed under its key with its RecordID, whether or not the key was there, and any other row is not; all other keys keep their entries |
| Partial.PartialIndex.UpsertAll | internal/partial/partial.go:57-85 | after any run of Upserts every key is as its last report says, and as before without one; the run stops only at a deletion that the tree cannot repair, which needs height above 2 |
| Partial.PartialIndex.SearchAfter | internal/partial/partial.go:81-85 | on an index that was empty before the run, Search finds a key exactly if its last report was of an active row, with the RecordID of that report |

## Left out

- BTree.BPlusTree.Insert: a tree that is not unique is covered only for keys it does not hold; the code gives no order guarantee for duplicates (a new equal separator goes before existing ones, a descent goes after them).
- Composite.CompositeBTree.Insert: the same, since composite trees are not unique.
- Statistics.Stats: covers an unpooled tree, or a pooled one right after Sync, because the walk reads past the pool.
- Statistics.Stats: ResetStats restarts the counters, after which pages and splits no longer balance; the model has no reset.
- Runs.CompareRuns: says nothing of runs in which one of the two trees refuses a deletion.
- SlottedPage.Page.InsertEntry: the index must be at most the entry count and the entry must not reach into the header, as every caller ensures; beyond that the 16-bit offsets would wrap.
- Composite.CompositeBTree.Scan: modelled through the tree's Scan instead of repeating its loop.
- Partial.PartialIndex.Upsert: replacing or removing an entry requires that the tree can repair the deletion, because nothing can be said of later operations on pages that are no tree.
- The heap behind a buffer pool: the heap is modelled over the file; the pool's own theory covers reads and writes of whole pages.
- Wrap-around of PageIDs, RecordIDs and 64-bit counters: all are unbounded integers; the 16-bit header fields of a page are proved to stay in range.
- I/O errors, fsync, torn writes and crashes: a page that was written can be read.
- The Option plumbing, Close, getters and ResetStats: nothing but assignments.
- internal/experiment and cmd/indexlab: key generation, timing and tables.
