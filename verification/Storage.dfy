/** The page file: a map from PageID to page contents, and a counter of allocated pages. */
module Storage {
  import opened Pages

  class PageManager {
    var disk: map<int, Body>
    var nextPageID: int
    var pageReads: nat
    var pageWrites: nat

    /** Opens an empty file. */
    constructor ()
      ensures disk == map[] && nextPageID == 0 && pageReads == 0 && pageWrites == 0
    {
      disk, nextPageID, pageReads, pageWrites := map[], 0, 0, 0;
    }

    /** Opens an existing file of pageCount pages. */
    constructor Open(disk: map<int, Body>, pageCount: int)
      requires forall id :: id in disk ==> id < pageCount
      ensures this.disk == disk && nextPageID == pageCount && pageReads == 0 && pageWrites == 0
    {
      this.disk, nextPageID, pageReads, pageWrites := disk, pageCount, 0, 0;
    }

    method SetNextPageID(id: int)
      modifies this`nextPageID
      ensures nextPageID == id
    {
      nextPageID := id;
    }

    /** Reserves the next PageID and returns a fresh empty leaf with it. */
    method AllocatePage() returns (p: Page)
      modifies this`nextPageID
      ensures fresh(p) && p.id == old(nextPageID) && p.body == Leaf(0, 0, [])
      ensures nextPageID == old(nextPageID) + 1
    {
      p := new Page(nextPageID, Leaf(0, 0, []));
      nextPageID := nextPageID + 1;
    }

    /** A fresh copy of the page on disk; null if it was never written. */
    method ReadPage(id: int) returns (p: Page?)
      modifies this`pageReads
      ensures pageReads == old(pageReads) + 1
      ensures p == null <==> id !in disk
      ensures p != null ==> fresh(p) && p.id == id && p.body == disk[id]
    {
      pageReads := pageReads + 1;
      if id in disk {
        p := new Page(id, disk[id]);
      } else {
        p := null;
      }
    }

    method WritePage(p: Page)
      modifies this`pageWrites, this`disk
      ensures pageWrites == old(pageWrites) + 1 && disk == old(disk)[p.id := p.body]
    {
      pageWrites := pageWrites + 1;
      disk := disk[p.id := p.body];
    }
  }
}
