/** Closing a tree and opening its file again gives the same tree. */
module Persistence {
  import opened Storage
  import opened Pool
  import opened Access
  import opened Levels
  import opened Trees
  import opened Lookup
  import opened BTree

  /** Opens the file that t leaves behind after a sync, with or without a pool. */
  method OpenAgain(t: BPlusTree, pageCount: int, poolCapacity: int, pooled: bool) returns (u: BPlusTree)
    requires t.Valid() && t.OnDisk() && forall id :: id in t.io.pm.disk ==> id < pageCount
    ensures u.Valid() && u.Rows() == t.Rows() && u.Height() == t.Height() && u.rootID == t.rootID
  {
    hide Whole;
    hide PageAccess.Valid;
    var pm := new PageManager.Open(t.io.pm.disk, pageCount);
    var pool: BufferPool? := null;
    if pooled {
      pool := new BufferPool(pm, poolCapacity);
    }
    ghost var tag := map id | id in t.tag && id in pm.disk :: t.tag[id];
    LiveIdsInRange(t.W(), t.cap, t.S, t.rootID);
    TreeMoves(t.W(), World(pm.disk, tag, pageCount), t.cap, t.S, t.rootID);
    u := new BPlusTree.Reopen(pm, pool, t.cap, t.unique, t.keySize, t.S, tag);
  }
}
