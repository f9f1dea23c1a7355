/** An index of the rows that are active: every key appears at most once. */
module Partial {
  import opened Pages
  import opened Levels
  import opened Lookup
  import opened Cousins
  import opened BTree

  datatype Status = Deleted | Active

  datatype Row = Row(key: int, recordID: int, status: Status)

  /** What becomes of key k when a row is reported: the row decides if it is its own key, and else all
      stays as it was. */
  ghost predicate Reconciled(before: map<int, int>, after: map<int, int>, row: Row, k: int) {
    if k != row.key then (k in after <==> k in before) && (k in before ==> after[k] == before[k])
    else if row.status == Active then k in after && after[k] == row.recordID
    else k !in after
  }

  /** The last report of key k, if there was one. */
  ghost predicate IsLast(rows: seq<Row>, k: int, i: int) {
    0 <= i < |rows| && rows[i].key == k && forall j :: i < j < |rows| ==> rows[j].key != k
  }

  /** An index that started as before answers for k as the last report of k says, and as before without
      one. */
  ghost predicate Follows(before: map<int, int>, after: map<int, int>, rows: seq<Row>, k: int) {
    && (forall i :: IsLast(rows, k, i) ==> Reconciled(before, after, rows[i], k))
    && ((forall i :: 0 <= i < |rows| ==> rows[i].key != k) ==>
          (k in after <==> k in before) && (k in before ==> after[k] == before[k]))
  }

  lemma OneMoreReport(before: map<int, int>, middle: map<int, int>, after: map<int, int>, rows: seq<Row>, n: nat,
                      k: int)
    requires n < |rows| && Follows(before, middle, rows[..n], k) && Reconciled(middle, after, rows[n], k)
    ensures Follows(before, after, rows[..n + 1], k)
  {
    var short, long := rows[..n], rows[..n + 1];
    forall i | IsLast(long, k, i) ensures Reconciled(before, after, long[i], k) {
      if i < n {
        assert long[n].key != k;
        assert forall j :: i < j < n ==> short[j] == long[j];
        assert IsLast(short, k, i);
      }
    }
    if forall i :: 0 <= i < n + 1 ==> long[i].key != k {
      assert long[n].key != k;
      assert forall i :: 0 <= i < n ==> short[i] == long[i];
    }
  }

  class PartialIndex {
    const tree: BPlusTree

    constructor (tree: BPlusTree)
      ensures this.tree == tree
    {
      this.tree := tree;
    }

    /** Reconciles the index with the status of a row: a new entry, a replaced one, a removed one, or
        nothing.  A deletion must be one that the tree can repair. */
    method Upsert(row: Row)
      requires tree.Valid() && LOW < row.key < TOP
      requires row.key in tree.Contents() ==> Deletable(tree.io.model, tree.cap, tree.S, row.key, tree.keySize)
      modifies tree, tree.io, tree.io.pm, tree.io.pool, tree.io.pages
      ensures tree.Valid() && tree.Excess() == old(tree.Excess())
      ensures row.status == Active ==>
        row.key in tree.Contents() && tree.Contents()[row.key] == row.recordID
      ensures row.status != Active ==> row.key !in tree.Contents()
      ensures forall k :: k != row.key ==> (k in tree.Contents() <==> k in old(tree.Contents()))
      ensures forall k :: k != row.key && k in tree.Contents() ==> tree.Contents()[k] == old(tree.Contents())[k]
      ensures fresh(tree.io.pages - old(tree.io.pages)) && old(tree.io.pages) <= tree.io.pages
    {
      hide BPlusTree.Valid;
      hide BPlusTree.Excess;
      hide BPlusTree.Climbed;
      hide BPlusTree.InPlace;
      hide BPlusTree.ByPreference;
      hide ToMap;
      hide Deletable;
      hide BPlusTree.Ruined;
      hide Stores;
      hide RemoveAt;
      hide InsertAt;
      hide Rank;
      var rec, alreadyIndexed := tree.Search(row.key);
      if row.status == Active && !alreadyIndexed {
        var out := tree.Insert(row.key, row.recordID);
      } else if row.status == Active {
        var out := tree.Delete(row.key);
        out := tree.Insert(row.key, row.recordID);
      } else if alreadyIndexed {
        var out := tree.Delete(row.key);
      }
    }

    method Search(key: int) returns (recordID: int, found: bool)
      requires tree.Valid() && LOW < key < TOP
      modifies tree.io`pages, tree.io.pm`pageReads, tree.io.pm`pageWrites, tree.io.pm`disk, tree.io.pool
      ensures tree.Valid() && (found <==> key in tree.Contents())
      ensures recordID == if found then tree.Contents()[key] else 0
    {
      recordID, found := tree.Search(key);
    }

    /** Reports rows one after the other, up to the first whose entry the tree cannot delete.  In a tree of
        height at most 2 there is none. */
    method UpsertAll(rows: seq<Row>) returns (n: nat)
      requires tree.Valid() && forall i :: 0 <= i < |rows| ==> LOW < rows[i].key < TOP
      modifies tree, tree.io, tree.io.pm, tree.io.pool, tree.io.pages
      ensures tree.Valid() && n <= |rows|
      ensures forall k :: Follows(old(tree.Contents()), tree.Contents(), rows[..n], k)
      ensures n < |rows| ==>
        && rows[n].key in tree.Contents() && tree.Height() > 2
        && !Deletable(tree.io.model, tree.cap, tree.S, rows[n].key, tree.keySize)
      ensures fresh(tree.io.pages - old(tree.io.pages))
    {
      hide BPlusTree.Valid;
      hide BPlusTree.Excess;
      hide ToMap;
      hide Deletable;
      hide Follows;
      ghost var before := tree.Contents();
      NothingReported(before, rows);
      n := 0;
      while n < |rows|
        invariant tree.Valid() && 0 <= n <= |rows|
        invariant forall k :: Follows(before, tree.Contents(), rows[..n], k)
        invariant fresh(tree.io.pages - old(tree.io.pages)) && old(tree.io.pages) <= tree.io.pages
      {
        var safe := tree.CanDelete(rows[n].key);
        if !safe {
          return;
        }
        ghost var middle := tree.Contents();
        Upsert(rows[n]);
        ghost var now, sofar := tree.Contents(), rows[..n + 1];
        forall k ensures Follows(before, now, sofar, k) {
          OneMoreReport(before, middle, now, rows, n, k);
        }
        n := n + 1;
      }
    }

    /** After any run of reports on an empty index a key is found exactly if its last report was of an
        active row, with the RecordID of that report. */
    method SearchAfter(rows: seq<Row>, key: int) returns (n: nat, recordID: int, found: bool)
      requires tree.Valid() && tree.Contents() == map[] && LOW < key < TOP
      requires forall i :: 0 <= i < |rows| ==> LOW < rows[i].key < TOP
      modifies tree, tree.io, tree.io.pm, tree.io.pool, tree.io.pages
      ensures n <= |rows| && (n < |rows| ==> tree.Height() > 2)
      ensures forall i :: IsLast(rows[..n], key, i) ==>
        && (found <==> rows[i].status == Active)
        && recordID == if rows[i].status == Active then rows[i].recordID else 0
      ensures (forall i :: 0 <= i < n ==> rows[i].key != key) ==> !found && recordID == 0
    {
      hide BPlusTree.Valid;
      hide ToMap;
      hide Deletable;
      n := UpsertAll(rows);
      assert Follows(map[], tree.Contents(), rows[..n], key);
      recordID, found := Search(key);
    }
  }

  lemma NothingReported(index: map<int, int>, rows: seq<Row>)
    ensures forall k :: Follows(index, index, rows[..0], k)
  {
  }
}
