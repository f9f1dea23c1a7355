/** The tree over pairs of columns. */
module Composite {
  import opened Pages
  import opened Storage
  import opened Access
  import opened Levels
  import opened Trees
  import opened Lookup
  import opened Scanning
  import opened Cousins
  import opened Codec
  import opened BTree
  import opened Sizing
  import opened PageSearch

  datatype Row = Row(columnA: int, columnB: int, recordID: int)

  /** The number that the encoding of the pair stands for. */
  function KeyOf(a: Int64, b: Int64): (k: int)
    ensures LOW < k < TOP && k == Value(EncodeCompositeKey(a, b))
  {
    (a + SIGN) * WORD + (b + SIGN)
  }

  /** The keys from (a, lo) to (a, hi) are those of pairs with first column a and second in between. */
  lemma KeysOfRange(a: Int64, lo: Int64, hi: Int64, key: int)
    requires KeyOf(a, lo) <= key <= KeyOf(a, hi)
    ensures key / WORD - SIGN == a && lo <= key % WORD - SIGN <= hi && key == KeyOf(a, key % WORD - SIGN)
  {
  }

  lemma KeysInRange(a: Int64, lo: Int64, hi: Int64, b: Int64)
    requires lo <= b <= hi
    ensures KeyOf(a, lo) <= KeyOf(a, b) <= KeyOf(a, hi)
    ensures KeyOf(a, b) % WORD - SIGN == b
  {
  }

  /** What the scan returns, as rows of the tree. */
  ghost predicate Decodes(rows: seq<Entry>, results: seq<Row>) {
    && |results| == |rows|
    && forall i :: 0 <= i < |rows| ==>
         results[i] == Row(rows[i].key / WORD - SIGN, rows[i].key % WORD - SIGN, rows[i].val)
  }

  /** Exactly the stored pairs with first column a and second from lo to hi, in ascending order. */
  ghost predicate Exact(contents: map<int, int>, a: Int64, lo: Int64, hi: Int64, results: seq<Row>) {
    && (forall i :: 0 <= i < |results| ==>
          && results[i].columnA == a && lo <= results[i].columnB <= hi
          && KeyOf(a, results[i].columnB) in contents
          && contents[KeyOf(a, results[i].columnB)] == results[i].recordID)
    && (forall i, j :: 0 <= i < j < |results| ==> results[i].columnB < results[j].columnB)
    && (forall b: Int64 :: lo <= b <= hi && KeyOf(a, b) in contents ==>
          exists i :: 0 <= i < |results| && results[i].columnB == b)
  }

  /** Every result is a stored pair of the range. */
  lemma ScanSound(rows: seq<Entry>, a: Int64, lo: Int64, hi: Int64, e: Entry)
    requires Sorted(rows) && lo <= hi && e in Range(rows, KeyOf(a, lo), KeyOf(a, hi)) && KeyOf(a, lo) <= KeyOf(a, hi)
    ensures e.key / WORD - SIGN == a && lo <= e.key % WORD - SIGN <= hi && e.key == KeyOf(a, e.key % WORD - SIGN)
    ensures e.key in ToMap(rows) && ToMap(rows)[e.key] == e.val
  {
    hide ToMap;
    hide KeyOf;
    hide Range;
    RangeExact(rows, KeyOf(a, lo), KeyOf(a, hi));
    KeysOfRange(a, lo, hi, e.key);
    ToMapFinds(rows, e.key);
  }

  /** Every stored pair of the range is a result. */
  lemma ScanComplete(rows: seq<Entry>, a: Int64, lo: Int64, hi: Int64, b: Int64) returns (i: nat)
    requires Sorted(rows) && lo <= b <= hi && KeyOf(a, b) in ToMap(rows)
    ensures var got := Range(rows, KeyOf(a, lo), KeyOf(a, hi)); i < |got| && got[i].key % WORD - SIGN == b
  {
    hide ToMap;
    hide KeyOf;
    hide Range;
    var got := Range(rows, KeyOf(a, lo), KeyOf(a, hi));
    KeysInRange(a, lo, hi, b);
    RangeExact(rows, KeyOf(a, lo), KeyOf(a, hi));
    ToMapFinds(rows, KeyOf(a, b));
    var j :| 0 <= j < |rows| && rows[j].key == KeyOf(a, b);
    assert rows[j] in got;
    i :| 0 <= i < |got| && got[i] == rows[j];
  }

  lemma ScanExact(rows: seq<Entry>, a: Int64, lo: Int64, hi: Int64, results: seq<Row>)
    requires Sorted(rows) && lo <= hi && Decodes(Range(rows, KeyOf(a, lo), KeyOf(a, hi)), results)
    ensures Exact(ToMap(rows), a, lo, hi, results)
  {
    hide ToMap;
    hide KeyOf;
    hide Range;
    KeysInRange(a, lo, hi, lo);
    var got := Range(rows, KeyOf(a, lo), KeyOf(a, hi));
    RangeExact(rows, KeyOf(a, lo), KeyOf(a, hi));
    forall i | 0 <= i < |got|
      ensures results[i].columnA == a && lo <= results[i].columnB <= hi && got[i].key == KeyOf(a, results[i].columnB)
      ensures got[i].key in ToMap(rows) && ToMap(rows)[got[i].key] == results[i].recordID
    {
      ScanSound(rows, a, lo, hi, got[i]);
    }
    forall i, j | 0 <= i < j < |results| ensures results[i].columnB < results[j].columnB {
      SecondColumns(a, results[i].columnB, results[j].columnB);
    }
    forall b: Int64 | lo <= b <= hi && KeyOf(a, b) in ToMap(rows)
      ensures exists i :: 0 <= i < |results| && results[i].columnB == b
    {
      var i := ScanComplete(rows, a, lo, hi, b);
      assert results[i].columnB == b;
    }
  }

  lemma SecondColumns(a: Int64, b: Int64, c: Int64)
    ensures KeyOf(a, b) < KeyOf(a, c) <==> b < c
  {
  }

  class CompositeBTree {
    const tree: BPlusTree

    ghost predicate Valid()
      reads this, tree, tree.io, tree.io.pm, tree.io.pool, tree.io.pages
    {
      tree.Valid() && !tree.unique && tree.keySize == 16 && tree.io.pool == null && Sized(tree.cap, tree.keySize)
    }

    /** Opens a brand-new file; entries of 24 bytes. */
    constructor (pm: PageManager)
      requires pm.nextPageID == 0
      modifies pm
      ensures Valid() && tree.Contents() == map[] && tree.cap == 145
    {
      Capacities();
      var t := OpenTree(pm, null, false, 16);
      tree := t;
    }

    method Insert(a: Int64, b: Int64, recordID: int)
      requires Valid() && KeyOf(a, b) !in tree.Contents()
      modifies tree, tree.io, tree.io.pm, tree.io.pool, tree.io.pages
      ensures Valid() && tree.Contents() == old(tree.Contents())[KeyOf(a, b) := recordID]
      ensures fresh(tree.io.pages - old(tree.io.pages))
    {
      hide BPlusTree.Valid;
      hide ToMap;
      var out := tree.Insert(KeyOf(a, b), recordID);
    }

    method Search(a: Int64, b: Int64) returns (recordID: int, found: bool)
      requires Valid()
      modifies tree.io`pages, tree.io.pm`pageReads, tree.io.pm`pageWrites, tree.io.pm`disk, tree.io.pool
      ensures Valid() && (found <==> KeyOf(a, b) in tree.Contents())
      ensures recordID == if found then tree.Contents()[KeyOf(a, b)] else 0
    {
      hide BPlusTree.Valid;
      hide ToMap;
      recordID, found := tree.Search(KeyOf(a, b));
    }

    /** Removes a pair.  The file is a tree for the remaining pairs afterwards exactly if the leaf needs
        no repair, or the repair uses a leaf under the same parent and merges none under a parent that
        cannot spare an entry and is not the root. */
    method Delete(a: Int64, b: Int64) returns (out: Outcome)
      requires Valid()
      modifies tree, tree.io, tree.io.pm, tree.io.pages
      ensures out == if KeyOf(a, b) in old(tree.Contents()) then Done else KeyNotFound
      ensures out == KeyNotFound ==> Valid() && tree.Contents() == old(tree.Contents())
      ensures out == Done ==>
        (old(Repairable(KeyOf(a, b))) <==>
         Stores(tree.io.pm.disk, tree.io.pm.nextPageID, tree.cap, tree.rootID, old(tree.Contents()) - {KeyOf(a, b)}))
      ensures out == Done && old(Repairable(KeyOf(a, b))) ==>
        Valid() && tree.Contents() == old(tree.Contents()) - {KeyOf(a, b)}
    {
      hide BPlusTree.Valid;
      hide PageAccess.Valid;
      hide ToMap;
      hide Deletable;
      hide Stores;
      hide RemoveAt;
      hide Rank;
      hide BPlusTree.Ruined;
      hide BPlusTree.Excess;
      out := tree.Delete(KeyOf(a, b));
    }

    /** Deleting key is safe in every respect. */
    ghost predicate Repairable(key: int)
      reads this, tree, tree.io
    {
      Deletable(tree.io.model, tree.cap, tree.S, key, 16)
    }

    /** The rows with the given first column and a second column from start to end. */
    method Scan(a: Int64, start: Int64, end: Int64) returns (results: seq<Row>, out: Outcome)
      requires Valid()
      modifies tree.io`pages, tree.io.pm`pageReads, tree.io.pm`pageWrites, tree.io.pm`disk, tree.io.pool
      ensures Valid() && out == if start > end then InvalidRange else Done
      ensures start > end ==> results == []
      ensures start <= end ==> Exact(tree.Contents(), a, start, end, results)
    {
      hide Whole;
      hide PageAccess.Valid;
      hide ToMap;
      hide Range;
      hide KeyOf;
      if start > end {
        return [], InvalidRange;
      }
      KeysInRange(a, start, end, start);
      var rows;
      rows, out := tree.Scan(KeyOf(a, start), KeyOf(a, end));
      results := [];
      for i := 0 to |rows|
        invariant Decodes(rows[..i], results)
      {
        results := results + [Row(rows[i].key / WORD - SIGN, rows[i].key % WORD - SIGN, rows[i].val)];
      }
      assert rows[..|rows|] == rows;
      RowsInOrder(tree.W(), tree.cap, tree.S, tree.rootID);
      ScanExact(tree.Rows(), a, start, end, results);
    }
  }
}
