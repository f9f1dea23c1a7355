/** Loading keys in ascending order: what it writes. */
module Loading {
  import opened Pages
  import opened Storage
  import opened Access
  import opened Levels
  import opened Stack
  import opened NodeOps
  import opened Trees
  import opened Inserting
  import opened Lookup
  import opened Counting
  import opened BTree
  import opened Statistics
  import opened Sizing
  import opened Packing

  /** A key above all rows belongs into the last leaf, behind which there is none. */
  lemma LastLeaf(w: World, cap: int, S: seq<seq<Entry>>, root: int, key: int)
    requires Whole(w, cap, S, root) && key > LOW && forall i :: 0 <= i < |S[0]| ==> S[0][i].key < key
    ensures |S| > 1 && S[1] != [] && S[1][0].key <= key
    ensures var b := At(w.m, Pick(S[1], key).val); b.Leaf? && b.next == 0
  {
    hide Whole;
    hide Rank;
    RootLevel(w, cap, S, root);
    LevelAt(w, cap, S, root, 1);
    LevelDistinct(w, 1, S[0], S[1]);
    hide Level;
    forall i | 0 <= i < |S[1]| ensures S[1][i].key < key { KeysBelow(w, cap, S, root, key, 1, i); }
    RankUnique(S[1], key, |S[1]|);
    LinksAre(w, cap, S, root, |S[1]| - 1);
  }

  /** A key above all rows is not stored and goes to the end of the list. */
  lemma AddsLast(rows: seq<Entry>, i: nat)
    requires Sorted(rows) && i < |rows|
    ensures rows[i].key !in ToMap(rows[..i])
    ensures InsertAt(rows[..i], Rank(rows[..i], rows[i].key), rows[i]) == rows[..i + 1]
  {
    var r := rows[..i];
    ToMapFinds(r, rows[i].key);
    RankUnique(r, rows[i].key, i);
    assert rows[..i + 1] == r + [rows[i]];
  }

  /** Loading rows in ascending order into a fresh tree without a pool leaves every page but the last of its
      level half full, so that the number of rows determines the whole shape.  It merges nothing, and takes
      one page write per row, two per split, one per new root, and two to begin with; no leaf is linked
      anew. */
  method LoadAscending(rows: seq<Entry>, pm: PageManager, cap: nat, keySize: nat)
    returns (t: BPlusTree, st: TreeStats)
    requires OddCapacity(cap) && pm.nextPageID == 0 && Sorted(rows)
    requires forall i :: 0 <= i < |rows| ==> LOW < rows[i].key < TOP
    modifies pm
    ensures t.Valid() && t.Rows() == rows && st.height == t.Height() && st.totalPages == Total(t.S)
    ensures AllPacked(t.S, cap) && st.leafPages == PagesFor(|rows|, cap / 2, cap)
    ensures st.totalPages == st.leafPages + PagesAbove(st.leafPages, cap)
    ensures st.height == 1 + LevelsAbove(st.leafPages, cap)
    ensures st.pageMerges == 0 && st.pageSplits == st.totalPages - st.height && st.totalEntries == |rows|
    ensures st.pageWrites == old(pm.pageWrites) + |rows| + 2 * st.pageSplits + st.height + 1
  {
    hide Whole;
    hide PageAccess.Valid;
    hide ToMap;
    hide Rank;
    hide InsertAt;
    hide Total;
    hide AllPacked;
    hide Climbs;
    t := new BPlusTree(pm, null, cap, true, keySize);
    RootLevel(t.W(), cap, t.S, t.rootID);
    StartsPacked(t.S, cap);
    for i := 0 to |rows|
      invariant t.Valid() && t.Rows() == rows[..i] && t.Excess() == 0 && t.pageMerges == 0
      invariant t.io.pm == pm && t.io.pool == null && t.unique && fresh(t) && fresh(t.io) && fresh(t.io.pages)
      invariant t.cap == cap && AllPacked(t.S, cap)
      invariant pm.pageWrites == old(pm.pageWrites) + i + 2 * t.pageSplits + t.Height() + 1
    {
      AddsLast(rows, i);
      TreeRows(t.W(), cap, t.S, t.rootID);
      LastLeaf(t.W(), t.cap, t.S, t.rootID, rows[i].key);
      ghost var w, S, root := t.W(), t.S, t.rootID;
      var out := t.Insert(rows[i].key, rows[i].val);
      RootLevel(t.W(), cap, t.S, t.rootID);
      assert t.S[0] == S[0] + [rows[i]];
      StaysPacked(w, cap, S, root, rows[i].key, t.S);
    }
    assert rows[..|rows|] == rows;
    PackedShape(t.W(), cap, t.S, t.rootID);
    t.UnpooledOnDisk();
    st := Stats(t);
  }

  /** Two hundred thousand ascending keys of eight bytes make 2000 pages in three levels, by 1997 splits and
      203998 page writes. */
  lemma SequentialWorkload()
    ensures var leaves := PagesFor(200000, 203 / 2, 203);
            var pages, height := leaves + PagesAbove(leaves, 203), 1 + LevelsAbove(leaves, 203);
            && pages == 2000 && height == 3 && pages - height == 1997
            && 200000 + 2 * (pages - height) + height + 1 == 203998
  {
    assert PagesFor(200000, 101, 203) == 1980;
    assert PagesFor(1980, 102, 204) == 19 && PagesFor(19, 102, 204) == 1;
    assert PagesAbove(19, 203) == 1 && LevelsAbove(19, 203) == 1;
  }
}
