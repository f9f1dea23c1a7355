/** The shape of the tree as its breadth-first walk reports it. */
module Statistics {
  import opened Pages
  import opened Levels
  import opened Stack
  import opened Trees
  import opened Lookup
  import opened Access
  import opened Counting
  import opened BTree

  datatype TreeStats = TreeStats(
    height: nat, totalPages: nat, leafPages: nat, internalPages: nat, totalEntries: nat,
    pageSplits: nat, pageMerges: nat, pageReads: nat, pageWrites: nat)

  /** The ids of the children of an internal page, in order. */
  method ChildPageIDs(b: Body) returns (ids: seq<int>)
    requires b.Inner?
    ensures |ids| == |b.entries| + 1
    ensures forall low, i :: 0 <= i < |ids| ==> ids[i] == Chunk(low, b)[i].val
  {
    ids := [b.leftmost];
    for i := 0 to |b.entries|
      invariant |ids| == i + 1 && ids[0] == b.leftmost
      invariant forall j :: 0 <= j < i ==> ids[j + 1] == b.entries[j].val
    {
      ids := ids + [b.entries[i].val];
    }
    forall low, i | 0 <= i < |ids| ensures ids[i] == Chunk(low, b)[i].val {
      if i > 0 { assert ids[i - 1 + 1] == b.entries[i - 1].val; }
    }
  }

  /** The pages bs are those of the first n items of D. */
  ghost predicate Fetched(m: map<int, Body>, D: seq<Entry>, n: nat, bs: seq<Body>) {
    |bs| == n <= |D| && forall i :: 0 <= i < n ==> bs[i] == At(m, D[i].val)
  }

  /** How many items of the level below come before those of item i. */
  ghost function Offset(m: map<int, Body>, U: seq<Entry>, i: nat): nat
    requires i <= |U|
  {
    |Cat(m, U[..i])|
  }

  lemma OffsetEnds(w: World, k: nat, D: seq<Entry>, U: seq<Entry>)
    requires Level(w, k, D, U)
    ensures Offset(w.m, U, 0) == 0 && Offset(w.m, U, |U|) == |D|
  {
    hide Seg;
    assert U[..0] == [] && Cat(w.m, []) == [] && U[..|U|] == U;
  }

  /** Where the items below item i of a level lie. */
  lemma ItemSpan(w: World, k: nat, D: seq<Entry>, U: seq<Entry>, i: nat)
    requires Level(w, k, D, U) && i < |U|
    ensures Here(w, k, U[i])
    ensures var a, c := Offset(w.m, U, i), Chunk(U[i].key, At(w.m, U[i].val));
            && Offset(w.m, U, i + 1) == a + |c| <= |D| && D[a..a + |c|] == c
  {
    hide Seg;
    LevelDistinct(w, k, D, U);
    hide Level;
    var c := Chunk(U[i].key, At(w.m, U[i].val));
    assert U[..i + 1] == U[..i] + [U[i]] && U == U[..i + 1] + U[i + 1..];
    CatConcat(w.m, U[..i], [U[i]]);
    CatConcat(w.m, U[..i + 1], U[i + 1..]);
    CatOne(w.m, U[i]);
    assert D == Cat(w.m, U[..i]) + c + Cat(w.m, U[i + 1..]);
  }

  method ReadChildren(t: BPlusTree, b: Body, ghost low: int) returns (bs: seq<Body>)
    requires t.Valid() && t.OnDisk() && b.Inner?
    requires forall i :: 0 <= i < |Chunk(low, b)| ==>
      Chunk(low, b)[i].val in t.tag && Chunk(low, b)[i].val in t.io.model
    modifies t.io.pm`pageReads
    ensures t.Valid() && t.OnDisk()
    ensures |bs| == |Chunk(low, b)| && forall i :: 0 <= i < |bs| ==> bs[i] == At(t.io.model, Chunk(low, b)[i].val)
  {
    hide Whole;
    hide PageAccess.Valid;
    var ids := ChildPageIDs(b);
    bs := [];
    for i := 0 to |ids|
      invariant t.Valid() && t.OnDisk()
      invariant |bs| == i && forall j :: 0 <= j < i ==> bs[j] == At(t.io.model, Chunk(low, b)[j].val)
    {
      assert ids[i] == Chunk(low, b)[i].val;
      var child := t.io.ReadDisk(ids[i]);
      bs := bs + [child];
    }
  }

  /** Reads the children of item i of level k. */
  method Expand(t: BPlusTree, b: Body, ghost k: nat, ghost i: nat) returns (children: seq<Body>)
    requires t.Valid() && t.OnDisk() && 1 < k < |t.S| && i < |t.S[k]| && b == At(t.io.model, t.S[k][i].val)
    modifies t.io.pm`pageReads
    ensures t.Valid() && t.OnDisk()
    ensures var a := Offset(t.io.model, t.S[k], i);
            && a + |children| == Offset(t.io.model, t.S[k], i + 1) <= |t.S[k - 1]|
            && forall j :: 0 <= j < |children| ==> children[j] == At(t.io.model, t.S[k - 1][a + j].val)
  {
    hide Whole;
    hide PageAccess.Valid;
    hide Chunk;
    hide Offset;
    ghost var w, D, U := t.W(), t.S[k - 1], t.S[k];
    LevelAt(w, t.cap, t.S, t.rootID, k);
    LevelAt(w, t.cap, t.S, t.rootID, k - 1);
    hide Level;
    ItemSpan(w, k, D, U, i);
    ghost var a, c := Offset(w.m, U, i), Chunk(U[i].key, b);
    SpanLive(w, k - 1, t.S[k - 2], D, a, c);
    children := ReadChildren(t, b, U[i].key);
  }

  /** Visits the pages of one level and reads those of the next. */
  method WalkLevel(t: BPlusTree, level: seq<Body>, ghost k: nat)
    returns (next: seq<Body>, leaves: nat, internals: nat, entries: nat)
    requires t.Valid() && t.OnDisk() && 1 <= k < |t.S| && Fetched(t.io.model, t.S[k], |t.S[k]|, level)
    modifies t.io.pm`pageReads
    ensures t.Valid() && t.OnDisk() && leaves + internals == |level|
    ensures k > 1 ==> Fetched(t.io.model, t.S[k - 1], |t.S[k - 1]|, next) && leaves == 0 && entries == 0
    ensures k == 1 ==> next == [] && internals == 0 && entries == |t.S[0]|
  {
    hide Whole;
    hide PageAccess.Valid;
    hide Offset;
    hide BPlusTree.OnDisk;
    ghost var D, U, m := t.S[k - 1], t.S[k], t.io.model;
    LevelCounts(t.W(), t.cap, t.S, t.rootID, k);
    next, leaves, internals, entries := [], 0, 0, 0;
    for i := 0 to |level|
      invariant t.Valid() && t.OnDisk() && leaves + internals == i
      invariant k > 1 ==> |next| == Offset(m, U, i) && Fetched(m, D, |next|, next) && leaves == 0 && entries == 0
      invariant k == 1 ==> next == [] && internals == 0 && entries == Offset(m, U, i)
    {
      var b := level[i];
      if b.Leaf? {
        entries := entries + |b.entries|;
        leaves := leaves + 1;
      } else {
        internals := internals + 1;
        var children := Expand(t, b, k, i);
        next := next + children;
      }
    }
  }

  /** The pages of a level are all leaves or all internal, and the entries of leaves add up. */
  lemma LevelCounts(w: World, cap: int, S: seq<seq<Entry>>, root: int, k: nat)
    requires Whole(w, cap, S, root) && 1 <= k < |S|
    ensures Offset(w.m, S[k], 0) == 0 && Offset(w.m, S[k], |S[k]|) == |S[k - 1]|
    ensures forall i :: 0 <= i < |S[k]| ==> KindOf(k, At(w.m, S[k][i].val))
    ensures k == 1 ==> forall i :: 0 <= i < |S[1]| ==>
      Offset(w.m, S[1], i + 1) == Offset(w.m, S[1], i) + |Entries(At(w.m, S[1][i].val))|
  {
    LevelAt(w, cap, S, root, k);
    hide Whole;
    OffsetEnds(w, k, S[k - 1], S[k]);
    hide Offset;
    hide Level;
    forall i | 0 <= i < |S[k]|
      ensures KindOf(k, At(w.m, S[k][i].val))
      ensures k == 1 ==> Offset(w.m, S[1], i + 1) == Offset(w.m, S[1], i) + |Entries(At(w.m, S[1][i].val))|
    {
      ItemSpan(w, k, S[k - 1], S[k], i);
    }
  }

  lemma LevelAt(w: World, cap: int, S: seq<seq<Entry>>, root: int, k: nat)
    requires Whole(w, cap, S, root) && 1 <= k < |S|
    ensures Level(w, k, S[k - 1], S[k]) && S[k] != []
  {
    hide Whole;
    hide Seg;
    hide Cat;
    LevelOf(w, cap, S, root, k);
  }

  /** The items of a stretch of a level are live pages. */
  lemma SpanLive(w: World, k: nat, D: seq<Entry>, U: seq<Entry>, a: nat, c: seq<Entry>)
    requires Level(w, k, D, U) && a + |c| <= |U| && U[a..a + |c|] == c
    ensures forall j :: 0 <= j < |c| ==> c[j] == U[a + j] && c[j].val in w.tag && c[j].val in w.m
  {
    LevelDistinct(w, k, D, U);
    hide Level;
    forall j | 0 <= j < |c| ensures c[j] == U[a + j] && c[j].val in w.tag && c[j].val in w.m {
      assert U[a..a + |c|][j] == U[a + j];
      assert Here(w, k, U[a + j]);
    }
  }

  method ReadRoot(t: BPlusTree) returns (b: Body)
    requires t.Valid() && t.OnDisk()
    modifies t.io.pm`pageReads
    ensures t.Valid() && t.OnDisk() && |t.S| >= 2 && Fetched(t.io.model, t.S[|t.S| - 1], |t.S[|t.S| - 1]|, [b])
  {
    hide Whole;
    hide PageAccess.Valid;
    RootLevel(t.W(), t.cap, t.S, t.rootID);
    b := t.io.ReadDisk(t.rootID);
  }

  /** Walks the tree level by level.  The page count obeys the law of conservation: every run that
      starts from an empty tree has Excess() == 0. */
  method Stats(t: BPlusTree) returns (st: TreeStats)
    requires t.Valid() && t.OnDisk()
    modifies t.io.pm`pageReads
    ensures t.Valid() && t.OnDisk()
    ensures st.height == t.Height() && st.totalEntries == |t.Rows()|
    ensures st.totalPages == Total(t.S) == st.leafPages + st.internalPages && st.leafPages == |t.S[1]|
    ensures st.totalPages - t.Excess() == st.pageSplits - st.pageMerges + st.height
    ensures st.pageSplits == t.pageSplits && st.pageMerges == t.pageMerges
    ensures st.pageReads == old(t.io.pm.pageReads) && st.pageWrites == t.io.pm.pageWrites
  {
    hide Whole;
    hide BPlusTree.Sound;
    hide Level;
    ghost var S, k := t.S, |t.S| - 1;
    RootLevel(t.W(), t.cap, S, t.rootID);
    st := TreeStats(0, 0, 0, 0, 0, t.pageSplits, t.pageMerges, t.io.pm.pageReads, t.io.pm.pageWrites);
    var root := ReadRoot(t);
    var level := [root];
    assert S[..|S|] == S;
    while level != []
      invariant t.Valid() && t.OnDisk() && 0 <= k < |S| && st.height == |S| - 1 - k
      invariant k >= 1 ==> Fetched(t.io.model, S[k], |S[k]|, level) && st.leafPages == 0 && st.totalEntries == 0
      invariant k == 0 ==> level == [] && st.leafPages == |S[1]| && st.totalEntries == |S[0]|
      invariant st.totalPages == Total(S) - Total(S[..k + 1]) == st.leafPages + st.internalPages
      invariant st.pageSplits == t.pageSplits && st.pageMerges == t.pageMerges
      invariant st.pageReads == old(t.io.pm.pageReads) && st.pageWrites == t.io.pm.pageWrites
      decreases k
    {
      LevelAt(t.W(), t.cap, S, t.rootID, k);
      var next, leaves, internals, entries := WalkLevel(t, level, k);
      assert S[..k + 1][..k] == S[..k];
      st := st.(height := st.height + 1, totalPages := st.totalPages + |level|,
                leafPages := st.leafPages + leaves, internalPages := st.internalPages + internals,
                totalEntries := st.totalEntries + entries);
      level := next;
      k := k - 1;
    }
    if k >= 1 { LevelAt(t.W(), t.cap, S, t.rootID, k); }
  }

  lemma RootLevel(w: World, cap: int, S: seq<seq<Entry>>, root: int)
    requires Whole(w, cap, S, root)
    ensures |S| >= 2 && S[|S| - 1] == [Entry(LOW, root)] && root in w.tag && root in w.m
  {
    hide Good;
    hide Seg;
    hide Cat;
    LevelAt(w, cap, S, root, |S| - 1);
    LevelDistinct(w, |S| - 1, S[|S| - 2], S[|S| - 1]);
    hide Level;
    assert Here(w, |S| - 1, S[|S| - 1][0]);
  }
}
