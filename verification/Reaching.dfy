/** A run of the code on a fresh tree that ends in a deletion it cannot repair. */
module Reaching {
  import opened Pages
  import opened Storage
  import opened Access
  import opened Levels
  import opened Stack
  import opened NodeOps
  import opened Trees
  import opened Inserting
  import opened Node
  import opened NodeMoves
  import opened Lookup
  import opened Repairing
  import opened Deleting
  import opened Cousins
  import opened LeafRepair
  import opened Truncation
  import opened Bounds
  import opened BTree

  // ---------------------------------------------------------------- low trees are small

  /** A run of pages covers at most cap items a leaf, cap + 1 an internal page. */
  lemma {:induction false} RunCoversAtMost(w: World, cap: nat, k: nat, U: seq<Entry>, hi: int, lo: int)
    requires k > 0 && Seg(w, k, U, hi) && Occupied(w.m, U, lo, cap, 0)
    ensures |Cat(w.m, U)| <= |U| * if k == 1 then cap else cap + 1
  {
    if U != [] {
      var T := U[1..];
      assert forall i :: 0 <= i < |T| ==> T[i] == U[i + 1];
      RunCoversAtMost(w, cap, k, T, hi, lo);
      assert Filled(w.m, U[0].val, lo, cap);
    }
  }

  lemma GoodCoversAtMost(w: World, cap: nat, k: nat, lo: int, D: seq<Entry>, U: seq<Entry>)
    requires k > 0 && Good(w, cap, k, lo, D, U, 0)
    ensures |D| <= |U| * if k == 1 then cap else cap + 1
  {
    hide Seg;
    hide Cat;
    hide Chain;
    RunCoversAtMost(w, cap, k, U, TOP, lo);
  }

  /** A tree with more than cap (cap + 1) rows has height at least 3. */
  lemma TallByCount(w: World, cap: nat, S: seq<seq<Entry>>, root: int)
    requires Whole(w, cap, S, root) && |S| > 0 && |S[0]| > cap * (cap + 1)
    ensures |S| > 3
  {
    hide Whole;
    hide Good;
    OneRoot(w, cap, S, root);
    LevelOf(w, cap, S, root, 1);
    GoodCoversAtMost(w, cap, 1, MinFor(1, |S| - 1, cap), S[0], S[1]);
    if |S| == 3 {
      LevelOf(w, cap, S, root, 2);
      GoodCoversAtMost(w, cap, 2, MinFor(2, |S| - 1, cap), S[1], S[2]);
      Product(|S[1]|, cap);
    }
  }

  lemma Product(x: nat, cap: nat)
    requires x <= cap + 1
    ensures x * cap <= cap * (cap + 1) && cap <= cap * (cap + 1)
  {
    assert (cap + 1 - x) * cap >= 0;
  }

  // ---------------------------------------------------------------- the first leaf of another subtree

  /** Level k has a page that starts at key. */
  ghost predicate Starts(S: seq<seq<Entry>>, k: nat, key: int) {
    k < |S| && exists i :: 0 <= i < |S[k]| && S[k][i].key == key
  }

  /** Below a page that starts at key is another one that does. */
  lemma StartsBelow(w: World, cap: int, S: seq<seq<Entry>>, root: int, k: nat, key: int)
    requires Whole(w, cap, S, root) && 1 < k < |S| && Starts(S, k, key)
    ensures Starts(S, k - 1, key)
  {
    hide Whole;
    hide Good;
    hide Cat;
    LevelOf(w, cap, S, root, k);
    var i :| 0 <= i < |S[k]| && S[k][i].key == key;
    ItemStarts(w, k, S[k - 1], S[k], i);
  }

  lemma {:induction false} StartsAll(w: World, cap: int, S: seq<seq<Entry>>, root: int, k: nat, key: int)
    requires Whole(w, cap, S, root) && 1 <= k < |S| && Starts(S, k, key)
    ensures forall j :: 1 <= j <= k ==> Starts(S, j, key)
  {
    hide Whole;
    hide Starts;
    if k > 1 {
      StartsBelow(w, cap, S, root, k, key);
      StartsAll(w, cap, S, root, k - 1, key);
    }
  }

  /** The first separator of the root of a tall tree starts a page at every level below. */
  lemma RootSeparator(w: World, cap: int, S: seq<seq<Entry>>, root: int)
    requires Whole(w, cap, S, root) && |S| > 3
    ensures root in w.m && root in w.tag && w.m[root].Inner? && w.m[root].entries != []
    ensures var key := w.m[root].entries[0].key; LOW < key < TOP && Starts(S, 1, key) && Starts(S, 2, key)
  {
    hide Good;
    hide Seg;
    hide Cat;
    var n := |S| - 1;
    LevelOf(w, cap, S, root, n);
    RootAlone(w, cap, S, root);
    RootHere(w, cap, n, MinFor(n, n, cap), S[n - 1], S[n], root);
    var c := Chunk(LOW, w.m[root]);
    assert S[n - 1] == c && c[1] == w.m[root].entries[0];
    assert Starts(S, n - 1, c[1].key);
    StartsAll(w, cap, S, root, n - 1, c[1].key);
  }

  lemma RootHere(w: World, cap: int, n: nat, lo: int, D: seq<Entry>, U: seq<Entry>, root: int)
    requires Good(w, cap, n, lo, D, U, 0) && n > 1 && U == [Entry(LOW, root)] && lo >= 1
    ensures root in w.m && root in w.tag && w.m[root].Inner? && w.m[root].entries != [] && D == Chunk(LOW, w.m[root])
    ensures LOW < w.m[root].entries[0].key < TOP
  {
    SegAt(w, n, U, TOP, 0);
    CatOne(w.m, U[0]);
    hide Seg;
    assert Filled(w.m, U[0].val, lo, cap);
    var c := Chunk(LOW, w.m[root]);
    assert c[0].key == LOW && c[1] == w.m[root].entries[0];
  }

  /** A leaf that starts where its parent does, of minimal size, after a leaf that can spare an entry: its
      deletions are repaired with that leaf, which has another parent. */
  lemma StartsUnsafe(w: World, cap: int, S: seq<seq<Entry>>, root: int, i: nat)
    requires Whole(w, cap, S, root) && |S| > 3 && 0 < i < |S[1]| && Starts(S, 2, S[1][i].key)
    requires var l, c := At(w.m, S[1][i].val), At(w.m, S[1][i - 1].val);
             |Entries(l)| == cap / 2 && |Entries(c)| > cap / 2
    ensures At(w.m, S[1][i].val).Leaf? && At(w.m, S[1][i].val).entries != []
    ensures !SafeToDelete(w.m, cap, S, At(w.m, S[1][i].val).entries[0].key)
  {
    hide Whole;
    hide Good;
    hide Rank;
    hide IsChild;
    WholeIsNearly(w, cap, S, root);
    LiveIdsInRange(w, cap, S, root);
    NearlyBasics(w, cap, S, root, 0);
    LevelOf(w, cap, S, root, 1);
    LeafNeighbours(w, cap, MinFor(1, |S| - 1, cap), S[0], S[1], i);
    LevelDistinct(w, 1, S[0], S[1]);
    hide Level;
    LeafKeys(w, cap, S, root, 0, i, 0);
    var q := At(w.m, S[1][i].val).entries[0].key;
    PickBounds(S[1], q, i);
    var i', o, parent, b := FindFamily(w, cap, S, root, 0, 1, q);
    FirstOfParent(w, cap, S, root, i, q, i', o, parent, b);
  }

  lemma LeafNeighbours(w: World, cap: int, lo: int, D: seq<Entry>, U: seq<Entry>, i: nat)
    requires Good(w, cap, 1, lo, D, U, 0) && 0 < i < |U|
    ensures At(w.m, U[i].val).Leaf? && At(w.m, U[i].val).prev == U[i - 1].val != 0
  {
    hide Seg;
    hide Cat;
    LevelDistinct(w, 1, D, U);
    hide Level;
    assert Here(w, 1, U[i - 1]);
  }

  lemma FirstOfParent(w: World, cap: int, S: seq<seq<Entry>>, root: int, i: nat, q: int, i': nat, o: nat,
                      parent: int, b: Body)
    requires Whole(w, cap, S, root) && |S| > 3 && 0 < i < |S[1]| && Starts(S, 2, S[1][i].key)
    requires Family(w, cap, S, 1, q, i', o, parent, b) && Relatives(w, S, 1, q, i', o, parent, b)
    requires LOW < q < TOP && S[1][i].key <= q && Pick(S[1], q) == S[1][i]
    ensures i' == i && !IsChild(b, S[1][i - 1].val)
    ensures S[2] != [] && S[2][0].key <= q && b == At(w.m, Pick(S[2], q).val)
  {
    hide Whole;
    hide Good;
    hide Level;
    hide Sorted;
    hide Rank;
    hide Chunk;
    hide IsChild;
    hide ChildIndex;
    hide LeftSibling;
    hide RightSibling;
    hide Seated;
    LevelOf(w, cap, S, root, 1);
    LevelOf(w, cap, S, root, 2);
    LevelDistinct(w, 1, S[0], S[1]);
    LevelDistinct(w, 2, S[1], S[2]);
    var x :| 0 <= x < |S[2]| && S[2][x].key == S[1][i].key;
    PickAtLeast(S[2], q, x);
    var low := Pick(S[2], q).key;
    var c := Chunk(low, b);
    ChunkAt(low, b, c);
    ChunkStarts(low, b);
    NamesAt(S[1], c, i', o);
    SliceAt(S[1], i' - o, c, 0);
    OnlyOffset(S[1], i, i', o);
  }

  lemma ChunkStarts(low: int, b: Body)
    requires b.Inner?
    ensures Chunk(low, b) != [] && Chunk(low, b)[0].key == low
  {
  }

  lemma PickAtLeast(U: seq<Entry>, key: int, x: nat)
    requires Sorted(U) && x < |U| && U[x].key <= key && U[0].key <= key
    ensures Pick(U, key).key >= U[x].key
  {
    RankBounds(U, key);
  }

  lemma OnlyOffset(U: seq<Entry>, i: nat, i': nat, o: nat)
    requires Sorted(U) && i < |U| && o <= i' < |U| && U[i'] == U[i] && U[i' - o].key >= U[i].key
    ensures i' == i && o == 0
  {
  }

  // ---------------------------------------------------------------- the run

  /** All keys are even and below bound. */
  ghost predicate Even(rows: seq<Entry>, bound: int) {
    forall j :: 0 <= j < |rows| ==> rows[j].key % 2 == 0 && 0 <= rows[j].key < bound
  }

  lemma EvenInsert(rows: seq<Entry>, q: nat, e: Entry, bound: int)
    requires Even(rows, bound) && q <= |rows| && e.key == bound && bound % 2 == 0 && bound >= 0
    ensures Even(InsertAt(rows, q, e), bound + 2) && |InsertAt(rows, q, e)| == |rows| + 1
  {
  }

  /** A key that no row can have is not stored. */
  lemma NotStored(w: World, cap: int, S: seq<seq<Entry>>, root: int, key: int, bound: int)
    requires Whole(w, cap, S, root) && S != [] && Even(S[0], bound) && (key >= bound || key % 2 != 0)
    ensures key !in ToMap(S[0])
  {
    hide Whole;
    hide ToMap;
    RowsInOrder(w, cap, S, root);
    ToMapFinds(S[0], key);
  }

  lemma SmallNumbers(cap: nat)
    requires cap <= 4096
    ensures 2 * (cap * (cap + 1) + 1) < TOP
  {
    Squares(cap, 4096);
  }

  lemma Squares(x: nat, y: nat)
    requires x <= y
    ensures x * (x + 1) <= y * (y + 1)
  {
    assert x * (x + 1) <= y * (x + 1) <= y * (y + 1);
  }

  /** Inserts ascending keys into a fresh tree until it has height 3. */
  method Build(cap: nat) returns (t: BPlusTree)
    requires OddCapacity(cap) && cap <= 4096
    ensures fresh(t) && fresh(t.io) && fresh(t.io.pm) && fresh(t.io.pages) && t.io.pool == null
    ensures t.Valid() && t.unique && t.keySize == 8 && t.cap == cap && |t.S| > 3 && Even(t.Rows(), TOP)
  {
    hide Whole;
    hide PageAccess.Valid;
    hide Even;
    hide ToMap;
    hide InsertAt;
    hide Rank;
    hide Placed;
    hide BPlusTree.InPlace;
    var pm := new PageManager();
    t := new BPlusTree(pm, null, cap, true);
    var n := cap * (cap + 1) + 1;
    SmallNumbers(cap);
    NoneEven();
    for i := 0 to n
      invariant fresh(t) && fresh(t.io) && fresh(t.io.pm) && fresh(t.io.pages) && t.io.pool == null
      invariant t.Valid() && t.unique && t.keySize == 8 && t.cap == cap
      invariant |t.Rows()| == i && Even(t.Rows(), 2 * i)
    {
      ghost var rows := t.Rows();
      TreeRows(t.W(), cap, t.S, t.rootID);
      NotStored(t.W(), cap, t.S, t.rootID, 2 * i, 2 * i);
      EvenInsert(rows, Rank(rows, 2 * i), Entry(2 * i, 0), 2 * i);
      var out := t.Insert(2 * i, 0);
    }
    TreeRows(t.W(), cap, t.S, t.rootID);
    TallByCount(t.W(), cap, t.S, t.rootID);
    EvenBelow(t.Rows(), 2 * n, TOP);
  }

  lemma NoneEven()
    ensures Even([], 0)
  {
  }

  lemma EvenBelow(rows: seq<Entry>, x: int, y: int)
    requires Even(rows, x) && x <= y
    ensures Even(rows, y)
  {
  }

  /** Leaf i starts at key, where its parent starts too. */
  ghost predicate Edge(S: seq<seq<Entry>>, i: nat, key: int) {
    && |S| > 3 && 0 < i < |S[1]| && S[1][i].key == key && LOW < key < TOP && Starts(S, 2, key)
  }

  /** The rows of leaf i, and where their keys lead. */
  lemma EdgeLeaf(w: World, cap: int, S: seq<seq<Entry>>, root: int, i: nat, key: int)
    requires Whole(w, cap, S, root) && Edge(S, i, key)
    ensures S[1][0].key <= key && Pick(S[1], key) == S[1][i]
    ensures forall j :: i - 1 <= j <= i ==> LeafOk(w, cap, S, j)
    ensures At(w.m, S[1][i].val).prev == S[1][i - 1].val != 0 && S[1][i].val != S[1][i - 1].val
    ensures cap >= 5
  {
    hide Whole;
    hide Good;
    hide Rank;
    hide LeafOk;
    WholeIsNearly(w, cap, S, root);
    NearlyBasics(w, cap, S, root, 0);
    LevelOf(w, cap, S, root, 1);
    LeafNeighbours(w, cap, MinFor(1, |S| - 1, cap), S[0], S[1], i);
    LevelDistinct(w, 1, S[0], S[1]);
    hide Level;
    RankUnique(S[1], key, i + 1);
    forall j | i - 1 <= j <= i ensures LeafOk(w, cap, S, j) { LeafIsOk(w, cap, S, root, j); }
  }

  /** Leaf j can be read; its entries are rows, in order, and their keys lead to it. */
  ghost predicate LeafOk(w: World, cap: int, S: seq<seq<Entry>>, j: nat) {
    && |S| > 1 && j < |S[1]| && S[1] != []
    && var id := S[1][j].val; var b := At(w.m, id);
       && id in w.m && id in w.tag && b.Leaf? && cap / 2 <= |b.entries| <= cap && Sorted(b.entries)
       && forall x :: 0 <= x < |b.entries| ==>
            && b.entries[x] in S[0] && S[1][0].key <= b.entries[x].key < TOP && Pick(S[1], b.entries[x].key) == S[1][j]
            && (x > 0 || j > 0 ==> LOW < b.entries[x].key)
  }

  lemma LeafIsOk(w: World, cap: int, S: seq<seq<Entry>>, root: int, j: nat)
    requires Whole(w, cap, S, root) && |S| > 3 && j < |S[1]|
    ensures LeafOk(w, cap, S, j)
  {
    hide Whole;
    hide Good;
    hide Level;
    hide Rank;
    hide Sorted;
    LevelOf(w, cap, S, root, 1);
    LevelDistinct(w, 1, S[0], S[1]);
    GoodFilled(w, cap, 1, cap / 2, S[0], S[1], 0, j);
    assert Here(w, 1, S[1][j]);
    LeafSorted(w, 1, S[0], S[1], j);
    forall x | 0 <= x < |At(w.m, S[1][j].val).entries|
      ensures var e := At(w.m, S[1][j].val).entries[x];
              && e in S[0] && S[1][0].key <= e.key < TOP && Pick(S[1], e.key) == S[1][j]
              && (x > 0 || j > 0 ==> LOW < e.key)
    {
      WholeIsNearly(w, cap, S, root);
      LeafKeys(w, cap, S, root, 0, j, x);
      EntryIsRow(w, S[0], S[1], j, x);
    }
  }

  lemma LeafSorted(w: World, k: nat, D: seq<Entry>, U: seq<Entry>, j: nat)
    requires Level(w, k, D, U) && j < |U| && At(w.m, U[j].val).Leaf?
    ensures Sorted(At(w.m, U[j].val).entries)
  {
    hide Seg;
    hide Cat;
    CoverIndex(w, k, D, U, j);
  }

  lemma EntryIsRow(w: World, D: seq<Entry>, U: seq<Entry>, j: nat, x: nat)
    requires Level(w, 1, D, U) && j < |U| && At(w.m, U[j].val).Leaf? && x < |At(w.m, U[j].val).entries|
    ensures At(w.m, U[j].val).entries[x] in D
  {
    hide Seg;
    hide Cat;
    CoverIndex(w, 1, D, U, j);
    hide Level;
    SliceAt(D, |Cat(w.m, U[..j])|, At(w.m, U[j].val).entries, x);
  }

  /** Leaf i - 1 gets another row if it has no more than it needs. */
  method RaiseCousin(t: BPlusTree, key: int, ghost i: nat)
    requires t.Valid() && t.unique && t.io.pool == null && Edge(t.S, i, key) && Even(t.Rows(), TOP)
    modifies t, t.io, t.io.pm, t.io.pages
    ensures t.Valid() && |t.S| == |old(t.S)| && |t.S| > 3 && t.S[1..] == old(t.S)[1..]
    ensures fresh(t.io.pages - old(t.io.pages)) && old(t.io.pages) <= t.io.pages
    ensures |Entries(At(t.io.model, t.S[1][i - 1].val))| > t.cap / 2
  {
    hide Whole;
    hide OnPath;
    hide PageAccess.Valid;
    hide Even;
    hide ToMap;
    hide Rank;
    hide Placed;
    hide Starts;
    var leaf, anc := t.FindLeafWithPath(key);
    LeafOnPath(t.W(), t.S, key, leaf.id, anc);
    EdgeLeaf(t.W(), t.cap, t.S, t.rootID, i, key);
    assert LeafOk(t.W(), t.cap, t.S, i - 1);
    var c := t.io.ReadPage(leaf.body.prev);
    if |c.body.entries| > t.cap / 2 {
      return;
    }
    var x := c.body.entries[1].key - 1;
    BetweenEntries(t.W(), t.cap, t.S, t.rootID, i - 1, x);
    NotStored(t.W(), t.cap, t.S, t.rootID, x, TOP);
    PlacedSize(c.body, Entry(x, 0));
    var out := t.Insert(x, 0);
  }

  /** The odd number before the second key of a leaf leads to that leaf. */
  lemma BetweenEntries(w: World, cap: int, S: seq<seq<Entry>>, root: int, j: nat, x: int)
    requires Whole(w, cap, S, root) && |S| > 3 && LeafOk(w, cap, S, j) && Even(S[0], TOP) && cap >= 5
    requires x == At(w.m, S[1][j].val).entries[1].key - 1
    ensures x % 2 != 0 && LOW < x < TOP && S[1][0].key <= x && Pick(S[1], x) == S[1][j]
  {
    hide Whole;
    hide Good;
    hide Level;
    hide Rank;
    var es := At(w.m, S[1][j].val).entries;
    LevelOf(w, cap, S, root, 1);
    LevelDistinct(w, 1, S[0], S[1]);
    assert es[0] in S[0] && es[1] in S[0] && es[0].key < es[1].key;
    PickBounds(S[1], es[0].key, j);
    PickBounds(S[1], es[1].key, j);
    RankUnique(S[1], x, j + 1);
  }

  lemma PlacedSize(b: Body, e: Entry)
    requires b.Leaf?
    ensures |Entries(Placed(b, e))| == |b.entries| + 1
  {
  }

  /** Deletes rows of leaf i until it has no more than it needs, and returns one that is left. */
  method Thin(t: BPlusTree, key: int, ghost i: nat) returns (last: int)
    requires t.Valid() && t.keySize == 8 && t.io.pool == null && Edge(t.S, i, key)
    requires |Entries(At(t.io.model, t.S[1][i - 1].val))| > t.cap / 2
    modifies t, t.io, t.io.pm, t.io.pages
    ensures t.Valid() && fresh(t.io.pages - old(t.io.pages)) && old(t.io.pages) <= t.io.pages
    ensures LOW < last < TOP && last in t.Contents() && !SafeToDelete(t.io.model, t.cap, t.S, last)
  {
    hide Whole;
    hide OnPath;
    hide PageAccess.Valid;
    hide ToMap;
    hide Rank;
    hide RemoveAt;
    hide Deletable;
    hide SafeToDelete;
    hide Stores;
    hide BPlusTree.Ruined;
    var leaf := ReadEdge(t, key, i);
    while |leaf.body.entries| > t.cap / 2
      invariant t.Valid() && fresh(t.io.pages - old(t.io.pages)) && old(t.io.pages) <= t.io.pages
      invariant Edge(t.S, i, key) && AtEdge(t, leaf, i)
      invariant |Entries(At(t.io.model, t.S[1][i - 1].val))| > t.cap / 2
      decreases |leaf.body.entries|
    {
      ThinOnce(t, leaf, key, i);
      leaf := ReadEdge(t, key, i);
    }
    last := leaf.body.entries[0].key;
    EdgeDelete(t.W(), t.cap, t.S, t.rootID, i, key, last);
    StartsUnsafe(t.W(), t.cap, t.S, t.rootID, i);
  }

  /** Deletes the first row of leaf i, which has more than it needs. */
  method ThinOnce(t: BPlusTree, leaf: Page, key: int, ghost i: nat)
    requires t.Valid() && t.keySize == 8 && t.io.pool == null && Edge(t.S, i, key) && AtEdge(t, leaf, i)
    requires |leaf.body.entries| > t.cap / 2
    modifies t, t.io, t.io.pm, t.io.pages
    ensures t.Valid() && fresh(t.io.pages - old(t.io.pages)) && old(t.io.pages) <= t.io.pages
    ensures Edge(t.S, i, key) && |old(t.S)| > 1 && t.S[1] == old(t.S)[1]
    ensures At(t.io.model, t.S[1][i - 1].val) == At(old(t.io.model), t.S[1][i - 1].val)
    ensures |Entries(At(t.io.model, t.S[1][i].val))| == |old(leaf.body).entries| - 1
  {
    hide Whole;
    hide PageAccess.Valid;
    hide ToMap;
    hide Rank;
    hide RemoveAt;
    hide Deletable;
    hide Stores;
    hide Starts;
    hide BPlusTree.Ruined;
    var k := leaf.body.entries[0].key;
    EdgeDelete(t.W(), t.cap, t.S, t.rootID, i, key, k);
    ghost var S, es := t.S, leaf.body.entries;
    var out := t.Delete(k);
    RemovedSize(es, Rank(es, k - 1));
    SameEdge(S, t.S, i, key);
  }

  lemma RemovedSize(es: seq<Entry>, q: nat)
    requires q < |es|
    ensures |RemoveAt(es, q)| == |es| - 1
  {
  }

  ghost predicate AtEdge(t: BPlusTree, leaf: Page, i: nat)
    reads t, t.io, leaf
  {
    && |t.S| > 1 && i < |t.S[1]| && leaf.id == t.S[1][i].val && leaf.body == At(t.io.model, leaf.id)
    && leaf.body.Leaf? && leaf.body.entries != [] && |leaf.body.entries| >= t.cap / 2
  }

  method ReadEdge(t: BPlusTree, key: int, ghost i: nat) returns (leaf: Page)
    requires t.Valid() && t.io.pool == null && Edge(t.S, i, key)
    modifies t.io`pages, t.io.pm`pageReads, t.io.pm`pageWrites, t.io.pm`disk
    ensures t.Valid() && fresh(t.io.pages - old(t.io.pages)) && old(t.io.pages) <= t.io.pages
    ensures AtEdge(t, leaf, i)
  {
    hide Whole;
    hide OnPath;
    hide PageAccess.Valid;
    hide Rank;
    hide Starts;
    var anc;
    leaf, anc := t.FindLeafWithPath(key);
    LeafOnPath(t.W(), t.S, key, leaf.id, anc);
    EdgeLeaf(t.W(), t.cap, t.S, t.rootID, i, key);
    assert LeafOk(t.W(), t.cap, t.S, i);
  }

  lemma SameEdge(S: seq<seq<Entry>>, T: seq<seq<Entry>>, i: nat, key: int)
    requires Edge(S, i, key) && |T| == |S| && T[1..] == S[1..]
    ensures Edge(T, i, key) && T[1] == S[1]
  {
    assert forall j :: 1 <= j < |S| ==> T[j] == T[1..][j - 1] == S[1..][j - 1] == S[j];
    assert T[1] == S[1] && T[2] == S[2];
  }

  /** The first key of leaf i is stored, and deleting it from a leaf with rows to spare is safe. */
  lemma EdgeDelete(w: World, cap: int, S: seq<seq<Entry>>, root: int, i: nat, key: int, k: int)
    requires Whole(w, cap, S, root) && Edge(S, i, key)
    requires var b := At(w.m, S[1][i].val); b.Leaf? && b.entries != [] && k == b.entries[0].key
    ensures LOW < k < TOP && k in ToMap(S[0]) && S[1][0].key <= k && Pick(S[1], k) == S[1][i]
    ensures |At(w.m, S[1][i].val).entries| > cap / 2 ==> Deletable(w.m, cap, S, k, 8)
    ensures S[1][i].val != S[1][i - 1].val
  {
    hide Whole;
    hide Rank;
    hide ToMap;
    hide IsChild;
    hide UsedNeighbour;
    hide Spares;
    EdgeLeaf(w, cap, S, root, i, key);
    assert LeafOk(w, cap, S, i);
    var b := At(w.m, S[1][i].val);
    RowsInOrder(w, cap, S, root);
    assert b.entries[0] in S[0];
    ToMapFinds(S[0], k);
  }

  /** From a fresh tree, through nothing but the tree's own operations, to a deletion that leaves no
      tree. */
  method ReachRuin(cap: nat) returns (t: BPlusTree, key: int, out: Outcome)
    requires OddCapacity(cap) && cap <= 4096
    ensures out == Done && t.Ruined()
  {
    hide Whole;
    hide PageAccess.Valid;
    hide Even;
    hide ToMap;
    hide Deletable;
    hide SafeToDelete;
    hide Stores;
    hide BPlusTree.Ruined;
    hide BPlusTree.InPlace;
    t := Build(cap);
    RootSeparator(t.W(), cap, t.S, t.rootID);
    var root := t.io.ReadPage(t.rootID);
    var sep := root.body.entries[0].key;
    ghost var i := EdgeAt(t.W(), cap, t.S, t.rootID, sep);
    ghost var S := t.S;
    RaiseCousin(t, sep, i);
    SameEdge(S, t.S, i, sep);
    key := Thin(t, sep, i);
    NotDeletable(t.io.model, cap, t.S, key, 8);
    out := t.Delete(key);
  }

  lemma NotDeletable(m: map<int, Body>, cap: int, S: seq<seq<Entry>>, key: int, keySize: nat)
    requires !SafeToDelete(m, cap, S, key)
    ensures !Deletable(m, cap, S, key, keySize)
  {
  }

  lemma EdgeAt(w: World, cap: int, S: seq<seq<Entry>>, root: int, key: int) returns (i: nat)
    requires Whole(w, cap, S, root) && |S| > 3 && LOW < key < TOP && Starts(S, 1, key) && Starts(S, 2, key)
    ensures Edge(S, i, key)
  {
    hide Whole;
    hide Good;
    LevelOf(w, cap, S, root, 1);
    i :| 0 <= i < |S[1]| && S[1][i].key == key;
  }
}
