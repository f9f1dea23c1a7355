/** The two ways a short leaf is repaired, as the pages change: with a neighbour under the same parent
    the result is a tree, with any other it is not. */
module LeafRepair {
  import opened Pages
  import opened Levels
  import opened Stack
  import opened NodeOps
  import opened Trees
  import opened Lookup
  import opened Node
  import opened Shrinking
  import opened Repairing
  import opened NodeMoves
  import opened Deleting
  import opened Cousins

  /** The neighbour on the given side has the same parent. */
  ghost predicate IsKin(b: Body, o: int, fromLeft: bool) {
    b.Inner? && if fromLeft then o > 0 else o < |b.entries|
  }

  /** Leaf i of the tree, one entry short, sits at offset o under page `parent`. */
  ghost predicate ShortLeaf(w: World, cap: int, S: seq<seq<Entry>>, root: int, key: int, i: nat, o: nat,
                            parent: int, b: Body)
  {
    && |S| > 2 && i < |S[1]| && LOW < key < TOP && cap >= 0
    && Nearly(w, cap, S, root, S[1][i].val) && Family(w, cap, S, 1, key, i, o, parent, b)
    && Relatives(w, S, 1, key, i, o, parent, b)
    && |Entries(At(w.m, S[1][i].val))| == cap / 2 - 1
  }

  /** The pages after a leaf borrowed from its neighbour. */
  ghost function LeafBorrowed(m: map<int, Body>, lb: Body, rb: Body, pb: Body, l: int, r: int, p: int,
                              fromLeft: bool, cap: nat): map<int, Body>
    requires pb.Inner?
  {
    m[l := ShiftLeft(lb, rb, 0, fromLeft)][r := ShiftRight(lb, rb, 0, fromLeft)]
     [p := Reseat(pb, ChildIndex(pb, r), Entry(ShiftKey(lb, rb, fromLeft), r), cap)]
  }

  lemma BorrowReady(w: World, cap: int, S: seq<seq<Entry>>, root: int, key: int, i: nat, o: nat,
                    parent: int, b: Body)
    requires ShortLeaf(w, cap, S, root, key, i, o, parent, b)
    ensures OddCapacity(cap) && b.Inner? && 1 <= |b.entries| <= cap && parent > 0 && S[1][i].val > 0
    ensures parent in w.m && parent in w.tag && w.tag[parent].level == 2 && parent != S[1][i].val
    ensures S[1][i].val in w.tag && forall id :: id in w.tag ==> 0 < id < w.nid
    ensures |S| > 2 && i < |S[1]| && At(w.m, S[1][i].val).Leaf? && |At(w.m, S[1][i].val).entries| == cap / 2 - 1
    ensures i > 0 ==> Sibling(w, cap, S[1][i - 1].val, S[1][i].val, parent)
    ensures i + 1 < |S[1]| ==> Sibling(w, cap, S[1][i + 1].val, S[1][i].val, parent)
    ensures At(w.m, S[1][i].val).prev == IdAt(S[1], i - 1) && At(w.m, S[1][i].val).next == IdAt(S[1], i + 1)
  {
    hide Nearly;
    hide Relatives;
    hide Rank;
    LeafLinks(w, cap, S, root, S[1][i].val, i);
    KinIds(w, cap, S, root, S[1][i].val, 1, key, i, o, parent, b);
    LiveIds(w, cap, S, root, S[1][i].val, i);
  }

  ghost predicate Sibling(w: World, cap: int, id: int, exc: int, parent: int) {
    && id in w.m && w.m[id].Leaf? && id in w.tag && id != exc && id != parent && id > 0
    && cap / 2 <= |w.m[id].entries| <= cap
  }

  lemma LiveIds(w: World, cap: int, S: seq<seq<Entry>>, root: int, exc: int, i: nat)
    requires Nearly(w, cap, S, root, exc) && |S| > 2 && i < |S[1]|
    ensures forall id :: id in w.tag ==> 0 < id < w.nid
    ensures Here(w, 1, S[1][i])
  {
    hide Good;
    LevelShort(w, cap, S, root, exc, 1);
    LevelDistinct(w, 1, S[0], S[1]);
  }

  // ---------------------------------------------------------------- borrowing

  /** The pages after leaf i borrowed from its neighbour on the given side. */
  ghost function BorrowedPages(w: World, cap: nat, S: seq<seq<Entry>>, j: nat, parent: int, b: Body,
                               fromLeft: bool, m: map<int, Body>): map<int, Body>
    requires b.Inner? && |S| > 1 && j + 1 < |S[1]|
  {
    var x, y := S[1][j].val, S[1][j + 1].val;
    LeafBorrowed(m, At(w.m, x), At(w.m, y), b, x, y, parent, fromLeft, cap)
  }

  /** The leaves after that: the right one of the pair has a new separator. */
  ghost function BorrowedLevels(w: World, S: seq<seq<Entry>>, j: nat, fromLeft: bool): seq<seq<Entry>>
    requires |S| > 1 && j + 1 < |S[1]|
  {
    S[1 := S[1][j + 1 := Entry(ShiftKey(At(w.m, S[1][j].val), At(w.m, S[1][j + 1].val), fromLeft), S[1][j + 1].val)]]
  }

  lemma KinBorrows(w: World, m: map<int, Body>, cap: int, S: seq<seq<Entry>>, root: int, key: int, i: nat, o: nat,
                   parent: int, b: Body, fromLeft: bool, j: nat)
    requires ShortLeaf(w, cap, S, root, key, i, o, parent, b) && IsKin(b, o, fromLeft)
    requires w.m == m[S[1][i].val := At(w.m, S[1][i].val)]
    requires j == (if fromLeft then i - 1 else i) && j + 1 < |S[1]|
    requires |Entries(At(w.m, if fromLeft then S[1][j].val else S[1][j + 1].val))| > cap / 2
    ensures var T := BorrowedLevels(w, S, j, fromLeft);
            Whole(World(BorrowedPages(w, cap, S, j, parent, b, fromLeft, m),
                        w.tag[T[1][j + 1].val := Tag(1, T[1][j + 1].key)], w.nid), cap, T, root)
  {
    hide Nearly;
    hide Relatives;
    hide Family;
    hide Rank;
    hide Whole;
    hide Seated;
    hide Reseat;
    hide ShiftKey;
    hide ShiftLeft;
    hide ShiftRight;
    hide ChildIndex;
    var exc, t := S[1][i].val, if fromLeft then o else o + 1;
    var x, y := S[1][j], S[1][j + 1];
    BorrowReady(w, cap, S, root, key, i, o, parent, b);
    if fromLeft {
      LeftKin(w, cap, S, root, exc, 1, key, i, o, parent, b);
    } else {
      RightKin(w, cap, S, root, exc, 1, key, i, o, parent, b);
    }
    SeatedIndex(w, S, 1, key, j, t, parent, b);
    ParentBody(w, cap, S, 1, key, i, o, parent, b);
    BorrowDone(w, cap, S, root, 1, key, j, t, parent, b, fromLeft, exc);
    ShiftLeafSep(At(w.m, x.val), At(w.m, y.val), y.key, fromLeft);
    assert BorrowedPages(w, cap, S, j, parent, b, fromLeft, m) == Borrowed(w, 1, x, y, fromLeft, parent, t, cap).m;
  }

  lemma ParentBody(w: World, cap: int, S: seq<seq<Entry>>, k: nat, key: int, i: nat, o: nat, parent: int, b: Body)
    requires Family(w, cap, S, k, key, i, o, parent, b)
    ensures b == At(w.m, parent)
  {
  }

  /** Borrowing from a cousin spoils the parent of the leaf, whatever becomes of the leaves. */
  lemma CousinBorrows(w: World, n: map<int, Body>, nid: int, cap: int, S: seq<seq<Entry>>, root: int, key: int,
                      i: nat, o: nat, parent: int, b: Body, fromLeft: bool, j: nat)
    requires ShortLeaf(w, cap, S, root, key, i, o, parent, b) && !IsKin(b, o, fromLeft) && b.Inner?
    requires j == (if fromLeft then i - 1 else i) && j + 1 < |S[1]| && SameAbove(w, n, 2)
    requires |Entries(At(w.m, if fromLeft then S[1][j].val else S[1][j + 1].val))| > cap / 2
    requires var x, y := S[1][j].val, S[1][j + 1].val;
             At(n, parent) == Reseat(b, ChildIndex(b, y), Entry(ShiftKey(At(w.m, x), At(w.m, y), fromLeft), y), cap)
    ensures NoTree(n, nid, cap, root)
  {
    hide Nearly;
    hide Relatives;
    hide Rank;
    hide NoTree;
    hide Reseat;
    hide ShiftKey;
    hide ChildIndex;
    hide Sorted;
    var exc := S[1][i].val;
    var x, y := S[1][j], S[1][j + 1];
    var e := Entry(ShiftKey(At(w.m, x.val), At(w.m, y.val), fromLeft), y.val);
    BorrowReady(w, cap, S, root, key, i, o, parent, b);
    CousinSep(w, cap, S, root, key, i, o, parent, b, fromLeft, j);
    if fromLeft {
      CousinLeft(w, cap, S, root, exc, key, i, parent, b, e);
      FirstChild(w, S, 1, key, i, parent, b);
    } else {
      CousinDepth(w, cap, S, root, exc, key, i, o, parent, b);
      CousinRight(w, cap, S, root, exc, key, i, parent, b, e);
      LastChild(w, S, 1, key, i, parent, b);
    }
    BadPage(w, n, nid, cap, S, root, exc, key, 2);
  }

  lemma LeafLevels(w: World, cap: int, S: seq<seq<Entry>>, root: int, exc: int, j: nat)
    requires Nearly(w, cap, S, root, exc) && |S| > 2 && j + 1 < |S[1]|
    ensures Here(w, 1, S[1][j]) && Here(w, 1, S[1][j + 1])
  {
    LiveIds(w, cap, S, root, exc, j);
    LiveIds(w, cap, S, root, exc, j + 1);
  }

  /** The key that goes up lies on the far side of the leaf's own separator. */
  lemma CousinSep(w: World, cap: int, S: seq<seq<Entry>>, root: int, key: int, i: nat, o: nat,
                  parent: int, b: Body, fromLeft: bool, j: nat)
    requires ShortLeaf(w, cap, S, root, key, i, o, parent, b)
    requires j == (if fromLeft then i - 1 else i) && j + 1 < |S[1]|
    requires |Entries(At(w.m, if fromLeft then S[1][j].val else S[1][j + 1].val))| > cap / 2
    ensures var sep := ShiftKey(At(w.m, S[1][j].val), At(w.m, S[1][j + 1].val), fromLeft);
            if fromLeft then sep < S[1][i].key else sep > S[1][i].key
  {
    hide Nearly;
    hide Relatives;
    hide Family;
    hide Rank;
    hide ShiftKey;
    var l, r := At(w.m, S[1][j].val), At(w.m, S[1][j + 1].val);
    BorrowReady(w, cap, S, root, key, i, o, parent, b);
    LeafLinks(w, cap, S, root, S[1][i].val, i);
    ShiftLeafSep(l, r, 0, fromLeft);
    if fromLeft {
      assert Below(l, S[1][i].key);
    } else {
      assert Above(r, S[1][i + 1].key);
    }
  }

  // ---------------------------------------------------------------- merging

  /** The pages written by a merge of leaf r into l, before the parent is. */
  ghost function MergedPages(m: map<int, Body>, lb: Body, rb: Body, l: int): map<int, Body>
    requires rb.Leaf?
  {
    Relink(m, rb.next, l)[l := MergedLeaf(lb, rb)]
  }

  /** What a merge of leaves j and j + 1 needs: they fit in one page, and the leaf behind them can be
      relinked. */
  ghost predicate Fitting(w: World, cap: int, S: seq<seq<Entry>>, j: nat, parent: int) {
    && |S| > 2 && j + 1 < |S[1]|
    && var l, r := S[1][j].val, S[1][j + 1].val;
       && At(w.m, l).Leaf? && At(w.m, r).Leaf?
       && |At(w.m, l).entries| + |At(w.m, r).entries| == 2 * (cap / 2) - 1
       && var n := At(w.m, r).next;
          n != 0 ==> n !in {l, r, parent} && n in w.m && n in w.tag && w.m[n].Leaf? && w.tag[n].level == 1
  }

  lemma MergeReady(w: World, cap: int, S: seq<seq<Entry>>, root: int, key: int, i: nat, o: nat,
                   parent: int, b: Body, fromLeft: bool, j: nat)
    requires ShortLeaf(w, cap, S, root, key, i, o, parent, b)
    requires j == (if fromLeft then i - 1 else i) && j + 1 < |S[1]|
    requires |Entries(At(w.m, if fromLeft then S[1][j].val else S[1][j + 1].val))| <= cap / 2
    ensures Fitting(w, cap, S, j, parent)
  {
    hide Nearly;
    hide Relatives;
    hide Family;
    hide Rank;
    BorrowReady(w, cap, S, root, key, i, o, parent, b);
    LeafLinks(w, cap, S, root, S[1][i].val, i);
  }

  lemma MergeKin(w: World, cap: int, S: seq<seq<Entry>>, root: int, key: int, i: nat, o: nat,
                 parent: int, b: Body, fromLeft: bool, j: nat, t: nat)
    requires ShortLeaf(w, cap, S, root, key, i, o, parent, b) && IsKin(b, o, fromLeft)
    requires j == (if fromLeft then i - 1 else i) && j + 1 < |S[1]| && t == if fromLeft then o else o + 1
    ensures Seated(w, S, 1, key, j, t, parent, b) && b == At(w.m, parent)
    ensures b.Inner? && ChildIndex(b, S[1][j + 1].val) == t - 1 && 0 < t <= |b.entries|
    ensures S[2] != [] && S[2][0].key <= key && parent == Pick(S[2], key).val && Here(w, 2, Pick(S[2], key))
    ensures |S| > 3 ==> |b.entries| >= cap / 2
  {
    hide Nearly;
    hide Relatives;
    hide Rank;
    hide Seated;
    hide ChildIndex;
    var exc := S[1][i].val;
    KinIds(w, cap, S, root, exc, 1, key, i, o, parent, b);
    if fromLeft {
      LeftKin(w, cap, S, root, exc, 1, key, i, o, parent, b);
    } else {
      RightKin(w, cap, S, root, exc, 1, key, i, o, parent, b);
    }
    SeatedIndex(w, S, 1, key, j, t, parent, b);
  }

  /** The pages a merge writes are those of the merged level, wherever it matters. */
  lemma MergedAgree(m: map<int, Body>, n: map<int, Body>, x: Entry, y: Entry, exc: int, id: int)
    requires n == m[exc := At(n, exc)] && (exc == x.val || exc == y.val) && x.val != y.val
    requires At(n, x.val).Leaf? && At(n, y.val).Leaf? && At(n, y.val).next !in {x.val, y.val}
    requires id != y.val
    ensures At(MergedPages(m, At(n, x.val), At(n, y.val), x.val), id) == At(MergeMap(n, x, y), id)
  {
  }

  lemma MergedMeta(m: map<int, Body>, lb: Body, rb: Body, l: int)
    requires rb.Leaf? && l != 0
    ensures At(MergedPages(m, lb, rb, l), 0) == At(m, 0)
  {
  }

  /** A merge with a left neighbour under another parent finds no entry to drop from the parent, which
      has enough of them. */
  lemma CousinParent(w: World, cap: int, S: seq<seq<Entry>>, root: int, key: int, i: nat, parent: int, b: Body)
    requires ShortLeaf(w, cap, S, root, key, i, 0, parent, b) && i > 0
    ensures b.Inner? && ChildIndex(b, S[1][i].val) == |b.entries|
    ensures |S| > 3 && |b.entries| >= cap / 2
  {
    hide Nearly;
    hide Relatives;
    hide Rank;
    hide ChildIndex;
    BorrowReady(w, cap, S, root, key, i, 0, parent, b);
    CousinDepth(w, cap, S, root, S[1][i].val, key, i, 0, parent, b);
    FirstChild(w, S, 1, key, i, parent, b);
  }

  /** The pages such a merge writes. */
  lemma CousinPages(w: World, m: map<int, Body>, n: map<int, Body>, cap: int, S: seq<seq<Entry>>, root: int,
                    key: int, i: nat, o: nat, parent: int, b: Body)
    requires ShortLeaf(w, cap, S, root, key, i, o, parent, b) && i > 0 && Fitting(w, cap, S, i - 1, parent)
    requires w.m == m[S[1][i].val := At(w.m, S[1][i].val)]
    requires n == MergedPages(m, At(w.m, S[1][i - 1].val), At(w.m, S[1][i].val), S[1][i - 1].val)[parent := b]
    ensures forall id :: id in w.tag && id in w.m && w.tag[id].level > 1 ==> id in n && n[id] == w.m[id]
    ensures S[1][i - 1].val in n
    ensures n[S[1][i - 1].val] == MergedLeaf(At(w.m, S[1][i - 1].val), At(w.m, S[1][i].val))
  {
    hide Nearly;
    hide Relatives;
    hide Rank;
    hide MergedLeaf;
    BorrowReady(w, cap, S, root, key, i, o, parent, b);
    LeafLevels(w, cap, S, root, S[1][i].val, i - 1);
    ParentBody(w, cap, S, 1, key, i, o, parent, b);
  }

  /** After it the cousin holds keys that the parents still assign to the leaf, whatever the leaf itself
      shows. */
  lemma CousinMerges(w: World, n: map<int, Body>, nid: int, cap: int, S: seq<seq<Entry>>, root: int, key: int,
                     i: nat, o: nat, parent: int, b: Body)
    requires ShortLeaf(w, cap, S, root, key, i, o, parent, b) && i > 0 && SameAbove(w, n, 1)
    requires At(n, S[1][i - 1].val) == MergedLeaf(At(w.m, S[1][i - 1].val), At(w.m, S[1][i].val))
    ensures NoTree(n, nid, cap, root)
  {
    hide Nearly;
    hide Relatives;
    hide Family;
    hide Rank;
    hide NoTree;
    hide Sorted;
    var exc, l, c := S[1][i].val, At(w.m, S[1][i - 1].val), At(w.m, S[1][i].val);
    BorrowReady(w, cap, S, root, key, i, o, parent, b);
    LeafKeys(w, cap, S, root, exc, i - 1, 1);
    LeafKeys(w, cap, S, root, exc, i, 0);
    var x := |l.entries|;
    assert MergedLeaf(l, c).entries[x] == c.entries[0];
    Misplaced(w, n, nid, cap, S, root, exc, l.entries[1].key, x);
  }

  /** Entry x of leaf i has a key that leads to leaf i, and only the very first may have the key LOW. */
  lemma LeafKeys(w: World, cap: int, S: seq<seq<Entry>>, root: int, exc: int, i: nat, x: nat)
    requires Nearly(w, cap, S, root, exc) && |S| > 2 && i < |S[1]| && At(w.m, S[1][i].val).Leaf?
    requires x < |At(w.m, S[1][i].val).entries|
    ensures S[1][0].key <= At(w.m, S[1][i].val).entries[x].key < TOP
    ensures Pick(S[1], At(w.m, S[1][i].val).entries[x].key) == S[1][i]
    ensures x > 0 || i > 0 ==> LOW < At(w.m, S[1][i].val).entries[x].key
    ensures i > 0 ==> S[1][i - 1].val != S[1][i].val
  {
    hide Good;
    hide Seg;
    hide Cat;
    hide Rank;
    LevelShort(w, cap, S, root, exc, 1);
    LevelDistinct(w, 1, S[0], S[1]);
    CoverIndex(w, 1, S[0], S[1], i);
    SegSorted(w, 1, S[1], TOP);
    assert S[1][0].key == LOW;
    hide Level;
    hide Tree;
    var es := At(w.m, S[1][i].val).entries;
    var e := es[x].key;
    if i + 1 < |S[1]| { assert S[1][i + 1..][0] == S[1][i + 1]; }
    if x > 0 { assert LOW <= S[1][i].key <= es[x - 1].key < e; }
    if i > 0 { assert S[1][0].key < S[1][i].key; }
    RankUnique(S[1], e, i + 1);
  }

  lemma {:induction false} PathLength(S: seq<seq<Entry>>, anc: seq<int>, g: nat, key: int)
    requires Path(S, anc, g, key)
    ensures |anc| == |S| - 1 - g
    decreases |S| - g
  {
    if g + 1 < |S| { PathLength(S, anc[..|anc| - 1], g + 1, key); }
  }

  // ---------------------------------------------------------------- the neighbour

  lemma FindShortLeaf(w: World, cap: int, S: seq<seq<Entry>>, root: int, exc: int, key: int)
    returns (i: nat, o: nat, parent: int, b: Body)
    requires Nearly(w, cap, S, root, exc) && |S| > 2 && LOW < key < TOP
    requires S[1] != [] && S[1][0].key <= key && exc == Pick(S[1], key).val
    requires exc in w.tag && w.tag[exc].level == 1 && |Entries(At(w.m, exc))| == cap / 2 - 1
    ensures ShortLeaf(w, cap, S, root, key, i, o, parent, b) && S[1][i].val == exc
    ensures S[2] != [] && S[2][0].key <= key && parent == Pick(S[2], key).val && b == At(w.m, parent)
  {
    hide Nearly;
    hide Relatives;
    hide Rank;
    i, o, parent, b := FindFamily(w, cap, S, root, exc, 1, key);
    KinIds(w, cap, S, root, exc, 1, key, i, o, parent, b);
  }

  /** A neighbour in the chain is a child of the parent exactly if the leaf is not at that end of it. */
  lemma NeighbourKin(w: World, cap: int, S: seq<seq<Entry>>, root: int, key: int, i: nat, o: nat,
                     parent: int, b: Body)
    requires ShortLeaf(w, cap, S, root, key, i, o, parent, b)
    ensures i > 0 ==> (IsChild(b, S[1][i - 1].val) <==> IsKin(b, o, true))
    ensures i + 1 < |S[1]| ==> (IsChild(b, S[1][i + 1].val) <==> IsKin(b, o, false))
    ensures i == 0 ==> IsKin(b, o, false) && i + 1 < |S[1]|
  {
    hide Nearly;
    hide Rank;
    hide Seated;
    hide ChildIndex;
    hide LeftSibling;
    hide RightSibling;
    hide IsChild;
    hide Chunk;
    KinIds(w, cap, S, root, S[1][i].val, 1, key, i, o, parent, b);
    var low := Pick(S[2], key).key;
    ChunkAt(low, b, Chunk(low, b));
    NeighboursListed(S[1], Chunk(low, b), b, i, o);
  }

  lemma NeighboursListed(U: seq<Entry>, c: seq<Entry>, b: Body, i: nat, o: nat)
    requires b.Inner? && |c| == |b.entries| + 1 && c[0].val == b.leftmost && o < |c| && o <= i && i - o + |c| <= |U|
    requires U[i - o..i - o + |c|] == c && forall x :: 0 <= x < |b.entries| ==> b.entries[x] == c[x + 1]
    ensures o > 0 ==> IsChild(b, U[i - 1].val)
    ensures o < |b.entries| ==> IsChild(b, U[i + 1].val)
  {
    NamesAt(U, c, i, o);
    if o > 1 { assert b.entries[o - 2] == c[o - 1]; }
    if o < |b.entries| { assert b.entries[o] == c[o + 1]; }
  }

  /** Whichever side the repair turns to, the leaf there is a child of b exactly if it has the same
      parent. */
  ghost predicate ChoosesKin(m: map<int, Body>, cap: int, leaf: Body, b: Body, o: nat)
    requires leaf.Leaf?
  {
    var shared, spares := IsChild(b, UsedNeighbour(m, leaf, cap)), Spares(m, leaf, cap);
    if leaf.prev != 0 && |Entries(At(m, leaf.prev))| > cap / 2 then spares && (shared <==> IsKin(b, o, true))
    else if leaf.next != 0 && |Entries(At(m, leaf.next))| > cap / 2 then spares && (shared <==> IsKin(b, o, false))
    else if leaf.prev != 0 then !spares && (shared <==> IsKin(b, o, true))
    else !spares && leaf.next != 0 && shared && IsKin(b, o, false)
  }

  /** The side the repair turns to, and whether the leaf there has the same parent. */
  lemma UsedKin(w: World, m: map<int, Body>, cap: int, S: seq<seq<Entry>>, root: int, key: int, i: nat, o: nat,
                parent: int, b: Body)
    requires ShortLeaf(w, cap, S, root, key, i, o, parent, b)
    requires w.m == m[S[1][i].val := At(w.m, S[1][i].val)]
    ensures At(w.m, S[1][i].val).Leaf? && ChoosesKin(m, cap, At(w.m, S[1][i].val), b, o)
  {
    hide Nearly;
    hide Relatives;
    hide Rank;
    hide Family;
    hide IsKin;
    hide IsChild;
    BorrowReady(w, cap, S, root, key, i, o, parent, b);
    NeighbourKin(w, cap, S, root, key, i, o, parent, b);
  }

  lemma LeafOnPath(w: World, S: seq<seq<Entry>>, key: int, id: int, anc: seq<int>)
    requires OnPath(w, S, 1, key, id, anc)
    ensures |S| >= 2 && S[1] != [] && S[1][0].key <= key && id == Pick(S[1], key).val && Path(S, anc, 1, key)
    ensures At(w.m, id).Leaf? && id in w.tag && w.tag[id].level == 1 && 0 < id < w.nid
    ensures |anc| == |S| - 2
    ensures |S| > 2 ==> S[2] != [] && S[2][0].key <= key && anc[|anc| - 1] == Pick(S[2], key).val
  {
    hide Rank;
    PathLength(S, anc, 1, key);
  }

  /** Whether the repair of a leaf, at the end of the path anc, will leave a tree. */
  ghost predicate Mendable(m: map<int, Body>, cap: int, leaf: Body, anc: seq<int>, keySize: nat)
    requires leaf.Leaf? && anc != []
  {
    var parent := At(m, anc[|anc| - 1]);
    && IsChild(parent, UsedNeighbour(m, leaf, cap))
    && (keySize == 8 || |anc| == 1 || Spares(m, leaf, cap) || |Entries(parent)| > cap / 2)
  }

  /** Whether a deletion leaves a tree, in terms of the pages on its way. */
  lemma DeletableByPages(w: World, S: seq<seq<Entry>>, key: int, id: int, anc: seq<int>, cap: int, keySize: nat)
    requires OnPath(w, S, 1, key, id, anc) && At(w.m, id).Leaf?
    ensures Deletable(w.m, cap, S, key, keySize) <==>
            (anc != [] && |At(w.m, id).entries| <= cap / 2 ==> Mendable(w.m, cap, At(w.m, id), anc, keySize))
  {
    hide OnPath;
    hide Rank;
    hide IsChild;
    hide UsedNeighbour;
    hide Spares;
    LeafOnPath(w, S, key, id, anc);
  }

  /** A leaf without its entry i; the neighbour depends on the links only. */
  lemma EntryGone(m: map<int, Body>, b: Body, i: nat, cap: int)
    requires b.Leaf? && i < |b.entries|
    ensures var c := WithEntries(b, RemoveAt(b.entries, i));
            && c.Leaf? && |c.entries| == |b.entries| - 1 && c == RemoveBody(b, i)
            && UsedNeighbour(m, b, cap) == UsedNeighbour(m, c, cap) && Spares(m, b, cap) == Spares(m, c, cap)
  {
  }

  // ---------------------------------------------------------------- low trees

  /** In a tree of height at most 2 every deletion is safe: all leaves are children of the root. */
  lemma LowTreesAreSafe(w: World, cap: int, S: seq<seq<Entry>>, root: int, key: int)
    requires Whole(w, cap, S, root) && |S| <= 3 && LOW < key < TOP
    ensures forall keySize :: Deletable(w.m, cap, S, key, keySize)
  {
    hide Whole;
    hide Good;
    hide Level;
    hide Sorted;
    hide Chain;
    hide Rank;
    hide UsedNeighbour;
    hide IsChild;
    hide Spares;
    TreeRows(w, cap, S, root);
    LevelOf(w, cap, S, root, 1);
    PickLive(w, 1, S[0], S[1], key);
    if |S| == 3 {
      LevelOf(w, cap, S, root, 2);
      RootAlone(w, cap, S, root);
      OnePage(w, S[1], S[2], root);
      OnlyPick(S[2], root, key);
      RootFilled(w, cap, S, root);
      LeavesUnderRoot(w, S, At(w.m, root), cap, key);
    }
  }

  lemma RootAlone(w: World, cap: int, S: seq<seq<Entry>>, root: int)
    requires Whole(w, cap, S, root)
    ensures |S| >= 2 && S[|S| - 1] == [Entry(LOW, root)]
  {
    hide Good;
  }

  lemma RootFilled(w: World, cap: int, S: seq<seq<Entry>>, root: int)
    requires Whole(w, cap, S, root) && |S| == 3
    ensures Entries(At(w.m, root)) != [] && At(w.m, root).Inner? && Chain(w.m, S[1])
    ensures forall id :: id in w.tag ==> id > 0
    ensures forall i :: 0 <= i < |S[1]| ==> S[1][i].val > 0
  {
    hide Seg;
    hide Cat;
    LevelOf(w, cap, S, root, 1);
    LevelOf(w, cap, S, root, 2);
    LevelDistinct(w, 1, S[0], S[1]);
    LevelDistinct(w, 2, S[1], S[2]);
    assert Here(w, 2, S[2][0]);
    hide Level;
    assert Filled(w.m, S[2][0].val, MinFor(2, 2, cap), cap);
    assert forall i :: 0 <= i < |S[1]| ==> Here(w, 1, S[1][i]);
  }

  lemma LeavesUnderRoot(w: World, S: seq<seq<Entry>>, b: Body, cap: int, key: int)
    requires |S| == 3 && b.Inner? && b.entries != [] && S[1] == Chunk(LOW, b) && Sorted(S[1]) && LOW <= key
    requires Chain(w.m, S[1]) && forall i :: 0 <= i < |S[1]| ==> S[1][i].val > 0
    ensures var leaf := At(w.m, Pick(S[1], key).val); leaf.Leaf? && IsChild(b, UsedNeighbour(w.m, leaf, cap))
  {
    var i := Rank(S[1], key) - 1;
    RankBounds(S[1], key);
    hide Rank;
    var leaf := At(w.m, S[1][i].val);
    assert leaf.prev == IdAt(S[1], i - 1) && leaf.next == IdAt(S[1], i + 1);
    forall t | 0 <= t < |S[1]| ensures IsChild(b, S[1][t].val) {
      if t > 0 { assert b.entries[t - 1] == S[1][t]; }
    }
    hide IsChild;
  }

  // ---------------------------------------------------------------- checking beforehand

  lemma ChildFound(b: Body, id: int)
    requires b.Inner?
    ensures IsChild(b, id) <==> id == b.leftmost || exists j :: 0 <= j < |b.entries| && b.entries[j].val == id
  {
  }

  /** The pages that decide whether a deletion is safe can be read. */
  lemma NeighboursReadable(w: World, cap: int, S: seq<seq<Entry>>, root: int, key: int, id: int, anc: seq<int>)
    requires Whole(w, cap, S, root) && OnPath(w, S, 1, key, id, anc) && anc != [] && LOW < key < TOP
    ensures At(w.m, id).Leaf?
    ensures var p := anc[|anc| - 1]; p in w.m && p in w.tag && w.m[p].Inner?
    ensures var n := At(w.m, id).next; n != 0 ==> n in w.m && n in w.tag
    ensures var n := At(w.m, id).prev; n != 0 ==> n in w.m && n in w.tag
  {
    hide Whole;
    hide Rank;
    hide OnPath;
    hide Good;
    LeafOnPath(w, S, key, id, anc);
    LevelOf(w, cap, S, root, 1);
    LevelOf(w, cap, S, root, 2);
    PickFilled(w, cap, 2, MinFor(2, |S| - 1, cap), S[1], S[2], key);
    PickIndex(S[1], key);
    LinksReadable(w, cap, MinFor(1, |S| - 1, cap), S[0], S[1], Rank(S[1], key) - 1);
  }

  lemma PickIndex(U: seq<Entry>, key: int)
    requires U != [] && U[0].key <= key
    ensures 0 < Rank(U, key) <= |U| && Pick(U, key) == U[Rank(U, key) - 1]
  {
  }

  lemma LinksReadable(w: World, cap: int, lo: int, D: seq<Entry>, U: seq<Entry>, i: nat)
    requires Good(w, cap, 1, lo, D, U, 0) && i < |U|
    ensures At(w.m, U[i].val).Leaf?
    ensures var n := At(w.m, U[i].val).next; n != 0 ==> n in w.m && n in w.tag
    ensures var n := At(w.m, U[i].val).prev; n != 0 ==> n in w.m && n in w.tag
  {
    hide Seg;
    hide Cat;
    LevelDistinct(w, 1, D, U);
    hide Level;
    if i > 0 { assert Here(w, 1, U[i - 1]); }
    if i + 1 < |U| { assert Here(w, 1, U[i + 1]); }
  }
}
