/** The steps of a deletion: dropping a row, finding the neighbours of a short page, shrinking the
    root. */
module Deleting {
  import opened Pages
  import opened Levels
  import opened Stack
  import opened NodeOps
  import opened Trees
  import opened Lookup
  import opened Node
  import opened Shrinking
  import opened Repairing
  import opened NodeMoves

  lemma WholeIsNearly(w: World, cap: int, S: seq<seq<Entry>>, root: int)
    ensures Whole(w, cap, S, root) <==> Nearly(w, cap, S, root, 0)
  {
    hide Good;
  }

  /** Removing a row from its leaf; the leaf may become short. */
  lemma DropRow(w: World, v: World, cap: int, S: seq<seq<Entry>>, root: int, key: int, id: int,
                anc: seq<int>, r: nat, exc: int)
    requires Whole(w, cap, S, root) && LOW < key < TOP && OnPath(w, S, 1, key, id, anc)
    requires var b := At(w.m, id);
             && r < |Entries(b)| && Entries(b)[r].key == key
             && v == w.(m := w.m[id := RemoveBody(b, r)])
             && (exc == id || (exc == 0 && MinFor(1, |S| - 1, cap) < |Entries(b)|))
    ensures Rank(S[0], key) > 0 && S[0][Rank(S[0], key) - 1].key == key
    ensures Nearly(v, cap, S[0 := RemoveAt(S[0], Rank(S[0], key) - 1)], root, exc)
  {
    hide Good;
    hide RemoveBody;
    hide RemoveAt;
    hide Rank;
    hide OnPath;
    hide Level;
    LevelOf(w, cap, S, root, 1);
    LeafEntries(w, S, key, id, anc);
    DropGood(w, v, cap, MinFor(1, |S| - 1, cap), S[0], S[1], key, id, r, exc);
    var q := Rank(S[0], key) - 1;
    TreeStep(w, v, cap, S, 0, S[0], 0, S[0 := RemoveAt(S[0], q)], 0, RemoveAt(S[0], q), exc, 1, {id});
  }

  lemma DropGood(w: World, v: World, cap: int, lo: int, D: seq<Entry>, U: seq<Entry>, key: int, id: int,
                 r: nat, exc: int)
    requires Good(w, cap, 1, lo, D, U, 0) && LOW < key < TOP && U != [] && U[0].key <= key
    requires id == Pick(U, key).val && At(w.m, id).Leaf?
    requires var b := At(w.m, id);
             && r < |Entries(b)| && Entries(b)[r].key == key
             && v == w.(m := w.m[id := RemoveBody(b, r)])
             && (exc == id || (exc == 0 && lo < |Entries(b)|))
    ensures Rank(D, key) > 0 && D[Rank(D, key) - 1].key == key
    ensures Good(v, cap, 1, lo, RemoveAt(D, Rank(D, key) - 1), U, exc)
  {
    hide RemoveBody;
    hide RemoveAt;
    hide Rank;
    hide Seg;
    hide Cat;
    hide Chain;
    hide Occupied;
    DropAt(w, cap, D, U, key, r);
    RemoveGood(w, v, cap, 1, lo, D, U, Rank(U, key) - 1, r, exc);
  }

  lemma LeafEntries(w: World, S: seq<seq<Entry>>, key: int, id: int, anc: seq<int>)
    requires OnPath(w, S, 1, key, id, anc)
    ensures Here(w, 1, Pick(S[1], key)) && id == Pick(S[1], key).val
    ensures Chunk(Pick(S[1], key).key, At(w.m, id)) == Entries(At(w.m, id)) && At(w.m, id).Leaf?
    ensures id in w.tag && w.tag[id].level == 1
  {
    hide Rank;
  }

  /** The row of key sits in the leaf picked for it. */
  lemma DropAt(w: World, cap: int, D: seq<Entry>, U: seq<Entry>, key: int, r: nat)
    requires Level(w, 1, D, U) && LOW < key < TOP
    requires var c := Chunk(Pick(U, key).key, At(w.m, Pick(U, key).val)); r < |c| && c[r].key == key
    ensures Rank(U, key) > 0 && Rank(D, key) > 0 && D[Rank(D, key) - 1].key == key
    ensures |Cat(w.m, U[..Rank(U, key) - 1])| + r == Rank(D, key) - 1
  {
    hide Seg;
    hide Cat;
    hide Rank;
    hide Chunk;
    var i, c, a := Descend(w, 1, D, U, key);
    RankUnique(c, key, r + 1);
    SliceAt(D, a, c, r);
  }

  // ---------------------------------------------------------------- neighbours

  /** Where a page that is not the root sits: index i on its level, offset o in its parent's chunk c. */
  lemma Kin(w: World, cap: int, S: seq<seq<Entry>>, root: int, exc: int, k: nat, key: int)
    returns (i: nat, o: nat, c: seq<Entry>, parent: int)
    requires Nearly(w, cap, S, root, exc) && 1 <= k < |S| - 1 && LOW < key < TOP
    ensures S[k] != [] && S[k][0].key == LOW && S[k + 1] != [] && S[k + 1][0].key == LOW
    ensures i < |S[k]| && S[k][i] == Pick(S[k], key) && o < |c|
    ensures parent == Pick(S[k + 1], key).val && Here(w, k + 1, Pick(S[k + 1], key)) && Here(w, k, S[k][i])
    ensures c == Chunk(Pick(S[k + 1], key).key, At(w.m, parent))
    ensures o <= i && i - o + |c| <= |S[k]| && S[k][i - o..i - o + |c|] == c
    ensures o > 0 ==> Siblings(w, S, k, key, i - 1, o, parent)
    ensures o + 1 < |c| ==> Siblings(w, S, k, key, i, o + 1, parent)
  {
    hide Good;
    hide Rank;
    hide Seg;
    hide Cat;
    hide Tree;
    LevelShort(w, cap, S, root, exc, k);
    LevelShort(w, cap, S, root, exc, k + 1);
    PickLive(w, k, S[k - 1], S[k], key);
    i, o, c, parent := KinAt(w, S, k, key);
  }

  lemma KinAt(w: World, S: seq<seq<Entry>>, k: nat, key: int)
    returns (i: nat, o: nat, c: seq<Entry>, parent: int)
    requires 1 <= k < |S| - 1 && LOW < key < TOP && Level(w, k + 1, S[k], S[k + 1])
    requires S[k] != [] && S[k][0].key == LOW
    ensures i < |S[k]| && S[k][i] == Pick(S[k], key) && o < |c|
    ensures parent == Pick(S[k + 1], key).val && Here(w, k + 1, Pick(S[k + 1], key))
    ensures c == Chunk(Pick(S[k + 1], key).key, At(w.m, parent))
    ensures o <= i && i - o + |c| <= |S[k]| && S[k][i - o..i - o + |c|] == c
    ensures o > 0 ==> Siblings(w, S, k, key, i - 1, o, parent)
    ensures o + 1 < |c| ==> Siblings(w, S, k, key, i, o + 1, parent)
  {
    hide Rank;
    hide Seg;
    hide Cat;
    var p, a;
    p, c, a, o := Parent(w, k + 1, S[k], S[k + 1], key);
    hide Chunk;
    hide Between;
    hide Level;
    i := Rank(S[k], key) - 1;
    parent := S[k + 1][p].val;
  }

  ghost predicate DistinctVals(c: seq<Entry>) {
    forall x, y :: 0 <= x < y < |c| ==> c[x].val != c[y].val
  }

  /** No item of U outside the stretch at a of length |c| has an id that occurs in c. */
  ghost predicate Apart(c: seq<Entry>, U: seq<Entry>, a: nat) {
    forall x, y :: 0 <= x < |c| && 0 <= y < |U| && (y < a || a + |c| <= y) ==> c[x].val != U[y].val
  }

  /** Items of one level under one parent have distinct ids, so an id determines its offset. */
  lemma OffsetUnique(w: World, k: nat, D: seq<Entry>, U: seq<Entry>, a: nat, c: seq<Entry>)
    requires Level(w, k, D, U) && a + |c| <= |U| && U[a..a + |c|] == c
    ensures DistinctVals(c) && Apart(c, U, a)
  {
    hide Seg;
    hide Cat;
    LevelDistinct(w, k, D, U);
    hide Level;
    forall x | 0 <= x < |c| ensures c[x] == U[a + x] { SliceAt(U, a, c, x); }
  }

  /** What the linear search over an internal page finds for the child at offset o of its chunk. */
  lemma ChildIndexAt(low: int, b: Body, c: seq<Entry>, o: nat)
    requires b.Inner? && c == Chunk(low, b) && o < |c|
    requires DistinctVals(c)
    ensures ChildIndex(b, c[o].val) == if o == 0 then |b.entries| else o - 1
  {
    assert c[0].val == b.leftmost;
    if o > 0 {
      assert c[0].val != c[o].val;
      forall y | 0 <= y < o - 1 ensures b.entries[y].val != b.entries[o - 1].val {
        assert c[y + 1].val != c[o].val;
      }
      IndexOfAt(b.entries, o - 1);
    }
  }

  lemma {:induction false} IndexOfAt(es: seq<Entry>, x: nat)
    requires x < |es| && forall y :: 0 <= y < x ==> es[y].val != es[x].val
    ensures IndexOf(es, es[x].val) == x
  {
    if x > 0 {
      assert es[0].val != es[x].val;
      IndexOfAt(es[1..], x - 1);
    }
  }

  lemma {:induction false} IndexOfNone(es: seq<Entry>, child: int)
    requires forall y :: 0 <= y < |es| ==> es[y].val != child
    ensures IndexOf(es, child) == |es|
  {
    if es != [] { IndexOfNone(es[1..], child); }
  }

  // ---------------------------------------------------------------- the root

  /** An internal root without entries gives way to its only child. */
  lemma RootShrinks(w: World, v: World, cap: int, S: seq<seq<Entry>>, root: int, b: Body)
    requires Nearly(w, cap, S, root, root) && |S| > 2
    requires b == At(w.m, root) && Entries(b) == [] && v == w.(tag := w.tag - {root})
    ensures b.Inner? && b.leftmost in w.tag && b.leftmost in w.m
    ensures Whole(v, cap, S[..|S| - 1], b.leftmost)
  {
    hide Good;
    hide Seg;
    hide Cat;
    var n := |S| - 1;
    LevelShort(w, cap, S, root, root, n);
    LoneChild(w, n, S[n - 1], S[n], root, b);
    LevelShort(w, cap, S, root, root, n - 1);
    ChildHere(w, n - 1, S[n - 2], S[n - 1]);
    hide Level;
    var T := S[..n];
    forall k | 1 <= k < |T|
      ensures Good(v, cap, k, MinFor(k, TopOf(T, 0), cap), Under(T, 0, T[0], k), T[k], 0)
    {
      LevelShort(w, cap, S, root, root, k);
      GoodKept(w, v, cap, k, cap / 2, S[k - 1], S[k], root, 0, {root});
      GoodLess(v, cap, k, cap / 2, MinFor(k, n - 1, cap), S[k - 1], S[k]);
    }
  }

  lemma GoodLess(w: World, cap: int, k: nat, lo: int, lo': int, D: seq<Entry>, U: seq<Entry>)
    requires Good(w, cap, k, lo, D, U, 0) && lo' <= lo
    ensures Good(w, cap, k, lo', D, U, 0)
  {
    hide Level;
    hide Chain;
    assert forall i :: 0 <= i < |U| ==> U[i].val == 0 || Filled(w.m, U[i].val, lo, cap);
  }

  lemma LoneChild(w: World, k: nat, D: seq<Entry>, U: seq<Entry>, root: int, b: Body)
    requires Level(w, k, D, U) && k > 1 && U == [Entry(LOW, root)] && b == At(w.m, root) && Entries(b) == []
    ensures b.Inner? && D == [Entry(LOW, b.leftmost)] && Here(w, k, U[0])
  {
    SegAt(w, k, U, TOP, 0);
    assert U[1..] == [];
    assert Cat(w.m, U[1..]) == [];
    assert D == Chunk(LOW, b) + Cat(w.m, U[1..]);
  }

  lemma ChildHere(w: World, k: nat, D: seq<Entry>, U: seq<Entry>)
    requires Level(w, k, D, U)
    ensures Here(w, k, U[0])
  {
    SegAt(w, k, U, TOP, 0);
  }

  // ---------------------------------------------------------------- repair as the code does it

  /** Item j + 1 of level k, at position t of the chunk of its parent b, can be re-seated or dropped
      through the entry that the search for its id finds. */
  ghost predicate Seated(w: World, S: seq<seq<Entry>>, k: nat, key: int, j: nat, t: nat, parent: int, b: Body) {
    && Siblings(w, S, k, key, j, t, parent)
    && Here(w, k, S[k][j]) && Here(w, k, S[k][j + 1]) && S[k][j].val != S[k][j + 1].val
    && b.Inner? && 0 < t <= |b.entries|
    && ChildIndex(b, S[k][j + 1].val) == t - 1
    && b.entries[t - 1] == S[k][j + 1]
  }

  /** The page picked at level k is item i; it sits at offset o under page `parent`, whose contents
      are b. */
  ghost predicate Family(w: World, cap: int, S: seq<seq<Entry>>, k: nat, key: int, i: nat, o: nat,
                         parent: int, b: Body)
  {
    && LOW < key && 1 <= k < |S| - 1
    && S[k] != [] && S[k][0].key == LOW && S[k + 1] != [] && S[k + 1][0].key == LOW
    && b.Inner? && o <= |b.entries| && o <= i && i - o + |b.entries| < |S[k]|
    && S[k][i] == Pick(S[k], key)
    && parent == Pick(S[k + 1], key).val && b == At(w.m, parent) && Here(w, k + 1, Pick(S[k + 1], key))
    && S[k][i - o..i - o + |b.entries| + 1] == Chunk(Pick(S[k + 1], key).key, b)
    && MinFor(k + 1, |S| - 1, cap) <= |b.entries| <= cap
  }

  /** What the code finds when it looks the page and its neighbours up in the parent. */
  ghost predicate Relatives(w: World, S: seq<seq<Entry>>, k: nat, key: int, i: nat, o: nat, parent: int, b: Body)
    requires b.Inner? && k < |S| && o <= |b.entries| && o <= i && i - o + |b.entries| < |S[k]|
  {
    && LeftSibling(b, S[k][i].val) == (if o > 0 then S[k][i - 1].val else 0)
    && RightSibling(b, S[k][i].val) == (if o < |b.entries| then S[k][i + 1].val else 0)
    && (o > 0 ==> Seated(w, S, k, key, i - 1, o, parent, b))
    && (o < |b.entries| ==> Seated(w, S, k, key, i, o + 1, parent, b))
    && (o == 0 ==> ChildIndex(b, S[k][i].val) == |b.entries|)
    && (o == |b.entries| && i + 1 < |S[k]| ==>
          ChildIndex(b, S[k][i + 1].val) == 0 && !IsChild(b, S[k][i + 1].val))
    && (o == 0 && i > 0 ==> !IsChild(b, S[k][i - 1].val))
  }

  lemma FindFamily(w: World, cap: int, S: seq<seq<Entry>>, root: int, exc: int, k: nat, key: int)
    returns (i: nat, o: nat, parent: int, b: Body)
    requires Nearly(w, cap, S, root, exc) && 1 <= k < |S| - 1 && LOW < key < TOP
    requires exc in w.tag ==> w.tag[exc].level == k
    ensures Family(w, cap, S, k, key, i, o, parent, b) && Relatives(w, S, k, key, i, o, parent, b)
  {
    hide Good;
    hide Rank;
    hide Seg;
    hide Cat;
    hide Tree;
    hide Relatives;
    var c;
    i, o, c, parent := Kin(w, cap, S, root, exc, k, key);
    b := At(w.m, parent);
    ChunkAt(Pick(S[k + 1], key).key, b, c);
    AboveShort(w, cap, S, root, exc, k + 1);
    PickFilled(w, cap, k + 1, MinFor(k + 1, |S| - 1, cap), S[k], S[k + 1], key);
    LevelShort(w, cap, S, root, exc, k);
    hide Nearly;
    FindRelatives(w, S, k, key, i, o, parent, b, c, Pick(S[k + 1], key).key);
  }

  lemma FindRelatives(w: World, S: seq<seq<Entry>>, k: nat, key: int, i: nat, o: nat, parent: int, b: Body,
                      c: seq<Entry>, low: int)
    requires 1 <= k < |S| && b.Inner? && c == Chunk(low, b) && o < |c| && o <= i && i - o + |c| <= |S[k]|
    requires S[k][i - o..i - o + |c|] == c && Level(w, k, S[k - 1], S[k])
    requires o > 0 ==> Siblings(w, S, k, key, i - 1, o, parent)
    requires o + 1 < |c| ==> Siblings(w, S, k, key, i, o + 1, parent)
    ensures |c| == |b.entries| + 1 && Relatives(w, S, k, key, i, o, parent, b)
  {
    hide Siblings;
    hide LeftSibling;
    hide RightSibling;
    hide ChildIndex;
    hide IsChild;
    hide DistinctVals;
    hide Apart;
    hide Seated;
    hide Level;
    hide Chunk;
    var U := S[k];
    OffsetUnique(w, k, S[k - 1], U, i - o, c);
    ChunkAt(low, b, c);
    SiblingsAt(low, b, c, o);
    ChildIndexAt(low, b, c, o);
    NotChildren(low, b, c, U, i - o);
    NamesAt(U, c, i, o);
    if o > 0 { SeatedAt(w, S, k, key, i - 1, o, parent, b, c, low); }
    if o + 1 < |c| { SeatedAt(w, S, k, key, i, o + 1, parent, b, c, low); }
  }

  /** The items of a stretch around offset o. */
  lemma NamesAt(U: seq<Entry>, c: seq<Entry>, i: nat, o: nat)
    requires o < |c| && o <= i && i - o + |c| <= |U| && U[i - o..i - o + |c|] == c
    ensures U[i] == c[o] && (o > 0 ==> U[i - 1] == c[o - 1]) && (o + 1 < |c| ==> U[i + 1] == c[o + 1])
  {
    SliceAt(U, i - o, c, o);
    if o > 0 { SliceAt(U, i - o, c, o - 1); }
    if o + 1 < |c| { SliceAt(U, i - o, c, o + 1); }
  }

  lemma SeatedAt(w: World, S: seq<seq<Entry>>, k: nat, key: int, j: nat, t: nat, parent: int, b: Body,
                 c: seq<Entry>, low: int)
    requires 1 <= k < |S| && j + 1 < |S[k]| && Level(w, k, S[k - 1], S[k])
    requires b.Inner? && c == Chunk(low, b) && 0 < t < |c| && DistinctVals(c)
    requires Siblings(w, S, k, key, j, t, parent) && c[t] == S[k][j + 1]
    ensures Seated(w, S, k, key, j, t, parent, b)
  {
    hide Seg;
    hide Cat;
    hide Siblings;
    hide ChildIndex;
    hide DistinctVals;
    ChildIndexAt(low, b, c, t);
    ChunkAt(low, b, c);
    assert b.entries[t - 1] == c[t];
    LevelDistinct(w, k, S[k - 1], S[k]);
    hide Level;
    assert Here(w, k, S[k][j]) && Here(w, k, S[k][j + 1]);
  }

  ghost predicate IsChild(b: Body, id: int) {
    b.Inner? && (b.leftmost == id || exists j :: 0 <= j < |b.entries| && b.entries[j].val == id)
  }

  lemma NotChildren(low: int, b: Body, c: seq<Entry>, U: seq<Entry>, a: nat)
    requires b.Inner? && c == Chunk(low, b) && a + |c| <= |U|
    requires Apart(c, U, a)
    ensures forall y :: 0 <= y < |U| && (y < a || a + |c| <= y) ==>
      !IsChild(b, U[y].val) && ChildIndex(b, U[y].val) == 0
  {
    forall y | 0 <= y < |U| && (y < a || a + |c| <= y)
      ensures !IsChild(b, U[y].val) && ChildIndex(b, U[y].val) == 0
    {
      assert c[0].val != U[y].val;
      forall x | 0 <= x < |b.entries| ensures b.entries[x].val != U[y].val {
        assert c[x + 1].val != U[y].val;
      }
      IndexOfNone(b.entries, U[y].val);
    }
  }

  lemma ChunkAt(low: int, b: Body, c: seq<Entry>)
    requires b.Inner? && c == Chunk(low, b)
    ensures |c| == |b.entries| + 1 && c[0].val == b.leftmost
    ensures forall x :: 0 <= x < |b.entries| ==> b.entries[x] == c[x + 1]
  {
  }

  lemma SiblingsAt(low: int, b: Body, c: seq<Entry>, o: nat)
    requires b.Inner? && c == Chunk(low, b) && o < |c|
    requires DistinctVals(c)
    ensures LeftSibling(b, c[o].val) == if o > 0 then c[o - 1].val else 0
    ensures RightSibling(b, c[o].val) == if o + 1 < |c| then c[o + 1].val else 0
  {
    ChildIndexAt(low, b, c, o);
    hide ChildIndex;
    ChunkAt(low, b, c);
  }

  lemma PickFilled(w: World, cap: int, k: nat, lo: int, D: seq<Entry>, U: seq<Entry>, key: int)
    requires Good(w, cap, k, lo, D, U, 0) && LOW < key < TOP
    ensures Here(w, k, Pick(U, key)) && Filled(w.m, Pick(U, key).val, lo, cap)
  {
    hide Seg;
    hide Cat;
    hide Chain;
    hide Rank;
    PickLive(w, k, D, U, key);
    KeyBelowHead(U, key);
    hide Level;
  }

  /** Size of the page next to the short one. */
  lemma NeighbourFilled(w: World, cap: int, S: seq<seq<Entry>>, root: int, exc: int, k: nat, j: nat)
    requires Nearly(w, cap, S, root, exc) && 1 <= k < |S| - 1 && j < |S[k]| && S[k][j].val != exc
    ensures Filled(w.m, S[k][j].val, cap / 2, cap)
  {
    hide Good;
    LevelShort(w, cap, S, root, exc, k);
    GoodFilled(w, cap, k, cap / 2, S[k - 1], S[k], exc, j);
  }

  lemma GoodFilled(w: World, cap: int, k: nat, lo: int, D: seq<Entry>, U: seq<Entry>, exc: int, j: nat)
    requires Good(w, cap, k, lo, D, U, exc) && j < |U| && U[j].val != exc
    ensures Filled(w.m, U[j].val, lo, cap)
  {
    hide Level;
    hide Chain;
  }

  lemma ReseatIsRekey(b: Body, t: nat, sep: int, id: int, cap: nat)
    requires b.Inner? && 0 < t <= |b.entries| && b.entries[t - 1].val == id
    ensures Reseat(b, t - 1, Entry(sep, id), cap) == RekeyBody(b, t, sep)
    ensures DropEntry(b, t - 1) == RemoveBody(b, t)
  {
  }

  /** The world after the code has borrowed between the pages of x and y under page `parent`. */
  ghost function Borrowed(w: World, k: nat, x: Entry, y: Entry, fromLeft: bool, parent: int, t: nat, cap: nat): World
    requires 0 < t <= |Entries(At(w.m, parent))|
  {
    var l, r, b := At(w.m, x.val), At(w.m, y.val), At(w.m, parent);
    var sep := ShiftKey(l, r, fromLeft);
    World(w.m[x.val := ShiftLeft(l, r, y.key, fromLeft)][y.val := ShiftRight(l, r, y.key, fromLeft)]
             [parent := Reseat(b, t - 1, Entry(sep, y.val), cap)],
          w.tag[y.val := Tag(k, sep)], w.nid)
  }

  lemma BorrowDone(w: World, cap: int, S: seq<seq<Entry>>, root: int, k: nat, key: int, j: nat, t: nat,
                   parent: int, b: Body, fromLeft: bool, exc: int)
    requires Nearly(w, cap, S, root, exc) && 1 <= k < |S| - 1 && j + 1 < |S[k]| && cap >= 0
    requires Seated(w, S, k, key, j, t, parent, b) && b == At(w.m, parent)
    requires parent != S[k][j].val && parent != S[k][j + 1].val
    requires exc == if fromLeft then S[k][j + 1].val else S[k][j].val
    requires var l, r := At(w.m, S[k][j].val), At(w.m, S[k][j + 1].val);
             if fromLeft then |Entries(l)| > cap / 2 && |Entries(r)| == cap / 2 - 1
             else |Entries(r)| > cap / 2 && |Entries(l)| == cap / 2 - 1
    ensures var x, y := S[k][j], S[k][j + 1];
            var sep := ShiftKey(At(w.m, x.val), At(w.m, y.val), fromLeft);
            Whole(Borrowed(w, k, x, y, fromLeft, parent, t, cap), cap, S[k := S[k][j + 1 := Entry(sep, y.val)]], root)
  {
    hide Nearly;
    hide Siblings;
    hide ShiftKey;
    hide ShiftLeft;
    hide ShiftRight;
    hide Reseat;
    hide RekeyBody;
    hide ChildIndex;
    var x, y := S[k][j], S[k][j + 1];
    Borrow(w, cap, S, root, k, key, j, t, parent, fromLeft, exc);
    ReseatIsRekey(b, t, ShiftKey(At(w.m, x.val), At(w.m, y.val), fromLeft), y.val, cap);
  }

  /** The world after the code has merged the page of y into that of x; `parent` is in memory only. */
  ghost function Joined(w: World, x: Entry, y: Entry, parent: int, t: nat): World
    requires t > 0
  {
    World(MergeMap(w.m, x, y)[parent := DropEntry(At(w.m, parent), t - 1)], w.tag - {y.val}, w.nid)
  }

  lemma JoinDone(w: World, cap: int, S: seq<seq<Entry>>, root: int, k: nat, key: int, j: nat, t: nat,
                 parent: int, b: Body, exc: int, exc': int)
    requires Nearly(w, cap, S, root, exc) && 1 <= k < |S| - 1 && j + 1 < |S[k]|
    requires Seated(w, S, k, key, j, t, parent, b) && b == At(w.m, parent)
    requires parent in w.tag && w.tag[parent].level == k + 1
    requires exc == S[k][j].val || exc == S[k][j + 1].val
    requires |Entries(At(w.m, S[k][j].val))| + |Entries(At(w.m, S[k][j + 1].val))| == 2 * (cap / 2) - 1
    requires exc' == parent || (exc' == 0 && MinFor(k + 1, |S| - 1, cap) < |Entries(b)|)
    ensures Nearly(Joined(w, S[k][j], S[k][j + 1], parent, t), cap, S[k := RemoveAt(S[k], j + 1)], root, exc')
  {
    hide Good;
    hide Siblings;
    hide MergeMap;
    hide RemoveBody;
    hide DropEntry;
    hide RemoveAt;
    hide ChildIndex;
    var x, y := S[k][j], S[k][j + 1];
    LevelShort(w, cap, S, root, exc, k);
    MergeOnly(w, cap, k, cap / 2, S[k - 1], S[k], j,
              if k == 1 && j + 2 < |S[k]| then S[k][j + 2].val else x.val, exc);
    hide Tree;
    Join(w, cap, S, root, k, key, j, t, parent, exc, exc');
    ReseatIsRekey(b, t, 0, y.val, 0);
  }

  lemma ExcFilled(w: World, cap: int, k: nat, lo: int, D: seq<Entry>, U: seq<Entry>, exc: int)
    requires Good(w, cap, k, lo, D, U, exc)
    requires (exc in w.tag && w.tag[exc].level == k) ==> Filled(w.m, exc, lo, cap)
    ensures Good(w, cap, k, lo, D, U, 0)
  {
    hide Seg;
    hide Cat;
    hide Chain;
    LevelDistinct(w, k, D, U);
    hide Level;
    forall i | 0 <= i < |U| ensures Filled(w.m, U[i].val, lo, cap) {
      assert Here(w, k, U[i]);
    }
  }

  /** A page that is not the root and holds enough entries is no exception. */
  lemma PageFilled(w: World, cap: int, S: seq<seq<Entry>>, root: int, k: nat, id: int)
    requires Nearly(w, cap, S, root, id) && 1 <= k < |S| && id in w.tag && w.tag[id].level == k
    requires Filled(w.m, id, MinFor(k, |S| - 1, cap), cap)
    ensures Whole(w, cap, S, root)
  {
    hide Good;
    forall j | 1 <= j < |S|
      ensures Good(w, cap, j, MinFor(j, TopOf(S, 0), cap), Under(S, 0, S[0], j), S[j], 0)
    {
      LevelShort(w, cap, S, root, id, j);
      ExcFilled(w, cap, j, MinFor(j, |S| - 1, cap), S[j - 1], S[j], id);
    }
  }

  lemma RootIs(w: World, cap: int, S: seq<seq<Entry>>, root: int, id: int, key: int)
    requires |S| >= 2 && S[|S| - 1] != [] && S[|S| - 1][0].key <= key
    requires Nearly(w, cap, S, root, id) && id == Pick(S[|S| - 1], key).val
    ensures id == root && |S[|S| - 1]| == 1 && (forall i :: i in w.tag ==> 0 < i < w.nid)
  {
    hide Good;
    assert S[|S| - 1][1..] == [];
  }

  /** The left neighbour under the same parent, as the repair uses it. */
  lemma LeftKin(w: World, cap: int, S: seq<seq<Entry>>, root: int, exc: int, k: nat, key: int, i: nat, o: nat,
                parent: int, b: Body)
    requires Nearly(w, cap, S, root, exc) && Family(w, cap, S, k, key, i, o, parent, b)
    requires Relatives(w, S, k, key, i, o, parent, b) && o > 0 && exc == S[k][i].val
    ensures var x := S[k][i - 1].val;
            && Seated(w, S, k, key, i - 1, o, parent, b)
            && Here(w, k, S[k][i - 1]) && Here(w, k, S[k][i]) && Here(w, k + 1, Pick(S[k + 1], key))
            && x != exc && x != parent && exc != parent && x > 0 && exc > 0 && parent > 0
            && Filled(w.m, x, cap / 2, cap)
  {
    hide Nearly;
    hide Siblings;
    hide ChildIndex;
    hide LeftSibling;
    hide RightSibling;
    hide IsChild;
    hide Rank;
    NeighbourFilled(w, cap, S, root, exc, k, i - 1);
  }

  lemma RightKin(w: World, cap: int, S: seq<seq<Entry>>, root: int, exc: int, k: nat, key: int, i: nat, o: nat,
                 parent: int, b: Body)
    requires Nearly(w, cap, S, root, exc) && Family(w, cap, S, k, key, i, o, parent, b)
    requires Relatives(w, S, k, key, i, o, parent, b) && o < |b.entries| && exc == S[k][i].val
    ensures i + 1 < |S[k]|
    ensures var y := S[k][i + 1].val;
            && Seated(w, S, k, key, i, o + 1, parent, b)
            && Here(w, k, S[k][i]) && Here(w, k, S[k][i + 1]) && Here(w, k + 1, Pick(S[k + 1], key))
            && y != exc && y != parent && exc != parent && y > 0 && exc > 0 && parent > 0
            && Filled(w.m, y, cap / 2, cap)
  {
    hide Nearly;
    hide Siblings;
    hide ChildIndex;
    hide LeftSibling;
    hide RightSibling;
    hide IsChild;
    hide Rank;
    NeighbourFilled(w, cap, S, root, exc, k, i + 1);
  }

  /** What the family amounts to for the code: ids of parent and siblings. */
  lemma KinIds(w: World, cap: int, S: seq<seq<Entry>>, root: int, exc: int, k: nat, key: int, i: nat, o: nat,
               parent: int, b: Body)
    requires Nearly(w, cap, S, root, exc) && Family(w, cap, S, k, key, i, o, parent, b)
    requires Relatives(w, S, k, key, i, o, parent, b) && exc == S[k][i].val
    ensures b.Inner? && 1 <= |b.entries| <= cap && OddCapacity(cap)
    ensures LeftSibling(b, exc) == if o > 0 then S[k][i - 1].val else 0
    ensures RightSibling(b, exc) == if o < |b.entries| then S[k][i + 1].val else 0
    ensures parent in w.m && parent in w.tag && w.tag[parent].level == k + 1
    ensures o == 0 ==> o < |b.entries|
    ensures k + 1 < |S| - 1 ==> |b.entries| >= cap / 2
  {
    hide Good;
    hide Siblings;
    hide ChildIndex;
    hide LeftSibling;
    hide RightSibling;
    hide IsChild;
    hide Rank;
    hide Seated;
  }

  lemma SeatedIndex(w: World, S: seq<seq<Entry>>, k: nat, key: int, j: nat, t: nat, parent: int, b: Body)
    requires Seated(w, S, k, key, j, t, parent, b)
    ensures b.Inner? && ChildIndex(b, S[k][j + 1].val) == t - 1 && 0 < t <= |b.entries|
  {
    hide ChildIndex;
    hide Siblings;
  }

  lemma FirstChild(w: World, S: seq<seq<Entry>>, k: nat, key: int, i: nat, parent: int, b: Body)
    requires b.Inner? && k < |S| && i + |b.entries| < |S[k]| && Relatives(w, S, k, key, i, 0, parent, b)
    ensures ChildIndex(b, S[k][i].val) == |b.entries|
  {
    hide ChildIndex;
    hide Siblings;
  }

  lemma LastChild(w: World, S: seq<seq<Entry>>, k: nat, key: int, i: nat, parent: int, b: Body)
    requires b.Inner? && k < |S| && |b.entries| <= i && i + 1 < |S[k]|
    requires Relatives(w, S, k, key, i, |b.entries|, parent, b)
    ensures ChildIndex(b, S[k][i + 1].val) == 0
  {
    hide ChildIndex;
    hide Siblings;
  }

  /** Only the contents of live pages matter. */
  lemma NearlySame(w: World, v: World, cap: int, S: seq<seq<Entry>>, root: int, exc: int)
    requires Nearly(w, cap, S, root, exc) && v.tag == w.tag && v.nid == w.nid
    requires forall id :: id in w.tag && id in w.m ==> At(v.m, id) == At(w.m, id)
    ensures Nearly(v, cap, S, root, exc)
  {
    hide Good;
    forall k | 1 <= k < |S|
      ensures Good(v, cap, k, MinFor(k, TopOf(S, 0), cap), Under(S, 0, S[0], k), S[k], exc)
    {
      GoodAlike(w, v, cap, k, MinFor(k, TopOf(S, 0), cap), Under(S, 0, S[0], k), S[k], exc);
    }
  }

  lemma GoodAlike(w: World, v: World, cap: int, k: nat, lo: int, D: seq<Entry>, U: seq<Entry>, exc: int)
    requires Good(w, cap, k, lo, D, U, exc) && v.tag == w.tag && v.nid == w.nid
    requires forall id :: id in w.tag && id in w.m ==> At(v.m, id) == At(w.m, id)
    ensures Good(v, cap, k, lo, D, U, exc)
  {
    hide Seg;
    hide Cat;
    LevelDistinct(w, k, D, U);
    forall i | 0 <= i < |U| ensures Kept(w, v, U[i].val) && w.m[U[i].val] == v.m[U[i].val] {
      assert Here(w, k, U[i]);
    }
    SegKept(w, v, k, U, TOP);
  }

  /** Two pages under one parent, seated there: both live, and with the key of the right one. */
  lemma SeatedPages(w: World, S: seq<seq<Entry>>, k: nat, key: int, j: nat, t: nat, parent: int, b: Body)
    requires Seated(w, S, k, key, j, t, parent, b) && k > 1
    ensures 1 <= k < |S| && j + 1 < |S[k]| && 0 < t <= |Entries(b)|
    ensures Here(w, k, S[k][j]) && Here(w, k, S[k][j + 1]) && S[k][j].val != S[k][j + 1].val
    ensures b.Inner? && b.entries[t - 1] == S[k][j + 1]
  {
    hide ChildIndex;
  }

  /** The pages a merge of internal pages writes are those of the merged level, wherever it matters. */
  lemma MergedInnerAgree(m: map<int, Body>, n: map<int, Body>, x: Entry, y: Entry, exc: int, id: int)
    requires n == m[exc := At(n, exc)] && (exc == x.val || exc == y.val) && x.val != y.val
    requires At(n, x.val).Inner? && At(n, y.val).Inner? && id != y.val
    ensures At(m[x.val := MergedInner(At(n, x.val), At(n, y.val), y.key)], id) == At(MergeMap(n, x, y), id)
  {
  }

  /** The same when the metadata page has been rewritten and the old root has not. */
  lemma RootReplaced(w: World, v: World, cap: int, S: seq<seq<Entry>>, root: int)
    requires Nearly(w, cap, S, root, root) && |S| > 2 && Entries(At(w.m, root)) == []
    requires v.tag == w.tag - {root} && v.nid == w.nid
    requires forall id :: id in v.tag ==> At(v.m, id) == At(w.m, id)
    ensures At(w.m, root).Inner? && Whole(v, cap, S[..|S| - 1], At(w.m, root).leftmost)
  {
    hide Nearly;
    hide Whole;
    var b, T, u := At(w.m, root), S[..|S| - 1], w.(tag := w.tag - {root});
    RootShrinks(w, u, cap, S, root, b);
    WholeIsNearly(u, cap, T, b.leftmost);
    NearlySame(u, v, cap, T, b.leftmost, 0);
    WholeIsNearly(v, cap, T, b.leftmost);
  }
}
