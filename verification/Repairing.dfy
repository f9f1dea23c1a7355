/** Underflow repair: a page one entry short borrows from, or merges with, a neighbour under the same
    parent. */
module Repairing {
  import opened Pages
  import opened Levels
  import opened Stack
  import opened NodeOps
  import opened Trees
  import opened Inserting
  import opened Lookup
  import opened Shrinking

  /** A whole tree, except that page exc may hold too few entries. */
  ghost predicate Nearly(w: World, cap: int, S: seq<seq<Entry>>, root: int, exc: int) {
    && |S| >= 2 && Tree(w, cap, S, 0, S[0], exc)
    && S[|S| - 1] == [Entry(LOW, root)]
  }

  lemma LevelShort(w: World, cap: int, S: seq<seq<Entry>>, root: int, exc: int, k: nat)
    requires Nearly(w, cap, S, root, exc) && 1 <= k < |S|
    ensures Good(w, cap, k, MinFor(k, |S| - 1, cap), S[k - 1], S[k], exc)
    ensures Level(w, k, S[k - 1], S[k])
  {
    hide Good;
    assert Good(w, cap, k, MinFor(k, TopOf(S, 0), cap), Under(S, 0, S[0], k), S[k], exc);
    assert Level(w, k, S[k - 1], S[k]) by { GoodIsLevel(w, cap, k, MinFor(k, |S| - 1, cap), S[k - 1], S[k], exc); }
  }

  lemma GoodIsLevel(w: World, cap: int, k: nat, lo: int, D: seq<Entry>, U: seq<Entry>, exc: int)
    requires Good(w, cap, k, lo, D, U, exc)
    ensures Level(w, k, D, U)
  {
  }

  /** The parent of the page picked at level k, and where in its chunk that page sits. */
  lemma Parent(w: World, k: nat, D: seq<Entry>, U: seq<Entry>, key: int)
    returns (p: nat, c: seq<Entry>, a: nat, o: nat)
    requires Level(w, k, D, U) && k > 1 && LOW < key < TOP
    ensures Rank(U, key) == p + 1 <= |U| && Here(w, k, U[p])
    ensures c == Chunk(U[p].key, At(w.m, U[p].val)) && a == |Cat(w.m, U[..p])|
    ensures a + |c| <= |D| && D[a..a + |c|] == c && o < |c| && Rank(D, key) == a + o + 1
    ensures Between(c, U[p].key, Head(U[p + 1..], TOP))
  {
    hide Seg;
    hide Cat;
    hide Rank;
    hide Chunk;
    p, c, a := Descend(w, k, D, U, key);
    InnerRank(U[p].key, At(w.m, U[p].val), key, Head(U[p + 1..], TOP));
    o := Rank(c, key) - 1;
  }

  /** Level k + 1 is not affected by the exception of level k. */
  lemma AboveShort(w: World, cap: int, S: seq<seq<Entry>>, root: int, exc: int, k: nat)
    requires Nearly(w, cap, S, root, exc) && 1 <= k < |S|
    requires exc in w.tag ==> w.tag[exc].level != k
    ensures Good(w, cap, k, MinFor(k, |S| - 1, cap), S[k - 1], S[k], 0)
  {
    hide Good;
    LevelShort(w, cap, S, root, exc, k);
    GoodKept(w, w, cap, k, MinFor(k, |S| - 1, cap), S[k - 1], S[k], exc, 0, {});
  }

  // ---------------------------------------------------------------- borrowing

  /** The world after borrowing across the border of items x and y and re-keying their parent. */
  ghost function BorrowWorld(w: World, k: nat, x: Entry, y: Entry, fromLeft: bool, parent: int, t: nat): World {
    var v := ShiftWorld(w, k, x, y, fromLeft);
    v.(m := v.m[parent := RekeyBody(At(v.m, parent), t, ShiftKey(At(w.m, x.val), At(w.m, y.val), fromLeft))])
  }

  /** Items j and j + 1 of level k lie under the page picked at level k + 1, the second one at
      position t of its chunk. */
  ghost predicate Siblings(w: World, S: seq<seq<Entry>>, k: nat, key: int, j: nat, t: nat, parent: int) {
    && 1 <= k < |S| - 1 && j + 1 < |S[k]|
    && LOW < key < TOP && S[k + 1] != [] && S[k + 1][0].key <= key
    && 0 < Rank(S[k + 1], key) <= |S[k + 1]|
    && parent == Pick(S[k + 1], key).val
    && var it := Pick(S[k + 1], key); var c := Chunk(it.key, At(w.m, parent));
       && 0 < t < |c| && |Cat(w.m, S[k + 1][..Rank(S[k + 1], key) - 1])| + t == j + 1
  }

  /** Replacing level k, below the root, by a good one leaves a gap above it and nothing else amiss. */
  lemma LevelStep(w: World, v: World, cap: int, S: seq<seq<Entry>>, root: int, exc: int, k: nat, V: seq<Entry>,
                  touched: set<int>)
    requires Nearly(w, cap, S, root, exc) && 1 <= k < |S| - 1
    requires Only(w, v, touched) && v.nid == w.nid && v.tag.Keys <= w.tag.Keys
    requires forall id :: id in touched && id in w.tag ==> w.tag[id].level == k
    requires exc in w.tag ==> w.tag[exc].level == k
    requires Good(v, cap, k, cap / 2, S[k - 1], V, 0)
    ensures Tree(v, cap, S[k := V], k, S[k], 0)
  {
    hide Good;
    hide Only;
    TreeStep(w, v, cap, S, 0, S[0], exc, S[k := V], k, S[k], 0, k, touched);
  }

  lemma NearlyBasics(w: World, cap: int, S: seq<seq<Entry>>, root: int, exc: int)
    requires Nearly(w, cap, S, root, exc)
    ensures OddCapacity(cap) && forall id :: id in w.tag ==> 0 < id < w.nid
  {
    hide Good;
  }

  lemma BorrowBelow(w: World, cap: int, S: seq<seq<Entry>>, root: int, k: nat, j: nat, fromLeft: bool, exc: int)
    requires Nearly(w, cap, S, root, exc) && 1 <= k < |S| - 1 && j + 1 < |S[k]|
    requires exc == if fromLeft then S[k][j + 1].val else S[k][j].val
    requires var l, r := At(w.m, S[k][j].val), At(w.m, S[k][j + 1].val);
             if fromLeft then |Entries(l)| > cap / 2 && |Entries(r)| == cap / 2 - 1
             else |Entries(r)| > cap / 2 && |Entries(l)| == cap / 2 - 1
    ensures var U := S[k]; var sep := ShiftKey(At(w.m, U[j].val), At(w.m, U[j + 1].val), fromLeft);
            && U[j].key < sep < Head(U[j + 2..], TOP)
            && Tree(ShiftWorld(w, k, U[j], U[j + 1], fromLeft), cap,
                    S[k := U[j + 1 := Entry(sep, U[j + 1].val)]], k, U, 0)
  {
    hide Nearly;
    hide Good;
    hide Tree;
    hide Level;
    hide ShiftKey;
    hide ShiftLeft;
    hide ShiftRight;
    var U := S[k];
    var x, y, v := U[j], U[j + 1], ShiftWorld(w, k, U[j], U[j + 1], fromLeft);
    NearlyBasics(w, cap, S, root, exc);
    PairHere(w, cap, S, root, k, j, exc);
    LevelShort(w, cap, S, root, exc, k);
    ShiftGood(w, cap, k, cap / 2, S[k - 1], U, j, fromLeft);
    var sep := ShiftKey(At(w.m, x.val), At(w.m, y.val), fromLeft);
    LevelStep(w, v, cap, S, root, exc, k, U[j + 1 := Entry(sep, y.val)], {x.val, y.val});
  }

  /** The parent and its place are the same in a world that differs at level k only. */
  lemma SiblingsKept(w: World, v: World, S: seq<seq<Entry>>, k: nat, key: int, j: nat, t: nat, parent: int)
    requires Siblings(w, S, k, key, j, t, parent) && Level(w, k + 1, S[k], S[k + 1])
    requires forall id :: id in w.tag && w.tag[id].level != k ==> At(v.m, id) == At(w.m, id)
    ensures Siblings(v, S, k, key, j, t, parent) && Here(w, k + 1, Pick(S[k + 1], key))
    ensures At(v.m, parent) == At(w.m, parent)
  {
    hide Seg;
    hide Cat;
    hide Rank;
    hide Chunk;
    var U := S[k + 1];
    LevelDistinct(w, k + 1, S[k], U);
    hide Level;
    assert forall i :: 0 <= i < |U| ==> Here(w, k + 1, U[i]);
    CatSame(w.m, v.m, U[..Rank(U, key) - 1]);
  }

  lemma ShiftOther(w: World, k: nat, x: Entry, y: Entry, fromLeft: bool)
    requires Here(w, k, x) && Here(w, k, y)
    ensures forall id :: id in w.tag && w.tag[id].level != k ==>
      At(ShiftWorld(w, k, x, y, fromLeft).m, id) == At(w.m, id)
  {
    hide ShiftKey;
    hide ShiftLeft;
    hide ShiftRight;
  }

  /** Re-keying position t of the parent's chunk re-keys item j + 1 below. */
  lemma BorrowAbove(w: World, v: World, cap: int, lo: int, S: seq<seq<Entry>>,
                    k: nat, key: int, j: nat, t: nat, parent: int, sep: int)
    requires Siblings(w, S, k, key, j, t, parent)
    requires S[k][j].key < sep < Head(S[k][j + 2..], TOP)
    requires Good(w, cap, k + 1, lo, S[k], S[k + 1], 0)
    requires v == w.(m := w.m[parent := RekeyBody(At(w.m, parent), t, sep)])
    ensures Good(v, cap, k + 1, lo, S[k][j + 1 := Entry(sep, S[k][j + 1].val)], S[k + 1], 0)
  {
    hide RekeyBody;
    hide Rank;
    hide Seg;
    hide Cat;
    hide Chain;
    hide Occupied;
    hide Between;
    var U, U2 := S[k], S[k + 1];
    var p := Rank(U2, key) - 1;
    var c, a := Chunk(U2[p].key, At(w.m, parent)), |Cat(w.m, U2[..p])|;
    hide Chunk;
    CoverIndex(w, k + 1, U, U2, p);
    SliceAt(U, a, c, t - 1);
    NextInChunk(w, k + 1, U, U2, p, a, c, t);
    RekeyGood(w, v, cap, k + 1, lo, U, U2, p, t, sep);
  }

  /** Borrowing from a neighbour under the same parent makes the tree whole. */
  lemma Borrow(w: World, cap: int, S: seq<seq<Entry>>, root: int, k: nat, key: int, j: nat, t: nat,
               parent: int, fromLeft: bool, exc: int)
    requires Nearly(w, cap, S, root, exc) && 1 <= k < |S| - 1 && j + 1 < |S[k]|
    requires Siblings(w, S, k, key, j, t, parent)
    requires exc == if fromLeft then S[k][j + 1].val else S[k][j].val
    requires var l, r := At(w.m, S[k][j].val), At(w.m, S[k][j + 1].val);
             if fromLeft then |Entries(l)| > cap / 2 && |Entries(r)| == cap / 2 - 1
             else |Entries(r)| > cap / 2 && |Entries(l)| == cap / 2 - 1
    ensures var U := S[k]; var sep := ShiftKey(At(w.m, U[j].val), At(w.m, U[j + 1].val), fromLeft);
            Whole(BorrowWorld(w, k, U[j], U[j + 1], fromLeft, parent, t), cap,
                  S[k := U[j + 1 := Entry(sep, U[j + 1].val)]], root)
  {
    hide Good;
    hide Level;
    hide ShiftKey;
    hide ShiftLeft;
    hide ShiftRight;
    hide RekeyBody;
    hide Siblings;
    var U := S[k];
    var sep := ShiftKey(At(w.m, U[j].val), At(w.m, U[j + 1].val), fromLeft);
    var v1 := ShiftWorld(w, k, U[j], U[j + 1], fromLeft);
    var S' := S[k := U[j + 1 := Entry(sep, U[j + 1].val)]];
    PairHere(w, cap, S, root, k, j, exc);
    ShiftOther(w, k, U[j], U[j + 1], fromLeft);
    SiblingsKept(w, v1, S, k, key, j, t, parent);
    BorrowBelow(w, cap, S, root, k, j, fromLeft, exc);
    hide Nearly;
    BorrowTop(w, v1, cap, S, S', root, k, key, j, t, parent, sep);
  }

  lemma PairHere(w: World, cap: int, S: seq<seq<Entry>>, root: int, k: nat, j: nat, exc: int)
    requires Nearly(w, cap, S, root, exc) && 1 <= k < |S| - 1 && j + 1 < |S[k]|
    ensures Here(w, k, S[k][j]) && Here(w, k, S[k][j + 1]) && S[k][j].val != S[k][j + 1].val
    ensures Level(w, k + 1, S[k], S[k + 1]) && Level(w, k, S[k - 1], S[k])
    ensures S[|S| - 1] == [Entry(LOW, root)]
  {
    hide Good;
    LevelShort(w, cap, S, root, exc, k);
    LevelShort(w, cap, S, root, exc, k + 1);
    hide Tree;
    LevelDistinct(w, k, S[k - 1], S[k]);
  }

  lemma BorrowTop(w: World, v1: World, cap: int, S: seq<seq<Entry>>, S': seq<seq<Entry>>, root: int,
                  k: nat, key: int, j: nat, t: nat, parent: int, sep: int)
    requires 1 <= k < |S| - 1 && j + 1 < |S[k]| && S[|S| - 1] == [Entry(LOW, root)]
    requires S' == S[k := S[k][j + 1 := Entry(sep, S[k][j + 1].val)]]
    requires Tree(v1, cap, S', k, S[k], 0) && Siblings(v1, S, k, key, j, t, parent)
    requires S[k][j].key < sep < Head(S[k][j + 2..], TOP)
    ensures Whole(v1.(m := v1.m[parent := RekeyBody(At(v1.m, parent), t, sep)]), cap, S', root)
  {
    hide Good;
    hide Rank;
    hide RekeyBody;
    var v := v1.(m := v1.m[parent := RekeyBody(At(v1.m, parent), t, sep)]);
    var lo := MinFor(k + 1, TopOf(S', k), cap);
    assert Good(v1, cap, k + 1, lo, Under(S', k, S[k], k + 1), S'[k + 1], 0);
    ParentTag(v1, cap, k + 1, lo, S[k], S[k + 1], Pick(S[k + 1], key), key);
    BorrowAbove(v1, v, cap, lo, S, k, key, j, t, parent, sep);
    hide Siblings;
    TreeStep(v1, v, cap, S', k, S[k], 0, S', 0, S'[0], 0, k + 1, {parent});
  }

  lemma ParentTag(w: World, cap: int, k: nat, lo: int, D: seq<Entry>, U: seq<Entry>, it: Entry, key: int)
    requires Good(w, cap, k, lo, D, U, 0) && LOW < key < TOP && U != [] && U[0].key <= key && it == Pick(U, key)
    ensures it.val in w.tag && w.tag[it.val].level == k && it.val in w.m
  {
    hide Seg;
    hide Cat;
    hide Chain;
    hide Occupied;
    hide Rank;
    PickLive(w, k, D, U, key);
  }

  lemma {:induction false} CatSame(m: map<int, Body>, n: map<int, Body>, U: seq<Entry>)
    requires forall i :: 0 <= i < |U| ==> At(m, U[i].val) == At(n, U[i].val)
    ensures Cat(m, U) == Cat(n, U)
  {
    if U != [] {
      assert forall i :: 0 <= i < |U[1..]| ==> U[1..][i] == U[i + 1];
      CatSame(m, n, U[1..]);
    }
  }

  /** The entry after position t of a chunk, or the bound of the next page, is the next item below. */
  lemma NextInChunk(w: World, k: nat, D: seq<Entry>, U: seq<Entry>, p: nat, a: nat, c: seq<Entry>, t: nat)
    requires Level(w, k, D, U) && k > 1 && p < |U|
    requires c == Chunk(U[p].key, At(w.m, U[p].val)) && a == |Cat(w.m, U[..p])| && t < |c|
    requires a + |c| <= |D| && D[a..a + |c|] == c
    ensures Head(D[a + t + 1..], TOP) <= if t + 1 < |c| then c[t + 1].key else Head(U[p + 1..], TOP)
  {
    hide Seg;
    hide Cat;
    hide Chunk;
    RowsSorted(w, k, D, U);
    if t + 1 < |c| {
      SliceAt(D, a, c, t + 1);
    } else {
      NextBound(w, k, D, U, p, a + t + 1);
    }
  }

  // ---------------------------------------------------------------- merging

  /** The world after the page of y was merged into that of x and dropped from their parent. */
  ghost function JoinWorld(w: World, x: Entry, y: Entry, parent: int, t: nat): World {
    var v := MergeWorld(w, x, y);
    v.(m := v.m[parent := RemoveBody(At(v.m, parent), t)])
  }

  lemma JoinBelow(w: World, cap: int, S: seq<seq<Entry>>, root: int, k: nat, j: nat, exc: int)
    requires Nearly(w, cap, S, root, exc) && 1 <= k < |S| - 1 && j + 1 < |S[k]|
    requires exc == S[k][j].val || exc == S[k][j + 1].val
    requires |Entries(At(w.m, S[k][j].val))| + |Entries(At(w.m, S[k][j + 1].val))| == 2 * (cap / 2) - 1
    ensures Tree(MergeWorld(w, S[k][j], S[k][j + 1]), cap, S[k := RemoveAt(S[k], j + 1)], k, S[k], 0)
  {
    hide Nearly;
    hide Good;
    hide Tree;
    hide Level;
    hide MergeWorld;
    hide RemoveAt;
    hide Only;
    var U := S[k];
    var x, y, v := U[j], U[j + 1], MergeWorld(w, U[j], U[j + 1]);
    NearlyBasics(w, cap, S, root, exc);
    PairHere(w, cap, S, root, k, j, exc);
    LevelShort(w, cap, S, root, exc, k);
    MergeGoodAt(w, cap, k, cap / 2, S[k - 1], U, j, exc);
    var nx := if k == 1 && j + 2 < |U| then U[j + 2].val else x.val;
    MergeOnly(w, cap, k, cap / 2, S[k - 1], U, j, nx, exc);
    LevelStep(w, v, cap, S, root, exc, k, RemoveAt(U, j + 1), {x.val, y.val, nx});
  }

  lemma MergeGoodAt(w: World, cap: int, k: nat, lo: int, D: seq<Entry>, U: seq<Entry>, j: nat, exc: int)
    requires j + 1 < |U| && OddCapacity(cap) && lo == cap / 2
    requires Good(w, cap, k, lo, D, U, exc) && (exc == U[j].val || exc == U[j + 1].val)
    requires |Entries(At(w.m, U[j].val))| + |Entries(At(w.m, U[j + 1].val))| == 2 * lo - 1
    ensures MergeWorld(w, U[j], U[j + 1]).nid == w.nid
    ensures MergeWorld(w, U[j], U[j + 1]).tag == w.tag - {U[j + 1].val}
    ensures Good(MergeWorld(w, U[j], U[j + 1]), cap, k, lo, D, RemoveAt(U, j + 1), 0)
  {
    hide Good;
    hide MergeMap;
    MergeGood(w, cap, k, lo, D, U, j, exc);
    assert U[..j] + [U[j]] + U[j + 2..] == RemoveAt(U, j + 1);
  }

  /** A merge touches the two pages and, for leaves, the one behind them. */
  lemma MergeOnly(w: World, cap: int, k: nat, lo: int, D: seq<Entry>, U: seq<Entry>, j: nat, nx: int, exc: int)
    requires Good(w, cap, k, lo, D, U, exc) && j + 1 < |U|
    requires nx == if k == 1 && j + 2 < |U| then U[j + 2].val else U[j].val
    ensures Only(w, MergeWorld(w, U[j], U[j + 1]), {U[j].val, U[j + 1].val, nx})
    ensures forall id :: id in {U[j].val, U[j + 1].val, nx} && id in w.tag ==> w.tag[id].level == k
    ensures forall id :: id in w.tag && w.tag[id].level != k ==>
      At(MergeWorld(w, U[j], U[j + 1]).m, id) == At(w.m, id)
  {
    hide Seg;
    hide Cat;
    hide Occupied;
    hide MergeWorld;
    LevelDistinct(w, k, D, U);
    hide Level;
    assert Here(w, k, U[j]) && Here(w, k, U[j + 1]) && (j + 2 < |U| ==> Here(w, k, U[j + 2]));
    assert k == 1 ==> At(w.m, U[j + 1].val).next == IdAt(U, j + 2);
    hide Chain;
    MergeTouches(w, U[j], U[j + 1], nx, k);
  }

  lemma MergeTouches(w: World, x: Entry, y: Entry, nx: int, k: nat)
    requires Here(w, k, x) && Here(w, k, y) && nx in w.tag && w.tag[nx].level == k
    requires At(w.m, y.val).Leaf? ==> At(w.m, y.val).next == 0 || At(w.m, y.val).next == nx
    ensures Only(w, MergeWorld(w, x, y), {x.val, y.val, nx})
    ensures forall id :: id in w.tag && w.tag[id].level != k ==> At(MergeWorld(w, x, y).m, id) == At(w.m, id)
  {
    hide Merged;
  }

  /** Dropping position t of the parent's chunk drops item j + 1 below. */
  lemma JoinAbove(w: World, v: World, cap: int, lo: int, S: seq<seq<Entry>>,
                  k: nat, key: int, j: nat, t: nat, parent: int, exc: int)
    requires Siblings(w, S, k, key, j, t, parent)
    requires Good(w, cap, k + 1, lo, S[k], S[k + 1], 0)
    requires exc == parent || (exc == 0 && lo < |Entries(At(w.m, parent))|)
    requires v == w.(m := w.m[parent := RemoveBody(At(w.m, parent), t)])
    ensures Good(v, cap, k + 1, lo, RemoveAt(S[k], j + 1), S[k + 1], exc)
  {
    hide RemoveBody;
    hide Rank;
    hide Seg;
    hide Cat;
    hide Chain;
    hide Occupied;
    hide Between;
    hide Chunk;
    RemoveGood(w, v, cap, k + 1, lo, S[k], S[k + 1], Rank(S[k + 1], key) - 1, t, exc);
  }

  /** Merging two pages under the same parent leaves a whole tree, or one whose parent is short. */
  lemma Join(w: World, cap: int, S: seq<seq<Entry>>, root: int, k: nat, key: int, j: nat, t: nat,
             parent: int, exc: int, exc': int)
    requires Nearly(w, cap, S, root, exc) && 1 <= k < |S| - 1 && j + 1 < |S[k]|
    requires Siblings(w, S, k, key, j, t, parent)
    requires exc == S[k][j].val || exc == S[k][j + 1].val
    requires |Entries(At(w.m, S[k][j].val))| + |Entries(At(w.m, S[k][j + 1].val))| == 2 * (cap / 2) - 1
    requires exc' == parent || (exc' == 0 && MinFor(k + 1, |S| - 1, cap) < |Entries(At(w.m, parent))|)
    ensures Nearly(JoinWorld(w, S[k][j], S[k][j + 1], parent, t), cap, S[k := RemoveAt(S[k], j + 1)], root, exc')
  {
    hide Good;
    hide Level;
    hide Merged;
    hide MergeMap;
    hide RemoveBody;
    hide RemoveAt;
    hide Siblings;
    var U := S[k];
    var v1 := MergeWorld(w, U[j], U[j + 1]);
    PairHere(w, cap, S, root, k, j, exc);
    LevelShort(w, cap, S, root, exc, k);
    MergeOnly(w, cap, k, cap / 2, S[k - 1], U, j,
              if k == 1 && j + 2 < |U| then U[j + 2].val else U[j].val, exc);
    SiblingsKept(w, v1, S, k, key, j, t, parent);
    JoinBelow(w, cap, S, root, k, j, exc);
    hide Nearly;
    JoinTop(v1, cap, S, S[k := RemoveAt(U, j + 1)], root, k, key, j, t, parent, exc');
  }

  lemma JoinTop(v1: World, cap: int, S: seq<seq<Entry>>, S': seq<seq<Entry>>, root: int,
                k: nat, key: int, j: nat, t: nat, parent: int, exc: int)
    requires 1 <= k < |S| - 1 && j + 1 < |S[k]| && S[|S| - 1] == [Entry(LOW, root)]
    requires S' == S[k := RemoveAt(S[k], j + 1)]
    requires Tree(v1, cap, S', k, S[k], 0) && Siblings(v1, S, k, key, j, t, parent)
    requires exc == parent || (exc == 0 && MinFor(k + 1, |S| - 1, cap) < |Entries(At(v1.m, parent))|)
    ensures Nearly(v1.(m := v1.m[parent := RemoveBody(At(v1.m, parent), t)]), cap, S', root, exc)
  {
    hide Good;
    hide Rank;
    hide RemoveBody;
    hide RemoveAt;
    var v := v1.(m := v1.m[parent := RemoveBody(At(v1.m, parent), t)]);
    var lo := MinFor(k + 1, TopOf(S', k), cap);
    assert Good(v1, cap, k + 1, lo, Under(S', k, S[k], k + 1), S'[k + 1], 0);
    ParentTag(v1, cap, k + 1, lo, S[k], S[k + 1], Pick(S[k + 1], key), key);
    JoinAbove(v1, v, cap, lo, S, k, key, j, t, parent, exc);
    hide Siblings;
    TreeStep(v1, v, cap, S', k, S[k], 0, S', 0, S'[0], exc, k + 1, {parent});
  }
}
