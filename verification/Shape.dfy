/** The invariant in the usual terms: a recursive reading of the pages from the root.

    The rest of the development describes a tree level by level; the lemmas here derive from that
    what one expects of a B+ tree, page by page. */
module Shape {
  import opened Pages
  import opened Levels
  import opened Stack
  import opened Trees
  import opened Lookup

  /** Page id is the root of a proper subtree of height h for keys of [lo, hi): all leaves at depth h,
      keys and separators strictly ascending, each separator bounding the subtrees beside it, the
      page itself holding least to cap entries and every page below it at least cap / 2. */
  ghost predicate Proper(m: map<int, Body>, cap: int, id: int, h: nat, lo: int, hi: int, least: int)
    decreases h, 0
  {
    var b := At(m, id);
    && h > 0 && KindOf(h, b)
    && least <= |Entries(b)| <= cap
    && Between(Chunk(lo, b), lo, hi)
    && (h > 1 ==> ProperRun(m, cap, Chunk(lo, b), h - 1, hi))
  }

  /** The same for a run of neighbouring subtrees, each from its own key to the next. */
  ghost predicate ProperRun(m: map<int, Body>, cap: int, es: seq<Entry>, h: nat, hi: int)
    decreases h, |es|
  {
    es == [] ||
    (Proper(m, cap, es[0].val, h, es[0].key, Head(es[1..], hi), cap / 2) && ProperRun(m, cap, es[1..], h, hi))
  }

  /** The leaves below page id of height h, from left to right. */
  ghost function Leaves(m: map<int, Body>, id: int, h: nat): seq<int>
    decreases h, 0
  {
    if h <= 1 then [id] else LeavesOfRun(m, Chunk(LOW, At(m, id)), h - 1)
  }

  ghost function LeavesOfRun(m: map<int, Body>, es: seq<Entry>, h: nat): seq<int>
    decreases h, |es|
  {
    if es == [] then [] else Leaves(m, es[0].val, h) + LeavesOfRun(m, es[1..], h)
  }

  /** The entries of the given leaves, in order. */
  ghost function RowsOf(m: map<int, Body>, ids: seq<int>): seq<Entry> {
    if ids == [] then [] else Entries(At(m, ids[0])) + RowsOf(m, ids[1..])
  }

  /** The pages met by following the next links from id, at most n of them. */
  ghost function Forward(m: map<int, Body>, id: int, n: nat): seq<int>
    decreases n
  {
    if n == 0 || id == 0 || !At(m, id).Leaf? then [] else [id] + Forward(m, At(m, id).next, n - 1)
  }

  /** The pages met by following the prev links from id, at most n of them, last one first. */
  ghost function Backward(m: map<int, Body>, id: int, n: nat): seq<int>
    decreases n
  {
    if n == 0 || id == 0 || !At(m, id).Leaf? then [] else Backward(m, At(m, id).prev, n - 1) + [id]
  }

  function Ids(U: seq<Entry>): seq<int> {
    seq(|U|, i requires 0 <= i < |U| => U[i].val)
  }

  // ---------------------------------------------------------------- runs of subtrees

  lemma {:induction false} ProperConcat(m: map<int, Body>, cap: int, a: seq<Entry>, b: seq<Entry>, h: nat, hi: int)
    ensures ProperRun(m, cap, a + b, h, hi) <==> ProperRun(m, cap, a, h, Head(b, hi)) && ProperRun(m, cap, b, h, hi)
  {
    if a == [] {
      assert a + b == b;
    } else {
      assert (a + b)[1..] == a[1..] + b;
      ProperConcat(m, cap, a[1..], b, h, hi);
    }
  }

  lemma {:induction false} LeavesConcat(m: map<int, Body>, a: seq<Entry>, b: seq<Entry>, h: nat)
    ensures LeavesOfRun(m, a + b, h) == LeavesOfRun(m, a, h) + LeavesOfRun(m, b, h)
  {
    if a == [] {
      assert a + b == b;
    } else {
      assert (a + b)[1..] == a[1..] + b;
      LeavesConcat(m, a[1..], b, h);
    }
  }

  /** Leaves depend on the ids of a run, not on its keys. */
  lemma LeavesOfPage(m: map<int, Body>, it: Entry, h: nat)
    requires h > 1 && At(m, it.val).Inner?
    ensures Leaves(m, it.val, h) == LeavesOfRun(m, Chunk(it.key, At(m, it.val)), h - 1)
  {
    var b := At(m, it.val);
    assert Chunk(LOW, b)[1..] == b.entries == Chunk(it.key, b)[1..];
  }

  /** One level down: a run of pages is proper if what it covers is, and has the same leaves. */
  lemma {:induction false} RunDown(w: World, cap: int, U: seq<Entry>, h: nat, hi: int)
    requires h > 1 && Seg(w, h, U, hi) && Occupied(w.m, U, cap / 2, cap, 0)
    requires ProperRun(w.m, cap, Cat(w.m, U), h - 1, hi)
    ensures ProperRun(w.m, cap, U, h, hi)
  {
    if U != [] {
      var c, T := Chunk(U[0].key, At(w.m, U[0].val)), U[1..];
      ProperConcat(w.m, cap, c, Cat(w.m, T), h - 1, hi);
      HeadOfCat(w, h, T, hi);
      assert forall i :: 0 <= i < |T| ==> T[i] == U[i + 1];
      RunDown(w, cap, T, h, hi);
    }
  }

  lemma HeadOfCat(w: World, h: nat, U: seq<Entry>, hi: int)
    requires h > 1 && Seg(w, h, U, hi)
    ensures Head(Cat(w.m, U), hi) == Head(U, hi)
  {
    if U != [] { assert Chunk(U[0].key, At(w.m, U[0].val))[0].key == U[0].key; }
  }

  lemma {:induction false} LeavesDown(w: World, U: seq<Entry>, h: nat, hi: int)
    requires h > 1 && Seg(w, h, U, hi)
    ensures LeavesOfRun(w.m, U, h) == LeavesOfRun(w.m, Cat(w.m, U), h - 1)
  {
    if U != [] {
      LeavesDown(w, U[1..], h, hi);
      LeavesOfPage(w.m, U[0], h);
      LeavesConcat(w.m, Chunk(U[0].key, At(w.m, U[0].val)), Cat(w.m, U[1..]), h - 1);
    }
  }

  // ---------------------------------------------------------------- whole levels

  lemma {:induction false} LeafRun(w: World, cap: int, U: seq<Entry>, hi: int)
    requires Seg(w, 1, U, hi) && Occupied(w.m, U, cap / 2, cap, 0)
    ensures ProperRun(w.m, cap, U, 1, hi)
  {
    if U != [] {
      var T := U[1..];
      assert forall i :: 0 <= i < |T| ==> T[i] == U[i + 1];
      LeafRun(w, cap, T, hi);
    }
  }

  /** Every level below the root is a run of proper subtrees. */
  lemma {:induction false} LevelProper(w: World, cap: int, S: seq<seq<Entry>>, root: int, k: nat)
    requires Whole(w, cap, S, root) && 1 <= k < |S| - 1
    ensures ProperRun(w.m, cap, S[k], k, TOP)
  {
    hide Whole;
    hide Seg;
    hide Cat;
    hide ProperRun;
    hide Chain;
    LevelOf(w, cap, S, root, k);
    if k == 1 {
      LeafRun(w, cap, S[1], TOP);
    } else {
      LevelProper(w, cap, S, root, k - 1);
      RunDown(w, cap, S[k], k, TOP);
    }
  }

  /** Every level leads to the same leaves. */
  lemma {:induction false} LevelLeaves(w: World, cap: int, S: seq<seq<Entry>>, root: int, k: nat)
    requires Whole(w, cap, S, root) && 1 <= k < |S|
    ensures LeavesOfRun(w.m, S[k], k) == Ids(S[1])
  {
    hide Whole;
    hide Seg;
    hide Cat;
    hide LeavesOfRun;
    hide Chain;
    hide Ids;
    if k == 1 {
      LeavesAreIds(w.m, S[1]);
    } else {
      LevelLeaves(w, cap, S, root, k - 1);
      LevelOf(w, cap, S, root, k);
      LeavesDown(w, S[k], k, TOP);
    }
  }

  lemma {:induction false} LeavesAreIds(m: map<int, Body>, U: seq<Entry>)
    ensures LeavesOfRun(m, U, 1) == Ids(U)
  {
    if U != [] {
      LeavesAreIds(m, U[1..]);
      assert Ids(U) == [U[0].val] + Ids(U[1..]);
    }
  }

  lemma {:induction false} RowsAreCat(w: World, U: seq<Entry>, hi: int)
    requires Seg(w, 1, U, hi)
    ensures RowsOf(w.m, Ids(U)) == Cat(w.m, U)
  {
    if U != [] {
      RowsAreCat(w, U[1..], hi);
      assert Ids(U)[1..] == Ids(U[1..]);
    }
  }

  /** A tree read from its root: proper at every page, and its rows are the entries of its leaves. */
  lemma TreeIsProper(w: World, cap: int, S: seq<seq<Entry>>, root: int)
    requires Whole(w, cap, S, root)
    ensures |S| >= 2
    ensures Proper(w.m, cap, root, |S| - 1, LOW, TOP, if |S| == 2 then 0 else 1)
    ensures Leaves(w.m, root, |S| - 1) == Ids(S[1])
    ensures RowsOf(w.m, Leaves(w.m, root, |S| - 1)) == S[0]
  {
    hide Cat;
    hide Seg;
    hide Chain;
    hide ProperRun;
    hide LeavesOfRun;
    hide RowsOf;
    hide Proper;
    hide Ids;
    var n := |S| - 1;
    LevelOf(w, cap, S, root, n);
    LevelOf(w, cap, S, root, 1);
    LevelLeaves(w, cap, S, root, n);
    RowsAreCat(w, S[1], TOP);
    if n > 1 { LevelProper(w, cap, S, root, n - 1); }
    hide Whole;
    RootProper(w, cap, n, S[n - 1], S[n], root);
  }

  lemma RootProper(w: World, cap: int, n: nat, D: seq<Entry>, U: seq<Entry>, root: int)
    requires n > 0 && Good(w, cap, n, MinFor(n, n, cap), D, U, 0) && U == [Entry(LOW, root)]
    requires n > 1 ==> ProperRun(w.m, cap, D, n - 1, TOP)
    ensures Proper(w.m, cap, root, n, LOW, TOP, if n == 1 then 0 else 1)
    ensures LeavesOfRun(w.m, U, n) == Leaves(w.m, root, n)
  {
    SegAt(w, n, U, TOP, 0);
    SegOne(w, n, U[0], TOP);
    assert U[1..] == [];
    assert LeavesOfRun(w.m, U[1..], n) == [];
    assert Filled(w.m, U[0].val, MinFor(n, n, cap), cap);
  }

  // ---------------------------------------------------------------- the leaf chain

  lemma IdsSplit(U: seq<Entry>, i: nat)
    requires i <= |U|
    ensures Ids(U[..0]) == [] == Ids(U[|U|..])
    ensures i < |U| ==> Ids(U[i..]) == [U[i].val] + Ids(U[i + 1..]) && Ids(U[..i + 1]) == Ids(U[..i]) + [U[i].val]
  {
  }

  lemma {:induction false} ForwardFrom(m: map<int, Body>, U: seq<Entry>, i: nat, n: nat)
    requires Chain(m, U) && i <= |U| && n >= |U| - i && forall j :: 0 <= j < |U| ==> U[j].val != 0
    ensures Forward(m, IdAt(U, i), n) == Ids(U[i..])
    decreases |U| - i
  {
    hide Ids;
    IdsSplit(U, i);
    if i < |U| {
      ForwardFrom(m, U, i + 1, n - 1);
    }
  }

  lemma {:induction false} BackwardFrom(m: map<int, Body>, U: seq<Entry>, i: nat, n: nat)
    requires Chain(m, U) && i <= |U| && n >= i && forall j :: 0 <= j < |U| ==> U[j].val != 0
    ensures Backward(m, IdAt(U, i - 1), n) == Ids(U[..i])
  {
    hide Ids;
    IdsSplit(U, if i > 0 then i - 1 else 0);
    if i > 0 {
      BackwardFrom(m, U, i - 1, n - 1);
    }
  }

  /** Following Next from the first leaf visits exactly the leaves of the tree, in key order, and ends
      at 0; following Prev from the last one visits the same leaves backwards. */
  lemma ChainIsTheLeaves(w: World, cap: int, S: seq<seq<Entry>>, root: int, n: nat)
    requires Whole(w, cap, S, root) && |S| > 1 && n >= |S[1]|
    ensures var ids := Leaves(w.m, root, |S| - 1);
            && |ids| == |S[1]| > 0
            && Forward(w.m, ids[0], n) == ids == Backward(w.m, ids[|ids| - 1], n)
  {
    TreeIsProper(w, cap, S, root);
    LevelOf(w, cap, S, root, 1);
    LevelDistinct(w, 1, S[0], S[1]);
    hide Whole;
    hide Level;
    var U := S[1];
    forall j | 0 <= j < |U| ensures U[j].val != 0 { assert Here(w, 1, U[j]); }
    ForwardFrom(w.m, U, 0, n);
    BackwardFrom(w.m, U, |U|, n);
    assert U[0..] == U[..|U|] == U;
  }
}
