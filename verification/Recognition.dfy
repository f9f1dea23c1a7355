/** The invariant does not depend on ghost state: pages that read as a proper tree from the root, each
    reached once and the leaves linked in order, are a tree, and only those are. */
module Recognition {
  import opened Pages
  import opened Levels
  import opened Stack
  import opened NodeOps
  import opened Trees
  import opened Lookup
  import opened Cousins
  import opened Shape

  /** The pages of height k below a root of height h, with their lower bounds, from left to right; for
      k == 0 the rows. */
  ghost function Layer(m: map<int, Body>, root: int, h: nat, k: nat): seq<Entry>
    requires k <= h
    decreases h - k
  {
    if k == h then [Entry(LOW, root)] else Cat(m, Layer(m, root, h, k + 1))
  }

  ghost function Layers(m: map<int, Body>, root: int, h: nat): (S: seq<seq<Entry>>)
    ensures |S| == h + 1
  {
    seq(h + 1, k requires 0 <= k <= h => Layer(m, root, h, k))
  }

  /** No page is reached twice, and all have been allocated. */
  ghost predicate Once(m: map<int, Body>, nid: int, root: int, h: nat) {
    var S := Layers(m, root, h);
    && (forall k, i :: 1 <= k <= h && 0 <= i < |S[k]| ==> 0 < S[k][i].val < nid)
    && (forall k, i, l, j :: (1 <= k <= h && 1 <= l <= h && 0 <= i < |S[k]| && 0 <= j < |S[l]| &&
                               S[k][i].val == S[l][j].val) ==> k == l && i == j)
  }

  /** Read from the root, the pages are a B+ tree of height h. */
  ghost predicate IsTree(m: map<int, Body>, nid: int, cap: int, root: int, h: nat) {
    && OddCapacity(cap) && h >= 1 && nid > 0
    && Proper(m, cap, root, h, LOW, TOP, if h == 1 then 0 else 1)
    && Once(m, nid, root, h)
    && Chain(m, Layer(m, root, h, 1))
  }

  // ---------------------------------------------------------------- from the invariant to the pages

  /** The levels of a tree are what one finds from the root. */
  lemma {:induction false} LevelIsLayer(w: World, cap: int, S: seq<seq<Entry>>, root: int, k: nat)
    requires Whole(w, cap, S, root) && k < |S|
    ensures S[k] == Layer(w.m, root, |S| - 1, k)
    decreases |S| - k
  {
    hide Cat;
    hide Seg;
    if k < |S| - 1 {
      LevelIsLayer(w, cap, S, root, k + 1);
      LevelOf(w, cap, S, root, k + 1);
    }
  }

  lemma WholeIsTree(w: World, cap: int, S: seq<seq<Entry>>, root: int)
    requires Whole(w, cap, S, root)
    ensures |S| >= 2 && IsTree(w.m, w.nid, cap, root, |S| - 1) && S == Layers(w.m, root, |S| - 1)
  {
    hide Proper;
    hide Once;
    hide Good;
    TreeIsProper(w, cap, S, root);
    LiveIdsInRange(w, cap, S, root);
    var h := |S| - 1;
    forall k | 0 <= k <= h ensures S[k] == Layers(w.m, root, h)[k] { LevelIsLayer(w, cap, S, root, k); }
    LevelIsLayer(w, cap, S, root, 1);
    LevelOf(w, cap, S, root, 1);
    WholeOnce(w, cap, S, root);
    GoodChain(w, cap, 1, MinFor(1, h, cap), S[0], S[1]);
  }

  lemma GoodChain(w: World, cap: int, k: nat, lo: int, D: seq<Entry>, U: seq<Entry>)
    requires Good(w, cap, k, lo, D, U, 0) && k == 1
    ensures Chain(w.m, U)
  {
    hide Level;
  }

  lemma WholeOnce(w: World, cap: int, S: seq<seq<Entry>>, root: int)
    requires Whole(w, cap, S, root) && S == Layers(w.m, root, |S| - 1)
    ensures Once(w.m, w.nid, root, |S| - 1)
  {
    hide Whole;
    forall k | 1 <= k < |S|
      ensures forall i :: 0 <= i < |S[k]| ==> Here(w, k, S[k][i])
      ensures forall i, j :: 0 <= i < j < |S[k]| ==> S[k][i].val != S[k][j].val
    {
      LevelOf(w, cap, S, root, k);
      LevelDistinct(w, k, S[k - 1], S[k]);
    }
    hide Layers;
  }

  // ---------------------------------------------------------------- from the pages to the invariant

  lemma {:induction false} ProperHeads(m: map<int, Body>, cap: int, U: seq<Entry>, k: nat, hi: int)
    requires k > 1 && ProperRun(m, cap, U, k, hi)
    ensures Head(Cat(m, U), hi) == Head(U, hi)
  {
    if U != [] { assert Chunk(U[0].key, At(m, U[0].val))[0].key == U[0].key; }
  }

  /** What a run of proper subtrees covers is a run of proper subtrees. */
  lemma {:induction false} ProperBelow(m: map<int, Body>, cap: int, U: seq<Entry>, k: nat, hi: int)
    requires k > 1 && ProperRun(m, cap, U, k, hi)
    ensures ProperRun(m, cap, Cat(m, U), k - 1, hi)
  {
    if U != [] {
      var c, T := Chunk(U[0].key, At(m, U[0].val)), U[1..];
      ProperBelow(m, cap, T, k, hi);
      ProperHeads(m, cap, T, k, hi);
      ProperConcat(m, cap, c, Cat(m, T), k - 1, hi);
    }
  }

  lemma {:induction false} LayerProper(m: map<int, Body>, cap: int, root: int, h: nat, k: nat, least: int)
    requires 1 <= k < h && Proper(m, cap, root, h, LOW, TOP, least)
    ensures ProperRun(m, cap, Layer(m, root, h, k), k, TOP)
    decreases h - k
  {
    hide ProperRun;
    if k == h - 1 {
      CatOne(m, Entry(LOW, root));
      assert Layer(m, root, h, h) == [Entry(LOW, root)];
    } else {
      LayerProper(m, cap, root, h, k + 1, least);
      ProperBelow(m, cap, Layer(m, root, h, k + 1), k + 1, TOP);
    }
  }

  /** Every item of a layer carries the tag of its page. */
  ghost predicate Tagged(w: World, k: nat, U: seq<Entry>) {
    forall i :: 0 <= i < |U| ==>
      0 < U[i].val < w.nid && U[i].val in w.tag && w.tag[U[i].val] == Tag(k, U[i].key)
  }

  lemma {:induction false} ProperIsSeg(w: World, cap: int, U: seq<Entry>, k: nat, hi: int)
    requires ProperRun(w.m, cap, U, k, hi) && Tagged(w, k, U) && k > 0 && cap >= 2
    ensures Seg(w, k, U, hi) && Occupied(w.m, U, cap / 2, cap, 0)
  {
    if U != [] {
      var T := U[1..];
      assert forall i :: 0 <= i < |T| ==> T[i] == U[i + 1];
      ProperIsSeg(w, cap, T, k, hi);
      var b := At(w.m, U[0].val);
      assert U[0].val in w.m && Chunk(U[0].key, b) != [];
      assert U[0].key <= Chunk(U[0].key, b)[0].key < Head(T, hi);
    }
  }

  /** The address of a page, found by looking through the layers. */
  ghost function Address(S: seq<seq<Entry>>, id: int): Tag
    requires exists k, i :: 1 <= k < |S| && 0 <= i < |S[k]| && S[k][i].val == id
  {
    var k, i :| 1 <= k < |S| && 0 <= i < |S[k]| && S[k][i].val == id;
    Tag(k, S[k][i].key)
  }

  ghost function Reached(S: seq<seq<Entry>>): set<int> {
    set k, i | 1 <= k < |S| && 0 <= i < |S[k]| :: S[k][i].val
  }

  /** The world in which every page that is reached has its address. */
  ghost function Surveyed(m: map<int, Body>, nid: int, S: seq<seq<Entry>>): World {
    World(m, map id | id in Reached(S) :: Address(S, id), nid)
  }

  lemma SurveyTags(m: map<int, Body>, nid: int, root: int, h: nat, k: nat)
    requires Once(m, nid, root, h) && 1 <= k <= h
    ensures Tagged(Surveyed(m, nid, Layers(m, root, h)), k, Layers(m, root, h)[k])
  {
    var S := Layers(m, root, h);
    hide Layers;
    var w := Surveyed(m, nid, S);
    forall i | 0 <= i < |S[k]|
      ensures 0 < S[k][i].val < w.nid && S[k][i].val in w.tag && w.tag[S[k][i].val] == Tag(k, S[k][i].key)
    {
      assert S[k][i].val in Reached(S);
    }
  }

  lemma SurveyIds(m: map<int, Body>, nid: int, root: int, h: nat)
    requires Once(m, nid, root, h)
    ensures forall id :: id in Surveyed(m, nid, Layers(m, root, h)).tag ==> 0 < id < nid
  {
    var S := Layers(m, root, h);
    hide Layers;
    assert forall id :: id in Reached(S) ==> 0 < id < nid;
  }

  lemma LayerStarts(m: map<int, Body>, cap: int, root: int, h: nat, k: nat, least: int)
    requires 1 <= k < h && Proper(m, cap, root, h, LOW, TOP, least)
    ensures Layer(m, root, h, k) != [] && Layer(m, root, h, k)[0].key == LOW
    decreases h - k
  {
    if k == h - 1 {
      CatOne(m, Entry(LOW, root));
      assert Layer(m, root, h, h) == [Entry(LOW, root)];
    } else {
      LayerStarts(m, cap, root, h, k + 1, least);
      LayerProper(m, cap, root, h, k + 1, least);
      ProperHeads(m, cap, Layer(m, root, h, k + 1), k + 1, TOP);
      NonEmptyBelow(m, cap, Layer(m, root, h, k + 1), k + 1, TOP);
    }
  }

  lemma NonEmptyBelow(m: map<int, Body>, cap: int, U: seq<Entry>, k: nat, hi: int)
    requires k > 1 && ProperRun(m, cap, U, k, hi) && U != []
    ensures Cat(m, U) != []
  {
    assert Chunk(U[0].key, At(m, U[0].val)) != [];
  }

  lemma LayerGood(m: map<int, Body>, nid: int, cap: int, root: int, h: nat, k: nat)
    requires IsTree(m, nid, cap, root, h) && 1 <= k <= h
    ensures var S := Layers(m, root, h);
            Good(Surveyed(m, nid, S), cap, k, MinFor(k, h, cap), S[k - 1], S[k], 0)
  {
    hide Once;
    hide Surveyed;
    hide Chain;
    hide Cat;
    hide Seg;
    hide Proper;
    hide ProperRun;
    hide Tagged;
    var S, w, least := Layers(m, root, h), Surveyed(m, nid, Layers(m, root, h)), if h == 1 then 0 else 1;
    SurveyTags(m, nid, root, h, k);
    SurveyHas(m, nid, S);
    assert Layer(m, root, h, k - 1) == Cat(m, Layer(m, root, h, k));
    if k == h {
      RootSeg(w, cap, root, h, least);
    } else {
      LayerStarts(m, cap, root, h, k, least);
      LayerProper(m, cap, root, h, k, least);
      ProperIsSeg(w, cap, S[k], k, TOP);
    }
  }

  lemma SurveyHas(m: map<int, Body>, nid: int, S: seq<seq<Entry>>)
    ensures Surveyed(m, nid, S).m == m && Surveyed(m, nid, S).nid == nid
  {
  }

  lemma RootSeg(w: World, cap: int, root: int, h: nat, least: int)
    requires h >= 1 && Proper(w.m, cap, root, h, LOW, TOP, least) && Tagged(w, h, [Entry(LOW, root)])
    ensures Seg(w, h, [Entry(LOW, root)], TOP) && Occupied(w.m, [Entry(LOW, root)], least, cap, 0)
  {
    var it := Entry(LOW, root);
    assert Tagged(w, h, [it]) && [it][0] == it;
    SegOne(w, h, it, TOP);
  }

  /** A tree read from the root satisfies the invariant. */
  lemma TreeIsWhole(m: map<int, Body>, nid: int, cap: int, root: int, h: nat)
    requires IsTree(m, nid, cap, root, h)
    ensures Whole(Surveyed(m, nid, Layers(m, root, h)), cap, Layers(m, root, h), root)
  {
    hide Once;
    hide Proper;
    hide Good;
    hide Surveyed;
    hide Chain;
    var S, w := Layers(m, root, h), Surveyed(m, nid, Layers(m, root, h));
    SurveyHas(m, nid, S);
    SurveyIds(m, nid, root, h);
    forall k | 1 <= k < |S|
      ensures Good(w, cap, k, MinFor(k, TopOf(S, 0), cap), Under(S, 0, S[0], k), S[k], 0)
    {
      LayerGood(m, nid, cap, root, h, k);
    }
  }

  /** So whether pages store given contents can be read off the pages. */
  lemma StoresIsReadable(m: map<int, Body>, nid: int, cap: int, root: int, contents: map<int, int>)
    ensures Stores(m, nid, cap, root, contents) <==>
            exists h :: IsTree(m, nid, cap, root, h) && ToMap(RowsOf(m, Leaves(m, root, h))) == contents
  {
    hide Whole;
    hide IsTree;
    hide ToMap;
    if Stores(m, nid, cap, root, contents) {
      var S: seq<seq<Entry>>, tag: map<int, Tag> :|
        Whole(World(m, tag, nid), cap, S, root) && S != [] && ToMap(S[0]) == contents;
      WholeIsTree(World(m, tag, nid), cap, S, root);
      TreeIsProper(World(m, tag, nid), cap, S, root);
      assert IsTree(m, nid, cap, root, |S| - 1);
    }
    forall h | IsTree(m, nid, cap, root, h) && ToMap(RowsOf(m, Leaves(m, root, h))) == contents
      ensures Stores(m, nid, cap, root, contents)
    {
      var S := Layers(m, root, h);
      TreeIsWhole(m, nid, cap, root, h);
      SurveyHas(m, nid, S);
      TreeIsProper(Surveyed(m, nid, S), cap, S, root);
      StoresWitness(Surveyed(m, nid, S), cap, S, root);
    }
  }

  /** And whether they are a tree at all. */
  lemma NoTreeIsReadable(m: map<int, Body>, nid: int, cap: int, root: int)
    ensures NoTree(m, nid, cap, root) <==> forall h :: !IsTree(m, nid, cap, root, h)
  {
    hide Whole;
    hide IsTree;
    forall S: seq<seq<Entry>>, tag: map<int, Tag> | Whole(World(m, tag, nid), cap, S, root)
      ensures exists h :: IsTree(m, nid, cap, root, h)
    {
      WholeIsTree(World(m, tag, nid), cap, S, root);
      assert IsTree(m, nid, cap, root, |S| - 1);
    }
    forall h | IsTree(m, nid, cap, root, h) ensures !NoTree(m, nid, cap, root) {
      var S := Layers(m, root, h);
      TreeIsWhole(m, nid, cap, root, h);
      SurveyHas(m, nid, S);
      assert Surveyed(m, nid, S) == World(m, Surveyed(m, nid, S).tag, nid);
    }
  }
}
