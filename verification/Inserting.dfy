/** The climb of a new item through the tree: insertion into a page with room, split of a full
    page, growth of a new root. */
module Inserting {
  import opened Pages
  import opened Levels
  import opened Stack
  import opened NodeOps
  import opened Trees

  /** e belongs at position q of the sorted sequence D. */
  ghost predicate Slots(D: seq<Entry>, q: nat, e: Entry) {
    && q <= |D|
    && (q > 0 ==> D[q - 1].key < e.key)
    && (q < |D| ==> e.key < D[q].key)
  }

  /** Level g has just received the item e, where a search for key arrives; the pages above do not
      know of it yet. */
  ghost predicate Climbing(w: World, cap: int, S: seq<seq<Entry>>, root: int, g: nat, D: seq<Entry>,
                           key: int, e: Entry)
  {
    && Tree(w, cap, S, g, D, 0)
    && Roof(S, g, D, root)
    && LOW < key < TOP && LOW < e.key < TOP
    && Slots(D, Rank(D, key), e)
    && S[g] == InsertAt(D, Rank(D, key), e)
    && (g == 0 ==> e.key == key)
  }

  /** The page above that has to take e, and where in its chunk e goes. */
  lemma FindSlot(w: World, cap: int, S: seq<seq<Entry>>, root: int, g: nat, D: seq<Entry>,
                 key: int, e: Entry) returns (i: nat, c: seq<Entry>, r: nat)
    requires Climbing(w, cap, S, root, g, D, key, e) && g + 1 < |S|
    ensures Level(w, g + 1, D, S[g + 1])
    ensures var U := S[g + 1];
            && Rank(U, key) == i + 1 <= |U|
            && Here(w, g + 1, U[i])
            && c == Chunk(U[i].key, At(w.m, U[i].val)) && r == Rank(c, key)
            && Between(c, U[i].key, Head(U[i + 1..], TOP))
            && Slots(c, r, e) && (g > 0 ==> r > 0)
            && U[i].key <= e.key < Head(U[i + 1..], TOP)
            && Rank(D, key) == |Cat(w.m, U[..i])| + r
  {
    hide Seg;
    hide Cat;
    hide Chunk;
    hide Occupied;
    hide Chain;
    hide Tree;
    var k, U := g + 1, S[g + 1];
    LevelAbove(w, cap, S, g, D);
    var a;
    i, c, a := Descend(w, k, D, U, key);
    r := Rank(c, key);
    if g > 0 { InnerRank(U[i].key, At(w.m, U[i].val), key, Head(U[i + 1..], TOP)); }
    if r > 0 { SliceAt(D, a, c, r - 1); }
    if r < |c| { SliceAt(D, a, c, r); }
    if g > 0 { NextBound(w, k, D, U, i, a + r); }
  }

  /** The next page starts at an entry that the level below has at or after position q. */
  lemma NextBound(w: World, k: nat, D: seq<Entry>, U: seq<Entry>, i: nat, q: nat)
    requires Level(w, k, D, U) && k > 1 && i < |U|
    requires q <= |Cat(w.m, U[..i])| + |Chunk(U[i].key, At(w.m, U[i].val))|
    ensures i + 1 < |U| ==> q < |D| && D[q].key <= U[i + 1].key
    ensures q < |D| && i + 1 == |U| ==> D[q].key < TOP
  {
    hide Level;
    hide Cat;
    hide Chunk;
    RowsSorted(w, k, D, U);
    if i + 1 < |U| {
      ItemStarts(w, k, D, U, i + 1);
      assert U[..i + 1] == U[..i] + [U[i]];
      CatConcat(w.m, U[..i], [U[i]]);
      CatOne(w.m, U[i]);
    }
  }

  /** The chunk of an internal page starts with the page's own lower bound. */
  lemma ItemStarts(w: World, k: nat, D: seq<Entry>, U: seq<Entry>, i: nat)
    requires Level(w, k, D, U) && k > 1 && i < |U|
    ensures |Cat(w.m, U[..i])| < |D| && D[|Cat(w.m, U[..i])|].key == U[i].key
  {
    hide Seg;
    hide Cat;
    CoverIndex(w, k, D, U, i);
    hide Level;
    var c := Chunk(U[i].key, At(w.m, U[i].val));
    SliceAt(D, |Cat(w.m, U[..i])|, c, 0);
  }

  /** Case 1: the page has room, and the climb ends. */
  lemma ClimbEnds(w: World, v: World, cap: int, S: seq<seq<Entry>>, root: int, g: nat, D: seq<Entry>,
                  key: int, e: Entry, i: nat, r: nat)
    requires Climbing(w, cap, S, root, g, D, key, e) && g + 1 < |S|
    requires i < |S[g + 1]| && Rank(S[g + 1], key) == i + 1
    requires var it := S[g + 1][i]; var b := At(w.m, it.val);
             && |Entries(b)| < cap && r == Rank(Chunk(it.key, b), key)
             && v == w.(m := w.m[it.val := InsertBody(b, r, e)])
    ensures Whole(v, cap, S, root)
  {
    hide Seg;
    hide Cat;
    hide Between;
    hide InsertBody;
    hide InsertAt;
    hide Rank;
    hide Chunk;
    hide Level;
    hide Good;
    hide Tree;
    var k, U := g + 1, S[g + 1];
    var lo := MinFor(k, TopOf(S, g), cap);
    TreeIds(w, cap, S, g, D);
    LevelAbove(w, cap, S, g, D);
    var i', c, r' := FindSlot(w, cap, S, root, g, D, key, e);
    InsertGood(w, v, cap, k, lo, D, U, i, r, e);
    GapCloses(w, v, cap, S, root, g, D, U[i].val);
  }

  /** When the level above the gap covers the new level below it, there is no gap left. */
  lemma GapCloses(w: World, v: World, cap: int, S: seq<seq<Entry>>, root: int, g: nat, D: seq<Entry>, id: int)
    requires Tree(w, cap, S, g, D, 0) && g + 1 < |S| && Roof(S, g, D, root) && Only(w, v, {id})
    requires id in w.tag && w.tag[id].level == g + 1 && v.tag == w.tag && v.nid == w.nid
    requires Good(v, cap, g + 1, MinFor(g + 1, TopOf(S, g), cap), S[g], S[g + 1], 0)
    ensures Whole(v, cap, S, root)
  {
    hide Good;
    hide Only;
    TreeStep(w, v, cap, S, g, D, 0, S, 0, S[0], 0, g + 1, {id});
  }

  lemma SlotUnique(D: seq<Entry>, p: nat, q: nat, e: Entry)
    requires Sorted(D) && Slots(D, p, e) && Slots(D, q, e)
    ensures p == q
  {
  }

  lemma SlotConcat(x: seq<Entry>, c: seq<Entry>, y: seq<Entry>, lo: int, mid: int, hi: int, top: int,
                   r: nat, e: Entry)
    requires Between(x, lo, mid) && Between(y, hi, top) && mid <= e.key < hi && Slots(c, r, e)
    ensures Slots(x + c + y, |x| + r, e)
  {
    var D, q := x + c + y, |x| + r;
    if q > 0 { assert D[q - 1] == if r > 0 then c[r - 1] else x[|x| - 1]; }
    if q < |D| { assert D[q] == if r < |c| then c[r] else y[0]; }
  }

  /** A slot in the chunk of a page is a slot in what the whole level covers. */
  lemma SlotLifts(w: World, k: nat, D: seq<Entry>, U: seq<Entry>, i: nat, r: nat, e: Entry)
    requires Level(w, k, D, U) && i < |U|
    requires Slots(Chunk(U[i].key, At(w.m, U[i].val)), r, e)
    requires U[i].key <= e.key < Head(U[i + 1..], TOP)
    ensures Sorted(D) && Slots(D, |Cat(w.m, U[..i])| + r, e)
  {
    hide Seg;
    hide Cat;
    hide Slots;
    hide Chunk;
    CatBetween(w, k, U, TOP);
    SegCut(w, k, U, TOP, i, i + 1);
    CoverAt(w, k, D, U, i);
    CatBetween(w, k, U[..i], Head(U[i..i + 1], Head(U[i + 1..], TOP)));
    CatBetween(w, k, U[i + 1..], TOP);
    assert Head(U[i..i + 1], Head(U[i + 1..], TOP)) == U[i].key;
    SlotConcat(Cat(w.m, U[..i]), Chunk(U[i].key, At(w.m, U[i].val)), Cat(w.m, U[i + 1..]),
               Head(U[..i], U[i].key), U[i].key, Head(U[i + 1..], TOP), TOP, r, e);
  }

  /** The world after the full page at index i of level k was split, before e is placed. */
  ghost function SplitWorld(w: World, k: nat, it: Entry, nu: int): World {
    World(SplitMap(w.m, it.val, nu), w.tag[nu := Tag(k, SplitKey(At(w.m, it.val)))], nu + 1)
  }

  /** Placing e into the half that its key selects. */
  lemma HalfTakes(w: World, v: World, cap: int, k: nat, D: seq<Entry>, V: seq<Entry>, i: nat, q: nat,
                  r: nat, e: Entry)
    requires Good(w, cap, k, cap / 2, D, V, 0) && i < |V|
    requires Slots(D, q, e) && V[i].key <= e.key < Head(V[i + 1..], TOP)
    requires var b := At(w.m, V[i].val);
             && |Entries(b)| < cap && Slots(Chunk(V[i].key, b), r, e) && (k != 1 ==> r > 0)
             && v == w.(m := w.m[V[i].val := InsertBody(b, r, e)])
    ensures Good(v, cap, k, cap / 2, InsertAt(D, q, e), V, 0)
  {
    hide Seg;
    hide Cat;
    hide Between;
    hide InsertBody;
    hide InsertAt;
    hide Chunk;
    hide Chain;
    hide Occupied;
    SlotLifts(w, k, D, V, i, r, e);
    SlotUnique(D, |Cat(w.m, V[..i])| + r, q, e);
    InsertGood(w, v, cap, k, cap / 2, D, V, i, r, e);
  }

  /** Sizes and bounds of the two halves. */
  lemma Halves(w: World, cap: int, k: nat, lo: int, D: seq<Entry>, U: seq<Entry>, i: nat, nu: int)
    requires i < |U| && Splits(w, SplitWorld(w, k, U[i], nu), cap, k, lo, D, U, i, nu)
    ensures var n := SplitMap(w.m, U[i].val, nu); var sep := SplitKey(At(w.m, U[i].val));
            && 0 < U[i].val != nu
            && |Entries(At(n, U[i].val))| < cap && |Entries(At(n, nu))| < cap
            && U[i].key < sep < Head(U[i + 1..], TOP)
  {
    hide Cat;
    SegAt(w, k, U, TOP, i);
    SplitKeeps(w, SplitWorld(w, k, U[i], nu), cap, k, lo, D, U, i, nu);
    var b := At(w.m, U[i].val);
    var c, q := Chunk(U[i].key, b), |Entries(b)| / 2 + if b.Leaf? then 0 else 1;
    SplitChunks(U[i].key, b, nu, U[i].val);
    hide Seg;
    assert c[0].key < c[q].key;
  }

  /** v is w with e put at chunk position r of the page of item it. */
  ghost predicate HalfFits(w: World, v: World, k: nat, it: Entry, r: nat, e: Entry) {
    && Slots(Chunk(it.key, At(w.m, it.val)), r, e)
    && (k != 1 ==> r > 0)
    && v == w.(m := w.m[it.val := InsertBody(At(w.m, it.val), r, e)])
  }

  /** Which item takes e: the old page or the new one. */
  function HalfItem(it: Entry, b: Body, nu: int, e: Entry): Entry {
    if e.key >= SplitKey(b) then Entry(SplitKey(b), nu) else it
  }

  /** A split followed by the insertion of e into the half that its key selects. */
  lemma SplitTakes(w: World, v: World, cap: int, k: nat, lo: int, D: seq<Entry>, U: seq<Entry>,
                   i: nat, q: nat, r: nat, e: Entry, nu: int)
    requires i < |U| && Splits(w, SplitWorld(w, k, U[i], nu), cap, k, lo, D, U, i, nu)
    requires Slots(D, q, e) && U[i].key <= e.key < Head(U[i + 1..], TOP)
    requires HalfFits(SplitWorld(w, k, U[i], nu), v, k, HalfItem(U[i], At(w.m, U[i].val), nu, e), r, e)
    ensures Good(v, cap, k, cap / 2, InsertAt(D, q, e),
                 InsertAt(U, i + 1, Entry(SplitKey(At(w.m, U[i].val)), nu)), 0)
  {
    hide Seg;
    hide Cat;
    hide Between;
    hide InsertBody;
    hide Chunk;
    hide Occupied;
    hide Chain;
    hide SplitMap;
    hide SplitKey;
    hide Slots;
    hide Level;
    var b := At(w.m, U[i].val);
    var w1, x := SplitWorld(w, k, U[i], nu), Entry(SplitKey(b), nu);
    var V := InsertAt(U, i + 1, x);
    assert V == U[..i] + [U[i], x] + U[i + 1..];
    SplitGood(w, w1, cap, k, lo, D, U, i, nu);
    Halves(w, cap, k, lo, D, U, i, nu);
    assert V[i] == U[i] && V[i + 1] == x && V[i + 1..] == [x] + U[i + 1..] && V[i + 2..] == U[i + 1..];
    HalfTakes(w1, v, cap, k, D, V, if e.key >= x.key then i + 1 else i, q, r, e);
  }

  /** Case 2: the page is full, it splits, the right half takes e, and the climb goes on with the
      new page as its item. */
  lemma ClimbSplits(w: World, v: World, cap: int, S: seq<seq<Entry>>, root: int, g: nat, D: seq<Entry>,
                    key: int, e: Entry, i: nat, r: nat, nu: int)
    requires Climbing(w, cap, S, root, g, D, key, e) && g + 1 < |S|
    requires i < |S[g + 1]| && Rank(S[g + 1], key) == i + 1 && nu == w.nid
    requires |Entries(At(w.m, S[g + 1][i].val))| == cap
    requires HalfFits(SplitWorld(w, g + 1, S[g + 1][i], nu), v, g + 1,
                      HalfItem(S[g + 1][i], At(w.m, S[g + 1][i].val), nu, e), r, e)
    ensures var x := Entry(SplitKey(At(w.m, S[g + 1][i].val)), nu);
            Climbing(v, cap, S[g + 1 := InsertAt(S[g + 1], i + 1, x)], root, g + 1, S[g + 1], key, x)
  {
    hide Seg;
    hide Cat;
    hide Between;
    hide InsertBody;
    hide InsertAt;
    hide Rank;
    hide Chunk;
    hide Occupied;
    hide Chain;
    hide SplitMap;
    hide SplitKey;
    hide Level;
    hide Good;
    hide Tree;
    hide Splits;
    hide Slots;
    var k, U := g + 1, S[g + 1];
    var b, lo := At(w.m, U[i].val), MinFor(k, TopOf(S, g), cap);
    SplitsHere(w, cap, S, root, g, D, key, e, i, nu);
    var i', c, r' := FindSlot(w, cap, S, root, g, D, key, e);
    SplitTakes(w, v, cap, k, lo, D, U, i, Rank(D, key), r, e, nu);
    Halves(w, cap, k, lo, D, U, i, nu);
    ClimbStep(w, v, cap, S, root, g, D, key, e, i, nu, HalfItem(U[i], b, nu, e).val);
  }

  /** The full page that has to take e is one that can be split. */
  lemma SplitsHere(w: World, cap: int, S: seq<seq<Entry>>, root: int, g: nat, D: seq<Entry>, key: int, e: Entry,
                   i: nat, nu: int)
    requires Climbing(w, cap, S, root, g, D, key, e) && g + 1 < |S|
    requires i < |S[g + 1]| && nu == w.nid && |Entries(At(w.m, S[g + 1][i].val))| == cap
    ensures Splits(w, SplitWorld(w, g + 1, S[g + 1][i], nu), cap, g + 1, MinFor(g + 1, TopOf(S, g), cap), D,
                   S[g + 1], i, nu)
  {
    hide Good;
    hide Rank;
    hide InsertAt;
    hide Slots;
    hide SplitMap;
    hide SplitKey;
    LevelAbove(w, cap, S, g, D);
  }

  lemma ClimbStep(w: World, v: World, cap: int, S: seq<seq<Entry>>, root: int, g: nat,
                  D: seq<Entry>, key: int, e: Entry, i: nat, nu: int, half: int)
    requires Climbing(w, cap, S, root, g, D, key, e) && g + 1 < |S|
    requires i < |S[g + 1]| && Rank(S[g + 1], key) == i + 1 && nu == w.nid
    requires half == nu || half == S[g + 1][i].val
    requires var w1 := SplitWorld(w, g + 1, S[g + 1][i], nu);
             w1.nid == v.nid && w1.tag == v.tag && half in v.m && v.m == w1.m[half := v.m[half]]
    requires S[g + 1][i].key < SplitKey(At(w.m, S[g + 1][i].val)) < Head(S[g + 1][i + 1..], TOP)
    requires var x := Entry(SplitKey(At(w.m, S[g + 1][i].val)), nu);
             Good(v, cap, g + 1, cap / 2, S[g], InsertAt(S[g + 1], i + 1, x), 0)
    ensures var x := Entry(SplitKey(At(w.m, S[g + 1][i].val)), nu);
            Climbing(v, cap, S[g + 1 := InsertAt(S[g + 1], i + 1, x)], root, g + 1, S[g + 1], key, x)
  {
    hide Seg;
    hide Cat;
    hide Between;
    hide Rank;
    hide Chunk;
    hide Occupied;
    hide Chain;
    hide SplitKey;
    hide SplitMap;
    hide InsertAt;
    hide Level;
    hide Good;
    hide Only;
    hide Slots;
    hide Tree;
    var k, U := g + 1, S[g + 1];
    var x := Entry(SplitKey(At(w.m, U[i].val)), nu);
    TreeIds(w, cap, S, g, D);
    LevelAbove(w, cap, S, g, D);
    NextOf(w, cap, k, MinFor(k, TopOf(S, g), cap), D, U, i);
    var nx := if k == 1 && i + 1 < |U| then U[i + 1].val else nu;
    SplitOnly(w, v, k, U[i], nu, half, nx);
    GapMoves(w, v, cap, S, g, D, InsertAt(U, i + 1, x), {U[i].val, nu, nx});
    NewItem(U, key, i, x);
  }

  lemma TreeIds(w: World, cap: int, S: seq<seq<Entry>>, g: nat, D: seq<Entry>)
    requires Tree(w, cap, S, g, D, 0)
    ensures w.nid > 0 && forall id :: id in w.tag ==> 0 < id < w.nid
  {
    hide Good;
  }

  lemma LevelAbove(w: World, cap: int, S: seq<seq<Entry>>, g: nat, D: seq<Entry>)
    requires Tree(w, cap, S, g, D, 0) && g + 1 < |S|
    ensures Good(w, cap, g + 1, MinFor(g + 1, TopOf(S, g), cap), D, S[g + 1], 0)
  {
    hide Good;
    assert Good(w, cap, g + 1, MinFor(g + 1, TopOf(S, g), cap), Under(S, g, D, g + 1), S[g + 1], 0);
  }

  /** Replacing the level above the gap by a good one moves the gap up. */
  lemma GapMoves(w: World, v: World, cap: int, S: seq<seq<Entry>>, g: nat, D: seq<Entry>, V: seq<Entry>,
                 touched: set<int>)
    requires Tree(w, cap, S, g, D, 0) && g + 1 < |S| && Only(w, v, touched)
    requires forall id :: id in touched && id in w.tag ==> w.tag[id].level == g + 1
    requires forall id :: id in v.tag ==> 0 < id < v.nid
    requires Good(v, cap, g + 1, cap / 2, S[g], V, 0)
    ensures Tree(v, cap, S[g + 1 := V], g + 1, S[g + 1], 0)
  {
    hide Good;
    hide Only;
    TreeStep(w, v, cap, S, g, D, 0, S[g + 1 := V], g + 1, S[g + 1], 0, g + 1, touched);
  }

  lemma NewItem(U: seq<Entry>, key: int, i: nat, x: Entry)
    requires i < |U| && Rank(U, key) == i + 1 && U[i].key < x.key < Head(U[i + 1..], TOP)
    ensures Slots(U, Rank(U, key), x)
  {
    hide Rank;
    assert U[i + 1..] != [] ==> U[i + 1..][0] == U[i + 1];
  }

  lemma NextOf(w: World, cap: int, k: nat, lo: int, D: seq<Entry>, U: seq<Entry>, i: nat)
    requires Good(w, cap, k, lo, D, U, 0) && i < |U|
    ensures Here(w, k, U[i]) && (i + 1 < |U| ==> Here(w, k, U[i + 1]))
    ensures k == 1 ==> At(w.m, U[i].val).next == IdAt(U, i + 1)
    ensures k == 1 ==> At(w.m, U[i].val).prev == IdAt(U, i - 1)
    ensures LOW <= U[i].key && Head(U[i + 1..], TOP) <= TOP
  {
    hide Seg;
    hide Cat;
    SegSorted(w, k, U, TOP);
    LevelDistinct(w, k, D, U);
  }

  lemma SplitOnly(w: World, v: World, k: nat, it: Entry, nu: int, half: int, nx: int)
    requires w.nid < v.nid && half in v.m && (half == nu || half == it.val) && nu !in w.tag
    requires v.tag == SplitWorld(w, k, it, nu).tag
    requires v.m == SplitMap(w.m, it.val, nu)[half := v.m[half]]
    requires At(w.m, it.val).Leaf? ==> At(w.m, it.val).next == nx || At(w.m, it.val).next == 0
    ensures Only(w, v, {it.val, nu, nx})
  {
    hide SplitLeft;
    hide SplitRight;
    hide SplitKey;
  }

  /** Case 3: the root itself was split; a new root takes both halves. */
  lemma ClimbRoots(w: World, v: World, cap: int, S: seq<seq<Entry>>, root: int, g: nat, D: seq<Entry>,
                   key: int, e: Entry, nu: int)
    requires Climbing(w, cap, S, root, g, D, key, e) && g + 1 == |S| && g > 0
    requires nu == w.nid
    requires v == World(w.m[nu := Inner(root, [e])], w.tag[nu := Tag(|S|, LOW)], nu + 1)
    ensures Whole(v, cap, S + [[Entry(LOW, nu)]], nu)
  {
    hide Seg;
    hide Cat;
    hide Occupied;
    hide Chain;
    hide Level;
    hide Between;
    hide Chunk;
    var k, it, S' := |S|, Entry(LOW, nu), S + [[Entry(LOW, nu)]];
    assert S[g] == [Entry(LOW, root), e] by { assert Rank(D[1..], key) == 0; }
    NewRoot(v, cap, k, S[g], root, e, nu);
    forall j | 1 <= j < |S|
      ensures Good(v, cap, j, MinFor(j, TopOf(S', 0), cap), Under(S', 0, S'[0], j), S'[j], 0)
    {
      assert Good(w, cap, j, MinFor(j, TopOf(S, g), cap), Under(S, g, D, j), S[j], 0);
      GoodKept(w, v, cap, j, cap / 2, S[j - 1], S[j], 0, 0, {nu});
    }
  }

  lemma NewRoot(v: World, cap: int, k: nat, D: seq<Entry>, root: int, e: Entry, nu: int)
    requires D == [Entry(LOW, root), e] && LOW < e.key < TOP && k > 1 && cap >= 1
    requires 0 < nu < v.nid && nu in v.m && v.m[nu] == Inner(root, [e])
    requires nu in v.tag && v.tag[nu] == Tag(k, LOW)
    ensures Good(v, cap, k, 1, D, [Entry(LOW, nu)], 0)
  {
    assert Chunk(LOW, v.m[nu]) == D;
    SegOne(v, k, Entry(LOW, nu), TOP);
  }

  // ---------------------------------------------------------------- as the code does it

  /** e put at the place that a binary search for its key finds. */
  function Placed(b: Body, e: Entry): Body {
    WithEntries(b, InsertAt(Entries(b), Rank(Entries(b), e.key - 1), e))
  }

  lemma PlacedRank(low: int, b: Body, hi: int, r: nat, e: Entry)
    requires (b.Leaf? || b.Inner?) && Between(Chunk(low, b), low, hi)
    requires Slots(Chunk(low, b), r, e) && (b.Inner? ==> r > 0)
    ensures Sorted(Entries(b))
    ensures Rank(Entries(b), e.key - 1) == if b.Leaf? then r else r - 1
  {
    hide Rank;
    var c, es := Chunk(low, b), Entries(b);
    EntriesSorted(low, b, hi);
    if b.Inner? {
      assert r > 1 ==> es[r - 2] == c[r - 1];
      assert r < |c| ==> es[r - 1] == c[r];
      RankUnique(es, e.key - 1, r - 1);
    } else {
      RankUnique(es, e.key - 1, r);
    }
  }

  lemma PlacedBody(low: int, b: Body, hi: int, r: nat, e: Entry)
    requires (b.Leaf? || b.Inner?) && Between(Chunk(low, b), low, hi)
    requires Slots(Chunk(low, b), r, e) && (b.Inner? ==> r > 0)
    ensures Sorted(Entries(b)) && InsertBody(b, r, e) == Placed(b, e)
  {
    PlacedRank(low, b, hi, r, e);
    hide Rank;
    hide Slots;
    hide Between;
    hide InsertAt;
  }

  /** Which position e takes in one part of a sequence, when it fits into the whole. */
  lemma SlotInPart(c: seq<Entry>, x: nat, y: nat, r: nat, e: Entry)
    requires Slots(c, r, e) && x <= r <= y <= |c|
    ensures Slots(c[x..y], r - x, e)
  {
    var d := c[x..y];
    assert r > x ==> d[r - x - 1] == c[r - 1];
    assert r < y ==> d[r - x] == c[r];
  }

  lemma SplitPoint(low: int, b: Body, nu: int, id: int) returns (q: nat)
    requires (b.Leaf? || b.Inner?) && |Entries(b)| >= 2
    ensures SameKind(b, SplitLeft(b, nu)) && SameKind(b, SplitRight(b, id))
    ensures var c := Chunk(low, b);
            && 0 < q < |c| && c[q].key == SplitKey(b)
            && Chunk(low, SplitLeft(b, nu)) == c[..q]
            && Chunk(c[q].key, SplitRight(b, id)) == c[q..]
  {
    SplitChunks(low, b, nu, id);
    q := |Entries(b)| / 2 + if b.Leaf? then 0 else 1;
  }

  ghost predicate SameKind(b: Body, c: Body) {
    (b.Leaf? && c.Leaf?) || (b.Inner? && c.Inner?)
  }

  lemma SlotSide(c: seq<Entry>, r: nat, q: nat, e: Entry)
    requires Sorted(c) && Slots(c, r, e) && q < |c|
    ensures c[q].key <= e.key <==> q < r
  {
  }

  /** The world after the split and after e was placed into the half that its key selects. */
  ghost function SplitPlaced(w: World, k: nat, it: Entry, nu: int, e: Entry): World {
    var w1 := SplitWorld(w, k, it, nu);
    var h := HalfItem(it, At(w.m, it.val), nu, e);
    w1.(m := w1.m[h.val := Placed(At(w1.m, h.val), e)])
  }

  lemma HalfSlot(w: World, cap: int, k: nat, lo: int, D: seq<Entry>, U: seq<Entry>, i: nat, nu: int,
                 r: nat, e: Entry) returns (h: nat)
    requires i < |U| && Splits(w, SplitWorld(w, k, U[i], nu), cap, k, lo, D, U, i, nu)
    requires Slots(Chunk(U[i].key, At(w.m, U[i].val)), r, e) && (k != 1 ==> r > 0)
    ensures HalfFits(SplitWorld(w, k, U[i], nu), SplitPlaced(w, k, U[i], nu, e), k,
                     HalfItem(U[i], At(w.m, U[i].val), nu, e), h, e)
    ensures Sorted(Entries(At(SplitMap(w.m, U[i].val, nu), HalfItem(U[i], At(w.m, U[i].val), nu, e).val)))
  {
    hide Cat;
    hide SplitMap;
    hide SplitKey;
    hide SplitLeft;
    hide SplitRight;
    hide InsertBody;
    hide Placed;
    hide Slots;
    hide Chain;
    hide Occupied;
    var b, w1 := At(w.m, U[i].val), SplitWorld(w, k, U[i], nu);
    SegAt(w, k, U, TOP, i);
    SplitKeeps(w, w1, cap, k, lo, D, U, i, nu);
    hide Seg;
    hide Between;
    hide Chunk;
    if e.key >= SplitKey(b) {
      h := RightSlot(U[i].key, b, U[i].val, r, e, Head(U[i + 1..], TOP));
    } else {
      h := r;
      LeftSlot(U[i].key, b, nu, r, e, Head(U[i + 1..], TOP));
    }
  }

  lemma RightSlot(low: int, b: Body, id: int, r: nat, e: Entry, hi: int) returns (h: nat)
    requires (b.Leaf? || b.Inner?) && |Entries(b)| >= 2 && Between(Chunk(low, b), low, hi)
    requires Slots(Chunk(low, b), r, e) && e.key >= SplitKey(b)
    ensures b.Inner? ==> h > 0
    ensures Slots(Chunk(SplitKey(b), SplitRight(b, id)), h, e)
    ensures Sorted(Entries(SplitRight(b, id)))
    ensures InsertBody(SplitRight(b, id), h, e) == Placed(SplitRight(b, id), e)
  {
    hide Placed;
    hide InsertBody;
    hide SplitRight;
    hide SplitLeft;
    var c := Chunk(low, b);
    var q := SplitPoint(low, b, 0, id);
    hide SplitKey;
    hide Chunk;
    SlotSide(c, r, q, e);
    hide Slots;
    BetweenSuffix(c, low, hi, q);
    assert c[q..|c|] == c[q..];
    hide Between;
    SlotInPart(c, q, |c|, r, e);
    h := r - q;
    PlacedBody(c[q].key, SplitRight(b, id), hi, h, e);
  }

  lemma LeftSlot(low: int, b: Body, nu: int, r: nat, e: Entry, hi: int)
    requires (b.Leaf? || b.Inner?) && |Entries(b)| >= 2 && Between(Chunk(low, b), low, hi)
    requires Slots(Chunk(low, b), r, e) && e.key < SplitKey(b) && (b.Inner? ==> r > 0)
    ensures Slots(Chunk(low, SplitLeft(b, nu)), r, e)
    ensures Sorted(Entries(SplitLeft(b, nu)))
    ensures InsertBody(SplitLeft(b, nu), r, e) == Placed(SplitLeft(b, nu), e)
  {
    hide Placed;
    hide InsertBody;
    hide SplitRight;
    hide SplitLeft;
    var c := Chunk(low, b);
    var q := SplitPoint(low, b, nu, 0);
    hide SplitKey;
    hide Chunk;
    SlotSide(c, r, q, e);
    hide Slots;
    BetweenPrefix(c, low, hi, q);
    assert c[0..q] == c[..q];
    hide Between;
    SlotInPart(c, 0, q, r, e);
    PlacedBody(low, SplitLeft(b, nu), c[q].key, r, e);
  }

  lemma EntriesSorted(low: int, b: Body, hi: int)
    requires (b.Leaf? || b.Inner?) && Between(Chunk(low, b), low, hi)
    ensures Sorted(Entries(b))
  {
    if b.Inner? { InnerRank(low, b, low, hi); }
  }

  /** What the code may rely on before it searches the page that takes e. */
  lemma PageReady(w: World, cap: int, S: seq<seq<Entry>>, root: int, g: nat, D: seq<Entry>,
                  key: int, e: Entry)
    requires Climbing(w, cap, S, root, g, D, key, e) && g + 1 < |S|
    ensures S[g + 1] != [] && S[g + 1][0].key == LOW
    ensures Here(w, g + 1, Pick(S[g + 1], key))
    ensures var b := At(w.m, Pick(S[g + 1], key).val); Sorted(Entries(b)) && |Entries(b)| <= cap
  {
    hide Seg;
    hide Cat;
    hide Chain;
    assert Good(w, cap, g + 1, MinFor(g + 1, TopOf(S, g), cap), Under(S, g, D, g + 1), S[g + 1], 0);
    var i, c, r := FindSlot(w, cap, S, root, g, D, key, e);
    var it := S[g + 1][i];
    EntriesSorted(it.key, At(w.m, it.val), Head(S[g + 1][i + 1..], TOP));
    assert it.val == 0 || Filled(w.m, it.val, MinFor(g + 1, TopOf(S, g), cap), cap);
  }

  /** The page has room: one write ends the insertion. */
  lemma PlaceEnds(w: World, v: World, cap: int, S: seq<seq<Entry>>, root: int, g: nat, D: seq<Entry>,
                  key: int, e: Entry, id: int)
    requires Climbing(w, cap, S, root, g, D, key, e) && g + 1 < |S|
    requires S[g + 1] != [] && S[g + 1][0].key <= key && id == Pick(S[g + 1], key).val
    requires |Entries(At(w.m, id))| < cap && v == w.(m := w.m[id := Placed(At(w.m, id), e)])
    ensures Whole(v, cap, S, root)
  {
    hide Seg;
    hide Cat;
    hide Chain;
    hide Occupied;
    hide Level;
    var i, c, r := FindSlot(w, cap, S, root, g, D, key, e);
    var it := S[g + 1][i];
    PlacedBody(it.key, At(w.m, it.val), Head(S[g + 1][i + 1..], TOP), r, e);
    hide Placed;
    hide InsertBody;
    hide Between;
    hide Chunk;
    hide Slots;
    hide Tree;
    ClimbEnds(w, v, cap, S, root, g, D, key, e, i, r);
  }

  /** The page is full: it is split, e is placed, and the new page climbs on. */
  lemma PlaceSplits(w: World, v: World, cap: int, S: seq<seq<Entry>>, root: int, g: nat, D: seq<Entry>,
                    key: int, e: Entry, it: Entry, x: Entry)
    requires Climbing(w, cap, S, root, g, D, key, e) && g + 1 < |S|
    requires S[g + 1] != [] && S[g + 1][0].key <= key && it == Pick(S[g + 1], key)
    requires |Entries(At(w.m, it.val))| == cap && v == SplitPlaced(w, g + 1, it, w.nid, e)
    requires x == Entry(SplitKey(At(w.m, it.val)), w.nid)
    ensures Climbing(v, cap, S[g + 1 := InsertAt(S[g + 1], Rank(S[g + 1], key), x)], root, g + 1,
                     S[g + 1], key, x)
  {
    hide Seg;
    hide Cat;
    hide Chain;
    hide Occupied;
    hide Level;
    hide Between;
    hide Slots;
    hide Chunk;
    hide SplitKey;
    hide SplitMap;
    hide SplitPlaced;
    var k, U := g + 1, S[g + 1];
    var lo := MinFor(k, TopOf(S, g), cap);
    var i, c, r := FindSlot(w, cap, S, root, g, D, key, e);
    assert Good(w, cap, k, lo, Under(S, g, D, k), U, 0);
    var h := HalfSlot(w, cap, k, lo, D, U, i, w.nid, r, e);
    hide HalfFits;
    ClimbSplits(w, v, cap, S, root, g, D, key, e, i, h, w.nid);
  }

  /** The page that takes e when page id is split off to nu. */
  function HalfId(b: Body, id: int, nu: int, e: Entry): int {
    if e.key >= SplitKey(b) then nu else id
  }

  /** The pages after a split of page id to nu and the placement of e. */
  function PlacedMap(m: map<int, Body>, id: int, nu: int, e: Entry): map<int, Body> {
    var n := SplitMap(m, id, nu);
    var h := HalfId(At(m, id), id, nu, e);
    n[h := Placed(At(n, h), e)]
  }

  lemma SplitPlacedMap(w: World, k: nat, it: Entry, nu: int, e: Entry)
    ensures SplitPlaced(w, k, it, nu, e) ==
            World(PlacedMap(w.m, it.val, nu, e), w.tag[nu := Tag(k, SplitKey(At(w.m, it.val)))], nu + 1)
  {
    hide SplitMap;
    hide SplitKey;
    hide Placed;
  }

  /** What the code may rely on before it splits the page that should take e. */
  lemma SplitReady(w: World, cap: int, S: seq<seq<Entry>>, root: int, g: nat, D: seq<Entry>,
                   key: int, e: Entry, it: Entry, b: Body)
    requires Climbing(w, cap, S, root, g, D, key, e) && g + 1 < |S|
    requires S[g + 1] != [] && S[g + 1][0].key <= key && it == Pick(S[g + 1], key)
    requires b == At(w.m, it.val) && |Entries(b)| == cap
    ensures 0 < it.val < w.nid && OddCapacity(cap)
    ensures b.Leaf? && b.next != 0 ==>
      0 < b.next < w.nid && b.next != it.val && b.next in w.tag && b.next in w.m && w.m[b.next].Leaf?
    ensures Sorted(Entries(At(SplitMap(w.m, it.val, w.nid), HalfId(b, it.val, w.nid, e))))
  {
    hide Seg;
    hide Cat;
    hide Between;
    hide Slots;
    hide Chunk;
    hide SplitKey;
    hide SplitMap;
    hide Level;
    hide Chain;
    hide Occupied;
    hide HalfFits;
    var k, U := g + 1, S[g + 1];
    var lo := MinFor(k, TopOf(S, g), cap);
    var i, c, r := FindSlot(w, cap, S, root, g, D, key, e);
    assert Good(w, cap, k, lo, Under(S, g, D, k), U, 0);
    var h := HalfSlot(w, cap, k, lo, D, U, i, w.nid, r, e);
    NextOf(w, cap, k, lo, D, U, i);
    if i + 1 < |U| { IdsDistinct(w, k, D, U, i); }
  }

  lemma SplitMetaKept(m: map<int, Body>, id: int, nu: int, e: Entry)
    requires id != 0 && nu != 0
    ensures At(PlacedMap(m, id, nu, e), 0) == At(m, 0)
  {
    hide Placed;
    hide SplitLeft;
    hide SplitRight;
  }

  // ---------------------------------------------------------------- how far splits climb

  /** The page of level k on the way to key. */
  ghost function PageOn(m: map<int, Body>, S: seq<seq<Entry>>, key: int, k: nat): Body
    requires k < |S|
  {
    if S[k] != [] && S[k][0].key <= key then At(m, Pick(S[k], key).val) else Garbled
  }

  /** An item that enters level g makes level k split: every page in between on the way to key is full. */
  ghost predicate Overflows(m: map<int, Body>, cap: int, S: seq<seq<Entry>>, key: int, g: nat, k: nat)
    requires k < |S|
  {
    k <= g || (|Entries(PageOn(m, S, key, k))| == cap && Overflows(m, cap, S, key, g, k - 1))
  }

  /** Level k afterwards: a page that splits is followed by its upper half, the new pages being numbered
      from the bottom up. */
  ghost function Extended(m: map<int, Body>, cap: int, S: seq<seq<Entry>>, key: int, g: nat, k: nat, nid: int)
    : seq<Entry>
    requires k < |S|
  {
    if k <= g || !Overflows(m, cap, S, key, g, k) then S[k]
    else InsertAt(S[k], Rank(S[k], key), Entry(SplitKey(PageOn(m, S, key, k)), nid + k - g - 1))
  }

  /** T is the tree S after an item entered level g on the way to key, rows aside. */
  ghost predicate Climbs(m: map<int, Body>, cap: int, S: seq<seq<Entry>>, key: int, g: nat, nid: int,
                         T: seq<seq<Entry>>)
  {
    && |S| > 1
    && |T| == |S| + (if Overflows(m, cap, S, key, g, |S| - 1) then 1 else 0)
    && forall k :: 1 <= k < |S| ==> T[k] == Extended(m, cap, S, key, g, k, nid)
  }

  /** A split root gets a new root above it. */
  lemma ClimbsOut(m: map<int, Body>, cap: int, S: seq<seq<Entry>>, key: int, g: nat, nid: int, U: seq<Entry>)
    requires |S| > 1 && g + 1 == |S|
    ensures Climbs(m, cap, S, key, g, nid, S + [U])
  {
  }

  /** A page with room takes the item, and no level changes. */
  lemma ClimbsNot(m: map<int, Body>, cap: int, S: seq<seq<Entry>>, key: int, g: nat, nid: int)
    requires g + 1 < |S| && |Entries(PageOn(m, S, key, g + 1))| != cap
    ensures Climbs(m, cap, S, key, g, nid, S)
  {
    hide PageOn;
    hide Overflows;
    forall k | g < k < |S| ensures !Overflows(m, cap, S, key, g, k) { OverflowStops(m, cap, S, key, g, k); }
  }

  /** A full page is split, and its upper half climbs on. */
  lemma ClimbsOn(m: map<int, Body>, m': map<int, Body>, cap: int, S: seq<seq<Entry>>, S': seq<seq<Entry>>,
                 key: int, g: nat, nid: int, T: seq<seq<Entry>>)
    requires g + 1 < |S| && |Entries(PageOn(m, S, key, g + 1))| == cap
    requires S' == S[g + 1 := InsertAt(S[g + 1], Rank(S[g + 1], key), Entry(SplitKey(PageOn(m, S, key, g + 1)), nid))]
    requires forall j :: g + 1 < j < |S| ==> PageOn(m', S', key, j) == PageOn(m, S, key, j)
    requires Climbs(m', cap, S', key, g + 1, nid + 1, T)
    ensures Climbs(m, cap, S, key, g, nid, T)
  {
    hide PageOn;
    hide Overflows;
    hide Extended;
    hide InsertAt;
    OverflowsUp(m, m', cap, S, S', key, g, |S| - 1);
    forall k | 1 <= k < |S| ensures T[k] == Extended(m, cap, S, key, g, k, nid) {
      ExtendedUp(m, m', cap, S, S', key, g, k, nid);
    }
  }

  lemma {:induction false} OverflowsBesidesRows(m: map<int, Body>, cap: int, S: seq<seq<Entry>>, rows: seq<Entry>,
                                                key: int, k: nat)
    requires k < |S|
    ensures Overflows(m, cap, S[0 := rows], key, 0, k) <==> Overflows(m, cap, S, key, 0, k)
  {
    if k > 0 { OverflowsBesidesRows(m, cap, S, rows, key, k - 1); }
  }

  lemma ClimbsBesidesRows(m: map<int, Body>, cap: int, S: seq<seq<Entry>>, rows: seq<Entry>, key: int, nid: int,
                          T: seq<seq<Entry>>)
    requires |S| > 1 && Climbs(m, cap, S[0 := rows], key, 0, nid, T)
    ensures Climbs(m, cap, S, key, 0, nid, T)
  {
    hide Overflows;
    forall k | 0 <= k < |S| ensures Overflows(m, cap, S[0 := rows], key, 0, k) <==> Overflows(m, cap, S, key, 0, k) {
      OverflowsBesidesRows(m, cap, S, rows, key, k);
    }
  }

  /** Above the page that is split nothing changes yet. */
  lemma SplitKeepsAbove(w: World, cap: int, S: seq<seq<Entry>>, root: int, g: nat, D: seq<Entry>,
                        key: int, e: Entry, it: Entry, k: nat)
    requires Climbing(w, cap, S, root, g, D, key, e) && g + 1 < k < |S|
    requires S[g + 1] != [] && S[g + 1][0].key <= key && it == Pick(S[g + 1], key)
    ensures PageOn(PlacedMap(w.m, it.val, w.nid, e), S, key, k) == PageOn(w.m, S, key, k)
  {
    hide Seg;
    hide Cat;
    hide Chain;
    hide Occupied;
    hide Level;
    hide Slots;
    hide SplitLeft;
    hide SplitRight;
    hide Placed;
    hide SplitKey;
    var lo := MinFor(k, TopOf(S, g), cap);
    assert Good(w, cap, k, lo, Under(S, g, D, k), S[k], 0);
    LevelDistinct(w, k, Under(S, g, D, k), S[k]);
    var i, c, r := FindSlot(w, cap, S, root, g, D, key, e);
    assert Good(w, cap, g + 1, MinFor(g + 1, TopOf(S, g), cap), Under(S, g, D, g + 1), S[g + 1], 0);
    NextOf(w, cap, g + 1, MinFor(g + 1, TopOf(S, g), cap), D, S[g + 1], i);
    if S[k] != [] && S[k][0].key <= key {
      KeyBelowHead(S[k], key);
      assert Here(w, k, Pick(S[k], key));
    }
  }

  lemma {:induction false} OverflowsUp(m: map<int, Body>, m': map<int, Body>, cap: int, S: seq<seq<Entry>>,
                                       S': seq<seq<Entry>>, key: int, g: nat, k: nat)
    requires |S'| == |S| && g + 1 <= k < |S| && |Entries(PageOn(m, S, key, g + 1))| == cap
    requires forall j :: g + 1 < j < |S| ==> PageOn(m', S', key, j) == PageOn(m, S, key, j)
    ensures Overflows(m', cap, S', key, g + 1, k) <==> Overflows(m, cap, S, key, g, k)
  {
    hide PageOn;
    if k > g + 1 { OverflowsUp(m, m', cap, S, S', key, g, k - 1); }
  }

  lemma {:induction false} OverflowStops(m: map<int, Body>, cap: int, S: seq<seq<Entry>>, key: int, g: nat, k: nat)
    requires g < k < |S| && |Entries(PageOn(m, S, key, g + 1))| != cap
    ensures !Overflows(m, cap, S, key, g, k)
  {
    hide PageOn;
    if k > g + 1 { OverflowStops(m, cap, S, key, g, k - 1); }
  }

  /** One split, and then the splits above it. */
  lemma ExtendedUp(m: map<int, Body>, m': map<int, Body>, cap: int, S: seq<seq<Entry>>, S': seq<seq<Entry>>,
                   key: int, g: nat, k: nat, nid: int)
    requires g + 1 < |S| && k < |S| && |Entries(PageOn(m, S, key, g + 1))| == cap
    requires S' == S[g + 1 := InsertAt(S[g + 1], Rank(S[g + 1], key), Entry(SplitKey(PageOn(m, S, key, g + 1)), nid))]
    requires forall j :: g + 1 < j < |S| ==> PageOn(m', S', key, j) == PageOn(m, S, key, j)
    ensures Extended(m', cap, S', key, g + 1, k, nid + 1) == Extended(m, cap, S, key, g, k, nid)
  {
    hide PageOn;
    if k > g { OverflowsUp(m, m', cap, S, S', key, g, k); }
  }
}
