/** One level of the tree, and the whole stack of levels. */
module Stack {
  import opened Pages
  import opened Levels

  /** The items U of height k cover exactly the sequence D, from LOW to TOP. */
  ghost predicate Level(w: World, k: nat, D: seq<Entry>, U: seq<Entry>) {
    U != [] && U[0].key == LOW && Seg(w, k, U, TOP) && Cat(w.m, U) == D
  }

  function IdAt(U: seq<Entry>, i: int): int {
    if 0 <= i < |U| then U[i].val else 0
  }

  /** The leaf chain is exactly the leaf level: next and prev name the neighbours, 0 ends it. */
  ghost predicate Chain(m: map<int, Body>, U: seq<Entry>) {
    forall i :: 0 <= i < |U| ==>
      && At(m, U[i].val).Leaf?
      && At(m, U[i].val).next == IdAt(U, i + 1)
      && At(m, U[i].val).prev == IdAt(U, i - 1)
  }

  ghost predicate Filled(m: map<int, Body>, id: int, lo: int, cap: int) {
    lo <= |Entries(At(m, id))| <= cap
  }

  /** Every page of the level but `exc` holds between lo and cap entries. */
  ghost predicate Occupied(m: map<int, Body>, U: seq<Entry>, lo: int, cap: int, exc: int) {
    forall i :: 0 <= i < |U| ==> U[i].val == exc || Filled(m, U[i].val, lo, cap)
  }

  ghost predicate Good(w: World, cap: int, k: nat, lo: int, D: seq<Entry>, U: seq<Entry>, exc: int) {
    && Level(w, k, D, U)
    && Occupied(w.m, U, lo, cap, exc)
    && (k == 1 ==> Chain(w.m, U))
  }

  /** Outside `touched`, every live page is as it was. */
  ghost predicate Only(w: World, v: World, touched: set<int>) {
    && w.nid <= v.nid
    && forall id :: id in w.tag && id !in touched ==>
         && id in v.tag && w.tag[id] == v.tag[id]
         && (id in w.m ==> id in v.m && w.m[id] == v.m[id])
  }

  lemma LevelDistinct(w: World, k: nat, D: seq<Entry>, U: seq<Entry>)
    requires Level(w, k, D, U)
    ensures Sorted(U)
    ensures forall i, j :: 0 <= i < j < |U| ==> U[i].val != U[j].val
    ensures forall i :: 0 <= i < |U| ==> Here(w, k, U[i])
  {
    SegSorted(w, k, U, TOP);
    forall i, j | 0 <= i < j < |U| ensures U[i].val != U[j].val {
      SegDistinct(w, k, U, TOP, i, j);
    }
    forall i | 0 <= i < |U| ensures Here(w, k, U[i]) {
      SegAt(w, k, U, TOP, i);
    }
  }

  /** What a level covers is sorted. */
  lemma RowsSorted(w: World, k: nat, D: seq<Entry>, U: seq<Entry>)
    requires Level(w, k, D, U)
    ensures Between(D, LOW, TOP)
  {
    hide Seg;
    hide Cat;
    CatBetween(w, k, U, TOP);
  }

  /** A level none of whose pages is touched stays good. */
  lemma GoodKept(w: World, v: World, cap: int, k: nat, lo: int, D: seq<Entry>, U: seq<Entry>,
                 exc: int, exc': int, touched: set<int>)
    requires Good(w, cap, k, lo, D, U, exc)
    requires Only(w, v, touched)
    requires forall id :: id in touched && id in w.tag ==> w.tag[id].level != k
    requires exc in w.tag ==> w.tag[exc].level != k
    ensures Good(v, cap, k, lo, D, U, exc')
  {
    LevelDistinct(w, k, D, U);
    forall i | 0 <= i < |U| ensures Kept(w, v, U[i].val) && w.m[U[i].val] == v.m[U[i].val] {
      assert Here(w, k, U[i]);
    }
    SegKept(w, v, k, U, TOP);
  }

  /** Replaces the run U[i..j] by the run Y, which starts at the same bound. */
  lemma ReplaceRun(w: World, v: World, k: nat, D: seq<Entry>, U: seq<Entry>, i: nat, j: nat,
                   Y: seq<Entry>)
    requires Level(w, k, D, U) && i < j <= |U| && w.nid <= v.nid
    requires Y != [] && Y[0].key == U[i].key && Seg(v, k, Y, Head(U[j..], TOP))
    requires forall t :: 0 <= t < i || j <= t < |U| ==> Kept(w, v, U[t].val)
    ensures D == Cat(w.m, U[..i]) + Cat(w.m, U[i..j]) + Cat(w.m, U[j..])
    ensures Level(v, k, Cat(w.m, U[..i]) + Cat(v.m, Y) + Cat(w.m, U[j..]), U[..i] + Y + U[j..])
  {
    hide Seg;
    hide Cat;
    hide Kept;
    SegCut(w, k, U, TOP, i, j);
    forall t | 0 <= t < |U[j..]| ensures Kept(w, v, U[j..][t].val) {
      assert U[j..][t] == U[j + t];
    }
    SegKept(w, v, k, U[j..], TOP);
    SegKept(w, v, k, U[..i], Head(U[i..j], Head(U[j..], TOP)));
    SegJoin(v, k, U[..i], Y, U[j..], TOP);
    assert (U[..i] + Y + U[j..])[0] == if i > 0 then U[0] else Y[0];
  }

  lemma OnlyKept(w: World, v: World, k: nat, D: seq<Entry>, U: seq<Entry>, i: nat, j: nat, touched: set<int>)
    requires Level(w, k, D, U) && i <= j <= |U|
    requires Only(w, v, touched)
    requires forall t :: 0 <= t < i || j <= t < |U| ==> U[t].val !in touched
    ensures forall t :: 0 <= t < i || j <= t < |U| ==> Kept(w, v, U[t].val) && w.m[U[t].val] == v.m[U[t].val]
  {
    forall t | 0 <= t < i || j <= t < |U| ensures Kept(w, v, U[t].val) && w.m[U[t].val] == v.m[U[t].val] {
      SegAt(w, k, U, TOP, t);
    }
  }

  // ---------------------------------------------------------------- editing one page

  ghost predicate SameLinks(b: Body, c: Body) {
    || (b.Leaf? && c.Leaf? && b.prev == c.prev && b.next == c.next)
    || (b.Inner? && c.Inner?)
  }

  lemma SegOne(w: World, k: nat, it: Entry, hi: int)
    requires PageAt(w, k, it, hi)
    ensures Seg(w, k, [it], hi) && Cat(w.m, [it]) == Chunk(it.key, w.m[it.val])
  {
    assert [it][1..] == [] && Seg(w, k, [], hi);
    assert Cat(w.m, [it]) == Chunk(it.key, w.m[it.val]) + Cat(w.m, []);
  }

  lemma SegTwo(w: World, k: nat, x: Entry, y: Entry, hi: int)
    requires PageAt(w, k, x, y.key) && PageAt(w, k, y, hi)
    ensures Seg(w, k, [x, y], hi)
    ensures Cat(w.m, [x, y]) == Chunk(x.key, w.m[x.val]) + Chunk(y.key, w.m[y.val])
  {
    SegOne(w, k, x, y.key);
    SegOne(w, k, y, hi);
    SegConcat(w, k, [x], [y], hi);
    CatConcat(w.m, [x], [y]);
    assert [x] + [y] == [x, y];
  }

  lemma IdsDistinct(w: World, k: nat, D: seq<Entry>, U: seq<Entry>, i: nat)
    requires Level(w, k, D, U) && i < |U|
    ensures forall j :: 0 <= j < |U| && j != i ==> U[j].val != U[i].val
  {
    forall j | 0 <= j < |U| && j != i ensures U[j].val != U[i].val {
      if i < j { SegDistinct(w, k, U, TOP, i, j); } else { SegDistinct(w, k, U, TOP, j, i); }
    }
  }

  lemma EditLevel(w: World, v: World, k: nat, D: seq<Entry>, U: seq<Entry>, i: nat, b: Body)
    requires Level(w, k, D, U) && i < |U|
    requires v == w.(m := w.m[U[i].val := b]) && SameLinks(At(w.m, U[i].val), b)
    requires Between(Chunk(U[i].key, b), U[i].key, Head(U[i + 1..], TOP))
    ensures Level(v, k, Cat(w.m, U[..i]) + Chunk(U[i].key, b) + Cat(w.m, U[i + 1..]), U)
  {
    hide Seg;
    hide Cat;
    hide Between;
    hide Kept;
    IdsDistinct(w, k, D, U, i);
    OnlyKept(w, v, k, D, U, i, i + 1, {U[i].val});
    SegAt(w, k, U, TOP, i);
    SegOne(v, k, U[i], Head(U[i + 1..], TOP));
    ReplaceRun(w, v, k, D, U, i, i + 1, [U[i]]);
    assert U[..i] + [U[i]] + U[i + 1..] == U;
  }

  /** Giving one page new entries of the same range changes what the level covers there, and
      nothing else. */
  lemma EditPage(w: World, v: World, cap: int, k: nat, lo: int, D: seq<Entry>, U: seq<Entry>,
                 i: nat, b: Body, exc: int, exc': int)
    requires Good(w, cap, k, lo, D, U, exc) && i < |U|
    requires v == w.(m := w.m[U[i].val := b]) && SameLinks(At(w.m, U[i].val), b)
    requires Between(Chunk(U[i].key, b), U[i].key, Head(U[i + 1..], TOP))
    requires exc == exc' || exc == U[i].val
    requires exc' == U[i].val || lo <= |Entries(b)| <= cap
    ensures Good(v, cap, k, lo,
                 Cat(w.m, U[..i]) + Chunk(U[i].key, b) + Cat(w.m, U[i + 1..]), U, exc')
  {
    hide Seg;
    hide Cat;
    hide Between;
    EditLevel(w, v, k, D, U, i, b);
    forall j | 0 <= j < |U| && U[j].val != exc'
      ensures Filled(v.m, U[j].val, lo, cap)
    {
      assert U[j].val == exc || Filled(w.m, U[j].val, lo, cap);
    }
  }

  // ---------------------------------------------------------------- re-cutting neighbouring pages

  /** One page becomes two that divide its chunk; what the level covers stays the same. */
  lemma SplitLevel(w: World, v: World, k: nat, D: seq<Entry>, U: seq<Entry>, i: nat, q: nat, nu: int)
    requires Level(w, k, D, U) && i < |U|
    requires var c := Chunk(U[i].key, At(w.m, U[i].val));
             && 0 < q < |c| && nu !in w.tag && 0 < nu < v.nid && w.nid <= v.nid
             && v.tag == w.tag[nu := Tag(k, c[q].key)] && nu in v.m && U[i].val in v.m
             && KindOf(k, v.m[U[i].val]) && Chunk(U[i].key, v.m[U[i].val]) == c[..q]
             && KindOf(k, v.m[nu]) && Chunk(c[q].key, v.m[nu]) == c[q..]
    requires forall t :: 0 <= t < |U| && t != i ==> Kept(w, v, U[t].val)
    ensures var c := Chunk(U[i].key, At(w.m, U[i].val));
            Level(v, k, D, U[..i] + [U[i], Entry(c[q].key, nu)] + U[i + 1..])
  {
    hide Seg;
    hide Cat;
    hide Between;
    hide Kept;
    var c := Chunk(U[i].key, At(w.m, U[i].val));
    var hi := Head(U[i + 1..], TOP);
    SegAt(w, k, U, TOP, i);
    CutBounds(c, U[i].key, hi, q);
    SegTwo(v, k, U[i], Entry(c[q].key, nu), hi);
    SegOne(w, k, U[i], hi);
    hide Chunk;
    assert U[i..i + 1] == [U[i]] && c[..q] + c[q..] == c;
    ReplaceRun(w, v, k, D, U, i, i + 1, [U[i], Entry(c[q].key, nu)]);
  }

  lemma CutBounds(c: seq<Entry>, lo: int, hi: int, q: nat)
    requires Between(c, lo, hi) && 0 < q < |c|
    ensures Between(c[..q], lo, c[q].key) && Between(c[q..], c[q].key, hi) && lo < c[q].key < hi
  {
    BetweenPrefix(c, lo, hi, q);
    BetweenSuffix(c, lo, hi, q);
    assert lo <= c[0].key < c[q].key;
  }

  /** Two neighbours re-divide their joint chunk at a new bound. */
  lemma ShiftLevel(w: World, v: World, k: nat, D: seq<Entry>, U: seq<Entry>, i: nat, sep: int)
    requires Level(w, k, D, U) && i + 1 < |U|
    requires var (x, y) := (U[i], U[i + 1]);
             && w.nid == v.nid && v.tag == w.tag[y.val := Tag(k, sep)] && x.val in v.m && y.val in v.m
             && KindOf(k, v.m[x.val]) && KindOf(k, v.m[y.val])
             && x.key < sep < Head(U[i + 2..], TOP)
             && Between(Chunk(x.key, v.m[x.val]), x.key, sep)
             && Between(Chunk(sep, v.m[y.val]), sep, Head(U[i + 2..], TOP))
             && Chunk(x.key, v.m[x.val]) + Chunk(sep, v.m[y.val]) ==
                Chunk(x.key, At(w.m, x.val)) + Chunk(y.key, At(w.m, y.val))
    requires forall t :: 0 <= t < |U| && t != i && t != i + 1 ==> Kept(w, v, U[t].val)
    ensures Level(v, k, D, U[..i] + [U[i], Entry(sep, U[i + 1].val)] + U[i + 2..])
  {
    hide Seg;
    hide Cat;
    hide Between;
    hide Kept;
    var hi := Head(U[i + 2..], TOP);
    PairCover(w, k, D, U, i);
    SegTwo(v, k, U[i], Entry(sep, U[i + 1].val), hi);
    ReplaceRun(w, v, k, D, U, i, i + 2, [U[i], Entry(sep, U[i + 1].val)]);
  }

  lemma PairCover(w: World, k: nat, D: seq<Entry>, U: seq<Entry>, i: nat)
    requires Level(w, k, D, U) && i + 1 < |U|
    ensures U[i].val != U[i + 1].val
    ensures PageAt(w, k, U[i], U[i + 1].key) && PageAt(w, k, U[i + 1], Head(U[i + 2..], TOP))
    ensures Cat(w.m, U[i..i + 2]) ==
            Chunk(U[i].key, At(w.m, U[i].val)) + Chunk(U[i + 1].key, At(w.m, U[i + 1].val))
  {
    hide Seg;
    hide Cat;
    SegDistinct(w, k, U, TOP, i, i + 1);
    SegAt(w, k, U, TOP, i);
    SegAt(w, k, U, TOP, i + 1);
    SegTwo(w, k, U[i], U[i + 1], Head(U[i + 2..], TOP));
    assert U[i..i + 2] == [U[i], U[i + 1]];
  }

  /** Two neighbours become one page that covers both chunks. */
  lemma MergeLevel(w: World, v: World, k: nat, D: seq<Entry>, U: seq<Entry>, i: nat)
    requires Level(w, k, D, U) && i + 1 < |U|
    requires var (x, y) := (U[i], U[i + 1]);
             && w.nid == v.nid && v.tag == w.tag - {y.val} && x.val in v.m
             && KindOf(k, v.m[x.val])
             && Chunk(x.key, v.m[x.val]) ==
                Chunk(x.key, At(w.m, x.val)) + Chunk(y.key, At(w.m, y.val))
    requires forall t :: 0 <= t < |U| && t != i && t != i + 1 ==> Kept(w, v, U[t].val)
    ensures Level(v, k, D, U[..i] + [U[i]] + U[i + 2..])
  {
    hide Seg;
    hide Cat;
    hide Kept;
    hide Between;
    var hi := Head(U[i + 2..], TOP);
    PairCover(w, k, D, U, i);
    BetweenConcat(Chunk(U[i].key, At(w.m, U[i].val)), Chunk(U[i + 1].key, At(w.m, U[i + 1].val)),
                  U[i].key, U[i + 1].key, hi);
    SegOne(v, k, U[i], hi);
    ReplaceRun(w, v, k, D, U, i, i + 2, [U[i]]);
  }

  // ---------------------------------------------------------------- the leaf chain

  ghost predicate Linked(m: map<int, Body>, id: int, prev: int, next: int) {
    At(m, id).Leaf? && At(m, id).prev == prev && At(m, id).next == next
  }

  lemma ChainSplit(m: map<int, Body>, n: map<int, Body>, U: seq<Entry>, i: nat, it: Entry)
    requires Chain(m, U) && i < |U|
    requires Linked(n, U[i].val, IdAt(U, i - 1), it.val)
    requires Linked(n, it.val, U[i].val, IdAt(U, i + 1))
    requires i + 1 < |U| ==> Linked(n, U[i + 1].val, it.val, IdAt(U, i + 2))
    requires forall j :: 0 <= j < |U| && j != i && j != i + 1 ==> At(n, U[j].val) == At(m, U[j].val)
    ensures Chain(n, U[..i] + [U[i], it] + U[i + 1..])
  {
    var V := U[..i] + [U[i], it] + U[i + 1..];
    forall j | 0 <= j < |V| ensures Linked(n, V[j].val, IdAt(V, j - 1), IdAt(V, j + 1)) {
      if j > i + 1 { assert V[j] == U[j - 1]; }
    }
  }

  lemma ChainMerge(m: map<int, Body>, n: map<int, Body>, U: seq<Entry>, i: nat)
    requires Chain(m, U) && i + 1 < |U|
    requires Linked(n, U[i].val, IdAt(U, i - 1), IdAt(U, i + 2))
    requires i + 2 < |U| ==> Linked(n, U[i + 2].val, U[i].val, IdAt(U, i + 3))
    requires forall j :: 0 <= j < |U| && (j < i || i + 2 < j) ==> At(n, U[j].val) == At(m, U[j].val)
    ensures Chain(n, U[..i] + [U[i]] + U[i + 2..])
  {
    var V := U[..i] + [U[i]] + U[i + 2..];
    forall j | 0 <= j < |V| ensures Linked(n, V[j].val, IdAt(V, j - 1), IdAt(V, j + 1)) {
      if j > i { assert V[j] == U[j + 1]; }
    }
  }

  // ---------------------------------------------------------------- occupancy

  lemma OccupiedRun(m: map<int, Body>, U: seq<Entry>, i: nat, j: nat, Y: seq<Entry>, lo: int, cap: int)
    requires i <= j <= |U|
    requires forall t :: 0 <= t < i || j <= t < |U| ==> Filled(m, U[t].val, lo, cap)
    requires forall t :: 0 <= t < |Y| ==> Filled(m, Y[t].val, lo, cap)
    ensures Occupied(m, U[..i] + Y + U[j..], lo, cap, 0)
  {
    var V := U[..i] + Y + U[j..];
    forall t | 0 <= t < |V| ensures Filled(m, V[t].val, lo, cap) {
      if t < i {
        assert V[t] == U[t];
      } else if t < i + |Y| {
        assert V[t] == Y[t - i];
      } else {
        assert V[t] == U[t - i - |Y| + j];
      }
    }
  }
}
