/** The whole tree as a stack of levels, and the states it passes through while a new item works
    its way up. */
module Trees {
  import opened Pages
  import opened Levels
  import opened Stack
  import opened NodeOps

  /** While an operation is under way there may be a gap above level g: the pages of level g + 1
      still cover the older sequence D instead of S[g].  With D == S[0] and g == 0 there is none. */
  function Under(S: seq<seq<Entry>>, g: nat, D: seq<Entry>, k: nat): seq<Entry>
    requires 1 <= k <= |S|
  {
    if k == g + 1 then D else S[k - 1]
  }

  /** The height of the root; a split of the old root announces one more level. */
  function TopOf(S: seq<seq<Entry>>, g: nat): int {
    if g == |S| - 1 then |S| else |S| - 1
  }

  /** The least number of entries for a page of height k: half of the capacity, except that a root
      leaf may be empty and an internal root needs one entry. */
  function MinFor(k: int, top: int, cap: int): int {
    if k < top then cap / 2 else if k == 1 then 0 else 1
  }

  ghost predicate Tree(w: World, cap: int, S: seq<seq<Entry>>, g: nat, D: seq<Entry>, exc: int) {
    && OddCapacity(cap)
    && |S| >= 2 && g < |S|
    && w.nid > 0
    && (forall id :: id in w.tag ==> 0 < id < w.nid)
    && (forall k :: 1 <= k < |S| ==>
          Good(w, cap, k, MinFor(k, TopOf(S, g), cap), Under(S, g, D, k), S[k], exc))
  }

  /** The B+ tree invariant: rows S[0], one equation per level, a single root. */
  ghost predicate Whole(w: World, cap: int, S: seq<seq<Entry>>, root: int) {
    && Tree(w, cap, S, 0, if S == [] then [] else S[0], 0)
    && S[|S| - 1] == [Entry(LOW, root)]
  }

  ghost predicate Roof(S: seq<seq<Entry>>, g: nat, D: seq<Entry>, root: int)
    requires g < |S|
  {
    (if g == |S| - 1 then D else S[|S| - 1]) == [Entry(LOW, root)]
  }

  /** A step that changes the pages of one level only. */
  lemma TreeStep(w: World, v: World, cap: int, S: seq<seq<Entry>>, g: nat, D: seq<Entry>, exc: int,
                 S': seq<seq<Entry>>, g': nat, D': seq<Entry>, exc': int, k: nat, touched: set<int>)
    requires Tree(w, cap, S, g, D, exc)
    requires 1 <= k < |S| == |S'| && g' < |S'|
    requires forall j :: 1 <= j < |S| && j != k ==>
      S'[j] == S[j] && Under(S', g', D', j) == Under(S, g, D, j)
    requires k < |S| - 1 ==> TopOf(S', g') == TopOf(S, g)
    requires Only(w, v, touched)
    requires forall id :: id in touched && id in w.tag ==> w.tag[id].level == k
    requires exc in w.tag ==> w.tag[exc].level == k
    requires forall id :: id in v.tag ==> 0 < id < v.nid
    requires Good(v, cap, k, MinFor(k, TopOf(S', g'), cap), Under(S', g', D', k), S'[k], exc')
    ensures Tree(v, cap, S', g', D', exc')
  {
    forall j | 1 <= j < |S'|
      ensures Good(v, cap, j, MinFor(j, TopOf(S', g'), cap), Under(S', g', D', j), S'[j], exc')
    {
      if j != k {
        GoodKept(w, v, cap, j, MinFor(j, TopOf(S, g), cap), Under(S, g, D, j), S[j], exc, exc', touched);
      }
    }
  }

  // ---------------------------------------------------------------- descent

  /** The item of U that a search for key selects: the last one that starts at or below it. */
  ghost function Pick(U: seq<Entry>, key: int): Entry
    requires U != [] && U[0].key <= key
  {
    U[Rank(U, key) - 1]
  }

  /** The pages above level g on the way from the root to key, root first. */
  ghost predicate Path(S: seq<seq<Entry>>, anc: seq<int>, g: nat, key: int)
    decreases |S| - g
  {
    if g + 1 >= |S| then g + 1 == |S| && anc == []
    else
      && anc != []
      && S[g + 1] != [] && S[g + 1][0].key <= key
      && anc[|anc| - 1] == Pick(S[g + 1], key).val
      && Path(S, anc[..|anc| - 1], g + 1, key)
  }

  lemma MidSlice(x: seq<Entry>, c: seq<Entry>, y: seq<Entry>)
    ensures |x| + |c| <= |x + c + y| && (x + c + y)[|x|..|x| + |c|] == c
  {
  }

  lemma SliceAt(D: seq<Entry>, a: nat, c: seq<Entry>, j: nat)
    requires a + |c| <= |D| && D[a..a + |c|] == c && j < |c|
    ensures D[a + j] == c[j]
  {
  }

  lemma KeyBelowHead(U: seq<Entry>, key: int)
    requires U != [] && U[0].key <= key < TOP
    ensures 0 < Rank(U, key) <= |U|
    ensures U[Rank(U, key) - 1].key <= key < Head(U[Rank(U, key)..], TOP)
  {
    RankBounds(U, key);
  }

  /** Where key falls below a page: the chunk that the page picked at level k covers contains the
      item picked at level k - 1. */
  lemma Descend(w: World, k: nat, D: seq<Entry>, U: seq<Entry>, key: int) returns (i: nat, c: seq<Entry>, a: nat)
    requires Level(w, k, D, U) && LOW <= key < TOP
    ensures Rank(U, key) == i + 1 <= |U|
    ensures c == Chunk(U[i].key, At(w.m, U[i].val)) && a == |Cat(w.m, U[..i])|
    ensures Here(w, k, U[i]) && Between(c, U[i].key, Head(U[i + 1..], TOP))
    ensures U[i].key <= key < Head(U[i + 1..], TOP)
    ensures Rank(D, key) == a + Rank(c, key) && a + |c| <= |D| && D[a..a + |c|] == c
  {
    hide Seg;
    hide Cat;
    hide Rank;
    hide Between;
    RankDescends(w, k, U, TOP, key);
    KeyBelowHead(U, key);
    i := Rank(U, key) - 1;
    c, a := Chunk(U[i].key, At(w.m, U[i].val)), |Cat(w.m, U[..i])|;
    CoverIndex(w, k, D, U, i);
  }

  lemma CoverIndex(w: World, k: nat, D: seq<Entry>, U: seq<Entry>, i: nat)
    requires Level(w, k, D, U) && i < |U|
    ensures PageAt(w, k, U[i], Head(U[i + 1..], TOP))
    ensures var c, a := Chunk(U[i].key, At(w.m, U[i].val)), |Cat(w.m, U[..i])|;
            a + |c| <= |D| && D[a..a + |c|] == c
  {
    CoverAt(w, k, D, U, i);
    MidSlice(Cat(w.m, U[..i]), Chunk(U[i].key, At(w.m, U[i].val)), Cat(w.m, U[i + 1..]));
    SegAt(w, k, U, TOP, i);
  }

  lemma InnerRank(low: int, b: Body, key: int, hi: int)
    requires b.Inner? && low <= key && Between(Chunk(low, b), low, hi)
    ensures Between(b.entries, low, hi) && (forall j :: 0 <= j < |b.entries| ==> low < b.entries[j].key)
    ensures Rank(Chunk(low, b), key) == 1 + Rank(b.entries, key)
  {
    var c := Chunk(low, b);
    assert c[1..] == b.entries;
    forall j | 0 <= j < |b.entries| ensures low < b.entries[j].key < hi {
      assert c[0].key < c[j + 1].key;
    }
    forall x, y | 0 <= x < y < |b.entries| ensures b.entries[x].key < b.entries[y].key {
      assert c[x + 1].key < c[y + 1].key;
    }
  }

  /** The child that an internal page b picks for key. */
  function ChildFor(b: Body, key: int): int
    requires b.Inner?
  {
    if Rank(b.entries, key) == 0 then b.leftmost else b.entries[Rank(b.entries, key) - 1].val
  }

  /** An internal page picked by a search has, as the child it picks, the page picked below. */
  lemma DescendInner(w: World, k: nat, D: seq<Entry>, U: seq<Entry>, key: int)
    requires Level(w, k, D, U) && k > 1 && LOW <= key < TOP
    ensures D != [] && D[0].key == LOW
    ensures At(w.m, Pick(U, key).val).Inner?
    ensures Sorted(At(w.m, Pick(U, key).val).entries)
    ensures Pick(D, key).val == ChildFor(At(w.m, Pick(U, key).val), key)
  {
    var i, c, a := Descend(w, k, D, U, key);
    var b := At(w.m, U[i].val);
    InnerRank(U[i].key, b, key, Head(U[i + 1..], TOP));
    StartsLow(w, k, D, U);
    var r := Rank(c, key);
    SliceAt(D, a, c, r - 1);
  }

  lemma StartsLow(w: World, k: nat, D: seq<Entry>, U: seq<Entry>)
    requires Level(w, k, D, U) && k > 1
    ensures D != [] && D[0].key == LOW
  {
    assert Cat(w.m, U) == Chunk(U[0].key, At(w.m, U[0].val)) + Cat(w.m, U[1..]);
  }
}
