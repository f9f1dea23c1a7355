/** Two deletions that go wrong in one tree, for every odd capacity from 5 to 4096. */
module Counterexample {
  import opened Pages
  import opened Levels
  import opened Stack
  import opened NodeOps
  import opened Trees
  import opened Lookup
  import opened Deleting
  import opened Cousins
  import opened Storage
  import opened BTree

  /** The capacities considered: all that a page can have. */
  ghost predicate Plausible(cap: nat, m: nat) {
    OddCapacity(cap) && cap <= 4096 && m == cap / 2
  }

  /** The lower bound of leaf i; leaves are numbered from 1. */
  function LeafLow(i: int, m: int): int {
    if i == 1 then LOW else (i - 1) * m
  }

  /** Leaf i holds the m keys from (i - 1) m on. */
  function LeafBody(i: int, m: nat): Body {
    Leaf(i - 1, if i < 2 * m + 2 then i + 1 else 0, seq(m, t => Entry((i - 1) * m + t, 0)))
  }

  /** An internal page over the m + 1 leaves from `first` on. */
  function InnerBody(first: int, m: nat): Body {
    Inner(first, seq(m, t => Entry((first + t) * m, first + 1 + t)))
  }

  /** Two such pages under a root; page 0 names it. */
  function PageOf(id: int, m: nat): Body {
    if id <= 2 * m + 2 then LeafBody(id, m)
    else if id == 2 * m + 3 then InnerBody(1, m)
    else if id == 2 * m + 4 then InnerBody(m + 2, m)
    else Inner(2 * m + 3, [Entry((m + 1) * m, 2 * m + 4)])
  }

  function TagOf(id: int, m: nat): Tag {
    if id <= 2 * m + 2 then Tag(1, LeafLow(id, m))
    else if id == 2 * m + 3 then Tag(2, LOW)
    else if id == 2 * m + 4 then Tag(2, (m + 1) * m)
    else Tag(3, LOW)
  }

  function Sample(m: nat): World {
    World(map id | 0 <= id <= 2 * m + 5 :: if id == 0 then Meta(2 * m + 5) else PageOf(id, m),
          map id | 1 <= id <= 2 * m + 5 :: TagOf(id, m), 2 * m + 6)
  }

  ghost function SampleLeaves(m: nat): seq<Entry> {
    seq(2 * m + 2, i => Entry(LeafLow(i + 1, m), i + 1))
  }

  ghost function SampleLevels(m: nat): seq<seq<Entry>> {
    [Cat(Sample(m).m, SampleLeaves(m)),
     SampleLeaves(m),
     [Entry(LOW, 2 * m + 3), Entry((m + 1) * m, 2 * m + 4)],
     [Entry(LOW, 2 * m + 5)]]
  }

  // ---------------------------------------------------------------- bounds of the keys

  lemma Stride(i: int, m: nat)
    ensures (i + 1) * m == i * m + m
  {
  }

  lemma {:induction false} StrideOrder(i: int, j: int, m: nat)
    requires i < j
    ensures i * m + m <= j * m
    decreases j - i
  {
    Stride(j - 1, m);
    if i < j - 1 { StrideOrder(i, j - 1, m); }
  }

  lemma StrideTop(i: int, m: nat)
    requires 0 <= i <= 2 * m + 2 && m <= 2048
    ensures 0 <= i * m < TOP
  {
    StrideBound(i, m);
  }

  lemma {:induction false} StrideBound(i: nat, m: nat)
    requires m <= 2048
    ensures 0 <= i * m <= i * 2048
  {
    if i > 0 {
      StrideBound(i - 1, m);
      Stride(i - 1, m);
    }
  }

  // ---------------------------------------------------------------- the leaves

  lemma SamplePage(w: World, m: nat, id: int)
    requires w == Sample(m) && 1 <= id <= 2 * m + 5
    ensures id in w.m && w.m[id] == PageOf(id, m) && id in w.tag && w.tag[id] == TagOf(id, m) && 0 < id < w.nid
  {
  }

  lemma SampleLeaf(w: World, cap: nat, m: nat, n: nat)
    requires Plausible(cap, m) && w == Sample(m) && n < 2 * m + 2
    ensures var U := SampleLeaves(m);
            PageAt(w, 1, U[n], if n + 1 < 2 * m + 2 then U[n + 1].key else TOP)
  {
    SamplePage(w, m, n + 1);
    hide Sample;
    Stride(n, m);
    StrideTop(n, m);
    StrideTop(n + 1, m);
    var b := LeafBody(n + 1, m);
    assert forall t :: 0 <= t < m ==> b.entries[t].key == n * m + t;
  }

  lemma Cons(w: World, k: nat, x: Entry, U: seq<Entry>, hi: int)
    requires PageAt(w, k, x, Head(U, hi)) && Seg(w, k, U, hi)
    ensures Seg(w, k, [x] + U, hi) && Cat(w.m, [x] + U) == Chunk(x.key, w.m[x.val]) + Cat(w.m, U)
  {
    assert ([x] + U)[1..] == U;
  }

  lemma {:induction false} LeafRun(w: World, cap: nat, m: nat, n: nat)
    requires Plausible(cap, m) && w == Sample(m) && n <= 2 * m + 2
    ensures Seg(w, 1, SampleLeaves(m)[n..], TOP)
    decreases 2 * m + 2 - n
  {
    hide PageAt;
    hide Sample;
    var U := SampleLeaves(m);
    if n < 2 * m + 2 {
      LeafRun(w, cap, m, n + 1);
      SampleLeaf(w, cap, m, n);
      if n + 1 < 2 * m + 2 { assert U[n + 1..][0] == U[n + 1]; }
      Cons(w, 1, U[n], U[n + 1..], TOP);
      assert [U[n]] + U[n + 1..] == U[n..];
    }
  }

  lemma LeavesGood(w: World, cap: nat, m: nat)
    requires Plausible(cap, m) && w == Sample(m)
    ensures Good(w, cap, 1, m, SampleLevels(m)[0], SampleLevels(m)[1], 0)
  {
    hide Seg;
    hide Cat;
    var U := SampleLeaves(m);
    LeafRun(w, cap, m, 0);
    assert U[0..] == U;
    forall i | 0 <= i < |U|
      ensures At(w.m, U[i].val) == LeafBody(i + 1, m)
    {
      SamplePage(w, m, i + 1);
    }
    hide Sample;
  }

  // ---------------------------------------------------------------- the internal pages

  lemma SampleInner(first: int, m: nat, low: int, hi: int)
    requires m >= 2 && low < (first) * m && (first + m - 1) * m < hi
    ensures Between(Chunk(low, InnerBody(first, m)), low, hi)
  {
    var c := Chunk(low, InnerBody(first, m));
    forall i, j | 0 <= i < j < |c| ensures c[i].key < c[j].key {
      if i > 0 { StrideOrder(first + i - 1, first + j - 1, m); } else if j > 1 { StrideOrder(first, first + j - 1, m); }
    }
    forall i | 0 <= i < |c| ensures low <= c[i].key < hi {
      if 0 < i < m { StrideOrder(first + i - 1, first + m - 1, m); }
    }
  }

  lemma InnerPages(w: World, cap: nat, m: nat)
    requires Plausible(cap, m) && w == Sample(m)
    ensures PageAt(w, 2, Entry(LOW, 2 * m + 3), (m + 1) * m) && PageAt(w, 2, Entry((m + 1) * m, 2 * m + 4), TOP)
    ensures w.m[2 * m + 3] == InnerBody(1, m) && w.m[2 * m + 4] == InnerBody(m + 2, m)
    ensures LOW < (m + 1) * m < TOP
  {
    SamplePage(w, m, 2 * m + 3);
    SamplePage(w, m, 2 * m + 4);
    hide Sample;
    Stride(m, m);
    Stride(m + 1, m);
    StrideTop(m + 1, m);
    StrideTop(2 * m + 1, m);
    SampleInner(1, m, LOW, (m + 1) * m);
    SampleInner(m + 2, m, (m + 1) * m, TOP);
  }

  lemma InnerChunks(m: nat)
    ensures Chunk(LOW, InnerBody(1, m)) + Chunk((m + 1) * m, InnerBody(m + 2, m)) == SampleLeaves(m)
  {
  }

  lemma InnersGood(w: World, cap: nat, m: nat)
    requires Plausible(cap, m) && w == Sample(m)
    ensures Good(w, cap, 2, m, SampleLevels(m)[1], SampleLevels(m)[2], 0)
  {
    hide Sample;
    hide PageAt;
    var x, y := Entry(LOW, 2 * m + 3), Entry((m + 1) * m, 2 * m + 4);
    InnerPages(w, cap, m);
    Cons(w, 2, y, [], TOP);
    Cons(w, 2, x, [y], TOP);
    assert [y] + [] == [y] && [x] + [y] == [x, y];
    assert Cat(w.m, []) == [];
    hide Seg;
    hide Cat;
    hide InnerBody;
    InnerChunks(m);
    PagesHere(w, m);
    InnerSizes(m);
  }

  lemma InnerSizes(m: nat)
    ensures |Entries(InnerBody(1, m))| == m == |Entries(InnerBody(m + 2, m))|
  {
  }

  lemma PagesHere(w: World, m: nat)
    requires w == Sample(m)
    ensures At(w.m, 2 * m + 3) == InnerBody(1, m) && At(w.m, 2 * m + 4) == InnerBody(m + 2, m)
    ensures At(w.m, 2 * m + 5) == Inner(2 * m + 3, [Entry((m + 1) * m, 2 * m + 4)])
    ensures At(w.m, m + 2) == LeafBody(m + 2, m)
    ensures At(w.m, m + 1) == LeafBody(m + 1, m)
    ensures m >= 2 ==> At(w.m, m + 3) == LeafBody(m + 3, m) && At(w.m, m + 4) == LeafBody(m + 4, m)
  {
  }

  lemma RootGood(w: World, cap: nat, m: nat)
    requires Plausible(cap, m) && w == Sample(m)
    ensures Good(w, cap, 3, 1, SampleLevels(m)[2], SampleLevels(m)[3], 0)
  {
    var x := Entry(LOW, 2 * m + 5);
    InnerPages(w, cap, m);
    SamplePage(w, m, 2 * m + 5);
    hide Sample;
    var c := Chunk(LOW, At(w.m, x.val));
    assert c == SampleLevels(m)[2];
    Cons(w, 3, x, [], TOP);
    assert [x] + [] == [x];
    hide Seg;
    hide Cat;
  }

  // ---------------------------------------------------------------- the deletion

  lemma SampleWhole(cap: nat, m: nat)
    requires Plausible(cap, m)
    ensures Whole(Sample(m), cap, SampleLevels(m), 2 * m + 5)
  {
    hide Good;
    hide Cat;
    var w, S := Sample(m), SampleLevels(m);
    LeavesGood(w, cap, m);
    InnersGood(w, cap, m);
    RootGood(w, cap, m);
    forall k | 1 <= k < |S|
      ensures Good(w, cap, k, MinFor(k, TopOf(S, 0), cap), Under(S, 0, S[0], k), S[k], 0)
    {
      assert k == 1 || k == 2 || k == 3;
    }
  }

  /** The first key of leaf n + 1, and the pages on the way to it. */
  lemma SampleWalk(cap: nat, m: nat, n: nat)
    requires Plausible(cap, m) && m < n < 2 * m + 2
    ensures var key := n * m; var S := SampleLevels(m);
            && LOW < key < TOP && S[1][0].key == LOW
            && Pick(S[1], key) == Entry(key, n + 1) && Pick(S[2], key) == Entry((m + 1) * m, 2 * m + 4)
            && At(Sample(m).m, n + 1) == LeafBody(n + 1, m) && HasKey(LeafBody(n + 1, m).entries, key)
  {
    hide Sample;
    hide Cat;
    hide LeafLow;
    hide LeafBody;
    hide HasKey;
    SamplePage(Sample(m), m, n + 1);
    FirstKeyOf(m, n);
    var U, V, key := SampleLevels(m)[1], SampleLevels(m)[2], n * m;
    forall i, j | 0 <= i < j < |U| ensures U[i].key < U[j].key { LowOrder(i + 1, j + 1, m); }
    StrideTop(n, m);
    LowAt(m, n);
    if n + 1 < 2 * m + 2 { LowOrder(n + 1, n + 2, m); }
    RankUnique(U, key, n + 1);
    SecondPage(m, n);
    RankUnique(V, key, 2);
  }

  lemma FirstKeyOf(m: nat, n: nat)
    requires m >= 1
    ensures HasKey(LeafBody(n + 1, m).entries, n * m)
  {
    assert LeafBody(n + 1, m).entries[0].key == n * m;
  }

  lemma SecondPage(m: nat, n: nat)
    requires m >= 1 && m < n
    ensures LOW < (m + 1) * m <= n * m
  {
    LowAt(m, m + 1);
    if n > m + 1 { StrideOrder(m + 1, n, m); }
  }

  lemma LowOrder(i: int, j: int, m: nat)
    requires 1 <= i < j && m >= 1
    ensures LeafLow(i, m) < LeafLow(j, m)
  {
    StrideOrder(i - 1, j - 1, m);
    if i == 1 { StrideOrder(0, j - 1, m); }
  }

  lemma LowAt(m: nat, n: nat)
    requires m >= 1 && n >= 1
    ensures LeafLow(1, m) == LOW && LeafLow(n + 1, m) == n * m && LOW < n * m
  {
    StrideOrder(0, n, m);
  }

  lemma SampleStored(cap: nat, m: nat, n: nat)
    requires Plausible(cap, m) && m < n < 2 * m + 2
    ensures HasKey(SampleLevels(m)[0], n * m)
  {
    hide Cat;
    hide Whole;
    hide Good;
    hide Sample;
    hide Rank;
    hide LeafBody;
    hide HasKey;
    var w, S := Sample(m), SampleLevels(m);
    SampleWhole(cap, m);
    SampleWalk(cap, m, n);
    LevelOf(w, cap, S, 2 * m + 5, 1);
    LeafDecides(w, S[0], S[1], n * m);
  }

  /** Whatever the capacity, the sample is a B+ tree of height 3, and deleting the first key under its
      second internal page repairs that leaf with the last one under the first. */
  lemma DeleteCanFail(cap: nat, m: nat)
    requires Plausible(cap, m)
    ensures Whole(Sample(m), cap, SampleLevels(m), 2 * m + 5) && HasKey(SampleLevels(m)[0], (m + 1) * m)
    ensures !SafeToDelete(Sample(m).m, cap, SampleLevels(m), (m + 1) * m)
  {
    hide Cat;
    hide Whole;
    hide Sample;
    hide IsChild;
    hide LeafBody;
    hide InnerBody;
    hide Rank;
    SampleWhole(cap, m);
    SampleWalk(cap, m, m + 1);
    SampleStored(cap, m, m + 1);
    PagesHere(Sample(m), m);
    LeafShape(m);
    ChildrenOf(m);
  }

  /** Deleting the first key of the leaf after that uses a leaf under the same parent, but merges with it
      under a parent that cannot spare an entry: with eight-byte keys that is repaired, with wider ones
      it is not. */
  lemma WideDeleteCanFail(cap: nat, m: nat)
    requires Plausible(cap, m)
    ensures HasKey(SampleLevels(m)[0], (m + 2) * m)
    ensures Deletable(Sample(m).m, cap, SampleLevels(m), (m + 2) * m, 8)
    ensures !Deletable(Sample(m).m, cap, SampleLevels(m), (m + 2) * m, 16)
  {
    hide Cat;
    hide Whole;
    hide Sample;
    hide IsChild;
    hide LeafBody;
    hide InnerBody;
    hide Rank;
    SampleWalk(cap, m, m + 2);
    SampleStored(cap, m, m + 2);
    PagesHere(Sample(m), m);
    LeafShape(m);
    ChildrenOf(m);
    InnerSizes(m);
  }

  lemma LeafShape(m: nat)
    requires m >= 2
    ensures forall i :: LeafBody(i, m).Leaf? && |LeafBody(i, m).entries| == m
    ensures LeafBody(m + 2, m).prev == m + 1 && LeafBody(m + 2, m).next == m + 3
    ensures LeafBody(m + 3, m).prev == m + 2
    ensures LeafBody(m + 3, m).next == m + 4
  {
  }

  lemma ChildrenOf(m: nat)
    requires m >= 2
    ensures !IsChild(InnerBody(m + 2, m), m + 1) && IsChild(InnerBody(m + 2, m), m + 2)
  {
  }

  // ---------------------------------------------------------------- run by the code

  /** Opens a file that holds the sample and deletes the first key of the leaf at fault: the code reports
      success, and a reader finds no tree. */
  method DeleteRuins(cap: nat, wide: bool) returns (t: BPlusTree, out: Outcome)
    requires OddCapacity(cap) && cap <= 4096
    ensures out == Done && t.Ruined()
  {
    hide Whole;
    hide Sample;
    hide SampleLevels;
    hide Deletable;
    hide SafeToDelete;
    hide BPlusTree.Valid;
    hide BPlusTree.Ruined;
    hide Stores;
    hide ToMap;
    hide HasKey;
    var m := cap / 2;
    ghost var w, S := Sample(m), SampleLevels(m);
    SampleWhole(cap, m);
    SampleFile(cap, m);
    DeleteCanFail(cap, m);
    WideDeleteCanFail(cap, m);
    SampleWalk(cap, m, if wide then m + 2 else m + 1);
    var pm := new PageManager.Open(Sample(m).m, 2 * m + 6);
    t := new BPlusTree.Reopen(pm, null, cap, true, if wide then 16 else 8, S, w.tag);
    var key := if wide then (m + 2) * m else (m + 1) * m;
    RowsInOrder(w, cap, S, 2 * m + 5);
    ToMapFinds(S[0], key);
    CousinMeansNot(w.m, cap, S, key, t.keySize);
    out := t.Delete(key);
  }

  lemma CousinMeansNot(m: map<int, Body>, cap: int, S: seq<seq<Entry>>, key: int, keySize: nat)
    ensures !SafeToDelete(m, cap, S, key) ==> !Deletable(m, cap, S, key, keySize)
  {
  }

  lemma SampleFile(cap: nat, m: nat)
    requires Plausible(cap, m)
    ensures var w := Sample(m); 0 in w.m && w.m[0] == Meta(2 * m + 5) && w.nid == 2 * m + 6
    ensures forall id :: id in Sample(m).m ==> id < 2 * m + 6
    ensures |SampleLevels(m)| == 4
  {
    hide Cat;
  }
}
