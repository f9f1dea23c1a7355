/** Range scans: the leaf chain read from the leaf of the start key is a slice of the rows. */
module Scanning {
  import opened Pages
  import opened Levels
  import opened Stack
  import opened NodeOps
  import opened Trees
  import opened Inserting
  import opened Lookup

  /** The stored pairs with lo <= key <= hi, in ascending order. */
  ghost function Range(rows: seq<Entry>, lo: int, hi: int): seq<Entry>
    requires lo <= hi
  {
    var a, b := Rank(rows, lo - 1), Rank(rows, hi);
    if a <= b then rows[a..b] else []
  }

  /** Range returns exactly the pairs of the range, and in strictly ascending key order. */
  lemma RangeExact(rows: seq<Entry>, lo: int, hi: int)
    requires Sorted(rows) && lo <= hi
    ensures Sorted(Range(rows, lo, hi))
    ensures forall e :: e in Range(rows, lo, hi) <==> e in rows && lo <= e.key <= hi
  {
    hide Rank;
    RankBounds(rows, lo - 1);
    RankBounds(rows, hi);
    var a, b := Rank(rows, lo - 1), Rank(rows, hi);
    assert a <= b;
    forall e | e in rows && lo <= e.key <= hi ensures e in rows[a..b] {
      var j :| 0 <= j < |rows| && rows[j] == e;
      assert a <= j < b;
      assert rows[a..b][j - a] == e;
    }
  }

  /** Leaf i of the level holds rows[a..a + |es|]; the next leaf, if any, goes on from there. */
  ghost predicate LeafSpan(w: World, S: seq<seq<Entry>>, i: nat, a: nat, id: int, b: Body) {
    && |S| >= 2 && i < |S[1]| && id == S[1][i].val && b == At(w.m, id) && b.Leaf?
    && a == |Cat(w.m, S[1][..i])|
    && a + |b.entries| <= |S[0]| && S[0][a..a + |b.entries|] == b.entries
  }

  lemma SpanAt(w: World, cap: int, S: seq<seq<Entry>>, root: int, i: nat)
    requires Whole(w, cap, S, root) && |S| >= 2 && i < |S[1]|
    ensures var id := S[1][i].val;
            && LeafSpan(w, S, i, |Cat(w.m, S[1][..i])|, id, At(w.m, id))
            && id in w.m && id in w.tag
  {
    hide Seg;
    hide Cat;
    LevelOf(w, cap, S, root, 1);
    hide Whole;
    CoverIndex(w, 1, S[0], S[1], i);
  }

  /** The walk to the start key ends at the leaf where the scan begins. */
  lemma SpanStarts(w: World, cap: int, S: seq<seq<Entry>>, root: int, key: int, id: int, anc: seq<int>, b: Body)
    returns (i: nat, a: nat)
    requires Whole(w, cap, S, root) && LOW < key < TOP
    requires OnPath(w, S, 1, key, id, anc) && b == At(w.m, id)
    ensures LeafSpan(w, S, i, a, id, b) && Sorted(b.entries)
    ensures Rank(S[0], key - 1) == a + Rank(b.entries, key - 1)
  {
    hide Seg;
    hide Cat;
    hide Rank;
    hide Whole;
    LevelOf(w, cap, S, root, 1);
    hide Good;
    KeyBelowHead(S[1], key);
    i := Rank(S[1], key) - 1;
    SpanAt(w, cap, S, root, i);
    a := |Cat(w.m, S[1][..i])|;
    RankInChunk(w, 1, S[0], S[1], i, key - 1);
  }

  lemma RankInChunk(w: World, k: nat, D: seq<Entry>, U: seq<Entry>, i: nat, x: int)
    requires Level(w, k, D, U) && i < |U| && U[i].key - 1 <= x < Head(U[i + 1..], TOP)
    ensures var c := Chunk(U[i].key, At(w.m, U[i].val));
            Sorted(c) && Rank(D, x) == |Cat(w.m, U[..i])| + Rank(c, x)
  {
    hide Seg;
    hide Cat;
    hide Rank;
    hide Chunk;
    var c, a := Chunk(U[i].key, At(w.m, U[i].val)), |Cat(w.m, U[..i])|;
    RowsSorted(w, k, D, U);
    CoverIndex(w, k, D, U, i);
    RankBounds(c, x);
    var r := Rank(c, x);
    if r > 0 { SliceAt(D, a, c, r - 1); } else if a > 0 { BeforeLeaf(w, k, D, U, i); }
    if r < |c| { SliceAt(D, a, c, r); } else if a + r < |D| { AfterLeaf(w, k, D, U, i); }
    RankUnique(D, x, a + r);
  }

  /** What lies behind the chunk of a page is at or above the next bound. */
  lemma AfterLeaf(w: World, k: nat, D: seq<Entry>, U: seq<Entry>, i: nat)
    requires Level(w, k, D, U) && i < |U|
    requires |Cat(w.m, U[..i])| + |Chunk(U[i].key, At(w.m, U[i].val))| < |D|
    ensures D[|Cat(w.m, U[..i])| + |Chunk(U[i].key, At(w.m, U[i].val))|].key >= Head(U[i + 1..], TOP)
  {
    hide Seg;
    hide Cat;
    CoverAt(w, k, D, U, i);
    SegCut(w, k, U, TOP, i, i + 1);
    CatBetween(w, k, U[i + 1..], TOP);
    var x, c, y := Cat(w.m, U[..i]), Chunk(U[i].key, At(w.m, U[i].val)), Cat(w.m, U[i + 1..]);
    assert D[|x| + |c|] == y[0];
  }

  /** Following the next link: either the chain ends with the rows, or the next leaf takes over. */
  lemma SpanNext(w: World, cap: int, S: seq<seq<Entry>>, root: int, i: nat, a: nat, id: int, b: Body)
    requires Whole(w, cap, S, root) && LeafSpan(w, S, i, a, id, b)
    ensures b.next == 0 ==> a + |b.entries| == |S[0]|
    ensures b.next != 0 ==>
      && LeafSpan(w, S, i + 1, a + |b.entries|, b.next, At(w.m, b.next)) && At(w.m, b.next).Leaf?
      && b.next in w.m && b.next in w.tag
  {
    hide Seg;
    hide Cat;
    hide Whole;
    LevelOf(w, cap, S, root, 1);
    hide Occupied;
    NextOf(w, cap, 1, MinFor(1, |S| - 1, cap), S[0], S[1], i);
    hide Good;
    SpanEnd(w, 1, S[0], S[1], i);
    if i + 1 < |S[1]| { SpanAt(w, cap, S, root, i + 1); }
  }

  lemma SpanEnd(w: World, k: nat, D: seq<Entry>, U: seq<Entry>, i: nat)
    requires Level(w, k, D, U) && i < |U|
    ensures Cat(w.m, U[..i + 1]) == Cat(w.m, U[..i]) + Chunk(U[i].key, At(w.m, U[i].val))
    ensures i + 1 == |U| ==> Cat(w.m, U[..i + 1]) == D
  {
    hide Seg;
    hide Cat;
    hide Chunk;
    assert U[..i + 1] == U[..i] + [U[i]];
    CatConcat(w.m, U[..i], [U[i]]);
    CatOne(w.m, U[i]);
    if i + 1 == |U| { assert U[..i + 1] == U; }
  }

  /** The rows from position lo up to hi were collected, and none of them lies above end. */
  ghost predicate Got(rows: seq<Entry>, lo: nat, hi: nat, end: int, results: seq<Entry>) {
    lo <= hi <= |rows| && results == rows[lo..hi] && forall e :: e in results ==> e.key <= end
  }

  lemma SliceOf(D: seq<Entry>, a: nat, c: seq<Entry>, x: nat, y: nat)
    requires a + |c| <= |D| && D[a..a + |c|] == c && x <= y <= |c|
    ensures c[x..y] == D[a + x..a + y]
  {
    forall t | 0 <= t < y - x ensures c[x..y][t] == D[a + x..a + y][t] {
      SliceAt(D, a, c, x + t);
    }
  }

  lemma GotNone(rows: seq<Entry>, lo: nat, end: int)
    ensures lo <= |rows| ==> Got(rows, lo, lo, end, [])
  {
  }

  /** Entries idx..j of the leaf extend the collected slice of the rows. */
  lemma SpanCollect(w: World, S: seq<seq<Entry>>, i: nat, a: nat, id: int, b: Body,
                    lo: nat, idx: nat, end: int, results: seq<Entry>, got: seq<Entry>)
    requires LeafSpan(w, S, i, a, id, b) && idx + |got| <= |b.entries| && got == b.entries[idx..idx + |got|]
    requires Got(S[0], lo, a + idx, end, results) && forall e :: e in got ==> e.key <= end
    ensures i < |S[1]| && Got(S[0], lo, a + idx + |got|, end, results + got)
    ensures idx + |got| < |b.entries| ==>
      a + idx + |got| < |S[0]| && S[0][a + idx + |got|] == b.entries[idx + |got|]
  {
    var D, c, j := S[0], b.entries, idx + |got|;
    SliceOf(D, a, c, idx, j);
    assert D[lo..a + idx] + D[a + idx..a + j] == D[lo..a + j];
    if j < |c| { SliceAt(D, a, c, j); }
  }

  /** A slice that starts at the first key of the range and stops before the first key above it is
      the range. */
  lemma RangeEnds(w: World, cap: int, S: seq<seq<Entry>>, root: int, lo: nat, hi: nat, start: int, end: int,
                  results: seq<Entry>)
    requires Whole(w, cap, S, root) && |S| >= 2 && start <= end
    requires lo == Rank(S[0], start - 1) && Got(S[0], lo, hi, end, results)
    requires hi < |S[0]| ==> end < S[0][hi].key
    ensures results == Range(S[0], start, end)
  {
    hide Whole;
    hide Got;
    hide Range;
    hide Rank;
    RowsInOrder(w, cap, S, root);
    SliceIsRange(S[0], lo, hi, start, end, results);
  }

  lemma SliceIsRange(D: seq<Entry>, lo: nat, hi: nat, start: int, end: int, results: seq<Entry>)
    requires Sorted(D) && start <= end && lo == Rank(D, start - 1) && Got(D, lo, hi, end, results)
    requires hi < |D| ==> end < D[hi].key
    ensures results == Range(D, start, end)
  {
    hide Rank;
    RankBounds(D, start - 1);
    if hi > lo {
      assert results[hi - lo - 1] == D[hi - 1];
      assert D[hi - 1] in results;
    } else if hi > 0 {
      assert D[hi - 1].key <= start - 1;
    }
    RankUnique(D, end, hi);
  }
}
