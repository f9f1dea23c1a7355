/** The shape that ascending inserts leave: every page but the last of its level is exactly half full. */
module Packing {
  import opened Pages
  import opened Levels
  import opened Stack
  import opened NodeOps
  import opened Trees
  import opened Inserting
  import opened Counting
  import opened Statistics
  import opened Sizing

  // ---------------------------------------------------------------- counting pages

  /** How many pages n items take if a page has room for c of them and keeps q when it is split. */
  function PagesFor(n: nat, q: nat, c: nat): (p: nat)
    requires q > 0
    ensures p >= 1
  {
    if n <= c then 1 else (n - c - 1) / q + 2
  }

  lemma PagesBounds(n: nat, q: nat, c: nat)
    requires q > 0
    ensures var p := PagesFor(n, q, c); n <= c + (p - 1) * q && (p > 1 ==> n >= c + 1 + (p - 2) * q)
  {
    if n > c {
      var d := (n - c - 1) / q;
      assert n - c - 1 == d * q + (n - c - 1) % q;
      assert (d + 1) * q == d * q + q;
    }
  }

  lemma Monotone(a: int, b: int, q: nat)
    ensures a <= b ==> a * q <= b * q
  {
  }

  lemma PagesUnique(n: nat, q: nat, c: nat, p: nat)
    requires q > 0 && p >= 1 && n <= c + (p - 1) * q && (p > 1 ==> n >= c + 1 + (p - 2) * q)
    ensures PagesFor(n, q, c) == p
  {
    PagesBounds(n, q, c);
    var r: int := PagesFor(n, q, c);
    hide PagesFor;
    Monotone(r - 1, p - 2, q);
    Monotone(p - 1, r - 2, q);
  }

  lemma OneMorePage(n: nat, q: nat, c: nat)
    requires q > 0
    ensures var p := PagesFor(n, q, c);
            && n - (p - 1) * q <= c
            && PagesFor(n + 1, q, c) == if n - (p - 1) * q == c then p + 1 else p
  {
    PagesBounds(n, q, c);
    var p := PagesFor(n, q, c);
    hide PagesFor;
    assert (p - 1) * q + q == p * q;
    PagesUnique(n + 1, q, c, if n - (p - 1) * q == c then p + 1 else p);
  }

  /** The items of U stand for pages that cover q items of D each, but for the last. */
  ghost predicate Packed(D: seq<Entry>, U: seq<Entry>, q: nat, c: nat)
    requires q > 0
  {
    && |U| == PagesFor(|D|, q, c)
    && forall j :: 1 <= j < |U| ==> j * q < |D| && U[j].key == D[j * q].key
  }

  /** What a page of level k keeps when it is split, and what it has room for, counted in items below. */
  function Stride(k: nat, cap: nat): nat {
    if k == 1 then cap / 2 else cap / 2 + 1
  }

  function Room(k: nat, cap: nat): nat {
    if k == 1 then cap else cap + 1
  }

  ghost predicate AllPacked(S: seq<seq<Entry>>, cap: nat) {
    cap >= 2 && forall k :: 1 <= k < |S| ==> Packed(S[k - 1], S[k], Stride(k, cap), Room(k, cap))
  }

  /** One more item below: the last page takes it, or is split if it is full. */
  lemma OneMoreItem(D: seq<Entry>, U: seq<Entry>, q: nat, c: nat, x: Entry, y: Entry)
    requires q > 0 && Packed(D, U, q, c)
    ensures |D| - (|U| - 1) * q < c ==> Packed(D + [x], U, q, c)
    ensures |D| - (|U| - 1) * q == c && |U| * q < |D| && y.key == D[|U| * q].key ==> Packed(D + [x], U + [y], q, c)
  {
    OneMorePage(|D|, q, c);
    hide PagesFor;
    forall j | 1 <= j < |U| ensures j * q < |D + [x]| && (D + [x])[j * q] == D[j * q] {
    }
  }

  // ---------------------------------------------------------------- the last page of a level

  lemma PackedAt(D: seq<Entry>, U: seq<Entry>, q: nat, c: nat) returns (x: nat)
    requires q > 0 && Packed(D, U, q, c)
    ensures |U| >= 1 && x == (|U| - 1) * q && (|U| > 1 ==> x < |D| && U[|U| - 1].key == D[x].key)
  {
    x := (|U| - 1) * q;
  }

  /** Where the items below the last page of level k begin. */
  lemma LastStart(w: World, cap: int, S: seq<seq<Entry>>, root: int, k: nat, q: nat, c: nat)
    requires Whole(w, cap, S, root) && 1 <= k < |S| && q > 0 && Packed(S[k - 1], S[k], q, c)
    ensures Offset(w.m, S[k], |S[k]| - 1) == (|S[k]| - 1) * q
  {
    hide Whole;
    hide Packed;
    hide Level;
    hide Offset;
    LevelAt(w, cap, S, root, k);
    OffsetEnds(w, k, S[k - 1], S[k]);
    var x := PackedAt(S[k - 1], S[k], q, c);
    if |S[k]| > 1 { StartsAt(w, cap, S, root, k, |S[k]| - 1, x); }
  }

  /** Item j of level k covers items from the one with its own key on. */
  lemma StartsAt(w: World, cap: int, S: seq<seq<Entry>>, root: int, k: nat, j: nat, x: nat)
    requires Whole(w, cap, S, root) && 1 <= k < |S| && 1 <= j < |S[k]| && x < |S[k - 1]|
    requires S[k][j].key == S[k - 1][x].key
    ensures Offset(w.m, S[k], j) == x
  {
    hide Whole;
    hide Offset;
    hide Chunk;
    LevelAt(w, cap, S, root, k);
    var D, U := S[k - 1], S[k];
    RowsSorted(w, k, D, U);
    hide Level;
    var a := ChunkSpan(w, cap, S, root, k, j - 1);
    var b := ChunkSpan(w, cap, S, root, k, j);
    var c, d := Chunk(U[j - 1].key, At(w.m, U[j - 1].val)), Chunk(U[j].key, At(w.m, U[j].val));
    if c == [] || d == [] {
      EmptyIsRoot(w, cap, S, root, k, if c == [] then j - 1 else j);
    } else {
      assert c[|c| - 1] == D[b - 1] && d[0] == D[b];
      assert c[|c| - 1].key < U[j].key <= d[0].key;
    }
  }

  /** What the last page of level k holds: all items below from there on. */
  lemma LastPage(w: World, cap: int, S: seq<seq<Entry>>, root: int, k: nat, q: nat, c: nat)
    requires Whole(w, cap, S, root) && 1 <= k < |S| && q > 0 && Packed(S[k - 1], S[k], q, c)
    ensures var n, D := |S[k]| - 1, S[k - 1];
            && n >= 0 && 0 <= n * q <= |D| && KindOf(k, At(w.m, S[k][n].val))
            && Chunk(S[k][n].key, At(w.m, S[k][n].val)) == D[n * q..]
  {
    hide Whole;
    hide Chunk;
    LastStart(w, cap, S, root, k, q, c);
    LevelAt(w, cap, S, root, k);
    var n := |S[k]| - 1;
    ItemSpan(w, k, S[k - 1], S[k], n);
    OffsetEnds(w, k, S[k - 1], S[k]);
    PageCount(w, cap, S, root, k, n);
  }

  /** A key above all rows leads to the last page of every level. */
  lemma LeadsLast(w: World, cap: int, S: seq<seq<Entry>>, root: int, key: int, k: nat)
    requires Whole(w, cap, S, root) && LOW < key && 1 <= k < |S| && forall i :: 0 <= i < |S[0]| ==> S[0][i].key < key
    ensures S[k] != [] && Rank(S[k], key) == |S[k]| && PageOn(w.m, S, key, k) == At(w.m, S[k][|S[k]| - 1].val)
  {
    hide Whole;
    hide Rank;
    LevelAt(w, cap, S, root, k);
    LevelDistinct(w, k, S[k - 1], S[k]);
    hide Level;
    forall i | 0 <= i < |S[k]| ensures S[k][i].key < key { KeysBelow(w, cap, S, root, key, k, i); }
    RankUnique(S[k], key, |S[k]|);
  }

  /** It is full exactly if the items below have used up the room, and the key it is split at is that of the
      item which the next page is to start with. */
  lemma FullIsCount(w: World, cap: nat, S: seq<seq<Entry>>, root: int, key: int, k: nat)
    requires Whole(w, cap, S, root) && LOW < key && 1 <= k < |S| && forall i :: 0 <= i < |S[0]| ==> S[0][i].key < key
    requires AllPacked(S, cap)
    ensures var b, D, n, q := PageOn(w.m, S, key, k), S[k - 1], |S[k]|, Stride(k, cap);
            && n >= 1 && |D| - (n - 1) * q <= Room(k, cap)
            && (|Entries(b)| == cap <==> |D| - (n - 1) * q == Room(k, cap))
            && (|Entries(b)| == cap ==> 0 <= n * q < |D| && SplitKey(b) == D[n * q].key)
  {
    hide Whole;
    hide PageOn;
    hide PagesFor;
    var D, n, q := S[k - 1], |S[k]|, Stride(k, cap);
    assert Packed(D, S[k], q, Room(k, cap));
    LeadsLast(w, cap, S, root, key, k);
    LastPage(w, cap, S, root, k, q, Room(k, cap));
    OneMorePage(|D|, q, Room(k, cap));
    var b := PageOn(w.m, S, key, k);
    var c := Chunk(S[k][n - 1].key, b);
    assert (n - 1) * q + q == n * q;
    if |Entries(b)| == cap {
      assert c[q] == b.entries[cap / 2];
      assert D[(n - 1) * q..][q] == D[n * q];
    }
  }

  // ---------------------------------------------------------------- one more key

  /** S before and T after a key above all rows was added. */
  ghost predicate Appends(w: World, cap: nat, S: seq<seq<Entry>>, root: int, key: int, T: seq<seq<Entry>>) {
    && Whole(w, cap, S, root) && LOW < key && (forall i :: 0 <= i < |S[0]| ==> S[0][i].key < key)
    && AllPacked(S, cap) && Climbs(w.m, cap, S, key, 0, w.nid, T)
    && T != [] && exists e :: T[0] == S[0] + [e]
  }

  /** Level k grows by one item at its end if all pages up to it are full, and stays as it is otherwise. */
  lemma GrowsAtEnd(w: World, cap: nat, S: seq<seq<Entry>>, root: int, key: int, T: seq<seq<Entry>>, k: nat)
    returns (e: Entry)
    requires Appends(w, cap, S, root, key, T) && k < |S|
    ensures k < |T| && T[k] == if Overflows(w.m, cap, S, key, 0, k) then S[k] + [e] else S[k]
    ensures k > 0 && Overflows(w.m, cap, S, key, 0, k) ==> e.key == SplitKey(PageOn(w.m, S, key, k))
  {
    hide Whole;
    hide AllPacked;
    hide PageOn;
    hide SplitKey;
    hide Rank;
    if k == 0 {
      e :| T[0] == S[0] + [e];
    } else {
      LeadsLast(w, cap, S, root, key, k);
      e := Entry(SplitKey(PageOn(w.m, S, key, k)), w.nid + k - 1);
      assert InsertAt(S[k], |S[k]|, e) == S[k] + [e];
    }
  }

  lemma LevelStaysPacked(w: World, cap: nat, S: seq<seq<Entry>>, root: int, key: int, T: seq<seq<Entry>>, k: nat)
    requires Appends(w, cap, S, root, key, T) && 1 <= k < |S|
    ensures k < |T| && cap >= 2 && Packed(T[k - 1], T[k], Stride(k, cap), Room(k, cap))
  {
    hide Whole;
    hide PageOn;
    hide Packed;
    hide Climbs;
    hide SplitKey;
    var x := GrowsAtEnd(w, cap, S, root, key, T, k - 1);
    var y := GrowsAtEnd(w, cap, S, root, key, T, k);
    FullIsCount(w, cap, S, root, key, k);
    assert Packed(S[k - 1], S[k], Stride(k, cap), Room(k, cap));
    OneMoreItem(S[k - 1], S[k], Stride(k, cap), Room(k, cap), x, y);
  }

  /** Adding a key above all rows keeps every level packed. */
  lemma StaysPacked(w: World, cap: nat, S: seq<seq<Entry>>, root: int, key: int, T: seq<seq<Entry>>)
    requires Appends(w, cap, S, root, key, T) && |T| > 1 && |T[|T| - 1]| == 1
    ensures AllPacked(T, cap)
  {
    hide Whole;
    hide Packed;
    forall k | 1 <= k < |T| ensures Packed(T[k - 1], T[k], Stride(k, cap), Room(k, cap)) {
      if k < |S| {
        LevelStaysPacked(w, cap, S, root, key, T, k);
      } else {
        RootPacked(w, cap, S, root, key, T);
      }
    }
  }

  /** A new root is above two pages. */
  lemma RootPacked(w: World, cap: nat, S: seq<seq<Entry>>, root: int, key: int, T: seq<seq<Entry>>)
    requires Appends(w, cap, S, root, key, T) && |T| == |S| + 1 && |T[|S|]| == 1
    ensures cap >= 2 && |S| > 1 && Packed(T[|S| - 1], T[|S|], Stride(|S|, cap), Room(|S|, cap))
  {
    hide PageOn;
    var e := GrowsAtEnd(w, cap, S, root, key, T, |S| - 1);
    RootLevel(w, cap, S, root);
  }

  // ---------------------------------------------------------------- the shape as a whole

  /** The number of pages above a level of n pages, and the number of levels above it. */
  function PagesAbove(n: nat, cap: nat): nat
    requires cap >= 5
    decreases n
  {
    if n <= 1 then 0
    else FewerPages(n, cap); var p := PagesFor(n, Stride(2, cap), Room(2, cap)); p + PagesAbove(p, cap)
  }

  function LevelsAbove(n: nat, cap: nat): nat
    requires cap >= 5
    decreases n
  {
    if n <= 1 then 0
    else FewerPages(n, cap); 1 + LevelsAbove(PagesFor(n, Stride(2, cap), Room(2, cap)), cap)
  }

  lemma FewerPages(n: nat, cap: nat)
    requires cap >= 5 && n > 1
    ensures PagesFor(n, Stride(2, cap), Room(2, cap)) < n
  {
    var q, c := Stride(2, cap), Room(2, cap);
    PagesBounds(n, q, c);
    var p: int := PagesFor(n, q, c);
    hide PagesFor;
    Monotone(1, q, if p > 1 then p - 2 else 0);
  }

  /** The items of the levels from k + 1 on. */
  lemma {:induction false} CountAbove(S: seq<seq<Entry>>, cap: nat, k: nat)
    requires AllPacked(S, cap) && cap >= 5 && 1 <= k < |S| && |S[|S| - 1]| == 1
    requires forall j :: 1 <= j < |S| - 1 ==> |S[j]| > 1
    ensures Total(S) == Total(S[..k + 1]) + PagesAbove(|S[k]|, cap)
    ensures |S| - 1 == k + LevelsAbove(|S[k]|, cap)
    decreases |S| - k
  {
    hide Packed;
    if k == |S| - 1 {
      assert S[..k + 1] == S;
    } else {
      CountAbove(S, cap, k + 1);
      assert S[..k + 2][..k + 1] == S[..k + 1];
      assert Packed(S[k], S[k + 1], Stride(k + 1, cap), Room(k + 1, cap));
      PackedCount(S[k], S[k + 1], Stride(k + 1, cap), Room(k + 1, cap));
    }
  }

  lemma PackedCount(D: seq<Entry>, U: seq<Entry>, q: nat, c: nat)
    requires q > 0 && Packed(D, U, q, c)
    ensures |U| == PagesFor(|D|, q, c)
  {
  }

  /** Only the top level of a tree has a single page. */
  lemma SinglePageIsRoot(w: World, cap: int, S: seq<seq<Entry>>, root: int, k: nat)
    requires Whole(w, cap, S, root) && 1 <= k < |S| - 1
    ensures |S[k]| > 1
  {
    hide Whole;
    RootLevel(w, cap, S, root);
    LevelAt(w, cap, S, root, k);
    LevelAt(w, cap, S, root, k + 1);
    var a := ChunkSpan(w, cap, S, root, k + 1, 0);
    InnerHasEntries(w, cap, S, root, k + 1, 0);
  }

  lemma InnerHasEntries(w: World, cap: int, S: seq<seq<Entry>>, root: int, k: nat, i: nat)
    requires Whole(w, cap, S, root) && 2 <= k < |S| && i < |S[k]|
    ensures At(w.m, S[k][i].val).Inner? && |Entries(At(w.m, S[k][i].val))| >= 1
  {
    hide Level;
    hide Chain;
    assert Good(w, cap, k, MinFor(k, TopOf(S, 0), cap), Under(S, 0, S[0], k), S[k], 0);
    LevelAt(w, cap, S, root, k);
    LevelDistinct(w, k, S[k - 1], S[k]);
    assert Here(w, k, S[k][i]);
    assert Filled(w.m, S[k][i].val, MinFor(k, TopOf(S, 0), cap), cap);
  }

  /** The number of leaves, pages and levels of a packed tree follows from the number of rows. */
  lemma PackedShape(w: World, cap: nat, S: seq<seq<Entry>>, root: int)
    requires Whole(w, cap, S, root) && AllPacked(S, cap)
    ensures cap >= 5 && |S| > 1 && |S[1]| == PagesFor(|S[0]|, cap / 2, cap)
    ensures Total(S) == |S[1]| + PagesAbove(|S[1]|, cap) && |S| - 1 == 1 + LevelsAbove(|S[1]|, cap)
  {
    RootLevel(w, cap, S, root);
    assert OddCapacity(cap);
    hide Whole;
    hide PagesAbove;
    hide LevelsAbove;
    assert Packed(S[0], S[1], Stride(1, cap), Room(1, cap));
    forall j | 1 <= j < |S| - 1 ensures |S[j]| > 1 { SinglePageIsRoot(w, cap, S, root, j); }
    CountAbove(S, cap, 1);
    TotalFresh(S[..2]);
  }

  /** A fresh tree is packed. */
  lemma StartsPacked(S: seq<seq<Entry>>, cap: nat)
    requires cap >= 2 && |S| == 2 && S[0] == [] && |S[1]| == 1
    ensures AllPacked(S, cap)
  {
  }
}
