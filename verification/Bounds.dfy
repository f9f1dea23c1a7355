/** How many rows a tree of a given height holds at least. */
module Bounds {
  import opened Pages
  import opened Levels
  import opened Stack
  import opened Trees
  import opened Lookup

  function Power(b: nat, e: nat): nat {
    if e == 0 then 1 else b * Power(b, e - 1)
  }

  /** A run of pages with at least lo entries each covers at least lo items a page, or lo + 1 if the
      pages are internal. */
  lemma {:induction false} RunCovers(w: World, cap: int, k: nat, U: seq<Entry>, hi: int, lo: nat)
    requires k > 0 && Seg(w, k, U, hi) && Occupied(w.m, U, lo, cap, 0)
    ensures |Cat(w.m, U)| >= |U| * if k == 1 then lo else lo + 1
  {
    if U != [] {
      var T := U[1..];
      assert forall i :: 0 <= i < |T| ==> T[i] == U[i + 1];
      RunCovers(w, cap, k, T, hi, lo);
      assert Filled(w.m, U[0].val, lo, cap);
    }
  }

  /** What one level covers: m rows a leaf, m + 1 children an internal page, 2 children at the root. */
  lemma LevelCovers(w: World, cap: int, S: seq<seq<Entry>>, root: int, k: nat, m: nat)
    requires Whole(w, cap, S, root) && 1 <= k < |S| && m == cap / 2
    ensures k == |S| - 1 && k > 1 ==> |S[k - 1]| >= 2
    ensures 1 < k < |S| - 1 ==> |S[k - 1]| >= |S[k]| * (m + 1)
    ensures k == 1 < |S| - 1 ==> |S[0]| >= |S[1]| * m
  {
    hide Whole;
    hide Good;
    LevelOf(w, cap, S, root, k);
    OneRoot(w, cap, S, root);
    GoodCovers(w, cap, k, MinFor(k, |S| - 1, cap), S[k - 1], S[k]);
  }

  lemma GoodCovers(w: World, cap: int, k: nat, lo: nat, D: seq<Entry>, U: seq<Entry>)
    requires k > 0 && Good(w, cap, k, lo, D, U, 0)
    ensures |D| >= |U| * if k == 1 then lo else lo + 1
  {
    hide Seg;
    hide Cat;
    hide Chain;
    RunCovers(w, cap, k, U, TOP, lo);
  }

  lemma OneRoot(w: World, cap: int, S: seq<seq<Entry>>, root: int)
    requires Whole(w, cap, S, root)
    ensures |S| >= 2 && |S[|S| - 1]| == 1 && cap >= 0
  {
    hide Good;
  }

  /** So levels grow by a factor of m + 1 from the one below the root downwards. */
  lemma {:induction false} LevelGrows(w: World, cap: int, S: seq<seq<Entry>>, root: int, k: nat, m: nat)
    requires Whole(w, cap, S, root) && 1 <= k < |S| - 1 && m == cap / 2
    ensures |S[k]| >= 2 * Power(m + 1, |S| - 2 - k)
    decreases |S| - k
  {
    hide Whole;
    LevelCovers(w, cap, S, root, k + 1, m);
    if k < |S| - 2 {
      LevelGrows(w, cap, S, root, k + 1, m);
      Multiply(|S[k]|, |S[k + 1]|, m + 1, Power(m + 1, |S| - 3 - k));
    }
  }

  lemma Multiply(x: nat, y: nat, f: nat, p: nat)
    requires x >= y * f && y >= 2 * p
    ensures x >= 2 * (f * p)
  {
    assert y * f >= (2 * p) * f;
  }

  /** A tree of height h >= 2 has at least 2 (m + 1)^(h - 2) leaves and m rows in each, for m half the
      capacity. */
  lemma HeightBound(w: World, cap: int, S: seq<seq<Entry>>, root: int, m: nat)
    requires Whole(w, cap, S, root) && |S| > 2 && m == cap / 2
    ensures |S[0]| >= 2 * (m * Power(m + 1, |S| - 3))
  {
    hide Whole;
    LevelCovers(w, cap, S, root, 1, m);
    LevelGrows(w, cap, S, root, 1, m);
    Multiply(|S[0]|, |S[1]|, m, Power(m + 1, |S| - 3));
  }
}
