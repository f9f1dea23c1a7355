/** What removing an entry, re-dividing two neighbours and merging two neighbours mean for a level. */
module Shrinking {
  import opened Pages
  import opened Levels
  import opened Stack
  import opened NodeOps
  import opened Trees
  import opened Node

  // ---------------------------------------------------------------- one page

  /** Removes position r of the chunk of b. */
  function RemoveBody(b: Body, r: int): Body {
    var at := if b.Leaf? then r else r - 1;
    if 0 <= at < |Entries(b)| then WithEntries(b, RemoveAt(Entries(b), at)) else b
  }

  /** Gives position r of the chunk of an internal page another key. */
  function RekeyBody(b: Body, r: int, sep: int): Body {
    if 0 <= r - 1 < |Entries(b)|
    then WithEntries(b, Entries(b)[r - 1 := Entry(sep, Entries(b)[r - 1].val)]) else b
  }

  lemma RemoveBodyChunk(low: int, b: Body, r: nat)
    requires (b.Leaf? || b.Inner?) && r < |Chunk(low, b)| && (b.Inner? ==> r > 0)
    ensures Chunk(low, RemoveBody(b, r)) == RemoveAt(Chunk(low, b), r)
    ensures SameLinks(b, RemoveBody(b, r)) && |Entries(RemoveBody(b, r))| == |Entries(b)| - 1
  {
  }

  lemma RekeyBodyChunk(low: int, b: Body, r: nat, sep: int)
    requires b.Inner? && 0 < r < |Chunk(low, b)|
    ensures Chunk(low, RekeyBody(b, r, sep)) == Chunk(low, b)[r := Entry(sep, Chunk(low, b)[r].val)]
    ensures SameLinks(b, RekeyBody(b, r, sep)) && |Entries(RekeyBody(b, r, sep))| == |Entries(b)|
  {
  }

  lemma RemoveBetween(c: seq<Entry>, lo: int, hi: int, r: nat)
    requires Between(c, lo, hi) && r < |c|
    ensures Between(RemoveAt(c, r), lo, hi)
  {
    var d := RemoveAt(c, r);
    forall i | 0 <= i < |d| ensures d[i] == if i < r then c[i] else c[i + 1] {
    }
  }

  lemma RekeyBetween(c: seq<Entry>, lo: int, hi: int, r: nat, sep: int)
    requires Between(c, lo, hi) && 0 < r < |c|
    requires c[r - 1].key < sep < if r + 1 < |c| then c[r + 1].key else hi
    ensures Between(c[r := Entry(sep, c[r].val)], lo, hi)
  {
    var d := c[r := Entry(sep, c[r].val)];
    forall i, j | 0 <= i < j < |d| ensures d[i].key < d[j].key {
      assert i < r ==> c[i].key <= c[r - 1].key;
      assert j > r ==> c[r + 1].key <= c[j].key;
    }
  }

  lemma RemoveCover(a: seq<Entry>, c: seq<Entry>, b: seq<Entry>, r: nat)
    requires r < |c|
    ensures a + RemoveAt(c, r) + b == RemoveAt(a + c + b, |a| + r)
  {
    assert (a + c + b)[..|a| + r] == a + c[..r];
    assert (a + c + b)[|a| + r + 1..] == c[r + 1..] + b;
  }

  lemma RekeyCover(a: seq<Entry>, c: seq<Entry>, b: seq<Entry>, r: nat, e: Entry)
    requires r < |c|
    ensures a + c[r := e] + b == (a + c + b)[|a| + r := e]
  {
  }

  /** Removing one entry of a page removes it from what the level covers.  The page may drop one
      entry below its minimum, and is then the exception of its level. */
  lemma RemoveGood(w: World, v: World, cap: int, k: nat, lo: int, D: seq<Entry>, U: seq<Entry>,
                   i: nat, r: nat, exc: int)
    requires Good(w, cap, k, lo, D, U, 0) && i < |U|
    requires var b := At(w.m, U[i].val); var c := Chunk(U[i].key, b);
             && v == w.(m := w.m[U[i].val := RemoveBody(b, r)])
             && r < |c| && (k != 1 ==> r > 0)
             && (exc == U[i].val || (exc == 0 && lo < |Entries(b)|))
    ensures |Cat(w.m, U[..i])| + r < |D|
    ensures Good(v, cap, k, lo, RemoveAt(D, |Cat(w.m, U[..i])| + r), U, exc)
  {
    hide Seg;
    hide Cat;
    hide Between;
    hide RemoveBody;
    hide RemoveAt;
    hide Chunk;
    hide SameLinks;
    hide Chain;
    var b := At(w.m, U[i].val);
    RemoveFits(w, k, D, U, i, r);
    CoverAt(w, k, D, U, i);
    RemoveCover(Cat(w.m, U[..i]), Chunk(U[i].key, b), Cat(w.m, U[i + 1..]), r);
    assert Filled(w.m, U[i].val, lo, cap);
    GoodExc(w, cap, k, lo, D, U, exc);
    EditPage(w, v, cap, k, lo, D, U, i, RemoveBody(b, r), exc, exc);
  }

  lemma GoodExc(w: World, cap: int, k: nat, lo: int, D: seq<Entry>, U: seq<Entry>, exc: int)
    requires Good(w, cap, k, lo, D, U, 0)
    ensures Good(w, cap, k, lo, D, U, exc)
  {
    hide Seg;
    hide Cat;
    hide Chain;
    LevelDistinct(w, k, D, U);
    hide Level;
    assert forall i :: 0 <= i < |U| ==> Here(w, k, U[i]);
  }

  lemma RemoveFits(w: World, k: nat, D: seq<Entry>, U: seq<Entry>, i: nat, r: nat)
    requires Level(w, k, D, U) && i < |U|
    requires r < |Chunk(U[i].key, At(w.m, U[i].val))| && (k != 1 ==> r > 0)
    ensures Here(w, k, U[i])
    ensures var b := At(w.m, U[i].val);
            && SameLinks(b, RemoveBody(b, r)) && |Entries(RemoveBody(b, r))| == |Entries(b)| - 1
            && Chunk(U[i].key, RemoveBody(b, r)) == RemoveAt(Chunk(U[i].key, b), r)
            && Between(Chunk(U[i].key, RemoveBody(b, r)), U[i].key, Head(U[i + 1..], TOP))
  {
    hide Cat;
    SegAt(w, k, U, TOP, i);
    RemoveBodyChunk(U[i].key, At(w.m, U[i].val), r);
    RemoveBetween(Chunk(U[i].key, At(w.m, U[i].val)), U[i].key, Head(U[i + 1..], TOP), r);
  }

  /** Changing one separator of a page changes that bound in what the level covers. */
  lemma RekeyGood(w: World, v: World, cap: int, k: nat, lo: int, D: seq<Entry>, U: seq<Entry>,
                  i: nat, r: nat, sep: int)
    requires Good(w, cap, k, lo, D, U, 0) && i < |U| && k > 1
    requires var b := At(w.m, U[i].val); var c := Chunk(U[i].key, b);
             && v == w.(m := w.m[U[i].val := RekeyBody(b, r, sep)])
             && 0 < r < |c|
             && c[r - 1].key < sep < if r + 1 < |c| then c[r + 1].key else Head(U[i + 1..], TOP)
    ensures |Cat(w.m, U[..i])| + r < |D|
    ensures var q := |Cat(w.m, U[..i])| + r; Good(v, cap, k, lo, D[q := Entry(sep, D[q].val)], U, 0)
  {
    hide Seg;
    hide Cat;
    hide Between;
    hide RekeyBody;
    hide Chunk;
    hide SameLinks;
    hide Chain;
    var b := At(w.m, U[i].val);
    var c, a := Chunk(U[i].key, b), |Cat(w.m, U[..i])|;
    RekeyFits(w, k, D, U, i, r, sep);
    CoverIndex(w, k, D, U, i);
    SliceAt(D, a, c, r);
    CoverAt(w, k, D, U, i);
    RekeyCover(Cat(w.m, U[..i]), c, Cat(w.m, U[i + 1..]), r, Entry(sep, c[r].val));
    assert Filled(w.m, U[i].val, lo, cap);
    EditPage(w, v, cap, k, lo, D, U, i, RekeyBody(b, r, sep), 0, 0);
  }

  lemma RekeyFits(w: World, k: nat, D: seq<Entry>, U: seq<Entry>, i: nat, r: nat, sep: int)
    requires Level(w, k, D, U) && i < |U| && k > 1
    requires var c := Chunk(U[i].key, At(w.m, U[i].val));
             && 0 < r < |c|
             && c[r - 1].key < sep < if r + 1 < |c| then c[r + 1].key else Head(U[i + 1..], TOP)
    ensures Here(w, k, U[i])
    ensures var b := At(w.m, U[i].val);
            && SameLinks(b, RekeyBody(b, r, sep)) && |Entries(RekeyBody(b, r, sep))| == |Entries(b)|
            && Chunk(U[i].key, RekeyBody(b, r, sep)) ==
               Chunk(U[i].key, b)[r := Entry(sep, Chunk(U[i].key, b)[r].val)]
            && Between(Chunk(U[i].key, RekeyBody(b, r, sep)), U[i].key, Head(U[i + 1..], TOP))
  {
    hide Cat;
    SegAt(w, k, U, TOP, i);
    RekeyBodyChunk(U[i].key, At(w.m, U[i].val), r, sep);
    RekeyBetween(Chunk(U[i].key, At(w.m, U[i].val)), U[i].key, Head(U[i + 1..], TOP), r, sep);
  }

  // ---------------------------------------------------------------- two neighbours

  /** The separator between two neighbours after one entry moved from the left to the right one, or
      the other way. */
  function ShiftKey(l: Body, r: Body, fromLeft: bool): int {
    var es := Entries(if fromLeft then l else r);
    if fromLeft then (if es == [] then 0 else es[|es| - 1].key)
    else if r.Leaf? then (if |es| < 2 then 0 else es[1].key)
    else if es == [] then 0 else es[0].key
  }

  /** The left neighbour afterwards; `sep` was the separator between the two. */
  function ShiftLeft(l: Body, r: Body, sep: int, fromLeft: bool): Body {
    if fromLeft then
      (if Entries(l) == [] then l else WithEntries(l, Entries(l)[..|Entries(l)| - 1]))
    else if r.Leaf? then
      (if r.entries == [] then l else WithEntries(l, Entries(l) + [r.entries[0]]))
    else if r.Inner? then WithEntries(l, Entries(l) + [Entry(sep, r.leftmost)])
    else l
  }

  /** The right neighbour afterwards. */
  function ShiftRight(l: Body, r: Body, sep: int, fromLeft: bool): Body {
    match r
    case Leaf(p, n, es) =>
      if fromLeft then
        (if Entries(l) == [] then r else Leaf(p, n, [Entries(l)[|Entries(l)| - 1]] + es))
      else if es == [] then r else Leaf(p, n, es[1..])
    case Inner(lm, es) =>
      if fromLeft then
        (if Entries(l) == [] then r
         else Inner(Entries(l)[|Entries(l)| - 1].val, [Entry(sep, lm)] + es))
      else if es == [] then r else Inner(es[0].val, es[1..])
    case _ => r
  }

  ghost predicate Pairable(l: Body, r: Body) {
    (l.Leaf? && r.Leaf?) || (l.Inner? && r.Inner?)
  }

  /** A shift moves one element across the border of the two chunks. */
  lemma ShiftChunks(x: int, y: int, l: Body, r: Body, fromLeft: bool)
    requires Pairable(l, r)
    requires if fromLeft then |Entries(l)| >= 2 else |Entries(r)| >= 2
    ensures var cl, cr, sep := Chunk(x, l), Chunk(y, r), ShiftKey(l, r, fromLeft);
            var l', r' := ShiftLeft(l, r, y, fromLeft), ShiftRight(l, r, y, fromLeft);
            && Pairable(l', r') && SameLinks(l, l') && SameLinks(r, r')
            && (if fromLeft then
                  && |cl| >= 2 && sep == cl[|cl| - 1].key
                  && Chunk(x, l') == cl[..|cl| - 1] && Chunk(sep, r') == [cl[|cl| - 1]] + cr
                  && |Entries(l')| == |Entries(l)| - 1 && |Entries(r')| == |Entries(r)| + 1
                else
                  && |cr| >= 2 && sep == cr[1].key
                  && Chunk(x, l') == cl + [cr[0]] && Chunk(sep, r') == cr[1..]
                  && |Entries(l')| == |Entries(l)| + 1 && |Entries(r')| == |Entries(r)| - 1)
  {
    var cl, cr := Chunk(x, l), Chunk(y, r);
    if l.Inner? {
      if fromLeft {
        assert cl[..|cl| - 1] == [Entry(x, l.leftmost)] + l.entries[..|l.entries| - 1];
      } else {
        assert cr[1..] == r.entries && r.entries == [r.entries[0]] + r.entries[1..];
      }
    }
  }

  lemma ShiftBetween(cl: seq<Entry>, cr: seq<Entry>, x: int, y: int, hi: int, fromLeft: bool)
    requires Between(cl, x, y) && Between(cr, y, hi) && x < y < hi
    requires if fromLeft then |cl| >= 2 else |cr| >= 2
    ensures if fromLeft then
              var n := |cl| - 1;
              && x < cl[n].key < hi && Between(cl[..n], x, cl[n].key) && Between([cl[n]] + cr, cl[n].key, hi)
              && cl[..n] + ([cl[n]] + cr) == cl + cr
            else
              && x < cr[1].key < hi && Between(cl + [cr[0]], x, cr[1].key) && Between(cr[1..], cr[1].key, hi)
              && cl + [cr[0]] + cr[1..] == cl + cr
  {
    if fromLeft {
      BetweenPrefix(cl, x, y, |cl| - 1);
      assert cl[0].key < cl[|cl| - 1].key;
    } else {
      BetweenSuffix(cr, y, hi, 1);
      assert cr[0].key < cr[1].key;
    }
  }

  /** The world after a shift between the pages of items x and y of height k. */
  function ShiftWorld(w: World, k: nat, x: Entry, y: Entry, fromLeft: bool): World {
    var l, r := At(w.m, x.val), At(w.m, y.val);
    World(w.m[x.val := ShiftLeft(l, r, y.key, fromLeft)][y.val := ShiftRight(l, r, y.key, fromLeft)],
          w.tag[y.val := Tag(k, ShiftKey(l, r, fromLeft))], w.nid)
  }

  /** Two neighbours re-divide their entries: the level covers the same, and the one that was short
      is no longer. */
  lemma ShiftGood(w: World, cap: int, k: nat, lo: int, D: seq<Entry>, U: seq<Entry>, j: nat, fromLeft: bool)
    requires j + 1 < |U| && lo >= 2
    requires Good(w, cap, k, lo, D, U, if fromLeft then U[j + 1].val else U[j].val)
    requires var l, r := At(w.m, U[j].val), At(w.m, U[j + 1].val);
             if fromLeft then |Entries(l)| > lo && |Entries(r)| == lo - 1
             else |Entries(r)| > lo && |Entries(l)| == lo - 1
    ensures var sep := ShiftKey(At(w.m, U[j].val), At(w.m, U[j + 1].val), fromLeft);
            && U[j].key < sep < Head(U[j + 2..], TOP)
            && Good(ShiftWorld(w, k, U[j], U[j + 1], fromLeft), cap, k, lo, D,
                    U[j + 1 := Entry(sep, U[j + 1].val)], 0)
  {
    hide Seg;
    hide Cat;
    hide Chain;
    hide Occupied;
    hide ShiftLeft;
    hide ShiftRight;
    hide ShiftKey;
    hide Between;
    var x, y := U[j], U[j + 1];
    var l, r, v := At(w.m, x.val), At(w.m, y.val), ShiftWorld(w, k, x, y, fromLeft);
    var sep := ShiftKey(l, r, fromLeft);
    PairCover(w, k, D, U, j);
    ShiftChunks(x.key, y.key, l, r, fromLeft);
    ShiftBetween(Chunk(x.key, l), Chunk(y.key, r), x.key, y.key, Head(U[j + 2..], TOP), fromLeft);
    hide Chunk;
    ShiftKeeps(w, k, D, U, j, fromLeft);
    ShiftLevel(w, v, k, D, U, j, sep);
    var V := U[j + 1 := Entry(sep, y.val)];
    assert V == U[..j] + [x, Entry(sep, y.val)] + U[j + 2..];
    hide Level;
    ShiftFilled(w, cap, k, lo, D, U, j, fromLeft, sep);
    if k == 1 { ShiftChain(w, v, U, V, j, sep); }
  }

  lemma ShiftKeeps(w: World, k: nat, D: seq<Entry>, U: seq<Entry>, j: nat, fromLeft: bool)
    requires Level(w, k, D, U) && j + 1 < |U|
    ensures forall t :: 0 <= t < |U| && t != j && t != j + 1 ==>
      && Kept(w, ShiftWorld(w, k, U[j], U[j + 1], fromLeft), U[t].val)
      && At(ShiftWorld(w, k, U[j], U[j + 1], fromLeft).m, U[t].val) == At(w.m, U[t].val)
  {
    hide Seg;
    hide Cat;
    hide ShiftLeft;
    hide ShiftRight;
    hide ShiftKey;
    LevelDistinct(w, k, D, U);
    hide Level;
    assert forall t :: 0 <= t < |U| ==> Here(w, k, U[t]);
  }

  lemma ShiftFilled(w: World, cap: int, k: nat, lo: int, D: seq<Entry>, U: seq<Entry>, j: nat,
                    fromLeft: bool, sep: int)
    requires j + 1 < |U| && lo >= 2
    requires Good(w, cap, k, lo, D, U, if fromLeft then U[j + 1].val else U[j].val)
    requires var l, r := At(w.m, U[j].val), At(w.m, U[j + 1].val);
             if fromLeft then |Entries(l)| > lo && |Entries(r)| == lo - 1
             else |Entries(r)| > lo && |Entries(l)| == lo - 1
    ensures Occupied(ShiftWorld(w, k, U[j], U[j + 1], fromLeft).m, U[j + 1 := Entry(sep, U[j + 1].val)], lo, cap, 0)
  {
    hide Seg;
    hide Cat;
    hide Chain;
    hide Chunk;
    hide ShiftLeft;
    hide ShiftRight;
    hide ShiftKey;
    hide Kept;
    var x, y := U[j], U[j + 1];
    var l, r, v := At(w.m, x.val), At(w.m, y.val), ShiftWorld(w, k, x, y, fromLeft);
    PairCover(w, k, D, U, j);
    ShiftChunks(x.key, y.key, l, r, fromLeft);
    ShiftKeeps(w, k, D, U, j, fromLeft);
    IdsDistinct(w, k, D, U, if fromLeft then j + 1 else j);
    hide Level;
    forall t | 0 <= t < |U| && t != j && t != j + 1 ensures Filled(v.m, U[t].val, lo, cap) {
      assert Filled(w.m, U[t].val, lo, cap);
    }
    assert Filled(w.m, if fromLeft then x.val else y.val, lo, cap);
    OccupiedRun(v.m, U, j, j + 2, [x, Entry(sep, y.val)], lo, cap);
    assert U[j + 1 := Entry(sep, y.val)] == U[..j] + [x, Entry(sep, y.val)] + U[j + 2..];
  }

  lemma ShiftChain(w: World, v: World, U: seq<Entry>, V: seq<Entry>, j: nat, sep: int)
    requires Chain(w.m, U) && j + 1 < |U| && V == U[j + 1 := Entry(sep, U[j + 1].val)]
    requires forall t :: 0 <= t < |U| && t != j && t != j + 1 ==> At(v.m, U[t].val) == At(w.m, U[t].val)
    requires SameLinks(At(w.m, U[j].val), At(v.m, U[j].val))
    requires SameLinks(At(w.m, U[j + 1].val), At(v.m, U[j + 1].val))
    ensures Chain(v.m, V)
  {
    forall t | 0 <= t < |V|
      ensures && At(v.m, V[t].val).Leaf?
              && At(v.m, V[t].val).next == IdAt(V, t + 1) && At(v.m, V[t].val).prev == IdAt(V, t - 1)
    {
      assert V[t].val == U[t].val && At(w.m, U[t].val).Leaf?;
      assert IdAt(V, t + 1) == IdAt(U, t + 1) && IdAt(V, t - 1) == IdAt(U, t - 1);
    }
  }

  // ---------------------------------------------------------------- merges

  function Merged(l: Body, r: Body, sep: int): Body {
    if l.Leaf? then MergedLeaf(l, r) else MergedInner(l, r, sep)
  }

  lemma MergedChunk(x: int, y: int, l: Body, r: Body)
    requires Pairable(l, r)
    ensures Chunk(x, Merged(l, r, y)) == Chunk(x, l) + Chunk(y, r)
    ensures l.Leaf? ==> Merged(l, r, y).Leaf? && |Entries(Merged(l, r, y))| == |Entries(l)| + |Entries(r)|
    ensures l.Inner? ==> Merged(l, r, y).Inner? && |Entries(Merged(l, r, y))| == |Entries(l)| + 1 + |Entries(r)|
  {
    if l.Inner? {
      assert [Entry(x, l.leftmost)] + (l.entries + [Entry(y, r.leftmost)] + r.entries) ==
             [Entry(x, l.leftmost)] + l.entries + ([Entry(y, r.leftmost)] + r.entries);
    }
  }

  /** The pages after the page of y was merged into that of x. */
  function MergeMap(m: map<int, Body>, x: Entry, y: Entry): map<int, Body> {
    var l, r := At(m, x.val), At(m, y.val);
    var n := m[x.val := Merged(l, r, y.key)];
    if r.Leaf? then Relink(n, r.next, x.val) else n
  }

  /** The world after that merge; y is no longer a live page. */
  function MergeWorld(w: World, x: Entry, y: Entry): World {
    World(MergeMap(w.m, x, y), w.tag - {y.val}, w.nid)
  }

  lemma MergeMapAt(m: map<int, Body>, x: Entry, y: Entry, t: int)
    requires x.val in m && y.val in m && t in m && t != x.val && x.val != y.val
    requires m[y.val].Leaf? ==> m[y.val].next != x.val
    ensures var n := MergeMap(m, x, y);
            && x.val in n && t in n && n[x.val] == Merged(m[x.val], m[y.val], y.key)
            && (m[y.val].Leaf? && m[y.val].next == t && t != 0 && m[t].Leaf? ==> n[t] == m[t].(prev := x.val))
            && (!m[y.val].Leaf? || m[y.val].next != t ==> n[t] == m[t])
  {
    hide Merged;
  }

  lemma MergeKeeps(w: World, k: nat, D: seq<Entry>, U: seq<Entry>, j: nat)
    requires Level(w, k, D, U) && j + 1 < |U| && (k == 1 ==> Chain(w.m, U))
    ensures var v := MergeWorld(w, U[j], U[j + 1]);
            && U[j].val in v.m && v.m[U[j].val] == Merged(At(w.m, U[j].val), At(w.m, U[j + 1].val), U[j + 1].key)
            && (forall t :: 0 <= t < |U| && t != j && t != j + 1 ==> Kept(w, v, U[t].val))
            && (forall t :: 0 <= t < |U| && t != j && t != j + 1 && (k == 1 ==> t != j + 2) ==>
                  At(v.m, U[t].val) == At(w.m, U[t].val))
            && (k == 1 && j + 2 < |U| ==>
                  && At(w.m, U[j + 2].val).Leaf?
                  && At(v.m, U[j + 2].val) == At(w.m, U[j + 2].val).(prev := U[j].val))
  {
    hide Seg;
    hide Cat;
    hide Merged;
    hide MergeMap;
    var v := MergeWorld(w, U[j], U[j + 1]);
    LevelDistinct(w, k, D, U);
    hide Level;
    assert Here(w, k, U[j]) && Here(w, k, U[j + 1]) && U[j].val != U[j + 1].val;
    forall t | 0 <= t < |U| && t != j && t != j + 1
      ensures Kept(w, v, U[t].val)
      ensures (k == 1 ==> t != j + 2) ==> At(v.m, U[t].val) == At(w.m, U[t].val)
      ensures k == 1 && t == j + 2 ==>
        At(w.m, U[t].val).Leaf? && At(v.m, U[t].val) == At(w.m, U[t].val).(prev := U[j].val)
    {
      assert Here(w, k, U[t]);
      if k == 1 && j + 2 < |U| { assert Here(w, k, U[j + 2]); }
      MergeMapAt(w.m, U[j], U[j + 1], U[t].val);
    }
    MergeMapAt(w.m, U[j], U[j + 1], U[j + 1].val);
  }

  /** Merging two neighbours keeps what the level covers; the joint page fits and is well filled. */
  lemma MergeGood(w: World, cap: int, k: nat, lo: int, D: seq<Entry>, U: seq<Entry>, j: nat, exc: int)
    requires j + 1 < |U| && OddCapacity(cap) && lo == cap / 2
    requires Good(w, cap, k, lo, D, U, exc) && (exc == U[j].val || exc == U[j + 1].val)
    requires var l, r := At(w.m, U[j].val), At(w.m, U[j + 1].val);
             |Entries(l)| + |Entries(r)| == 2 * lo - 1
    ensures Good(MergeWorld(w, U[j], U[j + 1]), cap, k, lo, D, U[..j] + [U[j]] + U[j + 2..], 0)
  {
    hide Seg;
    hide Cat;
    hide Chain;
    hide Occupied;
    hide Merged;
    hide MergeMap;
    hide Between;
    hide Kept;
    var x, y := U[j], U[j + 1];
    var l, r, v := At(w.m, x.val), At(w.m, y.val), MergeWorld(w, x, y);
    PairCover(w, k, D, U, j);
    MergedChunk(x.key, y.key, l, r);
    MergeKeeps(w, k, D, U, j);
    MergeLevel(w, v, k, D, U, j);
    MergeFilled(w, cap, k, lo, D, U, j, exc);
    if k == 1 { MergeChained(w, D, U, j); }
  }

  lemma MergeChained(w: World, D: seq<Entry>, U: seq<Entry>, j: nat)
    requires Level(w, 1, D, U) && Chain(w.m, U) && j + 1 < |U|
    ensures Chain(MergeWorld(w, U[j], U[j + 1]).m, U[..j] + [U[j]] + U[j + 2..])
  {
    hide Seg;
    hide Cat;
    hide MergeMap;
    MergeKeeps(w, 1, D, U, j);
    hide Level;
    var v := MergeWorld(w, U[j], U[j + 1]);
    ChainMerge(w.m, v.m, U, j);
  }

  lemma MergeFilled(w: World, cap: int, k: nat, lo: int, D: seq<Entry>, U: seq<Entry>, j: nat, exc: int)
    requires j + 1 < |U| && OddCapacity(cap) && lo == cap / 2
    requires Good(w, cap, k, lo, D, U, exc) && (exc == U[j].val || exc == U[j + 1].val)
    requires var l, r := At(w.m, U[j].val), At(w.m, U[j + 1].val);
             |Entries(l)| + |Entries(r)| == 2 * lo - 1
    ensures Occupied(MergeWorld(w, U[j], U[j + 1]).m, U[..j] + [U[j]] + U[j + 2..], lo, cap, 0)
  {
    hide Seg;
    hide Cat;
    hide Chain;
    hide Chunk;
    hide Merged;
    hide MergeMap;
    var x, y := U[j], U[j + 1];
    var v := MergeWorld(w, x, y);
    PairCover(w, k, D, U, j);
    MergedChunk(x.key, y.key, At(w.m, x.val), At(w.m, y.val));
    MergeKeeps(w, k, D, U, j);
    IdsDistinct(w, k, D, U, if exc == x.val then j else j + 1);
    hide Level;
    forall t | 0 <= t < |U| && t != j && t != j + 1 ensures Filled(v.m, U[t].val, lo, cap) {
      assert Filled(w.m, U[t].val, lo, cap) && Kept(w, v, U[t].val);
    }
    OccupiedRun(v.m, U, j, j + 2, [x], lo, cap);
  }
}
