/** The B+ tree as a stack of levels.

    Level 0 is the sorted sequence of stored rows.  Level k >= 1 is a sequence of items, one for
    each page of that height: `key` is the lower bound of the page, `val` its PageID.  The chunk of
    a page is the stretch of the level below that it covers: a leaf covers its entries, an internal
    page with lower bound `low` covers (low, leftmost child) followed by its entries.  The whole
    tree shape is then one equation per level: the chunks of level k, concatenated, are level
    k - 1. */
module Levels {
  import opened Pages

  const LOW: int := -1 // below every key rank
  const TOP: int := 0x1_0000_0000_0000_0000_0000_0000_0000_0000 // above every key rank

  ghost predicate Sorted(s: seq<Entry>) {
    forall i, j :: 0 <= i < j < |s| ==> s[i].key < s[j].key
  }

  /** Sorted, with every key in [lo, hi). */
  ghost predicate Between(s: seq<Entry>, lo: int, hi: int) {
    Sorted(s) && forall i :: 0 <= i < |s| ==> lo <= s[i].key < hi
  }

  // ---------------------------------------------------------------- ranks

  /** How many leading entries have a key that is at most `key`. */
  function Rank(s: seq<Entry>, key: int): (r: nat)
    ensures r <= |s|
  {
    if s == [] || s[0].key > key then 0 else 1 + Rank(s[1..], key)
  }

  lemma {:induction false} RankBounds(s: seq<Entry>, key: int)
    ensures var r := Rank(s, key);
            && (forall i :: 0 <= i < r ==> s[i].key <= key)
            && (r < |s| ==> key < s[r].key)
  {
    if s != [] && s[0].key <= key {
      var T := s[1..];
      RankBounds(T, key);
      var r := Rank(s, key);
      forall i | 0 <= i < r ensures s[i].key <= key {
        if i > 0 { assert T[i - 1] == s[i]; }
      }
      if r < |s| { assert T[r - 1] == s[r]; }
    }
  }

  lemma RankUnique(s: seq<Entry>, key: int, r: nat)
    requires Sorted(s) && r <= |s|
    requires r > 0 ==> s[r - 1].key <= key
    requires r < |s| ==> key < s[r].key
    ensures Rank(s, key) == r
  {
    RankBounds(s, key);
  }

  // ---------------------------------------------------------------- chunks

  function At(m: map<int, Body>, id: int): Body {
    if id in m then m[id] else Garbled
  }

  function Chunk(low: int, b: Body): seq<Entry> {
    match b
    case Leaf(_, _, es) => es
    case Inner(leftmost, es) => [Entry(low, leftmost)] + es
    case _ => []
  }

  /** The chunks of a run of items, concatenated: the part of the level below that they cover. */
  ghost function Cat(m: map<int, Body>, U: seq<Entry>): seq<Entry> {
    if U == [] then [] else Chunk(U[0].key, At(m, U[0].val)) + Cat(m, U[1..])
  }

  lemma {:induction false} CatConcat(m: map<int, Body>, a: seq<Entry>, b: seq<Entry>)
    ensures Cat(m, a + b) == Cat(m, a) + Cat(m, b)
  {
    if a == [] {
      assert a + b == b;
    } else {
      assert (a + b)[0] == a[0] && (a + b)[1..] == a[1..] + b;
      CatConcat(m, a[1..], b);
    }
  }

  lemma CatOne(m: map<int, Body>, it: Entry)
    ensures Cat(m, [it]) == Chunk(it.key, At(m, it.val))
  {
    assert [it][1..] == [];
    assert Cat(m, []) == [];
  }

  // ---------------------------------------------------------------- segments

  /** The ghost address of a live page: its height and its lower bound. */
  datatype Tag = Tag(level: nat, low: int)

  /** What the pages hold, where each live page sits, and the next PageID to be allocated. */
  datatype World = World(m: map<int, Body>, tag: map<int, Tag>, nid: int)

  /** Pages of height 1 are leaves, higher ones are internal. */
  ghost predicate KindOf(k: nat, b: Body) {
    if k == 1 then b.Leaf? else b.Inner?
  }

  /** The page of item `it` is live and is a page of height k. */
  ghost predicate Here(w: World, k: nat, it: Entry) {
    && 0 < it.val < w.nid
    && it.val in w.m
    && it.val in w.tag
    && w.tag[it.val] == Tag(k, it.key)
    && KindOf(k, w.m[it.val])
  }

  /** That page covers keys of [it.key, hi) only, in strictly ascending order. */
  ghost predicate PageAt(w: World, k: nat, it: Entry, hi: int) {
    && Here(w, k, it)
    && it.key < hi
    && Between(Chunk(it.key, w.m[it.val]), it.key, hi)
  }

  function Head(U: seq<Entry>, hi: int): int {
    if U == [] then hi else U[0].key
  }

  /** A run of neighbouring items of level k whose keys end below hi. */
  ghost predicate Seg(w: World, k: nat, U: seq<Entry>, hi: int) {
    U == [] || (PageAt(w, k, U[0], Head(U[1..], hi)) && Seg(w, k, U[1..], hi))
  }

  lemma {:induction false} SegConcat(w: World, k: nat, a: seq<Entry>, b: seq<Entry>, hi: int)
    ensures Seg(w, k, a + b, hi) <==> Seg(w, k, a, Head(b, hi)) && Seg(w, k, b, hi)
  {
    if a == [] {
      assert a + b == b;
    } else {
      assert (a + b)[0] == a[0] && (a + b)[1..] == a[1..] + b;
      SegConcat(w, k, a[1..], b, hi);
      assert Head((a + b)[1..], hi) == Head(a[1..], Head(b, hi));
    }
  }

  /** Cuts a run around the item at index i. */
  lemma SegCut(w: World, k: nat, U: seq<Entry>, hi: int, i: nat, j: nat)
    requires Seg(w, k, U, hi) && i <= j <= |U|
    ensures U == U[..i] + U[i..j] + U[j..]
    ensures Seg(w, k, U[..i], Head(U[i..j], Head(U[j..], hi)))
    ensures Seg(w, k, U[i..j], Head(U[j..], hi))
    ensures Seg(w, k, U[j..], hi)
    ensures Cat(w.m, U) == Cat(w.m, U[..i]) + Cat(w.m, U[i..j]) + Cat(w.m, U[j..])
  {
    assert U == U[..i] + U[i..j] + U[j..];
    SegJoin(w, k, U[..i], U[i..j], U[j..], hi);
  }

  lemma SegJoin(w: World, k: nat, a: seq<Entry>, x: seq<Entry>, b: seq<Entry>, hi: int)
    ensures Seg(w, k, a + x + b, hi) <==>
            Seg(w, k, a, Head(x, Head(b, hi))) && Seg(w, k, x, Head(b, hi)) && Seg(w, k, b, hi)
    ensures Cat(w.m, a + x + b) == Cat(w.m, a) + Cat(w.m, x) + Cat(w.m, b)
  {
    SegConcat(w, k, a + x, b, hi);
    SegConcat(w, k, a, x, Head(b, hi));
    CatConcat(w.m, a + x, b);
    CatConcat(w.m, a, x);
  }

  lemma {:induction false} SegAt(w: World, k: nat, U: seq<Entry>, hi: int, i: nat)
    requires Seg(w, k, U, hi) && i < |U|
    ensures PageAt(w, k, U[i], Head(U[i + 1..], hi))
  {
    if i > 0 {
      SegAt(w, k, U[1..], hi, i - 1);
      assert U[1..][i - 1] == U[i] && U[1..][i..] == U[i + 1..];
    } else {
      assert U[1..] == U[i + 1..];
    }
  }

  lemma {:induction false} SegSorted(w: World, k: nat, U: seq<Entry>, hi: int)
    requires Seg(w, k, U, hi)
    ensures Sorted(U)
    ensures forall i :: 0 <= i < |U| ==> U[i].key < hi
  {
    if U != [] {
      SegSorted(w, k, U[1..], hi);
      var T := U[1..];
      forall i, j | 0 <= i < j < |U| ensures U[i].key < U[j].key {
        if i == 0 {
          assert U[j] == T[j - 1] && (j > 1 ==> T[0].key < T[j - 1].key);
        } else {
          assert U[i] == T[i - 1] && U[j] == T[j - 1];
        }
      }
      forall i | 0 <= i < |U| ensures U[i].key < hi {
        if i > 0 { assert U[i] == T[i - 1]; } else if |U| > 1 { assert U[1] == T[0]; }
      }
    }
  }

  /** What a run covers is sorted and lies between its lower bound and hi. */
  lemma {:induction false} CatBetween(w: World, k: nat, U: seq<Entry>, hi: int)
    requires Seg(w, k, U, hi)
    ensures Between(Cat(w.m, U), Head(U, hi), hi)
  {
    if U != [] {
      CatBetween(w, k, U[1..], hi);
      SegSorted(w, k, U, hi);
      var c, r := Chunk(U[0].key, At(w.m, U[0].val)), Cat(w.m, U[1..]);
      BetweenConcat(c, r, U[0].key, Head(U[1..], hi), hi);
    }
  }

  lemma BetweenConcat(c: seq<Entry>, r: seq<Entry>, lo: int, mid: int, hi: int)
    requires Between(c, lo, mid) && Between(r, mid, hi) && lo <= mid <= hi
    ensures Between(c + r, lo, hi)
  {
  }

  lemma BetweenPrefix(c: seq<Entry>, lo: int, hi: int, q: nat)
    requires Between(c, lo, hi) && q < |c|
    ensures Between(c[..q], lo, c[q].key)
  {
  }

  lemma BetweenSuffix(c: seq<Entry>, lo: int, hi: int, q: nat)
    requires Between(c, lo, hi) && q < |c|
    ensures Between(c[q..], c[q].key, hi)
  {
  }

  /** Two items of one run never share a page. */
  lemma SegDistinct(w: World, k: nat, U: seq<Entry>, hi: int, i: nat, j: nat)
    requires Seg(w, k, U, hi) && i < j < |U|
    ensures U[i].val != U[j].val
  {
    SegAt(w, k, U, hi, i);
    SegAt(w, k, U, hi, j);
    SegSorted(w, k, U, hi);
  }

  ghost predicate SameCover(b: Body, c: Body) {
    || (b.Leaf? && c.Leaf? && b.entries == c.entries)
    || (b.Inner? && b == c)
  }

  /** Page `id` covers the same stretch, at the same place, in both worlds. */
  ghost predicate Kept(w: World, v: World, id: int) {
    && id in w.m && id in v.m && SameCover(w.m[id], v.m[id])
    && id in w.tag && id in v.tag && w.tag[id] == v.tag[id]
  }

  lemma {:induction false} SegKept(w: World, v: World, k: nat, U: seq<Entry>, hi: int)
    requires Seg(w, k, U, hi) && w.nid <= v.nid
    requires forall i :: 0 <= i < |U| ==> Kept(w, v, U[i].val)
    ensures Seg(v, k, U, hi) && Cat(v.m, U) == Cat(w.m, U)
  {
    if U != [] {
      assert Kept(w, v, U[0].val);
      forall i | 0 <= i < |U[1..]| ensures Kept(w, v, U[1..][i].val) {
        assert U[1..][i] == U[i + 1];
      }
      SegKept(w, v, k, U[1..], hi);
    }
  }

  // ---------------------------------------------------------------- ranks across levels

  lemma {:induction false} RankConcat(x: seq<Entry>, y: seq<Entry>, key: int)
    ensures Rank(x, key) < |x| ==> Rank(x + y, key) == Rank(x, key)
    ensures Rank(x, key) == |x| ==> Rank(x + y, key) == |x| + Rank(y, key)
  {
    if x == [] {
      assert x + y == y;
    } else {
      assert (x + y)[1..] == x[1..] + y && (x + y)[0] == x[0];
      RankConcat(x[1..], y, key);
    }
  }

  /** A key below the second item falls into the first chunk. */
  lemma RankStays(w: World, k: nat, U: seq<Entry>, hi: int, key: int)
    requires Seg(w, k, U, hi) && U != [] && U[0].key <= key && (|U| > 1 ==> key < U[1].key)
    ensures Rank(U, key) == 1
    ensures Rank(Cat(w.m, U), key) == Rank(Chunk(U[0].key, At(w.m, U[0].val)), key)
  {
    CatBetween(w, k, U[1..], hi);
    RankConcat(Chunk(U[0].key, At(w.m, U[0].val)), Cat(w.m, U[1..]), key);
  }

  lemma ChunkBelow(w: World, k: nat, U: seq<Entry>, hi: int, key: int)
    requires Seg(w, k, U, hi) && |U| > 1 && U[1].key <= key
    ensures U[0].key <= key
    ensures var c := Chunk(U[0].key, At(w.m, U[0].val)); Rank(c, key) == |c|
  {
    hide Cat;
    var c := Chunk(U[0].key, At(w.m, U[0].val));
    SegAt(w, k, U, hi, 0);
    assert Between(c, U[0].key, U[1].key);
    hide Seg;
    RankUnique(c, key, |c|);
  }

  /** A key at or above the second item lies past the whole first chunk. */
  lemma RankSkips(w: World, k: nat, U: seq<Entry>, hi: int, key: int)
    requires Seg(w, k, U, hi) && |U| > 1 && U[1].key <= key
    ensures Rank(U, key) == 1 + Rank(U[1..], key)
    ensures Rank(Cat(w.m, U), key) ==
            |Chunk(U[0].key, At(w.m, U[0].val))| + Rank(Cat(w.m, U[1..]), key)
  {
    hide Seg;
    hide At;
    hide Chunk;
    ChunkBelow(w, k, U, hi, key);
    RankConcat(Chunk(U[0].key, At(w.m, U[0].val)), Cat(w.m, U[1..]), key);
  }

  /** Where a key falls in the level below is where it falls in the chunk of the page that its
      rank selects: the fact behind every descent step. */
  lemma {:induction false} RankDescends(w: World, k: nat, U: seq<Entry>, hi: int, key: int)
    requires Seg(w, k, U, hi) && U != [] && U[0].key <= key
    ensures var i := Rank(U, key) - 1;
            && 0 <= i < |U|
            && Rank(Cat(w.m, U), key) ==
               |Cat(w.m, U[..i])| + Rank(Chunk(U[i].key, At(w.m, U[i].val)), key)
  {
    if |U| == 1 || key < U[1].key {
      RankStays(w, k, U, hi, key);
      assert U[..0] == [];
    } else {
      RankSkips(w, k, U, hi, key);
      var T := U[1..];
      RankDescends(w, k, T, hi, key);
      CatPrefix(w.m, U, Rank(T, key));
    }
  }

  lemma CatPrefix(m: map<int, Body>, U: seq<Entry>, i: nat)
    requires 0 < i < |U|
    ensures U[1..][i - 1] == U[i]
    ensures Cat(m, U[..i]) == Chunk(U[0].key, At(m, U[0].val)) + Cat(m, U[1..][..i - 1])
  {
    assert U[..i][1..] == U[1..][..i - 1];
  }
}
