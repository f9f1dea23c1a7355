/** What the page-level operations of the tree do to one page or to two neighbours, and what that
    means for the level they sit on. */
module NodeOps {
  import opened Pages
  import opened Levels
  import opened Stack

  /** Entry counts the tree works with: 203 for 16-byte and 145 for 24-byte entries. */
  ghost predicate OddCapacity(cap: int) {
    cap >= 5 && cap % 2 == 1
  }

  // ---------------------------------------------------------------- insertion into one page

  /** Puts e at position r of the chunk of b. */
  function InsertBody(b: Body, r: int, e: Entry): Body {
    var at := if b.Leaf? then r else r - 1;
    if 0 <= at <= |Entries(b)| then WithEntries(b, InsertAt(Entries(b), at, e)) else Garbled
  }

  lemma InsertBodyChunk(low: int, b: Body, r: int, e: Entry)
    requires b.Leaf? || b.Inner?
    requires 0 <= r <= |Chunk(low, b)| && (b.Inner? ==> r > 0)
    ensures Chunk(low, InsertBody(b, r, e)) == InsertAt(Chunk(low, b), r, e)
    ensures SameLinks(b, InsertBody(b, r, e)) && |Entries(InsertBody(b, r, e))| == |Entries(b)| + 1
  {
  }

  lemma InsertBetween(c: seq<Entry>, lo: int, hi: int, r: nat, e: Entry)
    requires Between(c, lo, hi) && r <= |c| && lo <= e.key < hi
    requires r > 0 ==> c[r - 1].key < e.key
    requires r < |c| ==> e.key < c[r].key
    ensures Between(InsertAt(c, r, e), lo, hi)
  {
    var d := InsertAt(c, r, e);
    forall i | 0 <= i < |d| ensures lo <= d[i].key < hi && (i < r ==> d[i] == c[i]) && (i > r ==> d[i] == c[i - 1]) {
    }
    forall i, j | 0 <= i < j < |d| ensures d[i].key < d[j].key {
    }
  }

  lemma InsertCover(a: seq<Entry>, c: seq<Entry>, b: seq<Entry>, r: nat, e: Entry)
    requires r <= |c|
    ensures a + InsertAt(c, r, e) + b == InsertAt(a + c + b, |a| + r, e)
  {
    assert (a + c + b)[..|a| + r] == a + c[..r];
    assert (a + c + b)[|a| + r..] == c[r..] + b;
  }

  lemma CoverAt(w: World, k: nat, D: seq<Entry>, U: seq<Entry>, i: nat)
    requires Level(w, k, D, U) && i < |U|
    ensures D == Cat(w.m, U[..i]) + Chunk(U[i].key, At(w.m, U[i].val)) + Cat(w.m, U[i + 1..])
  {
    SegCut(w, k, U, TOP, i, i + 1);
    assert U[i..i + 1] == [U[i]];
    SegAt(w, k, U, TOP, i);
    SegOne(w, k, U[i], Head(U[i + 1..], TOP));
  }

  /** Inserting one entry into a page that has room inserts it into what the level covers. */
  lemma InsertGood(w: World, v: World, cap: int, k: nat, lo: int, D: seq<Entry>, U: seq<Entry>,
                   i: nat, r: nat, e: Entry)
    requires Good(w, cap, k, lo, D, U, 0) && i < |U|
    requires var b := At(w.m, U[i].val); var c := Chunk(U[i].key, b);
             && v == w.(m := w.m[U[i].val := InsertBody(b, r, e)])
             && |Entries(b)| < cap
             && r <= |c| && (k != 1 ==> r > 0)
             && U[i].key <= e.key < Head(U[i + 1..], TOP)
             && (r > 0 ==> c[r - 1].key < e.key)
             && (r < |c| ==> e.key < c[r].key)
    ensures |Cat(w.m, U[..i])| + r <= |D|
    ensures Good(v, cap, k, lo, InsertAt(D, |Cat(w.m, U[..i])| + r, e), U, 0)
  {
    hide Seg;
    hide Cat;
    hide Between;
    hide InsertBody;
    hide InsertAt;
    hide Chunk;
    hide SameLinks;
    hide Chain;
    var b := At(w.m, U[i].val);
    var c := Chunk(U[i].key, b);
    CoverAt(w, k, D, U, i);
    InsertCover(Cat(w.m, U[..i]), c, Cat(w.m, U[i + 1..]), r, e);
    InsertFits(w, k, D, U, i, r, e);
    assert Filled(w.m, U[i].val, lo, cap);
    EditPage(w, v, cap, k, lo, D, U, i, InsertBody(b, r, e), 0, 0);
  }

  lemma InsertFits(w: World, k: nat, D: seq<Entry>, U: seq<Entry>, i: nat, r: nat, e: Entry)
    requires Level(w, k, D, U) && i < |U|
    requires var c := Chunk(U[i].key, At(w.m, U[i].val));
             && r <= |c| && (k != 1 ==> r > 0)
             && U[i].key <= e.key < Head(U[i + 1..], TOP)
             && (r > 0 ==> c[r - 1].key < e.key)
             && (r < |c| ==> e.key < c[r].key)
    ensures Here(w, k, U[i])
    ensures var b := At(w.m, U[i].val);
            && SameLinks(b, InsertBody(b, r, e))
            && |Entries(InsertBody(b, r, e))| == |Entries(b)| + 1
            && Chunk(U[i].key, InsertBody(b, r, e)) == InsertAt(Chunk(U[i].key, b), r, e)
            && Between(Chunk(U[i].key, InsertBody(b, r, e)), U[i].key, Head(U[i + 1..], TOP))
  {
    SegAt(w, k, U, TOP, i);
    InsertBodyChunk(U[i].key, At(w.m, U[i].val), r, e);
    InsertBetween(Chunk(U[i].key, At(w.m, U[i].val)), U[i].key, Head(U[i + 1..], TOP), r, e);
  }


  // ---------------------------------------------------------------- splits

  function SplitLeft(b: Body, nu: int): Body {
    match b
    case Leaf(prev, next, es) => Leaf(prev, nu, es[..|es| / 2])
    case Inner(leftmost, es) => Inner(leftmost, es[..|es| / 2])
    case _ => Garbled
  }

  function SplitRight(b: Body, id: int): Body {
    match b
    case Leaf(prev, next, es) => Leaf(id, next, es[|es| / 2..])
    case Inner(leftmost, es) => if es == [] then Garbled else Inner(es[|es| / 2].val, es[|es| / 2 + 1..])
    case _ => Garbled
  }

  function SplitKey(b: Body): int {
    if Entries(b) == [] then 0 else Entries(b)[|Entries(b)| / 2].key
  }

  /** Sets the back link of leaf `id`; does nothing for the null link 0. */
  function Relink(m: map<int, Body>, id: int, prev: int): map<int, Body> {
    if id != 0 && At(m, id).Leaf? then m[id := m[id].(prev := prev)] else m
  }

  function SplitMap(m: map<int, Body>, id: int, nu: int): map<int, Body> {
    var b := At(m, id);
    var n := m[id := SplitLeft(b, nu)][nu := SplitRight(b, id)];
    if b.Leaf? then Relink(n, b.next, nu) else n
  }

  lemma SplitChunks(low: int, b: Body, nu: int, id: int)
    requires (b.Leaf? || b.Inner?) && |Entries(b)| >= 2
    ensures var c := Chunk(low, b); var q := |Entries(b)| / 2 + if b.Leaf? then 0 else 1;
            && 0 < q < |c| && c[q].key == SplitKey(b)
            && Chunk(low, SplitLeft(b, nu)) == c[..q]
            && Chunk(c[q].key, SplitRight(b, id)) == c[q..]
  {
    var c := Chunk(low, b);
    var h := |Entries(b)| / 2;
    if b.Inner? {
      assert c[h + 1..] == [b.entries[h]] + b.entries[h + 1..];
      assert c[..h + 1] == [c[0]] + b.entries[..h];
    }
  }

  /** What a split leaves alone. */
  lemma SplitMapAt(m: map<int, Body>, id: int, nu: int, t: int)
    requires id in m && t in m && t != id && t != nu && id != nu && nu != 0
    requires m[id].Leaf? ==> m[id].next != id && m[id].next != nu
    ensures var n := SplitMap(m, id, nu);
            && id in n && nu in n && t in n
            && n[id] == SplitLeft(m[id], nu) && n[nu] == SplitRight(m[id], id)
            && (m[id].Leaf? && m[id].next == t && t != 0 && m[t].Leaf? ==> n[t] == m[t].(prev := nu))
            && (!m[id].Leaf? || m[id].next != t ==> n[t] == m[t])
  {
  }

  /** Splitting the full page at index i, as seen from its level. */
  ghost predicate Splits(w: World, v: World, cap: int, k: nat, lo: int, D: seq<Entry>, U: seq<Entry>,
                         i: nat, nu: int)
  {
    && OddCapacity(cap) && Good(w, cap, k, lo, D, U, 0) && i < |U|
    && (lo == cap / 2 || |U| == 1)
    && nu == w.nid > 0 && nu !in w.tag
    && |Entries(At(w.m, U[i].val))| == cap
    && v == World(SplitMap(w.m, U[i].val, nu),
                  w.tag[nu := Tag(k, SplitKey(At(w.m, U[i].val)))], nu + 1)
  }

  lemma SplitKeeps(w: World, v: World, cap: int, k: nat, lo: int, D: seq<Entry>, U: seq<Entry>,
                   i: nat, nu: int)
    requires Splits(w, v, cap, k, lo, D, U, i, nu)
    ensures U[i].val in v.m && v.m[U[i].val] == SplitLeft(At(w.m, U[i].val), nu)
    ensures nu in v.m && v.m[nu] == SplitRight(At(w.m, U[i].val), U[i].val)
    ensures forall t :: 0 <= t < |U| && t != i ==> Kept(w, v, U[t].val)
    ensures forall t :: 0 <= t < |U| && t != i && (k == 1 ==> t != i + 1) ==>
      At(v.m, U[t].val) == At(w.m, U[t].val)
    ensures k == 1 && i + 1 < |U| ==>
      At(w.m, U[i + 1].val).Leaf? && At(v.m, U[i + 1].val) == At(w.m, U[i + 1].val).(prev := nu)
  {
    LevelDistinct(w, k, D, U);
    assert Here(w, k, U[i]);
    forall t | 0 <= t < |U| && t != i
      ensures Kept(w, v, U[t].val)
      ensures (k == 1 ==> t != i + 1) ==> At(v.m, U[t].val) == At(w.m, U[t].val)
      ensures k == 1 && t == i + 1 ==>
        At(w.m, U[t].val).Leaf? && At(v.m, U[t].val) == At(w.m, U[t].val).(prev := nu)
    {
      assert Here(w, k, U[t]);
      if k == 1 && i + 1 < |U| { assert Here(w, k, U[i + 1]); }
      SplitMapAt(w.m, U[i].val, nu, U[t].val);
    }
  }

  /** Splitting a full page keeps what the level covers, and both halves are at least half full. */
  lemma SplitGood(w: World, v: World, cap: int, k: nat, lo: int, D: seq<Entry>, U: seq<Entry>,
                  i: nat, nu: int)
    requires Splits(w, v, cap, k, lo, D, U, i, nu)
    ensures Good(v, cap, k, cap / 2, D,
                 U[..i] + [U[i], Entry(SplitKey(At(w.m, U[i].val)), nu)] + U[i + 1..], 0)
  {
    SplitCovers(w, v, cap, k, lo, D, U, i, nu);
    SplitFilled(w, v, cap, k, lo, D, U, i, nu);
    if k == 1 {
      SplitKeeps(w, v, cap, 1, lo, D, U, i, nu);
      ChainSplit(w.m, v.m, U, i, Entry(SplitKey(At(w.m, U[i].val)), nu));
    }
  }

  lemma SplitCovers(w: World, v: World, cap: int, k: nat, lo: int, D: seq<Entry>, U: seq<Entry>,
                    i: nat, nu: int)
    requires Splits(w, v, cap, k, lo, D, U, i, nu)
    ensures Level(v, k, D, U[..i] + [U[i], Entry(SplitKey(At(w.m, U[i].val)), nu)] + U[i + 1..])
  {
    var b := At(w.m, U[i].val);
    SegAt(w, k, U, TOP, i);
    SplitChunks(U[i].key, b, nu, U[i].val);
    SplitKeeps(w, v, cap, k, lo, D, U, i, nu);
    SplitLevel(w, v, k, D, U, i, |Entries(b)| / 2 + if b.Leaf? then 0 else 1, nu);
  }

  lemma SplitFilled(w: World, v: World, cap: int, k: nat, lo: int, D: seq<Entry>, U: seq<Entry>,
                    i: nat, nu: int)
    requires Splits(w, v, cap, k, lo, D, U, i, nu)
    ensures Occupied(v.m, U[..i] + [U[i], Entry(SplitKey(At(w.m, U[i].val)), nu)] + U[i + 1..],
                     cap / 2, cap, 0)
  {
    SplitKeeps(w, v, cap, k, lo, D, U, i, nu);
    LevelDistinct(w, k, D, U);
    assert Here(w, k, U[i]);
    forall t | 0 <= t < |U| && t != i ensures Filled(v.m, U[t].val, cap / 2, cap) {
      assert Here(w, k, U[t]) && Kept(w, v, U[t].val) && Filled(w.m, U[t].val, lo, cap);
    }
    OccupiedRun(v.m, U, i, i + 1, [U[i], Entry(SplitKey(At(w.m, U[i].val)), nu)], cap / 2, cap);
  }
}
