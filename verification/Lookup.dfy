/** What the leaf that a descent reaches says about the whole sequence of rows. */
module Lookup {
  import opened Pages
  import opened Levels
  import opened Stack
  import opened NodeOps
  import opened Trees
  import opened Inserting

  ghost predicate HasKey(s: seq<Entry>, key: int) {
    exists j :: 0 <= j < |s| && s[j].key == key
  }

  /** The stored rows as a map from key rank to RecordID. */
  ghost function ToMap(s: seq<Entry>): map<int, int> {
    if s == [] then map[] else ToMap(s[1..])[s[0].key := s[0].val]
  }

  lemma LevelOf(w: World, cap: int, S: seq<seq<Entry>>, root: int, k: nat)
    requires Whole(w, cap, S, root) && 1 <= k < |S|
    ensures Good(w, cap, k, MinFor(k, |S| - 1, cap), S[k - 1], S[k], 0)
    ensures Level(w, k, S[k - 1], S[k]) && S[k] != [] && S[k][0].key == LOW
  {
    assert Good(w, cap, k, MinFor(k, TopOf(S, 0), cap), Under(S, 0, S[0], k), S[k], 0);
  }

  lemma PickLive(w: World, k: nat, D: seq<Entry>, U: seq<Entry>, key: int)
    requires Level(w, k, D, U) && LOW <= key < TOP
    ensures Here(w, k, Pick(U, key))
  {
    hide Seg;
    hide Cat;
    KeyBelowHead(U, key);
    LevelDistinct(w, k, D, U);
  }

  lemma {:induction false} ToMapFinds(s: seq<Entry>, key: int)
    requires Sorted(s)
    ensures key in ToMap(s) <==> HasKey(s, key)
    ensures forall j :: 0 <= j < |s| && s[j].key == key ==> key in ToMap(s) && ToMap(s)[key] == s[j].val
  {
    if s != [] {
      ToMapFinds(s[1..], key);
      assert forall j :: 0 <= j < |s| - 1 ==> s[1..][j] == s[j + 1];
      assert HasKey(s, key) <==> s[0].key == key || HasKey(s[1..], key) by {
        if HasKey(s[1..], key) {
          var j :| 0 <= j < |s[1..]| && s[1..][j].key == key;
          assert s[j + 1].key == key;
        }
      }
    }
  }

  /** A key is in a sorted sequence exactly if it is the last entry at or below it. */
  lemma HasKeyRank(s: seq<Entry>, key: int)
    requires Sorted(s)
    ensures HasKey(s, key) <==> Rank(s, key) > 0 && s[Rank(s, key) - 1].key == key
  {
    RankBounds(s, key);
  }

  /** The leaf picked for a key holds it exactly if the tree does, with the same value. */
  lemma LeafDecides(w: World, D: seq<Entry>, U: seq<Entry>, key: int)
    requires Level(w, 1, D, U) && LOW < key < TOP
    ensures Here(w, 1, Pick(U, key))
    ensures var es := Entries(At(w.m, Pick(U, key).val));
            && Sorted(es) && Sorted(D)
            && (HasKey(es, key) <==> HasKey(D, key))
            && forall j :: 0 <= j < |es| && es[j].key == key ==> ToMap(D) == ToMap(D)[key := es[j].val]
  {
    hide Seg;
    hide Cat;
    var i, c, a := Descend(w, 1, D, U, key);
    var r := Rank(c, key);
    RowsSorted(w, 1, D, U);
    HasKeyRank(c, key);
    HasKeyRank(D, key);
    if r > 0 {
      SliceAt(D, a, c, r - 1);
    } else if a > 0 {
      BeforeLeaf(w, 1, D, U, i);
    }
    forall j | 0 <= j < |c| && c[j].key == key ensures ToMap(D) == ToMap(D)[key := c[j].val] {
      SliceAt(D, a, c, j);
      ToMapFinds(D, key);
    }
  }

  /** What lies before the chunk of a page is below its bound. */
  lemma BeforeLeaf(w: World, k: nat, D: seq<Entry>, U: seq<Entry>, i: nat)
    requires Level(w, k, D, U) && i < |U| && |Cat(w.m, U[..i])| > 0
    ensures var a := |Cat(w.m, U[..i])|; a <= |D| && D[a - 1].key < U[i].key
  {
    hide Seg;
    hide Cat;
    CoverAt(w, k, D, U, i);
    SegCut(w, k, U, TOP, i, i + 1);
    assert Head(U[i..i + 1], Head(U[i + 1..], TOP)) == U[i].key;
    CatBetween(w, k, U[..i], U[i].key);
    var x := Cat(w.m, U[..i]);
    assert D[|x| - 1] == x[|x| - 1];
  }

  lemma NewSlot(s: seq<Entry>, e: Entry)
    requires Sorted(s) && !HasKey(s, e.key)
    ensures Slots(s, Rank(s, e.key), e)
  {
    RankBounds(s, e.key);
    HasKeyRank(s, e.key);
  }

  /** A new row starts the climb below the leaf level. */
  lemma ClimbStarts(w: World, cap: int, S: seq<seq<Entry>>, root: int, e: Entry, D: seq<Entry>, q: nat)
    requires Whole(w, cap, S, root)
    requires |S| >= 2 && S[0] == D && q == Rank(D, e.key) && LOW < e.key < TOP && !HasKey(D, e.key)
    ensures Climbing(w, cap, S[0 := InsertAt(D, q, e)], root, 0, D, e.key, e)
  {
    hide Tree;
    hide InsertAt;
    hide Rank;
    hide Slots;
    hide HasKey;
    StartSlot(w, cap, S, root, e);
    RowsChange(w, cap, S, D, InsertAt(D, q, e), 0);
  }

  lemma StartSlot(w: World, cap: int, S: seq<seq<Entry>>, root: int, e: Entry)
    requires Whole(w, cap, S, root) && !HasKey(S[0], e.key)
    ensures Slots(S[0], Rank(S[0], e.key), e)
  {
    hide Seg;
    hide Cat;
    hide Slots;
    hide Rank;
    hide HasKey;
    LevelOf(w, cap, S, root, 1);
    RowsSorted(w, 1, S[0], S[1]);
    NewSlot(S[0], e);
  }

  lemma RowsChange(w: World, cap: int, S: seq<seq<Entry>>, D: seq<Entry>, X: seq<Entry>, exc: int)
    requires Tree(w, cap, S, 0, D, exc)
    ensures Tree(w, cap, S[0 := X], 0, D, exc)
  {
    hide Good;
    var S' := S[0 := X];
    forall k | 1 <= k < |S'|
      ensures Good(w, cap, k, MinFor(k, TopOf(S', 0), cap), Under(S', 0, D, k), S'[k], exc)
    {
      assert S'[k] == S[k] && Under(S', 0, D, k) == Under(S, 0, D, k);
    }
  }

  lemma {:induction false} ToMapInsert(s: seq<Entry>, q: nat, e: Entry)
    requires q <= |s| && forall j :: 0 <= j < |s| ==> s[j].key != e.key
    ensures ToMap(InsertAt(s, q, e)) == ToMap(s)[e.key := e.val]
  {
    var t := InsertAt(s, q, e);
    if q == 0 {
      assert t[1..] == s;
    } else {
      assert t[0] == s[0] && t[1..] == InsertAt(s[1..], q - 1, e);
      ToMapInsert(s[1..], q - 1, e);
    }
  }

  // ---------------------------------------------------------------- the walk from root to leaf

  /** The walk for key has reached page id of height k, having passed the pages anc. */
  ghost predicate OnPath(w: World, S: seq<seq<Entry>>, k: nat, key: int, id: int, anc: seq<int>) {
    && 1 <= k < |S| && S[k] != [] && S[k][0].key == LOW <= key
    && Here(w, k, Pick(S[k], key)) && id == Pick(S[k], key).val
    && Path(S, anc, k, key)
  }

  lemma WalkStarts(w: World, cap: int, S: seq<seq<Entry>>, root: int, key: int)
    requires Whole(w, cap, S, root) && LOW < key < TOP
    ensures |S| >= 2 && OnPath(w, S, |S| - 1, key, root, []) && root in w.m && root in w.tag
  {
    hide Seg;
    hide Cat;
    hide Chain;
    LevelOf(w, cap, S, root, |S| - 1);
    hide Good;
    PickLive(w, |S| - 1, S[|S| - 2], S[|S| - 1], key);
    hide Level;
    assert Rank(S[|S| - 1], key) == 1 by { assert S[|S| - 1][1..] == []; }
  }

  lemma WalkDown(w: World, cap: int, S: seq<seq<Entry>>, root: int, key: int, k: nat, id: int,
                 anc: seq<int>, b: Body)
    requires Whole(w, cap, S, root) && LOW < key < TOP && OnPath(w, S, k, key, id, anc)
    requires b == At(w.m, id)
    ensures if b.Inner? then
              && k > 1 && Sorted(b.entries)
              && OnPath(w, S, k - 1, key, ChildFor(b, key), anc + [id])
              && ChildFor(b, key) in w.m && ChildFor(b, key) in w.tag
            else k == 1 && b.Leaf?
  {
    hide Seg;
    hide Cat;
    hide Chain;
    hide Rank;
    if b.Inner? {
      LevelOf(w, cap, S, root, k);
      LevelOf(w, cap, S, root, k - 1);
      hide Good;
      hide Tree;
      hide Whole;
      DescendInner(w, k, S[k - 1], S[k], key);
      PickLive(w, k - 1, S[k - 2], S[k - 1], key);
      PathDown(S, anc, k, key);
    }
  }

  lemma PathDown(S: seq<seq<Entry>>, anc: seq<int>, k: nat, key: int)
    requires Path(S, anc, k, key) && 1 < k < |S| && S[k] != [] && S[k][0].key <= key
    ensures Path(S, anc + [Pick(S[k], key).val], k - 1, key)
  {
    hide Rank;
    var x := Pick(S[k], key).val;
    assert (anc + [x])[..|anc|] == anc;
  }

  lemma {:induction false} PathKept(S: seq<seq<Entry>>, T: seq<seq<Entry>>, anc: seq<int>, g: nat, key: int)
    requires Path(S, anc, g, key) && |S| == |T| && forall j :: g < j < |S| ==> S[j] == T[j]
    ensures Path(T, anc, g, key)
    decreases |S| - g
  {
    hide Rank;
    if g + 1 < |S| { PathKept(S, T, anc[..|anc| - 1], g + 1, key); }
  }

  /** The tree of a brand-new file: one empty root leaf, page 1. */
  lemma FreshTree(w: World, cap: int, S: seq<seq<Entry>>)
    requires OddCapacity(cap)
    requires w == World(map[0 := Meta(1), 1 := Leaf(0, 0, [])], map[1 := Tag(1, LOW)], 2)
    requires S == [[], [Entry(LOW, 1)]]
    ensures Whole(w, cap, S, 1)
  {
    var U := [Entry(LOW, 1)];
    SegOne(w, 1, U[0], TOP);
    assert Chain(w.m, U) && Occupied(w.m, U, 0, cap, 0);
    hide Seg;
    hide Cat;
    assert Good(w, cap, 1, MinFor(1, TopOf(S, 0), cap), Under(S, 0, S[0], 1), S[1], 0);
  }

  /** What the leaf at the end of the walk says about the whole tree. */
  lemma LeafAnswers(w: World, cap: int, S: seq<seq<Entry>>, root: int, key: int, id: int, anc: seq<int>, b: Body)
    requires Whole(w, cap, S, root) && LOW < key < TOP
    requires OnPath(w, S, 1, key, id, anc) && b == At(w.m, id)
    ensures |S| >= 2 && Sorted(S[0]) && Sorted(Entries(b)) && b.Leaf?
    ensures MinFor(1, |S| - 1, cap) <= |Entries(b)| <= cap
    ensures HasKey(Entries(b), key) <==> key in ToMap(S[0])
    ensures HasKey(S[0], key) <==> key in ToMap(S[0])
    ensures forall j :: 0 <= j < |Entries(b)| && Entries(b)[j].key == key ==>
      key in ToMap(S[0]) && ToMap(S[0])[key] == Entries(b)[j].val
  {
    hide Seg;
    hide Cat;
    hide Chain;
    hide Rank;
    LevelOf(w, cap, S, root, 1);
    hide Whole;
    hide Tree;
    LeafDecides(w, S[0], S[1], key);
    hide Level;
    ToMapFinds(S[0], key);
    hide ToMap;
    KeyBelowHead(S[1], key);
    assert id == 0 || Filled(w.m, id, MinFor(1, |S| - 1, cap), cap);
  }

  /** The tree does not depend on the metadata page. */
  lemma MetaAside(w: World, v: World, cap: int, S: seq<seq<Entry>>, root: int)
    requires Whole(w, cap, S, root) && v == w.(m := w.m[0 := At(v.m, 0)])
    ensures Whole(v, cap, S, root)
  {
    hide Good;
    assert 0 !in w.tag;
    forall k | 1 <= k < |S|
      ensures Good(v, cap, k, MinFor(k, TopOf(S, 0), cap), Under(S, 0, S[0], k), S[k], 0)
    {
      GoodKept(w, v, cap, k, MinFor(k, TopOf(S, 0), cap), Under(S, 0, S[0], k), S[k], 0, 0, {});
    }
  }

  lemma NextIsFresh(w: World, cap: int, S: seq<seq<Entry>>, root: int, g: nat, D: seq<Entry>,
                    key: int, e: Entry)
    requires Climbing(w, cap, S, root, g, D, key, e)
    ensures w.nid > 0 && w.nid !in w.tag && OddCapacity(cap) && |S| >= 2
    ensures forall id :: id in w.tag ==> 0 < id < w.nid
  {
  }

  /** Above the root, the page that was split is the root. */
  lemma RootIsLeft(w: World, cap: int, S: seq<seq<Entry>>, root: int, g: nat, D: seq<Entry>,
                   key: int, e: Entry)
    requires Climbing(w, cap, S, root, g, D, key, e) && g + 1 == |S|
    requires D != [] && D[0].key <= key
    ensures Pick(D, key).val == root
  {
    assert D[1..] == [];
  }

  lemma FoundIsHasKey(s: seq<Entry>, key: int)
    ensures HasKey(s, key) <==> exists j :: 0 <= j < |s| && s[j].key == key
  {
  }

  lemma AbsentKey(s: seq<Entry>, key: int)
    requires !HasKey(s, key)
    ensures forall j :: 0 <= j < |s| ==> s[j].key != key
  {
  }

  lemma {:induction false} ToMapRemove(s: seq<Entry>, q: nat)
    requires Sorted(s) && q < |s|
    ensures ToMap(RemoveAt(s, q)) == ToMap(s) - {s[q].key}
  {
    var t := RemoveAt(s, q);
    if q == 0 {
      assert t == s[1..];
      ToMapFinds(s[1..], s[0].key);
    } else {
      assert t[0] == s[0] && t[1..] == RemoveAt(s[1..], q - 1);
      ToMapRemove(s[1..], q - 1);
    }
  }

  /** Dropping the row of a key that is there removes it from the map. */
  lemma RowRemoved(s: seq<Entry>, key: int)
    requires Sorted(s) && HasKey(s, key)
    ensures Rank(s, key) > 0 && ToMap(RemoveAt(s, Rank(s, key) - 1)) == ToMap(s) - {key}
  {
    hide RemoveAt;
    hide ToMap;
    HasKeyRank(s, key);
    ToMapRemove(s, Rank(s, key) - 1);
  }

  lemma TreeRows(w: World, cap: int, S: seq<seq<Entry>>, root: int)
    requires Whole(w, cap, S, root)
    ensures |S| >= 2
  {
    hide Good;
  }

  lemma RowsInOrder(w: World, cap: int, S: seq<seq<Entry>>, root: int)
    requires Whole(w, cap, S, root)
    ensures |S| >= 2 && Sorted(S[0])
  {
    hide Seg;
    hide Cat;
    LevelOf(w, cap, S, root, 1);
    RowsSorted(w, 1, S[0], S[1]);
  }

  // ---------------------------------------------------------------- the same tree elsewhere

  /** Every page of w is a page of v, at the same address and with the same contents. */
  ghost predicate Contains(v: World, w: World) {
    forall id :: id in w.tag && id in w.m ==>
      && id in v.m && v.m[id] == w.m[id]
      && id in v.tag && v.tag[id] == w.tag[id] && id < v.nid
  }

  lemma {:induction false} SegMoves(w: World, v: World, k: nat, U: seq<Entry>, hi: int)
    requires Seg(w, k, U, hi) && Contains(v, w)
    ensures Seg(v, k, U, hi) && Cat(v.m, U) == Cat(w.m, U)
    ensures forall i :: 0 <= i < |U| ==> At(v.m, U[i].val) == At(w.m, U[i].val)
  {
    if U != [] {
      SegMoves(w, v, k, U[1..], hi);
      assert forall i :: 1 <= i < |U| ==> U[i] == U[1..][i - 1];
    }
  }

  lemma GoodMoves(w: World, v: World, cap: int, k: nat, lo: int, D: seq<Entry>, U: seq<Entry>)
    requires Good(w, cap, k, lo, D, U, 0) && Contains(v, w)
    ensures Good(v, cap, k, lo, D, U, 0)
  {
    SegMoves(w, v, k, U, TOP);
    hide Seg;
    hide Cat;
  }

  /** Only the live pages matter. */
  lemma TreeMoves(w: World, v: World, cap: int, S: seq<seq<Entry>>, root: int)
    requires Whole(w, cap, S, root) && Contains(v, w) && v.nid > 0
    requires forall id :: id in v.tag ==> 0 < id < v.nid
    ensures Whole(v, cap, S, root)
  {
    hide Good;
    forall k | 1 <= k < |S|
      ensures Good(v, cap, k, MinFor(k, TopOf(S, 0), cap), Under(S, 0, S[0], k), S[k], 0)
    {
      GoodMoves(w, v, cap, k, MinFor(k, TopOf(S, 0), cap), Under(S, 0, S[0], k), S[k]);
    }
  }

  lemma LiveIdsInRange(w: World, cap: int, S: seq<seq<Entry>>, root: int)
    requires Whole(w, cap, S, root)
    ensures w.nid > 0 && forall id :: id in w.tag ==> 0 < id < w.nid
  {
    hide Good;
  }
}
