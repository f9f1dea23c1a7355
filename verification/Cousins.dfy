/** What goes wrong when a leaf is repaired with a neighbour that has another parent: the result is
    no tree for the intended contents. */
module Cousins {
  import opened Pages
  import opened Levels
  import opened Stack
  import opened NodeOps
  import opened Trees
  import opened Inserting
  import opened Lookup
  import opened Shrinking
  import opened Repairing
  import opened NodeMoves
  import opened Deleting

  /** The pages m, read from the given root, are a B+ tree that stores exactly `contents`. */
  ghost predicate Stores(m: map<int, Body>, nid: int, cap: int, root: int, contents: map<int, int>) {
    exists S: seq<seq<Entry>>, tag: map<int, Tag> ::
      Whole(World(m, tag, nid), cap, S, root) && S != [] && ToMap(S[0]) == contents
  }

  lemma StoresWitness(w: World, cap: int, S: seq<seq<Entry>>, root: int)
    requires Whole(w, cap, S, root) && S != []
    ensures Stores(w.m, w.nid, cap, root, ToMap(S[0]))
  {
    hide Whole;
    assert w == World(w.m, w.tag, w.nid);
  }

  /** Read from the given root, the pages m are no tree at all. */
  ghost predicate NoTree(m: map<int, Body>, nid: int, cap: int, root: int) {
    forall S: seq<seq<Entry>>, tag: map<int, Tag> :: !Whole(World(m, tag, nid), cap, S, root)
  }

  lemma NoTreeStoresNothing(m: map<int, Body>, nid: int, cap: int, root: int, contents: map<int, int>)
    requires NoTree(m, nid, cap, root)
    ensures !Stores(m, nid, cap, root, contents)
  {
    hide Whole;
  }

  /** The live pages of a height above k are in n as they are in w. */
  ghost predicate SameAbove(w: World, n: map<int, Body>, k: nat) {
    forall id :: id in w.tag && id in w.m && w.tag[id].level > k ==> At(n, id) == w.m[id]
  }

  lemma AllPicks(w: World, cap: int, S: seq<seq<Entry>>, root: int, exc: int, key: int)
    requires Nearly(w, cap, S, root, exc) && LOW < key < TOP
    ensures forall j :: 1 <= j < |S| ==> S[j] != [] && S[j][0].key == LOW && Here(w, j, Pick(S[j], key))
  {
    hide Good;
    hide Rank;
    forall j | 1 <= j < |S| ensures S[j] != [] && S[j][0].key == LOW && Here(w, j, Pick(S[j], key)) {
      LevelShort(w, cap, S, root, exc, j);
      PickLive(w, j, S[j - 1], S[j], key);
    }
  }

  /** If the pages above level k are those of another tree with the same root, the walk for key passes
      through the same page there. */
  lemma {:induction false} SameWalk(w: World, v: World, cap: int, S: seq<seq<Entry>>, T: seq<seq<Entry>>,
                                    root: int, exc: int, key: int, k: nat)
    returns (k': nat, anc: seq<int>)
    requires Nearly(w, cap, S, root, exc) && Whole(v, cap, T, root) && LOW < key < TOP && 1 <= k < |S|
    requires SameAbove(w, v.m, k)
    ensures S[k] != [] && S[k][0].key == LOW && OnPath(v, T, k', key, Pick(S[k], key).val, anc)
    ensures |T| - k' == |S| - k
    decreases |S| - k
  {
    hide Whole;
    hide Nearly;
    hide OnPath;
    hide Rank;
    AllPicks(w, cap, S, root, exc, key);
    if k == |S| - 1 {
      WalkStarts(v, cap, T, root, key);
      k', anc := |T| - 1, [];
      TopPick(w, cap, S, root, exc, key);
    } else {
      var kk, aa := SameWalk(w, v, cap, S, T, root, exc, key, k + 1);
      LevelShort(w, cap, S, root, exc, k + 1);
      hide Good;
      DescendInner(w, k + 1, S[k], S[k + 1], key);
      hide Level;
      var id := Pick(S[k + 1], key).val;
      assert Here(w, k + 1, Pick(S[k + 1], key));
      WalkDown(v, cap, T, root, key, kk, id, aa, At(v.m, id));
      k', anc := kk - 1, aa + [id];
    }
  }

  lemma TopPick(w: World, cap: int, S: seq<seq<Entry>>, root: int, exc: int, key: int)
    requires Nearly(w, cap, S, root, exc) && LOW < key < TOP
    ensures |S| >= 2 && S[|S| - 1] != [] && S[|S| - 1][0].key == LOW && Pick(S[|S| - 1], key).val == root
  {
    hide Good;
    assert S[|S| - 1][1..] == [];
  }

  /** Every page on a path of a tree is a real page with sorted entries. */
  lemma PathPageSorted(v: World, cap: int, T: seq<seq<Entry>>, root: int, k: nat, key: int, id: int, anc: seq<int>)
    requires Whole(v, cap, T, root) && OnPath(v, T, k, key, id, anc) && LOW < key < TOP
    ensures (At(v.m, id).Leaf? || At(v.m, id).Inner?) && Sorted(Entries(At(v.m, id)))
  {
    hide Whole;
    hide Rank;
    hide Seg;
    hide Cat;
    LevelOf(v, cap, T, root, k);
    var i, c, a := Descend(v, k, T[k - 1], T[k], key);
    hide Good;
    hide Level;
    EntriesSorted(T[k][i].key, At(v.m, id), Head(T[k][i + 1..], TOP));
  }

  /** A page on the walk that is garbled or out of order: no tree. */
  lemma BadPage(w: World, n: map<int, Body>, nid: int, cap: int, S: seq<seq<Entry>>, root: int, exc: int,
                key: int, k: nat)
    requires Nearly(w, cap, S, root, exc) && LOW < key < TOP && 1 <= k < |S| && SameAbove(w, n, k)
    requires S[k] != [] && S[k][0].key <= key
    requires var b := At(n, Pick(S[k], key).val); b.Garbled? || !Sorted(Entries(b))
    ensures NoTree(n, nid, cap, root)
  {
    hide Whole;
    hide Nearly;
    hide OnPath;
    hide Rank;
    hide Sorted;
    forall T: seq<seq<Entry>>, tag: map<int, Tag> | Whole(World(n, tag, nid), cap, T, root) ensures false {
      var v := World(n, tag, nid);
      var k', anc := SameWalk(w, v, cap, S, T, root, exc, key, k);
      PathPageSorted(v, cap, T, root, k', key, Pick(S[k], key).val, anc);
    }
  }

  /** A page on the walk that leads on to a garbled page: no tree. */
  lemma BadChild(w: World, n: map<int, Body>, nid: int, cap: int, S: seq<seq<Entry>>, root: int, exc: int,
                 key: int, k: nat)
    requires Nearly(w, cap, S, root, exc) && LOW < key < TOP && 1 <= k < |S| && SameAbove(w, n, k)
    requires S[k] != [] && S[k][0].key <= key
    requires var b := At(n, Pick(S[k], key).val); b.Inner? && At(n, ChildFor(b, key)).Garbled?
    ensures NoTree(n, nid, cap, root)
  {
    hide Whole;
    hide Nearly;
    hide OnPath;
    hide Rank;
    hide Sorted;
    forall T: seq<seq<Entry>>, tag: map<int, Tag> | Whole(World(n, tag, nid), cap, T, root) ensures false {
      var v, id := World(n, tag, nid), Pick(S[k], key).val;
      var k', anc := SameWalk(w, v, cap, S, T, root, exc, key, k);
      WalkDown(v, cap, T, root, key, k', id, anc, At(n, id));
      PathPageSorted(v, cap, T, root, k' - 1, key, ChildFor(At(n, id), key), anc + [id]);
    }
  }

  /** A garbled root: no tree. */
  lemma BadRoot(n: map<int, Body>, nid: int, cap: int, root: int)
    requires At(n, root).Garbled?
    ensures NoTree(n, nid, cap, root)
  {
    hide Whole;
    hide OnPath;
    hide Sorted;
    forall T: seq<seq<Entry>>, tag: map<int, Tag> | Whole(World(n, tag, nid), cap, T, root) ensures false {
      var v := World(n, tag, nid);
      WalkStarts(v, cap, T, root, 0);
      PathPageSorted(v, cap, T, root, |T| - 1, 0, root, []);
    }
  }

  /** In a tree, the walk for the key of an entry of a leaf leads to that leaf. */
  lemma EntryIsHome(v: World, cap: int, T: seq<seq<Entry>>, root: int, key: int, id: int, anc: seq<int>, x: nat)
    requires Whole(v, cap, T, root) && LOW < key < TOP && OnPath(v, T, 1, key, id, anc)
    requires At(v.m, id).Leaf? && x < |At(v.m, id).entries|
    ensures var e := At(v.m, id).entries[x].key; T[1][0].key <= e && Pick(T[1], e).val == id
  {
    hide Whole;
    hide Seg;
    hide Cat;
    hide Rank;
    LevelOf(v, cap, T, root, 1);
    var i, c, a := Descend(v, 1, T[0], T[1], key);
    LevelDistinct(v, 1, T[0], T[1]);
    hide Good;
    hide Level;
    RankUnique(T[1], c[x].key, i + 1);
  }

  lemma PathEnds(v: World, T: seq<seq<Entry>>, k: nat, key: int, id: int, anc: seq<int>)
    requires OnPath(v, T, k, key, id, anc)
    ensures 1 <= k < |T| && T[k] != [] && T[k][0].key <= key && id == Pick(T[k], key).val
  {
  }

  /** A leaf that holds a key whose walk leads to another leaf: no tree. */
  lemma Misplaced(w: World, n: map<int, Body>, nid: int, cap: int, S: seq<seq<Entry>>, root: int, exc: int,
                  key: int, x: nat)
    requires Nearly(w, cap, S, root, exc) && LOW < key < TOP && SameAbove(w, n, 1) && |S| >= 2
    requires S[1] != [] && S[1][0].key <= key
    requires var c := At(n, Pick(S[1], key).val);
             && c.Leaf? && x < |c.entries| && LOW < c.entries[x].key < TOP
             && S[1][0].key <= c.entries[x].key
             && Pick(S[1], c.entries[x].key).val != Pick(S[1], key).val
    ensures NoTree(n, nid, cap, root)
  {
    hide Whole;
    hide Nearly;
    hide OnPath;
    hide Rank;
    hide Sorted;
    forall T: seq<seq<Entry>>, tag: map<int, Tag> | Whole(World(n, tag, nid), cap, T, root) ensures false {
      var v, id := World(n, tag, nid), Pick(S[1], key).val;
      var k, anc := SameWalk(w, v, cap, S, T, root, exc, key, 1);
      WalkDown(v, cap, T, root, key, k, id, anc, At(n, id));
      EntryIsHome(v, cap, T, root, key, id, anc, x);
      var e := At(n, id).entries[x].key;
      var k', anc' := SameWalk(w, v, cap, S, T, root, exc, e, 1);
      PathEnds(v, T, k', e, Pick(S[1], e).val, anc');
    }
  }

  // ---------------------------------------------------------------- the neighbour the code uses

  /** The leaf that the repair of an underflowing leaf turns to: the left neighbour of the chain if it
      can spare an entry, else the right one if it can, else whichever there is, left first. */
  function UsedNeighbour(m: map<int, Body>, leaf: Body, cap: int): int
    requires leaf.Leaf?
  {
    if leaf.prev != 0 && |Entries(At(m, leaf.prev))| > cap / 2 then leaf.prev
    else if leaf.next != 0 && |Entries(At(m, leaf.next))| > cap / 2 then leaf.next
    else if leaf.prev != 0 then leaf.prev
    else leaf.next
  }

  /** Deleting key needs no repair, or the repair uses a neighbour under the same parent. */
  ghost predicate SafeToDelete(m: map<int, Body>, cap: int, S: seq<seq<Entry>>, key: int) {
    && |S| >= 2 && S[1] != [] && S[1][0].key <= key
    && var leaf := At(m, Pick(S[1], key).val);
       && leaf.Leaf?
       && (|S| > 2 && |leaf.entries| <= cap / 2 ==>
             && S[2] != [] && S[2][0].key <= key
             && IsChild(At(m, Pick(S[2], key).val), UsedNeighbour(m, leaf, cap)))
  }

  /** A neighbour in the chain can spare an entry. */
  ghost predicate Spares(m: map<int, Body>, leaf: Body, cap: int)
    requires leaf.Leaf?
  {
    || (leaf.prev != 0 && |Entries(At(m, leaf.prev))| > cap / 2)
    || (leaf.next != 0 && |Entries(At(m, leaf.next))| > cap / 2)
  }

  /** Deleting key merges no leaf under a parent that is not the root and cannot spare an entry. */
  ghost predicate NoCascade(m: map<int, Body>, cap: int, S: seq<seq<Entry>>, key: int) {
    && |S| >= 2 && S[1] != [] && S[1][0].key <= key
    && var leaf := At(m, Pick(S[1], key).val);
       && leaf.Leaf?
       && (|S| > 3 && |leaf.entries| <= cap / 2 && !Spares(m, leaf, cap) ==>
             && S[2] != [] && S[2][0].key <= key
             && |Entries(At(m, Pick(S[2], key).val))| > cap / 2)
  }

  /** When a deletion leaves a tree: the repair of the leaf uses a neighbour under the same parent, and
      with keys wider than eight bytes no internal page underflows. */
  ghost predicate Deletable(m: map<int, Body>, cap: int, S: seq<seq<Entry>>, key: int, keySize: nat) {
    SafeToDelete(m, cap, S, key) && (keySize == 8 || NoCascade(m, cap, S, key))
  }

  /** Borrowing from a left neighbour under another parent appends a second entry for the leaf, with
      a key below all others. */
  lemma CousinLeft(w: World, cap: int, S: seq<seq<Entry>>, root: int, exc: int, key: int, i: nat,
                   parent: int, b: Body, e: Entry)
    requires Nearly(w, cap, S, root, exc) && Family(w, cap, S, 1, key, i, 0, parent, b)
    requires e.key < S[1][i].key && cap >= 0
    ensures var n := Reseat(b, |b.entries|, e, cap); n.Garbled? || !Sorted(Entries(n))
  {
    hide Good;
    hide Rank;
    hide Seg;
    hide Cat;
    LevelShort(w, cap, S, root, exc, 1);
    LevelDistinct(w, 1, S[0], S[1]);
    hide Level;
    hide Tree;
    var n, c := |b.entries|, Chunk(Pick(S[2], key).key, b);
    SliceAt(S[1], i, c, n);
    assert b.entries[n - 1] == c[n];
    if n < cap {
      var es := b.entries + [e];
      assert es[n - 1].key > es[n].key;
    }
  }

  /** Borrowing from a right neighbour under another parent overwrites the first entry with a key above
      all others. */
  lemma CousinRight(w: World, cap: int, S: seq<seq<Entry>>, root: int, exc: int, key: int, i: nat,
                    parent: int, b: Body, e: Entry)
    requires b.Inner? && Nearly(w, cap, S, root, exc) && Family(w, cap, S, 1, key, i, |b.entries|, parent, b)
    requires e.key > S[1][i].key && |b.entries| >= 2 && cap >= 0
    ensures !Sorted(Entries(Reseat(b, 0, e, cap)))
  {
    hide Good;
    hide Rank;
    hide Seg;
    hide Cat;
    LevelShort(w, cap, S, root, exc, 1);
    LevelDistinct(w, 1, S[0], S[1]);
    hide Level;
    hide Tree;
    var n, c := |b.entries|, Chunk(Pick(S[2], key).key, b);
    SliceAt(S[1], i - n, c, 2);
    assert b.entries[1] == c[2];
    var es := b.entries[0 := e];
    assert es[0].key > es[1].key;
  }

  /** A cousin exists only below a parent that is not the root. */
  lemma CousinDepth(w: World, cap: int, S: seq<seq<Entry>>, root: int, exc: int, key: int, i: nat, o: nat,
                    parent: int, b: Body)
    requires Nearly(w, cap, S, root, exc) && Family(w, cap, S, 1, key, i, o, parent, b) && LOW < key < TOP
    requires i != o || i - o + |b.entries| + 1 != |S[1]|
    ensures |S| > 3 && |b.entries| >= cap / 2
  {
    hide Good;
    hide Rank;
    if |S| == 3 {
      LevelShort(w, cap, S, root, exc, 2);
      OnePage(w, S[1], S[2], root);
      assert S[1] == Chunk(LOW, At(w.m, root));
      OnlyPick(S[2], root, key);
      KinAtRoot(S, i, o, b);
      assert false;
    }
  }

  lemma OnlyPick(U: seq<Entry>, root: int, key: int)
    requires U == [Entry(LOW, root)] && LOW <= key
    ensures Pick(U, key) == Entry(LOW, root)
  {
    assert U[1..] == [];
  }

  lemma OnePage(w: World, D: seq<Entry>, U: seq<Entry>, root: int)
    requires Level(w, 2, D, U) && U == [Entry(LOW, root)]
    ensures D == Chunk(LOW, At(w.m, root)) && Sorted(D)
  {
    CatBetween(w, 2, U, TOP);
    SegAt(w, 2, U, TOP, 0);
    SegOne(w, 2, U[0], TOP);
  }

  lemma KinAtRoot(S: seq<seq<Entry>>, i: nat, o: nat, b: Body)
    requires |S| > 1 && b.Inner? && S[1] == Chunk(LOW, b)
    requires o <= |b.entries| && o <= i && i - o + |b.entries| < |S[1]|
    ensures i == o && i - o + |b.entries| + 1 == |S[1]|
  {
  }

  /** The chain neighbours of leaf i. */
  lemma LeafLinks(w: World, cap: int, S: seq<seq<Entry>>, root: int, exc: int, i: nat)
    requires Nearly(w, cap, S, root, exc) && |S| > 2 && i < |S[1]| && exc == S[1][i].val
    ensures At(w.m, exc).Leaf? && At(w.m, exc).prev == IdAt(S[1], i - 1) && At(w.m, exc).next == IdAt(S[1], i + 1)
    ensures i > 0 ==> LeafBeside(w, cap, S[1][i - 1], exc)
    ensures i + 1 < |S[1]| ==> LeafBeside(w, cap, S[1][i + 1], exc)
    ensures i + 2 < |S[1]| ==> LeafBeside(w, cap, S[1][i + 2], exc) && S[1][i + 1].val != S[1][i + 2].val
    ensures i > 0 && i + 1 < |S[1]| ==> S[1][i - 1].val != S[1][i + 1].val
    ensures i > 0 ==> At(w.m, S[1][i - 1].val).next == exc
    ensures i + 1 < |S[1]| ==> At(w.m, S[1][i + 1].val).next == IdAt(S[1], i + 2)
    ensures i > 0 ==> Below(At(w.m, S[1][i - 1].val), S[1][i].key)
    ensures i + 1 < |S[1]| ==> Above(At(w.m, S[1][i + 1].val), S[1][i + 1].key) && S[1][i].key < S[1][i + 1].key
    ensures OddCapacity(cap)
  {
    hide Good;
    hide Rank;
    LevelShort(w, cap, S, root, exc, 1);
    ChainOf(w, cap, 1, cap / 2, S[0], S[1], exc);
    LevelDistinct(w, 1, S[0], S[1]);
    var U := S[1];
    assert Here(w, 1, U[i]);
    if i > 0 {
      assert Here(w, 1, U[i - 1]);
      GoodFilled(w, cap, 1, cap / 2, S[0], U, exc, i - 1);
      PairCover(w, 1, S[0], U, i - 1);
    }
    if i + 1 < |U| {
      assert Here(w, 1, U[i + 1]);
      GoodFilled(w, cap, 1, cap / 2, S[0], U, exc, i + 1);
      PairCover(w, 1, S[0], U, i);
    }
    if i + 2 < |U| {
      assert Here(w, 1, U[i + 2]);
      GoodFilled(w, cap, 1, cap / 2, S[0], U, exc, i + 2);
    }
  }

  ghost predicate LeafBeside(w: World, cap: int, it: Entry, exc: int) {
    && Here(w, 1, it) && it.val != exc && Filled(w.m, it.val, cap / 2, cap)
  }

  ghost predicate Below(b: Body, bound: int) {
    forall j :: 0 <= j < |Entries(b)| ==> Entries(b)[j].key < bound
  }

  ghost predicate Above(b: Body, bound: int) {
    forall j :: 0 <= j < |Entries(b)| ==> bound <= Entries(b)[j].key
  }

  lemma ChainOf(w: World, cap: int, k: nat, lo: int, D: seq<Entry>, U: seq<Entry>, exc: int)
    requires Good(w, cap, k, lo, D, U, exc) && k == 1
    ensures Chain(w.m, U)
  {
  }

  lemma ShiftLeafSep(l: Body, r: Body, s: int, fromLeft: bool)
    requires l.Leaf? && r.Leaf?
    ensures ShiftLeft(l, r, 0, fromLeft) == ShiftLeft(l, r, s, fromLeft)
    ensures ShiftRight(l, r, 0, fromLeft) == ShiftRight(l, r, s, fromLeft)
    ensures fromLeft && l.entries != [] ==> ShiftKey(l, r, true) == l.entries[|l.entries| - 1].key
    ensures !fromLeft && |r.entries| >= 2 ==> ShiftKey(l, r, false) == r.entries[1].key
  {
  }
}
