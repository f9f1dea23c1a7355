/** What internal repair does in a tree with keys wider than eight bytes: the page that the walk for the
    deleted key reaches next ends up with an entry of the wrong size. */
module Truncation {
  import opened Pages
  import opened Levels
  import opened Stack
  import opened Trees
  import opened Lookup
  import opened Node
  import opened Shrinking
  import opened Repairing
  import opened NodeMoves
  import opened Deleting

  // ---------------------------------------------------------------- ranks after an edit

  lemma {:induction false} RankUpdate(s: seq<Entry>, x: nat, e: Entry, key: int)
    requires x < |s| && (if x < Rank(s, key) then e.key <= key else e.key > key)
    ensures Rank(s[x := e], key) == Rank(s, key)
  {
    if x == 0 {
      assert s[x := e][1..] == s[1..];
    } else if s[0].key <= key {
      assert s[x := e][1..] == s[1..][x - 1 := e];
      RankUpdate(s[1..], x - 1, e, key);
    }
  }

  lemma RankRemove(s: seq<Entry>, x: nat, key: int)
    requires Sorted(s) && x < |s|
    ensures Rank(RemoveAt(s, x), key) == Rank(s, key) - if x < Rank(s, key) then 1 else 0
  {
    var t, r := RemoveAt(s, x), Rank(s, key);
    RankBounds(s, key);
    hide Rank;
    forall i, j | 0 <= i < j < |t| ensures t[i].key < t[j].key {
      assert t[i] == (if i < x then s[i] else s[i + 1]) && t[j] == (if j < x then s[j] else s[j + 1]);
    }
    RankUnique(t, key, if x < r then r - 1 else r);
  }

  // ---------------------------------------------------------------- where the parent leads

  /** The page picked at level k is the child of its parent at the rank of key. */
  lemma OffsetIsRank(w: World, cap: int, S: seq<seq<Entry>>, root: int, exc: int, k: nat, key: int, i: nat, o: nat,
                     parent: int, b: Body)
    requires Nearly(w, cap, S, root, exc) && Family(w, cap, S, k, key, i, o, parent, b) && key < TOP
    ensures b.Inner? && Sorted(b.entries) && Rank(b.entries, key) == o
    ensures (if o == 0 then b.leftmost else b.entries[o - 1].val) == S[k][i].val
    ensures o > 0 ==> (if o == 1 then b.leftmost else b.entries[o - 2].val) == S[k][i - 1].val
    ensures S[k][i].key <= key && (i + 1 < |S[k]| ==> key < S[k][i + 1].key)
  {
    hide Nearly;
    hide Good;
    hide Rank;
    hide Level;
    hide Chunk;
    hide Sorted;
    LevelShort(w, cap, S, root, exc, k);
    LevelShort(w, cap, S, root, exc, k + 1);
    LevelDistinct(w, k, S[k - 1], S[k]);
    DescendInner(w, k + 1, S[k], S[k + 1], key);
    var low := Pick(S[k + 1], key).key;
    ChunkAt(low, b, Chunk(low, b));
    ChildAtRank(S[k], Chunk(low, b), b, key, i, o);
  }

  lemma ChildAtRank(U: seq<Entry>, c: seq<Entry>, b: Body, key: int, i: nat, o: nat)
    requires U != [] && U[0].key <= key && i < |U| && Sorted(U) && U[i] == Pick(U, key)
    requires b.Inner? && Sorted(b.entries) && o <= |b.entries| && o <= i && i - o + |b.entries| < |U|
    requires |c| == |b.entries| + 1 && c[0].val == b.leftmost && U[i - o..i - o + |c|] == c
    requires forall x :: 0 <= x < |b.entries| ==> b.entries[x] == c[x + 1]
    ensures Rank(b.entries, key) == o
    ensures (if o == 0 then b.leftmost else b.entries[o - 1].val) == U[i].val
    ensures o > 0 ==> (if o == 1 then b.leftmost else b.entries[o - 2].val) == U[i - 1].val
    ensures U[i].key <= key && (i + 1 < |U| ==> key < U[i + 1].key)
  {
    hide Rank;
    hide Sorted;
    PickBounds(U, key, i);
    SliceAt(U, i - o, c, o);
    if o > 0 {
      SliceAt(U, i - o, c, o - 1);
      assert b.entries[o - 1] == c[o];
      if o > 1 { assert b.entries[o - 2] == c[o - 1]; }
    }
    if o < |b.entries| {
      SliceAt(U, i - o, c, o + 1);
      assert b.entries[o] == c[o + 1];
    }
    RankUnique(b.entries, key, o);
  }

  lemma PickBounds(U: seq<Entry>, key: int, i: nat)
    requires U != [] && U[0].key <= key && i < |U| && Sorted(U) && U[i] == Pick(U, key)
    ensures Rank(U, key) == i + 1 && U[i].key <= key && (i + 1 < |U| ==> key < U[i + 1].key)
  {
    RankBounds(U, key);
    hide Rank;
    var r := Rank(U, key) - 1;
    assert U[r] == U[i];
  }

  /** After a redistribution the parent still leads to the page that was short. */
  lemma BorrowLeads(w: World, cap: int, S: seq<seq<Entry>>, root: int, exc: int, k: nat, key: int, i: nat, o: nat,
                    parent: int, b: Body, fromLeft: bool, j: nat)
    requires Nearly(w, cap, S, root, exc) && Family(w, cap, S, k, key, i, o, parent, b) && key < TOP && k > 1
    requires Relatives(w, S, k, key, i, o, parent, b) && cap >= 0
    requires (if fromLeft then o > 0 else o < |b.entries|) && j == (if fromLeft then i - 1 else i) && j + 1 < |S[k]|
    requires var l, r := At(w.m, S[k][j].val), At(w.m, S[k][j + 1].val);
             if fromLeft then Entries(l) != [] else Entries(r) != []
    ensures var y := S[k][j + 1].val;
            var n := Reseat(b, ChildIndex(b, y),
                            Entry(ShiftKey(At(w.m, S[k][j].val), At(w.m, y), fromLeft), y), cap);
            n.Inner? && ChildFor(n, key) == S[k][i].val
  {
    hide Nearly;
    hide Rank;
    hide Seated;
    hide LeftSibling;
    hide RightSibling;
    hide ChildIndex;
    hide IsChild;
    hide ShiftKey;
    var t := if fromLeft then o else o + 1;
    OffsetIsRank(w, cap, S, root, exc, k, key, i, o, parent, b);
    SeatedIndex(w, S, k, key, j, t, parent, b);
    MovedKey(w, cap, S, root, exc, k, j, fromLeft);
    var e := Entry(ShiftKey(At(w.m, S[k][j].val), At(w.m, S[k][j + 1].val), fromLeft), S[k][j + 1].val);
    RankUpdate(b.entries, t - 1, e, key);
  }

  /** The key that goes up in a redistribution lies strictly inside the page it comes from. */
  lemma MovedKey(w: World, cap: int, S: seq<seq<Entry>>, root: int, exc: int, k: nat, j: nat, fromLeft: bool)
    requires Nearly(w, cap, S, root, exc) && 1 < k < |S| && j + 1 < |S[k]|
    requires var l, r := At(w.m, S[k][j].val), At(w.m, S[k][j + 1].val);
             if fromLeft then Entries(l) != [] else Entries(r) != []
    ensures var sep := ShiftKey(At(w.m, S[k][j].val), At(w.m, S[k][j + 1].val), fromLeft);
            if fromLeft then sep < S[k][j + 1].key else sep > S[k][j + 1].key
  {
    hide Good;
    hide Seg;
    hide Cat;
    LevelShort(w, cap, S, root, exc, k);
    PairCover(w, k, S[k - 1], S[k], j);
    hide Level;
    hide Tree;
    var x, y := S[k][j], S[k][j + 1];
    var l, r := At(w.m, x.val), At(w.m, y.val);
    if fromLeft {
      var c := Chunk(x.key, l);
      assert c[|c| - 1] == l.entries[|l.entries| - 1];
    } else {
      var c := Chunk(y.key, r);
      assert c[0].key == y.key && c[1] == r.entries[0];
    }
  }

  /** After a merge the parent leads to the page that holds the merged entries. */
  lemma MergeLeads(w: World, cap: int, S: seq<seq<Entry>>, root: int, exc: int, k: nat, key: int, i: nat, o: nat,
                   parent: int, b: Body, fromLeft: bool, j: nat)
    requires Nearly(w, cap, S, root, exc) && Family(w, cap, S, k, key, i, o, parent, b) && key < TOP
    requires Relatives(w, S, k, key, i, o, parent, b)
    requires (if fromLeft then o > 0 else o < |b.entries|) && j == (if fromLeft then i - 1 else i) && j + 1 < |S[k]|
    ensures var n := DropEntry(b, ChildIndex(b, S[k][j + 1].val));
            n.Inner? && ChildFor(n, key) == S[k][j].val
  {
    hide Nearly;
    hide Rank;
    hide Seated;
    hide LeftSibling;
    hide RightSibling;
    hide ChildIndex;
    hide IsChild;
    var t := if fromLeft then o else o + 1;
    OffsetIsRank(w, cap, S, root, exc, k, key, i, o, parent, b);
    SeatedIndex(w, S, k, key, j, t, parent, b);
    RankRemove(b.entries, t - 1, key);
  }

  /** The entry of the right page of the pair is there to be replaced or dropped, and the parent is the
      page picked above. */
  lemma WideSeat(w: World, cap: int, S: seq<seq<Entry>>, k: nat, key: int, i: nat, o: nat, parent: int, b: Body,
                 fromLeft: bool, j: nat)
    requires Family(w, cap, S, k, key, i, o, parent, b) && Relatives(w, S, k, key, i, o, parent, b)
    requires (if fromLeft then o > 0 else o < |b.entries|) && j == (if fromLeft then i - 1 else i) && j + 1 < |S[k]|
    ensures b.Inner? && ChildIndex(b, S[k][j + 1].val) < |b.entries|
    ensures S[k + 1] != [] && S[k + 1][0].key <= key && parent == Pick(S[k + 1], key).val
    ensures Here(w, k + 1, Pick(S[k + 1], key)) && b == w.m[parent]
  {
    hide Seated;
    hide LeftSibling;
    hide RightSibling;
    hide ChildIndex;
    hide IsChild;
    hide Rank;
    SeatedIndex(w, S, k, key, j, if fromLeft then o else o + 1, parent, b);
  }

  lemma LoneChildLeads(b: Body, key: int)
    requires b.Inner? && b.entries == []
    ensures ChildFor(b, key) == b.leftmost
  {
  }

  /** Above the merged pages the tree is as if the merge had gone well. */
  lemma WideJoin(w: World, cap: int, S: seq<seq<Entry>>, root: int, exc: int, k: nat, key: int, i: nat, o: nat,
                 parent: int, b: Body, fromLeft: bool, j: nat, anc: seq<int>)
    returns (w': World, S': seq<seq<Entry>>)
    requires Nearly(w, cap, S, root, exc) && Family(w, cap, S, k, key, i, o, parent, b) && key < TOP && k > 1
    requires Relatives(w, S, k, key, i, o, parent, b) && exc == S[k][i].val
    requires (if fromLeft then o > 0 else o < |b.entries|) && j == (if fromLeft then i - 1 else i) && j + 1 < |S[k]|
    requires |Entries(At(w.m, exc))| == cap / 2 - 1
    requires |Entries(At(w.m, if fromLeft then S[k][j].val else S[k][j + 1].val))| <= cap / 2
    requires anc != [] && Path(S, anc, k, key)
    ensures Nearly(w', cap, S', root, parent) && |S'| == |S| && Path(S', anc[..|anc| - 1], k + 1, key)
    ensures At(w'.m, parent) == DropEntry(b, ChildIndex(b, S[k][j + 1].val))
    ensures S'[k + 1] == S[k + 1] && parent in w'.tag && w'.tag[parent].level == k + 1
    ensures forall id :: id in w'.tag && id in w'.m && w'.tag[id].level > k && id != parent ==>
      id in w.tag && id in w.m && w.tag[id] == w'.tag[id] && w.m[id] == w'.m[id]
    ensures |Entries(At(w.m, S[k][j].val))| + |Entries(At(w.m, S[k][j + 1].val))| == 2 * (cap / 2) - 1
  {
    hide Nearly;
    hide Rank;
    hide Seated;
    hide LeftSibling;
    hide RightSibling;
    hide ChildIndex;
    hide IsChild;
    hide RemoveAt;
    hide MergeMap;
    var t := if fromLeft then o else o + 1;
    var x, y := S[k][j], S[k][j + 1];
    WideSeat(w, cap, S, k, key, i, o, parent, b, fromLeft, j);
    SeatedIndex(w, S, k, key, j, t, parent, b);
    if fromLeft {
      LeftKin(w, cap, S, root, exc, k, key, i, o, parent, b);
    } else {
      RightKin(w, cap, S, root, exc, k, key, i, o, parent, b);
    }
    NearlyBasics(w, cap, S, root, exc);
    JoinDone(w, cap, S, root, k, key, j, t, parent, b, exc, parent);
    w', S' := Joined(w, x, y, parent, t), S[k := RemoveAt(S[k], j + 1)];
    PathKept(S, S', anc[..|anc| - 1], k + 1, key);
    forall id | id in w'.tag && id in w'.m && w'.tag[id].level > k && id != parent
      ensures id in w.tag && id in w.m && w.tag[id] == w'.tag[id] && w.m[id] == w'.m[id]
    {
      MergeKeepsAbove(w.m, x, y, id);
    }
  }

  lemma MergeKeepsAbove(m: map<int, Body>, x: Entry, y: Entry, id: int)
    requires x.val in m && y.val in m && At(m, y.val).Inner? && id != x.val && id != y.val
    ensures id in MergeMap(m, x, y) <==> id in m
    ensures id in m ==> MergeMap(m, x, y)[id] == m[id]
  {
  }
}
