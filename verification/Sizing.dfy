/** Trees whose capacity is what their pages have room for, and the bytes behind their pages. */
module Sizing {
  import opened Pages
  import opened Storage
  import opened Pool
  import opened Levels
  import opened Stack
  import opened Trees
  import opened Codec
  import opened PageBytes
  import opened PageSearch
  import opened Statistics
  import opened Images
  import opened BTree
  import Bytes = SlottedPage

  /** The capacity of the tree is the number of its entries that fit a page. */
  predicate Sized(cap: nat, keySize: nat) {
    KeySize(keySize) && cap == Bytes.MaxEntries(keySize + 8)
  }

  /** Opens a brand-new file with keys of the given size. */
  method OpenTree(pm: PageManager, pool: BufferPool?, unique: bool, keySize: nat) returns (t: BPlusTree)
    requires KeySize(keySize) && pm.nextPageID == 0
    requires pool != null ==> pool.pm == pm && pool.items == map[] && pool.Valid()
    modifies pm, pool
    ensures t.Valid() && Sized(t.cap, t.keySize) && t.keySize == keySize && t.unique == unique
    ensures t.Rows() == [] && t.Height() == 1 && t.pageSplits == 0 && t.pageMerges == 0
    ensures fresh(t) && fresh(t.io) && fresh(t.io.pages) && t.io.pm == pm && t.io.pool == pool
  {
    Capacities();
    t := new BPlusTree(pm, pool, Bytes.MaxEntries(keySize + 8), unique, keySize);
  }

  /** What the interface of the tree hands over: keys and RecordIDs that fit their bytes. */
  ghost predicate RowsEncodable(rows: seq<Entry>, keySize: nat) {
    forall i :: 0 <= i < |rows| ==> Encodable(true, keySize, rows[i])
  }

  /** Every lower bound and separator is at most some row, so all keys of the tree are below any bound on
      its rows. */
  lemma {:induction false} KeysBelow(w: World, cap: int, S: seq<seq<Entry>>, root: int, limit: int, k: nat, i: nat)
    requires Whole(w, cap, S, root) && k < |S| && i < |S[k]|
    requires limit > LOW && forall j :: 0 <= j < |S[0]| ==> S[0][j].key < limit
    ensures S[k][i].key < limit
    decreases k
  {
    hide Whole;
    hide Chunk;
    if k > 0 {
      var a := ChunkSpan(w, cap, S, root, k, i);
      var c := Chunk(S[k][i].key, At(w.m, S[k][i].val));
      if c == [] {
        EmptyIsRoot(w, cap, S, root, k, i);
      } else {
        assert S[k][i].key <= c[0].key == S[k - 1][a].key;
        KeysBelow(w, cap, S, root, limit, k - 1, a);
      }
    }
  }

  /** What page i of level k covers: a stretch of the level below, from its lower bound on. */
  lemma ChunkSpan(w: World, cap: int, S: seq<seq<Entry>>, root: int, k: nat, i: nat) returns (a: nat)
    requires Whole(w, cap, S, root) && 1 <= k < |S| && i < |S[k]|
    ensures var c := Chunk(S[k][i].key, At(w.m, S[k][i].val));
            && LOW <= S[k][i].key && Between(c, S[k][i].key, Head(S[k][i + 1..], TOP)) && a + |c| <= |S[k - 1]|
            && a == Offset(w.m, S[k], i) && a + |c| == Offset(w.m, S[k], i + 1)
            && forall x :: 0 <= x < |c| ==> c[x] == S[k - 1][a + x]
  {
    hide Whole;
    hide Seg;
    hide Cat;
    hide Chunk;
    LevelAt(w, cap, S, root, k);
    var D, U := S[k - 1], S[k];
    ItemSpan(w, k, D, U, i);
    a := Offset(w.m, U, i);
    hide Offset;
    SegAt(w, k, U, TOP, i);
    LevelLow(w, k, D, U, i);
    hide Level;
    var c := Chunk(U[i].key, At(w.m, U[i].val));
    forall x | 0 <= x < |c| ensures c[x] == D[a + x] { assert D[a..a + |c|][x] == D[a + x]; }
  }

  /** Only a root leaf can be empty. */
  lemma EmptyIsRoot(w: World, cap: int, S: seq<seq<Entry>>, root: int, k: nat, i: nat)
    requires Whole(w, cap, S, root) && 1 <= k < |S| && i < |S[k]| && Chunk(S[k][i].key, At(w.m, S[k][i].val)) == []
    ensures S[k] == [Entry(LOW, root)]
  {
    hide Level;
    hide Chain;
    assert Good(w, cap, k, MinFor(k, TopOf(S, 0), cap), Under(S, 0, S[0], k), S[k], 0);
    LevelAt(w, cap, S, root, k);
    LevelDistinct(w, k, S[k - 1], S[k]);
    assert Here(w, k, S[k][i]);
    assert Filled(w.m, S[k][i].val, MinFor(k, TopOf(S, 0), cap), cap);
  }

  /** In every tree of the right capacity, every live page is the meaning of some page of bytes, as long as
      its rows are encodable and PageIDs have not run out. */
  lemma PagesHaveImages(w: World, cap: int, S: seq<seq<Entry>>, root: int, keySize: nat, k: nat, i: nat)
    requires Whole(w, cap, S, root) && cap >= 0 && Sized(cap, keySize) && w.nid <= WORD
    requires S != [] && RowsEncodable(S[0], keySize) && 1 <= k < |S| && i < |S[k]|
    ensures HasImage(At(w.m, S[k][i].val), keySize)
  {
    hide Whole;
    hide Fits;
    hide HasImage;
    PageFits(w, cap, S, root, keySize, k, i);
    ImageIsFit(At(w.m, S[k][i].val), keySize);
  }

  lemma PageFits(w: World, cap: int, S: seq<seq<Entry>>, root: int, keySize: nat, k: nat, i: nat)
    requires Whole(w, cap, S, root) && cap >= 0 && Sized(cap, keySize) && w.nid <= WORD
    requires S != [] && RowsEncodable(S[0], keySize) && 1 <= k < |S| && i < |S[k]|
    ensures (At(w.m, S[k][i].val).Leaf? || At(w.m, S[k][i].val).Inner?) && Fits(At(w.m, S[k][i].val), keySize)
  {
    var b := At(w.m, S[k][i].val);
    PageCount(w, cap, S, root, k, i);
    LinksInRange(w, cap, S, root, k, i);
    forall j | 0 <= j < |Entries(b)| ensures Encodable(b.Leaf?, keySize, Entries(b)[j]) {
      EntryInRange(w, cap, S, root, keySize, k, i, j);
    }
  }

  lemma PageCount(w: World, cap: int, S: seq<seq<Entry>>, root: int, k: nat, i: nat)
    requires Whole(w, cap, S, root) && 1 <= k < |S| && i < |S[k]|
    ensures KindOf(k, At(w.m, S[k][i].val)) && |Entries(At(w.m, S[k][i].val))| <= cap
  {
    hide Level;
    hide Chain;
    assert Good(w, cap, k, MinFor(k, TopOf(S, 0), cap), Under(S, 0, S[0], k), S[k], 0);
    LevelAt(w, cap, S, root, k);
    LevelDistinct(w, k, S[k - 1], S[k]);
    assert Here(w, k, S[k][i]);
    assert Filled(w.m, S[k][i].val, MinFor(k, TopOf(S, 0), cap), cap);
  }

  lemma ItemInRange(w: World, cap: int, S: seq<seq<Entry>>, root: int, k: nat, i: nat)
    requires Whole(w, cap, S, root) && 1 <= k < |S| && i < |S[k]|
    ensures 0 < S[k][i].val < w.nid
  {
    LevelAt(w, cap, S, root, k);
    hide Whole;
    LevelDistinct(w, k, S[k - 1], S[k]);
    hide Level;
    assert Here(w, k, S[k][i]);
  }

  lemma LinksAre(w: World, cap: int, S: seq<seq<Entry>>, root: int, i: nat)
    requires Whole(w, cap, S, root) && |S| > 1 && i < |S[1]|
    ensures var b := At(w.m, S[1][i].val); b.Leaf? && b.next == IdAt(S[1], i + 1) && b.prev == IdAt(S[1], i - 1)
  {
    hide Level;
    hide Occupied;
    assert Good(w, cap, 1, MinFor(1, TopOf(S, 0), cap), Under(S, 0, S[0], 1), S[1], 0);
  }

  lemma LinksInRange(w: World, cap: int, S: seq<seq<Entry>>, root: int, k: nat, i: nat)
    requires Whole(w, cap, S, root) && 1 <= k < |S| && i < |S[k]| && w.nid <= WORD
    ensures var b := At(w.m, S[k][i].val); if k == 1 then b.Leaf? && Link(b.prev) && Link(b.next)
            else b.Inner? && Link(b.leftmost)
  {
    hide Whole;
    if k == 1 {
      LinksAre(w, cap, S, root, i);
      if i > 0 { ItemInRange(w, cap, S, root, 1, i - 1); }
      if i + 1 < |S[1]| { ItemInRange(w, cap, S, root, 1, i + 1); }
    } else {
      PageCount(w, cap, S, root, k, i);
      var a := ChunkSpan(w, cap, S, root, k, i);
      assert Chunk(S[k][i].key, At(w.m, S[k][i].val))[0] == S[k - 1][a];
      ItemInRange(w, cap, S, root, k - 1, a);
    }
  }

  lemma EntryInRange(w: World, cap: int, S: seq<seq<Entry>>, root: int, keySize: nat, k: nat, i: nat, j: nat)
    requires Whole(w, cap, S, root) && w.nid <= WORD && S != [] && RowsEncodable(S[0], keySize)
    requires 1 <= k < |S| && i < |S[k]| && j < |Entries(At(w.m, S[k][i].val))|
    ensures Encodable(k == 1, keySize, Entries(At(w.m, S[k][i].val))[j])
  {
    hide Whole;
    PageCount(w, cap, S, root, k, i);
    var a := ChunkSpan(w, cap, S, root, k, i);
    var b, x := At(w.m, S[k][i].val), if k == 1 then j else j + 1;
    var c := Chunk(S[k][i].key, b);
    assert c[x] == b.entries[j] == S[k - 1][a + x];
    if k > 1 {
      ItemInRange(w, cap, S, root, k - 1, a + x);
      KeysBelow(w, cap, S, root, Weight(keySize), k - 1, a + x);
      assert c[0].key < c[x].key;
    }
  }

  lemma LevelLow(w: World, k: nat, D: seq<Entry>, U: seq<Entry>, i: nat)
    requires Level(w, k, D, U) && i < |U|
    ensures U[i].key >= LOW
  {
    SegSorted(w, k, U, TOP);
  }
}
