/** The persistent B+ tree. */
module BTree {
  import opened Pages
  import opened Storage
  import opened Pool
  import opened Access
  import opened Levels
  import opened Stack
  import opened NodeOps
  import opened Trees
  import opened Inserting
  import opened Lookup
  import opened Node
  import opened Counting
  import opened Scanning
  import opened Shrinking
  import opened Repairing
  import opened Deleting
  import opened NodeMoves
  import opened Cousins
  import opened LeafRepair
  import opened Truncation

  datatype Outcome = Done | DuplicateKey | KeyNotFound | InvalidRange

  /** Reserves page 0 for the metadata and writes an empty root leaf as page 1. */
  method WriteFirstPages(io: PageAccess)
    requires io.Valid() && io.model == map[] && io.pending == {} && io.pages == {}
    modifies io, io.pm, io.pool
    ensures io.Valid() && io.pending == {} && fresh(io.pages) && io.pm.nextPageID == 2
    ensures io.pool == null ==> io.pm.pageWrites == old(io.pm.pageWrites) + 2
    ensures io.model == map[0 := Meta(1), 1 := Leaf(0, 0, [])]
  {
    hide PageAccess.Valid;
    io.SetNextPageID(1);
    var leaf := io.AllocatePage();
    var meta := io.NewPage(0, Meta(leaf.id));
    io.WritePage(meta);
    io.WritePage(leaf);
  }

  class BPlusTree {
    const io: PageAccess
    const cap: nat
    const unique: bool
    /** The size of a key in bytes. */
    const keySize: nat
    var rootID: int
    var pageSplits: nat
    var pageMerges: nat
    /** The levels of the tree, rows first, and the address of every live page. */
    ghost var S: seq<seq<Entry>>
    ghost var tag: map<int, Tag>

    ghost function W(): World
      reads this, io, io.pm
    {
      World(io.model, tag, io.pm.nextPageID)
    }

    /** The pages can be reached, no live page has unwritten edits, and page 0 names the root. */
    ghost predicate Sound()
      reads this, io, io.pm, io.pool, io.pages
    {
      && io.Valid()
      && (forall id :: id in tag ==> id !in io.pending) && 0 !in io.pending
      && (forall id :: id in io.pending ==> id < io.pm.nextPageID)
      && At(io.model, 0) == Meta(rootID)
    }

    ghost predicate Valid()
      reads this, io, io.pm, io.pool, io.pages
    {
      Sound() && Whole(W(), cap, S, rootID)
    }

    /** The stored pairs, in key order. */
    ghost function Rows(): seq<Entry>
      reads this
    {
      if S == [] then [] else S[0]
    }

    ghost function Contents(): map<int, int>
      reads this
    {
      ToMap(Rows())
    }

    ghost function Height(): int
      reads this
    {
      |S| - 1
    }

    /** Pages in excess of height plus splits minus merges; every operation keeps it. */
    ghost function Excess(): int
      reads this
    {
      Total(S) - Height() - pageSplits + pageMerges
    }

    /** Every page allocated since is the right half of a split, which is counted, or a new root, which is
        not. */
    twostate predicate SplitsCounted()
      reads this, io.pm
    {
      && old(Height()) <= Height() <= old(Height()) + 1
      && pageSplits - old(pageSplits) == (io.pm.nextPageID - old(io.pm.nextPageID)) - (Height() - old(Height()))
    }

    /** The levels above g are what an item entering level g on the way to key leaves. */
    twostate predicate Climbed(key: int, g: nat)
      reads this, io, io.pm
    {
      Climbs(old(io.model), cap, old(S), key, g, old(io.pm.nextPageID), S)
    }

    /** Without a pool, n pages were written to the file. */
    twostate predicate Wrote(n: int)
      reads io, io.pm
    {
      io.pool == null ==> io.pm.pageWrites == old(io.pm.pageWrites) + n
    }

    /** Every page dropped since was merged away, which is counted, or was the root, which is not. */
    twostate predicate MergesCounted()
      reads this
    {
      && Height() <= old(Height()) <= Height() + 1
      && pageMerges - old(pageMerges) == (Total(old(S)) - Total(S)) - (old(Height()) - Height())
    }

    /** Opens a brand-new file: page 0 is reserved for the metadata, page 1 is an empty root leaf. */
    constructor (pm: PageManager, pool: BufferPool?, cap: nat, unique: bool, keySize: nat := 8)
      requires OddCapacity(cap) && pm.nextPageID == 0
      requires pool != null ==> pool.pm == pm && pool.items == map[] && pool.Valid()
      modifies pm, pool
      ensures Valid() && Rows() == [] && Excess() == 0 && Height() == 1
      ensures pageSplits == 0 && pageMerges == 0 && pm.nextPageID == 2
      ensures pool == null ==> pm.pageWrites == old(pm.pageWrites) + 2
      ensures fresh(io) && fresh(io.pages) && io.pm == pm && io.pool == pool
      ensures this.cap == cap && this.unique == unique && this.keySize == keySize
    {
      hide Whole;
      hide PageAccess.Valid;
      hide Total;
      this.io := new PageAccess(pm, pool);
      this.cap, this.unique, this.keySize := cap, unique, keySize;
      pageSplits, pageMerges, rootID := 0, 0, 1;
      S, tag := [[], [Entry(LOW, 1)]], map[1 := Tag(1, LOW)];
      new;
      WriteFirstPages(io);
      FreshTree(W(), cap, S);
      TotalFresh(S);
    }

    /** Opens a file that holds a tree: the root is the one that page 0 names. */
    constructor Reopen(pm: PageManager, pool: BufferPool?, cap: nat, unique: bool, keySize: nat,
                       ghost S: seq<seq<Entry>>, ghost tag: map<int, Tag>)
      requires 0 in pm.disk && pm.disk[0].Meta?
      requires Whole(World(pm.disk, tag, pm.nextPageID), cap, S, pm.disk[0].root)
      requires pool != null ==> pool.pm == pm && pool.items == map[] && pool.Valid()
      modifies pm`pageReads, pm`pageWrites, pm`disk, pool
      ensures Valid() && this.S == S && this.tag == tag && rootID == old(pm.disk)[0].root
      ensures io.model == old(pm.disk)
      ensures fresh(io) && fresh(io.pages) && io.pm == pm && io.pool == pool
      ensures this.cap == cap && this.unique == unique && this.keySize == keySize
      ensures pageSplits == 0 && pageMerges == 0
    {
      hide Whole;
      hide PageAccess.Valid;
      this.io := new PageAccess.Over(pm, pool);
      this.cap, this.unique, this.keySize := cap, unique, keySize;
      pageSplits, pageMerges := 0, 0;
      this.S, this.tag := S, tag;
      rootID := 0;
      new;
      var meta := io.ReadPage(0);
      rootID := meta.body.root;
    }

    // -------------------------------------------------------------- descent

    /** Page p, of height k, was read on the way to key after the pages anc. */
    ghost predicate Walking(k: nat, key: int, p: Page, anc: seq<int>)
      reads this, io, io.pm, p
    {
      && p in io.pages && p.id in io.model && p.body == io.model[p.id]
      && OnPath(W(), S, k, key, p.id, anc)
      && k < |S|
    }

    method StepDown(p: Page, key: int, ghost k: nat, ghost anc: seq<int>) returns (q: Page)
      requires Valid() && LOW < key < TOP && Walking(k, key, p, anc) && p.body.Inner?
      modifies io`pages, io.pm`pageReads, io.pm`pageWrites, io.pm`disk, io.pool
      ensures Valid() && fresh(io.pages - old(io.pages)) && old(io.pages) <= io.pages
      ensures k > 1 && Walking(k - 1, key, q, anc + [p.id])
      ensures io.Accesses() == old(io.Accesses()) + 1 && Wrote(0)
    {
      hide OnPath;
      hide Whole;
      hide PageAccess.Valid;
      WalkDown(W(), cap, S, rootID, key, k, p.id, anc, p.body);
      var child := FindChildPageID(p.body, key);
      q := io.ReadPage(child);
    }

    /** Walks from the root to the leaf for key and returns the internal pages passed. */
    method FindLeafWithPath(key: int) returns (leaf: Page, ancestors: seq<int>)
      requires Valid() && LOW < key < TOP
      modifies io`pages, io.pm`pageReads, io.pm`pageWrites, io.pm`disk, io.pool
      ensures Valid() && fresh(io.pages - old(io.pages)) && old(io.pages) <= io.pages
      ensures Walking(1, key, leaf, ancestors) && leaf.body.Leaf?
      ensures io.Accesses() == old(io.Accesses()) + Height() && Wrote(0)
    {
      hide OnPath;
      hide Whole;
      hide PageAccess.Valid;
      WalkStarts(W(), cap, S, rootID, key);
      ghost var k := |S| - 1;
      leaf := io.ReadPage(rootID);
      ancestors := [];
      while leaf.body.Inner?
        invariant Valid() && fresh(io.pages - old(io.pages)) && old(io.pages) <= io.pages
        invariant k >= 1 && Walking(k, key, leaf, ancestors)
        invariant io.Accesses() == old(io.Accesses()) + |S| - k && Wrote(0)
        decreases k
      {
        ghost var anc := ancestors;
        ancestors := ancestors + [leaf.id];
        leaf := StepDown(leaf, key, k, anc);
        k := k - 1;
      }
      WalkDown(W(), cap, S, rootID, key, k, leaf.id, ancestors, leaf.body);
    }
  
    // -------------------------------------------------------------- search

    /** The RecordID stored under key, if any, after reading one page per level. */
    method Search(key: int) returns (recordID: int, found: bool)
      requires Valid() && LOW < key < TOP
      modifies io`pages, io.pm`pageReads, io.pm`pageWrites, io.pm`disk, io.pool
      ensures Valid() && fresh(io.pages - old(io.pages)) && old(io.pages) <= io.pages
      ensures found <==> key in Contents()
      ensures recordID == if found then Contents()[key] else 0
      ensures io.Accesses() == old(io.Accesses()) + Height() && Wrote(0)
    {
      hide Whole;
      hide OnPath;
      hide PageAccess.Valid;
      hide ToMap;
      var leaf, anc := FindLeafWithPath(key);
      LeafAnswers(W(), cap, S, rootID, key, leaf.id, anc, leaf.body);
      var i, ok := FindKeyIndex(leaf.body.entries, key);
      if !ok {
        return 0, false;
      }
      return leaf.body.entries[i].val, true;
    }

    // -------------------------------------------------------------- insert

    /** Puts e into page p at the place its key belongs. */
    method Place(p: Page, e: Entry)
      requires (p.body.Leaf? || p.body.Inner?) && Sorted(Entries(p.body)) && |Entries(p.body)| < cap
      modifies p
      ensures p.body == Placed(old(p.body), e)
    {
      var i, found := FindKeyIndex(Entries(p.body), e.key);
      p.InsertEntry(i, e, cap);
    }

    /** How many leaves have to be linked anew when a page is split. */
    function Relinks(b: Body): nat {
      if b.Leaf? && b.next != 0 then 1 else 0
    }

    /** Repairs the back link of the leaf that follows nu. */
    method UpdateNextLeafPrevLink(nu: Page)
      requires io.Valid() && nu.body.Leaf?
      requires var n := nu.body.next; n == 0 || (n in io.model && n !in io.pending && io.model[n].Leaf?)
      modifies io, io.pm`pageReads, io.pm`pageWrites, io.pm`disk, io.pool,
               set q | q in io.pages && q.id == nu.body.next
      ensures io.Valid() && io.model == Relink(old(io.model), old(nu.body.next), nu.id)
      ensures io.pending == old(io.pending) && Wrote(Relinks(old(nu.body)))
      ensures fresh(io.pages - old(io.pages)) && old(io.pages) <= io.pages
    {
      hide PageAccess.Valid;
      var n := nu.body.next;
      if n == 0 {
        return;
      }
      var q := io.ReadPage(n);
      io.Touch(q);
      label edit:
      q.body := q.body.(prev := nu.id);
      io.Edited@edit();
      io.WritePage(q);
    }
  
    /** What a split of page p needs: it is full, and the page behind it can be read. */
    ghost predicate Splittable(p: Page)
      reads this, io, io.pm, p
    {
      var nu, n := io.pm.nextPageID, (if p.body.Leaf? then p.body.next else 0);
      && OddCapacity(cap) && p in io.pages
      && p.id in io.model && p.body == io.model[p.id] && (p.body.Leaf? || p.body.Inner?)
      && |Entries(p.body)| == cap
      && p.id != 0 && p.id != nu && nu != 0
      && nu !in io.pending && p.id !in io.pending
      && (n != 0 ==> n != p.id && n != nu && n in io.model && n !in io.pending && io.model[n].Leaf?)
    }

    /** Splits the full page p in memory and repairs the back link behind the new leaf. */
    method Divide(p: Page) returns (nu: Page, sep: int)
      requires io.Valid() && Splittable(p)
      modifies this`pageSplits, io, io.pm, io.pool, io.pages
      ensures io.Valid() && io.pending == old(io.pending) + {p.id, nu.id}
      ensures fresh(nu) && nu in io.pages && nu.id == old(io.pm.nextPageID) && io.pm.nextPageID == nu.id + 1
      ensures p.body == SplitLeft(old(p.body), nu.id) && nu.body == SplitRight(old(p.body), p.id)
      ensures sep == SplitKey(old(p.body))
      ensures io.model == if old(p.body).Leaf? then Relink(old(io.model), old(p.body).next, nu.id) else old(io.model)
      ensures fresh(io.pages - old(io.pages)) && old(io.pages) <= io.pages
      ensures pageSplits == old(pageSplits) + 1 && Wrote(Relinks(old(p.body)))
    {
      hide PageAccess.Valid;
      nu := io.AllocatePage();
      io.Touch(p);
      label edit:
      if p.body.Inner? {
        sep := SplitInner(p, nu, cap);
      } else {
        sep := SplitLeaf(p, nu, cap);
      }
      io.Edited@edit();
      pageSplits := pageSplits + 1;
      if nu.body.Leaf? {
        UpdateNextLeafPrevLink(nu);
      }
    }

    /** Splits the full page p, places e into the half its key selects, and writes both halves. */
    method SplitPage(p: Page, e: Entry) returns (nu: Page, sep: int)
      requires io.Valid() && Splittable(p)
      requires var nu := io.pm.nextPageID;
        Sorted(Entries(At(SplitMap(io.model, p.id, nu), HalfId(p.body, p.id, nu, e))))
      modifies this`pageSplits, io, io.pm, io.pool, io.pages
      ensures io.Valid() && io.pending == old(io.pending)
      ensures nu.id == old(io.pm.nextPageID) && io.pm.nextPageID == nu.id + 1
      ensures sep == SplitKey(old(p.body))
      ensures io.model == PlacedMap(old(io.model), p.id, nu.id, e)
      ensures fresh(io.pages - old(io.pages)) && old(io.pages) <= io.pages
      ensures pageSplits == old(pageSplits) + 1 && Wrote(2 + Relinks(old(p.body)))
    {
      hide PageAccess.Valid;
      hide Placed;
      nu, sep := Divide(p);
      label place:
      if e.key >= sep {
        Place(nu, e);
      } else {
        Place(p, e);
      }
      io.Edited@place();
      io.WritePage(p);
      io.WritePage(nu);
    }
  
    /** Makes page 0 name another root. */
    method WriteMeta(root: int)
      requires io.Valid()
      modifies io, io.pm`pageWrites, io.pm`disk, io.pool
      ensures io.Valid() && io.model == old(io.model)[0 := Meta(root)] && io.pending == old(io.pending) - {0}
      ensures Wrote(1)
      ensures fresh(io.pages - old(io.pages)) && old(io.pages) <= io.pages
    {
      hide PageAccess.Valid;
      var meta := io.NewPage(0, Meta(root));
      io.WritePage(meta);
    }

    /** Writes a new internal root over left and e, and the metadata page that names it. */
    method WriteRoot(left: int, e: Entry) returns (id: int)
      requires io.Valid() && io.pm.nextPageID > 0 && cap > 0
      requires io.pm.nextPageID !in io.pending && 0 !in io.pending
      modifies io, io.pm, io.pool
      ensures io.Valid() && io.pending == old(io.pending) && Wrote(2)
      ensures id == old(io.pm.nextPageID) && io.pm.nextPageID == id + 1
      ensures io.model == old(io.model)[id := Inner(left, [e])][0 := Meta(id)]
      ensures fresh(io.pages - old(io.pages)) && old(io.pages) <= io.pages
    {
      hide PageAccess.Valid;
      var reserved := io.AllocatePage();
      var root := io.NewPage(reserved.id, Inner(left, []));
      label edit:
      root.InsertEntry(0, e, cap);
      assert root.body == Inner(left, [e]);
      io.Edited@edit();
      io.WritePage(root);
      WriteMeta(root.id);
      id := root.id;
    }

    /** Grows a new root above the two halves of the old one. */
    method GrowRoot(left: int, e: Entry, ghost key: int, ghost g: nat, ghost D: seq<Entry>)
      requires Sound() && g > 0 && g + 1 == |S| && left == rootID
      requires Climbing(W(), cap, S, rootID, g, D, key, e)
      modifies this`rootID, this`S, this`tag, io, io.pm, io.pool
      ensures Valid() && Rows() == old(Rows()) && Excess() == old(Excess())
      ensures Climbed(key, g)
      ensures |S| == |old(S)| + 1 && io.pm.nextPageID == old(io.pm.nextPageID) + 1 && Wrote(2)
      ensures fresh(io.pages - old(io.pages)) && old(io.pages) <= io.pages
    {
      hide Whole;
      hide Climbing;
      hide PageAccess.Valid;
      hide Total;
      hide Climbs;
      NextIsFresh(W(), cap, S, rootID, g, D, key, e);
      ghost var w := W();
      var id := WriteRoot(left, e);
      ghost var v := World(w.m[id := Inner(rootID, [e])], w.tag[id := Tag(|S|, LOW)], id + 1);
      ClimbRoots(w, v, cap, S, rootID, g, D, key, e, id);
      ClimbsOut(w.m, cap, S, key, g, w.nid, [Entry(LOW, id)]);
      TotalGrow(S, [Entry(LOW, id)]);
      S, tag := S + [[Entry(LOW, id)]], v.tag;
      MetaAside(v, W(), cap, S, id);
      rootID := id;
    }

    /** Page p was read as the page that has to take e. */
    ghost predicate Taking(p: Page, e: Entry, key: int, g: nat, D: seq<Entry>)
      reads this, io, io.pm, p
    {
      && Climbing(W(), cap, S, rootID, g, D, key, e) && g + 1 < |S|
      && S[g + 1] != [] && S[g + 1][0].key <= key && p.id == Pick(S[g + 1], key).val
      && p in io.pages && p.id in io.model && p.body == io.model[p.id]
      && p.id in tag && Sorted(Entries(p.body)) && (p.body.Leaf? || p.body.Inner?)
    }

    /** The page has room: one write completes the insertion. */
    method Fill(p: Page, e: Entry, ghost key: int, ghost g: nat, ghost D: seq<Entry>)
      requires Sound() && Taking(p, e, key, g, D) && |Entries(p.body)| < cap
      modifies io, io.pm`pageWrites, io.pm`disk, io.pool, p
      ensures Valid() && io.pages == old(io.pages) && Wrote(1)
      ensures io.model == old(io.model)[p.id := Placed(old(p.body), e)]
    {
      hide Whole;
      hide Climbing;
      hide PageAccess.Valid;
      hide Placed;
      ghost var w := W();
      io.Touch(p);
      label edit:
      Place(p, e);
      io.Edited@edit();
      io.WritePage(p);
      PlaceEnds(w, W(), cap, S, rootID, g, D, key, e, p.id);
    }

    /** The page is full: it is split, and the new page is the next item to be wired in. */
    method SplitUp(p: Page, e: Entry, ghost key: int, ghost g: nat, ghost D: seq<Entry>)
      returns (right: int, sep: int)
      requires Sound() && Taking(p, e, key, g, D) && |Entries(p.body)| == cap
      modifies this`pageSplits, this`S, this`tag, io, io.pm, io.pool, io.pages
      ensures Sound() && Excess() == old(Excess()) && Wrote(2 + Relinks(old(p.body)))
      ensures pageSplits == old(pageSplits) + 1 && io.pm.nextPageID == old(io.pm.nextPageID) + 1
      ensures right == old(io.pm.nextPageID) && sep == SplitKey(old(p.body))
      ensures S == old(S)[g + 1 := InsertAt(old(S)[g + 1], Rank(old(S)[g + 1], key), Entry(sep, right))]
      ensures forall k :: g + 1 < k < |S| ==> PageOn(io.model, S, key, k) == PageOn(old(io.model), old(S), key, k)
      ensures Climbing(W(), cap, S, rootID, g + 1, old(S)[g + 1], key, Entry(sep, right))
      ensures fresh(io.pages - old(io.pages)) && old(io.pages) <= io.pages
    {
      hide Whole;
      hide Climbing;
      hide PageAccess.Valid;
      hide Total;
      hide PlacedMap;
      hide SplitKey;
      hide SplitMap;
      ghost var w, it, U := W(), Pick(S[g + 1], key), S[g + 1];
      NextIsFresh(w, cap, S, rootID, g, D, key, e);
      SplitReady(w, cap, S, rootID, g, D, key, e, it, p.body);
      var nu;
      nu, sep := SplitPage(p, e);
      right := nu.id;
      ghost var x := Entry(sep, right);
      SplitPlacedMap(w, g + 1, it, right, e);
      PlaceSplits(w, SplitPlaced(w, g + 1, it, right, e), cap, S, rootID, g, D, key, e, it, x);
      SplitMetaKept(w.m, it.val, right, e);
      hide SplitPlaced;
      forall k | g + 1 < k < |S| ensures PageOn(io.model, S, key, k) == PageOn(w.m, S, key, k) {
        SplitKeepsAbove(w, cap, S, rootID, g, D, key, e, it, k);
      }
      TotalUpdate(S, g + 1, InsertAt(U, Rank(U, key), x));
      tag := tag[right := Tag(g + 1, sep)];
      S := S[g + 1 := InsertAt(U, Rank(U, key), x)];
    }

    /** Reads the page above level g that has to take e. */
    method ReadAbove(id: int, e: Entry, ghost key: int, ghost g: nat, ghost D: seq<Entry>) returns (p: Page)
      requires Sound() && Climbing(W(), cap, S, rootID, g, D, key, e) && g + 1 < |S|
      requires S[g + 1] != [] && S[g + 1][0].key <= key && id == Pick(S[g + 1], key).val
      modifies io`pages, io.pm`pageReads, io.pm`pageWrites, io.pm`disk, io.pool
      ensures Sound() && fresh(io.pages - old(io.pages)) && old(io.pages) <= io.pages
      ensures p.id == id && p in io.pages && Taking(p, e, key, g, D) && |Entries(p.body)| <= cap
      ensures (g > 0 ==> p.body.Inner?) && Wrote(0)
    {
      hide Climbing;
      hide PageAccess.Valid;
      hide Rank;
      PageReady(W(), cap, S, rootID, g, D, key, e);
      p := io.ReadPage(id);
    }

    lemma TakerIsOnTheWay(p: Page, e: Entry, key: int, g: nat, D: seq<Entry>)
      requires Taking(p, e, key, g, D)
      ensures g + 1 < |S| && PageOn(io.model, S, key, g + 1) == p.body
    {
      hide Climbing;
      hide Rank;
    }

    /** Wires a completed split into the pages above it. */
    method PropagateSplit(left: int, right: int, sep: int, ancestors: seq<int>,
                          ghost key: int, ghost g: nat, ghost D: seq<Entry>)
      requires Sound() && g > 0 && Path(S, ancestors, g, key)
      requires Climbing(W(), cap, S, rootID, g, D, key, Entry(sep, right))
      requires D != [] && D[0].key <= key && left == Pick(D, key).val
      modifies this`rootID, this`pageSplits, this`S, this`tag, io, io.pm, io.pool, io.pages
      ensures Valid() && Rows() == old(Rows()) && Excess() == old(Excess()) && SplitsCounted() && Climbed(key, g)
      ensures Wrote(1 + 2 * (pageSplits - old(pageSplits)) + Height() - old(Height()))
      ensures fresh(io.pages - old(io.pages)) && old(io.pages) <= io.pages
      decreases |ancestors|
    {
      hide Valid;
      hide Sound;
      hide Taking;
      hide Climbing;
      hide Total;
      hide Climbs;
      hide PageOn;
      hide InsertAt;
      hide Rank;
      var e := Entry(sep, right);
      if |ancestors| == 0 {
        RootIsLeft(W(), cap, S, rootID, g, D, key, e);
        GrowRoot(left, e, key, g, D);
        return;
      }
      var parent := ReadAbove(ancestors[|ancestors| - 1], e, key, g, D);
      TakerIsOnTheWay(parent, e, key, g, D);
      if |Entries(parent.body)| < cap {
        ClimbsNot(io.model, cap, S, key, g, io.pm.nextPageID);
        Fill(parent, e, key, g, D);
        return;
      }
      ghost var T, m, nid := S, io.model, io.pm.nextPageID;
      var parentRight, parentSep := SplitUp(parent, e, key, g, D);
      PathKept(T, S, ancestors[..|ancestors| - 1], g + 1, key);
      ghost var T', m' := S, io.model;
      PropagateSplit(parent.id, parentRight, parentSep, ancestors[..|ancestors| - 1], key, g + 1, T[g + 1]);
      ClimbsOn(m, m', cap, T, T', key, g, nid, S);
    }

    /** Nothing but the rows and the contents of one page changed. */
    twostate predicate InPlace(id: int, b: Body)
      reads this, io
    {
      && |S| == |old(S)| > 1 && S[1..] == old(S)[1..] && tag == old(tag) && rootID == old(rootID)
      && io.model == old(io.model)[id := b]
    }

    /** Adds the pair (key, recordID), or reports that a unique tree already has key. */
    method Insert(key: int, recordID: int) returns (out: Outcome)
      requires Valid() && LOW < key < TOP
      requires unique || key !in Contents()
      modifies this`rootID, this`pageSplits, this`S, this`tag, io, io.pm, io.pool, io.pages
      ensures Valid() && Excess() == old(Excess()) && pageMerges == old(pageMerges) && SplitsCounted()
      ensures fresh(io.pages - old(io.pages)) && old(io.pages) <= io.pages
      ensures out == if key in old(Contents()) then DuplicateKey else Done
      ensures out == DuplicateKey ==> Rows() == old(Rows()) && Wrote(0)
      ensures out == Done ==>
        && Rows() == InsertAt(old(Rows()), Rank(old(Rows()), key), Entry(key, recordID))
        && Contents() == old(Contents())[key := recordID]
      ensures out == Done ==> Climbed(key, 0)
      ensures out == Done ==>
        && |old(S)| > 1 && old(S)[1] != [] && old(S)[1][0].key <= key
        && var id := Pick(old(S)[1], key).val; var b := At(old(io.model), id);
           && (|Entries(b)| < cap ==> InPlace(id, Placed(b, Entry(key, recordID))))
           && Wrote(1 + 2 * (pageSplits - old(pageSplits)) + Height() - old(Height()) +
                    if |Entries(b)| < cap then 0 else Relinks(b))
    {
      hide Whole;
      hide OnPath;
      hide PageAccess.Valid;
      hide ToMap;
      hide HasKey;
      hide Total;
      hide Climbs;
      hide InsertAt;
      hide Rank;
      hide Placed;
      var leaf, anc := FindLeafWithPath(key);
      LeafAnswers(W(), cap, S, rootID, key, leaf.id, anc, leaf.body);
      LeafOnPath(W(), S, key, leaf.id, anc);
      if unique {
        var i, found := FindKeyIndex(leaf.body.entries, key);
        FoundIsHasKey(leaf.body.entries, key);
        if found {
          return DuplicateKey;
        }
      }
      InsertAbsent(leaf, Entry(key, recordID), anc);
      AbsentKey(old(Rows()), key);
      ToMapInsert(old(Rows()), Rank(old(Rows()), key), Entry(key, recordID));
      return Done;
    }

    method InsertAbsent(leaf: Page, e: Entry, ancestors: seq<int>)
      requires Valid() && LOW < e.key < TOP && Walking(1, e.key, leaf, ancestors)
      requires leaf.body.Leaf? && Sorted(leaf.body.entries) && |leaf.body.entries| <= cap
      requires |S| >= 2 && !HasKey(S[0], e.key)
      modifies this`rootID, this`pageSplits, this`S, this`tag, io, io.pm, io.pool, io.pages
      ensures Valid() && Excess() == old(Excess()) && SplitsCounted() && Climbed(e.key, 0)
      ensures Wrote(1 + 2 * (pageSplits - old(pageSplits)) + Height() - old(Height()) +
                    if |old(leaf.body).entries| < cap then 0 else Relinks(old(leaf.body)))
      ensures fresh(io.pages - old(io.pages)) && old(io.pages) <= io.pages
      ensures Rows() == InsertAt(old(Rows()), Rank(old(Rows()), e.key), e)
      ensures |old(leaf.body).entries| < cap ==> InPlace(leaf.id, Placed(old(leaf.body), e))
    {
      hide Whole;
      hide Climbing;
      hide PageAccess.Valid;
      hide HasKey;
      hide Total;
      hide Climbs;
      hide PageOn;
      hide InsertAt;
      hide Rank;
      ghost var D, q := S[0], Rank(S[0], e.key);
      ghost var key := e.key;
      assert OnPath(W(), S, 1, key, leaf.id, ancestors);
      ClimbStarts(W(), cap, S, rootID, e, D, q);
      TotalUpdate(S, 0, InsertAt(D, q, e));
      PathKept(S, S[0 := InsertAt(D, q, e)], ancestors, 1, key);
      S := S[0 := InsertAt(D, q, e)];
      TakerIsOnTheWay(leaf, e, key, 0, D);
      hide OnPath;
      if |leaf.body.entries| < cap {
        ClimbsNot(io.model, cap, S, key, 0, io.pm.nextPageID);
        ClimbsBesidesRows(io.model, cap, old(S), S[0], key, io.pm.nextPageID, S);
        Fill(leaf, e, key, 0, D);
        return;
      }
      ghost var T, m, nid := S, io.model, io.pm.nextPageID;
      var right, sep := SplitUp(leaf, e, key, 0, D);
      PathKept(T, S, ancestors, 1, key);
      ghost var T', m' := S, io.model;
      PropagateSplit(leaf.id, right, sep, ancestors, key, 1, T[1]);
      ClimbsOn(m, m', cap, T, T', key, 0, nid, S);
      ClimbsBesidesRows(m, cap, old(S), T[0], key, nid, S);
    }

    // -------------------------------------------------------------- scan

    /** Collects the entries of one leaf from idx on, up to the first key above end. */
    method CollectLeaf(es: seq<Entry>, idx: nat, end: int) returns (got: seq<Entry>, past: bool)
      requires idx <= |es|
      ensures idx + |got| <= |es| && got == es[idx..idx + |got|]
      ensures forall e :: e in got ==> e.key <= end
      ensures if past then idx + |got| < |es| && end < es[idx + |got|].key else idx + |got| == |es|
    {
      got := [];
      var i := idx;
      while i < |es|
        invariant idx <= i <= |es| && |got| == i - idx && got == es[idx..i]
        invariant forall e :: e in got ==> e.key <= end
      {
        if es[i].key > end {
          return got, true;
        }
        got := got + [es[i]];
        i := i + 1;
      }
      past := false;
    }

    /** Reads the leaf that follows leaf i. */
    method ReadNextLeaf(leaf: Page, ghost i: nat, ghost a: nat) returns (next: Page)
      requires Valid() && |S| >= 2 && leaf.body.Leaf? && LeafSpan(W(), S, i, a, leaf.id, leaf.body)
      requires leaf.body.next != 0
      modifies io`pages, io.pm`pageReads, io.pm`pageWrites, io.pm`disk, io.pool
      ensures Valid() && fresh(io.pages - old(io.pages)) && old(io.pages) <= io.pages
      ensures Wrote(0)
      ensures i + 1 < |S[1]| && LeafSpan(W(), S, i + 1, a + |leaf.body.entries|, next.id, next.body) && next.body.Leaf?
    {
      hide Whole;
      hide PageAccess.Valid;
      SpanNext(W(), cap, S, rootID, i, a, leaf.id, leaf.body);
      next := io.ReadPage(leaf.body.next);
    }

    /** All pairs with start <= key <= end, in ascending order. */
    method Scan(start: int, end: int) returns (results: seq<Entry>, out: Outcome)
      requires Valid() && LOW < start < TOP
      modifies io`pages, io.pm`pageReads, io.pm`pageWrites, io.pm`disk, io.pool
      ensures Valid() && fresh(io.pages - old(io.pages)) && old(io.pages) <= io.pages
      ensures (out == if start > end then InvalidRange else Done) && Wrote(0)
      ensures start > end ==> results == []
      ensures start <= end ==> results == Range(Rows(), start, end)
    {
      hide Whole;
      hide Sound;
      hide OnPath;
      hide PageAccess.Valid;
      hide LeafSpan;
      hide Rank;
      hide Got;
      hide Range;
      if start > end {
        return [], InvalidRange;
      }
      var leaf, anc := FindLeafWithPath(start);
      ghost var i, a := SpanStarts(W(), cap, S, rootID, start, leaf.id, anc, leaf.body);
      var idx, found := FindKeyIndex(leaf.body.entries, start);
      ghost var lo := a + idx;
      results := [];
      out := Done;
      GotNone(S[0], lo, end);
      while true
        invariant Valid() && fresh(io.pages - old(io.pages)) && old(io.pages) <= io.pages && Wrote(0)
        invariant |S| >= 2 && i >= 0 && a >= 0 && 0 <= idx <= |Entries(leaf.body)| && leaf.body.Leaf?
        invariant LeafSpan(W(), S, i, a, leaf.id, leaf.body)
        invariant lo == Rank(S[0], start - 1) && Got(S[0], lo, a + idx, end, results)
        decreases |S[1]| - i
      {
        var got, past := CollectLeaf(leaf.body.entries, idx, end);
        SpanCollect(W(), S, i, a, leaf.id, leaf.body, lo, idx, end, results, got);
        results := results + got;
        if past {
          RangeEnds(W(), cap, S, rootID, lo, a + idx + |got|, start, end, results);
          return;
        }
        SpanNext(W(), cap, S, rootID, i, a, leaf.id, leaf.body);
        if leaf.body.next == 0 {
          RangeEnds(W(), cap, S, rootID, lo, |S[0]|, start, end, results);
          return;
        }
        ghost var n := |leaf.body.entries|;
        leaf := ReadNextLeaf(leaf, i, a);
        i, a, idx := i + 1, a + n, 0;
      }
    }
  
    // -------------------------------------------------------------- delete: writing the pages

    ghost predicate Three(l: Page, r: Page, p: Page)
      reads this, io, l, r, p
    {
      && l in io.pages && r in io.pages && p in io.pages
      && l.id != r.id && l.id != p.id && r.id != p.id
      && l.id != 0 && r.id != 0 && p.id != 0
    }

    /** Borrows between two neighbouring leaves and re-seats the right one in `parent`. */
    method RedistributeLeaf(l: Page, r: Page, parent: Page, fromLeft: bool)
      requires io.Valid() && Three(l, r, parent) && l.body.Leaf? && r.body.Leaf? && parent.body.Inner?
      requires |parent.body.entries| <= cap
      requires if fromLeft then |l.body.entries| >= 2 && |r.body.entries| < cap
               else |r.body.entries| >= 2 && |l.body.entries| < cap
      modifies io, io.pm`pageWrites, io.pm`disk, io.pool, l, r, parent
      ensures io.Valid() && io.pages == old(io.pages)
      ensures io.pending == old(io.pending) - {l.id, r.id, parent.id}
      ensures var lb, rb, pb := old(l.body), old(r.body), old(parent.body);
              io.model == old(io.model)[l.id := ShiftLeft(lb, rb, 0, fromLeft)]
                                       [r.id := ShiftRight(lb, rb, 0, fromLeft)]
                                       [parent.id := Reseat(pb, ChildIndex(pb, r.id),
                                                            Entry(ShiftKey(lb, rb, fromLeft), r.id), cap)]
    {
      hide PageAccess.Valid;
      hide ShiftLeft;
      hide ShiftRight;
      hide ShiftKey;
      hide Reseat;
      io.Touch(l);
      io.Touch(r);
      io.Touch(parent);
      label edit:
      var sep := RedistributeLeaves(l, r, fromLeft, cap);
      var idx, found := FindChildIndex(parent.body, r.id);
      ReplaceEntry(parent, idx, Entry(sep, r.id), cap);
      io.Edited@edit();
      if fromLeft {
        io.WritePage(r);
        io.WritePage(l);
      } else {
        io.WritePage(l);
        io.WritePage(r);
      }
      io.WritePage(parent);
    }

    /** Borrows between two neighbouring internal pages through their parent. */
    method RedistributeInternalNode(l: Page, r: Page, parent: Page, fromLeft: bool)
      requires io.Valid() && Three(l, r, parent) && l.body.Inner? && r.body.Inner? && parent.body.Inner?
      requires |parent.body.entries| <= cap && ChildIndex(parent.body, r.id) < |parent.body.entries|
      requires if fromLeft then |l.body.entries| >= 1 && |r.body.entries| < cap
               else |r.body.entries| >= 1 && |l.body.entries| < cap
      modifies io, io.pm`pageWrites, io.pm`disk, io.pool, l, r, parent
      ensures io.Valid() && io.pages == old(io.pages)
      ensures io.pending == old(io.pending) - {l.id, r.id, parent.id}
      ensures var lb, rb, pb := old(l.body), old(r.body), old(parent.body);
              var idx := ChildIndex(pb, r.id);
              io.model == old(io.model)[l.id := MovedLeft(lb, rb, pb.entries[idx].key, fromLeft, keySize)]
                                       [r.id := MovedRight(lb, rb, pb.entries[idx].key, fromLeft, keySize)]
                                       [parent.id := Reseat(pb, idx, Entry(ShiftKey(lb, rb, fromLeft), r.id), cap)]
    {
      hide PageAccess.Valid;
      hide MovedLeft;
      hide MovedRight;
      hide ShiftKey;
      hide Reseat;
      io.Touch(l);
      io.Touch(r);
      io.Touch(parent);
      label edit:
      var idx, found := FindChildIndex(parent.body, r.id);
      var oldSep := parent.body.entries[idx].key;
      var sep := RedistributeInners(l, r, fromLeft, oldSep, cap, keySize);
      ReplaceEntry(parent, idx, Entry(sep, r.id), cap);
      io.Edited@edit();
      if fromLeft {
        io.WritePage(r);
        io.WritePage(l);
      } else {
        io.WritePage(l);
        io.WritePage(r);
      }
      io.WritePage(parent);
    }

    /** Merges leaf r into its left neighbour l, unlinks it from the chain and drops it from
        `parent`, which is not written yet. */
    method MergeLeafPages(l: Page, r: Page, parent: Page)
      requires io.Valid() && Three(l, r, parent) && l.body.Leaf? && r.body.Leaf? && parent.body.Inner?
      requires |l.body.entries| + |r.body.entries| <= cap
      requires r.body.next != 0 ==>
        && r.body.next !in {l.id, r.id, parent.id}
        && r.body.next in io.model && r.body.next !in io.pending && io.model[r.body.next].Leaf?
      modifies this`pageMerges, io, io.pm`pageReads, io.pm`pageWrites, io.pm`disk, io.pool, io.pages
      ensures io.Valid() && fresh(io.pages - old(io.pages)) && old(io.pages) <= io.pages
      ensures pageMerges == old(pageMerges) + 1
      ensures io.pending == old(io.pending) + {r.id, parent.id} - {l.id}
      ensures io.model == Relink(old(io.model), old(r.body).next, l.id)[l.id := MergedLeaf(old(l.body), old(r.body))]
      ensures parent.body == DropEntry(old(parent.body), ChildIndex(old(parent.body), r.id))
    {
      hide PageAccess.Valid;
      io.Touch(l);
      io.Touch(r);
      io.Touch(parent);
      label edit:
      MergeLeaf(l, r, cap);
      io.Edited@edit();
      pageMerges := pageMerges + 1;
      UpdateNextLeafPrevLink(l);
      var idx, found := FindChildIndex(parent.body, r.id);
      label drop:
      parent.DeleteEntry(idx);
      io.Edited@drop();
      io.WritePage(l);
    }

    /** Merges internal page r into its left sibling l, with their separator from `parent`, which is
        not written yet. */
    method MergeInternalPages(l: Page, r: Page, parent: Page)
      requires io.Valid() && Three(l, r, parent) && l.body.Inner? && r.body.Inner? && parent.body.Inner?
      requires |l.body.entries| + 1 + |r.body.entries| <= cap
      requires ChildIndex(parent.body, r.id) < |parent.body.entries|
      modifies this`pageMerges, io, io.pm`pageWrites, io.pm`disk, io.pool, l, parent
      ensures io.Valid() && io.pages == old(io.pages)
      ensures pageMerges == old(pageMerges) + 1
      ensures io.pending == old(io.pending) + {r.id, parent.id} - {l.id}
      ensures var idx := ChildIndex(old(parent.body), r.id);
              && io.model == old(io.model)[l.id := if keySize == 8 then
                   MergedInner(old(l.body), r.body, old(parent.body).entries[idx].key) else Garbled]
              && parent.body == DropEntry(old(parent.body), idx)
    {
      hide PageAccess.Valid;
      var idx, found := FindChildIndex(parent.body, r.id);
      var sep := parent.body.entries[idx].key;
      io.Touch(l);
      io.Touch(r);
      io.Touch(parent);
      label edit:
      MergeInner(l, r, sep, cap, keySize);
      pageMerges := pageMerges + 1;
      parent.DeleteEntry(idx);
      io.Edited@edit();
      io.WritePage(l);
    }
  
    // -------------------------------------------------------------- delete: repairing internal pages

    /** The pages as they will be once p is written. */
    ghost function WithPage(p: Page): World
      reads this, io, io.pm, p
    {
      World(io.model[p.id := p.body], tag, io.pm.nextPageID)
    }

    /** p is the only live page with unwritten edits. */
    ghost predicate Loose(p: Page)
      reads this, io, io.pm, io.pool, io.pages, p
    {
      && io.Valid() && p in io.pages && p.id in tag && p.id != 0
      && (forall id :: id in tag && id in io.pending ==> id == p.id)
      && 0 !in io.pending && (forall id :: id in io.pending ==> id < io.pm.nextPageID)
      && At(io.model, 0) == Meta(rootID)
    }

    /** p, of height k, on the way to key below the pages anc, may hold too few entries; all else is
        in order. */
    ghost predicate Sagging(p: Page, k: nat, key: int, anc: seq<int>)
      reads this, io, io.pm, io.pool, io.pages, p
    {
      && Loose(p) && Nearly(WithPage(p), cap, S, rootID, p.id)
      && 1 <= k < |S| && LOW < key < TOP
      && S[k] != [] && S[k][0].key <= key && p.id == Pick(S[k], key).val
      && tag[p.id].level == k && KindOf(k, p.body)
      && Path(S, anc, k, key)
    }

    /** Borrowing between siblings l and r, one of which is the short page p, mends the tree. */
    method BorrowInternal(p: Page, l: Page, r: Page, parent: Page, fromLeft: bool,
                          ghost k: nat, ghost key: int, ghost anc: seq<int>, ghost j: nat, ghost t: nat)
      requires keySize == 8 && Sagging(p, k, key, anc) && 1 < k < |S| - 1 && Three(l, r, parent)
      requires j + 1 < |S[k]| && l.id == S[k][j].val && r.id == S[k][j + 1].val
      requires p == if fromLeft then r else l
      requires l.body == At(WithPage(p).m, l.id) && r.body == At(WithPage(p).m, r.id)
      requires parent.body == At(WithPage(p).m, parent.id) && |Entries(parent.body)| <= cap
      requires Seated(WithPage(p), S, k, key, j, t, parent.id, parent.body)
      requires |Entries(p.body)| == cap / 2 - 1 && OddCapacity(cap)
      requires |Entries(if fromLeft then l.body else r.body)| > cap / 2
      modifies this`S, this`tag, io, io.pm`pageWrites, io.pm`disk, io.pool, l, r, parent
      ensures Valid() && io.pages == old(io.pages) && |S| == |old(S)|
      ensures forall i :: 0 <= i < |S| && i != k ==> S[i] == old(S)[i]
      ensures Excess() == old(Excess()) && tag.Keys <= old(tag.Keys)
      ensures var es := Entries(old(if fromLeft then l.body else r.body));
              Entries(At(io.model, if fromLeft then l.id else r.id)) == if fromLeft then es[..|es| - 1] else es[1..]
    {
      hide Whole;
      hide Nearly;
      hide PageAccess.Valid;
      hide Total;
      hide ShiftKey;
      hide ShiftLeft;
      hide ShiftRight;
      hide Reseat;
      hide Siblings;
      hide ChildIndex;
      hide Path;
      ghost var w, x, y := WithPage(p), S[k][j], S[k][j + 1];
      ghost var sep := ShiftKey(l.body, r.body, fromLeft);
      LenderLoses(l.body, r.body, y.key, fromLeft);
      BorrowDone(w, cap, S, rootID, k, key, j, t, parent.id, parent.body, fromLeft, p.id);
      RedistributeInternalNode(l, r, parent, fromLeft);
      assert io.model == Borrowed(w, k, x, y, fromLeft, parent.id, t, cap).m;
      NoteBorrow(k, j + 1, sep);
    }

    /** The ghost side of a borrowing: page x of level k has a new lower bound. */
    ghost method NoteBorrow(k: nat, x: nat, low: int)
      requires 1 <= k < |S| && x < |S[k]| && S[k][x].val in tag
      requires io.Valid() && (forall id :: id in tag ==> id !in io.pending) && 0 !in io.pending
      requires (forall id :: id in io.pending ==> id < io.pm.nextPageID) && At(io.model, 0) == Meta(rootID)
      requires Whole(World(io.model, tag[S[k][x].val := Tag(k, low)], io.pm.nextPageID), cap,
                     S[k := S[k][x := Entry(low, S[k][x].val)]], rootID)
      modifies this`S, this`tag
      ensures Valid() && Excess() == old(Excess()) && tag.Keys == old(tag.Keys)
      ensures S == old(S)[k := old(S)[k][x := Entry(low, old(S)[k][x].val)]]
    {
      hide Whole;
      hide PageAccess.Valid;
      hide Total;
      var id := S[k][x].val;
      TotalUpdate(S, k, S[k][x := Entry(low, id)]);
      tag := tag[id := Tag(k, low)];
      S := S[k := S[k][x := Entry(low, id)]];
    }

    /** The short page took an entry from its left neighbour if that could spare one, else from the right one
        if that could, else was merged into the left one if there is one, and else took over the right one.
        A neighbour 0 is none. */
    twostate predicate ByPreference(id: int, left: int, right: int)
      reads this, io
    {
      var l, r := Entries(At(old(io.model), left)), Entries(At(old(io.model), right));
      if left != 0 && |l| > cap / 2 then Entries(At(io.model, left)) == l[..|l| - 1]
      else if right != 0 && |r| > cap / 2 then Entries(At(io.model, right)) == r[1..]
      else (if left != 0 then id else right) !in tag
    }

    /** The ghost side of a merge of two pages of height k under one parent: the pages written so far,
        with the parent that is still in memory, are a tree but for that parent. */
    ghost method NoteMerge(p: Page, l: int, r: int, parent: Page, w: World, k: nat, anc: seq<int>,
                           key: int, j: nat, t: nat)
      requires 1 <= k < |S| - 1 && j + 1 < |S[k]| && l == S[k][j].val && r == S[k][j + 1].val
      requires Nearly(w, cap, S, rootID, p.id) && (p.id == l || p.id == r) && w.tag == tag
      requires Seated(w, S, k, key, j, t, parent.id, At(w.m, parent.id)) && LOW < key < TOP
      requires S[k + 1] != [] && S[k + 1][0].key <= key && parent.id == Pick(S[k + 1], key).val
      requires Here(w, k + 1, Pick(S[k + 1], key))
      requires |Entries(At(w.m, l))| + |Entries(At(w.m, r))| == 2 * (cap / 2) - 1
      requires anc != [] && Path(S, anc, k, key)
      requires parent.body == DropEntry(At(w.m, parent.id), t - 1) && parent.body.Inner?
      requires w.nid == io.pm.nextPageID
      requires forall id :: id in tag && id != r && id != parent.id ==>
        At(io.model, id) == At(MergeMap(w.m, S[k][j], S[k][j + 1]), id)
      requires io.Valid() && parent in io.pages && parent.id in io.pending
      requires forall id :: id in tag && id in io.pending ==> id == r || id == parent.id
      requires 0 !in io.pending && (forall id :: id in io.pending ==> id < io.pm.nextPageID)
      requires At(io.model, 0) == Meta(rootID)
      modifies this`S, this`tag
      ensures Sagging(parent, k + 1, key, anc[..|anc| - 1])
      ensures |S| == |old(S)| && Total(S) == Total(old(S)) - 1 && tag == old(tag) - {r}
      ensures forall i :: 0 <= i < |S| && i != k ==> S[i] == old(S)[i]
    {
      hide Nearly;
      hide PageAccess.Valid;
      hide Total;
      hide MergeMap;
      hide Siblings;
      hide ChildIndex;
      hide Rank;
      ghost var x, y := S[k][j], S[k][j + 1];
      ghost var T := S[k := RemoveAt(S[k], j + 1)];
      JoinDone(w, cap, S, rootID, k, key, j, t, parent.id, At(w.m, parent.id), p.id, parent.id);
      TotalUpdate(S, k, RemoveAt(S[k], j + 1));
      PathKept(S, T, anc[..|anc| - 1], k + 1, key);
      hide Path;
      tag := tag - {y.val};
      S := T;
      NearlySame(Joined(w, x, y, parent.id, t), WithPage(parent), cap, S, rootID, parent.id);
    }

    /** Merging siblings l and r, one of which is the short page p, leaves their parent to be
        finished. */
    method JoinInternal(p: Page, l: Page, r: Page, parent: Page,
                        ghost k: nat, ghost key: int, ghost anc: seq<int>, ghost j: nat, ghost t: nat)
      requires keySize == 8 && Sagging(p, k, key, anc) && 1 < k < |S| - 1 && Three(l, r, parent)
      requires j + 1 < |S[k]| && l.id == S[k][j].val && r.id == S[k][j + 1].val
      requires p == l || p == r
      requires l.body == At(WithPage(p).m, l.id) && r.body == At(WithPage(p).m, r.id)
      requires parent.body == At(WithPage(p).m, parent.id) && |Entries(parent.body)| <= cap
      requires S[k + 1] != [] && S[k + 1][0].key <= key && parent.id == Pick(S[k + 1], key).val
      requires Here(WithPage(p), k + 1, Pick(S[k + 1], key))
      requires Seated(WithPage(p), S, k, key, j, t, parent.id, parent.body)
      requires |Entries(l.body)| + |Entries(r.body)| == 2 * (cap / 2) - 1 && OddCapacity(cap)
      requires anc != []
      modifies this`S, this`tag, this`pageMerges, io, io.pm`pageWrites, io.pm`disk, io.pool, l, parent
      ensures Sagging(parent, k + 1, key, anc[..|anc| - 1]) && io.pages == old(io.pages) && |S| == |old(S)|
      ensures forall i :: 0 <= i < |S| && i != k ==> S[i] == old(S)[i]
      ensures |Entries(parent.body)| == |Entries(old(parent.body))| - 1
      ensures Excess() == old(Excess()) && tag == old(tag) - {r.id}
    {
      hide Nearly;
      hide PageAccess.Valid;
      hide Total;
      hide MergedInner;
      hide ChildIndex;
      hide Seated;
      hide Rank;
      hide Path;
      hide MergeMap;
      ghost var w, m, y := WithPage(p), io.model, S[k][j + 1];
      SeatedIndex(w, S, k, key, j, t, parent.id, parent.body);
      SeatedPages(w, S, k, key, j, t, parent.id, parent.body);
      ghost var n := m[l.id := MergedInner(l.body, r.body, y.key)];
      forall id | id != r.id ensures At(n, id) == At(MergeMap(w.m, S[k][j], y), id) {
        MergedInnerAgree(m, w.m, S[k][j], y, p.id, id);
      }
      MergeInternalPages(l, r, parent);
      assert io.model == n;
      NoteMerge(p, l.id, r.id, parent, w, k, anc, key, j, t);
    }

    /** Reads a page by a link that may be null. */
    method ReadLink(id: int) returns (p: Page?)
      requires io.Valid() && (id != 0 ==> id in io.model && id !in io.pending)
      modifies io`pages, io.pm`pageReads, io.pm`pageWrites, io.pm`disk, io.pool
      ensures io.Valid() && fresh(io.pages - old(io.pages)) && old(io.pages) <= io.pages
      ensures p == null <==> id == 0
      ensures p != null ==> p in io.pages && p.id == id && p.body == io.model[id]
    {
      hide PageAccess.Valid;
      if id == 0 {
        return null;
      }
      p := io.ReadPage(id);
    }

    /** An internal root without entries gives way to its only child; another root is just written. */
    method FixRoot(node: Page, ghost key: int)
      requires |S| > 2 && Sagging(node, |S| - 1, key, []) && |Entries(node.body)| <= cap
      modifies this`S, this`tag, this`rootID, io, io.pm`pageWrites, io.pm`disk, io.pool
      ensures Valid() && fresh(io.pages - old(io.pages)) && old(io.pages) <= io.pages
      ensures S == old(S) || S == old(S)[..|old(S)| - 1]
      ensures Excess() == old(Excess()) && tag.Keys <= old(tag.Keys)
    {
      hide Whole;
      hide Nearly;
      hide PageAccess.Valid;
      hide Path;
      hide Total;
      hide Rank;
      ghost var w := WithPage(node);
      RootIs(w, cap, S, rootID, node.id, key);
      if |Entries(node.body)| == 0 {
        ShrinkRoot(node, w);
      } else {
        io.WritePage(node);
        PageFilled(w, cap, S, rootID, |S| - 1, node.id);
      }
    }

    /** The only child of a root without entries becomes the root. */
    method ShrinkRoot(node: Page, ghost w: World)
      requires |S| > 2 && Loose(node) && node.id == rootID && node.body.Inner? && |node.body.entries| == 0
      requires w == WithPage(node) && Nearly(w, cap, S, rootID, rootID) && |S[|S| - 1]| == 1
      modifies this`S, this`tag, this`rootID, io, io.pm`pageWrites, io.pm`disk, io.pool
      ensures Valid() && fresh(io.pages - old(io.pages)) && old(io.pages) <= io.pages
      ensures S == old(S)[..|old(S)| - 1] && Excess() == old(Excess()) && tag.Keys <= old(tag.Keys)
    {
      hide Whole;
      hide Nearly;
      hide PageAccess.Valid;
      hide Total;
      NearlyBasics(w, cap, S, rootID, rootID);
      var child := node.body.leftmost;
      WriteMeta(child);
      RootReplaced(w, World(io.model, tag - {node.id}, w.nid), cap, S, rootID);
      TotalShrink(S);
      rootID := child;
      tag := tag - {node.id};
      S := S[..|S| - 1];
    }

    /** Reads the parent of node, and finds where node sits under it. */
    method ReadParent(node: Page, ancestors: seq<int>, ghost k: nat, ghost key: int)
      returns (parent: Page, ghost i: nat, ghost o: nat)
      requires Sagging(node, k, key, ancestors) && 1 <= k < |S| - 1 && ancestors != []
      modifies io`pages, io.pm`pageReads, io.pm`pageWrites, io.pm`disk, io.pool
      ensures Under(node, parent, k, key, ancestors, i, o) && parent.body == At(io.model, ancestors[|ancestors| - 1])
      ensures fresh(io.pages - old(io.pages)) && old(io.pages) <= io.pages
    {
      hide Nearly;
      hide PageAccess.Valid;
      hide Relatives;
      hide Rank;
      ghost var pid, b;
      i, o, pid, b := FindFamily(WithPage(node), cap, S, rootID, node.id, k, key);
      KinIds(WithPage(node), cap, S, rootID, node.id, k, key, i, o, pid, b);
      parent := io.ReadPage(ancestors[|ancestors| - 1]);
    }

    /** The root is the page without ancestors. */
    lemma RootHasNoAncestors(node: Page, k: nat, key: int, anc: seq<int>)
      requires Sagging(node, k, key, anc)
      ensures 1 <= k < |S| && (anc == [] <==> k == |S| - 1)
    {
      hide Nearly;
      hide PageAccess.Valid;
      hide Rank;
    }

    /** A reader finds no tree. */
    ghost predicate Ruined()
      reads this, io, io.pm, io.pool, io.pages
    {
      io.Valid() && NoTree(io.Seen(), io.pm.nextPageID, cap, rootID)
    }

    /** Repairs an internal page that is one entry short, or a root without entries: it borrows from
        a sibling, or merges with one and passes the problem up.  With keys wider than eight bytes
        only the root survives that. */
    method FixInternalUnderflow(node: Page, ancestors: seq<int>, ghost k: nat, ghost key: int)
      requires k > 1 && Sagging(node, k, key, ancestors) && |Entries(node.body)| <= cap
      requires k < |S| - 1 ==> |Entries(node.body)| == cap / 2 - 1
      modifies this`rootID, this`pageMerges, this`S, this`tag, io,
               io.pm`pageReads, io.pm`pageWrites, io.pm`disk, io.pool, io.pages
      ensures fresh(io.pages - old(io.pages)) && old(io.pages) <= io.pages
      ensures keySize == 8 || |ancestors| == 0 ==>
        && Valid() && Excess() == old(Excess()) && tag.Keys <= old(tag.Keys)
        && 2 <= |S| <= |old(S)| <= |S| + 1 && S[0] == old(S)[0] && S[1] == old(S)[1]
      ensures keySize != 8 && |ancestors| != 0 ==> Ruined()
      ensures keySize == 8 && |ancestors| != 0 ==>
        var p := At(old(io.model), ancestors[|ancestors| - 1]);
        p.Inner? && ByPreference(node.id, LeftSibling(p, node.id), RightSibling(p, node.id))
      decreases |ancestors|, 1
    {
      hide Valid;
      hide Excess;
      hide Sagging;
      hide Under;
      hide Frayed;
      hide Ruined;
      RootHasNoAncestors(node, k, key, ancestors);
      if |ancestors| == 0 {
        FixRoot(node, key);
        return;
      }
      if keySize != 8 {
        StartsFraying(node, k, key, ancestors);
        FixWide(node, ancestors, WithPage(node), S, k, key);
        return;
      }
      ghost var i, o;
      var grandparent;
      grandparent, i, o := ReadParent(node, ancestors, k, key);
      FixBetween(node, grandparent, ancestors, k, key, i, o);
    }

    /** node, item i of level k, sits at offset o under the page read as gp. */
    ghost predicate Under(node: Page, gp: Page, k: nat, key: int, anc: seq<int>, i: nat, o: nat)
      reads this, io, io.pm, io.pool, io.pages, node, gp
    {
      && Sagging(node, k, key, anc) && 1 <= k < |S| - 1 && anc != []
      && gp in io.pages && gp.body == At(WithPage(node).m, gp.id)
      && Family(WithPage(node), cap, S, k, key, i, o, gp.id, gp.body)
      && Relatives(WithPage(node), S, k, key, i, o, gp.id, gp.body)
    }

    /** q is the sibling of node that the parent lists at item j. */
    ghost predicate Beside(node: Page, q: Page, k: nat, j: nat)
      reads this, io, io.pm, node, q
      requires k < |S| && j < |S[k]|
    {
      q in io.pages && q.id == S[k][j].val && q.body == At(WithPage(node).m, q.id)
    }

    /** Page id, another than node, can be read. */
    ghost predicate Readable(node: Page, id: int)
      reads this, io
    {
      id != 0 && id in io.model && id !in io.pending && id != node.id
    }

    /** The siblings of node, as its parent names them. */
    lemma SiblingFacts(node: Page, gp: Page, k: nat, key: int, anc: seq<int>, i: nat, o: nat)
      requires Under(node, gp, k, key, anc, i, o)
      ensures gp.body.Inner? && |gp.body.entries| >= 1 && k < |S| && i < |S[k]| && o <= i && o <= |gp.body.entries|
      ensures LeftSibling(gp.body, node.id) == if o > 0 then S[k][i - 1].val else 0
      ensures o < |gp.body.entries| ==> i + 1 < |S[k]|
      ensures RightSibling(gp.body, node.id) == if o < |gp.body.entries| then S[k][i + 1].val else 0
      ensures o > 0 ==> Readable(node, S[k][i - 1].val)
      ensures o < |gp.body.entries| ==> Readable(node, S[k][i + 1].val)
    {
      hide Nearly;
      hide PageAccess.Valid;
      hide Relatives;
      hide Seated;
      hide LeftSibling;
      hide RightSibling;
      hide Path;
      hide Rank;
      ghost var w := WithPage(node);
      KinIds(w, cap, S, rootID, node.id, k, key, i, o, gp.id, gp.body);
      if o > 0 { LeftKin(w, cap, S, rootID, node.id, k, key, i, o, gp.id, gp.body); }
      if o < |gp.body.entries| { RightKin(w, cap, S, rootID, node.id, k, key, i, o, gp.id, gp.body); }
    }

    /** Reads a sibling of node, if there is one. */
    method ReadSibling(id: int, node: Page, gp: Page, ghost k: nat, ghost key: int, ghost anc: seq<int>,
                       ghost i: nat, ghost o: nat) returns (p: Page?)
      requires Under(node, gp, k, key, anc, i, o) && (id != 0 ==> Readable(node, id))
      modifies io`pages, io.pm`pageReads, io.pm`pageWrites, io.pm`disk, io.pool
      ensures Under(node, gp, k, key, anc, i, o) && fresh(io.pages - old(io.pages)) && old(io.pages) <= io.pages
      ensures p == null <==> id == 0
      ensures p != null ==> p in io.pages && p.id == id && p.body == At(WithPage(node).m, id)
    {
      hide Nearly;
      hide PageAccess.Valid;
      hide Relatives;
      hide Family;
      hide Path;
      hide Rank;
      p := ReadLink(id);
    }

    method FixBetween(node: Page, grandparent: Page, ancestors: seq<int>, ghost k: nat, ghost key: int,
                      ghost i: nat, ghost o: nat)
      requires keySize == 8 && k > 1 && Under(node, grandparent, k, key, ancestors, i, o)
      requires |Entries(node.body)| == cap / 2 - 1
      modifies this`rootID, this`pageMerges, this`S, this`tag, io,
               io.pm`pageReads, io.pm`pageWrites, io.pm`disk, io.pool, io.pages
      ensures Valid() && fresh(io.pages - old(io.pages)) && old(io.pages) <= io.pages
      ensures 2 <= |S| <= |old(S)| <= |S| + 1 && S[0] == old(S)[0] && S[1] == old(S)[1]
      ensures Excess() == old(Excess()) && tag.Keys <= old(tag.Keys)
      ensures var p := old(grandparent.body);
              p.Inner? && ByPreference(node.id, LeftSibling(p, node.id), RightSibling(p, node.id))
      decreases |ancestors|, 0
    {
      hide Valid;
      hide Under;
      hide Excess;
      hide LeftSibling;
      hide RightSibling;
      SiblingFacts(node, grandparent, k, key, ancestors, i, o);
      var leftID, rightID := FindSiblingPageIDs(grandparent.body, node.id);
      var left := ReadSibling(leftID, node, grandparent, k, key, ancestors, i, o);
      var right := ReadSibling(rightID, node, grandparent, k, key, ancestors, i, o);
      if left != null && |Entries(left.body)| > cap / 2 {
        RedistributeInternalNodeFromLeft(node, left, grandparent, ancestors, k, key, i, o);
      } else if right != null && |Entries(right.body)| > cap / 2 {
        RedistributeInternalNodeFromRight(node, right, grandparent, ancestors, k, key, i, o);
      } else if left != null {
        MergeInternalWithLeft(node, left, grandparent, ancestors, k, key, i, o);
      } else {
        MergeInternalWithRight(node, right, grandparent, ancestors, k, key, i, o);
      }
    }

    method RedistributeInternalNodeFromLeft(node: Page, left: Page, grandparent: Page, ghost ancestors: seq<int>,
                                            ghost k: nat, ghost key: int, ghost i: nat, ghost o: nat)
      requires keySize == 8 && k > 1 && Under(node, grandparent, k, key, ancestors, i, o)
      requires |Entries(node.body)| == cap / 2 - 1
      requires o > 0 && Beside(node, left, k, i - 1) && |Entries(left.body)| > cap / 2
      modifies this`rootID, this`pageMerges, this`S, this`tag, io,
               io.pm`pageReads, io.pm`pageWrites, io.pm`disk, io.pool, io.pages
      ensures Valid() && fresh(io.pages - old(io.pages)) && old(io.pages) <= io.pages
      ensures 2 <= |S| <= |old(S)| <= |S| + 1 && S[0] == old(S)[0] && S[1] == old(S)[1]
      ensures Excess() == old(Excess()) && tag.Keys <= old(tag.Keys)
      ensures var es := Entries(old(left.body)); Entries(At(io.model, left.id)) == es[..|es| - 1]
    {
      hide Whole;
      hide Nearly;
      hide PageAccess.Valid;
      hide Total;
      hide Relatives;
      hide Seated;
      hide LeftSibling;
      hide RightSibling;
      hide Path;
      LeftKin(WithPage(node), cap, S, rootID, node.id, k, key, i, o, grandparent.id, grandparent.body);
      KinIds(WithPage(node), cap, S, rootID, node.id, k, key, i, o, grandparent.id, grandparent.body);
      BorrowInternal(node, left, node, grandparent, true, k, key, ancestors, i - 1, o);
    }

    method RedistributeInternalNodeFromRight(node: Page, right: Page, grandparent: Page, ghost ancestors: seq<int>,
                                             ghost k: nat, ghost key: int, ghost i: nat, ghost o: nat)
      requires keySize == 8 && k > 1 && Under(node, grandparent, k, key, ancestors, i, o)
      requires |Entries(node.body)| == cap / 2 - 1
      requires o < |Entries(grandparent.body)| && i + 1 < |S[k]| && Beside(node, right, k, i + 1)
      requires |Entries(right.body)| > cap / 2
      modifies this`rootID, this`pageMerges, this`S, this`tag, io,
               io.pm`pageReads, io.pm`pageWrites, io.pm`disk, io.pool, io.pages
      ensures Valid() && fresh(io.pages - old(io.pages)) && old(io.pages) <= io.pages
      ensures 2 <= |S| <= |old(S)| <= |S| + 1 && S[0] == old(S)[0] && S[1] == old(S)[1]
      ensures Excess() == old(Excess()) && tag.Keys <= old(tag.Keys)
      ensures Entries(At(io.model, right.id)) == Entries(old(right.body))[1..]
    {
      hide Whole;
      hide Nearly;
      hide PageAccess.Valid;
      hide Total;
      hide Relatives;
      hide Seated;
      hide LeftSibling;
      hide RightSibling;
      hide Path;
      RightKin(WithPage(node), cap, S, rootID, node.id, k, key, i, o, grandparent.id, grandparent.body);
      KinIds(WithPage(node), cap, S, rootID, node.id, k, key, i, o, grandparent.id, grandparent.body);
      BorrowInternal(node, node, right, grandparent, false, k, key, ancestors, i, o + 1);
    }

    method MergeInternalWithLeft(node: Page, left: Page, grandparent: Page, ancestors: seq<int>,
                                 ghost k: nat, ghost key: int, ghost i: nat, ghost o: nat)
      requires keySize == 8 && k > 1 && Under(node, grandparent, k, key, ancestors, i, o)
      requires |Entries(node.body)| == cap / 2 - 1
      requires o > 0 && Beside(node, left, k, i - 1) && |Entries(left.body)| <= cap / 2
      modifies this`rootID, this`pageMerges, this`S, this`tag, io,
               io.pm`pageReads, io.pm`pageWrites, io.pm`disk, io.pool, io.pages
      ensures Valid() && fresh(io.pages - old(io.pages)) && old(io.pages) <= io.pages
      ensures 2 <= |S| <= |old(S)| <= |S| + 1 && S[0] == old(S)[0] && S[1] == old(S)[1]
      ensures Excess() == old(Excess()) && tag.Keys <= old(tag.Keys)
      ensures node.id !in tag
      decreases |ancestors| - 1, 3
    {
      hide Whole;
      hide Nearly;
      hide PageAccess.Valid;
      hide Total;
      hide Relatives;
      hide Seated;
      hide LeftSibling;
      hide RightSibling;
      hide Path;
      LeftKin(WithPage(node), cap, S, rootID, node.id, k, key, i, o, grandparent.id, grandparent.body);
      KinIds(WithPage(node), cap, S, rootID, node.id, k, key, i, o, grandparent.id, grandparent.body);
      JoinInternal(node, left, node, grandparent, k, key, ancestors, i - 1, o);
      FinishInternalMerge(grandparent, ancestors, true, k + 1, key);
    }

    method MergeInternalWithRight(node: Page, right: Page, grandparent: Page, ancestors: seq<int>,
                                  ghost k: nat, ghost key: int, ghost i: nat, ghost o: nat)
      requires keySize == 8 && k > 1 && Under(node, grandparent, k, key, ancestors, i, o)
      requires |Entries(node.body)| == cap / 2 - 1
      requires o < |Entries(grandparent.body)| && i + 1 < |S[k]| && Beside(node, right, k, i + 1)
      requires |Entries(right.body)| <= cap / 2
      modifies this`rootID, this`pageMerges, this`S, this`tag, io,
               io.pm`pageReads, io.pm`pageWrites, io.pm`disk, io.pool, io.pages
      ensures Valid() && fresh(io.pages - old(io.pages)) && old(io.pages) <= io.pages
      ensures 2 <= |S| <= |old(S)| <= |S| + 1 && S[0] == old(S)[0] && S[1] == old(S)[1]
      ensures Excess() == old(Excess()) && tag.Keys <= old(tag.Keys)
      ensures right.id !in tag
      decreases |ancestors| - 1, 3
    {
      hide Whole;
      hide Nearly;
      hide PageAccess.Valid;
      hide Total;
      hide Relatives;
      hide Seated;
      hide LeftSibling;
      hide RightSibling;
      hide Path;
      RightKin(WithPage(node), cap, S, rootID, node.id, k, key, i, o, grandparent.id, grandparent.body);
      KinIds(WithPage(node), cap, S, rootID, node.id, k, key, i, o, grandparent.id, grandparent.body);
      JoinInternal(node, node, right, grandparent, k, key, ancestors, i, o + 1);
      FinishInternalMerge(grandparent, ancestors, true, k + 1, key);
    }

    /** After a merge below it, a page that still holds enough is written; otherwise it is repaired.
        `near` says that only this page may stand in the way of a whole tree. */
    method FinishInternalMerge(grandparent: Page, ancestors: seq<int>, ghost near: bool, ghost k: nat, ghost key: int)
      requires near ==> k > 1 && ancestors != [] && Sagging(grandparent, k, key, ancestors[..|ancestors| - 1])
      requires near ==> |Entries(grandparent.body)| <= cap
      requires near && k < |S| - 1 ==> |Entries(grandparent.body)| >= cap / 2 - 1
      requires !near ==>
        io.Valid() && grandparent in io.pages && |ancestors| > 1 && |Entries(grandparent.body)| >= cap / 2
      modifies this`rootID, this`pageMerges, this`S, this`tag, io,
               io.pm`pageReads, io.pm`pageWrites, io.pm`disk, io.pool, io.pages
      ensures fresh(io.pages - old(io.pages)) && old(io.pages) <= io.pages
      ensures near && (keySize == 8 || |ancestors| == 1 || |Entries(old(grandparent.body))| >= cap / 2) ==>
        && Valid() && Excess() == old(Excess()) && tag.Keys <= old(tag.Keys)
        && 2 <= |S| <= |old(S)| <= |S| + 1 && S[0] == old(S)[0] && S[1] == old(S)[1]
      ensures near && keySize != 8 && |ancestors| != 1 && |Entries(old(grandparent.body))| < cap / 2 ==> Ruined()
      ensures !near ==> io.Valid() && rootID == old(rootID) && io.pm.nextPageID == old(io.pm.nextPageID)
      ensures !near ==> io.model == old(io.model)[grandparent.id := old(grandparent.body)]
      ensures !near ==> io.pending == old(io.pending) - {grandparent.id}
      decreases |ancestors| - 1, 2
    {
      hide Whole;
      hide Nearly;
      hide PageAccess.Valid;
      hide Total;
      hide Ruined;
      var isRoot := |ancestors| == 1;
      ghost var w := WithPage(grandparent);
      assert near ==> (isRoot <==> k == |S| - 1);
      if (!isRoot && |Entries(grandparent.body)| >= cap / 2) || (isRoot && |Entries(grandparent.body)| > 0) {
        io.WritePage(grandparent);
        if near { PageFilled(w, cap, S, rootID, k, grandparent.id); }
        return;
      }
      FixInternalUnderflow(grandparent, ancestors[..|ancestors| - 1], k, key);
    }

    // -------------------------------------------------------------- delete: wide keys

    /** Pages of height k and more are those of a tree w that is whole but for p; below them anything
        may be. */
    ghost predicate Frayed(p: Page, w: World, T: seq<seq<Entry>>, k: nat, key: int, anc: seq<int>)
      reads this, io, io.pm, io.pool, io.pages, p
    {
      && io.Valid() && p in io.pages && Nearly(w, cap, T, rootID, p.id)
      && 1 < k < |T| && LOW < key < TOP && OddCapacity(cap)
      && T[k] != [] && T[k][0].key <= key && p.id == Pick(T[k], key).val
      && p.id in w.tag && w.tag[p.id].level == k && p.body == At(w.m, p.id) && p.body.Inner?
      && Path(T, anc, k, key)
      && Intact(w, k, p.id)
    }

    ghost predicate Intact(w: World, k: nat, except: int)
      reads io
    {
      forall id :: id in w.tag && id in w.m && w.tag[id].level >= k && id != except ==>
        id in io.model && io.model[id] == w.m[id] && id !in io.pending
    }

    lemma StartsFraying(p: Page, k: nat, key: int, anc: seq<int>)
      requires Sagging(p, k, key, anc) && k > 1
      ensures Frayed(p, WithPage(p), S, k, key, anc)
    {
      hide Nearly;
      hide PageAccess.Valid;
      hide Path;
      hide Rank;
      NearlyBasics(WithPage(p), cap, S, rootID, p.id);
    }

    /** The intact pages are seen as they are. */
    lemma SeenAbove(w: World, k: nat, except: int)
      requires io.Valid() && Intact(w, k + 1, except)
      requires except in w.tag && except in w.m && w.tag[except].level > k ==> At(io.Seen(), except) == w.m[except]
      ensures SameAbove(w, io.Seen(), k)
    {
      hide PageAccess.Valid;
      hide PageAccess.Seen;
      io.SeenIsModel();
    }

    /** node, item i of level k, sits at offset o under the page read as gp. */
    ghost predicate Torn(node: Page, gp: Page, w: World, T: seq<seq<Entry>>, k: nat, key: int, anc: seq<int>,
                         i: nat, o: nat)
      reads this, io, io.pm, io.pool, io.pages, node, gp
    {
      && keySize != 8 && Frayed(node, w, T, k, key, anc) && anc != [] && k < |T| - 1
      && gp in io.pages && gp.body == At(w.m, gp.id)
      && Family(w, cap, T, k, key, i, o, gp.id, gp.body) && Relatives(w, T, k, key, i, o, gp.id, gp.body)
      && node.id == T[k][i].val && |Entries(node.body)| == cap / 2 - 1
    }

    /** q is the page of item j, read as it is. */
    ghost predicate Beneath(q: Page, w: World, T: seq<seq<Entry>>, k: nat, j: nat)
      reads io, q
    {
      k < |T| && j < |T[k]| && q in io.pages && q.id == T[k][j].val && q.body == At(w.m, q.id)
    }

    /** The siblings of node can be read; they are internal pages apart from node and gp. */
    lemma WideSiblings(node: Page, gp: Page, w: World, T: seq<seq<Entry>>, k: nat, key: int, anc: seq<int>,
                       i: nat, o: nat)
      requires Torn(node, gp, w, T, k, key, anc, i, o)
      ensures gp.body.Inner? && 1 <= |gp.body.entries| <= cap && gp.id > 0 && node.id > 0 && gp.id != node.id
      ensures k < |T| && i < |T[k]| && o <= i && o <= |gp.body.entries| && OddCapacity(cap)
      ensures k + 1 < |T| - 1 ==> |gp.body.entries| >= cap / 2
      ensures LeftSibling(gp.body, node.id) == if o > 0 then T[k][i - 1].val else 0
      ensures o < |gp.body.entries| ==> i + 1 < |T[k]|
      ensures RightSibling(gp.body, node.id) == if o < |gp.body.entries| then T[k][i + 1].val else 0
      ensures o > 0 ==> Aside(w, k, T[k][i - 1].val, node.id, gp.id)
      ensures o < |gp.body.entries| ==> Aside(w, k, T[k][i + 1].val, node.id, gp.id)
      ensures o == 0 ==> o < |gp.body.entries|
      ensures node in io.pages && gp in io.pages && gp.id in w.tag && w.tag[gp.id].level == k + 1
      ensures node.body.Inner? && |node.body.entries| == cap / 2 - 1
      ensures node.id == T[k][i].val && node.body == At(w.m, node.id)
    {
      hide Nearly;
      hide PageAccess.Valid;
      hide Relatives;
      hide Seated;
      hide LeftSibling;
      hide RightSibling;
      hide Path;
      hide Rank;
      KinIds(w, cap, T, rootID, node.id, k, key, i, o, gp.id, gp.body);
      if o > 0 { LeftKin(w, cap, T, rootID, node.id, k, key, i, o, gp.id, gp.body); }
      if o < |gp.body.entries| { RightKin(w, cap, T, rootID, node.id, k, key, i, o, gp.id, gp.body); }
    }

    ghost predicate Aside(w: World, k: nat, id: int, node: int, parent: int)
      reads this, io
    {
      && id > 0 && id != node && id != parent && id in w.tag && w.tag[id].level == k && id in w.m && w.m[id].Inner?
      && id in io.model && io.model[id] == w.m[id] && id !in io.pending
      && cap / 2 <= |w.m[id].entries| <= cap
    }

    /** Reads a sibling of node, if there is one. */
    method ReadWide(id: int, node: Page, gp: Page, ghost w: World, ghost T: seq<seq<Entry>>, ghost k: nat,
                    ghost key: int, ghost anc: seq<int>, ghost i: nat, ghost o: nat) returns (p: Page?)
      requires Torn(node, gp, w, T, k, key, anc, i, o) && (id != 0 ==> Aside(w, k, id, node.id, gp.id))
      modifies io`pages, io.pm`pageReads, io.pm`pageWrites, io.pm`disk, io.pool
      ensures Torn(node, gp, w, T, k, key, anc, i, o) && fresh(io.pages - old(io.pages)) && old(io.pages) <= io.pages
      ensures p == null <==> id == 0
      ensures p != null ==> p in io.pages && p.id == id && p.body == At(w.m, id)
    {
      hide Nearly;
      hide PageAccess.Valid;
      hide Relatives;
      hide Family;
      hide Path;
      hide Rank;
      p := ReadLink(id);
    }

    /** Finds the parent of a page with wide keys. */
    method ReadWideParent(node: Page, ancestors: seq<int>, ghost w: World, ghost T: seq<seq<Entry>>, ghost k: nat,
                          ghost key: int)
      returns (gp: Page, ghost i: nat, ghost o: nat)
      requires keySize != 8 && Frayed(node, w, T, k, key, ancestors) && ancestors != []
      requires |Entries(node.body)| == cap / 2 - 1
      modifies io`pages, io.pm`pageReads, io.pm`pageWrites, io.pm`disk, io.pool
      ensures Torn(node, gp, w, T, k, key, ancestors, i, o)
      ensures fresh(io.pages - old(io.pages)) && old(io.pages) <= io.pages
    {
      hide Nearly;
      hide PageAccess.Valid;
      hide Relatives;
      hide Rank;
      ghost var pid, b;
      i, o, pid, b := FindFamily(w, cap, T, rootID, node.id, k, key);
      KinIds(w, cap, T, rootID, node.id, k, key, i, o, pid, b);
      gp := io.ReadPage(ancestors[|ancestors| - 1]);
    }

    /** Borrowing garbles the short page, to which its parent still leads. */
    method TearByBorrow(node: Page, l: Page, r: Page, gp: Page, fromLeft: bool, ghost w: World,
                        ghost T: seq<seq<Entry>>, ghost k: nat, ghost key: int, ghost anc: seq<int>,
                        ghost i: nat, ghost o: nat)
      requires Torn(node, gp, w, T, k, key, anc, i, o) && node == if fromLeft then r else l
      requires if fromLeft then o > 0 && Beneath(l, w, T, k, i - 1)
               else o < |Entries(gp.body)| && Beneath(r, w, T, k, i + 1)
      requires |Entries(if fromLeft then l.body else r.body)| > cap / 2
      modifies io, io.pm`pageWrites, io.pm`disk, io.pool, l, r, gp
      ensures io.pages == old(io.pages) && Ruined()
    {
      hide Nearly;
      hide PageAccess.Valid;
      hide Relatives;
      hide Family;
      hide Path;
      hide Rank;
      hide NoTree;
      hide ShiftKey;
      hide Reseat;
      hide ChildIndex;
      hide PageAccess.Seen;
      ghost var j := if fromLeft then i - 1 else i;
      WideSiblings(node, gp, w, T, k, key, anc, i, o);
      BorrowLeads(w, cap, T, rootID, node.id, k, key, i, o, gp.id, gp.body, fromLeft, j);
      WideSeat(w, cap, T, k, key, i, o, gp.id, gp.body, fromLeft, j);
      RedistributeInternalNode(l, r, gp, fromLeft);
      io.SeenIsModel();
      SeenAbove(w, k + 1, gp.id);
      BadChild(w, io.Seen(), io.pm.nextPageID, cap, T, rootID, node.id, key, k + 1);
    }

    /** Merging garbles the page that takes the entries of both, to which the parent leads from now on. */
    method TearByMerge(node: Page, l: Page, r: Page, gp: Page, ghost fromLeft: bool, ghost w: World,
                       ghost T: seq<seq<Entry>>, ghost k: nat, ghost key: int, ghost anc: seq<int>,
                       ghost i: nat, ghost o: nat)
      returns (ghost w': World, ghost T': seq<seq<Entry>>)
      requires Torn(node, gp, w, T, k, key, anc, i, o) && node == if fromLeft then r else l
      requires if fromLeft then o > 0 && Beneath(l, w, T, k, i - 1)
               else o < |Entries(gp.body)| && Beneath(r, w, T, k, i + 1)
      requires |Entries(if fromLeft then l.body else r.body)| <= cap / 2
      modifies this`pageMerges, io, io.pm`pageWrites, io.pm`disk, io.pool, l, gp
      ensures io.pages == old(io.pages) && Frayed(gp, w', T', k + 1, key, anc[..|anc| - 1])
      ensures |T'| == |T| && |Entries(gp.body)| == |Entries(old(gp.body))| - 1 && LeadsAstray(gp, key)
    {
      hide Nearly;
      hide PageAccess.Valid;
      hide Relatives;
      hide Family;
      hide Rank;
      hide ChildIndex;
      hide Seated;
      hide MergeMap;
      ghost var j := if fromLeft then i - 1 else i;
      WideSiblings(node, gp, w, T, k, key, anc, i, o);
      MergeLeads(w, cap, T, rootID, node.id, k, key, i, o, gp.id, gp.body, fromLeft, j);
      WideSeat(w, cap, T, k, key, i, o, gp.id, gp.body, fromLeft, j);
      w', T' := WideJoin(w, cap, T, rootID, node.id, k, key, i, o, gp.id, gp.body, fromLeft, j, anc);
      MergeInternalPages(l, r, gp);
    }

    /** The child that p leads to is garbled. */
    ghost predicate LeadsAstray(p: Page, key: int)
      reads io, p
    {
      && p.body.Inner?
      && var c := ChildFor(p.body, key);
         c != p.id && c != 0 && c in io.model && io.model[c].Garbled? && c !in io.pending
    }

    /** Internal repair with wide keys: the repaired page is garbled, and so may be pages above it. */
    method FixWide(node: Page, ancestors: seq<int>, ghost w: World, ghost T: seq<seq<Entry>>, ghost k: nat,
                   ghost key: int)
      requires keySize != 8 && Frayed(node, w, T, k, key, ancestors) && ancestors != []
      requires |Entries(node.body)| == cap / 2 - 1
      modifies this`rootID, this`pageMerges, this`S, this`tag, io,
               io.pm`pageReads, io.pm`pageWrites, io.pm`disk, io.pool, io.pages
      ensures fresh(io.pages - old(io.pages)) && old(io.pages) <= io.pages && Ruined()
      decreases |ancestors|, 0
    {
      hide Frayed;
      hide Torn;
      hide Ruined;
      hide LeftSibling;
      hide RightSibling;
      ghost var i, o, w', T';
      var grandparent;
      grandparent, i, o := ReadWideParent(node, ancestors, w, T, k, key);
      WideSiblings(node, grandparent, w, T, k, key, ancestors, i, o);
      var leftID, rightID := FindSiblingPageIDs(grandparent.body, node.id);
      var left := ReadWide(leftID, node, grandparent, w, T, k, key, ancestors, i, o);
      var right := ReadWide(rightID, node, grandparent, w, T, k, key, ancestors, i, o);
      if left != null && |Entries(left.body)| > cap / 2 {
        TearByBorrow(node, left, node, grandparent, true, w, T, k, key, ancestors, i, o);
      } else if right != null && |Entries(right.body)| > cap / 2 {
        TearByBorrow(node, node, right, grandparent, false, w, T, k, key, ancestors, i, o);
      } else if left != null {
        w', T' := TearByMerge(node, left, node, grandparent, true, w, T, k, key, ancestors, i, o);
        FinishWide(grandparent, ancestors, w', T', k + 1, key);
      } else {
        w', T' := TearByMerge(node, node, right, grandparent, false, w, T, k, key, ancestors, i, o);
        FinishWide(grandparent, ancestors, w', T', k + 1, key);
      }
    }

    /** Finishing after such a merge does not help: the walk for key still ends at a garbled page. */
    method FinishWide(grandparent: Page, ancestors: seq<int>, ghost w: World, ghost T: seq<seq<Entry>>, ghost k: nat,
                      ghost key: int)
      requires keySize != 8 && ancestors != [] && Frayed(grandparent, w, T, k, key, ancestors[..|ancestors| - 1])
      requires |Entries(grandparent.body)| <= cap && LeadsAstray(grandparent, key)
      requires k < |T| - 1 ==> |Entries(grandparent.body)| >= cap / 2 - 1
      modifies this`rootID, this`pageMerges, this`S, this`tag, io,
               io.pm`pageReads, io.pm`pageWrites, io.pm`disk, io.pool, io.pages
      ensures fresh(io.pages - old(io.pages)) && old(io.pages) <= io.pages && Ruined()
      decreases |ancestors| - 1, 1
    {
      hide Nearly;
      hide PageAccess.Valid;
      hide PageAccess.Seen;
      hide NoTree;
      hide Rank;
      var isRoot := |ancestors| == 1;
      assert isRoot <==> k == |T| - 1;
      if (!isRoot && |Entries(grandparent.body)| >= cap / 2) || (isRoot && |Entries(grandparent.body)| > 0) {
        io.WritePage(grandparent);
        io.SeenIsModel();
        SeenAbove(w, k, grandparent.id);
        BadChild(w, io.Seen(), io.pm.nextPageID, cap, T, rootID, grandparent.id, key, k);
        return;
      }
      if isRoot {
        LoneChildLeads(grandparent.body, key);
        WriteMeta(grandparent.body.leftmost);
        rootID := grandparent.body.leftmost;
        io.SeenIsModel();
        BadRoot(io.Seen(), io.pm.nextPageID, cap, rootID);
        return;
      }
      FixWide(grandparent, ancestors[..|ancestors| - 1], w, T, k, key);
    }

    // -------------------------------------------------------------- delete: repairing leaves

    /** The outcome of a leaf repair: a whole tree with the same rows, or none. */
    twostate predicate Repaired(good: bool)
      reads this, io, io.pm, io.pool, io.pages
    {
      && (good ==> Valid() && Rows() == old(Rows()) && Excess() == old(Excess()) && MergesCounted())
      && (!good ==> Ruined())
    }

    /** leaf, item i of the leaves and one entry short, sits at offset o under the page read as parent. */
    ghost predicate Lacking(leaf: Page, parent: Page, key: int, anc: seq<int>, i: nat, o: nat)
      reads this, io, io.pm, io.pool, io.pages, leaf, parent
    {
      && Sagging(leaf, 1, key, anc) && anc != [] && parent in io.pages
      && ShortLeaf(WithPage(leaf), cap, S, rootID, key, i, o, parent.id, parent.body)
      && leaf.id == S[1][i].val && parent.body == io.model[parent.id]
    }

    /** Borrowing from the neighbour on the given side. */
    method BorrowLeaf(leaf: Page, l: Page, r: Page, parent: Page, fromLeft: bool, ghost anc: seq<int>,
                      ghost key: int, ghost i: nat, ghost o: nat)
      requires Lacking(leaf, parent, key, anc, i, o) && leaf == if fromLeft then r else l
      requires (if fromLeft then i > 0 else i + 1 < |S[1]|)
      requires Beside(leaf, if fromLeft then l else r, 1, if fromLeft then i - 1 else i + 1)
      requires |Entries(if fromLeft then l.body else r.body)| > cap / 2
      modifies this`S, this`tag, io, io.pm`pageWrites, io.pm`disk, io.pool, l, r, parent
      ensures io.pages == old(io.pages) && Repaired(IsKin(old(parent.body), o, fromLeft))
      ensures var es := Entries(old(if fromLeft then l.body else r.body));
              Entries(At(io.model, if fromLeft then l.id else r.id)) == if fromLeft then es[..|es| - 1] else es[1..]
    {
      hide Whole;
      hide Nearly;
      hide PageAccess.Valid;
      hide Total;
      hide ShortLeaf;
      hide Path;
      hide NoTree;
      hide PageAccess.Seen;
      hide ChildIndex;
      hide IsKin;
      hide ShiftKey;
      hide ShiftLeft;
      hide ShiftRight;
      hide Reseat;
      ghost var w, m, kin := WithPage(leaf), io.model, IsKin(parent.body, o, fromLeft);
      ghost var j := if fromLeft then i - 1 else i;
      BorrowReady(w, cap, S, rootID, key, i, o, parent.id, parent.body);
      assert leaf.body == At(w.m, leaf.id);
      ghost var n := BorrowedPages(w, cap, S, j, parent.id, parent.body, fromLeft, m);
      ghost var T: seq<seq<Entry>> := BorrowedLevels(w, S, j, fromLeft);
      ghost var b := parent.body;
      assert Sibling(w, cap, S[1][if fromLeft then i - 1 else i + 1].val, leaf.id, parent.id);
      if kin { KinBorrows(w, m, cap, S, rootID, key, i, o, parent.id, parent.body, fromLeft, j); }
      LenderLoses(l.body, r.body, 0, fromLeft);
      RedistributeLeaf(l, r, parent, fromLeft);
      assert io.model == n;
      if kin {
        NoteBorrow(1, j + 1, T[1][j + 1].key);
      } else {
        LeafLevels(w, cap, S, rootID, leaf.id, j);
        SpoilsParent(w, key, i, o, parent.id, b, fromLeft, j);
      }
    }

    /** After a leaf borrowed from a cousin there is no tree. */
    lemma SpoilsParent(w: World, key: int, i: nat, o: nat, parent: int, b: Body, fromLeft: bool, j: nat)
      requires io.Valid() && ShortLeaf(w, cap, S, rootID, key, i, o, parent, b) && !IsKin(b, o, fromLeft) && b.Inner?
      requires j == (if fromLeft then i - 1 else i) && j + 1 < |S[1]|
      requires |Entries(At(w.m, if fromLeft then S[1][j].val else S[1][j + 1].val))| > cap / 2
      requires Intact(w, 3, parent) && parent in w.tag && w.tag[parent].level == 2
      requires parent in io.model && parent !in io.pending
      requires var x, y := S[1][j].val, S[1][j + 1].val;
               io.model[parent] ==
               Reseat(b, ChildIndex(b, y), Entry(ShiftKey(At(w.m, x), At(w.m, y), fromLeft), y), cap)
      ensures Ruined()
    {
      hide PageAccess.Valid;
      hide PageAccess.Seen;
      hide NoTree;
      hide ShortLeaf;
      hide IsKin;
      hide ShiftKey;
      hide Reseat;
      hide ChildIndex;
      io.SeenIsModel();
      SeenAbove(w, 2, parent);
      CousinBorrows(w, io.Seen(), io.pm.nextPageID, cap, S, rootID, key, i, o, parent, b, fromLeft, j);
    }

    method RedistributeLeafFromLeft(leaf: Page, left: Page, parent: Page, ghost anc: seq<int>,
                                    ghost key: int, ghost i: nat, ghost o: nat)
      requires Lacking(leaf, parent, key, anc, i, o)
      requires i > 0 && Beside(leaf, left, 1, i - 1) && |Entries(left.body)| > cap / 2
      modifies this`S, this`tag, io, io.pm`pageWrites, io.pm`disk, io.pool, leaf, left, parent
      ensures io.pages == old(io.pages) && Repaired(IsKin(old(parent.body), o, true))
      ensures var es := Entries(old(left.body)); Entries(At(io.model, left.id)) == es[..|es| - 1]
    {
      BorrowLeaf(leaf, left, leaf, parent, true, anc, key, i, o);
    }

    method RedistributeLeafFromRight(leaf: Page, right: Page, parent: Page, ghost anc: seq<int>,
                                     ghost key: int, ghost i: nat, ghost o: nat)
      requires Lacking(leaf, parent, key, anc, i, o)
      requires i + 1 < |S[1]| && Beside(leaf, right, 1, i + 1) && |Entries(right.body)| > cap / 2
      modifies this`S, this`tag, io, io.pm`pageWrites, io.pm`disk, io.pool, leaf, right, parent
      ensures io.pages == old(io.pages) && Repaired(IsKin(old(parent.body), o, false))
      ensures Entries(At(io.model, right.id)) == Entries(old(right.body))[1..]
    {
      BorrowLeaf(leaf, leaf, right, parent, false, anc, key, i, o);
    }

    /** Merges leaf r into l.  Under one parent this leaves the parent to be finished; the parent of a
        leaf merged into its cousin stays as it was. */
    method JoinLeaves(leaf: Page, l: Page, r: Page, parent: Page, ghost fromLeft: bool, ghost anc: seq<int>,
                      ghost key: int, ghost i: nat, ghost o: nat)
      requires Lacking(leaf, parent, key, anc, i, o) && leaf == if fromLeft then r else l
      requires (if fromLeft then i > 0 else i + 1 < |S[1]| && IsKin(parent.body, o, false))
      requires Beside(leaf, if fromLeft then l else r, 1, if fromLeft then i - 1 else i + 1)
      requires |Entries(if fromLeft then l.body else r.body)| <= cap / 2
      modifies this`pageMerges, this`S, this`tag, io, io.pm`pageReads, io.pm`pageWrites, io.pm`disk, io.pool, io.pages
      ensures fresh(io.pages - old(io.pages)) && old(io.pages) <= io.pages
      ensures IsKin(old(parent.body), o, fromLeft) ==>
        && Sagging(parent, 2, key, anc[..|anc| - 1]) && |S| == |old(S)| && S[0] == old(S)[0]
        && |Entries(parent.body)| == |Entries(old(parent.body))| - 1 && Excess() == old(Excess())
        && tag == old(tag) - {r.id}
      ensures !IsKin(old(parent.body), o, fromLeft) ==>
        && io.Valid() && parent.body == old(parent.body) && S == old(S) && io.pm.nextPageID == old(io.pm.nextPageID)
        && io.model == MergedPages(old(io.model), old(l.body), old(r.body), l.id) && rootID == old(rootID)
        && io.pending == old(io.pending) + {r.id, parent.id} - {l.id}
    {
      hide Whole;
      hide Nearly;
      hide PageAccess.Valid;
      hide Total;
      hide ShortLeaf;
      hide Path;
      hide MergedLeaf;
      hide ChildIndex;
      hide Seated;
      hide Rank;
      hide MergeMap;
      hide Relink;
      ghost var w, kin := WithPage(leaf), IsKin(parent.body, o, fromLeft);
      ghost var j := if fromLeft then i - 1 else i;
      ghost var t := if fromLeft then o else o + 1;
      BorrowReady(w, cap, S, rootID, key, i, o, parent.id, parent.body);
      JoinReady(leaf, l, r, parent, fromLeft, anc, key, i, o);
      if kin {
        MergeKin(w, cap, S, rootID, key, i, o, parent.id, parent.body, fromLeft, j, t);
      } else {
        CousinParent(w, cap, S, rootID, key, i, parent.id, parent.body);
      }
      ghost var n := MergedPages(io.model, l.body, r.body, l.id);
      MergeLeafPages(l, r, parent);
      assert io.model == n;
      if kin {
        NoteMerge(leaf, l.id, r.id, parent, w, 1, anc, key, j, t);
      }
    }

    /** The two leaves fit in one page, and the leaf behind them can be relinked. */
    lemma JoinReady(leaf: Page, l: Page, r: Page, parent: Page, fromLeft: bool, anc: seq<int>, key: int,
                    i: nat, o: nat)
      requires Lacking(leaf, parent, key, anc, i, o) && leaf == if fromLeft then r else l
      requires (if fromLeft then i > 0 else i + 1 < |S[1]|)
      requires Beside(leaf, if fromLeft then l else r, 1, if fromLeft then i - 1 else i + 1)
      requires |Entries(if fromLeft then l.body else r.body)| <= cap / 2
      ensures Three(l, r, parent) && l.body.Leaf? && r.body.Leaf? && parent.body.Inner?
      ensures |l.body.entries| + |r.body.entries| == 2 * (cap / 2) - 1 <= cap
      ensures r.body.next != 0 ==>
        && r.body.next !in {l.id, r.id, parent.id}
        && r.body.next in io.model && r.body.next !in io.pending && io.model[r.body.next].Leaf?
      ensures var j, w := if fromLeft then i - 1 else i, WithPage(leaf);
              && j + 1 < |S[1]| && l.id == S[1][j].val && r.id == S[1][j + 1].val
              && l.body == At(w.m, l.id) && r.body == At(w.m, r.id) && l.id in tag && r.id in tag
      ensures var j, w, n := if fromLeft then i - 1 else i, WithPage(leaf), MergedPages(io.model, l.body, r.body, l.id);
              && (forall id :: id != r.id ==> At(n, id) == At(MergeMap(w.m, S[1][j], S[1][j + 1]), id))
              && At(n, 0) == At(io.model, 0)
    {
      hide Nearly;
      hide PageAccess.Valid;
      hide ShortLeaf;
      hide Path;
      hide MergedLeaf;
      hide Rank;
      hide MergeMap;
      hide Relink;
      var w, m, j := WithPage(leaf), io.model, if fromLeft then i - 1 else i;
      BorrowReady(w, cap, S, rootID, key, i, o, parent.id, parent.body);
      assert leaf.body == At(w.m, leaf.id);
      assert Sibling(w, cap, S[1][if fromLeft then i - 1 else i + 1].val, leaf.id, parent.id);
      MergeReady(w, cap, S, rootID, key, i, o, parent.id, parent.body, fromLeft, j);
      forall id | id != r.id
        ensures At(MergedPages(m, l.body, r.body, l.id), id) == At(MergeMap(w.m, S[1][j], S[1][j + 1]), id)
      {
        MergedAgree(m, w.m, S[1][j], S[1][j + 1], leaf.id, id);
      }
      MergedMeta(m, l.body, r.body, l.id);
    }

    /** A merge under one parent goes well unless the parent underflows in turn and keys are wide. */
    ghost predicate Absorbs(parent: Body, ancestors: seq<int>) {
      keySize == 8 || |ancestors| == 1 || |Entries(parent)| > cap / 2
    }

    method MergeLeafWithLeft(leaf: Page, left: Page, parent: Page, ancestors: seq<int>,
                             ghost key: int, ghost i: nat, ghost o: nat)
      requires Lacking(leaf, parent, key, ancestors, i, o)
      requires i > 0 && Beside(leaf, left, 1, i - 1) && |Entries(left.body)| <= cap / 2
      modifies this`rootID, this`pageMerges, this`S, this`tag, io,
               io.pm`pageReads, io.pm`pageWrites, io.pm`disk, io.pool, io.pages
      ensures fresh(io.pages - old(io.pages)) && old(io.pages) <= io.pages
      ensures Repaired(IsKin(old(parent.body), o, true) && Absorbs(old(parent.body), ancestors))
      ensures IsKin(old(parent.body), o, true) && Absorbs(old(parent.body), ancestors) ==> leaf.id !in tag
    {
      hide Whole;
      hide Nearly;
      hide PageAccess.Valid;
      hide PageAccess.Seen;
      hide NoTree;
      hide Total;
      hide ShortLeaf;
      hide MergedLeaf;
      hide Rank;
      ghost var w, m, b, kin := WithPage(leaf), io.model, parent.body, IsKin(parent.body, o, true);
      BorrowReady(w, cap, S, rootID, key, i, o, parent.id, parent.body);
      assert leaf.body == At(w.m, leaf.id);
      if kin {
        MergeKin(w, cap, S, rootID, key, i, o, parent.id, parent.body, true, i - 1, o);
      } else {
        MergeReady(w, cap, S, rootID, key, i, o, parent.id, parent.body, true, i - 1);
        CousinParent(w, cap, S, rootID, key, i, parent.id, parent.body);
        PathLength(S, ancestors, 1, key);
      }
      JoinLeaves(leaf, left, leaf, parent, true, ancestors, key, i, o);
      hide IsKin;
      hide Path;
      FinishInternalMerge(parent, ancestors, kin, 2, key);
      if !kin {
        CousinPages(w, m, io.model, cap, old(S), rootID, key, i, o, parent.id, b);
        io.SeenIsModel();
        assert SameAbove(w, io.Seen(), 1);
        CousinMerges(w, io.Seen(), io.pm.nextPageID, cap, old(S), rootID, key, i, o, parent.id, b);
      }
    }

    method MergeLeafWithRight(leaf: Page, right: Page, parent: Page, ancestors: seq<int>,
                              ghost key: int, ghost i: nat, ghost o: nat)
      requires Lacking(leaf, parent, key, ancestors, i, o) && IsKin(parent.body, o, false)
      requires i + 1 < |S[1]| && Beside(leaf, right, 1, i + 1) && |Entries(right.body)| <= cap / 2
      modifies this`rootID, this`pageMerges, this`S, this`tag, io,
               io.pm`pageReads, io.pm`pageWrites, io.pm`disk, io.pool, io.pages
      ensures fresh(io.pages - old(io.pages)) && old(io.pages) <= io.pages
      ensures Repaired(Absorbs(old(parent.body), ancestors))
      ensures Absorbs(old(parent.body), ancestors) ==> right.id !in tag
    {
      hide Whole;
      hide Nearly;
      hide PageAccess.Valid;
      hide NoTree;
      hide Total;
      hide ShortLeaf;
      hide IsKin;
      hide Rank;
      ghost var w := WithPage(leaf);
      BorrowReady(w, cap, S, rootID, key, i, o, parent.id, parent.body);
      MergeKin(w, cap, S, rootID, key, i, o, parent.id, parent.body, false, i, o + 1);
      JoinLeaves(leaf, leaf, right, parent, false, ancestors, key, i, o);
      hide Path;
      FinishInternalMerge(parent, ancestors, true, 2, key);
    }

    /** Reads a neighbour of the leaf, if there is one. */
    method ReadNeighbour(id: int, leaf: Page, parent: Page, ghost anc: seq<int>, ghost key: int,
                         ghost i: nat, ghost o: nat) returns (p: Page?)
      requires Lacking(leaf, parent, key, anc, i, o) && (id != 0 ==> Readable(leaf, id))
      modifies io`pages, io.pm`pageReads, io.pm`pageWrites, io.pm`disk, io.pool
      ensures Lacking(leaf, parent, key, anc, i, o) && fresh(io.pages - old(io.pages)) && old(io.pages) <= io.pages
      ensures p == null <==> id == 0
      ensures p != null ==> p in io.pages && p.id == id && p.body == io.model[id] == At(WithPage(leaf).m, id)
    {
      hide Nearly;
      hide PageAccess.Valid;
      hide ShortLeaf;
      hide Path;
      hide Rank;
      p := ReadLink(id);
    }

    /** The neighbours of the leaf in the chain, and which of them the repair turns to. */
    lemma NeighbourFacts(leaf: Page, parent: Page, key: int, anc: seq<int>, i: nat, o: nat)
      requires Lacking(leaf, parent, key, anc, i, o)
      ensures leaf.body.Leaf? && |S| > 2 && i < |S[1]| && leaf in io.pages && parent in io.pages
      ensures leaf.body.prev == IdAt(S[1], i - 1) && leaf.body.next == IdAt(S[1], i + 1)
      ensures leaf.body.prev != 0 <==> i > 0
      ensures leaf.body.next != 0 <==> i + 1 < |S[1]|
      ensures i > 0 ==> Readable(leaf, leaf.body.prev)
      ensures i + 1 < |S[1]| ==> Readable(leaf, leaf.body.next)
      ensures ChoosesKin(io.model, cap, leaf.body, parent.body, o)
    {
      hide Nearly;
      hide PageAccess.Valid;
      hide ShortLeaf;
      hide Path;
      hide Rank;
      hide IsChild;
      hide IsKin;
      hide UsedNeighbour;
      var w := WithPage(leaf);
      BorrowReady(w, cap, S, rootID, key, i, o, parent.id, parent.body);
      UsedKin(w, io.model, cap, S, rootID, key, i, o, parent.id, parent.body);
      assert leaf.body == At(w.m, leaf.id);
    }

    method FixLeafBetween(leaf: Page, parent: Page, ancestors: seq<int>, ghost key: int, ghost i: nat, ghost o: nat)
      requires Lacking(leaf, parent, key, ancestors, i, o) && leaf.body.Leaf?
      modifies this`rootID, this`pageMerges, this`S, this`tag, io,
               io.pm`pageReads, io.pm`pageWrites, io.pm`disk, io.pool, io.pages
      ensures fresh(io.pages - old(io.pages)) && old(io.pages) <= io.pages
      ensures Repaired(IsChild(old(parent.body), UsedNeighbour(old(io.model), old(leaf.body), cap)) &&
                       (Spares(old(io.model), old(leaf.body), cap) || Absorbs(old(parent.body), ancestors)))
      ensures (IsChild(old(parent.body), UsedNeighbour(old(io.model), old(leaf.body), cap)) &&
               (Spares(old(io.model), old(leaf.body), cap) || Absorbs(old(parent.body), ancestors))) ==>
        ByPreference(leaf.id, old(leaf.body).prev, old(leaf.body).next)
    {
      hide Lacking;
      hide Valid;
      hide Ruined;
      hide Spares;
      hide Absorbs;
      hide IsChild;
      hide IsKin;
      hide UsedNeighbour;
      NeighbourFacts(leaf, parent, key, ancestors, i, o);
      var left := ReadNeighbour(leaf.body.prev, leaf, parent, ancestors, key, i, o);
      var right := ReadNeighbour(leaf.body.next, leaf, parent, ancestors, key, i, o);
      if left != null && |Entries(left.body)| > cap / 2 {
        RedistributeLeafFromLeft(leaf, left, parent, ancestors, key, i, o);
      } else if right != null && |Entries(right.body)| > cap / 2 {
        RedistributeLeafFromRight(leaf, right, parent, ancestors, key, i, o);
      } else if left != null {
        MergeLeafWithLeft(leaf, left, parent, ancestors, key, i, o);
      } else {
        MergeLeafWithRight(leaf, right, parent, ancestors, key, i, o);
      }
    }

    /** Repairs a leaf that is one entry short, with a neighbour of the leaf chain. */
    method FixLeafUnderflow(leaf: Page, ancestors: seq<int>, ghost key: int)
      requires Sagging(leaf, 1, key, ancestors) && ancestors != [] && |Entries(leaf.body)| == cap / 2 - 1
      modifies this`rootID, this`pageMerges, this`S, this`tag, io,
               io.pm`pageReads, io.pm`pageWrites, io.pm`disk, io.pool, io.pages
      ensures fresh(io.pages - old(io.pages)) && old(io.pages) <= io.pages
      ensures old(leaf.body).Leaf? && Repaired(Mendable(old(io.model), cap, old(leaf.body), ancestors, keySize))
      ensures Mendable(old(io.model), cap, old(leaf.body), ancestors, keySize) ==>
        ByPreference(leaf.id, old(leaf.body).prev, old(leaf.body).next)
    {
      hide Nearly;
      hide PageAccess.Valid;
      hide Total;
      hide Rank;
      hide ShortLeaf;
      hide Valid;
      hide Ruined;
      hide Spares;
      hide IsChild;
      hide UsedNeighbour;
      ghost var i, o, pid, b := FindShortLeaf(WithPage(leaf), cap, S, rootID, leaf.id, key);
      BorrowReady(WithPage(leaf), cap, S, rootID, key, i, o, pid, b);
      var parent := io.ReadPage(ancestors[|ancestors| - 1]);
      FixLeafBetween(leaf, parent, ancestors, key, i, o);
    }

    // -------------------------------------------------------------- delete

    /** Removes entry i, which holds key, from the leaf, which may be short then. */
    method TakeRow(leaf: Page, i: nat, ghost anc: seq<int>, ghost key: int)
      requires Valid() && LOW < key < TOP && Walking(1, key, leaf, anc)
      requires leaf.body.Leaf? && i < |leaf.body.entries| && leaf.body.entries[i].key == key
      requires MinFor(1, |S| - 1, cap) <= |leaf.body.entries| <= cap
      modifies this`S, io`pending, leaf
      ensures leaf.body == WithEntries(old(leaf.body), RemoveAt(old(leaf.body).entries, i)) && leaf.body.Leaf?
      ensures |leaf.body.entries| == |old(leaf.body).entries| - 1
      ensures |old(S)| >= 2 && Rank(old(S)[0], key) > 0
      ensures S == old(S)[0 := RemoveAt(old(S)[0], Rank(old(S)[0], key) - 1)] && Excess() == old(Excess())
      ensures Loose(leaf)
      ensures if |anc| != 0 && |leaf.body.entries| < cap / 2 then Sagging(leaf, 1, key, anc)
              else Nearly(WithPage(leaf), cap, S, rootID, 0)
    {
      hide Whole;
      hide Nearly;
      hide OnPath;
      hide PageAccess.Valid;
      hide Total;
      hide RemoveAt;
      hide RemoveBody;
      hide Rank;
      hide Path;
      ghost var w, b := W(), leaf.body;
      LeafOnPath(w, S, key, leaf.id, anc);
      io.Touch(leaf);
      label edit:
      leaf.DeleteEntry(i);
      EntryGone(w.m, b, i, cap);
      io.Edited@edit();
      ghost var short := |anc| != 0 && |leaf.body.entries| < cap / 2;
      DropRow(w, WithPage(leaf), cap, S, rootID, key, leaf.id, anc, i, if short then leaf.id else 0);
      ghost var T := S[0 := RemoveAt(S[0], Rank(S[0], key) - 1)];
      TotalUpdate(S, 0, T[0]);
      PathKept(S, T, anc, 1, key);
      S := T;
    }

    /** Removes entry i, which holds key, from the leaf and repairs the leaf if it is short then. */
    method RemoveFrom(leaf: Page, i: nat, ancestors: seq<int>, ghost key: int)
      requires Valid() && LOW < key < TOP && Walking(1, key, leaf, ancestors)
      requires leaf.body.Leaf? && i < |leaf.body.entries| && leaf.body.entries[i].key == key
      requires MinFor(1, |S| - 1, cap) <= |leaf.body.entries| <= cap
      modifies this`rootID, this`pageMerges, this`S, this`tag, io,
               io.pm`pageReads, io.pm`pageWrites, io.pm`disk, io.pool, io.pages
      ensures fresh(io.pages - old(io.pages)) && old(io.pages) <= io.pages
      ensures old(Deletable(io.model, cap, S, key, keySize)) ==>
        && Valid() && Excess() == old(Excess()) && MergesCounted() && Rank(old(Rows()), key) > 0
        && Rows() == RemoveAt(old(Rows()), Rank(old(Rows()), key) - 1)
      ensures !old(Deletable(io.model, cap, S, key, keySize)) ==> Ruined()
      ensures old(Deletable(io.model, cap, S, key, keySize)) && ancestors != [] ==>
        |old(leaf.body).entries| <= cap / 2 ==>
        ByPreference(leaf.id, old(leaf.body).prev, old(leaf.body).next)
      ensures |old(leaf.body).entries| > cap / 2 ==>
        InPlace(leaf.id, WithEntries(old(leaf.body), RemoveAt(old(leaf.body).entries, i))) && Wrote(1)
    {
      hide Whole;
      hide Nearly;
      hide OnPath;
      hide PageAccess.Valid;
      hide Total;
      hide RemoveAt;
      hide Ruined;
      hide Rank;
      hide IsChild;
      hide UsedNeighbour;
      hide Spares;
      hide Deletable;
      hide Path;
      hide Sagging;
      ghost var w, b := W(), leaf.body;
      LeafOnPath(w, S, key, leaf.id, ancestors);
      DeletableByPages(w, S, key, leaf.id, ancestors, cap, keySize);
      EntryGone(w.m, b, i, cap);
      TakeRow(leaf, i, ancestors, key);
      if |ancestors| == 0 || |leaf.body.entries| >= cap / 2 {
        io.WritePage(leaf);
        WholeIsNearly(W(), cap, S, rootID);
        return;
      }
      FixLeafUnderflow(leaf, ancestors, key);
    }

    /** Removes key, or reports that it is not there.  What a reader finds afterwards is a tree for the
        remaining pairs exactly if the deletion was one the code can repair; otherwise it is none. */
    method Delete(key: int) returns (out: Outcome)
      requires Valid() && LOW < key < TOP
      modifies this`rootID, this`pageMerges, this`S, this`tag, io,
               io.pm`pageReads, io.pm`pageWrites, io.pm`disk, io.pool, io.pages
      ensures fresh(io.pages - old(io.pages)) && old(io.pages) <= io.pages && io.Valid()
      ensures out == if key in old(Contents()) then Done else KeyNotFound
      ensures pageSplits == old(pageSplits) && io.pm.nextPageID == old(io.pm.nextPageID)
      ensures out == KeyNotFound ==>
        && Valid() && S == old(S) && tag == old(tag) && rootID == old(rootID) && pageMerges == old(pageMerges)
        && io.model == old(io.model) && Wrote(0)
      ensures out == Done && old(Deletable(io.model, cap, S, key, keySize)) ==>
        && Valid() && Excess() == old(Excess()) && MergesCounted() && Contents() == old(Contents()) - {key}
        && Rank(old(Rows()), key) > 0 && Rows() == RemoveAt(old(Rows()), Rank(old(Rows()), key) - 1)
      ensures out == Done ==>
        (old(Deletable(io.model, cap, S, key, keySize)) <==>
         Stores(io.Seen(), io.pm.nextPageID, cap, rootID, old(Contents()) - {key}))
      ensures out == Done && !old(Deletable(io.model, cap, S, key, keySize)) ==> Ruined()
      ensures out == Done ==>
        && |old(S)| > 1 && old(S)[1] != [] && old(S)[1][0].key <= key
        && var id := Pick(old(S)[1], key).val; var b := At(old(io.model), id);
           && b.Leaf? && Rank(b.entries, key - 1) < |b.entries|
           && (|b.entries| > cap / 2 ==>
                 InPlace(id, WithEntries(b, RemoveAt(b.entries, Rank(b.entries, key - 1)))) && Wrote(1))
           && (old(Deletable(io.model, cap, S, key, keySize)) && old(Height()) > 1 && |b.entries| <= cap / 2 ==>
                 ByPreference(id, b.prev, b.next))
    {
      hide Whole;
      hide OnPath;
      hide PageAccess.Valid;
      hide PageAccess.Seen;
      hide ToMap;
      hide HasKey;
      hide Total;
      hide RemoveAt;
      hide Deletable;
      hide NoTree;
      hide Stores;
      hide Rank;
      var leaf, anc := FindLeafWithPath(key);
      LeafAnswers(W(), cap, S, rootID, key, leaf.id, anc, leaf.body);
      LeafOnPath(W(), S, key, leaf.id, anc);
      var i, found := FindKeyIndex(leaf.body.entries, key);
      FoundIsHasKey(leaf.body.entries, key);
      if !found {
        return KeyNotFound;
      }
      RemoveFrom(leaf, i, anc, key);
      RowRemoved(old(Rows()), key);
      if old(Deletable(io.model, cap, S, key, keySize)) {
        SeenTree();
      } else {
        NoTreeStoresNothing(io.Seen(), io.pm.nextPageID, cap, rootID, old(Contents()) - {key});
      }
      return Done;
    }

    /** A reader of a valid tree finds exactly its contents. */
    lemma SeenTree()
      requires Valid()
      ensures Stores(io.Seen(), io.pm.nextPageID, cap, rootID, Contents())
    {
      hide Whole;
      hide PageAccess.Valid;
      hide PageAccess.Seen;
      hide Stores;
      hide ToMap;
      io.SeenIsModel();
      LiveIdsInRange(W(), cap, S, rootID);
      TreeMoves(W(), World(io.Seen(), tag, io.pm.nextPageID), cap, S, rootID);
      TreeRows(W(), cap, S, rootID);
      StoresWitness(World(io.Seen(), tag, io.pm.nextPageID), cap, S, rootID);
    }

    /** The leaf that a repair of this one would use, and whether it can spare an entry. */
    method FindNeighbour(leaf: Page) returns (id: int, spare: bool)
      requires io.Valid() && leaf.body.Leaf?
      requires var n := leaf.body.prev; n != 0 ==> n in io.model && n !in io.pending
      requires var n := leaf.body.next; n != 0 ==> n in io.model && n !in io.pending
      modifies io`pages, io.pm`pageReads, io.pm`pageWrites, io.pm`disk, io.pool
      ensures io.Valid() && fresh(io.pages - old(io.pages)) && old(io.pages) <= io.pages
      ensures id == UsedNeighbour(io.model, leaf.body, cap) && spare == Spares(io.model, leaf.body, cap)
    {
      hide PageAccess.Valid;
      var left := ReadLink(leaf.body.prev);
      var right := ReadLink(leaf.body.next);
      if left != null && |Entries(left.body)| > cap / 2 {
        return left.id, true;
      }
      if right != null && |Entries(right.body)| > cap / 2 {
        return right.id, true;
      }
      return if left != null then left.id else leaf.body.next, false;
    }

    /** Checks by reading pages whether the repair of this leaf would leave a tree. */
    method CheckRepair(leaf: Page, ancestors: seq<int>, ghost key: int) returns (ok: bool)
      requires Valid() && LOW < key < TOP && Walking(1, key, leaf, ancestors)
      requires leaf.body.Leaf? && ancestors != []
      modifies io`pages, io.pm`pageReads, io.pm`pageWrites, io.pm`disk, io.pool
      ensures Valid() && fresh(io.pages - old(io.pages)) && old(io.pages) <= io.pages
      ensures ok <==> Mendable(io.model, cap, leaf.body, ancestors, keySize)
    {
      hide Whole;
      hide OnPath;
      hide PageAccess.Valid;
      hide Spares;
      hide IsChild;
      hide Rank;
      hide ChildIndex;
      hide UsedNeighbour;
      NeighboursReadable(W(), cap, S, rootID, key, leaf.id, ancestors);
      var parent := io.ReadPage(ancestors[|ancestors| - 1]);
      var used, spare := FindNeighbour(leaf);
      var idx;
      idx, ok := FindChildIndex(parent.body, used);
      ChildFound(parent.body, used);
      ok := ok && (keySize == 8 || |ancestors| == 1 || spare || |parent.body.entries| > cap / 2);
    }

    /** Checks, without changing anything, whether a tree is left after deleting key.  It is if key is not
        there, and otherwise if the code can repair the deletion. */
    method CanDelete(key: int) returns (safe: bool)
      requires Valid() && LOW < key < TOP
      modifies io`pages, io.pm`pageReads, io.pm`pageWrites, io.pm`disk, io.pool
      ensures Valid() && fresh(io.pages - old(io.pages)) && old(io.pages) <= io.pages
      ensures safe <==> (key in Contents() ==> Deletable(io.model, cap, S, key, keySize))
      ensures Height() <= 2 ==> safe
    {
      hide Whole;
      hide OnPath;
      hide Sound;
      hide Deletable;
      hide Mendable;
      hide Rank;
      hide ToMap;
      hide HasKey;
      var leaf, anc := FindLeafWithPath(key);
      LeafAnswers(W(), cap, S, rootID, key, leaf.id, anc, leaf.body);
      FoundIsHasKey(leaf.body.entries, key);
      var i, found := FindKeyIndex(leaf.body.entries, key);
      if !found {
        return true;
      }
      DeletableByPages(W(), S, key, leaf.id, anc, cap, keySize);
      if |S| <= 3 { LowTreesAreSafe(W(), cap, S, rootID, key); }
      if |anc| == 0 || |leaf.body.entries| > cap / 2 {
        return true;
      }
      safe := CheckRepair(leaf, anc, key);
    }

    // -------------------------------------------------------------- sync

    /** Every live page and the metadata page are on disk as they were last written. */
    ghost predicate OnDisk()
      reads this, io, io.pm
    {
      forall id :: (id in tag || id == 0) && id in io.model ==> id in io.pm.disk && io.pm.disk[id] == io.model[id]
    }

    /** Without a pool this is always so. */
    lemma UnpooledOnDisk()
      requires Valid() && io.pool == null
      ensures OnDisk()
    {
    }

    /** Flushes the pool, after which the disk alone holds the tree. */
    method Sync()
      requires Valid()
      modifies io.pm`pageWrites, io.pm`disk, io.pool
      ensures Valid() && OnDisk()
    {
      hide Whole;
      hide PageAccess.Valid;
      io.Sync();
    }
  }
}
