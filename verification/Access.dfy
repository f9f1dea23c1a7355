/** How the tree reaches its pages: straight through the PageManager, or through the buffer pool.

    `model` is what a write-through store would hold: the contents each page had when it was last
    passed to WritePage.  `pending` names the pages that were edited in place since.  A cached page
    object is shared, so its edits are visible (or lost, if it is evicted) before they are written;
    the discipline that makes pooling invisible is that a pending page is never read again. */
module Access {
  import opened Pages
  import opened Storage
  import opened Lru
  import opened Pool
  import Caching

  /** Every page that is not pending reads as the model says, and a clean copy matches disk. */
  ghost predicate Agree(s: PoolState, model: map<int, Body>, pending: set<int>) {
    forall id :: id in model && id !in pending ==>
      && GetResult(s, id) == Some(model[id])
      && (id in s.frames && !s.frames[id].dirty ==> id in s.disk && s.disk[id] == model[id])
  }

  lemma AgreeEvict(s: PoolState, cap: nat, model: map<int, Body>, pending: set<int>)
    requires Wf(s, cap) && Agree(s, model, pending)
    ensures Agree(EvictIfFull(s, cap), model, pending)
  {
    WfCard(s, cap);
    hide Wf;
  }

  lemma AgreeGet(s: PoolState, cap: nat, model: map<int, Body>, pending: set<int>, id: int)
    requires Wf(s, cap) && Agree(s, model, pending)
    ensures Agree(GetStep(s, cap, id), model, pending)
  {
    AgreeEvict(s.(misses := s.misses + 1), cap, model, pending);
    hide Wf;
    if id !in s.frames && id in s.disk {
      EvictFacts(s.(misses := s.misses + 1), cap, id);
      hide EvictIfFull;
    }
  }

  /** Eviction never removes or changes what a page that is not cached has on disk. */
  lemma EvictFacts(s: PoolState, cap: nat, id: int)
    requires id !in s.frames
    ensures var t := EvictIfFull(s, cap);
            && id !in t.frames
            && (id in s.disk <==> id in t.disk) && (id in s.disk ==> t.disk[id] == s.disk[id])
  {
  }

  lemma AgreePut(s: PoolState, cap: nat, model: map<int, Body>, pending: set<int>, id: int, b: Body)
    requires Wf(s, cap) && Agree(s, model, pending)
    ensures Agree(PutStep(s, cap, id, b), model[id := b], pending - {id})
  {
    AgreeEvict(s, cap, model, pending);
    hide Wf;
    var t := EvictIfFull(s, cap);
    if id !in s.frames {
      hide EvictIfFull;
      assert forall i :: i in model && i !in pending ==> GetResult(t, i) == Some(model[i]);
    }
  }

  /** In-place edits of pending pages disturb no other page. */
  lemma AgreeEdit(s: PoolState, t: PoolState, cap: nat, model: map<int, Body>, pending: set<int>)
    requires Wf(s, cap) && Agree(s, model, pending)
    requires t == s.(frames := t.frames) && t.frames.Keys == s.frames.Keys
    requires forall i :: i in s.frames && i !in pending ==> t.frames[i] == s.frames[i]
    ensures Wf(t, cap) && Agree(t, model, pending)
  {
  }

  /** After a sync the disk alone holds every page that is not pending. */
  lemma AgreeSync(s: PoolState, model: map<int, Body>, pending: set<int>)
    requires Agree(s, model, pending)
    ensures Agree(SyncStep(s), model, pending)
    ensures forall id :: id in model && id !in pending ==>
      id in SyncStep(s).disk && SyncStep(s).disk[id] == model[id]
  {
  }

  class PageAccess {
    const pm: PageManager
    const pool: BufferPool?
    ghost var model: map<int, Body>
    ghost var pending: set<int>
    /** Every page object handed out so far. */
    ghost var pages: set<Page>

    ghost predicate Valid()
      reads this, pm, pool, pages
    {
      && (pool == null ==> forall id :: id in model && id !in pending ==>
            id in pm.disk && pm.disk[id] == model[id])
      && (pool != null ==>
            && pool.pm == pm && pool.items.Values <= pages
            && pool.Valid() && Agree(pool.State(), model, pending))
    }

    /** What a reader would find: the disk, or the cached pages over it. */
    ghost function Seen(): map<int, Body>
      reads this, pm, pool, pages
      requires Valid()
    {
      if pool == null then pm.disk else Caching.Logical(pool.State())
    }

    /** A reader sees every page that is not pending as the model has it. */
    lemma SeenIsModel()
      requires Valid()
      ensures forall id :: id in model && id !in pending ==> id in Seen() && Seen()[id] == model[id]
    {
      if pool != null {
        var s := pool.State();
        assert forall id :: id in model && id !in pending ==> GetResult(s, id) == Some(model[id]);
      }
    }

    constructor (pm: PageManager, pool: BufferPool?)
      requires pool != null ==> pool.pm == pm && pool.items == map[] && pool.Valid()
      ensures Valid() && model == map[] && pending == {} && pages == {}
      ensures this.pm == pm && this.pool == pool
    {
      this.pm, this.pool := pm, pool;
      model, pending, pages := map[], {}, {};
    }

    /** Over a file that already holds pages. */
    constructor Over(pm: PageManager, pool: BufferPool?)
      requires pool != null ==> pool.pm == pm && pool.items == map[] && pool.Valid()
      ensures Valid() && model == pm.disk && pending == {} && pages == {}
      ensures this.pm == pm && this.pool == pool
    {
      this.pm, this.pool := pm, pool;
      model, pending, pages := pm.disk, {}, {};
    }

    /** The number of page accesses so far: disk reads, or cache hits and misses. */
    function Accesses(): int
      reads this, pm, pool
    {
      if pool == null then pm.pageReads else pool.hits + pool.misses
    }

    method ReadPage(id: int) returns (p: Page)
      requires Valid() && id in model && id !in pending
      modifies this`pages, pm`pageReads, pm`pageWrites, pm`disk, pool
      ensures Valid() && p.id == id && p.body == model[id]
      ensures pages == old(pages) + {p} && (p in old(pages) || fresh(p))
      ensures Accesses() == old(Accesses()) + 1
      ensures pool == null ==> pm.pageWrites == old(pm.pageWrites)
    {
      if pool != null {
        AgreeGet(pool.State(), pool.capacity, model, pending, id);
        assert GetResult(pool.State(), id) == Some(model[id]);
        hide Agree;
        hide Wf;
        hide GetStep;
        var q := pool.GetPage(id);
        p := q;
      } else {
        var q := pm.ReadPage(id);
        p := q;
      }
      pages := pages + {p};
      if pool != null {
        assert forall i :: i in pool.items ==> pool.items[i] in pages;
        assert pool.items.Values <= pages;
      }
    }

    /** Reads past the pool, straight from disk. */
    method ReadDisk(id: int) returns (b: Body)
      requires Valid() && id in pm.disk
      modifies pm`pageReads
      ensures Valid() && b == pm.disk[id] && pm.pageReads == old(pm.pageReads) + 1
    {
      var p := pm.ReadPage(id);
      b := p.body;
    }

    /** Persists p: to disk, or into the pool as a dirty page. */
    method WritePage(p: Page)
      requires Valid() && p in pages
      modifies this`model, this`pending, pm`pageWrites, pm`disk, pool
      ensures Valid() && model == old(model)[p.id := p.body] && pending == old(pending) - {p.id}
      ensures Accesses() == old(Accesses())
      ensures pool == null ==> pm.pageWrites == old(pm.pageWrites) + 1
    {
      if pool != null {
        AgreePut(pool.State(), pool.capacity, model, pending, p.id, p.body);
        hide Agree;
        hide Wf;
        pool.Put(p);
        assert forall i :: i in pool.items ==> pool.items[i] in pages;
        assert pool.items.Values <= pages;
      } else {
        pm.WritePage(p);
      }
      model, pending := model[p.id := p.body], pending - {p.id};
    }

    method SetNextPageID(id: int)
      requires Valid()
      modifies pm`nextPageID
      ensures Valid() && pm.nextPageID == id
    {
      pm.SetNextPageID(id);
    }

    /** Reserves a PageID; the new page is pending until it is written. */
    method AllocatePage() returns (p: Page)
      requires Valid()
      modifies this`pages, this`pending, pm`nextPageID
      ensures Valid() && fresh(p) && p.id == old(pm.nextPageID) && p.body == Leaf(0, 0, [])
      ensures pm.nextPageID == old(pm.nextPageID) + 1
      ensures pages == old(pages) + {p} && pending == old(pending) + {p.id}
    {
      p := pm.AllocatePage();
      pages, pending := pages + {p}, pending + {p.id};
    }

    /** An in-memory page built from scratch; it is pending until it is written. */
    method NewPage(id: int, b: Body) returns (p: Page)
      requires Valid()
      modifies this`pages, this`pending
      ensures Valid() && fresh(p) && p.id == id && p.body == b
      ensures pages == old(pages) + {p} && pending == old(pending) + {id}
    {
      p := new Page(id, b);
      pages, pending := pages + {p}, pending + {id};
    }

    /** Announces that p is about to be edited in place. */
    ghost method Touch(p: Page)
      requires Valid()
      modifies this`pending
      ensures Valid() && pending == old(pending) + {p.id}
    {
      pending := pending + {p.id};
    }

    /** Editing pending pages keeps the rest readable, whatever is cached. */
    twostate lemma Edited()
      requires old(Valid())
      requires model == old(model) && pending == old(pending) && pages == old(pages)
      requires unchanged(pm) && (pool != null ==> unchanged(pool))
      requires forall q :: q in pages && q.id !in pending ==> q.body == old(q.body)
      ensures Valid()
    {
      if pool != null {
        AgreeEdit(old(pool.State()), pool.State(), pool.capacity, model, pending);
        hide Agree;
        hide Wf;
      }
    }

    /** Flushes the pool; afterwards the disk alone is the store. */
    method Sync()
      requires Valid()
      modifies pm`pageWrites, pm`disk, pool
      ensures Valid()
      ensures forall id :: id in model && id !in pending ==> id in pm.disk && pm.disk[id] == model[id]
    {
      if pool != null {
        AgreeSync(pool.State(), model, pending);
        hide Agree;
        hide Wf;
        hide SyncStep;
        pool.Sync();
      }
    }
  }
}
