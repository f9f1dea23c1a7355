/** The LRU write-back buffer pool in front of a PageManager. */
module Pool {
  import opened Pages
  import opened Storage
  import opened Lru

  class BufferPool {
    const pm: PageManager
    const capacity: nat
    /** The cached page objects; each is shared with whoever obtained it from GetPage. */
    var items: map<int, Page>
    /** The ids whose cache entry is flagged dirty. */
    var dirty: set<int>
    /** The cached ids, most recently used first. */
    var lru: seq<int>
    var hits: nat
    var misses: nat
    var evictions: nat
    var dirtyFlushes: nat

    /** The pool as a value; it follows the edits that clients make to cached pages. */
    ghost function State(): PoolState
      reads this, pm, items.Values
    {
      PoolState(lru, Frames(), pm.disk, hits, misses, evictions, dirtyFlushes)
    }

    ghost function Frames(): map<int, Cached>
      reads this, items.Values
    {
      map id | id in items :: Cached(items[id].body, id in dirty)
    }

    ghost predicate Valid()
      reads this, pm, items.Values
    {
      && Wf(State(), capacity)
      && forall id :: id in items ==> items[id].id == id
    }

    lemma FramesAre(m: map<int, Cached>)
      requires m.Keys == items.Keys
      requires forall i :: i in items ==> m[i] == Cached(items[i].body, i in dirty)
      ensures Frames() == m
    {
      assert Frames().Keys == m.Keys;
      assert forall i :: i in m ==> Frames()[i] == m[i];
    }

    constructor (pm: PageManager, capacity: int)
      ensures Valid() && this.pm == pm && items == map[]
      ensures this.capacity == if capacity < 1 then 1 else capacity
      ensures State() == EMPTY.(disk := pm.disk)
    {
      this.pm := pm;
      this.capacity := if capacity < 1 then 1 else capacity;
      items, dirty, lru := map[], {}, [];
      hits, misses, evictions, dirtyFlushes := 0, 0, 0, 0;
    }

    /** The page from the cache, or read from disk and cached; null if it exists nowhere. */
    method GetPage(id: int) returns (p: Page?)
      requires Valid()
      modifies this, pm`pageReads, pm`pageWrites, pm`disk
      ensures Valid() && State() == GetStep(old(State()), capacity, id)
      ensures pm.pageReads - old(pm.pageReads) == misses - old(misses)
      ensures pm.pageWrites - old(pm.pageWrites) == dirtyFlushes - old(dirtyFlushes)
      ensures p == null <==> GetResult(old(State()), id) == None
      ensures p != null ==> p.id == id && p.body == GetResult(old(State()), id).value
      ensures p != null ==> id in items && items[id] == p
      ensures p != null ==> fresh(p) || (id in old(items) && p == old(items[id]))
      ensures forall i :: i in items && i != id ==> i in old(items) && items[i] == old(items[i])
    {
      hide Wf;
      hide Without;
      hide EvictIfFull;
      GetWf(State(), capacity, id);
      if id in items {
        lru := ToFront(lru, id);
        hits := hits + 1;
        p := items[id];
        FramesAre(old(Frames()));
        return;
      }
      CountWf(State(), capacity, misses + 1);
      misses := misses + 1;
      p := pm.ReadPage(id);
      FramesAre(old(Frames()));
      if p == null {
        return;
      }
      EvictIfNeeded();
      ghost var was := Frames();
      items := items[id := p];
      dirty := dirty - {id};
      lru := [id] + lru;
      FramesAre(was[id := Cached(p.body, false)]);
    }

    /** Caches pg, marked dirty, replacing whatever was cached for its id. */
    method Put(pg: Page)
      requires Valid()
      modifies this, pm`pageWrites, pm`disk
      ensures Valid() && State() == PutStep(old(State()), capacity, pg.id, pg.body)
      ensures pm.pageWrites - old(pm.pageWrites) == dirtyFlushes - old(dirtyFlushes)
      ensures pg.id in items && items[pg.id] == pg
      ensures forall i :: i in items && i != pg.id ==> i in old(items) && items[i] == old(items[i])
    {
      hide Wf;
      hide Without;
      hide EvictIfFull;
      PutWf(State(), capacity, pg.id, pg.body);
      if pg.id in items {
        items := items[pg.id := pg];
        dirty := dirty + {pg.id};
        lru := ToFront(lru, pg.id);
        FramesAre(old(Frames())[pg.id := Cached(pg.body, true)]);
        return;
      }
      EvictIfNeeded();
      ghost var was := Frames();
      items := items[pg.id := pg];
      dirty := dirty + {pg.id};
      lru := [pg.id] + lru;
      FramesAre(was[pg.id := Cached(pg.body, true)]);
    }

    /** Drops the least recently used page when the cache is full, writing it back if dirty. */
    method EvictIfNeeded()
      requires Valid()
      modifies this`lru, this`items, this`evictions, this`dirtyFlushes, pm`pageWrites, pm`disk
      ensures Valid() && State() == EvictIfFull(old(State()), capacity)
      ensures pm.pageWrites - old(pm.pageWrites) == dirtyFlushes - old(dirtyFlushes)
      ensures forall i :: i in items ==> i in old(items) && items[i] == old(items[i])
    {
      hide Wf;
      EvictWf(State(), capacity);
      WfCard(State(), capacity);
      assert items.Keys == Frames().Keys;
      if |items| < capacity || |items| == 0 {
        return;
      }
      var last := lru[|lru| - 1];
      ghost var f := old(Frames());
      assert last in f && f[last] == Cached(items[last].body, last in dirty);
      if last in dirty {
        pm.WritePage(items[last]);
        dirtyFlushes := dirtyFlushes + 1;
      }
      FramesAre(f);
      hide Frames;
      Drop(last);
    }

    method Drop(last: int)
      requires lru != [] && last in items
      modifies this`lru, this`items, this`evictions
      ensures lru == old(lru)[..|old(lru)| - 1] && evictions == old(evictions) + 1
      ensures items == old(items) - {last} && Frames() == old(Frames()) - {last}
    {
      lru := lru[..|lru| - 1];
      items := items - {last};
      evictions := evictions + 1;
      FramesAre(old(Frames()) - {last});
    }

    method MarkDirty(id: int)
      requires Valid()
      modifies this`dirty
      ensures Valid() && State() == MarkStep(old(State()), id)
    {
      hide Wf;
      MarkWf(State(), capacity, id);
      if id in items {
        dirty := dirty + {id};
        FramesAre(old(Frames())[id := old(Frames())[id].(dirty := true)]);
      }
    }

    /** Writes a dirty cached page back and clears its flag. */
    method FlushPage(id: int)
      requires Valid()
      modifies this`dirty, this`dirtyFlushes, pm`pageWrites, pm`disk
      ensures Valid() && State() == FlushStep(old(State()), id)
      ensures pm.pageWrites - old(pm.pageWrites) == dirtyFlushes - old(dirtyFlushes)
    {
      hide Wf;
      FlushWf(State(), capacity, id);
      if id !in items || id !in dirty {
        return;
      }
      pm.WritePage(items[id]);
      dirtyFlushes := dirtyFlushes + 1;
      dirty := dirty - {id};
      FramesAre(old(Frames())[id := old(Frames())[id].(dirty := false)]);
    }

    /** Flushes every cached page, in the arbitrary order in which the map is walked. */
    method Sync()
      requires Valid()
      modifies this`dirty, this`dirtyFlushes, pm`pageWrites, pm`disk
      ensures Valid() && State() == SyncStep(old(State()))
      ensures pm.pageWrites - old(pm.pageWrites) == dirtyFlushes - old(dirtyFlushes)
    {
      ghost var s := State();
      FlushNone(s);
      hide FlushSet;
      hide FlushStep;
      hide Wf;
      ghost var done: set<int> := {};
      var todo := items.Keys;
      assert items.Keys == s.frames.Keys == done + todo;
      while todo != {}
        invariant Valid() && State() == FlushSet(s, done)
        invariant pm.pageWrites - old(pm.pageWrites) == dirtyFlushes - old(dirtyFlushes)
        invariant done !! todo && done + todo == s.frames.Keys
        decreases todo
      {
        SomeElement(todo);
        var id :| id in todo;
        FlushOneMore(s, done, id);
        FlushPage(id);
        todo, done := todo - {id}, done + {id};
      }
      assert done == s.frames.Keys;
    }

    /** The cached page p was edited in place. */
    twostate lemma EditedInPlace(p: Page)
      requires old(Valid()) && unchanged(this) && unchanged(pm) && p.id in items && items[p.id] == p
      requires forall id :: id in items && id != p.id ==> items[id].body == old(items[id].body)
      ensures Valid() && State() == EditStep(old(State()), p.id, p.body)
    {
      hide Wf;
      EditWf(old(State()), capacity, p.id, p.body);
      FramesAre(old(Frames())[p.id := old(Frames())[p.id].(body := p.body)]);
    }
  }

  /** The cycle of a client that edits a page in place: fetch it, change it, mark it. */
  method Modify(pool: BufferPool, id: int, b: Body) returns (ok: bool)
    requires pool.Valid()
    modifies pool, pool.pm`pageReads, pool.pm`pageWrites, pool.pm`disk, pool.items.Values
    ensures pool.Valid() && pool.State() == ModifyStep(old(pool.State()), pool.capacity, id, b)
    ensures ok <==> GetResult(old(pool.State()), id).Some?
  {
    hide Wf;
    hide GetStep;
    hide EditStep;
    hide MarkStep;
    var p := pool.GetPage(id);
    ok := p != null;
    if ok {
      label edit:
      p.body := b;
      pool.EditedInPlace@edit(p);
      pool.MarkDirty(id);
    } else {
      NothingToEdit(old(pool.State()), pool.capacity, id, b);
    }
  }
}
