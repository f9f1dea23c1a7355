/** What holds of the buffer pool over every trace of operations, at every capacity. */
module Caching {
  import opened Pages
  import opened Lru

  /** Modify is a fetch, an edit in place and a MarkDirty. */
  datatype PoolOp =
    | Get(id: int)
    | Put(id: int, body: Body)
    | Modify(id: int, body: Body)
    | Mark(id: int)
    | Flush(id: int)
    | Sync

  predicate Fetches(op: PoolOp) {
    op.Get? || op.Modify?
  }

  predicate Dirties(op: PoolOp) {
    op.Put? || op.Modify? || op.Mark?
  }

  function Step(s: PoolState, cap: nat, op: PoolOp): PoolState {
    match op
    case Get(id) => GetStep(s, cap, id)
    case Put(id, b) => PutStep(s, cap, id, b)
    case Modify(id, b) => ModifyStep(s, cap, id, b)
    case Mark(id) => MarkStep(s, id)
    case Flush(id) => FlushStep(s, id)
    case Sync => SyncStep(s)
  }

  function Run(s: PoolState, cap: nat, ops: seq<PoolOp>): PoolState {
    if ops == [] then s else Step(Run(s, cap, ops[..|ops| - 1]), cap, ops[|ops| - 1])
  }

  /** What the reads of a trace return. */
  function Reads(s: PoolState, cap: nat, ops: seq<PoolOp>): seq<Option<Body>> {
    if ops == [] then []
    else
      var n := |ops| - 1;
      Reads(s, cap, ops[..n]) + if Fetches(ops[n]) then [GetResult(Run(s, cap, ops[..n]), ops[n].id)] else []
  }

  // ---------------------------------------------------------------- the write-through store

  function StoreStep(d: map<int, Body>, op: PoolOp): map<int, Body> {
    if op.Put? || (op.Modify? && op.id in d) then d[op.id := op.body] else d
  }

  function StoreRun(d: map<int, Body>, ops: seq<PoolOp>): map<int, Body> {
    if ops == [] then d else StoreStep(StoreRun(d, ops[..|ops| - 1]), ops[|ops| - 1])
  }

  function Lookup(d: map<int, Body>, id: int): Option<Body> {
    if id in d then Some(d[id]) else None
  }

  function StoreReads(d: map<int, Body>, ops: seq<PoolOp>): seq<Option<Body>> {
    if ops == [] then []
    else
      var n := |ops| - 1;
      StoreReads(d, ops[..n]) + if Fetches(ops[n]) then [Lookup(StoreRun(d, ops[..n]), ops[n].id)] else []
  }

  /** A new pool over a disk. */
  function Fresh(d: map<int, Body>): PoolState {
    EMPTY.(disk := d)
  }

  /** The contents the pool stands for: cached pages over the disk. */
  function Logical(s: PoolState): map<int, Body> {
    map id | id in s.disk.Keys + s.frames.Keys :: if id in s.frames then s.frames[id].body else s.disk[id]
  }

  /** Pages that are not marked dirty equal what is on disk. */
  ghost predicate CleanOnDisk(s: PoolState) {
    forall id :: id in s.frames && !s.frames[id].dirty ==> id in s.disk && s.disk[id] == s.frames[id].body
  }

  ghost predicate Sane(s: PoolState, cap: nat) {
    Wf(s, cap) && CleanOnDisk(s)
  }

  lemma EvictLogical(s: PoolState, cap: nat)
    requires CleanOnDisk(s)
    ensures CleanOnDisk(EvictIfFull(s, cap)) && Logical(EvictIfFull(s, cap)) == Logical(s)
  {
    assert Logical(EvictIfFull(s, cap)).Keys == Logical(s).Keys;
  }

  lemma StepSane(s: PoolState, cap: nat, op: PoolOp)
    requires Sane(s, cap)
    ensures Sane(Step(s, cap, op), cap) && Logical(Step(s, cap, op)) == StoreStep(Logical(s), op)
  {
    hide Wf;
    hide CleanOnDisk;
    hide Logical;
    hide GetStep;
    hide PutStep;
    hide MarkStep;
    hide ModifyStep;
    hide FlushStep;
    hide SyncStep;
    match op
    case Get(id) =>
      GetSane(s, cap, id);
    case Modify(id, b) =>
      GetSane(s, cap, id);
      ModifySane(s, cap, id, b);
    case Put(id, b) =>
      PutWf(s, cap, id, b);
      EvictLogical(s, cap);
      PutLogical(s, cap, id, b);
    case Mark(id) =>
      MarkWf(s, cap, id);
      MarkLogical(s, id);
    case Flush(id) =>
      FlushWf(s, cap, id);
      FlushLogical(s, id);
    case Sync =>
      SyncWf(s, cap);
      SyncLogical(s);
  }

  lemma GetSane(s: PoolState, cap: nat, id: int)
    requires Sane(s, cap)
    ensures Sane(GetStep(s, cap, id), cap) && Logical(GetStep(s, cap, id)) == Logical(s)
  {
    hide Wf;
    hide CleanOnDisk;
    hide Logical;
    hide GetStep;
    GetWf(s, cap, id);
    CountLogical(s, s.misses + 1);
    EvictLogical(s.(misses := s.misses + 1), cap);
    GetLogical(s, cap, id);
  }

  /** An edit in place that is marked at once is an edit of the store. */
  lemma ModifySane(s: PoolState, cap: nat, id: int, b: Body)
    requires Sane(GetStep(s, cap, id), cap) && Logical(GetStep(s, cap, id)) == Logical(s)
    ensures Sane(ModifyStep(s, cap, id, b), cap)
    ensures Logical(ModifyStep(s, cap, id, b)) == if id in Logical(s) then Logical(s)[id := b] else Logical(s)
  {
    var t := GetStep(s, cap, id);
    FetchedIsCached(s, cap, id);
    hide GetStep;
    hide Wf;
    EditWf(t, cap, id, b);
    MarkWf(EditStep(t, id, b), cap, id);
    MarkedLogical(t, id, b);
  }

  /** A page is cached after it was fetched, if there is one. */
  lemma FetchedIsCached(s: PoolState, cap: nat, id: int)
    ensures id in GetStep(s, cap, id).frames <==> id in Logical(s)
  {
  }

  lemma MarkedLogical(s: PoolState, id: int, b: Body)
    requires CleanOnDisk(s)
    ensures var t := MarkStep(EditStep(s, id, b), id);
            CleanOnDisk(t) && Logical(t) == if id in s.frames then Logical(s)[id := b] else Logical(s)
  {
  }

  lemma CountLogical(s: PoolState, misses: nat)
    ensures CleanOnDisk(s) ==> CleanOnDisk(s.(misses := misses))
    ensures Logical(s.(misses := misses)) == Logical(s)
  {
  }

  lemma MarkLogical(s: PoolState, id: int)
    requires CleanOnDisk(s)
    ensures CleanOnDisk(MarkStep(s, id)) && Logical(MarkStep(s, id)) == Logical(s)
  {
  }

  lemma FlushLogical(s: PoolState, id: int)
    requires CleanOnDisk(s)
    ensures CleanOnDisk(FlushStep(s, id)) && Logical(FlushStep(s, id)) == Logical(s)
  {
  }

  lemma SyncWf(s: PoolState, cap: nat)
    requires Wf(s, cap)
    ensures Wf(SyncStep(s), cap)
  {
  }

  lemma SyncLogical(s: PoolState)
    requires CleanOnDisk(s)
    ensures CleanOnDisk(SyncStep(s)) && Logical(SyncStep(s)) == Logical(s) == SyncStep(s).disk
    ensures Dirty(SyncStep(s).frames) == {}
  {
    hide SyncStep;
    var t := SyncStep(s);
    forall id ensures SyncedAt(s, t, id) { SyncPage(s, id); }
    SyncedLogical(s, t);
  }

  lemma SyncedLogical(s: PoolState, t: PoolState)
    requires forall id :: SyncedAt(s, t, id)
    ensures CleanOnDisk(t) && Logical(t) == Logical(s) == t.disk && Dirty(t.frames) == {}
  {
    hide SyncedAt;
    forall id
      ensures (id in t.disk <==> id in Logical(s)) && (id in t.disk ==> t.disk[id] == Logical(s)[id])
      ensures (id in Logical(t) <==> id in t.disk) && (id in t.disk ==> t.disk[id] == Logical(t)[id])
      ensures id in t.frames ==> !t.frames[id].dirty && id in t.disk && t.disk[id] == t.frames[id].body
    {
      SyncedPage(s, t, id);
    }
    hide Logical;
  }

  lemma SyncedPage(s: PoolState, t: PoolState, id: int)
    requires SyncedAt(s, t, id)
    ensures (id in t.disk <==> id in Logical(s)) && (id in t.disk ==> t.disk[id] == Logical(s)[id])
    ensures (id in Logical(t) <==> id in t.disk) && (id in t.disk ==> t.disk[id] == Logical(t)[id])
    ensures id in t.frames ==> !t.frames[id].dirty && id in t.disk && t.disk[id] == t.frames[id].body
  {
  }

  /** What a sync does to one page. */
  ghost predicate SyncedAt(s: PoolState, t: PoolState, id: int) {
    && (id in t.frames <==> id in s.frames)
    && (id in s.frames ==>
          t.frames[id] == s.frames[id].(dirty := false) && id in t.disk && t.disk[id] == s.frames[id].body)
    && (id !in s.frames ==> (id in t.disk <==> id in s.disk) && (id in s.disk ==> t.disk[id] == s.disk[id]))
  }

  lemma SyncPage(s: PoolState, id: int)
    requires CleanOnDisk(s)
    ensures SyncedAt(s, SyncStep(s), id)
  {
    assert id in DirtyBodies(s.frames, s.frames.Keys) <==> id in s.frames && s.frames[id].dirty;
  }

  lemma GetLogical(s: PoolState, cap: nat, id: int)
    requires var t := s.(misses := s.misses + 1);
             CleanOnDisk(EvictIfFull(t, cap)) && Logical(EvictIfFull(t, cap)) == Logical(t)
    requires CleanOnDisk(s)
    ensures CleanOnDisk(GetStep(s, cap, id)) && Logical(GetStep(s, cap, id)) == Logical(s)
  {
    if id !in s.frames && id in s.disk {
      var t := EvictIfFull(s.(misses := s.misses + 1), cap);
      assert id in Logical(t) && Logical(t)[id] == s.disk[id];
      assert id !in t.frames;
      hide EvictIfFull;
      assert Logical(GetStep(s, cap, id)) == Logical(t);
    }
  }

  lemma PutLogical(s: PoolState, cap: nat, id: int, b: Body)
    requires CleanOnDisk(EvictIfFull(s, cap)) && Logical(EvictIfFull(s, cap)) == Logical(s)
    requires CleanOnDisk(s)
    ensures CleanOnDisk(PutStep(s, cap, id, b)) && Logical(PutStep(s, cap, id, b)) == Logical(s)[id := b]
  {
    hide EvictIfFull;
  }

  lemma {:induction false} RunSane(d: map<int, Body>, cap: nat, ops: seq<PoolOp>)
    requires cap >= 1
    ensures Sane(Run(Fresh(d), cap, ops), cap) && Logical(Run(Fresh(d), cap, ops)) == StoreRun(d, ops)
  {
    if ops == [] {
      assert Logical(Fresh(d)) == d;
    } else {
      RunSane(d, cap, ops[..|ops| - 1]);
      hide Sane;
      hide Step;
      hide StoreStep;
      hide Logical;
      StepSane(Run(Fresh(d), cap, ops[..|ops| - 1]), cap, ops[|ops| - 1]);
    }
  }

  /** Reads through the pool return what a write-through store would, whatever the capacity. */
  lemma {:induction false} ReadsTransparent(d: map<int, Body>, cap: nat, ops: seq<PoolOp>)
    requires cap >= 1
    ensures Reads(Fresh(d), cap, ops) == StoreReads(d, ops)
  {
    if ops != [] {
      var n := |ops| - 1;
      ReadsTransparent(d, cap, ops[..n]);
      RunSane(d, cap, ops[..n]);
      hide Run;
      hide StoreRun;
    }
  }

  /** After a sync the disk is the write-through store, in whatever order pages were flushed. */
  lemma SyncedDisk(d: map<int, Body>, cap: nat, ops: seq<PoolOp>)
    requires cap >= 1
    ensures var s := Run(Fresh(d), cap, ops + [Sync]); s.disk == StoreRun(d, ops) && Dirty(s.frames) == {}
  {
    hide StoreRun;
    hide Wf;
    hide Logical;
    hide CleanOnDisk;
    hide SyncStep;
    hide Dirty;
    var s := Run(Fresh(d), cap, ops);
    RunSane(d, cap, ops);
    assert (ops + [Sync])[..|ops|] == ops;
    SyncLogical(s);
  }

  // ---------------------------------------------------------------- stack inclusion

  function Take(s: seq<int>, n: nat): seq<int> {
    if |s| <= n then s else s[..n]
  }

  /** The page an operation uses, given what the store holds; reading an absent page uses none. */
  function Used(d: map<int, Body>, op: PoolOp): Option<int> {
    if op.Put? || (Fetches(op) && op.id in d) then Some(op.id) else None
  }

  /** All pages used by a trace, most recent first: the list of a pool without a bound. */
  function Recency(d: map<int, Body>, ops: seq<PoolOp>): seq<int> {
    if ops == [] then []
    else
      var n := |ops| - 1;
      match Used(StoreRun(d, ops[..n]), ops[n])
      case Some(id) => ToFront(Recency(d, ops[..n]), id)
      case None => Recency(d, ops[..n])
  }

  lemma {:induction false} WithoutAbsent(s: seq<int>, id: int)
    requires id !in s
    ensures Without(s, id) == s
  {
    if s != [] { WithoutAbsent(s[1..], id); }
  }

  /** One step moves the page used to the front and cuts the list off at the capacity. */
  lemma LruStep(s: PoolState, cap: nat, op: PoolOp)
    requires Sane(s, cap)
    ensures Step(s, cap, op).lru ==
            match Used(Logical(s), op) case Some(id) => Take(ToFront(s.lru, id), cap) case None => s.lru
  {
    hide CleanOnDisk;
    hide EvictIfFull;
    hide Wf;
    hide Push;
    hide ToFront;
    hide Take;
    if Used(Logical(s), op).Some? {
      if op.id in s.frames {
        FrontLru(s, cap, op.id);
      } else {
        CountWf(s, cap, s.misses + 1);
        if op.Put? { EnterLru(s, cap, op.id, Cached(op.body, true)); }
        if Fetches(op) { EnterLru(s.(misses := s.misses + 1), cap, op.id, Cached(s.disk[op.id], false)); }
      }
    }
  }

  lemma FrontLru(s: PoolState, cap: nat, id: int)
    requires Wf(s, cap) && id in s.frames
    ensures Take(ToFront(s.lru, id), cap) == ToFront(s.lru, id) && |ToFront(s.lru, id)| == |s.lru|
  {
    WithoutProps(s.lru, id);
  }

  lemma EnterLru(s: PoolState, cap: nat, id: int, f: Cached)
    requires Wf(s, cap) && id !in s.frames
    ensures var t := Push(EvictIfFull(s, cap), id, f);
            && t.lru == Take(ToFront(s.lru, id), cap) && id !in s.lru
            && t.evictions + |t.lru| == s.evictions + |s.lru| + 1
  {
    hide Distinct;
    WfCard(s, cap);
    WithoutAbsent(s.lru, id);
  }

  lemma {:induction false} TakeWithout(s: seq<int>, id: int, n: nat)
    ensures Take(Without(Take(s, n + 1), id), n) == Take(Without(s, id), n)
  {
    if |s| > n + 1 {
      var t := Take(s, n + 1);
      assert t[0] == s[0] && t[1..] == Take(s[1..], n);
      if s[0] != id && n > 0 {
        TakeWithout(s[1..], id, n - 1);
        assert Take(Without(t, id), n) == [s[0]] + Take(Without(t[1..], id), n - 1);
        assert Take(Without(s, id), n) == [s[0]] + Take(Without(s[1..], id), n - 1);
      }
    }
  }

  lemma TakeFront(s: seq<int>, id: int, cap: nat)
    requires cap >= 1
    ensures Take(ToFront(Take(s, cap), id), cap) == Take(ToFront(s, id), cap)
  {
    TakeWithout(s, id, cap - 1);
    hide Without;
    assert Take(ToFront(s, id), cap) == [id] + Take(Without(s, id), cap - 1);
    assert Take(ToFront(Take(s, cap), id), cap) == [id] + Take(Without(Take(s, cap), id), cap - 1);
  }

  /** The recency list of a pool is the unbounded list cut off at its capacity. */
  lemma {:induction false} LruIsRecency(d: map<int, Body>, cap: nat, ops: seq<PoolOp>)
    requires cap >= 1
    ensures Run(Fresh(d), cap, ops).lru == Take(Recency(d, ops), cap)
  {
    if ops != [] {
      var n := |ops| - 1;
      LruIsRecency(d, cap, ops[..n]);
      RunSane(d, cap, ops[..n]);
      hide Sane;
      hide Logical;
      hide Step;
      hide StoreRun;
      hide Take;
      hide ToFront;
      var s := Run(Fresh(d), cap, ops[..n]);
      LruStep(s, cap, ops[n]);
      if ops[n].Put? || Fetches(ops[n]) { TakeFront(Recency(d, ops[..n]), ops[n].id, cap); }
    }
  }

  /** A smaller pool caches a prefix of what a larger one does, and never has more hits. */
  lemma {:induction false} StackInclusion(d: map<int, Body>, small: nat, large: nat, ops: seq<PoolOp>)
    requires 1 <= small <= large
    ensures var s, t := Run(Fresh(d), small, ops), Run(Fresh(d), large, ops);
            s.lru <= t.lru && s.frames.Keys <= t.frames.Keys && s.hits <= t.hits
  {
    var s, t := Run(Fresh(d), small, ops), Run(Fresh(d), large, ops);
    LruIsRecency(d, small, ops);
    LruIsRecency(d, large, ops);
    RunSane(d, small, ops);
    RunSane(d, large, ops);
    KeysByLru(s, small, t, large);
    if ops != [] {
      var n := |ops| - 1;
      StackInclusion(d, small, large, ops[..n]);
      hide Recency;
      hide Sane;
      hide Logical;
      hide StoreRun;
      HitsStep(Run(Fresh(d), small, ops[..n]), small, ops[n]);
      HitsStep(Run(Fresh(d), large, ops[..n]), large, ops[n]);
    }
  }

  lemma KeysByLru(s: PoolState, small: nat, t: PoolState, large: nat)
    requires Wf(s, small) && Wf(t, large) && s.lru <= t.lru
    ensures s.frames.Keys <= t.frames.Keys
  {
    forall id | id in s.frames ensures id in t.frames {
      assert id in s.lru;
      assert id in t.lru;
    }
  }

  lemma HitsStep(s: PoolState, cap: nat, op: PoolOp)
    ensures Step(s, cap, op).hits == s.hits + if Fetches(op) && op.id in s.frames then 1 else 0
  {
  }

  // ---------------------------------------------------------------- counters

  function Gets(ops: seq<PoolOp>): nat {
    if ops == [] then 0 else Gets(ops[..|ops| - 1]) + if Fetches(ops[|ops| - 1]) then 1 else 0
  }

  /** Calls of Put and MarkDirty, the latter after an edit or not: the writes a write-through store would do. */
  function Writes(ops: seq<PoolOp>): nat {
    if ops == [] then 0
    else Writes(ops[..|ops| - 1]) + if Dirties(ops[|ops| - 1]) then 1 else 0
  }

  lemma SyncCount(s: PoolState)
    ensures SyncStep(s).flushes == s.flushes + |Dirty(s.frames)| && Dirty(SyncStep(s).frames) == {}
  {
    assert Dirty(s.frames) * s.frames.Keys == Dirty(s.frames);
  }

  lemma EvictCount(s: PoolState, cap: nat)
    ensures var t := EvictIfFull(s, cap); t.flushes + |Dirty(t.frames)| == s.flushes + |Dirty(s.frames)|
  {
    if |s.lru| >= cap && s.lru != [] && s.lru[|s.lru| - 1] in s.frames {
      var last := s.lru[|s.lru| - 1];
      assert Dirty(s.frames - {last}) == Dirty(s.frames) - {last};
    }
  }

  lemma SetFrame(frames: map<int, Cached>, id: int, f: Cached)
    ensures |Dirty(frames[id := f])| <= |Dirty(frames)| + 1
    ensures !f.dirty ==> |Dirty(frames[id := f])| <= |Dirty(frames)|
    ensures !f.dirty && id in frames && frames[id].dirty ==> |Dirty(frames[id := f])| == |Dirty(frames)| - 1
  {
    var D, E := Dirty(frames), Dirty(frames[id := f]);
    if f.dirty {
      assert E == D + {id};
    } else {
      assert E == D - {id};
    }
  }

  lemma GetCount(s: PoolState, cap: nat, id: int)
    ensures var t := GetStep(s, cap, id);
            && t.hits + t.misses == s.hits + s.misses + 1
            && t.flushes + |Dirty(t.frames)| <= s.flushes + |Dirty(s.frames)|
  {
    hide Dirty;
    if id !in s.frames && id in s.disk {
      var t := EvictIfFull(s.(misses := s.misses + 1), cap);
      EvictCount(s.(misses := s.misses + 1), cap);
      SetFrame(t.frames, id, Cached(s.disk[id], false));
    }
  }

  /** Every dirty page is paid for by the call that made it dirty. */
  lemma CountStep(s: PoolState, cap: nat, op: PoolOp)
    ensures var t := Step(s, cap, op);
            && t.hits + t.misses == s.hits + s.misses + (if Fetches(op) then 1 else 0)
            && t.flushes + |Dirty(t.frames)| <=
               s.flushes + |Dirty(s.frames)| + (if Dirties(op) then 1 else 0)
  {
    hide Dirty;
    match op
    case Get(id) =>
      GetCount(s, cap, id);
    case Modify(id, b) =>
      GetCount(s, cap, id);
      var t := GetStep(s, cap, id);
      if id in t.frames {
        SetFrame(t.frames, id, Cached(b, true));
        assert ModifyStep(s, cap, id, b).frames == t.frames[id := Cached(b, true)];
      }
    case Put(id, b) =>
      EvictCount(s, cap);
      SetFrame(s.frames, id, Cached(b, true));
      SetFrame(EvictIfFull(s, cap).frames, id, Cached(b, true));
    case Mark(id) =>
      if id in s.frames { SetFrame(s.frames, id, s.frames[id].(dirty := true)); }
    case Flush(id) =>
      if id in s.frames { SetFrame(s.frames, id, s.frames[id].(dirty := false)); }
    case Sync =>
      SyncCount(s);
  }

  /** A pool never writes to disk more often than write-through: flushes so far, with the flushes still
      owed, are at most the Put and MarkDirty calls; and every GetPage is a hit or a miss. */
  lemma {:induction false} AmortisedWrites(d: map<int, Body>, cap: nat, ops: seq<PoolOp>)
    ensures var s := Run(Fresh(d), cap, ops);
            s.flushes + |Dirty(s.frames)| <= Writes(ops) && s.hits + s.misses == Gets(ops)
  {
    if ops == [] {
      assert Dirty(Fresh(d).frames) == {};
    } else {
      AmortisedWrites(d, cap, ops[..|ops| - 1]);
      hide Dirty;
      hide Step;
      CountStep(Run(Fresh(d), cap, ops[..|ops| - 1]), cap, ops[|ops| - 1]);
    }
  }

  /** How many operations used a page that was not among the cap pages used last. */
  function Faults(d: map<int, Body>, cap: nat, ops: seq<PoolOp>): nat {
    if ops == [] then 0
    else
      var n := |ops| - 1;
      Faults(d, cap, ops[..n]) +
      match Used(StoreRun(d, ops[..n]), ops[n])
      case Some(id) => (if id in Take(Recency(d, ops[..n]), cap) then 0 else 1)
      case None => 0
  }

  lemma FaultStep(s: PoolState, cap: nat, op: PoolOp)
    requires Sane(s, cap)
    ensures var t := Step(s, cap, op);
            t.evictions + |t.lru| == s.evictions + |s.lru| +
              match Used(Logical(s), op) case Some(id) => (if id in s.lru then 0 else 1) case None => 0
  {
    hide CleanOnDisk;
    hide EvictIfFull;
    hide Push;
    hide ToFront;
    hide Take;
    hide Distinct;
    if Used(Logical(s), op).Some? {
      if op.id in s.frames {
        FrontLru(s, cap, op.id);
      } else {
        CountWf(s, cap, s.misses + 1);
        if op.Put? { EnterLru(s, cap, op.id, Cached(op.body, true)); }
        if Fetches(op) { EnterLru(s.(misses := s.misses + 1), cap, op.id, Cached(s.disk[op.id], false)); }
      }
    }
  }

  /** Every page brought into the pool is still there or was evicted, and nothing else is counted. */
  lemma {:induction false} EvictionsExact(d: map<int, Body>, cap: nat, ops: seq<PoolOp>)
    requires cap >= 1
    ensures var s := Run(Fresh(d), cap, ops); s.evictions + |s.frames| == Faults(d, cap, ops) && |s.frames| == |s.lru|
  {
    RunSane(d, cap, ops);
    WfCard(Run(Fresh(d), cap, ops), cap);
    if ops != [] {
      var n := |ops| - 1;
      EvictionsExact(d, cap, ops[..n]);
      RunSane(d, cap, ops[..n]);
      LruIsRecency(d, cap, ops[..n]);
      hide Sane;
      hide Logical;
      hide Step;
      hide StoreRun;
      hide Take;
      hide Recency;
      FaultStep(Run(Fresh(d), cap, ops[..n]), cap, ops[n]);
    }
  }
}
