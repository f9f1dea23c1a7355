/** The buffer pool as a value: what each of its operations does to the recency list, the cached
    pages, the disk and the counters. */
module Lru {
  import opened Pages

  datatype Cached = Cached(body: Body, dirty: bool)

  /** `lru` lists the cached pages, most recently used first. */
  datatype PoolState = PoolState(
    lru: seq<int>,
    frames: map<int, Cached>,
    disk: map<int, Body>,
    hits: nat,
    misses: nat,
    evictions: nat,
    flushes: nat)

  datatype Option<T> = None | Some(value: T)

  const EMPTY: PoolState := PoolState([], map[], map[], 0, 0, 0, 0)

  ghost predicate Distinct(s: seq<int>) {
    forall i, j :: 0 <= i < j < |s| ==> s[i] != s[j]
  }

  /** The map and the recency list are in bijection and never exceed the capacity. */
  ghost predicate Wf(s: PoolState, cap: nat) {
    && cap >= 1
    && Distinct(s.lru)
    && (forall id :: id in s.lru <==> id in s.frames)
    && |s.lru| <= cap
  }

  function Without(s: seq<int>, id: int): seq<int> {
    if s == [] then [] else if s[0] == id then s[1..] else [s[0]] + Without(s[1..], id)
  }

  function ToFront(s: seq<int>, id: int): seq<int> {
    [id] + Without(s, id)
  }

  function EvictIfFull(s: PoolState, cap: nat): PoolState {
    if |s.lru| < cap || s.lru == [] then s
    else
      var last := s.lru[|s.lru| - 1];
      if last !in s.frames then s
      else
        var f := s.frames[last];
        s.(lru := s.lru[..|s.lru| - 1],
           frames := s.frames - {last},
           disk := if f.dirty then s.disk[last := f.body] else s.disk,
           evictions := s.evictions + 1,
           flushes := if f.dirty then s.flushes + 1 else s.flushes)
  }

  function Push(s: PoolState, id: int, f: Cached): PoolState {
    s.(lru := [id] + s.lru, frames := s.frames[id := f])
  }

  function GetStep(s: PoolState, cap: nat, id: int): PoolState {
    if id in s.frames then s.(lru := ToFront(s.lru, id), hits := s.hits + 1)
    else if id !in s.disk then s.(misses := s.misses + 1)
    else Push(EvictIfFull(s.(misses := s.misses + 1), cap), id, Cached(s.disk[id], false))
  }

  function GetResult(s: PoolState, id: int): Option<Body> {
    if id in s.frames then Some(s.frames[id].body)
    else if id in s.disk then Some(s.disk[id]) else None
  }

  function PutStep(s: PoolState, cap: nat, id: int, b: Body): PoolState {
    if id in s.frames then s.(lru := ToFront(s.lru, id), frames := s.frames[id := Cached(b, true)])
    else Push(EvictIfFull(s, cap), id, Cached(b, true))
  }

  function MarkStep(s: PoolState, id: int): PoolState {
    if id in s.frames then s.(frames := s.frames[id := s.frames[id].(dirty := true)]) else s
  }

  /** What becomes of the pool when a client edits a cached page in place. */
  function EditStep(s: PoolState, id: int, b: Body): PoolState {
    if id in s.frames then s.(frames := s.frames[id := s.frames[id].(body := b)]) else s
  }

  /** A page is fetched, edited in place and marked; if there is no such page nothing is edited. */
  function ModifyStep(s: PoolState, cap: nat, id: int, b: Body): PoolState {
    MarkStep(EditStep(GetStep(s, cap, id), id, b), id)
  }

  function FlushStep(s: PoolState, id: int): PoolState {
    if id in s.frames && s.frames[id].dirty then
      s.(disk := s.disk[id := s.frames[id].body],
         frames := s.frames[id := s.frames[id].(dirty := false)],
         flushes := s.flushes + 1)
    else s
  }

  function Dirty(frames: map<int, Cached>): set<int> {
    set id | id in frames && frames[id].dirty
  }

  function DirtyBodies(frames: map<int, Cached>, T: set<int>): map<int, Body> {
    map id | id in frames && frames[id].dirty && id in T :: frames[id].body
  }

  function Cleaned(frames: map<int, Cached>, T: set<int>): map<int, Cached> {
    map id | id in frames :: if id in T then frames[id].(dirty := false) else frames[id]
  }

  /** All pages of T flushed, in whatever order. */
  function FlushSet(s: PoolState, T: set<int>): PoolState {
    s.(disk := s.disk + DirtyBodies(s.frames, T),
       frames := Cleaned(s.frames, T),
       flushes := s.flushes + |Dirty(s.frames) * T|)
  }

  function SyncStep(s: PoolState): PoolState {
    FlushSet(s, s.frames.Keys)
  }

  lemma CleanOneMore(frames: map<int, Cached>, T: set<int>, id: int)
    requires id in frames && id !in T
    ensures Cleaned(frames, T + {id}) == Cleaned(frames, T)[id := frames[id].(dirty := false)]
    ensures frames[id].dirty ==>
      DirtyBodies(frames, T + {id}) == DirtyBodies(frames, T)[id := frames[id].body]
    ensures !frames[id].dirty ==> DirtyBodies(frames, T + {id}) == DirtyBodies(frames, T)
    ensures |Dirty(frames) * (T + {id})| == |Dirty(frames) * T| + if frames[id].dirty then 1 else 0
  {
    assert Dirty(frames) * (T + {id}) ==
           if frames[id].dirty then Dirty(frames) * T + {id} else Dirty(frames) * T;
  }

  /** Flushing one more page extends the flushed set: the order of the flushes does not matter. */
  lemma FlushOneMore(s: PoolState, T: set<int>, id: int)
    requires id in s.frames && id !in T
    ensures FlushStep(FlushSet(s, T), id) == FlushSet(s, T + {id})
  {
    CleanOneMore(s.frames, T, id);
    var t := Cleaned(s.frames, T);
    assert id in t && t[id] == s.frames[id];
    hide DirtyBodies;
    hide Dirty;
    if s.frames[id].dirty {
      var x, y := s.disk, DirtyBodies(s.frames, T);
      assert x + y[id := s.frames[id].body] == (x + y)[id := s.frames[id].body];
    } else {
      assert t[id := s.frames[id]] == t;
    }
  }

  lemma FlushNone(s: PoolState)
    ensures FlushSet(s, {}) == s
  {
    assert Cleaned(s.frames, {}) == s.frames;
    assert s.disk + DirtyBodies(s.frames, {}) == s.disk;
  }

  // ---------------------------------------------------------------- edits in place

  /** An edit that is marked reaches the disk whichever way the page leaves the pool, and no other page
      is touched. */
  lemma MarkedSurvives(s: PoolState, cap: nat, id: int, b: Body)
    requires id in s.frames
    ensures var t := MarkStep(EditStep(s, id, b), id);
            && t.disk == s.disk && t.lru == s.lru && t.frames - {id} == s.frames - {id}
            && id in SyncStep(t).disk && SyncStep(t).disk[id] == b
            && id in FlushStep(t, id).disk && FlushStep(t, id).disk[id] == b
            && (id !in EvictIfFull(t, cap).frames ==>
                  id in EvictIfFull(t, cap).disk && EvictIfFull(t, cap).disk[id] == b)
  {
    var t := MarkStep(EditStep(s, id, b), id);
    assert id in DirtyBodies(t.frames, t.frames.Keys) && DirtyBodies(t.frames, t.frames.Keys)[id] == b;
  }

  /** An edit that is not marked reaches the disk only if the page was dirty before. */
  lemma UnmarkedIsLost(s: PoolState, id: int, b: Body)
    requires id in s.frames && id in s.disk && s.disk[id] != b
    ensures var t := SyncStep(EditStep(s, id, b)); id in t.disk && (t.disk[id] == b <==> s.frames[id].dirty)
  {
    var t := EditStep(s, id, b);
    assert id in DirtyBodies(t.frames, t.frames.Keys) <==> s.frames[id].dirty;
  }

  /** Fetching caches a page exactly if there is one. */
  lemma NothingToEdit(s: PoolState, cap: nat, id: int, b: Body)
    requires GetResult(s, id) == None
    ensures ModifyStep(s, cap, id, b) == GetStep(s, cap, id)
  {
  }

  // ---------------------------------------------------------------- well-formedness

  lemma DistinctTail(s: seq<int>)
    requires Distinct(s) && s != []
    ensures Distinct(s[1..]) && s[0] !in s[1..]
    ensures forall x :: x in s <==> x == s[0] || x in s[1..]
  {
    assert s == [s[0]] + s[1..];
  }

  lemma DistinctCons(x: int, s: seq<int>)
    requires Distinct(s) && x !in s
    ensures Distinct([x] + s)
  {
  }

  lemma {:induction false} WithoutProps(s: seq<int>, id: int)
    requires Distinct(s)
    ensures Distinct(Without(s, id))
    ensures forall x :: x in Without(s, id) <==> x in s && x != id
    ensures |Without(s, id)| == if id in s then |s| - 1 else |s|
  {
    if s != [] {
      DistinctTail(s);
      hide Distinct;
      if s[0] != id {
        WithoutProps(s[1..], id);
        DistinctCons(s[0], Without(s[1..], id));
      }
    }
  }

  lemma CountWf(s: PoolState, cap: nat, misses: nat)
    requires Wf(s, cap)
    ensures Wf(s.(misses := misses), cap)
  {
    hide Distinct;
  }

  lemma EvictWf(s: PoolState, cap: nat)
    requires Wf(s, cap)
    ensures Wf(EvictIfFull(s, cap), cap) && |EvictIfFull(s, cap).lru| < cap
  {
    if |s.lru| == cap {
      var n := |s.lru| - 1;
      assert s.lru == s.lru[..n] + [s.lru[n]];
      assert s.lru[n] in s.lru;
      var t := EvictIfFull(s, cap);
      forall id ensures id in t.lru <==> id in t.frames {
        assert id in s.lru <==> id in s.lru[..n] || id == s.lru[n];
      }
    }
  }

  lemma FrontWf(s: PoolState, cap: nat, id: int)
    requires Wf(s, cap) && id in s.frames
    ensures Wf(s.(lru := ToFront(s.lru, id)), cap)
  {
    WithoutProps(s.lru, id);
    DistinctCons(id, Without(s.lru, id));
    hide Distinct;
  }

  lemma PushWf(s: PoolState, cap: nat, id: int, f: Cached)
    requires Wf(s, cap) && id !in s.frames && |s.lru| < cap
    ensures Wf(Push(s, id, f), cap)
  {
    DistinctCons(id, s.lru);
    hide Distinct;
  }

  lemma GetWf(s: PoolState, cap: nat, id: int)
    requires Wf(s, cap)
    ensures Wf(GetStep(s, cap, id), cap)
  {
    if id in s.frames {
      FrontWf(s, cap, id);
    } else if id in s.disk {
      var t := s.(misses := s.misses + 1);
      EvictWf(t, cap);
      PushWf(EvictIfFull(t, cap), cap, id, Cached(s.disk[id], false));
    }
  }

  lemma PutWf(s: PoolState, cap: nat, id: int, b: Body)
    requires Wf(s, cap)
    ensures Wf(PutStep(s, cap, id, b), cap)
  {
    if id in s.frames {
      FrontWf(s, cap, id);
    } else {
      EvictWf(s, cap);
      PushWf(EvictIfFull(s, cap), cap, id, Cached(b, true));
    }
  }

  lemma FlushWf(s: PoolState, cap: nat, id: int)
    requires Wf(s, cap)
    ensures Wf(FlushStep(s, id), cap)
  {
  }

  lemma MarkWf(s: PoolState, cap: nat, id: int)
    requires Wf(s, cap)
    ensures Wf(MarkStep(s, id), cap)
  {
  }

  lemma EditWf(s: PoolState, cap: nat, id: int, b: Body)
    requires Wf(s, cap)
    ensures Wf(EditStep(s, id, b), cap)
  {
  }

  lemma {:induction false} DistinctCard(s: seq<int>, T: set<int>)
    requires Distinct(s) && forall x :: x in s <==> x in T
    ensures |s| == |T|
  {
    if s == [] {
      assert forall x :: x in T ==> x in s;
      assert T == {};
    } else {
      DistinctTail(s);
      assert s[0] in s;
      DistinctCard(s[1..], T - {s[0]});
    }
  }

  /** As many list nodes as map entries; the least recently used page is cached. */
  lemma WfCard(s: PoolState, cap: nat)
    requires Wf(s, cap)
    ensures |s.frames| == |s.lru| <= cap
    ensures s.lru != [] ==> s.lru[|s.lru| - 1] in s.frames
  {
    DistinctCard(s.lru, s.frames.Keys);
    if s.lru != [] { assert s.lru[|s.lru| - 1] in s.lru; }
  }

  lemma SomeElement(T: set<int>)
    ensures T == {} || exists id :: id in T
  {
    assert (forall id :: id !in T) ==> T == {};
  }
}
