/** Whole runs of a unique tree: the answers are those of a sorted list of pairs, with or without a
    buffer pool. */
module Runs {
  import opened Pages
  import opened Storage
  import opened Pool
  import opened Access
  import opened Levels
  import opened NodeOps
  import opened Trees
  import opened Lookup
  import opened Scanning
  import opened Counting
  import opened Cousins
  import opened LeafRepair
  import opened BTree
  import opened Statistics

  /** Remove deletes a key only if the tree can repair itself afterwards. */
  datatype Op = Add(key: int, recordID: int) | Find(key: int) | List(start: int, end: int) | Remove(key: int)

  datatype Reply =
    | Added(out: Outcome)
    | Found(recordID: int, found: bool)
    | Listed(rows: seq<Entry>, out: Outcome)
    | Removed(out: Outcome)
    | Refused

  /** The tree that an operation found. */
  datatype Snapshot = Snapshot(w: World, S: seq<seq<Entry>>, root: int)

  /** The key an operation descends for is that of an encodable key. */
  predicate Admissible(op: Op) {
    LOW < (match op case Add(k, _) => k case Find(k) => k case List(s, _) => s case Remove(k) => k) < TOP
  }

  /** The reference: what a list of pairs in key order answers.  Only the deletion of a stored
      key that the tree at hand cannot repair is refused. */
  ghost predicate Right(rows: seq<Entry>, op: Op, r: Reply, t: Snapshot, cap: int, keySize: nat) {
    match op
    case Add(k, _) => r == Added(if k in ToMap(rows) then DuplicateKey else Done)
    case Find(k) => r == if k in ToMap(rows) then Found(ToMap(rows)[k], true) else Found(0, false)
    case List(s, e) => r == if s > e then Listed([], InvalidRange) else Listed(Range(rows, s, e), Done)
    case Remove(k) =>
      r == if k !in ToMap(rows) then Removed(KeyNotFound)
           else if Deletable(t.w.m, cap, t.S, k, keySize) then Removed(Done) else Refused
  }

  /** And what the list is afterwards. */
  ghost function Next(rows: seq<Entry>, op: Op, r: Reply): seq<Entry> {
    match op
    case Add(k, v) => if k in ToMap(rows) then rows else InsertAt(rows, Rank(rows, k), Entry(k, v))
    case Remove(k) => if r == Removed(Done) && Rank(rows, k) > 0 then RemoveAt(rows, Rank(rows, k) - 1) else rows
    case _ => rows
  }

  ghost function After(rows: seq<Entry>, ops: seq<Op>, rs: seq<Reply>): seq<Entry>
    requires |rs| == |ops|
  {
    if ops == [] then rows
    else var n := |ops| - 1; Next(After(rows, ops[..n], rs[..n]), ops[n], rs[n])
  }

  /** t is a B+ tree with exactly the given rows. */
  ghost predicate Holds(t: Snapshot, cap: int, rows: seq<Entry>) {
    Whole(t.w, cap, t.S, t.root) && t.S != [] && t.S[0] == rows
  }

  /** Every reply is right for the list so far and for a tree that held it. */
  ghost predicate AllRight(rows: seq<Entry>, ops: seq<Op>, rs: seq<Reply>, ts: seq<Snapshot>, cap: int, keySize: nat)
    requires |ts| == |rs| == |ops|
  {
    ops == [] ||
    var n := |ops| - 1; var sofar := After(rows, ops[..n], rs[..n]);
    && AllRight(rows, ops[..n], rs[..n], ts[..n], cap, keySize)
    && Holds(ts[n], cap, sofar) && Right(sofar, ops[n], rs[n], ts[n], cap, keySize)
  }

  /** Two runs that refuse nothing give the same answers. */
  lemma {:induction false} Determined(rows: seq<Entry>, ops: seq<Op>, rs: seq<Reply>, ts: seq<Snapshot>,
                                      rs': seq<Reply>, ts': seq<Snapshot>, cap: int, keySize: nat)
    requires |rs| == |rs'| == |ops| == |ts| == |ts'|
    requires AllRight(rows, ops, rs, ts, cap, keySize) && AllRight(rows, ops, rs', ts', cap, keySize)
    requires forall i :: 0 <= i < |ops| ==> rs[i] != Refused && rs'[i] != Refused
    ensures rs == rs' && After(rows, ops, rs) == After(rows, ops, rs')
  {
    hide Holds;
    hide Deletable;
    if ops != [] {
      var n := |ops| - 1;
      Determined(rows, ops[..n], rs[..n], ts[..n], rs'[..n], ts'[..n], cap, keySize);
      assert rs == rs[..n] + [rs[n]] && rs' == rs'[..n] + [rs'[n]];
    }
  }

  /** Only trees of height above 2 refuse a deletion. */
  lemma RefusedIsHigh(rows: seq<Entry>, op: Op, t: Snapshot, cap: int, keySize: nat)
    requires Holds(t, cap, rows) && Admissible(op) && Right(rows, op, Refused, t, cap, keySize)
    ensures op.Remove? && op.key in ToMap(rows) && |t.S| > 3
  {
    hide Whole;
    hide Deletable;
    if op.Remove? && |t.S| <= 3 { LowTreesAreSafe(t.w, cap, t.S, t.root, op.key); }
  }

  // ---------------------------------------------------------------- splits and merges

  /** By how many levels the tree grew, step by step, up to the given height; steps down do not count. */
  ghost function Rises(ts: seq<Snapshot>, height: int): nat {
    if ts == [] then 0
    else
      var n := |ts| - 1; var was := |ts[n].S| - 1;
      Rises(ts[..n], was) + if height > was then height - was else 0
  }

  /** And by how many it shrank. */
  ghost function Falls(ts: seq<Snapshot>, height: int): nat {
    if ts == [] then 0
    else
      var n := |ts| - 1; var was := |ts[n].S| - 1;
      Falls(ts[..n], was) + if height < was then was - height else 0
  }

  lemma NoSteps(rows: seq<Entry>, height: int, cap: int, keySize: nat)
    ensures Rises([], height) == 0 && After(rows, [], []) == rows && AllRight(rows, [], [], [], cap, keySize)
  {
  }

  lemma OneMoreStep(ts: seq<Snapshot>, t: Snapshot, height: int)
    ensures var was := |t.S| - 1; Rises(ts + [t], height) == Rises(ts, was) + if height > was then height - was else 0
  {
    assert (ts + [t])[..|ts|] == ts;
  }

  lemma {:induction false} RisesLessFalls(ts: seq<Snapshot>, height: int)
    ensures ts != [] ==> Rises(ts, height) - Falls(ts, height) == height - (|ts[0].S| - 1)
    ensures ts == [] ==> Rises(ts, height) == Falls(ts, height) == 0
  {
    if ts != [] { RisesLessFalls(ts[..|ts| - 1], |ts[|ts| - 1].S| - 1); }
  }

  method Perform(t: BPlusTree, op: Op) returns (r: Reply)
    requires t.Valid() && t.unique && Admissible(op)
    modifies t, t.io, t.io.pm, t.io.pool, t.io.pages
    ensures t.Valid() && t.Excess() == old(t.Excess())
    ensures fresh(t.io.pages - old(t.io.pages)) && old(t.io.pages) <= t.io.pages
    ensures Right(old(t.Rows()), op, r, old(Shot(t)), t.cap, t.keySize)
    ensures t.Rows() == Next(old(t.Rows()), op, r)
    ensures op.Remove? ==> t.pageSplits == old(t.pageSplits) && t.io.pm.nextPageID == old(t.io.pm.nextPageID)
    ensures if op.Remove? then t.MergesCounted() else t.pageMerges == old(t.pageMerges) && t.SplitsCounted()
  {
    hide BPlusTree.Valid;
    hide BPlusTree.Ruined;
    hide Total;
    hide ToMap;
    hide Range;
    hide InsertAt;
    hide RemoveAt;
    hide Rank;
    hide Deletable;
    hide Stores;
    match op
    case Add(k, v) =>
      var out := t.Insert(k, v);
      r := Added(out);
    case Find(k) =>
      var rec, found := t.Search(k);
      r := Found(rec, found);
    case List(s, e) =>
      var rows, out := t.Scan(s, e);
      r := Listed(rows, out);
    case Remove(k) =>
      var safe := t.CanDelete(k);
      if safe {
        var out := t.Delete(k);
        r := Removed(out);
      } else {
        r := Refused;
      }
  }

  /** The tree as it is now. */
  ghost function Shot(t: BPlusTree): Snapshot
    reads t, t.io, t.io.pm
  {
    Snapshot(t.W(), t.S, t.rootID)
  }

  lemma ShotHolds(t: BPlusTree)
    requires t.Valid()
    ensures Holds(Shot(t), t.cap, t.Rows())
  {
    hide Whole;
    hide PageAccess.Valid;
    TreeRows(t.W(), t.cap, t.S, t.rootID);
  }

  lemma OneMoreReply(rows: seq<Entry>, ops: seq<Op>, i: nat, rs: seq<Reply>, r: Reply, ts: seq<Snapshot>, t: Snapshot,
                     cap: int, keySize: nat)
    requires |ts| == |rs| == i < |ops| && AllRight(rows, ops[..i], rs, ts, cap, keySize)
    requires var sofar := After(rows, ops[..i], rs); Holds(t, cap, sofar) && Right(sofar, ops[i], r, t, cap, keySize)
    ensures AllRight(rows, ops[..i + 1], rs + [r], ts + [t], cap, keySize)
    ensures After(rows, ops[..i + 1], rs + [r]) == Next(After(rows, ops[..i], rs), ops[i], r)
  {
    hide Right;
    hide Next;
    hide Holds;
    assert ops[..i + 1][..i] == ops[..i] && (rs + [r])[..i] == rs && (ts + [t])[..i] == ts;
  }

  /** Every run on a tree answers as the list does. */
  method Replay(t: BPlusTree, ops: seq<Op>) returns (rs: seq<Reply>, ghost ts: seq<Snapshot>)
    requires t.Valid() && t.unique && forall i :: 0 <= i < |ops| ==> Admissible(ops[i])
    modifies t, t.io, t.io.pm, t.io.pool, t.io.pages
    ensures t.Valid() && t.Excess() == old(t.Excess())
    ensures fresh(t.io.pages - old(t.io.pages)) && old(t.io.pages) <= t.io.pages
    ensures |ts| == |rs| == |ops| && AllRight(old(t.Rows()), ops, rs, ts, t.cap, t.keySize)
    ensures t.Rows() == After(old(t.Rows()), ops, rs)
    ensures (if ts == [] then Shot(t) else ts[0]) == old(Shot(t))
    ensures t.pageSplits - old(t.pageSplits) ==
            t.io.pm.nextPageID - old(t.io.pm.nextPageID) - Rises(ts, t.Height())
    ensures (forall i :: 0 <= i < |ops| ==> !ops[i].Remove?) ==> t.pageMerges == old(t.pageMerges)
  {
    hide BPlusTree.Valid;
    hide BPlusTree.Excess;
    hide Right;
    hide Next;
    hide Holds;
    hide Rises;
    hide AllRight;
    hide After;
    rs, ts := [], [];
    NoSteps(t.Rows(), t.Height(), t.cap, t.keySize);
    ghost var rows := t.Rows();
    assert ops[..0] == [];
    for i := 0 to |ops|
      invariant t.Valid() && t.Excess() == old(t.Excess())
      invariant fresh(t.io.pages - old(t.io.pages)) && old(t.io.pages) <= t.io.pages
      invariant |ts| == |rs| == i && AllRight(rows, ops[..i], rs, ts, t.cap, t.keySize)
      invariant t.Rows() == After(rows, ops[..i], rs)
      invariant (if ts == [] then Shot(t) else ts[0]) == old(Shot(t))
      invariant t.pageSplits - old(t.pageSplits) ==
                t.io.pm.nextPageID - old(t.io.pm.nextPageID) - Rises(ts, t.Height())
      invariant (forall j :: 0 <= j < i ==> !ops[j].Remove?) ==> t.pageMerges == old(t.pageMerges)
    {
      ShotHolds(t);
      ghost var shot := Shot(t);
      var r := Perform(t, ops[i]);
      OneMoreStep(ts, shot, t.Height());
      OneMoreReply(rows, ops, i, rs, r, ts, shot, t.cap, t.keySize);
      rs, ts := rs + [r], ts + [shot];
    }
    assert ops[..|ops|] == ops;
  }

  /** Any run on a fresh tree, followed by a sync if there is a pool: the walk counts one page for every
      split that was not undone by a merge and one for every level, and one entry for every pair of the
      list.  Splits are the pages ever allocated, the first leaf and the new roots apart; merges are those
      that are gone again, the old roots apart; without a deletion there is none. */
  method RunAndCount(ops: seq<Op>, pm: PageManager, pool: BufferPool?, cap: nat, keySize: nat)
    returns (rs: seq<Reply>, st: TreeStats, ghost ts: seq<Snapshot>)
    requires OddCapacity(cap) && pm.nextPageID == 0 && forall i :: 0 <= i < |ops| ==> Admissible(ops[i])
    requires pool != null ==> pool.pm == pm && pool.items == map[] && pool.Valid()
    modifies pm, pool
    ensures |ts| == |rs| == |ops| && AllRight([], ops, rs, ts, cap, keySize)
    ensures st.totalPages == st.pageSplits - st.pageMerges + st.height
    ensures st.totalEntries == |After([], ops, rs)|
    ensures st.pageSplits == pm.nextPageID - 2 - Rises(ts, st.height)
    ensures st.pageMerges == pm.nextPageID - 1 - st.totalPages - Falls(ts, st.height)
    ensures (forall i :: 0 <= i < |ops| ==> !ops[i].Remove?) ==>
      st.pageMerges == 0 && st.pageSplits == st.totalPages - st.height
  {
    hide BPlusTree.Valid;
    hide BPlusTree.Excess;
    hide AllRight;
    hide After;
    hide Total;
    var t := new BPlusTree(pm, pool, cap, true, keySize);
    rs, ts := Replay(t, ops);
    if pool != null {
      t.Sync();
    } else {
      t.UnpooledOnDisk();
    }
    st := Stats(t);
    RisesLessFalls(ts, st.height);
  }

  /** The same run without a pool and behind a pool of any capacity gives the same answers, unless a
      deletion is refused. */
  method CompareRuns(ops: seq<Op>, poolCapacity: int, cap: nat, keySize: nat)
    returns (plain: seq<Reply>, pooled: seq<Reply>)
    requires OddCapacity(cap) && forall i :: 0 <= i < |ops| ==> Admissible(ops[i])
    ensures |plain| == |pooled| == |ops|
    ensures (forall i :: 0 <= i < |ops| ==> plain[i] != Refused && pooled[i] != Refused) ==> plain == pooled
    ensures (forall i :: 0 <= i < |ops| ==> !ops[i].Remove?) ==> plain == pooled
  {
    hide BPlusTree.Valid;
    hide AllRight;
    hide After;
    var pm := new PageManager();
    var t := new BPlusTree(pm, null, cap, true, keySize);
    ghost var ts, ts';
    plain, ts := Replay(t, ops);
    var pm' := new PageManager();
    var pool := new BufferPool(pm', poolCapacity);
    var t' := new BPlusTree(pm', pool, cap, true, keySize);
    pooled, ts' := Replay(t', ops);
    OnlyRemovalsRefused([], ops, plain, ts, cap, keySize);
    OnlyRemovalsRefused([], ops, pooled, ts', cap, keySize);
    if forall i :: 0 <= i < |ops| ==> plain[i] != Refused && pooled[i] != Refused {
      Determined([], ops, plain, ts, pooled, ts', cap, keySize);
    }
  }

  lemma {:induction false} OnlyRemovalsRefused(rows: seq<Entry>, ops: seq<Op>, rs: seq<Reply>, ts: seq<Snapshot>,
                                               cap: int, keySize: nat)
    requires |ts| == |rs| == |ops| && AllRight(rows, ops, rs, ts, cap, keySize)
    ensures forall i :: 0 <= i < |ops| && !ops[i].Remove? ==> rs[i] != Refused
  {
    hide Holds;
    hide Deletable;
    if ops != [] {
      var n := |ops| - 1;
      OnlyRemovalsRefused(rows, ops[..n], rs[..n], ts[..n], cap, keySize);
      forall i | 0 <= i < |ops| && !ops[i].Remove? ensures rs[i] != Refused {
        if i < n { assert ops[..n][i] == ops[i] && rs[..n][i] == rs[i]; }
      }
    }
  }
}
