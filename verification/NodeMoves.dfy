/** Moving one entry between two neighbouring pages, in place. */
module NodeMoves {
  import opened Pages
  import opened Levels
  import opened NodeOps
  import opened Node
  import opened Shrinking

  /** Borrows the last entry of the left leaf for the right one, or the first entry of the right leaf
      for the left one, and returns the new separator. */
  method RedistributeLeaves(l: Page, r: Page, fromLeft: bool, cap: nat) returns (sep: int)
    requires l != r && l.body.Leaf? && r.body.Leaf?
    requires if fromLeft then |l.body.entries| >= 2 && |r.body.entries| < cap
             else |r.body.entries| >= 2 && |l.body.entries| < cap
    modifies l, r
    ensures l.body == ShiftLeft(old(l.body), old(r.body), 0, fromLeft)
    ensures r.body == ShiftRight(old(l.body), old(r.body), 0, fromLeft)
    ensures sep == ShiftKey(old(l.body), old(r.body), fromLeft)
  {
    if fromLeft {
      var last := |l.body.entries| - 1;
      var entry := l.body.entries[last];
      l.DeleteEntry(last);
      assert RemoveAt(old(l.body).entries, last) == old(l.body).entries[..last];
      r.InsertEntry(0, entry, cap);
      assert InsertAt(old(r.body).entries, 0, entry) == [entry] + old(r.body).entries;
      return entry.key;
    }
    var entry := r.body.entries[0];
    r.DeleteEntry(0);
    assert RemoveAt(old(r.body).entries, 0) == old(r.body).entries[1..];
    l.InsertEntry(|l.body.entries|, entry, cap);
    assert InsertAt(old(l.body).entries, |old(l.body).entries|, entry) == old(l.body).entries + [entry];
    return r.body.entries[0].key;
  }

  /** The child id that the code takes for that of an entry: the bytes behind the first eight. */
  function CutChild(e: Entry, keySize: nat): int {
    if keySize == 8 then e.val else e.key % 0x1_0000_0000_0000_0000
  }

  /** The left page after an internal redistribution.  The old separator is cut to eight bytes before
      it comes down, so with wider keys the page that takes it gets an entry of another size. */
  function MovedLeft(l: Body, r: Body, sep: int, fromLeft: bool, keySize: nat): Body {
    if keySize == 8 then ShiftLeft(l, r, sep, fromLeft)
    else if fromLeft && l.Inner? && l.entries != [] then Inner(l.leftmost, l.entries[..|l.entries| - 1])
    else Garbled
  }

  /** The right page after it. */
  function MovedRight(l: Body, r: Body, sep: int, fromLeft: bool, keySize: nat): Body {
    if keySize == 8 then ShiftRight(l, r, sep, fromLeft)
    else if !fromLeft && r.Inner? && r.entries != [] then Inner(CutChild(r.entries[0], keySize), r.entries[1..])
    else Garbled
  }

  /** The page that lends loses its entry next to the other page. */
  lemma LenderLoses(l: Body, r: Body, sep: int, fromLeft: bool)
    requires (if fromLeft then l else r).Leaf? || (if fromLeft then l else r).Inner?
    requires Entries(if fromLeft then l else r) != []
    ensures var es := Entries(if fromLeft then l else r);
            Entries(if fromLeft then ShiftLeft(l, r, sep, true) else ShiftRight(l, r, sep, false)) ==
            if fromLeft then es[..|es| - 1] else es[1..]
  {
  }

  /** The same between internal pages: the old separator comes down with the child it moves past, and
      the key of the moved entry goes up. */
  method RedistributeInners(l: Page, r: Page, fromLeft: bool, oldSep: int, cap: nat, keySize: nat) returns (sep: int)
    requires l != r && l.body.Inner? && r.body.Inner?
    requires if fromLeft then |l.body.entries| >= 1 && |r.body.entries| < cap
             else |r.body.entries| >= 1 && |l.body.entries| < cap
    modifies l, r
    ensures l.body == MovedLeft(old(l.body), old(r.body), oldSep, fromLeft, keySize)
    ensures r.body == MovedRight(old(l.body), old(r.body), oldSep, fromLeft, keySize)
    ensures sep == ShiftKey(old(l.body), old(r.body), fromLeft)
  {
    if fromLeft {
      var last := |l.body.entries| - 1;
      var entry := l.body.entries[last];
      var oldLeftmost := r.body.leftmost;
      l.DeleteEntry(last);
      assert RemoveAt(old(l.body).entries, last) == old(l.body).entries[..last];
      r.InsertEntry(0, Entry(oldSep, oldLeftmost), cap, keySize == 8);
      assert InsertAt(old(r.body).entries, 0, Entry(oldSep, oldLeftmost)) ==
             [Entry(oldSep, oldLeftmost)] + old(r.body).entries;
      r.SetLeftmost(CutChild(entry, keySize));
      return entry.key;
    }
    var oldLeftmost := r.body.leftmost;
    var entry := r.body.entries[0];
    r.DeleteEntry(0);
    assert RemoveAt(old(r.body).entries, 0) == old(r.body).entries[1..];
    l.InsertEntry(|l.body.entries|, Entry(oldSep, oldLeftmost), cap, keySize == 8);
    assert InsertAt(old(l.body).entries, |old(l.body).entries|, Entry(oldSep, oldLeftmost)) ==
           old(l.body).entries + [Entry(oldSep, oldLeftmost)];
    r.SetLeftmost(CutChild(entry, keySize));
    return entry.key;
  }

  /** Replaces the entry at idx: delete, then insert.  Past the last entry there is nothing to
      delete, and a full page then overflows. */
  function Reseat(b: Body, idx: nat, e: Entry, cap: nat): Body
    requires idx <= |Entries(b)|
  {
    if idx < |Entries(b)| then WithEntries(b, Entries(b)[idx := e])
    else if |Entries(b)| < cap then WithEntries(b, Entries(b) + [e])
    else Garbled
  }

  /** Drops the entry at idx, if there is one. */
  function DropEntry(b: Body, idx: nat): Body {
    if idx < |Entries(b)| then WithEntries(b, RemoveAt(Entries(b), idx)) else b
  }

  method ReplaceEntry(p: Page, idx: nat, e: Entry, cap: nat)
    requires p.body.Inner? && idx <= |p.body.entries| <= cap
    modifies p
    ensures p.body == Reseat(old(p.body), idx, e, cap)
  {
    var es := p.body.entries;
    p.DeleteEntry(idx);
    p.InsertEntry(idx, e, cap);
    if idx < |es| {
      assert InsertAt(RemoveAt(es, idx), idx, e) == es[idx := e];
    } else {
      assert InsertAt(es, idx, e) == es + [e];
    }
  }

  /** The child before `child` in an internal page, 0 if it is the first. */
  function LeftSibling(b: Body, child: int): int
    requires b.Inner?
  {
    var idx := ChildIndex(b, child);
    if idx >= |b.entries| then 0 else if idx == 0 then b.leftmost else b.entries[idx - 1].val
  }

  /** The child after `child`, 0 if it is the last. */
  function RightSibling(b: Body, child: int): int
    requires b.Inner?
  {
    var idx := ChildIndex(b, child);
    if idx >= |b.entries| then (if b.entries == [] then 0 else b.entries[0].val)
    else if idx + 1 < |b.entries| then b.entries[idx + 1].val else 0
  }

  method FindSiblingPageIDs(b: Body, child: int) returns (left: int, right: int)
    requires b.Inner? && |b.entries| > 0
    ensures left == LeftSibling(b, child) && right == RightSibling(b, child)
  {
    var idx, found := FindChildIndex(b, child);
    var n := |b.entries|;
    if idx == n {
      return 0, b.entries[0].val;
    }
    left := if idx == 0 then b.leftmost else b.entries[idx - 1].val;
    right := if idx + 1 < n then b.entries[idx + 1].val else 0;
  }

  // ---------------------------------------------------------------- split and merge undo each other

  /** Merging the two halves of a split page gives back its entries, its links and its leftmost
      child. */
  lemma MergeUndoesSplit(b: Body, id: int, nu: int)
    requires (b.Leaf? || b.Inner?) && |Entries(b)| >= 2
    ensures Merged(SplitLeft(b, nu), SplitRight(b, id), SplitKey(b)) == b
  {
    var es, h := Entries(b), |Entries(b)| / 2;
    if b.Leaf? {
      assert es[..h] + es[h..] == es;
    } else {
      assert es[..h] + [es[h]] + es[h + 1..] == es;
    }
  }

  /** Both halves of a full internal page hold half the capacity exactly if the capacity is odd: the
      middle key goes up, and with an even capacity the right half is one entry short. */
  lemma InnerSplitNeedsOdd(b: Body, id: int, nu: int, cap: nat)
    requires b.Inner? && |b.entries| == cap >= 2
    ensures |Entries(SplitLeft(b, nu))| >= cap / 2
    ensures |Entries(SplitRight(b, id))| >= cap / 2 <==> cap % 2 == 1
  {
  }

  /** Borrowing keeps the in-order sequence left ++ separator ++ right. */
  lemma ShiftKeepsOrder(x: int, y: int, l: Body, r: Body, fromLeft: bool)
    requires Pairable(l, r)
    requires if fromLeft then |Entries(l)| >= 2 else |Entries(r)| >= 2
    ensures Chunk(x, ShiftLeft(l, r, y, fromLeft)) + Chunk(ShiftKey(l, r, fromLeft), ShiftRight(l, r, y, fromLeft))
            == Chunk(x, l) + Chunk(y, r)
  {
    hide ShiftLeft;
    hide ShiftRight;
    hide ShiftKey;
    ShiftChunks(x, y, l, r, fromLeft);
    hide Chunk;
    if fromLeft {
      AcrossLeft(Chunk(x, l), Chunk(y, r));
    } else {
      AcrossRight(Chunk(x, l), Chunk(y, r));
    }
  }

  lemma AcrossLeft(cl: seq<Entry>, cr: seq<Entry>)
    requires |cl| >= 1
    ensures cl[..|cl| - 1] + ([cl[|cl| - 1]] + cr) == cl + cr
  {
  }

  lemma AcrossRight(cl: seq<Entry>, cr: seq<Entry>)
    requires |cr| >= 1
    ensures cl + [cr[0]] + cr[1..] == cl + cr
  {
  }
}
