/** Searching, splitting, merging and re-dividing pages in place. */
module Node {
  import opened Pages
  import opened Levels
  import opened NodeOps
  import opened Trees

  // ---------------------------------------------------------------- searching

  /** Binary search for the first entry whose key is above `key`. */
  method FirstAbove(es: seq<Entry>, key: int) returns (i: nat)
    requires Sorted(es)
    ensures i == Rank(es, key)
  {
    var j := |es|;
    i := 0;
    while i < j
      invariant 0 <= i <= j <= |es|
      invariant i > 0 ==> es[i - 1].key <= key
      invariant j < |es| ==> key < es[j].key
    {
      var h := (i + j) / 2;
      if es[h].key > key {
        j := h;
      } else {
        i := h + 1;
      }
    }
    RankUnique(es, key, i);
  }

  /** The child to descend into: the last one whose separator is at most key. */
  method FindChildPageID(b: Body, key: int) returns (child: int)
    requires b.Inner? && Sorted(b.entries)
    ensures child == ChildFor(b, key)
  {
    var i := FirstAbove(b.entries, key);
    if i == 0 {
      child := b.leftmost;
    } else {
      child := b.entries[i - 1].val;
    }
  }

  /** The first entry whose key is at least key, and whether it is key. */
  method FindKeyIndex(es: seq<Entry>, key: int) returns (i: nat, found: bool)
    requires Sorted(es)
    ensures i == Rank(es, key - 1)
    ensures found <==> exists j :: 0 <= j < |es| && es[j].key == key
    ensures found ==> i < |es| && es[i].key == key
  {
    i := FirstAbove(es, key - 1);
    RankBounds(es, key - 1);
    found := i < |es| && es[i].key == key;
  }

  /** The entry that points at child; the number of entries if child is the leftmost one. */
  method FindChildIndex(b: Body, child: int) returns (i: nat, found: bool)
    requires b.Inner?
    ensures i == ChildIndex(b, child)
    ensures found <==> child == b.leftmost || exists j :: 0 <= j < |b.entries| && b.entries[j].val == child
  {
    if b.leftmost == child {
      return |b.entries|, true;
    }
    var j := 0;
    while j < |b.entries|
      invariant 0 <= j <= |b.entries|
      invariant forall t :: 0 <= t < j ==> b.entries[t].val != child
      invariant IndexOf(b.entries, child) == j + IndexOf(b.entries[j..], child)
    {
      if b.entries[j].val == child {
        return j, true;
      }
      j := j + 1;
    }
    return 0, false;
  }

  function IndexOf(es: seq<Entry>, child: int): nat {
    if es == [] || es[0].val == child then 0 else 1 + IndexOf(es[1..], child)
  }

  function ChildIndex(b: Body, child: int): (i: nat)
    requires b.Inner?
  {
    if b.leftmost == child then |b.entries|
    else if IndexOf(b.entries, child) < |b.entries| then IndexOf(b.entries, child) else 0
  }

  // ---------------------------------------------------------------- splits

  /** Moves the upper half of a leaf to the freshly allocated page nu and links nu behind it. */
  method SplitLeaf(p: Page, nu: Page, cap: nat) returns (sep: int)
    requires p != nu && p.body.Leaf? && nu.body == Leaf(0, 0, [])
    requires 2 <= |p.body.entries| <= cap
    modifies p, nu
    ensures p.body == SplitLeft(old(p.body), nu.id)
    ensures nu.body == SplitRight(old(p.body), p.id)
    ensures sep == SplitKey(old(p.body))
  {
    var es := p.body.entries;
    var mid := |es| / 2;
    DropTail(p, mid);
    AppendAll(nu, es[mid..], cap);
    nu.body := nu.body.(prev := p.id);
    nu.body := nu.body.(next := p.body.next);
    p.body := p.body.(next := nu.id);
    sep := nu.body.entries[0].key;
  }

  /** Moves the entries above the middle one to a new internal page whose leftmost child is the
      middle one's; the middle key moves up. */
  method SplitInner(p: Page, nu: Page, cap: nat) returns (sep: int)
    requires p != nu && p.body.Inner? && 2 <= |p.body.entries| <= cap
    modifies p, nu
    ensures p.body == SplitLeft(old(p.body), nu.id)
    ensures nu.body == SplitRight(old(p.body), p.id)
    ensures sep == SplitKey(old(p.body))
  {
    var es := p.body.entries;
    var mid := |es| / 2;
    sep := es[mid].key;
    nu.body := Inner(es[mid].val, []);
    AppendAll(nu, es[mid + 1..], cap);
    DropTail(p, mid);
  }

  /** Deletes entries from the last one down to position mid. */
  method DropTail(p: Page, mid: nat)
    requires (p.body.Leaf? || p.body.Inner?) && mid <= |Entries(p.body)|
    modifies p
    ensures p.body == WithEntries(old(p.body), Entries(old(p.body))[..mid])
  {
    var i := |Entries(p.body)|;
    ghost var es := Entries(p.body);
    assert es[..i] == es;
    while i > mid
      invariant mid <= i <= |es| && p.body == WithEntries(old(p.body), es[..i])
    {
      i := i - 1;
      p.DeleteEntry(i);
      assert RemoveAt(es[..i + 1], i) == es[..i];
    }
  }

  /** Inserts the given entries at the end, one by one. */
  method AppendAll(p: Page, more: seq<Entry>, cap: nat)
    requires !p.body.Meta? && |Entries(p.body)| + |more| <= cap
    modifies p
    ensures p.body == WithEntries(old(p.body), Entries(old(p.body)) + more)
  {
    ghost var es := Entries(p.body);
    assert es + more[..0] == es;
    for i := 0 to |more|
      invariant p.body == WithEntries(old(p.body), es + more[..i])
    {
      p.InsertEntry(|Entries(p.body)|, more[i], cap);
      assert InsertAt(es + more[..i], |es| + i, more[i]) == es + more[..i + 1];
    }
    assert more[..|more|] == more;
  }

  // ---------------------------------------------------------------- merges

  /** Appends all entries of right to left and unlinks right; right is emptied. */
  method MergeLeaf(left: Page, right: Page, cap: nat)
    requires left != right && left.body.Leaf? && right.body.Leaf?
    requires |left.body.entries| + |right.body.entries| <= cap
    modifies left, right
    ensures left.body == MergedLeaf(old(left.body), old(right.body))
    ensures right.body == WithEntries(old(right.body), [])
  {
    AppendAll(left, right.body.entries, cap);
    left.body := left.body.(next := right.body.next);
    DropTail(right, 0);
  }

  function MergedLeaf(l: Body, r: Body): Body {
    if l.Leaf? && r.Leaf? then Leaf(l.prev, r.next, l.entries + r.entries) else Garbled
  }

  /** Appends to left the separator with right's leftmost child, then all entries of right.  The
      separator was cut to eight bytes, so with wider keys its entry has another size. */
  method MergeInner(left: Page, right: Page, sep: int, cap: nat, keySize: nat)
    requires left != right && left.body.Inner? && right.body.Inner?
    requires |left.body.entries| + 1 + |right.body.entries| <= cap
    modifies left
    ensures left.body == if keySize == 8 then MergedInner(old(left.body), right.body, sep) else Garbled
  {
    left.InsertEntry(|left.body.entries|, Entry(sep, right.body.leftmost), cap, keySize == 8);
    AppendAll(left, right.body.entries, cap);
  }

  function MergedInner(l: Body, r: Body, sep: int): Body {
    if l.Inner? && r.Inner? then Inner(l.leftmost, l.entries + [Entry(sep, r.leftmost)] + r.entries)
    else Garbled
  }
}
