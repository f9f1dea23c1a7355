/** Splits and merges carried out on the bytes of pages: they do to the bytes what the tree model does
    to pages as values, for both key sizes. */
module NodeBytes {
  import opened Pages
  import opened Codec
  import opened NodeOps
  import opened Node
  import opened PageBytes
  import opened Shrinking
  import opened NodeMoves
  import Bytes = SlottedPage

  /** The raw entries of a page from position lo on. */
  method CopyFrom(p: Bytes.Page, k: nat, lo: nat) returns (es: seq<seq<Bytes.Byte>>)
    requires IsPage(p, k) && lo <= |Entries(BodyOf(p, k))|
    ensures Bytes.AllOfSize(es, k + 8)
    ensures DecodeAll(BodyOf(p, k).Leaf?, k, es) == Entries(BodyOf(p, k))[lo..]
  {
    hide Bytes.EntriesOf;
    hide Bytes.U16;
    hide Meaning;
    PageMeans(p.data[..], k);
    var all := RawEntries(p, k);
    es := all[lo..];
  }

  /** Inserts the given entries at the end, one by one. */
  method AppendRaw(p: Bytes.Page, k: nat, more: seq<seq<Bytes.Byte>>)
    requires IsPage(p, k) && Bytes.AllOfSize(more, k + 8)
    requires |Entries(BodyOf(p, k))| + |more| <= Bytes.MaxEntries(k + 8)
    modifies p.data
    ensures IsPage(p, k)
    ensures var b := old(BodyOf(p, k)); BodyOf(p, k) == WithEntries(b, Entries(b) + DecodeAll(b.Leaf?, k, more))
  {
    hide Bytes.EntriesOf;
    hide Bytes.U16;
    hide Meaning;
    hide Bytes.MaxEntries;
    hide InsertAt;
    ghost var b := BodyOf(p, k);
    ghost var es := DecodeAll(b.Leaf?, k, more);
    assert Entries(b) + es[..0] == Entries(b);
    for i := 0 to |more|
      invariant IsPage(p, k) && BodyOf(p, k) == WithEntries(b, Entries(b) + es[..i])
    {
      StillPage(p.data[..], k);
      InsertEntry(p, k, Bytes.NumEntries(p.data[..]), more[i]);
      AppendStep(Entries(b), es, i);
      StaysPage(p, k);
    }
    assert es[..|more|] == es;
  }

  lemma AppendStep(ls: seq<Entry>, es: seq<Entry>, i: nat)
    requires i < |es|
    ensures InsertAt(ls + es[..i], |ls| + i, es[i]) == ls + es[..i + 1]
  {
  }

  lemma StillPage(d: seq<Bytes.Byte>, k: nat)
    requires |d| == Bytes.PageSize && (Meaning(d, k).Leaf? || Meaning(d, k).Inner?)
    ensures |Entries(Meaning(d, k))| == Bytes.NumEntries(d)
  {
    PageMeans(d, k);
  }

  lemma StaysPage(p: Bytes.Page, k: nat)
    requires KeySize(k) && p.data.Length == Bytes.PageSize && (BodyOf(p, k).Leaf? || BodyOf(p, k).Inner?)
    ensures IsPage(p, k)
  {
    PageMeans(p.data[..], k);
  }

  /** Deletes entries from the last one down to position mid. */
  method DropRaw(p: Bytes.Page, k: nat, mid: nat)
    requires IsPage(p, k) && mid <= |Entries(BodyOf(p, k))|
    modifies p.data
    ensures IsPage(p, k)
    ensures var b := old(BodyOf(p, k)); BodyOf(p, k) == WithEntries(b, Entries(b)[..mid])
  {
    hide Bytes.EntriesOf;
    hide Bytes.U16;
    hide Meaning;
    StillPage(p.data[..], k);
    ghost var b := BodyOf(p, k);
    var i := Bytes.NumEntries(p.data[..]);
    assert Entries(b)[..i] == Entries(b);
    while i > mid
      invariant mid <= i <= |Entries(b)| && IsPage(p, k) && BodyOf(p, k) == WithEntries(b, Entries(b)[..i])
    {
      i := i - 1;
      DeleteEntry(p, k, i);
      assert RemoveAt(Entries(b)[..i + 1], i) == Entries(b)[..i];
    }
  }

  /** Splits a leaf: the upper half moves to the fresh page nu, which is linked in behind it. */
  method SplitLeafBytes(p: Bytes.Page, nu: Bytes.Page, k: nat) returns (sep: seq<Bytes.Byte>)
    requires IsPage(p, k) && IsPage(nu, k) && p.data != nu.data && 0 <= p.id < WORD && 0 <= nu.id < WORD
    requires BodyOf(p, k).Leaf? && BodyOf(nu, k) == Leaf(0, 0, []) && BodyOf(p, k).next >= 0
    requires 2 <= |Entries(BodyOf(p, k))| <= Bytes.MaxEntries(k + 8)
    modifies p.data, nu.data
    ensures IsPage(p, k) && BodyOf(p, k) == SplitLeft(old(BodyOf(p, k)), nu.id)
    ensures IsPage(nu, k) && BodyOf(nu, k) == SplitRight(old(BodyOf(p, k)), p.id)
    ensures |sep| == k && Value(sep) == SplitKey(old(BodyOf(p, k)))
  {
    hide Bytes.EntriesOf;
    hide Bytes.U16;
    hide Meaning;
    hide Bytes.MaxEntries;
    ghost var b := BodyOf(p, k);
    StillPage(p.data[..], k);
    var mid := Bytes.NumEntries(p.data[..]) / 2;
    var moving := CopyFrom(p, k, mid);
    DropRaw(p, k, mid);
    AppendRaw(nu, k, moving);
    SetLink(nu, k, 5, p.id);
    var next := LinkAt(p, k);
    SetLink(nu, k, 13, next);
    SetLink(p, k, 13, nu.id);
    sep := FirstKey(nu, k);
  }

  /** The key of the first entry. */
  method FirstKey(p: Bytes.Page, k: nat) returns (key: seq<Bytes.Byte>)
    requires IsPage(p, k) && Entries(BodyOf(p, k)) != []
    ensures |key| == k && Value(key) == Entries(BodyOf(p, k))[0].key
  {
    hide Bytes.EntriesOf;
    hide Bytes.U16;
    hide Meaning;
    PageMeans(p.data[..], k);
    key := p.GetEntry(0)[..k];
  }

  /** Splits an internal page: the entries above the middle one move to a new page, whose leftmost child
      is the middle one's. */
  method SplitInnerBytes(p: Bytes.Page, id: int, k: nat) returns (nu: Bytes.Page, sep: seq<Bytes.Byte>)
    requires IsPage(p, k) && BodyOf(p, k).Inner? && 2 <= |Entries(BodyOf(p, k))| <= Bytes.MaxEntries(k + 8)
    modifies p.data
    ensures fresh(nu.data) && nu.id == id && IsPage(p, k) && IsPage(nu, k)
    ensures BodyOf(p, k) == SplitLeft(old(BodyOf(p, k)), id) && BodyOf(nu, k) == SplitRight(old(BodyOf(p, k)), p.id)
    ensures |sep| == k && Value(sep) == SplitKey(old(BodyOf(p, k)))
  {
    hide Bytes.EntriesOf;
    hide Bytes.U16;
    hide Meaning;
    hide Bytes.MaxEntries;
    hide DecodeAll;
    PageMeans(p.data[..], k);
    var mid := Bytes.NumEntries(p.data[..]) / 2;
    EntryMeans(p, k, mid);
    var middle := p.GetEntry(mid);
    var moving := CopyFrom(p, k, mid + 1);
    sep := middle[..k];
    WordIsWeight();
    ValueBound(middle[k..]);
    nu := NewPage(id, k, false, Value(middle[k..]));
    AppendRaw(nu, k, moving);
    DropRaw(p, k, mid);
  }

  /** Merges leaf right into left; right is emptied. */
  method MergeLeafBytes(left: Bytes.Page, right: Bytes.Page, k: nat)
    requires IsPage(left, k) && IsPage(right, k) && left.data != right.data
    requires BodyOf(left, k).Leaf? && BodyOf(right, k).Leaf?
    requires |Entries(BodyOf(left, k))| + |Entries(BodyOf(right, k))| <= Bytes.MaxEntries(k + 8)
    modifies left.data, right.data
    ensures IsPage(left, k) && BodyOf(left, k) == MergedLeaf(old(BodyOf(left, k)), old(BodyOf(right, k)))
    ensures IsPage(right, k) && BodyOf(right, k) == WithEntries(old(BodyOf(right, k)), [])
  {
    hide Bytes.EntriesOf;
    hide Bytes.U16;
    hide Meaning;
    hide Bytes.MaxEntries;
    var es := CopyFrom(right, k, 0);
    AppendRaw(left, k, es);
    var next := LinkAt(right, k);
    SetLink(left, k, 13, next);
    DropRaw(right, k, 0);
  }

  /** Inserts entries of any size at the end. */
  method AppendAny(p: Bytes.Page, more: seq<seq<Bytes.Byte>>)
    requires p.Valid()
    requires Bytes.TotalBytes(p.Entries() + more) + Bytes.SlotAt(|p.Entries()| + |more|) <= Bytes.PageSize
    modifies p.data
    ensures p.Valid() && p.Entries() == old(p.Entries()) + more
    ensures p.data[0] == old(p.data[0]) && Bytes.Same(old(p.data[..]), p.data[..], 5, Bytes.HeaderSize)
  {
    hide Bytes.EntriesOf;
    hide Bytes.U16;
    hide Bytes.LaidOut;
    hide Bytes.TotalBytes;
    hide Bytes.InsertString;
    ghost var d, es := p.data[..], p.Entries();
    assert es + more[..0] == es;
    for i := 0 to |more|
      invariant p.Valid() && p.Entries() == es + more[..i]
      invariant p.data[0] == d[0] && Bytes.Same(d, p.data[..], 5, Bytes.HeaderSize)
    {
      StepFits(es, more, i);
      p.InsertEntry(Bytes.NumEntries(p.data[..]), more[i]);
    }
    assert more[..|more|] == more;
  }

  lemma StepFits(es: seq<seq<Bytes.Byte>>, more: seq<seq<Bytes.Byte>>, i: nat)
    requires i < |more|
    ensures Bytes.TotalBytes(es + more[..i]) + |more[i]| <= Bytes.TotalBytes(es + more)
    ensures Bytes.InsertString(es + more[..i], |es| + i, more[i]) == es + more[..i + 1]
  {
    hide Bytes.TotalBytes;
    var all, n := es + more, |es| + i;
    var x := all[..n + 1];
    assert all[..n] == es + more[..i] && x[..n] == all[..n] && x[n] == more[i];
    Bytes.TotalPrefix(all, n + 1);
    TotalLast(x);
  }

  lemma TotalLast(es: seq<seq<Bytes.Byte>>)
    requires es != []
    ensures Bytes.TotalBytes(es) == Bytes.TotalBytes(es[..|es| - 1]) + |es[|es| - 1]|
  {
  }

  /** The merged entries take no more room than as many entries of full size. */
  lemma MergeFits(ls: seq<seq<Bytes.Byte>>, entry: seq<Bytes.Byte>, rs: seq<seq<Bytes.Byte>>, size: nat)
    requires Bytes.AllOfSize(ls, size) && Bytes.AllOfSize(rs, size) && |entry| <= size
    requires |ls| + 1 + |rs| <= Bytes.MaxEntries(size)
    ensures Bytes.TotalBytes(ls + ([entry] + rs)) + Bytes.SlotAt(|ls| + 1 + |rs|) <= Bytes.PageSize
  {
    hide Bytes.TotalBytes;
    hide Bytes.MaxEntries;
    hide Bytes.AllOfSize;
    var full := seq(size, i => 0 as Bytes.Byte);
    var n := |ls| + 1 + |rs|;
    TotalFull(ls, full, rs, size, n);
    TotalReplace(ls, entry, full, rs);
    RoomForAll(n, size);
  }

  lemma TotalFull(ls: seq<seq<Bytes.Byte>>, full: seq<Bytes.Byte>, rs: seq<seq<Bytes.Byte>>, size: nat, n: nat)
    requires Bytes.AllOfSize(ls, size) && Bytes.AllOfSize(rs, size) && |full| == size && n == |ls| + 1 + |rs|
    ensures Bytes.TotalBytes(ls + ([full] + rs)) == n * size
  {
    hide Bytes.TotalBytes;
    var es := ls + ([full] + rs);
    assert |es| == n;
    Bytes.TotalOfSize(es, size);
  }

  lemma RoomForAll(n: nat, size: nat)
    requires n <= Bytes.MaxEntries(size)
    ensures n * size + Bytes.SlotAt(n) <= Bytes.PageSize
  {
    Bytes.QuotientBound(Bytes.PageSize - Bytes.HeaderSize, Bytes.SlotSize + size, n);
    assert n * (Bytes.SlotSize + size) == n * size + n * Bytes.SlotSize;
  }

  lemma TotalReplace(ls: seq<seq<Bytes.Byte>>, x: seq<Bytes.Byte>, y: seq<Bytes.Byte>, rs: seq<seq<Bytes.Byte>>)
    requires |x| <= |y|
    ensures Bytes.TotalBytes(ls + ([x] + rs)) <= Bytes.TotalBytes(ls + ([y] + rs))
  {
    assert ls + ([x] + rs) == Bytes.InsertString(ls + rs, |ls|, x);
    assert ls + ([y] + rs) == Bytes.InsertString(ls + rs, |ls|, y);
    Bytes.TotalInsert(ls + rs, |ls|, x);
    Bytes.TotalInsert(ls + rs, |ls|, y);
  }

  lemma DecodedConcat(leaf: bool, k: nat, ls: seq<seq<Bytes.Byte>>, entry: seq<Bytes.Byte>, rs: seq<seq<Bytes.Byte>>)
    requires Bytes.AllOfSize(ls, k + 8) && Bytes.AllOfSize(rs, k + 8) && |entry| == k + 8
    ensures Bytes.AllOfSize(ls + ([entry] + rs), k + 8)
    ensures DecodeAll(leaf, k, ls + ([entry] + rs)) ==
            DecodeAll(leaf, k, ls) + [Decode(leaf, k, entry)] + DecodeAll(leaf, k, rs)
  {
  }

  /** Merges internal page right into left, with the separator cut to eight bytes.  With wider keys the
      entry made of it has another size than the rest, and left is no page afterwards. */
  method MergeInnerBytes(left: Bytes.Page, right: Bytes.Page, k: nat, sep: seq<Bytes.Byte>)
    requires IsPage(left, k) && IsPage(right, k) && left.data != right.data && |sep| == k
    requires BodyOf(left, k).Inner? && BodyOf(right, k).Inner?
    requires |Entries(BodyOf(left, k))| + 1 + |Entries(BodyOf(right, k))| <= Bytes.MaxEntries(k + 8)
    modifies left.data
    ensures BodyOf(left, k) ==
            if k == 8 then MergedInner(old(BodyOf(left, k)), BodyOf(right, k), Value(sep)) else Garbled
  {
    hide Bytes.EntriesOf;
    hide Bytes.U16;
    hide Meaning;
    hide Bytes.MaxEntries;
    hide DecodeAll;
    hide Bytes.TotalBytes;
    PageMeans(left.data[..], k);
    PageMeans(right.data[..], k);
    ghost var d, ls, rs := left.data[..], left.Entries(), right.Entries();
    var leftmost := LeftmostAt(right, k);
    WordIsWeight();
    BigEndianValue(leftmost, 8);
    var entry := sep[..8] + BigEndian(leftmost, 8);
    var es := RawEntries(right, k);
    MergeFits(ls, entry, rs, k + 8);
    AppendAny(left, [entry] + es);
    ghost var e := left.data[..];
    if k == 8 {
      assert entry[..k] == sep && entry[k..] == BigEndian(leftmost, 8);
      DecodedConcat(false, k, ls, entry, rs);
      SameHeader(d, e, k);
    } else {
      assert Bytes.EntriesOf(e)[|ls|] == entry;
      NotReadable(d, e, k);
    }
  }

  /** All raw entries of a page. */
  method RawEntries(p: Bytes.Page, k: nat) returns (es: seq<seq<Bytes.Byte>>)
    requires IsPage(p, k)
    ensures es == p.Entries()
  {
    hide Bytes.EntriesOf;
    hide Bytes.U16;
    hide Meaning;
    es := [];
    ghost var raw := p.Entries();
    for i := 0 to Bytes.NumEntries(p.data[..])
      invariant es == raw[..i]
    {
      var entry := p.GetEntry(i);
      es := es + [entry];
    }
    assert raw[..|raw|] == raw;
  }

  // ---------------------------------------------------------------- redistribution

  /** Borrows the last entry of the left leaf for the right one, or the first entry of the right leaf
      for the left one. */
  method RedistributeLeafBytes(l: Bytes.Page, r: Bytes.Page, fromLeft: bool, k: nat) returns (sep: seq<Bytes.Byte>)
    requires IsPage(l, k) && IsPage(r, k) && l.data != r.data && BodyOf(l, k).Leaf? && BodyOf(r, k).Leaf?
    requires var x, y := |Entries(BodyOf(l, k))|, |Entries(BodyOf(r, k))|;
             if fromLeft then x >= 2 && y < Bytes.MaxEntries(k + 8) else y >= 2 && x < Bytes.MaxEntries(k + 8)
    modifies l.data, r.data
    ensures var lb, rb := old(BodyOf(l, k)), old(BodyOf(r, k));
            && BodyOf(l, k) == ShiftLeft(lb, rb, 0, fromLeft) && BodyOf(r, k) == ShiftRight(lb, rb, 0, fromLeft)
            && |sep| == k && Value(sep) == ShiftKey(lb, rb, fromLeft)
  {
    hide Bytes.EntriesOf;
    hide Bytes.U16;
    hide Meaning;
    hide Bytes.MaxEntries;
    hide Value;
    ghost var le, re := Entries(BodyOf(l, k)), Entries(BodyOf(r, k));
    StillPage(l.data[..], k);
    StillPage(r.data[..], k);
    if fromLeft {
      var last := Bytes.NumEntries(l.data[..]) - 1;
      EntryMeans(l, k, last);
      var entry := l.GetEntry(last);
      DeleteEntry(l, k, last);
      assert RemoveAt(le, last) == le[..last];
      InsertEntry(r, k, 0, entry);
      assert InsertAt(re, 0, le[last]) == [le[last]] + re;
      return entry[..k];
    }
    EntryMeans(r, k, 0);
    var entry := r.GetEntry(0);
    DeleteEntry(r, k, 0);
    assert RemoveAt(re, 0) == re[1..];
    InsertEntry(l, k, Bytes.NumEntries(l.data[..]), entry);
    assert InsertAt(le, |le|, re[0]) == le + [re[0]];
    sep := FirstKey(r, k);
  }

  /** The eight bytes behind the first eight of an entry, as a PageID: its child only if keys have eight
      bytes. */
  lemma CutChildBytes(k: nat, entry: seq<Bytes.Byte>)
    requires KeySize(k) && |entry| == k + 8
    ensures Value(entry[8..16]) == CutChild(Decode(false, k, entry), k) && Value(entry[8..16]) < WORD
  {
    WordIsWeight();
    ValueBound(entry[8..16]);
    if k == 8 {
      assert entry[8..16] == entry[k..];
    } else {
      assert entry[..16] == entry[..8] + entry[8..16];
      ValueConcat(entry[..8], entry[8..16]);
      WordRest(Value(entry[..8]), Value(entry[8..16]));
    }
  }

  lemma WordRest(x: nat, y: nat)
    requires y < WORD
    ensures (x * WORD + y) % WORD == y
  {
  }

  /** Puts the entry made of the cut separator into p, and another leftmost child if asked. */
  method TakeCut(p: Bytes.Page, k: nat, first: bool, sep: seq<Bytes.Byte>, child: nat)
    requires IsPage(p, k) && BodyOf(p, k).Inner? && |sep| == k && child < WORD
    requires |Entries(BodyOf(p, k))| < Bytes.MaxEntries(k + 8)
    modifies p.data
    ensures var b, e := old(BodyOf(p, k)), Entry(Value(sep), child);
            BodyOf(p, k) ==
            if k == 8 then WithEntries(b, if first then [e] + b.entries else b.entries + [e]) else Garbled
    ensures p.Valid() && p.data[0] == 1
  {
    hide Bytes.EntriesOf;
    hide Bytes.U16;
    hide Meaning;
    hide Bytes.MaxEntries;
    hide Value;
    PageMeans(p.data[..], k);
    ghost var b := BodyOf(p, k);
    WordIsWeight();
    BigEndianValue(child, 8);
    var entry := sep[..8] + BigEndian(child, 8);
    assert k == 8 ==> entry[..k] == sep && entry[k..] == BigEndian(child, 8);
    InsertEntry(p, k, if first then 0 else Bytes.NumEntries(p.data[..]), entry);
    ghost var e := Entry(Value(sep), child);
    assert InsertAt(b.entries, 0, e) == [e] + b.entries && InsertAt(b.entries, |b.entries|, e) == b.entries + [e];
  }

  /** Borrows between internal pages through the separator, which is cut to eight bytes on its way
      down. */
  method RedistributeInnerBytes(l: Bytes.Page, r: Bytes.Page, fromLeft: bool, k: nat, oldSep: seq<Bytes.Byte>)
    returns (sep: seq<Bytes.Byte>)
    requires IsPage(l, k) && IsPage(r, k) && l.data != r.data && BodyOf(l, k).Inner? && BodyOf(r, k).Inner?
    requires |oldSep| == k
    requires var x, y := |Entries(BodyOf(l, k))|, |Entries(BodyOf(r, k))|;
             if fromLeft then x >= 1 && y < Bytes.MaxEntries(k + 8) else y >= 1 && x < Bytes.MaxEntries(k + 8)
    modifies l.data, r.data
    ensures var lb, rb := old(BodyOf(l, k)), old(BodyOf(r, k));
            && BodyOf(l, k) == MovedLeft(lb, rb, Value(oldSep), fromLeft, k)
            && BodyOf(r, k) == MovedRight(lb, rb, Value(oldSep), fromLeft, k)
            && |sep| == k && Value(sep) == ShiftKey(lb, rb, fromLeft)
  {
    hide Bytes.EntriesOf;
    hide Bytes.U16;
    hide Meaning;
    hide Bytes.MaxEntries;
    hide Value;
    ghost var le, re := Entries(BodyOf(l, k)), Entries(BodyOf(r, k));
    StillPage(l.data[..], k);
    StillPage(r.data[..], k);
    var oldLeftmost := LeftmostAt(r, k);
    if fromLeft {
      var last := Bytes.NumEntries(l.data[..]) - 1;
      EntryMeans(l, k, last);
      var entry := l.GetEntry(last);
      CutChildBytes(k, entry);
      DeleteEntry(l, k, last);
      assert RemoveAt(le, last) == le[..last];
      TakeCut(r, k, true, oldSep, oldLeftmost);
      SetLeftmostAny(r, k, Value(entry[8..16]));
      return entry[..k];
    }
    EntryMeans(r, k, 0);
    var entry := r.GetEntry(0);
    CutChildBytes(k, entry);
    DeleteEntry(r, k, 0);
    assert RemoveAt(re, 0) == re[1..];
    TakeCut(l, k, false, oldSep, oldLeftmost);
    PageMeans(r.data[..], k);
    SetLeftmostAny(r, k, Value(entry[8..16]));
    return entry[..k];
  }

  /** Writes the leftmost child of an internal page, readable or not. */
  method SetLeftmostAny(p: Bytes.Page, k: nat, id: nat)
    requires KeySize(k) && p.Valid() && p.data[0] == 1 && id < WORD && (BodyOf(p, k).Inner? || BodyOf(p, k) == Garbled)
    modifies p.data
    ensures var b := old(BodyOf(p, k)); BodyOf(p, k) == if b.Inner? then b.(leftmost := id) else Garbled
  {
    hide Bytes.EntriesOf;
    hide Bytes.U16;
    hide Meaning;
    hide Value;
    ghost var d := p.data[..];
    WordIsWeight();
    BigEndianValue(id, 8);
    p.Copy(5, BigEndian(id, 8));
    ghost var e := p.data[..];
    if Meaning(d, k).Inner? {
      LeftmostWritten(d, e, k, id);
    } else {
      GarbledStays(d, e, k);
    }
  }

  lemma LeftmostWritten(d: seq<Bytes.Byte>, e: seq<Bytes.Byte>, k: nat, id: nat)
    requires Bytes.Tight(d) && |e| == Bytes.PageSize && Meaning(d, k).Inner? && Value(e[5..13]) == id
    requires Bytes.Same(d, e, 0, 5) && Bytes.Same(d, e, 13, Bytes.PageSize)
    ensures Meaning(e, k) == Meaning(d, k).(leftmost := id)
  {
    hide Bytes.EntriesOf;
    hide Bytes.U16;
    hide Value;
    SameEntries(d, e);
  }
}
