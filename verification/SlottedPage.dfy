/** The page as bytes: a header, a slot array growing upward behind it and entry data growing downward
    from the end.  It stands for a plain sequence of byte strings. */
module SlottedPage {

  type Byte = x: int | 0 <= x < 256

  const PageSize := 4096
  const HeaderSize := 21
  const SlotSize := 4

  // ---------------------------------------------------------------- reading the bytes

  /** A big-endian 16-bit number. */
  function U16(d: seq<Byte>, at: nat): (v: nat)
    requires at + 2 <= |d|
    ensures v < 0x10000
  {
    d[at] as int * 256 + d[at + 1] as int
  }

  function Put16(d: seq<Byte>, at: nat, v: nat): (e: seq<Byte>)
    requires at + 2 <= |d| && v < 0x10000
    ensures |e| == |d| && U16(e, at) == v
    ensures forall k :: 0 <= k < |d| && k != at && k != at + 1 ==> e[k] == d[k]
  {
    d[at := v / 256][at + 1 := v % 256]
  }

  function NumEntries(d: seq<Byte>): nat
    requires |d| == PageSize
  {
    U16(d, 1)
  }

  function FreeOffset(d: seq<Byte>): nat
    requires |d| == PageSize
  {
    U16(d, 3)
  }

  datatype Slot = Slot(offset: nat, length: nat)

  function SlotAt(i: nat): nat {
    HeaderSize + i * SlotSize
  }

  function GetSlot(d: seq<Byte>, i: nat): Slot
    requires |d| == PageSize && SlotAt(i + 1) <= PageSize
  {
    Slot(U16(d, SlotAt(i)), U16(d, SlotAt(i) + 2))
  }

  /** Slot i points at bytes of the entry area, which begins at free. */
  ghost predicate SlotOk(d: seq<Byte>, i: nat, free: nat)
    requires |d| == PageSize && SlotAt(i + 1) <= PageSize
  {
    free <= GetSlot(d, i).offset && GetSlot(d, i).offset + GetSlot(d, i).length <= PageSize
  }

  /** The slot array ends before the entry area begins, and every slot points into that. */
  ghost predicate LaidOut(d: seq<Byte>) {
    && |d| == PageSize
    && SlotAt(NumEntries(d)) <= FreeOffset(d) <= PageSize
    && forall i :: 0 <= i < NumEntries(d) ==> SlotOk(d, i, FreeOffset(d))
  }

  function EntryAt(d: seq<Byte>, s: Slot): seq<Byte>
    requires s.offset + s.length <= |d|
  {
    d[s.offset..s.offset + s.length]
  }

  /** The entries a page stands for, in slot order. */
  ghost function EntriesOf(d: seq<Byte>): (es: seq<seq<Byte>>)
    requires LaidOut(d)
    ensures |es| == NumEntries(d)
  {
    seq(NumEntries(d), i requires 0 <= i < NumEntries(d) =>
      assert SlotOk(d, i, FreeOffset(d)); EntryAt(d, GetSlot(d, i)))
  }

  ghost function TotalBytes(es: seq<seq<Byte>>): nat {
    if es == [] then 0 else TotalBytes(es[..|es| - 1]) + |es[|es| - 1]|
  }

  /** No byte of the entry area is wasted. */
  ghost predicate Tight(d: seq<Byte>) {
    LaidOut(d) && FreeOffset(d) == PageSize - TotalBytes(EntriesOf(d))
  }

  /** Bytes lo to hi agree. */
  ghost predicate Same(d: seq<Byte>, e: seq<Byte>, lo: nat, hi: nat) {
    lo <= hi <= |d| && hi <= |e| && forall k :: lo <= k < hi ==> d[k] == e[k]
  }

  // ---------------------------------------------------------------- slots

  function PutSlot(d: seq<Byte>, i: nat, s: Slot): (e: seq<Byte>)
    requires |d| == PageSize && SlotAt(i + 1) <= PageSize && s.offset < 0x10000 && s.length < 0x10000
    ensures |e| == PageSize && GetSlot(e, i) == s
    ensures Same(d, e, 0, SlotAt(i)) && Same(d, e, SlotAt(i + 1), PageSize)
  {
    Put16(Put16(d, SlotAt(i), s.offset), SlotAt(i) + 2, s.length)
  }

  lemma SlotKept(d: seq<Byte>, e: seq<Byte>, i: nat, j: nat)
    requires |d| == |e| == PageSize && SlotAt(i + 1) <= PageSize && SlotAt(j + 1) <= PageSize && i != j
    requires Same(d, e, 0, SlotAt(i)) && Same(d, e, SlotAt(i + 1), PageSize)
    ensures GetSlot(e, j) == GetSlot(d, j)
  {
    assert SlotAt(j + 1) <= SlotAt(i) || SlotAt(i + 1) <= SlotAt(j);
  }

  // ---------------------------------------------------------------- insertion

  function InsertString(es: seq<seq<Byte>>, i: nat, bytes: seq<Byte>): seq<seq<Byte>>
    requires i <= |es|
  {
    es[..i] + [bytes] + es[i..]
  }

  function RemoveString(es: seq<seq<Byte>>, i: nat): seq<seq<Byte>>
    requires i < |es|
  {
    es[..i] + es[i + 1..]
  }

  /** The first i entries without the one at index gone. */
  ghost function Surviving(es: seq<seq<Byte>>, i: nat, gone: nat): seq<seq<Byte>>
    requires i <= |es|
  {
    if i <= gone then es[..i] else RemoveString(es[..i], gone)
  }

  lemma SurvivingStep(es: seq<seq<Byte>>, i: nat, gone: nat)
    requires i < |es|
    ensures Surviving(es, i + 1, gone) == Surviving(es, i, gone) + if i == gone then [] else [es[i]]
  {
    assert es[..i + 1] == es[..i] + [es[i]];
  }

  /** e is d after slots i to n - 1 moved up by one. */
  ghost predicate Shifted(d: seq<Byte>, e: seq<Byte>, i: nat, n: nat) {
    && |d| == |e| == PageSize && SlotAt(n + 1) <= PageSize
    && Same(d, e, 0, HeaderSize) && Same(d, e, SlotAt(n + 1), PageSize)
    && (forall j :: 0 <= j < i && j < n ==> GetSlot(e, j) == GetSlot(d, j))
    && (forall j :: i <= j < n ==> GetSlot(e, j + 1) == GetSlot(d, j))
  }

  /** e is d after the whole insertion of bytes at slot i. */
  ghost predicate Inserted(d: seq<Byte>, e: seq<Byte>, i: nat, bytes: seq<Byte>)
    requires |d| == PageSize && SlotAt(NumEntries(d) + 1) + |bytes| <= FreeOffset(d) <= PageSize
  {
    var n, free := NumEntries(d), FreeOffset(d);
    && |e| == PageSize && NumEntries(e) == n + 1 && FreeOffset(e) == free - |bytes|
    && e[0] == d[0] && Same(d, e, 5, HeaderSize) && Same(d, e, free, PageSize)
    && i <= n
    && GetSlot(e, i) == Slot(free - |bytes|, |bytes|) && e[free - |bytes|..free] == bytes
    && (forall j :: 0 <= j < i ==> GetSlot(e, j) == GetSlot(d, j))
    && (forall j :: i <= j < n ==> GetSlot(e, j + 1) == GetSlot(d, j))
  }

  /** Slot j of a laid-out page, and its entry. */
  lemma EntryHere(d: seq<Byte>, j: nat)
    requires LaidOut(d) && j < NumEntries(d)
    ensures var s := GetSlot(d, j);
            && FreeOffset(d) <= s.offset && s.offset + s.length <= PageSize
            && EntriesOf(d)[j] == d[s.offset..s.offset + s.length]
  {
    assert SlotOk(d, j, FreeOffset(d));
  }

  /** The steps of an insertion put together: a after the slots moved, b after the bytes were copied. */
  lemma Assembled(d: seq<Byte>, a: seq<Byte>, b: seq<Byte>, i: nat, bytes: seq<Byte>)
    requires |d| == PageSize && SlotAt(NumEntries(d) + 1) + |bytes| <= FreeOffset(d) <= PageSize
    requires i <= NumEntries(d) && Shifted(d, a, i, NumEntries(d)) && |b| == PageSize
    requires var free := FreeOffset(d); var off := free - |bytes|;
             Same(a, b, 0, off) && Same(a, b, free, PageSize) && b[off..free] == bytes
    ensures var off := FreeOffset(d) - |bytes|;
            Inserted(d, Put16(Put16(PutSlot(b, i, Slot(off, |bytes|)), 3, off), 1, NumEntries(d) + 1), i, bytes)
  {
    hide U16;
    hide Put16;
    var n, free := NumEntries(d), FreeOffset(d);
    var off := free - |bytes|;
    var c := PutSlot(b, i, Slot(off, |bytes|));
    hide PutSlot;
    var e := Put16(Put16(c, 3, off), 1, n + 1);
    assert Same(c, e, 5, PageSize) && c[0] == e[0];
    KeepU16(Put16(c, 3, off), e, 3);
    forall j | 0 <= j <= n ensures GetSlot(e, j) == GetSlot(c, j) { SlotSame(c, e, j); }
    forall j | 0 <= j <= n && j != i ensures GetSlot(c, j) == GetSlot(a, j) {
      SlotSame(a, b, j);
      SlotKept(b, c, i, j);
    }
    assert c[off..free] == bytes;
  }

  lemma KeepU16(d: seq<Byte>, e: seq<Byte>, at: nat)
    requires at + 2 <= |d| == |e| && d[at] == e[at] && d[at + 1] == e[at + 1]
    ensures U16(d, at) == U16(e, at)
  {
  }

  lemma SlotSame(d: seq<Byte>, e: seq<Byte>, j: nat)
    requires |d| == |e| == PageSize && SlotAt(j + 1) <= PageSize && Same(d, e, SlotAt(j), SlotAt(j + 1))
    ensures GetSlot(d, j) == GetSlot(e, j)
  {
  }

  lemma InsertedLayout(d: seq<Byte>, e: seq<Byte>, i: nat, bytes: seq<Byte>)
    requires LaidOut(d) && SlotAt(NumEntries(d) + 1) + |bytes| <= FreeOffset(d) && Inserted(d, e, i, bytes)
    ensures LaidOut(e)
  {
    hide EntriesOf;
    hide U16;
    forall j | 0 <= j < NumEntries(d) + 1 ensures SlotOk(e, j, FreeOffset(e)) {
      if j < i { EntryHere(d, j); } else if j > i { EntryHere(d, j - 1); }
    }
  }

  lemma InsertedEntry(d: seq<Byte>, e: seq<Byte>, i: nat, bytes: seq<Byte>, j: nat)
    requires LaidOut(d) && SlotAt(NumEntries(d) + 1) + |bytes| <= FreeOffset(d) && Inserted(d, e, i, bytes)
    requires LaidOut(e) && j <= NumEntries(d)
    ensures EntriesOf(e)[j] == InsertString(EntriesOf(d), i, bytes)[j]
  {
    hide EntriesOf;
    hide U16;
    EntryHere(e, j);
    if j < i {
      EntryHere(d, j);
      SameSlice(d, e, FreeOffset(d), GetSlot(d, j));
    } else if j > i {
      EntryHere(d, j - 1);
      SameSlice(d, e, FreeOffset(d), GetSlot(d, j - 1));
    }
  }

  /** An insertion that fits is insertion into the sequence of entries; nothing is overwritten, and no
      byte is wasted. */
  lemma InsertedMeans(d: seq<Byte>, e: seq<Byte>, i: nat, bytes: seq<Byte>)
    requires Tight(d) && SlotAt(NumEntries(d) + 1) + |bytes| <= FreeOffset(d) && Inserted(d, e, i, bytes)
    ensures Tight(e) && EntriesOf(e) == InsertString(EntriesOf(d), i, bytes)
  {
    hide EntriesOf;
    hide U16;
    InsertedLayout(d, e, i, bytes);
    forall j | 0 <= j < NumEntries(d) + 1
      ensures EntriesOf(e)[j] == InsertString(EntriesOf(d), i, bytes)[j]
    {
      InsertedEntry(d, e, i, bytes, j);
    }
    assert EntriesOf(e) == InsertString(EntriesOf(d), i, bytes);
    TotalInsert(EntriesOf(d), i, bytes);
  }

  lemma SameSlice(d: seq<Byte>, e: seq<Byte>, free: nat, s: Slot)
    requires |d| == |e| == PageSize && Same(d, e, free, PageSize)
    requires free <= s.offset && s.offset + s.length <= PageSize
    ensures d[s.offset..s.offset + s.length] == e[s.offset..s.offset + s.length]
  {
  }

  lemma {:induction false} TotalInsert(es: seq<seq<Byte>>, i: nat, bytes: seq<Byte>)
    requires i <= |es|
    ensures TotalBytes(InsertString(es, i, bytes)) == TotalBytes(es) + |bytes|
  {
    var fs, n := InsertString(es, i, bytes), |es|;
    if i == n {
      assert fs[..n] == es;
    } else {
      assert fs[n] == es[n - 1];
      assert fs[..n] == InsertString(es[..n - 1], i, bytes);
      TotalInsert(es[..n - 1], i, bytes);
    }
  }

  lemma TotalRemove(es: seq<seq<Byte>>, i: nat)
    requires i < |es|
    ensures TotalBytes(RemoveString(es, i)) == TotalBytes(es) - |es[i]|
  {
    TotalInsert(RemoveString(es, i), i, es[i]);
    assert InsertString(RemoveString(es, i), i, es[i]) == es;
  }

  lemma {:induction false} TotalPrefix(es: seq<seq<Byte>>, k: nat)
    requires k <= |es|
    ensures TotalBytes(es[..k]) <= TotalBytes(es)
  {
    if k < |es| {
      TotalPrefix(es[..|es| - 1], k);
      assert es[..|es| - 1][..k] == es[..k];
    } else {
      assert es[..k] == es;
    }
  }

  // ---------------------------------------------------------------- capacity

  /** Does an entry of len more bytes fit, with its slot? */
  predicate HasSpaceFor(d: seq<Byte>, len: nat)
    requires |d| == PageSize
  {
    FreeOffset(d) - SlotAt(NumEntries(d)) >= SlotSize + len
  }

  function MaxEntries(entrySize: nat): nat {
    (PageSize - HeaderSize) / (SlotSize + entrySize)
  }

  ghost predicate AllOfSize(es: seq<seq<Byte>>, size: nat) {
    forall i :: 0 <= i < |es| ==> |es[i]| == size
  }

  lemma {:induction false} TotalOfSize(es: seq<seq<Byte>>, size: nat)
    requires AllOfSize(es, size)
    ensures TotalBytes(es) == |es| * size
  {
    if es != [] { TotalOfSize(es[..|es| - 1], size); }
  }

  lemma QuotientBound(a: nat, b: nat, q: nat)
    requires b > 0
    ensures q * b <= a <==> q <= a / b
  {
    var r := a / b;
    assert a == r * b + a % b;
    if q <= r {
      assert q * b <= r * b;
    } else {
      assert q * b >= (r + 1) * b;
    }
  }

  /** On a page of equal-size entries there is room for one more exactly below MaxEntries. */
  lemma RoomIsCount(d: seq<Byte>, size: nat)
    requires Tight(d) && AllOfSize(EntriesOf(d), size)
    ensures HasSpaceFor(d, size) <==> NumEntries(d) < MaxEntries(size)
  {
    hide EntriesOf;
    hide U16;
    hide MaxEntries;
    TotalOfSize(EntriesOf(d), size);
    RoomArithmetic(NumEntries(d), size);
  }

  lemma RoomArithmetic(n: nat, size: nat)
    ensures PageSize - n * size - SlotAt(n) >= SlotSize + size <==> n < MaxEntries(size)
  {
    QuotientBound(PageSize - HeaderSize, SlotSize + size, n + 1);
    assert (n + 1) * (SlotSize + size) == n * size + n * SlotSize + size + SlotSize;
  }

  /** The slot array reaches into the entry area. */
  predicate Collides(d: seq<Byte>)
    requires |d| == PageSize
  {
    SlotAt(NumEntries(d)) > FreeOffset(d)
  }

  // ---------------------------------------------------------------- the page in memory

  class Page {
    const id: int
    const data: array<Byte>

    ghost predicate Valid()
      reads data
    {
      data.Length == PageSize && Tight(data[..])
    }

    /** The entries of the page. */
    ghost function Entries(): seq<seq<Byte>>
      reads data
      requires Valid()
    {
      EntriesOf(data[..])
    }

    /** A fresh page of the given type, without entries. */
    constructor (id: int, pageType: Byte)
      ensures Valid() && Entries() == [] && this.id == id && fresh(data) && data[0] == pageType
      ensures forall j :: 5 <= j < HeaderSize ==> data[j] == 0
    {
      this.id := id;
      data := new Byte[PageSize](i => 0);
      new;
      data[0] := pageType;
      PutU16(3, PageSize);
      assert NumEntries(data[..]) == 0;
      assert EntriesOf(data[..]) == [];
    }

    method PutU16(at: nat, v: nat)
      requires data.Length == PageSize && at + 2 <= PageSize && v < 0x10000
      modifies data
      ensures data[..] == Put16(old(data[..]), at, v)
    {
      data[at] := v / 256;
      data[at + 1] := v % 256;
    }

    method SetSlot(i: nat, s: Slot)
      requires data.Length == PageSize && SlotAt(i + 1) <= PageSize && s.offset < 0x10000 && s.length < 0x10000
      modifies data
      ensures data[..] == PutSlot(old(data[..]), i, s)
    {
      PutU16(SlotAt(i), s.offset);
      PutU16(SlotAt(i) + 2, s.length);
    }

    /** Moves slots slotIndex to n - 1 up by one, from the last down. */
    method ShiftSlots(slotIndex: nat, n: nat)
      requires data.Length == PageSize && slotIndex <= n && SlotAt(n + 1) <= PageSize
      modifies data
      ensures Shifted(old(data[..]), data[..], slotIndex, n) && data[0] == old(data[0])
    {
      ghost var d := data[..];
      var i := n;
      while i > slotIndex
        invariant slotIndex <= i <= n && Shifted(d, data[..], i, n)
      {
        ghost var e := data[..];
        var moving := GetSlot(data[..], i - 1);
        SetSlot(i, moving);
        forall j | 0 <= j <= n && j != i ensures GetSlot(data[..], j) == GetSlot(e, j) {
          SlotKept(e, data[..], i, j);
        }
        i := i - 1;
      }
    }

    method Copy(at: nat, bytes: seq<Byte>)
      requires data.Length == PageSize && at + |bytes| <= PageSize
      modifies data
      ensures data[at..at + |bytes|] == bytes
      ensures Same(old(data[..]), data[..], 0, at) && Same(old(data[..]), data[..], at + |bytes|, PageSize)
    {
      for k := 0 to |bytes|
        invariant forall j :: 0 <= j < k ==> data[at + j] == bytes[j]
        invariant forall j :: 0 <= j < at || at + k <= j < PageSize ==> data[j] == old(data[j])
      {
        data[at + k] := bytes[k];
      }
    }

    /** Inserts bytes as slot slotIndex.  If there is room nothing else changes: not the page type, not
        the links in the header, and no byte of an existing entry moves.  Without room the slot array
        and the entry area run into each other. */
    method InsertEntry(slotIndex: nat, bytes: seq<Byte>)
      requires Valid() && slotIndex <= NumEntries(data[..])
      requires HeaderSize + |bytes| <= FreeOffset(data[..]) && SlotAt(NumEntries(data[..]) + 1) <= PageSize
      modifies data
      ensures NumEntries(data[..]) == old(NumEntries(data[..])) + 1 && data[0] == old(data[0])
      ensures old(HasSpaceFor(data[..], |bytes|)) ==>
        && Valid() && Entries() == InsertString(old(Entries()), slotIndex, bytes)
        && Same(old(data[..]), data[..], 5, HeaderSize)
        && Same(old(data[..]), data[..], old(FreeOffset(data[..])), PageSize)
      ensures !old(HasSpaceFor(data[..], |bytes|)) ==> !LaidOut(data[..]) && Collides(data[..])
    {
      hide U16;
      hide Put16;
      hide PutSlot;
      hide Shifted;
      hide EntriesOf;
      ghost var d := data[..];
      var n := NumEntries(data[..]);
      var free := FreeOffset(data[..]);
      ShiftSlots(slotIndex, n);
      ghost var a := data[..];
      var offset := free - |bytes|;
      Copy(offset, bytes);
      ghost var b := data[..];
      SetSlot(slotIndex, Slot(offset, |bytes|));
      PutU16(3, offset);
      ghost var c := data[..];
      PutU16(1, n + 1);
      KeepU16(c, data[..], 3);
      if HasSpaceFor(d, |bytes|) {
        Assembled(d, a, b, slotIndex, bytes);
        InsertedMeans(d, data[..], slotIndex, bytes);
      }
    }

    /** The bytes of the entry at slot i. */
    function GetEntry(i: nat): (bytes: seq<Byte>)
      reads data
      requires Valid() && i < NumEntries(data[..])
      ensures bytes == Entries()[i]
    {
      EntryHere(data[..], i);
      EntryAt(data[..], GetSlot(data[..], i))
    }

    /** Copies out all entries but the one at slotIndex. */
    method CopyEntries(slotIndex: nat) returns (es: seq<seq<Byte>>)
      requires Valid() && slotIndex < NumEntries(data[..])
      ensures es == RemoveString(Entries(), slotIndex)
    {
      hide U16;
      hide EntriesOf;
      hide LaidOut;
      es := [];
      ghost var all := Entries();
      for i := 0 to NumEntries(data[..])
        invariant es == Surviving(all, i, slotIndex)
      {
        SurvivingStep(all, i, slotIndex);
        if i != slotIndex {
          var entry := GetEntry(i);
          es := es + [entry];
        }
      }
      assert all[..|all|] == all;
    }

    /** Drops all entries. */
    method Clear()
      requires data.Length == PageSize
      modifies data
      ensures Valid() && Entries() == [] && FreeOffset(data[..]) == PageSize
      ensures data[0] == old(data[0]) && Same(old(data[..]), data[..], 5, HeaderSize)
    {
      PutU16(1, 0);
      PutU16(3, PageSize);
      assert NumEntries(data[..]) == 0;
      assert EntriesOf(data[..]) == [];
    }

    /** Removes the entry at slotIndex and compacts the rest; an index past the end changes nothing. */
    method DeleteEntry(slotIndex: nat)
      requires Valid()
      modifies data
      ensures Valid()
      ensures Entries() ==
              if slotIndex < |old(Entries())| then RemoveString(old(Entries()), slotIndex) else old(Entries())
      ensures data[0] == old(data[0]) && Same(old(data[..]), data[..], 5, HeaderSize)
    {
      hide U16;
      hide Put16;
      hide EntriesOf;
      var n := NumEntries(data[..]);
      if slotIndex >= n {
        return;
      }
      ghost var d := data[..];
      var es := CopyEntries(slotIndex);
      TotalRemove(Entries(), slotIndex);
      assert TotalBytes(es) <= TotalBytes(Entries());
      Clear();
      for i := 0 to |es|
        invariant Valid() && Entries() == es[..i]
        invariant data[0] == d[0] && Same(d, data[..], 5, HeaderSize)
      {
        assert es[..i + 1][..i] == es[..i];
        TotalPrefix(es, i + 1);
        InsertEntry(i, es[i]);
        assert InsertString(es[..i], i, es[i]) == es[..i + 1];
      }
      assert es[..|es|] == es;
    }
  }
}
