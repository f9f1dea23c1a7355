/** What the bytes of a page mean to the tree.

    The tree model edits pages as values.  Here the same operations are carried out on the bytes, for
    leaves and internal pages and for both key sizes, and the bytes are shown to mean what the model
    says: in particular, that an entry forced into a full page, or one of another size than the rest,
    leaves bytes that mean no page at all. */
module PageBytes {
  import opened Pages
  import opened Codec
  import Bytes = SlottedPage

  /** The 16-bit numbers of header and slots are big-endian. */
  lemma CountsAreBigEndian(d: seq<Bytes.Byte>, at: nat)
    requires at + 2 <= |d|
    ensures Bytes.U16(d, at) == Value(d[at..at + 2])
  {
    var bs := d[at..at + 2];
    assert bs[..1][..0] == [] && bs[..1][0] == d[at];
    assert Value(bs[..1]) == d[at] as int;
  }

  /** Eight-byte keys, or composite ones. */
  predicate KeySize(k: nat) {
    k == 8 || k == 16
  }

  /** What an entry means: the rank of its key, and a RecordID or the PageID of a child. */
  function Decode(leaf: bool, k: nat, bytes: seq<Bytes.Byte>): Entry
    requires |bytes| == k + 8
  {
    Entry(Value(bytes[..k]), if leaf then DecodeInt64(bytes[k..]) else Value(bytes[k..]))
  }

  ghost function DecodeAll(leaf: bool, k: nat, es: seq<seq<Bytes.Byte>>): (r: seq<Entry>)
    requires Bytes.AllOfSize(es, k + 8)
    ensures |r| == |es|
  {
    seq(|es|, i requires 0 <= i < |es| => Decode(leaf, k, es[i]))
  }

  /** The bytes lay out entries of the tree's entry size. */
  ghost predicate Readable(d: seq<Bytes.Byte>, k: nat) {
    Bytes.Tight(d) && Bytes.AllOfSize(Bytes.EntriesOf(d), k + 8)
  }

  ghost function Meaning(d: seq<Bytes.Byte>, k: nat): Body
    requires |d| == Bytes.PageSize
  {
    if d[0] == 2 then Meta(Value(d[1..9]))
    else if d[0] > 2 || !Readable(d, k) then Garbled
    else if d[0] == 0 then Leaf(Value(d[5..13]), Value(d[13..21]), DecodeAll(true, k, Bytes.EntriesOf(d)))
    else Inner(Value(d[5..13]), DecodeAll(false, k, Bytes.EntriesOf(d)))
  }

  /** A page of the tree in memory, as bytes. */
  ghost predicate IsPage(p: Bytes.Page, k: nat)
    reads p.data
  {
    KeySize(k) && p.Valid() && (Meaning(p.data[..], k).Leaf? || Meaning(p.data[..], k).Inner?)
  }

  ghost function BodyOf(p: Bytes.Page, k: nat): Body
    reads p.data
    requires p.data.Length == Bytes.PageSize
  {
    Meaning(p.data[..], k)
  }

  // ---------------------------------------------------------------- what a page means

  lemma PageMeans(d: seq<Bytes.Byte>, k: nat)
    requires |d| == Bytes.PageSize && (Meaning(d, k).Leaf? || Meaning(d, k).Inner?)
    ensures Readable(d, k) && d[0] <= 1 && (Meaning(d, k).Leaf? <==> d[0] == 0)
    ensures Entries(Meaning(d, k)) == DecodeAll(d[0] == 0, k, Bytes.EntriesOf(d))
    ensures |Entries(Meaning(d, k))| == Bytes.NumEntries(d)
  {
    hide Bytes.EntriesOf;
    hide Bytes.U16;
  }

  /** Entry i of a page is what the bytes at slot i decode to. */
  lemma EntryMeans(p: Bytes.Page, k: nat, i: nat)
    requires IsPage(p, k) && i < |Entries(BodyOf(p, k))| && i < Bytes.NumEntries(p.data[..])
    ensures |p.GetEntry(i)| == k + 8 && Entries(BodyOf(p, k))[i] == Decode(BodyOf(p, k).Leaf?, k, p.GetEntry(i))
  {
    hide Bytes.EntriesOf;
    hide Bytes.U16;
    hide Meaning;
    PageMeans(p.data[..], k);
  }

  /** Same page type and links, other entries. */
  lemma SameHeader(d: seq<Bytes.Byte>, e: seq<Bytes.Byte>, k: nat)
    requires |d| == |e| == Bytes.PageSize && (Meaning(d, k).Leaf? || Meaning(d, k).Inner?)
    requires e[0] == d[0] && Bytes.Same(d, e, 5, Bytes.HeaderSize) && Readable(e, k)
    ensures Meaning(e, k) == WithEntries(Meaning(d, k), DecodeAll(d[0] == 0, k, Bytes.EntriesOf(e)))
  {
    hide Bytes.EntriesOf;
    hide Bytes.U16;
    assert d[5..13] == e[5..13] && d[13..21] == e[13..21];
  }

  lemma DecodedInsert(leaf: bool, k: nat, es: seq<seq<Bytes.Byte>>, i: nat, bytes: seq<Bytes.Byte>)
    requires Bytes.AllOfSize(es, k + 8) && |bytes| == k + 8 && i <= |es|
    ensures Bytes.AllOfSize(Bytes.InsertString(es, i, bytes), k + 8)
    ensures DecodeAll(leaf, k, Bytes.InsertString(es, i, bytes)) ==
            InsertAt(DecodeAll(leaf, k, es), i, Decode(leaf, k, bytes))
  {
  }

  lemma DecodedRemove(leaf: bool, k: nat, es: seq<seq<Bytes.Byte>>, i: nat)
    requires Bytes.AllOfSize(es, k + 8) && i < |es|
    ensures Bytes.AllOfSize(Bytes.RemoveString(es, i), k + 8)
    ensures DecodeAll(leaf, k, Bytes.RemoveString(es, i)) == RemoveAt(DecodeAll(leaf, k, es), i)
  {
  }

  /** Even in a full page a further entry stays inside the page and off the header. */
  lemma RoomToCollide(d: seq<Bytes.Byte>, k: nat, size: nat)
    requires KeySize(k) && Readable(d, k) && size <= k + 8
    ensures Bytes.HeaderSize + size <= Bytes.FreeOffset(d) && Bytes.SlotAt(Bytes.NumEntries(d) + 1) <= Bytes.PageSize
    ensures Bytes.HasSpaceFor(d, k + 8) ==> Bytes.HasSpaceFor(d, size)
  {
    hide Bytes.EntriesOf;
    hide Bytes.U16;
    Bytes.TotalOfSize(Bytes.EntriesOf(d), k + 8);
  }

  // ---------------------------------------------------------------- the operations

  /** Inserts an entry at slot i.  The bytes mean the page with that entry if the page has room and the
      entry is of the right size, and no page otherwise. */
  method InsertEntry(p: Bytes.Page, k: nat, i: nat, bytes: seq<Bytes.Byte>)
    requires IsPage(p, k) && i <= |Entries(BodyOf(p, k))| && |bytes| <= k + 8
    modifies p.data
    ensures var b := old(BodyOf(p, k));
            BodyOf(p, k) ==
            if |bytes| == k + 8 && |Entries(b)| < Bytes.MaxEntries(k + 8)
            then WithEntries(b, InsertAt(Entries(b), i, Decode(b.Leaf?, k, bytes))) else Garbled
    ensures p.data[0] == old(p.data[0])
    ensures |Entries(old(BodyOf(p, k)))| < Bytes.MaxEntries(k + 8) ==> p.Valid()
  {
    hide Bytes.EntriesOf;
    hide Bytes.U16;
    hide Meaning;
    hide DecodeAll;
    ghost var d := p.data[..];
    PageMeans(d, k);
    RoomToCollide(d, k, |bytes|);
    Bytes.RoomIsCount(d, k + 8);
    p.InsertEntry(i, bytes);
    ghost var e := p.data[..];
    if !Bytes.HasSpaceFor(d, |bytes|) {
      NotReadable(d, e, k);
    } else if |bytes| == k + 8 {
      DecodedInsert(d[0] == 0, k, Bytes.EntriesOf(d), i, bytes);
      SameHeader(d, e, k);
    } else {
      assert Bytes.EntriesOf(e)[i] == bytes;
      NotReadable(d, e, k);
    }
  }

  lemma NotReadable(d: seq<Bytes.Byte>, e: seq<Bytes.Byte>, k: nat)
    requires |d| == |e| == Bytes.PageSize && (Meaning(d, k).Leaf? || Meaning(d, k).Inner?)
    requires e[0] == d[0] && !Readable(e, k)
    ensures Meaning(e, k) == Garbled
  {
    hide Bytes.EntriesOf;
    hide Bytes.U16;
  }

  /** Removes slot i. */
  method DeleteEntry(p: Bytes.Page, k: nat, i: nat)
    requires IsPage(p, k)
    modifies p.data
    ensures IsPage(p, k)
    ensures var b := old(BodyOf(p, k));
            BodyOf(p, k) == if i < |Entries(b)| then WithEntries(b, RemoveAt(Entries(b), i)) else b
  {
    hide Bytes.EntriesOf;
    hide Bytes.U16;
    hide Meaning;
    hide DecodeAll;
    ghost var d := p.data[..];
    PageMeans(d, k);
    p.DeleteEntry(i);
    if i < Bytes.NumEntries(d) { DecodedRemove(d[0] == 0, k, Bytes.EntriesOf(d), i); }
    SameHeader(d, p.data[..], k);
  }

  // ---------------------------------------------------------------- links and new pages

  /** Changing links leaves the entries alone. */
  lemma SameEntries(d: seq<Bytes.Byte>, e: seq<Bytes.Byte>)
    requires Bytes.Tight(d) && |e| == Bytes.PageSize
    requires Bytes.Same(d, e, 0, 5) && Bytes.Same(d, e, Bytes.HeaderSize, Bytes.PageSize)
    ensures Bytes.Tight(e) && Bytes.EntriesOf(e) == Bytes.EntriesOf(d)
  {
    hide Bytes.EntriesOf;
    Bytes.KeepU16(d, e, 1);
    Bytes.KeepU16(d, e, 3);
    hide Bytes.U16;
    forall j | 0 <= j < Bytes.NumEntries(d)
      ensures Bytes.GetSlot(e, j) == Bytes.GetSlot(d, j) && Bytes.SlotOk(e, j, Bytes.FreeOffset(e))
    {
      Bytes.SlotSame(d, e, j);
      Bytes.EntryHere(d, j);
    }
    assert Bytes.LaidOut(e);
    forall j | 0 <= j < Bytes.NumEntries(d) ensures Bytes.EntriesOf(e)[j] == Bytes.EntriesOf(d)[j] {
      Bytes.EntryHere(d, j);
      Bytes.EntryHere(e, j);
      Bytes.SameSlice(d, e, Bytes.HeaderSize, Bytes.GetSlot(d, j));
    }
    assert Bytes.EntriesOf(e) == Bytes.EntriesOf(d);
  }

  /** Bytes that mean no page because of their entries mean none whatever the links. */
  lemma GarbledStays(d: seq<Bytes.Byte>, e: seq<Bytes.Byte>, k: nat)
    requires Bytes.Tight(d) && |e| == Bytes.PageSize && d[0] <= 1 && Meaning(d, k) == Garbled
    requires Bytes.Same(d, e, 0, 5) && Bytes.Same(d, e, Bytes.HeaderSize, Bytes.PageSize)
    ensures Meaning(e, k) == Garbled
  {
    hide Bytes.EntriesOf;
    hide Bytes.U16;
    SameEntries(d, e);
  }

  /** Writes a PageID into the header: the previous leaf or the leftmost child at 5, the next leaf at 13. */
  method SetLink(p: Bytes.Page, k: nat, at: nat, id: nat)
    requires IsPage(p, k) && id < WORD && (at == 5 || (at == 13 && BodyOf(p, k).Leaf?))
    modifies p.data
    ensures IsPage(p, k)
    ensures var b := old(BodyOf(p, k));
            BodyOf(p, k) == if at == 13 then b.(next := id) else if b.Leaf? then b.(prev := id) else b.(leftmost := id)
  {
    hide Bytes.EntriesOf;
    hide Bytes.U16;
    ghost var d := p.data[..];
    PageMeans(d, k);
    WordIsWeight();
    BigEndianValue(id, 8);
    p.Copy(at, BigEndian(id, 8));
    ghost var e := p.data[..];
    SameEntries(d, e);
    assert at == 5 ==> e[13..21] == d[13..21];
    assert at == 13 ==> e[5..13] == d[5..13];
    assert e[at..at + 8] == BigEndian(id, 8);
  }

  /** A new leaf or internal page. */
  method NewPage(id: int, k: nat, leaf: bool, leftmost: nat) returns (p: Bytes.Page)
    requires KeySize(k) && leftmost < WORD
    ensures fresh(p) && fresh(p.data) && p.id == id && IsPage(p, k)
    ensures BodyOf(p, k) == if leaf then Leaf(0, 0, []) else Inner(leftmost, [])
  {
    hide Bytes.EntriesOf;
    hide Bytes.U16;
    p := new Bytes.Page(id, if leaf then 0 else 1);
    ghost var d := p.data[..];
    ZeroLinks(d);
    assert DecodeAll(leaf, k, Bytes.EntriesOf(d)) == [];
    if !leaf {
      SetLink(p, k, 5, leftmost);
    }
  }

  lemma ZeroLinks(d: seq<Bytes.Byte>)
    requires |d| == Bytes.PageSize && forall j :: 5 <= j < 21 ==> d[j] == 0
    ensures Value(d[5..13]) == 0 && Value(d[13..21]) == 0
  {
    ZeroValue(d[5..13]);
    ZeroValue(d[13..21]);
  }

  lemma {:induction false} ZeroValue(bs: seq<Bytes.Byte>)
    requires forall j :: 0 <= j < |bs| ==> bs[j] == 0
    ensures Value(bs) == 0
  {
    if bs != [] { ZeroValue(bs[..|bs| - 1]); }
  }

  /** The next link of a leaf. */
  function LinkAt(p: Bytes.Page, k: nat): (id: nat)
    reads p.data
    requires IsPage(p, k) && BodyOf(p, k).Leaf?
    ensures id == BodyOf(p, k).next && id < WORD
  {
    WordIsWeight();
    ValueBound(p.data[..][13..21]);
    Value(p.data[..][13..21])
  }

  /** The leftmost child of an internal page. */
  function LeftmostAt(p: Bytes.Page, k: nat): (id: nat)
    reads p.data
    requires IsPage(p, k) && BodyOf(p, k).Inner?
    ensures id == BodyOf(p, k).leftmost && id < WORD
  {
    WordIsWeight();
    ValueBound(p.data[..][5..13]);
    Value(p.data[..][5..13])
  }
}
