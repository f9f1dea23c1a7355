/** Which pages of the tree model are the meaning of some page of bytes: exactly those whose entries are
    encodable and fit. */
module Images {
  import opened Pages
  import opened Codec
  import opened PageBytes
  import Bytes = SlottedPage

  /** The numbers of an entry fit their bytes. */
  predicate Encodable(leaf: bool, k: nat, e: Entry) {
    && 0 <= e.key < Weight(k)
    && if leaf then 0 <= e.val + SIGN < WORD else 0 <= e.val < WORD
  }

  function EncodeEntry(leaf: bool, k: nat, e: Entry): seq<Bytes.Byte>
    requires Encodable(leaf, k, e)
  {
    WordIsWeight();
    BigEndian(e.key, k) + if leaf then EncodeInt64(e.val) else BigEndian(e.val, 8)
  }

  lemma EntryRoundTrip(leaf: bool, k: nat, e: Entry)
    requires Encodable(leaf, k, e)
    ensures |EncodeEntry(leaf, k, e)| == k + 8 && Decode(leaf, k, EncodeEntry(leaf, k, e)) == e
  {
    WordIsWeight();
    BigEndianValue(e.key, k);
    if leaf {
      Int64RoundTrip(e.val);
    } else {
      BigEndianValue(e.val, 8);
    }
    var bytes := EncodeEntry(leaf, k, e);
    assert bytes[..k] == BigEndian(e.key, k);
    assert bytes[k..] == if leaf then EncodeInt64(e.val) else BigEndian(e.val, 8);
  }

  lemma DecodedIsEncodable(leaf: bool, k: nat, bytes: seq<Bytes.Byte>)
    requires |bytes| == k + 8
    ensures Encodable(leaf, k, Decode(leaf, k, bytes))
  {
    WordIsWeight();
    ValueBound(bytes[..k]);
    ValueBound(bytes[k..]);
  }

  predicate Link(id: int) {
    0 <= id < WORD
  }

  /** A leaf or an internal page with encodable numbers and no more entries than fit. */
  ghost predicate Fits(b: Body, k: nat) {
    && (b.Leaf? || b.Inner?) && |Entries(b)| <= Bytes.MaxEntries(k + 8)
    && (forall i :: 0 <= i < |Entries(b)| ==> Encodable(b.Leaf?, k, Entries(b)[i]))
    && if b.Leaf? then Link(b.prev) && Link(b.next) else Link(b.leftmost)
  }

  ghost predicate IsImage(d: seq<Bytes.Byte>, b: Body, k: nat) {
    |d| == Bytes.PageSize && Meaning(d, k) == b
  }

  /** Some bytes mean b. */
  ghost predicate HasImage(b: Body, k: nat) {
    exists d: seq<Bytes.Byte> :: IsImage(d, b, k)
  }

  // ---------------------------------------------------------------- building the bytes

  /** The header of a page without entries: type, links, free offset. */
  function Blank(leaf: bool, first: nat, second: nat): (d: seq<Bytes.Byte>)
    requires first < WORD && second < WORD
    ensures |d| == Bytes.PageSize
  {
    WordIsWeight();
    BigEndianValue(first, 8);
    BigEndianValue(second, 8);
    [if leaf then 0 else 1, 0, 0, 16, 0] + BigEndian(first, 8) + BigEndian(second, 8) +
    seq(Bytes.PageSize - Bytes.HeaderSize, _ => 0)
  }

  lemma BlankMeans(leaf: bool, k: nat, first: nat, second: nat)
    requires first < WORD && second < WORD
    ensures Meaning(Blank(leaf, first, second), k) == if leaf then Leaf(first, second, []) else Inner(first, [])
  {
    var d := Blank(leaf, first, second);
    WordIsWeight();
    BigEndianValue(first, 8);
    BigEndianValue(second, 8);
    assert d[5..13] == BigEndian(first, 8) && d[13..21] == BigEndian(second, 8);
    assert d[0] == (if leaf then 0 else 1) && d[1] == 0 && d[2] == 0 && d[3] == 16 && d[4] == 0;
    assert Bytes.NumEntries(d) == 0 && Bytes.FreeOffset(d) == Bytes.PageSize;
    assert Bytes.EntriesOf(d) == [];
    assert DecodeAll(leaf, k, []) == [];
  }

  /** The page with one more entry in its last slot. */
  function Appended(d: seq<Bytes.Byte>, bytes: seq<Bytes.Byte>): (e: seq<Bytes.Byte>)
    requires |d| == Bytes.PageSize && Bytes.HasSpaceFor(d, |bytes|) && Bytes.FreeOffset(d) <= Bytes.PageSize
    ensures |e| == Bytes.PageSize
  {
    var n, free := Bytes.NumEntries(d), Bytes.FreeOffset(d);
    var off := free - |bytes|;
    var b := d[..off] + bytes + d[free..];
    Bytes.Put16(Bytes.Put16(Bytes.PutSlot(b, n, Bytes.Slot(off, |bytes|)), 3, off), 1, n + 1)
  }

  lemma AppendedMeans(d: seq<Bytes.Byte>, bytes: seq<Bytes.Byte>)
    requires Bytes.Tight(d) && Bytes.HasSpaceFor(d, |bytes|)
    ensures var e := Appended(d, bytes);
            && Bytes.Tight(e) && Bytes.EntriesOf(e) == Bytes.EntriesOf(d) + [bytes]
            && e[0] == d[0] && Bytes.Same(d, e, 5, Bytes.HeaderSize)
  {
    hide Bytes.U16;
    hide Bytes.Put16;
    hide Bytes.PutSlot;
    hide Bytes.EntriesOf;
    var n, free := Bytes.NumEntries(d), Bytes.FreeOffset(d);
    var off := free - |bytes|;
    var b := d[..off] + bytes + d[free..];
    assert b[off..free] == bytes;
    Bytes.Assembled(d, d, b, n, bytes);
    Bytes.InsertedMeans(d, Appended(d, bytes), n, bytes);
    assert Bytes.InsertString(Bytes.EntriesOf(d), n, bytes) == Bytes.EntriesOf(d) + [bytes];
  }

  lemma AppendEntry(d: seq<Bytes.Byte>, k: nat, e: Entry) returns (d': seq<Bytes.Byte>)
    requires |d| == Bytes.PageSize && (Meaning(d, k).Leaf? || Meaning(d, k).Inner?)
    requires |Entries(Meaning(d, k))| < Bytes.MaxEntries(k + 8) && Encodable(Meaning(d, k).Leaf?, k, e)
    ensures |d'| == Bytes.PageSize
    ensures Meaning(d', k) == WithEntries(Meaning(d, k), Entries(Meaning(d, k)) + [e])
  {
    hide Meaning;
    hide Bytes.U16;
    hide Bytes.EntriesOf;
    hide DecodeAll;
    PageMeans(d, k);
    Bytes.RoomIsCount(d, k + 8);
    var leaf, es := d[0] == 0, Bytes.EntriesOf(d);
    EntryRoundTrip(leaf, k, e);
    var bytes := EncodeEntry(leaf, k, e);
    d' := Appended(d, bytes);
    AppendedMeans(d, bytes);
    assert es + [bytes] == Bytes.InsertString(es, |es|, bytes);
    DecodedInsert(leaf, k, es, |es|, bytes);
    SameHeader(d, d', k);
    assert InsertAt(DecodeAll(leaf, k, es), |es|, e) == DecodeAll(leaf, k, es) + [e];
  }

  lemma {:induction false} BuildImage(b: Body, k: nat, n: nat) returns (d: seq<Bytes.Byte>)
    requires Fits(b, k) && n <= |Entries(b)|
    ensures |d| == Bytes.PageSize && Meaning(d, k) == WithEntries(b, Entries(b)[..n])
    decreases n
  {
    hide Meaning;
    hide Encodable;
    hide Bytes.MaxEntries;
    if n == 0 {
      d := if b.Leaf? then Blank(true, b.prev, b.next) else Blank(false, b.leftmost, 0);
      BlankMeans(b.Leaf?, k, if b.Leaf? then b.prev else b.leftmost, if b.Leaf? then b.next else 0);
    } else {
      d := BuildImage(b, k, n - 1);
      d := AppendEntry(d, k, Entries(b)[n - 1]);
      assert Entries(b)[..n] == Entries(b)[..n - 1] + [Entries(b)[n - 1]];
    }
  }

  /** The metadata page has an image, too. */
  lemma MetaHasImage(root: nat, k: nat)
    ensures HasImage(Meta(root), k) <==> root < WORD
  {
    WordIsWeight();
    if root < WORD {
      BigEndianValue(root, 8);
      var d: seq<Bytes.Byte> := [2] + BigEndian(root, 8) + seq(Bytes.PageSize - 9, _ => 0);
      assert d[1..9] == BigEndian(root, 8);
      assert IsImage(d, Meta(root), k);
    }
    if HasImage(Meta(root), k) {
      var d: seq<Bytes.Byte> :| IsImage(d, Meta(root), k);
      ValueBound(d[1..9]);
    }
  }

  // ---------------------------------------------------------------- exactly those

  /** A leaf or internal page is the meaning of some bytes if and only if its numbers are encodable and it
      has no more than MaxEntries entries. */
  lemma ImageIsFit(b: Body, k: nat)
    requires b.Leaf? || b.Inner?
    ensures HasImage(b, k) <==> Fits(b, k)
  {
    hide Bytes.MaxEntries;
    if Fits(b, k) {
      var d := BuildImage(b, k, |Entries(b)|);
      assert Entries(b)[..|Entries(b)|] == Entries(b);
      assert IsImage(d, b, k);
    }
    if HasImage(b, k) {
      var d: seq<Bytes.Byte> :| IsImage(d, b, k);
      MeaningFits(d, k);
    }
  }

  lemma MeaningFits(d: seq<Bytes.Byte>, k: nat)
    requires |d| == Bytes.PageSize && (Meaning(d, k).Leaf? || Meaning(d, k).Inner?)
    ensures Fits(Meaning(d, k), k)
  {
    hide Bytes.U16;
    hide Bytes.EntriesOf;
    hide Bytes.MaxEntries;
    PageMeans(d, k);
    var leaf, es := d[0] == 0, Bytes.EntriesOf(d);
    var decoded := DecodeAll(leaf, k, es);
    forall i | 0 <= i < |decoded| ensures Encodable(leaf, k, decoded[i]) {
      DecodedIsEncodable(leaf, k, es[i]);
    }
    WordIsWeight();
    ValueBound(d[5..13]);
    ValueBound(d[13..21]);
    Bytes.TotalOfSize(es, k + 8);
    CountFits(|es|, k + 8);
  }

  lemma CountFits(n: nat, size: nat)
    ensures Bytes.SlotAt(n) + n * size <= Bytes.PageSize <==> n <= Bytes.MaxEntries(size)
  {
    Bytes.QuotientBound(Bytes.PageSize - Bytes.HeaderSize, Bytes.SlotSize + size, n);
    assert n * (Bytes.SlotSize + size) == n * Bytes.SlotSize + n * size;
  }
}
