/** Searching a page and updating a leaf at the level of the bytes: comparing encoded keys byte by byte
    does to the entries what the tree model says, for both key sizes. */
module PageSearch {
  import opened Pages
  import opened Levels
  import opened NodeOps
  import opened Trees
  import opened Node
  import opened Codec
  import opened PageBytes
  import Bytes = SlottedPage

  /** A page whose entries are in ascending key order. */
  ghost predicate IsOrdered(p: Bytes.Page, k: nat)
    reads p.data
  {
    IsPage(p, k) && Sorted(Entries(BodyOf(p, k)))
  }

  /** The number of entries, read from the header. */
  function Count(p: Bytes.Page, k: nat): (n: nat)
    reads p.data
    requires IsPage(p, k)
    ensures n == |Entries(BodyOf(p, k))|
  {
    PageMeans(p.data[..], k);
    Bytes.NumEntries(p.data[..])
  }

  /** Compares the key of entry i with the target, byte by byte. */
  function CompareAt(p: Bytes.Page, k: nat, i: nat, key: seq<Bytes.Byte>): (c: int)
    reads p.data
    requires IsPage(p, k) && i < Count(p, k) && |key| == k
    ensures c < 0 <==> Entries(BodyOf(p, k))[i].key < Value(key)
    ensures c == 0 <==> Entries(BodyOf(p, k))[i].key == Value(key)
    ensures c > 0 <==> Entries(BodyOf(p, k))[i].key > Value(key)
  {
    EntryMeans(p, k, i);
    CompareIsOrder(p.GetEntry(i)[..k], key);
    ValueBigEndian(key);
    ValueBigEndian(p.GetEntry(i)[..k]);
    CompareKeys(p.GetEntry(i)[..k], key)
  }

  /** Binary search for the first entry whose key is at least the target, or above it if `strict`. */
  method Find(p: Bytes.Page, k: nat, key: seq<Bytes.Byte>, strict: bool) returns (i: nat)
    requires IsOrdered(p, k) && |key| == k
    ensures i == Rank(Entries(BodyOf(p, k)), if strict then Value(key) else Value(key) - 1)
  {
    hide Meaning;
    hide Rank;
    hide CompareKeys;
    hide Value;
    hide Bytes.U16;
    hide Bytes.Tight;
    ghost var es := Entries(BodyOf(p, k));
    var j := Count(p, k);
    i := 0;
    while i < j
      invariant 0 <= i <= j <= |es|
      invariant i > 0 ==> if strict then es[i - 1].key <= Value(key) else es[i - 1].key < Value(key)
      invariant j < |es| ==> if strict then es[j].key > Value(key) else es[j].key >= Value(key)
    {
      var h := (i + j) / 2;
      var c := CompareAt(p, k, h, key);
      if c > 0 || (c == 0 && !strict) {
        j := h;
      } else {
        i := h + 1;
      }
    }
    RankUnique(es, if strict then Value(key) else Value(key) - 1, i);
  }

  /** The first entry whose key is at least the target, and whether it is the target. */
  method FindKeyIndex(p: Bytes.Page, k: nat, key: seq<Bytes.Byte>) returns (i: nat, found: bool)
    requires IsOrdered(p, k) && |key| == k
    ensures i == Rank(Entries(BodyOf(p, k)), Value(key) - 1)
    ensures found <==> exists j :: 0 <= j < |Entries(BodyOf(p, k))| && Entries(BodyOf(p, k))[j].key == Value(key)
    ensures found ==> i < |Entries(BodyOf(p, k))| && Entries(BodyOf(p, k))[i].key == Value(key)
  {
    hide Meaning;
    hide Rank;
    hide CompareKeys;
    hide Value;
    i := Find(p, k, key, false);
    RankBounds(Entries(BodyOf(p, k)), Value(key) - 1);
    found := i < Count(p, k) && CompareAt(p, k, i, key) == 0;
  }

  /** The child to descend into. */
  method FindChildPageID(p: Bytes.Page, k: nat, key: seq<Bytes.Byte>) returns (child: int)
    requires IsOrdered(p, k) && BodyOf(p, k).Inner? && |key| == k
    ensures child == ChildFor(BodyOf(p, k), Value(key))
  {
    hide Meaning;
    hide Rank;
    hide Value;
    var i := Find(p, k, key, true);
    if i == 0 {
      return LeftmostAt(p, k);
    }
    var n := Count(p, k);
    EntryMeans(p, k, i - 1);
    child := Value(p.GetEntry(i - 1)[k..]);
  }

  /** The entry that points at child; the number of entries if child is the leftmost one. */
  method FindChildIndex(p: Bytes.Page, k: nat, child: int) returns (i: nat, found: bool)
    requires IsPage(p, k) && BodyOf(p, k).Inner?
    ensures i == ChildIndex(BodyOf(p, k), child)
  {
    hide Meaning;
    hide Value;
    ghost var es := Entries(BodyOf(p, k));
    if LeftmostAt(p, k) == child {
      return Count(p, k), true;
    }
    var j := 0;
    while j < Count(p, k)
      invariant 0 <= j <= |es|
      invariant IndexOf(es, child) == j + IndexOf(es[j..], child)
    {
      EntryMeans(p, k, j);
      if Value(p.GetEntry(j)[k..]) == child {
        return j, true;
      }
      j := j + 1;
    }
    return 0, false;
  }

  // ---------------------------------------------------------------- one leaf

  /** Adds a row at its place, or reports that the page is full. */
  method Insert(p: Bytes.Page, k: nat, key: seq<Bytes.Byte>, recordID: Int64) returns (full: bool)
    requires IsOrdered(p, k) && BodyOf(p, k).Leaf? && |key| == k
    modifies p.data
    ensures full <==> |Entries(old(BodyOf(p, k)))| >= Bytes.MaxEntries(k + 8)
    ensures full ==> p.data[..] == old(p.data[..])
    ensures !full ==>
      var b := old(BodyOf(p, k));
      BodyOf(p, k) == WithEntries(b, InsertAt(b.entries, Rank(b.entries, Value(key) - 1), Entry(Value(key), recordID)))
  {
    hide Meaning;
    hide Rank;
    hide Value;
    hide Bytes.U16;
    hide Bytes.EntriesOf;
    hide InsertAt;
    var index, found := FindKeyIndex(p, k, key);
    var entry := key + EncodeInt64(recordID);
    assert entry[..k] == key && entry[k..] == EncodeInt64(recordID);
    Int64RoundTrip(recordID);
    PageMeans(p.data[..], k);
    Bytes.RoomIsCount(p.data[..], k + 8);
    if !Bytes.HasSpaceFor(p.data[..], |entry|) {
      return true;
    }
    InsertEntry(p, k, index, entry);
    return false;
  }

  method Search(p: Bytes.Page, k: nat, key: seq<Bytes.Byte>) returns (recordID: int, found: bool)
    requires IsOrdered(p, k) && BodyOf(p, k).Leaf? && |key| == k
    ensures found <==> exists j :: 0 <= j < |BodyOf(p, k).entries| && BodyOf(p, k).entries[j].key == Value(key)
    ensures found ==> Entry(Value(key), recordID) in BodyOf(p, k).entries
    ensures !found ==> recordID == 0
  {
    hide Meaning;
    hide Rank;
    hide Value;
    var index, ok := FindKeyIndex(p, k, key);
    if !ok {
      return 0, false;
    }
    var n := Count(p, k);
    EntryMeans(p, k, index);
    recordID, found := DecodeInt64(p.GetEntry(index)[k..]), true;
    assert BodyOf(p, k).entries[index] == Entry(Value(key), recordID);
  }

  /** Removes the row of key, or reports that there is none. */
  method Delete(p: Bytes.Page, k: nat, key: seq<Bytes.Byte>) returns (found: bool)
    requires IsOrdered(p, k) && BodyOf(p, k).Leaf? && |key| == k
    modifies p.data
    ensures IsPage(p, k)
    ensures var b := old(BodyOf(p, k));
            && (found <==> exists j :: 0 <= j < |b.entries| && b.entries[j].key == Value(key))
            && (!found ==> p.data[..] == old(p.data[..]))
            && (found ==> Rank(b.entries, Value(key) - 1) < |b.entries| &&
                          BodyOf(p, k) == WithEntries(b, RemoveAt(b.entries, Rank(b.entries, Value(key) - 1))))
  {
    hide Meaning;
    hide Rank;
    hide Value;
    hide RemoveAt;
    var index, ok := FindKeyIndex(p, k, key);
    if !ok {
      return false;
    }
    DeleteEntry(p, k, index);
    return true;
  }

  /** The capacities of the two kinds of trees, both odd. */
  lemma Capacities()
    ensures Bytes.MaxEntries(16) == 203 && Bytes.MaxEntries(24) == 145
    ensures OddCapacity(Bytes.MaxEntries(16)) && OddCapacity(Bytes.MaxEntries(24))
  {
  }
}
