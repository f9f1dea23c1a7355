/** The append-only heap: rows of any length, addressed by RecordIDs that stay good. */
module Heap {
  import opened SlottedPage

  const HeapPage: Byte := 3

  /** A page has fewer slots than bytes, so that page and slot determine the RecordID. */
  lemma SlotBound(d: seq<Byte>)
    requires LaidOut(d)
    ensures NumEntries(d) < PageSize
  {
    hide U16;
  }

  /** The rows a page holds; none before it is first written. */
  ghost function RowsAt(disk: map<int, seq<Byte>>, id: int): seq<seq<Byte>> {
    if id in disk && Tight(disk[id]) then EntriesOf(disk[id]) else []
  }

  lemma RowsHere(disk: map<int, seq<Byte>>, id: int)
    ensures RowsAt(disk, id) == if id in disk && Tight(disk[id]) then EntriesOf(disk[id]) else []
  {
  }

  /** recordID was issued exactly if its slot is in use, and then leads to its row. */
  ghost predicate Accounted(disk: map<int, seq<Byte>>, issued: map<int, seq<Byte>>, recordID: int) {
    var rows, slot := RowsAt(disk, recordID / PageSize), recordID % PageSize;
    if slot < |rows| then recordID in issued && issued[recordID] == rows[slot] else recordID !in issued
  }

  ghost predicate Stored(disk: map<int, seq<Byte>>, issued: map<int, seq<Byte>>) {
    && (forall id :: id in disk ==> Tight(disk[id]))
    && (forall recordID :: Accounted(disk, issued, recordID))
  }

  /** Page and slot determine the RecordID. */
  lemma RecordIDs(id: int, slot: nat, recordID: int)
    requires slot < PageSize
    ensures recordID == id * PageSize + slot <==> recordID / PageSize == id && recordID % PageSize == slot
  {
  }

  lemma AppendedAt(disk: map<int, seq<Byte>>, issued: map<int, seq<Byte>>, id: int, d: seq<Byte>, row: seq<Byte>,
                   recordID: int)
    requires Tight(d) && EntriesOf(d) == RowsAt(disk, id) + [row] && |RowsAt(disk, id)| < PageSize
    requires Accounted(disk, issued, recordID)
    ensures Accounted(disk[id := d], issued[id * PageSize + |RowsAt(disk, id)| := row], recordID)
  {
    hide EntriesOf;
    hide Tight;
    RecordIDs(id, |RowsAt(disk, id)|, recordID);
  }

  /** Appending a row to one page issues one new RecordID and disturbs no other. */
  lemma Appended(disk: map<int, seq<Byte>>, issued: map<int, seq<Byte>>, id: int, d: seq<Byte>, row: seq<Byte>)
    requires Stored(disk, issued) && Tight(d) && EntriesOf(d) == RowsAt(disk, id) + [row]
    ensures var recordID := id * PageSize + |RowsAt(disk, id)|;
            && |RowsAt(disk, id)| < PageSize && recordID !in issued
            && Stored(disk[id := d], issued[recordID := row])
  {
    hide EntriesOf;
    hide Tight;
    hide RowsAt;
    AppendedSlot(disk, id, d, row);
    var recordID := id * PageSize + |RowsAt(disk, id)|;
    RecordIDs(id, |RowsAt(disk, id)|, recordID);
    assert Accounted(disk, issued, recordID);
    var disk', issued' := disk[id := d], issued[recordID := row];
    forall r ensures Accounted(disk', issued', r) {
      assert Accounted(disk, issued, r);
      AppendedAt(disk, issued, id, d, row, r);
    }
  }

  lemma AppendedSlot(disk: map<int, seq<Byte>>, id: int, d: seq<Byte>, row: seq<Byte>)
    requires Tight(d) && EntriesOf(d) == RowsAt(disk, id) + [row]
    ensures |RowsAt(disk, id)| < PageSize
  {
    SlotBound(d);
  }

  // ---------------------------------------------------------------- where rows go

  /** The active page as a bookkeeper sees it: its id, how many rows and bytes of rows it holds, and the
      id of the next page. */
  datatype Filling = Filling(page: int, rows: nat, bytes: nat, next: int)

  /** A page with that many rows and bytes has room for another row. */
  predicate Fits(f: Filling, size: nat) {
    HeaderSize + (f.rows + 1) * SlotSize + f.bytes + size <= PageSize
  }

  /** The page that takes a row: the active one while it has room, otherwise the next. */
  function Settle(f: Filling, size: nat): Filling {
    if Fits(f, size) then f else Filling(f.next, 0, 0, f.next + 1)
  }

  function Fill(f: Filling, size: nat): Filling {
    var g := Settle(f, size);
    g.(rows := g.rows + 1, bytes := g.bytes + size)
  }

  /** The RecordID of the next row on that page. */
  function RecordID(f: Filling): int {
    f.page * PageSize + f.rows
  }

  /** The RecordIDs that rows of the given sizes get. */
  function Assigned(f: Filling, sizes: seq<nat>): (ids: seq<int>)
    ensures |ids| == |sizes|
    decreases |sizes|
  {
    if sizes == [] then []
    else
      var g := Settle(f, sizes[0]);
      [RecordID(g)] + Assigned(Fill(f, sizes[0]), sizes[1..])
  }

  /** RecordIDs ascend. */
  lemma {:induction false} AssignedAscend(f: Filling, sizes: seq<nat>, i: nat, j: nat)
    requires f.page < f.next && f.rows < PageSize && i < j < |sizes|
    requires forall k :: 0 <= k < |sizes| ==> HeaderSize + SlotSize + sizes[k] <= PageSize
    ensures Assigned(f, sizes)[i] < Assigned(f, sizes)[j]
    decreases |sizes|
  {
    var g, h := Settle(f, sizes[0]), Fill(f, sizes[0]);
    if i > 0 {
      AssignedAscend(h, sizes[1..], i - 1, j - 1);
    } else {
      AssignedAbove(h, sizes[1..], j - 1);
    }
  }

  lemma {:induction false} AssignedAbove(f: Filling, sizes: seq<nat>, i: nat)
    requires f.page < f.next && f.rows < PageSize && i < |sizes|
    requires forall k :: 0 <= k < |sizes| ==> HeaderSize + SlotSize + sizes[k] <= PageSize
    ensures Assigned(f, sizes)[i] >= f.page * PageSize + f.rows
    decreases |sizes|
  {
    if i > 0 { AssignedAbove(Fill(f, sizes[0]), sizes[1..], i - 1); }
  }

  /** Rows of one size fill a page in slot order, as many as fit, before the next page is started. */
  lemma {:induction false} EqualRows(f: Filling, size: nat, sizes: seq<nat>, i: nat)
    requires i < |sizes| && f.bytes == f.rows * size && forall k :: 0 <= k <= i ==> sizes[k] == size
    requires HeaderSize + (f.rows + i + 1) * (SlotSize + size) <= PageSize
    ensures Assigned(f, sizes)[i] == f.page * PageSize + f.rows + i
    decreases |sizes|
  {
    EqualFits(f, size, i);
    if i > 0 {
      FillEqual(f, size);
      EqualRows(Fill(f, size), size, sizes[1..], i - 1);
    }
  }

  lemma EqualFits(f: Filling, size: nat, i: nat)
    requires f.bytes == f.rows * size && HeaderSize + (f.rows + i + 1) * (SlotSize + size) <= PageSize
    ensures Fits(f, size)
  {
    var n := f.rows;
    assert (n + i + 1) * (SlotSize + size) == (n + 1) * SlotSize + n * size + size + i * (SlotSize + size);
  }

  lemma FillEqual(f: Filling, size: nat)
    requires f.bytes == f.rows * size && Fits(f, size)
    ensures var g := Fill(f, size); g.page == f.page && g.rows == f.rows + 1 && g.bytes == g.rows * size
  {
  }

  lemma TotalAppend(es: seq<seq<Byte>>, row: seq<Byte>)
    ensures TotalBytes(es + [row]) == TotalBytes(es) + |row|
    ensures TotalBytes([row]) == |row| && [] + [row] == [row]
  {
    assert (es + [row])[..|es|] == es && [row][..0] == [];
  }

  /** What a page has room for depends on its number of rows and their bytes. */
  lemma RoomByCount(d: seq<Byte>, page: int, next: int, size: nat)
    requires Tight(d)
    ensures HasSpaceFor(d, size) <==> Fits(Filling(page, |EntriesOf(d)|, TotalBytes(EntriesOf(d)), next), size)
  {
    hide U16;
    hide TotalBytes;
  }

  class HeapFile {
    var disk: map<int, seq<Byte>>
    var nextPageID: int
    var activePage: Page
    /** Every RecordID returned by Put, with its row. */
    ghost var issued: map<int, seq<Byte>>

    ghost predicate Valid()
      reads this, activePage.data
    {
      && activePage.Valid() && activePage.id in disk && disk[activePage.id] == activePage.data[..]
      && (forall id :: id in disk ==> id < nextPageID)
      && Stored(disk, issued)
    }

    /** How full the active page is. */
    ghost function Level(): Filling
      reads this, activePage.data
      requires activePage.Valid()
    {
      Filling(activePage.id, |activePage.Entries()|, TotalBytes(activePage.Entries()), nextPageID)
    }

    /** Opens an empty file with one empty page. */
    constructor ()
      ensures Valid() && issued == map[] && fresh(activePage.data) && Level() == Filling(0, 0, 0, 1)
    {
      activePage := new Page(0, HeapPage);
      nextPageID, issued := 1, map[];
      new;
      disk := map[0 := activePage.data[..]];
      hide EntriesOf;
      hide U16;
      assert forall p :: RowsAt(disk, p) == [];
    }

    /** The active page has room for the row; it may be a new one that was not written yet. */
    ghost predicate Open(size: nat)
      reads this, activePage.data
    {
      && activePage.Valid() && HasSpaceFor(activePage.data[..], size)
      && activePage.Entries() == RowsAt(disk, activePage.id) && activePage.id < nextPageID
      && (forall id :: id in disk ==> id < nextPageID)
      && Stored(disk, issued)
    }

    method Append(row: seq<Byte>) returns (recordID: int)
      requires Open(|row|)
      modifies this`disk, this`issued, activePage.data
      ensures Valid() && recordID !in old(issued) && issued == old(issued)[recordID := row]
      ensures activePage.Entries() == old(activePage.Entries()) + [row]
      ensures recordID == activePage.id * PageSize + |old(activePage.Entries())|
    {
      hide EntriesOf;
      hide U16;
      hide Stored;
      hide RowsAt;
      hide LaidOut;
      hide Same;
      hide InsertString;
      ghost var before := activePage.Entries();
      var slotIndex := NumEntries(activePage.data[..]);
      RoomForRow(activePage.data[..], |row|);
      activePage.InsertEntry(slotIndex, row);
      InsertLast(before, row);
      Appended(disk, issued, activePage.id, activePage.data[..], row);
      disk := disk[activePage.id := activePage.data[..]];
      recordID := activePage.id * PageSize + slotIndex;
      issued := issued[recordID := row];
    }

    /** Stores a row behind the others on the active page, or as the first of a new page if the active one
        has no room for it; the RecordID is made of that page and the slot. */
    method Put(row: seq<Byte>) returns (recordID: int, ok: bool)
      requires Valid()
      modifies this, activePage.data
      ensures Valid() && (activePage == old(activePage) || fresh(activePage.data))
      ensures ok <==> HeaderSize + SlotSize + |row| <= PageSize
      ensures ok ==> recordID !in old(issued) && issued == old(issued)[recordID := row]
      ensures !ok ==> recordID == 0 && issued == old(issued) && disk == old(disk) && Level() == old(Level())
      ensures ok && old(HasSpaceFor(activePage.data[..], |row|)) ==>
        && activePage == old(activePage) && nextPageID == old(nextPageID)
        && activePage.Entries() == old(activePage.Entries()) + [row]
        && recordID == activePage.id * PageSize + |old(activePage.Entries())|
      ensures ok && !old(HasSpaceFor(activePage.data[..], |row|)) ==>
        && activePage.id == old(nextPageID) && nextPageID == old(nextPageID) + 1
        && activePage.Entries() == [row] && recordID == activePage.id * PageSize
      ensures ok ==> Level() == Fill(old(Level()), |row|) && recordID == RecordID(Settle(old(Level()), |row|))
    {
      hide EntriesOf;
      hide U16;
      hide Stored;
      hide RowsAt;
      hide LaidOut;
      if HeaderSize + SlotSize + |row| > PageSize {
        return 0, false;
      }
      RoomByCount(activePage.data[..], activePage.id, nextPageID, |row|);
      if !HasSpaceFor(activePage.data[..], |row|) {
        activePage := new Page(nextPageID, HeapPage);
        nextPageID := nextPageID + 1;
        EmptyPage(activePage.data[..]);
      }
      RowsHere(disk, activePage.id);
      TotalAppend(activePage.Entries(), row);
      recordID := Append(row);
      ok := true;
    }

    lemma LevelHere()
      requires Valid()
      ensures activePage.Valid()
    {
    }

    /** The row stored under recordID: found exactly if Put ever returned that id. */
    method Get(recordID: int) returns (row: seq<Byte>, ok: bool)
      requires Valid()
      ensures ok <==> recordID in issued
      ensures ok ==> row == issued[recordID]
      ensures !ok ==> row == []
    {
      hide U16;
      hide EntriesOf;
      var pageID, slotIndex := recordID / PageSize, recordID % PageSize;
      assert Accounted(disk, issued, recordID);
      if pageID !in disk {
        return [], false;
      }
      var d := disk[pageID];
      assert Tight(d);
      if slotIndex >= NumEntries(d) {
        return [], false;
      }
      EntryHere(d, slotIndex);
      return EntryAt(d, GetSlot(d, slotIndex)), true;
    }
  }

  lemma RoomForRow(d: seq<Byte>, size: nat)
    requires Tight(d) && HasSpaceFor(d, size)
    ensures HeaderSize + size <= FreeOffset(d) && SlotAt(NumEntries(d) + 1) <= PageSize
    ensures NumEntries(d) == |EntriesOf(d)|
  {
    hide U16;
  }

  lemma InsertLast(es: seq<seq<Byte>>, row: seq<Byte>)
    ensures InsertString(es, |es|, row) == es + [row]
  {
  }

  /** An empty page has room for every row that fits a page at all. */
  lemma EmptyPage(d: seq<Byte>)
    requires Tight(d) && EntriesOf(d) == []
    ensures NumEntries(d) == 0 && FreeOffset(d) == PageSize
  {
    hide U16;
  }

  function Sizes(rows: seq<seq<Byte>>): (sizes: seq<nat>)
    ensures |sizes| == |rows| && forall i :: 0 <= i < |rows| ==> sizes[i] == |rows[i]|
  {
    seq(|rows|, i requires 0 <= i < |rows| => |rows[i]|)
  }

  lemma OneMoreRow(f: Filling, sizes: seq<nat>, k: nat, ids: seq<int>)
    requires k < |sizes|
    ensures ids + Assigned(f, sizes[k..]) ==
            ids + [RecordID(Settle(f, sizes[k]))] + Assigned(Fill(f, sizes[k]), sizes[k + 1..])
  {
    assert sizes[k..][1..] == sizes[k + 1..];
  }

  /** Over every run of Puts, with page rollover and empty rows, the RecordIDs are the ones that the sizes
      of the rows assign, they are pairwise distinct, and in the end each leads to its own row, as do all
      issued before. */
  method PutAll(h: HeapFile, rows: seq<seq<Byte>>) returns (ids: seq<int>)
    requires h.Valid() && forall i :: 0 <= i < |rows| ==> HeaderSize + SlotSize + |rows[i]| <= PageSize
    modifies h, h.activePage.data
    ensures h.Valid() && |ids| == |rows| && ids == Assigned(old(h.Level()), Sizes(rows))
    ensures forall i, j :: 0 <= i < j < |ids| ==> ids[i] != ids[j]
    ensures forall i :: 0 <= i < |ids| ==> ids[i] !in old(h.issued) && ids[i] in h.issued && h.issued[ids[i]] == rows[i]
    ensures forall r :: r in old(h.issued) ==> r in h.issued && h.issued[r] == old(h.issued)[r]
  {
    hide HeapFile.Valid;
    hide Page.Valid;
    ids := [];
    hide Assigned;
    hide Fill;
    hide Settle;
    hide RecordID;
    hide HasSpaceFor;
    hide HeapFile.Level;
    hide Page.Entries;
    ghost var sizes := Sizes(rows);
    assert sizes[0..] == sizes && sizes[|rows|..] == [];
    h.LevelHere();
    for k := 0 to |rows|
      invariant h.Valid() && |ids| == k && (h.activePage == old(h.activePage) || fresh(h.activePage.data))
      invariant h.activePage.Valid() && Assigned(old(h.Level()), sizes) == ids + Assigned(h.Level(), sizes[k..])
      invariant forall i, j :: 0 <= i < j < k ==> ids[i] != ids[j]
      invariant forall i :: 0 <= i < k ==> ids[i] !in old(h.issued) && ids[i] in h.issued && h.issued[ids[i]] == rows[i]
      invariant forall r :: r in old(h.issued) ==> r in h.issued && h.issued[r] == old(h.issued)[r]
    {
      OneMoreRow(h.Level(), sizes, k, ids);
      var id, ok := h.Put(rows[k]);
      h.LevelHere();
      ids := ids + [id];
    }
  }

  /** On a new heap, n rows of one byte get the RecordIDs 0 to n - 1 as long as they fit on one page. */
  method PutSmall(rows: seq<seq<Byte>>) returns (ids: seq<int>)
    requires |rows| <= 815 && forall i :: 0 <= i < |rows| ==> |rows[i]| == 1
    ensures |ids| == |rows| && forall i :: 0 <= i < |rows| ==> ids[i] == i
  {
    hide HeapFile.Valid;
    hide Page.Valid;
    hide Assigned;
    var h := new HeapFile();
    ids := PutAll(h, rows);
    forall i | 0 <= i < |rows| ensures ids[i] == i {
      EqualRows(Filling(0, 0, 0, 1), 1, Sizes(rows), i);
    }
  }
}
