/** Page contents as the B+ tree sees them.

    An entry is one fixed-width slot of a page: a key followed by an 8-byte value.  Keys are the
    big-endian ranks of the encoded key bytes (module Codec relates the two), so that byte
    comparison is integer comparison.  In a leaf `val` is a RecordID, in an internal page it is
    the PageID of a child. */
module Pages {

  datatype Entry = Entry(key: int, val: int)

  datatype Body =
    | Leaf(prev: int, next: int, entries: seq<Entry>)
    | Inner(leftmost: int, entries: seq<Entry>)
    | Meta(root: int)
    | Garbled // the bytes do not lay out a page with entries of the tree's entry size

  /** The entries of a page; none for pages that hold no entries. */
  function Entries(b: Body): seq<Entry> {
    if b.Leaf? || b.Inner? then b.entries else []
  }

  function InsertAt(s: seq<Entry>, i: nat, e: Entry): seq<Entry>
    requires i <= |s|
  {
    s[..i] + [e] + s[i..]
  }

  function RemoveAt(s: seq<Entry>, i: nat): seq<Entry>
    requires i < |s|
  {
    s[..i] + s[i + 1..]
  }

  function WithEntries(b: Body, s: seq<Entry>): Body {
    match b
    case Leaf(prev, next, _) => Leaf(prev, next, s)
    case Inner(leftmost, _) => Inner(leftmost, s)
    case _ => Garbled
  }

  /** An in-memory page: a fixed identity and contents that are edited in place. */
  class Page {
    const id: int
    var body: Body

    constructor (id: int, body: Body)
      ensures this.id == id && this.body == body
    {
      this.id := id;
      this.body := body;
    }

    /** Inserts e at slot i.  A page that has no room for one more of its `cap` entries, or gets an
        entry of another size than the rest, no longer reads as a page of the tree. */
    method InsertEntry(i: nat, e: Entry, cap: nat, sameSize: bool := true)
      requires i <= |Entries(body)|
      modifies this
      ensures body == if sameSize && |Entries(old(body))| < cap
                      then WithEntries(old(body), InsertAt(Entries(old(body)), i, e)) else Garbled
    {
      body := if sameSize && |Entries(body)| < cap then WithEntries(body, InsertAt(Entries(body), i, e)) else Garbled;
    }

    /** Sets the leftmost child of an internal page. */
    method SetLeftmost(id: int)
      modifies this
      ensures body == if old(body).Inner? then old(body).(leftmost := id) else old(body)
    {
      if body.Inner? {
        body := body.(leftmost := id);
      }
    }

    /** Removes slot i and compacts; a slot past the end is ignored. */
    method DeleteEntry(i: nat)
      requires body.Leaf? || body.Inner?
      modifies this
      ensures body == if i < |Entries(old(body))|
                      then WithEntries(old(body), RemoveAt(Entries(old(body)), i)) else old(body)
    {
      if i < |Entries(body)| {
        body := WithEntries(body, RemoveAt(Entries(body), i));
      }
    }
  }
}
