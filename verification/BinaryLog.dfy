/** The paged binary log (aos/common/logging/binary_log_file.h and binary_log_file.cc): writer and reader. */
module BinaryLog {
  import opened ByteOrder

  type Page = seq<byte>

  const PAGE_SIZE: nat := 16384
  const ALIGNMENT: nat := 8
  const HEADER_SIZE: nat := 32
  const MARKER_SIZE: nat := 4

  // ----- the bytes of a record -----

  /**
   * One log message: the header fields between the marker and the sizes (times and source), those after the
   * sizes (sequence, type, level and padding), the process name and the message.
   */
  datatype Record = Record(stamps: seq<byte>, tags: seq<byte>, name: seq<byte>, message: seq<byte>)

  predicate RecordOk(r: Record) {
    |r.stamps| == 12 && |r.tags| == 8 && |r.name| < 0x1_0000_0000 && |r.message| < 0x1_0000_0000
  }

  function Size(r: Record): nat {
    HEADER_SIZE + |r.name| + |r.message|
  }

  function Bytes(r: Record, marker: nat): (b: seq<byte>)
    requires RecordOk(r)
    ensures |b| == Size(r)
  {
    Le32(marker) + r.stamps + Le32(|r.name|) + Le32(|r.message|) + r.tags + r.name + r.message
  }

  /** What the reader sees at `p`: the marker, and the record whose sizes stand in the header. */
  function MarkerAt(page: Page, p: nat): nat
    requires p + MARKER_SIZE <= |page|
  {
    FromLe32(page[p..p + 4])
  }

  function NameSizeAt(page: Page, p: nat): nat
    requires p + 24 <= |page|
  {
    FromLe32(page[p + 16..p + 20])
  }

  function MessageSizeAt(page: Page, p: nat): nat
    requires p + 24 <= |page|
  {
    FromLe32(page[p + 20..p + 24])
  }

  function RecordAt(page: Page, p: nat): Record
    requires p + HEADER_SIZE <= |page| && p + HEADER_SIZE + NameSizeAt(page, p) + MessageSizeAt(page, p) <= |page|
  {
    var n, k := NameSizeAt(page, p), MessageSizeAt(page, p);
    Record(page[p + 4..p + 16], page[p + 24..p + 32], page[p + 32..p + 32 + n], page[p + 32 + n..p + 32 + n + k])
  }

  lemma HeaderParts(r: Record, marker: nat)
    requires RecordOk(r)
    ensures
      var b := Bytes(r, marker);
      b[0..4] == Le32(marker) && b[4..16] == r.stamps && b[16..20] == Le32(|r.name|) && b[20..24] == Le32(|r.message|)
      && b[24..32] == r.tags
  {
    var h := Le32(marker) + r.stamps + Le32(|r.name|) + Le32(|r.message|) + r.tags;
    assert Bytes(r, marker) == h + (r.name + r.message);
    assert Bytes(r, marker)[0..32] == h;
  }

  /** The marker at 0, the size of the name at 16, that of the message at 20, the name at 32, the message behind it. */
  lemma RecordLayout(r: Record, marker: nat)
    requires RecordOk(r) && marker < 0x1_0000_0000
    ensures
      var b := Bytes(r, marker);
      && Word32At(b, 0, marker) && b[4..16] == r.stamps && Word32At(b, 16, |r.name|) && Word32At(b, 20, |r.message|)
      && b[24..32] == r.tags && b[32..32 + |r.name|] == r.name && b[32 + |r.name|..] == r.message
  {
    hide Bytes, Le32;
    HeaderParts(r, marker);
    BodyParts(r, marker);
    Le32Means(marker);
    Le32Means(|r.name|);
    Le32Means(|r.message|);
    var b := Bytes(r, marker);
    WordWithin(b, 0, marker);
    WordWithin(b, 16, |r.name|);
    WordWithin(b, 20, |r.message|);
  }

  lemma WordWithin(b: seq<byte>, k: nat, v: nat)
    requires k + 4 <= |b| && Word32At(b[k..k + 4], 0, v)
    ensures Word32At(b, k, v)
  {
  }

  lemma BodyParts(r: Record, marker: nat)
    requires RecordOk(r)
    ensures
      var b := Bytes(r, marker);
      b[32..32 + |r.name|] == r.name && b[32 + |r.name|..] == r.message
  {
    var h := Le32(marker) + r.stamps + Le32(|r.name|) + Le32(|r.message|) + r.tags;
    assert Bytes(r, marker) == h + r.name + r.message;
  }

  lemma SubSlice(s: seq<byte>, p: nat, n: nat, i: nat, j: nat)
    requires p + n <= |s| && i <= j <= n
    ensures s[p..p + n][i..j] == s[p + i..p + j]
  {
    var a, b := s[p..p + n][i..j], s[p + i..p + j];
    forall k | 0 <= k < |a|
      ensures a[k] == b[k]
    {
    }
  }

  /** The bytes of a record on a page decode to that record and the marker. */
  lemma RecordRoundTrip(page: Page, p: nat, r: Record, marker: nat)
    requires RecordOk(r) && p + Size(r) <= |page| && marker < 0x1_0000_0000
    requires page[p..p + Size(r)] == Bytes(r, marker)
    ensures MarkerAt(page, p) == marker && NameSizeAt(page, p) == |r.name| && MessageSizeAt(page, p) == |r.message|
    ensures RecordAt(page, p) == r
  {
    hide Le32, FromLe32, Bytes;
    var b, n, s := Bytes(r, marker), |r.name|, Size(r);
    Le32RoundTrip(marker);
    Le32RoundTrip(|r.name|);
    Le32RoundTrip(|r.message|);
    HeaderParts(r, marker);
    BodyParts(r, marker);
    SubSlice(page, p, s, 0, 4);
    SubSlice(page, p, s, 4, 16);
    SubSlice(page, p, s, 16, 20);
    SubSlice(page, p, s, 20, 24);
    SubSlice(page, p, s, 24, 32);
    SubSlice(page, p, s, 32, 32 + n);
    SubSlice(page, p, s, 32 + n, s);
  }

  // ----- positions -----

  /** IncrementPosition followed by AlignPosition, which always moves on by at least one byte. */
  function Increment(position: nat, size: nat): (r: nat)
    ensures r % ALIGNMENT == 0 && position + size < r <= position + size + ALIGNMENT
  {
    position + size + (ALIGNMENT - (position + size) % ALIGNMENT)
  }

  /** NeedNewPageFor */
  predicate NeedNewPage(position: nat, size: nat) {
    position + size + (ALIGNMENT - size % ALIGNMENT) + MARKER_SIZE > PAGE_SIZE
  }

  /** The record, aligned, and another marker still fit on the page. */
  predicate HasRoom(position: nat, size: nat) {
    Increment(position, size) + MARKER_SIZE <= PAGE_SIZE
  }

  /** The test for a new page, which aligns the size alone, is exact at every aligned position. */
  lemma NewPageIff(position: nat, size: nat)
    requires position % ALIGNMENT == 0
    ensures NeedNewPage(position, size) <==> !HasRoom(position, size)
  {
    assert (position + size) % ALIGNMENT == size % ALIGNMENT;
  }

  /** A record that fits an empty page. */
  predicate Fits(r: Record) {
    RecordOk(r) && !NeedNewPage(0, Size(r))
  }

  /** A record that is put at an aligned position without a new page leaves room for the next marker. */
  lemma RoomForMarker(position: nat, size: nat)
    requires position % ALIGNMENT == 0 && !NeedNewPage(position, size)
    ensures Increment(position, size) + ALIGNMENT <= PAGE_SIZE
  {
  }

  // ----- the layout of a log -----

  /** What has been put in the file, in order: a record, or the mark that the log goes on on the next page. */
  datatype Item = Rec(r: Record) | Break

  datatype Cursor = Cursor(page: nat, pos: nat)

  /** The place after an item that stands at `c`. */
  function Past(c: Cursor, item: Item): Cursor {
    match item
    case Rec(r) => Cursor(c.page, Increment(c.pos, Size(r)))
    case Break => Cursor(c.page + 1, 0)
  }

  /** The place of item `k`, or, for `k == |items|`, the place of the next item. */
  function Place(items: seq<Item>, k: nat): Cursor
    requires k <= |items|
    decreases k
  {
    if k == 0 then Cursor(0, 0) else Past(Place(items, k - 1), items[k - 1])
  }

  lemma {:induction false} PlaceKept(items: seq<Item>, item: Item, k: nat)
    requires k <= |items|
    ensures Place(items + [item], k) == Place(items, k)
  {
    if k > 0 {
      PlaceKept(items, item, k - 1);
      assert (items + [item])[k - 1] == items[k - 1];
    }
  }

  ghost predicate MarkerIs(pages: seq<Page>, c: Cursor, marker: nat) {
    c.page < |pages| && |pages[c.page]| == PAGE_SIZE && c.pos + MARKER_SIZE <= PAGE_SIZE
    && MarkerAt(pages[c.page], c.pos) == marker
  }

  predicate ZeroFrom(page: Page, p: nat) {
    forall i | p <= i < |page| :: page[i] == 0
  }

  /** The item stands at `c`, at an aligned position, followed by room for another marker. */
  ghost predicate ItemAt(pages: seq<Page>, c: Cursor, item: Item) {
    && c.page < |pages| && |pages[c.page]| == PAGE_SIZE && c.pos % ALIGNMENT == 0
    && match item
       case Rec(r) =>
         && RecordOk(r) && Increment(c.pos, Size(r)) + ALIGNMENT <= PAGE_SIZE
         && pages[c.page][c.pos..c.pos + Size(r)] == Bytes(r, 1)
       case Break => MarkerIs(pages, c, 2) && ZeroFrom(pages[c.page], c.pos + MARKER_SIZE)
  }

  ghost predicate ItemOk(pages: seq<Page>, items: seq<Item>, k: nat)
    requires k < |items|
  {
    ItemAt(pages, Place(items, k), items[k])
  }

  /** The file holds the items, and the marker of the next one is still zero. */
  ghost predicate FileOk(pages: seq<Page>, items: seq<Item>) {
    && (forall i | 0 <= i < |pages| :: |pages[i]| == PAGE_SIZE)
    && (forall k | 0 <= k < |items| :: ItemOk(pages, items, k))
    && NextOk(pages, Place(items, |items|))
  }

  /** Where the next item will go there is an aligned zero marker. */
  ghost predicate NextOk(pages: seq<Page>, c: Cursor) {
    MarkerIs(pages, c, 0) && c.pos % ALIGNMENT == 0
  }

  /** Only the page the writer is on changes, and there only from the writer's position on. */
  ghost predicate Grows(pages: seq<Page>, pages': seq<Page>, c: Cursor) {
    && c.page < |pages| <= |pages'|
    && (forall i | 0 <= i < |pages| && i != c.page :: pages'[i] == pages[i])
    && |pages[c.page]| == |pages'[c.page]| == PAGE_SIZE && c.pos <= PAGE_SIZE
    && pages'[c.page][..c.pos] == pages[c.page][..c.pos]
  }

  /** Places never go back. */
  lemma {:induction false} PlacesAdvance(items: seq<Item>, k: nat, l: nat)
    requires k < l <= |items|
    ensures NotAfter(Past(Place(items, k), items[k]), Place(items, l))
    decreases l
  {
    if k < l - 1 {
      PlacesAdvance(items, k, l - 1);
    }
  }

  predicate NotAfter(c: Cursor, d: Cursor) {
    c.page < d.page || (c.page == d.page && c.pos <= d.pos)
  }

  lemma ItemAtKept(pages: seq<Page>, pages': seq<Page>, c: Cursor, item: Item, d: Cursor)
    requires ItemAt(pages, c, item) && Grows(pages, pages', d) && NotAfter(Past(c, item), d)
    ensures ItemAt(pages', c, item)
  {
    hide Bytes, Le32, FromLe32;
    if c.page == d.page {
      var n := Size(item.r);
      assert c.pos + n <= d.pos;
      SubSlice(pages[c.page], 0, d.pos, c.pos, c.pos + n);
      SubSlice(pages'[c.page], 0, d.pos, c.pos, c.pos + n);
    }
  }

  /** Writing from the next place on leaves the items alone. */
  lemma ItemKept(pages: seq<Page>, pages': seq<Page>, items: seq<Item>, k: nat)
    requires k < |items| && ItemOk(pages, items, k) && Grows(pages, pages', Place(items, |items|))
    ensures ItemOk(pages', items, k)
  {
    PlacesAdvance(items, k, |items|);
    ItemAtKept(pages, pages', Place(items, k), items[k], Place(items, |items|));
  }

  // ----- storing into a page -----

  /** `memcpy(&page[p], b, |b|)` */
  function Store(page: Page, p: nat, b: seq<byte>): (r: Page)
    requires p + |b| <= |page|
    ensures |r| == |page| && r[p..p + |b|] == b && r[..p] == page[..p] && r[p + |b|..] == page[p + |b|..]
  {
    page[..p] + b + page[p + |b|..]
  }

  lemma ZeroMarker(page: Page, p: nat)
    requires p + MARKER_SIZE <= |page| && ZeroFrom(page, p)
    ensures MarkerAt(page, p) == 0
  {
  }

  lemma StoredMarker(page: Page, p: nat, v: nat)
    requires p + MARKER_SIZE <= |page| && v < 0x1_0000_0000
    ensures MarkerAt(Store(page, p, Le32(v)), p) == v
  {
    Le32RoundTrip(v);
  }

  /** The items and the next zero marker survive any store at or after the next place that keeps that marker. */
  lemma FileKept(pages: seq<Page>, pages': seq<Page>, items: seq<Item>)
    requires FileOk(pages, items) && Grows(pages, pages', Place(items, |items|))
    requires NextOk(pages', Place(items, |items|))
    requires forall i | 0 <= i < |pages'| :: |pages'[i]| == PAGE_SIZE
    ensures FileOk(pages', items)
  {
    forall k | 0 <= k < |items|
      ensures ItemOk(pages', items, k)
    {
      ItemKept(pages, pages', items, k);
    }
  }

  lemma ItemExtended(pages: seq<Page>, pages': seq<Page>, items: seq<Item>, item: Item, k: nat)
    requires k <= |items| && (k < |items| ==> ItemOk(pages, items, k)) && Grows(pages, pages', Place(items, |items|))
    requires ItemAt(pages', Place(items, |items|), item)
    ensures ItemOk(pages', items + [item], k)
  {
    hide Grows, ItemAt, Place;
    PlaceKept(items, item, k);
    if k < |items| {
      ItemKept(pages, pages', items, k);
    }
  }

  lemma PlaceNext(items: seq<Item>, item: Item)
    ensures Place(items + [item], |items| + 1) == Past(Place(items, |items|), item)
  {
    hide Past;
    PlaceKept(items, item, |items|);
  }

  /** A new item at the next place. */
  lemma FileExtended(pages: seq<Page>, pages': seq<Page>, items: seq<Item>, item: Item)
    requires FileOk(pages, items) && Grows(pages, pages', Place(items, |items|))
    requires ItemAt(pages', Place(items, |items|), item) && NextOk(pages', Past(Place(items, |items|), item))
    requires forall i | 0 <= i < |pages'| :: |pages'[i]| == PAGE_SIZE
    ensures FileOk(pages', items + [item]) && Place(items + [item], |items| + 1) == Past(Place(items, |items|), item)
  {
    hide Grows, ItemAt, ItemOk, NextOk, Place, Past;
    PlaceNext(items, item);
    forall k | 0 <= k < |items + [item]|
      ensures ItemOk(pages', items + [item], k)
    {
      ItemExtended(pages, pages', items, item, k);
    }
  }
}
