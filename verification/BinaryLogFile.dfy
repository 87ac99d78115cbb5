/** Each store of a log writer, and what a reader finds, on a file of zero-filled pages that only grows. */
module BinaryLogFile {
  import opened BinaryLog
  import opened ByteOrder

  /** Where the writer is between two of its steps; a message that is too large takes it past its page. */
  datatype Phase = Ready | PageMapped | Reserved(size: nat) | TooLarge(size: nat) | Filling(r: Record, done: set<nat>)

  /** All bytes behind the marker are those of the record. */
  predicate Complete(r: Record, done: set<nat>) {
    forall i | MARKER_SIZE <= i < Size(r) :: i in done
  }

  /** The bytes that are right after one of them has been stored, not necessarily for the last time. */
  function AfterPut(r: Record, done: set<nat>, i: nat, v: byte): set<nat>
    requires RecordOk(r) && i < Size(r)
  {
    if v == Bytes(r, 0)[i] then done + {i} else done - {i}
  }

  /** A zero marker, the bytes of `r` at the positions in `done`, whatever was stored at the others, and zeros behind. */
  ghost predicate FilledIn(page: Page, p: nat, r: Record, done: set<nat>) {
    && RecordOk(r) && p + Size(r) <= |page| && ZeroFrom(page, p + Size(r))
    && forall i | 0 <= i < Size(r) :: ByteOk(page, p, r, done, i)
  }

  ghost predicate ByteOk(page: Page, p: nat, r: Record, done: set<nat>, i: nat)
    requires RecordOk(r) && i < Size(r) && p + i < |page|
  {
    if i < MARKER_SIZE then page[p + i] == 0 else i in done ==> page[p + i] == Bytes(r, 0)[i]
  }

  function Put(page: Page, p: nat, v: byte): Page
    requires p < |page|
  {
    page[p := v]
  }

  function ZeroPage(): (p: Page)
    ensures |p| == PAGE_SIZE && ZeroFrom(p, 0)
  {
    seq(PAGE_SIZE, _ => 0)
  }

  /** The writer's view of the page it has mapped. */
  ghost predicate WriterOk(pages: seq<Page>, page: nat, position: nat, c: Cursor, phase: Phase) {
    && page == c.page && c.pos % ALIGNMENT == 0 && c.pos + ALIGNMENT <= PAGE_SIZE
    && |pages| == page + (if phase.PageMapped? then 2 else 1)
    && (forall i | 0 <= i < |pages| :: |pages[i]| == PAGE_SIZE)
    && (phase.PageMapped? ==> ZeroFrom(pages[page + 1], 0))
    && match phase
       case Ready => position == c.pos && ZeroFrom(pages[page], position)
       case PageMapped => position == c.pos && ZeroFrom(pages[page], position)
       case Reserved(n) =>
         position == Increment(c.pos, n) && position + ALIGNMENT <= PAGE_SIZE && ZeroFrom(pages[page], c.pos)
       case TooLarge(n) => c.pos == 0 && NeedNewPage(0, n) && position == Increment(0, n) && ZeroFrom(pages[page], 0)
       case Filling(r, done) =>
         && RecordOk(r) && position == Increment(c.pos, Size(r)) && position + ALIGNMENT <= PAGE_SIZE
         && FilledIn(pages[page], c.pos, r, done)
  }

  // ----- one lemma per writer step -----

  lemma MapPageStep(pages: seq<Page>, position: nat, items: seq<Item>, page: nat)
    requires FileOk(pages, items) && WriterOk(pages, page, position, Place(items, |items|), Ready)
    ensures FileOk(pages + [ZeroPage()], items)
    ensures WriterOk(pages + [ZeroPage()], page, position, Place(items, |items|), PageMapped)
  {
    var pages' := pages + [ZeroPage()];
    assert Grows(pages, pages', Place(items, |items|));
    FileKept(pages, pages', items);
  }

  /** Marking the end of the page moves the log on to the page that has just been mapped. */
  lemma EndPageStep(pages: seq<Page>, position: nat, items: seq<Item>, page: nat)
    requires FileOk(pages, items) && WriterOk(pages, page, position, Place(items, |items|), PageMapped)
    ensures position + MARKER_SIZE <= |pages[page]|
    ensures
      var pages' := pages[page := Store(pages[page], position, Le32(2))];
      && FileOk(pages', items + [Break])
      && WriterOk(pages', page + 1, 0, Place(items + [Break], |items| + 1), Ready)
  {
    hide Store, MarkerAt, FileOk, Place, Le32;
    var c := Place(items, |items|);
    var page' := Store(pages[page], position, Le32(2));
    var pages' := pages[page := page'];
    StoredMarker(pages[page], position, 2);
    ZeroMarker(pages[page + 1], 0);
    TailKept(pages[page], position, Le32(2), position + MARKER_SIZE);
    assert ItemAt(pages', c, Break);
    assert NextOk(pages', Past(c, Break));
    assert Grows(pages, pages', c);
    FileExtended(pages, pages', items, Break);
  }

  function ReservedOr(position: nat, size: nat): Phase {
    if NeedNewPage(position, size) then TooLarge(size) else Reserved(size)
  }

  /** What fits leaves room for the next marker; what does not fit an empty page leaves none. */
  lemma ReserveStep(pages: seq<Page>, position: nat, items: seq<Item>, page: nat, size: nat)
    requires WriterOk(pages, page, position, Place(items, |items|), Ready)
    requires NeedNewPage(position, size) ==> position == 0
    ensures WriterOk(pages, page, Increment(position, size), Place(items, |items|), ReservedOr(position, size))
    ensures ReservedOr(position, size).TooLarge? <==> Increment(position, size) >= PAGE_SIZE
  {
    hide Place, ZeroFrom, Increment, NeedNewPage;
    if NeedNewPage(position, size) {
      NoRoomForMarker(size);
    } else {
      RoomForMarker(position, size);
    }
  }

  lemma NoRoomForMarker(size: nat)
    requires NeedNewPage(0, size)
    ensures Increment(0, size) >= PAGE_SIZE
  {
  }

  /** The bytes of a record that are right in fresh space: those that are zero, like the padding of the header. */
  function ZeroBytes(r: Record): set<nat>
    requires RecordOk(r)
  {
    set i: nat | MARKER_SIZE <= i < Size(r) && Bytes(r, 0)[i] == 0
  }

  /** The space for a record before anything is stored in it. */
  lemma BeginStep(pages: seq<Page>, position: nat, items: seq<Item>, page: nat, r: Record)
    requires RecordOk(r) && WriterOk(pages, page, position, Place(items, |items|), Reserved(Size(r)))
    ensures WriterOk(pages, page, position, Place(items, |items|), Filling(r, ZeroBytes(r)))
  {
    hide Bytes, Place, ZeroFrom;
    NothingFilled(pages[page], Place(items, |items|).pos, r);
  }

  lemma NothingFilled(page: Page, p: nat, r: Record)
    requires RecordOk(r) && p + Size(r) <= |page| && ZeroFrom(page, p)
    ensures FilledIn(page, p, r, ZeroBytes(r))
  {
    hide Bytes;
  }

  /** Storing any byte behind the marker publishes nothing. */
  lemma FillStep(pages: seq<Page>, position: nat, items: seq<Item>, page: nat, r: Record, done: set<nat>, i: nat, v: byte)
    requires FileOk(pages, items) && MARKER_SIZE <= i < Size(r)
    requires WriterOk(pages, page, position, Place(items, |items|), Filling(r, done))
    ensures Place(items, |items|).pos + i < |pages[page]|
    ensures
      var pages' := pages[page := Put(pages[page], Place(items, |items|).pos + i, v)];
      && FileOk(pages', items)
      && WriterOk(pages', page, position, Place(items, |items|), Filling(r, AfterPut(r, done, i, v)))
  {
    hide Bytes, MarkerAt, FileOk, Place, WriterOk, FilledIn, AfterPut;
    var c := Place(items, |items|);
    WriterFacts(pages, position, c, page, r, done);
    var page' := Put(pages[page], c.pos + i, v);
    var pages' := pages[page := page'];
    FilledByte(pages[page], c.pos, r, done, i, v);
    MarkerStillZero(page', c.pos, r, AfterPut(r, done, i, v));
    assert page'[..c.pos] == pages[page][..c.pos];
    FileKept(pages, pages', items);
    WriterStays(pages, position, c, page, r, done, pages', AfterPut(r, done, i, v));
  }

  lemma WriterFacts(pages: seq<Page>, position: nat, c: Cursor, page: nat, r: Record, done: set<nat>)
    requires WriterOk(pages, page, position, c, Filling(r, done))
    ensures page == c.page < |pages| && c.pos % ALIGNMENT == 0 && (forall i | 0 <= i < |pages| :: |pages[i]| == PAGE_SIZE)
    ensures FilledIn(pages[page], c.pos, r, done) && RecordOk(r) && c.pos + Size(r) <= PAGE_SIZE
  {
  }

  lemma WriterStays(pages: seq<Page>, position: nat, c: Cursor, page: nat, r: Record, done: set<nat>,
                    pages': seq<Page>, done': set<nat>)
    requires WriterOk(pages, page, position, c, Filling(r, done)) && |pages'| == |pages|
    requires forall i | 0 <= i < |pages'| :: |pages'[i]| == PAGE_SIZE
    requires FilledIn(pages'[page], c.pos, r, done')
    ensures WriterOk(pages', page, position, c, Filling(r, done'))
  {
    hide FilledIn;
  }

  lemma FilledByte(page: Page, p: nat, r: Record, done: set<nat>, i: nat, v: byte)
    requires FilledIn(page, p, r, done) && MARKER_SIZE <= i < Size(r)
    ensures FilledIn(Put(page, p + i, v), p, r, AfterPut(r, done, i, v))
  {
    hide Bytes;
    var page' := Put(page, p + i, v);
    forall k | 0 <= k < Size(r)
      ensures ByteOk(page', p, r, AfterPut(r, done, i, v), k)
    {
      assert ByteOk(page, p, r, done, k);
    }
  }

  lemma MarkerStillZero(page: Page, p: nat, r: Record, done: set<nat>)
    requires FilledIn(page, p, r, done)
    ensures MarkerAt(page, p) == 0
  {
    hide Bytes;
    assert page[p..p + 4] == [page[p], page[p + 1], page[p + 2], page[p + 3]];
    assert ByteOk(page, p, r, done, 0) && ByteOk(page, p, r, done, 1);
    assert ByteOk(page, p, r, done, 2) && ByteOk(page, p, r, done, 3);
  }

  /** Once all bytes are right the record is there. */
  lemma FilledAll(page: Page, p: nat, r: Record, done: set<nat>)
    requires FilledIn(page, p, r, done) && Complete(r, done)
    ensures page[p..p + Size(r)] == Bytes(r, 0)
  {
    hide Bytes;
    MarkerBytes(r);
    forall i | 0 <= i < Size(r)
      ensures page[p..p + Size(r)][i] == Bytes(r, 0)[i]
    {
      assert ByteOk(page, p, r, done, i);
    }
  }

  lemma MarkerBytes(r: Record)
    requires RecordOk(r)
    ensures forall i | 0 <= i < MARKER_SIZE :: Bytes(r, 0)[i] == 0
  {
    HeaderParts(r, 0);
    assert forall i | 0 <= i < 4 :: Bytes(r, 0)[i] == Bytes(r, 0)[0..4][i];
  }

  /** A store leaves the zeros behind it alone. */
  lemma TailKept(page: Page, p: nat, b: seq<byte>, q: nat)
    requires p + |b| <= q <= |page| && ZeroFrom(page, q)
    ensures ZeroFrom(Store(page, p, b), q)
  {
    var e := p + |b|;
    forall i | q <= i < |page|
      ensures Store(page, p, b)[i] == 0
    {
      assert Store(page, p, b)[i] == Store(page, p, b)[e..][i - e];
      assert page[i] == page[e..][i - e];
    }
  }

  /** Setting the marker publishes the record. */
  lemma PublishStep(pages: seq<Page>, position: nat, items: seq<Item>, page: nat, r: Record, done: set<nat>)
    requires FileOk(pages, items) && Complete(r, done)
    requires WriterOk(pages, page, position, Place(items, |items|), Filling(r, done))
    ensures Place(items, |items|).pos + MARKER_SIZE <= PAGE_SIZE
    ensures
      var pages' := pages[page := Store(pages[page], Place(items, |items|).pos, Le32(1))];
      && FileOk(pages', items + [Rec(r)])
      && WriterOk(pages', page, position, Place(items + [Rec(r)], |items| + 1), Ready)
  {
    hide Bytes, Store, MarkerAt, FileOk, Place, Le32;
    var c := Place(items, |items|);
    var page' := Store(pages[page], c.pos, Le32(1));
    var pages' := pages[page := page'];
    FilledAll(pages[page], c.pos, r, done);
    MarkerReplaced(pages[page], c.pos, r);
    TailKept(pages[page], c.pos, Le32(1), c.pos + Size(r));
    ZeroMarker(page', position);
    assert ItemAt(pages', c, Rec(r));
    assert NextOk(pages', Past(c, Rec(r)));
    assert Grows(pages, pages', c);
    FileExtended(pages, pages', items, Rec(r));
  }

  lemma MarkerReplaced(page: Page, p: nat, r: Record)
    requires |page| == PAGE_SIZE && RecordOk(r) && p + Size(r) <= PAGE_SIZE && page[p..p + Size(r)] == Bytes(r, 0)
    ensures Store(page, p, Le32(1))[p..p + Size(r)] == Bytes(r, 1)
  {
    hide Le32;
    var page', n := Store(page, p, Le32(1)), Size(r);
    var rest := r.stamps + Le32(|r.name|) + Le32(|r.message|) + r.tags + r.name + r.message;
    assert Bytes(r, 0) == Le32(0) + rest && Bytes(r, 1) == Le32(1) + rest;
    SubSlice(page, p, n, 4, n);
    SubSlice(page', p, n, 4, n);
    assert page'[p + 4..p + n] == page'[p + 4..][..n - 4];
    assert page[p + 4..p + n] == page[p + 4..][..n - 4];
    assert page[p..p + n][4..] == rest;
    assert page'[p..p + n] == page'[p..p + 4] + page'[p + 4..p + n];
  }

  // ----- what the reader finds -----

  /** The records among the items. */
  ghost function Records(items: seq<Item>): seq<Record> {
    if items == [] then []
    else Records(items[..|items| - 1]) + (if items[|items| - 1].Rec? then [items[|items| - 1].r] else [])
  }

  predicate BreakAt(items: seq<Item>, k: nat) {
    k < |items| && items[k].Break?
  }

  /** The item at `k` sends the reader to a page that holds nothing but the mark that it is over. */
  predicate EmptyPageAhead(items: seq<Item>, k: nat) {
    BreakAt(items, k) && BreakAt(items, k + 1)
  }

  ghost predicate NoEmptyPages(items: seq<Item>) {
    forall k: nat :: !EmptyPageAhead(items, k)
  }

  /** Each item shows its marker; the one that ends a page is followed by a page that exists. */
  lemma ItemSeen(pages: seq<Page>, items: seq<Item>, k: nat)
    requires FileOk(pages, items) && k <= |items|
    ensures
      var c := Place(items, k);
      && c.page < |pages| && |pages[c.page]| == PAGE_SIZE && c.pos + MARKER_SIZE <= PAGE_SIZE
      && MarkerAt(pages[c.page], c.pos) == (if k == |items| then 0 else if items[k].Rec? then 1 else 2)
      && (BreakAt(items, k) ==> c.page + 1 < |pages| && Place(items, k + 1) == Cursor(c.page + 1, 0))
  {
    hide Bytes, MarkerAt;
    if k < |items| {
      assert ItemOk(pages, items, k);
      var c := Place(items, k);
      if items[k].Rec? {
        RecordRoundTrip(pages[c.page], c.pos, items[k].r, 1);
      } else {
        assert Place(items, k + 1) == Past(c, Break);
        if k + 1 < |items| {
          assert ItemOk(pages, items, k + 1);
        }
      }
    }
  }

  /** A record is read back as it was written, and the reader's next position stays on the page. */
  lemma RecordSeen(pages: seq<Page>, items: seq<Item>, k: nat)
    requires FileOk(pages, items) && k < |items| && items[k].Rec?
    ensures
      var c, r := Place(items, k), items[k].r;
      && c.page < |pages| && |pages[c.page]| == PAGE_SIZE && c.pos + Size(r) <= PAGE_SIZE
      && NameSizeAt(pages[c.page], c.pos) == |r.name| && MessageSizeAt(pages[c.page], c.pos) == |r.message|
      && RecordAt(pages[c.page], c.pos) == r
      && Place(items, k + 1) == Cursor(c.page, Increment(c.pos, Size(r))) && Increment(c.pos, Size(r)) < PAGE_SIZE
  {
    hide Bytes, MarkerAt;
    assert ItemOk(pages, items, k);
    var c := Place(items, k);
    RecordRoundTrip(pages[c.page], c.pos, items[k].r, 1);
  }

  /** The header of a record that was never written. */
  function Blank(): Record {
    Record(seq(12, _ => 0), seq(8, _ => 0), [], [])
  }

  /** The page behind a mark that ends it holds zeros. */
  lemma BehindBreak(pages: seq<Page>, items: seq<Item>, k: nat)
    requires FileOk(pages, items) && BreakAt(items, k)
    ensures
      var c := Place(items, k);
      && c.page + 1 < |pages| && |pages[c.page]| == PAGE_SIZE && c.pos % ALIGNMENT == 0 && c.pos + ALIGNMENT <= PAGE_SIZE
      && ZeroFrom(pages[c.page], c.pos + MARKER_SIZE)
  {
    ItemSeen(pages, items, k);
    assert ItemOk(pages, items, k);
  }

  lemma BreakSizes(page: Page, p: nat)
    requires |page| == PAGE_SIZE && p + 24 <= PAGE_SIZE && ZeroFrom(page, p + MARKER_SIZE)
    ensures NameSizeAt(page, p) == 0 && MessageSizeAt(page, p) == 0
  {
  }

  /** A mark that ends a page, taken for a record, reads like an empty record with a zero marker behind it. */
  lemma BreakTakenForRecord(page: Page, p: nat)
    requires |page| == PAGE_SIZE && p % ALIGNMENT == 0 && p + HEADER_SIZE <= PAGE_SIZE && ZeroFrom(page, p + MARKER_SIZE)
    ensures NameSizeAt(page, p) == 0 && MessageSizeAt(page, p) == 0 && RecordAt(page, p) == Blank()
    ensures Increment(p, HEADER_SIZE) == p + 40
    ensures p + 40 < PAGE_SIZE ==> p + 40 + MARKER_SIZE <= PAGE_SIZE && MarkerAt(page, p + 40) == 0
  {
    assert page[p + 4..p + 16] == seq(12, _ => 0) && page[p + 24..p + 32] == seq(8, _ => 0);
    assert page[p + 32..p + 32] == [];
    if p + 40 < PAGE_SIZE {
      ZeroMarker(page, p + 40);
    }
  }
}
