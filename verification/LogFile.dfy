/**
 * A log writer and a log reader at work on the same file, each store of the writer being a step the reader can
 * come in between.
 */
module LogFiles {
  import opened Basics
  import opened BinaryLog
  import opened ByteOrder
  import opened BinaryLogFile

  /** `Again` while the call is still waiting; `OffPage` when it goes on to bytes that are not on the page. */
  datatype ReadResult = Nothing | Again | Message(r: Record) | Fatal | OffPage

  /** The file has only grown, and the pages before the writer's are as they were. */
  ghost predicate Later(pages: seq<Page>, page: nat, items: seq<Item>, pages': seq<Page>, page': nat, items': seq<Item>)
  {
    && items <= items' && page <= page' && page < |pages| <= |pages'|
    && forall i | 0 <= i < page :: pages'[i] == pages[i]
  }

  /**
   * Ending a page makes an empty page exactly when nothing was put on it, which only the first page forgives.
   */
  lemma EmptyPageIff(items: seq<Item>)
    requires NoEmptyPages(items)
    ensures
      var c := Place(items, |items|);
      NoEmptyPages(items + [Break]) <==> (c.pos > 0 || c.page == 0)
  {
    var more, n := items + [Break], |items|;
    if n > 0 && items[n - 1].Break? {
      assert EmptyPageAhead(more, n - 1);
    } else {
      forall k: nat
        ensures !EmptyPageAhead(more, k)
      {
        assert !EmptyPageAhead(items, k);
      }
    }
  }

  lemma RecordKeepsPages(items: seq<Item>, r: Record)
    requires NoEmptyPages(items)
    ensures NoEmptyPages(items + [Rec(r)])
  {
    forall k: nat
      ensures !EmptyPageAhead(items + [Rec(r)], k)
    {
      assert !EmptyPageAhead(items, k);
    }
  }

  lemma {:induction false} RecordsPrefix(items: seq<Item>, k: nat)
    requires k <= |items|
    ensures Records(items[..k]) <= Records(items)
  {
    if k < |items| {
      assert items[..|items| - 1][..k] == items[..k];
      RecordsPrefix(items[..|items| - 1], k);
    } else {
      assert items[..k] == items;
    }
  }

  lemma RecordsStep(items: seq<Item>, k: nat)
    requires k < |items|
    ensures Records(items[..k + 1]) == Records(items[..k]) + (if items[k].Rec? then [items[k].r] else [])
  {
    assert items[..k + 1][..k] == items[..k];
  }

  lemma {:induction false} PlacePrefix(items: seq<Item>, items': seq<Item>, k: nat)
    requires items <= items' && k <= |items|
    ensures Place(items', k) == Place(items, k)
  {
    if k > 0 {
      PlacePrefix(items, items', k - 1);
    }
  }

  class LogFileWriter {
    var pages: seq<Page>
    var page: nat
    var position: nat
    ghost var items: seq<Item>
    var phase: Phase

    ghost predicate Valid()
      reads this
    {
      FileOk(pages, items) && WriterOk(pages, page, position, Place(items, |items|), phase)
    }

    constructor ()
      ensures Valid() && phase == Ready && items == [] && page == 0 && position == 0
    {
      var zero := ZeroPage();
      pages, page, position, items, phase := [zero], 0, 0, [], Ready;
      ZeroMarker(zero, 0);
    }

    method MapNextPage()
      requires Valid() && phase == Ready
      modifies this
      ensures Valid() && phase == PageMapped && items == old(items) && position == old(position)
      ensures Later(old(pages), old(page), old(items), pages, page, items) && page == old(page)
    {
      MapPageStep(pages, position, items, page);
      pages, phase := pages + [ZeroPage()], PageMapped;
    }

    /** The rest of ForceNewPage: the mark on the old page, which is then let go of. */
    method EndPage()
      requires Valid() && phase == PageMapped
      modifies this
      ensures Valid() && phase == Ready && items == old(items) + [Break]
      ensures Later(old(pages), old(page), old(items), pages, page, items) && page == old(page) + 1 && position == 0
    {
      EndPageStep(pages, position, items, page);
      pages := pages[page := Store(pages[page], position, Le32(2))];
      page, position := page + 1, 0;
      items, phase := items + [Break], Ready;
    }

    method ForceNewPage()
      requires Valid() && phase == Ready
      modifies this
      ensures Valid() && phase == Ready && items == old(items) + [Break]
      ensures Later(old(pages), old(page), old(items), pages, page, items) && page == old(page) + 1 && position == 0
      ensures old(NoEmptyPages(items)) ==> (NoEmptyPages(items) <==> old(position) > 0 || old(page) == 0)
    {
      if NoEmptyPages(items) {
        EmptyPageIff(items);
      }
      MapNextPage();
      EndPage();
    }

    /** The part of GetWritePosition after any new page. */
    method Reserve(size: nat) returns (start: nat)
      requires Valid() && phase == Ready && (NeedNewPage(position, size) ==> position == 0)
      modifies this`position, this`phase
      ensures Valid() && phase == ReservedOr(old(position), size) && start == old(position) == Place(items, |items|).pos
      ensures phase.TooLarge? <==> position >= PAGE_SIZE
    {
      ReserveStep(pages, position, items, page, size);
      start := position;
      position, phase := Increment(position, size), ReservedOr(position, size);
    }

    lemma AlignedHere(size: nat)
      requires Valid() && phase == Ready
      ensures NeedNewPage(position, size) <==> !HasRoom(position, size)
      ensures NeedNewPage(0, size) <==> !HasRoom(0, size)
      ensures HasRoom(position, size) ==> HasRoom(0, size)
    {
      hide FileOk, Place;
      NewPageIff(position, size);
      NewPageIff(0, size);
    }

    /**
     * A message that does not fit an empty page still gets a place, with the writer's position past the page, and
     * may leave an empty page behind.
     */
    method GetWritePosition(size: nat) returns (start: nat)
      requires Valid() && phase == Ready
      modifies this
      ensures Valid() && phase == (if HasRoom(0, size) then Reserved(size) else TooLarge(size))
      ensures start == (if HasRoom(old(position), size) then old(position) else 0) == Place(items, |items|).pos
      ensures position == Increment(start, size)
      ensures items == old(items) + if HasRoom(old(position), size) then [] else [Break]
      ensures Later(old(pages), old(page), old(items), pages, page, items)
      ensures old(NoEmptyPages(items)) ==>
        (NoEmptyPages(items) <==> HasRoom(0, size) || old(position) > 0 || old(page) == 0)
    {
      AlignedHere(size);
      if NeedNewPage(position, size) {
        ForceNewPage();
      } else {
        assert items == items + [];
      }
      start := Reserve(size);
    }

    /** The caller of GetWritePosition starts to fill in everything but the marker, */
    method BeginFill(r: Record)
      requires Valid() && RecordOk(r) && phase == Reserved(Size(r))
      modifies this`phase
      ensures Valid() && phase == Filling(r, ZeroBytes(r))
    {
      BeginStep(pages, position, items, page, r);
      phase := Filling(r, ZeroBytes(r));
    }

    /** one byte after the other, in any order, and with values that are stored over later. */
    method StoreByte(start: nat, i: nat, v: byte)
      requires Valid() && phase.Filling? && MARKER_SIZE <= i < Size(phase.r) && start == Place(items, |items|).pos
      modifies this`pages, this`phase
      ensures Valid() && RecordOk(old(phase).r)
      ensures phase == Filling(old(phase).r, AfterPut(old(phase).r, old(phase).done, i, v))
      ensures Later(old(pages), page, items, pages, page, items)
    {
      hide FileOk, Bytes;
      FillStep(pages, position, items, page, phase.r, phase.done, i, v);
      pages := pages[page := Put(pages[page], start + i, v)];
      phase := Filling(phase.r, AfterPut(phase.r, phase.done, i, v));
    }

    method Fill(start: nat, r: Record)
      requires Valid() && RecordOk(r) && phase == Reserved(Size(r)) && start == Place(items, |items|).pos
      modifies this`pages, this`phase
      ensures Valid() && phase.Filling? && phase.r == r && Complete(r, phase.done)
      ensures Later(old(pages), page, items, pages, page, items)
    {
      hide FileOk, Place, FilledIn;
      BeginFill(r);
      for i := MARKER_SIZE to Size(r)
        invariant Valid() && phase.Filling? && phase.r == r
        invariant forall k: nat | MARKER_SIZE <= k < i :: k in phase.done
        invariant Later(old(pages), page, items, pages, page, items)
      {
        StoreByte(start, i, Bytes(r, 0)[i]);
      }
    }

    /** futex_set on the marker. */
    method Publish(start: nat)
      requires Valid() && phase.Filling? && Complete(phase.r, phase.done) && start == Place(items, |items|).pos
      modifies this`pages, this`phase, this`items
      ensures Valid() && phase == Ready && items == old(items) + [Rec(old(phase).r)]
      ensures Records(items) == old(Records(items)) + [old(phase).r]
      ensures Later(old(pages), page, old(items), pages, page, items)
      ensures old(NoEmptyPages(items)) ==> NoEmptyPages(items)
    {
      ghost var r := phase.r;
      PublishStep(pages, position, items, page, r, phase.done);
      if NoEmptyPages(items) {
        RecordKeepsPages(items, r);
      }
      RecordsStep(items + [Rec(r)], |items|);
      assert (items + [Rec(r)])[..|items|] == items && (items + [Rec(r)])[..|items| + 1] == items + [Rec(r)];
      pages := pages[page := Store(pages[page], start, Le32(1))];
      items, phase := items + [Rec(r)], Ready;
    }
  }

  // ----- the reader -----

  /**
   * Where a reader is in ReadNextMessage: outside, asleep in futex_wait, or between its two loads of the marker,
   * `moved` if the first one has just sent it to the next page.
   */
  datatype Pc = Idle | Asleep | Tested(waiting: bool, moved: bool)

  /**
   * A reader, seen from the items: it has got past the first `next` of them and has returned `delivered`. It may be
   * `lost` on a page the writer has left, or `dead`.
   */
  datatype View = View(next: nat, delivered: seq<Record>, lost: bool, dead: bool, pc: Pc)

  /** What a step does; `Again` if the call goes on. */
  datatype Outcome = Outcome(view: View, m: ReadResult)

  /** Nothing is published where the reader is. */
  predicate AtEnd(items: seq<Item>, v: View) {
    v.lost || v.next >= |items|
  }

  /**
   * A call, or one that was woken up, up to the test for the end of the page: it goes to sleep, stays, or moves on to
   * the next page.
   */
  function LoadView(items: seq<Item>, v: View, wait: bool): View {
    var waiting := wait || v.pc.Asleep?;
    if AtEnd(items, v) then v.(pc := if v.pc.Idle? && wait then Asleep else Tested(waiting, false))
    else if items[v.next].Rec? then v.(pc := Tested(waiting, false))
    else v.(next := v.next + 1, pc := Tested(waiting, true))
  }

  /** The mark that ends a page, taken for a record at position `p` of the page. */
  function Misread(v: View, p: nat): Outcome {
    if p + 24 > PAGE_SIZE then Outcome(v.(dead := true, pc := Idle), OffPage)
    else if p + 40 >= PAGE_SIZE then Outcome(v.(dead := true, pc := Idle), Fatal)
    else Outcome(v.(lost := true, pc := Idle, delivered := v.delivered + [Blank()]), Message(Blank()))
  }

  function Got(v: View, r: Record): Outcome {
    Outcome(v.(next := v.next + 1, delivered := v.delivered + [r], pc := Idle), Message(r))
  }

  /** The rest of the call, from the second load on, which knows of no end of a page. */
  function RestOutcome(items: seq<Item>, v: View, waiting: bool): Outcome {
    if AtEnd(items, v) then Outcome(v.(pc := if waiting then Asleep else Idle), if waiting then Again else Nothing)
    else if items[v.next].Rec? then Got(v, items[v.next].r)
    else Misread(v, Place(items, v.next).pos)
  }

  /** A reader that is not lost is at the place of its next item; a lost one is on a page that will not change. */
  ghost predicate ViewOk(pages: seq<Page>, wpage: nat, items: seq<Item>, page: nat, position: nat, v: View) {
    && v.next <= |items|
    && (if v.dead then true
        else if v.lost then Stuck(pages, wpage, page, position)
        else Cursor(page, position) == Place(items, v.next))
  }

  /** A zero marker on a page that the writer has left. */
  ghost predicate Stuck(pages: seq<Page>, wpage: nat, page: nat, position: nat) {
    && page < wpage < |pages| && |pages[page]| == PAGE_SIZE && position + MARKER_SIZE <= PAGE_SIZE
    && MarkerAt(pages[page], position) == 0
  }

  /** Behind the mark that ends a page there is nothing, and never will be. */
  lemma BreakTraps(pages: seq<Page>, wpage: nat, items: seq<Item>, k: nat)
    requires FileOk(pages, items) && BreakAt(items, k) && Place(items, k).pos + 40 < PAGE_SIZE
    requires wpage == Place(items, |items|).page < |pages|
    ensures Stuck(pages, wpage, Place(items, k).page, Place(items, k).pos + 40)
  {
    hide MarkerAt, FileOk, ZeroFrom;
    BehindBreak(pages, items, k);
    BreakTakenForRecord(pages[Place(items, k).page], Place(items, k).pos);
    PlacesAdvance(items, k, |items|);
  }

  lemma WriterPlace(pages: seq<Page>, page: nat, position: nat, items: seq<Item>, phase: Phase)
    requires WriterOk(pages, page, position, Place(items, |items|), phase)
    ensures page == Place(items, |items|).page < |pages|
  {
  }

  class LogFileReader {
    const file: LogFileWriter
    var page: nat
    var position: nat
    var pc: Pc
    var dead: bool
    ghost var view: View

    ghost predicate Valid()
      reads this, file
    {
      && file.Valid() && pc == view.pc && dead == view.dead
      && ViewOk(file.pages, file.page, file.items, page, position, view)
    }

    constructor (f: LogFileWriter)
      requires f.Valid()
      ensures file == f && Valid() && view == View(0, [], false, false, Idle)
    {
      file, page, position, pc, dead := f, 0, 0, Idle, false;
      view := View(0, [], false, false, Idle);
    }

    /** ReadNextMessage, from its start or from being woken up, to the test for the end of the page or to sleep. */
    method Load(wait: bool) returns (m: ReadResult)
      requires Valid() && !dead && !pc.Tested?
      modifies this
      ensures Valid() && m == Again && view == LoadView(file.items, old(view), wait)
    {
      hide FileOk, WriterOk, Place, MarkerAt, Stuck;
      SeenHere();
      var waiting, marker, moved := wait || pc.Asleep?, MarkerAt(file.pages[page], position), false;
      view := LoadView(file.items, view, wait);
      if pc.Idle? && wait && marker == 0 {
        pc := Asleep;
        return Again;
      }
      if marker == 2 {
        if page + 1 >= |file.pages| {
          return Fatal;
        }
        page, position, moved := page + 1, 0, true;
      }
      pc := Tested(waiting, moved);
      m := Again;
    }

    /** The rest of the call, with the second load of the marker. */
    method Retest() returns (m: ReadResult)
      requires Valid() && !dead && pc.Tested?
      modifies this
      ensures Valid() && Outcome(view, m) == RestOutcome(file.items, old(view), old(pc).waiting)
    {
      m := Decide(pc.waiting);
    }

    /** futex_wait returned because of a signal: the first load is left out. */
    method Interrupted() returns (m: ReadResult)
      requires Valid() && !dead && pc.Asleep?
      modifies this
      ensures Valid() && Outcome(view, m) == RestOutcome(file.items, old(view), true)
    {
      m := Decide(true);
    }

    method Decide(waiting: bool) returns (m: ReadResult)
      requires Valid() && !dead
      modifies this
      ensures Valid() && Outcome(view, m) == RestOutcome(file.items, old(view), waiting)
    {
      hide FileOk, WriterOk, Place, MarkerAt, Stuck;
      SeenHere();
      if MarkerAt(file.pages[page], position) == 0 {
        pc := if waiting then Asleep else Idle;
        view := view.(pc := pc);
        return if waiting then Again else Nothing;
      }
      m := Take();
    }

    /** A whole call that does not wait, with nothing in between. */
    method ReadNextMessage() returns (m: ReadResult)
      requires Valid() && !dead && pc.Idle?
      modifies this
      ensures Valid() && Outcome(view, m) == RestOutcome(file.items, LoadView(file.items, old(view), false), false)
    {
      hide FileOk, WriterOk, Place, ViewOk, RestOutcome;
      m := Load(false);
      m := Retest();
    }

    lemma SeenHere()
      requires file.Valid() && ViewOk(file.pages, file.page, file.items, page, position, view) && !view.dead
      ensures page < |file.pages| && |file.pages[page]| == PAGE_SIZE && position + MARKER_SIZE <= PAGE_SIZE
      ensures
        var marker, items, k := MarkerAt(file.pages[page], position), file.items, view.next;
        && marker == (if view.lost || k == |items| then 0 else if items[k].Rec? then 1 else 2)
        && (marker == 2 ==> page + 1 < |file.pages| && Place(items, k + 1) == Cursor(page + 1, 0))
    {
      hide FileOk, WriterOk, Place, MarkerAt;
      if !view.lost {
        ItemSeen(file.pages, file.items, view.next);
      }
    }

    /** What stands at the reader's position, whatever it is, as a record. */
    method Take() returns (m: ReadResult)
      requires Valid() && !view.lost && !dead && view.next < |file.items|
      modifies this`position, this`view, this`dead, this`pc
      ensures Valid()
      ensures Outcome(view, m) == match file.items[old(view).next] {
        case Rec(r) => Got(old(view), r)
        case Break => Misread(old(view), old(position))
      }
    {
      hide FileOk, WriterOk, Place, MarkerAt, RecordAt, NameSizeAt, MessageSizeAt, Stuck;
      ghost var item := file.items[view.next];
      if item.Break? {
        MisreadBreak(view.next);
      } else {
        RecordSeen(file.pages, file.items, view.next);
      }
      var here := file.pages[page];
      pc, view := Idle, match item { case Rec(r) => Got(view, r).view case Break => Misread(view, position).view };
      if position + 24 > PAGE_SIZE {
        dead := true;
        return OffPage;
      }
      var end := Increment(position, HEADER_SIZE + NameSizeAt(here, position) + MessageSizeAt(here, position));
      if end >= PAGE_SIZE {
        dead := true;
        return Fatal;
      }
      m := Message(RecordAt(here, position));
      position := end;
    }

    lemma MisreadBreak(k: nat)
      requires file.Valid() && BreakAt(file.items, k) && Cursor(page, position) == Place(file.items, k)
      ensures page < |file.pages| && |file.pages[page]| == PAGE_SIZE && position % ALIGNMENT == 0
      ensures position + 24 <= PAGE_SIZE ==>
        NameSizeAt(file.pages[page], position) == 0 && MessageSizeAt(file.pages[page], position) == 0
      ensures Increment(position, HEADER_SIZE) == position + 40
      ensures position + 40 < PAGE_SIZE ==>
        && RecordAt(file.pages[page], position) == Blank()
        && Stuck(file.pages, file.page, page, position + 40)
    {
      hide FileOk, WriterOk, Place, MarkerAt, RecordAt, NameSizeAt, MessageSizeAt, Stuck, ZeroFrom;
      BehindBreak(file.pages, file.items, k);
      WriterPlace(file.pages, file.page, file.position, file.items, file.phase);
      if position + 24 <= PAGE_SIZE {
        BreakSizes(file.pages[page], position);
      }
      if position + 40 < PAGE_SIZE {
        BreakTakenForRecord(file.pages[page], position);
        BreakTraps(file.pages, file.page, file.items, k);
      }
    }
  }

  // ----- whole runs -----

  /** One step of the writer or of the reader; what the one it is for cannot do next is passed over. */
  datatype Op =
    | MapPage
    | EndThePage
    | ReserveSpace(size: nat)
    | StartRecord(r: Record)
    | PutByte(i: nat, v: byte)
    | SetMarker
    | Read(wait: bool)
    | Test
    | Interrupt

  /** The log seen from its items: what is in it, what the writer is at, and the reader. */
  datatype Log = Log(items: seq<Item>, phase: Phase, reader: View)

  function Empty(): Log {
    Log([], Ready, View(0, [], false, false, Idle))
  }

  /** Where the writer's next item goes on its page. */
  function Room(items: seq<Item>): nat {
    Place(items, |items|).pos
  }

  function WriterNext(items: seq<Item>, phase: Phase, op: Op): (seq<Item>, Phase) {
    match op
    case MapPage => if phase == Ready then (items, PageMapped) else (items, phase)
    case EndThePage => if phase == PageMapped then (items + [Break], Ready) else (items, phase)
    case ReserveSpace(size) =>
      if phase == Ready && (NeedNewPage(Room(items), size) ==> Room(items) == 0)
      then (items, ReservedOr(Room(items), size)) else (items, phase)
    case StartRecord(r) =>
      if RecordOk(r) && phase == Reserved(Size(r)) then (items, Filling(r, ZeroBytes(r))) else (items, phase)
    case PutByte(i, v) =>
      if phase.Filling? && RecordOk(phase.r) && MARKER_SIZE <= i < Size(phase.r)
      then (items, Filling(phase.r, AfterPut(phase.r, phase.done, i, v))) else (items, phase)
    case SetMarker =>
      if phase.Filling? && Complete(phase.r, phase.done) then (items + [Rec(phase.r)], Ready) else (items, phase)
    case _ => (items, phase)
  }

  function ReaderNext(items: seq<Item>, v: View, op: Op): View {
    if v.dead then v
    else match op
      case Read(wait) => if v.pc.Tested? then v else LoadView(items, v, wait)
      case Test => if v.pc.Tested? then RestOutcome(items, v, v.pc.waiting).view else v
      case Interrupt => if v.pc.Asleep? then RestOutcome(items, v, true).view else v
      case _ => v
  }

  function Next(log: Log, op: Op): Log {
    var w := WriterNext(log.items, log.phase, op);
    Log(w.0, w.1, ReaderNext(log.items, log.reader, op))
  }

  function After(ops: seq<Op>): Log {
    if ops == [] then Empty() else Next(After(ops[..|ops| - 1]), ops[|ops| - 1])
  }

  lemma ViewKept(pages: seq<Page>, wpage: nat, items: seq<Item>, pages': seq<Page>, wpage': nat, items': seq<Item>,
                 page: nat, position: nat, v: View)
    requires ViewOk(pages, wpage, items, page, position, v) && Later(pages, wpage, items, pages', wpage', items')
    requires wpage' < |pages'|
    ensures ViewOk(pages', wpage', items', page, position, v)
  {
    hide MarkerAt, Place;
    PlacePrefix(items, items', v.next);
  }

  /** The reader is none the worse for what the writer does. */
  twostate lemma StillValid(reader: LogFileReader)
    requires old(reader.Valid()) && reader.file.Valid() && unchanged(reader)
    requires
      var f := reader.file;
      Later(old(f.pages), old(f.page), old(f.items), f.pages, f.page, f.items)
    ensures reader.Valid()
  {
    hide FileOk, WriterOk, Place, ViewOk, Later;
    var f := reader.file;
    WriterPlace(f.pages, f.page, f.position, f.items, f.phase);
    ViewKept(old(f.pages), old(f.page), old(f.items), f.pages, f.page, f.items, reader.page, reader.position, reader.view);
  }

  /**
   * Every interleaving of the two, byte by byte, comes out as the log of its items does.
   */
  method Run(ops: seq<Op>) returns (writer: LogFileWriter, reader: LogFileReader)
    ensures reader.file == writer && reader.Valid()
    ensures Log(writer.items, writer.phase, reader.view) == After(ops)
  {
    hide FileOk, WriterOk, Place, ViewOk, Next, Room;
    writer := new LogFileWriter();
    reader := new LogFileReader(writer);
    var start := 0;
    assert ops[..0] == [];
    for i := 0 to |ops|
      invariant reader.file == writer && reader.Valid() && fresh(writer) && fresh(reader)
      invariant Log(writer.items, writer.phase, reader.view) == After(ops[..i]) && StartOk(writer.items, writer.phase, start)
    {
      start := Step(writer, reader, ops[i], start);
      assert ops[..i + 1][..i] == ops[..i];
    }
    assert ops[..|ops|] == ops;
  }

  /** The place that the writer's caller was given. */
  ghost predicate StartOk(items: seq<Item>, phase: Phase, start: nat) {
    phase.Reserved? || phase.TooLarge? || phase.Filling? ==> start == Room(items)
  }

  method WriterStep(writer: LogFileWriter, op: Op, start: nat) returns (start': nat)
    requires writer.Valid() && StartOk(writer.items, writer.phase, start)
    modifies writer
    ensures writer.Valid() && (writer.items, writer.phase) == WriterNext(old(writer.items), old(writer.phase), op)
    ensures StartOk(writer.items, writer.phase, start')
    ensures Later(old(writer.pages), old(writer.page), old(writer.items), writer.pages, writer.page, writer.items)
  {
    hide FileOk, Place, Records, NoEmptyPages, FilledIn;
    start' := start;
    WriterPlace(writer.pages, writer.page, writer.position, writer.items, writer.phase);
    match op
    case MapPage =>
      if writer.phase == Ready {
        writer.MapNextPage();
      }
    case EndThePage =>
      if writer.phase == PageMapped {
        writer.EndPage();
      }
    case ReserveSpace(size) =>
      if writer.phase == Ready && (NeedNewPage(writer.position, size) ==> writer.position == 0) {
        start' := writer.Reserve(size);
      }
    case StartRecord(r) =>
      if RecordOk(r) && writer.phase == Reserved(Size(r)) {
        writer.BeginFill(r);
      }
    case PutByte(i, v) =>
      if writer.phase.Filling? && RecordOk(writer.phase.r) && MARKER_SIZE <= i < Size(writer.phase.r) {
        writer.StoreByte(start, i, v);
      }
    case SetMarker =>
      if writer.phase.Filling? && Complete(writer.phase.r, writer.phase.done) {
        writer.Publish(start);
      }
    case _ =>
  }

  method Step(writer: LogFileWriter, reader: LogFileReader, op: Op, start: nat) returns (start': nat)
    requires reader.file == writer && reader.Valid() && StartOk(writer.items, writer.phase, start)
    modifies writer, reader
    ensures reader.Valid() && StartOk(writer.items, writer.phase, start')
    ensures Log(writer.items, writer.phase, reader.view)
         == Next(Log(old(writer.items), old(writer.phase), old(reader.view)), op)
  {
    hide FileOk, WriterOk, Place, ViewOk, Later, LoadView, RestOutcome;
    start' := start;
    if op.Read? {
      if !reader.dead && !reader.pc.Tested? {
        var _ := reader.Load(op.wait);
      }
    } else if op.Test? {
      if !reader.dead && reader.pc.Tested? {
        var _ := reader.Retest();
      }
    } else if op.Interrupt? {
      if !reader.dead && reader.pc.Asleep? {
        var _ := reader.Interrupted();
      }
    } else {
      start' := WriterStep(writer, op, start);
      StillValid(reader);
    }
  }

  // ----- what the runs have in common -----

  /** What a reader has returned are the records it has got past, and after them the one it made up, if it is lost. */
  ghost predicate Faithful(items: seq<Item>, v: View) {
    && v.next <= |items|
    && v.delivered == Records(items[..v.next]) + if v.lost then [Blank()] else []
  }

  lemma LoadFaithful(items: seq<Item>, v: View, wait: bool)
    requires Faithful(items, v)
    ensures Faithful(items, LoadView(items, v, wait))
  {
    if !AtEnd(items, v) {
      RecordsStep(items, v.next);
    }
  }

  lemma RestFaithful(items: seq<Item>, v: View, waiting: bool)
    requires Faithful(items, v)
    ensures Faithful(items, RestOutcome(items, v, waiting).view)
  {
    if !AtEnd(items, v) {
      RecordsStep(items, v.next);
    }
  }

  /** A call with nothing in between, on a log without empty pages: the next record, or nothing at the end of the log. */
  lemma NothingLeft(items: seq<Item>, v: View)
    requires Faithful(items, v) && !v.lost && !v.dead && v.pc.Idle? && NoEmptyPages(items)
    ensures
      var o := RestOutcome(items, LoadView(items, v, false), false);
      && Faithful(items, o.view) && !o.view.lost && !o.view.dead && o.view.pc.Idle? && o.view.next >= v.next
      && (o.m.Nothing? || o.m.Message?)
      && (o.m.Nothing? ==> o.view.delivered == v.delivered == Records(items))
      && (o.m.Message? ==> o.view.next > v.next && o.view.delivered == v.delivered + [o.m.r])
  {
    assert !EmptyPageAhead(items, v.next);
    LoadFaithful(items, v, false);
    RestFaithful(items, LoadView(items, v, false), false);
    assert items[..|items|] == items;
  }

  lemma ItemsGrow(log: Log, op: Op)
    ensures log.items <= Next(log, op).items
  {
  }

  lemma NextFaithful(log: Log, op: Op)
    requires Faithful(log.items, log.reader)
    ensures Faithful(Next(log, op).items, Next(log, op).reader)
  {
    hide LoadView, RestOutcome, Records, NeedNewPage, Place;
    var v := log.reader;
    if op.Read? {
      LoadFaithful(log.items, v, op.wait);
    } else if op.Test? || op.Interrupt? {
      RestFaithful(log.items, v, op.Interrupt? || (v.pc.Tested? && v.pc.waiting));
    } else {
      ItemsGrow(log, op);
      assert Next(log, op).items[..log.reader.next] == log.items[..log.reader.next];
    }
  }

  /** In every run, a reader that is not lost has returned a prefix of what was published. */
  lemma {:induction false} RunFaithful(ops: seq<Op>)
    ensures Faithful(After(ops).items, After(ops).reader)
    ensures !After(ops).reader.lost ==> After(ops).reader.delivered <= Records(After(ops).items)
  {
    hide Next;
    if ops != [] {
      RunFaithful(ops[..|ops| - 1]);
      NextFaithful(After(ops[..|ops| - 1]), ops[|ops| - 1]);
    }
    RecordsPrefix(After(ops).items, After(ops).reader.next);
  }

  /** In a call that waits. */
  predicate InWait(v: View) {
    v.pc.Asleep? || (v.pc.Tested? && v.pc.waiting)
  }

  /**
   * A call that waits never returns without a record: whatever the step is, the reader is still in the call with
   * nothing new returned, or has returned exactly one more record, or is dead. It falls asleep only with nothing published.
   */
  lemma WaitReturnsRecord(log: Log, op: Op)
    requires !log.reader.dead && (InWait(log.reader) || (op == Read(true) && log.reader.pc.Idle?))
    ensures
      var v, v' := log.reader, Next(log, op).reader;
      || (InWait(v') && v'.delivered == v.delivered && (v'.pc.Asleep? ==> v.pc.Asleep? || AtEnd(log.items, v)))
      || (v'.pc.Idle? && !v'.dead && |v'.delivered| == |v.delivered| + 1 && v.delivered <= v'.delivered)
      || (v'.dead && v'.delivered == v.delivered)
  {
    hide WriterNext, Place;
  }

  /** Once woken up with a record published, it returns that record at its second load. */
  lemma WokenReturns(log: Log)
    requires !log.reader.dead && !log.reader.lost && log.reader.pc.Asleep?
    requires log.reader.next < |log.items| && log.items[log.reader.next].Rec?
    ensures
      var v := Next(Next(log, Read(true)), Test).reader;
      v.pc.Idle? && v.delivered == log.reader.delivered + [log.items[log.reader.next].r]
  {
    hide Place;
  }

  /** A call that does not wait never sleeps and is over at its second load. */
  lemma NoWaitReturns(log: Log)
    requires !log.reader.dead && log.reader.pc.Idle?
    ensures
      var mid := Next(log, Read(false));
      mid.reader.pc.Tested? && !mid.reader.pc.waiting && mid.reader.delivered == log.reader.delivered
  {
    hide Place;
  }

  lemma NoWaitEnds(log: Log)
    requires !log.reader.dead && log.reader.pc.Tested? && !log.reader.pc.waiting
    ensures
      var v, v' := log.reader, Next(log, Test).reader;
      v'.pc.Idle? && (AtEnd(log.items, v) <==> !v'.dead && v'.delivered == v.delivered)
  {
    hide Place;
  }

  /** The step makes the reader take the mark that ends a page for a record. */
  predicate Astray(log: Log, op: Op) {
    && !log.reader.lost && !log.reader.dead && BreakAt(log.items, log.reader.next)
    && ((op.Test? && log.reader.pc.Tested?) || (op.Interrupt? && log.reader.pc.Asleep?))
  }

  lemma NextAstray(log: Log, op: Op)
    ensures (Next(log, op).reader.lost || Next(log, op).reader.dead)
         == (log.reader.lost || log.reader.dead || Astray(log, op))
  {
    hide WriterNext, Place;
  }

  predicate AstrayAt(ops: seq<Op>, k: nat) {
    k < |ops| && Astray(After(ops[..k]), ops[k])
  }

  lemma AstrayBefore(ops: seq<Op>, k: nat)
    requires ops != []
    ensures AstrayAt(ops, k) <==> AstrayAt(ops[..|ops| - 1], k) || (k == |ops| - 1 && Astray(After(ops[..k]), ops[k]))
  {
    hide Astray, After;
    if k < |ops| - 1 {
      assert ops[..|ops| - 1][..k] == ops[..k];
    }
  }

  /** A reader is lost or dead exactly if the second load of some call, or one after a signal, found the end of a page. */
  lemma {:induction false} AstrayIff(ops: seq<Op>)
    ensures After(ops).reader.lost || After(ops).reader.dead <==> exists k: nat :: AstrayAt(ops, k)
  {
    hide Next, Astray, AstrayAt;
    if ops == [] {
      NoSteps();
    } else {
      var n := |ops| - 1;
      AstrayIff(ops[..n]);
      NextAstray(After(ops[..n]), ops[n]);
      forall k: nat
        ensures AstrayAt(ops, k) <==> AstrayAt(ops[..n], k) || (k == n && Astray(After(ops[..n]), ops[n]))
      {
        AstrayBefore(ops, k);
      }
      AstrayBefore(ops, n);
    }
  }

  lemma NoSteps()
    ensures !After([]).reader.lost && !After([]).reader.dead && forall k: nat :: !AstrayAt([], k)
  {
  }

  lemma {:induction false} ItemsPrefix(ops: seq<Op>, k: nat)
    requires k <= |ops|
    ensures After(ops[..k]).items <= After(ops).items
  {
    hide Next;
    var n := |ops| - 1;
    if k <= n {
      assert ops[..n][..k] == ops[..k];
      ItemsPrefix(ops[..n], k);
      ItemsGrow(After(ops[..n]), ops[n]);
    } else {
      assert ops[..k] == ops;
    }
  }

  /** The page is ended while the reader, at the end of the log, is between its two loads. */
  predicate Race(log: Log, op: Op) {
    && op.EndThePage? && log.phase == PageMapped
    && log.reader.pc.Tested? && !log.reader.pc.moved && log.reader.next == |log.items|
  }

  predicate RaceAt(ops: seq<Op>, k: nat) {
    k < |ops| && Race(After(ops[..k]), ops[k])
  }

  /** What the first load has found, if no page was ended since. */
  predicate FoundNoEnd(items: seq<Item>, v: View) {
    && v.next <= |items|
    && (v.pc.Tested? && !v.lost ==> if v.pc.moved then v.next > 0 && BreakAt(items, v.next - 1) else !BreakAt(items, v.next))
  }

  lemma NextFoundNoEnd(log: Log, op: Op)
    requires FoundNoEnd(log.items, log.reader) && !Race(log, op)
    ensures FoundNoEnd(Next(log, op).items, Next(log, op).reader)
  {
    hide Place, NeedNewPage;
  }

  lemma {:induction false} RunFoundNoEnd(ops: seq<Op>)
    requires forall k: nat :: !RaceAt(ops, k)
    ensures FoundNoEnd(After(ops).items, After(ops).reader)
  {
    hide Next, Race, FoundNoEnd;
    if ops == [] {
      NothingFound();
    } else {
      var n := |ops| - 1;
      forall k: nat
        ensures !RaceAt(ops[..n], k)
      {
        assert !RaceAt(ops, k);
        if k < n {
          assert ops[..n][..k] == ops[..k];
        }
      }
      RunFoundNoEnd(ops[..n]);
      assert !RaceAt(ops, n);
      NextFoundNoEnd(After(ops[..n]), ops[n]);
    }
  }

  lemma NothingFound()
    ensures FoundNoEnd(After([]).items, After([]).reader)
  {
  }

  /** Without empty pages, signals and races no reader goes astray, waiting or not. */
  lemma NeverAstray(ops: seq<Op>)
    requires NoEmptyPages(After(ops).items) && Interrupt !in ops && forall k: nat :: !RaceAt(ops, k)
    ensures !After(ops).reader.lost && !After(ops).reader.dead
  {
    hide After;
    AstrayIff(ops);
    forall k: nat
      ensures !AstrayAt(ops, k)
    {
      if k < |ops| {
        ItemsPrefix(ops, k);
        assert ops[k] in ops;
        NoRaceBefore(ops, k);
        RunFoundNoEnd(ops[..k]);
        var v := After(ops[..k]).reader;
        assert v.next > 0 ==> !EmptyPageAhead(After(ops).items, v.next - 1);
      }
    }
  }

  lemma NoRaceBefore(ops: seq<Op>, n: nat)
    requires n <= |ops| && forall k: nat :: !RaceAt(ops, k)
    ensures forall k: nat :: !RaceAt(ops[..n], k)
  {
    hide Race, After;
    forall k: nat
      ensures !RaceAt(ops[..n], k)
    {
      assert !RaceAt(ops, k);
      if k < n {
        assert ops[..n][..k] == ops[..k];
      }
    }
  }

  /** After a race the reader goes astray at its second load, whatever else is done until then. */
  lemma {:induction false} RaceLeadsAstray(ops: seq<Op>, more: seq<Op>)
    requires Race(After(ops), EndThePage) && !After(ops).reader.lost && !After(ops).reader.dead && Test !in more
    ensures After(ops + [EndThePage] + more).reader == After(ops).reader
    ensures Astray(After(ops + [EndThePage] + more), Test)
  {
    hide After, Place, NeedNewPage;
    AfterOneMore(ops, EndThePage);
    var raced := ops + [EndThePage];
    if more == [] {
      assert raced + more == raced;
    } else {
      var n := |more| - 1;
      assert more[n] in more && forall op | op in more[..n] :: op in more;
      RaceLeadsAstray(ops, more[..n]);
      assert raced + more == raced + more[..n] + [more[n]];
      AfterOneMore(raced + more[..n], more[n]);
      ItemsGrow(After(raced + more[..n]), more[n]);
    }
  }

  /** What the last of the steps that stored byte `i` stored there. */
  function LastPut(ops: seq<Op>, i: nat): Option<byte> {
    if ops == [] then None
    else
      var last := ops[|ops| - 1];
      if last.PutByte? && last.i == i then Some(last.v) else LastPut(ops[..|ops| - 1], i)
  }

  /** What is then in byte `i` of space that was zero. */
  function Stored(ops: seq<Op>, i: nat): byte {
    match LastPut(ops, i)
    case None => 0
    case Some(v) => v
  }

  lemma AfterOneMore(ops: seq<Op>, op: Op)
    ensures After(ops + [op]) == Next(After(ops), op)
  {
    hide Next;
    assert (ops + [op])[..|ops|] == ops;
  }

  /** While a record is filled in nothing is published, and a byte is right if it was stored right the last time. */
  lemma {:induction false} FillAnyOrder(ops: seq<Op>, fill: seq<Op>, r: Record, done: set<nat>)
    requires After(ops).phase == Filling(r, done) && RecordOk(r)
    requires forall op | op in fill :: op.PutByte? || op.Read? || op.Test? || op.Interrupt?
    ensures After(ops + fill).items == After(ops).items
    ensures After(ops + fill).phase.Filling? && After(ops + fill).phase.r == r
    ensures forall i: nat | MARKER_SIZE <= i < Size(r) ::
      i in After(ops + fill).phase.done <==>
        match LastPut(fill, i) { case None => i in done case Some(v) => v == Bytes(r, 0)[i] }
  {
    hide ReaderNext, After, Bytes;
    if fill == [] {
      assert ops + fill == ops;
    } else {
      var n := |fill| - 1;
      FillAnyOrder(ops, fill[..n], r, done);
      AfterOneMore(ops + fill[..n], fill[n]);
      assert ops + fill == ops + fill[..n] + [fill[n]];
      assert fill[n] in fill;
    }
  }

  /**
   * However its bytes are stored, in whatever order, some of them more than once, and with whatever the reader does
   * between them: setting the marker publishes exactly the record once every byte is right, those that are never stored
   * being zero.
   */
  lemma RecordPublished(ops: seq<Op>, fill: seq<Op>, r: Record)
    requires RecordOk(r) && After(ops).phase == Filling(r, ZeroBytes(r))
    requires forall op | op in fill :: op.PutByte? || op.Read? || op.Test? || op.Interrupt?
    ensures
      After(ops + fill + [SetMarker]).items ==
      if forall i: nat | MARKER_SIZE <= i < Size(r) :: Bytes(r, 0)[i] == Stored(fill, i)
      then After(ops).items + [Rec(r)] else After(ops).items
  {
    hide ReaderNext, After, Bytes, LastPut;
    FillAnyOrder(ops, fill, r, ZeroBytes(r));
    AfterOneMore(ops + fill, SetMarker);
  }

  /** A reader that goes on until there is nothing more gets everything that was published. */
  method Drain(reader: LogFileReader) returns (last: ReadResult)
    requires reader.Valid() && Faithful(reader.file.items, reader.view) && NoEmptyPages(reader.file.items)
    requires !reader.view.lost && !reader.dead && reader.pc.Idle?
    modifies reader
    ensures reader.Valid() && last == Nothing && reader.view.delivered == Records(reader.file.items)
  {
    hide FileOk, WriterOk, Place, Records, LoadView, RestOutcome, ViewOk;
    last := Message(Blank());
    while last.Message?
      invariant reader.Valid() && Faithful(reader.file.items, reader.view) && (last.Message? || last.Nothing?)
      invariant !reader.view.lost && !reader.dead && reader.pc.Idle?
      invariant last.Nothing? ==> reader.view.delivered == Records(reader.file.items)
      decreases |reader.file.items| - reader.view.next, last.Message?
    {
      NothingLeft(reader.file.items, reader.view);
      last := reader.ReadNextMessage();
    }
  }

  method WriteRecord(writer: LogFileWriter, r: Record)
    requires writer.Valid() && writer.phase == Ready && Fits(r) && !NeedNewPage(writer.position, Size(r))
    modifies writer
    ensures writer.Valid() && writer.phase == Ready && writer.items == old(writer.items) + [Rec(r)]
    ensures Later(old(writer.pages), old(writer.page), old(writer.items), writer.pages, writer.page, writer.items)
  {
    hide FileOk, Place;
    var start := writer.GetWritePosition(Size(r));
    writer.Fill(start, r);
    writer.Publish(start);
  }

  /** Two new pages in a row: the reader invents a record and never sees the one that was published. */
  method EmptyPageTrap(r: Record) returns (first: ReadResult, second: ReadResult, ghost published: seq<Record>)
    requires Fits(r)
    ensures first == Message(Blank()) && second == Nothing && published == [r]
  {
    hide FileOk, WriterOk, ViewOk;
    var writer := new LogFileWriter();
    writer.ForceNewPage();
    writer.ForceNewPage();
    WriteRecord(writer, r);
    assert writer.items == [Break, Break, Rec(r)];
    published := Records(writer.items);
    RecordsStep(writer.items, 0);
    RecordsStep(writer.items, 1);
    var reader := new LogFileReader(writer);
    assert Place(writer.items, 1).pos == 0;
    first := reader.ReadNextMessage();
    second := reader.ReadNextMessage();
  }

  /**
   * The same from a page that is ended while the reader is asleep and then gets a signal, or, with `race`, while a call
   * that does not wait is between its two loads.
   */
  method EndedPageTrap(r: Record, race: bool)
    returns (first: ReadResult, second: ReadResult, ghost published: seq<Record>)
    requires Fits(r)
    ensures first == Message(Blank()) && second == Nothing && published == [r]
  {
    hide FileOk, WriterOk, ViewOk, Later;
    var writer := new LogFileWriter();
    var reader := new LogFileReader(writer);
    first := reader.Load(!race);
    label Before:
    writer.ForceNewPage();
    StillValid@Before(reader);
    assert Place(writer.items, 0).pos == 0;
    if race {
      first := reader.Retest();
    } else {
      first := reader.Interrupted();
    }
    label Misled:
    WriteRecord(writer, r);
    StillValid@Misled(reader);
    assert writer.items == [Break, Rec(r)];
    published := Records(writer.items);
    RecordsStep(writer.items, 0);
    second := reader.ReadNextMessage();
  }
}
