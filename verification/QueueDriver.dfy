/** Any sequence of calls on a RawQueue by any number of readers with their own indices. */
module QueueDriver {
  import opened Basics
  import opened IndexedReads
  import opened QueuePool
  import opened QueueSpec
  import opened RawQueues

  /**
   * GetMessage; WriteMessage and FreeMessage of the message held at some place; ReadMessage; ReadMessageIndex of some
   * reader. A call that waits holds up nobody, and what it waited for is another call.
   */
  datatype Call =
    | Get
    | Put(which: nat, mode: WriteMode)
    | Read(fromEnd: bool, peek: bool, block: bool)
    | ReadIndex(reader: nat, fromEnd: bool, peek: bool, block: bool)
    | Free(which: nat)

  /** How a call ended, and whether it broadcast. */
  datatype Reply = Reply(r: Outcome, signal: bool)

  /** What reader `k` got is what stands in the history at the positions of its reads. */
  ghost predicate Delivered(qs: seq<Queue<nat>>, es: seq<ReadEvent>, got: seq<nat>) {
    && qs != [] && |es| == |got|
    && forall k | 0 <= k < |es| :: es[k].pos < |qs[|qs| - 1].history| && got[k] == qs[|qs| - 1].history[es[k].pos]
  }

  /** Where reader `k` is: its reads, its index, and that they belong to the queue's run. */
  ghost predicate ReaderOk(qs: seq<Queue<nat>>, es: seq<ReadEvent>, got: seq<nat>, index: int) {
    && ReaderRun(qs, es) && Delivered(qs, es, got)
    && index == if es == [] then 0 else IndexAfter(es[|es| - 1])
  }

  ghost predicate ReadersOk(qs: seq<Queue<nat>>, es: seq<seq<ReadEvent>>, got: seq<seq<nat>>, index: seq<int>) {
    |es| == |got| == |index| && forall k | 0 <= k < |es| :: ReaderOk(qs, es[k], got[k], index[k])
  }

  lemma ReaderOn(qs: seq<Queue<nat>>, q: Queue<nat>, es: seq<ReadEvent>, got: seq<nat>, index: int)
    requires QueueRun(qs) && QueueStep(qs[|qs| - 1], q) && ReaderOk(qs, es, got, index)
    ensures ReaderOk(qs + [q], es, got, index)
  {
    RunStep(qs, q);
    RunLater(qs + [q], |qs| - 1, |qs|);
    ReaderKept(qs, q, es);
  }

  lemma ReadersOn(qs: seq<Queue<nat>>, q: Queue<nat>, es: seq<seq<ReadEvent>>, got: seq<seq<nat>>, index: seq<int>)
    requires QueueRun(qs) && QueueStep(qs[|qs| - 1], q) && ReadersOk(qs, es, got, index)
    ensures QueueRun(qs + [q]) && ReadersOk(qs + [q], es, got, index)
  {
    RunStep(qs, q);
    forall k | 0 <= k < |es|
      ensures ReaderOk(qs + [q], es[k], got[k], index[k])
    {
      ReaderOn(qs, q, es[k], got[k], index[k]);
    }
  }

  /** A read that leaves the run at its last state. */
  lemma ReaderReads(qs: seq<Queue<nat>>, es: seq<seq<ReadEvent>>, got: seq<seq<nat>>, index: seq<int>, k: nat,
                    fromEnd: bool, peek: bool, msg: nat, index': int)
    requires QueueRun(qs) && ReadersOk(qs, es, got, index) && k < |es| && !(fromEnd && peek)
    requires Ok(qs[|qs| - 1]) && Readable(qs[|qs| - 1], Some(index[k]))
    requires IndexedRead(qs[|qs| - 1], fromEnd, peek, index[k], msg, index')
    ensures
      var e := ReadEvent(|qs| - 1, fromEnd, peek, index[k], ReadPosition(qs[|qs| - 1], fromEnd, index[k]));
      ReadersOk(qs, es[k := es[k] + [e]], got[k := got[k] + [msg]], index[k := index'])
  {
    var q := qs[|qs| - 1];
    var e := ReadEvent(|qs| - 1, fromEnd, peek, index[k], ReadPosition(q, fromEnd, index[k]));
    assert ReaderOk(qs, es[k], got[k], index[k]);
    assert es[k] != [] ==> IsRead(qs, es[k][|es[k]| - 1]);
    ReaderStep(qs, es[k], e);
    assert ReaderOk(qs, es[k] + [e], got[k] + [msg], index');
  }

  lemma TakeOut(s: seq<nat>, i: nat)
    requires i < |s|
    ensures multiset(LeftOf(s, i)) == multiset(s) - multiset{s[i]}
  {
    assert s == s[..i] + [s[i]] + s[i + 1..];
  }

  // ----- what each call does -----

  /** The queue, and of its users the index of each reader, what it got, the references held, and all replies. */
  datatype Shot = Shot(st: State, index: seq<int>, got: seq<seq<nat>>, mine: seq<nat>, replies: seq<Reply>)

  /** The call names a reader and a message that are there. */
  predicate Sensible(a: Shot, call: Call) {
    match call
    case Put(i, _) => i < |a.mine|
    case Free(i) => i < |a.mine|
    case ReadIndex(k, fromEnd, peek, _) => k < |a.index| && k < |a.got| && !(fromEnd && peek)
    case _ => true
  }

  /** A sensible call that ends the process. */
  predicate CallDies(a: Shot, call: Call)
    requires Sensible(a, call)
  {
    match call
    case Get => a.st.free == []
    case Put(i, mode) => WriteDies(a.st, a.mine[i], mode)
    case Read(fromEnd, peek, _) => ReadDies(a.st, fromEnd, peek)
    case ReadIndex(_, _, _, _) => false
    case Free(i) => RunsDry(a.st, a.mine[i])
  }

  /** A write that puts its message in the ring. */
  predicate Writes(a: Shot, call: Call) {
    call.Put? && call.which < |a.mine| && (!Full(a.st.q) || call.mode == Override)
  }

  /** A read that finds nothing for it. */
  predicate FindsNothing(a: Shot, call: Call)
    requires Sensible(a, call)
  {
    match call
    case Read(_, _, _) => Empty(a.st.q)
    case ReadIndex(k, _, _, _) => !Readable(a.st.q, Some(a.index[k]))
    case _ => false
  }

  function NothingFor(block: bool): Reply {
    Reply(if block then Blocked else Failed, false)
  }

  function ReplyOf(a: Shot, call: Call): Reply
    requires Sensible(a, call)
  {
    match call
    case Put(i, mode) =>
      if Writes(a, call) then Reply(Done, a.st.readers.waiting) else NothingFor(mode == Block)
    case Read(fromEnd, peek, block) =>
      if Empty(a.st.q) then NothingFor(block)
      else Reply(Done, Full(a.st.q) && !Full(AfterRead(a.st, fromEnd, peek, block).q))
    case ReadIndex(k, _, _, block) => if FindsNothing(a, call) then NothingFor(block) else Reply(Done, false)
    case _ => Reply(Done, false)
  }

  function LeftOf(s: seq<nat>, i: nat): seq<nat>
    requires i < |s|
  {
    s[..i] + s[i + 1..]
  }

  /** What a sensible call leads to. */
  function Made(a: Shot, call: Call): (r: Shot)
    requires Sensible(a, call) && Ok(a.st.q)
    ensures r.replies == a.replies
  {
    match call
    case Get => a.(st := Got(a.st), mine := a.mine + [Head(a.st.free)])
    case Put(i, mode) =>
      a.(st := AfterWrite(a.st, a.mine[i], mode),
         mine := if Full(a.st.q) && mode == Block then a.mine else LeftOf(a.mine, i))
    case Read(fromEnd, peek, block) =>
      a.(st := AfterRead(a.st, fromEnd, peek, block),
         mine := if Empty(a.st.q) then a.mine else a.mine + [MessageRead(a.st.q, fromEnd)])
    case ReadIndex(k, fromEnd, peek, block) =>
      if FindsNothing(a, call) then a.(st := a.st.(readers := Waits(a.st.readers, block)))
      else ReadAt(a, k, peek, ReadPosition(a.st.q, fromEnd, a.index[k]))
    case Free(i) => a.(st := DropRef(a.st, a.mine[i]), mine := LeftOf(a.mine, i))
  }

  /** Reader `k` gets the message at position `p` of the history. */
  function ReadAt(a: Shot, k: nat, peek: bool, p: nat): Shot
    requires k < |a.index| && k < |a.got| && p < |a.st.q.history|
  {
    var msg := a.st.q.history[p];
    Shot(a.st.(held := a.st.held + multiset{msg}), a.index[k := if peek then p else p + 1],
         a.got[k := a.got[k] + [msg]], a.mine + [msg], a.replies)
  }

  /** And its reply; a call that is not sensible is not made. */
  function CallNext(a: Shot, call: Call): Shot
    requires Ok(a.st.q)
  {
    if Sensible(a, call) then Made(a, call).(replies := a.replies + [ReplyOf(a, call)]) else a
  }

  predicate Dies(a: Shot, call: Call) {
    Sensible(a, call) && CallDies(a, call)
  }

  predicate Fine(a: Shot) {
    Ok(a.st.q) && (a.st.spare.Spare? ==> Ok(a.st.spare.q))
  }

  /** All calls, one after the other; `None` if one of them ends the process. */
  function After(a: Shot, calls: seq<Call>): Option<Shot> {
    if calls == [] then Some(a)
    else match After(a, calls[..|calls| - 1])
      case None => None
      case Some(b) =>
        if !Ok(b.st.q) || Dies(b, calls[|calls| - 1]) then None else Some(CallNext(b, calls[|calls| - 1]))
  }

  /** How many references the users hold then. */
  function HeldAfter(a: Shot, calls: seq<Call>): nat {
    match After(a, calls)
    case None => 0
    case Some(b) => |b.mine|
  }

  lemma AfterMore(a: Shot, calls: seq<Call>, k: nat)
    requires k < |calls|
    ensures After(a, calls[..k + 1]) == match After(a, calls[..k])
      case None => None
      case Some(b) => if !Ok(b.st.q) || Dies(b, calls[k]) then None else Some(CallNext(b, calls[k]))
  {
    hide Dies, CallNext;
    assert calls[..k + 1][..k] == calls[..k];
  }

  lemma {:induction false} StaysDead(a: Shot, calls: seq<Call>, k: nat)
    requires k <= |calls| && After(a, calls[..k]).None?
    ensures After(a, calls).None?
    decreases |calls| - k
  {
    hide Dies, CallNext;
    if k < |calls| {
      AfterMore(a, calls, k);
      StaysDead(a, calls, k + 1);
    } else {
      assert calls[..k] == calls;
    }
  }

  // ----- who is woken -----

  /** A call leaves the readers alone, unless it is a read that waits or a write that succeeds. */
  lemma CallReaders(a: Shot, call: Call)
    requires Fine(a) && Sensible(a, call)
    ensures Made(a, call).st.readers ==
      if Writes(a, call) then Told(a.st.readers)
      else if ReplyOf(a, call).r == Blocked && !call.Put? then Waits(a.st.readers, true)
      else a.st.readers
  {
    hide AfterWrite, AfterRead, DropRef, SpareLater;
    match call
    case Put(i, mode) => AfterWriteMeans(a.st, a.mine[i], mode);
    case Read(fromEnd, peek, block) =>
      if Empty(a.st.q) {
        EmptyRead(a.st, fromEnd, peek, block);
      } else {
        AfterReadMeans(a.st, fromEnd, peek, block);
      }
    case Free(i) => DropRefMeans(a.st, a.mine[i]);
    case _ =>
  }

  lemma EmptyRead(s: State, fromEnd: bool, peek: bool, block: bool)
    requires Empty(s.q)
    ensures AfterRead(s, fromEnd, peek, block) == s.(readers := Waits(s.readers, block))
  {
  }

  /** The call at `i` is a read that waits. */
  ghost predicate WaitsAt(a: Shot, calls: seq<Call>, i: nat) {
    && i < |calls| && After(a, calls[..i]).Some?
    && var b := After(a, calls[..i]).value;
    Sensible(b, calls[i]) && !calls[i].Put? && ReplyOf(b, calls[i]).r == Blocked
  }

  ghost predicate WritesAt(a: Shot, calls: seq<Call>, i: nat) {
    i < |calls| && After(a, calls[..i]).Some? && Writes(After(a, calls[..i]).value, calls[i])
  }

  /** A reader waits if and only if some read has gone to wait and no write has succeeded since. */
  ghost predicate WaitingSince(a: Shot, calls: seq<Call>, i: nat) {
    WaitsAt(a, calls, i) && forall j: nat | i < j < |calls| :: !WritesAt(a, calls, j)
  }

  lemma Earlier(a: Shot, calls: seq<Call>, n: nat, i: nat)
    requires i < n <= |calls|
    ensures WaitsAt(a, calls[..n], i) <==> WaitsAt(a, calls, i)
    ensures WritesAt(a, calls[..n], i) <==> WritesAt(a, calls, i)
  {
    hide After, Writes, ReplyOf, Sensible;
    assert calls[..n][..i] == calls[..i];
  }

  lemma {:induction false} FineAfter(a: Shot, calls: seq<Call>)
    requires Fine(a) && After(a, calls).Some?
    ensures Fine(After(a, calls).value)
    decreases |calls|
  {
    hide CallNext, Dies;
    if calls != [] {
      FineAfter(a, calls[..|calls| - 1]);
      CallFine(After(a, calls[..|calls| - 1]).value, calls[|calls| - 1]);
    }
  }

  lemma {:induction false} WaitingIff(a: Shot, calls: seq<Call>)
    requires Fine(a) && !a.st.readers.waiting && After(a, calls).Some?
    ensures After(a, calls).value.st.readers.waiting <==> exists i: nat :: WaitingSince(a, calls, i)
    decreases |calls|
  {
    hide WaitsAt, WritesAt, Dies, CallNext;
    if calls == [] {
      assert forall i: nat :: !WaitsAt(a, calls, i) by { NoCalls(a); }
    } else {
      var n := |calls| - 1;
      var b := After(a, calls[..n]).value;
      FineAfter(a, calls[..n]);
      WaitingIff(a, calls[..n]);
      LastCall(a, calls);
      NotBoth(a, calls, n);
      forall i: nat
        ensures WaitingSince(a, calls, i) <==>
          (i == n && WaitsAt(a, calls, n)) || (WaitingSince(a, calls[..n], i) && !WritesAt(a, calls, n))
      {
        SinceBefore(a, calls, i);
      }
      if WaitsAt(a, calls, n) {
        assert WaitingSince(a, calls, n);
      } else if !WritesAt(a, calls, n) && b.st.readers.waiting {
        var i: nat :| WaitingSince(a, calls[..n], i);
        assert WaitingSince(a, calls, i);
      }
    }
  }

  lemma NotBoth(a: Shot, calls: seq<Call>, i: nat)
    ensures !(WaitsAt(a, calls, i) && WritesAt(a, calls, i))
  {
    hide After;
  }

  lemma NoCalls(a: Shot)
    ensures forall i: nat :: !WaitsAt(a, [], i)
  {
  }

  lemma SinceBefore(a: Shot, calls: seq<Call>, i: nat)
    requires calls != []
    ensures
      var n := |calls| - 1;
      WaitingSince(a, calls, i) <==>
        (i == n && WaitsAt(a, calls, n)) || (WaitingSince(a, calls[..n], i) && !WritesAt(a, calls, n))
  {
    hide WaitsAt, WritesAt;
    var n := |calls| - 1;
    assert i > n ==> !WaitsAt(a, calls, i) by { OutOfRange(a, calls, i); }
    assert i >= n ==> !WaitsAt(a, calls[..n], i) by { OutOfRange(a, calls[..n], i); }
    forall j: nat | j < n
      ensures WaitsAt(a, calls[..n], j) == WaitsAt(a, calls, j) && WritesAt(a, calls[..n], j) == WritesAt(a, calls, j)
    {
      Earlier(a, calls, n, j);
    }
  }

  lemma OutOfRange(a: Shot, calls: seq<Call>, i: nat)
    ensures i >= |calls| ==> !WaitsAt(a, calls, i)
  {
  }

  lemma LastCall(a: Shot, calls: seq<Call>)
    requires calls != [] && After(a, calls).Some? && After(a, calls[..|calls| - 1]).Some? && Fine(After(a, calls[..|calls| - 1]).value)
    ensures
      var n := |calls| - 1;
      var r := After(a, calls[..n]).value.st.readers;
      After(a, calls).value.st.readers ==
        if WritesAt(a, calls, n) then Told(r) else if WaitsAt(a, calls, n) then Waits(r, true) else r
  {
    hide Made, ReplyOf;
    var b, call := After(a, calls[..|calls| - 1]).value, calls[|calls| - 1];
    if Sensible(b, call) {
      CallReaders(b, call);
    }
  }

  /**
   * A write broadcasts if and only if it succeeds and some read has gone to wait since the last one that did: no reader
   * that went to wait is passed over by the next write, whatever calls come in between.
   */
  lemma WriteWakes(a: Shot, calls: seq<Call>, which: nat, mode: WriteMode)
    requires Fine(a) && !a.st.readers.waiting && After(a, calls).Some?
    requires which < |After(a, calls).value.mine|
    ensures
      var b, call := After(a, calls).value, Put(which, mode);
      ReplyOf(b, call).signal <==> Writes(b, call) && exists i: nat :: WaitingSince(a, calls, i)
  {
    hide After, Writes, WaitingSince;
    WaitingIff(a, calls);
  }

  /** A record of the queue's run, of the readers' reads in it, and of the messages held. */
  ghost predicate RecordOk(qs: seq<Queue<nat>>, es: seq<seq<ReadEvent>>, got: seq<seq<nat>>, index: seq<int>,
                           mine: seq<nat>, q: Queue<nat>, held: multiset<nat>) {
    QueueRun(qs) && |qs| > 0 && qs[|qs| - 1] == q && ReadersOk(qs, es, got, index) && multiset(mine) == held
  }

  lemma MineHeld(qs: seq<Queue<nat>>, es: seq<seq<ReadEvent>>, got: seq<seq<nat>>, index: seq<int>,
                 mine: seq<nat>, q: Queue<nat>, held: multiset<nat>, i: nat)
    requires RecordOk(qs, es, got, index, mine, q, held) && i < |mine|
    ensures mine[i] in held
  {
    assert mine[i] in multiset(mine);
  }

  lemma RecordIs(qs: seq<Queue<nat>>, es: seq<seq<ReadEvent>>, got: seq<seq<nat>>, index: seq<int>,
                 mine: seq<nat>, q: Queue<nat>, held: multiset<nat>)
    requires RecordOk(qs, es, got, index, mine, q, held)
    ensures QueueRun(qs) && ReadersOk(qs, es, got, index) && |index| == |got| == |es|
  {
  }

  lemma RecordFree(qs: seq<Queue<nat>>, es: seq<seq<ReadEvent>>, got: seq<seq<nat>>, index: seq<int>,
                   mine: seq<nat>, q: Queue<nat>, held: multiset<nat>, i: nat)
    requires RecordOk(qs, es, got, index, mine, q, held) && i < |mine|
    ensures RecordOk(qs, es, got, index, LeftOf(mine, i), q, held - multiset{mine[i]})
  {
    hide ReadersOk, QueueRun;
    TakeOut(mine, i);
  }

  /** A read with an index. */
  lemma RecordRead(qs: seq<Queue<nat>>, es: seq<seq<ReadEvent>>, got: seq<seq<nat>>, index: seq<int>, mine: seq<nat>,
                   q: Queue<nat>, held: multiset<nat>, k: nat, fromEnd: bool, peek: bool, msg: nat, index': int)
    requires RecordOk(qs, es, got, index, mine, q, held) && k < |index| && !(fromEnd && peek)
    requires Ok(q) && Readable(q, Some(index[k])) && IndexedRead(q, fromEnd, peek, index[k], msg, index')
    ensures
      var e := ReadEvent(|qs| - 1, fromEnd, peek, index[k], ReadPosition(q, fromEnd, index[k]));
      && k < |es| == |got| && |qs| > 0
      && RecordOk(qs, es[k := es[k] + [e]], got[k := got[k] + [msg]], index[k := index'], mine + [msg], q, held + multiset{msg})
  {
    hide ReaderOk, QueueRun;
    ReaderReads(qs, es, got, index, k, fromEnd, peek, msg, index');
  }

  /** The ring, the references and the reply of a write. */
  function PutQueue(q: Queue<nat>, msg: nat, mode: WriteMode): Queue<nat> {
    if !Full(q) then Written(q, msg) else if mode == Override then Written(Dropped(q, 1), msg) else q
  }

  predicate Keeps(q: Queue<nat>, mode: WriteMode) {
    Full(q) && mode == Block
  }

  function PutHeld(q: Queue<nat>, held: multiset<nat>, msg: nat, mode: WriteMode): multiset<nat> {
    if Keeps(q, mode) then held else held - multiset{msg}
  }

  function PutMine(q: Queue<nat>, mine: seq<nat>, i: nat, mode: WriteMode): seq<nat>
    requires i < |mine|
  {
    if Keeps(q, mode) then mine else LeftOf(mine, i)
  }

  function PutReply(q: Queue<nat>, waiting: bool, mode: WriteMode): Reply {
    if !Full(q) || mode == Override then Reply(Done, waiting) else NothingFor(mode == Block)
  }

  lemma KeepsIff(q: Queue<nat>, waiting: bool, mode: WriteMode)
    ensures PutReply(q, waiting, mode).r == Blocked <==> Keeps(q, mode)
  {
  }

  /** What the queue goes through in a write. */
  function WriteSteps(q: Queue<nat>, msg: nat, mode: WriteMode): seq<Queue<nat>> {
    if !Full(q) then [Written(q, msg)]
    else if mode == Override then [Dropped(q, 1), Written(Dropped(q, 1), msg)]
    else []
  }

  lemma RecordWrite(qs: seq<Queue<nat>>, es: seq<seq<ReadEvent>>, got: seq<seq<nat>>, index: seq<int>, mine: seq<nat>,
                    q: Queue<nat>, held: multiset<nat>, i: nat, mode: WriteMode, q': Queue<nat>, held': multiset<nat>)
    requires RecordOk(qs, es, got, index, mine, q, held) && i < |mine| && Ok(q)
    requires q' == PutQueue(q, mine[i], mode) && held' == PutHeld(q, held, mine[i], mode)
    ensures RecordOk(qs + WriteSteps(q, mine[i], mode), es, got, index, PutMine(q, mine, i, mode), q', held')
  {
    hide ReadersOk, QueueRun, LeftOf;
    TakeOut(mine, i);
    var msg := mine[i];
    if !Full(q) {
      ReadersOn(qs, Written(q, msg), es, got, index);
    } else if mode == Override {
      ReadersOn(qs, Dropped(q, 1), es, got, index);
      ReadersOn(qs + [Dropped(q, 1)], Written(Dropped(q, 1), msg), es, got, index);
      assert qs + [Dropped(q, 1)] + [Written(Dropped(q, 1), msg)] == qs + WriteSteps(q, msg, mode);
    } else {
      assert qs + [] == qs;
    }
  }

  class Users {
    const queue: RawQueue
    var index: seq<int>
    var got: seq<seq<nat>>
    var mine: seq<nat>
    var replies: seq<Reply>
    ghost var qs: seq<Queue<nat>>
    ghost var es: seq<seq<ReadEvent>>

    /** The users' record of the queue's run, of their own reads and of the messages they hold. */
    ghost predicate Recorded()
      reads this, queue
    {
      RecordOk(qs, es, got, index, mine, queue.q, queue.held)
    }

    /** The part of it that is kept when a call ends the process. */
    ghost predicate Noted()
      reads this
    {
      QueueRun(qs) && ReadersOk(qs, es, got, index)
    }

    ghost function Now(): Shot
      reads this, queue, queue.recycle
    {
      Shot(queue.Now(), index, got, mine, replies)
    }

    constructor (q: RawQueue, readers: nat)
      requires q.Valid() && q.held == multiset{}
      ensures queue == q && Recorded() && Now() == First(q.Now(), readers)
    {
      queue, mine, replies := q, [], [];
      index, got := seq(readers, _ => 0), seq(readers, _ => []);
      qs, es := [q.q], seq(readers, _ => []);
      new;
      queue.Facts();
    }

    /** The queue has gone on by a step, or by two. */
    ghost method Note(q: Queue<nat>)
      requires QueueRun(qs) && ReadersOk(qs, es, got, index) && |qs| > 0 && QueueStep(qs[|qs| - 1], q)
      modifies this`qs
      ensures QueueRun(qs) && ReadersOk(qs, es, got, index) && qs == old(qs) + [q]
    {
      ReadersOn(qs, q, es, got, index);
      qs := qs + [q];
    }

    method DoGet() returns (alive: bool)
      requires queue.Valid() && Recorded()
      modifies this, queue, queue.hdr
      ensures Noted() && (alive ==> queue.Valid() && Recorded())
      ensures Ok(old(queue.q)) && (alive <==> !CallDies(old(Now()), Get))
      ensures alive ==> Now() == Made(old(Now()), Get)
      ensures !alive ==> old(|mine|) >= EXTRA_MESSAGES
    {
      hide ReadersOk, QueueRun, RawQueue.Valid, RawQueue.Self, LiveOf;
      queue.Facts();
      assert this !in queue.Companion();
      if |mine| < EXTRA_MESSAGES {
        HeldAreMine();
        queue.GetMessageSucceeds(Elements(mine));
      }
      var msg;
      alive, msg := queue.GetMessage();
      if alive {
        mine := mine + [msg];
      }
    }

    lemma HeldAreMine()
      requires multiset(mine) == queue.held
      ensures |Elements(mine)| <= |mine| && forall m | m in queue.held :: m in Elements(mine)
    {
      ElementsSize(mine);
      forall m | m in queue.held
        ensures m in Elements(mine)
      {
        assert m in multiset(mine);
      }
    }

    method PutMessage(msg: nat, mode: WriteMode) returns (alive: bool, reply: Reply)
      requires queue.Valid() && msg in queue.held
      modifies queue, queue.data, queue.hdr, queue.Companion()
      ensures alive <==> !WriteDies(old(queue.Now()), msg, mode)
      ensures Few(old(queue.Now()).spare) ==> alive
      ensures alive ==> queue.Valid() && queue.Now() == AfterWrite(old(queue.Now()), msg, mode)
      ensures alive ==> queue.q == PutQueue(old(queue.q), msg, mode)
      ensures alive ==> queue.held == PutHeld(old(queue.q), old(queue.held), msg, mode)
      ensures alive ==> reply == PutReply(old(queue.q), old(queue.readableWaiting), mode)
    {
      hide RawQueue.Valid, RawQueue.Self, AfterWrite, WriteDies, Few, SpareLater;
      queue.Facts();
      queue.SpareOk();
      AfterWriteMeans(queue.Now(), msg, mode);
      var r, signal := queue.DoWriteMessage(msg, mode);
      alive, reply := r != Fatal, Reply(r, signal);
    }

    method DoPut(i: nat, mode: WriteMode) returns (alive: bool, reply: Reply)
      requires queue.Valid() && Recorded() && i < |mine|
      modifies this, queue, queue.data, queue.hdr, queue.Companion()
      ensures Noted() && Ok(old(queue.q)) && (alive ==> queue.Valid() && Recorded())
      ensures alive <==> !CallDies(old(Now()), Put(i, mode))
      ensures alive ==> Now() == Made(old(Now()), Put(i, mode)) && reply == ReplyOf(old(Now()), Put(i, mode))
      ensures Few(old(queue.Now()).spare) ==> alive
    {
      hide RecordOk, RawQueue.Valid, RawQueue.Self, AfterWrite, WriteDies, Few, Made, ReplyOf, CallDies, LeftOf, WriteSteps;
      hide PutQueue, PutHeld, PutReply, Keeps;
      queue.Facts();
      PutIs(Now(), i, mode);
      ghost var before, held := queue.q, queue.held;
      var msg := mine[i];
      MineHeld(qs, es, got, index, mine, before, held, i);
      assert this !in queue.Companion();
      alive, reply := PutMessage(msg, mode);
      RecordIs(qs, es, got, index, mine, before, held);
      if alive {
        RecordWrite(qs, es, got, index, mine, before, held, i, mode, queue.q, queue.held);
        KeepsIff(before, old(queue.readableWaiting), mode);
        if reply.r != Blocked {
          mine := LeftOf(mine, i);
        }
        qs := qs + WriteSteps(before, msg, mode);
        RecordIs(qs, es, got, index, mine, queue.q, queue.held);
      }
    }

    method ReadMessage(fromEnd: bool, peek: bool, block: bool) returns (alive: bool, reply: Reply, msg: nat)
      requires queue.Valid()
      modifies queue, queue.hdr, queue.Companion()
      ensures alive <==> !ReadDies(old(queue.Now()), fromEnd, peek)
      ensures Few(old(queue.Now()).spare) ==> alive
      ensures alive ==> queue.Valid() && queue.Now() == AfterRead(old(queue.Now()), fromEnd, peek, block)
      ensures
        var q := old(queue.q);
        && Ok(q) && (alive && Empty(q) ==> queue.q == q && queue.held == old(queue.held) && reply == NothingFor(block))
        && (alive && !Empty(q) ==>
              && msg == MessageRead(q, fromEnd) && queue.held == old(queue.held) + multiset{msg}
              && queue.q == (if peek then q else Dropped(q, if fromEnd then InRing(q) else 1))
              && reply == Reply(Done, Full(q) && !Full(queue.q)))
    {
      hide RawQueue.Valid, RawQueue.Self, AfterRead, ReadDies, Few, SpareLater, MessageRead;
      queue.Facts();
      queue.SpareOk();
      if Empty(queue.q) {
        EmptyRead(queue.Now(), fromEnd, peek, block);
      } else {
        AfterReadMeans(queue.Now(), fromEnd, peek, block);
      }
      var r, signal;
      r, msg, signal := queue.DoReadMessage(fromEnd, peek, block);
      alive, reply := r != Fatal, Reply(r, signal);
    }

    method DoRead(fromEnd: bool, peek: bool, block: bool) returns (alive: bool, reply: Reply)
      requires queue.Valid() && Recorded()
      modifies this, queue, queue.hdr, queue.Companion()
      ensures Noted() && (alive ==> queue.Valid() && Recorded())
      ensures Ok(old(queue.q)) && (alive <==> !CallDies(old(Now()), Read(fromEnd, peek, block)))
      ensures alive ==> Now() == Made(old(Now()), Read(fromEnd, peek, block))
      ensures alive ==> reply == ReplyOf(old(Now()), Read(fromEnd, peek, block))
      ensures Few(old(queue.Now()).spare) ==> alive
    {
      hide ReadersOk, QueueRun, RawQueue.Valid, RawQueue.Self, AfterRead, ReadDies, Few, MessageRead;
      assert this !in queue.Companion();
      var msg;
      alive, reply, msg := ReadMessage(fromEnd, peek, block);
      if alive && reply.r == Done {
        mine := mine + [msg];
        if !peek {
          Note(queue.q);
        }
      }
    }

    method DoReadIndex(k: nat, fromEnd: bool, peek: bool, block: bool) returns (reply: Reply)
      requires queue.Valid() && Recorded() && k < |index| && !(fromEnd && peek)
      modifies this, queue, queue.hdr
      ensures Noted() && queue.Valid() && Recorded()
      ensures Ok(old(queue.q)) && |old(index)| == |old(got)|
      ensures Now() == Made(old(Now()), ReadIndex(k, fromEnd, peek, block))
      ensures reply == ReplyOf(old(Now()), ReadIndex(k, fromEnd, peek, block))
    {
      hide RecordOk, RawQueue.Valid, RawQueue.Self, Made, ReplyOf, ReadAt, ReadPosition;
      queue.Facts();
      RecordIs(qs, es, got, index, mine, queue.q, queue.held);
      assert this !in queue.Companion();
      IndexIs(Now(), k, fromEnd, peek, block);
      ghost var before := Now();
      var r, msg, index', signal := queue.DoReadMessageIndex(fromEnd, peek, block, index[k]);
      reply := Reply(r, signal);
      if r == Done {
        RecordRead(qs, es, got, index, mine, queue.q, before.st.held, k, fromEnd, peek, msg, index');
        ReadAtIs(before, k, fromEnd, peek, msg, index');
        es := es[k := es[k] + [ReadEvent(|qs| - 1, fromEnd, peek, index[k], ReadPosition(queue.q, fromEnd, index[k]))]];
        got, index, mine := got[k := got[k] + [msg]], index[k := index'], mine + [msg];
        RecordIs(qs, es, got, index, mine, queue.q, queue.held);
      }
    }

    method DoFree(i: nat) returns (alive: bool)
      requires queue.Valid() && Recorded() && i < |mine|
      modifies this, queue, queue.hdr, queue.Companion()
      ensures Noted() && (alive ==> queue.Valid() && Recorded())
      ensures Ok(old(queue.q)) && (alive <==> !CallDies(old(Now()), Free(i)))
      ensures alive ==> Now() == Made(old(Now()), Free(i))
      ensures Few(old(queue.Now()).spare) ==> alive
    {
      hide RecordOk, RawQueue.Valid, DropRef, RunsDry, Few, LeftOf;
      queue.Facts();
      MineHeld(qs, es, got, index, mine, queue.q, queue.held, i);
      RecordIs(qs, es, got, index, mine, queue.q, queue.held);
      RecordFree(qs, es, got, index, mine, queue.q, queue.held, i);
      assert this !in queue.Companion();
      alive := GiveBack(mine[i]);
      mine := LeftOf(mine, i);
    }

    method GiveBack(m: nat) returns (alive: bool)
      requires queue.Valid() && m in queue.held
      modifies queue, queue.hdr, queue.Companion()
      ensures alive <==> !RunsDry(old(queue.Now()), m)
      ensures Few(old(queue.Now()).spare) ==> alive
      ensures alive ==> queue.Valid() && queue.Now() == DropRef(old(queue.Now()), m)
      ensures alive ==> queue.q == old(queue.q) && queue.held == old(queue.held) - multiset{m}
    {
      hide RawQueue.Valid, DropRef, RunsDry, Few, SpareLater;
      queue.SpareOk();
      DropRefMeans(queue.Now(), m);
      alive := queue.FreeMessage(Some(m));
    }

    /** A sensible call. */
    method Make(call: Call) returns (alive: bool, reply: Reply)
      requires queue.Valid() && Recorded() && Sensible(Now(), call)
      modifies this, queue, queue.data, queue.hdr, queue.Companion()
      ensures Noted() && Ok(old(queue.q)) && (alive ==> queue.Valid() && Recorded())
      ensures alive <==> !CallDies(old(Now()), call)
      ensures alive ==> Now() == Made(old(Now()), call) && reply == ReplyOf(old(Now()), call)
      ensures Few(old(queue.Now()).spare) && !alive ==> call.Get? && old(|mine|) >= EXTRA_MESSAGES
    {
      hide ReadersOk, QueueRun, RawQueue.Valid, RawQueue.Self, Few, Made, CallDies, ReplyOf;
      queue.Facts();
      alive, reply := true, Reply(Done, false);
      match call
      case Get =>
        OtherReply(Now(), call);
        alive := DoGet();
      case Put(i, mode) => alive, reply := DoPut(i, mode);
      case Read(fromEnd, peek, block) => alive, reply := DoRead(fromEnd, peek, block);
      case ReadIndex(k, fromEnd, peek, block) =>
        NeverDies(Now(), call);
        reply := DoReadIndex(k, fromEnd, peek, block);
      case Free(i) =>
        OtherReply(Now(), call);
        alive := DoFree(i);
    }

    method Do(call: Call) returns (alive: bool)
      requires queue.Valid() && Recorded()
      modifies this, queue, queue.data, queue.hdr, queue.Companion()
      ensures Noted() && (alive ==> queue.Valid() && Recorded())
      ensures Ok(old(queue.q)) && (alive <==> !Dies(old(Now()), call))
      ensures alive ==> Now() == CallNext(old(Now()), call)
      ensures Few(old(queue.Now()).spare) && !alive ==> call.Get? && old(|mine|) >= EXTRA_MESSAGES
    {
      hide ReadersOk, QueueRun, RawQueue.Valid, RawQueue.Self, Few, Made, CallDies, ReplyOf, Sensible;
      queue.Facts();
      var sensible := IsSensible(call);
      if !sensible {
        return true;
      }
      assert this !in queue.Companion();
      var reply;
      alive, reply := Make(call);
      if alive {
        replies := replies + [reply];
      }
    }

    method IsSensible(call: Call) returns (ok: bool)
      ensures ok == Sensible(Now(), call)
    {
      match call
      case Put(i, _) => ok := i < |mine|;
      case Free(i) => ok := i < |mine|;
      case ReadIndex(k, fromEnd, peek, _) => ok := k < |index| && k < |got| && !(fromEnd && peek);
      case _ => ok := true;
    }
  }

  lemma NeverDies(a: Shot, call: Call)
    requires Sensible(a, call) && call.ReadIndex?
    ensures !CallDies(a, call)
  {
  }

  lemma PutIs(a: Shot, i: nat, mode: WriteMode)
    requires i < |a.mine| && Ok(a.st.q)
    ensures CallDies(a, Put(i, mode)) == WriteDies(a.st, a.mine[i], mode)
    ensures Made(a, Put(i, mode)) == Shot(AfterWrite(a.st, a.mine[i], mode), a.index, a.got,
      PutMine(a.st.q, a.mine, i, mode), a.replies)
    ensures ReplyOf(a, Put(i, mode)) == PutReply(a.st.q, a.st.readers.waiting, mode)
  {
    hide AfterWrite, WriteDies, LeftOf;
  }

  lemma IndexIs(a: Shot, k: nat, fromEnd: bool, peek: bool, block: bool)
    requires Sensible(a, ReadIndex(k, fromEnd, peek, block)) && Ok(a.st.q)
    ensures
      var call := ReadIndex(k, fromEnd, peek, block);
      if !Readable(a.st.q, Some(a.index[k])) then
        && Made(a, call) == a.(st := a.st.(readers := Waits(a.st.readers, block))) && ReplyOf(a, call) == NothingFor(block)
      else
        && Made(a, call) == ReadAt(a, k, peek, ReadPosition(a.st.q, fromEnd, a.index[k]))
        && ReplyOf(a, call) == Reply(Done, false)
  {
  }

  lemma ReadAtIs(a: Shot, k: nat, fromEnd: bool, peek: bool, msg: nat, index': int)
    requires k < |a.index| == |a.got| && !(fromEnd && peek) && Ok(a.st.q) && Readable(a.st.q, Some(a.index[k]))
    requires IndexedRead(a.st.q, fromEnd, peek, a.index[k], msg, index')
    ensures ReadAt(a, k, peek, ReadPosition(a.st.q, fromEnd, a.index[k])) ==
      Shot(a.st.(held := a.st.held + multiset{msg}), a.index[k := index'], a.got[k := a.got[k] + [msg]], a.mine + [msg], a.replies)
  {
  }

  lemma OtherReply(a: Shot, call: Call)
    requires Sensible(a, call) && (call.Get? || call.Free?)
    ensures ReplyOf(a, call) == Reply(Done, false)
  {
  }

  /** No call changes who holds messages of the recycle queue. */
  lemma CallKeepsSpare(a: Shot, call: Call)
    requires Fine(a)
    ensures SpareLater(a.st.spare, CallNext(a, call).st.spare)
  {
    hide AfterWrite, AfterRead, DropRef, ReplyOf;
    if Sensible(a, call) {
      match call
      case Put(i, mode) => AfterWriteMeans(a.st, a.mine[i], mode);
      case Read(fromEnd, peek, block) =>
        if Empty(a.st.q) {
          EmptyRead(a.st, fromEnd, peek, block);
        } else {
          AfterReadMeans(a.st, fromEnd, peek, block);
        }
      case Free(i) => DropRefMeans(a.st, a.mine[i]);
      case _ =>
    }
  }

  lemma CallFine(a: Shot, call: Call)
    requires Fine(a)
    ensures Fine(CallNext(a, call))
  {
    hide AfterWrite, AfterRead, DropRef, ReplyOf;
    CallKeepsSpare(a, call);
    if Sensible(a, call) {
      match call
      case Put(i, mode) => AfterWriteMeans(a.st, a.mine[i], mode);
      case Read(fromEnd, peek, block) =>
        if Empty(a.st.q) {
          EmptyRead(a.st, fromEnd, peek, block);
        } else {
          AfterReadMeans(a.st, fromEnd, peek, block);
        }
      case Free(i) => DropRefMeans(a.st, a.mine[i]);
      case _ =>
    }
  }

  ghost function First(st: State, readers: nat): Shot {
    Shot(st, seq(readers, _ => 0), seq(readers, _ => []), [], [])
  }

  /**
   * Any calls on a queue come out as `After` says, up to one that ends the process; while few messages of the recycle
   * queue are held, if there is one, that is a GetMessage while EXTRA_MESSAGES or more are held. Every reader's reads are
   * reads of the queue's run, and what it got stands in the history at their positions.
   */
  method Drive(queue: RawQueue, readers: nat, calls: seq<Call>)
    returns (users: Users, alive: bool, ghost made: nat)
    requires queue.Valid() && queue.held == multiset{}
    modifies queue, queue.data, queue.hdr, queue.Companion()
    ensures users.queue == queue && users.Noted() && (alive ==> queue.Valid() && users.Recorded())
    ensures After(First(old(queue.Now()), readers), calls) == if alive then Some(users.Now()) else None
    ensures !alive && Few(old(queue.Now()).spare) ==>
              && made < |calls| && calls[made].Get?
              && HeldAfter(First(old(queue.Now()), readers), calls[..made]) >= EXTRA_MESSAGES
    ensures forall k | 0 <= k < |users.es| :: SeesHistory(users.qs, users.es[k], users.got[k])
  {
    hide ReadersOk, QueueRun, SeesHistory, RawQueue.Valid, RawQueue.Self, Dies, CallNext, Few, SpareLater;
    users := new Users(queue, readers);
    ghost var first := users.Now();
    alive, made := true, 0;
    assert calls[..0] == [];
    var i := 0;
    while i < |calls| && alive
      invariant fresh(users) && users.queue == queue && users.Noted() && 0 <= i <= |calls|
      invariant alive ==> queue.Valid() && users.Recorded() && After(first, calls[..i]) == Some(users.Now())
      invariant alive && Few(first.st.spare) ==> Few(queue.Now().spare)
      invariant !alive ==> made < i && After(first, calls[..i]).None?
      invariant !alive && Few(first.st.spare) ==>
                  calls[made].Get? && HeldAfter(first, calls[..made]) >= EXTRA_MESSAGES
      decreases |calls| - i
    {
      AfterMore(first, calls, i);
      made := i;
      queue.Facts();
      queue.SpareOk();
      ghost var now := users.Now();
      CallKeepsSpare(now, calls[i]);
      alive := users.Do(calls[i]);
      if alive && Few(now.st.spare) {
        FewKept(now.st.spare, queue.Now().spare);
      }
      i := i + 1;
    }
    if alive {
      assert calls[..i] == calls;
    } else {
      StaysDead(first, calls, i);
    }
    AllSeeHistory(users.qs, users.es, users.got, users.index);
  }

  /** No message twice without a peek, and each message the one the history has at that position. */
  ghost predicate SeesHistory(qs: seq<Queue<nat>>, es: seq<ReadEvent>, got: seq<nat>) {
    && Delivered(qs, es, got)
    && forall k, l | 0 <= k < l < |es| :: if es[k].peek then es[k].pos <= es[l].pos else es[k].pos < es[l].pos
  }

  lemma AllSeeHistory(qs: seq<Queue<nat>>, es: seq<seq<ReadEvent>>, got: seq<seq<nat>>, index: seq<int>)
    requires QueueRun(qs) && ReadersOk(qs, es, got, index)
    ensures |es| == |got| && forall k | 0 <= k < |es| :: SeesHistory(qs, es[k], got[k])
  {
    forall k | 0 <= k < |es|
      ensures SeesHistory(qs, es[k], got[k])
    {
      assert ReaderOk(qs, es[k], got[k], index[k]);
      ReaderSeesHistory(qs, es[k]);
    }
  }
}
