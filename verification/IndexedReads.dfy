/**
 * What a reader with an index sees over a whole run of a queue that other readers and writers keep changing
 * (the promises on ReadMessageIndex in aos/linux_code/ipc_lib/queue.h).
 */
module IndexedReads {
  import opened Basics
  import opened QueueSpec

  /** What any call on a queue does to its history and ring: nothing, a write with room, or messages leaving. */
  ghost predicate QueueStep(q: Queue<nat>, q': Queue<nat>) {
    || q' == q
    || (!Full(q) && exists msg :: q' == Written(q, msg))
    || (exists n: nat :: n <= |q.history| - q.oldest && q' == Dropped(q, n))
  }

  ghost predicate QueueRun(qs: seq<Queue<nat>>) {
    && qs != [] && Ok(qs[0])
    && (forall i, j | 0 <= i < j < |qs| && j == i + 1 :: QueueStep(qs[i], qs[j]))
  }

  /** The history has only grown and the ring has only moved on. */
  ghost predicate Later(q: Queue<nat>, q': Queue<nat>) {
    q.history <= q'.history && q.oldest <= q'.oldest && q.capacity == q'.capacity
  }

  lemma {:induction false} RunLater(qs: seq<Queue<nat>>, i: nat, j: nat)
    requires QueueRun(qs) && i <= j < |qs|
    ensures Ok(qs[j]) && Later(qs[i], qs[j])
    decreases j
  {
    if j > 0 {
      RunLater(qs, if i < j then i else i - 1, j - 1);
      assert QueueStep(qs[j - 1], qs[j]);
    }
  }

  /** One successful read with an index: when it happened, its options, the index before, the position read. */
  datatype ReadEvent = ReadEvent(time: nat, fromEnd: bool, peek: bool, index: int, pos: nat)

  ghost predicate IsRead(qs: seq<Queue<nat>>, e: ReadEvent) {
    && e.time < |qs| && Ok(qs[e.time]) && Readable(qs[e.time], Some(e.index)) && !(e.fromEnd && e.peek)
    && e.pos == ReadPosition(qs[e.time], e.fromEnd, e.index)
  }

  /** The index after a read: just past what was read, or, after a peek, at it. */
  function IndexAfter(e: ReadEvent): int {
    if e.peek then e.pos else e.pos + 1
  }

  /** The reads one reader makes with the same index variable, in order. */
  ghost predicate ReaderRun(qs: seq<Queue<nat>>, es: seq<ReadEvent>) {
    && (forall k | 0 <= k < |es| :: IsRead(qs, es[k]))
    && (forall k, l | 0 <= k < l < |es| && l == k + 1 :: es[k].time <= es[l].time && es[l].index == IndexAfter(es[k]))
  }

  /** Position `x` of the history is no longer in the ring. */
  predicate LeftRing(q: Queue<nat>, x: int) {
    x < q.oldest
  }

  lemma {:induction false} PositionsIncrease(qs: seq<Queue<nat>>, es: seq<ReadEvent>, k: nat, l: nat)
    requires QueueRun(qs) && ReaderRun(qs, es) && k < l < |es|
    ensures IndexAfter(es[k]) <= es[l].pos && es[k].time <= es[l].time
    decreases l
  {
    assert IsRead(qs, es[l]);
    if k < l - 1 {
      PositionsIncrease(qs, es, k, l - 1);
    }
    assert es[l].index == IndexAfter(es[l - 1]);
  }

  /**
   * Whatever happens to the queue in between, no read returns a position before or at one that was read before
   * without peeking, so the reader never sees a message twice; each read returns the message written at that
   * position of the final history; and a message between two consecutive reads was skipped only because it had left
   * the ring, or because of kFromEnd.
   */
  lemma ReaderSeesHistory(qs: seq<Queue<nat>>, es: seq<ReadEvent>)
    requires QueueRun(qs) && ReaderRun(qs, es)
    ensures forall k, l | 0 <= k < l < |es| :: if es[k].peek then es[k].pos <= es[l].pos else es[k].pos < es[l].pos
    ensures forall k | 0 <= k < |es| ::
      es[k].pos < |qs[es[k].time].history| <= |qs[|qs| - 1].history|
      && qs[es[k].time].history[es[k].pos] == qs[|qs| - 1].history[es[k].pos]
    ensures forall k, l, x | 0 <= k < l < |es| && l == k + 1 && IndexAfter(es[k]) <= x < es[l].pos && !es[l].fromEnd ::
      LeftRing(qs[es[l].time], x)
  {
    forall k, l | 0 <= k < l < |es|
      ensures IndexAfter(es[k]) <= es[l].pos
    {
      PositionsIncrease(qs, es, k, l);
    }
    forall k | 0 <= k < |es|
      ensures es[k].pos < |qs[es[k].time].history| <= |qs[|qs| - 1].history|
              && qs[es[k].time].history[es[k].pos] == qs[|qs| - 1].history[es[k].pos]
    {
      assert IsRead(qs, es[k]);
      RunLater(qs, es[k].time, |qs| - 1);
    }
    forall k, l, x | 0 <= k < l < |es| && l == k + 1 && IndexAfter(es[k]) <= x < es[l].pos && !es[l].fromEnd
      ensures LeftRing(qs[es[l].time], x)
    {
      assert IsRead(qs, es[l]);
    }
  }

  /** A reader that keeps up misses nothing: it reads the next position, or the same one after a peek. */
  lemma ReaderThatKeepsUp(qs: seq<Queue<nat>>, es: seq<ReadEvent>, k: nat)
    requires QueueRun(qs) && ReaderRun(qs, es) && k + 1 < |es|
    requires !es[k + 1].fromEnd && qs[es[k + 1].time].oldest <= IndexAfter(es[k])
    ensures es[k + 1].pos == IndexAfter(es[k])
  {
    assert IsRead(qs, es[k + 1]);
    assert es[k + 1].index == IndexAfter(es[k]);
  }

  // ----- runs that go on -----

  lemma RunStep(qs: seq<Queue<nat>>, q: Queue<nat>)
    requires QueueRun(qs) && QueueStep(qs[|qs| - 1], q)
    ensures QueueRun(qs + [q])
  {
  }

  lemma ReaderKept(qs: seq<Queue<nat>>, q: Queue<nat>, es: seq<ReadEvent>)
    requires ReaderRun(qs, es)
    ensures ReaderRun(qs + [q], es)
  {
    forall k | 0 <= k < |es|
      ensures IsRead(qs + [q], es[k])
    {
      assert IsRead(qs, es[k]);
    }
  }

  lemma ReaderStep(qs: seq<Queue<nat>>, es: seq<ReadEvent>, e: ReadEvent)
    requires ReaderRun(qs, es) && IsRead(qs, e) && (es != [] ==> es[|es| - 1].time <= e.time && e.index == IndexAfter(es[|es| - 1]))
    ensures ReaderRun(qs, es + [e])
  {
  }
}
