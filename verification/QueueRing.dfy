/** The ring buffer of a RawQueue and the write history it stands for (aos/linux_code/ipc_lib/queue.cc). */
module QueueRing {
  import opened Basics
  import opened QueueSpec

  /** The array index of the `k`-th message after `start` in a ring of `n` slots. */
  function Slot(start: nat, k: nat, n: nat): int {
    if start + k < n then start + k else start + k - n
  }

  ghost predicate SlotOk(d: seq<nat>, start: nat, q: Queue<nat>, k: nat)
    requires start < |d| && k < |d| && q.oldest + k < |q.history|
  {
    d[Slot(start, k, |d|)] == q.history[q.oldest + k]
  }

  /** The ring holds the end of the history, from `oldest` on, and one slot is always unused. */
  ghost predicate RingOk(d: seq<nat>, start: int, end: int, messages: int, q: Queue<nat>) {
    && Ok(q) && |d| == q.capacity + 1 && 0 <= start < |d|
    && messages == |q.history|
    && end == Slot(start, |q.history| - q.oldest, |d|)
    && (forall k | 0 <= k < |q.history| - q.oldest :: SlotOk(d, start, q, k))
  }

  /** index_add1 */
  function IndexAdd1(index: int, dataLength: int): int {
    if index + 1 == dataLength then 0 else index + 1
  }

  /** How the code tells an empty and a full ring. */
  lemma RingTests(d: seq<nat>, start: int, end: int, messages: int, q: Queue<nat>)
    requires RingOk(d, start, end, messages, q)
    ensures 0 <= end < |d|
    ensures start == end <==> Empty(q)
    ensures IndexAdd1(end, |d|) == start <==> Full(q)
  {
  }

  lemma RingPush(d: seq<nat>, start: int, end: int, messages: int, q: Queue<nat>, msg: nat)
    requires RingOk(d, start, end, messages, q) && !Full(q)
    ensures 0 <= end < |d| && RingOk(d[end := msg], start, IndexAdd1(end, |d|), messages + 1, Written(q, msg))
  {
    var d', q' := d[end := msg], Written(q, msg);
    forall k | 0 <= k < |q'.history| - q'.oldest
      ensures SlotOk(d', start, q', k)
    {
      assert k < |q.history| - q.oldest ==> SlotOk(d, start, q, k);
    }
  }

  lemma RingDrop(d: seq<nat>, start: int, end: int, messages: int, q: Queue<nat>)
    requires RingOk(d, start, end, messages, q) && !Empty(q)
    ensures d[start] == q.history[q.oldest]
    ensures RingOk(d, IndexAdd1(start, |d|), end, messages, Dropped(q, 1))
  {
    assert SlotOk(d, start, q, 0);
    var start', q' := IndexAdd1(start, |d|), Dropped(q, 1);
    forall k | 0 <= k < |q'.history| - q'.oldest
      ensures SlotOk(d, start', q', k)
    {
      assert SlotOk(d, start, q, k + 1);
    }
  }

  /** LastMessageIndex */
  function LastIndex(end: int, dataLength: int): int {
    if end - 1 < 0 then dataLength - 1 else end - 1
  }

  lemma RingLast(d: seq<nat>, start: int, end: int, messages: int, q: Queue<nat>)
    requires RingOk(d, start, end, messages, q) && !Empty(q)
    ensures 0 <= LastIndex(end, |d|) < |d| && d[LastIndex(end, |d|)] == q.history[|q.history| - 1]
  {
    assert SlotOk(d, start, q, |q.history| - q.oldest - 1);
  }

  /** data_end_ - data_start_, wrapped, counts the messages in the ring. */
  function Current(start: int, end: int, dataLength: int): int {
    if end - start < 0 then end - start + dataLength else end - start
  }

  /** Where an indexed read looks, when it is not behind. */
  function ReadSlot(end: int, unread: int, dataLength: int): int {
    if end - unread < 0 then end - unread + dataLength else end - unread
  }

  lemma RingIndexed(d: seq<nat>, start: int, end: int, messages: int, q: Queue<nat>, index: int)
    requires RingOk(d, start, end, messages, q) && Readable(q, Some(index))
    ensures Current(start, end, |d|) == |q.history| - q.oldest
    ensures index < q.oldest <==> messages - index > Current(start, end, |d|)
    ensures d[start] == q.history[q.oldest]
    ensures q.oldest <= index ==>
      0 <= ReadSlot(end, messages - index, |d|) < |d| && d[ReadSlot(end, messages - index, |d|)] == q.history[index]
  {
    assert SlotOk(d, start, q, 0);
    assert q.oldest <= index ==> SlotOk(d, start, q, index - q.oldest);
  }
}
