/** What a RawQueue means: the history of all writes and how much of it is still in the ring. */
module QueueSpec {
  import opened Basics

  /** All messages ever written, the position of the oldest one still in the ring, and the ring's capacity. */
  datatype Queue<T> = Queue(history: seq<T>, oldest: nat, capacity: nat)

  predicate Ok<T>(q: Queue<T>) {
    q.oldest <= |q.history| <= q.oldest + q.capacity && 1 <= q.capacity
  }

  predicate Full<T>(q: Queue<T>) {
    |q.history| == q.oldest + q.capacity
  }

  predicate Empty<T>(q: Queue<T>) {
    |q.history| == q.oldest
  }

  /** What a reader finds: a non-empty ring and, with an index, a message it has not read. */
  predicate Readable<T>(q: Queue<T>, index: Option<int>) {
    !Empty(q) && (index.Some? ==> index.value < |q.history|)
  }

  function Written<T>(q: Queue<T>, msg: T): Queue<T> {
    q.(history := q.history + [msg])
  }

  /** The `n` oldest messages leave the ring. */
  function Dropped<T>(q: Queue<T>, n: nat): Queue<T> {
    q.(oldest := q.oldest + n)
  }

  /** The history position an indexed read returns: the newest, or the first unread one still in the ring. */
  function ReadPosition<T>(q: Queue<T>, fromEnd: bool, index: int): (p: nat)
    requires Ok(q) && Readable(q, Some(index))
    ensures q.oldest <= p < |q.history| && index <= p
  {
    if fromEnd then |q.history| - 1 else if index < q.oldest then q.oldest else index
  }
}
