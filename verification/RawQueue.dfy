/** RawQueue (aos/linux_code/ipc_lib/queue.h and queue.cc): what each call does while it holds `data_lock_`. */
module RawQueues {
  import opened Basics
  import opened QueueSpec
  import opened QueueRing
  import opened QueuePool

  /** The reference counts in the message headers, which live in shared memory and outlast any one queue. */
  class Headers {
    var refCount: map<nat, int>
  }

  /** kNonBlock, kBlock and kOverride for a write into a full queue. */
  datatype WriteMode = NonBlock | Block | Override

  /** How a call ends: successfully, with false or NULL, by waiting on a condition, or in LOG(FATAL). */
  datatype Outcome = Done | Failed | Blocked | Fatal

  ghost predicate RefsKept(ref: map<nat, int>, ref': map<nat, int>, touched: set<nat>) {
    forall m | m in ref && m !in touched :: m in ref' && ref'[m] == ref[m]
  }

  lemma RefsKeptByUpdate(ref: map<nat, int>, msg: nat, count: int, touched: set<nat>)
    requires msg in touched
    ensures RefsKept(ref, ref[msg := count], touched)
  {
  }

  /** The recycle swap seen from the queue that frees `msg`, across everything the recycle queue does. */
  lemma SwapPool(free: seq<nat>, pool: set<nat>, live: multiset<nat>, msg: nat, taken: nat, other: set<nat>,
                 ref: map<nat, int>, ref1: map<nat, int>, ref2: map<nat, int>)
    requires PoolOk(free, pool, ref, live) && live[msg] == 1 && taken in other && other !! pool && taken in ref1
    requires RefsKept(ref, ref1, other) && RefsKept(ref1, ref2, other - {taken} + {msg})
    ensures msg in pool && PoolOk([taken] + free, pool - {msg} + {taken}, ref2, live - multiset{msg})
    ensures |pool - {msg} + {taken}| == |pool| && RefsKept(ref, ref2, pool + other)
  {
    forall m | m in pool && m != msg
      ensures m in ref2 && ref2[m] == ref[m]
    {
      assert MessageOk(free, ref, live, m);
    }
    assert taken in ref2;
    PoolExchange(free, pool, ref, live, msg, taken, ref2);
  }

  /** All references: one for each ring slot and one for each holder. */
  function LiveOf(q: Queue<nat>, held: multiset<nat>): multiset<nat> {
    (if q.oldest <= |q.history| then multiset(q.history[q.oldest..]) else multiset{}) + held
  }

  lemma LiveDropped(q: Queue<nat>, held: multiset<nat>, msg: nat)
    requires msg in held
    ensures LiveOf(q, held - multiset{msg}) == LiveOf(q, held) - multiset{msg}
  {
  }

  lemma LiveHas(q: Queue<nat>, held: multiset<nat>, msg: nat)
    requires msg in held
    ensures msg in LiveOf(q, held)
  {
  }

  lemma LiveSwapped(q: Queue<nat>, held: multiset<nat>, out: nat, in': nat)
    requires out in held
    ensures LiveOf(q, held - multiset{out} + multiset{in'}) == LiveOf(q, held) - multiset{out} + multiset{in'}
  {
  }

  /** The pool has its size, and its references are those of the ring and those held by users. */
  ghost predicate Accounted(q: Queue<nat>, free: seq<nat>, pool: set<nat>, ref: map<nat, int>, held: multiset<nat>) {
    && Ok(q) && PoolOk(free, pool, ref, LiveOf(q, held))
    && |pool| == q.capacity + EXTRA_MESSAGES
  }

  /** A held reference moves into the ring. */
  lemma PushAccounted(q: Queue<nat>, free: seq<nat>, pool: set<nat>, ref: map<nat, int>, held: multiset<nat>, msg: nat)
    requires Accounted(q, free, pool, ref, held) && !Full(q) && msg in held
    ensures Accounted(Written(q, msg), free, pool, ref, held - multiset{msg})
  {
    hide PoolOk;
    var ring := q.history[q.oldest..];
    assert Written(q, msg).history[q.oldest..] == ring + [msg];
    assert multiset(ring + [msg]) + (held - multiset{msg}) == multiset(ring) + held;
  }

  lemma SwapAccounted(q: Queue<nat>, free: seq<nat>, pool: set<nat>, held: multiset<nat>, msg: nat, taken: nat,
                      other: set<nat>, ref: map<nat, int>, ref1: map<nat, int>, ref2: map<nat, int>)
    requires Accounted(q, free, pool, ref, held) && msg in held && taken in other && other !! pool && taken in ref1
    requires (multiset(q.history[q.oldest..]) + held)[msg] == 1
    requires RefsKept(ref, ref1, other) && RefsKept(ref1, ref2, other - {taken} + {msg})
    ensures Accounted(q, [taken] + free, pool - {msg} + {taken}, ref2, held - multiset{msg})
    ensures RefsKept(ref, ref2, pool + other)
  {
    hide PoolOk, RefsKept;
    var ring := multiset(q.history[q.oldest..]);
    SwapPool(free, pool, ring + held, msg, taken, other, ref, ref1, ref2);
    assert ring + (held - multiset{msg}) == ring + held - multiset{msg};
  }

  lemma SwapDisjoint(pool: set<nat>, other: set<nat>, msg: nat, taken: nat)
    requires pool !! other && msg in pool && taken in other
    ensures (pool - {msg} + {taken}) !! (other - {taken} + {msg})
    ensures (pool - {msg} + {taken}) + (other - {taken} + {msg}) == pool + other
  {
  }

  /** A write into a queue that overrides the oldest message if there is no room. */
  function OverWritten(q: Queue<nat>, msg: nat): Queue<nat> {
    Written(if Full(q) then Dropped(q, 1) else q, msg)
  }

  // ----- what each part of a call does to the queue and its recycle queue -----

  /** Whether a reader waits for the next write, and how often a write has broadcast to such readers. */
  datatype Readers = Readers(waiting: bool, woken: nat)

  /** The recycle queue, if there is one: what it stands for, the references its users hold, its free list and readers. */
  datatype Spare = NoSpare | Spare(q: Queue<nat>, held: multiset<nat>, free: seq<nat>, readers: Readers)

  datatype State = State(q: Queue<nat>, held: multiset<nat>, free: seq<nat>, readers: Readers, spare: Spare)

  /** After a write. */
  function Told(r: Readers): Readers {
    Readers(false, if r.waiting then r.woken + 1 else r.woken)
  }

  /** After a read that waits if it found nothing. */
  function Waits(r: Readers, block: bool): Readers {
    r.(waiting := r.waiting || block)
  }

  /** Whether this is the only reference to `m`. */
  predicate OnlyOne(s: State, m: nat) {
    LiveOf(s.q, s.held)[m] == 1
  }

  function Head(free: seq<nat>): nat {
    if free == [] then 0 else free[0]
  }

  function Tail(free: seq<nat>): seq<nat> {
    if free == [] then [] else free[1..]
  }

  function Got(s: State): State {
    s.(free := Tail(s.free), held := s.held + multiset{Head(s.free)})
  }

  function OldestOf(q: Queue<nat>): nat {
    if q.oldest < |q.history| then q.history[q.oldest] else 0
  }

  function Popped(s: State): State {
    s.(q := Dropped(s.q, 1), held := s.held + multiset{OldestOf(s.q)})
  }

  function Pushed(s: State, m: nat): State {
    s.(q := Written(s.q, m), held := s.held - multiset{m}, readers := Told(s.readers))
  }

  /** A held reference goes, with the message on the free list if it was the last. */
  function Released(s: State, m: nat): State {
    s.(held := s.held - multiset{m}, free := if OnlyOne(s, m) then [m] + s.free else s.free)
  }

  /** A write that drops the oldest message if there is no room, to a queue that does not recycle. */
  function Overridden(s: State, m: nat): State {
    Pushed(if Full(s.q) then Released(Popped(s), OldestOf(s.q)) else s, m)
  }

  /** The recycle queue after one of its free messages has been exchanged for `m` and `m` written to it. */
  function Recycled(sp: Spare, m: nat): Spare
    requires sp.Spare?
  {
    var s := Overridden(State(sp.q, sp.held + multiset{m}, Tail(sp.free), sp.readers, NoSpare), m);
    Spare(s.q, s.held, s.free, s.readers)
  }

  /** A held reference goes; if it was the last, the message is freed or recycled. */
  function DropRef(s: State, m: nat): State {
    if s.spare.Spare? && OnlyOne(s, m)
    then State(s.q, s.held - multiset{m}, [Head(s.spare.free)] + s.free, s.readers, Recycled(s.spare, m))
    else Released(s, m)
  }

  /** And then there is no message left to exchange it for. */
  predicate RunsDry(s: State, m: nat) {
    s.spare.Spare? && OnlyOne(s, m) && s.spare.free == []
  }

  function DroppedOldest(s: State): State {
    DropRef(Popped(s), OldestOf(s.q))
  }

  predicate OldestRunsDry(s: State) {
    RunsDry(Popped(s), OldestOf(s.q))
  }

  function AfterWrite(s: State, m: nat, mode: WriteMode): State {
    if !Full(s.q) then Pushed(s, m)
    else match mode
      case NonBlock => DropRef(s, m)
      case Block => s
      case Override => Pushed(DroppedOldest(s), m)
  }

  predicate WriteDies(s: State, m: nat, mode: WriteMode) {
    Full(s.q) && ((mode == NonBlock && RunsDry(s, m)) || (mode == Override && OldestRunsDry(s)))
  }

  function InRing(q: Queue<nat>): nat {
    if q.oldest <= |q.history| then |q.history| - q.oldest else 0
  }

  /** The loop that pulls all messages out of the ring and keeps only the last. */
  function Drained(s: State): State
    decreases InRing(s.q)
  {
    if InRing(s.q) <= 1 then Popped(s) else DrainedNext(s); Drained(DroppedOldest(s))
  }

  predicate DrainDies(s: State)
    decreases InRing(s.q)
  {
    InRing(s.q) > 1 && (OldestRunsDry(s) || (DrainedNext(s); DrainDies(DroppedOldest(s))))
  }

  lemma DrainedNext(s: State)
    ensures DroppedOldest(s).q == Dropped(s.q, 1)
  {
  }

  lemma DrainStep(s: State)
    ensures Drained(s) == if InRing(s.q) <= 1 then Popped(s) else Drained(DroppedOldest(s))
    ensures DrainDies(s) <==> InRing(s.q) > 1 && (OldestRunsDry(s) || DrainDies(DroppedOldest(s)))
  {
    hide DroppedOldest, OldestRunsDry, Popped;
  }

  function AfterRead(s: State, fromEnd: bool, peek: bool, block: bool): State {
    if Empty(s.q) then s.(readers := Waits(s.readers, block))
    else if peek then s.(held := s.held + multiset{MessageRead(s.q, fromEnd)})
    else if fromEnd then Drained(s)
    else Popped(s)
  }

  predicate ReadDies(s: State, fromEnd: bool, peek: bool) {
    !Empty(s.q) && fromEnd && !peek && DrainDies(s)
  }

  // ----- what that means -----

  /** Recycling changes no holder of the recycle queue and writes exactly the message. */
  lemma RecycledMeans(sp: Spare, m: nat)
    requires sp.Spare? && Ok(sp.q)
    ensures Recycled(sp, m) == Spare(OverWritten(sp.q, m), sp.held, Recycled(sp, m).free, Told(sp.readers))
  {
    var o := OldestOf(sp.q);
    assert sp.held + multiset{m} - multiset{m} == sp.held;
    assert sp.held + multiset{m} + multiset{o} - multiset{o} - multiset{m} == sp.held;
  }

  /** The recycle queue: the same holders, a longer history, a ring that has moved on. */
  ghost predicate SpareLater(sp: Spare, sp': Spare) {
    match sp
    case NoSpare => sp' == NoSpare
    case Spare(q, held, _, _) =>
      && sp'.Spare? && sp'.held == held && q.history <= sp'.q.history && q.oldest <= sp'.q.oldest
      && (Ok(q) ==> Ok(sp'.q))
  }

  lemma DropRefMeans(s: State, m: nat)
    requires s.spare.Spare? ==> Ok(s.spare.q)
    ensures
      var s' := DropRef(s, m);
      && s'.q == s.q && s'.held == s.held - multiset{m} && s'.readers == s.readers
      && SpareLater(s.spare, s'.spare)
  {
    hide Recycled;
    if s.spare.Spare? {
      RecycledMeans(s.spare, m);
    }
  }

  lemma SpareLaterTransitive(a: Spare, b: Spare, c: Spare)
    requires SpareLater(a, b) && SpareLater(b, c)
    ensures SpareLater(a, c)
  {
  }

  /** The loop leaves an empty ring, one more reference to the newest message, and the recycle queue later. */
  lemma {:induction false} DrainedMeans(s: State)
    requires Ok(s.q) && !Empty(s.q) && (s.spare.Spare? ==> Ok(s.spare.q))
    ensures Drained(s).q == Dropped(s.q, InRing(s.q)) && SpareLater(s.spare, Drained(s).spare)
    ensures Drained(s).held == s.held + multiset{s.q.history[|s.q.history| - 1]} && Drained(s).readers == s.readers
    decreases InRing(s.q)
  {
    hide DropRef;
    if InRing(s.q) > 1 {
      var o := OldestOf(s.q);
      DropRefMeans(Popped(s), o);
      DrainedMeans(DroppedOldest(s));
      SpareLaterTransitive(s.spare, DroppedOldest(s).spare, Drained(s).spare);
      assert s.held + multiset{o} - multiset{o} == s.held;
    }
  }

  /**
   * A write with room appends to the history; without, it does nothing but drop the caller's reference, does nothing
   * at all, or drops exactly the oldest message first.
   */
  lemma AfterWriteMeans(s: State, m: nat, mode: WriteMode)
    requires Ok(s.q) && (s.spare.Spare? ==> Ok(s.spare.q))
    ensures
      var s' := AfterWrite(s, m, mode);
      && SpareLater(s.spare, s'.spare)
      && s'.q == (if !Full(s.q) then Written(s.q, m) else if mode == Override then Written(Dropped(s.q, 1), m) else s.q)
      && s'.held == (if Full(s.q) && mode == Block then s.held else s.held - multiset{m})
      && s'.readers == (if !Full(s.q) || mode == Override then Told(s.readers) else s.readers)
  {
    hide DropRef;
    var o := OldestOf(s.q);
    DropRefMeans(s, m);
    DropRefMeans(Popped(s), o);
    assert s.held + multiset{o} - multiset{o} == s.held;
  }

  /** A read gives one reference to the message, and unless it peeks that message and all before it leave the ring. */
  lemma AfterReadMeans(s: State, fromEnd: bool, peek: bool, block: bool)
    requires Ok(s.q) && !Empty(s.q) && (s.spare.Spare? ==> Ok(s.spare.q))
    ensures
      var s' := AfterRead(s, fromEnd, peek, block);
      && s'.readers == s.readers && SpareLater(s.spare, s'.spare) && s'.held == s.held + multiset{MessageRead(s.q, fromEnd)}
      && s'.q == if peek then s.q else Dropped(s.q, if fromEnd then InRing(s.q) else 1)
  {
    hide Drained;
    DrainedMeans(s);
  }

  /** On a queue that does not recycle. */
  lemma OverrideIs(s: State, m: nat)
    requires s.spare == NoSpare
    ensures AfterWrite(s, m, Override) == Overridden(s, m) && !WriteDies(s, m, Override)
  {
  }

  /** Fewer than EXTRA_MESSAGES messages of the recycle queue are held by its users. */
  ghost predicate Few(sp: Spare) {
    sp.Spare? ==> |Messages(sp.held)| < EXTRA_MESSAGES
  }

  function Messages(held: multiset<nat>): set<nat> {
    set m | m in held
  }

  lemma FewKept(sp: Spare, sp': Spare)
    requires SpareLater(sp, sp') && Few(sp)
    ensures Few(sp')
  {
  }

  /** The loop that allocates the messages of a pool and chains them, the last one first. */
  method BuildPool(headers: Headers, base: nat, n: nat) returns (chain: seq<nat>, ghost all: set<nat>)
    modifies headers
    ensures PoolOk(chain, all, headers.refCount, multiset{}) && |all| == n && Elements(chain) == all
    ensures forall m :: m in all <==> base <= m < base + n
    ensures RefsKept(old(headers.refCount), headers.refCount, all)
  {
    chain, all := [], {};
    for i := 0 to n
      invariant Distinct(chain) && Elements(chain) == all && |all| == i
      invariant forall m :: m in all <==> base <= m < base + i
      invariant forall m | m in chain :: m in all && m in headers.refCount
      invariant RefsKept(old(headers.refCount), headers.refCount, all)
    {
      // the count of a new message is whatever was in memory
      headers.refCount := if base + i in headers.refCount then headers.refCount else headers.refCount[base + i := 0];
      chain := [base + i] + chain;
      all := all + {base + i};
    }
  }

  class RawQueue {
    const capacity: nat
    const data: array<nat>
    const hdr: Headers
    const recycle: RawQueue?
    var dataStart: int
    var dataEnd: int
    var messages: int
    var free: seq<nat>
    var readableWaiting: bool
    var writableStart: bool
    /** What the queue stands for, the messages it owns, and the references held by its users. */
    ghost var q: Queue<nat>
    ghost var pool: set<nat>
    ghost var held: multiset<nat>
    /** How often `readable_` has been broadcast to. */
    ghost var woken: nat

    /** This queue by itself: the ring is the end of the history, and the pool accounts for every reference. */
    ghost predicate Self()
      reads this, data, hdr
    {
      SelfWith(hdr.refCount)
    }

    /** The same for given reference counts. */
    ghost predicate SelfWith(ref: map<nat, int>)
      reads this, data
    {
      && Ok(q) && data.Length == capacity + 1 && q.capacity == capacity
      && RingOk(data[..], dataStart, dataEnd, messages, q)
      && Accounted(q, free, pool, ref, held)
    }

    ghost function Companion(): set<object> {
      if recycle == null then {} else {recycle, recycle.data}
    }

    /** The recycle queue, if there is one, is another queue with its own pool and no recycle queue itself. */
    ghost predicate Valid()
      reads this, data, hdr, Companion()
    {
      && Self()
      && (recycle != null ==>
            && recycle.recycle == null && recycle != this && recycle.data != data && recycle.hdr == hdr
            && recycle.Self() && pool !! recycle.pool)
    }

    /** All messages of this queue and its recycle queue. */
    ghost function Pools(): set<nat>
      reads this, recycle
    {
      pool + if recycle == null then {} else recycle.pool
    }

    /** A queue with an empty ring and every message of its pool on the free list. */
    constructor (queueLength: nat, headers: Headers, base: nat, recycleQueue: RawQueue?)
      requires 1 <= queueLength
      modifies headers
      ensures Self() && hdr == headers && capacity == queueLength && recycle == recycleQueue && fresh(data)
      ensures q == Queue([], 0, queueLength) && held == multiset{} && !readableWaiting && woken == 0
      ensures forall m :: m in pool <==> base <= m < base + queueLength + EXTRA_MESSAGES
      ensures Elements(free) == pool && RefsKept(old(headers.refCount), headers.refCount, pool)
    {
      hide PoolOk, RefsKept, Distinct;
      capacity, hdr, recycle := queueLength, headers, recycleQueue;
      data := new nat[queueLength + 1];
      dataStart, dataEnd, messages := 0, 0, 0;
      held, q := multiset{}, Queue([], 0, queueLength);
      readableWaiting, writableStart, woken := false, false, 0;
      var chain, all := BuildPool(headers, base, queueLength + EXTRA_MESSAGES);
      free, pool := chain, all;
      new;
      assert multiset(q.history[q.oldest..]) + held == multiset{};
    }

    predicate IsWritable() reads this, data { IndexAdd1(dataEnd, data.Length) != dataStart }

    /** What the code can tell from its fields. */
    lemma Facts()
      requires Valid()
      ensures Ok(q) && recycle != this && 0 <= dataStart < data.Length && 0 <= dataEnd < data.Length
      ensures recycle != null ==> recycle.data != data
      ensures IndexAdd1(dataEnd, data.Length) == dataStart <==> Full(q)
      ensures dataStart == dataEnd <==> Empty(q)
    {
      hide PoolOk;
      RingTests(data[..], dataStart, dataEnd, messages, q);
    }

    /** GetMessage: pops the free list; an empty one is fatal. */
    method GetMessage() returns (ok: bool, msg: nat)
      requires Valid()
      modifies this`free, this`held, hdr
      ensures ok <==> old(free) != []
      ensures Valid()
      ensures ok ==> msg == old(free)[0] && free == old(free)[1..] && held == old(held) + multiset{msg}
      ensures ok ==> msg in pool && Live()[msg] == 1 && msg in hdr.refCount
      ensures !ok ==> free == old(free) && held == old(held)
      ensures RefsKept(old(hdr.refCount), hdr.refCount, pool)
    {
      hide RingOk, PoolOk, RefsKept;
      ok, msg := free != [], 0;
      if ok {
        ghost var live := Live();
        PoolGet(free, pool, hdr.refCount, live);
        msg := free[0];
        if recycle != null {
          OtherPool(msg, 1);
        }
        free := free[1..];
        hdr.refCount := hdr.refCount[msg := 1];
        held := held + multiset{msg};
        assert Live() == live + multiset{msg};
        RefsKeptByUpdate(old(hdr.refCount), msg, 1, pool);
      } else {
        RefsKeptSelf(hdr.refCount, pool);
      }
    }

    /** While fewer than EXTRA_MESSAGES messages are held outside the ring, GetMessage succeeds. */
    lemma GetMessageSucceeds(outside: set<nat>)
      requires Valid() && |outside| < EXTRA_MESSAGES
      requires forall m | m in held && m !in q.history[q.oldest..] :: m in outside
      ensures free != []
    {
      hide RingOk, PoolOk;
      PoolNotExhausted(free, pool, hdr.refCount, q.history[q.oldest..], held, capacity, outside);
    }

    /** The slot store of DoWriteMessage: the held message moves into the ring. */
    method PushSlot(msg: nat)
      requires Valid() && !Full(q) && msg in held
      modifies this`dataEnd, this`messages, this`q, this`held, data
      ensures Valid() && q == Written(old(q), msg) && held == old(held) - multiset{msg}
    {
      hide RingOk, PoolOk, Accounted;
      RingPush(data[..], dataStart, dataEnd, messages, q, msg);
      PushAccounted(q, free, pool, hdr.refCount, held, msg);
      data[dataEnd] := msg;
      assert data[..] == old(data[..])[dataEnd := msg];
      messages := messages + 1;
      dataEnd := IndexAdd1(dataEnd, data.Length);
      q := Written(q, msg);
      held := held - multiset{msg};
    }

    /** `data_start_ = index_add1(data_start_)`: the oldest message leaves the ring, its reference is now held. */
    method PopSlot() returns (msg: nat)
      requires Valid() && !Empty(q)
      modifies this`dataStart, this`q, this`held
      ensures Valid() && msg == old(q).history[old(q).oldest]
      ensures q == Dropped(old(q), 1) && held == old(held) + multiset{msg} && Live() == old(Live())
    {
      hide PoolOk;
      RingDrop(data[..], dataStart, dataEnd, messages, q);
      msg := data[dataStart];
      dataStart := IndexAdd1(dataStart, data.Length);
      assert q.history[q.oldest..] == [msg] + q.history[q.oldest + 1..];
      q := Dropped(q, 1);
      held := held + multiset{msg};
      assert multiset(q.history[q.oldest..]) + held == old(multiset(q.history[q.oldest..]) + held);
    }

    /** IncrementMessageReferenceCount for a message in the ring: the reader gets a reference of its own. */
    method Retain(msg: nat)
      requires Valid() && msg in q.history[q.oldest..]
      modifies this`held, hdr
      ensures Valid() && held == old(held) + multiset{msg}
      ensures RefsKept(old(hdr.refCount), hdr.refCount, pool)
    {
      hide RingOk, PoolOk, RefsKept;
      ghost var live := Live();
      assert msg in live;
      PoolIncrement(free, pool, hdr.refCount, live, msg);
      if recycle != null {
        OtherPool(msg, hdr.refCount[msg] + 1);
      }
      hdr.refCount := hdr.refCount[msg := hdr.refCount[msg] + 1];
      held := held + multiset{msg};
      assert Live() == live + multiset{msg};
      RefsKeptByUpdate(old(hdr.refCount), msg, hdr.refCount[msg], pool);
    }

    /** Storing the count of a message of this pool does not affect the recycle queue. */
    lemma OtherPool(msg: nat, count: int)
      requires Valid() && recycle != null && msg in pool
      ensures PoolOk(recycle.free, recycle.pool, hdr.refCount[msg := count], recycle.Live())
    {
      hide RingOk;
      forall m | m in recycle.pool
        ensures m in hdr.refCount
      {
        assert MessageOk(recycle.free, hdr.refCount, recycle.Live(), m);
      }
      PoolFrame(recycle.free, recycle.pool, hdr.refCount, hdr.refCount[msg := count], recycle.Live());
    }

    ghost function Live(): multiset<nat>
      reads this
    {
      LiveOf(q, held)
    }

    ghost function Now(): State
      reads this, recycle
    {
      State(q, held, free, Readers(readableWaiting, woken),
            if recycle == null then NoSpare
            else Spare(recycle.q, recycle.held, recycle.free, Readers(recycle.readableWaiting, recycle.woken)))
    }

    /** While few messages of the recycle queue are held, it has a free one. */
    lemma NotDry()
      requires Valid() && Few(Now().spare)
      ensures recycle != null ==> recycle.free != []
    {
      hide RingOk, PoolOk;
      if recycle != null {
        assert Now().spare.held == recycle.held;
        recycle.GetMessageSucceeds(Messages(recycle.held));
      }
    }

    lemma SpareOk()
      requires Valid()
      ensures Ok(q) && (recycle != null ==> Ok(recycle.q))
    {
    }

    ghost function Rank(): nat {
      if recycle == null then 0 else 1
    }

    /** DecrementMessageReferenceCount on a reference that is not the last. */
    method DropReference(msg: nat)
      requires Valid() && msg in held && Live()[msg] > 1
      modifies this`held, hdr
      ensures Valid() && held == old(held) - multiset{msg} && Live() == old(Live()) - multiset{msg}
      ensures RefsKept(old(hdr.refCount), hdr.refCount, pool)
    {
      hide RingOk, PoolOk, RefsKept, LiveOf;
      LiveHas(q, held, msg);
      LiveDropped(q, held, msg);
      ghost var live := Live();
      PoolDecrement(free, pool, hdr.refCount, live, msg);
      if recycle != null {
        OtherPool(msg, hdr.refCount[msg] - 1);
      }
      hdr.refCount := hdr.refCount[msg := hdr.refCount[msg] - 1];
      held := held - multiset{msg};
      RefsKeptByUpdate(old(hdr.refCount), msg, hdr.refCount[msg], pool);
    }

    /** DecrementMessageReferenceCount and DoFreeMessage on the last reference, without a recycle queue. */
    method PushFree(msg: nat)
      requires Valid() && recycle == null && msg in held && Live()[msg] == 1
      modifies this`free, this`held, hdr
      ensures Valid() && held == old(held) - multiset{msg} && free == [msg] + old(free)
      ensures Live() == old(Live()) - multiset{msg}
      ensures RefsKept(old(hdr.refCount), hdr.refCount, pool)
    {
      hide RingOk, PoolOk, RefsKept;
      ghost var live := Live();
      PoolRelease(free, pool, hdr.refCount, live, msg);
      hdr.refCount := hdr.refCount[msg := hdr.refCount[msg] - 1];
      free := [msg] + free;
      held := held - multiset{msg};
      assert Live() == live - multiset{msg};
      RefsKeptByUpdate(old(hdr.refCount), msg, hdr.refCount[msg], pool);
    }

    /** The freed message, with one reference again, changes pools with the message taken from the recycle pool. */
    method HandOver(msg: nat, taken: nat)
      requires recycle != null && recycle != this && recycle.Self() && recycle.hdr == hdr
      requires msg !in recycle.pool && taken in recycle.held && recycle.Live()[taken] == 1
      requires msg in hdr.refCount && hdr.refCount[msg] == 1
      modifies hdr, recycle`pool, recycle`held
      ensures recycle.Self() && hdr.refCount == old(hdr.refCount)
      ensures taken in old(recycle.pool) && recycle.pool == old(recycle.pool) - {taken} + {msg}
      ensures recycle.held == old(recycle.held) - multiset{taken} + multiset{msg}
    {
      hide RingOk, PoolOk, LiveOf;
      ghost var live := recycle.Live();
      LiveSwapped(recycle.q, recycle.held, taken, msg);
      hdr.refCount := hdr.refCount[msg := hdr.refCount[msg] - 1];
      hdr.refCount := hdr.refCount[msg := hdr.refCount[msg] + 1];
      assert hdr.refCount == old(hdr.refCount);
      OtherRefs(recycle, hdr.refCount);
      PoolAdopt(recycle.free, recycle.pool, hdr.refCount, live, msg, taken, hdr.refCount);
      recycle.pool := recycle.pool - {taken} + {msg};
      recycle.held := recycle.held - multiset{taken} + multiset{msg};
    }

    lemma OtherRefs(other: RawQueue, ref: map<nat, int>)
      requires other.Self() && ref == other.hdr.refCount
      ensures forall m | m in other.pool :: m in ref
    {
      hide RingOk;
      forall m | m in other.pool
        ensures m in ref
      {
        assert MessageOk(other.free, ref, other.Live(), m);
      }
    }

    /**
     * DoFreeMessage with a recycle queue: a message from the recycle pool takes the place of the freed one,
     * which is written to the recycle queue. Fatal if the recycle pool is empty.
     */
    method Recycle(msg: nat) returns (ok: bool)
      requires Valid() && recycle != null && msg in held && Live()[msg] == 1
      modifies this`free, this`held, this`pool, hdr, Companion()
      ensures ok <==> old(recycle.free) != []
      ensures ok ==> Valid() && held == old(held) - multiset{msg} && Pools() == old(Pools())
      ensures ok ==> Live() == old(Live()) - multiset{msg}
      ensures ok ==> free == [old(recycle.free)[0]] + old(free) && pool == old(pool) - {msg} + {old(recycle.free)[0]}
      ensures ok ==> Now() == DropRef(old(Now()), msg)
      ensures RefsKept(old(hdr.refCount), hdr.refCount, old(Pools()))
      decreases Rank(), 0
    {
      hide Self, SelfWith, Valid, RefsKept, LiveOf, Overridden;
      LiveDropped(q, held, msg);
      ghost var ref0, other := hdr.refCount, recycle.pool;
      RecycleFacts(msg);
      var taken;
      ok, taken := TakeSpare(msg);
      if ok {
        ghost var ref1 := hdr.refCount;
        assert recycle.Pools() == other - {taken} + {msg};
        OverrideIs(recycle.Now(), msg);
        var r, signal := recycle.DoWriteMessage(msg, Override);
        recycle.ValidHasSelf();
        FinishSwap(msg, taken, ref0, ref1, other);
      } else {
        RefsKeptMore(ref0, hdr.refCount, other, old(Pools()));
      }
    }

    lemma ValidHasSelf()
      requires Valid()
      ensures Self()
    {
    }

    lemma RecycleFacts(msg: nat)
      requires Valid() && recycle != null && msg in held && Live()[msg] == 1
      ensures recycle != this && recycle.data != data && recycle.hdr == hdr && recycle.recycle == null
      ensures SelfWith(hdr.refCount) && recycle.pool !! pool && msg in pool
    {
      LastReference(msg);
    }

    /** Takes a message from the recycle pool and moves the freed message into that pool in its place. */
    method TakeSpare(msg: nat) returns (ok: bool, taken: nat)
      requires Valid() && recycle != null && msg in held && Live()[msg] == 1
      modifies hdr, recycle`free, recycle`held, recycle`pool
      ensures ok <==> old(recycle.free) != []
      ensures ok ==> taken == old(recycle.free)[0] && taken in old(recycle.pool) && taken in hdr.refCount
      ensures ok ==> recycle.Valid() && recycle.q == old(recycle.q) && recycle.pool == old(recycle.pool) - {taken} + {msg}
      ensures ok ==> recycle.held == old(recycle.held) + multiset{msg} && recycle.free == Tail(old(recycle.free))
      ensures RefsKept(old(hdr.refCount), hdr.refCount, old(recycle.pool))
    {
      hide RingOk, PoolOk, RefsKept;
      LastReference(msg);
      ok, taken := recycle.GetMessage();
      if ok {
        RefStillOne(old(hdr.refCount), hdr.refCount, msg, recycle.pool);
        HandOver(msg, taken);
      }
    }

    /** The message from the recycle pool goes on the free list. */
    method FinishSwap(msg: nat, taken: nat, ghost ref: map<nat, int>, ghost ref1: map<nat, int>, ghost other: set<nat>)
      requires SelfWith(ref) && msg in held && Live()[msg] == 1 && taken in other && other !! pool && taken in ref1
      requires RefsKept(ref, ref1, other) && RefsKept(ref1, hdr.refCount, other - {taken} + {msg})
      requires recycle != null && recycle.recycle == null && recycle != this && recycle.data != data && recycle.hdr == hdr
      requires recycle.Self() && recycle.pool == other - {taken} + {msg} && msg in pool
      modifies this`free, this`held, this`pool
      ensures Valid() && free == [taken] + old(free) && held == old(held) - multiset{msg}
      ensures pool == old(pool) - {msg} + {taken} && RefsKept(ref, hdr.refCount, old(pool) + other)
    {
      hide RingOk, PoolOk, RefsKept, Accounted;
      SwapAccounted(q, free, pool, held, msg, taken, other, ref, ref1, hdr.refCount);
      SwapDisjoint(pool, other, msg, taken);
      free := [taken] + free;
      held := held - multiset{msg};
      pool := pool - {msg} + {taken};
    }

    /** DecrementMessageReferenceCount; false if it ends in LOG(FATAL). */
    method DecrementReferenceCount(msg: nat) returns (ok: bool)
      requires Valid() && msg in held
      modifies this`free, this`held, this`pool, hdr, Companion()
      ensures ok <==> !RunsDry(old(Now()), msg)
      ensures ok ==> Valid() && Pools() == old(Pools()) && Now() == DropRef(old(Now()), msg)
      ensures ok ==> Live() == old(Live()) - multiset{msg}
      ensures recycle == null ==> pool == old(pool)
      ensures RefsKept(old(hdr.refCount), hdr.refCount, old(Pools()))
      decreases Rank(), 1
    {
      hide Self, Valid, RefsKept, LiveOf, Recycled;
      ok := true;
      Facts();
      var last := IsLast(msg);
      if !last {
        DropReference(msg);
        RefsKeptMore(old(hdr.refCount), hdr.refCount, pool, old(Pools()));
      } else if recycle == null {
        PushFree(msg);
        RefsKeptMore(old(hdr.refCount), hdr.refCount, pool, old(Pools()));
      } else {
        ok := Recycle(msg);
      }
    }

    /** Whether the decremented count would be 0. */
    method IsLast(msg: nat) returns (last: bool)
      requires Valid() && msg in held
      ensures last <==> Live()[msg] == 1
      ensures !last ==> Live()[msg] > 1
    {
      hide RingOk;
      assert msg in Live();
      assert MessageOk(free, hdr.refCount, Live(), msg);
      last := hdr.refCount[msg] - 1 == 0;
    }

    lemma LastReference(msg: nat)
      requires Self() && msg in held && Live()[msg] == 1
      ensures msg in pool && msg in hdr.refCount && hdr.refCount[msg] == 1
    {
      hide RingOk;
      assert msg in Live();
      assert MessageOk(free, hdr.refCount, Live(), msg);
    }

    /** DoWriteMessage, from taking the lock to releasing it or to waiting. `signal`: broadcast `readable_`. */
    method DoWriteMessage(msg: nat, mode: WriteMode) returns (r: Outcome, signal: bool)
      requires Valid() && msg in held
      modifies this, data, hdr, Companion()
      ensures r == Fatal <==> WriteDies(old(Now()), msg, mode)
      ensures Few(old(Now()).spare) ==> r != Fatal
      ensures r != Fatal ==> Valid() && Pools() == old(Pools()) && Now() == AfterWrite(old(Now()), msg, mode)
      ensures r != Fatal ==>
        r == if Full(old(q)) && mode == NonBlock then Failed else if Full(old(q)) && mode == Block then Blocked else Done
      ensures recycle == null ==> pool == old(pool)
      ensures r != Fatal ==> readableWaiting == (if r == Done then false else old(readableWaiting))
      ensures signal == (r == Done && old(readableWaiting))
      ensures RefsKept(old(hdr.refCount), hdr.refCount, old(Pools()))
      decreases Rank(), 4
    {
      hide Self, Valid, RefsKept, LiveOf, DropRef, DroppedOldest, OldestRunsDry, RunsDry, Few, Pushed;
      Facts();
      r, signal := Done, false;
      RefsKeptSelf(hdr.refCount, Pools());
      if IndexAdd1(dataEnd, data.Length) == dataStart {
        r := MakeRoom(msg, mode);
        if r != Done {
          return;
        }
      }
      signal := Append(msg);
    }

    /** The part of DoWriteMessage for a ring with room. */
    method Append(msg: nat) returns (signal: bool)
      requires Valid() && !Full(q) && msg in held
      modifies this`dataEnd, this`messages, this`q, this`held, this`readableWaiting, this`woken, data
      ensures Valid() && Now() == Pushed(old(Now()), msg)
      ensures signal == old(readableWaiting) && !readableWaiting
    {
      hide Self, Valid, LiveOf;
      Facts();
      PushSlot(msg);
      signal := TakeSignal();
    }

    /** The part of DoWriteMessage for a full ring. */
    method MakeRoom(msg: nat, mode: WriteMode) returns (r: Outcome)
      requires Valid() && msg in held && Full(q)
      modifies this`dataStart, this`q, this`free, this`held, this`pool, hdr, Companion()
      ensures r == Fatal <==> WriteDies(old(Now()), msg, mode)
      ensures Few(old(Now()).spare) ==> r != Fatal
      ensures r != Fatal ==> Valid() && Pools() == old(Pools())
      ensures r != Fatal ==> r == match mode { case NonBlock => Failed case Block => Blocked case Override => Done }
      ensures r != Fatal ==> Now() == match mode {
        case NonBlock => DropRef(old(Now()), msg)
        case Block => old(Now())
        case Override => DroppedOldest(old(Now()))
      }
      ensures r == Done ==> q == Dropped(old(q), 1) && held == old(held)
      ensures recycle == null ==> pool == old(pool)
      ensures RefsKept(old(hdr.refCount), hdr.refCount, old(Pools()))
      decreases Rank(), 3
    {
      hide Self, Valid, RefsKept, LiveOf, DropRef, DroppedOldest;
      if Few(Now().spare) {
        NotDry();
      }
      RefsKeptSelf(hdr.refCount, Pools());
      if mode == NonBlock {
        var ok := DecrementReferenceCount(msg);
        r := if ok then Failed else Fatal;
      } else if mode == Block {
        r := Blocked;
      } else {
        var ok := OverrideOldest();
        r := if ok then Done else Fatal;
      }
    }

    /** kOverride on a full ring: the oldest message leaves the ring and its reference is dropped. */
    method OverrideOldest() returns (ok: bool)
      requires Valid() && Full(q)
      modifies this`dataStart, this`q, this`free, this`held, this`pool, hdr, Companion()
      ensures ok <==> !OldestRunsDry(old(Now()))
      ensures ok ==> Valid() && Pools() == old(Pools()) && Now() == DroppedOldest(old(Now()))
      ensures ok ==> q == Dropped(old(q), 1) && held == old(held)
      ensures recycle == null ==> pool == old(pool)
      ensures RefsKept(old(hdr.refCount), hdr.refCount, old(Pools()))
      decreases Rank(), 2
    {
      hide Self, Valid, RefsKept, LiveOf, DropRef, RunsDry;
      Facts();
      SpareOk();
      var oldest := PopSlot();
      DropRefMeans(Now(), oldest);
      ok := DecrementReferenceCount(oldest);
    }

    /** Reads and clears `readable_waiting_`; the broadcast follows if it was set. */
    method TakeSignal() returns (signal: bool)
      requires Valid()
      modifies this`readableWaiting, this`woken
      ensures Valid() && signal == old(readableWaiting)
      ensures Readers(readableWaiting, woken) == Told(old(Readers(readableWaiting, woken)))
    {
      hide RingOk, PoolOk;
      signal := readableWaiting;
      readableWaiting := false;
      woken := if signal then woken + 1 else woken;
    }

    /** FreeMessage; a NULL message is fine. */
    method FreeMessage(msg: Option<nat>) returns (ok: bool)
      requires Valid() && (msg.Some? ==> msg.value in held)
      modifies this`free, this`held, this`pool, hdr, Companion()
      ensures ok <==> msg.None? || !RunsDry(old(Now()), msg.value)
      ensures Few(old(Now()).spare) ==> ok
      ensures ok ==> Valid() && Pools() == old(Pools())
      ensures ok ==> Now() == if msg.Some? then DropRef(old(Now()), msg.value) else old(Now())
    {
      hide Self, Valid, RefsKept, DropRef;
      if Few(Now().spare) {
        NotDry();
      }
      ok := true;
      if msg.Some? {
        ok := DecrementReferenceCount(msg.value);
      }
    }

    /** ReadCommonStart: finds out whether there is something to read, and whether the queue is full before. */
    method ReadCommonStart(block: bool, index: Option<int>) returns (r: Outcome)
      requires Valid()
      modifies this`readableWaiting, this`writableStart
      ensures Valid()
      ensures r == if Readable(q, index) then Done else if block then Blocked else Failed
      ensures readableWaiting == (r == Blocked || old(readableWaiting))
      ensures r == Done ==> writableStart == !Full(q)
    {
      hide PoolOk;
      Facts();
      if dataStart == dataEnd || (index.Some? && messages <= index.value) {
        if !block {
          return Failed;
        }
        readableWaiting := true;
        return Blocked;
      }
      writableStart := IsWritable();
      r := Done;
    }

    /** ReadCommonEnd: whether to broadcast `writable_`. */
    method ReadCommonEnd() returns (signal: bool)
      requires Valid()
      ensures Valid() && (signal <==> !Full(q) && !writableStart)
    {
      Facts();
      signal := IsWritable() && !writableStart;
    }

    /**
     * DoReadMessage, from taking the lock to releasing it or to waiting. The reader gets a reference to the
     * newest message (`fromEnd`) or the oldest one. Unless it peeks, the message and everything before it
     * leave the ring. `signal`: broadcast `writable_`.
     */
    method DoReadMessage(fromEnd: bool, peek: bool, block: bool) returns (r: Outcome, msg: nat, signal: bool)
      requires Valid()
      modifies this, hdr, Companion()
      ensures r == Fatal <==> ReadDies(old(Now()), fromEnd, peek)
      ensures Few(old(Now()).spare) ==> r != Fatal
      ensures r != Fatal ==> r == if !Empty(old(q)) then Done else if block then Blocked else Failed
      ensures r != Fatal ==> Valid() && Pools() == old(Pools()) && Now() == AfterRead(old(Now()), fromEnd, peek, block)
      ensures r == Done ==> msg == MessageRead(old(q), fromEnd) && signal == (Full(old(q)) && !Full(q))
      ensures r != Fatal ==> readableWaiting == (r == Blocked || old(readableWaiting))
      ensures Empty(old(q)) ==> !signal
    {
      hide Self, Valid, RefsKept, LiveOf, MessageRead, Drained, DrainDies, DropRef;
      msg, signal := 0, false;
      Facts();
      r := ReadCommonStart(block, None);
      if r != Done {
        return;
      }
      var ok;
      ok, msg := TakeMessage(fromEnd, peek);
      if !ok {
        r := Fatal;
        return;
      }
      signal := ReadCommonEnd();
    }

    /** The part of DoReadMessage between ReadCommonStart and ReadCommonEnd. */
    method TakeMessage(fromEnd: bool, peek: bool) returns (ok: bool, msg: nat)
      requires Valid() && !Empty(q)
      modifies this`dataStart, this`q, this`free, this`held, this`pool, hdr, Companion()
      ensures ok <==> !ReadDies(old(Now()), fromEnd, peek)
      ensures Few(old(Now()).spare) ==> ok
      ensures ok ==> Valid() && Pools() == old(Pools()) && msg == MessageRead(old(q), fromEnd)
      ensures ok ==> Now() == AfterRead(old(Now()), fromEnd, peek, false)
    {
      hide Self, Valid, RefsKept, LiveOf, Drained, DrainDies, DropRef;
      ok := true;
      Facts();
      if peek {
        msg := PeekMessage(fromEnd);
      } else if fromEnd {
        ok, msg := DrainRing();
      } else {
        msg := PopSlot();
      }
    }

    method PeekMessage(fromEnd: bool) returns (msg: nat)
      requires Valid() && !Empty(q)
      modifies this`held, hdr
      ensures Valid() && msg == q.history[if fromEnd then |q.history| - 1 else q.oldest]
      ensures held == old(held) + multiset{msg}
    {
      hide PoolOk;
      RingTests(data[..], dataStart, dataEnd, messages, q);
      RingLast(data[..], dataStart, dataEnd, messages, q);
      RingDrop(data[..], dataStart, dataEnd, messages, q);
      msg := if fromEnd then data[LastIndex(dataEnd, data.Length)] else data[dataStart];
      ghost var k := if fromEnd then |q.history| - 1 else q.oldest;
      assert q.history[q.oldest..][k - q.oldest] == msg;
      Retain(msg);
    }

    /** The loop of kFromEnd: pulls every message out of the ring and keeps only the last one. */
    method DrainRing() returns (ok: bool, msg: nat)
      requires Valid() && !Empty(q)
      modifies this`dataStart, this`q, this`free, this`held, this`pool, hdr, Companion()
      ensures ok <==> !DrainDies(old(Now()))
      ensures Few(old(Now()).spare) ==> ok
      ensures ok ==> Valid() && Pools() == old(Pools()) && Now() == Drained(old(Now()))
      ensures ok ==> msg == old(q).history[|old(q).history| - 1]
    {
      hide Self, Valid, RefsKept, LiveOf, Few, Drained, DrainDies, DroppedOldest, OldestRunsDry;
      ok, msg := true, 0;
      ghost var history := q.history;
      Facts();
      var last := false;
      while !last
        invariant ok && Valid() && Pools() == old(Pools()) && q.history == history
        invariant last ==> Now() == Drained(old(Now())) && !DrainDies(old(Now())) && msg == history[|history| - 1]
        invariant !last ==> Ok(q) && !Empty(q) && (DrainDies(Now()) <==> DrainDies(old(Now())))
        invariant !last ==> Drained(Now()) == Drained(old(Now())) && (Few(old(Now()).spare) ==> Few(Now().spare))
        decreases InRing(q), !last
      {
        DrainStep(Now());
        last, ok, msg := DrainTurn();
        if !ok {
          return;
        }
      }
    }

    /** One turn of that loop. */
    method DrainTurn() returns (last: bool, ok: bool, msg: nat)
      requires Valid() && !Empty(q)
      modifies this`dataStart, this`q, this`free, this`held, this`pool, hdr, Companion()
      ensures last <==> InRing(old(q)) == 1
      ensures ok <==> last || !OldestRunsDry(old(Now()))
      ensures Few(old(Now()).spare) ==> ok && Few(Now().spare)
      ensures ok ==> Valid() && Pools() == old(Pools()) && msg == OldestOf(old(q)) && Ok(q) && q == Dropped(old(q), 1)
      ensures ok ==> Now() == if last then Popped(old(Now())) else DroppedOldest(old(Now()))
    {
      hide Self, Valid, RefsKept, LiveOf, DropRef, Recycled, Few;
      Facts();
      SpareOk();
      msg := PopSlot();
      Facts();
      ok, last := true, dataStart == dataEnd;
      if !last {
        if Few(Now().spare) {
          NotDry();
        }
        DropRefMeans(Now(), msg);
        ok := DecrementReferenceCount(msg);
        if Few(old(Now()).spare) {
          FewKept(old(Now()).spare, Now().spare);
        }
      }
    }

    /**
     * DoReadMessageIndex, from taking the lock to releasing it or to waiting. Reads history position
     * max(index, oldest in the ring), or the newest message, and moves the index past it unless it peeks.
     */
    method DoReadMessageIndex(fromEnd: bool, peek: bool, block: bool, index: int)
      returns (r: Outcome, msg: nat, index': int, signal: bool)
      requires Valid() && !(fromEnd && peek)
      modifies this`readableWaiting, this`writableStart, this`held, hdr
      ensures Valid() && q == old(q) && !signal
      ensures r == if Readable(q, Some(index)) then Done else if block then Blocked else Failed
      ensures r != Done ==> index' == index && Now() == old(Now()).(readers := Waits(old(Now()).readers, block))
      ensures r == Done ==> IndexedRead(q, fromEnd, peek, index, msg, index')
      ensures r == Done ==> Now() == old(Now()).(held := old(held) + multiset{msg})
      ensures readableWaiting == (r == Blocked || old(readableWaiting))
    {
      hide Self, Valid, RefsKept;
      Facts();
      msg, index', signal := 0, index, false;
      r := ReadCommonStart(block, Some(index));
      if r != Done {
        return;
      }
      msg, index' := IndexedSlot(fromEnd, peek, index);
      Retain(msg);
      signal := ReadCommonEnd();
    }

    method IndexedSlot(fromEnd: bool, peek: bool, index: int) returns (msg: nat, index': int)
      requires Valid() && Readable(q, Some(index))
      ensures Valid() && IndexedRead(q, fromEnd, peek, index, msg, index') && msg in q.history[q.oldest..]
    {
      hide PoolOk;
      RingTests(data[..], dataStart, dataEnd, messages, q);
      RingLast(data[..], dataStart, dataEnd, messages, q);
      RingIndexed(data[..], dataStart, dataEnd, messages, q, index);
      if fromEnd {
        msg, index' := data[LastIndex(dataEnd, data.Length)], messages;
        assert msg == q.history[q.oldest..][|q.history| - 1 - q.oldest];
      } else {
        var unread, current := messages - index, Current(dataStart, dataEnd, data.Length);
        var myStart;
        if unread > current {
          index', myStart := messages - current, dataStart;
        } else {
          index', myStart := index, ReadSlot(dataEnd, unread, data.Length);
        }
        msg := data[myStart];
        assert msg == q.history[q.oldest..][index' - q.oldest];
        if !peek {
          index' := index' + 1;
        }
      }
    }
  }

  /** What an indexed read of a readable queue returns, and the index afterwards. */
  predicate IndexedRead(q: Queue<nat>, fromEnd: bool, peek: bool, index: int, msg: nat, index': int)
    requires Ok(q) && Readable(q, Some(index))
  {
    var p := ReadPosition(q, fromEnd, index);
    msg == q.history[p] && index' == if fromEnd then |q.history| else if peek then p else p + 1
  }

  /** What ReadMessage returns, and the queue after it. */
  function MessageRead(q: Queue<nat>, fromEnd: bool): nat {
    if q.oldest < |q.history| then q.history[if fromEnd then |q.history| - 1 else q.oldest] else 0
  }

  lemma RefsKeptMore(ref: map<nat, int>, ref': map<nat, int>, touched: set<nat>, more: set<nat>)
    requires RefsKept(ref, ref', touched) && touched <= more
    ensures RefsKept(ref, ref', more)
  {
  }

  lemma RefsKeptSelf(ref: map<nat, int>, touched: set<nat>)
    ensures RefsKept(ref, ref, touched)
  {
  }

  lemma RefStillOne(ref: map<nat, int>, ref': map<nat, int>, msg: nat, touched: set<nat>)
    requires RefsKept(ref, ref', touched) && msg in ref && msg !in touched
    ensures msg in ref' && ref'[msg] == ref[msg]
  {
  }
}
