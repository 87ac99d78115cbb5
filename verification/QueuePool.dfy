/** The message pool of a RawQueue: free list and reference counts (aos/linux_code/ipc_lib/queue.cc). */
module QueuePool {
  import opened Basics

  /** kExtraMessages: how many messages a pool has beyond the ring's capacity. */
  const EXTRA_MESSAGES: nat := 20

  predicate Distinct(s: seq<nat>) {
    forall i, j | 0 <= i < j < |s| :: s[i] != s[j]
  }

  /** What is known of one message: free and unreferenced, or live with its exact reference count. */
  ghost predicate MessageOk(free: seq<nat>, ref: map<nat, int>, live: multiset<nat>, m: nat) {
    m in ref && if m in free then live[m] == 0 else 0 < live[m] == ref[m]
  }

  /**
   * The pool invariant: `live` counts every reference, one for each ring slot and one for each holder.
   * Every message of the pool is on the free list once or live with that count.
   */
  ghost predicate PoolOk(free: seq<nat>, pool: set<nat>, ref: map<nat, int>, live: multiset<nat>) {
    && Distinct(free)
    && (forall m | m in free :: m in pool)
    && (forall m | m in live :: m in pool)
    && (forall m | m in pool :: MessageOk(free, ref, live, m))
  }

  /** GetMessage: the first free message gets one reference. */
  lemma PoolGet(free: seq<nat>, pool: set<nat>, ref: map<nat, int>, live: multiset<nat>)
    requires PoolOk(free, pool, ref, live) && free != []
    ensures PoolOk(free[1..], pool, ref[free[0] := 1], live + multiset{free[0]})
    ensures free[0] in pool && live[free[0]] == 0 && free[0] !in free[1..]
  {
    assert MessageOk(free, ref, live, free[0]);
    assert free == [free[0]] + free[1..];
    forall m | m in pool
      ensures MessageOk(free[1..], ref[free[0] := 1], live + multiset{free[0]}, m)
    {
      assert MessageOk(free, ref, live, m);
    }
  }

  /** One more reference to a live message. */
  lemma PoolIncrement(free: seq<nat>, pool: set<nat>, ref: map<nat, int>, live: multiset<nat>, msg: nat)
    requires PoolOk(free, pool, ref, live) && msg in live
    ensures msg in ref && msg in pool && PoolOk(free, pool, ref[msg := ref[msg] + 1], live + multiset{msg})
  {
    assert MessageOk(free, ref, live, msg);
    forall m | m in pool
      ensures MessageOk(free, ref[msg := ref[msg] + 1], live + multiset{msg}, m)
    {
      assert MessageOk(free, ref, live, m);
    }
  }

  /** Dropping a reference that is not the last. */
  lemma PoolDecrement(free: seq<nat>, pool: set<nat>, ref: map<nat, int>, live: multiset<nat>, msg: nat)
    requires PoolOk(free, pool, ref, live) && msg in live && live[msg] > 1
    ensures msg in ref && msg in pool && PoolOk(free, pool, ref[msg := ref[msg] - 1], live - multiset{msg})
  {
    assert MessageOk(free, ref, live, msg);
    forall m | m in pool
      ensures MessageOk(free, ref[msg := ref[msg] - 1], live - multiset{msg}, m)
    {
      assert MessageOk(free, ref, live, m);
    }
  }

  /** Dropping the last reference and pushing the message on the free list. */
  lemma PoolRelease(free: seq<nat>, pool: set<nat>, ref: map<nat, int>, live: multiset<nat>, msg: nat)
    requires PoolOk(free, pool, ref, live) && live[msg] == 1
    ensures msg in ref && msg in pool && msg !in free
    ensures PoolOk([msg] + free, pool, ref[msg := ref[msg] - 1], live - multiset{msg})
  {
    assert msg in live;
    assert MessageOk(free, ref, live, msg);
    assert Distinct([msg] + free);
    forall m | m in pool
      ensures MessageOk([msg] + free, ref[msg := ref[msg] - 1], live - multiset{msg}, m)
    {
      assert MessageOk(free, ref, live, m);
    }
  }

  /** The recycle swap seen from the queue that frees `msg`: `taken` takes its place on the free list. */
  lemma PoolExchange(free: seq<nat>, pool: set<nat>, ref: map<nat, int>, live: multiset<nat>, msg: nat, taken: nat, ref': map<nat, int>)
    requires PoolOk(free, pool, ref, live) && live[msg] == 1
    requires taken !in pool && taken in ref'
    requires forall m | m in pool && m != msg :: m in ref' && ref'[m] == ref[m]
    ensures msg in pool && PoolOk([taken] + free, pool - {msg} + {taken}, ref', live - multiset{msg})
    ensures |pool - {msg} + {taken}| == |pool|
  {
    assert msg in live;
    assert MessageOk(free, ref, live, msg);
    assert Distinct([taken] + free);
    assert taken !in live;
    forall m | m in pool - {msg} + {taken}
      ensures MessageOk([taken] + free, ref', live - multiset{msg}, m)
    {
      if m != taken {
        assert MessageOk(free, ref, live, m);
      }
    }
  }

  /** And seen from the recycle queue: it gives up a message it had just taken and adopts `msg`. */
  lemma PoolAdopt(free: seq<nat>, pool: set<nat>, ref: map<nat, int>, live: multiset<nat>, msg: nat, given: nat, ref': map<nat, int>)
    requires PoolOk(free, pool, ref, live) && live[given] == 1 && msg !in pool
    requires msg in ref' && ref'[msg] == 1 && forall m | m in pool && m != given :: m in ref' && ref'[m] == ref[m]
    ensures given in pool && PoolOk(free, pool - {given} + {msg}, ref', live - multiset{given} + multiset{msg})
    ensures |pool - {given} + {msg}| == |pool|
  {
    assert given in live;
    assert MessageOk(free, ref, live, given);
    assert msg !in live && msg !in free;
    forall m | m in pool - {given} + {msg}
      ensures MessageOk(free, ref', live - multiset{given} + multiset{msg}, m)
    {
      if m != msg {
        assert MessageOk(free, ref, live, m);
      }
    }
  }

  /** Changes to the headers of other pools do not matter. */
  lemma PoolFrame(free: seq<nat>, pool: set<nat>, ref: map<nat, int>, ref': map<nat, int>, live: multiset<nat>)
    requires PoolOk(free, pool, ref, live)
    requires forall m | m in pool :: m in ref' && m in ref && ref'[m] == ref[m]
    ensures PoolOk(free, pool, ref', live)
  {
    forall m | m in pool
      ensures MessageOk(free, ref', live, m)
    {
      assert MessageOk(free, ref, live, m);
    }
  }

  lemma {:induction false} ElementsSize(s: seq<nat>)
    ensures |Elements(s)| <= |s|
  {
    if s != [] {
      ElementsSize(s[1..]);
      assert Elements(s) == {s[0]} + Elements(s[1..]);
    }
  }

  /**
   * A pool of `capacity + EXTRA_MESSAGES` messages never runs dry while fewer than EXTRA_MESSAGES messages are
   * held outside the ring.
   */
  lemma PoolNotExhausted(free: seq<nat>, pool: set<nat>, ref: map<nat, int>, ring: seq<nat>, held: multiset<nat>, capacity: nat, outside: set<nat>)
    requires PoolOk(free, pool, ref, multiset(ring) + held) && |pool| == capacity + EXTRA_MESSAGES && |ring| <= capacity
    requires forall m | m in held && m !in ring :: m in outside
    requires |outside| < EXTRA_MESSAGES
    ensures free != []
  {
    if free == [] {
      forall m | m in pool
        ensures m in Elements(ring) + outside
      {
        assert MessageOk(free, ref, multiset(ring) + held, m);
      }
      ElementsSize(ring);
      SetBound(pool, Elements(ring), outside);
    }
  }

  lemma SetBound(a: set<nat>, b: set<nat>, c: set<nat>)
    requires forall m | m in a :: m in b + c
    ensures |a| <= |b| + |c|
  {
    assert a <= b + c;
    SubsetSize(a, b + c);
    assert b + c == b + (c - b);
    assert |b + (c - b)| == |b| + |c - b|;
    SubsetSize(c - b, c);
  }
}
