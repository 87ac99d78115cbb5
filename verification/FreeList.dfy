/**
 * The free list and the reference counts of a RawQueue's messages, which are used without a lock
 * (aos/linux_code/ipc_lib/queue.cc): every load, store and compare-and-exchange is a step of its own.
 */
module FreeLists {
  import opened Basics

  /** Where a thread is in GetMessage or DecrementMessageReferenceCount; 0 is a null pointer. */
  datatype Pc =
    | Idle
    | PopLoaded(h: nat)
    | PopNext(h: nat, n: nat)
    | Popped(h: nat)
    | Decremented(m: nat)
    | Freeing(m: nat)
    | PushLoaded(m: nat, n: nat)
    | PushLinked(m: nat, n: nat)

  /** The head of the list, the links and counts of the messages, the references held and the threads. */
  datatype State = State(free: nat, next: map<nat, nat>, refs: map<nat, int>, held: multiset<nat>, threads: seq<Pc>)

  /** What a thread does next; what it cannot do changes nothing. */
  datatype Act =
    | Begin
    | LoadNext
    | Cas
    | CasFails
    | SetCount
    | AddRef(m: nat)
    | DropRef(m: nat)
    | Test
    | LoadHead
    | StoreLink

  function At(s: State, t: nat, p: Pc): State
    requires t < |s.threads|
  {
    s.(threads := s.threads[t := p])
  }

  /** Trying again; an empty list ends the process. */
  function Reload(s: State, t: nat): State
    requires t < |s.threads|
  {
    if s.free != 0 then At(s, t, PopLoaded(s.free)) else s
  }

  function Next(s: State, t: nat, a: Act): (r: State)
    requires t < |s.threads|
    ensures |r.threads| == |s.threads|
  {
    var p := s.threads[t];
    match a
    case Begin => if p.Idle? then Reload(s, t) else s
    case LoadNext => if p.PopLoaded? && p.h in s.next then At(s, t, PopNext(p.h, s.next[p.h])) else s
    case Cas =>
      if p.PopNext? then if s.free == p.h then At(s.(free := p.n), t, Popped(p.h)) else Reload(s, t)
      else if p.PushLinked? then if s.free == p.n then At(s.(free := p.m), t, Idle) else At(s, t, PushLoaded(p.m, s.free))
      else s
    case CasFails =>
      if p.PopNext? then Reload(s, t) else if p.PushLinked? then At(s, t, PushLoaded(p.m, s.free)) else s
    case SetCount =>
      if p.Popped? then At(s.(refs := s.refs[p.h := 1], held := s.held + multiset{p.h}), t, Idle) else s
    case AddRef(m) =>
      if p.Idle? && m in s.held && m in s.refs
      then s.(refs := s.refs[m := s.refs[m] + 1], held := s.held + multiset{m}) else s
    case DropRef(m) =>
      if p.Idle? && m in s.held && m in s.refs
      then At(s.(refs := s.refs[m := s.refs[m] - 1], held := s.held - multiset{m}), t, Decremented(m)) else s
    case Test =>
      if p.Decremented? && p.m in s.refs then At(s, t, if s.refs[p.m] == 0 then Freeing(p.m) else Idle) else s
    case LoadHead => if p.Freeing? then At(s, t, PushLoaded(p.m, s.free)) else s
    case StoreLink => if p.PushLoaded? then At(s.(next := s.next[p.m := p.n]), t, PushLinked(p.m, p.n)) else s
  }

  // ----- where every message is -----

  /** The links lead from `x` through `list` to the null pointer. */
  predicate Chain(next: map<nat, nat>, x: nat, list: seq<nat>)
    decreases |list|
  {
    if list == [] then x == 0 else x == list[0] && x in next && Chain(next, next[x], list[1..])
  }

  /**
   * What a thread has: a message that it alone has, because it has just taken it off the list or puts it on; or one it
   * will have if the reference it dropped was the last.
   */
  datatype Stake = Nothing | Claim(m: nat) | Pending(m: nat)

  function StakeOf(p: Pc): Stake {
    match p
    case Popped(h) => Claim(h)
    case Freeing(m) => Claim(m)
    case PushLoaded(m, _) => Claim(m)
    case PushLinked(m, _) => Claim(m)
    case Decremented(m) => Pending(m)
    case _ => Nothing
  }

  predicate About(k: Stake, m: nat) {
    k == Claim(m) || k == Pending(m)
  }

  ghost predicate Unclaimed(threads: seq<Pc>, m: nat) {
    forall t | 0 <= t < |threads| :: StakeOf(threads[t]) != Claim(m)
  }

  ghost predicate Nobody(threads: seq<Pc>, m: nat) {
    forall t | 0 <= t < |threads| :: !About(StakeOf(threads[t]), m)
  }

  /** Thread `t`, and no other, has or will have the message. */
  ghost predicate Only(threads: seq<Pc>, m: nat, t: nat) {
    && t < |threads| && About(StakeOf(threads[t]), m)
    && forall u | 0 <= u < |threads| && u != t :: !About(StakeOf(threads[u]), m)
  }

  ghost predicate Somebody(threads: seq<Pc>, m: nat) {
    exists t: nat :: Only(threads, m, t)
  }

  /** A thread that dropped the last reference will find the count 0. */
  ghost predicate CountsOk(threads: seq<Pc>, m: nat, refs: int) {
    forall t | 0 <= t < |threads| && StakeOf(threads[t]) == Pending(m) :: refs == 0
  }

  /** A message is held, with its exact count, or on the list, or with exactly one thread. */
  ghost predicate MessageOk(s: State, list: seq<nat>, m: nat) {
    && (m in s.held ==> m in s.refs && s.refs[m] == s.held[m] && m !in list && Unclaimed(s.threads, m))
    && (m !in s.held ==>
          && (if m in list then Nobody(s.threads, m) else Somebody(s.threads, m))
          && m in s.refs && CountsOk(s.threads, m, s.refs[m]))
  }

  ghost predicate Distinct(list: seq<nat>) {
    forall i, j | 0 <= i < j < |list| :: list[i] != list[j]
  }

  predicate PcOk(next: map<nat, nat>, pool: set<nat>, p: Pc) {
    match p
    case Idle => true
    case PopLoaded(h) => h in pool
    case PopNext(h, _) => h in pool
    case Popped(h) => h in pool
    case Decremented(m) => m in pool
    case Freeing(m) => m in pool
    case PushLoaded(m, _) => m in pool
    case PushLinked(m, n) => m in pool && m in next && next[m] == n
  }

  ghost predicate Inv(s: State, pool: set<nat>, list: seq<nat>) {
    && 0 !in pool && s.next.Keys == pool && Chain(s.next, s.free, list) && Distinct(list)
    && (forall m | m in list :: m in pool) && (forall m | m in s.held :: m in pool)
    && (forall t | 0 <= t < |s.threads| :: PcOk(s.next, pool, s.threads[t]))
    && forall m | m in pool :: MessageOk(s, list, m)
  }

  /** A thread pops with a link that is out of date. */
  predicate StalePop(s: State, t: nat, a: Act) {
    && t < |s.threads| && a == Cas && s.threads[t].PopNext? && s.free == s.threads[t].h
    && s.free in s.next && s.next[s.free] != s.threads[t].n
  }

  /** A thread drops the last reference while another one has dropped one and has not looked at the count yet. */
  ghost predicate LateDrop(s: State, t: nat, a: Act) {
    && t < |s.threads| && a.DropRef? && s.threads[t].Idle? && s.held[a.m] == 1
    && exists u :: 0 <= u < |s.threads| && s.threads[u] == Decremented(a.m)
  }

  /** The step puts a message on the list. */
  predicate Pushes(s: State, t: nat, a: Act) {
    t < |s.threads| && a == Cas && s.threads[t].PushLinked? && s.free == s.threads[t].n
  }

  // ----- chains -----

  lemma {:induction false} ChainUnique(next: map<nat, nat>, x: nat, a: seq<nat>, b: seq<nat>)
    requires Chain(next, x, a) && Chain(next, x, b) && 0 !in next
    ensures a == b
    decreases |a|
  {
    if a != [] && b != [] {
      ChainUnique(next, next[x], a[1..], b[1..]);
      assert a == [a[0]] + a[1..] && b == [b[0]] + b[1..];
    }
  }

  lemma {:induction false} ChainSuffix(next: map<nat, nat>, x: nat, list: seq<nat>, i: nat)
    requires Chain(next, x, list) && i < |list|
    ensures Chain(next, list[i], list[i..])
    decreases |list|
  {
    if i > 0 {
      ChainSuffix(next, next[x], list[1..], i - 1);
      assert list[1..][i - 1..] == list[i..];
    } else {
      assert list[i..] == list;
    }
  }

  lemma {:induction false} ChainKept(next: map<nat, nat>, x: nat, list: seq<nat>, m: nat, n: nat)
    requires Chain(next, x, list) && m !in list
    ensures Chain(next[m := n], x, list)
    decreases |list|
  {
    if list != [] {
      ChainKept(next, next[x], list[1..], m, n);
    }
  }

  // ----- steps -----

  /** A step of thread `t` that is not about the message. */
  lemma OtherMessage(s: State, list: seq<nat>, t: nat, s': State, list': seq<nat>, m: nat)
    requires MessageOk(s, list, m) && t < |s.threads| == |s'.threads|
    requires forall u | 0 <= u < |s.threads| && u != t :: s'.threads[u] == s.threads[u]
    requires About(StakeOf(s.threads[t]), m) || About(StakeOf(s'.threads[t]), m) ==>
               StakeOf(s.threads[t]) == StakeOf(s'.threads[t])
    requires s'.held[m] == s.held[m] && m in s.refs && m in s'.refs && s'.refs[m] == s.refs[m]
    requires m in list' <==> m in list
    ensures MessageOk(s', list', m)
  {
    hide StakeOf;
    assert m in s'.held <==> m in s.held;
    if m !in s.held && m !in list {
      var u: nat :| Only(s.threads, m, u);
      assert Only(s'.threads, m, u);
    }
  }

  /** A step that changes what one thread has, and nothing but the state of one message with it. */
  lemma Stepped(s: State, pool: set<nat>, list: seq<nat>, t: nat, s': State, list': seq<nat>, x: nat)
    requires Inv(s, pool, list) && t < |s.threads| == |s'.threads|
    requires forall u | 0 <= u < |s.threads| && u != t :: s'.threads[u] == s.threads[u]
    requires forall m: nat | m != x && (About(StakeOf(s.threads[t]), m) || About(StakeOf(s'.threads[t]), m)) ::
               StakeOf(s.threads[t]) == StakeOf(s'.threads[t])
    requires forall m | m in pool && m != x :: s'.held[m] == s.held[m]
    requires forall m | m in s.refs && m != x :: m in s'.refs && s'.refs[m] == s.refs[m]
    requires forall m | m != x :: m in list' <==> m in list
    requires x in pool ==> MessageOk(s', list', x)
    ensures forall m | m in pool :: MessageOk(s', list', m)
  {
    hide StakeOf, Chain, Distinct, PcOk, About;
    forall m | m in pool
      ensures MessageOk(s', list', m)
    {
      if m != x {
        assert MessageOk(s, list, m);
        OtherMessage(s, list, t, s', list', m);
      }
    }
  }

  /** One thread moves on without changing what it has, and nothing else changes. */
  lemma MovesOn(s: State, pool: set<nat>, list: seq<nat>, t: nat, p: Pc)
    requires Inv(s, pool, list) && t < |s.threads| && PcOk(s.next, pool, p) && StakeOf(p) == StakeOf(s.threads[t])
    ensures Inv(At(s, t, p), pool, list)
  {
    hide StakeOf, Chain, Distinct, PcOk, MessageOk;
    Stepped(s, pool, list, t, At(s, t, p), list, 0);
  }

  /** The head is in the pool unless the list is empty. */
  lemma HeadOk(s: State, pool: set<nat>, list: seq<nat>)
    requires Inv(s, pool, list)
    ensures s.free != 0 ==> list != [] && s.free == list[0] && s.free in pool
    ensures s.free == 0 ==> list == []
  {
    hide MessageOk, Distinct, PcOk;
    if list != [] {
      assert list[0] in list;
    }
  }

  lemma ReloadOk(s: State, pool: set<nat>, list: seq<nat>, t: nat)
    requires Inv(s, pool, list) && t < |s.threads| && StakeOf(s.threads[t]) == Nothing
    ensures Inv(Reload(s, t), pool, list)
  {
    hide MessageOk, Distinct, Chain, PcOk;
    HeadOk(s, pool, list);
    if s.free != 0 {
      LoadedOk(s, pool, s.free);
      MovesOn(s, pool, list, t, PopLoaded(s.free));
    }
  }

  lemma LoadedOk(s: State, pool: set<nat>, h: nat)
    requires h in pool
    ensures PcOk(s.next, pool, PopLoaded(h))
  {
  }

  /** What the compare-and-exchange of a pop leaves is the rest of the list, if the link is not out of date. */
  lemma PopOk(s: State, pool: set<nat>, list: seq<nat>, t: nat)
    requires Inv(s, pool, list) && t < |s.threads| && s.threads[t].PopNext? && s.free == s.threads[t].h
    requires !StalePop(s, t, Cas)
    ensures list != [] && Inv(Next(s, t, Cas), pool, list[1..])
  {
    hide MessageOk;
    var h, s', rest := s.free, Next(s, t, Cas), list[1..];
    assert PcOk(s.next, pool, s.threads[t]);
    HeadOk(s, pool, list);
    assert list == [h] + rest;
    assert h !in rest;
    TakenOff(s, list, t, s', rest, h);
    Stepped(s, pool, list, t, s', rest, h);
  }

  lemma TakenOff(s: State, list: seq<nat>, t: nat, s': State, rest: seq<nat>, h: nat)
    requires MessageOk(s, list, h) && t < |s.threads| && h in list && h !in rest
    requires s' == At(s.(free := s'.free), t, Popped(h))
    ensures MessageOk(s', rest, h)
  {
    assert Only(s'.threads, h, t);
  }

  lemma SetCountOk(s: State, pool: set<nat>, list: seq<nat>, t: nat)
    requires Inv(s, pool, list) && t < |s.threads| && s.threads[t].Popped?
    ensures Inv(Next(s, t, SetCount), pool, list)
  {
    hide Chain, Distinct;
    var h, s' := s.threads[t].h, Next(s, t, SetCount);
    assert PcOk(s.next, pool, s.threads[t]) && MessageOk(s, list, h);
    HandedOut(s, list, t, h);
    hide MessageOk;
    Stepped(s, pool, list, t, s', list, h);
  }

  lemma HandedOut(s: State, list: seq<nat>, t: nat, h: nat)
    requires MessageOk(s, list, h) && t < |s.threads| && s.threads[t] == Popped(h)
    ensures MessageOk(Next(s, t, SetCount), list, h)
  {
    assert StakeOf(s.threads[t]) == Claim(h);
    var u: nat :| Only(s.threads, h, u);
    assert u == t;
  }

  lemma AddRefOk(s: State, pool: set<nat>, list: seq<nat>, t: nat, m: nat)
    requires Inv(s, pool, list) && t < |s.threads|
    ensures Inv(Next(s, t, AddRef(m)), pool, list)
  {
    hide Chain, Distinct, StakeOf, PcOk;
    var s' := Next(s, t, AddRef(m));
    if s' != s {
      assert MessageOk(s, list, m);
      assert MessageOk(s', list, m);
      hide MessageOk;
      Stepped(s, pool, list, t, s', list, m);
    }
  }

  lemma DropRefOk(s: State, pool: set<nat>, list: seq<nat>, t: nat, m: nat)
    requires Inv(s, pool, list) && t < |s.threads| && !LateDrop(s, t, DropRef(m))
    ensures Inv(Next(s, t, DropRef(m)), pool, list)
  {
    hide Chain, Distinct;
    var s' := Next(s, t, DropRef(m));
    if s.threads[t].Idle? && m in s.held && m in s.refs {
      assert MessageOk(s, list, m);
      LetGo(s, list, t, m);
      hide MessageOk;
      Stepped(s, pool, list, t, s', list, m);
    }
  }

  lemma LetGo(s: State, list: seq<nat>, t: nat, m: nat)
    requires MessageOk(s, list, m) && t < |s.threads| && s.threads[t].Idle? && m in s.held && m in s.refs
    requires !LateDrop(s, t, DropRef(m))
    ensures MessageOk(Next(s, t, DropRef(m)), list, m)
  {
    var s' := Next(s, t, DropRef(m));
    if s.held[m] == 1 {
      forall u | 0 <= u < |s.threads| && u != t
        ensures !About(StakeOf(s'.threads[u]), m)
      {
        assert s'.threads[u] == s.threads[u] != Decremented(m);
      }
      assert Only(s'.threads, m, t);
    }
  }

  lemma TestOk(s: State, pool: set<nat>, list: seq<nat>, t: nat)
    requires Inv(s, pool, list) && t < |s.threads| && s.threads[t].Decremented?
    ensures Inv(Next(s, t, Test), pool, list)
  {
    hide Chain, Distinct;
    var m, s' := s.threads[t].m, Next(s, t, Test);
    assert PcOk(s.next, pool, s.threads[t]) && MessageOk(s, list, m);
    Tested(s, list, t, m);
    hide MessageOk;
    Stepped(s, pool, list, t, s', list, m);
  }

  lemma Tested(s: State, list: seq<nat>, t: nat, m: nat)
    requires MessageOk(s, list, m) && t < |s.threads| && s.threads[t] == Decremented(m)
    ensures MessageOk(Next(s, t, Test), list, m)
  {
    var s' := Next(s, t, Test);
    assert StakeOf(s.threads[t]) == Pending(m);
    if m !in s.held {
      assert s.refs[m] == 0;
      var u: nat :| Only(s.threads, m, u);
      assert u == t && Only(s'.threads, m, t);
    }
  }

  lemma StoreLinkOk(s: State, pool: set<nat>, list: seq<nat>, t: nat)
    requires Inv(s, pool, list) && t < |s.threads| && s.threads[t].PushLoaded?
    ensures Inv(Next(s, t, StoreLink), pool, list)
  {
    hide Distinct;
    var m, n, s' := s.threads[t].m, s.threads[t].n, Next(s, t, StoreLink);
    assert PcOk(s.next, pool, s.threads[t]) && MessageOk(s, list, m);
    ClaimedAlone(s, list, t, m);
    forall u | 0 <= u < |s.threads|
      ensures PcOk(s'.next, pool, s'.threads[u])
    {
      assert PcOk(s.next, pool, s.threads[u]);
    }
    assert MessageOk(s', list, m) by {
      OtherMessage(s, list, t, s', list, m);
    }
    ChainKept(s.next, s.free, list, m, n);
    hide MessageOk, Chain;
    Stepped(s, pool, list, t, s', list, m);
  }

  lemma ClaimedAlone(s: State, list: seq<nat>, t: nat, m: nat)
    requires MessageOk(s, list, m) && t < |s.threads| && StakeOf(s.threads[t]) == Claim(m)
    ensures m !in s.held && m !in list && Only(s.threads, m, t)
  {
    if m !in s.held && m !in list {
      var u: nat :| Only(s.threads, m, u);
      assert u == t;
    }
  }

  lemma PushOk(s: State, pool: set<nat>, list: seq<nat>, t: nat)
    requires Inv(s, pool, list) && t < |s.threads| && s.threads[t].PushLinked? && s.free == s.threads[t].n
    ensures Inv(Next(s, t, Cas), pool, [s.threads[t].m] + list)
  {
    var m, s' := s.threads[t].m, Next(s, t, Cas);
    var list' := [m] + list;
    assert PcOk(s.next, pool, s.threads[t]) && MessageOk(s, list, m);
    ClaimedAlone(s, list, t, m);
    assert list'[1..] == list;
    assert MessageOk(s', list', m);
    hide MessageOk;
    Stepped(s, pool, list, t, s', list', m);
  }

  // ----- exactly which steps break the order -----

  /** Every other step keeps every message in exactly one place. */
  lemma StepKeeps(s: State, pool: set<nat>, list: seq<nat>, t: nat, a: Act) returns (list': seq<nat>)
    requires Inv(s, pool, list) && t < |s.threads| && !StalePop(s, t, a) && !LateDrop(s, t, a)
    ensures Inv(Next(s, t, a), pool, list')
    ensures forall x | x in list' :: x in list || (Pushes(s, t, a) && x == s.threads[t].m)
  {
    hide MessageOk, Chain, Distinct;
    var p := s.threads[t];
    list' := list;
    assert PcOk(s.next, pool, p);
    HeadOk(s, pool, list);
    match a
    case Begin =>
      if p.Idle? {
        ReloadOk(s, pool, list, t);
      }
    case LoadNext =>
      if p.PopLoaded? && p.h in s.next {
        MovesOn(s, pool, list, t, PopNext(p.h, s.next[p.h]));
      }
    case Cas =>
      if p.PopNext? {
        if s.free == p.h {
          PopOk(s, pool, list, t);
          list' := list[1..];
        } else {
          ReloadOk(s, pool, list, t);
        }
      } else if p.PushLinked? {
        if s.free == p.n {
          PushOk(s, pool, list, t);
          list' := [p.m] + list;
        } else {
          MovesOn(s, pool, list, t, PushLoaded(p.m, s.free));
        }
      }
    case CasFails =>
      if p.PopNext? {
        ReloadOk(s, pool, list, t);
      } else if p.PushLinked? {
        MovesOn(s, pool, list, t, PushLoaded(p.m, s.free));
      }
    case SetCount =>
      if p.Popped? {
        SetCountOk(s, pool, list, t);
      }
    case AddRef(m) => AddRefOk(s, pool, list, t, m);
    case DropRef(m) => DropRefOk(s, pool, list, t, m);
    case Test =>
      if p.Decremented? {
        TestOk(s, pool, list, t);
      }
    case LoadHead =>
      if p.Freeing? {
        MovesOn(s, pool, list, t, PushLoaded(p.m, s.free));
      }
    case StoreLink =>
      if p.PushLoaded? {
        StoreLinkOk(s, pool, list, t);
      }
  }

  lemma {:induction false} DistinctSize(list: seq<nat>)
    requires Distinct(list)
    ensures |Elements(list)| == |list|
    decreases |list|
  {
    if list != [] {
      DistinctSize(list[1..]);
      assert Elements(list) == {list[0]} + Elements(list[1..]);
      assert list[0] !in list[1..];
    }
  }

  /** After a pop with a link that is out of date, what can be on the list is what was on it, less the head. */
  lemma SameRest(s: State, pool: set<nat>, list: seq<nat>, t: nat, list': seq<nat>)
    requires Inv(s, pool, list) && StalePop(s, t, Cas) && Inv(Next(s, t, Cas), pool, list')
    ensures list != [] && Elements(list') == Elements(list[1..])
  {
    hide Chain, PcOk;
    var h, s' := s.free, Next(s, t, Cas);
    HeadChain(s, pool, list);
    forall m: nat | m in pool
      ensures m in list' <==> m in list && m != h
    {
      assert MessageOk(s, list, m) && MessageOk(s', list', m);
      SamePlace(s, list, t, list', m);
    }
    assert list == [h] + list[1..];
    assert h !in list[1..];
  }

  lemma HeadChain(s: State, pool: set<nat>, list: seq<nat>)
    requires Inv(s, pool, list) && s.free in s.next
    ensures list != [] && list[0] == s.free && Chain(s.next, s.next[s.free], list[1..])
  {
  }

  lemma SamePlace(s: State, list: seq<nat>, t: nat, list': seq<nat>, m: nat)
    requires StalePop(s, t, Cas) && s.free in list
    requires MessageOk(s, list, m) && MessageOk(Next(s, t, Cas), list', m)
    ensures m in list' <==> m in list && m != s.free
  {
    var s', h := Next(s, t, Cas), s.free;
    assert s'.threads[t] == Popped(h) && forall u | 0 <= u < |s.threads| && u != t :: s'.threads[u] == s.threads[u];
    if m == h {
      assert StakeOf(s'.threads[t]) == Claim(h);
    } else {
      NotBoth(s.threads, m);
      NotBoth(s'.threads, m);
      assert Nobody(s'.threads, m) <==> forall u | 0 <= u < |s.threads| && u != t :: !About(StakeOf(s.threads[u]), m);
      assert Nobody(s.threads, m) <==> forall u | 0 <= u < |s.threads| && u != t :: !About(StakeOf(s.threads[u]), m);
    }
  }

  lemma NotBoth(threads: seq<Pc>, m: nat)
    ensures Somebody(threads, m) ==> !Nobody(threads, m)
  {
  }

  lemma TooMany(threads: seq<Pc>, m: nat, t: nat, u: nat)
    requires t < |threads| && u < |threads| && t != u
    requires About(StakeOf(threads[t]), m) && About(StakeOf(threads[u]), m)
    ensures !Somebody(threads, m) && !Nobody(threads, m)
  {
  }

  /** A pop with a link that is out of date always leaves messages lost, or in two places. */
  lemma StalePopBreaks(s: State, pool: set<nat>, list: seq<nat>, t: nat, list': seq<nat>)
    requires Inv(s, pool, list) && StalePop(s, t, Cas)
    ensures !Inv(Next(s, t, Cas), pool, list')
  {
    hide MessageOk, PcOk;
    var s' := Next(s, t, Cas);
    if Inv(s', pool, list') {
      SameRest(s, pool, list, t, list');
      HeadChain(s, pool, list);
      var rest := list[1..];
      DistinctSize(rest);
      DistinctSize(list');
      if rest != [] {
        assert list'[0] in Elements(list');
        var i :| 0 <= i < |rest| && rest[i] == list'[0];
        ChainSuffix(s.next, s.next[s.free], rest, i);
        ChainUnique(s.next, list'[0], list', rest[i..]);
      }
    }
  }

  lemma LateDropBreaks(s: State, pool: set<nat>, list: seq<nat>, t: nat, m: nat, list': seq<nat>)
    requires Inv(s, pool, list) && LateDrop(s, t, DropRef(m))
    ensures !Inv(Next(s, t, DropRef(m)), pool, list')
  {
    hide Chain, PcOk;
    var s' := Next(s, t, DropRef(m));
    assert m in s.held && MessageOk(s, list, m);
    var u :| 0 <= u < |s.threads| && s.threads[u] == Decremented(m);
    TooMany(s'.threads, m, t, u);
    assert m !in s'.held && m in pool;
    assert !MessageOk(s', list', m);
  }

  /** A step keeps every message in exactly one place if and only if it is not one of the two. */
  lemma StepExact(s: State, pool: set<nat>, list: seq<nat>, t: nat, a: Act)
    requires Inv(s, pool, list) && t < |s.threads|
    ensures (exists list' :: Inv(Next(s, t, a), pool, list')) <==> !StalePop(s, t, a) && !LateDrop(s, t, a)
  {
    hide Inv, StalePop, LateDrop;
    if StalePop(s, t, a) {
      StaleIsCas(s, t, a);
      forall list'
        ensures !Inv(Next(s, t, a), pool, list')
      {
        StalePopBreaks(s, pool, list, t, list');
      }
    } else if LateDrop(s, t, a) {
      LateIsDrop(s, t, a);
      forall list'
        ensures !Inv(Next(s, t, a), pool, list')
      {
        LateDropBreaks(s, pool, list, t, a.m, list');
      }
    } else {
      var list' := StepKeeps(s, pool, list, t, a);
    }
  }

  lemma StaleIsCas(s: State, t: nat, a: Act)
    requires StalePop(s, t, a)
    ensures a == Cas
  {
  }

  lemma LateIsDrop(s: State, t: nat, a: Act)
    requires LateDrop(s, t, a)
    ensures a.DropRef?
  {
  }

  // ----- whole runs -----

  datatype Move = Move(t: nat, a: Act)

  function Run(s: State, moves: seq<Move>): State {
    if moves == [] then s
    else
      var before, move := Run(s, moves[..|moves| - 1]), moves[|moves| - 1];
      if move.t < |before.threads| then Next(before, move.t, move.a) else before
  }

  /** A message is put back on the list while another thread that is taking it off has loaded its link. */
  ghost predicate PutBack(s: State, t: nat, a: Act) {
    Pushes(s, t, a) && exists u :: 0 <= u < |s.threads| && s.threads[u].PopNext? && s.threads[u].h == s.threads[t].m
  }

  ghost predicate Quiet(s: State, move: Move) {
    !LateDrop(s, move.t, move.a) && !PutBack(s, move.t, move.a)
  }

  ghost predicate QuietRun(s: State, moves: seq<Move>) {
    forall k | 0 <= k < |moves| :: Quiet(Run(s, moves[..k]), moves[k])
  }

  /** The links that threads have loaded are up to date for the messages on the list. */
  ghost predicate Fresh(s: State, list: seq<nat>) {
    forall t | 0 <= t < |s.threads| :: FreshPc(s.next, list, s.threads[t])
  }

  predicate FreshPc(next: map<nat, nat>, list: seq<nat>, p: Pc) {
    p.PopNext? && p.h in list ==> p.h in next && next[p.h] == p.n
  }

  lemma NotStale(s: State, pool: set<nat>, list: seq<nat>, t: nat, a: Act)
    requires Inv(s, pool, list) && Fresh(s, list)
    ensures !StalePop(s, t, a)
  {
    hide MessageOk, PcOk, Distinct;
    if t < |s.threads| && s.threads[t].PopNext? && s.free == s.threads[t].h && s.free in s.next {
      HeadChain(s, pool, list);
      assert s.free in list && FreshPc(s.next, list, s.threads[t]);
    }
  }

  lemma LinksKept(s: State, pool: set<nat>, list: seq<nat>, t: nat, a: Act, x: nat)
    requires Inv(s, pool, list) && t < |s.threads| && x in list
    ensures x in s.next && x in Next(s, t, a).next && Next(s, t, a).next[x] == s.next[x]
  {
    hide Chain, Distinct;
    var p := s.threads[t];
    if a == StoreLink && p.PushLoaded? {
      assert PcOk(s.next, pool, p) && MessageOk(s, list, p.m);
      ClaimedAlone(s, list, t, p.m);
    }
  }

  lemma QuietStep(s: State, pool: set<nat>, list: seq<nat>, t: nat, a: Act) returns (list': seq<nat>)
    requires Inv(s, pool, list) && Fresh(s, list) && t < |s.threads| && Quiet(s, Move(t, a))
    ensures Inv(Next(s, t, a), pool, list') && Fresh(Next(s, t, a), list')
  {
    hide Inv, LateDrop, StalePop;
    NotStale(s, pool, list, t, a);
    list' := StepKeeps(s, pool, list, t, a);
    var s' := Next(s, t, a);
    forall u | 0 <= u < |s'.threads|
      ensures FreshPc(s'.next, list', s'.threads[u])
    {
      var p := s'.threads[u];
      if p.PopNext? && p.h in list' {
        if p.h in list {
          LinksKept(s, pool, list, t, a, p.h);
          assert FreshPc(s.next, list, s.threads[u]);
        }
      }
    }
  }

  /**
   * In a run in which no message is put back under a thread that is taking it off, and no last reference is dropped
   * while another thread has yet to look at the count, every message is always in exactly one place.
   */
  lemma {:induction false} QuietRunKeeps(s: State, pool: set<nat>, list: seq<nat>, moves: seq<Move>) returns (list': seq<nat>)
    requires Inv(s, pool, list) && Fresh(s, list) && QuietRun(s, moves)
    ensures Inv(Run(s, moves), pool, list') && Fresh(Run(s, moves), list')
    decreases |moves|
  {
    hide Inv, Fresh, Quiet, Next;
    if moves == [] {
      list' := list;
    } else {
      var n := |moves| - 1;
      forall k | 0 <= k < n
        ensures Quiet(Run(s, moves[..n][..k]), moves[..n][k])
      {
        assert moves[..n][..k] == moves[..k];
      }
      list' := QuietRunKeeps(s, pool, list, moves[..n]);
      var before, move := Run(s, moves[..n]), moves[n];
      assert Quiet(before, move);
      if move.t < |before.threads| {
        list' := QuietStep(before, pool, list', move.t, move.a);
      }
    }
  }

  lemma StartOk(s: State, pool: set<nat>, list: seq<nat>)
    requires 0 !in pool && s.next.Keys == pool == s.refs.Keys && Chain(s.next, s.free, list) && Distinct(list)
    requires Elements(list) == pool && s.held == multiset{} && forall t | 0 <= t < |s.threads| :: s.threads[t] == Idle
    ensures Inv(s, pool, list) && Fresh(s, list)
  {
    hide Chain, Distinct;
  }

  // ----- what goes wrong otherwise -----

  /** After a late drop, two threads free the message. */
  lemma FreedTwice(s: State, t: nat, u: nat, m: nat)
    requires t < |s.threads| && u < |s.threads| && s.threads[t].Idle? && s.threads[u] == Decremented(m)
    requires m in s.held && m in s.refs && s.refs[m] == 1
    ensures
      var s' := Next(Next(Next(s, t, DropRef(m)), u, Test), t, Test);
      s'.threads == s.threads[t := Freeing(m)][u := Freeing(m)] && s'.held == s.held - multiset{m}
  {
    var s1 := Next(s, t, DropRef(m));
    assert s1.threads == s.threads[t := Decremented(m)] && s1.refs[m] == 0;
    var s2 := Next(s1, u, Test);
    assert s2.threads == s.threads[t := Decremented(m)][u := Freeing(m)] && s2.refs == s1.refs;
  }

  lemma Go(s: State, moves: seq<Move>, t: nat, a: Act) returns (moves': seq<Move>)
    requires t < |Run(s, moves).threads|
    ensures moves' == moves + [Move(t, a)] && Run(s, moves') == Next(Run(s, moves), t, a)
  {
    hide Next;
    moves' := moves + [Move(t, a)];
    assert moves'[..|moves|] == moves;
  }

  /** A call of GetMessage with nothing in between. */
  lemma GetAlone(s: State, moves: seq<Move>, t: nat) returns (moves': seq<Move>)
    requires
      var x := Run(s, moves);
      t < |x.threads| && x.threads[t] == Idle && x.free != 0 && x.free in x.next
    ensures
      var x := Run(s, moves);
      Run(s, moves') == State(x.next[x.free], x.next, x.refs[x.free := 1], x.held + multiset{x.free}, x.threads)
  {
    hide Run;
    var x := Run(s, moves);
    moves' := Go(s, moves, t, Begin);
    moves' := Go(s, moves', t, LoadNext);
    moves' := Go(s, moves', t, Cas);
    moves' := Go(s, moves', t, SetCount);
    assert x.threads[t := PopLoaded(x.free)][t := PopNext(x.free, x.next[x.free])][t := Popped(x.free)][t := Idle] == x.threads;
  }

  /** Putting a message on the list with nothing in between. */
  lemma PushAlone(s: State, moves: seq<Move>, t: nat) returns (moves': seq<Move>)
    requires
      var x := Run(s, moves);
      t < |x.threads| && x.threads[t].Freeing?
    ensures
      var x := Run(s, moves);
      var m := x.threads[t].m;
      Run(s, moves') == State(m, x.next[m := x.free], x.refs, x.held, x.threads[t := Idle])
  {
    hide Run;
    var x := Run(s, moves);
    var m := x.threads[t].m;
    moves' := Go(s, moves, t, LoadHead);
    moves' := Go(s, moves', t, StoreLink);
    moves' := Go(s, moves', t, Cas);
    assert x.threads[t := PushLoaded(m, x.free)][t := PushLinked(m, x.free)][t := Idle] == x.threads[t := Idle];
  }

  /**
   * A pop whose compare-and-exchange fails, because the head has changed or for no reason, starts again from the head
   * as it is: left alone, the thread takes the first message off. On an empty list it gets no further.
   */
  lemma RetryPop(s: State, t: nat, a: Act)
    requires t < |s.threads| && s.threads[t].PopNext? && (a == CasFails || (a == Cas && s.free != s.threads[t].h))
    ensures s.free == 0 ==> Next(s, t, a) == s
    ensures
      s.free != 0 && s.free in s.next ==>
        Next(Next(Next(Next(s, t, a), t, LoadNext), t, Cas), t, SetCount)
        == State(s.next[s.free], s.next, s.refs[s.free := 1], s.held + multiset{s.free}, s.threads[t := Idle])
  {
    if s.free != 0 && s.free in s.next {
      var s1 := Next(s, t, a);
      assert s1 == At(s, t, PopLoaded(s.free));
      var s2 := Next(s1, t, LoadNext);
      assert s2 == At(s1, t, PopNext(s.free, s.next[s.free]));
      var s3 := Next(s2, t, Cas);
      assert s3 == At(s2.(free := s.next[s.free]), t, Popped(s.free));
      assert s1.threads[t := PopNext(s.free, s.next[s.free])][t := Popped(s.free)][t := Idle] == s.threads[t := Idle];
    }
  }

  /** A push that fails starts again in the same way: left alone, the thread puts the message in front of the list. */
  lemma RetryPush(s: State, t: nat, a: Act)
    requires t < |s.threads| && s.threads[t].PushLinked? && (a == CasFails || (a == Cas && s.free != s.threads[t].n))
    ensures
      var m := s.threads[t].m;
      Next(Next(Next(s, t, a), t, StoreLink), t, Cas) == State(m, s.next[m := s.free], s.refs, s.held, s.threads[t := Idle])
  {
    var m := s.threads[t].m;
    var s1 := Next(s, t, a);
    assert s1 == At(s, t, PushLoaded(m, s.free));
    var s2 := Next(s1, t, StoreLink);
    assert s2 == At(s1.(next := s.next[m := s.free]), t, PushLinked(m, s.free));
    assert s1.threads[t := PushLinked(m, s.free)][t := Idle] == s.threads[t := Idle];
  }

  /** Two messages, 1 and 2, on the list, and two threads. */
  function Two(): State {
    State(1, map[1 := 2, 2 := 0], map[1 := 0, 2 := 0], multiset{}, [Idle, Idle])
  }

  /**
   * One thread has loaded 1 and its link 2; the other takes both messages and gives back 1; the first then takes 1 and
   * leaves 2 on the list, which the other still has, and takes it too.
   */
  lemma TakenTwice() returns (moves: seq<Move>)
    ensures Inv(Two(), {1, 2}, [1, 2]) && Fresh(Two(), [1, 2])
    ensures Run(Two(), moves).held[2] == 2 && 2 in Run(Two(), moves).refs && Run(Two(), moves).refs[2] == 1
  {
    hide Run, Inv, Fresh;
    TwoOk();
    var s := Two();
    StartRun(s);
    moves := Go(s, [], 0, Begin);
    moves := Go(s, moves, 0, LoadNext);
    moves := GetAlone(s, moves, 1);
    moves := GetAlone(s, moves, 1);
    moves := Go(s, moves, 1, DropRef(1));
    moves := Go(s, moves, 1, Test);
    moves := PushAlone(s, moves, 1);
    moves := Go(s, moves, 0, Cas);
    moves := Go(s, moves, 0, SetCount);
    moves := GetAlone(s, moves, 0);
  }

  lemma StartRun(s: State)
    ensures Run(s, []) == s
  {
  }

  lemma TwoOk()
    ensures Inv(Two(), {1, 2}, [1, 2]) && Fresh(Two(), [1, 2])
  {
    var s := Two();
    assert Chain(s.next, 2, [2]) by {
      assert [2][1..] == [];
    }
    assert [1, 2][1..] == [2];
    assert Elements([1, 2]) == {1, 2};
    StartOk(s, {1, 2}, [1, 2]);
  }

  /** Two references to message 1 are dropped at once, and both threads find the count 0. */
  lemma BothFree() returns (moves: seq<Move>)
    ensures Run(Two(), moves).threads == [Freeing(1), Freeing(1)] && 1 !in Run(Two(), moves).held
  {
    hide Run, Next;
    var s := Two();
    StartRun(s);
    moves := GetAlone(s, [], 0);
    OneDropped(Run(s, moves));
    moves := Go(s, moves, 0, AddRef(1));
    moves := Go(s, moves, 0, DropRef(1));
    FreedTwice(Run(s, moves), 1, 0, 1);
    moves := Go(s, moves, 1, DropRef(1));
    moves := Go(s, moves, 0, Test);
    moves := Go(s, moves, 1, Test);
  }

  /** One reference more, and one dropped by the first of two threads. */
  lemma OneDropped(x: State)
    requires x.threads == [Idle, Idle] && x.held[1] == 1 && 1 in x.refs && x.refs[1] == 1
    ensures
      var y := Next(x, 0, AddRef(1));
      var z := Next(y, 0, DropRef(1));
      |y.threads| == 2 && z.threads == [Decremented(1), Idle] && z.held[1] == 1 && 1 in z.refs && z.refs[1] == 1
  {
    var y := Next(x, 0, AddRef(1));
    assert y.held[1] == 2 && y.refs[1] == 2 && y.threads == x.threads;
  }

  /** The message then follows itself on the list, and two calls of GetMessage get it. */
  lemma FreedAndTakenTwice() returns (moves: seq<Move>)
    ensures Run(Two(), moves).held[1] == 2 && 1 in Run(Two(), moves).refs && Run(Two(), moves).refs[1] == 1
  {
    hide Run, Next;
    var s := Two();
    moves := BothFree();
    moves := PushAlone(s, moves, 0);
    moves := PushAlone(s, moves, 1);
    moves := GetAlone(s, moves, 0);
    moves := GetAlone(s, moves, 1);
  }
}
