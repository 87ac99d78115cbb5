/**
 * The robust futex mutex (aos/linux_code/ipc_lib/aos_sync.cc) as a state machine whose steps are single
 * stores, atomic instructions or futex system calls, interleaved arbitrarily and with threads dying anywhere.
 */
module RobustMutex {
  import opened Basics

  /** A futex word: the owner's TID and the kernel's two flag bits. */
  datatype Word = Word(owner: Option<nat>, waiters: bool, died: bool)

  const FREE: Word := Word(None, false, false)

  /** A robust list pointer: the head of a thread's list or a mutex. */
  datatype Link = Head(t: nat) | To(m: nat)

  datatype Mutex = Mutex(word: Word, next: Link, prev: Link)

  /** Which function is acquiring: mutex_get, mutex_trylock, or condition_wait relocking. */
  datatype Kind = Lock | Try | Wait

  /** Where a thread is. Each constructor is the next store, instruction or system call it makes. */
  datatype Pc =
    | Idle
    // Adder constructor, futex word, kernel
    | Pend(m: nat, k: Kind)
    | Sleep(m: nat)
    | Cas(m: nat, k: Kind)
    | Kernel(m: nat, k: Kind)
    // mutex_finish_lock, before (`first`) or after the mutex is added to the list
    | Finish(m: nat, first: bool)
    | Clear(m: nat, first: bool)
    // Adder::Add store by store; `fin` when mutex_finish_lock is still to come, else `r` is the result
    | Add1(m: nat, fin: bool, r: nat)
    | Add2(m: nat, fin: bool, r: nat)
    | Add3(m: nat, fin: bool, r: nat)
    | Add4(m: nat, fin: bool, r: nat)
    // Adder destructor
    | Unpend(m: nat, r: nat)
    // mutex_unlock, on its own or (`w`) at the start of condition_wait
    | UPend(m: nat, w: bool)
    | URemove(m: nat, w: bool)
    | UBack(m: nat, w: bool, p: Link, n: Link)
    | UCas(m: nat, w: bool)
    | UKernel(m: nat, w: bool)
    | UUnpend(m: nat, w: bool)
    // LOG(FATAL)
    | Aborted

  /** `held`: the mutexes whose acquisition has returned and whose release has not begun. */
  datatype Thread = Thread(alive: bool, pc: Pc, headNext: Link, pending: Option<nat>, held: set<nat>)

  datatype State = State(mutexes: seq<Mutex>, threads: seq<Thread>)

  datatype Event = Tau | Died(t: nat, owned: set<nat>) | Returned(t: nat, m: nat, r: nat)

  predicate Owns(ms: seq<Mutex>, t: nat, m: nat) {
    m < |ms| && ms[m].word.owner == Some(t)
  }

  // ----- the kernel's view: walking a robust list -----

  /** The mutexes met when following `next` from `cur`, at most `fuel` of them. */
  function Walk(ms: seq<Mutex>, cur: Link, fuel: nat): seq<nat>
    decreases fuel
  {
    if fuel == 0 || cur.Head? || cur.m >= |ms| then [] else [cur.m] + Walk(ms, ms[cur.m].next, fuel - 1)
  }

  /** Following `next` from `cur` arrives back at the head of `t` within `fuel` mutexes. */
  predicate WalkEnds(ms: seq<Mutex>, t: nat, cur: Link, fuel: nat)
    decreases fuel
  {
    match cur
    case Head(u) => u == t
    case To(m) => fuel > 0 && m < |ms| && WalkEnds(ms, t, ms[m].next, fuel - 1)
  }

  /** What the kernel looks at when `t` dies: its list and its pending entry. */
  ghost predicate Visited(ms: seq<Mutex>, th: Thread, m: nat) {
    m in Walk(ms, th.headNext, |ms|) || th.pending == Some(m)
  }

  /** Owner death: the kernel marks every visited futex word that holds the dead thread's TID. */
  ghost predicate KernelCleanup(ms: seq<Mutex>, t: nat, th: Thread, ms': seq<Mutex>) {
    && |ms'| == |ms|
    && (forall m | 0 <= m < |ms| ::
          ms'[m] == if Visited(ms, th, m) && Owns(ms, t, m)
                    then ms[m].(word := Word(None, ms[m].word.waiters, true)) else ms[m])
  }

  // ----- the steps -----

  predicate SetWord(ms: seq<Mutex>, m: nat, w: Word, ms': seq<Mutex>) {
    m < |ms| && ms' == ms[m := ms[m].(word := w)]
  }

  /** `l->next = v`, for a mutex or the thread's own head. */
  predicate StoreNext(ms: seq<Mutex>, th: Thread, l: Link, v: Link, ms': seq<Mutex>, head': Link) {
    match l
    case Head(_) => ms' == ms && head' == v
    case To(m) => m < |ms| && ms' == ms[m := ms[m].(next := v)] && head' == th.headNext
  }

  /** After the acquisition through the kernel: mutex_get finishes first, mutex_trylock adds first. */
  function AfterKernel(m: nat, k: Kind): Pc {
    if k.Try? then Add1(m, true, 0) else Finish(m, true)
  }

  /** One step of thread `t` acquiring a mutex. */
  predicate AcquireStep(ms: seq<Mutex>, t: nat, th: Thread, e: Event, ms': seq<Mutex>, th': Thread) {
    match th.pc
    case Idle =>
      e == Tau && ms' == ms && th'.pc.Pend? && th'.pc.k != Wait && th'.pc.m < |ms| && th' == th.(pc := th'.pc)
    case Pend(m, k) =>
      e == Tau && ms' == ms && th' == th.(pending := Some(m), pc := if k.Wait? then Sleep(m) else Cas(m, k))
    case Sleep(m) =>
      e == Tau && ms' == ms && th' == th.(pc := Cas(m, Wait))
    case Cas(m, k) =>
      && e == Tau && m < |ms|
      && if ms[m].word == FREE then
           SetWord(ms, m, Word(Some(t), false, false), ms') && th' == th.(pc := Add1(m, false, 0))
         else
           && ms' == ms
           && th' == th.(pc := if k.Try? && !ms[m].word.died then Unpend(m, 4) else Kernel(m, k))
    case Kernel(m, k) =>
      e == Tau && m < |ms| && KernelLockStep(ms, t, th, m, k, ms', th')
    case Finish(m, first) =>
      && e == Tau && ms' == ms && m < |ms|
      && th' == th.(pc := if ms[m].word.died then Clear(m, first)
                          else if first then Add1(m, false, 0) else Unpend(m, 0))
    case Clear(m, first) =>
      && e == Tau && m < |ms| && SetWord(ms, m, ms[m].word.(died := false), ms')
      && th' == th.(pc := if first then Add1(m, false, 1) else Unpend(m, 1))
    case Unpend(m, r) =>
      && e == Returned(t, m, r) && ms' == ms
      && th' == th.(pending := None, pc := Idle, held := if r <= 1 then th.held + {m} else th.held)
    case _ => false
  }

  /** FUTEX_LOCK_PI, or FUTEX_TRYLOCK_PI for mutex_trylock. */
  predicate KernelLockStep(ms: seq<Mutex>, t: nat, th: Thread, m: nat, k: Kind, ms': seq<Mutex>, th': Thread)
    requires m < |ms|
  {
    var w := ms[m].word;
    // multiple lock: the pending entry is cleared and the process dies
    || (!k.Try? && m in th.held && ms' == ms && th' == th.(pending := None, pc := Aborted))
    // the mutex is free, possibly after its owner died: the kernel stores our TID and keeps the died bit
    || (w.owner == None && th' == th.(pc := AfterKernel(m, k))
        && (SetWord(ms, m, Word(Some(t), true, w.died), ms') || SetWord(ms, m, Word(Some(t), false, w.died), ms')))
    // another thread's unlock handed it to us while we were waiting
    || (!k.Try? && w.owner == Some(t) && m !in th.held && ms' == ms && th' == th.(pc := AfterKernel(m, k)))
    // not free: trylock fails
    || (k.Try? && w.owner != None && ms' == ms && th' == th.(pc := Unpend(m, 4)))
    // not free: go to sleep as a waiter
    || (!k.Try? && w.owner != None && w.owner != Some(t) && th' == th && SetWord(ms, m, w.(waiters := true), ms'))
    // interrupted: try again, or give up with 2, or with 3 after a timeout
    || (!k.Try? && w.owner != Some(t) && ms' == ms && th' == th.(pc := Cas(m, k)))
    || (k.Lock? && w.owner != Some(t) && ms' == ms && (th' == th.(pc := Unpend(m, 2)) || th' == th.(pc := Unpend(m, 3))))
  }

  /** One store of Adder::Add. */
  predicate AddStep(ms: seq<Mutex>, t: nat, th: Thread, e: Event, ms': seq<Mutex>, th': Thread) {
    match th.pc
    case Add1(m, fin, r) =>
      e == Tau && m < |ms| && ms' == ms[m := ms[m].(next := th.headNext)] && th' == th.(pc := Add2(m, fin, r))
    case Add2(m, fin, r) =>
      e == Tau && ms' == ms && th' == th.(headNext := To(m), pc := Add3(m, fin, r))
    case Add3(m, fin, r) =>
      e == Tau && m < |ms| && ms' == ms[m := ms[m].(prev := Head(t))] && th' == th.(pc := Add4(m, fin, r))
    case Add4(m, fin, r) =>
      && e == Tau && m < |ms|
      && th' == th.(pc := if fin then Finish(m, false) else Unpend(m, r))
      && (match ms[m].next
          case Head(_) => ms' == ms
          case To(x) => x < |ms| && ms' == ms[x := ms[x].(prev := To(m))])
    case _ => false
  }

  /** One step of mutex_unlock. */
  predicate UnlockStep(ms: seq<Mutex>, threads: seq<Thread>, t: nat, th: Thread, e: Event, ms': seq<Mutex>, th': Thread) {
    match th.pc
    case Idle =>
      && e == Tau && ms' == ms
      && (|| (th'.pc == Aborted && th' == th.(pending := None, pc := Aborted)
              && exists m :: 0 <= m < |ms| && !Owns(ms, t, m))
          || (th'.pc.UPend? && Owns(ms, t, th'.pc.m) && th' == th.(pc := th'.pc, held := th.held - {th'.pc.m})))
    case UPend(m, w) =>
      e == Tau && ms' == ms && th' == th.(pending := Some(m), pc := URemove(m, w))
    case URemove(m, w) =>
      && e == Tau && m < |ms|
      && StoreNext(ms, th, ms[m].prev, ms[m].next, ms', th'.headNext)
      && th' == th.(headNext := th'.headNext, pc := UBack(m, w, ms[m].prev, ms[m].next))
    case UBack(m, w, p, n) =>
      && e == Tau && th' == th.(pc := UCas(m, w))
      && (match n
          case Head(_) => ms' == ms
          case To(x) => x < |ms| && ms' == ms[x := ms[x].(prev := p)])
    case UCas(m, w) =>
      && e == Tau && m < |ms|
      && if ms[m].word == Word(Some(t), false, false) then
           SetWord(ms, m, FREE, ms') && th' == th.(pc := UUnpend(m, w))
         else
           ms' == ms && th' == th.(pc := UKernel(m, w))
    case UKernel(m, w) =>
      // FUTEX_UNLOCK_PI: freed, or handed to a thread waiting in the kernel
      && e == Tau && m < |ms| && th' == th.(pc := UUnpend(m, w))
      && (|| SetWord(ms, m, FREE, ms')
          || (exists u, b :: 0 <= u < |threads| && u != t && WaitsFor(threads[u], m)
                             && SetWord(ms, m, Word(Some(u), b, false), ms')))
    case UUnpend(m, w) =>
      e == Tau && ms' == ms && th' == th.(pending := None, pc := if w then Pend(m, Wait) else Idle)
    case _ => false
  }

  predicate WaitsFor(th: Thread, m: nat) {
    th.alive && th.pc.Kernel? && th.pc.m == m && !th.pc.k.Try? && m !in th.held
  }

  predicate DeathStep(ms: seq<Mutex>, t: nat, th: Thread, e: Event, th': Thread) {
    th' == th.(alive := false) && e == Died(t, set m | 0 <= m < |ms| && Owns(ms, t, m))
  }

  ghost predicate ThreadStep(ms: seq<Mutex>, threads: seq<Thread>, t: nat, th: Thread, e: Event, ms': seq<Mutex>, th': Thread) {
    && th.alive
    && (|| AcquireStep(ms, t, th, e, ms', th')
        || AddStep(ms, t, th, e, ms', th')
        || UnlockStep(ms, threads, t, th, e, ms', th')
        || (DeathStep(ms, t, th, e, th') && KernelCleanup(ms, t, th, ms')))
  }

  ghost predicate Step(s: State, e: Event, s': State) {
    exists t, th' :: 0 <= t < |s.threads|
      && ThreadStep(s.mutexes, s.threads, t, s.threads[t], e, s'.mutexes, th')
      && s'.threads == s.threads[t := th']
  }

  /** All mutexes free, no thread holds anything; `next` and `previous` hold whatever was in memory. */
  ghost predicate Init(s: State) {
    && (forall m | 0 <= m < |s.mutexes| :: s.mutexes[m].word == FREE)
    && (forall t | 0 <= t < |s.threads| :: s.threads[t] == Thread(true, Idle, Head(t), None, {}))
  }

  // ----- the invariant of one thread -----

  /** The link before and the link after position `k` of the list `ls` of thread `t`. */
  function Before(t: nat, ls: seq<nat>, k: nat): Link
    requires k <= |ls|
  {
    if k == 0 then Head(t) else To(ls[k - 1])
  }

  function After(t: nat, ls: seq<nat>, k: nat): Link {
    if k < |ls| then To(ls[k]) else Head(t)
  }

  ghost predicate NextOk(ms: seq<Mutex>, t: nat, ls: seq<nat>, i: nat)
    requires i < |ls|
  {
    ls[i] < |ms| && ms[ls[i]].next == After(t, ls, i + 1)
  }

  /** `ls` is the list of mutexes that starts at `head`: distinct, owned by `t`, linked forward. */
  ghost predicate ListOk(ms: seq<Mutex>, t: nat, head: Link, ls: seq<nat>) {
    && head == After(t, ls, 0)
    && (forall i | 0 <= i < |ls| :: Owns(ms, t, ls[i]))
    && (forall i | 0 <= i < |ls| :: NextOk(ms, t, ls, i))
    && (forall i, j | 0 <= i < j < |ls| :: ls[i] != ls[j])
  }

  ghost predicate PrevOk(ms: seq<Mutex>, t: nat, ls: seq<nat>, i: nat)
    requires i < |ls|
  {
    ls[i] < |ms| && ms[ls[i]].prev == Before(t, ls, i)
  }

  /** The back pointers that are about to be stored. */
  predicate PrevPending(pc: Pc, ls: seq<nat>, i: nat)
    requires i < |ls|
  {
    || (pc.Add3? && i <= 1)
    || (pc.Add4? && i == 1)
    || (pc.UBack? && pc.n == To(ls[i]))
  }

  ghost predicate PrevsOk(ms: seq<Mutex>, t: nat, pc: Pc, ls: seq<nat>) {
    forall i | 0 <= i < |ls| && !PrevPending(pc, ls, i) :: PrevOk(ms, t, ls, i)
  }

  /** Every mutex whose futex word holds the TID of `t` is in the list or is the pending entry. */
  ghost predicate Covered(ms: seq<Mutex>, t: nat, pending: Option<nat>, ls: seq<nat>) {
    forall m: nat | Owns(ms, t, m) :: m in ls || pending == Some(m)
  }

  /** The mutex being worked on, with the pending entry that covers it. */
  predicate Working(ms: seq<Mutex>, t: nat, th: Thread, ls: seq<nat>, m: nat, owned: bool, listed: bool) {
    th.pending == Some(m) && m < |ms| && Owns(ms, t, m) == owned && (m in ls) == listed
  }

  /** What each place in the code knows. */
  ghost predicate PcOk(ms: seq<Mutex>, t: nat, th: Thread, ls: seq<nat>) {
    match th.pc
    case Idle => th.pending == None && th.held == Elements(ls)
    case Aborted => th.pending == None && th.held == Elements(ls)
    case Pend(m, k) => th.pending == None && m < |ms| && th.held == Elements(ls) && (k.Wait? ==> m !in ls)
    case Sleep(m) => th.pending == Some(m) && m < |ms| && th.held == Elements(ls) && !Owns(ms, t, m)
    case Cas(m, k) => th.pending == Some(m) && m < |ms| && th.held == Elements(ls) && (Owns(ms, t, m) ==> m in ls)
    case Kernel(m, k) => th.pending == Some(m) && m < |ms| && th.held == Elements(ls) && (k.Try? && Owns(ms, t, m) ==> m in ls)
    case Finish(m, first) => Working(ms, t, th, ls, m, true, !first) && th.held == Elements(ls) - {m} && (!first ==> ls[0] == m)
    case Clear(m, first) => Working(ms, t, th, ls, m, true, !first) && th.held == Elements(ls) - {m} && ms[m].word.died
    case Add1(m, fin, r) => Working(ms, t, th, ls, m, true, false) && th.held == Elements(ls) && AddDied(ms, m, fin, r)
    case Add2(m, fin, r) =>
      Working(ms, t, th, ls, m, true, false) && th.held == Elements(ls) && AddDied(ms, m, fin, r) && ms[m].next == th.headNext
    case Add3(m, fin, r) =>
      Working(ms, t, th, ls, m, true, true) && th.held == Elements(ls) - {m} && AddDied(ms, m, fin, r) && ls[0] == m
    case Add4(m, fin, r) =>
      Working(ms, t, th, ls, m, true, true) && th.held == Elements(ls) - {m} && AddDied(ms, m, fin, r) && ls[0] == m
    case Unpend(m, r) =>
      if r <= 1 then Working(ms, t, th, ls, m, true, true) && th.held == Elements(ls) - {m} && !ms[m].word.died
      else th.pending == Some(m) && m < |ms| && th.held == Elements(ls) && (Owns(ms, t, m) ==> m in ls)
    case UPend(m, w) => th.pending == None && m in ls && th.held == Elements(ls) - {m}
    case URemove(m, w) => Working(ms, t, th, ls, m, true, true) && th.held == Elements(ls) - {m}
    case UBack(m, w, p, n) =>
      && Working(ms, t, th, ls, m, true, false) && th.held == Elements(ls)
      && (exists k :: 0 <= k <= |ls| && p == Before(t, ls, k) && n == After(t, ls, k))
    case UCas(m, w) => Working(ms, t, th, ls, m, true, false) && th.held == Elements(ls)
    case UKernel(m, w) => Working(ms, t, th, ls, m, true, false) && th.held == Elements(ls)
    case UUnpend(m, w) => Working(ms, t, th, ls, m, false, false) && th.held == Elements(ls)
  }

  /** While adding, the died bit is still there exactly if mutex_finish_lock is still to come for it. */
  predicate AddDied(ms: seq<Mutex>, m: nat, fin: bool, r: nat)
    requires m < |ms|
  {
    r <= 1 && (!fin ==> !ms[m].word.died)
  }

  /** The places where an owned mutex may still carry the died bit. */
  predicate MayBeDied(pc: Pc, m: nat) {
    || (pc.Finish? && pc.m == m) || (pc.Clear? && pc.m == m)
    || ((pc.Add1? || pc.Add2? || pc.Add3? || pc.Add4?) && pc.m == m && pc.fin)
  }

  ghost predicate DiedOnlyWhileAcquiring(ms: seq<Mutex>, t: nat, pc: Pc) {
    forall m: nat | Owns(ms, t, m) && ms[m].word.died :: MayBeDied(pc, m)
  }

  ghost predicate ThreadOk(ms: seq<Mutex>, t: nat, th: Thread, ls: seq<nat>) {
    && ListOk(ms, t, th.headNext, ls)
    && PrevsOk(ms, t, th.pc, ls)
    && Covered(ms, t, th.pending, ls)
    && PcOk(ms, t, th, ls)
    && DiedOnlyWhileAcquiring(ms, t, th.pc)
  }

  // ----- a step leaves the other threads alone -----

  /** What a step of another thread may do to the mutexes of `u`: hand it one it waits for, nothing else. */
  ghost predicate Untouched(ms: seq<Mutex>, ms': seq<Mutex>, u: nat, th: Thread) {
    && |ms'| == |ms|
    && (forall m: nat | Owns(ms, u, m) :: Owns(ms', u, m) && ms'[m].next == ms[m].next && ms'[m].prev == ms[m].prev
                                          && ms'[m].word.died == ms[m].word.died)
    && (forall m: nat | Owns(ms', u, m) && !Owns(ms, u, m) :: WaitsFor(th, m) && !ms'[m].word.died)
  }

  lemma OtherThreadOk(ms: seq<Mutex>, ms': seq<Mutex>, u: nat, th: Thread, ls: seq<nat>)
    requires ThreadOk(ms, u, th, ls) && Untouched(ms, ms', u, th)
    ensures ThreadOk(ms', u, th, ls)
  {
    OtherListOk(ms, ms', u, th, ls);
    OtherPcOk(ms, ms', u, th, ls);
  }

  lemma OtherListOk(ms: seq<Mutex>, ms': seq<Mutex>, u: nat, th: Thread, ls: seq<nat>)
    requires ListOk(ms, u, th.headNext, ls) && PrevsOk(ms, u, th.pc, ls) && Untouched(ms, ms', u, th)
    ensures ListOk(ms', u, th.headNext, ls) && PrevsOk(ms', u, th.pc, ls)
  {
    forall i | 0 <= i < |ls|
      ensures NextOk(ms', u, ls, i) && (!PrevPending(th.pc, ls, i) ==> PrevOk(ms', u, ls, i))
    {
      assert NextOk(ms, u, ls, i) && Owns(ms, u, ls[i]);
      assert !PrevPending(th.pc, ls, i) ==> PrevOk(ms, u, ls, i);
    }
  }

  lemma OtherPcOk(ms: seq<Mutex>, ms': seq<Mutex>, u: nat, th: Thread, ls: seq<nat>)
    requires ThreadOk(ms, u, th, ls) && Untouched(ms, ms', u, th)
    ensures Covered(ms', u, th.pending, ls) && PcOk(ms', u, th, ls) && DiedOnlyWhileAcquiring(ms', u, th.pc)
  {
    forall m: nat | Owns(ms', u, m)
      ensures m in ls || th.pending == Some(m)
    {
      if Owns(ms, u, m) {
        assert m in ls || th.pending == Some(m);
      }
    }
  }

  /** A step of `t` writes only mutexes that are free, its own, or only sets the waiters bit. */
  lemma StepUntouched(ms: seq<Mutex>, threads: seq<Thread>, t: nat, th: Thread, e: Event, ms': seq<Mutex>, th': Thread,
                      ls: seq<nat>, u: nat)
    requires ThreadOk(ms, t, th, ls) && ThreadStep(ms, threads, t, th, e, ms', th')
    requires u < |threads| && u != t
    ensures Untouched(ms, ms', u, threads[u])
  {
    if AddStep(ms, t, th, e, ms', th') {
      if th.pc.Add4? && ms[th.pc.m].next.To? {
        assert NextOk(ms, t, ls, 0);
        AfterOwned(ms, t, th, ls, 1);
      }
    } else if UnlockStep(ms, threads, t, th, e, ms', th') {
      UnlockUntouched(ms, threads, t, th, e, ms', th', ls, u);
    }
  }

  /** The mutexes next to a position of the list are owned. */
  lemma AfterOwned(ms: seq<Mutex>, t: nat, th: Thread, ls: seq<nat>, k: nat)
    requires ListOk(ms, t, th.headNext, ls) && k <= |ls|
    ensures After(t, ls, k).To? ==> Owns(ms, t, After(t, ls, k).m)
    ensures Before(t, ls, k).To? ==> Owns(ms, t, Before(t, ls, k).m)
  {
    assert k < |ls| ==> Owns(ms, t, ls[k]);
    assert k > 0 ==> Owns(ms, t, ls[k - 1]);
  }

  lemma UnlockUntouched(ms: seq<Mutex>, threads: seq<Thread>, t: nat, th: Thread, e: Event, ms': seq<Mutex>, th': Thread,
                        ls: seq<nat>, u: nat)
    requires ThreadOk(ms, t, th, ls) && UnlockStep(ms, threads, t, th, e, ms', th')
    requires u < |threads| && u != t
    ensures Untouched(ms, ms', u, threads[u])
  {
    match th.pc
    case URemove(m, w) =>
      var k :| 0 <= k < |ls| && ls[k] == m;
      assert PrevOk(ms, t, ls, k);
      AfterOwned(ms, t, th, ls, k);
    case UBack(m, w, p, n) =>
      var k :| 0 <= k <= |ls| && p == Before(t, ls, k) && n == After(t, ls, k);
      AfterOwned(ms, t, th, ls, k);
    case _ =>
  }

  // ----- a step keeps the invariant of its own thread -----

  /** A step that does not touch the links of the listed mutexes keeps the list. */
  lemma ListKept(ms: seq<Mutex>, t: nat, th: Thread, ls: seq<nat>, ms': seq<Mutex>, th': Thread)
    requires ListOk(ms, t, th.headNext, ls) && PrevsOk(ms, t, th.pc, ls)
    requires th'.headNext == th.headNext && |ms'| == |ms|
    requires forall i | 0 <= i < |ls| :: Owns(ms', t, ls[i]) && ms'[ls[i]].next == ms[ls[i]].next && ms'[ls[i]].prev == ms[ls[i]].prev
    requires !th.pc.Add3? && !th.pc.Add4? && !th.pc.UBack?
    ensures ListOk(ms', t, th'.headNext, ls) && PrevsOk(ms', t, th'.pc, ls)
  {
    forall i | 0 <= i < |ls|
      ensures PrevOk(ms', t, ls, i) && NextOk(ms', t, ls, i)
    {
      assert PrevOk(ms, t, ls, i) && NextOk(ms, t, ls, i);
    }
  }

  /** A step that only moves the thread on. */
  lemma QuietOwn(ms: seq<Mutex>, t: nat, th: Thread, e: Event, ms': seq<Mutex>, th': Thread, ls: seq<nat>)
    requires ThreadOk(ms, t, th, ls) && AcquireStep(ms, t, th, e, ms', th')
    requires th.pc.Idle? || th.pc.Pend? || th.pc.Sleep? || th.pc.Finish? || th.pc.Unpend?
    ensures ThreadOk(ms', t, th', ls)
  {
    ListKept(ms, t, th, ls, ms', th');
  }

  /** The futex word of a free mutex takes our TID. */
  lemma WordTaken(ms: seq<Mutex>, t: nat, th: Thread, ls: seq<nat>, m: nat, w: Word, ms': seq<Mutex>, pc': Pc)
    requires ThreadOk(ms, t, th, ls) && SetWord(ms, m, w, ms') && ms[m].word.owner == None && w.owner == Some(t)
    requires th.pending == Some(m) && (th.pc.Cas? || th.pc.Kernel?)
    requires w.died ==> MayBeDied(pc', m)
    ensures m !in ls && ListOk(ms', t, th.headNext, ls) && PrevsOk(ms', t, pc', ls)
    ensures Covered(ms', t, th.pending, ls) && DiedOnlyWhileAcquiring(ms', t, pc')
  {
    assert m !in ls;
    ListKept(ms, t, th, ls, ms', th.(pc := pc'));
    forall x: nat | Owns(ms', t, x)
      ensures x in ls || th.pending == Some(x)
    {
      assert x != m ==> Owns(ms, t, x);
    }
    assert forall x: nat | Owns(ms, t, x) :: !ms[x].word.died;
  }

  lemma CasOwn(ms: seq<Mutex>, t: nat, th: Thread, e: Event, ms': seq<Mutex>, th': Thread, ls: seq<nat>)
    requires ThreadOk(ms, t, th, ls) && AcquireStep(ms, t, th, e, ms', th') && th.pc.Cas?
    ensures ThreadOk(ms', t, th', ls)
  {
    var m := th.pc.m;
    if ms[m].word == FREE {
      WordTaken(ms, t, th, ls, m, Word(Some(t), false, false), ms', th'.pc);
    } else {
      ListKept(ms, t, th, ls, ms', th');
    }
  }

  lemma KernelQuiet(ms: seq<Mutex>, t: nat, th: Thread, ls: seq<nat>, th': Thread)
    requires ThreadOk(ms, t, th, ls) && th.pc.Kernel? && th.pc.m < |ms| && KernelLockStep(ms, t, th, th.pc.m, th.pc.k, ms, th')
    requires ms[th.pc.m].word.owner != None
    ensures ThreadOk(ms, t, th', ls)
  {
    ListKept(ms, t, th, ls, ms, th');
    assert Owns(ms, t, th.pc.m) ==> !ms[th.pc.m].word.died;
  }

  lemma KernelGivesUp(ms: seq<Mutex>, t: nat, th: Thread, ls: seq<nat>, th': Thread)
    requires ThreadOk(ms, t, th, ls) && th.pc.Kernel? && th.pc.m < |ms| && KernelLockStep(ms, t, th, th.pc.m, th.pc.k, ms, th')
    requires ms[th.pc.m].word.owner == None
    ensures ThreadOk(ms, t, th', ls)
  {
    ListKept(ms, t, th, ls, ms, th');
    assert th.pc.m !in ls;
  }

  lemma KernelOwn(ms: seq<Mutex>, t: nat, th: Thread, e: Event, ms': seq<Mutex>, th': Thread, ls: seq<nat>)
    requires ThreadOk(ms, t, th, ls) && AcquireStep(ms, t, th, e, ms', th') && th.pc.Kernel?
    ensures ThreadOk(ms', t, th', ls)
  {
    var m := th.pc.m;
    if ms' == ms {
      if ms[m].word.owner == None {
        KernelGivesUp(ms, t, th, ls, th');
      } else {
        KernelQuiet(ms, t, th, ls, th');
      }
    } else if ms[m].word.owner == None {
      WordTaken(ms, t, th, ls, m, ms'[m].word, ms', th'.pc);
    } else {
      WaitersSet(ms, t, th, ls, m, ms');
    }
  }

  lemma WaitersSet(ms: seq<Mutex>, t: nat, th: Thread, ls: seq<nat>, m: nat, ms': seq<Mutex>)
    requires ThreadOk(ms, t, th, ls) && th.pc.Kernel? && m < |ms| && SetWord(ms, m, ms[m].word.(waiters := true), ms')
    ensures ThreadOk(ms', t, th, ls)
  {
    ListKept(ms, t, th, ls, ms', th);
    assert forall x: nat :: Owns(ms', t, x) <==> Owns(ms, t, x);
  }

  lemma ClearOwn(ms: seq<Mutex>, t: nat, th: Thread, e: Event, ms': seq<Mutex>, th': Thread, ls: seq<nat>)
    requires ThreadOk(ms, t, th, ls) && AcquireStep(ms, t, th, e, ms', th') && th.pc.Clear?
    ensures ThreadOk(ms', t, th', ls)
  {
    ListKept(ms, t, th, ls, ms', th');
    assert forall x: nat :: Owns(ms', t, x) <==> Owns(ms, t, x);
  }

  // ----- Adder::Add -----

  lemma Add1Own(ms: seq<Mutex>, t: nat, th: Thread, e: Event, ms': seq<Mutex>, th': Thread, ls: seq<nat>)
    requires ThreadOk(ms, t, th, ls) && AddStep(ms, t, th, e, ms', th') && th.pc.Add1?
    ensures ThreadOk(ms', t, th', ls)
  {
    ListKept(ms, t, th, ls, ms', th');
    assert forall x: nat :: Owns(ms', t, x) <==> Owns(ms, t, x);
  }

  lemma ListPushed(ms: seq<Mutex>, t: nat, head: Link, pc: Pc, ls: seq<nat>, m: nat)
    requires ListOk(ms, t, head, ls) && PrevsOk(ms, t, pc, ls) && pc.Add2?
    requires Owns(ms, t, m) && m !in ls && ms[m].next == head
    ensures ListOk(ms, t, To(m), [m] + ls)
    ensures forall i | 2 <= i < |ls| + 1 :: PrevOk(ms, t, [m] + ls, i)
  {
    var ls' := [m] + ls;
    forall i | 0 <= i < |ls'|
      ensures Owns(ms, t, ls'[i]) && NextOk(ms, t, ls', i)
      ensures i >= 2 ==> PrevOk(ms, t, ls', i)
    {
      if i > 0 {
        assert ls'[i] == ls[i - 1] && PrevOk(ms, t, ls, i - 1) && NextOk(ms, t, ls, i - 1);
      }
    }
  }

  /** The store to the head puts the mutex at the front of the list. */
  lemma Add2Own(ms: seq<Mutex>, t: nat, th: Thread, e: Event, ms': seq<Mutex>, th': Thread, ls: seq<nat>)
    requires ThreadOk(ms, t, th, ls) && AddStep(ms, t, th, e, ms', th') && th.pc.Add2?
    ensures ThreadOk(ms', t, th', [th.pc.m] + ls)
  {
    ListPushed(ms, t, th.headNext, th.pc, ls, th.pc.m);
    assert forall x :: x in [th.pc.m] + ls <==> x == th.pc.m || x in ls;
    assert Elements([th.pc.m] + ls) - {th.pc.m} == Elements(ls);
  }

  lemma Add3Own(ms: seq<Mutex>, t: nat, th: Thread, e: Event, ms': seq<Mutex>, th': Thread, ls: seq<nat>)
    requires ThreadOk(ms, t, th, ls) && AddStep(ms, t, th, e, ms', th') && th.pc.Add3?
    ensures ThreadOk(ms', t, th', ls)
  {
    assert forall x: nat :: Owns(ms', t, x) <==> Owns(ms, t, x);
    forall i | 0 <= i < |ls|
      ensures NextOk(ms', t, ls, i) && (i != 1 ==> PrevOk(ms', t, ls, i))
    {
      assert NextOk(ms, t, ls, i);
      assert i >= 2 ==> PrevOk(ms, t, ls, i);
    }
  }

  lemma Add4Own(ms: seq<Mutex>, t: nat, th: Thread, e: Event, ms': seq<Mutex>, th': Thread, ls: seq<nat>)
    requires ThreadOk(ms, t, th, ls) && AddStep(ms, t, th, e, ms', th') && th.pc.Add4?
    ensures ThreadOk(ms', t, th', ls)
  {
    assert NextOk(ms, t, ls, 0);
    assert |ls| > 1 ==> Owns(ms, t, ls[1]);
    assert forall x: nat :: Owns(ms', t, x) <==> Owns(ms, t, x);
    forall i | 0 <= i < |ls|
      ensures PrevOk(ms', t, ls, i) && NextOk(ms', t, ls, i)
    {
      assert NextOk(ms, t, ls, i);
      assert i != 1 ==> PrevOk(ms, t, ls, i);
    }
  }

  // ----- mutex_unlock -----

  lemma UIdleOwn(ms: seq<Mutex>, threads: seq<Thread>, t: nat, th: Thread, e: Event, ms': seq<Mutex>, th': Thread, ls: seq<nat>)
    requires ThreadOk(ms, t, th, ls) && UnlockStep(ms, threads, t, th, e, ms', th') && (th.pc.Idle? || th.pc.UPend?)
    ensures ThreadOk(ms', t, th', ls)
  {
    ListKept(ms, t, th, ls, ms', th');
    assert th.pc.UPend? ==> th.pc.m in ls && Owns(ms, t, th.pc.m);
  }

  ghost function Without(ls: seq<nat>, k: nat): seq<nat>
    requires k < |ls|
  {
    ls[..k] + ls[k + 1..]
  }

  lemma WithoutElements(ls: seq<nat>, k: nat)
    requires k < |ls| && forall i, j | 0 <= i < j < |ls| :: ls[i] != ls[j]
    ensures forall x :: x in Without(ls, k) <==> x in ls && x != ls[k]
  {
    assert ls == ls[..k] + [ls[k]] + ls[k + 1..];
    forall x | x in Without(ls, k)
      ensures x in ls && x != ls[k]
    {
      if x in ls[..k] {
        var i :| 0 <= i < k && ls[i] == x;
      } else {
        var i :| k + 1 <= i < |ls| && ls[i] == x;
      }
    }
  }

  lemma RemovedAt(ms: seq<Mutex>, t: nat, th: Thread, ls: seq<nat>, k: nat, ms': seq<Mutex>, head': Link, i: nat)
    requires ListOk(ms, t, th.headNext, ls) && k < |ls| && i < |ls| && i != k
    requires StoreNext(ms, th, Before(t, ls, k), After(t, ls, k + 1), ms', head')
    ensures Owns(ms', t, ls[i])
    ensures ms'[ls[i]].next == if i + 1 == k then After(t, ls, k + 1) else After(t, ls, i + 1)
  {
    assert Owns(ms, t, ls[i]) && NextOk(ms, t, ls, i);
    assert k > 0 ==> Owns(ms, t, ls[k - 1]);
    assert k > 0 && i != k - 1 ==> ls[i] != ls[k - 1];
  }

  /** The store of Remover takes the mutex out of the forward list. */
  lemma ListRemoved(ms: seq<Mutex>, t: nat, th: Thread, ls: seq<nat>, k: nat, ms': seq<Mutex>, head': Link)
    requires ListOk(ms, t, th.headNext, ls) && k < |ls|
    requires StoreNext(ms, th, Before(t, ls, k), After(t, ls, k + 1), ms', head')
    ensures ListOk(ms', t, head', Without(ls, k))
  {
    var ls' := Without(ls, k);
    forall i | 0 <= i < |ls'|
      ensures Owns(ms', t, ls'[i]) && NextOk(ms', t, ls', i)
    {
      RemovedAt(ms, t, th, ls, k, ms', head', if i < k then i else i + 1);
    }
    forall i, j | 0 <= i < j < |ls'|
      ensures ls'[i] != ls'[j]
    {
      assert ls[if i < k then i else i + 1] != ls[if j < k then j else j + 1];
    }
  }

  lemma PrevsRemoved(ms: seq<Mutex>, t: nat, th: Thread, ls: seq<nat>, k: nat, ms': seq<Mutex>, head': Link)
    requires ListOk(ms, t, th.headNext, ls) && PrevsOk(ms, t, th.pc, ls) && th.pc.URemove? && k < |ls|
    requires StoreNext(ms, th, Before(t, ls, k), After(t, ls, k + 1), ms', head')
    ensures forall i | 0 <= i < |Without(ls, k)| && i != k :: PrevOk(ms', t, Without(ls, k), i)
  {
    var ls' := Without(ls, k);
    forall i | 0 <= i < |ls'| && i != k
      ensures PrevOk(ms', t, ls', i)
    {
      var j := if i < k then i else i + 1;
      assert ls'[i] == ls[j] && PrevOk(ms, t, ls, j);
    }
  }

  lemma URemoveOwn(ms: seq<Mutex>, threads: seq<Thread>, t: nat, th: Thread, e: Event, ms': seq<Mutex>, th': Thread, ls: seq<nat>, k: nat)
    requires ThreadOk(ms, t, th, ls) && UnlockStep(ms, threads, t, th, e, ms', th') && th.pc.URemove?
    requires k < |ls| && ls[k] == th.pc.m
    ensures ThreadOk(ms', t, th', Without(ls, k))
  {
    var m, ls' := th.pc.m, Without(ls, k);
    assert PrevOk(ms, t, ls, k) && NextOk(ms, t, ls, k);
    ListRemoved(ms, t, th, ls, k, ms', th'.headNext);
    PrevsRemoved(ms, t, th, ls, k, ms', th'.headNext);
    WithoutElements(ls, k);
    assert Elements(ls') == Elements(ls) - {m};
    assert After(t, ls, k + 1) == After(t, ls', k) && Before(t, ls, k) == Before(t, ls', k);
    WordsKept(ms, t, th, ls, ms');
  }

  /** Stores to the links change no futex word. */
  lemma WordsKept(ms: seq<Mutex>, t: nat, th: Thread, ls: seq<nat>, ms': seq<Mutex>)
    requires |ms'| == |ms| && forall x | 0 <= x < |ms| :: ms'[x].word == ms[x].word
    ensures forall x: nat :: Owns(ms', t, x) <==> Owns(ms, t, x)
  {
  }

  lemma UBackOwn(ms: seq<Mutex>, threads: seq<Thread>, t: nat, th: Thread, e: Event, ms': seq<Mutex>, th': Thread, ls: seq<nat>)
    requires ThreadOk(ms, t, th, ls) && UnlockStep(ms, threads, t, th, e, ms', th') && th.pc.UBack?
    ensures ThreadOk(ms', t, th', ls)
  {
    var k :| 0 <= k <= |ls| && th.pc.p == Before(t, ls, k) && th.pc.n == After(t, ls, k);
    WordsKept(ms, t, th, ls, ms');
    forall i | 0 <= i < |ls|
      ensures PrevOk(ms', t, ls, i) && NextOk(ms', t, ls, i)
    {
      assert Owns(ms, t, ls[i]) && NextOk(ms, t, ls, i);
      assert i != k ==> PrevOk(ms, t, ls, i);
    }
  }

  /** Giving up the futex word of a mutex that is no longer in the list. */
  lemma WordReleased(ms: seq<Mutex>, t: nat, th: Thread, ls: seq<nat>, m: nat, b: bool, w: Word, ms': seq<Mutex>)
    requires ThreadOk(ms, t, th, ls) && SetWord(ms, m, w, ms') && w.owner != Some(t)
    requires th.pc == UCas(m, b) || th.pc == UKernel(m, b)
    ensures ThreadOk(ms', t, th.(pc := UUnpend(m, b)), ls)
  {
    ListKept(ms, t, th, ls, ms', th.(pc := UUnpend(m, b)));
    assert forall x: nat :: Owns(ms', t, x) <==> Owns(ms, t, x) && x != m;
  }

  lemma UReleaseOwn(ms: seq<Mutex>, threads: seq<Thread>, t: nat, th: Thread, e: Event, ms': seq<Mutex>, th': Thread, ls: seq<nat>)
    requires ThreadOk(ms, t, th, ls) && UnlockStep(ms, threads, t, th, e, ms', th') && (th.pc.UCas? || th.pc.UKernel?)
    ensures ThreadOk(ms', t, th', ls)
  {
    var m := th.pc.m;
    if th'.pc.UUnpend? {
      WordReleased(ms, t, th, ls, m, th.pc.w, ms'[m].word, ms');
    } else {
      ListKept(ms, t, th, ls, ms', th');
    }
  }

  lemma UUnpendOwn(ms: seq<Mutex>, threads: seq<Thread>, t: nat, th: Thread, e: Event, ms': seq<Mutex>, th': Thread, ls: seq<nat>)
    requires ThreadOk(ms, t, th, ls) && UnlockStep(ms, threads, t, th, e, ms', th') && th.pc.UUnpend?
    ensures ThreadOk(ms', t, th', ls)
  {
    ListKept(ms, t, th, ls, ms', th');
  }

  // ----- owner death -----

  lemma DistinctBelow(ls: seq<nat>, n: nat)
    requires (forall i | 0 <= i < |ls| :: ls[i] < n) && (forall i, j | 0 <= i < j < |ls| :: ls[i] != ls[j])
    ensures |ls| <= n
  {
    DistinctSize(ls);
    SubsetSize(Elements(ls), Below(n));
  }

  ghost function Below(n: nat): (r: set<nat>)
    ensures |r| == n && forall x: nat :: x in r <==> x < n
  {
    if n == 0 then {} else Below(n - 1) + {n - 1}
  }

  lemma {:induction false} DistinctSize(ls: seq<nat>)
    requires forall i, j | 0 <= i < j < |ls| :: ls[i] != ls[j]
    ensures |Elements(ls)| == |ls|
  {
    if ls != [] {
      var init, last := ls[..|ls| - 1], ls[|ls| - 1];
      DistinctSize(init);
      assert Elements(ls) == Elements(init) + {last};
      assert last !in init;
    }
  }

  /** The kernel's walk visits exactly the list, in order, and comes back to the head. */
  lemma {:induction false} WalkIsList(ms: seq<Mutex>, t: nat, head: Link, ls: seq<nat>, k: nat, fuel: nat)
    requires ListOk(ms, t, head, ls) && k <= |ls| <= k + fuel
    ensures Walk(ms, After(t, ls, k), fuel) == ls[k..]
    ensures WalkEnds(ms, t, After(t, ls, k), fuel)
    decreases fuel
  {
    if k < |ls| {
      assert Owns(ms, t, ls[k]) && NextOk(ms, t, ls, k);
      assert ls[k..] == [ls[k]] + ls[k + 1..];
      WalkIsList(ms, t, head, ls, k + 1, fuel - 1);
    }
  }

  lemma ListWalk(ms: seq<Mutex>, t: nat, head: Link, ls: seq<nat>)
    requires ListOk(ms, t, head, ls)
    ensures Walk(ms, head, |ms|) == ls && WalkEnds(ms, t, head, |ms|)
  {
    forall i | 0 <= i < |ls|
      ensures ls[i] < |ms|
    {
      assert Owns(ms, t, ls[i]);
    }
    DistinctBelow(ls, |ms|);
    WalkIsList(ms, t, head, ls, 0, |ms|);
  }

  /** After the kernel has cleaned up, no futex word holds the TID of the dead thread. */
  lemma DeadOwnsNothing(ms: seq<Mutex>, t: nat, th: Thread, ls: seq<nat>, ms': seq<Mutex>)
    requires ThreadOk(ms, t, th, ls) && KernelCleanup(ms, t, th, ms')
    ensures forall m: nat :: !Owns(ms', t, m)
    ensures forall m: nat | Owns(ms, t, m) :: ms'[m].word.died && ms'[m].word.owner == None
  {
    ListWalk(ms, t, th.headNext, ls);
    forall m: nat | Owns(ms, t, m)
      ensures Visited(ms, th, m)
    {
      assert m in ls || th.pending == Some(m);
    }
  }

  /** Whatever a live thread does, its own invariant holds again; `ls'` is its new list. */
  lemma OwnThreadOk(ms: seq<Mutex>, threads: seq<Thread>, t: nat, th: Thread, e: Event, ms': seq<Mutex>, th': Thread, ls: seq<nat>)
    returns (ls': seq<nat>)
    requires ThreadOk(ms, t, th, ls) && ThreadStep(ms, threads, t, th, e, ms', th')
    ensures if th'.alive then ThreadOk(ms', t, th', ls') else forall m: nat :: !Owns(ms', t, m)
  {
    hide ThreadOk, KernelCleanup;
    ls' := ls;
    if DeathStep(ms, t, th, e, th') && KernelCleanup(ms, t, th, ms') {
      DeadOwnsNothing(ms, t, th, ls, ms');
    } else if AcquireStep(ms, t, th, e, ms', th') {
      AcquireOwn(ms, t, th, e, ms', th', ls);
    } else if AddStep(ms, t, th, e, ms', th') {
      ls' := AddOwn(ms, t, th, e, ms', th', ls);
    } else {
      ls' := UnlockOwn(ms, threads, t, th, e, ms', th', ls);
    }
  }

  lemma AcquireOwn(ms: seq<Mutex>, t: nat, th: Thread, e: Event, ms': seq<Mutex>, th': Thread, ls: seq<nat>)
    requires ThreadOk(ms, t, th, ls) && AcquireStep(ms, t, th, e, ms', th')
    ensures ThreadOk(ms', t, th', ls) && th'.alive == th.alive
  {
    hide ThreadOk;
    match th.pc
    case Cas(_, _) => CasOwn(ms, t, th, e, ms', th', ls);
    case Kernel(_, _) => KernelOwn(ms, t, th, e, ms', th', ls);
    case Clear(_, _) => ClearOwn(ms, t, th, e, ms', th', ls);
    case _ => QuietOwn(ms, t, th, e, ms', th', ls);
  }

  lemma AddOwn(ms: seq<Mutex>, t: nat, th: Thread, e: Event, ms': seq<Mutex>, th': Thread, ls: seq<nat>) returns (ls': seq<nat>)
    requires ThreadOk(ms, t, th, ls) && AddStep(ms, t, th, e, ms', th')
    ensures ThreadOk(ms', t, th', ls') && th'.alive == th.alive
  {
    hide ThreadOk;
    ls' := ls;
    match th.pc
    case Add1(_, _, _) => Add1Own(ms, t, th, e, ms', th', ls);
    case Add2(m, _, _) => Add2Own(ms, t, th, e, ms', th', ls); ls' := [m] + ls;
    case Add3(_, _, _) => Add3Own(ms, t, th, e, ms', th', ls);
    case Add4(_, _, _) => Add4Own(ms, t, th, e, ms', th', ls);
  }

  lemma UnlockOwn(ms: seq<Mutex>, threads: seq<Thread>, t: nat, th: Thread, e: Event, ms': seq<Mutex>, th': Thread, ls: seq<nat>)
    returns (ls': seq<nat>)
    requires ThreadOk(ms, t, th, ls) && UnlockStep(ms, threads, t, th, e, ms', th')
    ensures ThreadOk(ms', t, th', ls') && th'.alive == th.alive
  {
    hide ListOk, PrevsOk, Covered, DiedOnlyWhileAcquiring;
    ls' := ls;
    match th.pc
    case Idle => UIdleOwn(ms, threads, t, th, e, ms', th', ls);
    case UPend(_, _) => UIdleOwn(ms, threads, t, th, e, ms', th', ls);
    case URemove(m, _) =>
      var k :| 0 <= k < |ls| && ls[k] == m;
      URemoveOwn(ms, threads, t, th, e, ms', th', ls, k);
      ls' := Without(ls, k);
    case UBack(_, _, _, _) => UBackOwn(ms, threads, t, th, e, ms', th', ls);
    case UCas(_, _) => UReleaseOwn(ms, threads, t, th, e, ms', th', ls);
    case UKernel(_, _) => UReleaseOwn(ms, threads, t, th, e, ms', th', ls);
    case UUnpend(_, _) => UUnpendOwn(ms, threads, t, th, e, ms', th', ls);
  }

  // ----- all threads -----

  ghost predicate Inv(s: State, lists: seq<seq<nat>>) {
    && |lists| == |s.threads|
    && (forall m | 0 <= m < |s.mutexes| && s.mutexes[m].word.owner.Some? :: s.mutexes[m].word.owner.value < |s.threads|)
    && (forall t | 0 <= t < |s.threads| :: ThreadInv(s, lists, t))
  }

  ghost predicate ThreadInv(s: State, lists: seq<seq<nat>>, t: nat)
    requires t < |s.threads| == |lists|
  {
    if s.threads[t].alive then ThreadOk(s.mutexes, t, s.threads[t], lists[t])
    else forall m: nat :: !Owns(s.mutexes, t, m)
  }

  lemma InitInv(s: State)
    requires Init(s)
    ensures Inv(s, seq(|s.threads|, _ => []))
  {
    var lists := seq(|s.threads|, _ => []);
    forall t | 0 <= t < |s.threads|
      ensures ThreadInv(s, lists, t)
    {
      assert s.threads[t] == Thread(true, Idle, Head(t), None, {});
      assert Elements([]) == {};
    }
  }

  lemma OwnersKept(ms: seq<Mutex>, threads: seq<Thread>, t: nat, th: Thread, e: Event, ms': seq<Mutex>, th': Thread)
    requires ThreadStep(ms, threads, t, th, e, ms', th') && t < |threads|
    requires forall m | 0 <= m < |ms| && ms[m].word.owner.Some? :: ms[m].word.owner.value < |threads|
    ensures |ms'| == |ms|
    ensures forall m | 0 <= m < |ms'| && ms'[m].word.owner.Some? :: ms'[m].word.owner.value < |threads|
  {
  }

  /** Every step of every thread, deaths included, keeps the invariant of all threads. */
  lemma StepInv(s: State, e: Event, s': State, lists: seq<seq<nat>>) returns (lists': seq<seq<nat>>)
    requires Inv(s, lists) && Step(s, e, s')
    ensures Inv(s', lists')
  {
    hide ThreadStep, ThreadOk;
    var t, th' :| 0 <= t < |s.threads|
      && ThreadStep(s.mutexes, s.threads, t, s.threads[t], e, s'.mutexes, th')
      && s'.threads == s.threads[t := th'];
    assert ThreadInv(s, lists, t);
    AliveStep(s, t, e, s', th');
    var ls' := OwnThreadOk(s.mutexes, s.threads, t, s.threads[t], e, s'.mutexes, th', lists[t]);
    OwnersKept(s.mutexes, s.threads, t, s.threads[t], e, s'.mutexes, th');
    lists' := lists[t := ls'];
    forall u | 0 <= u < |s'.threads|
      ensures ThreadInv(s', lists', u)
    {
      if u != t {
        assert ThreadInv(s, lists, u);
        OtherInv(s, t, e, s', th', lists, u);
      }
    }
  }

  lemma AliveStep(s: State, t: nat, e: Event, s': State, th': Thread)
    requires t < |s.threads| && ThreadStep(s.mutexes, s.threads, t, s.threads[t], e, s'.mutexes, th')
    ensures s.threads[t].alive
  {
  }

  lemma OtherInv(s: State, t: nat, e: Event, s': State, th': Thread, lists: seq<seq<nat>>, u: nat)
    requires t < |s.threads| == |lists| && u < |s.threads| && u != t
    requires ThreadInv(s, lists, t) && ThreadInv(s, lists, u) && s.threads[t].alive
    requires ThreadStep(s.mutexes, s.threads, t, s.threads[t], e, s'.mutexes, th')
    requires s'.threads == s.threads[t := th']
    ensures ThreadInv(s', lists, u)
  {
    hide ThreadStep, ThreadOk;
    StepUntouched(s.mutexes, s.threads, t, s.threads[t], e, s'.mutexes, th', lists[t], u);
    if s.threads[u].alive {
      OtherThreadOk(s.mutexes, s'.mutexes, u, s.threads[u], lists[u]);
    }
  }

  // ----- telling the next owner that an owner died -----

  /** The thread has cleared the died bit of `m` and is on its way to return 1. */
  predicate CarriesOne(pc: Pc, m: nat) {
    || ((pc.Add1? || pc.Add2? || pc.Add3? || pc.Add4?) && pc.m == m && !pc.fin && pc.r == 1)
    || (pc.Unpend? && pc.m == m && pc.r == 1)
  }

  /** The news of an owner's death is in the futex word or already with the thread that will report it. */
  ghost predicate News(s: State, m: nat)
    requires m < |s.mutexes|
  {
    var w := s.mutexes[m].word;
    w.died || (w.owner.Some? && w.owner.value < |s.threads| && CarriesOne(s.threads[w.owner.value].pc, m))
  }

  /** Whether some thread died owning `m` since the last completed acquisition of `m`. */
  ghost predicate OwnerDiedSince(events: seq<Event>, m: nat) {
    events != [] &&
    match events[|events| - 1]
    case Died(_, owned) => m in owned || OwnerDiedSince(events[..|events| - 1], m)
    case Returned(_, x, r) => !(x == m && r <= 1) && OwnerDiedSince(events[..|events| - 1], m)
    case Tau => OwnerDiedSince(events[..|events| - 1], m)
  }

  /** The same, said with positions: a death at `j` and no completed acquisition after it. */
  lemma {:induction false} OwnerDiedSinceMeans(events: seq<Event>, m: nat)
    ensures OwnerDiedSince(events, m) <==>
      exists j :: 0 <= j < |events| && events[j].Died? && m in events[j].owned && NotAcquiredAfter(events, j, m)
  {
    if events != [] {
      var init, last := events[..|events| - 1], events[|events| - 1];
      OwnerDiedSinceMeans(init, m);
      if OwnerDiedSince(events, m) && !(last.Died? && m in last.owned) {
        var j :| 0 <= j < |init| && init[j].Died? && m in init[j].owned && NotAcquiredAfter(init, j, m);
        assert NotAcquiredAfter(events, j, m);
      }
      if last.Died? && m in last.owned {
        assert NotAcquiredAfter(events, |init|, m);
      }
      if j :| 0 <= j < |events| && events[j].Died? && m in events[j].owned && NotAcquiredAfter(events, j, m) {
        if j < |init| {
          assert init[j] == events[j] && NotAcquiredAfter(init, j, m);
        }
      }
    }
  }

  predicate NotAcquiredAfter(events: seq<Event>, j: nat, m: nat) {
    forall k | j < k < |events| && events[k].Returned? && events[k].m == m :: events[k].r > 1
  }

  /** What one event does to the news about `m`. */
  ghost predicate NextNews(e: Event, m: nat, before: bool) {
    match e
    case Died(_, owned) => m in owned || before
    case Returned(_, x, r) => !(x == m && r <= 1) && before
    case Tau => before
  }

  /** A step leaves the news about every mutex as the event says. */
  lemma NewsStep(s: State, t: nat, e: Event, s': State, th': Thread, ls: seq<nat>, m: nat)
    requires t < |s.threads| && ThreadOk(s.mutexes, t, s.threads[t], ls) && m < |s.mutexes|
    requires ThreadStep(s.mutexes, s.threads, t, s.threads[t], e, s'.mutexes, th')
    requires s'.threads == s.threads[t := th'] && |s'.mutexes| == |s.mutexes|
    ensures News(s', m) <==> NextNews(e, m, News(s, m))
  {
    hide ThreadStep;
    var ms, th := s.mutexes, s.threads[t];
    if DeathStep(ms, t, th, e, th') && KernelCleanup(ms, t, th, s'.mutexes) {
      DeadOwnsNothing(ms, t, th, ls, s'.mutexes);
    } else {
      StepKinds(ms, s.threads, t, th, e, s'.mutexes, th');
      if AcquireStep(ms, t, th, e, s'.mutexes, th') {
        NewsAcquire(s, t, e, s', th', ls, m);
      } else {
        NewsOther(s, t, e, s', th', ls, m);
      }
    }
  }

  lemma StepKinds(ms: seq<Mutex>, threads: seq<Thread>, t: nat, th: Thread, e: Event, ms': seq<Mutex>, th': Thread)
    requires ThreadStep(ms, threads, t, th, e, ms', th') && !(DeathStep(ms, t, th, e, th') && KernelCleanup(ms, t, th, ms'))
    ensures AcquireStep(ms, t, th, e, ms', th') || AddStep(ms, t, th, e, ms', th') || UnlockStep(ms, threads, t, th, e, ms', th')
  {
  }

  lemma NewsAcquire(s: State, t: nat, e: Event, s': State, th': Thread, ls: seq<nat>, m: nat)
    requires t < |s.threads| && ThreadOk(s.mutexes, t, s.threads[t], ls) && m < |s.mutexes|
    requires AcquireStep(s.mutexes, t, s.threads[t], e, s'.mutexes, th')
    requires s'.threads == s.threads[t := th'] && |s'.mutexes| == |s.mutexes|
    ensures News(s', m) <==> NextNews(e, m, News(s, m))
  {
    hide ListOk, PrevsOk, Covered;
  }

  lemma NewsOther(s: State, t: nat, e: Event, s': State, th': Thread, ls: seq<nat>, m: nat)
    requires t < |s.threads| && ThreadOk(s.mutexes, t, s.threads[t], ls) && m < |s.mutexes|
    requires AddStep(s.mutexes, t, s.threads[t], e, s'.mutexes, th') || UnlockStep(s.mutexes, s.threads, t, s.threads[t], e, s'.mutexes, th')
    requires s'.threads == s.threads[t := th'] && |s'.mutexes| == |s.mutexes|
    ensures News(s', m) <==> NextNews(e, m, News(s, m))
  {
    hide ListOk, PrevsOk, Covered;
  }

  // ----- theorems about every run -----

  /** Any interleaving of any number of threads over any number of mutexes, deaths included. */
  ghost predicate IsRun(states: seq<State>, events: seq<Event>) {
    && |states| == |events| + 1
    && Init(states[0])
    && (forall i, j | 0 <= i < |events| && j == i + 1 :: Step(states[i], events[i], states[j]))
  }

  ghost predicate NewsOk(s: State, events: seq<Event>) {
    forall m | 0 <= m < |s.mutexes| :: News(s, m) <==> OwnerDiedSince(events, m)
  }

  lemma NewsKept(s: State, e: Event, s': State, lists: seq<seq<nat>>, events: seq<Event>)
    requires Inv(s, lists) && Step(s, e, s') && NewsOk(s, events)
    ensures NewsOk(s', events + [e])
  {
    hide ThreadStep, ThreadOk, News;
    var t, th' :| 0 <= t < |s.threads|
      && ThreadStep(s.mutexes, s.threads, t, s.threads[t], e, s'.mutexes, th')
      && s'.threads == s.threads[t := th'];
    assert ThreadInv(s, lists, t);
    AliveStep(s, t, e, s', th');
    OwnersKept(s.mutexes, s.threads, t, s.threads[t], e, s'.mutexes, th');
    assert (events + [e])[..|events + [e]| - 1] == events;
    forall m | 0 <= m < |s'.mutexes|
      ensures News(s', m) <==> OwnerDiedSince(events + [e], m)
    {
      NewsStep(s, t, e, s', th', lists[t], m);
    }
  }

  lemma {:induction false} RunInv(states: seq<State>, events: seq<Event>, i: nat) returns (lists: seq<seq<nat>>)
    requires IsRun(states, events) && i < |states|
    ensures Inv(states[i], lists) && NewsOk(states[i], events[..i])
  {
    hide Inv, Step, Init, NewsOk;
    if i == 0 {
      InitInv(states[0]);
      lists := seq(|states[0].threads|, _ => []);
      InitNews(states[0]);
    } else {
      var before := RunInv(states, events, i - 1);
      assert Step(states[i - 1], events[i - 1], states[i]);
      lists := StepInv(states[i - 1], events[i - 1], states[i], before);
      NewsKept(states[i - 1], events[i - 1], states[i], before, events[..i - 1]);
      assert events[..i] == events[..i - 1] + [events[i - 1]];
    }
  }

  lemma InitNews(s: State)
    requires Init(s)
    ensures NewsOk(s, [])
  {
  }

  /**
   * At every store boundary of every run, the forward walk of a live thread's robust list ends at its head
   * and, with the pending entry, covers every mutex whose futex word holds that thread's TID.
   */
  lemma RobustListUsable(states: seq<State>, events: seq<Event>, i: nat, t: nat)
    requires IsRun(states, events) && i < |states| && t < |states[i].threads| && states[i].threads[t].alive
    ensures WalkEnds(states[i].mutexes, t, states[i].threads[t].headNext, |states[i].mutexes|)
    ensures forall m: nat | Owns(states[i].mutexes, t, m) :: Visited(states[i].mutexes, states[i].threads[t], m)
  {
    hide IsRun;
    var s := states[i];
    var lists := RunInv(states, events, i);
    assert ThreadInv(s, lists, t);
    ListWalk(s.mutexes, t, s.threads[t].headNext, lists[t]);
  }

  /** Between operations the list holds exactly the held mutexes and the back pointers match the forward ones. */
  lemma ListConsistentWhenIdle(states: seq<State>, events: seq<Event>, i: nat, t: nat)
    requires IsRun(states, events) && i < |states| && t < |states[i].threads|
    requires states[i].threads[t].alive && states[i].threads[t].pc.Idle?
    ensures
      var ms, th := states[i].mutexes, states[i].threads[t];
      var ls := Walk(ms, th.headNext, |ms|);
      && th.held == (set m | m in ls)
      && (forall m: nat :: Owns(ms, t, m) <==> m in ls)
      && (forall k | 0 <= k < |ls| :: PrevOk(ms, t, ls, k))
  {
    hide IsRun;
    var s := states[i];
    var lists := RunInv(states, events, i);
    assert ThreadInv(s, lists, t);
    ListWalk(s.mutexes, t, s.threads[t].headNext, lists[t]);
  }

  /** The TID of a dead thread is never left in a futex word. */
  lemma DeadThreadsOwnNothing(states: seq<State>, events: seq<Event>, i: nat, t: nat, m: nat)
    requires IsRun(states, events) && i < |states| && t < |states[i].threads| && !states[i].threads[t].alive
    ensures !Owns(states[i].mutexes, t, m)
  {
    hide IsRun, ThreadOk;
    var lists := RunInv(states, events, i);
    assert ThreadInv(states[i], lists, t);
  }

  /** A live thread that holds a mutex owns its futex word. */
  lemma HeldIsOwned(states: seq<State>, events: seq<Event>, i: nat, t: nat, m: nat)
    requires IsRun(states, events) && i < |states| && t < |states[i].threads| && states[i].threads[t].alive
    requires m in states[i].threads[t].held
    ensures Owns(states[i].mutexes, t, m)
  {
    hide IsRun, PrevsOk, Covered, DiedOnlyWhileAcquiring;
    var lists := RunInv(states, events, i);
    assert ThreadInv(states[i], lists, t);
    assert m in lists[t];
  }

  /** At most one live thread holds a mutex. */
  lemma MutualExclusion(states: seq<State>, events: seq<Event>, i: nat, t: nat, u: nat, m: nat)
    requires IsRun(states, events) && i < |states| && t < |states[i].threads| && u < |states[i].threads|
    requires states[i].threads[t].alive && m in states[i].threads[t].held
    requires states[i].threads[u].alive && m in states[i].threads[u].held
    ensures t == u
  {
    HeldIsOwned(states, events, i, t, m);
    HeldIsOwned(states, events, i, u, m);
  }

  /** An acquisition returns 1 exactly when some thread died owning the mutex since the last completed one. */
  lemma ReturnsOneIffOwnerDied(states: seq<State>, events: seq<Event>, i: nat, m: nat)
    requires IsRun(states, events) && i < |events|
    requires events[i].Returned? && events[i].m == m && events[i].r <= 1
    ensures m < |states[i].mutexes|
    ensures events[i].r == 1 <==>
      exists j :: 0 <= j < i && events[j].Died? && m in events[j].owned && NotAcquiredAfter(events[..i], j, m)
  {
    var s, s' := states[i], states[i + 1];
    var lists := RunInv(states, events, i);
    var t := ReturningThread(s, events[i], s');
    assert ThreadInv(s, lists, t);
    assert News(s, m) <==> OwnerDiedSince(events[..i], m);
    OwnerDiedSinceMeans(events[..i], m);
  }

  lemma ReturningThread(s: State, e: Event, s': State) returns (t: nat)
    requires Step(s, e, s') && e.Returned?
    ensures t < |s.threads| && s.threads[t].alive && s.threads[t].pc == Unpend(e.m, e.r)
  {
    var u, th' :| 0 <= u < |s.threads|
      && ThreadStep(s.mutexes, s.threads, u, s.threads[u], e, s'.mutexes, th')
      && s'.threads == s.threads[u := th'];
    t := u;
  }
}
