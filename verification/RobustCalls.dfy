/** What lock and trylock return, when, and that they get on (aos/linux_code/ipc_lib/aos_sync.cc), in runs of RobustMutex. */
module RobustCalls {
  import opened Basics
  import opened RobustMutex

  /** The step of one thread. */
  ghost predicate StepOf(s: State, e: Event, t: nat, s': State) {
    t < |s.threads| == |s'.threads| && s'.threads == s.threads[t := s'.threads[t]]
    && ThreadStep(s.mutexes, s.threads, t, s.threads[t], e, s'.mutexes, s'.threads[t])
  }

  lemma StepIsSomeones(s: State, e: Event, s': State) returns (t: nat)
    requires Step(s, e, s')
    ensures StepOf(s, e, t, s')
  {
    hide ThreadStep;
    var u, th' :| 0 <= u < |s.threads|
      && ThreadStep(s.mutexes, s.threads, u, s.threads[u], e, s'.mutexes, th')
      && s'.threads == s.threads[u := th'];
    t := u;
    assert s'.threads[t] == th';
  }

  // ----- futex words -----

  /** A mutex that nobody owns is free, or its owner died. */
  ghost predicate WordsOk(ms: seq<Mutex>) {
    forall m | 0 <= m < |ms| :: WordOk(ms[m].word)
  }

  predicate WordOk(w: Word) {
    w.owner == None ==> w == FREE || w.died
  }

  lemma WordsKept(ms: seq<Mutex>, threads: seq<Thread>, t: nat, th: Thread, e: Event, ms': seq<Mutex>, th': Thread, ls: seq<nat>)
    requires WordsOk(ms) && ThreadOk(ms, t, th, ls) && ThreadStep(ms, threads, t, th, e, ms', th')
    ensures WordsOk(ms')
  {
    hide ListOk, PrevsOk, Covered, DiedOnlyWhileAcquiring;
  }

  lemma {:induction false} RunWords(states: seq<State>, events: seq<Event>, i: nat)
    requires IsRun(states, events) && i < |states|
    ensures WordsOk(states[i].mutexes)
  {
    if i > 0 {
      RunWords(states, events, i - 1);
      var s, e, s' := states[i - 1], events[i - 1], states[i];
      assert Step(s, e, s');
      var lists := RunInv(states, events, i - 1);
      var t := StepIsSomeones(s, e, s');
      assert ThreadInv(s, lists, t);
      hide IsRun, ThreadOk;
      AliveStep(s, t, e, s', s'.threads[t]);
      WordsKept(s.mutexes, s.threads, t, s.threads[t], e, s'.mutexes, s'.threads[t], lists[t]);
    }
  }

  // ----- when an acquisition fails -----

  /** What is known inside an acquisition of `m` by kind `k`: whether the word was not free, and whether it was owned. */
  predicate CallOk(pc: Pc, m: nat, k: Kind, notFree: bool, taken: bool) {
    match pc
    case Pend(x, l) => x == m && l == k
    case Sleep(x) => x == m && k.Wait?
    case Cas(x, l) => x == m && l == k
    case Kernel(x, l) => x == m && l == k && notFree
    case Finish(x, _) => x == m
    case Clear(x, _) => x == m
    case Add1(x, _, _) => x == m
    case Add2(x, _, _) => x == m
    case Add3(x, _, _) => x == m
    case Add4(x, _, _) => x == m
    case Unpend(x, r) =>
      && x == m && r <= 4 && (r == 4 ==> k.Try? && taken)
      && (r == 2 || r == 3 ==> k.Lock? && notFree)
    case _ => false
  }

  predicate InCall(pc: Pc) {
    pc.Sleep? || pc.Cas? || pc.Kernel? || pc.Finish? || pc.Clear? || pc.Add1? || pc.Add2? || pc.Add3? || pc.Add4? || pc.Unpend?
  }

  /** The thread's own step, unless it dies. */
  lemma OwnCall(ms: seq<Mutex>, threads: seq<Thread>, t: nat, th: Thread, e: Event, ms': seq<Mutex>, th': Thread,
                ls: seq<nat>, m: nat, k: Kind, notFree: bool, taken: bool)
    requires ThreadOk(ms, t, th, ls) && WordsOk(ms) && ThreadStep(ms, threads, t, th, e, ms', th') && th'.alive
    requires CallOk(th.pc, m, k, notFree, taken) && InCall(th'.pc)
    ensures m < |ms| && CallOk(th'.pc, m, k, notFree || ms[m].word != FREE, taken || ms[m].word.owner.Some?)
  {
    hide ListOk, PrevsOk, Covered, DiedOnlyWhileAcquiring;
  }

  /** The last state in which the acquisition a thread is in had not begun. */
  function CallStart(states: seq<State>, t: nat, i: nat): nat
    requires i < |states|
  {
    if i == 0 || t >= |states[i].threads| || states[i].threads[t].pc.Pend? then i else CallStart(states, t, i - 1)
  }

  ghost predicate NotFreeIn(states: seq<State>, m: nat, j: nat, i: nat) {
    exists l: nat :: j <= l < i && l < |states| && m < |states[l].mutexes| && states[l].mutexes[m].word != FREE
  }

  ghost predicate TakenIn(states: seq<State>, m: nat, j: nat, i: nat) {
    exists l: nat :: j <= l < i && l < |states| && m < |states[l].mutexes| && states[l].mutexes[m].word.owner.Some?
  }

  /** In every state of every run a thread inside an acquisition knows that. */
  lemma {:induction false} CallInv(states: seq<State>, events: seq<Event>, i: nat, t: nat)
    requires IsRun(states, events) && i < |states| && t < |states[i].threads|
    requires states[i].threads[t].alive && InCall(states[i].threads[t].pc)
    ensures
      var j := CallStart(states, t, i);
      && j < i && t < |states[j].threads| && states[j].threads[t].pc.Pend?
      && var m, k := states[j].threads[t].pc.m, states[j].threads[t].pc.k;
      CallOk(states[i].threads[t].pc, m, k, NotFreeIn(states, m, j, i), TakenIn(states, m, j, i))
    decreases i, 1
  {
    hide ThreadStep, ThreadOk, Inv, WordsOk;
    if i == 0 {
      assert false;
    }
    var s, e, s' := states[i - 1], events[i - 1], states[i];
    assert Step(s, e, s');
    var v := StepIsSomeones(s, e, s');
    var j := CallStart(states, t, i);
    assert j == CallStart(states, t, i - 1);
    if v != t {
      CallInv(states, events, i - 1, t);
      Longer(states, states[j].threads[t].pc.m, j, i);
      CallOkMore(s.threads[t].pc, states[j].threads[t].pc.m, states[j].threads[t].pc.k,
                 NotFreeIn(states, states[j].threads[t].pc.m, j, i - 1), TakenIn(states, states[j].threads[t].pc.m, j, i - 1),
                 NotFreeIn(states, states[j].threads[t].pc.m, j, i), TakenIn(states, states[j].threads[t].pc.m, j, i));
    } else {
      OwnInv(states, events, i, t);
    }
  }

  lemma Longer(states: seq<State>, m: nat, j: nat, i: nat)
    requires i > 0
    ensures NotFreeIn(states, m, j, i - 1) ==> NotFreeIn(states, m, j, i)
    ensures TakenIn(states, m, j, i - 1) ==> TakenIn(states, m, j, i)
  {
  }

  lemma CallOkMore(pc: Pc, m: nat, k: Kind, notFree: bool, taken: bool, notFree': bool, taken': bool)
    requires CallOk(pc, m, k, notFree, taken) && (notFree ==> notFree') && (taken ==> taken')
    ensures CallOk(pc, m, k, notFree', taken')
  {
  }

  lemma {:induction false} OwnInv(states: seq<State>, events: seq<Event>, i: nat, t: nat)
    requires IsRun(states, events) && 0 < i < |states| && t < |states[i].threads|
    requires states[i].threads[t].alive && InCall(states[i].threads[t].pc) && StepOf(states[i - 1], events[i - 1], t, states[i])
    ensures
      var j := CallStart(states, t, i);
      && j < i && t < |states[j].threads| && states[j].threads[t].pc.Pend?
      && var m, k := states[j].threads[t].pc.m, states[j].threads[t].pc.k;
      CallOk(states[i].threads[t].pc, m, k, NotFreeIn(states, m, j, i), TakenIn(states, m, j, i))
    decreases i, 0
  {
    hide ThreadStep, ThreadOk, WordsOk;
    var s, e, s' := states[i - 1], events[i - 1], states[i];
    var lists := RunInv(states, events, i - 1);
    assert ThreadInv(s, lists, t);
    RunWords(states, events, i - 1);
    hide IsRun, Inv;
    AliveStep(s, t, e, s', s'.threads[t]);
    var th, th' := s.threads[t], s'.threads[t];
    ComesFrom(s.mutexes, s.threads, t, th, e, s'.mutexes, th');
    var j := CallStart(states, t, i);
    assert j == CallStart(states, t, i - 1);
    if th.pc.Pend? {
      assert j == i - 1;
    } else {
      CallInv(states, events, i - 1, t);
    }
    var m, k := states[j].threads[t].pc.m, states[j].threads[t].pc.k;
    var notFree, taken := NotFreeIn(states, m, j, i - 1), TakenIn(states, m, j, i - 1);
    OwnCall(s.mutexes, s.threads, t, th, e, s'.mutexes, th', lists[t], m, k, notFree, taken);
    Longer(states, m, j, i);
    assert s.mutexes[m].word != FREE ==> NotFreeIn(states, m, j, i);
    assert s.mutexes[m].word.owner.Some? ==> TakenIn(states, m, j, i);
    CallOkMore(th'.pc, m, k, notFree || s.mutexes[m].word != FREE, taken || s.mutexes[m].word.owner.Some?,
               NotFreeIn(states, m, j, i), TakenIn(states, m, j, i));
  }

  lemma ComesFrom(ms: seq<Mutex>, threads: seq<Thread>, t: nat, th: Thread, e: Event, ms': seq<Mutex>, th': Thread)
    requires ThreadStep(ms, threads, t, th, e, ms', th') && th'.alive && InCall(th'.pc)
    ensures th.pc.Pend? || InCall(th.pc)
  {
  }

  /**
   * In every run, an acquisition that returned fails for a reason: trylock with 4 only if the mutex was owned by some
   * thread at some time since it began, lock with 2 or 3 only if it was not free at some time; relocking after a
   * condition wait never fails.
   */
  lemma FailsOnlyIfTaken(states: seq<State>, events: seq<Event>, i: nat)
    requires IsRun(states, events) && i < |events| && events[i].Returned?
    ensures
      var t, m, r := events[i].t, events[i].m, events[i].r;
      var j := CallStart(states, t, i);
      && j < i && t < |states[j].threads| && states[j].threads[t].pc.Pend? && states[j].threads[t].pc.m == m && r <= 4
      && var k := states[j].threads[t].pc.k;
      && (r == 4 ==> k.Try? && TakenIn(states, m, j, i))
      && (r == 2 || r == 3 ==> k.Lock? && NotFreeIn(states, m, j, i))
  {
    hide ThreadStep;
    assert Step(states[i], events[i], states[i + 1]);
    var t := Returner(states[i], events[i], states[i + 1]);
    CallInv(states, events, i, t);
  }

  lemma Returner(s: State, e: Event, s': State) returns (t: nat)
    requires Step(s, e, s') && e.Returned?
    ensures t == e.t < |s.threads| && s.threads[t].alive && s.threads[t].pc == Unpend(e.m, e.r)
  {
    t := StepIsSomeones(s, e, s');
  }

  // ----- when it succeeds -----

  /** A stretch of a run with the thread that takes each step. */
  ghost predicate Stretch(states: seq<State>, events: seq<Event>, who: seq<nat>) {
    && |states| == |events| + 1 == |who| + 1
    && forall i, j | 0 <= i < |who| && j == i + 1 :: StepOf(states[i], events[i], who[i], states[j])
  }

  function Turns(who: seq<nat>, t: nat): nat {
    if who == [] then 0 else Turns(who[..|who| - 1], t) + if who[|who| - 1] == t then 1 else 0
  }

  /** How many steps of its own a thread that has got the mutex without the kernel is away from having returned 0. */
  function StepsLeft(pc: Pc, m: nat): nat {
    match pc
    case Add1(x, fin, r) => if x == m && !fin && r == 0 then 5 else 0
    case Add2(x, fin, r) => if x == m && !fin && r == 0 then 4 else 0
    case Add3(x, fin, r) => if x == m && !fin && r == 0 then 3 else 0
    case Add4(x, fin, r) => if x == m && !fin && r == 0 then 2 else 0
    case Unpend(x, r) => if x == m && r == 0 then 1 else 0
    case _ => 0
  }

  /** The compare-and-swap that finds the word free takes the mutex, for lock, trylock and relocking alike. */
  lemma CasTakes(s: State, e: Event, t: nat, s': State, m: nat)
    requires StepOf(s, e, t, s') && s.threads[t].pc.Cas? && s.threads[t].pc.m == m < |s.mutexes|
    requires s.mutexes[m].word == FREE && s'.threads[t].alive
    ensures m < |s'.mutexes| && Owns(s'.mutexes, t, m) && StepsLeft(s'.threads[t].pc, m) == 5
  {
  }

  /** Only its own steps bring it on, each by one, unless it dies; the last returns 0 with the mutex held. */
  lemma LeftStep(s: State, e: Event, v: nat, s': State, t: nat, m: nat)
    requires StepOf(s, e, v, s') && t < |s.threads| && s.threads[t].alive && StepsLeft(s.threads[t].pc, m) > 0
    ensures v != t ==> s'.threads[t] == s.threads[t]
    ensures v == t && s'.threads[t].alive && StepsLeft(s.threads[t].pc, m) > 1 ==>
      StepsLeft(s'.threads[t].pc, m) == StepsLeft(s.threads[t].pc, m) - 1
    ensures v == t && s'.threads[t].alive && StepsLeft(s.threads[t].pc, m) == 1 ==>
      e == Returned(t, m, 0) && m in s'.threads[t].held && s'.threads[t].pc == Idle
  {
  }

  lemma StaysDead(s: State, e: Event, v: nat, s': State, t: nat)
    requires StepOf(s, e, v, s') && t < |s.threads| && !s.threads[t].alive
    ensures !s'.threads[t].alive
  {
  }

  lemma {:induction false} LeftOverStretch(states: seq<State>, events: seq<Event>, who: seq<nat>, t: nat, m: nat)
    requires Stretch(states, events, who) && t < |states[0].threads|
    requires Turns(who, t) < StepsLeft(states[0].threads[t].pc, m) && t < |states[|who|].threads| && states[|who|].threads[t].alive
    ensures states[0].threads[t].alive
    ensures StepsLeft(states[|who|].threads[t].pc, m) == StepsLeft(states[0].threads[t].pc, m) - Turns(who, t)
    decreases |who|
  {
    hide ThreadStep, StepsLeft;
    if who != [] {
      var n := |who| - 1;
      assert StepOf(states[n], events[n], who[n], states[n + 1]);
      if !states[n].threads[t].alive {
        StaysDead(states[n], events[n], who[n], states[n + 1], t);
      }
      LeftOverStretch(states[..n + 1], events[..n], who[..n], t, m);
      LeftStep(states[n], events[n], who[n], states[n + 1], t, m);
    }
  }

  /**
   * Whatever the other threads do, a lock, trylock or relocking whose compare-and-swap finds the mutex free returns 0
   * with the mutex held at the fifth of its steps after that, unless the thread dies before.
   */
  lemma FreeIsTaken(states: seq<State>, events: seq<Event>, who: seq<nat>, t: nat, m: nat)
    requires Stretch(states, events, who) && who != [] && who[0] == t == who[|who| - 1] && Turns(who, t) == 6
    requires t < |states[0].threads| && states[0].threads[t].pc.Cas? && states[0].threads[t].pc.m == m < |states[0].mutexes|
    requires states[0].mutexes[m].word == FREE && t < |states[|who|].threads| && states[|who|].threads[t].alive
    ensures events[|who| - 1] == Returned(t, m, 0) && m in states[|who|].threads[t].held
  {
    hide ThreadStep, StepsLeft;
    var n := |who| - 1;
    OneTurn(who, t);
    assert n > 0;
    var rest, es, ws := states[1..n + 1], events[1..n], who[1..n];
    forall i, j | 0 <= i < |ws| && j == i + 1
      ensures StepOf(rest[i], es[i], ws[i], rest[j])
    {
      assert StepOf(states[i + 1], events[i + 1], who[i + 1], states[j + 1]);
    }
    assert StepOf(states[0], events[0], t, states[1]) && StepOf(states[n], events[n], t, states[n + 1]);
    if !states[n].threads[t].alive {
      StaysDead(states[n], events[n], t, states[n + 1], t);
    }
    TurnsSplit(who[..n], t);
    assert who[..n][1..] == ws;
    SameThreads(rest, es, ws, t);
    AliveBefore(rest, es, ws, t);
    CasTakes(states[0], events[0], t, states[1], m);
    LeftOverStretch(rest, es, ws, t, m);
    LeftStep(states[n], events[n], t, states[n + 1], t, m);
  }

  lemma OneTurn(who: seq<nat>, t: nat)
    ensures |who| == 1 ==> Turns(who, t) <= 1
  {
    if |who| == 1 {
      assert who[..0] == [];
    }
  }

  lemma {:induction false} TurnsSplit(who: seq<nat>, t: nat)
    requires who != []
    ensures Turns(who, t) == (if who[0] == t then 1 else 0) + Turns(who[1..], t)
    decreases |who|
  {
    if |who| > 1 {
      var n := |who| - 1;
      TurnsSplit(who[..n], t);
      assert who[1..][..n - 1] == who[..n][1..];
    } else {
      assert who[..0] == [] && who[1..] == [];
    }
  }

  lemma {:induction false} SameThreads(states: seq<State>, events: seq<Event>, who: seq<nat>, t: nat)
    requires Stretch(states, events, who)
    ensures |states[|who|].threads| == |states[0].threads|
    decreases |who|
  {
    hide ThreadStep;
    if who != [] {
      var n := |who| - 1;
      SameThreads(states[..n + 1], events[..n], who[..n], t);
      assert StepOf(states[n], events[n], who[n], states[n + 1]);
    }
  }

  lemma {:induction false} AliveBefore(states: seq<State>, events: seq<Event>, who: seq<nat>, t: nat)
    requires Stretch(states, events, who) && t < |states[0].threads|
    requires t < |states[|who|].threads| && states[|who|].threads[t].alive
    ensures states[0].threads[t].alive
    decreases |who|
  {
    hide ThreadStep;
    if who != [] {
      var n := |who| - 1;
      SameThreads(states[..n + 1], events[..n], who[..n], t);
      assert StepOf(states[n], events[n], who[n], states[n + 1]);
      if !states[n].threads[t].alive {
        StaysDead(states[n], events[n], who[n], states[n + 1], t);
      }
      AliveBefore(states[..n + 1], events[..n], who[..n], t);
    }
  }

  /** How many steps at most a thread that has got the mutex, through the kernel or not, is away from returning. */
  function AtMost(pc: Pc, m: nat): nat {
    match pc
    case Finish(x, first) => if x != m then 0 else if first then 7 else 3
    case Clear(x, first) => if x != m then 0 else if first then 6 else 2
    case Add1(x, fin, r) => if x != m || r > 1 then 0 else if fin then 7 else 5
    case Add2(x, fin, r) => if x != m || r > 1 then 0 else if fin then 6 else 4
    case Add3(x, fin, r) => if x != m || r > 1 then 0 else if fin then 5 else 3
    case Add4(x, fin, r) => if x != m || r > 1 then 0 else if fin then 4 else 2
    case Unpend(x, r) => if x == m && r <= 1 then 1 else 0
    case _ => 0
  }

  /** Once got, a mutex is kept: each step of the thread, unless it dies, brings it on to returning 0 or 1 with it held. */
  lemma WinnerReturns(s: State, e: Event, v: nat, s': State, t: nat, m: nat)
    requires StepOf(s, e, v, s') && t < |s.threads| && s.threads[t].alive && AtMost(s.threads[t].pc, m) > 0
    ensures v != t ==> s'.threads[t] == s.threads[t]
    ensures v == t && s'.threads[t].alive ==>
      || 0 < AtMost(s'.threads[t].pc, m) < AtMost(s.threads[t].pc, m)
      || (exists r | r <= 1 :: e == Returned(t, m, r) && m in s'.threads[t].held && s'.threads[t].pc == Idle)
  {
  }

  // ----- condition_wait comes back with the mutex -----

  /** Inside condition_wait: releasing the mutex, asleep, or on the way to having it again. */
  predicate InWait(pc: Pc, m: nat) {
    match pc
    case UPend(x, w) => x == m && w
    case URemove(x, w) => x == m && w
    case UBack(x, w, _, _) => x == m && w
    case UCas(x, w) => x == m && w
    case UKernel(x, w) => x == m && w
    case UUnpend(x, w) => x == m && w
    case Pend(x, k) => x == m && k.Wait?
    case Sleep(x) => x == m
    case Cas(x, k) => x == m && k.Wait?
    case Kernel(x, k) => x == m && k.Wait?
    case Finish(x, _) => x == m
    case Clear(x, _) => x == m
    case Add1(x, fin, r) => x == m && (fin || r <= 1)
    case Add2(x, fin, r) => x == m && (fin || r <= 1)
    case Add3(x, fin, r) => x == m && (fin || r <= 1)
    case Add4(x, fin, r) => x == m && (fin || r <= 1)
    case Unpend(x, r) => x == m && r <= 1
    case _ => false
  }

  /** A thread in condition_wait stays in it until it returns with the mutex, dies or ends its process. */
  lemma WaitStep(s: State, e: Event, v: nat, s': State, t: nat, m: nat)
    requires StepOf(s, e, v, s') && t < |s.threads| && s.threads[t].alive && InWait(s.threads[t].pc, m)
    ensures
      s'.threads[t].alive ==>
        || InWait(s'.threads[t].pc, m) || s'.threads[t].pc.Aborted?
        || (s'.threads[t].pc == Idle && m in s'.threads[t].held && exists r | r <= 1 :: e == Returned(t, m, r))
  {
  }

  /** Neither dead nor at the end of its process. */
  predicate GoesOn(s: State, t: nat) {
    t < |s.threads| && s.threads[t].alive && !s.threads[t].pc.Aborted?
  }

  predicate IsIdle(s: State, t: nat) {
    t < |s.threads| && s.threads[t].pc == Idle
  }

  /** Whatever the others do, the first time a thread in condition_wait is out of it, it holds the mutex again. */
  lemma {:induction false} WaitRelocks(states: seq<State>, events: seq<Event>, who: seq<nat>, t: nat, m: nat)
    requires Stretch(states, events, who) && GoesOn(states[0], t) && InWait(states[0].threads[t].pc, m)
    requires forall i | 0 <= i < |states| :: GoesOn(states[i], t)
    requires forall i | 0 <= i < |who| :: !IsIdle(states[i], t)
    ensures t < |states[|who|].threads|
    ensures
      var th := states[|who|].threads[t];
      if th.pc == Idle then m in th.held else InWait(th.pc, m)
    decreases |who|
  {
    assert !InWait(Idle, m);
    hide ThreadStep, InWait;
    if who != [] {
      var n := |who| - 1;
      assert StepOf(states[n], events[n], who[n], states[n + 1]) && GoesOn(states[n], t) && GoesOn(states[n + 1], t);
      assert !IsIdle(states[n], t);
      WaitRelocks(states[..n + 1], events[..n], who[..n], t, m);
      WaitStep(states[n], events[n], who[n], states[n + 1], t, m);
    }
  }

  /** A process ends itself only if one of its threads unlocks a mutex it does not own or locks one that it holds. */
  lemma EndsOnlyByMisuse(ms: seq<Mutex>, threads: seq<Thread>, t: nat, th: Thread, e: Event, ms': seq<Mutex>, th': Thread)
    requires ThreadStep(ms, threads, t, th, e, ms', th') && th'.pc.Aborted? && th'.alive
    ensures ms' == ms
    ensures
      || (th.pc == Idle && exists m :: 0 <= m < |ms| && !Owns(ms, t, m))
      || (th.pc.Kernel? && !th.pc.k.Try? && th.pc.m in th.held)
  {
  }

  // ----- a waiter is not forgotten -----

  /**
   * A thread that goes to sleep for a mutex has left its mark on the word: the owner's unlock then cannot free the
   * mutex by itself but goes to the kernel.
   */
  lemma SleeperIsSeen(ms: seq<Mutex>, u: nat, th: Thread, m: nat, k: Kind, ms': seq<Mutex>,
                      threads: seq<Thread>, t: nat, o: Thread, e: Event, ms'': seq<Mutex>, o': Thread)
    requires m < |ms| && th.pc == Kernel(m, k) && KernelLockStep(ms, u, th, m, k, ms', th)
    requires o.pc.UCas? && o.pc.m == m && UnlockStep(ms', threads, t, o, e, ms'', o')
    ensures m < |ms'| && ms'[m].word == ms[m].word.(waiters := true) && ms[m].word.owner.Some?
    ensures ms'' == ms' && o'.pc == UKernel(m, o.pc.w)
  {
  }

  // ----- no thread is ever stuck -----

  /** What an idle thread can do: lock or trylock any mutex, unlock or wait with any it owns. */
  lemma CanCall(ms: seq<Mutex>, threads: seq<Thread>, t: nat, th: Thread, m: nat, k: Kind, w: bool)
    requires th.alive && th.pc == Idle && m < |ms|
    ensures !k.Wait? ==> ThreadStep(ms, threads, t, th, Tau, ms, th.(pc := Pend(m, k)))
    ensures Owns(ms, t, m) ==> ThreadStep(ms, threads, t, th, Tau, ms, th.(pc := UPend(m, w), held := th.held - {m}))
  {
  }

  /** A thread in the kernel for a mutex that nobody owns can get it, as can one it was handed to. */
  lemma KernelGives(ms: seq<Mutex>, threads: seq<Thread>, t: nat, th: Thread, m: nat, k: Kind)
    requires th.alive && th.pc == Kernel(m, k) && m < |ms|
    requires ms[m].word.owner == None || (!k.Try? && Owns(ms, t, m) && m !in th.held)
    ensures exists ms' :: ThreadStep(ms, threads, t, th, Tau, ms', th.(pc := AfterKernel(m, k))) && Owns(ms', t, m)
  {
    var w := ms[m].word;
    var ms' := if w.owner == None then ms[m := ms[m].(word := Word(Some(t), false, w.died))] else ms;
    assert KernelLockStep(ms, t, th, m, k, ms', th.(pc := AfterKernel(m, k)));
    assert AcquireStep(ms, t, th, Tau, ms', th.(pc := AfterKernel(m, k)));
    assert ThreadStep(ms, threads, t, th, Tau, ms', th.(pc := AfterKernel(m, k)));
  }

  /** In every state of every run, a live thread that has not ended its process has a step other than dying. */
  lemma NeverStuck(states: seq<State>, events: seq<Event>, i: nat, t: nat)
    requires IsRun(states, events) && i < |states| && t < |states[i].threads|
    requires states[i].threads[t].alive && !states[i].threads[t].pc.Aborted?
    ensures states[i].threads[t].pc == Idle || exists e, ms', th' ::
      ThreadStep(states[i].mutexes, states[i].threads, t, states[i].threads[t], e, ms', th') && th'.alive
  {
    var lists := RunInv(states, events, i);
    assert ThreadInv(states[i], lists, t);
    hide IsRun, Inv;
    if states[i].threads[t].pc != Idle {
      var e, ms', th' := SomeStep(states[i].mutexes, states[i].threads, t, states[i].threads[t], lists[t]);
    }
  }

  lemma SomeStep(ms: seq<Mutex>, threads: seq<Thread>, t: nat, th: Thread, ls: seq<nat>)
    returns (e: Event, ms': seq<Mutex>, th': Thread)
    requires ThreadOk(ms, t, th, ls) && th.alive && !th.pc.Aborted? && th.pc != Idle
    ensures ThreadStep(ms, threads, t, th, e, ms', th') && th'.alive
  {
    e, ms', th' := Tau, ms, th;
    match th.pc {
      case Pend(m, k) => th' := th.(pending := Some(m), pc := if k.Wait? then Sleep(m) else Cas(m, k));
      case Sleep(m) => th' := th.(pc := Cas(m, Wait));
      case Cas(m, k) =>
        if ms[m].word == FREE {
          ms', th' := ms[m := ms[m].(word := Word(Some(t), false, false))], th.(pc := Add1(m, false, 0));
        } else {
          th' := th.(pc := if k.Try? && !ms[m].word.died then Unpend(m, 4) else Kernel(m, k));
        }
      case Kernel(m, k) => ms', th' := KernelStep(ms, t, th, m, k);
      case Finish(m, first) =>
        th' := th.(pc := if ms[m].word.died then Clear(m, first) else if first then Add1(m, false, 0) else Unpend(m, 0));
      case Clear(m, first) =>
        ms' := ms[m := ms[m].(word := ms[m].word.(died := false))];
        th' := th.(pc := if first then Add1(m, false, 1) else Unpend(m, 1));
      case Unpend(m, r) =>
        e, th' := Returned(t, m, r), th.(pending := None, pc := Idle, held := if r <= 1 then th.held + {m} else th.held);
      case Add1(m, fin, r) => ms', th' := ms[m := ms[m].(next := th.headNext)], th.(pc := Add2(m, fin, r));
      case Add2(m, fin, r) => th' := th.(headNext := To(m), pc := Add3(m, fin, r));
      case Add3(m, fin, r) => ms', th' := ms[m := ms[m].(prev := Head(t))], th.(pc := Add4(m, fin, r));
      case Add4(m, fin, r) =>
        AfterFirst(ms, t, th, ls, m);
        th' := th.(pc := if fin then Finish(m, false) else Unpend(m, r));
        if ms[m].next.To? {
          ms' := ms[ms[m].next.m := ms[ms[m].next.m].(prev := To(m))];
        }
      case _ => e, ms', th' := UnlockSome(ms, threads, t, th, ls);
    }
    assert AcquireStep(ms, t, th, e, ms', th') || AddStep(ms, t, th, e, ms', th') || UnlockStep(ms, threads, t, th, e, ms', th');
  }

  lemma AfterFirst(ms: seq<Mutex>, t: nat, th: Thread, ls: seq<nat>, m: nat)
    requires ListOk(ms, t, th.headNext, ls) && ls != [] && ls[0] == m
    ensures m < |ms| && (ms[m].next.To? ==> ms[m].next.m < |ms|)
  {
    assert NextOk(ms, t, ls, 0);
    if |ls| > 1 {
      assert NextOk(ms, t, ls, 1);
    }
  }

  lemma KernelStep(ms: seq<Mutex>, t: nat, th: Thread, m: nat, k: Kind) returns (ms': seq<Mutex>, th': Thread)
    requires m < |ms|
    ensures KernelLockStep(ms, t, th, m, k, ms', th') && th'.alive == th.alive
  {
    var w := ms[m].word;
    ms', th' := ms, th;
    if w.owner == None {
      ms', th' := ms[m := ms[m].(word := Word(Some(t), false, w.died))], th.(pc := AfterKernel(m, k));
    } else if k.Try? {
      th' := th.(pc := Unpend(m, 4));
    } else if m in th.held {
      th' := th.(pending := None, pc := Aborted);
    } else if w.owner == Some(t) {
      th' := th.(pc := AfterKernel(m, k));
    } else {
      ms' := ms[m := ms[m].(word := w.(waiters := true))];
    }
  }

  lemma UnlockSome(ms: seq<Mutex>, threads: seq<Thread>, t: nat, th: Thread, ls: seq<nat>)
    returns (e: Event, ms': seq<Mutex>, th': Thread)
    requires ThreadOk(ms, t, th, ls) && th.alive
    requires th.pc.UPend? || th.pc.URemove? || th.pc.UBack? || th.pc.UCas? || th.pc.UKernel? || th.pc.UUnpend?
    ensures UnlockStep(ms, threads, t, th, e, ms', th') && th'.alive
  {
    e, ms', th' := Tau, ms, th;
    match th.pc
    case UPend(m, w) => th' := th.(pending := Some(m), pc := URemove(m, w));
    case URemove(m, w) =>
      var k :| 0 <= k < |ls| && ls[k] == m;
      assert PrevOk(ms, t, ls, k) && NextOk(ms, t, ls, k);
      var p, n := ms[m].prev, ms[m].next;
      if p.To? {
        assert NextOk(ms, t, ls, k - 1);
        ms', th' := ms[p.m := ms[p.m].(next := n)], th.(pc := UBack(m, w, p, n));
      } else {
        th' := th.(headNext := n, pc := UBack(m, w, p, n));
      }
    case UBack(m, w, p, n) =>
      var k :| 0 <= k <= |ls| && p == Before(t, ls, k) && n == After(t, ls, k);
      AfterOwned(ms, t, th, ls, k);
      th' := th.(pc := UCas(m, w));
      if n.To? {
        ms' := ms[n.m := ms[n.m].(prev := p)];
      }
    case UCas(m, w) =>
      if ms[m].word == Word(Some(t), false, false) {
        ms', th' := ms[m := ms[m].(word := FREE)], th.(pc := UUnpend(m, w));
      } else {
        th' := th.(pc := UKernel(m, w));
      }
    case UKernel(m, w) => ms', th' := ms[m := ms[m].(word := FREE)], th.(pc := UUnpend(m, w));
    case UUnpend(m, w) => th' := th.(pending := None, pc := if w then Pend(m, Wait) else Idle);
  }
}
