/**
 * Blocking readers and writers of a RawQueue (aos/linux_code/ipc_lib/queue.cc) on top of the generation
 * counter condition variables of aos_sync.cc, as a state machine over all interleavings.
 */
module QueueWait {
  import opened Basics
  import opened QueueSpec

  /** The two condition variables of a queue. */
  datatype Cond = OnReadable | OnWritable

  datatype Full = FailIfFull | WaitIfFull | OverrideIfFull

  /** A call of WriteMessage, or of ReadMessage or ReadMessageIndex that takes `takes` messages out of the ring. */
  datatype Op =
    | Write(msg: int, full: Full)
    | Read(index: Option<int>, block: bool, takes: Takes)

  datatype Takes = TakesNone | TakesOne | TakesAll

  /** Where a thread is; the constructors marked L hold `data_lock_`. */
  datatype Pc =
    | Idle
    | Locking(op: Op)
    | Body(op: Op)                          // L: at the head of the loop that tests the queue
    | WaitLoad(op: Op, c: Cond)             // L: condition_wait is about to load the generation
    | WaitUnlock(op: Op, c: Cond, g: nat)   // L: has loaded it
    | WaitCheck(op: Op, c: Cond, g: nat)    // about to call FUTEX_WAIT
    | Asleep(op: Op, c: Cond, g: nat)       // in FUTEX_WAIT
    // the call will return `ok`
    | Bump(c: Cond, locked: bool, ok: bool) // condition_broadcast is about to add to the generation
    | Wake(c: Cond, locked: bool, ok: bool) // and then to call FUTEX_WAKE
    | Unlocking(signal: bool, ok: bool)     // L: the writer still has to broadcast if `signal`

  datatype State = State(q: Queue<int>, lock: Option<nat>, readableWaiting: bool, readGen: nat, writeGen: nat, threads: seq<Pc>)

  function Gen(s: State, c: Cond): nat {
    if c.OnReadable? then s.readGen else s.writeGen
  }

  /** The condition a blocked call waits for. */
  predicate CanProceed(q: Queue<int>, op: Op) {
    match op
    case Write(_, _) => !QueueSpec.Full(q)
    case Read(index, _, _) => Readable(q, index)
  }

  function CondOf(op: Op): Cond {
    if op.Write? then OnWritable else OnReadable
  }

  predicate Blocks(op: Op) {
    if op.Write? then op.full.WaitIfFull? else op.block
  }

  /** The ring after a successful read. */
  function AfterRead(q: Queue<int>, takes: Takes): Queue<int>
    requires Ok(q) && !Empty(q)
  {
    match takes
    case TakesNone => q
    case TakesOne => Dropped(q, 1)
    case TakesAll => Dropped(q, |q.history| - q.oldest)
  }

  // ----- the steps of one thread -----

  /** DoWriteMessage with the lock held. */
  predicate WriteBody(s: State, op: Op, s': State, pc': Pc)
    requires op.Write?
  {
    if !QueueSpec.Full(s.q) || op.full.OverrideIfFull? then
      var room := if QueueSpec.Full(s.q) then Dropped(s.q, 1) else s.q;
      s' == s.(q := Written(room, op.msg), readableWaiting := false) && pc' == Unlocking(s.readableWaiting, true)
    else
      s' == s && pc' == if op.full.WaitIfFull? then WaitLoad(op, OnWritable) else Unlocking(false, false)
  }

  /** ReadCommonStart, the read itself and ReadCommonEnd, with the lock held. */
  predicate ReadBody(s: State, op: Op, s': State, pc': Pc)
    requires op.Read? && Ok(s.q)
  {
    if Readable(s.q, op.index) then
      var writableStart := !QueueSpec.Full(s.q);
      var q' := AfterRead(s.q, op.takes);
      && s' == s.(q := q')
      && pc' == if !QueueSpec.Full(q') && !writableStart then Bump(OnWritable, true, true) else Unlocking(false, true)
    else if op.block then
      s' == s.(readableWaiting := true) && pc' == WaitLoad(op, OnReadable)
    else
      s' == s && pc' == Unlocking(false, false)
  }

  /** FUTEX_WAKE: every thread asleep on the condition goes on to relock the mutex. */
  function Woken(threads: seq<Pc>, c: Cond): seq<Pc> {
    seq(|threads|, u requires 0 <= u < |threads| =>
      if threads[u].Asleep? && threads[u].c == c then Locking(threads[u].op) else threads[u])
  }

  /** Everything but FUTEX_WAKE: changes the shared state and the thread's own place. */
  predicate LocalStep(s: State, t: nat, s': State, pc': Pc)
    requires t < |s.threads|
  {
    match s.threads[t]
    case Idle => s' == s && pc'.Locking?
    case Locking(op) => s.lock == None && s' == s.(lock := Some(t)) && pc' == Body(op)
    case Body(op) => Ok(s.q) && if op.Write? then WriteBody(s, op, s', pc') else ReadBody(s, op, s', pc')
    case WaitLoad(op, c) => s' == s && pc' == WaitUnlock(op, c, Gen(s, c))
    case WaitUnlock(op, c, g) => s' == s.(lock := None) && pc' == WaitCheck(op, c, g)
    case WaitCheck(op, c, g) => s' == s && pc' == if Gen(s, c) == g then Asleep(op, c, g) else Locking(op)
    // interrupted by a signal: wait again; or woken for no reason
    case Asleep(op, c, g) => s' == s && (pc' == WaitCheck(op, c, g) || pc' == Locking(op))
    case Bump(c, locked, ok) =>
      && pc' == Wake(c, locked, ok)
      && s' == if c.OnReadable? then s.(readGen := s.readGen + 1) else s.(writeGen := s.writeGen + 1)
    case Wake(_, _, _) => false
    case Unlocking(signal, ok) => s' == s.(lock := None) && pc' == if signal then Bump(OnReadable, false, ok) else Idle
  }

  function AfterWake(pc: Pc): Pc
    requires pc.Wake?
  {
    if pc.locked then Unlocking(false, pc.ok) else Idle
  }

  predicate WakeStep(s: State, t: nat, s': State)
    requires t < |s.threads|
  {
    && s.threads[t].Wake?
    && s' == s.(threads := Woken(s.threads, s.threads[t].c)[t := AfterWake(s.threads[t])])
  }

  ghost predicate Step(s: State, s': State) {
    exists t :: 0 <= t < |s.threads| && ThreadStep(s, t, s')
  }

  ghost predicate ThreadStep(s: State, t: nat, s': State)
    requires t < |s.threads|
  {
    || WakeStep(s, t, s')
    || (exists mid, pc' :: LocalStep(s, t, mid, pc') && s' == mid.(threads := s.threads[t := pc']))
  }

  ghost predicate Init(s: State) {
    && Ok(s.q) && Empty(s.q) && s.lock == None && !s.readableWaiting
    && (forall t | 0 <= t < |s.threads| :: s.threads[t] == Idle)
  }

  // ----- the invariant -----

  predicate Holds(pc: Pc) {
    pc.Body? || pc.WaitLoad? || pc.WaitUnlock? || pc.Unlocking? || ((pc.Bump? || pc.Wake?) && pc.locked)
  }

  /** On the way to changing the generation of `c`. */
  predicate Announces(pc: Pc, c: Cond) {
    (pc.Bump? && pc.c == c) || (c.OnReadable? && pc.Unlocking? && pc.signal)
  }

  ghost predicate InFlight(s: State, c: Cond) {
    exists u :: 0 <= u < |s.threads| && Announces(s.threads[u], c)
  }

  /** About to call FUTEX_WAKE on `c`. */
  ghost predicate Waking(s: State, c: Cond) {
    exists u :: 0 <= u < |s.threads| && s.threads[u].Wake? && s.threads[u].c == c
  }

  /** Has read the generation and will sleep unless it changes. */
  predicate Committed(pc: Pc) {
    pc.WaitUnlock? || pc.WaitCheck? || pc.Asleep?
  }

  /** The wait condition is still false and, for a reader, the next writer knows it must broadcast. */
  predicate StillBlocked(s: State, op: Op) {
    !CanProceed(s.q, op) && (op.Read? ==> s.readableWaiting)
  }

  ghost predicate WaitOk(s: State, pc: Pc) {
    && ((pc.WaitLoad? || Committed(pc)) ==> Blocks(pc.op) && pc.c == CondOf(pc.op))
    && (pc.WaitLoad? ==> StillBlocked(s, pc.op))
    && (Committed(pc) ==> pc.g <= Gen(s, pc.c))
    && (Committed(pc) && pc.g == Gen(s, pc.c) ==> StillBlocked(s, pc.op) || InFlight(s, pc.c))
    && (pc.Asleep? && pc.g != Gen(s, pc.c) ==> Waking(s, pc.c))
  }

  ghost predicate Inv(s: State) {
    && Ok(s.q)
    && (forall t | 0 <= t < |s.threads| :: Holds(s.threads[t]) <==> s.lock == Some(t))
    && (forall t | 0 <= t < |s.threads| :: WaitOk(s, s.threads[t]))
  }

  lemma InitInv(s: State)
    requires Init(s)
    ensures Inv(s)
  {
  }

  // ----- every step keeps the invariant -----

  lemma QueueKept(s: State, t: nat, mid: State, pc': Pc)
    requires Ok(s.q) && t < |s.threads| && LocalStep(s, t, mid, pc')
    ensures Ok(mid.q) && mid.q.capacity == s.q.capacity
  {
  }

  lemma LockKept(s: State, t: nat, mid: State, pc': Pc, u: nat)
    requires Inv(s) && t < |s.threads| && LocalStep(s, t, mid, pc') && u < |s.threads|
    ensures Holds(s.threads[t := pc'][u]) <==> mid.lock == Some(u)
  {
    assert Holds(s.threads[t]) <==> s.lock == Some(t);
    assert Holds(s.threads[u]) <==> s.lock == Some(u);
  }

  /** A thread that announces a broadcast keeps announcing it until it has changed the generation. */
  lemma InFlightKept(s: State, t: nat, mid: State, pc': Pc, c: Cond)
    requires t < |s.threads| && LocalStep(s, t, mid, pc') && InFlight(s, c)
    ensures InFlight(mid.(threads := s.threads[t := pc']), c) || Gen(mid, c) == Gen(s, c) + 1
  {
    var u :| 0 <= u < |s.threads| && Announces(s.threads[u], c);
    var s' := mid.(threads := s.threads[t := pc']);
    assert u != t ==> Announces(s'.threads[u], c);
    assert u == t && Gen(mid, c) == Gen(s, c) ==> Announces(s'.threads[t], c);
  }

  lemma WakingKept(s: State, t: nat, mid: State, pc': Pc, c: Cond)
    requires t < |s.threads| && LocalStep(s, t, mid, pc') && Waking(s, c)
    ensures Waking(mid.(threads := s.threads[t := pc']), c)
  {
    var u :| 0 <= u < |s.threads| && s.threads[u].Wake? && s.threads[u].c == c;
    assert (mid.(threads := s.threads[t := pc'])).threads[u] == s.threads[u];
  }

  /** What a step does to the condition a committed thread waits for. */
  lemma BlockedOrAnnounced(s: State, t: nat, mid: State, pc': Pc, op: Op)
    requires Ok(s.q) && t < |s.threads| && LocalStep(s, t, mid, pc')
    requires StillBlocked(s, op) && Blocks(op)
    ensures StillBlocked(mid, op) || Announces(pc', CondOf(op))
  {
  }

  lemma CommittedOk(s: State, t: nat, mid: State, pc': Pc, u: nat)
    requires Inv(s) && t < |s.threads| && LocalStep(s, t, mid, pc') && u < |s.threads| && u != t
    requires Committed(s.threads[u])
    ensures WaitOk(mid.(threads := s.threads[t := pc']), s.threads[u])
  {
    var pc, s' := s.threads[u], mid.(threads := s.threads[t := pc']);
    assert WaitOk(s, pc);
    GenSteps(s, t, mid, pc', pc.c);
    if Gen(mid, pc.c) == Gen(s, pc.c) {
      if pc.g == Gen(s, pc.c) {
        if InFlight(s, pc.c) {
          InFlightKept(s, t, mid, pc', pc.c);
        } else {
          BlockedOrAnnounced(s, t, mid, pc', pc.op);
          assert s'.threads[t] == pc';
        }
      } else if pc.Asleep? {
        WakingKept(s, t, mid, pc', pc.c);
      }
    } else {
      assert s'.threads[t] == pc';
    }
  }

  /** Only a broadcast changes a generation, and it then still has to wake the sleepers. */
  lemma GenSteps(s: State, t: nat, mid: State, pc': Pc, c: Cond)
    requires t < |s.threads| && LocalStep(s, t, mid, pc')
    ensures Gen(mid, c) == Gen(s, c) || (Gen(mid, c) == Gen(s, c) + 1 && pc'.Wake? && pc'.c == c)
  {
  }

  lemma OwnOk(s: State, t: nat, mid: State, pc': Pc)
    requires Inv(s) && t < |s.threads| && LocalStep(s, t, mid, pc')
    ensures WaitOk(mid.(threads := s.threads[t := pc']), pc')
  {
    var pc, s' := s.threads[t], mid.(threads := s.threads[t := pc']);
    assert WaitOk(s, pc);
    if Committed(pc) && Committed(pc') && InFlight(s, pc.c) {
      InFlightKept(s, t, mid, pc', pc.c);
    }
  }

  /**
   * As long as nobody has broadcast since a waiting call loaded the generation, its own steps take it nowhere but to
   * sleep: it does not look at the queue again. Only one that is asleep can be woken without a broadcast.
   */
  lemma WaitsUntilBroadcast(s: State, t: nat, mid: State, pc': Pc)
    requires t < |s.threads| && LocalStep(s, t, mid, pc') && Committed(s.threads[t])
    requires s.threads[t].g == Gen(s, s.threads[t].c)
    ensures !s.threads[t].Asleep? ==> Committed(pc') && pc'.op == s.threads[t].op && pc'.g == s.threads[t].g
    ensures s.threads[t].WaitCheck? ==> pc'.Asleep?
  {
  }

  lemma LocalInv(s: State, t: nat, mid: State, pc': Pc)
    requires Inv(s) && t < |s.threads| && LocalStep(s, t, mid, pc')
    ensures Inv(mid.(threads := s.threads[t := pc']))
  {
    hide LocalStep, WaitOk;
    var s' := mid.(threads := s.threads[t := pc']);
    QueueKept(s, t, mid, pc');
    forall u | 0 <= u < |s'.threads|
      ensures WaitOk(s', s'.threads[u]) && (Holds(s'.threads[u]) <==> s'.lock == Some(u))
    {
      LockKept(s, t, mid, pc', u);
      OtherOk(s, t, mid, pc', u);
    }
  }

  lemma OtherOk(s: State, t: nat, mid: State, pc': Pc, u: nat)
    requires Inv(s) && t < |s.threads| && LocalStep(s, t, mid, pc') && u < |s.threads|
    ensures WaitOk(mid.(threads := s.threads[t := pc']), s.threads[t := pc'][u])
  {
    hide LocalStep;
    if u == t {
      OwnOk(s, t, mid, pc');
    } else if Committed(s.threads[u]) {
      CommittedOk(s, t, mid, pc', u);
    } else if s.threads[u].WaitLoad? {
      LockedOut(s, t, mid, pc', u);
    }
  }

  /** While another thread holds the lock a step changes nothing the lock protects. */
  lemma LockedOut(s: State, t: nat, mid: State, pc': Pc, u: nat)
    requires Inv(s) && t < |s.threads| && LocalStep(s, t, mid, pc') && u < |s.threads| && u != t
    requires s.threads[u].WaitLoad?
    ensures WaitOk(mid.(threads := s.threads[t := pc']), s.threads[u])
  {
    assert Holds(s.threads[u]) && WaitOk(s, s.threads[u]);
    assert !Holds(s.threads[t]);
  }

  lemma WakeInv(s: State, t: nat, s': State)
    requires Inv(s) && t < |s.threads| && WakeStep(s, t, s')
    ensures Inv(s')
  {
    var c := s.threads[t].c;
    forall u | 0 <= u < |s'.threads|
      ensures WaitOk(s', s'.threads[u]) && (Holds(s'.threads[u]) <==> s'.lock == Some(u))
    {
      assert WaitOk(s, s.threads[u]) && (Holds(s.threads[u]) <==> s.lock == Some(u));
      if s'.threads[u] == s.threads[u] {
        WokenOk(s, t, s', u);
      }
    }
  }

  lemma WokenOk(s: State, t: nat, s': State, u: nat)
    requires Inv(s) && t < |s.threads| && WakeStep(s, t, s') && u < |s.threads| && s'.threads[u] == s.threads[u]
    ensures WaitOk(s', s.threads[u])
  {
    var pc := s.threads[u];
    assert WaitOk(s, pc);
    if Committed(pc) && InFlight(s, pc.c) {
      var v :| 0 <= v < |s.threads| && Announces(s.threads[v], pc.c);
      assert Announces(s'.threads[v], pc.c);
    }
    if pc.Asleep? && pc.g != Gen(s, pc.c) {
      var v :| 0 <= v < |s.threads| && s.threads[v].Wake? && s.threads[v].c == pc.c;
      assert pc.c != s.threads[t].c;
      assert s'.threads[v].Wake? && s'.threads[v].c == pc.c;
    }
  }

  lemma StepInv(s: State, s': State)
    requires Inv(s) && Step(s, s')
    ensures Inv(s')
  {
    hide LocalStep, WakeStep, WaitOk;
    var t :| 0 <= t < |s.threads| && ThreadStep(s, t, s');
    if WakeStep(s, t, s') {
      WakeInv(s, t, s');
    } else {
      var mid, pc' :| LocalStep(s, t, mid, pc') && s' == mid.(threads := s.threads[t := pc']);
      LocalInv(s, t, mid, pc');
    }
  }

  // ----- theorems about every run -----

  /** Consecutive states of the machine. */
  ghost predicate Steps(states: seq<State>) {
    forall i, j | 0 <= i < j < |states| && j == i + 1 :: Step(states[i], states[j])
  }

  ghost predicate IsRun(states: seq<State>) {
    states != [] && Init(states[0]) && Steps(states)
  }

  lemma {:induction false} RunInv(states: seq<State>, i: nat)
    requires IsRun(states) && i < |states|
    ensures Inv(states[i])
  {
    if i == 0 {
      InitInv(states[0]);
    } else {
      RunInv(states, i - 1);
      StepInv(states[i - 1], states[i]);
    }
  }

  /**
   * No wakeup is lost: a thread that has committed to sleeping and whose condition now holds has a changed
   * generation or a broadcast on its way, and one already asleep then has a wake call on its way.
   */
  lemma NoLostWakeup(states: seq<State>, i: nat, t: nat)
    requires IsRun(states) && i < |states| && t < |states[i].threads| && Committed(states[i].threads[t])
    ensures
      var s, pc := states[i], states[i].threads[t];
      CanProceed(s.q, pc.op) ==> pc.g != Gen(s, pc.c) || InFlight(s, pc.c)
    ensures
      var s, pc := states[i], states[i].threads[t];
      pc.Asleep? && pc.g != Gen(s, pc.c) ==> Waking(s, pc.c)
  {
    hide IsRun;
    RunInv(states, i);
    assert WaitOk(states[i], states[i].threads[t]);
  }

  /** When nothing but sleepers is left, every sleeper still has to wait. */
  lemma NobodyStuck(states: seq<State>, i: nat, t: nat)
    requires IsRun(states) && i < |states| && t < |states[i].threads| && states[i].threads[t].Asleep?
    requires forall u | 0 <= u < |states[i].threads| :: states[i].threads[u].Idle? || states[i].threads[u].Asleep?
    ensures !CanProceed(states[i].q, states[i].threads[t].op)
  {
    NoLostWakeup(states, i, t);
  }

  /** At most one thread is inside the critical section. */
  lemma OneHolder(states: seq<State>, i: nat, t: nat, u: nat)
    requires IsRun(states) && i < |states| && t < |states[i].threads| && u < |states[i].threads|
    requires Holds(states[i].threads[t]) && Holds(states[i].threads[u])
    ensures t == u
  {
    RunInv(states, i);
  }

  // ----- delivering a wakeup, whatever the other threads do -----

  /** A stretch of a run with the thread that takes each step. */
  ghost predicate Stretch(states: seq<State>, who: seq<nat>) {
    && |states| == |who| + 1
    && forall k, l | 0 <= k < |who| && l == k + 1 :: who[k] < |states[k].threads| && ThreadStep(states[k], who[k], states[l])
  }

  function Turns(who: seq<nat>, u: nat): nat {
    if who == [] then 0 else Turns(who[..|who| - 1], u) + if who[|who| - 1] == u then 1 else 0
  }

  /** How many steps of its own a thread is away from having woken the threads asleep on `c`. */
  function Owes(pc: Pc, c: Cond): nat {
    if pc.Unlocking? && pc.signal && c.OnReadable? then 3
    else if pc.Bump? && pc.c == c then 2
    else if pc.Wake? && pc.c == c then 1
    else 0
  }

  ghost predicate NobodyAsleep(s: State, c: Cond) {
    forall t | 0 <= t < |s.threads| :: !(s.threads[t].Asleep? && s.threads[t].c == c)
  }

  /** Only its own steps bring such a thread on, each by one, and the last of them wakes everybody. */
  lemma OwesStep(s: State, v: nat, s': State, u: nat, c: Cond)
    requires v < |s.threads| && u < |s.threads| && ThreadStep(s, v, s') && Owes(s.threads[u], c) > 0
    ensures |s'.threads| == |s.threads|
    ensures v != u ==> s'.threads[u] == s.threads[u]
    ensures v == u ==> Owes(s.threads[u], c) > 1 ==> Owes(s'.threads[u], c) == Owes(s.threads[u], c) - 1
    ensures v == u ==> Owes(s.threads[u], c) == 1 ==> NobodyAsleep(s', c)
  {
  }

  /** Its next step is always possible: it waits for nobody. */
  lemma OwesNeverBlocks(s: State, u: nat, c: Cond)
    requires u < |s.threads| && Owes(s.threads[u], c) > 0
    ensures exists s' :: ThreadStep(s, u, s')
  {
    if s.threads[u].Wake? {
      var s' := s.(threads := Woken(s.threads, s.threads[u].c)[u := AfterWake(s.threads[u])]);
      assert WakeStep(s, u, s') && ThreadStep(s, u, s');
    } else {
      var mid, pc' := OwnStep(s, u);
    }
  }

  lemma {:induction false} OwesOverStretch(states: seq<State>, who: seq<nat>, u: nat, c: Cond)
    requires Stretch(states, who) && u < |states[0].threads| && Turns(who, u) < Owes(states[0].threads[u], c)
    ensures u < |states[|who|].threads|
    ensures Owes(states[|who|].threads[u], c) == Owes(states[0].threads[u], c) - Turns(who, u)
    decreases |who|
  {
    hide ThreadStep;
    if who != [] {
      var n := |who| - 1;
      OwesOverStretch(states[..n + 1], who[..n], u, c);
      OwesStep(states[n], who[n], states[n + 1], u, c);
    }
  }

  /** In every continuation, once `u` has taken the steps it owes, nobody is asleep on `c`. */
  lemma DeliveredBy(states: seq<State>, who: seq<nat>, u: nat, c: Cond)
    requires Stretch(states, who) && who != [] && who[|who| - 1] == u && u < |states[0].threads|
    requires Turns(who, u) == Owes(states[0].threads[u], c)
    ensures NobodyAsleep(states[|who|], c)
  {
    hide ThreadStep;
    var n := |who| - 1;
    OwesOverStretch(states[..n + 1], who[..n], u, c);
    OwesStep(states[n], who[n], states[n + 1], u, c);
  }

  /**
   * A sleeper whose condition holds has another thread that owes its wakeup: in every continuation that thread can
   * always take its next step, and right after it has taken the at most three steps it owes, the sleeper is not
   * asleep any more, whatever the other threads did in between.
   */
  lemma WakeupDelivered(states: seq<State>, i: nat, t: nat) returns (u: nat)
    requires IsRun(states) && i < |states| && t < |states[i].threads| && states[i].threads[t].Asleep?
    requires CanProceed(states[i].q, states[i].threads[t].op)
    ensures u != t && u < |states[i].threads| && 1 <= Owes(states[i].threads[u], states[i].threads[t].c) <= 3
    ensures forall rest: seq<State>, who: seq<nat> | Stretch(rest, who) && rest[0] == states[i] && who != [] && who[|who| - 1] == u
              && Turns(who, u) == Owes(states[i].threads[u], states[i].threads[t].c) ::
              NobodyAsleep(rest[|who|], states[i].threads[t].c)
    ensures forall rest: seq<State>, who: seq<nat> | Stretch(rest, who) && rest[0] == states[i]
              && Turns(who, u) < Owes(states[i].threads[u], states[i].threads[t].c) ::
              u < |rest[|who|].threads| && exists s' :: ThreadStep(rest[|who|], u, s')
  {
    var s := states[i];
    var c := s.threads[t].c;
    NoLostWakeup(states, i, t);
    if InFlight(s, c) {
      u :| 0 <= u < |s.threads| && Announces(s.threads[u], c);
    } else {
      u :| 0 <= u < |s.threads| && s.threads[u].Wake? && s.threads[u].c == c;
    }
    hide ThreadStep, IsRun;
    forall rest: seq<State>, who: seq<nat> | Stretch(rest, who) && rest[0] == s && who != [] && who[|who| - 1] == u
        && Turns(who, u) == Owes(s.threads[u], c)
      ensures NobodyAsleep(rest[|who|], c)
    {
      DeliveredBy(rest, who, u, c);
    }
    forall rest: seq<State>, who: seq<nat> | Stretch(rest, who) && rest[0] == s && Turns(who, u) < Owes(s.threads[u], c)
      ensures u < |rest[|who|].threads| && exists s' :: ThreadStep(rest[|who|], u, s')
    {
      OwesOverStretch(rest, who, u, c);
      OwesNeverBlocks(rest[|who|], u, c);
    }
  }

  // ----- no thread is ever stuck but for the lock -----

  /** The step of a thread that is not about to call FUTEX_WAKE and is not waiting for the lock. */
  lemma OwnStep(s: State, t: nat) returns (s': State, pc': Pc)
    requires t < |s.threads| && !s.threads[t].Wake? && (s.threads[t].Locking? ==> s.lock == None)
    requires s.threads[t].Body? ==> Ok(s.q)
    ensures ThreadStep(s, t, s') && s'.threads == s.threads[t := pc']
  {
    var mid := s;
    match s.threads[t] {
      case Idle => pc' := Locking(Write(0, FailIfFull));
      case Locking(op) => mid, pc' := s.(lock := Some(t)), Body(op);
      case Body(op) => mid, pc' := BodyStep(s, op);
      case WaitLoad(op, c) => pc' := WaitUnlock(op, c, Gen(s, c));
      case WaitUnlock(op, c, g) => mid, pc' := s.(lock := None), WaitCheck(op, c, g);
      case WaitCheck(op, c, g) => pc' := if Gen(s, c) == g then Asleep(op, c, g) else Locking(op);
      case Asleep(op, c, g) => pc' := Locking(op);
      case Bump(c, locked, ok) =>
        mid := if c.OnReadable? then s.(readGen := s.readGen + 1) else s.(writeGen := s.writeGen + 1);
        pc' := Wake(c, locked, ok);
      case Unlocking(signal, ok) => mid, pc' := s.(lock := None), if signal then Bump(OnReadable, false, ok) else Idle;
    }
    s' := mid.(threads := s.threads[t := pc']);
    assert LocalStep(s, t, mid, pc');
  }

  lemma BodyStep(s: State, op: Op) returns (mid: State, pc': Pc)
    requires Ok(s.q)
    ensures if op.Write? then WriteBody(s, op, mid, pc') else ReadBody(s, op, mid, pc')
  {
    if op.Write? {
      if !QueueSpec.Full(s.q) || op.full.OverrideIfFull? {
        var room := if QueueSpec.Full(s.q) then Dropped(s.q, 1) else s.q;
        mid, pc' := s.(q := Written(room, op.msg), readableWaiting := false), Unlocking(s.readableWaiting, true);
      } else {
        mid, pc' := s, if op.full.WaitIfFull? then WaitLoad(op, OnWritable) else Unlocking(false, false);
      }
    } else if Readable(s.q, op.index) {
      var q' := AfterRead(s.q, op.takes);
      mid := s.(q := q');
      pc' := if !QueueSpec.Full(q') && QueueSpec.Full(s.q) then Bump(OnWritable, true, true) else Unlocking(false, true);
    } else if op.block {
      mid, pc' := s.(readableWaiting := true), WaitLoad(op, OnReadable);
    } else {
      mid, pc' := s, Unlocking(false, false);
    }
  }

  /** In every state of every run a thread can take a step, or wants the lock and the thread that has it can. */
  lemma NeverStuck(states: seq<State>, i: nat, t: nat) returns (u: nat)
    requires IsRun(states) && i < |states| && t < |states[i].threads|
    ensures u < |states[i].threads| && (u == t || (states[i].threads[t].Locking? && states[i].lock == Some(u)))
    ensures exists s' :: ThreadStep(states[i], u, s')
  {
    hide IsRun;
    RunInv(states, i);
    var s := states[i];
    u := t;
    if s.threads[t].Locking? && s.lock != None {
      u := s.lock.value;
      HolderExists(states, i);
    }
    if s.threads[u].Wake? {
      var s' := s.(threads := Woken(s.threads, s.threads[u].c)[u := AfterWake(s.threads[u])]);
      assert WakeStep(s, u, s') && ThreadStep(s, u, s');
    } else {
      var s', pc' := OwnStep(s, u);
    }
  }

  /** An idle thread can make any call. */
  lemma CanCall(s: State, t: nat, op: Op)
    requires t < |s.threads| && s.threads[t] == Idle
    ensures ThreadStep(s, t, s.(threads := s.threads[t := Locking(op)]))
  {
    assert LocalStep(s, t, s, Locking(op));
  }

  lemma {:induction false} HolderExists(states: seq<State>, i: nat)
    requires IsRun(states) && i < |states|
    ensures states[i].lock.Some? ==> states[i].lock.value < |states[i].threads|
  {
    if i > 0 {
      HolderExists(states, i - 1);
      assert Step(states[i - 1], states[i]);
    }
  }

  // ----- what the calls return and do -----

  /** The call a thread is in, until it is decided what the call returns. */
  function OpOf(pc: Pc): Option<Op> {
    if pc.Locking? || pc.Body? || pc.WaitLoad? || Committed(pc) then Some(pc.op) else None
  }

  /** And then what it returns. */
  function ResultOf(pc: Pc): Option<bool> {
    if pc.Bump? || pc.Wake? || pc.Unlocking? then Some(pc.ok) else None
  }

  /**
   * A thread stays in its call, through all waiting, until its own step with the lock held decides it; then it keeps the
   * result until it returns.
   */
  lemma CallKept(s: State, v: nat, s': State, t: nat)
    requires v < |s.threads| && t < |s.threads| && ThreadStep(s, v, s')
    ensures |s'.threads| == |s.threads|
    ensures OpOf(s.threads[t]).Some? && OpOf(s'.threads[t]) != OpOf(s.threads[t]) ==>
              v == t && s.threads[t].Body? && ResultOf(s'.threads[t]).Some?
    ensures ResultOf(s.threads[t]).Some? && ResultOf(s'.threads[t]) != ResultOf(s.threads[t]) ==>
              v == t && s'.threads[t] == Idle
    ensures s.threads[t].Idle? && s'.threads[t] != Idle ==> v == t && s'.threads[t].Locking?
  {
  }

  /** What is decided: by whom, for which call, with what result, and the queue before and after. */
  datatype Entry = Entry(t: nat, op: Op, ok: bool, q: Queue<int>, q': Queue<int>)

  function Taken(q: Queue<int>, takes: Takes): int {
    match takes
    case TakesNone => 0
    case TakesOne => 1
    case TakesAll => |q.history| - q.oldest
  }

  /**
   * A write succeeds exactly if there is room or it overrides, a read exactly if there is something to read. Success
   * puts exactly the message at the end, dropping only the oldest one if it must, or takes out exactly what the
   * read takes. A call that blocks never fails, and failing changes nothing.
   */
  predicate EntryOk(e: Entry) {
    && e.q'.capacity == e.q.capacity && (e.ok <==> CanProceed(e.q, e.op) || (e.op.Write? && e.op.full.OverrideIfFull?))
    && (!e.ok ==> e.q' == e.q && !Blocks(e.op))
    && (e.ok ==> match e.op
          case Write(msg, _) =>
            e.q'.history == e.q.history + [msg] && e.q'.oldest == e.q.oldest + if QueueSpec.Full(e.q) then 1 else 0
          case Read(_, _, takes) => e.q'.history == e.q.history && e.q'.oldest == e.q.oldest + Taken(e.q, takes))
  }

  /** The step decides a call. */
  predicate Decides(s: State, t: nat, s': State) {
    t < |s.threads| == |s'.threads| && s.threads[t].Body? && ResultOf(s'.threads[t]).Some?
  }

  function EntryOf(s: State, t: nat, s': State): Entry
    requires Decides(s, t, s')
  {
    Entry(t, s.threads[t].op, ResultOf(s'.threads[t]).value, s.q, s'.q)
  }

  /**
   * Only deciding changes the queue, and it does so rightly; a call is not decided exactly if it blocks and cannot
   * proceed, and then it goes on to wait.
   */
  lemma StepDecides(s: State, t: nat, s': State)
    requires Inv(s) && t < |s.threads| && ThreadStep(s, t, s')
    ensures Decides(s, t, s') ==> EntryOk(EntryOf(s, t, s'))
    ensures !Decides(s, t, s') ==> s'.q == s.q
    ensures s.threads[t].Body? ==>
      var op := s.threads[t].op;
      (Decides(s, t, s') <==> !Blocks(op) || CanProceed(s.q, op)) && (!Decides(s, t, s') ==> s'.threads[t] == WaitLoad(op, CondOf(op)))
  {
  }

  /** All decisions of a stretch, in order. */
  function Log(states: seq<State>, who: seq<nat>): seq<Entry>
    requires |states| == |who| + 1
  {
    if who == [] then []
    else
      var n := |who| - 1;
      Log(states[..n + 1], who[..n])
        + if Decides(states[n], who[n], states[n + 1]) then [EntryOf(states[n], who[n], states[n + 1])] else []
  }

  function Messages(log: seq<Entry>): seq<int> {
    if log == [] then []
    else Messages(log[..|log| - 1]) + if log[|log| - 1].ok && log[|log| - 1].op.Write? then [log[|log| - 1].op.msg] else []
  }

  predicate Follows(log: seq<Entry>, k: nat, q': Queue<int>)
    requires k < |log|
  {
    log[k].q' == if k + 1 < |log| then log[k + 1].q else q'
  }

  /** Each decision finds the queue as the one before left it. */
  ghost predicate Linked(q: Queue<int>, log: seq<Entry>, q': Queue<int>) {
    && (forall k | 0 <= k < |log| :: EntryOk(log[k]))
    && (forall k | 0 <= k < |log| :: Follows(log, k, q'))
    && q == if log == [] then q' else log[0].q
  }

  /**
   * In every run the queue is what the decided calls made it: every one of them right, none of them lost, and the
   * history is exactly the messages of the writes that succeeded, in order.
   */
  lemma {:induction false} RunLog(states: seq<State>, who: seq<nat>)
    requires Stretch(states, who) && Init(states[0])
    ensures Inv(states[|who|]) && Linked(states[0].q, Log(states, who), states[|who|].q)
    ensures states[|who|].q.history == states[0].q.history + Messages(Log(states, who))
    decreases |who|
  {
    hide ThreadStep, EntryOk, Inv;
    if who == [] {
      InitInv(states[0]);
    } else {
      var n := |who| - 1;
      RunLog(states[..n + 1], who[..n]);
      var s, t, s' := states[n], who[n], states[n + 1];
      assert ThreadStep(s, t, s');
      StepInv(s, s');
      StepDecides(s, t, s');
      var log, log' := Log(states[..n + 1], who[..n]), Log(states, who);
      if Decides(s, t, s') {
        var e := EntryOf(s, t, s');
        assert log' == log + [e] && log'[..|log|] == log;
        EntryHistory(e);
        LinkedMore(states[0].q, log, e);
      } else {
        assert log' == log;
      }
    }
  }

  lemma LinkedMore(q: Queue<int>, log: seq<Entry>, e: Entry)
    requires Linked(q, log, e.q) && EntryOk(e)
    ensures Linked(q, log + [e], e.q')
  {
    hide EntryOk;
    var log' := log + [e];
    forall k | 0 <= k < |log'|
      ensures Follows(log', k, e.q')
    {
      if k < |log| {
        assert Follows(log, k, e.q);
      }
    }
  }

  lemma EntryHistory(e: Entry)
    requires EntryOk(e)
    ensures e.q'.history == e.q.history + if e.ok && e.op.Write? then [e.op.msg] else []
  {
  }

  /** A read has gone to wait since the last write that succeeded. */
  function ReaderWaits(states: seq<State>, who: seq<nat>): bool
    requires |states| == |who| + 1
  {
    if who == [] then false
    else
      var n := |who| - 1;
      var s, t, s' := states[n], who[n], states[n + 1];
      if t >= |s.threads| || !s.threads[t].Body? then ReaderWaits(states[..n + 1], who[..n])
      else if !Decides(s, t, s') then s.threads[t].op.Read? || ReaderWaits(states[..n + 1], who[..n])
      else if s.threads[t].op.Write? && ResultOf(s'.threads[t]).value then false
      else ReaderWaits(states[..n + 1], who[..n])
  }

  lemma StepFlag(s: State, t: nat, s': State)
    requires Inv(s) && t < |s.threads| && ThreadStep(s, t, s')
    ensures s'.readableWaiting ==
      if s.threads[t].Body? && !Decides(s, t, s') then s.threads[t].op.Read? || s.readableWaiting
      else if s.threads[t].Body? && s.threads[t].op.Write? && ResultOf(s'.threads[t]).value then false
      else s.readableWaiting
    ensures s.threads[t].Body? ==>
      && (Announces(s'.threads[t], OnReadable) <==>
            Decides(s, t, s') && s.threads[t].op.Write? && ResultOf(s'.threads[t]).value && s.readableWaiting)
      && (Announces(s'.threads[t], OnWritable) <==>
            Decides(s, t, s') && s.threads[t].op.Read? && QueueSpec.Full(s.q) && !QueueSpec.Full(s'.q))
  {
  }

  /**
   * `readable_waiting_` says exactly whether a read has gone to wait since the last write that succeeded. So a write
   * broadcasts if and only if it succeeds and one has; and a read broadcasts if and only if it makes room in a full queue.
   */
  lemma {:induction false} BroadcastsIff(states: seq<State>, who: seq<nat>)
    requires Stretch(states, who) && Init(states[0])
    ensures states[|who|].readableWaiting == ReaderWaits(states, who)
    ensures forall n | n == |who| - 1 && 0 <= n && states[n].threads[who[n]].Body? ::
      var s, t, s' := states[n], who[n], states[n + 1];
      && (Announces(s'.threads[t], OnReadable) <==>
            Decides(s, t, s') && s.threads[t].op.Write? && ResultOf(s'.threads[t]).value
            && ReaderWaits(states[..n + 1], who[..n]))
      && (Announces(s'.threads[t], OnWritable) <==>
            Decides(s, t, s') && s.threads[t].op.Read? && QueueSpec.Full(s.q) && !QueueSpec.Full(s'.q))
    decreases |who|
  {
    hide ThreadStep, Inv, Decides;
    if who != [] {
      var n := |who| - 1;
      BroadcastsIff(states[..n + 1], who[..n]);
      RunLog(states[..n + 1], who[..n]);
      assert ThreadStep(states[n], who[n], states[n + 1]);
      StepFlag(states[n], who[n], states[n + 1]);
    }
  }
}
