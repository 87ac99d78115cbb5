/** Hierarchical merging of contour arcs (aos/vision/blob/hierarchical_contour_merge.cc). */
module HierMerge {
  import opened DisjointSets

  /** The point after `i` on a closed contour of `n` points. */
  function Next(n: nat, i: nat): (r: nat)
    requires i < n
    ensures r < n
  {
    if i + 1 == n then 0 else i + 1
  }

  lemma ModPlus(n: nat, x: nat)
    requires x < n
    ensures (x + n) % n == x && x % n == x && (n + n) % n == 0
  {
  }

  /** How the code writes the points after and before `i`. */
  lemma NextIsMod(n: nat, i: nat)
    requires i < n
    ensures (i + 1 + n) % n == Next(n, i)
    ensures 0 <= (i - 1 + n) % n < n && Next(n, (i - 1 + n) % n) == i
  {
    ModPlus(n, Next(n, i));
    if i > 0 {
      ModPlus(n, i - 1);
    } else {
      ModPlus(n, n - 1);
    }
  }

  lemma NextInjective(n: nat, i: nat, j: nat)
    requires i < n && j < n && Next(n, i) == Next(n, j)
    ensures i == j
  {
  }

  /** Consecutive distinct points of the contour. */
  ghost predicate Arc(n: nat, a: seq<nat>) {
    && a != []
    && (forall k | 0 <= k < |a| :: a[k] < n)
    && (forall j, k | 0 <= j < k < |a| && k == j + 1 :: a[k] == Next(n, a[j]))
    && (forall j, k | 0 <= j < k < |a| :: a[j] != a[k])
  }

  /** The arcs of a partition of the contour; `root[i]` names the class of point `i`. */
  datatype Classes = Classes(n: nat, root: seq<nat>, sts: seq<nat>, eds: seq<nat>, arcs: seq<seq<nat>>)

  ghost predicate IsRoot(c: Classes, a: nat) {
    a < c.n && |c.root| == c.n && c.root[a] == a
  }

  ghost predicate WellFormed(c: Classes) {
    && |c.root| == |c.sts| == |c.eds| == |c.arcs| == c.n
    && (forall i | 0 <= i < c.n :: c.root[i] < c.n && IsRoot(c, c.root[i]))
    && (forall i | 0 <= i < c.n :: c.sts[i] < c.n && c.eds[i] < c.n)
  }

  /** The class of root `a` is exactly the contiguous arc from its start to its end. */
  ghost predicate IsArcClass(c: Classes, a: nat)
    requires WellFormed(c) && IsRoot(c, a)
  {
    && Arc(c.n, c.arcs[a])
    && c.arcs[a][0] == c.sts[a] && c.arcs[a][|c.arcs[a]| - 1] == c.eds[a]
    && (forall i | 0 <= i < c.n :: i in c.arcs[a] <==> c.root[i] == a)
  }

  ghost predicate Partition(c: Classes) {
    WellFormed(c) && forall a: nat | IsRoot(c, a) :: IsArcClass(c, a)
  }

  /** Arc `b` starts where arc `a` ends. */
  ghost predicate Adjacent(c: Classes, a: nat, b: nat)
    requires WellFormed(c)
  {
    IsRoot(c, a) && IsRoot(c, b) && Next(c.n, c.eds[a]) == c.sts[b]
  }

  lemma EndsBelong(c: Classes, a: nat)
    requires Partition(c) && IsRoot(c, a)
    ensures c.root[c.sts[a]] == a && c.root[c.eds[a]] == a
  {
    assert c.sts[a] in c.arcs[a] && c.eds[a] in c.arcs[a];
  }

  /** Inside an arc no point is followed by the start of an arc. */
  lemma InnerNotStart(c: Classes, a: nat, b: nat, k: nat)
    requires Partition(c) && IsRoot(c, a) && IsRoot(c, b) && k + 1 < |c.arcs[b]|
    ensures Next(c.n, c.arcs[b][k]) != c.sts[a]
  {
    assert c.arcs[b][k + 1] == Next(c.n, c.arcs[b][k]) && c.arcs[b][k + 1] in c.arcs[b];
    EndsBelong(c, a);
  }

  /** The point before a start is an end. */
  lemma BeforeStart(c: Classes, a: nat, i: nat)
    requires Partition(c) && IsRoot(c, a) && i < c.n && Next(c.n, i) == c.sts[a]
    ensures c.eds[c.root[i]] == i
  {
    var b := c.root[i];
    assert i in c.arcs[b];
    var k :| 0 <= k < |c.arcs[b]| && c.arcs[b][k] == i;
    forall j: nat | j + 1 < |c.arcs[b]|
      ensures Next(c.n, c.arcs[b][j]) != c.sts[a]
    {
      InnerNotStart(c, a, b, j);
    }
  }

  /** The point after an end is a start. */
  lemma AfterEnd(c: Classes, a: nat)
    requires Partition(c) && IsRoot(c, a)
    ensures c.sts[c.root[Next(c.n, c.eds[a])]] == Next(c.n, c.eds[a])
  {
    var i := Next(c.n, c.eds[a]);
    var b := c.root[i];
    assert i in c.arcs[b];
    var k :| 0 <= k < |c.arcs[b]| && c.arcs[b][k] == i;
    if k > 0 {
      NextInjective(c.n, c.arcs[b][k - 1], c.eds[a]);
      EndsBelong(c, a);
      assert false;
    }
  }

  /** The classes after arc `b` has been appended to arc `a`. */
  ghost function Append(c: Classes, a: nat, b: nat): (r: Classes)
    requires WellFormed(c) && IsRoot(c, a) && IsRoot(c, b)
  {
    Classes(c.n, Redirect(c.root, b, a), c.sts, c.eds[a := c.eds[b]], c.arcs[a := c.arcs[a] + c.arcs[b]])
  }

  lemma ArcConcat(n: nat, a: seq<nat>, b: seq<nat>)
    requires Arc(n, a) && Arc(n, b) && Next(n, a[|a| - 1]) == b[0]
    requires forall x | x in a :: x !in b
    ensures Arc(n, a + b)
  {
    var s := a + b;
    forall j, k | 0 <= j < k < |s|
      ensures s[j] != s[k] && (k == j + 1 ==> s[k] == Next(n, s[j]))
    {
      if j < |a| <= k {
        assert s[j] in a && s[k] in b;
      }
    }
  }

  lemma AppendRoots(c: Classes, a: nat, b: nat)
    requires WellFormed(c) && IsRoot(c, a) && IsRoot(c, b) && a != b
    ensures WellFormed(Append(c, a, b))
    ensures forall e: nat :: IsRoot(Append(c, a, b), e) <==> IsRoot(c, e) && e != b
  {
  }

  lemma AppendArc(c: Classes, a: nat, b: nat)
    requires Partition(c) && Adjacent(c, a, b) && a != b
    ensures Arc(c.n, c.arcs[a] + c.arcs[b])
  {
    forall x | x in c.arcs[a]
      ensures x !in c.arcs[b]
    {
      assert 0 <= x < c.n && c.root[x] == a;
    }
    ArcConcat(c.n, c.arcs[a], c.arcs[b]);
  }

  lemma AppendClass(c: Classes, a: nat, b: nat, e: nat)
    requires Partition(c) && Adjacent(c, a, b) && a != b && IsRoot(c, e) && e != b
    ensures WellFormed(Append(c, a, b)) && IsRoot(Append(c, a, b), e) && IsArcClass(Append(c, a, b), e)
  {
    var r := Append(c, a, b);
    AppendRoots(c, a, b);
    assert IsArcClass(c, e) && IsArcClass(c, b);
    if e == a {
      AppendArc(c, a, b);
      assert r.arcs[a] == c.arcs[a] + c.arcs[b];
      assert forall i :: i in r.arcs[a] <==> i in c.arcs[a] || i in c.arcs[b];
    }
  }

  /** Appending the neighbouring arc keeps every class a contiguous arc. */
  lemma AppendPartition(c: Classes, a: nat, b: nat)
    requires Partition(c) && Adjacent(c, a, b) && a != b
    ensures Partition(Append(c, a, b))
  {
    AppendRoots(c, a, b);
    forall e: nat | IsRoot(Append(c, a, b), e)
      ensures IsArcClass(Append(c, a, b), e)
    {
      AppendClass(c, a, b, e);
    }
  }

  // ----- join events -----

  /** A proposal to join the arc starting at `st` with the arc ending at `ed`. */
  datatype JoinEvent = JoinEvent(err: real, st: nat, ed: nat)

  ghost predicate HasEvent(evnts: seq<JoinEvent>, st: nat, ed: nat) {
    exists e :: e in evnts && e.st == st && e.ed == ed
  }

  /** The guard of the merge branch: the event still names a start, an end and two classes. */
  ghost predicate Current(c: Classes, e: JoinEvent)
    requires WellFormed(c) && e.st < c.n && e.ed < c.n
  {
    && c.sts[c.root[e.st]] == e.st
    && c.eds[c.root[e.ed]] == e.ed
    && c.root[e.st] != c.root[e.ed]
  }

  /** An event that passes the guard names two arcs that lie side by side. */
  ghost predicate EventOk(c: Classes, e: JoinEvent)
    requires WellFormed(c)
  {
    && e.st < c.n && e.ed < c.n
    && (Current(c, e) ==> Adjacent(c, c.root[e.st], c.root[e.ed]))
  }

  lemma SameStart(c: Classes, a: nat, b: nat)
    requires Partition(c) && IsRoot(c, a) && IsRoot(c, b)
    requires c.sts[a] == c.sts[b] || c.eds[a] == c.eds[b]
    ensures a == b
  {
    EndsBelong(c, a);
    EndsBelong(c, b);
  }

  /** Joining two arcs never makes a queued event wrong. */
  lemma EventKept(c: Classes, a: nat, b: nat, e: JoinEvent)
    requires Partition(c) && Adjacent(c, a, b) && a != b
    requires EventOk(c, e)
    ensures WellFormed(Append(c, a, b)) && EventOk(Append(c, a, b), e)
  {
    var r := Append(c, a, b);
    AppendRoots(c, a, b);
    if Current(r, e) {
      var s, t := c.root[e.st], c.root[e.ed];
      EndsBelong(c, a);
      EndsBelong(c, b);
      assert s != b && t != a && s != t;
      assert Current(c, e);
      if s == a {
        SameStart(c, t, b);
        assert false;
      } else if t == b {
        NextInjective(c.n, c.eds[s], c.eds[a]);
        SameStart(c, s, a);
        assert false;
      }
    }
  }

  // ----- what the queue still has to do -----

  /** Two neighbouring arcs are either queued to be joined or too bad a fit to be joined. */
  ghost predicate PairSettled(c: Classes, evnts: seq<JoinEvent>, err: (int, int) -> real, rate: real, a: nat, b: nat)
    requires WellFormed(c) && IsRoot(c, a) && IsRoot(c, b)
  {
    HasEvent(evnts, c.sts[a], c.eds[b]) || err(c.sts[a], c.eds[b]) >= rate
  }

  ghost predicate Settled(c: Classes, evnts: seq<JoinEvent>, err: (int, int) -> real, rate: real)
    requires WellFormed(c)
  {
    forall a: nat, b: nat | IsRoot(c, a) && IsRoot(c, b) && a != b && Adjacent(c, a, b) ::
      PairSettled(c, evnts, err, rate, a, b)
  }

  /** An arc of more than two points was accepted as one line. */
  ghost predicate Fitted(c: Classes, err: (int, int) -> real, rate: real)
    requires WellFormed(c)
  {
    forall a: nat | IsRoot(c, a) :: |c.arcs[a]| <= 2 || err(c.sts[a], c.eds[a]) < rate
  }

  /** A queued event joins two neighbouring points or was accepted when it was queued. */
  ghost predicate Accepted(n: nat, err: (int, int) -> real, rate: real, e: JoinEvent) {
    e.st < n && (e.ed == Next(n, e.st) || err(e.st, e.ed) < rate)
  }

  ghost predicate QueueOk(c: Classes, evnts: seq<JoinEvent>, err: (int, int) -> real, rate: real)
    requires WellFormed(c)
  {
    forall e | e in evnts :: EventOk(c, e) && Accepted(c.n, err, rate, e)
  }

  /** The loop invariant of the merge loop. */
  ghost predicate MergeState(c: Classes, evnts: seq<JoinEvent>, err: (int, int) -> real, rate: real) {
    && Partition(c)
    && QueueOk(c, evnts, err, rate)
    && Settled(c, evnts, err, rate)
    && Fitted(c, err, rate)
  }

  /** `evnts` without one occurrence of `e`. */
  ghost predicate Popped(evnts: seq<JoinEvent>, e: JoinEvent, rest: seq<JoinEvent>) {
    && |rest| + 1 == |evnts| && (forall x :: x in evnts <==> x == e || x in rest)
    && multiset(evnts) == multiset(rest) + multiset{e}
  }

  lemma DropStale(c: Classes, evnts: seq<JoinEvent>, err: (int, int) -> real, rate: real, e: JoinEvent, rest: seq<JoinEvent>)
    requires MergeState(c, evnts, err, rate) && Popped(evnts, e, rest)
    requires e.st < c.n && e.ed < c.n && !Current(c, e)
    ensures MergeState(c, rest, err, rate)
  {
    forall a: nat, b: nat | IsRoot(c, a) && IsRoot(c, b) && a != b && Adjacent(c, a, b)
      ensures PairSettled(c, rest, err, rate, a, b)
    {
      assert PairSettled(c, evnts, err, rate, a, b);
      EndsBelong(c, a);
      EndsBelong(c, b);
    }
  }

  /** An arc of several points holds the point after its start and the point before its end. */
  lemma ArcInside(c: Classes, a: nat)
    requires Partition(c) && IsRoot(c, a) && |c.arcs[a]| > 1
    ensures c.root[Next(c.n, c.sts[a])] == a
    ensures forall p: nat | p < c.n && Next(c.n, p) == c.eds[a] :: c.root[p] == a
  {
    var s := c.arcs[a];
    assert IsArcClass(c, a);
    assert s[1] in s && s[1] == Next(c.n, s[0]);
    var q := s[|s| - 2];
    assert q in s && s[|s| - 1] == Next(c.n, q);
  }

  /** The arcs an accepted event joins form an arc that may be kept as one line. */
  lemma JoinFitted(c: Classes, evnts: seq<JoinEvent>, err: (int, int) -> real, rate: real, e: JoinEvent, a: nat, b: nat)
    requires MergeState(c, evnts, err, rate) && e in evnts && Current(c, e)
    requires a == c.root[e.st] && b == c.root[e.ed]
    ensures WellFormed(Append(c, a, b)) && Fitted(Append(c, a, b), err, rate)
  {
    AppendRoots(c, a, b);
    if e.ed == Next(c.n, e.st) {
      assert |c.arcs[a]| <= 1 by {
        if |c.arcs[a]| > 1 {
          ArcInside(c, a);
        }
      }
      assert |c.arcs[b]| <= 1 by {
        if |c.arcs[b]| > 1 {
          ArcInside(c, b);
        }
      }
    }
  }

  /** The pairs that involve arc `a` are settled. */
  ghost predicate NeighboursSettled(c: Classes, evnts: seq<JoinEvent>, err: (int, int) -> real, rate: real, a: nat)
    requires WellFormed(c)
  {
    forall x: nat | IsRoot(c, a) && IsRoot(c, x) && x != a ::
      && (Adjacent(c, x, a) ==> PairSettled(c, evnts, err, rate, x, a))
      && (Adjacent(c, a, x) ==> PairSettled(c, evnts, err, rate, a, x))
  }

  /** Joining two arcs leaves only the pairs with the joined arc to look at. */
  lemma JoinSettled(c: Classes, evnts: seq<JoinEvent>, err: (int, int) -> real, rate: real, e: JoinEvent, a: nat, b: nat,
                    rest: seq<JoinEvent>, out: seq<JoinEvent>)
    requires MergeState(c, evnts, err, rate) && Popped(evnts, e, rest)
    requires e.st < c.n && e.ed < c.n && Current(c, e) && a == c.root[e.st] && b == c.root[e.ed]
    requires forall x | x in rest :: x in out
    requires WellFormed(Append(c, a, b)) && NeighboursSettled(Append(c, a, b), out, err, rate, a)
    ensures Settled(Append(c, a, b), out, err, rate)
  {
    var r := Append(c, a, b);
    AppendRoots(c, a, b);
    forall x: nat, y: nat | IsRoot(r, x) && IsRoot(r, y) && x != y && Adjacent(r, x, y)
      ensures PairSettled(r, out, err, rate, x, y)
    {
      if x != a && y != a {
        assert PairSettled(c, evnts, err, rate, x, y);
        EndsBelong(c, x);
      }
    }
  }

  /** Only one arc can precede and only one can follow an arc. */
  lemma OneNeighbour(c: Classes, a: nat, p: nat, x: nat)
    requires Partition(c) && IsRoot(c, a) && IsRoot(c, x) && p < c.n && Next(c.n, p) == c.sts[a]
    ensures Adjacent(c, x, a) <==> x == c.root[p]
    ensures Adjacent(c, a, x) <==> x == c.root[Next(c.n, c.eds[a])]
  {
    BeforeStart(c, a, p);
    AfterEnd(c, a);
    EndsBelong(c, x);
    if Adjacent(c, x, a) {
      NextInjective(c.n, c.eds[x], p);
    }
  }

  lemma QueueKept(c: Classes, evnts: seq<JoinEvent>, err: (int, int) -> real, rate: real, a: nat, b: nat, rest: seq<JoinEvent>)
    requires Partition(c) && QueueOk(c, evnts, err, rate) && Adjacent(c, a, b) && a != b
    requires forall x | x in rest :: x in evnts
    ensures WellFormed(Append(c, a, b)) && QueueOk(Append(c, a, b), rest, err, rate)
  {
    AppendRoots(c, a, b);
    forall x | x in rest
      ensures EventOk(Append(c, a, b), x)
    {
      EventKept(c, a, b, x);
    }
  }

  // ----- which runs the loop makes -----

  /** The arcs, and the events that are queued. */
  datatype Config = Config(c: Classes, queue: multiset<JoinEvent>)

  /** No queued event has a larger error. */
  ghost predicate Top(queue: multiset<JoinEvent>, e: JoinEvent) {
    e in queue && forall x | x in queue :: x.err <= e.err
  }

  /** The event that proposes the arc from `st` to `ed`, unless it is not wanted or the fit is too bad. */
  ghost function Proposal(wanted: bool, err: (int, int) -> real, rate: real, st: nat, ed: nat): multiset<JoinEvent> {
    if wanted && err(st, ed) < rate then multiset{JoinEvent(err(st, ed), st, ed)} else multiset{}
  }

  /** What is proposed once arc `b` has been appended to arc `a`: the joins with the arcs before and after. */
  ghost predicate Proposed(c: Classes, err: (int, int) -> real, rate: real, a: nat, b: nat, more: multiset<JoinEvent>)
    requires WellFormed(c) && IsRoot(c, a) && IsRoot(c, b)
  {
    exists p: nat :: p < c.n && Next(c.n, p) == c.sts[a] && ProposedAt(c, err, rate, a, b, p, more)
  }

  ghost predicate ProposedAt(c: Classes, err: (int, int) -> real, rate: real, a: nat, b: nat, p: nat, more: multiset<JoinEvent>)
    requires WellFormed(c) && IsRoot(c, a) && IsRoot(c, b) && p < c.n
  {
    var root := Append(c, a, b).root;
    var st, ed := c.sts[a], c.eds[b];
    var before, after := c.sts[root[p]], c.eds[root[Next(c.n, ed)]];
    more == Proposal(before != st, err, rate, before, ed) + Proposal(after != ed, err, rate, st, after)
  }

  /**
   * One turn: an event of the largest error leaves the queue. If it still names the start of an arc and the end of
   * another, the two are joined and the joins with the neighbours are proposed; otherwise nothing else happens.
   */
  ghost predicate Turn(err: (int, int) -> real, rate: real, x: Config, e: JoinEvent, y: Config) {
    && WellFormed(x.c) && Top(x.queue, e) && e.st < x.c.n && e.ed < x.c.n
    && if Current(x.c, e) then
         var a, b := x.c.root[e.st], x.c.root[e.ed];
         && y.c == Append(x.c, a, b)
         && exists more :: Proposed(x.c, err, rate, a, b, more) && y.queue == x.queue - multiset{e} + more
       else
         y == x.(queue := x.queue - multiset{e})
  }

  /** The first events: each point with the one before it, and the error of just these two. */
  ghost function FirstEvent(n: nat, err: (int, int) -> real, i: nat): JoinEvent
    requires i < n
  {
    JoinEvent(err(i - 1, i), if i == 0 then n - 1 else i - 1, i)
  }

  ghost function FirstEvents(n: nat, err: (int, int) -> real): seq<JoinEvent> {
    seq(n, i requires 0 <= i < n => FirstEvent(n, err, i))
  }

  ghost predicate Turns(err: (int, int) -> real, rate: real, run: seq<Config>, taken: seq<JoinEvent>) {
    && |run| == |taken| + 1
    && forall i, j | 0 <= i < |taken| && j == i + 1 :: Turn(err, rate, run[i], taken[i], run[j])
  }

  /** A run of the loop from single points to an empty queue, and the events taken in it. */
  ghost predicate MergeRun(n: nat, err: (int, int) -> real, rate: real, run: seq<Config>, taken: seq<JoinEvent>) {
    && Turns(err, rate, run, taken)
    && run[0] == Config(Singletons(n), multiset(FirstEvents(n, err)))
    && run[|taken|].queue == multiset{}
  }

  lemma TurnsMore(err: (int, int) -> real, rate: real, run: seq<Config>, taken: seq<JoinEvent>, e: JoinEvent, y: Config)
    requires Turns(err, rate, run, taken) && Turn(err, rate, run[|taken|], e, y)
    ensures Turns(err, rate, run + [y], taken + [e])
  {
    hide Turn;
  }

  /** With one event of the largest error there is only one turn. */
  lemma TurnDetermined(err: (int, int) -> real, rate: real, x: Config, e: JoinEvent, y: Config, f: JoinEvent, z: Config)
    requires Turn(err, rate, x, e, y) && Turn(err, rate, x, f, z)
    requires forall g | g in x.queue && g.err == e.err :: g == e
    ensures e == f && y == z
  {
    assert e.err == f.err;
    if Current(x.c, e) {
      var a, b := x.c.root[e.st], x.c.root[e.ed];
      var m1 :| Proposed(x.c, err, rate, a, b, m1) && y.queue == x.queue - multiset{e} + m1;
      var m2 :| Proposed(x.c, err, rate, a, b, m2) && z.queue == x.queue - multiset{e} + m2;
      var p: nat :| p < x.c.n && Next(x.c.n, p) == x.c.sts[a] && ProposedAt(x.c, err, rate, a, b, p, m1);
      var q: nat :| q < x.c.n && Next(x.c.n, q) == x.c.sts[a] && ProposedAt(x.c, err, rate, a, b, q, m2);
      NextInjective(x.c.n, p, q);
    }
  }

  /** Every event has the error of its own range. */
  ghost predicate OwnError(n: nat, err: (int, int) -> real, e: JoinEvent) {
    e.err == err(e.st, e.ed) || (e.ed < n && e == FirstEvent(n, err, e.ed))
  }

  lemma {:induction false} ErrorsAreOwn(n: nat, err: (int, int) -> real, rate: real, run: seq<Config>,
                                        taken: seq<JoinEvent>, k: nat)
    requires MergeRun(n, err, rate, run, taken) && k <= |taken|
    ensures forall e | e in run[k].queue :: OwnError(n, err, e)
  {
    hide Turn, OwnError, FirstEvents, Singletons;
    if k == 0 {
      FirstErrors(n, err);
    } else {
      ErrorsAreOwn(n, err, rate, run, taken, k - 1);
      TurnErrors(n, err, rate, run[k - 1], taken[k - 1], run[k]);
    }
  }

  lemma FirstErrors(n: nat, err: (int, int) -> real)
    ensures forall e | e in multiset(FirstEvents(n, err)) :: OwnError(n, err, e)
  {
    forall e | e in multiset(FirstEvents(n, err))
      ensures OwnError(n, err, e)
    {
      assert e in FirstEvents(n, err);
    }
  }

  lemma TurnErrors(n: nat, err: (int, int) -> real, rate: real, x: Config, e: JoinEvent, y: Config)
    requires Turn(err, rate, x, e, y) && forall f | f in x.queue :: OwnError(n, err, f)
    ensures forall f | f in y.queue :: OwnError(n, err, f)
  {
    hide FirstEvent;
  }

  // ----- the merge loop -----

  /** `evnts.push` guarded by the error test. */
  function Push(evnts: seq<JoinEvent>, wanted: bool, err: (int, int) -> real, rate: real, st: nat, ed: nat): (out: seq<JoinEvent>)
    ensures forall x :: x in out <==> x in evnts || (wanted && err(st, ed) < rate && x == JoinEvent(err(st, ed), st, ed))
    ensures |out| <= |evnts| + 1
  {
    if wanted && err(st, ed) < rate then evnts + [JoinEvent(err(st, ed), st, ed)] else evnts
  }

  /** The two events queued after a join are right, and they settle the pairs with the joined arc. */
  lemma PushesRight(r: Classes, rest: seq<JoinEvent>, err: (int, int) -> real, rate: real, a: nat, p: nat, pi: nat, ni: nat)
    requires Partition(r) && IsRoot(r, a) && QueueOk(r, rest, err, rate)
    requires p < r.n && Next(r.n, p) == r.sts[a] && pi == r.sts[r.root[p]]
    requires ni < r.n
    requires
      var right := r.root[Next(r.n, r.eds[a])];
      if right == a then r.root[ni] == a else ni == r.eds[right]
    ensures
      var out := Push(Push(rest, pi != r.sts[a], err, rate, pi, r.eds[a]), ni != r.eds[a], err, rate, r.sts[a], ni);
      QueueOk(r, out, err, rate) && NeighboursSettled(r, out, err, rate, a)
  {
    var st, ed := r.sts[a], r.eds[a];
    var left, right := r.root[p], r.root[Next(r.n, ed)];
    var mid := Push(rest, pi != st, err, rate, pi, ed);
    var out := Push(mid, ni != ed, err, rate, st, ni);
    EndsBelong(r, a);
    EndsBelong(r, left);
    EndsBelong(r, right);
    OneNeighbour(r, a, p, left);
    OneNeighbour(r, a, p, right);
    assert pi != st ==> EventOk(r, JoinEvent(err(pi, ed), pi, ed));
    assert ni != ed ==> EventOk(r, JoinEvent(err(st, ni), st, ni));
    forall x: nat | IsRoot(r, x) && x != a
      ensures Adjacent(r, x, a) ==> PairSettled(r, out, err, rate, x, a)
      ensures Adjacent(r, a, x) ==> PairSettled(r, out, err, rate, a, x)
    {
      OneNeighbour(r, a, p, x);
      NeighbourQueued(r, rest, err, rate, a, x, pi, ni, p);
    }
  }

  lemma NeighbourQueued(r: Classes, rest: seq<JoinEvent>, err: (int, int) -> real, rate: real, a: nat, x: nat, pi: nat, ni: nat, p: nat)
    requires Partition(r) && IsRoot(r, a) && IsRoot(r, x) && x != a
    requires p < r.n && pi == r.sts[r.root[p]] && ni < r.n
    requires x == r.root[Next(r.n, r.eds[a])] ==> ni == r.eds[x]
    ensures
      var out := Push(Push(rest, pi != r.sts[a], err, rate, pi, r.eds[a]), ni != r.eds[a], err, rate, r.sts[a], ni);
      && (x == r.root[p] ==> PairSettled(r, out, err, rate, x, a))
      && (x == r.root[Next(r.n, r.eds[a])] ==> PairSettled(r, out, err, rate, a, x))
  {
    var st, ed := r.sts[a], r.eds[a];
    var mid := Push(rest, pi != st, err, rate, pi, ed);
    var out := Push(mid, ni != ed, err, rate, st, ni);
    if x == r.root[p] && err(pi, ed) < rate {
      if pi == st {
        SameStart(r, a, x);
      }
      assert JoinEvent(err(pi, ed), pi, ed) in out;
    }
    if x == r.root[Next(r.n, ed)] && err(st, ni) < rate {
      if ni == ed {
        SameStart(r, a, x);
      }
      assert JoinEvent(err(st, ni), st, ni) in out;
    }
  }

  /** Everything the merge branch does keeps the loop invariant. */
  lemma JoinKeepsState(c: Classes, evnts: seq<JoinEvent>, err: (int, int) -> real, rate: real, e: JoinEvent, a: nat, b: nat,
                       rest: seq<JoinEvent>, p: nat, pi: nat, ni: nat)
    requires MergeState(c, evnts, err, rate) && Popped(evnts, e, rest) && e in evnts
    requires e.st < c.n && e.ed < c.n && Current(c, e) && a == c.root[e.st] && b == c.root[e.ed]
    requires p < c.n && Next(c.n, p) == e.st
    requires pi == c.sts[Append(c, a, b).root[p]] && ni == c.eds[Append(c, a, b).root[Next(c.n, e.ed)]]
    ensures MergeState(Append(c, a, b), Push(Push(rest, pi != e.st, err, rate, pi, e.ed), ni != e.ed, err, rate, e.st, ni), err, rate)
  {
    var r := Append(c, a, b);
    AppendRoots(c, a, b);
    AppendPartition(c, a, b);
    EndsBelong(c, a);
    QueueKept(c, evnts, err, rate, a, b, rest);
    PushesRight(r, rest, err, rate, a, p, pi, ni);
    JoinFitted(c, evnts, err, rate, e, a, b);
    JoinSettled(c, evnts, err, rate, e, a, b, rest,
                Push(Push(rest, pi != e.st, err, rate, pi, e.ed), ni != e.ed, err, rate, e.st, ni));
  }

  method PointsAround(n: nat, st: nat, ed: nat) returns (p: nat, q: nat)
    requires st < n && ed < n
    ensures p < n && Next(n, p) == st && q == Next(n, ed)
  {
    NextIsMod(n, st);
    NextIsMod(n, ed);
    p, q := (st - 1 + n) % n, (ed + 1 + n) % n;
  }

  /** The merge branch: link the classes, extend the arc, queue the joins with its neighbours. */
  method JoinArcs(ids: DisjointSet, n: nat, sts: seq<nat>, eds: seq<nat>, err: (int, int) -> real, rate: real,
                  rest: seq<JoinEvent>, e: JoinEvent, pi1: nat, pi2: nat, ghost evnts: seq<JoinEvent>, ghost c: Classes)
    returns (eds': seq<nat>, out: seq<JoinEvent>)
    requires ids.Valid() && |ids.ufindl| == n && c == Classes(n, ids.root, sts, eds, c.arcs)
    requires MergeState(c, evnts, err, rate) && Popped(evnts, e, rest) && e in evnts
    requires e.st < n && e.ed < n && Current(c, e) && pi1 == c.root[e.st] && pi2 == c.root[e.ed]
    modifies ids
    ensures ids.Valid() && |ids.ufindl| == n && |out| <= |rest| + 2
    ensures Append(c, pi1, pi2) == Classes(n, ids.root, sts, eds', Append(c, pi1, pi2).arcs)
    ensures MergeState(Append(c, pi1, pi2), out, err, rate)
    ensures IsRoot(c, pi1) && IsRoot(c, pi2)
    ensures exists more :: Proposed(c, err, rate, pi1, pi2, more) && multiset(out) == multiset(rest) + more
  {
    var p, q := PointsAround(n, e.st, e.ed);
    ids.Link(pi2, pi1);
    var fp := ids.Find(p);
    var pi := sts[fp];
    var fn := ids.Find(q);
    var ni := eds[fn];
    eds' := eds[pi1 := e.ed];
    JoinKeepsState(c, evnts, err, rate, e, pi1, pi2, rest, p, pi, ni);
    var mid := Push(rest, pi != e.st, err, rate, pi, e.ed);
    out := Push(mid, ni != e.ed, err, rate, e.st, ni);
    PushedAre(c, rest, err, rate, pi1, pi2, p, pi, ni);
  }

  lemma PushedAre(c: Classes, rest: seq<JoinEvent>, err: (int, int) -> real, rate: real, a: nat, b: nat, p: nat, pi: nat, ni: nat)
    requires WellFormed(c) && IsRoot(c, a) && IsRoot(c, b) && p < c.n && Next(c.n, p) == c.sts[a]
    requires pi == c.sts[Append(c, a, b).root[p]] && ni == c.eds[Append(c, a, b).root[Next(c.n, c.eds[b])]]
    ensures
      var st, ed := c.sts[a], c.eds[b];
      var out := Push(Push(rest, pi != st, err, rate, pi, ed), ni != ed, err, rate, st, ni);
      exists more :: Proposed(c, err, rate, a, b, more) && multiset(out) == multiset(rest) + more
  {
    var st, ed := c.sts[a], c.eds[b];
    var more := Proposal(pi != st, err, rate, pi, ed) + Proposal(ni != ed, err, rate, st, ni);
    assert ProposedAt(c, err, rate, a, b, p, more);
    assert Proposed(c, err, rate, a, b, more);
  }

  /** `evnts.top()` and `evnts.pop()`: an event with the largest error. */
  method PopTop(evnts: seq<JoinEvent>) returns (e: JoinEvent, rest: seq<JoinEvent>)
    requires evnts != []
    ensures e in evnts && Popped(evnts, e, rest)
    ensures forall x | x in evnts :: x.err <= e.err
  {
    var best := 0;
    for k := 1 to |evnts|
      invariant best < |evnts|
      invariant forall j | 0 <= j < k :: evnts[j].err <= evnts[best].err
    {
      if evnts[best].err < evnts[k].err {
        best := k;
      }
    }
    e, rest := evnts[best], evnts[..best] + evnts[best + 1..];
    assert evnts == evnts[..best] + [e] + evnts[best + 1..];
  }

  ghost function Roots(root: seq<nat>): set<nat> {
    set a | 0 <= a < |root| && root[a] == a
  }

  lemma RootsShrink(root: seq<nat>, child: nat, parent: nat)
    requires child < |root| && parent < |root| && root[child] == child && root[parent] == parent && child != parent
    ensures |Roots(Redirect(root, child, parent))| == |Roots(root)| - 1
  {
    assert Roots(Redirect(root, child, parent)) == Roots(root) - {child};
  }

  /** The loop over the event queue ends, for any error function, with arcs that cannot be joined further. */
  method MergeLoop(ids: DisjointSet, n: nat, sts: seq<nat>, eds0: seq<nat>, err: (int, int) -> real, rate: real,
                   evnts0: seq<JoinEvent>, ghost c0: Classes)
    returns (eds: seq<nat>, ghost c: Classes, ghost run: seq<Config>, ghost taken: seq<JoinEvent>)
    requires ids.Valid() && |ids.ufindl| == n && c0 == Classes(n, ids.root, sts, eds0, c0.arcs)
    requires MergeState(c0, evnts0, err, rate)
    modifies ids
    ensures ids.Valid() && |ids.ufindl| == n && c == Classes(n, ids.root, sts, eds, c.arcs)
    ensures MergeState(c, [], err, rate)
    ensures Turns(err, rate, run, taken)
    ensures run[0] == Config(c0, multiset(evnts0)) && run[|taken|] == Config(c, multiset{})
  {
    hide MergeState, Turn;
    var evnts := evnts0;
    eds, c := eds0, c0;
    run, taken := [Config(c, multiset(evnts))], [];
    while |evnts| > 0
      invariant ids.Valid() && |ids.ufindl| == n && c == Classes(n, ids.root, sts, eds, c.arcs)
      invariant MergeState(c, evnts, err, rate)
      invariant Turns(err, rate, run, taken) && run[0] == Config(c0, multiset(evnts0))
      invariant run[|taken|] == Config(c, multiset(evnts))
      decreases 3 * |Roots(ids.root)| + |evnts|
    {
      ghost var e;
      eds, evnts, c, e := MergeTurn(ids, n, sts, eds, err, rate, evnts, c);
      TurnsMore(err, rate, run, taken, e, Config(c, multiset(evnts)));
      run, taken := run + [Config(c, multiset(evnts))], taken + [e];
    }
  }

  /** One turn of the loop: the top event, and what it leads to if it is still current. */
  method MergeTurn(ids: DisjointSet, n: nat, sts: seq<nat>, eds: seq<nat>, err: (int, int) -> real, rate: real,
                   evnts: seq<JoinEvent>, ghost c: Classes)
    returns (eds': seq<nat>, out: seq<JoinEvent>, ghost c': Classes, ghost taken: JoinEvent)
    requires ids.Valid() && |ids.ufindl| == n && c == Classes(n, ids.root, sts, eds, c.arcs)
    requires MergeState(c, evnts, err, rate) && evnts != []
    modifies ids
    ensures ids.Valid() && |ids.ufindl| == n && c' == Classes(n, ids.root, sts, eds', c'.arcs)
    ensures MergeState(c', out, err, rate)
    ensures Turn(err, rate, Config(c, multiset(evnts)), taken, Config(c', multiset(out)))
    ensures 3 * |Roots(ids.root)| + |out| < 3 * |Roots(old(ids.root))| + |evnts|
  {
    var e, rest := PopTop(evnts);
    taken := e;
    assert EventOk(c, e);
    assert multiset(evnts) - multiset{e} == multiset(rest);
    assert Top(multiset(evnts), e);
    var pi1 := ids.Find(e.st);
    var pi2 := ids.Find(e.ed);
    if sts[pi1] == e.st && eds[pi2] == e.ed && pi1 != pi2 {
      RootsShrink(ids.root, pi2, pi1);
      eds', out := JoinArcs(ids, n, sts, eds, err, rate, rest, e, pi1, pi2, evnts, c);
      c' := Append(c, pi1, pi2);
    } else {
      DropStale(c, evnts, err, rate, e, rest);
      eds', out, c' := eds, rest, c;
    }
  }

  // ----- hier_merge -----

  /** Every point is an arc of its own. */
  ghost function Singletons(n: nat): Classes {
    Classes(n, seq(n, i => i), seq(n, i => i), seq(n, i => i), seq(n, i => [i]))
  }

  lemma SingletonsState(n: nat, evnts: seq<JoinEvent>, err: (int, int) -> real, rate: real)
    requires evnts == FirstEvents(n, err)
    ensures MergeState(Singletons(n), evnts, err, rate)
  {
    hide FirstEvents, FirstEvent;
    var c := Singletons(n);
    FirstAre(n, evnts, err);
    forall a: nat, b: nat | IsRoot(c, a) && IsRoot(c, b) && a != b && Adjacent(c, a, b)
      ensures PairSettled(c, evnts, err, rate, a, b)
    {
      NextInjective(n, evnts[b].st, a);
      assert evnts[b] in evnts;
    }
  }

  lemma FirstAre(n: nat, evnts: seq<JoinEvent>, err: (int, int) -> real)
    requires evnts == FirstEvents(n, err)
    ensures |evnts| == n && forall i | 0 <= i < n :: evnts[i].ed == i && evnts[i].st < n && Next(n, evnts[i].st) == i
  {
    forall i | 0 <= i < n
      ensures evnts[i].ed == i && evnts[i].st < n && Next(n, evnts[i].st) == i
    {
      assert evnts[i] == FirstEvent(n, err, i);
    }
  }

  method InitialEvents(n: nat, err: (int, int) -> real) returns (evnts: seq<JoinEvent>)
    ensures evnts == FirstEvents(n, err)
  {
    evnts := [];
    for i := 0 to n
      invariant |evnts| == i
      invariant forall k | 0 <= k < i :: evnts[k] == FirstEvent(n, err, k)
    {
      NextIsMod(n, i);
      ModPlus(n, if i == 0 then n - 1 else i - 1);
      evnts := evnts + [JoinEvent(err(i - 1, i), (i - 1 + n) % n, i)];
    }
  }

  /** The `k`-th point of an arc lies `k` points after its start. */
  lemma {:induction false} ArcPoint(n: nat, s: seq<nat>, k: nat)
    requires Arc(n, s) && k < |s|
    ensures k < n && s[k] == if s[0] + k < n then s[0] + k else s[0] + k - n
  {
    assert s[0] < n;
    if k > 0 {
      ArcPoint(n, s, k - 1);
      assert s[k] == Next(n, s[k - 1]) && s[k] != s[0];
    }
  }

  lemma ArcLength(n: nat, s: seq<nat>)
    requires Arc(n, s)
    ensures n > 0 && (s[|s| - 1] - s[0] + n) % n == |s| - 1
  {
    assert s[0] < n;
    ArcPoint(n, s, |s| - 1);
    ModPlus(n, |s| - 1);
  }

  ghost predicate IsLongArc(c: Classes, minLen: int, a: nat)
    requires WellFormed(c)
  {
    IsRoot(c, a) && |c.arcs[a]| - 1 > minLen
  }

  /** The arcs of more than `minLen + 1` points with roots below `m`, each once, in the order of their roots. */
  ghost function LongArcsOf(c: Classes, minLen: int, m: nat): seq<(nat, nat)>
    requires WellFormed(c) && m <= c.n
  {
    if m == 0 then []
    else LongArcsOf(c, minLen, m - 1) + if IsLongArc(c, minLen, m - 1) then [(c.sts[m - 1], c.eds[m - 1])] else []
  }

  ghost predicate LongArcs(c: Classes, minLen: int, m: nat, lines: seq<(nat, nat)>)
    requires WellFormed(c) && m <= c.n
  {
    lines == LongArcsOf(c, minLen, m)
  }

  /** Which lines are listed. */
  lemma {:induction false} LongArcsMeans(c: Classes, minLen: int, m: nat, l: (nat, nat))
    requires WellFormed(c) && m <= c.n
    ensures l in LongArcsOf(c, minLen, m) <==>
      exists a: nat :: a < m && IsLongArc(c, minLen, a) && l == (c.sts[a], c.eds[a])
    decreases m
  {
    if m > 0 {
      LongArcsMeans(c, minLen, m - 1, l);
      if IsLongArc(c, minLen, m - 1) {
        assert l == (c.sts[m - 1], c.eds[m - 1]) || l in LongArcsOf(c, minLen, m - 1)
          <==> l in LongArcsOf(c, minLen, m);
      }
    }
  }

  lemma LongArcsStep(c: Classes, minLen: int, m: nat, lines: seq<(nat, nat)>)
    requires WellFormed(c) && m < c.n && LongArcs(c, minLen, m, lines)
    ensures
      var more := if IsRoot(c, m) && |c.arcs[m]| - 1 > minLen then lines + [(c.sts[m], c.eds[m])] else lines;
      LongArcs(c, minLen, m + 1, more)
  {
  }

  method IsLong(n: nat, sti: nat, edi: nat, minLen: int, ghost s: seq<nat>) returns (long: bool)
    requires Arc(n, s) && sti == s[0] && edi == s[|s| - 1]
    ensures long <==> |s| - 1 > minLen
  {
    ArcLength(n, s);
    long := (edi - sti + n) % n > minLen;
  }

  lemma LongArcsNone(c: Classes, minLen: int)
    requires WellFormed(c)
    ensures LongArcs(c, minLen, 0, [])
  {
  }

  lemma PartitionIs(c: Classes)
    requires Partition(c)
    ensures WellFormed(c) && |c.root| == |c.sts| == |c.eds| == |c.arcs| == c.n
  {
  }

  lemma ArcIs(c: Classes, a: nat)
    requires Partition(c) && IsRoot(c, a)
    ensures |c.arcs[a]| > 0 && Arc(c.n, c.arcs[a]) && c.sts[a] == c.arcs[a][0] && c.eds[a] == c.arcs[a][|c.arcs[a]| - 1]
  {
    assert IsArcClass(c, a);
  }

  method CollectLines(ids: DisjointSet, n: nat, sts: seq<nat>, eds: seq<nat>, minLen: int, ghost c: Classes)
    returns (lines: seq<(nat, nat)>)
    requires ids.Valid() && |ids.ufindl| == n && Partition(c)
    requires c.n == n && c.root == ids.root && c.sts == sts && c.eds == eds
    ensures LongArcs(c, minLen, n, lines)
  {
    hide Partition, LongArcs, WellFormed, Forest;
    lines := [];
    PartitionIs(c);
    LongArcsNone(c, minLen);
    for i := 0 to n
      invariant LongArcs(c, minLen, i, lines)
    {
      LinkTells(ids.ufindl, ids.root, ids.height, ids.bound, i);
      lines := AddLine(i, ids.ufindl[i] == -1, n, sts[i], eds[i], minLen, c, lines);
    }
  }

  /** One turn of the loop over the points: a root whose arc is long enough is reported. */
  method AddLine(i: nat, root: bool, n: nat, sti: nat, edi: nat, minLen: int, ghost c: Classes, lines: seq<(nat, nat)>)
    returns (more: seq<(nat, nat)>)
    requires Partition(c) && i < n == c.n && root == (c.root[i] == i) && sti == c.sts[i] && edi == c.eds[i]
    requires LongArcs(c, minLen, i, lines)
    ensures LongArcs(c, minLen, i + 1, more)
  {
    hide Partition, LongArcs, IsArcClass, Arc;
    PartitionIs(c);
    LongArcsStep(c, minLen, i, lines);
    more := lines;
    if root {
      ArcIs(c, i);
      var long := IsLong(n, sti, edi, minLen, c.arcs[i]);
      if long {
        more := lines + [(sti, edi)];
      }
    }
  }

  /** What the state of the loop means once there are no events left. */
  lemma NothingQueued(c: Classes, err: (int, int) -> real, rate: real)
    requires MergeState(c, [], err, rate)
    ensures Partition(c) && Fitted(c, err, rate)
    ensures forall a: nat, b: nat | IsRoot(c, a) && IsRoot(c, b) && a != b && Adjacent(c, a, b) ::
              err(c.sts[a], c.eds[b]) >= rate
  {
    forall a: nat, b: nat | IsRoot(c, a) && IsRoot(c, b) && a != b && Adjacent(c, a, b)
      ensures err(c.sts[a], c.eds[b]) >= rate
    {
      assert PairSettled(c, [], err, rate, a, b);
    }
  }

  /**
   * The contour is partitioned into the contiguous arcs `c`; every arc of more than two points was accepted, no two
   * neighbouring arcs could be joined within the error bound, and `lines` are the long arcs.
   */
  ghost predicate Outcome(c: Classes, n: nat, err: (int, int) -> real, rate: real, minLen: int, lines: seq<(nat, nat)>) {
    && c.n == n && Partition(c) && Fitted(c, err, rate)
    && (forall a: nat, b: nat | IsRoot(c, a) && IsRoot(c, b) && a != b && Adjacent(c, a, b) ::
          err(c.sts[a], c.eds[b]) >= rate)
    && LongArcs(c, minLen, n, lines)
  }

  /**
   * hier_merge on a contour of `n` points, for any error function: what it reports is the outcome of a run that always
   * takes an event of the largest error.
   */
  method HierMerge(n: nat, err: (int, int) -> real, rate: real, minLen: int) returns (lines: seq<(nat, nat)>)
    ensures exists run: seq<Config>, taken ::
      MergeRun(n, err, rate, run, taken) && Outcome(run[|taken|].c, n, err, rate, minLen, lines)
  {
    hide Partition, MergeState, Fitted, LongArcs, Adjacent, Turn;
    var ids := new DisjointSet(n);
    var sts: seq<nat>, eds: seq<nat> := seq(n, i => i), seq(n, i => i);
    var evnts := InitialEvents(n, err);
    SingletonsState(n, evnts, err, rate);
    assert ids.root == Singletons(n).root;
    ghost var c, run, taken;
    eds, c, run, taken := MergeLoop(ids, n, sts, eds, err, rate, evnts, Singletons(n));
    NothingQueued(c, err, rate);
    lines := CollectLines(ids, n, sts, eds, minLen, c);
    assert MergeRun(n, err, rate, run, taken) && Outcome(run[|taken|].c, n, err, rate, minLen, lines);
  }
}
