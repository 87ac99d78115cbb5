/** Tracing the outline of a blob into a linked contour (aos/vision/blob/contour.h and contour.cc). */
module Contours {
  import opened Basics
  import opened RangeImages

  function Distance(p: Pt, q: Pt): nat { Abs(p.x - q.x) + Abs(p.y - q.y) }

  /** Following `next` from `a` visits `p` and stops at `b`; no node before `b` is open. */
  ghost predicate Walk(next: seq<nat>, open: set<nat>, a: nat, p: seq<nat>, b: nat)
    decreases |p|
  {
    if p == [] then a == b
    else a < |next| && a !in open && next[a] == p[0] && Walk(next, open, p[0], p[1..], b)
  }

  lemma {:induction false} WalkJoin(next: seq<nat>, open: set<nat>, a: nat, p: seq<nat>, b: nat, q: seq<nat>, c: nat)
    requires Walk(next, open, a, p, b) && Walk(next, open, b, q, c)
    ensures Walk(next, open, a, p + q, c)
    decreases |p|
  {
    if p == [] {
      assert p + q == q;
    } else {
      WalkJoin(next, open, p[0], p[1..], b, q, c);
      assert (p + q)[1..] == p[1..] + q;
    }
  }

  /** Nodes that are not open keep their link and stay not open. */
  ghost predicate Extends(next: seq<nat>, open: set<nat>, next': seq<nat>, open': set<nat>) {
    && |next| <= |next'|
    && (forall n | 0 <= n < |next| && n !in open :: next'[n] == next[n] && n !in open')
  }

  lemma {:induction false} WalkKept(next: seq<nat>, open: set<nat>, next': seq<nat>, open': set<nat>, a: nat, p: seq<nat>, b: nat)
    requires Walk(next, open, a, p, b) && Extends(next, open, next', open')
    ensures Walk(next', open', a, p, b)
    decreases |p|
  {
    if p != [] {
      WalkKept(next, open, next', open', p[0], p[1..], b);
    }
  }

  /** The links of the piece with right end `e` lead to the left end `m[e]`. */
  ghost predicate Leads(next: seq<nat>, m: map<nat, nat>, e: nat)
    requires e in m
  {
    exists p :: Walk(next, m.Values, e, p, m[e])
  }

  /** Different pieces have different left ends, and a left end still points at itself. */
  ghost predicate Ends(next: seq<nat>, m: map<nat, nat>) {
    Injective(m) && forall e | e in m :: e < |next| && m[e] < |next| && next[m[e]] == m[e]
  }

  ghost predicate Injective(m: map<nat, nat>) {
    forall e, f | e in m && f in m && m[e] == m[f] :: e == f
  }

  /** `m` sends the right end of every unfinished piece of outline to the left end its links lead to. */
  ghost predicate Pieces(next: seq<nat>, m: map<nat, nat>) {
    Ends(next, m) && forall e | e in m :: Leads(next, m, e)
  }

  /** Every link leads at most one pixel away. */
  ghost predicate Steps(pts: seq<Pt>, next: seq<nat>) {
    && |pts| == |next|
    && (forall n | 0 <= n < |next| :: next[n] < |next| && Distance(pts[n], pts[next[n]]) <= 1)
  }

  // ----- the effect of the pointer operations on the pieces -----

  ghost function RenameLeft(m: map<nat, nat>, s: nat, s': nat): (r: map<nat, nat>)
    ensures r.Keys == m.Keys && forall e | e in m :: r[e] == if m[e] == s then s' else m[e]
  {
    map e | e in m :: if m[e] == s then s' else m[e]
  }

  ghost function RenameRight(m: map<nat, nat>, e: nat, e': nat): (r: map<nat, nat>)
    requires e in m && e' !in m
    ensures r.Keys == m.Keys - {e} + {e'} && r[e'] == m[e] && forall f | f in m && f != e :: r[f] == m[f]
  {
    map f | f in m.Keys - {e} + {e'} :: if f == e' then m[e] else m[f]
  }

  /** The piece that led to `s` now goes on to where the piece of `e` leads. */
  ghost function Join(m: map<nat, nat>, s: nat, e: nat): (r: map<nat, nat>)
    requires e in m
    ensures r.Keys == m.Keys - {e}
    ensures forall f | f in m && f != e :: r[f] == if m[f] == s then m[e] else m[f]
  {
    map f | f in m.Keys - {e} :: if m[f] == s then m[e] else m[f]
  }

  lemma RenameLeftValues(m: map<nat, nat>, s: nat, s': nat)
    requires s in m.Values
    ensures RenameLeft(m, s, s').Values == m.Values - {s} + {s'}
  {
    var r := RenameLeft(m, s, s');
    var e :| e in m && m[e] == s;
    assert r[e] == s';
    forall v | v in m.Values && v != s
      ensures v in r.Values
    {
      var f :| f in m && m[f] == v;
      assert r[f] == v;
    }
  }

  lemma RenameRightValues(m: map<nat, nat>, e: nat, e': nat)
    requires e in m && e' !in m
    ensures RenameRight(m, e, e').Values == m.Values
  {
    var r := RenameRight(m, e, e');
    forall v | v in m.Values
      ensures v in r.Values
    {
      var f :| f in m && m[f] == v;
      assert r[if f == e then e' else f] == v;
    }
    forall v | v in r.Values
      ensures v in m.Values
    {
      var f :| f in r && r[f] == v;
      assert m[if f == e' then e else f] == v;
    }
  }

  lemma JoinValues(m: map<nat, nat>, s: nat, e: nat)
    requires e in m && s in m.Values && Injective(m)
    ensures Join(m, s, e).Values == m.Values - {s}
  {
    var r := Join(m, s, e);
    forall v | v in m.Values && v != s
      ensures v in r.Values
    {
      var f :| f in m && m[f] == v;
      if f == e {
        var g :| g in m && m[g] == s;
        assert r[g] == v;
      } else {
        assert r[f] == v;
      }
    }
    forall v | v in r.Values
      ensures v in m.Values && v != s
    {
      var f :| f in r && r[f] == v;
    }
  }

  /** ContourNode(x, y): a node that is a piece by itself. */
  lemma NewPiece(next: seq<nat>, m: map<nat, nat>)
    requires Pieces(next, m)
    ensures Pieces(next + [|next|], m[|next| := |next|])
    ensures m[|next| := |next|].Values == m.Values + {|next|}
  {
    var n, next', m' := |next|, next + [|next|], m[|next| := |next|];
    assert m'.Values == m.Values + {n} by {
      assert m'[n] == n;
      forall v | v in m.Values ensures v in m'.Values {
        var f :| f in m && m[f] == v;
        assert m'[f] == v;
      }
    }
    assert Walk(next', m'.Values, n, [], n);
    forall e | e in m
      ensures Leads(next', m', e)
    {
      LeadsKept(next, m, next', m', e);
    }
  }

  lemma LeadsKept(next: seq<nat>, m: map<nat, nat>, next': seq<nat>, m': map<nat, nat>, e: nat)
    requires e in m && e in m' && m'[e] == m[e] && Leads(next, m, e)
    requires Extends(next, m.Values, next', m'.Values)
    ensures Leads(next', m', e)
  {
    var p :| Walk(next, m.Values, e, p, m[e]);
    WalkKept(next, m.Values, next', m'.Values, e, p, m[e]);
  }

  /** A piece that led to `s` is prolonged by a walk from `s`. */
  lemma LeadsProlonged(next: seq<nat>, m: map<nat, nat>, next': seq<nat>, m': map<nat, nat>, e: nat, q: seq<nat>)
    requires e in m && e in m' && Leads(next, m, e)
    requires Extends(next, m.Values, next', m'.Values)
    requires Walk(next', m'.Values, m[e], q, m'[e])
    ensures Leads(next', m', e)
  {
    var p :| Walk(next, m.Values, e, p, m[e]);
    WalkKept(next, m.Values, next', m'.Values, e, p, m[e]);
    WalkJoin(next', m'.Values, e, p, m[e], q, m'[e]);
  }

  /** append: the left end `s` gets a new successor, which becomes the left end. */
  lemma AppendPiece(next: seq<nat>, m: map<nat, nat>, s: nat)
    requires Pieces(next, m) && s in m.Values
    ensures s < |next| && Pieces(next[s := |next|] + [|next|], RenameLeft(m, s, |next|))
  {
    var n := |next|;
    var next', m' := next[s := n] + [n], RenameLeft(m, s, n);
    RenameLeftValues(m, s, n);
    assert Walk(next', m'.Values, n, [], n);
    assert Walk(next', m'.Values, s, [n], n);
    forall e | e in m
      ensures Leads(next', m', e)
    {
      if m[e] == s {
        LeadsProlonged(next, m, next', m', e, [n]);
      } else {
        LeadsKept(next, m, next', m', e);
      }
    }
  }

  lemma PrependEnds(next: seq<nat>, m: map<nat, nat>, e: nat)
    requires Ends(next, m) && e in m
    ensures |next| !in m && Ends(next + [e], RenameRight(m, e, |next|))
  {
  }

  /** pappend: a new node in front of the right end `e` becomes the right end. */
  lemma PrependPiece(next: seq<nat>, m: map<nat, nat>, e: nat)
    requires Pieces(next, m) && e in m
    ensures |next| !in m && Pieces(next + [e], RenameRight(m, e, |next|))
  {
    PrependEnds(next, m, e);
    RenameRightValues(m, e, |next|);
    forall f | f in RenameRight(m, e, |next|)
      ensures Leads(next + [e], RenameRight(m, e, |next|), f)
    {
      if f == |next| {
        assert |next| !in m.Values;
        PrependLeads(next, m, e, next + [e], RenameRight(m, e, |next|));
      } else {
        LeadsKept(next, m, next + [e], RenameRight(m, e, |next|), f);
      }
    }
  }

  lemma PrependLeads(next: seq<nat>, m: map<nat, nat>, e: nat, next': seq<nat>, m': map<nat, nat>)
    requires e in m && Leads(next, m, e) && e < |next|
    requires next' == next + [e] && |next| in m' && m'[|next|] == m[e] && m'.Values == m.Values
    requires |next| !in m.Values
    ensures Leads(next', m', |next|)
  {
    var p :| Walk(next, m.Values, e, p, m[e]);
    WalkKept(next, m.Values, next', m'.Values, e, p, m[e]);
    assert ([e] + p)[1..] == p;
    assert Walk(next', m'.Values, |next|, [e] + p, m[e]);
  }

  lemma JoinEnds(next: seq<nat>, m: map<nat, nat>, s: nat, e: nat, t: nat)
    requires Ends(next, m) && s in m.Values && e in m && t < |next|
    ensures s < |next| && Ends(next[s := t], Join(m, s, e))
  {
  }

  lemma JoinLeads(next: seq<nat>, m: map<nat, nat>, s: nat, e: nat, t: nat, q: seq<nat>, f: nat)
    requires s in m.Values && e in m && t < |next| && s < |next| && f in m && f != e
    requires Leads(next, m, f) && Walk(next, m.Values, t, q, m[e])
    requires Join(m, s, e).Values == m.Values - {s}
    ensures Leads(next[s := t], Join(m, s, e), f)
  {
    var next', m' := next[s := t], Join(m, s, e);
    if m[f] == s {
      WalkKept(next, m.Values, next', m'.Values, t, q, m[e]);
      assert ([t] + q)[1..] == q;
      assert Walk(next', m'.Values, s, [t] + q, m[e]);
      LeadsProlonged(next, m, next', m', f, [t] + q);
    } else {
      LeadsKept(next, m, next', m', f);
    }
  }

  /** The left end `s` is linked to `t`, from where the links lead to the left end that `e` leads to. */
  lemma JoinPieces(next: seq<nat>, m: map<nat, nat>, s: nat, e: nat, t: nat, q: seq<nat>)
    requires Pieces(next, m) && s in m.Values && e in m && t < |next|
    requires Walk(next, m.Values, t, q, m[e])
    ensures s < |next| && Pieces(next[s := t], Join(m, s, e))
  {
    JoinEnds(next, m, s, e, t);
    JoinValues(m, s, e);
    forall f | f in Join(m, s, e)
      ensures Leads(next[s := t], Join(m, s, e), f)
    {
      JoinLeads(next, m, s, e, t, q, f);
    }
  }

  lemma RenameLeftTwice(m: map<nat, nat>, s: nat, a: nat, b: nat)
    requires a == s || a !in m.Values
    ensures RenameLeft(RenameLeft(m, s, a), a, b) == RenameLeft(m, s, b)
    ensures RenameLeft(m, s, s) == m
  {
    var l, r := RenameLeft(RenameLeft(m, s, a), a, b), RenameLeft(m, s, b);
    forall e | e in m
      ensures l[e] == r[e] && RenameLeft(m, s, s)[e] == m[e]
    {
      assert m[e] in m.Values;
    }
  }

  lemma RenameRightTwice(m: map<nat, nat>, e: nat, a: nat, b: nat)
    requires e in m && a !in m && b !in m && a != b
    ensures b !in RenameRight(m, e, a)
    ensures RenameRight(RenameRight(m, e, a), a, b) == RenameRight(m, e, b)
  {
    var l, r := RenameRight(RenameRight(m, e, a), a, b), RenameRight(m, e, b);
    assert l.Keys == r.Keys;
    assert forall f | f in l :: l[f] == r[f];
  }

  lemma JoinAfterRename(m: map<nat, nat>, s: nat, a: nat, e: nat)
    requires e in m && (a == s || a !in m.Values) && Injective(m)
    ensures Join(RenameLeft(m, s, a), a, e) == Join(m, s, e)
  {
    var l, r := Join(RenameLeft(m, s, a), a, e), Join(m, s, e);
    assert l.Keys == r.Keys;
    forall f | f in l
      ensures l[f] == r[f]
    {
      assert m[f] in m.Values;
    }
  }

  /** The two loose ends of a piece of outline above one run: left end `st`, right end `ed`. */
  datatype HalfContour = HalfContour(st: nat, ed: nat)

  // ----- every node stays on an outline -----

  /** Following links that are not open leads from `a` to `b`. */
  ghost predicate Reach(next: seq<nat>, open: set<nat>, a: nat, b: nat) {
    exists p :: Walk(next, open, a, p, b)
  }

  ghost predicate OnCycle(next: seq<nat>, open: set<nat>, v: nat) {
    exists p :: p != [] && Walk(next, open, v, p, v)
  }

  /** The links from the right end `j` pass through `v` on their way to the left end. */
  ghost predicate OnPiece(next: seq<nat>, m: map<nat, nat>, j: nat, v: nat) {
    j in m && Reach(next, m.Values, j, v) && Reach(next, m.Values, v, m[j])
  }

  /** `v` is on an unfinished piece or, if those count (`c`), on a finished cycle. */
  ghost predicate OnOutline(next: seq<nat>, m: map<nat, nat>, c: bool, v: nat) {
    (c && OnCycle(next, m.Values, v)) || exists j :: OnPiece(next, m, j, v)
  }

  ghost predicate PixelOutlined(pts: seq<Pt>, next: seq<nat>, m: map<nat, nat>, c: bool, p: Pt) {
    exists v: nat :: v < |pts| && pts[v] == p && OnOutline(next, m, c, v)
  }

  /** Every node, or another node at the same pixel, is on an outline. */
  ghost predicate Outlined(pts: seq<Pt>, next: seq<nat>, m: map<nat, nat>, c: bool) {
    forall n | 0 <= n < |pts| :: PixelOutlined(pts, next, m, c, pts[n])
  }

  /** Whatever was on an outline still is, apart from the nodes in `lost`. */
  ghost predicate Keeps(next: seq<nat>, m: map<nat, nat>, next': seq<nat>, m': map<nat, nat>, lost: set<nat>) {
    forall v | OnOutline(next, m, true, v) && v !in lost :: OnOutline(next', m', true, v)
  }

  lemma KeepsSelf(next: seq<nat>, m: map<nat, nat>)
    ensures Keeps(next, m, next, m, {})
  {
  }

  lemma KeepsTransitive(next: seq<nat>, m: map<nat, nat>, next': seq<nat>, m': map<nat, nat>, next'': seq<nat>, m'': map<nat, nat>,
                        lost: set<nat>)
    requires Keeps(next, m, next', m', {}) && Keeps(next', m', next'', m'', lost)
    ensures Keeps(next, m, next'', m'', lost)
  {
    hide OnOutline;
  }

  lemma ReachTransitive(next: seq<nat>, open: set<nat>, a: nat, b: nat, c: nat)
    requires Reach(next, open, a, b) && Reach(next, open, b, c)
    ensures Reach(next, open, a, c)
  {
    var p :| Walk(next, open, a, p, b);
    var q :| Walk(next, open, b, q, c);
    WalkJoin(next, open, a, p, b, q, c);
  }

  lemma ReachKept(next: seq<nat>, open: set<nat>, next': seq<nat>, open': set<nat>, a: nat, b: nat)
    requires Reach(next, open, a, b) && Extends(next, open, next', open')
    ensures Reach(next', open', a, b)
  {
    var p :| Walk(next, open, a, p, b);
    WalkKept(next, open, next', open', a, p, b);
  }

  lemma ReachStep(next: seq<nat>, open: set<nat>, a: nat, b: nat)
    requires a < |next| && a !in open && next[a] == b
    ensures Reach(next, open, a, b)
  {
    assert Walk(next, open, b, [], b);
    assert Walk(next, open, a, [b], b);
  }

  lemma ReachSelf(next: seq<nat>, open: set<nat>, a: nat)
    ensures Reach(next, open, a, a)
  {
    assert Walk(next, open, a, [], a);
  }

  /** A step from `a` to `b` and links from `b` back to `a` make a cycle through every node on the way. */
  lemma CycleFrom(next: seq<nat>, open: set<nat>, a: nat, b: nat, v: nat)
    requires a < |next| && a !in open && next[a] == b && Reach(next, open, b, v) && Reach(next, open, v, a)
    ensures OnCycle(next, open, v)
  {
    var p :| Walk(next, open, v, p, a);
    var q :| Walk(next, open, b, q, v);
    assert ([b] + q)[1..] == q;
    assert Walk(next, open, a, [b] + q, v);
    WalkJoin(next, open, v, p, a, [b] + q, v);
    assert p + ([b] + q) != [];
  }

  lemma CycleKept(next: seq<nat>, open: set<nat>, next': seq<nat>, open': set<nat>, v: nat)
    requires OnCycle(next, open, v) && Extends(next, open, next', open')
    ensures OnCycle(next', open', v)
  {
    var p :| p != [] && Walk(next, open, v, p, v);
    WalkKept(next, open, next', open', v, p, v);
  }

  /** A piece that is left alone, or prolonged at its left end, or at its right end. */
  lemma OnPieceKept(next: seq<nat>, m: map<nat, nat>, next': seq<nat>, m': map<nat, nat>, j: nat, v: nat, j': nat)
    requires OnPiece(next, m, j, v) && Extends(next, m.Values, next', m'.Values)
    requires j' in m' && Reach(next', m'.Values, j', j) && Reach(next', m'.Values, m[j], m'[j'])
    ensures OnPiece(next', m', j', v)
  {
    ReachKept(next, m.Values, next', m'.Values, j, v);
    ReachKept(next, m.Values, next', m'.Values, v, m[j]);
    ReachTransitive(next', m'.Values, j', j, v);
    ReachTransitive(next', m'.Values, v, m[j], m'[j']);
  }

  lemma OutlineNew(next: seq<nat>, m: map<nat, nat>, c: bool, v: nat)
    requires Pieces(next, m) && OnOutline(next, m, c, v)
    ensures OnOutline(next + [|next|], m[|next| := |next|], c, v)
  {
    var n, next', m' := |next|, next + [|next|], m[|next| := |next|];
    NewPiece(next, m);
    if c && OnCycle(next, m.Values, v) {
      CycleKept(next, m.Values, next', m'.Values, v);
    } else {
      var j :| OnPiece(next, m, j, v);
      ReachSelf(next', m'.Values, j);
      ReachSelf(next', m'.Values, m[j]);
      OnPieceKept(next, m, next', m', j, v, j);
    }
  }

  lemma OutlineAppend(next: seq<nat>, m: map<nat, nat>, s: nat, c: bool, v: nat)
    requires Pieces(next, m) && s in m.Values && OnOutline(next, m, c, v)
    ensures s < |next| && OnOutline(next[s := |next|] + [|next|], RenameLeft(m, s, |next|), c, v)
  {
    var n := |next|;
    var next', m' := next[s := n] + [n], RenameLeft(m, s, n);
    RenameLeftValues(m, s, n);
    if c && OnCycle(next, m.Values, v) {
      CycleKept(next, m.Values, next', m'.Values, v);
    } else {
      var j :| OnPiece(next, m, j, v);
      ReachSelf(next', m'.Values, j);
      if m[j] == s {
        ReachStep(next', m'.Values, s, n);
      } else {
        ReachSelf(next', m'.Values, m[j]);
      }
      OnPieceKept(next, m, next', m', j, v, j);
    }
  }

  lemma OutlinePrepend(next: seq<nat>, m: map<nat, nat>, e: nat, c: bool, v: nat)
    requires Pieces(next, m) && e in m && OnOutline(next, m, c, v)
    ensures |next| !in m && OnOutline(next + [e], RenameRight(m, e, |next|), c, v)
  {
    var n := |next|;
    PrependEnds(next, m, e);
    var next', m' := next + [e], RenameRight(m, e, n);
    RenameRightValues(m, e, n);
    EndsExist(next, m);
    if c && OnCycle(next, m.Values, v) {
      CycleKept(next, m.Values, next', m'.Values, v);
    } else {
      var j :| OnPiece(next, m, j, v);
      ReachSelf(next', m'.Values, m[j]);
      ReachSelf(next', m'.Values, j);
      if j == e {
        ReachStep(next', m'.Values, n, e);
        OnPieceKept(next, m, next', m', j, v, n);
      } else {
        OnPieceKept(next, m, next', m', j, v, j);
      }
    }
  }

  /** A node on the piece that `e` leads, reached from `t` as well, once `s` links to `t`. */
  lemma OutlineOfJoined(next: seq<nat>, m: map<nat, nat>, c: bool, s: nat, e: nat, t: nat, v: nat)
    requires Pieces(next, m) && s in m.Values && e in m && t < |next| && (c || m[e] != s)
    requires Reach(next, m.Values, t, v) && Reach(next, m.Values, v, m[e])
    ensures s < |next| && OnOutline(next[s := t], Join(m, s, e), c, v)
  {
    var next', m' := next[s := t], Join(m, s, e);
    JoinValues(m, s, e);
    ReachKept(next, m.Values, next', m'.Values, t, v);
    ReachKept(next, m.Values, next', m'.Values, v, m[e]);
    if m[e] == s {
      CycleFrom(next', m'.Values, s, t, v);
    } else {
      var f :| f in m && m[f] == s;
      assert Leads(next, m, f);
      ReachKept(next, m.Values, next', m'.Values, f, s);
      ReachStep(next', m'.Values, s, t);
      ReachTransitive(next', m'.Values, f, s, t);
      ReachTransitive(next', m'.Values, f, t, v);
      assert OnPiece(next', m', f, v);
    }
  }

  /**
   * Joining keeps every node on an outline, except the right end itself if it is bypassed. Joining two different pieces
   * closes nothing.
   */
  lemma OutlineJoin(next: seq<nat>, m: map<nat, nat>, c: bool, s: nat, e: nat, t: nat, v: nat)
    requires Pieces(next, m) && s in m.Values && e in m && e < |next| && (t == e || (t == next[e] && v != e))
    requires t < |next| && Reach(next, m.Values, t, m[e]) && OnOutline(next, m, c, v) && (c || m[e] != s)
    ensures s < |next| && OnOutline(next[s := t], Join(m, s, e), c, v)
  {
    var next', m' := next[s := t], Join(m, s, e);
    JoinValues(m, s, e);
    if c && OnCycle(next, m.Values, v) {
      CycleKept(next, m.Values, next', m'.Values, v);
    } else {
      var j :| OnPiece(next, m, j, v);
      if j == e {
        PastFirst(next, m.Values, e, t, v);
        OutlineOfJoined(next, m, c, s, e, t, v);
      } else {
        ReachSelf(next', m'.Values, j);
        if m[j] == s {
          ReachKept(next, m.Values, next', m'.Values, t, m[e]);
          ReachStep(next', m'.Values, s, t);
          ReachTransitive(next', m'.Values, s, t, m[e]);
        } else {
          ReachSelf(next', m'.Values, m[j]);
        }
        OnPieceKept(next, m, next', m', j, v, j);
      }
    }
  }

  /** A node other than `e` that `e` reaches is reached by the node after `e`. */
  lemma PastFirst(next: seq<nat>, open: set<nat>, e: nat, t: nat, v: nat)
    requires Reach(next, open, e, v) && e < |next| && (t == e || (t == next[e] && v != e))
    ensures Reach(next, open, t, v)
  {
    if t != e {
      var p :| Walk(next, open, e, p, v);
      assert Walk(next, open, t, p[1..], v);
    }
  }

  // ----- all nodes at once -----

  lemma KeepsAppend(next: seq<nat>, m: map<nat, nat>, s: nat)
    requires Pieces(next, m) && s in m.Values
    ensures s < |next| && Keeps(next, m, next[s := |next|] + [|next|], RenameLeft(m, s, |next|), {})
  {
    hide OnOutline;
    EndsExist(next, m);
    forall v | OnOutline(next, m, true, v)
      ensures OnOutline(next[s := |next|] + [|next|], RenameLeft(m, s, |next|), true, v)
    {
      OutlineAppend(next, m, s, true, v);
    }
  }

  lemma KeepsLess(next: seq<nat>, m: map<nat, nat>, next': seq<nat>, m': map<nat, nat>, e: nat)
    requires Keeps(next, m, next', m', {})
    ensures Keeps(next, m, next', m', {e})
  {
    hide OnOutline;
  }

  lemma KeepsJoin(next: seq<nat>, m: map<nat, nat>, s: nat, e: nat, t: nat)
    requires Pieces(next, m) && s in m.Values && e in m && t < |next| && Reach(next, m.Values, t, m[e])
    requires e < |next| && (t == e || t == next[e])
    ensures s < |next| && Keeps(next, m, next[s := t], Join(m, s, e), if t == e then {} else {e})
  {
    hide OnOutline;
    EndsExist(next, m);
    forall v | OnOutline(next, m, true, v) && (t == e || v != e)
      ensures OnOutline(next[s := t], Join(m, s, e), true, v)
    {
      OutlineJoin(next, m, true, s, e, t, v);
    }
  }

  lemma OutlinedNew(pts: seq<Pt>, next: seq<nat>, m: map<nat, nat>, c: bool, p: Pt)
    requires |pts| == |next| && Pieces(next, m) && Outlined(pts, next, m, c)
    ensures Outlined(pts + [p], next + [|next|], m[|next| := |next|], c)
  {
    var n, next', m' := |next|, next + [|next|], m[|next| := |next|];
    ReachSelf(next', m'.Values, n);
    assert OnPiece(next', m', n, n);
    PixelIs(pts + [p], next', m', c, n);
    forall i | 0 <= i < |pts|
      ensures PixelOutlined(pts + [p], next', m', c, (pts + [p])[i])
    {
      assert PixelOutlined(pts, next, m, c, pts[i]);
      var v: nat :| v < |pts| && pts[v] == pts[i] && OnOutline(next, m, c, v);
      OutlineNew(next, m, c, v);
      PixelIs(pts + [p], next', m', c, v);
    }
  }

  lemma PixelIs(pts: seq<Pt>, next: seq<nat>, m: map<nat, nat>, c: bool, v: nat)
    requires v < |pts| && OnOutline(next, m, c, v)
    ensures PixelOutlined(pts, next, m, c, pts[v])
  {
  }

  lemma OutlinedAppend(pts: seq<Pt>, next: seq<nat>, m: map<nat, nat>, s: nat, c: bool, p: Pt)
    requires |pts| == |next| && Pieces(next, m) && Outlined(pts, next, m, c) && s in m.Values
    ensures s < |next| && Outlined(pts + [p], next[s := |next|] + [|next|], RenameLeft(m, s, |next|), c)
  {
    hide OnOutline;
    EndsExist(next, m);
    AppendPiece(next, m, s);
    var n := |next|;
    var next', m' := next[s := n] + [n], RenameLeft(m, s, n);
    LastOutlined(next', m', c, n);
    PixelIs(pts + [p], next', m', c, n);
    forall i | 0 <= i < |pts|
      ensures PixelOutlined(pts + [p], next', m', c, (pts + [p])[i])
    {
      assert PixelOutlined(pts, next, m, c, pts[i]);
      var v: nat :| v < |pts| && pts[v] == pts[i] && OnOutline(next, m, c, v);
      OutlineAppend(next, m, s, c, v);
      PixelIs(pts + [p], next', m', c, v);
    }
  }

  /** A left end is on the outline it ends. */
  lemma LastOutlined(next: seq<nat>, m: map<nat, nat>, c: bool, s: nat)
    requires Pieces(next, m) && s in m.Values
    ensures OnOutline(next, m, c, s)
  {
    var f :| f in m && m[f] == s;
    assert Leads(next, m, f);
    ReachSelf(next, m.Values, s);
    assert OnPiece(next, m, f, s);
  }

  /** A right end is on the outline it starts. */
  lemma FirstOutlined(next: seq<nat>, m: map<nat, nat>, c: bool, e: nat)
    requires Pieces(next, m) && e in m
    ensures OnOutline(next, m, c, e)
  {
    assert Leads(next, m, e);
    ReachSelf(next, m.Values, e);
    assert OnPiece(next, m, e, e);
  }

  lemma OutlinedPrepend(pts: seq<Pt>, next: seq<nat>, m: map<nat, nat>, e: nat, c: bool, p: Pt)
    requires |pts| == |next| && Pieces(next, m) && Outlined(pts, next, m, c) && e in m
    ensures |next| !in m && Outlined(pts + [p], next + [e], RenameRight(m, e, |next|), c)
  {
    hide OnOutline;
    PrependPiece(next, m, e);
    var n, next', m' := |next|, next + [e], RenameRight(m, e, |next|);
    FirstOutlined(next', m', c, n);
    PixelIs(pts + [p], next', m', c, n);
    forall i | 0 <= i < |pts|
      ensures PixelOutlined(pts + [p], next', m', c, (pts + [p])[i])
    {
      assert PixelOutlined(pts, next, m, c, pts[i]);
      var v: nat :| v < |pts| && pts[v] == pts[i] && OnOutline(next, m, c, v);
      OutlinePrepend(next, m, e, c, v);
      PixelIs(pts + [p], next', m', c, v);
    }
  }

  lemma OutlinedJoin(pts: seq<Pt>, next: seq<nat>, m: map<nat, nat>, c: bool, s: nat, e: nat, t: nat)
    requires |pts| == |next| && Pieces(next, m) && Outlined(pts, next, m, c) && s in m.Values && e in m
    requires t < |next| && Reach(next, m.Values, t, m[e]) && (c || m[e] != s)
    requires e < |next| && s < |next| && (t == e || (t == next[e] && pts[s] == pts[e]))
    ensures Outlined(pts, next[s := t], Join(m, s, e), c)
  {
    hide OnOutline;
    var next', m' := next[s := t], Join(m, s, e);
    forall i | 0 <= i < |pts|
      ensures PixelOutlined(pts, next', m', c, pts[i])
    {
      assert PixelOutlined(pts, next, m, c, pts[i]);
      var v: nat :| v < |pts| && pts[v] == pts[i] && OnOutline(next, m, c, v);
      if t == e || v != e {
        OutlineJoin(next, m, c, s, e, t, v);
        PixelIs(pts, next', m', c, v);
      } else {
        LeftEndJoined(next, m, c, s, e, t);
        PixelIs(pts, next', m', c, s);
      }
    }
  }

  /** The left end that was linked is on the joined outline. */
  lemma LeftEndJoined(next: seq<nat>, m: map<nat, nat>, c: bool, s: nat, e: nat, t: nat)
    requires Pieces(next, m) && s in m.Values && e in m && t < |next| && Reach(next, m.Values, t, m[e]) && (c || m[e] != s)
    ensures s < |next| && OnOutline(next[s := t], Join(m, s, e), c, s)
  {
    var next', m' := next[s := t], Join(m, s, e);
    JoinValues(m, s, e);
    EndsExist(next, m);
    ReachKept(next, m.Values, next', m'.Values, t, m[e]);
    ReachSelf(next', m'.Values, s);
    if m[e] == s {
      CycleFrom(next', m'.Values, s, t, s);
    } else {
      var f :| f in m && m[f] == s;
      assert Leads(next, m, f);
      ReachKept(next, m.Values, next', m'.Values, f, s);
      ReachStep(next', m'.Values, s, t);
      ReachTransitive(next', m'.Values, s, t, m[e]);
      assert OnPiece(next', m', f, s);
    }
  }

  /** A right end, and the node after it, lead to the left end; one that is a left end too points at itself. */
  lemma RightLeads(next: seq<nat>, m: map<nat, nat>, e: nat)
    requires Pieces(next, m) && e in m
    ensures e < |next| && Reach(next, m.Values, e, m[e]) && Reach(next, m.Values, next[e], m[e])
    ensures e in m.Values ==> next[e] == e
  {
    assert Leads(next, m, e);
    var q :| Walk(next, m.Values, e, q, m[e]);
    if q == [] {
      assert Walk(next, m.Values, next[e], [], m[e]);
    } else {
      assert Walk(next, m.Values, next[e], q[1..], m[e]);
    }
  }

  lemma JoinReach(next: seq<nat>, m: map<nat, nat>, s: nat, e: nat, t: nat)
    requires Pieces(next, m) && s in m.Values && e in m && t < |next| && Reach(next, m.Values, t, m[e])
    ensures s < |next| && Pieces(next[s := t], Join(m, s, e))
  {
    var q :| Walk(next, m.Values, t, q, m[e]);
    JoinPieces(next, m, s, e, t, q);
  }

  lemma AppendExtends(next: seq<nat>, m: map<nat, nat>, s: nat)
    requires Pieces(next, m) && s in m.Values
    ensures
      var n := |next|;
      && s < n && Extends(next, m.Values, next[s := n] + [n], RenameLeft(m, s, n).Values)
      && Reach(next[s := n] + [n], RenameLeft(m, s, n).Values, s, n)
  {
    var n := |next|;
    EndsExist(next, m);
    RenameLeftValues(m, s, n);
    ReachStep(next[s := n] + [n], RenameLeft(m, s, n).Values, s, n);
  }

  lemma JoinExtends(next: seq<nat>, m: map<nat, nat>, s: nat, e: nat, t: nat)
    requires Pieces(next, m) && s in m.Values && e in m
    ensures s < |next| && Extends(next, m.Values, next[s := t], Join(m, s, e).Values)
    ensures Reach(next[s := t], Join(m, s, e).Values, s, t)
  {
    EndsExist(next, m);
    JoinValues(m, s, e);
    ReachStep(next[s := t], Join(m, s, e).Values, s, t);
  }

  lemma ExtendsTransitive(next: seq<nat>, open: set<nat>, next': seq<nat>, open': set<nat>, next'': seq<nat>, open'': set<nat>)
    requires Extends(next, open, next', open') && Extends(next', open', next'', open'')
    ensures Extends(next, open, next'', open'')
  {
  }

  lemma ExtendsSelf(next: seq<nat>, open: set<nat>)
    ensures Extends(next, open, next, open)
  {
  }

  lemma StepsAppend(pts: seq<Pt>, next: seq<nat>, s: nat, p: Pt)
    requires Steps(pts, next) && s < |next| && Distance(pts[s], p) <= 1
    ensures Steps(pts + [p], next[s := |next|] + [|next|])
  {
  }

  lemma StepsPrepend(pts: seq<Pt>, next: seq<nat>, e: nat, p: Pt)
    requires Steps(pts, next) && e < |next| && Distance(pts[e], p) <= 1
    ensures Steps(pts + [p], next + [e])
  {
  }

  lemma SameLength(pts: seq<Pt>, next: seq<nat>)
    requires Steps(pts, next)
    ensures |pts| == |next|
  {
  }

  lemma EndsExist(next: seq<nat>, m: map<nat, nat>)
    requires Pieces(next, m)
    ensures forall e | e in m :: e < |next|
    ensures forall v | v in m.Values :: v < |next|
  {
  }

  // ----- the pixels an operation adds -----

  /** The pixels of row `y` from the one next to column `from` to column `to`. */
  ghost function Across(y: int, from: int, to: int): seq<Pt>
    decreases Abs(to - from)
  {
    if from == to then [] else Across(y, from, if from < to then to - 1 else to + 1) + [Pt(to, y)]
  }

  lemma {:induction false} AcrossHas(y: int, from: int, to: int, p: Pt)
    ensures p in Across(y, from, to) <==> p.y == y && (from < p.x <= to || to <= p.x < from)
    decreases Abs(to - from)
  {
    if from != to {
      AcrossHas(y, from, if from < to then to - 1 else to + 1, p);
    }
  }

  lemma AcrossMore(y: int, from: int, to: int)
    requires from <= to
    ensures Across(y, from, from) == [] && Across(y, from, to + 1) == Across(y, from, to) + [Pt(to + 1, y)]
  {
  }

  lemma StretchMore(y: int, a: int, b: int)
    requires a <= b
    ensures Stretch(y, a, a) == [Pt(a, y)] && Stretch(y, a, b + 1) == Stretch(y, a, b) + [Pt(b + 1, y)]
  {
    AcrossMore(y, a, b);
  }

  function Larger(a: int, b: int): int {
    if a < b then b else a
  }

  function Smaller(a: int, b: int): int {
    if a < b then a else b
  }

  /** From `p` along the row to column `turn`, down one row, and along that row to column `x`. */
  ghost function DownTo(p: Pt, turn: int, x: int): seq<Pt> {
    Across(p.y, p.x, turn) + [Pt(turn, p.y + 1)] + Across(p.y + 1, turn, x)
  }

  /** Columns `a`, ..., `b` of row `y`. */
  ghost function Stretch(y: int, a: int, b: int): seq<Pt> {
    [Pt(a, y)] + Across(y, a, b)
  }

  /** The nodes handed out by the analysis allocator; a node is named by its number. */
  class Arena {
    var pts: seq<Pt>
    var next: seq<nat>
    ghost var m: map<nat, nat>

    ghost predicate Valid()
      reads this
    {
      Steps(pts, next) && Pieces(next, m) && Outlined(pts, next, m, true)
    }

    /** No outline has been closed yet: every node's pixel is on an unfinished piece. */
    ghost predicate Unclosed()
      reads this
    {
      Outlined(pts, next, m, false)
    }

    constructor ()
      ensures Valid() && Unclosed() && pts == [] && m == map[]
    {
      pts, next, m := [], [], map[];
    }

    /** ContourNode(x, y): points at itself. */
    method Node(x: int, y: int) returns (n: nat)
      requires Valid()
      modifies this
      ensures Valid() && n == |old(pts)| && pts == old(pts) + [Pt(x, y)]
      ensures m == old(m)[n := n] && next == old(next) + [n]
      ensures old(Unclosed()) ==> Unclosed()
    {
      hide Outlined;
      n := |next|;
      NewPiece(next, m);
      OutlinedNew(pts, next, m, true, Pt(x, y));
      if Unclosed() {
        OutlinedNew(pts, next, m, false, Pt(x, y));
      }
      pts, next, m := pts + [Pt(x, y)], next + [n], m[n := n];
    }

    /** ContourNode::append on a left end. */
    method Append(s: nat, x: int, y: int) returns (n: nat)
      requires Valid() && s in m.Values && Distance(pts[s], Pt(x, y)) <= 1
      modifies this
      ensures Valid() && n == |old(pts)| && pts == old(pts) + [Pt(x, y)]
      ensures m == RenameLeft(old(m), s, n) && next == old(next)[s := n] + [n]
      ensures Keeps(old(next), old(m), next, m, {}) && (old(Unclosed()) ==> Unclosed())
      ensures Extends(old(next), old(m).Values, next, m.Values) && Reach(next, m.Values, s, n)
    {
      hide Pieces, RenameLeft, Distance, Outlined, Keeps, Extends, Reach;
      n := |next|;
      AppendExtends(next, m, s);
      if Unclosed() {
        OutlinedAppend(pts, next, m, s, false, Pt(x, y));
      }
      KeepsAppend(next, m, s);
      OutlinedAppend(pts, next, m, s, true, Pt(x, y));
      EndsExist(next, m);
      StepsAppend(pts, next, s, Pt(x, y));
      AppendPiece(next, m, s);
      pts, next, m := pts + [Pt(x, y)], next[s := n] + [n], RenameLeft(m, s, n);
    }

    /** ContourNode::pappend on a right end. */
    method PAppend(e: nat, x: int, y: int) returns (n: nat)
      requires Valid() && e in m && Distance(pts[e], Pt(x, y)) <= 1
      modifies this
      ensures Valid() && n == |old(pts)| && pts == old(pts) + [Pt(x, y)]
      ensures n !in old(m) && m == RenameRight(old(m), e, n) && next == old(next) + [e]
      ensures old(Unclosed()) ==> Unclosed()
    {
      hide Pieces, RenameRight, Distance, Outlined;
      n := |next|;
      if Unclosed() {
        OutlinedPrepend(pts, next, m, e, false, Pt(x, y));
      }
      OutlinedPrepend(pts, next, m, e, true, Pt(x, y));
      EndsExist(next, m);
      StepsPrepend(pts, next, e, Pt(x, y));
      PrependPiece(next, m, e);
      pts, next, m := pts + [Pt(x, y)], next + [e], RenameRight(m, e, n);
    }

    /** `s->next = e` for a left end and a right end one pixel apart. */
    method LinkTo(s: nat, e: nat)
      requires Valid() && s in m.Values && e in m && Distance(pts[s], pts[e]) <= 1
      modifies this`next, this`m
      ensures Valid() && m == Join(old(m), s, e) && next == old(next)[s := e]
      ensures Keeps(old(next), old(m), next, m, {}) && (old(Unclosed()) && old(m)[e] != s ==> Unclosed())
      ensures Extends(old(next), old(m).Values, next, m.Values) && Reach(next, m.Values, s, e)
    {
      hide Pieces, Outlined, Keeps, Extends, Reach;
      JoinExtends(next, m, s, e, e);
      EndsExist(next, m);
      RightLeads(next, m, e);
      JoinReach(next, m, s, e, e);
      OutlinedJoin(pts, next, m, true, s, e, e);
      if Unclosed() && m[e] != s {
        OutlinedJoin(pts, next, m, false, s, e, e);
      }
      KeepsJoin(next, m, s, e, e);
      next, m := next[s := e], Join(m, s, e);
    }

    /** `s->next = e->next` for a left end and a right end at the same pixel. */
    method LinkPast(s: nat, e: nat)
      requires Valid() && s in m.Values && e in m && pts[s] == pts[e]
      modifies this`next, this`m
      ensures Valid() && m == Join(old(m), s, e) && next == old(next)[s := old(next)[e]]
      ensures Keeps(old(next), old(m), next, m, if s == e then {} else {e})
      ensures Extends(old(next), old(m).Values, next, m.Values) && Reach(next, m.Values, s, old(next)[e])
    {
      hide Pieces, Outlined, Keeps, Extends, Reach;
      EndsExist(next, m);
      JoinExtends(next, m, s, e, next[e]);
      EndsExist(next, m);
      RightLeads(next, m, e);
      JoinReach(next, m, s, e, next[e]);
      OutlinedJoin(pts, next, m, true, s, e, next[e]);
      KeepsJoin(next, m, s, e, next[e]);
      if next[e] == e {
        KeepsLess(next, m, next[s := e], Join(m, s, e), e);
      }
      next, m := next[s := next[e]], Join(m, s, e);
    }

    /** Since `m0`, when there were `n0` nodes, the left end `s` has only been moved on to `r`. */
    ghost predicate LeftMoved(m0: map<nat, nat>, n0: nat, s: nat, r: nat)
      reads this
    {
      && n0 <= |pts| && (forall v | v in m0.Values :: v < n0) && s in m0.Values
      && (r == s || n0 <= r < |pts|) && m == RenameLeft(m0, s, r) && r in m.Values
    }

    lemma LeftUnmoved(s: nat)
      requires Valid() && s in m.Values
      ensures LeftMoved(m, |pts|, s, s) && Injective(m) && s < |pts|
    {
      RenameLeftTwice(m, s, s, s);
    }

    lemma RightUnmoved(e: nat)
      requires Valid() && e in m
      ensures RightMoved(m, |pts|, e, e) && e < |pts|
    {
    }

    method MoveLeft(ghost m0: map<nat, nat>, ghost n0: nat, ghost s: nat, r: nat, x: int, y: int) returns (n: nat)
      requires Valid() && LeftMoved(m0, n0, s, r) && Distance(pts[r], Pt(x, y)) <= 1
      modifies this
      ensures Valid() && LeftMoved(m0, n0, s, n)
      ensures n == |old(pts)| && pts == old(pts) + [Pt(x, y)]
      ensures Keeps(old(next), old(m), next, m, {}) && (old(Unclosed()) ==> Unclosed())
      ensures Extends(old(next), old(m).Values, next, m.Values) && Reach(next, m.Values, r, n)
    {
      hide Outlined, Keeps, Extends, Reach;
      RenameLeftTwice(m0, s, r, |pts|);
      RenameLeftValues(m0, s, |pts|);
      n := Append(r, x, y);
    }

    /** Moves the left end along its row, one pixel at a time, as long as it is left of `x` (or right of it). */
    method SlideLeftEnd(ghost m0: map<nat, nat>, ghost n0: nat, ghost s: nat, from: nat, x: int, rightwards: bool) returns (r: nat)
      requires Valid() && LeftMoved(m0, n0, s, from)
      modifies this
      ensures Valid() && LeftMoved(m0, n0, s, r)
      ensures old(pts) <= pts && pts[r].y == old(pts)[from].y && (r == from || r >= |old(pts)|)
      ensures old(Unclosed()) ==> Unclosed()
      ensures pts == old(pts) + Across(old(pts)[from].y, old(pts)[from].x, pts[r].x)
      ensures pts[r].x == if rightwards == (old(pts)[from].x < x) then x else old(pts)[from].x
    {
      hide Steps, Pieces, Outlined, Keeps, Extends, Reach;
      r := from;
      while if rightwards then pts[r].x < x else pts[r].x > x
        invariant Valid() && LeftMoved(m0, n0, s, r)
        invariant old(pts) <= pts && pts[r].y == old(pts)[from].y && (r == from || r >= |old(pts)|)
        invariant pts == old(pts) + Across(old(pts)[from].y, old(pts)[from].x, pts[r].x)
        invariant if rightwards then old(pts)[from].x <= pts[r].x else pts[r].x <= old(pts)[from].x
        invariant rightwards && old(pts)[from].x < x ==> pts[r].x <= x
        invariant !rightwards && old(pts)[from].x >= x ==> pts[r].x >= x
        invariant old(Unclosed()) ==> Unclosed()
        invariant rightwards != (old(pts)[from].x < x) ==> pts[r].x == old(pts)[from].x
        decreases if rightwards then x - pts[r].x else pts[r].x - x
      {
        r := MoveLeft(m0, n0, s, r, if rightwards then pts[r].x + 1 else pts[r].x - 1, pts[r].y);
      }
    }

    /** extend_start: along the row to the new first column, down one row, and back. */
    method ExtendStart(pst: nat, cst: int) returns (r: nat)
      requires Valid() && pst in m.Values
      modifies this
      ensures Valid() && old(pts) <= pts && LeftMoved(old(m), |old(pts)|, pst, r)
      ensures r >= |old(pts)| && pts[r] == Pt(cst, old(pts)[pst].y + 1)
      ensures pts == old(pts) + DownTo(old(pts)[pst], Larger(old(pts)[pst].x, cst), cst)
      ensures old(Unclosed()) ==> Unclosed()
    {
      hide Pieces, Outlined, Across, Steps, Keeps, Extends, Reach, RenameLeft, Arena.Unclosed;
      LeftUnmoved(pst);
      r := SlideLeftEnd(old(m), |old(pts)|, pst, pst, cst, true);
      r := MoveLeft(old(m), |old(pts)|, pst, r, pts[r].x, pts[r].y + 1);
      r := SlideLeftEnd(old(m), |old(pts)|, pst, r, cst, false);
    }

    /** Since `m0`, when there were `n0` nodes, the right end `e` has only been moved on to `r`. */
    ghost predicate RightMoved(m0: map<nat, nat>, n0: nat, e: nat, r: nat)
      reads this
    {
      && n0 <= |pts| && (forall f | f in m0 :: f < n0) && e in m0
      && (if r == e then m == m0 else n0 <= r < |pts| && r !in m0 && m == RenameRight(m0, e, r))
    }

    method MoveRight(ghost m0: map<nat, nat>, ghost n0: nat, ghost e: nat, r: nat, x: int, y: int) returns (n: nat)
      requires Valid() && RightMoved(m0, n0, e, r) && Distance(pts[r], Pt(x, y)) <= 1
      modifies this
      ensures Valid() && RightMoved(m0, n0, e, n)
      ensures n == |old(pts)| && pts == old(pts) + [Pt(x, y)] && (old(Unclosed()) ==> Unclosed())
    {
      hide Outlined;
      if r != e {
        RenameRightTwice(m0, e, r, |pts|);
      }
      n := PAppend(r, x, y);
    }

    method SlideRightEnd(ghost m0: map<nat, nat>, ghost n0: nat, ghost e: nat, from: nat, x: int, rightwards: bool) returns (r: nat)
      requires Valid() && RightMoved(m0, n0, e, from)
      modifies this
      ensures Valid() && RightMoved(m0, n0, e, r)
      ensures old(pts) <= pts && pts[r].y == old(pts)[from].y && (r == from || r >= |old(pts)|)
      ensures old(Unclosed()) ==> Unclosed()
      ensures pts == old(pts) + Across(old(pts)[from].y, old(pts)[from].x, pts[r].x)
      ensures pts[r].x == if rightwards == (old(pts)[from].x < x) then x else old(pts)[from].x
    {
      hide Steps, Pieces, Outlined;
      r := from;
      while if rightwards then pts[r].x < x else pts[r].x > x
        invariant Valid() && RightMoved(m0, n0, e, r)
        invariant old(pts) <= pts && pts[r].y == old(pts)[from].y && (r == from || r >= |old(pts)|)
        invariant pts == old(pts) + Across(old(pts)[from].y, old(pts)[from].x, pts[r].x)
        invariant if rightwards then old(pts)[from].x <= pts[r].x else pts[r].x <= old(pts)[from].x
        invariant rightwards && old(pts)[from].x < x ==> pts[r].x <= x
        invariant !rightwards && old(pts)[from].x >= x ==> pts[r].x >= x
        invariant old(Unclosed()) ==> Unclosed()
        invariant rightwards != (old(pts)[from].x < x) ==> pts[r].x == old(pts)[from].x
        decreases if rightwards then x - pts[r].x else pts[r].x - x
      {
        r := MoveRight(m0, n0, e, r, if rightwards then pts[r].x + 1 else pts[r].x - 1, pts[r].y);
      }
    }

    /** extend_end: the mirror image of extend_start, built against the direction of the links. */
    method ExtendEnd(pst: nat, cst: int) returns (r: nat)
      requires Valid() && pst in m
      modifies this
      ensures Valid() && old(pts) <= pts && RightMoved(old(m), |old(pts)|, pst, r)
      ensures r >= |old(pts)| && pts[r] == Pt(cst, old(pts)[pst].y + 1)
      ensures pts == old(pts) + DownTo(old(pts)[pst], Smaller(old(pts)[pst].x, cst), cst)
      ensures old(Unclosed()) ==> Unclosed()
    {
      hide Pieces, Outlined, Across, Steps;
      RightUnmoved(pst);
      r := SlideRightEnd(old(m), |old(pts)|, pst, pst, cst, false);
      r := MoveRight(old(m), |old(pts)|, pst, r, pts[r].x, pts[r].y + 1);
      r := SlideRightEnd(old(m), |old(pts)|, pst, r, cst, true);
    }

    /** cap_range: closes the gap above a run between two runs it touches. */
    method CapRange(pst: nat, est: nat)
      requires Valid() && pst in m && est in m.Values
      requires pts[pst].x <= pts[est].x && pts[pst].y == pts[est].y
      modifies this
      ensures Valid() && old(pts) <= pts && m == Join(old(m), est, pst)
      ensures pts == old(pts) + Stretch(old(pts)[est].y + 1, old(pts)[est].x, old(pts)[pst].x)
      ensures old(Unclosed()) && old(m)[pst] != est ==> Unclosed()
    {
      hide Pieces, Outlined, Across, Steps, Keeps, Extends, Reach, RenameLeft, Arena.Unclosed;
      LeftUnmoved(est);
      RightUnmoved(pst);
      var r := MoveLeft(old(m), |old(pts)|, est, est, pts[est].x, pts[est].y + 1);
      r := SlideLeftEnd(old(m), |old(pts)|, est, r, pts[pst].x, false);
      JoinAfterRename(old(m), est, r, pst);
      LinkTo(r, pst);
    }

    /** fwd_range: the upper edge of a run with nothing above it. */
    method FwdRange(i: int, sti: int, edi: int) returns (hc: HalfContour)
      requires Valid()
      modifies this
      ensures Valid() && old(pts) <= pts
      ensures hc.st >= |old(pts)| && hc.ed >= |old(pts)| && m == old(m)[hc.ed := hc.st]
      ensures hc.st < |pts| && hc.ed < |pts| && pts[hc.st] == Pt(sti, i)
      ensures pts[hc.ed] == Pt(Larger(sti, edi - 1), i) && pts == old(pts) + Stretch(i, sti, Larger(sti, edi - 1))
      ensures old(Unclosed()) ==> Unclosed()
    {
      hide Outlined, Pieces, Steps, Keeps, Extends, Reach, Stretch;
      EndsExist(next, m);
      SameLength(pts, next);
      StretchMore(i, sti, sti);
      var st := Node(sti, i);
      var ed := st;
      var x := sti + 1;
      while x < edi
        invariant Valid() && old(pts) <= pts && |old(pts)| <= ed < |pts| && |old(pts)| <= st < |pts|
        invariant old(Unclosed()) ==> Unclosed()
        invariant m == old(m)[ed := st]
        invariant x == sti + 1 || x <= edi
        invariant pts[st] == Pt(sti, i) && pts[ed] == Pt(x - 1, i) && pts == old(pts) + Stretch(i, sti, x - 1)
        decreases edi - x
      {
        RenameRightLast(old(m), ed, st, |pts|);
        StretchMore(i, sti, x - 1);
        ed := PAppend(ed, x, i);
        x := x + 1;
      }
      hc := HalfContour(st, ed);
    }

    /** make_cavity: the edge between two runs below the same run. */
    method MakeCavity(i: int, sti: int, edi: int) returns (hc: HalfContour)
      requires Valid()
      modifies this
      ensures Valid() && old(pts) <= pts
      ensures hc.st >= |old(pts)| && hc.ed >= |old(pts)| && m == old(m)[hc.st := hc.ed]
      ensures hc.st < |pts| && hc.ed < |pts| && pts[hc.st] == Pt(sti, i)
      ensures pts[hc.ed] == Pt(Larger(sti, edi - 1), i) && pts == old(pts) + Stretch(i, sti, Larger(sti, edi - 1))
    {
      hide Outlined, Pieces, Steps, Keeps, Extends, Reach, Stretch;
      EndsExist(next, m);
      SameLength(pts, next);
      StretchMore(i, sti, sti);
      var st := Node(sti, i);
      var ed := st;
      var x := sti + 1;
      while x < edi
        invariant Valid() && old(pts) <= pts && |old(pts)| <= ed < |pts| && |old(pts)| <= st < |pts|
        invariant m == old(m)[st := ed]
        invariant x == sti + 1 || x <= edi
        invariant pts[st] == Pt(sti, i) && pts[ed] == Pt(x - 1, i) && pts == old(pts) + Stretch(i, sti, x - 1)
        decreases edi - x
      {
        RenameLeftLast(old(m), st, ed, |pts|);
        StretchMore(i, sti, x - 1);
        ed := Append(ed, x, i);
        x := x + 1;
      }
      hc := HalfContour(st, ed);
    }

    /** The loop of close_range: the left end moves right until it is next to the right end. */
    method CloseAlong(hc: HalfContour) returns (cur: nat)
      requires Valid() && hc.st in m.Values && hc.ed in m
      requires pts[hc.st].y == pts[hc.ed].y && pts[hc.st].x <= pts[hc.ed].x
      modifies this
      ensures Valid() && old(pts) <= pts && LeftMoved(old(m), |old(pts)|, hc.st, cur)
      ensures pts[cur].y == pts[hc.ed].y && pts[hc.ed].x - 1 <= pts[cur].x <= pts[hc.ed].x
      ensures pts[cur].x == Larger(old(pts)[hc.st].x, pts[hc.ed].x - 1)
      ensures pts == old(pts) + Across(old(pts)[hc.st].y, old(pts)[hc.st].x, pts[cur].x)
      ensures pts[cur].x == pts[hc.ed].x ==> old(pts)[hc.st] == old(pts)[hc.ed]
      ensures hc.st == hc.ed <==> cur == hc.ed
      ensures Keeps(old(next), old(m), next, m, {})
      ensures Extends(old(next), old(m).Values, next, m.Values) && Reach(next, m.Values, hc.st, cur)
      ensures AllReached(next, m.Values, hc.st, |old(pts)|, |pts|)
    {
      hide Pieces, Outlined, Keeps, Extends, Reach, AllReached, Across, Steps;
      AllReachedNone(next, m.Values, hc.st, |pts|);
      LeftUnmoved(hc.st);
      RightUnmoved(hc.ed);
      AcrossMore(pts[hc.st].y, pts[hc.st].x, pts[hc.st].x);
      cur := hc.st;
      KeepsSelf(next, m);
      ExtendsSelf(next, m.Values);
      ReachSelf(next, m.Values, cur);
      while pts[cur].x < pts[hc.ed].x - 1
        invariant Valid() && old(pts) <= pts && LeftMoved(old(m), |old(pts)|, hc.st, cur)
        invariant pts[cur].y == pts[hc.ed].y && pts[cur].x <= pts[hc.ed].x
        invariant old(pts)[hc.st].x <= pts[cur].x <= Larger(old(pts)[hc.st].x, pts[hc.ed].x - 1)
        invariant pts == old(pts) + Across(old(pts)[hc.st].y, old(pts)[hc.st].x, pts[cur].x)
        invariant pts[cur].x == pts[hc.ed].x ==> old(pts)[hc.st] == old(pts)[hc.ed]
        invariant hc.st == hc.ed <==> cur == hc.ed
        invariant Keeps(old(next), old(m), next, m, {})
        invariant Extends(old(next), old(m).Values, next, m.Values) && Reach(next, m.Values, hc.st, cur)
        invariant AllReached(next, m.Values, hc.st, |old(pts)|, |pts|)
        decreases pts[hc.ed].x - pts[cur].x
      {
        ghost var next1, m1, cur1 := next, m, cur;
        AcrossMore(old(pts)[hc.st].y, old(pts)[hc.st].x, pts[cur].x);
        cur := MoveLeft(old(m), |old(pts)|, hc.st, cur, pts[cur].x + 1, pts[cur].y);
        KeepsTransitive(old(next), old(m), next1, m1, next, m, {});
        ExtendsTransitive(old(next), old(m).Values, next1, m1.Values, next, m.Values);
        ReachKept(next1, m1.Values, next, m.Values, hc.st, cur1);
        ReachTransitive(next, m.Values, hc.st, cur1, cur);
        AllReachedKept(next1, m1.Values, next, m.Values, hc.st, |old(pts)|, cur);
        AllReachedOne(next, m.Values, hc.st, |old(pts)|, cur);
      }
    }

    /**
     * close_range: the lower edge of a run with nothing below it. Only the right end itself can drop off the
     * outline, when the left end at the same pixel takes its place. From the left end the links now lead to the right
     * end and on.
     */
    method CloseRange(hc: HalfContour)
      requires Valid() && hc.st in m.Values && hc.ed in m
      requires pts[hc.st].y == pts[hc.ed].y && pts[hc.st].x <= pts[hc.ed].x
      modifies this
      ensures Valid() && old(pts) <= pts && m == Join(old(m), hc.st, hc.ed)
      ensures
        var p := old(pts)[hc.st];
        pts == old(pts) + Across(p.y, p.x, Larger(p.x, old(pts)[hc.ed].x - 1))
      ensures Keeps(old(next), old(m), next, m, if hc.st == hc.ed then {} else {hc.ed})
      ensures Extends(old(next), old(m).Values, next, m.Values)
      ensures Reach(next, m.Values, hc.st, hc.ed) || (old(pts)[hc.st] == old(pts)[hc.ed])
      ensures AllReached(next, m.Values, hc.st, |old(pts)|, |pts|)
      ensures hc.ed < |old(next)| && LedOn(old(next), old(m).Values, next, m.Values, hc.st, old(next)[hc.ed])
    {
      hide Pieces, Outlined, Keeps, Extends, Reach, LedOn, AllReached, Across, Steps;
      LeftUnmoved(hc.st);
      RightUnmoved(hc.ed);
      EndKept(next, m, hc.ed);
      var cur := CloseAlong(hc);
      JoinAfterRename(old(m), hc.st, cur, hc.ed);
      if hc.ed in old(m).Values && hc.ed != hc.st {
        RenameLeftKeeps(old(m), hc.st, cur, hc.ed);
      }
      ghost var next1, m1 := next, m;
      CloseLink(hc, cur, old(pts), old(next), old(m));
      AllReachedKept(next1, m1.Values, next, m.Values, hc.st, |old(pts)|, |pts|);
    }

    /** The link at the end of close_range. */
    method CloseLink(hc: HalfContour, cur: nat, ghost pts0: seq<Pt>, ghost next0: seq<nat>, ghost m0: map<nat, nat>)
      requires Valid() && cur in m.Values && hc.ed in m && pts[cur].y == pts[hc.ed].y && pts0 <= pts
      requires pts[hc.ed].x - 1 <= pts[cur].x <= pts[hc.ed].x && hc.st < |pts0| && hc.ed < |pts0|
      requires pts[cur].x == pts[hc.ed].x ==> pts0[hc.st] == pts0[hc.ed]
      requires hc.st == hc.ed <==> cur == hc.ed
      requires Keeps(next0, m0, next, m, {}) && Extends(next0, m0.Values, next, m.Values)
      requires Reach(next, m.Values, hc.st, cur) && EndOk(next0, m0, hc.ed) && (hc.ed in m0.Values ==> hc.ed in m.Values)
      modifies this`next, this`m
      ensures Valid() && m == Join(old(m), cur, hc.ed)
      ensures Keeps(next0, m0, next, m, if hc.st == hc.ed then {} else {hc.ed})
      ensures Extends(next0, m0.Values, next, m.Values) && Extends(old(next), old(m).Values, next, m.Values)
      ensures Reach(next, m.Values, hc.st, hc.ed) || pts0[hc.st] == pts0[hc.ed]
      ensures hc.ed < |next0| && LedOn(next0, m0.Values, next, m.Values, hc.st, next0[hc.ed])
    {
      hide Pieces, Outlined, Keeps, Extends, Reach, LedOn;
      EndsExist(next, m);
      RightLeads(next, m, hc.ed);
      ghost var next1, m1 := next, m;
      if pts[hc.ed].x == pts[cur].x {
        LinkPast(cur, hc.ed);
        KeepsTransitive(next0, m0, next1, m1, next, m, if hc.st == hc.ed then {} else {hc.ed});
        LinkedOn(next0, m0, next1, m1, next, m, hc, cur, next1[hc.ed]);
      } else {
        LinkTo(cur, hc.ed);
        KeepsLess(next1, m1, next, m, hc.ed);
        KeepsTransitive(next0, m0, next1, m1, next, m, {hc.ed});
        LinkedOn(next0, m0, next1, m1, next, m, hc, cur, hc.ed);
      }
    }
  }

  ghost predicate AllReached(next: seq<nat>, open: set<nat>, s: nat, from: nat, to: nat) {
    forall n: nat | from <= n < to :: Reach(next, open, s, n)
  }

  lemma AllReachedNone(next: seq<nat>, open: set<nat>, s: nat, n: nat)
    ensures AllReached(next, open, s, n, n)
  {
  }

  lemma AllReachedOne(next: seq<nat>, open: set<nat>, s: nat, from: nat, to: nat)
    requires AllReached(next, open, s, from, to) && Reach(next, open, s, to)
    ensures AllReached(next, open, s, from, to + 1)
  {
    hide Reach;
  }

  lemma AllReachedKept(next: seq<nat>, open: set<nat>, next': seq<nat>, open': set<nat>, s: nat, from: nat, to: nat)
    requires AllReached(next, open, s, from, to) && Extends(next, open, next', open')
    ensures AllReached(next', open', s, from, to)
  {
    hide Reach, Extends;
    forall n: nat | from <= n < to
      ensures Reach(next', open', s, n)
    {
      ReachKept(next, open, next', open', s, n);
    }
  }

  /** From a node on a cycle the links lead only to nodes that lead back to it. */
  lemma CycleBack(next: seq<nat>, v: nat, w: nat)
    requires OnCycle(next, {}, v) && Reach(next, {}, v, w)
    ensures Reach(next, {}, w, v)
  {
    var q :| Walk(next, {}, v, q, w);
    CycleBackAlong(next, v, q, w);
  }

  lemma {:induction false} CycleBackAlong(next: seq<nat>, v: nat, q: seq<nat>, w: nat)
    requires OnCycle(next, {}, v) && Walk(next, {}, v, q, w)
    ensures Reach(next, {}, w, v)
    decreases |q|
  {
    if q == [] {
      ReachSelf(next, {}, v);
    } else {
      var u := if |q| == 1 then v else q[|q| - 2];
      WalkFront(next, v, q, w);
      CycleBackAlong(next, v, q[..|q| - 1], u);
      StepBack(next, v, u, w);
    }
  }

  lemma {:induction false} WalkFront(next: seq<nat>, v: nat, q: seq<nat>, w: nat)
    requires q != [] && Walk(next, {}, v, q, w)
    ensures
      var u := if |q| == 1 then v else q[|q| - 2];
      Walk(next, {}, v, q[..|q| - 1], u) && u < |next| && next[u] == w
    decreases |q|
  {
    if |q| > 1 {
      WalkFront(next, q[0], q[1..], w);
      assert q[1..][..|q| - 2] == q[..|q| - 1][1..];
    } else {
      assert q[..0] == [] && q[1..] == [];
    }
  }

  lemma StepBack(next: seq<nat>, v: nat, u: nat, w: nat)
    requires OnCycle(next, {}, v) && Reach(next, {}, u, v) && u < |next| && next[u] == w
    ensures Reach(next, {}, w, v)
  {
    var r :| Walk(next, {}, u, r, v);
    if r == [] {
      var p :| p != [] && Walk(next, {}, v, p, v);
      assert Walk(next, {}, w, p[1..], v);
    } else {
      assert Walk(next, {}, w, r[1..], v);
    }
  }

  /** Whatever `t` led to before, `s` leads to now. */
  ghost predicate LedOn(next: seq<nat>, open: set<nat>, next': seq<nat>, open': set<nat>, s: nat, t: nat) {
    forall w | Reach(next, open, t, w) :: Reach(next', open', s, w)
  }

  /** A right end is not open, or points at itself. */
  ghost predicate EndOk(next: seq<nat>, m: map<nat, nat>, e: nat) {
    e < |next| && (e in m.Values ==> next[e] == e)
  }

  lemma EndKept(next: seq<nat>, m: map<nat, nat>, e: nat)
    requires Pieces(next, m) && e in m
    ensures EndOk(next, m, e)
  {
    RightLeads(next, m, e);
  }

  /** The closing link, to the right end or past it. */
  lemma LinkedOn(next0: seq<nat>, m0: map<nat, nat>, next1: seq<nat>, m1: map<nat, nat>, next: seq<nat>, m: map<nat, nat>,
                 hc: HalfContour, cur: nat, t: nat)
    requires Extends(next0, m0.Values, next1, m1.Values) && Extends(next1, m1.Values, next, m.Values)
    requires Reach(next1, m1.Values, hc.st, cur) && Reach(next, m.Values, cur, t)
    requires EndOk(next0, m0, hc.ed) && hc.ed < |next1| && (t == hc.ed || t == next1[hc.ed])
    requires hc.ed in m0.Values ==> next1[hc.ed] == hc.ed
    ensures Extends(next0, m0.Values, next, m.Values) && Reach(next, m.Values, hc.st, t)
    ensures LedOn(next0, m0.Values, next, m.Values, hc.st, next0[hc.ed])
  {
    ExtendsTransitive(next0, m0.Values, next1, m1.Values, next, m.Values);
    ReachKept(next1, m1.Values, next, m.Values, hc.st, cur);
    ReachTransitive(next, m.Values, hc.st, cur, t);
    forall w | Reach(next0, m0.Values, next0[hc.ed], w)
      ensures Reach(next, m.Values, hc.st, w)
    {
      if hc.ed in m0.Values {
        ReachOpen(next0, m0.Values, hc.ed, w);
      } else {
        ReachKept(next0, m0.Values, next, m.Values, next0[hc.ed], w);
        if t == hc.ed {
          ReachStep(next, m.Values, hc.ed, next0[hc.ed]);
          ReachTransitive(next, m.Values, hc.st, hc.ed, next0[hc.ed]);
        }
        ReachTransitive(next, m.Values, hc.st, next0[hc.ed], w);
      }
    }
  }

  lemma ReachOpen(next: seq<nat>, open: set<nat>, a: nat, b: nat)
    requires Reach(next, open, a, b) && a in open
    ensures a == b
  {
  }

  /** A left end other than the one that is moved stays one. */
  lemma RenameLeftKeeps(m: map<nat, nat>, s: nat, s': nat, e: nat)
    requires e in m.Values && e != s
    ensures e in RenameLeft(m, s, s').Values
  {
    var f :| f in m && m[f] == e;
    assert RenameLeft(m, s, s')[f] == e;
  }

  lemma RenameRightLast(m: map<nat, nat>, e: nat, s: nat, e': nat)
    requires e !in m && e' !in m && e != e'
    ensures e' !in m[e := s] && RenameRight(m[e := s], e, e') == m[e' := s]
  {
    assert RenameRight(m[e := s], e, e').Keys == m[e' := s].Keys;
  }

  lemma RenameLeftLast(m: map<nat, nat>, e: nat, s: nat, s': nat)
    requires e !in m && s !in m.Values
    ensures s in m[e := s].Values && RenameLeft(m[e := s], s, s') == m[e := s']
  {
    assert m[e := s][e] == s;
    forall f | f in m
      ensures m[f] != s
    {
      assert m[f] in m.Values;
    }
  }
}
