/** The row loop that traces a range image into a closed contour (range_img_to_obj in aos/vision/blob/contour.cc). */
module ContourTrace {
  import opened RangeImages
  import opened Contours
  import opened ContourEdges

  ghost function Sts(l: seq<HalfContour>): seq<nat> {
    seq(|l|, k requires 0 <= k < |l| => l[k].st)
  }

  ghost function Eds(l: seq<HalfContour>): seq<nat> {
    seq(|l|, k requires 0 <= k < |l| => l[k].ed)
  }

  /** The left and right ends of the pieces are exactly those listed, each once. */
  ghost predicate Matches(m: map<nat, nat>, sts: seq<nat>, eds: seq<nat>) {
    multiset(sts) == multiset(m.Values) && multiset(eds) == multiset(m.Keys)
  }

  lemma ExchangeInSet(s: set<nat>, x: nat, y: nat)
    requires x in s && y !in s
    ensures multiset(s - {x} + {y}) == multiset(s) - multiset{x} + multiset{y}
  {
  }

  lemma RemoveFromSet(s: set<nat>, x: nat)
    requires x in s
    ensures multiset(s - {x}) == multiset(s) - multiset{x}
  {
  }

  lemma MatchesMoveLeft(m: map<nat, nat>, a: seq<nat>, s: nat, b: seq<nat>, eds: seq<nat>, r: nat)
    requires Matches(m, a + [s] + b, eds) && r !in m.Values
    ensures Matches(RenameLeft(m, s, r), a + [r] + b, eds)
  {
    assert s in a + [s] + b;
    assert s in multiset(m.Values);
    RenameLeftValues(m, s, r);
    ExchangeInSet(m.Values, s, r);
  }

  lemma MatchesMoveRight(m: map<nat, nat>, sts: seq<nat>, a: seq<nat>, e: nat, b: seq<nat>, r: nat)
    requires Matches(m, sts, a + [e] + b) && r !in m
    ensures e in m && Matches(RenameRight(m, e, r), sts, a + [r] + b)
  {
    assert e in a + [e] + b;
    assert e in multiset(m.Keys);
    RenameRightValues(m, e, r);
    ExchangeInSet(m.Keys, e, r);
  }

  lemma MatchesJoin(m: map<nat, nat>, a: seq<nat>, s: nat, b: seq<nat>, c: seq<nat>, e: nat, d: seq<nat>)
    requires Matches(m, a + [s] + b, c + [e] + d) && Injective(m)
    ensures s in m.Values && e in m && Matches(Join(m, s, e), a + b, c + d)
  {
    assert s in a + [s] + b && e in c + [e] + d;
    assert s in multiset(m.Values) && e in multiset(m.Keys);
    JoinValues(m, s, e);
    RemoveFromSet(m.Values, s);
    RemoveFromSet(m.Keys, e);
  }

  lemma AddToSet(s: set<nat>, y: nat)
    requires y !in s
    ensures multiset(s + {y}) == multiset(s) + multiset{y}
  {
  }

  lemma ValuesAdd(m: map<nat, nat>, e: nat, s: nat)
    requires e !in m
    ensures m[e := s].Keys == m.Keys + {e} && m[e := s].Values == m.Values + {s}
  {
    var m' := m[e := s];
    assert m'[e] == s;
    forall v | v in m.Values
      ensures v in m'.Values
    {
      var f :| f in m && m[f] == v;
      assert m'[f] == v;
    }
  }

  lemma MatchesAdd(m: map<nat, nat>, a: seq<nat>, b: seq<nat>, c: seq<nat>, d: seq<nat>, e: nat, s: nat)
    requires Matches(m, a + b, c + d) && e !in m && s !in m.Values
    ensures Matches(m[e := s], a + [s] + b, c + [e] + d)
  {
    ValuesAdd(m, e, s);
    AddToSet(m.Keys, e);
    AddToSet(m.Values, s);
  }

  // ----- where the ends of the pieces are -----

  /** A piece above run `r` of row `y`: it ends at the last column and starts at, or one before, the first. */
  ghost predicate At(pts: seq<Pt>, y: int, r: ImageRange, h: HalfContour) {
    && h.st < |pts| && h.ed < |pts|
    && pts[h.ed] == Pt(r.Last(), y)
    && pts[h.st].y == y && r.st - 1 <= pts[h.st].x <= r.st
  }

  ghost predicate Located(pts: seq<Pt>, y: int, row: Row, l: seq<HalfContour>) {
    |l| <= |row| && forall k | 0 <= k < |l| :: At(pts, y, row[k], l[k])
  }

  lemma LocatedKept(pts: seq<Pt>, pts': seq<Pt>, y: int, row: Row, l: seq<HalfContour>)
    requires Located(pts, y, row, l) && pts <= pts'
    ensures Located(pts', y, row, l)
  {
    forall k | 0 <= k < |l|
      ensures At(pts', y, row[k], l[k])
    {
      assert At(pts, y, row[k], l[k]);
    }
  }

  ghost predicate AtBelow(pts: seq<Pt>, y: int, above: Row, row: Row, k: nat, h: HalfContour)
    requires k < |row|
  {
    && h.st < |pts| && h.ed < |pts|
    && pts[h.ed] == Pt(row[k].Last(), y) && pts[h.st] == Pt(LeftColumn(above, row, k), y)
  }

  /** The ends of the pieces above the first runs of a row, exactly. */
  ghost predicate LocatedBelow(pts: seq<Pt>, y: int, above: Row, row: Row, l: seq<HalfContour>) {
    |l| <= |row| && forall k | 0 <= k < |l| :: AtBelow(pts, y, above, row, k, l[k])
  }

  lemma LocatedBelowKept(pts: seq<Pt>, pts': seq<Pt>, y: int, above: Row, row: Row, l: seq<HalfContour>)
    requires LocatedBelow(pts, y, above, row, l) && pts <= pts'
    ensures LocatedBelow(pts', y, above, row, l)
  {
    hide LeftColumn;
    forall k | 0 <= k < |l|
      ensures AtBelow(pts', y, above, row, k, l[k])
    {
      assert AtBelow(pts, y, above, row, k, l[k]);
    }
  }

  lemma LocatedBelowMore(pts: seq<Pt>, y: int, above: Row, row: Row, l: seq<HalfContour>, h: HalfContour)
    requires LocatedBelow(pts, y, above, row, l) && |l| < |row| && AtBelow(pts, y, above, row, |l|, h)
    ensures LocatedBelow(pts, y, above, row, l + [h])
  {
    hide AtBelow;
  }

  lemma LocatedEither(pts: seq<Pt>, y: int, above: Row, row: Row, l: seq<HalfContour>)
    requires LocatedBelow(pts, y, above, row, l)
    ensures Located(pts, y, row, l)
  {
    forall k | 0 <= k < |l|
      ensures At(pts, y, row[k], l[k])
    {
      assert AtBelow(pts, y, above, row, k, l[k]);
    }
  }

  lemma Listing(l: seq<HalfContour>, k: nat)
    requires k < |l|
    ensures Sts(l[k..]) == [l[k].st] + Sts(l[k + 1..])
    ensures Eds(l[k..]) == [l[k].ed] + Eds(l[k + 1..])
  {
  }

  lemma ListingAppend(l: seq<HalfContour>, h: HalfContour)
    ensures Sts(l + [h]) == Sts(l) + [h.st]
    ensures Eds(l + [h]) == Eds(l) + [h.ed]
  {
  }

  // ----- images that branch only upwards -----

  /** Each piece leads from its own right end to its own left end. */
  ghost predicate Own(m: map<nat, nat>, l: seq<HalfContour>) {
    && (forall k | 0 <= k < |l| :: l[k].ed in m && m[l[k].ed] == l[k].st)
    && (forall j, k | 0 <= j < k < |l| :: l[j].ed != l[k].ed)
  }

  /** The pieces of the current row so far and those left of the row above. */
  function Open(clst: seq<HalfContour>, plst: seq<HalfContour>, mp: nat): seq<HalfContour> {
    clst + if mp <= |plst| then plst[mp..] else []
  }

  function Inner(clst: seq<HalfContour>, ca: nat, pb: nat, plst: seq<HalfContour>, mp: nat): seq<HalfContour> {
    Open(clst + [HalfContour(ca, pb)], plst, mp + 1)
  }

  /** And none has been closed. */
  ghost predicate Tidy(arena: Arena, l: seq<HalfContour>)
    reads arena
  {
    Own(arena.m, l) && arena.Unclosed()
  }

  lemma OwnAdd(m: map<nat, nat>, a: seq<HalfContour>, b: seq<HalfContour>, h: HalfContour)
    requires Own(m, a + b) && h.ed !in m
    ensures Own(m[h.ed := h.st], a + [h] + b)
  {
    var l, l' := a + b, a + [h] + b;
    assert forall k | 0 <= k < |a| :: l'[k] == l[k];
    assert forall k | |a| < k < |l'| :: l'[k] == l[k - 1];
  }

  lemma OwnMoveLeft(m: map<nat, nat>, a: seq<HalfContour>, b: seq<HalfContour>, s: nat, e: nat, r: nat)
    requires Own(m, a + [HalfContour(s, e)] + b) && Injective(m)
    ensures Own(RenameLeft(m, s, r), a + [HalfContour(r, e)] + b)
  {
    var l, l' := a + [HalfContour(s, e)] + b, a + [HalfContour(r, e)] + b;
    assert l[|a|] == HalfContour(s, e);
    assert forall k | 0 <= k < |l| && k != |a| :: l'[k] == l[k];
  }

  lemma OwnMoveRight(m: map<nat, nat>, a: seq<HalfContour>, b: seq<HalfContour>, s: nat, e: nat, r: nat)
    requires Own(m, a + [HalfContour(s, e)] + b) && r !in m
    ensures e in m && Own(RenameRight(m, e, r), a + [HalfContour(s, r)] + b)
  {
    var l, l' := a + [HalfContour(s, e)] + b, a + [HalfContour(s, r)] + b;
    assert l[|a|] == HalfContour(s, e);
    assert forall k | 0 <= k < |l| && k != |a| :: l'[k] == l[k];
  }

  /** Joining two neighbouring pieces. */
  lemma OwnJoin(m: map<nat, nat>, a: seq<HalfContour>, b: seq<HalfContour>, g: HalfContour, h: HalfContour)
    requires Own(m, a + [g] + [h] + b) && Injective(m)
    ensures g.ed in m && m[g.ed] != h.st && Own(Join(m, h.st, g.ed), a + [HalfContour(g.st, h.ed)] + b)
  {
    var l, l' := a + [g] + [h] + b, a + [HalfContour(g.st, h.ed)] + b;
    assert l[|a|] == g && l[|a| + 1] == h;
    assert forall k | 0 <= k < |a| :: l'[k] == l[k];
    assert forall k | |a| < k < |l'| :: l'[k] == l[k + 1];
  }

  /** The run touches some run of the row. */
  ghost predicate GoesOn(r: ImageRange, row: Row) {
    exists k :: 0 <= k < |row| && Touches(r, row[k])
  }

  /** No run above touches two runs below. */
  ghost predicate Unsplit(pr: Row, cr: Row) {
    forall k | 0 <= k < |cr| :: !SplitBefore(pr, cr, k)
  }

  /** Every run above touches exactly one run below. */
  ghost predicate Branches(pr: Row, cr: Row) {
    (forall j | 0 <= j < |pr| :: GoesOn(pr[j], cr)) && Unsplit(pr, cr)
  }

  /** A run above that was passed without touching anything does not go on. */
  lemma NothingBelow(pr: Row, cr: Row, mp: nat, mc: nat)
    requires SortedRow(pr) && SortedRow(cr) && mp < |pr| && mc <= |cr| && Passed(pr, cr, mp, mc)
    requires mc < |cr| ==> pr[mp].Last() < cr[mc].st
    ensures !GoesOn(pr[mp], cr)
  {
    forall k | 0 <= k < |cr|
      ensures !Touches(pr[mp], cr[k])
    {
      if k < mc {
        assert cr[k].Last() <= cr[mc - 1].Last();
      } else {
        assert cr[mc].st <= cr[k].st;
      }
    }
  }

  /** Between two runs: the pieces are those of the current row so far and those left of the row above. */
  ghost predicate RowState(pts: seq<Pt>, m: map<nat, nat>, y: int, pr: Row, cr: Row,
                           plst: seq<HalfContour>, clst: seq<HalfContour>, mp: nat) {
    && |plst| == |pr| && mp <= |pr| && SortedRow(pr) && SortedRow(cr)
    && Located(pts, y, pr, plst) && LocatedBelow(pts, y + 1, pr, cr, clst) && Passed(pr, cr, mp, |clst|)
    && Seen(pts, y, pr, cr, mp, |clst|)
    && Matches(m, Sts(clst) + Sts(plst[mp..]), Eds(clst) + Eds(plst[mp..]))
  }

  /** Inside a group of overlapping runs: one more piece, from `pb` above to `ca` in the current row. */
  ghost predicate InnerState(pts: seq<Pt>, m: map<nat, nat>, y: int, pr: Row, cr: Row,
                             plst: seq<HalfContour>, clst: seq<HalfContour>, mp: nat, ca: nat, pb: nat) {
    && |plst| == |pr| && mp < |pr| && |clst| < |cr| && SortedRow(pr) && SortedRow(cr)
    && Located(pts, y, pr, plst) && LocatedBelow(pts, y + 1, pr, cr, clst) && Touches(pr[mp], cr[|clst|])
    && ca < |pts| && pts[ca] == Pt(LeftColumn(pr, cr, |clst|), y + 1)
    && pb < |pts| && pts[pb] == Pt(pr[mp].Last(), y) && InnerSeen(pts, y, pr, cr, mp, |clst|)
    && Matches(m, Sts(clst) + [ca] + Sts(plst[mp + 1..]), Eds(clst) + [pb] + Eds(plst[mp + 1..]))
  }

  /** A run above with nothing (more) below it is closed. */
  method CloseAbove(arena: Arena, ghost y: int, ghost pr: Row, ghost cr: Row, plst: seq<HalfContour>,
                    ghost clst: seq<HalfContour>, mp: nat)
    requires arena.Valid() && RowState(arena.pts, arena.m, y, pr, cr, plst, clst, mp) && mp < |plst|
    requires |clst| < |cr| ==> pr[mp].Last() < cr[|clst|].st
    modifies arena
    ensures arena.Valid() && RowState(arena.pts, arena.m, y, pr, cr, plst, clst, mp + 1)
    ensures Adds(old(arena.pts), arena.pts, y, pr, cr) && !Branches(pr, cr)
  {
    hide Steps, Pieces, Outlined, Matches, SplitBefore, GoesOn, Across, Seen, Adds;
    NothingBelow(pr, cr, mp, |clst|);
    Listing(plst, mp);
    assert At(arena.pts, y, pr[mp], plst[mp]);
    CloseSeen(arena.pts, y, pr, cr, mp, |clst|, arena.pts[plst[mp].st].x);
    CloseOne(arena, y, pr[mp], plst[mp], Sts(clst), Sts(plst[mp + 1..]), Eds(clst), Eds(plst[mp + 1..]));
    LocatedKept(old(arena.pts), arena.pts, y, pr, plst);
    LocatedBelowKept(old(arena.pts), arena.pts, y + 1, pr, cr, clst);
  }

  method CloseOne(arena: Arena, ghost y: int, ghost r: ImageRange, h: HalfContour,
                  ghost a: seq<nat>, ghost b: seq<nat>, ghost c: seq<nat>, ghost d: seq<nat>)
    requires arena.Valid() && At(arena.pts, y, r, h) && r.st < r.ed
    requires Matches(arena.m, a + ([h.st] + b), c + ([h.ed] + d))
    modifies arena
    ensures arena.Valid() && old(arena.pts) <= arena.pts && Matches(arena.m, a + b, c + d)
    ensures
      var x := old(arena.pts)[h.st].x;
      arena.pts == old(arena.pts) + Across(y, x, Larger(x, r.Last() - 1))
    ensures Keeps(old(arena.next), old(arena.m), arena.next, arena.m, if h.st == h.ed then {} else {h.ed})
    ensures Extends(old(arena.next), old(arena.m).Values, arena.next, arena.m.Values)
    ensures Reach(arena.next, arena.m.Values, h.st, h.ed) || old(arena.pts)[h.st] == old(arena.pts)[h.ed]
    ensures AllReached(arena.next, arena.m.Values, h.st, |old(arena.pts)|, |arena.pts|)
    ensures h.ed < |old(arena.next)|
    ensures LedOn(old(arena.next), old(arena.m).Values, arena.next, arena.m.Values, h.st, old(arena.next)[h.ed])
  {
    hide Steps, Outlined, Keeps, Extends, Reach, AllReached, LedOn;
    assert a + ([h.st] + b) == a + [h.st] + b && c + ([h.ed] + d) == c + [h.ed] + d;
    MatchesJoin(arena.m, a, h.st, b, c, h.ed, d);
    arena.CloseRange(h);
  }

  /** A run of the current row with nothing above it opens a piece of its own. */
  method OpenRun(arena: Arena, y: int, ghost pr: Row, cr: Row, ghost plst: seq<HalfContour>,
                 clst: seq<HalfContour>, ghost mp: nat)
    returns (out: seq<HalfContour>)
    requires arena.Valid() && RowState(arena.pts, arena.m, y, pr, cr, plst, clst, mp) && |clst| < |cr|
    requires mp < |pr| ==> cr[|clst|].Last() < pr[mp].st
    modifies arena
    ensures arena.Valid() && RowState(arena.pts, arena.m, y, pr, cr, plst, out, mp) && |out| == |clst| + 1
    ensures Adds(old(arena.pts), arena.pts, y, pr, cr)
    ensures old(Tidy(arena, Open(clst, plst, mp))) ==> Tidy(arena, Open(out, plst, mp))
  {
    hide Steps, Pieces, Outlined, Matches, SplitBefore, Own, Stretch, Seen, Adds;
    NoSplit(pr, cr, mp, |clst|);
    OpenSeen(arena.pts, y, pr, cr, mp, |clst|);
    var hc := OpenOne(arena, y + 1, cr[|clst|], Sts(clst), Sts(plst[mp..]), Eds(clst), Eds(plst[mp..]));
    out := clst + [hc];
    if old(Tidy(arena, Open(clst, plst, mp))) {
      OwnAdd(old(arena.m), clst, plst[mp..], hc);
    }
    ListingAppend(clst, hc);
    LocatedKept(old(arena.pts), arena.pts, y, pr, plst);
    LocatedBelowKept(old(arena.pts), arena.pts, y + 1, pr, cr, clst);
    LocatedBelowMore(arena.pts, y + 1, pr, cr, clst, hc);
  }

  method OpenOne(arena: Arena, y: int, r: ImageRange, ghost a: seq<nat>, ghost b: seq<nat>, ghost c: seq<nat>, ghost d: seq<nat>)
    returns (hc: HalfContour)
    requires arena.Valid() && r.st < r.ed && Matches(arena.m, a + b, c + d)
    modifies arena
    ensures arena.Valid() && old(arena.pts) <= arena.pts && (old(arena.Unclosed()) ==> arena.Unclosed())
    ensures hc.st < |arena.pts| && hc.ed < |arena.pts| && arena.pts[hc.st] == Pt(r.st, y) && arena.pts[hc.ed] == Pt(r.Last(), y)
    ensures Matches(arena.m, a + [hc.st] + b, c + [hc.ed] + d)
    ensures hc.ed !in old(arena.m) && arena.m == old(arena.m)[hc.ed := hc.st]
    ensures arena.pts == old(arena.pts) + Stretch(y, r.st, r.Last())
  {
    hide Stretch;
    hc := arena.FwdRange(y, r.st, r.ed);
    MatchesAdd(old(arena.m), a, b, c, d, hc.ed, hc.st);
  }

  /** The first overlap of a group: the left end of the piece above moves down to the current run. */
  method StartGroup(arena: Arena, ghost y: int, ghost pr: Row, cr: Row, plst: seq<HalfContour>,
                    ghost clst: seq<HalfContour>, mp: nat, rcur: ImageRange)
    returns (ca: nat, pb: nat)
    requires arena.Valid() && RowState(arena.pts, arena.m, y, pr, cr, plst, clst, mp)
    requires mp < |plst| && |clst| < |cr| && rcur == cr[|clst|] && Touches(pr[mp], rcur)
    modifies arena
    ensures arena.Valid() && InnerState(arena.pts, arena.m, y, pr, cr, plst, clst, mp, ca, pb)
    ensures Adds(old(arena.pts), arena.pts, y, pr, cr)
    ensures old(Tidy(arena, Open(clst, plst, mp))) ==> Tidy(arena, Inner(clst, ca, pb, plst, mp))
  {
    hide Steps, Pieces, Outlined, Matches, SplitBefore, Own, DownTo, Seen, InnerSeen, Adds;
    NoSplit(pr, cr, mp, |clst|);
    assert At(arena.pts, y, pr[mp], plst[mp]);
    StartSeen(arena.pts, y, pr, cr, mp, |clst|, arena.pts[plst[mp].st].x);
    pb := plst[mp].ed;
    Listing(plst, mp);
    ghost var a, b := Sts(clst), Sts(plst[mp + 1..]);
    ghost var c, d := Eds(clst), Eds(plst[mp + 1..]);
    assert a + ([plst[mp].st] + b) == a + [plst[mp].st] + b && c + ([pb] + d) == c + [pb] + d;
    ca := MoveDownLeft(arena, plst[mp].st, rcur.st, a, b, c + [pb] + d);
    if old(Tidy(arena, Open(clst, plst, mp))) {
      assert Open(clst, plst, mp) == clst + [HalfContour(plst[mp].st, pb)] + plst[mp + 1..];
      OwnMoveLeft(old(arena.m), clst, plst[mp + 1..], plst[mp].st, pb, ca);
    }
    LocatedKept(old(arena.pts), arena.pts, y, pr, plst);
    LocatedBelowKept(old(arena.pts), arena.pts, y + 1, pr, cr, clst);
  }

  method MoveDownLeft(arena: Arena, s: nat, x: int, ghost a: seq<nat>, ghost b: seq<nat>, ghost eds: seq<nat>)
    returns (r: nat)
    requires arena.Valid() && s < |arena.pts| && Matches(arena.m, a + [s] + b, eds)
    modifies arena
    ensures arena.Valid() && old(arena.pts) <= arena.pts && r < |arena.pts| && (old(arena.Unclosed()) ==> arena.Unclosed())
    ensures arena.pts[r] == Pt(x, old(arena.pts)[s].y + 1)
    ensures arena.pts == old(arena.pts) + DownTo(old(arena.pts)[s], Larger(old(arena.pts)[s].x, x), x)
    ensures Matches(arena.m, a + [r] + b, eds) && arena.m == RenameLeft(old(arena.m), s, r) && Injective(old(arena.m))
  {
    hide Steps, Outlined, DownTo;
    assert s in a + [s] + b;
    assert s in multiset(arena.m.Values);
    r := arena.ExtendStart(s, x);
    MatchesMoveLeft(old(arena.m), a, s, b, eds, r);
  }

  method MoveDownRight(arena: Arena, e: nat, x: int, ghost sts: seq<nat>, ghost c: seq<nat>, ghost d: seq<nat>)
    returns (r: nat)
    requires arena.Valid() && e < |arena.pts| && Matches(arena.m, sts, c + [e] + d)
    modifies arena
    ensures arena.Valid() && old(arena.pts) <= arena.pts && r < |arena.pts| && (old(arena.Unclosed()) ==> arena.Unclosed())
    ensures arena.pts[r] == Pt(x, old(arena.pts)[e].y + 1)
    ensures arena.pts == old(arena.pts) + DownTo(old(arena.pts)[e], Smaller(old(arena.pts)[e].x, x), x)
    ensures Matches(arena.m, sts, c + [r] + d)
    ensures e in old(arena.m) && r !in old(arena.m) && arena.m == RenameRight(old(arena.m), e, r)
  {
    hide Steps, Outlined, DownTo;
    assert e in c + [e] + d;
    assert e in multiset(arena.m.Keys);
    r := arena.ExtendEnd(e, x);
    MatchesMoveRight(old(arena.m), sts, c, e, d, r);
  }

  /** The current run also touches the next run above: the gap between the two runs above is capped. */
  method CapNext(arena: Arena, ghost y: int, ghost pr: Row, ghost cr: Row, plst: seq<HalfContour>,
                 ghost clst: seq<HalfContour>, mp: nat, ghost ca: nat, pb: nat)
    returns (pb': nat)
    requires arena.Valid() && InnerState(arena.pts, arena.m, y, pr, cr, plst, clst, mp, ca, pb) && mp + 1 < |plst|
    requires cr[|clst|].Last() >= pr[mp + 1].st
    modifies arena
    ensures arena.Valid() && InnerState(arena.pts, arena.m, y, pr, cr, plst, clst, mp + 1, ca, pb')
    ensures Adds(old(arena.pts), arena.pts, y, pr, cr)
    ensures old(Tidy(arena, Inner(clst, ca, pb, plst, mp))) ==>
      Tidy(arena, Inner(clst, ca, pb', plst, mp + 1))
  {
    hide Steps, Pieces, Outlined, Matches, SplitBefore, Own, Stretch, InnerSeen, Adds;
    var h := plst[mp + 1];
    assert At(arena.pts, y, pr[mp + 1], h);
    CapSeen(arena.pts, y, pr, cr, mp, |clst|, arena.pts[h.st].x);
    Listing(plst, mp + 1);
    ghost var a, b := Sts(clst) + [ca], Sts(plst[mp + 2..]);
    ghost var c, d := Eds(clst), [h.ed] + Eds(plst[mp + 2..]);
    assert Sts(clst) + [ca] + Sts(plst[mp + 1..]) == a + [h.st] + b;
    ghost var tidy := Tidy(arena, Inner(clst, ca, pb, plst, mp));
    if tidy {
      assert Inner(clst, ca, pb, plst, mp) == clst + [HalfContour(ca, pb)] + [h] + plst[mp + 2..];
      OneToOne(arena);
      OwnJoin(arena.m, clst, plst[mp + 2..], HalfContour(ca, pb), h);
    }
    CapOne(arena, pb, h.st, a, b, c, d);
    assert c + d == Eds(clst) + [h.ed] + Eds(plst[mp + 2..]);
    pb' := h.ed;
    LocatedKept(old(arena.pts), arena.pts, y, pr, plst);
    LocatedBelowKept(old(arena.pts), arena.pts, y + 1, pr, cr, clst);
  }

  lemma OneToOne(arena: Arena)
    requires arena.Valid()
    ensures Injective(arena.m)
  {
  }

  method CapOne(arena: Arena, pb: nat, st: nat, ghost a: seq<nat>, ghost b: seq<nat>, ghost c: seq<nat>, ghost d: seq<nat>)
    requires arena.Valid() && pb < |arena.pts| && st < |arena.pts|
    requires arena.pts[pb].x <= arena.pts[st].x && arena.pts[pb].y == arena.pts[st].y
    requires Matches(arena.m, a + [st] + b, c + [pb] + d)
    modifies arena
    ensures arena.Valid() && old(arena.pts) <= arena.pts && Matches(arena.m, a + b, c + d)
    ensures pb in old(arena.m) && arena.m == Join(old(arena.m), st, pb)
    ensures arena.pts == old(arena.pts) + Stretch(old(arena.pts)[st].y + 1, old(arena.pts)[st].x, old(arena.pts)[pb].x)
    ensures old(arena.Unclosed()) && old(arena.m)[pb] != st ==> arena.Unclosed()
  {
    hide Steps, Outlined, Stretch;
    MatchesJoin(arena.m, a, st, b, c, pb, d);
    arena.CapRange(pb, st);
  }

  /** The run above also touches the next current run: the gap between the two current runs is a cavity. */
  method SplitBelow(arena: Arena, y: int, ghost pr: Row, cr: Row, ghost plst: seq<HalfContour>,
                    clst: seq<HalfContour>, ghost mp: nat, ca: nat, ghost pb: nat)
    returns (out: seq<HalfContour>, ca': nat)
    requires arena.Valid() && InnerState(arena.pts, arena.m, y, pr, cr, plst, clst, mp, ca, pb) && |clst| + 1 < |cr|
    requires pr[mp].Last() >= cr[|clst| + 1].st
    modifies arena
    ensures arena.Valid() && InnerState(arena.pts, arena.m, y, pr, cr, plst, out, mp, ca', pb) && |out| == |clst| + 1
    ensures Adds(old(arena.pts), arena.pts, y, pr, cr) && !Branches(pr, cr)
  {
    hide Steps, Pieces, Outlined, Matches, SplitBefore, Stretch, InnerSeen, Adds;
    Splits(pr, cr, mp, |clst|);
    SplitSeen(arena.pts, y, pr, cr, mp, |clst|);
    ghost var a, b := Sts(clst) + [ca], Sts(plst[mp + 1..]);
    ghost var c, d := Eds(clst), [pb] + Eds(plst[mp + 1..]);
    assert c + d == Eds(clst) + [pb] + Eds(plst[mp + 1..]);
    var rcur, rnext := cr[|clst|], cr[|clst| + 1];
    var cav := CavityOne(arena, y + 1, rcur.Last(), rnext.st, a, b, c, d);
    out, ca' := clst + [HalfContour(ca, cav.st)], cav.ed;
    ListingAppend(clst, HalfContour(ca, cav.st));
    assert c + [cav.st] + d == Eds(out) + [pb] + Eds(plst[mp + 1..]);
    LocatedKept(old(arena.pts), arena.pts, y, pr, plst);
    LocatedBelowKept(old(arena.pts), arena.pts, y + 1, pr, cr, clst);
    LocatedBelowMore(arena.pts, y + 1, pr, cr, clst, HalfContour(ca, cav.st));
  }

  method CavityOne(arena: Arena, y: int, sti: int, edi: int, ghost a: seq<nat>, ghost b: seq<nat>, ghost c: seq<nat>, ghost d: seq<nat>)
    returns (cav: HalfContour)
    requires arena.Valid() && sti < edi && Matches(arena.m, a + b, c + d)
    modifies arena
    ensures arena.Valid() && old(arena.pts) <= arena.pts && cav.st < |arena.pts| && cav.ed < |arena.pts|
    ensures arena.pts[cav.st] == Pt(sti, y) && arena.pts[cav.ed] == Pt(edi - 1, y)
    ensures Matches(arena.m, a + [cav.ed] + b, c + [cav.st] + d)
    ensures arena.pts == old(arena.pts) + Stretch(y, sti, edi - 1)
  {
    hide Stretch;
    cav := arena.MakeCavity(y, sti, edi);
    MatchesAdd(old(arena.m), a, b, c, d, cav.st, cav.ed);
  }

  /** The last overlap of a group: the right end moves down to the last column of the current run. */
  method FinishGroup(arena: Arena, ghost y: int, ghost pr: Row, cr: Row, ghost plst: seq<HalfContour>,
                     clst: seq<HalfContour>, ghost mp: nat, ca: nat, pb: nat)
    returns (out: seq<HalfContour>)
    requires arena.Valid() && InnerState(arena.pts, arena.m, y, pr, cr, plst, clst, mp, ca, pb)
    requires mp + 1 < |pr| ==> cr[|clst|].Last() < pr[mp + 1].st
    requires |clst| + 1 < |cr| ==> pr[mp].Last() < cr[|clst| + 1].st
    modifies arena
    ensures arena.Valid() && RowState(arena.pts, arena.m, y, pr, cr, plst, out, mp + 1) && |out| == |clst| + 1
    ensures Adds(old(arena.pts), arena.pts, y, pr, cr)
    ensures old(Tidy(arena, Inner(clst, ca, pb, plst, mp))) ==> Tidy(arena, Open(out, plst, mp + 1))
  {
    hide Steps, Pieces, Outlined, Matches, SplitBefore, Own, DownTo, Seen, InnerSeen, Adds;
    FinishSeen(arena.pts, y, pr, cr, mp, |clst|);
    ghost var sts := Sts(clst) + [ca] + Sts(plst[mp + 1..]);
    var e := MoveDownRight(arena, pb, cr[|clst|].Last(), sts, Eds(clst), Eds(plst[mp + 1..]));
    out := clst + [HalfContour(ca, e)];
    if old(Tidy(arena, Inner(clst, ca, pb, plst, mp))) {
      OwnMoveRight(old(arena.m), clst, plst[mp + 1..], ca, pb, e);
    }
    ListingAppend(clst, HalfContour(ca, e));
    LocatedKept(old(arena.pts), arena.pts, y, pr, plst);
    LocatedBelowKept(old(arena.pts), arena.pts, y + 1, pr, cr, clst);
    LocatedBelowMore(arena.pts, y + 1, pr, cr, clst, HalfContour(ca, e));
  }

  /** The inner loop over one group of mutually overlapping runs. */
  method TraceGroup(arena: Arena, y: int, pr: Row, cr: Row, plst: seq<HalfContour>, clst: seq<HalfContour>, mp0: nat)
    returns (out: seq<HalfContour>, mp: nat)
    requires arena.Valid() && RowState(arena.pts, arena.m, y, pr, cr, plst, clst, mp0)
    requires mp0 < |pr| && |clst| < |cr| && Touches(pr[mp0], cr[|clst|])
    modifies arena
    ensures arena.Valid() && RowState(arena.pts, arena.m, y, pr, cr, plst, out, mp)
    ensures mp0 < mp <= |pr| == |plst| && |clst| < |out| <= |cr| && Adds(old(arena.pts), arena.pts, y, pr, cr)
    ensures Branches(pr, cr) && old(Tidy(arena, Open(clst, plst, mp0))) ==> Tidy(arena, Open(out, plst, mp))
  {
    hide Steps, Pieces, Outlined, Matches, Located, LocatedBelow, SplitBefore, Own, Branches, Seen, InnerSeen, Adds;
    ghost var tidy := Branches(pr, cr) && Tidy(arena, Open(clst, plst, mp0));
    out, mp := clst, mp0;
    var ca, pb := StartGroup(arena, y, pr, cr, plst, clst, mp, cr[|clst|]);
    while true
      invariant arena.Valid() && InnerState(arena.pts, arena.m, y, pr, cr, plst, out, mp, ca, pb)
      invariant mp0 <= mp < |pr| == |plst| && |clst| <= |out| < |cr| && Adds(old(arena.pts), arena.pts, y, pr, cr)
      invariant tidy ==> Branches(pr, cr) && Tidy(arena, Inner(out, ca, pb, plst, mp))
      decreases |pr| - mp + |cr| - |out|
    {
      ghost var before := arena.pts;
      if mp + 1 < |pr| && cr[|out|].Last() >= pr[mp + 1].st {
        pb := CapNext(arena, y, pr, cr, plst, out, mp, ca, pb);
        mp := mp + 1;
      } else if |out| + 1 < |cr| && pr[mp].Last() >= cr[|out| + 1].st {
        out, ca := SplitBelow(arena, y, pr, cr, plst, out, mp, ca, pb);
      } else {
        out := FinishGroup(arena, y, pr, cr, plst, out, mp, ca, pb);
        mp := mp + 1;
        AddsMore(old(arena.pts), before, arena.pts, y, pr, cr);
        break;
      }
      AddsMore(old(arena.pts), before, arena.pts, y, pr, cr);
    }
  }

  /** The loop over two neighbouring rows. */
  method TraceRow(arena: Arena, y: int, pr: Row, cr: Row, plst: seq<HalfContour>) returns (clst: seq<HalfContour>)
    requires arena.Valid() && RowState(arena.pts, arena.m, y, pr, cr, plst, [], 0)
    modifies arena
    ensures arena.Valid() && RowState(arena.pts, arena.m, y, pr, cr, plst, clst, |pr|) && |clst| == |cr|
    ensures Adds(old(arena.pts), arena.pts, y, pr, cr)
    ensures Branches(pr, cr) && old(Tidy(arena, plst)) ==> Tidy(arena, clst)
  {
    hide Steps, Pieces, Outlined, Matches, Located, LocatedBelow, SplitBefore, Own, Branches, Seen, InnerSeen, Adds;
    ghost var tidy := Branches(pr, cr) && Tidy(arena, plst);
    AddsNothing(arena.pts, y, pr, cr);
    var mp := 0;
    clst := [];
    assert Open(clst, plst, mp) == plst;
    while mp < |pr| && |clst| < |cr|
      invariant arena.Valid() && RowState(arena.pts, arena.m, y, pr, cr, plst, clst, mp)
      invariant mp <= |pr| == |plst| && |clst| <= |cr| && Adds(old(arena.pts), arena.pts, y, pr, cr)
      invariant tidy ==> Branches(pr, cr) && Tidy(arena, Open(clst, plst, mp))
      decreases |pr| - mp + |cr| - |clst|
    {
      ghost var before := arena.pts;
      if cr[|clst|].Last() < pr[mp].st {
        clst := OpenRun(arena, y, pr, cr, plst, clst, mp);
      } else if pr[mp].Last() < cr[|clst|].st {
        CloseAbove(arena, y, pr, cr, plst, clst, mp);
        mp := mp + 1;
      } else {
        clst, mp := TraceGroup(arena, y, pr, cr, plst, clst, mp);
      }
      AddsMore(old(arena.pts), before, arena.pts, y, pr, cr);
    }
    while |clst| < |cr|
      invariant arena.Valid() && RowState(arena.pts, arena.m, y, pr, cr, plst, clst, mp)
      invariant mp <= |pr| == |plst| && |clst| <= |cr| && (mp < |pr| ==> |clst| == |cr|)
      invariant Adds(old(arena.pts), arena.pts, y, pr, cr)
      invariant tidy ==> Branches(pr, cr) && Tidy(arena, Open(clst, plst, mp))
    {
      ghost var before := arena.pts;
      clst := OpenRun(arena, y, pr, cr, plst, clst, mp);
      AddsMore(old(arena.pts), before, arena.pts, y, pr, cr);
    }
    while mp < |pr|
      invariant arena.Valid() && RowState(arena.pts, arena.m, y, pr, cr, plst, clst, mp)
      invariant mp <= |pr| == |plst| && |clst| == |cr| && Adds(old(arena.pts), arena.pts, y, pr, cr)
      invariant tidy ==> Branches(pr, cr) && Tidy(arena, Open(clst, plst, mp))
    {
      ghost var before := arena.pts;
      CloseAbove(arena, y, pr, cr, plst, clst, mp);
      mp := mp + 1;
      AddsMore(old(arena.pts), before, arena.pts, y, pr, cr);
    }
    assert Open(clst, plst, mp) == clst;
  }

  /** After row `y`: one piece above every run of the row, and no other. */
  ghost predicate RowTraced(pts: seq<Pt>, m: map<nat, nat>, y: int, above: Row, row: Row, lst: seq<HalfContour>) {
    && |lst| == |row| && LocatedBelow(pts, y, above, row, lst) && Matches(m, Sts(lst), Eds(lst))
    && RowTop(pts, y, above, row)
  }

  lemma RowBegin(pts: seq<Pt>, m: map<nat, nat>, y: int, above: Row, pr: Row, cr: Row, plst: seq<HalfContour>)
    requires RowTraced(pts, m, y, above, pr, plst) && SortedRow(pr) && SortedRow(cr)
    ensures RowState(pts, m, y, pr, cr, plst, [], 0)
  {
    NothingSeen(pts, y, pr, cr);
    LocatedEither(pts, y, above, pr, plst);
    assert plst[0..] == plst;
    assert Sts([]) + Sts(plst[0..]) == Sts(plst) && Eds([]) + Eds(plst[0..]) == Eds(plst);
  }

  lemma RowEnd(pts: seq<Pt>, m: map<nat, nat>, y: int, pr: Row, cr: Row, plst: seq<HalfContour>, clst: seq<HalfContour>)
    requires RowState(pts, m, y, pr, cr, plst, clst, |pr|) && |clst| == |cr|
    ensures RowTraced(pts, m, y + 1, pr, cr, clst) && RowBottom(pts, y, pr, cr)
  {
    TopDone(pts, y, pr, cr, |pr|);
    BottomDone(pts, y, pr, cr, |cr|);
    hide Seen, RowTop, RowBottom;
    assert Sts(clst) + Sts(plst[|pr|..]) == Sts(clst) && Eds(clst) + Eds(plst[|pr|..]) == Eds(clst);
  }

  // ----- closing the last row -----

  /** From `v` the links lead to a node at the pixel. */
  ghost predicate LeadsToPixel(pts: seq<Pt>, next: seq<nat>, open: set<nat>, v: nat, p: Pt) {
    exists w: nat :: w < |pts| && pts[w] == p && Reach(next, open, v, w)
  }

  lemma LeadsToPixelKept(pts: seq<Pt>, next: seq<nat>, open: set<nat>, pts': seq<Pt>, next': seq<nat>, open': set<nat>, v: nat, p: Pt)
    requires LeadsToPixel(pts, next, open, v, p) && pts <= pts' && Extends(next, open, next', open')
    ensures LeadsToPixel(pts', next', open', v, p)
  {
    hide Reach;
    var w: nat :| w < |pts| && pts[w] == p && Reach(next, open, v, w);
    ReachKept(next, open, next', open', v, w);
  }

  lemma LeadsToPixelAt(pts: seq<Pt>, next: seq<nat>, open: set<nat>, v: nat, w: nat)
    requires w < |pts| && Reach(next, open, v, w)
    ensures LeadsToPixel(pts, next, open, v, pts[w])
  {
  }

  /**
   * The loop that closes the pieces of the last row. The left end of the first one ends up on a cycle, which goes
   * through the right end too; if there is only that piece, through every pixel.
   */
  method CloseLastRow(arena: Arena, ghost y: int, ghost above: Row, ghost row: Row, plst: seq<HalfContour>)
    requires arena.Valid() && RowTraced(arena.pts, arena.m, y, above, row, plst) && SortedRow(row) && plst != []
    modifies arena
    ensures arena.Valid() && arena.m == map[] && RowBottom(arena.pts, y, row, [])
    ensures Adds(old(arena.pts), arena.pts, y, row, [])
    ensures OnCycle(arena.next, {}, plst[0].st)
    ensures LeadsToPixel(arena.pts, arena.next, {}, plst[0].st, Pt(row[0].Last(), y))
    ensures |plst| == 1 && old(arena.Unclosed()) ==>
      forall p | p in arena.pts :: LeadsToPixel(arena.pts, arena.next, {}, plst[0].st, p)
  {
    hide Steps, Pieces, Outlined, Matches, Located, LocatedBelow, OnCycle, OnOutline, LeadsToPixel, SplitBefore, Seen, Adds,
         RowTop, RowBottom;
    NothingSeen(arena.pts, y, row, []);
    assert plst[0..] == plst;
    LocatedEither(arena.pts, y, above, row, plst);
    FirstIsOutlined(arena.next, arena.m, plst);
    CloseFirst(arena, y, row, plst);
    var mp := 1;
    while mp < |plst|
      invariant 1 <= mp <= |plst|
      invariant arena.Valid() && Located(arena.pts, y, row, plst)
      invariant Seen(arena.pts, y, row, [], mp, 0) && Adds(old(arena.pts), arena.pts, y, row, [])
      invariant Matches(arena.m, Sts(plst[mp..]), Eds(plst[mp..]))
      invariant OnOutline(arena.next, arena.m, true, plst[0].st)
      invariant LeadsToPixel(arena.pts, arena.next, arena.m.Values, plst[0].st, Pt(row[0].Last(), y))
      invariant |plst| == 1 && old(arena.Unclosed()) ==>
        forall p | p in arena.pts :: LeadsToPixel(arena.pts, arena.next, arena.m.Values, plst[0].st, p)
    {
      ghost var before := arena.pts;
      CloseLast(arena, y, row, plst, mp);
      AddsMore(old(arena.pts), before, arena.pts, y, row, []);
      mp := mp + 1;
    }
    BottomDone(arena.pts, y, row, [], 0);
    assert Sts(plst[mp..]) == [] && Eds(plst[mp..]) == [];
    NothingLeft(arena.next, arena.m, plst[0].st);
  }

  lemma FirstIsOutlined(next: seq<nat>, m: map<nat, nat>, plst: seq<HalfContour>)
    requires Pieces(next, m) && Matches(m, Sts(plst), Eds(plst)) && plst != []
    ensures OnOutline(next, m, true, plst[0].st)
  {
    assert Sts(plst)[0] in Sts(plst);
    assert plst[0].st in multiset(m.Values);
    LastOutlined(next, m, true, plst[0].st);
  }

  lemma NothingLeft(next: seq<nat>, m: map<nat, nat>, v: nat)
    requires Matches(m, [], []) && OnOutline(next, m, true, v)
    ensures m == map[] && m.Values == {} && OnCycle(next, {}, v)
  {
    assert forall e :: e in m.Keys ==> e in multiset(m.Keys);
    assert m.Keys == {};
    assert m == map[] && m.Values == {};
    assert forall j :: !OnPiece(next, m, j, v);
  }

  /** The first turn of the loop. */
  method CloseFirst(arena: Arena, ghost y: int, ghost row: Row, plst: seq<HalfContour>)
    requires arena.Valid() && Located(arena.pts, y, row, plst) && SortedRow(row) && plst != []
    requires Matches(arena.m, Sts(plst), Eds(plst)) && OnOutline(arena.next, arena.m, true, plst[0].st)
    requires Seen(arena.pts, y, row, [], 0, 0)
    modifies arena
    ensures arena.Valid() && Located(arena.pts, y, row, plst)
    ensures Seen(arena.pts, y, row, [], 1, 0) && Adds(old(arena.pts), arena.pts, y, row, [])
    ensures Matches(arena.m, Sts(plst[1..]), Eds(plst[1..]))
    ensures OnOutline(arena.next, arena.m, true, plst[0].st)
    ensures LeadsToPixel(arena.pts, arena.next, arena.m.Values, plst[0].st, Pt(row[0].Last(), y))
    ensures |plst| == 1 && old(arena.Unclosed()) ==>
      forall p | p in arena.pts :: LeadsToPixel(arena.pts, arena.next, arena.m.Values, plst[0].st, p)
  {
    hide Steps, Pieces, Outlined, Matches, OnOutline, Keeps, Extends, Reach, AllReached, LedOn, LeadsToPixel, Across, Seen, Adds;
    var h := plst[0];
    Listing(plst, 0);
    assert plst[0..] == plst;
    assert At(arena.pts, y, row[0], h);
    CloseSeen(arena.pts, y, row, [], 0, 0, arena.pts[h.st].x);
    ghost var b, d := Sts(plst[1..]), Eds(plst[1..]);
    assert [] + ([h.st] + b) == Sts(plst) && [] + ([h.ed] + d) == Eds(plst) && [] + b == b && [] + d == d;
    CloseOne(arena, y, row[0], h, [], b, [], d);
    LocatedKept(old(arena.pts), arena.pts, y, row, plst);
    KeepsOne(old(arena.next), old(arena.m), arena.next, arena.m, h);
    EndReached(old(arena.pts), arena.pts, arena.next, arena.m.Values, h);
    if |plst| == 1 && old(arena.Unclosed()) {
      OnlyPiece(old(arena.pts), old(arena.next), old(arena.m), arena.pts, arena.next, arena.m, plst);
    }
  }

  lemma KeepsOne(next: seq<nat>, m: map<nat, nat>, next': seq<nat>, m': map<nat, nat>, h: HalfContour)
    requires Keeps(next, m, next', m', if h.st == h.ed then {} else {h.ed}) && OnOutline(next, m, true, h.st)
    ensures OnOutline(next', m', true, h.st)
  {
    hide OnOutline;
  }

  lemma EndReached(pts: seq<Pt>, pts': seq<Pt>, next': seq<nat>, open': set<nat>, h: HalfContour)
    requires pts <= pts' && h.st < |pts| && h.ed < |pts|
    requires Reach(next', open', h.st, h.ed) || pts[h.st] == pts[h.ed]
    ensures LeadsToPixel(pts', next', open', h.st, pts[h.ed])
  {
    if pts[h.st] == pts[h.ed] {
      ReachSelf(next', open', h.st);
      LeadsToPixelAt(pts', next', open', h.st, h.st);
    } else {
      LeadsToPixelAt(pts', next', open', h.st, h.ed);
    }
  }

  /** If the piece that is closed was the only one, and no cycle had been closed, everything is on the cycle. */
  lemma OnlyPiece(pts: seq<Pt>, next: seq<nat>, m: map<nat, nat>, pts': seq<Pt>, next': seq<nat>, m': map<nat, nat>,
                  plst: seq<HalfContour>)
    requires |plst| == 1 && Matches(m, Sts(plst), Eds(plst)) && Outlined(pts, next, m, false) && pts <= pts'
    requires plst[0].st < |pts| && plst[0].ed < |pts| && plst[0].ed < |next|
    requires LeadsToPixel(pts', next', m'.Values, plst[0].st, pts[plst[0].ed])
    requires AllReached(next', m'.Values, plst[0].st, |pts|, |pts'|)
    requires LedOn(next, m.Values, next', m'.Values, plst[0].st, next[plst[0].ed])
    ensures forall p | p in pts' :: LeadsToPixel(pts', next', m'.Values, plst[0].st, p)
  {
    hide Reach, LeadsToPixel;
    var h := plst[0];
    OnlyKey(m, plst);
    forall p | p in pts'
      ensures LeadsToPixel(pts', next', m'.Values, h.st, p)
    {
      var i: nat :| i < |pts'| && pts'[i] == p;
      if i >= |pts| {
        LeadsToPixelAt(pts', next', m'.Values, h.st, i);
      } else {
        assert PixelOutlined(pts, next, m, false, pts[i]);
        var w: nat :| w < |pts| && pts[w] == pts[i] && OnOutline(next, m, false, w);
        var j :| OnPiece(next, m, j, w);
        if w != h.ed {
          PastFirst(next, m.Values, h.ed, next[h.ed], w);
          LeadsToPixelAt(pts', next', m'.Values, h.st, w);
        }
      }
    }
  }

  lemma OnlyKey(m: map<nat, nat>, plst: seq<HalfContour>)
    requires |plst| == 1 && Matches(m, Sts(plst), Eds(plst))
    ensures forall j | j in m :: j == plst[0].ed
  {
    assert forall j :: j in m.Keys ==> j in multiset(m.Keys);
    assert Eds(plst) == [plst[0].ed];
  }

  method CloseLast(arena: Arena, ghost y: int, ghost row: Row, plst: seq<HalfContour>, mp: nat)
    requires arena.Valid() && Located(arena.pts, y, row, plst) && SortedRow(row) && 0 < mp < |plst|
    requires Matches(arena.m, Sts(plst[mp..]), Eds(plst[mp..])) && OnOutline(arena.next, arena.m, true, plst[0].st)
    requires LeadsToPixel(arena.pts, arena.next, arena.m.Values, plst[0].st, Pt(row[0].Last(), y))
    requires Seen(arena.pts, y, row, [], mp, 0)
    modifies arena
    ensures arena.Valid() && Located(arena.pts, y, row, plst)
    ensures Seen(arena.pts, y, row, [], mp + 1, 0) && Adds(old(arena.pts), arena.pts, y, row, [])
    ensures Matches(arena.m, Sts(plst[mp + 1..]), Eds(plst[mp + 1..]))
    ensures OnOutline(arena.next, arena.m, true, plst[0].st)
    ensures LeadsToPixel(arena.pts, arena.next, arena.m.Values, plst[0].st, Pt(row[0].Last(), y))
  {
    hide Steps, Pieces, Outlined, Matches, OnOutline, Extends, Reach, AllReached, LedOn, LeadsToPixel, Across, Seen, Adds;
    var h := plst[mp];
    Listing(plst, mp);
    assert At(arena.pts, y, row[mp], h) && At(arena.pts, y, row[0], plst[0]);
    CloseSeen(arena.pts, y, row, [], mp, 0, arena.pts[h.st].x);
    ghost var b, d := Sts(plst[mp + 1..]), Eds(plst[mp + 1..]);
    assert [] + ([h.st] + b) == [h.st] + b && [] + ([h.ed] + d) == [h.ed] + d && [] + b == b && [] + d == d;
    CloseOne(arena, y, row[mp], h, [], b, [], d);
    LocatedKept(old(arena.pts), arena.pts, y, row, plst);
    LeadsToPixelKept(old(arena.pts), old(arena.next), old(arena.m).Values, arena.pts, arena.next, arena.m.Values,
                     plst[0].st, Pt(row[0].Last(), y));
  }

  lemma NoPieces(arena: Arena)
    ensures arena.Unclosed() ==> Tidy(arena, [])
  {
  }

  /** The pieces above the runs of the first row. */
  method FirstRow(arena: Arena, y: int, row: Row) returns (plst: seq<HalfContour>)
    requires arena.Valid() && arena.m == map[] && SortedRow(row)
    modifies arena
    ensures arena.Valid() && RowTraced(arena.pts, arena.m, y, [], row, plst) && (old(arena.Unclosed()) ==> Tidy(arena, plst))
    ensures Adds(old(arena.pts), arena.pts, y - 1, [], row)
  {
    hide Steps, Pieces, Outlined, Own, Seen, Adds;
    NothingSeen(arena.pts, y - 1, [], row);
    AddsNothing(arena.pts, y - 1, [], row);
    plst := [];
    NoPieces(arena);
    assert Sts([]) == [] && Eds([]) == [];
    while |plst| < |row|
      invariant |plst| <= |row|
      invariant arena.Valid() && RowState(arena.pts, arena.m, y - 1, [], row, [], plst, 0)
      invariant old(arena.Unclosed()) ==> Tidy(arena, plst)
      invariant Adds(old(arena.pts), arena.pts, y - 1, [], row)
    {
      assert Open(plst, [], 0) == plst;
      ghost var before := arena.pts;
      plst := OpenRun(arena, y - 1, [], row, [], plst, 0);
      AddsMore(old(arena.pts), before, arena.pts, y - 1, [], row);
      assert Open(plst, [], 0) == plst;
    }
    RowEnd(arena.pts, arena.m, y - 1, [], row, [], plst);
  }

  // ----- the outlines of a whole image -----

  /** There are nodes at the last column of every run of the row, and where its left end has to be. */
  ghost predicate RowEnds(pts: seq<Pt>, y: int, above: Row, row: Row) {
    forall k | 0 <= k < |row| :: Pt(row[k].Last(), y) in pts && Pt(LeftColumn(above, row, k), y) in pts
  }

  lemma RowEndsFound(pts: seq<Pt>, y: int, above: Row, row: Row, lst: seq<HalfContour>)
    requires LocatedBelow(pts, y, above, row, lst) && |lst| == |row|
    ensures RowEnds(pts, y, above, row)
  {
    forall k | 0 <= k < |row|
      ensures Pt(row[k].Last(), y) in pts && Pt(LeftColumn(above, row, k), y) in pts
    {
      assert AtBelow(pts, y, above, row, k, lst[k]);
    }
  }

  lemma RowEndsKept(pts: seq<Pt>, pts': seq<Pt>, y: int, above: Row, row: Row)
    requires RowEnds(pts, y, above, row) && pts <= pts'
    ensures RowEnds(pts', y, above, row)
  {
    assert forall p | p in pts :: p in pts';
  }

  /** The row above row `k` of an image. */
  function Above(rimg: RangeImage, k: nat): Row
    requires k < |rimg.ranges|
  {
    if k == 0 then [] else rimg.ranges[k - 1]
  }

  /** The ends of the runs of the first `n` rows have nodes. */
  ghost predicate ImageEnds(pts: seq<Pt>, rimg: RangeImage, n: nat) {
    n <= |rimg.ranges| && forall k: nat | k < n :: RowEnds(pts, rimg.mini + k, Above(rimg, k), rimg.ranges[k])
  }

  lemma ImageEndsStep(pts: seq<Pt>, pts': seq<Pt>, rimg: RangeImage, n: nat)
    requires ImageEnds(pts, rimg, n) && pts <= pts' && n < |rimg.ranges|
    requires RowEnds(pts', rimg.mini + n, Above(rimg, n), rimg.ranges[n])
    ensures ImageEnds(pts', rimg, n + 1)
  {
    hide RowEnds, Above;
    forall k: nat | k < n
      ensures RowEnds(pts', rimg.mini + k, Above(rimg, k), rimg.ranges[k])
    {
      RowEndsKept(pts, pts', rimg.mini + k, Above(rimg, k), rimg.ranges[k]);
    }
  }

  lemma ImageEndsKept(pts: seq<Pt>, pts': seq<Pt>, rimg: RangeImage, n: nat)
    requires ImageEnds(pts, rimg, n) && pts <= pts'
    ensures ImageEnds(pts', rimg, n)
  {
    hide RowEnds, Above;
    forall k: nat | k < n
      ensures RowEnds(pts', rimg.mini + k, Above(rimg, k), rimg.ranges[k])
    {
      RowEndsKept(pts, pts', rimg.mini + k, Above(rimg, k), rimg.ranges[k]);
    }
  }

  /** A closed outline goes through the pixel. */
  ghost predicate OnClosedOutline(pts: seq<Pt>, next: seq<nat>, p: Pt) {
    exists v: nat :: v < |pts| && pts[v] == p && OnCycle(next, {}, v)
  }

  /** The cycle of `v` goes through the pixel. */
  ghost predicate CycleThrough(pts: seq<Pt>, next: seq<nat>, v: nat, p: Pt) {
    exists w: nat :: w < |pts| && pts[w] == p && Reach(next, {}, v, w) && Reach(next, {}, w, v)
  }

  lemma CycleGoesThrough(pts: seq<Pt>, next: seq<nat>, v: nat, p: Pt)
    requires OnCycle(next, {}, v) && LeadsToPixel(pts, next, {}, v, p)
    ensures CycleThrough(pts, next, v, p)
  {
    hide Reach, OnCycle;
    var w: nat :| w < |pts| && pts[w] == p && Reach(next, {}, v, w);
    CycleBack(next, v, w);
  }

  /** With no unfinished piece left, all outlines are closed. */
  lemma AllClosed(pts: seq<Pt>, next: seq<nat>, p: Pt)
    requires Outlined(pts, next, map[], true) && p in pts
    ensures OnClosedOutline(pts, next, p)
  {
    var i :| 0 <= i < |pts| && pts[i] == p;
    assert PixelOutlined(pts, next, map[], true, pts[i]);
    var none: map<nat, nat> := map[];
    var v: nat :| v < |pts| && pts[v] == p && OnOutline(next, none, true, v);
    assert none.Values == {};
    assert forall j :: !OnPiece(next, none, j, v);
  }

  /** In the first `n` rows every run, except those of the last of them, touches exactly one run below. */
  ghost predicate Tree(rows: seq<Row>, n: nat) {
    n <= |rows| && forall j, k | 0 <= j < k < n && k == j + 1 :: Branches(rows[j], rows[k])
  }

  ghost predicate AllConnected(rows: seq<Row>) {
    forall u, v | IsRun(rows, u) && IsRun(rows, v) :: Connected(rows, u, v)
  }

  ghost predicate NoSplits(rows: seq<Row>) {
    forall j, k | 0 <= j < k < |rows| && k == j + 1 :: Unsplit(rows[j], rows[k])
  }

  ghost predicate Below(rows: seq<Row>, u: Run, v: Run) {
    IsRun(rows, u) && IsRun(rows, v) && v.y == u.y + 1 && Touches(u.rng, v.rng)
  }

  /** Where going down from a run ends. */
  ghost function Root(rows: seq<Row>, u: Run): (r: Run)
    requires IsRun(rows, u)
    ensures IsRun(rows, r) && forall v :: !Below(rows, r, v)
    decreases |rows| - u.y
  {
    if exists v :: Below(rows, u, v) then
      var v :| Below(rows, u, v);
      Root(rows, v)
    else u
  }

  /** A run that touches two runs below splits between the second and the one before it. */
  lemma TouchesTwo(above: Row, row: Row, r: nat, i: nat, j: nat)
    requires SortedRow(row) && r < |above| && i < j < |row| && Touches(above[r], row[i]) && Touches(above[r], row[j])
    ensures SplitBefore(above, row, j)
  {
    assert row[i].Last() <= row[j - 1].Last() && row[j - 1].st <= row[j].st;
    assert Touches(above[r], row[j - 1]);
  }

  /** Without splits there is only one way down. */
  lemma OneBelow(rows: seq<Row>, u: Run, v: Run, w: Run)
    requires NoSplits(rows) && (forall y | 0 <= y < |rows| :: SortedRow(rows[y]))
    requires Below(rows, u, v) && Below(rows, u, w)
    ensures v == w
  {
    hide SplitBefore, SortedRow, Touches;
    var above, row := rows[u.y], rows[v.y];
    var r :| 0 <= r < |above| && above[r] == u.rng;
    var i :| 0 <= i < |row| && row[i] == v.rng;
    var j :| 0 <= j < |row| && row[j] == w.rng;
    assert Unsplit(above, row);
    if i < j {
      TouchesTwo(above, row, r, i, j);
    } else if j < i {
      TouchesTwo(above, row, r, j, i);
    }
  }

  lemma RootBelow(rows: seq<Row>, u: Run, v: Run)
    requires NoSplits(rows) && (forall y | 0 <= y < |rows| :: SortedRow(rows[y])) && Below(rows, u, v)
    ensures Root(rows, u) == Root(rows, v)
  {
    forall w | Below(rows, u, w)
      ensures w == v
    {
      OneBelow(rows, u, v, w);
    }
  }

  lemma {:induction false} PathRoot(rows: seq<Row>, u: Run, p: seq<Run>, v: Run)
    requires NoSplits(rows) && (forall y | 0 <= y < |rows| :: SortedRow(rows[y])) && Path(rows, u, p, v)
    ensures IsRun(rows, v) && Root(rows, u) == Root(rows, v)
    decreases |p|
  {
    hide NoSplits, Root;
    if p != [] {
      var w := p[0];
      PathRoot(rows, w, p[1..], v);
      ShareColumnTest(u.rng, w.rng);
      if u.y + 1 == w.y {
        RootBelow(rows, u, w);
      } else {
        RootBelow(rows, w, u);
      }
    }
  }

  /** In a blob without splits only one run has nothing below it. */
  lemma OneRoot(rows: seq<Row>, u: Run, v: Run)
    requires AllConnected(rows) && NoSplits(rows) && (forall y | 0 <= y < |rows| :: SortedRow(rows[y]))
    requires IsRun(rows, u) && IsRun(rows, v)
    requires forall w :: !Below(rows, u, w) && !Below(rows, v, w)
    ensures u == v
  {
    hide NoSplits;
    assert Connected(rows, u, v);
    var p :| Path(rows, u, p, v);
    PathRoot(rows, u, p, v);
  }

  /** A blob without splits: every run touches exactly one run below, down to a single run in the last row. */
  lemma ConnectedIsTree(rows: seq<Row>)
    requires rows != [] && rows[|rows| - 1] != [] && (forall y | 0 <= y < |rows| :: SortedRow(rows[y]))
    requires AllConnected(rows) && NoSplits(rows)
    ensures Tree(rows, |rows|) && |rows[|rows| - 1]| == 1
  {
    hide SplitBefore, AllConnected;
    var n := |rows| - 1;
    var last := Run(n, rows[n][0]);
    if |rows[n]| > 1 {
      OneRoot(rows, last, Run(n, rows[n][1]));
    }
    forall j, k | 0 <= j < k < |rows| && k == j + 1
      ensures Branches(rows[j], rows[k])
    {
      forall i | 0 <= i < |rows[j]|
        ensures GoesOn(rows[j][i], rows[k])
      {
        var u := Run(j, rows[j][i]);
        if forall v :: !Below(rows, u, v) {
          OneRoot(rows, u, last);
        } else {
          var v :| Below(rows, u, v);
          BelowIs(rows, j, i, v);
        }
      }
    }
  }

  lemma BelowIs(rows: seq<Row>, j: nat, i: nat, v: Run)
    requires j < |rows| && i < |rows[j]| && Below(rows, Run(j, rows[j][i]), v)
    ensures j + 1 < |rows| && GoesOn(rows[j][i], rows[j + 1])
  {
    assert v.rng in rows[j + 1];
    var l :| 0 <= l < |rows[j + 1]| && rows[j + 1][l] == v.rng;
    assert Touches(rows[j][i], rows[j + 1][l]);
  }

  /**
   * range_img_to_obj: for any image with sorted rows and a non-empty last row, every outline is closed and every link
   * leads at most one pixel away; there are nodes on every upper and lower edge and in every cavity, and only on the
   * image and in cavities; there are nodes at both ends of every run, the left one exactly where `LeftColumn` says; the
   * returned node is at the left end of the first run of the last row, and following `next` from it goes
   * through the right end of that run and comes back. If every run touches exactly one run below, down to a single run
   * in the last row, it goes through every pixel.
   */
  method RangeImgToObj(rimg: RangeImage) returns (arena: Arena, v: nat)
    requires rimg.ranges != [] && rimg.ranges[|rimg.ranges| - 1] != []
    requires forall k | 0 <= k < |rimg.ranges| :: SortedRow(rimg.ranges[k])
    ensures fresh(arena) && Steps(arena.pts, arena.next) && OnCycle(arena.next, {}, v)
    ensures forall p | p in arena.pts :: OnClosedOutline(arena.pts, arena.next, p)
    ensures ImageEnds(arena.pts, rimg, |rimg.ranges|) && OnEdges(rimg, arena.pts) && OnImage(rimg, arena.pts)
    ensures
      var y, first := rimg.mini + |rimg.ranges| - 1, rimg.ranges[|rimg.ranges| - 1][0];
      v < |arena.pts| && arena.pts[v] == Pt(first.st, y) && CycleThrough(arena.pts, arena.next, v, Pt(first.Last(), y))
    ensures Tree(rimg.ranges, |rimg.ranges|) && |rimg.ranges[|rimg.ranges| - 1]| == 1 ==>
      forall p | p in arena.pts :: CycleThrough(arena.pts, arena.next, v, p)
  {
    hide Steps, Pieces, Outlined, Matches, Located, LocatedBelow, OnCycle, RowEnds, ImageEnds, OnClosedOutline, CycleThrough,
         LeadsToPixel, SplitBefore, SortedRow, Own, Branches, RowTop, RowBottom, OnEdges, OnImage, RowsDone;
    arena := new Arena();
    var plst := FirstRow(arena, rimg.mini, rimg.ranges[0]);
    FirstEnds(arena.pts, rimg, plst);
    FirstDone(rimg, arena.pts);
    var j := 1;
    while j < |rimg.ranges|
      invariant 1 <= j <= |rimg.ranges| && fresh(arena) && ImageEnds(arena.pts, rimg, j)
      invariant arena.Valid()
      invariant RowTraced(arena.pts, arena.m, rimg.mini + j - 1, Above(rimg, j - 1), rimg.ranges[j - 1], plst)
      invariant Tree(rimg.ranges, j) ==> Tidy(arena, plst)
      invariant RowsDone(rimg, arena.pts, j) && OnImage(rimg, arena.pts)
    {
      ghost var before := arena.pts;
      var pr, cr := rimg.ranges[j - 1], rimg.ranges[j];
      RowBegin(arena.pts, arena.m, rimg.mini + j - 1, Above(rimg, j - 1), pr, cr, plst);
      assert Tree(rimg.ranges, j + 1) ==> Tree(rimg.ranges, j) && Branches(pr, cr);
      var clst := TraceRow(arena, rimg.mini + j - 1, pr, cr, plst);
      RowEnd(arena.pts, arena.m, rimg.mini + j - 1, pr, cr, plst, clst);
      RowEndsFound(arena.pts, rimg.mini + j, Above(rimg, j), cr, clst);
      ImageEndsStep(before, arena.pts, rimg, j);
      OnImageMore(rimg, before, arena.pts, rimg.mini + j - 1);
      RowsDoneMore(rimg, before, arena.pts, j);
      plst := clst;
      j := j + 1;
    }
    ghost var before := arena.pts;
    FirstAt(arena.pts, rimg.mini + j - 1, Above(rimg, j - 1), rimg.ranges[j - 1], plst);
    CloseLastRow(arena, rimg.mini + j - 1, Above(rimg, j - 1), rimg.ranges[j - 1], plst);
    ImageEndsKept(before, arena.pts, rimg, j);
    OnImageMore(rimg, before, arena.pts, rimg.mini + j - 1);
    RowTopNone(arena.pts, rimg.mini + j, rimg.ranges[j - 1]);
    RowsDoneMore(rimg, before, arena.pts, j);
    AllEdges(rimg, arena.pts);
    v := plst[0].st;
    CycleGoesThrough(arena.pts, arena.next, v, Pt(rimg.ranges[j - 1][0].Last(), rimg.mini + j - 1));
    forall p | p in arena.pts
      ensures OnClosedOutline(arena.pts, arena.next, p)
      ensures Tree(rimg.ranges, j) && |rimg.ranges[j - 1]| == 1 ==> CycleThrough(arena.pts, arena.next, v, p)
    {
      AllClosed(arena.pts, arena.next, p);
      if Tree(rimg.ranges, j) && |rimg.ranges[j - 1]| == 1 {
        CycleGoesThrough(arena.pts, arena.next, v, p);
      }
    }
  }

  lemma FirstDone(rimg: RangeImage, pts: seq<Pt>)
    requires rimg.ranges != [] && RowTop(pts, rimg.mini, [], rimg.ranges[0])
    requires Adds([], pts, rimg.mini - 1, [], rimg.ranges[0])
    ensures RowsDone(rimg, pts, 1) && OnImage(rimg, pts)
  {
    hide RowTop, InGap, Adds;
    OnImageMore(rimg, [], pts, rimg.mini - 1);
  }

  lemma FirstEnds(pts: seq<Pt>, rimg: RangeImage, plst: seq<HalfContour>)
    requires rimg.ranges != [] && LocatedBelow(pts, rimg.mini, [], rimg.ranges[0], plst) && |plst| == |rimg.ranges[0]|
    ensures ImageEnds(pts, rimg, 1)
  {
    RowEndsFound(pts, rimg.mini, [], rimg.ranges[0], plst);
  }

  lemma FirstAt(pts: seq<Pt>, y: int, above: Row, row: Row, plst: seq<HalfContour>)
    requires LocatedBelow(pts, y, above, row, plst) && plst != []
    ensures plst[0].st < |pts| && pts[plst[0].st] == Pt(row[0].st, y)
  {
    assert AtBelow(pts, y, above, row, 0, plst[0]);
  }

  // ----- the points of a contour -----

  /**
   * The loops at the start of hier_merge that go round a contour once. They end, the points are those of the nodes
   * in the order of the links, and each is at most one pixel from the one before it, the last from the first too.
   */
  method ContourPoints(pts: seq<Pt>, next: seq<nat>, v: nat) returns (out: seq<Pt>, ghost nodes: seq<nat>)
    requires Steps(pts, next) && OnCycle(next, {}, v)
    ensures |out| == |nodes| > 0 && forall i | 0 <= i < |nodes| :: nodes[i] < |pts| && out[i] == pts[nodes[i]]
    ensures nodes[0] == v && next[nodes[|nodes| - 1]] == v
    ensures forall i | 0 < i < |nodes| :: nodes[i] == next[nodes[i - 1]] && nodes[i] != v
    ensures forall i | 0 < i < |out| :: Distance(out[i - 1], out[i]) <= 1
    ensures Distance(out[|out| - 1], out[0]) <= 1
  {
    hide Distance, Walk;
    ghost var p :| p != [] && Walk(next, {}, v, p, v);
    WalkAt(next, v, p, v, 0);
    var c := next[v];
    out, nodes := [pts[v]], [v];
    while c != v
      invariant 0 < |nodes| <= |p| && |out| == |nodes|
      invariant forall i | 0 <= i < |nodes| :: nodes[i] < |pts| && out[i] == pts[nodes[i]]
      invariant nodes[0] == v && c == next[nodes[|nodes| - 1]] == p[|nodes| - 1]
      invariant forall i | 0 < i < |nodes| :: nodes[i] == next[nodes[i - 1]] && nodes[i] != v
      invariant forall i | 0 < i < |out| :: Distance(out[i - 1], out[i]) <= 1
      decreases |p| - |nodes|
    {
      WalkAt(next, v, p, v, |nodes| - 1);
      out, nodes := out + [pts[c]], nodes + [c];
      c := next[c];
    }
  }

  /** Along a walk each node is the link of the one before it, and the last is where the walk ends. */
  lemma {:induction false} WalkAt(next: seq<nat>, a: nat, p: seq<nat>, b: nat, k: nat)
    requires Walk(next, {}, a, p, b) && k < |p|
    ensures a < |next| && next[a] == p[0] && p[|p| - 1] == b
    ensures k + 1 < |p| ==> p[k] < |next| && p[k + 1] == next[p[k]]
    decreases |p|
  {
    if |p| > 1 {
      WalkAt(next, p[0], p[1..], b, if k > 0 then k - 1 else 0);
    }
  }
}
