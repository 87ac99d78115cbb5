/** Which pixels the outlines traced by aos/vision/blob/contour.cc go through, for two neighbouring rows. */
module ContourEdges {
  import opened RangeImages
  import opened Contours

  /** Runs of neighbouring rows that share a column. */
  predicate Touches(a: ImageRange, b: ImageRange) {
    a.st <= b.Last() && b.st <= a.Last()
  }

  /** Some run of the row above touches both this run and the one before it. */
  ghost predicate SplitBefore(above: Row, row: Row, k: nat)
    requires k < |row|
  {
    k > 0 && exists j :: 0 <= j < |above| && Touches(above[j], row[k - 1]) && Touches(above[j], row[k])
  }

  /** The column of the left end above run `k`: after a split, the cavity ends one column before the run. */
  ghost function LeftColumn(above: Row, row: Row, k: nat): int
    requires k < |row|
  {
    if SplitBefore(above, row, k) then row[k].st - 1 else row[k].st
  }

  /** What has been passed of the row above and of the current row ends before what is still to come. */
  ghost predicate Passed(pr: Row, cr: Row, mp: nat, mc: nat) {
    && (0 < mp <= |pr| && mc < |cr| ==> pr[mp - 1].Last() < cr[mc].st)
    && (0 < mc <= |cr| && mp < |pr| ==> cr[mc - 1].Last() < pr[mp].st)
  }

  /** No run above touches both the run that comes next and the one before it. */
  lemma NoSplit(pr: Row, cr: Row, mp: nat, mc: nat)
    requires SortedRow(pr) && SortedRow(cr) && mp <= |pr| && mc < |cr| && Passed(pr, cr, mp, mc)
    ensures !SplitBefore(pr, cr, mc)
  {
    forall j | 0 <= j < |pr| && mc > 0
      ensures !(Touches(pr[j], cr[mc - 1]) && Touches(pr[j], cr[mc]))
    {
      if j < mp {
        assert pr[j].Last() <= pr[mp - 1].Last();
      } else {
        assert pr[mp].st <= pr[j].st;
      }
    }
  }

  /** A run above that touches this run and reaches the next one touches both. */
  lemma Splits(pr: Row, cr: Row, mp: nat, mc: nat)
    requires SortedRow(cr) && mp < |pr| && mc + 1 < |cr| && Touches(pr[mp], cr[mc]) && pr[mp].Last() >= cr[mc + 1].st
    ensures SplitBefore(pr, cr, mc + 1) && Touches(pr[mp], cr[mc + 1])
  {
    assert Touches(pr[mp], cr[mc + 1]);
  }

  /** A run of five pixels above two runs: the left end of the second run is in the column before it. */
  lemma SplitExample()
    ensures LeftColumn([ImageRange(0, 5)], [ImageRange(0, 1), ImageRange(3, 5)], 1) == 2
  {
    var above, row := [ImageRange(0, 5)], [ImageRange(0, 1), ImageRange(3, 5)];
    assert Touches(above[0], row[0]) && Touches(above[0], row[1]);
    assert SplitBefore(above, row, 1);
  }

  // ----- the pixels between two runs -----

  /** Column `x` lies between run `k` and the one before it, and some run above touches both. */
  ghost predicate GapBefore(above: Row, row: Row, k: nat, x: int)
    requires k < |row|
  {
    SplitBefore(above, row, k) && row[k - 1].ed <= x < row[k].st
  }

  ghost predicate InGap(above: Row, row: Row, x: int) {
    exists k: nat :: k < |row| && GapBefore(above, row, k, x)
  }

  // ----- the pixels that must be nodes -----

  /** The pixels of run `k` up to column `upto` that have nothing above them. */
  ghost predicate TopAt(pts: seq<Pt>, y: int, above: Row, row: Row, k: nat, upto: int)
    requires k < |row|
  {
    forall x | Covers(row[k], x) && x <= upto && !CoveredBy(above, x) :: Pt(x, y) in pts
  }

  /** The pixels of run `k` up to column `upto` that have nothing below them, not even a gap. */
  ghost predicate BottomAt(pts: seq<Pt>, y: int, row: Row, below: Row, k: nat, upto: int)
    requires k < |row|
  {
    forall x | Covers(row[k], x) && x <= upto && !CoveredBy(below, x) && !InGap(row, below, x) :: Pt(x, y) in pts
  }

  ghost predicate GapAt(pts: seq<Pt>, y: int, above: Row, row: Row, k: nat)
    requires k < |row|
  {
    forall x | GapBefore(above, row, k, x) :: Pt(x, y) in pts
  }

  /** The upper edge of run `k` of the current row, and the gap before it. */
  ghost predicate CurrentAt(pts: seq<Pt>, y: int, pr: Row, cr: Row, k: nat)
    requires k < |cr|
  {
    TopAt(pts, y + 1, pr, cr, k, cr[k].Last()) && GapAt(pts, y + 1, pr, cr, k)
  }

  /** Done with the first `mp` runs above and the first `mc` runs of the current row. */
  ghost predicate Seen(pts: seq<Pt>, y: int, pr: Row, cr: Row, mp: nat, mc: nat) {
    && mp <= |pr| && mc <= |cr|
    && (forall j: nat | j < mp :: BottomAt(pts, y, pr, cr, j, pr[j].Last()))
    && (forall k: nat | k < mc :: CurrentAt(pts, y, pr, cr, k))
  }

  /** And, inside a group, with the next run of each row as far as the other one goes. */
  ghost predicate InnerSeen(pts: seq<Pt>, y: int, pr: Row, cr: Row, mp: nat, mc: nat) {
    && mp < |pr| && mc < |cr| && Seen(pts, y, pr, cr, mp, mc) && GapAt(pts, y + 1, pr, cr, mc)
    && TopAt(pts, y + 1, pr, cr, mc, pr[mp].Last()) && BottomAt(pts, y, pr, cr, mp, cr[mc].Last())
  }

  lemma RunKept(pts: seq<Pt>, part: seq<Pt>, y: int, above: Row, row: Row, below: Row, k: nat, upto: int)
    requires k < |row|
    ensures TopAt(pts, y, above, row, k, upto) ==> TopAt(pts + part, y, above, row, k, upto)
    ensures BottomAt(pts, y, row, below, k, upto) ==> BottomAt(pts + part, y, row, below, k, upto)
    ensures GapAt(pts, y, above, row, k) ==> GapAt(pts + part, y, above, row, k)
  {
    hide CoveredBy, InGap, GapBefore, Covers;
    assert forall p | p in pts :: p in pts + part;
  }

  lemma SeenKept(pts: seq<Pt>, part: seq<Pt>, y: int, pr: Row, cr: Row, mp: nat, mc: nat)
    requires Seen(pts, y, pr, cr, mp, mc)
    ensures Seen(pts + part, y, pr, cr, mp, mc)
  {
    hide BottomAt, TopAt, GapAt;
    forall j: nat | j < mp
      ensures BottomAt(pts + part, y, pr, cr, j, pr[j].Last())
    {
      RunKept(pts, part, y, [], pr, cr, j, pr[j].Last());
    }
    forall k: nat | k < mc
      ensures CurrentAt(pts + part, y, pr, cr, k)
    {
      assert CurrentAt(pts, y, pr, cr, k);
      RunKept(pts, part, y + 1, pr, cr, [], k, cr[k].Last());
    }
  }

  // ----- the pixels that may be nodes -----

  ghost predicate Placed(y: int, pr: Row, cr: Row, p: Pt) {
    (p.y == y && CoveredBy(pr, p.x)) || (p.y == y + 1 && (CoveredBy(cr, p.x) || InGap(pr, cr, p.x)))
  }

  ghost predicate Adds(pts: seq<Pt>, pts': seq<Pt>, y: int, pr: Row, cr: Row) {
    pts <= pts' && forall i | |pts| <= i < |pts'| :: Placed(y, pr, cr, pts'[i])
  }

  lemma AddsPart(pts: seq<Pt>, part: seq<Pt>, y: int, pr: Row, cr: Row)
    requires forall p | p in part :: Placed(y, pr, cr, p)
    ensures Adds(pts, pts + part, y, pr, cr)
  {
    hide Placed;
  }

  lemma AddsMore(pts: seq<Pt>, pts': seq<Pt>, pts'': seq<Pt>, y: int, pr: Row, cr: Row)
    requires Adds(pts, pts', y, pr, cr) && Adds(pts', pts'', y, pr, cr)
    ensures Adds(pts, pts'', y, pr, cr)
  {
    hide Placed;
  }

  lemma AddsNothing(pts: seq<Pt>, y: int, pr: Row, cr: Row)
    ensures Adds(pts, pts, y, pr, cr)
  {
  }

  // ----- whole rows -----

  /** Every pixel of the row with nothing above it is a node, and so is every pixel in a gap. */
  ghost predicate RowTop(pts: seq<Pt>, y: int, above: Row, row: Row) {
    && (forall x | CoveredBy(row, x) && !CoveredBy(above, x) :: Pt(x, y) in pts)
    && (forall x | InGap(above, row, x) :: Pt(x, y) in pts)
  }

  /** Every pixel of the row with nothing below it, not even a gap, is a node. */
  ghost predicate RowBottom(pts: seq<Pt>, y: int, row: Row, below: Row) {
    forall x | CoveredBy(row, x) && !CoveredBy(below, x) && !InGap(row, below, x) :: Pt(x, y) in pts
  }

  lemma TopDone(pts: seq<Pt>, y: int, pr: Row, cr: Row, mp: nat)
    requires Seen(pts, y, pr, cr, mp, |cr|)
    ensures RowTop(pts, y + 1, pr, cr)
  {
    hide SplitBefore;
    forall x | CoveredBy(cr, x) && !CoveredBy(pr, x)
      ensures Pt(x, y + 1) in pts
    {
      var k :| 0 <= k < |cr| && Covers(cr[k], x);
      assert CurrentAt(pts, y, pr, cr, k);
    }
    forall x | InGap(pr, cr, x)
      ensures Pt(x, y + 1) in pts
    {
      var k: nat :| k < |cr| && GapBefore(pr, cr, k, x);
      assert CurrentAt(pts, y, pr, cr, k);
    }
  }

  lemma BottomDone(pts: seq<Pt>, y: int, pr: Row, cr: Row, mc: nat)
    requires Seen(pts, y, pr, cr, |pr|, mc)
    ensures RowBottom(pts, y, pr, cr)
  {
    hide SplitBefore, InGap;
    forall x | CoveredBy(pr, x) && !CoveredBy(cr, x) && !InGap(pr, cr, x)
      ensures Pt(x, y) in pts
    {
      var j :| 0 <= j < |pr| && Covers(pr[j], x);
      assert BottomAt(pts, y, pr, cr, j, pr[j].Last());
    }
  }

  lemma NothingSeen(pts: seq<Pt>, y: int, pr: Row, cr: Row)
    ensures Seen(pts, y, pr, cr, 0, 0)
  {
  }

  lemma RowTopNone(pts: seq<Pt>, y: int, above: Row)
    ensures RowTop(pts, y, above, [])
  {
  }

  lemma RowKept(pts: seq<Pt>, pts': seq<Pt>, y: int, above: Row, row: Row, below: Row)
    requires pts <= pts'
    ensures RowTop(pts, y, above, row) ==> RowTop(pts', y, above, row)
    ensures RowBottom(pts, y, row, below) ==> RowBottom(pts', y, row, below)
  {
    hide CoveredBy, InGap;
    assert forall p | p in pts :: p in pts';
  }

  // ----- a whole image -----

  ghost predicate Lit(rimg: RangeImage, p: Pt) {
    CoveredBy(RowAt(rimg, p.y), p.x)
  }

  /** The pixel is in a gap below a run that touches the runs on both sides of the gap. */
  ghost predicate Cavity(rimg: RangeImage, p: Pt) {
    InGap(RowAt(rimg, p.y - 1), RowAt(rimg, p.y), p.x)
  }

  /** Nodes are on pixels of the image and in cavities only. */
  ghost predicate OnImage(rimg: RangeImage, pts: seq<Pt>) {
    forall p | p in pts :: Lit(rimg, p) || Cavity(rimg, p)
  }

  /**
   * There are nodes on every pixel at an upper edge, in every cavity, and on every pixel at a lower edge that is not
   * above a cavity.
   */
  ghost predicate OnEdges(rimg: RangeImage, pts: seq<Pt>) {
    && (forall p | Lit(rimg, p) && !Lit(rimg, Pt(p.x, p.y - 1)) :: p in pts)
    && (forall p | Cavity(rimg, p) :: p in pts)
    && (forall p | Lit(rimg, p) && !Lit(rimg, Pt(p.x, p.y + 1)) && !Cavity(rimg, Pt(p.x, p.y + 1)) :: p in pts)
  }

  lemma OnImageMore(rimg: RangeImage, pts: seq<Pt>, pts': seq<Pt>, y: int)
    requires OnImage(rimg, pts) && Adds(pts, pts', y, RowAt(rimg, y), RowAt(rimg, y + 1))
    ensures OnImage(rimg, pts')
  {
    hide CoveredBy, InGap, RowAt;
    forall p | p in pts'
      ensures Lit(rimg, p) || Cavity(rimg, p)
    {
      var i :| 0 <= i < |pts'| && pts'[i] == p;
      if i < |pts| {
        assert pts[i] in pts;
      } else {
        assert Placed(y, RowAt(rimg, y), RowAt(rimg, y + 1), pts'[i]);
      }
    }
  }

  /** The first `n` rows are done, but for the lower edge of the last of them. */
  ghost predicate RowsDone(rimg: RangeImage, pts: seq<Pt>, n: nat) {
    && (forall y | rimg.mini <= y < rimg.mini + n :: RowTop(pts, y, RowAt(rimg, y - 1), RowAt(rimg, y)))
    && (forall y | rimg.mini <= y < rimg.mini + n - 1 :: RowBottom(pts, y, RowAt(rimg, y), RowAt(rimg, y + 1)))
  }

  lemma RowsDoneMore(rimg: RangeImage, pts: seq<Pt>, pts': seq<Pt>, n: nat)
    requires n > 0 && RowsDone(rimg, pts, n) && pts <= pts'
    requires
      var y := rimg.mini + n;
      RowTop(pts', y, RowAt(rimg, y - 1), RowAt(rimg, y)) && RowBottom(pts', y - 1, RowAt(rimg, y - 1), RowAt(rimg, y))
    ensures RowsDone(rimg, pts', n + 1)
  {
    hide RowTop, RowBottom, RowAt;
    forall y | rimg.mini <= y < rimg.mini + n
      ensures RowTop(pts', y, RowAt(rimg, y - 1), RowAt(rimg, y))
    {
      RowKept(pts, pts', y, RowAt(rimg, y - 1), RowAt(rimg, y), []);
    }
    forall y | rimg.mini <= y < rimg.mini + n - 1
      ensures RowBottom(pts', y, RowAt(rimg, y), RowAt(rimg, y + 1))
    {
      RowKept(pts, pts', y, [], RowAt(rimg, y), RowAt(rimg, y + 1));
    }
  }

  /** The row below the image is empty: with it done, all edges are. */
  lemma AllEdges(rimg: RangeImage, pts: seq<Pt>)
    requires RowsDone(rimg, pts, |rimg.ranges| + 1)
    ensures OnEdges(rimg, pts)
  {
    hide Lit, Cavity, RowsDone;
    forall p | Lit(rimg, p) && !Lit(rimg, Pt(p.x, p.y - 1))
      ensures p in pts
    {
      UpperEdge(rimg, pts, p);
    }
    forall p | Cavity(rimg, p)
      ensures p in pts
    {
      UpperEdge(rimg, pts, p);
    }
    forall p | Lit(rimg, p) && !Lit(rimg, Pt(p.x, p.y + 1)) && !Cavity(rimg, Pt(p.x, p.y + 1))
      ensures p in pts
    {
      LowerEdge(rimg, pts, p);
    }
  }

  lemma UpperEdge(rimg: RangeImage, pts: seq<Pt>, p: Pt)
    requires RowsDone(rimg, pts, |rimg.ranges| + 1)
    requires Cavity(rimg, p) || (Lit(rimg, p) && !Lit(rimg, Pt(p.x, p.y - 1)))
    ensures p in pts
  {
    if rimg.mini <= p.y < rimg.mini + |rimg.ranges| {
      hide CoveredBy, InGap, RowAt, RowBottom;
      assert RowTop(pts, p.y, RowAt(rimg, p.y - 1), RowAt(rimg, p.y));
    } else {
      NothingOutside(rimg, p);
    }
  }

  lemma LowerEdge(rimg: RangeImage, pts: seq<Pt>, p: Pt)
    requires RowsDone(rimg, pts, |rimg.ranges| + 1)
    requires Lit(rimg, p) && !Lit(rimg, Pt(p.x, p.y + 1)) && !Cavity(rimg, Pt(p.x, p.y + 1))
    ensures p in pts
  {
    if rimg.mini <= p.y < rimg.mini + |rimg.ranges| {
      hide CoveredBy, InGap, RowAt, RowTop;
      assert RowBottom(pts, p.y, RowAt(rimg, p.y), RowAt(rimg, p.y + 1));
    } else {
      NothingOutside(rimg, p);
    }
  }

  lemma NothingOutside(rimg: RangeImage, p: Pt)
    requires p.y < rimg.mini || p.y >= rimg.mini + |rimg.ranges|
    ensures !Lit(rimg, p) && !Cavity(rimg, p)
  {
  }

  lemma RunCovers(row: Row, k: nat, x: int)
    requires k < |row| && Covers(row[k], x)
    ensures CoveredBy(row, x)
  {
  }

  // ----- what each operation adds -----

  lemma StretchHas(y: int, a: int, b: int, p: Pt)
    ensures p in Stretch(y, a, b) <==> p.y == y && (a <= p.x <= b || b <= p.x <= a)
  {
    AcrossHas(y, a, b, p);
  }

  lemma DownToHas(o: Pt, turn: int, x: int, p: Pt)
    ensures
      p in DownTo(o, turn, x) <==>
        || (p.y == o.y && (o.x < p.x <= turn || turn <= p.x < o.x))
        || (p.y == o.y + 1 && (turn <= p.x <= x || x <= p.x <= turn))
  {
    AcrossHas(o.y, o.x, turn, p);
    AcrossHas(o.y + 1, turn, x, p);
  }

  /** close_range on run `mp` of the row above; its left end is in column `x0`. */
  lemma CloseSeen(pts: seq<Pt>, y: int, pr: Row, cr: Row, mp: nat, mc: nat, x0: int)
    requires Seen(pts, y, pr, cr, mp, mc) && mp < |pr| && pr[mp].st - 1 <= x0 <= pr[mp].st < pr[mp].ed
    requires Pt(x0, y) in pts && Pt(pr[mp].Last(), y) in pts
    ensures
      var part := Across(y, x0, Larger(x0, pr[mp].Last() - 1));
      Seen(pts + part, y, pr, cr, mp + 1, mc) && Adds(pts, pts + part, y, pr, cr)
  {
    hide Across, Seen, CoveredBy, InGap;
    var r := pr[mp];
    var part := Across(y, x0, Larger(x0, r.Last() - 1));
    SeenKept(pts, part, y, pr, cr, mp, mc);
    forall x | Covers(r, x)
      ensures Pt(x, y) in pts + part
    {
      AcrossHas(y, x0, Larger(x0, r.Last() - 1), Pt(x, y));
    }
    SeenAbove(pts + part, y, pr, cr, mp, mc);
    forall p | p in part
      ensures Placed(y, pr, cr, p)
    {
      AcrossHas(y, x0, Larger(x0, r.Last() - 1), p);
      RunCovers(pr, mp, p.x);
    }
    AddsPart(pts, part, y, pr, cr);
  }

  lemma SeenAbove(pts: seq<Pt>, y: int, pr: Row, cr: Row, mp: nat, mc: nat)
    requires Seen(pts, y, pr, cr, mp, mc) && mp < |pr| && BottomAt(pts, y, pr, cr, mp, pr[mp].Last())
    ensures Seen(pts, y, pr, cr, mp + 1, mc)
  {
    hide BottomAt, CurrentAt;
  }

  lemma SeenCurrent(pts: seq<Pt>, y: int, pr: Row, cr: Row, mp: nat, mc: nat)
    requires Seen(pts, y, pr, cr, mp, mc) && mc < |cr|
    requires TopAt(pts, y + 1, pr, cr, mc, cr[mc].Last()) && GapAt(pts, y + 1, pr, cr, mc)
    ensures Seen(pts, y, pr, cr, mp, mc + 1)
  {
    assert CurrentAt(pts, y, pr, cr, mc);
    hide BottomAt, CurrentAt;
  }

  /** fwd_range on run `mc` of the current row. */
  lemma OpenSeen(pts: seq<Pt>, y: int, pr: Row, cr: Row, mp: nat, mc: nat)
    requires Seen(pts, y, pr, cr, mp, mc) && mc < |cr| && cr[mc].st < cr[mc].ed && !SplitBefore(pr, cr, mc)
    ensures
      var part := Stretch(y + 1, cr[mc].st, cr[mc].Last());
      Seen(pts + part, y, pr, cr, mp, mc + 1) && Adds(pts, pts + part, y, pr, cr)
  {
    hide Stretch, Seen, CoveredBy, InGap, SplitBefore;
    var r := cr[mc];
    var part := Stretch(y + 1, r.st, r.Last());
    SeenKept(pts, part, y, pr, cr, mp, mc);
    forall x | Covers(r, x)
      ensures Pt(x, y + 1) in pts + part
    {
      StretchHas(y + 1, r.st, r.Last(), Pt(x, y + 1));
    }
    SeenCurrent(pts + part, y, pr, cr, mp, mc);
    forall p | p in part
      ensures Placed(y, pr, cr, p)
    {
      StretchHas(y + 1, r.st, r.Last(), p);
      RunCovers(cr, mc, p.x);
    }
    AddsPart(pts, part, y, pr, cr);
  }

  /** extend_start from the left end of run `mp` above to run `mc`. */
  lemma StartSeen(pts: seq<Pt>, y: int, pr: Row, cr: Row, mp: nat, mc: nat, x0: int)
    requires Seen(pts, y, pr, cr, mp, mc) && mp < |pr| && mc < |cr| && Touches(pr[mp], cr[mc]) && !SplitBefore(pr, cr, mc)
    requires pr[mp].st - 1 <= x0 <= pr[mp].st < pr[mp].ed && cr[mc].st < cr[mc].ed && Pt(x0, y) in pts
    ensures
      var part := DownTo(Pt(x0, y), Larger(x0, cr[mc].st), cr[mc].st);
      InnerSeen(pts + part, y, pr, cr, mp, mc) && Adds(pts, pts + part, y, pr, cr)
  {
    hide DownTo, Seen, InGap, SplitBefore;
    var p0, turn, to := Pt(x0, y), Larger(x0, cr[mc].st), cr[mc].st;
    var part := DownTo(p0, turn, to);
    SeenKept(pts, part, y, pr, cr, mp, mc);
    forall x | Covers(cr[mc], x) && x <= pr[mp].Last() && !CoveredBy(pr, x)
      ensures Pt(x, y + 1) in pts + part
    {
      assert !Covers(pr[mp], x);
      DownToHas(p0, turn, to, Pt(x, y + 1));
    }
    forall x | Covers(pr[mp], x) && x <= cr[mc].Last() && !CoveredBy(cr, x)
      ensures Pt(x, y) in pts + part
    {
      assert !Covers(cr[mc], x);
      DownToHas(p0, turn, to, Pt(x, y));
    }
    forall p | p in part
      ensures Placed(y, pr, cr, p)
    {
      DownToHas(p0, turn, to, p);
      if p.y == y {
        RunCovers(pr, mp, p.x);
      } else {
        RunCovers(cr, mc, p.x);
      }
    }
    AddsPart(pts, part, y, pr, cr);
  }

  /** cap_range below the gap between runs `mp` and `mp + 1` above; the left end of the second is in column `x0`. */
  lemma CapSeen(pts: seq<Pt>, y: int, pr: Row, cr: Row, mp: nat, mc: nat, x0: int)
    requires InnerSeen(pts, y, pr, cr, mp, mc) && mp + 1 < |pr| && SortedRow(pr) && Touches(pr[mp], cr[mc])
    requires cr[mc].Last() >= pr[mp + 1].st && pr[mp + 1].st - 1 <= x0 <= pr[mp + 1].st
    ensures
      var part := Stretch(y + 1, x0, pr[mp].Last());
      InnerSeen(pts + part, y, pr, cr, mp + 1, mc) && Adds(pts, pts + part, y, pr, cr)
  {
    hide Stretch, Seen, InGap, SplitBefore;
    var part := Stretch(y + 1, x0, pr[mp].Last());
    SeenKept(pts, part, y, pr, cr, mp, mc);
    assert BottomAt(pts + part, y, pr, cr, mp, pr[mp].Last());
    SeenAbove(pts + part, y, pr, cr, mp, mc);
    forall x | Covers(cr[mc], x) && x <= pr[mp + 1].Last() && !CoveredBy(pr, x)
      ensures Pt(x, y + 1) in pts + part
    {
      assert !Covers(pr[mp + 1], x);
      StretchHas(y + 1, x0, pr[mp].Last(), Pt(x, y + 1));
    }
    forall x | Covers(pr[mp + 1], x) && x <= cr[mc].Last()
      ensures CoveredBy(cr, x)
    {
      RunCovers(cr, mc, x);
    }
    forall p | p in part
      ensures Placed(y, pr, cr, p)
    {
      StretchHas(y + 1, x0, pr[mp].Last(), p);
      RunCovers(cr, mc, p.x);
    }
    AddsPart(pts, part, y, pr, cr);
  }

  /** make_cavity between runs `mc` and `mc + 1`. */
  lemma SplitSeen(pts: seq<Pt>, y: int, pr: Row, cr: Row, mp: nat, mc: nat)
    requires InnerSeen(pts, y, pr, cr, mp, mc) && mc + 1 < |cr| && SortedRow(pr) && SortedRow(cr)
    requires Touches(pr[mp], cr[mc]) && pr[mp].Last() >= cr[mc + 1].st && SplitBefore(pr, cr, mc + 1)
    ensures
      var part := Stretch(y + 1, cr[mc].Last(), cr[mc + 1].st - 1);
      InnerSeen(pts + part, y, pr, cr, mp, mc + 1) && Adds(pts, pts + part, y, pr, cr)
  {
    hide Stretch, Seen, SplitBefore;
    var k, a, b := mc + 1, cr[mc].Last(), cr[mc + 1].st - 1;
    var part := Stretch(y + 1, a, b);
    SeenKept(pts, part, y, pr, cr, mp, mc);
    assert TopAt(pts + part, y + 1, pr, cr, mc, cr[mc].Last());
    SeenCurrent(pts + part, y, pr, cr, mp, mc);
    forall x | GapBefore(pr, cr, k, x)
      ensures Pt(x, y + 1) in pts + part
    {
      StretchHas(y + 1, a, b, Pt(x, y + 1));
    }
    forall x | Covers(cr[mc + 1], x) && x <= pr[mp].Last()
      ensures CoveredBy(pr, x)
    {
      RunCovers(pr, mp, x);
    }
    forall x | Covers(pr[mp], x) && x <= cr[mc + 1].Last() && !CoveredBy(cr, x) && !InGap(pr, cr, x)
      ensures Pt(x, y) in pts + part
    {
      assert !Covers(cr[mc + 1], x) && !GapBefore(pr, cr, mc + 1, x);
    }
    forall p | p in part
      ensures Placed(y, pr, cr, p)
    {
      StretchHas(y + 1, a, b, p);
      if p.x == a {
        RunCovers(cr, mc, p.x);
      } else {
        assert GapBefore(pr, cr, mc + 1, p.x);
      }
    }
    AddsPart(pts, part, y, pr, cr);
  }

  /** extend_end from the right end of run `mp` above to the right end of run `mc`. */
  lemma FinishSeen(pts: seq<Pt>, y: int, pr: Row, cr: Row, mp: nat, mc: nat)
    requires InnerSeen(pts, y, pr, cr, mp, mc) && Touches(pr[mp], cr[mc]) && Pt(pr[mp].Last(), y) in pts
    requires pr[mp].st < pr[mp].ed && cr[mc].st < cr[mc].ed
    ensures
      var part := DownTo(Pt(pr[mp].Last(), y), Smaller(pr[mp].Last(), cr[mc].Last()), cr[mc].Last());
      Seen(pts + part, y, pr, cr, mp + 1, mc + 1) && Adds(pts, pts + part, y, pr, cr)
  {
    hide DownTo, Seen, InGap, SplitBefore;
    var p0, to := Pt(pr[mp].Last(), y), cr[mc].Last();
    var turn := Smaller(p0.x, to);
    var part := DownTo(p0, turn, to);
    SeenKept(pts, part, y, pr, cr, mp, mc);
    forall x | Covers(cr[mc], x) && !CoveredBy(pr, x)
      ensures Pt(x, y + 1) in pts + part
    {
      DownToHas(p0, turn, to, Pt(x, y + 1));
    }
    SeenCurrent(pts + part, y, pr, cr, mp, mc);
    forall x | Covers(pr[mp], x) && !CoveredBy(cr, x) && !InGap(pr, cr, x)
      ensures Pt(x, y) in pts + part
    {
      DownToHas(p0, turn, to, Pt(x, y));
    }
    SeenAbove(pts + part, y, pr, cr, mp, mc + 1);
    forall p | p in part
      ensures Placed(y, pr, cr, p)
    {
      DownToHas(p0, turn, to, p);
      if p.y == y {
        RunCovers(pr, mp, p.x);
      } else {
        RunCovers(cr, mc, p.x);
      }
    }
    AddsPart(pts, part, y, pr, cr);
  }
}
