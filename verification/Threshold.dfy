/** Thresholding an image to runs (aos/vision/blob/threshold.h), and what the blobs of those runs mean for pixels. */
module Thresholds {
  import opened RangeImages
  import FindBlobs

  /** `rngs` are the maximal runs of true cells in the first `n` cells of `mask`. */
  ghost predicate RunsOf(mask: seq<bool>, n: nat, rngs: Row)
    requires n <= |mask|
  {
    && (forall k | 0 <= k < |rngs| :: 0 <= rngs[k].st < rngs[k].ed <= n)
    && (forall j, k | 0 <= j < k < |rngs| :: rngs[j].ed < rngs[k].st)
    && (forall x | 0 <= x < n :: mask[x] <==> CoveredBy(rngs, x))
  }

  lemma CoveredByAppend(rngs: Row, r: ImageRange, x: int)
    ensures CoveredBy(rngs + [r], x) <==> CoveredBy(rngs, x) || Covers(r, x)
  {
    var rngs' := rngs + [r];
    if CoveredBy(rngs, x) {
      var k :| 0 <= k < |rngs| && Covers(rngs[k], x);
      assert Covers(rngs'[k], x);
    }
    if Covers(r, x) {
      assert Covers(rngs'[|rngs|], x);
    }
  }

  /** Closing a run of true cells that started right after a gap. */
  lemma RunsOfClose(mask: seq<bool>, rngs: Row, st: nat, ed: nat)
    requires st < ed <= |mask| && RunsOf(mask, st, rngs)
    requires forall k | 0 <= k < |rngs| :: rngs[k].ed < st
    requires forall x | st <= x < ed :: mask[x]
    ensures RunsOf(mask, ed, rngs + [ImageRange(st, ed)])
  {
    forall x | 0 <= x < ed
      ensures mask[x] <==> CoveredBy(rngs + [ImageRange(st, ed)], x)
    {
      CoveredByAppend(rngs, ImageRange(st, ed), x);
    }
  }

  lemma RunsOfSkip(mask: seq<bool>, rngs: Row, n: nat)
    requires n < |mask| && !mask[n] && RunsOf(mask, n, rngs)
    ensures RunsOf(mask, n + 1, rngs)
  {
    assert !CoveredBy(rngs, n);
  }

  /** Which cells of a row the threshold function accepts. */
  ghost function RowMask<T(!new)>(row: seq<T>, fn: T -> bool): (mask: seq<bool>)
    ensures |mask| == |row| && forall x | 0 <= x < |row| :: mask[x] == fn(row[x])
  {
    seq(|row|, x requires 0 <= x < |row| => fn(row[x]))
  }

  ghost function ImageMask<T(!new)>(img: seq<seq<T>>, fn: T -> bool): (mask: seq<seq<bool>>)
    ensures |mask| == |img| && forall y | 0 <= y < |img| :: mask[y] == RowMask(img[y], fn)
  {
    seq(|img|, y requires 0 <= y < |img| => RowMask(img[y], fn))
  }

  /** The inner loop of do_threshold. */
  method ThresholdRow<T(!new)>(row: seq<T>, fn: T -> bool) returns (rngs: Row)
    ensures RunsOf(RowMask(row, fn), |row|, rngs)
  {
    ghost var mask := RowMask(row, fn);
    rngs := [];
    var pScore, pstart, x := false, -1, 0;
    while x < |row|
      invariant 0 <= x <= |row|
      invariant !pScore ==> RunsOf(mask, x, rngs) && forall k | 0 <= k < |rngs| :: rngs[k].ed < x
      invariant pScore ==> 0 <= pstart < x && RunsOf(mask, pstart, rngs)
      invariant pScore ==> forall k | 0 <= k < |rngs| :: rngs[k].ed < pstart
      invariant pScore ==> forall z | pstart <= z < x :: mask[z]
    {
      if fn(row[x]) != pScore {
        if pScore {
          RunsOfClose(mask, rngs, pstart, x);
          rngs := rngs + [ImageRange(pstart, x)];
        } else {
          pstart := x;
        }
        pScore := !pScore;
      }
      if !mask[x] {
        RunsOfSkip(mask, rngs, x);
      }
      x := x + 1;
    }
    if pScore {
      RunsOfClose(mask, rngs, pstart, |row|);
      rngs := rngs + [ImageRange(pstart, |row|)];
    }
  }

  ghost predicate RunsOfImage(mask: seq<seq<bool>>, rows: seq<Row>) {
    |rows| == |mask| && forall y | 0 <= y < |rows| :: RunsOf(mask[y], |mask[y]|, rows[y])
  }

  /** do_threshold: the maximal runs of every row. */
  method DoThreshold<T(!new)>(img: seq<seq<T>>, fn: T -> bool) returns (rows: seq<Row>)
    ensures RunsOfImage(ImageMask(img, fn), rows)
  {
    rows := [];
    for y := 0 to |img|
      invariant |rows| == y && forall k | 0 <= k < y :: RunsOf(RowMask(img[k], fn), |img[k]|, rows[k])
    {
      var rngs := ThresholdRow(img[y], fn);
      rows := rows + [rngs];
    }
  }

  // ----- 4-connected pixels -----

  ghost predicate Lit(mask: seq<seq<bool>>, p: Pt) {
    0 <= p.y < |mask| && 0 <= p.x < |mask[p.y]| && mask[p.y][p.x]
  }

  /** Side by side or one above the other. */
  predicate Neighbours(p: Pt, q: Pt) {
    || (p.y == q.y && (p.x + 1 == q.x || q.x + 1 == p.x))
    || (p.x == q.x && (p.y + 1 == q.y || q.y + 1 == p.y))
  }

  ghost predicate PixelPath(mask: seq<seq<bool>>, p: Pt, w: seq<Pt>, q: Pt)
    decreases |w|
  {
    && Lit(mask, p)
    && if w == [] then p == q else Neighbours(p, w[0]) && PixelPath(mask, w[0], w[1..], q)
  }

  ghost predicate FourConnected(mask: seq<seq<bool>>, p: Pt, q: Pt) {
    exists w :: PixelPath(mask, p, w, q)
  }

  lemma {:induction false} PixelPathJoin(mask: seq<seq<bool>>, p: Pt, w: seq<Pt>, q: Pt, w': seq<Pt>, r: Pt)
    requires PixelPath(mask, p, w, q) && PixelPath(mask, q, w', r)
    ensures PixelPath(mask, p, w + w', r)
    decreases |w|
  {
    if w == [] {
      assert w + w' == w';
    } else {
      PixelPathJoin(mask, w[0], w[1..], q, w', r);
      assert (w + w')[1..] == w[1..] + w';
    }
  }

  lemma FourConnectedTransitive(mask: seq<seq<bool>>, p: Pt, q: Pt, r: Pt)
    requires FourConnected(mask, p, q) && FourConnected(mask, q, r)
    ensures FourConnected(mask, p, r)
  {
    var w :| PixelPath(mask, p, w, q);
    var w' :| PixelPath(mask, q, w', r);
    PixelPathJoin(mask, p, w, q, w', r);
  }

  lemma FourConnectedStep(mask: seq<seq<bool>>, p: Pt, q: Pt)
    requires Lit(mask, p) && Lit(mask, q) && (p == q || Neighbours(p, q))
    ensures FourConnected(mask, p, q)
  {
    assert PixelPath(mask, q, [], q);
    if p != q {
      assert PixelPath(mask, p, [q], q);
    }
  }

  /** The pixel lies in the run. */
  ghost predicate In(u: Run, p: Pt) {
    u.y == p.y && Covers(u.rng, p.x)
  }

  lemma InIsLit(mask: seq<seq<bool>>, rows: seq<Row>, u: Run, p: Pt)
    requires RunsOfImage(mask, rows) && IsRun(rows, u) && In(u, p)
    ensures Lit(mask, p)
  {
    var k :| 0 <= k < |rows[u.y]| && rows[u.y][k] == u.rng;
    assert CoveredBy(rows[u.y], p.x);
  }

  lemma RunOfPixel(mask: seq<seq<bool>>, rows: seq<Row>, p: Pt) returns (u: Run)
    requires RunsOfImage(mask, rows) && Lit(mask, p)
    ensures IsRun(rows, u) && In(u, p)
  {
    assert CoveredBy(rows[p.y], p.x);
    var k :| 0 <= k < |rows[p.y]| && Covers(rows[p.y][k], p.x);
    u := Run(p.y, rows[p.y][k]);
  }

  /** Runs of one row that meet or abut are the same run. */
  lemma SameRun(mask: seq<seq<bool>>, rows: seq<Row>, u: Run, v: Run)
    requires RunsOfImage(mask, rows) && IsRun(rows, u) && IsRun(rows, v)
    requires u.y == v.y && u.rng.st <= v.rng.ed && v.rng.st <= u.rng.ed
    ensures u == v
  {
    var j :| 0 <= j < |rows[u.y]| && rows[u.y][j] == u.rng;
    var k :| 0 <= k < |rows[u.y]| && rows[u.y][k] == v.rng;
    assert j < k ==> rows[u.y][j].ed < rows[u.y][k].st;
    assert k < j ==> rows[u.y][k].ed < rows[u.y][j].st;
  }

  lemma {:induction false} AlongRun(mask: seq<seq<bool>>, rows: seq<Row>, u: Run, p: Pt, q: Pt)
    requires RunsOfImage(mask, rows) && IsRun(rows, u) && In(u, p) && In(u, q)
    ensures FourConnected(mask, p, q)
    decreases if p.x < q.x then q.x - p.x else p.x - q.x
  {
    InIsLit(mask, rows, u, p);
    InIsLit(mask, rows, u, q);
    if p.x == q.x {
      FourConnectedStep(mask, p, q);
    } else {
      var r := Pt(if p.x < q.x then p.x + 1 else p.x - 1, p.y);
      InIsLit(mask, rows, u, r);
      FourConnectedStep(mask, p, r);
      AlongRun(mask, rows, u, r, q);
      FourConnectedTransitive(mask, p, r, q);
    }
  }

  /** A path of touching runs carries a path of pixels. */
  lemma {:induction false} RunPathToPixels(mask: seq<seq<bool>>, rows: seq<Row>, u: Run, path: seq<Run>, v: Run, p: Pt, q: Pt)
    requires RunsOfImage(mask, rows) && Path(rows, u, path, v) && In(u, p) && In(v, q)
    ensures FourConnected(mask, p, q)
    decreases |path|
  {
    if path == [] {
      AlongRun(mask, rows, u, p, q);
    } else {
      var next := path[0];
      var x :| Covers(u.rng, x) && Covers(next.rng, x);
      var below, above := Pt(x, u.y), Pt(x, next.y);
      assert IsRun(rows, next);
      AlongRun(mask, rows, u, p, below);
      InIsLit(mask, rows, u, below);
      InIsLit(mask, rows, next, above);
      FourConnectedStep(mask, below, above);
      RunPathToPixels(mask, rows, next, path[1..], v, above, q);
      FourConnectedTransitive(mask, p, below, above);
      FourConnectedTransitive(mask, p, above, q);
    }
  }

  /** Neighbouring lit pixels lie in the same run or in touching runs. */
  lemma StepToRuns(mask: seq<seq<bool>>, rows: seq<Row>, u: Run, p: Pt, v: Run, q: Pt)
    requires RunsOfImage(mask, rows) && IsRun(rows, u) && IsRun(rows, v) && In(u, p) && In(v, q)
    requires Neighbours(p, q)
    ensures Connected(rows, u, v)
  {
    if p.y == q.y {
      SameRun(mask, rows, u, v);
      ConnectedSelf(rows, u);
    } else {
      assert ShareColumn(u.rng, v.rng);
      ConnectedTouch(rows, u, v);
    }
  }

  /** A path of lit pixels stays within connected runs. */
  lemma {:induction false} PixelPathToRuns(mask: seq<seq<bool>>, rows: seq<Row>, u: Run, p: Pt, w: seq<Pt>, v: Run, q: Pt)
    requires RunsOfImage(mask, rows) && IsRun(rows, u) && IsRun(rows, v) && In(u, p) && In(v, q)
    requires PixelPath(mask, p, w, q)
    ensures Connected(rows, u, v)
    decreases |w|
  {
    if w == [] {
      SameRun(mask, rows, u, v);
      ConnectedSelf(rows, u);
    } else {
      assert Lit(mask, w[0]);
      var next := RunOfPixel(mask, rows, w[0]);
      StepToRuns(mask, rows, u, p, next, w[0]);
      PixelPathToRuns(mask, rows, next, w[0], w[1..], v, q);
      ConnectedTransitive(rows, u, next, v);
    }
  }

  ghost predicate PixelInBlob(b: RangeImage, p: Pt) {
    exists r :: r in RowAt(b, p.y) && Covers(r, p.x)
  }

  /** No row of the blob is empty, and between two runs of a row there is a gap: no smaller blob has the same pixels. */
  ghost predicate Tight(b: RangeImage) {
    && FindBlobs.Solid(b)
    && forall y, j, k | 0 <= j < k < |RowAt(b, y)| :: RowAt(b, y)[j].ed < RowAt(b, y)[k].st
  }

  /** `blobs` split the lit pixels into their 4-connected components. */
  ghost predicate PixelComponents(mask: seq<seq<bool>>, blobs: seq<RangeImage>) {
    && (forall k | 0 <= k < |blobs| :: Tight(blobs[k]))
    && (forall p :: Lit(mask, p) <==> exists k :: 0 <= k < |blobs| && PixelInBlob(blobs[k], p))
    && (forall k, l, p, q | 0 <= k < |blobs| && 0 <= l < |blobs| && PixelInBlob(blobs[k], p) && PixelInBlob(blobs[l], q) ::
          k == l <==> FourConnected(mask, p, q))
  }

  lemma PixelBlobs(mask: seq<seq<bool>>, rows: seq<Row>, blobs: seq<RangeImage>)
    requires RunsOfImage(mask, rows) && FindBlobs.Components(rows, blobs)
    ensures PixelComponents(mask, blobs)
  {
    forall k | 0 <= k < |blobs|
      ensures Tight(blobs[k])
    {
      BlobTight(mask, rows, blobs, k);
    }
    forall p
      ensures Lit(mask, p) <==> exists k :: 0 <= k < |blobs| && PixelInBlob(blobs[k], p)
    {
      LitInBlob(mask, rows, blobs, p);
    }
    forall k, l, p, q | 0 <= k < |blobs| && 0 <= l < |blobs| && PixelInBlob(blobs[k], p) && PixelInBlob(blobs[l], q)
      ensures k == l <==> FourConnected(mask, p, q)
    {
      PixelsShareBlob(mask, rows, blobs, k, l, p, q);
    }
  }

  lemma BlobTight(mask: seq<seq<bool>>, rows: seq<Row>, blobs: seq<RangeImage>, k: nat)
    requires RunsOfImage(mask, rows) && FindBlobs.Components(rows, blobs) && k < |blobs|
    ensures Tight(blobs[k])
  {
    FindBlobs.ComponentsSolid(rows, blobs, k);
    forall y, i, j | 0 <= i < j < |RowAt(blobs[k], y)|
      ensures RowAt(blobs[k], y)[i].ed < RowAt(blobs[k], y)[j].st
    {
      var row := RowAt(blobs[k], y);
      var u, v := Run(y, row[i]), Run(y, row[j]);
      assert FindBlobs.InBlob(blobs[k], u) && FindBlobs.InBlob(blobs[k], v);
      assert SortedRow(row);
      if u.rng.ed >= v.rng.st {
        SameRun(mask, rows, u, v);
      }
    }
  }

  lemma LitInBlob(mask: seq<seq<bool>>, rows: seq<Row>, blobs: seq<RangeImage>, p: Pt)
    requires RunsOfImage(mask, rows) && FindBlobs.Components(rows, blobs)
    ensures Lit(mask, p) <==> exists k :: 0 <= k < |blobs| && PixelInBlob(blobs[k], p)
  {
    if Lit(mask, p) {
      var u := RunOfPixel(mask, rows, p);
      var k :| 0 <= k < |blobs| && FindBlobs.InBlob(blobs[k], u);
      assert PixelInBlob(blobs[k], p);
    }
    if k :| 0 <= k < |blobs| && PixelInBlob(blobs[k], p) {
      var u := BlobRunOfPixel(rows, blobs, k, p);
      InIsLit(mask, rows, u, p);
    }
  }

  lemma BlobRunOfPixel(rows: seq<Row>, blobs: seq<RangeImage>, k: nat, p: Pt) returns (u: Run)
    requires FindBlobs.Components(rows, blobs) && k < |blobs| && PixelInBlob(blobs[k], p)
    ensures IsRun(rows, u) && In(u, p) && FindBlobs.InBlob(blobs[k], u)
  {
    var r :| r in RowAt(blobs[k], p.y) && Covers(r, p.x);
    u := Run(p.y, r);
    assert FindBlobs.InBlob(blobs[k], u);
  }

  lemma PixelsShareBlob(mask: seq<seq<bool>>, rows: seq<Row>, blobs: seq<RangeImage>, k: nat, l: nat, p: Pt, q: Pt)
    requires RunsOfImage(mask, rows) && FindBlobs.Components(rows, blobs)
    requires k < |blobs| && l < |blobs| && PixelInBlob(blobs[k], p) && PixelInBlob(blobs[l], q)
    ensures k == l <==> FourConnected(mask, p, q)
  {
    var u := BlobRunOfPixel(rows, blobs, k, p);
    var v := BlobRunOfPixel(rows, blobs, l, q);
    assert k == l <==> Connected(rows, u, v);
    if Connected(rows, u, v) {
      var path :| Path(rows, u, path, v);
      RunPathToPixels(mask, rows, u, path, v, p, q);
    }
    if FourConnected(mask, p, q) {
      var w :| PixelPath(mask, p, w, q);
      PixelPathToRuns(mask, rows, u, p, w, v, q);
    }
  }

  /** Thresholding followed by find_blobs yields the 4-connected components of the accepted pixels. */
  method BlobsOfImage<T(!new)>(img: seq<seq<T>>, fn: T -> bool) returns (blobs: seq<RangeImage>)
    requires img != []
    ensures PixelComponents(ImageMask(img, fn), blobs) && exists seeds :: FindBlobs.Seeds(blobs, seeds)
  {
    var rows := DoThreshold(img, fn);
    ghost var mask := ImageMask(img, fn);
    forall y | 0 <= y < |rows|
      ensures SortedRow(rows[y])
    {
      assert RunsOf(mask[y], |mask[y]|, rows[y]);
    }
    blobs := FindBlobs.FindBlobs(rows);
    PixelBlobs(mask, rows, blobs);
  }
}
