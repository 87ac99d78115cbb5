/** Run-length encoded images (aos/vision/blob/range_image.h) and run connectivity. */
module RangeImages {

  datatype Pt = Pt(x: int, y: int)

  /** The columns `st`, ..., `ed - 1` of one image row. */
  datatype ImageRange = ImageRange(st: int, ed: int) {
    function Last(): int { ed - 1 }
  }

  type Row = seq<ImageRange>

  /** `ranges[k]` holds the runs of image row `mini + k`. */
  datatype RangeImage = RangeImage(mini: int, ranges: seq<Row>)

  /** The runs `img` has in image row `y`. */
  function RowAt(img: RangeImage, y: int): Row {
    if img.mini <= y < img.mini + |img.ranges| then img.ranges[y - img.mini] else []
  }

  predicate Covers(r: ImageRange, x: int) {
    r.st <= x < r.ed
  }

  ghost predicate CoveredBy(rngs: Row, x: int) {
    exists k :: 0 <= k < |rngs| && Covers(rngs[k], x)
  }

  /** The runs are non-empty, disjoint and listed from left to right. */
  predicate SortedRow(row: Row) {
    && (forall k | 0 <= k < |row| :: row[k].st < row[k].ed)
    && (forall j, k | 0 <= j < k < |row| :: row[j].ed <= row[k].st)
  }

  ghost predicate ShareColumn(a: ImageRange, b: ImageRange) {
    exists x :: Covers(a, x) && Covers(b, x)
  }

  lemma ShareColumnTest(a: ImageRange, b: ImageRange)
    requires a.st < a.ed && b.st < b.ed
    ensures ShareColumn(a, b) <==> a.st <= b.Last() && b.st <= a.Last()
  {
    if a.st <= b.Last() && b.st <= a.Last() {
      var x := if a.st <= b.st then b.st else a.st;
      assert Covers(a, x) && Covers(b, x);
    }
  }

  /** One run of an image: a range and the row it lies in. */
  datatype Run = Run(y: int, rng: ImageRange)

  ghost predicate IsRun(rows: seq<Row>, u: Run) {
    0 <= u.y < |rows| && u.rng in rows[u.y]
  }

  /** Runs of neighbouring rows that share a column. */
  ghost predicate Touch(u: Run, v: Run) {
    (u.y + 1 == v.y || v.y + 1 == u.y) && ShareColumn(u.rng, v.rng)
  }

  /** Stepping from `u` through `p`, each step between touching runs, ends at `v`. */
  ghost predicate Path(rows: seq<Row>, u: Run, p: seq<Run>, v: Run)
    decreases |p|
  {
    && IsRun(rows, u)
    && if p == [] then u == v else Touch(u, p[0]) && Path(rows, p[0], p[1..], v)
  }

  /** The reflexive, symmetric and transitive closure of `Touch` on the runs of `rows`. */
  ghost predicate Connected(rows: seq<Row>, u: Run, v: Run) {
    exists p :: Path(rows, u, p, v)
  }

  lemma {:induction false} PathJoin(rows: seq<Row>, u: Run, p: seq<Run>, v: Run, q: seq<Run>, w: Run)
    requires Path(rows, u, p, v) && Path(rows, v, q, w)
    ensures Path(rows, u, p + q, w)
    decreases |p|
  {
    if p == [] {
      assert p + q == q;
    } else {
      PathJoin(rows, p[0], p[1..], v, q, w);
      assert (p + q)[1..] == p[1..] + q;
    }
  }

  lemma {:induction false} PathReverse(rows: seq<Row>, u: Run, p: seq<Run>, v: Run) returns (q: seq<Run>)
    requires Path(rows, u, p, v)
    ensures Path(rows, v, q, u)
    decreases |p|
  {
    if p == [] {
      q := [];
    } else {
      var q' := PathReverse(rows, p[0], p[1..], v);
      assert IsRun(rows, p[0]);
      assert Path(rows, u, [], u);
      assert Path(rows, p[0], [u], u);
      PathJoin(rows, v, q', p[0], [u], u);
      q := q' + [u];
    }
  }

  lemma ConnectedSelf(rows: seq<Row>, u: Run)
    requires IsRun(rows, u)
    ensures Connected(rows, u, u)
  {
    assert Path(rows, u, [], u);
  }

  lemma ConnectedTouch(rows: seq<Row>, u: Run, v: Run)
    requires IsRun(rows, u) && IsRun(rows, v) && Touch(u, v)
    ensures Connected(rows, u, v)
  {
    assert Path(rows, v, [], v);
    assert Path(rows, u, [v], v);
  }

  lemma ConnectedSymmetric(rows: seq<Row>, u: Run, v: Run)
    requires Connected(rows, u, v)
    ensures Connected(rows, v, u)
  {
    var p :| Path(rows, u, p, v);
    var q := PathReverse(rows, u, p, v);
  }

  lemma ConnectedTransitive(rows: seq<Row>, u: Run, v: Run, w: Run)
    requires Connected(rows, u, v) && Connected(rows, v, w)
    ensures Connected(rows, u, w)
  {
    var p :| Path(rows, u, p, v);
    var q :| Path(rows, v, q, w);
    PathJoin(rows, u, p, v, q, w);
  }
}
