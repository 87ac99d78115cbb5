/** Line drawing in integers (aos/vision/utils/bresenham.cc). */
module Bresenham {
  import opened Basics
  import opened RangeImages

  /** Twice the distance along the minor axis, times the length along the major one, is at most that length. */
  predicate Near(a: Pt, b: Pt, p: Pt) {
    var dx, dy := b.x - a.x, b.y - a.y;
    2 * Abs(dy * (p.x - a.x) - dx * (p.y - a.y)) <= if Abs(dx) > Abs(dy) then Abs(dx) else Abs(dy)
  }

  /** After `k` steps along the longer axis, `s` along the other: the nearest, and of two as near the smaller one. */
  predicate Rounded(major: int, minor: int, k: int, s: int) {
    if major == 0 then s == 0 else 0 - major < 2 * (minor * k - major * s) <= major
  }

  function Toward(o: int, d: int, p: int): int {
    if d < o then o - p else p - o
  }

  /** The point is where a line from `o` to `d` passes. */
  predicate OnLine(o: Pt, d: Pt, p: Pt) {
    if Abs(d.x - o.x) > Abs(d.y - o.y) then Rounded(d.x - o.x, Abs(d.y - o.y), p.x - o.x, Toward(o.y, d.y, p.y))
    else Rounded(d.y - o.y, Abs(d.x - o.x), p.y - o.y, Toward(o.x, d.x, p.x))
  }

  /** One point for each coordinate along the longer axis, from one end of the line to the other. */
  ghost predicate IsLine(a: Pt, b: Pt, line: seq<Pt>) {
    var xMajor := Abs(b.x - a.x) > Abs(b.y - a.y);
    && |line| == 1 + (if xMajor then Abs(b.x - a.x) else Abs(b.y - a.y))
    && ((line[0] == a && line[|line| - 1] == b) || (line[0] == b && line[|line| - 1] == a))
    && (forall k | 0 <= k < |line| :: Near(a, b, line[k]) && OnLine(line[0], line[|line| - 1], line[k]))
    && (forall k | 0 <= k < |line| ::
          if xMajor then line[k].x == line[0].x + k else line[k].y == line[0].y + k)
  }

  lemma RoundedOnce(major: int, minor: int, k: int, s: int, t: int)
    requires major >= 0 && Rounded(major, minor, k, s) && Rounded(major, minor, k, t)
    ensures s == t
  {
    if major > 0 {
      assert major * (s - t) == major * s - major * t;
      Between(major, s - t);
    }
  }

  lemma Between(d: int, t: int)
    requires d > 0 && 0 - d < d * t < d
    ensures t == 0
  {
    Multiple(d, t);
  }

  /** There is only one line. */
  lemma LineUnique(a: Pt, b: Pt, l: seq<Pt>, m: seq<Pt>)
    requires IsLine(a, b, l) && IsLine(a, b, m)
    ensures l == m
  {
    hide Near, Rounded;
    var n := |l| - 1;
    assert l[n].x == l[0].x + n || l[n].y == l[0].y + n;
    assert m[n].x == m[0].x + n || m[n].y == m[0].y + n;
    assert l[0] == m[0] && l[n] == m[n];
    var o, d := l[0], l[n];
    forall k | 0 <= k < |l|
      ensures l[k] == m[k]
    {
      assert OnLine(o, d, l[k]) && OnLine(o, d, m[k]);
      if Abs(d.x - o.x) > Abs(d.y - o.y) {
        RoundedOnce(d.x - o.x, Abs(d.y - o.y), k, Toward(o.y, d.y, l[k].y), Toward(o.y, d.y, m[k].y));
      } else {
        RoundedOnce(d.y - o.y, Abs(d.x - o.x), k, Toward(o.x, d.x, l[k].x), Toward(o.x, d.x, m[k].x));
      }
    }
  }

  /** Which end a line is drawn from does not matter. */
  lemma NearEitherWay(a: Pt, b: Pt, p: Pt)
    ensures Near(a, b, p) <==> Near(b, a, p)
  {
    var dx, dy := b.x - a.x, b.y - a.y;
    assert (-dy) * (p.x - b.x) - (-dx) * (p.y - b.y) == -(dy * (p.x - a.x) - dx * (p.y - a.y)) by {
      assert p.x - b.x == p.x - a.x - dx && p.y - b.y == p.y - a.y - dy;
    }
  }

  /** The error term after `k` steps of which `s` moved along the minor axis. */
  ghost predicate ErrorOk(major: nat, minor: nat, k: int, s: int, error: int) {
    error == 2 * (minor * k - major * s) - major && (major > 0 ==> -2 * major < error) && error <= 0
  }

  lemma ErrorStart(major: nat, minor: nat)
    ensures ErrorOk(major, minor, 0, 0, 0 - major)
  {
  }

  lemma ErrorStep(major: nat, minor: nat, k: int, s: int, error: int)
    requires ErrorOk(major, minor, k, s, error) && minor <= major
    ensures
      var e := error + 2 * minor;
      if e > 0 then ErrorOk(major, minor, k + 1, s + 1, e - 2 * major) else ErrorOk(major, minor, k + 1, s, e)
  {
    assert minor * (k + 1) == minor * k + minor && major * (s + 1) == major * s + major;
  }

  lemma LessThanOne(d: int, t: int)
    requires d > 0 && 0 - d <= 2 * (d * t) <= d
    ensures t == 0
  {
    Multiple(d, t);
  }

  /** After as many steps as the line is long it has come to the other end. */
  lemma ErrorAtEnd(major: nat, minor: nat, s: int, error: int)
    requires ErrorOk(major, minor, major, s, error) && major > 0
    ensures s == minor
  {
    var t := minor - s;
    assert minor * major - major * s == major * t;
    LessThanOne(major, t);
  }

  lemma RoundedOk(major: nat, minor: nat, k: int, s: int, error: int)
    requires ErrorOk(major, minor, k, s, error) && (major == 0 ==> s == 0)
    ensures Rounded(major, minor, k, s)
  {
  }

  lemma OnLineX(a: Pt, b: Pt, k: int, s: int, t: int, error: int)
    requires Abs(b.x - a.x) > Abs(b.y - a.y) && a.x <= b.x && t == (if b.y < a.y then -s else s)
    requires ErrorOk(b.x - a.x, Abs(b.y - a.y), k, s, error)
    ensures OnLine(a, b, Pt(a.x + k, a.y + t))
  {
    RoundedOk(b.x - a.x, Abs(b.y - a.y), k, s, error);
    hide Rounded, ErrorOk;
    assert a.x + k - a.x == k && Toward(a.y, b.y, a.y + t) == s;
  }

  lemma OnLineY(a: Pt, b: Pt, k: int, s: int, t: int, error: int)
    requires Abs(b.x - a.x) <= Abs(b.y - a.y) && a.y <= b.y && t == (if b.x < a.x then -s else s)
    requires ErrorOk(b.y - a.y, Abs(b.x - a.x), k, s, error) && (a.y == b.y ==> s == 0)
    ensures OnLine(a, b, Pt(a.x + t, a.y + k))
  {
    RoundedOk(b.y - a.y, Abs(b.x - a.x), k, s, error);
    hide Rounded, ErrorOk;
    assert a.y + k - a.y == k && Toward(a.x, b.x, a.x + t) == s;
  }

  lemma NearX(a: Pt, b: Pt, k: int, s: int, t: int, error: int)
    requires Abs(b.x - a.x) > Abs(b.y - a.y) && a.x <= b.x && t == (if b.y < a.y then -s else s)
    requires ErrorOk(b.x - a.x, Abs(b.y - a.y), k, s, error)
    ensures Near(a, b, Pt(a.x + k, a.y + t))
  {
    var dx, dy := b.x - a.x, b.y - a.y;
    if dy < 0 {
      assert dy * k - dx * t == -(Abs(dy) * k - dx * s);
    } else {
      assert dy * k - dx * t == Abs(dy) * k - dx * s;
    }
  }

  lemma NearY(a: Pt, b: Pt, k: int, s: int, t: int, error: int)
    requires Abs(b.x - a.x) <= Abs(b.y - a.y) && a.y <= b.y && t == (if b.x < a.x then -s else s)
    requires ErrorOk(b.y - a.y, Abs(b.x - a.x), k, s, error)
    ensures Near(a, b, Pt(a.x + t, a.y + k))
  {
    var dx, dy := b.x - a.x, b.y - a.y;
    if dx < 0 {
      assert dy * t - dx * k == Abs(dx) * k - dy * s;
    } else {
      assert dy * t - dx * k == -(Abs(dx) * k - dy * s);
    }
  }

  /** img_write_char: points outside the image are skipped. */
  method Write<T>(img: array2<T>, p: Pt, color: T)
    modifies img
    ensures forall x, y | 0 <= x < img.Length0 && 0 <= y < img.Length1 ::
              img[x, y] == if Pt(x, y) == p then color else old(img[x, y])
  {
    if 0 <= p.y < img.Length1 && 0 <= p.x < img.Length0 {
      img[p.x, p.y] := color;
    }
  }

  /** draw_bresham_line; `line` lists the points in the order in which they are painted. */
  method DrawLine<T>(from: Pt, to: Pt, img: array2<T>, color: T) returns (ghost line: seq<Pt>)
    modifies img
    ensures IsLine(from, to, line)
    ensures forall x, y | 0 <= x < img.Length0 && 0 <= y < img.Length1 ::
              img[x, y] == if Pt(x, y) in line then color else old(img[x, y])
  {
    hide Near, OnLine;
    var a, b := from, to;
    if if Abs(b.x - a.x) > Abs(b.y - a.y) then a.x > b.x else a.y > b.y {
      a, b := b, a;
    }
    var dx, dy := b.x - a.x, b.y - a.y;
    if Abs(dx) > Abs(dy) {
      line := DrawX(a, b, img, color);
    } else {
      line := DrawY(a, b, img, color);
    }
    forall k | 0 <= k < |line|
      ensures Near(from, to, line[k])
    {
      NearEitherWay(a, b, line[k]);
    }
  }

  /** The loop for lines that are longer in x. */
  method DrawX<T>(a: Pt, b: Pt, img: array2<T>, color: T) returns (ghost line: seq<Pt>)
    requires Abs(b.x - a.x) > Abs(b.y - a.y) && a.x <= b.x
    modifies img
    ensures IsLine(a, b, line) && line[0] == a
    ensures forall x, y | 0 <= x < img.Length0 && 0 <= y < img.Length1 ::
              img[x, y] == if Pt(x, y) in line then color else old(img[x, y])
  {
    hide Near, OnLine, ErrorOk;
    var dx, dy, up := b.x - a.x, b.y - a.y, 1;
    if dy < 0 {
      up, dy := -1, -dy;
    }
    var error, py, px := -dx, a.y, a.x;
    ghost var s := 0;
    line := [];
    ErrorStart(dx, dy);
    while px <= b.x
      invariant a.x <= px <= b.x + 1 && |line| == px - a.x && py - a.y == (if up < 0 then -s else s)
      invariant ErrorOk(dx, dy, px - a.x, s, error)
      invariant |line| > 0 ==> line[0] == a
      invariant px > b.x ==> line[dx] == b
      invariant px == a.x ==> s == 0
      invariant forall k | 0 <= k < |line| :: Near(a, b, line[k]) && OnLine(a, b, line[k]) && line[k].x == a.x + k
      invariant forall x, y | 0 <= x < img.Length0 && 0 <= y < img.Length1 ::
                  img[x, y] == if Pt(x, y) in line then color else old(img[x, y])
    {
      NearX(a, b, px - a.x, s, py - a.y, error);
      OnLineX(a, b, px - a.x, s, py - a.y, error);
      if px == b.x {
        ErrorAtEnd(dx, dy, s, error);
      }
      Write(img, Pt(px, py), color);
      line := line + [Pt(px, py)];
      ErrorStep(dx, dy, px - a.x, s, error);
      error := error + 2 * dy;
      if error > 0 {
        error, py, s := error - 2 * dx, py + up, s + 1;
      }
      px := px + 1;
    }
  }

  /** The loop for lines that are longer in y. */
  method DrawY<T>(a: Pt, b: Pt, img: array2<T>, color: T) returns (ghost line: seq<Pt>)
    requires Abs(b.x - a.x) <= Abs(b.y - a.y) && a.y <= b.y
    modifies img
    ensures IsLine(a, b, line) && line[0] == a
    ensures forall x, y | 0 <= x < img.Length0 && 0 <= y < img.Length1 ::
              img[x, y] == if Pt(x, y) in line then color else old(img[x, y])
  {
    hide Near, OnLine, ErrorOk;
    var dx, dy, up := b.x - a.x, b.y - a.y, 1;
    if dx < 0 {
      up, dx := -1, -dx;
    }
    var error, px, py := -dy, a.x, a.y;
    ghost var s := 0;
    line := [];
    ErrorStart(dy, dx);
    while py <= b.y
      invariant a.y <= py <= b.y + 1 && |line| == py - a.y && px - a.x == (if up < 0 then -s else s)
      invariant ErrorOk(dy, dx, py - a.y, s, error)
      invariant |line| > 0 ==> line[0] == a
      invariant py > b.y ==> line[dy] == b
      invariant py == a.y ==> s == 0
      invariant forall k | 0 <= k < |line| :: Near(a, b, line[k]) && OnLine(a, b, line[k]) && line[k].y == a.y + k
      invariant forall x, y | 0 <= x < img.Length0 && 0 <= y < img.Length1 ::
                  img[x, y] == if Pt(x, y) in line then color else old(img[x, y])
    {
      NearY(a, b, py - a.y, s, px - a.x, error);
      OnLineY(a, b, py - a.y, s, px - a.x, error);
      if py == b.y && dy > 0 {
        ErrorAtEnd(dy, dx, s, error);
      }
      Write(img, Pt(px, py), color);
      line := line + [Pt(px, py)];
      ErrorStep(dy, dx, py - a.y, s, error);
      error := error + 2 * dx;
      if error > 0 {
        error, px, s := error - 2 * dy, px + up, s + 1;
      }
      py := py + 1;
    }
  }
}
