/** The in-place box filter over one row or column of a grey image (aos/vision/filters.h). */
module BoxFilters {
  import opened Basics

  /** Division as C++ does it, towards zero. */
  function TruncDiv(a: int, b: int): int
    requires b > 0
  {
    if a >= 0 then a / b else -((-a) / b)
  }

  /** `a[lo] + ... + a[hi - 1]` */
  ghost function Sum(a: seq<int>, lo: int, hi: int): int
    requires 0 <= lo <= hi <= |a|
    decreases hi - lo
  {
    if lo == hi then 0 else Sum(a, lo, hi - 1) + a[hi - 1]
  }

  ghost function Max(x: int, y: int): int {
    if x >= y then x else y
  }

  ghost function Min(x: int, y: int): int {
    if x <= y then x else y
  }

  /** The truncated mean of the cells at most `box` away from `i`. */
  ghost function Mean(a: seq<int>, box: nat, i: int): int
    requires 0 <= i < |a|
  {
    var lo, hi := Max(0, i - box), Min(|a|, i + box + 1);
    TruncDiv(Sum(a, lo, hi), hi - lo)
  }

  lemma {:induction false} SumDropFirst(a: seq<int>, lo: int, hi: int)
    requires 0 <= lo < hi <= |a|
    ensures Sum(a, lo, hi) == a[lo] + Sum(a, lo + 1, hi)
    decreases hi - lo
  {
    if lo + 1 < hi {
      SumDropFirst(a, lo, hi - 1);
    }
  }

  lemma {:induction false} SumBounds(a: seq<int>, lo: int, hi: int, least: int, most: int)
    requires 0 <= lo <= hi <= |a| && forall i | 0 <= i < |a| :: least <= a[i] <= most
    ensures (hi - lo) * least <= Sum(a, lo, hi) <= (hi - lo) * most
    decreases hi - lo
  {
    if lo < hi {
      SumBounds(a, lo, hi - 1, least, most);
      assert (hi - lo) * least == (hi - 1 - lo) * least + least;
      assert (hi - lo) * most == (hi - 1 - lo) * most + most;
    }
  }

  lemma DivBounds(x: int, c: int, least: int, most: int)
    requires c > 0 && c * least <= x <= c * most
    ensures least <= TruncDiv(x, c) <= most
  {
    if x >= 0 {
      DivFloor(x, c, least, most);
    } else {
      assert c * -most == -(c * most) && c * -least == -(c * least);
      DivFloor(-x, c, -most, -least);
    }
  }

  lemma DivFloor(x: int, c: int, least: int, most: int)
    requires c > 0 && x >= 0 && c * least <= x <= c * most
    ensures least <= x / c <= most
  {
    var q := x / c;
    assert c * q <= x < c * (q + 1) by {
      assert x == c * q + x % c;
    }
    if q < least {
      MulOrder(c, q + 1, least);
    }
    if q > most {
      MulOrder(c, most + 1, q);
    }
  }

  /** A filtered pixel lies between the smallest and the largest pixel, so 16 bits hold it whenever they hold those. */
  lemma MeanInRange(a: seq<int>, box: nat, i: int, least: int, most: int)
    requires 0 <= i < |a| && forall k | 0 <= k < |a| :: least <= a[k] <= most
    ensures least <= Mean(a, box, i) <= most
  {
    var lo, hi := Max(0, i - box), Min(|a|, i + box + 1);
    SumBounds(a, lo, hi, least, most);
    DivBounds(Sum(a, lo, hi), hi - lo, least, most);
  }

  // ----- the window of sums and averages -----

  /** Before step `i` the sum covers the cells that step `i - 1` left in it. */
  ghost predicate SumOk(a: seq<int>, box: nat, i: int, val: int, c: int) {
    && 0 <= i <= |a|
    && c == Min(|a|, i + box) - Max(0, i - box) >= 0
    && val == Sum(a, Max(0, i - box), Min(|a|, i + box))
  }

  /** The sum with the cell that comes into the window at `i`, if there is one, gives the mean at `i`. */
  lemma MeanOfSum(a: seq<int>, box: nat, i: int, val: int, c: int, val': int, c': int)
    requires 0 <= i < |a| && SumOk(a, box, i, val, c)
    requires if i + box < |a| then val' == val + a[i + box] && c' == c + 1 else val' == val && c' == c
    ensures c' > 0 && TruncDiv(val', c') == Mean(a, box, i)
    ensures i < box ==> SumOk(a, box, i + 1, val', c')
    ensures i >= box ==> SumOk(a, box, i + 1, val' - a[i - box], c' - 1)
  {
    var lo, hi := Max(0, i - box), Min(|a|, i + box + 1);
    assert val' == Sum(a, lo, hi);
    if i >= box {
      SumDropFirst(a, lo, hi);
    }
  }

  function Slot(k: int, w: int): (s: int)
    requires 0 <= k && w > 0
    ensures 0 <= s < w
  {
    k % w
  }

  lemma SlotsDiffer(j: int, k: int, w: int)
    requires 0 <= j < k < j + w
    ensures Slot(j, w) != Slot(k, w)
  {
    var d := k / w - j / w;
    assert k - j == w * d + (k % w - j % w) by {
      assert w * d == w * (k / w) - w * (j / w);
    }
    if d <= 0 {
      MulOrder(w, d, 0);
    } else {
      MulOrder(w, 1, d);
    }
  }

  /** The buffer holds the means from `lo` to `hi - 1`. */
  ghost predicate Buffered(buff: seq<int>, a: seq<int>, box: nat, lo: int, hi: int) {
    && |buff| == 2 * box + 1 && 0 <= lo && hi <= |a|
    && forall k | lo <= k < hi :: buff[Slot(k, |buff|)] == Mean(a, box, k)
  }

  lemma BufferedNext(buff: seq<int>, a: seq<int>, box: nat, lo: int, i: int, m: int)
    requires Buffered(buff, a, box, lo, i) && 0 <= i < |a| && m == Mean(a, box, i) && i - box <= lo <= i
    ensures Buffered(buff[Slot(i, |buff|) := m], a, box, lo, i + 1)
  {
    hide Mean, Slot;
    var buff' := buff[Slot(i, |buff|) := m];
    forall k | lo <= k < i + 1
      ensures buff'[Slot(k, |buff|)] == Mean(a, box, k)
    {
      if k < i {
        SlotsDiffer(k, i, |buff|);
      }
    }
  }

  /** The first `done` cells are filtered and the others untouched. */
  ghost predicate RowOk(row: seq<int>, a: seq<int>, box: nat, done: int) {
    && |row| == |a|
    && (forall k | 0 <= k < |a| && k < done :: row[k] == Mean(a, box, k))
    && (forall k | 0 <= k < |a| && k >= done :: row[k] == a[k])
  }

  lemma RowNext(row: seq<int>, buff: seq<int>, a: seq<int>, box: nat, done: int, hi: int)
    requires RowOk(row, a, box, done) && Buffered(buff, a, box, done, hi) && 0 <= done < hi
    ensures RowOk(row[done := buff[Slot(done, |buff|)]], a, box, done + 1) && Buffered(buff, a, box, done + 1, hi)
  {
    hide Mean, Slot;
  }

  /** Filters one row or column in place, with a buffer as long as the window. */
  method BoxFilter(row: array<int>, box: nat)
    modifies row
    ensures 2 * box + 1 > row.Length ==> row[..] == old(row[..])
    ensures 2 * box + 1 <= row.Length ==> forall i | 0 <= i < row.Length :: row[i] == Mean(old(row[..]), box, i)
  {
    hide Mean, Slot, Sum, TruncDiv;
    var w, n := 2 * box + 1, row.Length;
    if w > n {
      return;
    }
    var buff := new int[w];
    ghost var a := row[..];
    var val, c := FirstCells(row, box);
    var i := 0;
    while i < box
      invariant 0 <= i <= box && row[..] == a && SumOk(a, box, i, val, c) && Buffered(buff[..], a, box, 0, i)
    {
      MeanOfSum(a, box, i, val, c, val + a[i + box], c + 1);
      val, c := val + row[i + box], c + 1;
      BufferedNext(buff[..], a, box, 0, i, TruncDiv(val, c));
      Put(buff, Slot(i, w), TruncDiv(val, c));
      i := i + 1;
    }
    while i < n - box
      invariant box <= i <= n - box && SumOk(a, box, i, val, c)
      invariant Buffered(buff[..], a, box, i - box, i) && RowOk(row[..], a, box, i - box)
    {
      MeanOfSum(a, box, i, val, c, val + a[i + box], c + 1);
      val, c := val + row[i + box], c + 1;
      val, c := Advance(row, buff, a, box, i, val, c);
      i := i + 1;
    }
    while i < n
      invariant n - box <= i <= n && SumOk(a, box, i, val, c)
      invariant Buffered(buff[..], a, box, i - box, i) && RowOk(row[..], a, box, i - box)
    {
      MeanOfSum(a, box, i, val, c, val, c);
      val, c := Advance(row, buff, a, box, i, val, c);
      i := i + 1;
    }
    i := i - box;
    while i < n
      invariant n - box <= i <= n && Buffered(buff[..], a, box, i, n) && RowOk(row[..], a, box, i)
    {
      RowNext(row[..], buff[..], a, box, i, n);
      Put(row, i, buff[Slot(i, w)]);
      i := i + 1;
    }
  }

  /** The sum of the first `box` cells. */
  method FirstCells(row: array<int>, box: nat) returns (val: int, c: int)
    requires 2 * box + 1 <= row.Length
    ensures SumOk(row[..], box, 0, val, c)
  {
    val, c := 0, 0;
    for i := 0 to box
      invariant c == i && val == Sum(row[..], 0, i)
    {
      val, c := val + row[i], c + 1;
    }
  }

  method Put(a: array<int>, k: int, v: int)
    requires 0 <= k < a.Length
    modifies a
    ensures a[..] == old(a[..])[k := v]
  {
    a[k] := v;
  }

  /** The common part of the steps that store a mean and write back the one of `box` steps before. */
  method Advance(row: array<int>, buff: array<int>, ghost a: seq<int>, box: nat, i: int, val: int, c: int)
    returns (val': int, c': int)
    requires row != buff && box <= i < |a| && c > 0 && TruncDiv(val, c) == Mean(a, box, i)
    requires Buffered(buff[..], a, box, i - box, i) && RowOk(row[..], a, box, i - box)
    modifies row, buff
    ensures Buffered(buff[..], a, box, i - box + 1, i + 1) && RowOk(row[..], a, box, i - box + 1)
    ensures val' == val - a[i - box] && c' == c - 1
  {
    hide Mean, Slot, TruncDiv;
    BufferedNext(buff[..], a, box, i - box, i, TruncDiv(val, c));
    Put(buff, Slot(i, buff.Length), TruncDiv(val, c));
    val', c' := val - row[i - box], c - 1;
    RowNext(row[..], buff[..], a, box, i - box, i + 1);
    Put(row, i - box, buff[Slot(i - box, buff.Length)]);
  }
}
