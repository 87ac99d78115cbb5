/** Sums over circular ranges from running sums (aos/vision/blob/hierarchical_contour_merge.cc). */
module IntegralArrays {
  import opened Basics

  /** Remainder as C++ has it, with the sign of the dividend. */
  function Rem(a: int, n: int): int
    requires n > 0
  {
    if a >= 0 then a % n else -((-a) % n)
  }

  /** The original's `mod`, which takes two remainders to get a number that is not negative. */
  function Mod(a: int, n: int): int
    requires n > 0
  {
    Rem(Rem(a, n) + n, n)
  }

  lemma ModIsEuclidean(a: int, n: int)
    requires n > 0
    ensures Mod(a, n) == a % n
  {
    if a < 0 {
      var q, r := (-a) / n, (-a) % n;
      assert -a == n * q + r;
      if r == 0 {
        assert a == n * -q + 0;
        ModUnique(a, n, -q, 0);
        ModUnique(n, n, 1, 0);
      } else {
        assert a == n * (-q - 1) + (n - r) by {
          assert n * (-q - 1) == -(n * q) - n;
        }
        ModUnique(a, n, -q - 1, n - r);
        ModUnique(n - r, n, 0, n - r);
      }
    } else {
      var r := a % n;
      ModUnique(r + n, n, 1, r);
    }
  }

  lemma ModUnique(a: int, n: int, q: int, r: int)
    requires n > 0 && a == n * q + r && 0 <= r < n
    ensures a % n == r
  {
    var q', r' := a / n, a % n;
    assert a == n * q' + r';
    assert n * (q - q') == r' - r by {
      assert n * (q - q') == n * q - n * q';
    }
    Multiple(n, q - q');
  }

  /** The sum of the first `k` values. */
  ghost function Prefix(s: seq<int>, k: int): int
    requires 0 <= k <= |s|
  {
    if k == 0 then 0 else Prefix(s, k - 1) + s[k - 1]
  }

  /** `count` values from index `from` on, going round at the end. */
  ghost function RoundSum(s: seq<int>, from: int, count: nat): int
    requires 0 <= from < |s|
    decreases count
  {
    if count == 0 then 0 else s[from] + RoundSum(s, if from + 1 == |s| then 0 else from + 1, count - 1)
  }

  /** Up to the end of the values a sum is a difference of running sums; beyond, it goes on from the start. */
  lemma {:induction false} RoundSumIs(s: seq<int>, from: int, count: nat)
    requires 0 <= from < |s| && count <= |s|
    ensures RoundSum(s, from, count)
         == if from + count <= |s| then Prefix(s, from + count) - Prefix(s, from)
            else Prefix(s, |s|) - Prefix(s, from) + Prefix(s, from + count - |s|)
    decreases count
  {
    if count > 0 {
      assert Prefix(s, from + 1) == Prefix(s, from) + s[from];
      RoundSumIs(s, if from + 1 == |s| then 0 else from + 1, count - 1);
    }
  }

  lemma {:induction false} PrefixKept(s: seq<int>, t: int, k: int)
    requires 0 <= k <= |s|
    ensures Prefix(s + [t], k) == Prefix(s, k)
    decreases k
  {
    if k > 0 {
      PrefixKept(s, t, k - 1);
      assert (s + [t])[k - 1] == s[k - 1];
    }
  }

  /** How far it is from `a` round to `b`. */
  lemma Distance(a: int, b: int, n: int)
    requires n > 0
    ensures (b - a) % n == if b % n < a % n then b % n - a % n + n else b % n - a % n
  {
    var d := b % n - a % n;
    var q := b / n - a / n;
    assert b - a == n * q + d by {
      assert n * q == n * (b / n) - n * (a / n);
      assert b == n * (b / n) + b % n && a == n * (a / n) + a % n;
    }
    if d < 0 {
      assert b - a == n * (q - 1) + (d + n) by {
        assert n * (q - 1) == n * q - n;
      }
      ModUnique(b - a, n, q - 1, d + n);
    } else {
      ModUnique(b - a, n, q, d);
    }
  }

  class IntegralArray {
    var items: seq<int>
    ghost var values: seq<int>

    ghost predicate Valid()
      reads this
    {
      |items| == |values| && forall i | 0 <= i < |items| :: items[i] == Prefix(values, i + 1)
    }

    constructor ()
      ensures Valid() && values == []
    {
      items, values := [], [];
    }

    method Add(t: int)
      requires Valid()
      modifies this
      ensures Valid() && values == old(values) + [t]
    {
      ghost var more := values + [t];
      forall k | 0 <= k <= |values|
        ensures Prefix(more, k) == Prefix(values, k)
      {
        PrefixKept(values, t, k);
      }
      assert Prefix(more, |more|) == Prefix(more, |values|) + t;
      if |items| == 0 {
        items := items + [t];
      } else {
        items := items + [t + items[|items| - 1]];
      }
      values := more;
    }

    /**
     * The sum from `a` up to but not including `b`, going round. There is no answer exactly when both come down to
     * the first value: the original then indexes before the start of its vector.
     */
    method Get(a: int, b: int) returns (r: Option<int>)
      requires Valid() && |items| > 0
      ensures r.None? <==> a % |items| == 0 && b % |items| == 0
      ensures r.Some? ==> r.value == RoundSum(values, a % |items|, (b - a) % |items|)
    {
      hide Mod, Rem, RoundSum;
      var n := |items|;
      ModIsEuclidean(a, n);
      ModIsEuclidean(b, n);
      Distance(a, b, n);
      RoundSumIs(values, a % n, (b - a) % n);
      var i, j := Mod(a, n), Mod(b, n);
      if j < i {
        if j == 0 {
          return Some(items[n - 1] - items[i - 1]);
        }
        return Some(items[n - 1] + items[j - 1] - items[i - 1]);
      }
      if i == 0 {
        if j == 0 {
          return None;
        }
        return Some(items[j - 1]);
      }
      return Some(items[j - 1] - items[i - 1]);
    }

    /** The sum get_err_line_range asks for. */
    method GetRange(minLen: int, st: int, ed: int) returns (r: Option<int>)
      requires Valid() && |items| > 0
      ensures r.None? <==> NoAnswer(|items|, minLen, st, ed)
      ensures r.Some? ==>
        var args := RangeArgs(|items|, minLen, st, ed);
        r.value == RoundSum(values, args.0 % |items|, (args.1 - args.0) % |items|)
    {
      hide RangeArgs, RoundSum;
      var args := RangeArgs(|items|, minLen, st, ed);
      r := Get(args.0, args.1);
    }
  }

  // ----- the ranges line fitting asks for -----

  /** How far get_err_line_range widens a range of `nv` points on either side. */
  function Widening(minLen: int, nv: int): nat {
    (if minLen - nv > 0 then minLen - nv else 0) / 2
  }

  /** The number of points from `st` to `ed`, going round. */
  function Points(n: int, st: int, ed: int): int {
    ed + 1 - st + if ed < st then n else 0
  }

  /** The two arguments get_err_line_range passes on to `get`, in C++ arithmetic. */
  function RangeArgs(n: int, minLen: int, st: int, ed: int): (int, int)
    requires n > 0
  {
    var j := Widening(minLen, Points(n, st, ed));
    (Rem(st - j + n, n), Rem(ed + 1 + j + n, n))
  }

  predicate Divides(n: int, x: int)
    requires n > 0
  {
    x % n == 0
  }

  /** `get` is asked for a range that starts and ends at the first value, for which it has no answer. */
  predicate NoAnswer(n: int, minLen: int, st: int, ed: int)
    requires n > 0
  {
    var args := RangeArgs(n, minLen, st, ed);
    Divides(n, args.0) && Divides(n, args.1)
  }

  /** The number of points in the widened range. */
  function Window(minLen: int, nv: int): int {
    nv + 2 * Widening(minLen, nv)
  }

  lemma RemMultiple(a: int, n: int)
    requires n > 0
    ensures Divides(n, Rem(a, n)) <==> Divides(n, a)
  {
    if a < 0 {
      var q, r := (-a) / n, (-a) % n;
      assert -a == n * q + r;
      if r == 0 {
        assert a == n * -q + 0;
        ModUnique(a, n, -q, 0);
        ModUnique(0, n, 0, 0);
      } else {
        assert a == n * (-q - 1) + (n - r) by {
          assert n * (-q - 1) == -(n * q) - n;
        }
        ModUnique(a, n, -q - 1, n - r);
        assert -r == n * -1 + (n - r);
        ModUnique(-r, n, -1, n - r);
      }
    } else {
      var r := a % n;
      ModUnique(r, n, 0, r);
    }
  }

  lemma AddMultiple(a: int, n: int, q: int)
    requires n > 0
    ensures (a + n * q) % n == a % n
  {
    var d := a / n;
    assert a == n * d + a % n;
    assert a + n * q == n * (d + q) + a % n by {
      assert n * (d + q) == n * d + n * q;
    }
    ModUnique(a + n * q, n, d + q, a % n);
  }

  lemma TurnDivides(a: int, n: int)
    requires n > 0
    ensures Divides(n, a + n) <==> Divides(n, a)
  {
    AddMultiple(a, n, 1);
    assert a + n * 1 == a + n;
  }

  lemma DifferenceDivides(a: int, b: int, n: int)
    requires n > 0 && Divides(n, a)
    ensures Divides(n, b) <==> Divides(n, b - a)
  {
    var q := a / n;
    assert a == n * q;
    AddMultiple(b, n, -q);
    assert b + n * -q == b - a;
  }

  /**
   * There is no answer if and only if the widened range goes round a whole number of times and starts at the first
   * point.
   */
  lemma NoAnswerIff(n: int, minLen: int, st: int, ed: int)
    requires n > 0
    ensures
      var nv := Points(n, st, ed);
      NoAnswer(n, minLen, st, ed) <==> Divides(n, Window(minLen, nv)) && Divides(n, st - Widening(minLen, nv))
  {
    hide Divides, Rem, Widening;
    var nv := Points(n, st, ed);
    var j := Widening(minLen, nv);
    var a, b := st - j, ed + 1 + j;
    RemMultiple(a + n, n);
    RemMultiple(b + n, n);
    TurnDivides(a, n);
    TurnDivides(b, n);
    TurnDivides(b - a, n);
    if Divides(n, a) {
      DifferenceDivides(a, b, n);
    }
  }

  lemma DividesBelow(n: int, x: int)
    requires n > 0 && 0 <= x <= n
    ensures Divides(n, x) <==> x == 0 || x == n
  {
    if x < n {
      ModUnique(x, n, 0, x);
    } else {
      ModUnique(n, n, 1, 0);
    }
  }

  /** For an arc that is not widened: exactly when it covers the contour from its first point to its last. */
  lemma WholeContourIff(n: int, minLen: int, st: int, ed: int)
    requires 0 <= st < n && 0 <= ed < n && minLen <= Points(n, st, ed) + 1
    ensures NoAnswer(n, minLen, st, ed) <==> st == 0 && ed == n - 1
  {
    NoAnswerIff(n, minLen, st, ed);
    DividesBelow(n, Points(n, st, ed));
    DividesBelow(n, st);
  }

  /** The even number of points that the ranges of two neighbouring points are widened to. */
  function PairWindow(minLen: int): int {
    if minLen <= 2 then 2 else minLen - minLen % 2
  }

  /** The range of event `i` of the loop that queues the first events of hier_merge. */
  predicate FirstNoAnswer(n: int, minLen: int, i: int)
    requires n > 0
  {
    NoAnswer(n, minLen, i - 1, i)
  }

  lemma FirstNoAnswerIff(n: int, minLen: int, i: int)
    requires n > 0
    ensures FirstNoAnswer(n, minLen, i) <==>
      Divides(n, PairWindow(minLen)) && Divides(n, i - 1 - Widening(minLen, 2))
  {
    NoAnswerIff(n, minLen, i - 1, i);
    assert Window(minLen, 2) == PairWindow(minLen);
  }

  /**
   * Some range of that loop has no answer if and only if the number of points of the contour divides the window:
   * always for a contour of one point or two.
   */
  lemma FirstEventsIff(n: int, minLen: int)
    requires n > 0
    ensures (exists i :: 0 <= i < n && FirstNoAnswer(n, minLen, i)) <==> Divides(n, PairWindow(minLen))
  {
    hide FirstNoAnswer, Divides;
    forall i | 0 <= i < n
      ensures FirstNoAnswer(n, minLen, i) ==> Divides(n, PairWindow(minLen))
    {
      FirstNoAnswerIff(n, minLen, i);
    }
    if Divides(n, PairWindow(minLen)) {
      var i := StartsFirst(n, Widening(minLen, 2));
      FirstNoAnswerIff(n, minLen, i);
    }
  }

  lemma StartsFirst(n: int, j: nat) returns (i: int)
    requires n > 0
    ensures 0 <= i < n && Divides(n, i - 1 - j)
  {
    i := (j + 1) % n;
    var q := (j + 1) / n;
    assert j + 1 == n * q + i;
    assert i - 1 - j == n * -q + 0 by {
      assert n * -q == -(n * q);
    }
    ModUnique(i - 1 - j, n, -q, 0);
  }

  /** One point, and two points: whatever the minimum length is. */
  lemma SmallContours(minLen: int)
    ensures FirstNoAnswer(1, minLen, 0)
    ensures exists i :: 0 <= i < 2 && FirstNoAnswer(2, minLen, i)
    ensures minLen <= 3 ==> FirstNoAnswer(2, minLen, 1)
  {
    FirstEventsIff(2, minLen);
    FirstNoAnswerIff(1, minLen, 0);
    FirstNoAnswerIff(2, minLen, 1);
    assert Divides(2, PairWindow(minLen));
  }
}
