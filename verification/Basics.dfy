/** Definitions and facts that several of the other modules need. */
module Basics {

  datatype Option<T> = None | Some(value: T)

  function Abs(n: int): nat {
    if n >= 0 then n else -n
  }

  lemma {:induction false} SubsetSize<T>(a: set<T>, b: set<T>)
    requires a <= b
    ensures |a| <= |b|
  {
    if a != {} {
      var x :| x in a;
      SubsetSize(a - {x}, b - {x});
    }
  }

  ghost function Elements(s: seq<nat>): set<nat> {
    set m | m in s
  }

  /** Non-zero multiples of `d` are at least `d` in size. */
  lemma Multiple(d: int, t: int)
    requires d > 0
    ensures t >= 1 ==> d * t >= d
    ensures t <= -1 ==> d * t <= 0 - d
  {
  }

  lemma MulOrder(c: int, x: int, y: int)
    requires c > 0 && x <= y
    ensures c * x <= c * y
  {
  }

  /** The sequence without its first occurrence of `t`. */
  function Without(s: seq<nat>, t: nat): seq<nat> {
    if s == [] then [] else if s[0] == t then s[1..] else [s[0]] + Without(s[1..], t)
  }

  lemma {:induction false} WithoutAt(s: seq<nat>, t: nat, k: nat)
    requires k < |s| && s[k] == t && t !in s[..k]
    ensures Without(s, t) == s[..k] + s[k + 1..]
    decreases k
  {
    if k > 0 {
      assert s[..k][0] == s[0];
      assert s[1..][..k - 1] == s[..k][1..];
      WithoutAt(s[1..], t, k - 1);
      assert s[..k] == [s[0]] + s[1..][..k - 1];
    }
  }
}
