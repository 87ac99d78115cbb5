/** The union-find forest of the vision code (aos/vision/blob/disjoint_set.h). */
module DisjointSets {

  /** Follow parent links from `b`, at most `steps` of them, stopping at a negative link. */
  function Climb(up: seq<int>, b: nat, steps: nat): (r: nat)
    requires b < |up| && Linked(up)
    ensures r < |up|
    decreases steps
  {
    if steps == 0 || up[b] < 0 then b else Climb(up, up[b], steps - 1)
  }

  /** Every link is -1 or names another element. */
  predicate Linked(up: seq<int>) {
    forall b | 0 <= b < |up| :: -1 <= up[b] < |up|
  }

  /** `root` labels every element of the forest `up`; `height` rises along every link. */
  ghost predicate Forest(up: seq<int>, root: seq<nat>, height: seq<nat>, bound: nat) {
    && |root| == |up| == |height|
    && Linked(up)
    && (forall b | 0 <= b < |up| :: root[b] < |up| && root[root[b]] == root[b])
    && (forall b | 0 <= b < |up| :: up[b] < 0 <==> root[b] == b)
    && (forall b | 0 <= b < |up| && 0 <= up[b] :: root[up[b]] == root[b] && height[b] < height[up[b]])
    && (forall b | 0 <= b < |up| && root[b] != b :: height[b] < height[root[b]])
    && (forall b | 0 <= b < |up| :: height[b] < bound)
  }

  /** In a forest the label of an element is the element its chain of links ends at. */
  lemma {:induction false} ClimbIsRoot(up: seq<int>, root: seq<nat>, height: seq<nat>, bound: nat, b: nat, steps: nat)
    requires Forest(up, root, height, bound)
    requires b < |up| && bound - height[b] <= steps
    ensures Climb(up, b, steps) == root[b]
    decreases steps
  {
    if up[b] >= 0 {
      ClimbIsRoot(up, root, height, bound, up[b], steps - 1);
    }
  }

  /** The chain of links from `a` goes through `b`. */
  ghost predicate OnWay(up: seq<int>, a: nat, b: nat)
    requires a < |up| && Linked(up)
  {
    exists k: nat :: Climb(up, a, k) == b
  }

  lemma OnWayStep(up: seq<int>, a: nat, b: nat)
    requires a < |up| && Linked(up)
    ensures OnWay(up, a, b) <==> a == b || (up[a] >= 0 && OnWay(up, up[a], b))
  {
    assert Climb(up, a, 0) == a;
    if up[a] >= 0 && OnWay(up, up[a], b) {
      var k: nat :| Climb(up, up[a], k) == b;
      assert Climb(up, a, k + 1) == b;
    }
    if OnWay(up, a, b) && a != b {
      var k: nat :| Climb(up, a, k) == b;
      assert Climb(up, up[a], k - 1) == b;
    }
  }

  /** Everything on the way from `a` points straight at the root, everything else where it did. */
  ghost predicate Flattened(up: seq<int>, root: seq<nat>, a: nat, up': seq<int>)
    requires a < |up| && Linked(up) && |root| == |up|
  {
    |up'| == |up| && forall b | 0 <= b < |up| :: up'[b] == if OnWay(up, a, b) && root[b] != b then root[b] else up[b]
  }

  lemma FlattenedNow(up: seq<int>, root: seq<nat>, height: seq<nat>, bound: nat, a: nat, up': seq<int>)
    requires Forest(up, root, height, bound) && a < |up|
    requires if up[a] < 0 then up' == up
             else |up'| == |up| && Flattened(up, root, up[a], up'[a := up[a]]) && up'[a] == root[a]
    ensures Flattened(up, root, a, up')
  {
    forall b | 0 <= b < |up|
      ensures up'[b] == if OnWay(up, a, b) && root[b] != b then root[b] else up[b]
    {
      OnWayStep(up, a, b);
    }
  }

  /** The chain from a parent does not come back. */
  lemma {:induction false} NotBack(up: seq<int>, root: seq<nat>, height: seq<nat>, bound: nat, a: nat, k: nat)
    requires Forest(up, root, height, bound) && a < |up|
    ensures Climb(up, a, k) == a || height[a] < height[Climb(up, a, k)]
    decreases k
  {
    if k > 0 && up[a] >= 0 {
      NotBack(up, root, height, bound, up[a], k - 1);
    }
  }

  lemma NotOnWay(up: seq<int>, root: seq<nat>, height: seq<nat>, bound: nat, a: nat)
    requires Forest(up, root, height, bound) && a < |up| && up[a] >= 0
    ensures !OnWay(up, up[a], a)
  {
    if OnWay(up, up[a], a) {
      var k: nat :| Climb(up, up[a], k) == a;
      NotBack(up, root, height, bound, up[a], k);
    }
  }

  lemma FlattenedOther(up: seq<int>, root: seq<nat>, a: nat, up': seq<int>, b: nat)
    requires a < |up| && Linked(up) && |root| == |up| && Flattened(up, root, a, up') && b < |up| && !OnWay(up, a, b)
    ensures up'[b] == up[b]
  {
  }

  /** What a link tells: whether the element is a root, and otherwise an element above it in the same class. */
  lemma LinkTells(up: seq<int>, root: seq<nat>, height: seq<nat>, bound: nat, b: nat)
    requires Forest(up, root, height, bound) && b < |up|
    ensures |root| == |up| == |height| && Linked(up) && -1 <= up[b] < |up| && height[b] < bound
    ensures up[b] == -1 <==> root[b] == b
    ensures up[b] >= 0 ==> root[up[b]] == root[b] && height[b] < height[up[b]]
  {
  }

  /** Pointing an element straight at its root keeps the forest and its labels. */
  lemma Compress(up: seq<int>, root: seq<nat>, height: seq<nat>, bound: nat, b: nat)
    requires Forest(up, root, height, bound) && b < |up| && root[b] != b
    ensures Forest(up[b := root[b]], root, height, bound)
    ensures root[b] < |up| && up[b := root[b]][root[b]] < 0
  {
  }

  /** The labels after the class of `child` has been hung under the root `parent`. */
  ghost function Redirect(root: seq<nat>, child: nat, parent: nat): (r: seq<nat>)
    ensures |r| == |root|
    ensures forall b | 0 <= b < |root| :: r[b] == if root[b] == child then parent else root[b]
  {
    seq(|root|, b requires 0 <= b < |root| => if root[b] == child then parent else root[b])
  }

  class DisjointSet {
    var ufindl: seq<int>
    ghost var root: seq<nat>
    ghost var height: seq<nat>
    ghost var bound: nat

    ghost predicate Valid()
      reads this
    {
      Forest(ufindl, root, height, bound)
    }

    /** `l` singletons. */
    constructor (l: nat)
      ensures Valid()
      ensures |ufindl| == l && forall b | 0 <= b < l :: root[b] == b
    {
      ufindl := seq(l, _ => -1);
      root := seq(l, b => b);
      height := seq(l, _ => 0);
      bound := 1;
    }

    method Add() returns (bid: nat)
      requires Valid()
      modifies this
      ensures Valid()
      ensures bid == |old(ufindl)| && |ufindl| == bid + 1
      ensures root == old(root) + [bid]
    {
      bid := |ufindl|;
      ufindl := ufindl + [-1];
      root := root + [bid];
      height := height + [0];
      bound := if bound == 0 then 1 else bound;
    }

    /** Finds the root and points every element on the way straight at it. */
    method Find(bid: nat) returns (r: nat)
      requires Valid() && bid < |ufindl|
      modifies this`ufindl
      ensures Valid() && |ufindl| == |old(ufindl)|
      ensures r == root[bid]
      ensures ufindl[r] < 0 && Linked(old(ufindl)) && |root| == |ufindl| && Flattened(old(ufindl), root, bid, ufindl)
      decreases bound - height[bid]
    {
      hide Forest, Flattened, OnWay, Linked;
      LinkTells(ufindl, root, height, bound, bid);
      var tid := ufindl[bid];
      if tid <= -1 {
        FlattenedNow(ufindl, root, height, bound, bid, ufindl);
        return bid;
      }
      LinkTells(ufindl, root, height, bound, tid);
      NotOnWay(ufindl, root, height, bound, bid);
      r := Find(tid);
      ghost var flat := ufindl;
      FlattenedOther(old(ufindl), root, tid, ufindl, bid);
      Compress(ufindl, root, height, bound, bid);
      ufindl := ufindl[bid := r];
      assert ufindl[bid := tid] == flat;
      FlattenedNow(old(ufindl), root, height, bound, bid, ufindl);
    }

    /** `ufindl[child] = parent` for two distinct roots. */
    method Link(child: nat, parent: nat)
      requires Valid() && child < |ufindl| && parent < |ufindl|
      requires root[child] == child && root[parent] == parent && child != parent
      modifies this
      ensures Valid() && |ufindl| == |old(ufindl)|
      ensures root == Redirect(old(root), child, parent)
    {
      ufindl := ufindl[child := parent];
      root := Redirect(root, child, parent);
      height := height[parent := bound];
      bound := bound + 1;
    }
  }
}
