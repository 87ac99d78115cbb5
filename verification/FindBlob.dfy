/** Connected components of a range image by a two-row sweep (aos/vision/blob/find_blob.cc). */
module FindBlobs {
  import opened RangeImages
  import opened DisjointSets

  // ----- merging two rows of runs -----

  /** The runs of both rows in order of their first column. */
  function Merged(cur: Row, prev: Row): (m: Row) {
    if cur == [] then prev
    else if prev == [] then cur
    else if cur[0].st < prev[0].st then [cur[0]] + Merged(cur[1..], prev)
    else [prev[0]] + Merged(cur, prev[1..])
  }

  predicate Apart(cur: Row, prev: Row) {
    forall a, b | a in cur && b in prev :: a.ed <= b.st || b.ed <= a.st
  }

  lemma {:induction false} MergedElements(cur: Row, prev: Row)
    ensures forall r :: r in Merged(cur, prev) <==> r in cur || r in prev
    decreases |cur| + |prev|
  {
    if cur == [] || prev == [] {
    } else if cur[0].st < prev[0].st {
      MergedElements(cur[1..], prev);
      assert cur == [cur[0]] + cur[1..];
    } else {
      MergedElements(cur, prev[1..]);
      assert prev == [prev[0]] + prev[1..];
    }
  }

  lemma SortedCons(r: ImageRange, row: Row)
    requires r.st < r.ed && SortedRow(row)
    requires forall s | s in row :: r.ed <= s.st
    ensures SortedRow([r] + row)
  {
    var m := [r] + row;
    forall j, k | 0 <= j < k < |m|
      ensures m[j].ed <= m[k].st
    {
      assert m[k] == row[k - 1];
    }
  }

  lemma SortedTail(row: Row)
    requires SortedRow(row) && row != []
    ensures SortedRow(row[1..]) && forall s | s in row[1..] :: row[0].ed <= s.st
  {
  }

  lemma {:induction false} MergedSorted(cur: Row, prev: Row)
    requires SortedRow(cur) && SortedRow(prev) && Apart(cur, prev)
    ensures SortedRow(Merged(cur, prev))
    decreases |cur| + |prev|
  {
    if cur == [] || prev == [] {
    } else if cur[0].st < prev[0].st {
      MergedHead(cur, prev);
      MergedSorted(cur[1..], prev);
      MergedElements(cur[1..], prev);
      SortedCons(cur[0], Merged(cur[1..], prev));
    } else {
      MergedHead(prev, cur);
      MergedSorted(cur, prev[1..]);
      MergedElements(cur, prev[1..]);
      SortedCons(prev[0], Merged(cur, prev[1..]));
    }
  }

  /** The leftmost run of two rows lies before all the others. */
  lemma MergedHead(cur: Row, prev: Row)
    requires SortedRow(cur) && SortedRow(prev) && Apart(cur, prev)
    requires cur != [] && prev != [] && cur[0].st <= prev[0].st
    ensures SortedRow(cur[1..]) && Apart(cur[1..], prev)
    ensures forall r | r in cur[1..] || r in prev :: cur[0].ed <= r.st
  {
    assert cur[0] in cur && prev[0] in prev;
    assert cur[0].ed <= prev[0].st;
    SortedTail(cur);
    SortedTail(prev);
    forall r | r in prev
      ensures cur[0].ed <= r.st
    {
      assert r == prev[0] || r in prev[1..];
    }
  }

  /** One step of the two-pointer loop: the smaller first run moves to the output. */
  lemma MergedStep(out: Row, cur: Row, prev: Row, a: nat, b: nat)
    requires a < |cur| && b < |prev|
    ensures cur[a].st < prev[b].st ==>
      out + Merged(cur[a..], prev[b..]) == out + [cur[a]] + Merged(cur[a + 1..], prev[b..])
    ensures cur[a].st >= prev[b].st ==>
      out + Merged(cur[a..], prev[b..]) == out + [prev[b]] + Merged(cur[a..], prev[b + 1..])
  {
    assert cur[a..][1..] == cur[a + 1..];
    assert prev[b..][1..] == prev[b + 1..];
  }

  lemma MergedEnd(cur: Row, prev: Row, a: nat, b: nat)
    requires a <= |cur| && b <= |prev| && (a == |cur| || b == |prev|)
    ensures Merged(cur[a..], prev[b..]) == cur[a..] + prev[b..]
  {
  }

  /** The two-pointer loop of BlobBuilder::merge. */
  method MergeRows(cur: Row, prev: Row) returns (out: Row)
    ensures out == Merged(cur, prev)
  {
    out := [];
    var a, b := 0, 0;
    assert cur[0..] == cur && prev[0..] == prev;
    while a < |cur| && b < |prev|
      invariant 0 <= a <= |cur| && 0 <= b <= |prev|
      invariant out + Merged(cur[a..], prev[b..]) == Merged(cur, prev)
      decreases |cur| - a + |prev| - b
    {
      MergedStep(out, cur, prev, a, b);
      if cur[a].st < prev[b].st {
        out := out + [cur[a]];
        a := a + 1;
      } else {
        out := out + [prev[b]];
        b := b + 1;
      }
    }
    MergedEnd(cur, prev, a, b);
    var tail := CopyRest(out, cur, a);
    out := CopyRest(tail, prev, b);
    assert out == Merged(cur, prev) by {
      assert out == tail + prev[b..];
    }
  }

  /** The loops that copy what is left of one of the two rows. */
  method CopyRest(start: Row, row: Row, from: nat) returns (out: Row)
    requires from <= |row|
    ensures out == start + row[from..]
  {
    out := start;
    var a := from;
    while a < |row|
      invariant from <= a <= |row|
      invariant out == start + row[from..a]
    {
      out := out + [row[a]];
      a := a + 1;
    }
  }

  // ----- BlobBuilder: one blob under construction -----

  /** The line below the last row. */
  function Bottom(img: RangeImage): int {
    img.mini + |img.ranges|
  }

  function Lower(y: int, z: int): int {
    if y < z then z else y
  }

  /** Appends empty rows until row `k` exists. */
  method GrowTo(img: RangeImage, k: nat) returns (out: RangeImage)
    ensures out.mini == img.mini && |out.ranges| == if |img.ranges| <= k then k + 1 else |img.ranges|
    ensures forall y :: RowAt(out, y) == RowAt(img, y)
  {
    out := img;
    while |out.ranges| <= k
      invariant out.mini == img.mini && |img.ranges| <= |out.ranges|
      invariant |out.ranges| == |img.ranges| || |out.ranges| <= k + 1
      invariant forall y :: RowAt(out, y) == RowAt(img, y)
      decreases k + 1 - |out.ranges|
    {
      out := out.(ranges := out.ranges + [[]]);
    }
  }

  /** BlobBuilder::add. */
  method AddRange(img: RangeImage, i: int, rng: ImageRange) returns (out: RangeImage)
    requires img.mini <= i
    ensures out.mini == img.mini && Bottom(out) == Lower(Bottom(img), i + 1)
    ensures forall y :: RowAt(out, y) == if y == i then RowAt(img, i) + [rng] else RowAt(img, y)
  {
    out := GrowTo(img, i - img.mini);
    assert RowAt(img, i) == out.ranges[i - img.mini];
    out := out.(ranges := out.ranges[i - img.mini := out.ranges[i - img.mini] + [rng]]);
  }

  /** Every row of `m` is the merge of the same rows of `a` and `b`. */
  ghost predicate MergeOf(m: RangeImage, a: RangeImage, b: RangeImage) {
    && m.mini == a.mini && Bottom(m) == (if b.ranges == [] then Bottom(a) else Lower(Bottom(a), Bottom(b)))
    && forall y :: RowAt(m, y) == Merged(RowAt(a, y), RowAt(b, y))
  }

  /** The rows above `limit` are merged, the others are still those of `a`. */
  ghost predicate MergedAbove(m: RangeImage, a: RangeImage, b: RangeImage, limit: int) {
    && m.mini == a.mini && Bottom(m) == (if limit <= b.mini then Bottom(a) else Lower(Bottom(a), limit))
    && (forall y | y < limit :: RowAt(m, y) == Merged(RowAt(a, y), RowAt(b, y)))
    && (forall y | limit <= y :: RowAt(m, y) == RowAt(a, y))
  }

  /** BlobBuilder::merge; the caller has picked the builder with the smaller `mini` as target. */
  method MergeBuilder(img: RangeImage, o: RangeImage) returns (out: RangeImage)
    requires img.mini <= o.mini
    ensures MergeOf(out, img, o)
  {
    out := img;
    var j := 0;
    assert MergedAbove(out, img, o, o.mini);
    while j < |o.ranges|
      invariant 0 <= j <= |o.ranges|
      invariant MergedAbove(out, img, o, o.mini + j)
    {
      out := MergeRowInto(out, img, o, j);
      j := j + 1;
    }
    assert forall y | o.mini + j <= y :: RowAt(o, y) == [];
  }

  method MergeRowInto(m: RangeImage, ghost img: RangeImage, o: RangeImage, j: nat) returns (out: RangeImage)
    requires img.mini <= o.mini && j < |o.ranges|
    requires MergedAbove(m, img, o, o.mini + j)
    ensures MergedAbove(out, img, o, o.mini + j + 1)
  {
    hide Merged, MergedAbove;
    var i := j + (o.mini - m.mini);
    MergedStart(m, img, o, o.mini + j);
    var wide := GrowTo(m, i);
    var row := MergeRows(wide.ranges[i], o.ranges[j]);
    out := wide.(ranges := wide.ranges[i := row]);
    MergedNext(m, wide, img, o, j, out);
  }

  lemma MergedStart(m: RangeImage, a: RangeImage, b: RangeImage, limit: int)
    requires MergedAbove(m, a, b, limit)
    ensures m.mini == a.mini
  {
  }

  /** Row `j` of `o` has been merged. */
  lemma MergedNext(m: RangeImage, wide: RangeImage, img: RangeImage, o: RangeImage, j: nat, out: RangeImage)
    requires img.mini <= o.mini && j < |o.ranges| && MergedAbove(m, img, o, o.mini + j)
    requires wide.mini == m.mini && Bottom(wide) == Lower(Bottom(m), o.mini + j + 1)
    requires forall y :: RowAt(wide, y) == RowAt(m, y)
    requires
      var i := j + o.mini - m.mini;
      i >= 0 && out == wide.(ranges := wide.ranges[i := Merged(wide.ranges[i], o.ranges[j])])
    ensures MergedAbove(out, img, o, o.mini + j + 1)
  {
    hide Merged;
    var z, i := o.mini + j, j + o.mini - m.mini;
    assert RowAt(wide, z) == wide.ranges[i] && RowAt(o, z) == o.ranges[j] && RowAt(out, z) == out.ranges[i];
    forall y
      ensures RowAt(out, y) == if y == z then Merged(RowAt(m, z), RowAt(o, z)) else RowAt(m, y)
    {
      assert RowAt(wide, y) == RowAt(m, y);
    }
    hide RowAt;
  }

  // ----- the partition of the runs seen so far -----

  /** Equal labels only for connected runs. */
  ghost predicate Sound(rows: seq<Row>, lab: map<Run, nat>) {
    && (forall u | u in lab :: IsRun(rows, u))
    && (forall u, v | u in lab && v in lab && lab[u] == lab[v] :: Connected(rows, u, v))
  }

  ghost predicate Joined(lab: map<Run, nat>, u: Run, v: Run) {
    u in lab && v in lab && lab[u] == lab[v]
  }

  /** Runs that were together stay together. */
  ghost predicate Coarser(lab: map<Run, nat>, lab': map<Run, nat>) {
    forall u, v | Joined(lab, u, v) :: Joined(lab', u, v)
  }

  ghost function Relabel(lab: map<Run, nat>, from: nat, to: nat): (r: map<Run, nat>)
    ensures r.Keys == lab.Keys
    ensures forall u | u in lab :: r[u] == if lab[u] == from then to else lab[u]
  {
    map u | u in lab :: if lab[u] == from then to else lab[u]
  }

  lemma SoundFresh(rows: seq<Row>, lab: map<Run, nat>, u: Run, c: nat)
    requires Sound(rows, lab) && IsRun(rows, u) && u !in lab
    requires forall v | v in lab :: lab[v] != c
    ensures Sound(rows, lab[u := c]) && Coarser(lab, lab[u := c])
  {
    ConnectedSelf(rows, u);
  }

  lemma SoundAttach(rows: seq<Row>, lab: map<Run, nat>, u: Run, w: Run)
    requires Sound(rows, lab) && IsRun(rows, u) && u !in lab
    requires w in lab && Touch(w, u)
    ensures Sound(rows, lab[u := lab[w]]) && Coarser(lab, lab[u := lab[w]])
  {
    ConnectedSelf(rows, u);
    ConnectedTouch(rows, w, u);
    var lab' := lab[u := lab[w]];
    forall v | v in lab && lab[v] == lab[w]
      ensures Connected(rows, v, u) && Connected(rows, u, v)
    {
      ConnectedTransitive(rows, v, w, u);
      ConnectedSymmetric(rows, v, u);
    }
  }

  lemma SoundMerge(rows: seq<Row>, lab: map<Run, nat>, u: Run, w: Run)
    requires Sound(rows, lab) && u in lab && w in lab && Touch(u, w)
    ensures Sound(rows, Relabel(lab, lab[u], lab[w])) && Coarser(lab, Relabel(lab, lab[u], lab[w]))
  {
    ConnectedTouch(rows, u, w);
    forall a, b | a in lab && b in lab && lab[a] == lab[u] && lab[b] == lab[w]
      ensures Connected(rows, a, b) && Connected(rows, b, a)
    {
      ConnectedTransitive(rows, a, u, w);
      ConnectedTransitive(rows, a, w, b);
      ConnectedSymmetric(rows, a, b);
    }
  }

  // ----- which runs a builder holds -----

  /** Row by row, `img` holds exactly the runs labelled `c`, sorted; its first row and its last are not empty. */
  ghost predicate Holds(img: RangeImage, lab: map<Run, nat>, c: nat) {
    && (forall y, r :: r in RowAt(img, y) <==> Run(y, r) in lab && lab[Run(y, r)] == c)
    && (forall y :: SortedRow(RowAt(img, y)))
    && Ends(img)
  }

  predicate Ends(img: RangeImage) {
    RowAt(img, img.mini) != [] && RowAt(img, Bottom(img) - 1) != []
  }

  /** Different runs of one row do not overlap. */
  ghost predicate Separate(seen: set<Run>) {
    && (forall u | u in seen :: u.rng.st < u.rng.ed)
    && (forall u, v | u in seen && v in seen && u.y == v.y && u != v ::
          u.rng.ed <= v.rng.st || v.rng.ed <= u.rng.st)
  }

  /** In an earlier row, or further left in the same row. */
  predicate Earlier(u: Run, v: Run) {
    u.y < v.y || (u.y == v.y && u.rng.ed <= v.rng.st)
  }

  /** The run lies to the right of everything seen in its row. */
  ghost predicate Rightmost(seen: set<Run>, u: Run) {
    u.rng.st < u.rng.ed && forall v | v in seen :: Earlier(v, u)
  }

  lemma SeparateAdd(seen: set<Run>, u: Run)
    requires Separate(seen) && Rightmost(seen, u)
    ensures u !in seen && Separate(seen + {u})
  {
  }

  lemma SortedAppend(row: Row, r: ImageRange)
    requires SortedRow(row) && r.st < r.ed && forall s | s in row :: s.ed <= r.st
    ensures SortedRow(row + [r])
  {
  }

  lemma HoldsAdd(img: RangeImage, out: RangeImage, lab: map<Run, nat>, c: nat, u: Run)
    requires Holds(img, lab, c) && Rightmost(lab.Keys, u) && u !in lab
    requires out.mini == img.mini && Bottom(out) == Lower(Bottom(img), u.y + 1)
    requires forall y :: RowAt(out, y) == if y == u.y then RowAt(img, u.y) + [u.rng] else RowAt(img, y)
    ensures Holds(out, lab[u := c], c)
  {
    EndsAdd(img, out, u);
    hide Holds, RowAt, SortedRow, Ends, Bottom, Rightmost;
    var lab' := lab[u := c];
    forall y, r
      ensures r in RowAt(out, y) <==> Run(y, r) in lab' && lab'[Run(y, r)] == c
    {
      MembersAdd(img, out, lab, c, u, y, r);
    }
    forall y
      ensures SortedRow(RowAt(out, y))
    {
      SortedAdd(img, out, lab, c, u, y);
    }
    HoldsIs(out, lab', c);
  }

  lemma MembersAdd(img: RangeImage, out: RangeImage, lab: map<Run, nat>, c: nat, u: Run, y: int, r: ImageRange)
    requires Holds(img, lab, c) && u !in lab
    requires RowAt(out, y) == if y == u.y then RowAt(img, u.y) + [u.rng] else RowAt(img, y)
    ensures
      var lab' := lab[u := c];
      r in RowAt(out, y) <==> Run(y, r) in lab' && lab'[Run(y, r)] == c
  {
    hide RowAt, SortedRow, Ends;
    assert r in RowAt(img, y) <==> Run(y, r) in lab && lab[Run(y, r)] == c;
  }

  lemma SortedAdd(img: RangeImage, out: RangeImage, lab: map<Run, nat>, c: nat, u: Run, y: int)
    requires Holds(img, lab, c) && Rightmost(lab.Keys, u)
    requires RowAt(out, y) == if y == u.y then RowAt(img, u.y) + [u.rng] else RowAt(img, y)
    ensures SortedRow(RowAt(out, y))
  {
    hide RowAt, SortedRow, Ends;
    forall s | s in RowAt(img, u.y)
      ensures s.ed <= u.rng.st
    {
      assert Run(u.y, s) in lab;
    }
    SortedAppend(RowAt(img, u.y), u.rng);
  }

  lemma EndsAdd(img: RangeImage, out: RangeImage, u: Run)
    requires Ends(img) && out.mini == img.mini && Bottom(out) == Lower(Bottom(img), u.y + 1)
    requires forall y :: RowAt(out, y) == if y == u.y then RowAt(img, u.y) + [u.rng] else RowAt(img, y)
    ensures Ends(out)
  {
    hide RowAt, Bottom;
  }

  lemma HoldsOther(img: RangeImage, lab: map<Run, nat>, c: nat, u: Run, d: nat)
    requires Holds(img, lab, c) && u !in lab && c != d
    ensures Holds(img, lab[u := d], c)
  {
    var lab' := lab[u := d];
    forall y, r
      ensures r in RowAt(img, y) <==> Run(y, r) in lab' && lab'[Run(y, r)] == c
    {
      assert r in RowAt(img, y) <==> Run(y, r) in lab && lab[Run(y, r)] == c;
    }
  }

  lemma HoldsNew(out: RangeImage, lab: map<Run, nat>, c: nat, u: Run)
    requires u !in lab && u.rng.st < u.rng.ed && forall v | v in lab :: lab[v] != c
    requires out.mini == u.y && Bottom(out) == u.y + 1
    requires forall y :: RowAt(out, y) == if y == u.y then [u.rng] else []
    ensures Holds(out, lab[u := c], c)
  {
  }

  lemma MergeMembers(m: RangeImage, a: RangeImage, b: RangeImage, lab: map<Run, nat>, ca: nat, cb: nat, y: int, r: ImageRange)
    requires Holds(a, lab, ca) && Holds(b, lab, cb) && ca != cb && MergeOf(m, a, b)
    ensures
      var lab' := Relabel(lab, cb, ca);
      r in RowAt(m, y) <==> Run(y, r) in lab' && lab'[Run(y, r)] == ca
  {
    hide Merged, Bottom, RowAt, SortedRow;
    MergedElements(RowAt(a, y), RowAt(b, y));
    assert r in RowAt(a, y) <==> Run(y, r) in lab && lab[Run(y, r)] == ca;
    assert r in RowAt(b, y) <==> Run(y, r) in lab && lab[Run(y, r)] == cb;
    assert RowAt(m, y) == Merged(RowAt(a, y), RowAt(b, y));
  }

  lemma MergeSorted(m: RangeImage, a: RangeImage, b: RangeImage, lab: map<Run, nat>, ca: nat, cb: nat, y: int)
    requires Holds(a, lab, ca) && Holds(b, lab, cb) && ca != cb && Separate(lab.Keys) && MergeOf(m, a, b)
    ensures SortedRow(RowAt(m, y))
  {
    hide Merged, Bottom, RowAt, SortedRow, Separate, Apart;
    ApartRows(a, b, lab, ca, cb, y);
    MergedSorted(RowAt(a, y), RowAt(b, y));
    assert RowAt(m, y) == Merged(RowAt(a, y), RowAt(b, y));
  }

  lemma HoldsMerge(m: RangeImage, a: RangeImage, b: RangeImage, lab: map<Run, nat>, ca: nat, cb: nat)
    requires Holds(a, lab, ca) && Holds(b, lab, cb) && ca != cb && Separate(lab.Keys)
    requires MergeOf(m, a, b)
    ensures Holds(m, Relabel(lab, cb, ca), ca)
  {
    MergeEnds(m, a, b);
    hide Holds, MergeOf, Merged, RowAt, SortedRow, Separate, Relabel, Ends;
    var lab' := Relabel(lab, cb, ca);
    forall y, r
      ensures r in RowAt(m, y) <==> Run(y, r) in lab' && lab'[Run(y, r)] == ca
    {
      MergeMembers(m, a, b, lab, ca, cb, y, r);
    }
    forall y
      ensures SortedRow(RowAt(m, y))
    {
      MergeSorted(m, a, b, lab, ca, cb, y);
    }
    HoldsIs(m, lab', ca);
  }

  lemma HoldsIs(img: RangeImage, lab: map<Run, nat>, c: nat)
    requires forall y, r :: r in RowAt(img, y) <==> Run(y, r) in lab && lab[Run(y, r)] == c
    requires (forall y :: SortedRow(RowAt(img, y))) && Ends(img)
    ensures Holds(img, lab, c)
  {
  }

  lemma MergeStart(m: RangeImage, a: RangeImage, b: RangeImage)
    requires MergeOf(m, a, b)
    ensures m.mini == a.mini
  {
  }

  lemma MergeEnds(m: RangeImage, a: RangeImage, b: RangeImage)
    requires MergeOf(m, a, b) && Ends(a) && Ends(b)
    ensures Ends(m)
  {
    hide Merged;
    MergedNonEmpty(RowAt(a, a.mini), RowAt(b, a.mini));
    MergedNonEmpty(RowAt(a, Bottom(m) - 1), RowAt(b, Bottom(m) - 1));
  }

  lemma MergedNonEmpty(cur: Row, prev: Row)
    requires cur != [] || prev != []
    ensures Merged(cur, prev) != []
  {
  }

  lemma ApartRows(a: RangeImage, b: RangeImage, lab: map<Run, nat>, ca: nat, cb: nat, y: int)
    requires Holds(a, lab, ca) && Holds(b, lab, cb) && ca != cb && Separate(lab.Keys)
    ensures Apart(RowAt(a, y), RowAt(b, y))
  {
    forall r, s | r in RowAt(a, y) && s in RowAt(b, y)
      ensures r.ed <= s.st || s.ed <= r.st
    {
      assert Run(y, r) in lab && Run(y, s) in lab;
    }
  }

  lemma HoldsBystander(img: RangeImage, lab: map<Run, nat>, c: nat, from: nat, to: nat)
    requires Holds(img, lab, c) && c != from && c != to
    ensures Holds(img, Relabel(lab, from, to), c)
  {
    var lab' := Relabel(lab, from, to);
    forall y, r
      ensures r in RowAt(img, y) <==> Run(y, r) in lab' && lab'[Run(y, r)] == c
    {
      assert r in RowAt(img, y) <==> Run(y, r) in lab && lab[Run(y, r)] == c;
    }
  }

  // ----- BlobDisjointSet -----

  /** Labels are root ids, and each root's builder holds the runs with that label. */
  ghost predicate Consistent(items: seq<RangeImage>, root: seq<nat>, lab: map<Run, nat>) {
    && |items| == |root|
    && (forall u | u in lab :: lab[u] < |root| && root[lab[u]] == lab[u])
    && (forall c | 0 <= c < |items| && root[c] == c :: Holds(items[c], lab, c))
    && Separate(lab.Keys)
  }

  lemma ConsistentNew(items: seq<RangeImage>, root: seq<nat>, lab: map<Run, nat>, img: RangeImage, u: Run)
    requires Consistent(items, root, lab) && Rightmost(lab.Keys, u)
    requires img.mini == u.y && Bottom(img) == u.y + 1
    requires forall y :: RowAt(img, y) == if y == u.y then [u.rng] else []
    ensures Consistent(items + [img], root + [|items|], lab[u := |items|])
  {
    hide Holds, Separate, Rightmost, RowAt;
    var bid := |items|;
    SeparateAdd(lab.Keys, u);
    assert lab[u := bid].Keys == lab.Keys + {u};
    HoldsNew(img, lab, bid, u);
    forall c | 0 <= c < |items| && root[c] == c
      ensures Holds(items[c], lab[u := bid], c)
    {
      HoldsOther(items[c], lab, c, u, bid);
    }
  }

  lemma ConsistentAdd(items: seq<RangeImage>, root: seq<nat>, lab: map<Run, nat>, bid: nat, img: RangeImage, u: Run)
    requires Consistent(items, root, lab) && Rightmost(lab.Keys, u)
    requires bid < |items| && root[bid] == bid && img.mini == items[bid].mini
    requires Bottom(img) == Lower(Bottom(items[bid]), u.y + 1)
    requires forall y :: RowAt(img, y) == if y == u.y then RowAt(items[bid], u.y) + [u.rng] else RowAt(items[bid], y)
    ensures Consistent(items[bid := img], root, lab[u := bid]) && u !in lab
  {
    hide Holds, Separate, Rightmost, RowAt;
    SeparateAdd(lab.Keys, u);
    assert lab[u := bid].Keys == lab.Keys + {u};
    HoldsAdd(items[bid], img, lab, bid, u);
    forall c | 0 <= c < |items| && root[c] == c && c != bid
      ensures Holds(items[c], lab[u := bid], c)
    {
      HoldsOther(items[c], lab, c, u, bid);
    }
  }

  lemma HoldsAfterMerge(items: seq<RangeImage>, root: seq<nat>, lab: map<Run, nat>, ca: nat, cb: nat, m: RangeImage, c: nat)
    requires Consistent(items, root, lab)
    requires ca < |items| && cb < |items| && root[ca] == ca && root[cb] == cb && ca != cb
    requires MergeOf(m, items[ca], items[cb])
    requires c < |items| && Redirect(root, cb, ca)[c] == c
    ensures Holds(items[ca := m][c], Relabel(lab, cb, ca), c)
  {
    if c == ca {
      HoldsMerge(m, items[ca], items[cb], lab, ca, cb);
    } else {
      HoldsBystander(items[c], lab, c, cb, ca);
    }
  }

  lemma ConsistentMerge(items: seq<RangeImage>, root: seq<nat>, lab: map<Run, nat>, ca: nat, cb: nat, m: RangeImage)
    requires Consistent(items, root, lab)
    requires ca < |items| && cb < |items| && root[ca] == ca && root[cb] == cb && ca != cb
    requires MergeOf(m, items[ca], items[cb])
    ensures Consistent(items[ca := m], Redirect(root, cb, ca), Relabel(lab, cb, ca))
  {
    hide Holds, Separate, MergeOf, RowAt;
    forall c | 0 <= c < |items| && Redirect(root, cb, ca)[c] == c
      ensures Holds(items[ca := m][c], Relabel(lab, cb, ca), c)
    {
      HoldsAfterMerge(items, root, lab, ca, cb, m, c);
    }
  }

  /** Every builder was opened by a run of its first row, in the order in which the runs were seen. */
  ghost predicate Seeded(items: seq<RangeImage>, root: seq<nat>, lab: map<Run, nat>, seeds: seq<Run>) {
    && |seeds| == |items| == |root|
    && (forall c | 0 <= c < |seeds| :: seeds[c] in lab && lab[seeds[c]] == root[c] && seeds[c].y == items[c].mini)
    && (forall c, d | 0 <= c < d < |seeds| :: Earlier(seeds[c], seeds[d]))
  }

  lemma SeededNew(items: seq<RangeImage>, root: seq<nat>, lab: map<Run, nat>, seeds: seq<Run>, img: RangeImage, u: Run)
    requires Seeded(items, root, lab, seeds) && Rightmost(lab.Keys, u) && u !in lab && img.mini == u.y
    ensures Seeded(items + [img], root + [|items|], lab[u := |items|], seeds + [u])
  {
  }

  lemma SeededAdd(items: seq<RangeImage>, root: seq<nat>, lab: map<Run, nat>, seeds: seq<Run>,
                  bid: nat, img: RangeImage, u: Run)
    requires Seeded(items, root, lab, seeds) && Rightmost(lab.Keys, u) && bid < |items| && img.mini == items[bid].mini
    requires u !in lab
    ensures Seeded(items[bid := img], root, lab[u := bid], seeds)
  {
  }

  lemma SeededMerge(items: seq<RangeImage>, root: seq<nat>, lab: map<Run, nat>, seeds: seq<Run>,
                    from: nat, to: nat, m: RangeImage)
    requires Seeded(items, root, lab, seeds) && from < |items| && to < |items| && m.mini == items[to].mini
    ensures Seeded(items[to := m], Redirect(root, from, to), Relabel(lab, from, to), seeds)
  {
  }

  lemma NoBuilders(root: seq<nat>)
    requires root == []
    ensures Consistent([], root, map[]) && Seeded([], root, map[], [])
  {
    hide Holds;
  }

  class BlobDisjointSet {
    const djSet: DisjointSet
    var items: seq<RangeImage>
    ghost var lab: map<Run, nat>
    ghost var seeds: seq<Run>

    ghost predicate Valid()
      reads this, djSet
    {
      && djSet.Valid() && Consistent(items, djSet.root, lab) && |items| == |djSet.ufindl|
      && Seeded(items, djSet.root, lab, seeds)
    }

    constructor ()
      ensures Valid() && fresh(djSet) && lab == map[] && items == []
    {
      hide Consistent, Seeded;
      djSet := new DisjointSet(0);
      items := [];
      lab := map[];
      seeds := [];
      new;
      NoBuilders(djSet.root);
    }

    lemma Facts()
      requires Valid()
      ensures Consistent(items, djSet.root, lab) && Seeded(items, djSet.root, lab, seeds)
    {
    }

    /** A new blob holding one run. */
    method AddBlob(i: int, rng: ImageRange) returns (bid: nat)
      requires Valid() && Rightmost(lab.Keys, Run(i, rng))
      modifies this, djSet
      ensures Valid()
      ensures bid == |old(items)| && |items| == bid + 1
      ensures djSet.root == old(djSet.root) + [bid]
      ensures lab == old(lab)[Run(i, rng) := bid]
    {
      bid := djSet.Add();
      var img := AddRange(RangeImage(i, []), i, rng);
      ConsistentNew(items, old(djSet.root), lab, img, Run(i, rng));
      SeededNew(items, old(djSet.root), lab, seeds, img, Run(i, rng));
      items := items + [img];
      lab := lab[Run(i, rng) := bid];
      seeds := seeds + [Run(i, rng)];
    }

    /** The run joins the blob that `id` belongs to. */
    method AddToBlob(id: nat, i: int, rng: ImageRange) returns (bid: nat)
      requires Valid() && id < |items| && Rightmost(lab.Keys, Run(i, rng))
      requires items[djSet.root[id]].mini <= i
      modifies this, djSet
      ensures Valid() && |items| == |old(items)|
      ensures bid == djSet.root[id] && djSet.root == old(djSet.root)
      ensures lab == old(lab)[Run(i, rng) := bid]
    {
      hide Consistent, Seeded, Rightmost, RowAt, Bottom, Lower;
      bid := djSet.Find(id);
      var img := AddRange(items[bid], i, rng);
      ConsistentAdd(items, djSet.root, lab, bid, img, Run(i, rng));
      SeededAdd(items, djSet.root, lab, seeds, bid, img, Run(i, rng));
      items := items[bid := img];
      lab := lab[Run(i, rng) := bid];
    }

    /** The builder of root `p` moves into that of root `c`, which starts no lower. */
    method MergeRoots(c: nat, p: nat)
      requires Valid() && c < |items| && p < |items| && c != p
      requires djSet.root[c] == c && djSet.root[p] == p
      requires items[c].mini <= items[p].mini
      modifies this, djSet
      ensures Valid() && |items| == |old(items)|
      ensures djSet.root == Redirect(old(djSet.root), p, c) && lab == Relabel(old(lab), p, c)
    {
      hide Consistent, Seeded, MergeOf, Redirect, Relabel, RowAt, Bottom, Lower;
      var m := MergeBuilder(items[c], items[p]);
      MergeStart(m, items[c], items[p]);
      ConsistentMerge(items, djSet.root, lab, c, p, m);
      SeededMerge(items, djSet.root, lab, seeds, p, c, m);
      items := items[c := m];
      djSet.Link(p, c);
      lab := Relabel(lab, p, c);
    }

    /** The two blobs become one, kept at the id of the one that starts higher up. */
    method MergeInBlob(cbid: nat, pbid: nat)
      requires Valid() && cbid < |items| && pbid < |items|
      modifies this, djSet
      ensures Valid() && |items| == |old(items)|
      ensures
        var rc, rp := old(djSet.root)[cbid], old(djSet.root)[pbid];
        if rc == rp then djSet.root == old(djSet.root) && lab == old(lab)
        else if old(items)[rc].mini > old(items)[rp].mini then
          djSet.root == Redirect(old(djSet.root), rc, rp) && lab == Relabel(old(lab), rc, rp)
        else
          djSet.root == Redirect(old(djSet.root), rp, rc) && lab == Relabel(old(lab), rp, rc)
    {
      var c := djSet.Find(cbid);
      var p := djSet.Find(pbid);
      if c != p {
        if items[c].mini > items[p].mini {
          c, p := p, c;
        }
        MergeRoots(c, p);
      }
    }
  }

  // ----- the sweep over one pair of rows -----

  /** The runs of the rows above `i` and the first `m` runs of row `i`. */
  ghost predicate Seen(rows: seq<Row>, i: nat, m: nat, u: Run)
    requires i < |rows| && m <= |rows[i]|
  {
    IsRun(rows, u) && (u.y < i || (u.y == i && u.rng in rows[i][..m]))
  }

  ghost predicate SeenUpTo(rows: seq<Row>, i: nat, m: nat, lab: map<Run, nat>)
    requires i < |rows| && m <= |rows[i]|
  {
    forall u :: u in lab <==> Seen(rows, i, m, u)
  }

  /** `ids[k]` is in the class of the `k`-th run of row `y`. */
  ghost predicate IdsFor(row: Row, y: int, ids: seq<nat>, root: seq<nat>, lab: map<Run, nat>) {
    && |ids| <= |row|
    && (forall k | 0 <= k < |ids| ::
          ids[k] < |root| && Run(y, row[k]) in lab && root[ids[k]] == lab[Run(y, row[k])])
  }

  /** The row above row `i`; nothing above the first. */
  function PrevRow(rows: seq<Row>, i: nat): Row
    requires i < |rows|
  {
    if i == 0 then [] else rows[i - 1]
  }

  ghost predicate SweepState(rows: seq<Row>, i: nat, pids: seq<nat>, cids: seq<nat>, root: seq<nat>, lab: map<Run, nat>) {
    && i < |rows| && |pids| == |PrevRow(rows, i)| && |cids| <= |rows[i]|
    && (forall y | 0 <= y < |rows| :: SortedRow(rows[y]))
    && Sound(rows, lab)
    && SeenUpTo(rows, i, |cids|, lab)
    && IdsFor(PrevRow(rows, i), i - 1, pids, root, lab)
    && IdsFor(rows[i], i, cids, root, lab)
  }

  /** Every overlapping pair that involves a finished run has been joined. */
  ghost predicate PairsDone(prev: Row, cur: Row, i: nat, lab: map<Run, nat>, mi: nat, mj: nat) {
    forall a, b | 0 <= a < |prev| && 0 <= b < |cur| && (a < mi || b < mj) && ShareColumn(prev[a], cur[b]) ::
      Joined(lab, Run(i - 1, prev[a]), Run(i, cur[b]))
  }

  lemma NextIsRightmost(rows: seq<Row>, i: nat, m: nat, lab: map<Run, nat>)
    requires i < |rows| && m < |rows[i]| && SortedRow(rows[i])
    requires SeenUpTo(rows, i, m, lab)
    ensures Rightmost(lab.Keys, Run(i, rows[i][m]))
    ensures Run(i, rows[i][m]) !in lab
  {
    var u := Run(i, rows[i][m]);
    forall v | v in lab
      ensures Earlier(v, u)
    {
      assert Seen(rows, i, m, v);
    }
    assert !Seen(rows, i, m, u);
  }

  lemma SeenOneMore(rows: seq<Row>, i: nat, m: nat, lab: map<Run, nat>, c: nat)
    requires i < |rows| && m < |rows[i]|
    requires SeenUpTo(rows, i, m, lab)
    ensures SeenUpTo(rows, i, m + 1, lab[Run(i, rows[i][m]) := c])
  {
    var m', lab' := m + 1, lab[Run(i, rows[i][m]) := c];
    assert rows[i][..m'] == rows[i][..m] + [rows[i][m]];
    forall u
      ensures u in lab' <==> Seen(rows, i, m', u)
    {
      assert u in lab <==> Seen(rows, i, m, u);
    }
  }

  lemma IdsForStep(row: Row, y: int, ids: seq<nat>, root: seq<nat>, lab: map<Run, nat>, root': seq<nat>, u: Run, c: nat)
    requires IdsFor(row, y, ids, root, lab) && u !in lab && root <= root'
    ensures IdsFor(row, y, ids, root', lab[u := c])
  {
  }

  /** Labelling the next run keeps the sweep state, as long as the new labels stay sound. */
  lemma SweepAppend(rows: seq<Row>, i: nat, pids: seq<nat>, cids: seq<nat>, root: seq<nat>, lab: map<Run, nat>,
                    root': seq<nat>, c: nat)
    requires SweepState(rows, i, pids, cids, root, lab) && |cids| < |rows[i]|
    requires root <= root' && c < |root'| && root'[c] == c
    requires Sound(rows, lab[Run(i, rows[i][|cids|]) := c])
    ensures SweepState(rows, i, pids, cids + [c], root', lab[Run(i, rows[i][|cids|]) := c])
  {
    var u := Run(i, rows[i][|cids|]);
    NextIsRightmost(rows, i, |cids|, lab);
    SeenOneMore(rows, i, |cids|, lab, c);
    IdsForStep(PrevRow(rows, i), i - 1, pids, root, lab, root', u, c);
    IdsForStep(rows[i], i, cids, root, lab, root', u, c);
  }

  /** A run with no partner above so far opens a blob of its own. */
  method NewRun(bs: BlobDisjointSet, ghost rows: seq<Row>, i: nat, rng: ImageRange, ghost pids: seq<nat>, cids: seq<nat>)
    returns (out: seq<nat>)
    requires bs.Valid() && SweepState(rows, i, pids, cids, bs.djSet.root, bs.lab)
    requires |cids| < |rows[i]| && rng == rows[i][|cids|]
    modifies bs, bs.djSet
    ensures bs.Valid() && SweepState(rows, i, pids, out, bs.djSet.root, bs.lab)
    ensures |out| == |cids| + 1 && Coarser(old(bs.lab), bs.lab)
  {
    NextIsRightmost(rows, i, |cids|, bs.lab);
    SoundFresh(rows, bs.lab, Run(i, rng), |bs.items|);
    SweepAppend(rows, i, pids, cids, bs.djSet.root, bs.lab, bs.djSet.root + [|bs.items|], |bs.items|);
    var bid := bs.AddBlob(i, rng);
    out := cids + [bid];
  }

  /** The run joins the blob of the overlapping run above it. */
  method AttachRun(bs: BlobDisjointSet, ghost rows: seq<Row>, i: nat, rng: ImageRange, pids: seq<nat>, cids: seq<nat>, mi: nat)
    returns (out: seq<nat>)
    requires bs.Valid() && SweepState(rows, i, pids, cids, bs.djSet.root, bs.lab)
    requires |cids| < |rows[i]| && rng == rows[i][|cids|]
    requires mi < |pids| && ShareColumn(PrevRow(rows, i)[mi], rng)
    modifies bs, bs.djSet
    ensures bs.Valid() && SweepState(rows, i, pids, out, bs.djSet.root, bs.lab)
    ensures |out| == |cids| + 1 && Coarser(old(bs.lab), bs.lab)
    ensures Joined(bs.lab, Run(i - 1, PrevRow(rows, i)[mi]), Run(i, rng))
  {
    ghost var w := Run(i - 1, PrevRow(rows, i)[mi]);
    NextIsRightmost(rows, i, |cids|, bs.lab);
    SoundAttach(rows, bs.lab, Run(i, rng), w);
    SweepAppend(rows, i, pids, cids, bs.djSet.root, bs.lab, bs.djSet.root, bs.lab[w]);
    StartsAbove(rows, i, |cids|, bs.lab, bs.items[bs.lab[w]], bs.lab[w]);
    var bid := bs.AddToBlob(pids[mi], i, rng);
    out := cids + [bid];
  }

  /** A blob of runs seen so far starts no lower than the current row. */
  lemma StartsAbove(rows: seq<Row>, i: nat, m: nat, lab: map<Run, nat>, img: RangeImage, c: nat)
    requires i < |rows| && m <= |rows[i]| && SeenUpTo(rows, i, m, lab) && Holds(img, lab, c)
    ensures img.mini <= i
  {
    var r := RowAt(img, img.mini)[0];
    assert r in RowAt(img, img.mini);
    assert Seen(rows, i, m, Run(img.mini, r));
  }

  lemma IdsForMerge(row: Row, y: int, ids: seq<nat>, root: seq<nat>, lab: map<Run, nat>, from: nat, to: nat)
    requires IdsFor(row, y, ids, root, lab) && from < |root| && to < |root|
    ensures IdsFor(row, y, ids, Redirect(root, from, to), Relabel(lab, from, to))
  {
  }

  lemma SweepMerge(rows: seq<Row>, i: nat, pids: seq<nat>, cids: seq<nat>, root: seq<nat>, lab: map<Run, nat>, u: Run, w: Run)
    requires SweepState(rows, i, pids, cids, root, lab)
    requires u in lab && w in lab && Touch(u, w) && lab[u] < |root| && lab[w] < |root|
    ensures SweepState(rows, i, pids, cids, Redirect(root, lab[u], lab[w]), Relabel(lab, lab[u], lab[w]))
    ensures Coarser(lab, Relabel(lab, lab[u], lab[w])) && Joined(Relabel(lab, lab[u], lab[w]), u, w)
  {
    SoundMerge(rows, lab, u, w);
    IdsForMerge(PrevRow(rows, i), i - 1, pids, root, lab, lab[u], lab[w]);
    IdsForMerge(rows[i], i, cids, root, lab, lab[u], lab[w]);
    assert forall v :: v in Relabel(lab, lab[u], lab[w]) <==> v in lab;
  }

  /** Two labelled runs that overlap end up in one blob. */
  method UniteRuns(bs: BlobDisjointSet, ghost rows: seq<Row>, i: nat, pids: seq<nat>, cids: seq<nat>, mi: nat, mj: nat)
    requires bs.Valid() && SweepState(rows, i, pids, cids, bs.djSet.root, bs.lab)
    requires mi < |pids| && mj < |cids| && ShareColumn(PrevRow(rows, i)[mi], rows[i][mj])
    modifies bs, bs.djSet
    ensures bs.Valid() && SweepState(rows, i, pids, cids, bs.djSet.root, bs.lab)
    ensures Coarser(old(bs.lab), bs.lab)
    ensures Joined(bs.lab, Run(i - 1, PrevRow(rows, i)[mi]), Run(i, rows[i][mj]))
  {
    ghost var w, u := Run(i - 1, PrevRow(rows, i)[mi]), Run(i, rows[i][mj]);
    assert Touch(w, u) && Touch(u, w);
    SweepMerge(rows, i, pids, cids, bs.djSet.root, bs.lab, u, w);
    SweepMerge(rows, i, pids, cids, bs.djSet.root, bs.lab, w, u);
    bs.MergeInBlob(cids[mj], pids[mi]);
  }

  lemma PairsKept(prev: Row, cur: Row, i: nat, lab: map<Run, nat>, lab': map<Run, nat>, mi: nat, mj: nat)
    requires PairsDone(prev, cur, i, lab, mi, mj) && Coarser(lab, lab')
    ensures PairsDone(prev, cur, i, lab', mi, mj)
  {
  }

  /** Passing over the current run: it overlaps nothing further right above. */
  lemma PassCurrent(prev: Row, cur: Row, i: nat, lab: map<Run, nat>, mi: nat, mj: nat)
    requires SortedRow(prev) && SortedRow(cur) && mi < |prev| && mj < |cur|
    requires PairsDone(prev, cur, i, lab, mi, mj)
    requires cur[mj].Last() < prev[mi].st
             || (cur[mj].Last() < prev[mi].Last() && Joined(lab, Run(i - 1, prev[mi]), Run(i, cur[mj])))
    ensures PairsDone(prev, cur, i, lab, mi, mj + 1)
  {
    forall a | mi <= a < |prev| && ShareColumn(prev[a], cur[mj])
      ensures Joined(lab, Run(i - 1, prev[a]), Run(i, cur[mj]))
    {
      ShareColumnTest(prev[a], cur[mj]);
      assert a == mi;
    }
  }

  /** Passing over the run above: it overlaps nothing further right below. */
  lemma PassPrevious(prev: Row, cur: Row, i: nat, lab: map<Run, nat>, mi: nat, mj: nat)
    requires SortedRow(prev) && SortedRow(cur) && mi < |prev| && mj < |cur|
    requires PairsDone(prev, cur, i, lab, mi, mj)
    requires prev[mi].Last() < cur[mj].st
             || (prev[mi].Last() <= cur[mj].Last() && Joined(lab, Run(i - 1, prev[mi]), Run(i, cur[mj])))
    ensures PairsDone(prev, cur, i, lab, mi + 1, mj)
  {
    forall b | mj <= b < |cur| && ShareColumn(prev[mi], cur[b])
      ensures Joined(lab, Run(i - 1, prev[mi]), Run(i, cur[b]))
    {
      ShareColumnTest(prev[mi], cur[b]);
      assert b == mj;
    }
  }

  /** The branch for two overlapping runs: the current one is attached or, if labelled, united. */
  method JoinRuns(bs: BlobDisjointSet, ghost rows: seq<Row>, i: nat, ghost pranges: Row, cranges: Row,
                  pids: seq<nat>, cids: seq<nat>, mi: nat, mj: nat)
    returns (out: seq<nat>)
    requires bs.Valid() && SweepState(rows, i, pids, cids, bs.djSet.root, bs.lab)
    requires pranges == PrevRow(rows, i) && cranges == rows[i]
    requires mi < |pranges| && mj < |cranges| && mj <= |cids| <= mj + 1
    requires pranges[mi].st <= cranges[mj].Last() && cranges[mj].st <= pranges[mi].Last()
    requires PairsDone(pranges, cranges, i, bs.lab, mi, mj)
    modifies bs, bs.djSet
    ensures bs.Valid() && SweepState(rows, i, pids, out, bs.djSet.root, bs.lab)
    ensures Coarser(old(bs.lab), bs.lab) && |out| == mj + 1
    ensures Joined(bs.lab, Run(i - 1, pranges[mi]), Run(i, cranges[mj]))
    ensures PairsDone(pranges, cranges, i, bs.lab, mi, mj)
  {
    ShareColumnTest(pranges[mi], cranges[mj]);
    if |cids| > mj {
      UniteRuns(bs, rows, i, pids, cids, mi, mj);
      out := cids;
    } else {
      out := AttachRun(bs, rows, i, cranges[mj], pids, cids, mi);
    }
    PairsKept(pranges, cranges, i, old(bs.lab), bs.lab, mi, mj);
  }

  /** One turn of the sweep loop over a run above (`mi`) and a current run (`mj`). */
  method SweepStep(bs: BlobDisjointSet, ghost rows: seq<Row>, i: nat, pranges: Row, cranges: Row,
                   pids: seq<nat>, cids: seq<nat>, mi: nat, mj: nat)
    returns (out: seq<nat>, mi': nat, mj': nat)
    requires bs.Valid() && SweepState(rows, i, pids, cids, bs.djSet.root, bs.lab)
    requires pranges == PrevRow(rows, i) && cranges == rows[i]
    requires mi < |pranges| && mj < |cranges| && mj <= |cids| <= mj + 1
    requires PairsDone(pranges, cranges, i, bs.lab, mi, mj)
    modifies bs, bs.djSet
    ensures bs.Valid() && SweepState(rows, i, pids, out, bs.djSet.root, bs.lab)
    ensures Coarser(old(bs.lab), bs.lab)
    ensures mi <= mi' <= |pranges| && mj <= mj' <= |cranges| && mi' + mj' == mi + mj + 1
    ensures mj' <= |out| <= mj' + 1
    ensures PairsDone(pranges, cranges, i, bs.lab, mi', mj')
  {
    var rprev, rcur := pranges[mi], cranges[mj];
    out, mi', mj' := cids, mi, mj;
    if rcur.Last() < rprev.st {
      if |cids| == mj {
        out := NewRun(bs, rows, i, rcur, pids, cids);
        PairsKept(pranges, cranges, i, old(bs.lab), bs.lab, mi, mj);
      }
      PassCurrent(pranges, cranges, i, bs.lab, mi, mj);
      mj' := mj + 1;
    } else if rprev.Last() < rcur.st {
      PassPrevious(pranges, cranges, i, bs.lab, mi, mj);
      mi' := mi + 1;
    } else {
      out := JoinRuns(bs, rows, i, pranges, cranges, pids, cids, mi, mj);
      if rcur.Last() < rprev.Last() {
        PassCurrent(pranges, cranges, i, bs.lab, mi, mj);
        mj' := mj + 1;
      } else {
        PassPrevious(pranges, cranges, i, bs.lab, mi, mj);
        mi' := mi + 1;
      }
    }
  }

  lemma CoarserTransitive(a: map<Run, nat>, b: map<Run, nat>, c: map<Run, nat>)
    requires Coarser(a, b) && Coarser(b, c)
    ensures Coarser(a, c)
  {
  }

  /** The body of the row loop of find_blobs. */
  method SweepRow(bs: BlobDisjointSet, ghost rows: seq<Row>, i: nat, pranges: Row, cranges: Row, pids: seq<nat>)
    returns (cids: seq<nat>)
    requires bs.Valid() && SweepState(rows, i, pids, [], bs.djSet.root, bs.lab)
    requires pranges == PrevRow(rows, i) && cranges == rows[i]
    modifies bs, bs.djSet
    ensures bs.Valid() && SweepState(rows, i, pids, cids, bs.djSet.root, bs.lab)
    ensures Coarser(old(bs.lab), bs.lab) && |cids| == |cranges|
    ensures PairsDone(pranges, cranges, i, bs.lab, |pranges|, |cranges|)
  {
    cids := [];
    var mi, mj := 0, 0;
    while mi < |pranges| && mj < |cranges|
      invariant bs.Valid() && SweepState(rows, i, pids, cids, bs.djSet.root, bs.lab)
      invariant Coarser(old(bs.lab), bs.lab)
      invariant mi <= |pranges| && mj <= |cranges| && mj <= |cids| <= mj + 1
      invariant PairsDone(pranges, cranges, i, bs.lab, mi, mj)
      decreases |pranges| - mi + |cranges| - mj
    {
      ghost var before := bs.lab;
      cids, mi, mj := SweepStep(bs, rows, i, pranges, cranges, pids, cids, mi, mj);
      CoarserTransitive(old(bs.lab), before, bs.lab);
    }
    cids := SweepTail(bs, rows, i, pranges, cranges, pids, cids, mi, mj);
  }

  /** The runs left over when the row above is exhausted open blobs of their own. */
  method SweepTail(bs: BlobDisjointSet, ghost rows: seq<Row>, i: nat, ghost pranges: Row, cranges: Row,
                   ghost pids: seq<nat>, ids: seq<nat>, ghost mi: nat, from: nat)
    returns (cids: seq<nat>)
    requires bs.Valid() && SweepState(rows, i, pids, ids, bs.djSet.root, bs.lab)
    requires pranges == PrevRow(rows, i) && cranges == rows[i]
    requires mi <= |pranges| && from <= |cranges| && from <= |ids| <= from + 1
    requires mi == |pranges| || from == |cranges|
    requires PairsDone(pranges, cranges, i, bs.lab, mi, from)
    modifies bs, bs.djSet
    ensures bs.Valid() && SweepState(rows, i, pids, cids, bs.djSet.root, bs.lab)
    ensures Coarser(old(bs.lab), bs.lab) && |cids| == |cranges|
    ensures PairsDone(pranges, cranges, i, bs.lab, |pranges|, |cranges|)
  {
    cids := ids;
    var mj := from;
    PairsAll(pranges, cranges, i, bs.lab, mi, from);
    while mj < |cranges|
      invariant bs.Valid() && SweepState(rows, i, pids, cids, bs.djSet.root, bs.lab)
      invariant Coarser(old(bs.lab), bs.lab)
      invariant mj <= |cranges| && mj <= |cids| <= mj + 1
    {
      if |cids| == mj {
        ghost var before := bs.lab;
        cids := NewRun(bs, rows, i, cranges[mj], pids, cids);
        CoarserTransitive(old(bs.lab), before, bs.lab);
      }
      mj := mj + 1;
    }
    PairsKept(pranges, cranges, i, old(bs.lab), bs.lab, |pranges|, |cranges|);
  }

  lemma PairsAll(prev: Row, cur: Row, i: nat, lab: map<Run, nat>, mi: nat, mj: nat)
    requires PairsDone(prev, cur, i, lab, mi, mj) && (mi == |prev| || mj == |cur|)
    ensures PairsDone(prev, cur, i, lab, |prev|, |cur|)
  {
  }

  // ----- all rows -----

  /** All touching runs of the first `n` rows are joined. */
  ghost predicate RowsJoined(rows: seq<Row>, n: nat, lab: map<Run, nat>) {
    forall u, v | IsRun(rows, u) && IsRun(rows, v) && v.y == u.y + 1 && v.y < n && ShareColumn(u.rng, v.rng) ::
      Joined(lab, u, v)
  }

  lemma RowsJoinedStep(rows: seq<Row>, i: nat, lab: map<Run, nat>, lab': map<Run, nat>)
    requires i < |rows| && RowsJoined(rows, i, lab) && Coarser(lab, lab')
    requires PairsDone(PrevRow(rows, i), rows[i], i, lab', |PrevRow(rows, i)|, |rows[i]|)
    ensures RowsJoined(rows, i + 1, lab')
  {
    forall u, v | IsRun(rows, u) && IsRun(rows, v) && v.y == u.y + 1 && v.y < i + 1 && ShareColumn(u.rng, v.rng)
      ensures Joined(lab', u, v)
    {
      if v.y == i {
        var a :| 0 <= a < |rows[u.y]| && rows[u.y][a] == u.rng;
        var b :| 0 <= b < |rows[i]| && rows[i][b] == v.rng;
        assert Joined(lab', Run(i - 1, PrevRow(rows, i)[a]), Run(i, rows[i][b]));
      } else {
        assert Joined(lab, u, v);
      }
    }
  }

  /** After a row is done its ids become the ids of the row above. */
  lemma NextRow(rows: seq<Row>, i: nat, pids: seq<nat>, cids: seq<nat>, root: seq<nat>, lab: map<Run, nat>)
    requires SweepState(rows, i, pids, cids, root, lab)
    requires |cids| == |rows[i]| && i + 1 < |rows|
    ensures SweepState(rows, i + 1, cids, [], root, lab)
  {
    var i' := i + 1;
    assert rows[i][..|cids|] == rows[i];
    forall u
      ensures u in lab <==> Seen(rows, i', 0, u)
    {
      assert u in lab <==> Seen(rows, i, |cids|, u);
    }
  }

  lemma {:induction false} PathStaysJoined(rows: seq<Row>, lab: map<Run, nat>, u: Run, p: seq<Run>, v: Run)
    requires RowsJoined(rows, |rows|, lab) && (forall w | IsRun(rows, w) :: w in lab)
    requires Path(rows, u, p, v)
    ensures Joined(lab, u, v)
    decreases |p|
  {
    if p != [] {
      PathStaysJoined(rows, lab, p[0], p[1..], v);
      assert IsRun(rows, p[0]);
      if u.y + 1 == p[0].y {
        assert Joined(lab, u, p[0]);
      } else {
        assert ShareColumn(p[0].rng, u.rng);
        assert Joined(lab, p[0], u);
      }
    }
  }

  ghost predicate InBlob(b: RangeImage, u: Run) {
    u.rng in RowAt(b, u.y)
  }

  /** `blobs` are the connected components of the runs of `rows`. */
  ghost predicate Components(rows: seq<Row>, blobs: seq<RangeImage>) {
    // every run is in a blob and nothing else is
    && (forall u :: IsRun(rows, u) <==> exists k :: 0 <= k < |blobs| && InBlob(blobs[k], u))
    // two runs share a blob exactly when they are connected; in particular no run is in two blobs
    && (forall k, l, u, v | 0 <= k < |blobs| && 0 <= l < |blobs| && InBlob(blobs[k], u) && InBlob(blobs[l], v) ::
          k == l <==> Connected(rows, u, v))
    // every blob keeps its rows sorted, starts at the row it says it starts at and ends with the last row it needs
    && (forall k, y | 0 <= k < |blobs| :: SortedRow(RowAt(blobs[k], y)))
    && (forall k | 0 <= k < |blobs| :: Ends(blobs[k]))
  }

  /** A path of touching runs passes through every row between its ends. */
  lemma {:induction false} PathCrosses(rows: seq<Row>, u: Run, p: seq<Run>, v: Run, y: int) returns (w: Run)
    requires Path(rows, u, p, v) && u.y <= y <= v.y
    ensures IsRun(rows, w) && w.y == y && Connected(rows, u, w)
    decreases |p|
  {
    if u.y == y {
      w := u;
      ConnectedSelf(rows, u);
    } else if p[0].y <= y {
      assert IsRun(rows, p[0]);
      w := PathCrosses(rows, p[0], p[1..], v, y);
      ConnectedTouch(rows, u, p[0]);
      ConnectedTransitive(rows, u, p[0], w);
    } else {
      assert false;
    }
  }

  /** No row of the blob is empty. */
  predicate Solid(b: RangeImage) {
    b.ranges != [] && forall j | 0 <= j < |b.ranges| :: b.ranges[j] != []
  }

  /** A run connected to one of the blob is in the blob. */
  lemma SameBlob(rows: seq<Row>, blobs: seq<RangeImage>, k: nat, u: Run, w: Run)
    requires Components(rows, blobs) && k < |blobs| && InBlob(blobs[k], u) && IsRun(rows, w) && Connected(rows, u, w)
    ensures InBlob(blobs[k], w)
  {
    hide Connected, InBlob, IsRun, Ends;
    var l :| 0 <= l < |blobs| && InBlob(blobs[l], w);
  }

  lemma BlobConnected(rows: seq<Row>, blobs: seq<RangeImage>, k: nat, u: Run, v: Run)
    requires Components(rows, blobs) && k < |blobs| && InBlob(blobs[k], u) && InBlob(blobs[k], v)
    ensures Connected(rows, u, v)
  {
    hide Connected, InBlob, Ends;
  }

  lemma BlobEnds(rows: seq<Row>, blobs: seq<RangeImage>, k: nat)
    requires Components(rows, blobs) && k < |blobs|
    ensures Ends(blobs[k])
  {
    hide Connected, InBlob, IsRun, SortedRow;
  }

  /** A connected component has no empty row between its first and its last. */
  lemma ComponentsSolid(rows: seq<Row>, blobs: seq<RangeImage>, k: nat)
    requires Components(rows, blobs) && k < |blobs|
    ensures Solid(blobs[k])
  {
    hide Components, Connected;
    var b := blobs[k];
    BlobEnds(rows, blobs, k);
    var u, v := Run(b.mini, RowAt(b, b.mini)[0]), Run(Bottom(b) - 1, RowAt(b, Bottom(b) - 1)[0]);
    BlobConnected(rows, blobs, k, u, v);
    forall j | 0 <= j < |b.ranges|
      ensures b.ranges[j] != []
    {
      var w := ConnectedCrosses(rows, u, v, b.mini + j);
      SameBlob(rows, blobs, k, u, w);
    }
  }

  lemma ConnectedCrosses(rows: seq<Row>, u: Run, v: Run, y: int) returns (w: Run)
    requires Connected(rows, u, v) && u.y <= y <= v.y
    ensures IsRun(rows, w) && w.y == y && Connected(rows, u, w)
  {
    var p :| Path(rows, u, p, v);
    w := PathCrosses(rows, u, p, v, y);
  }

  /** Each blob has a run of its first row such that these runs come in the order of the image. */
  ghost predicate Seeds(blobs: seq<RangeImage>, seeds: seq<Run>) {
    && |seeds| == |blobs|
    && (forall k | 0 <= k < |blobs| :: InBlob(blobs[k], seeds[k]) && seeds[k].y == blobs[k].mini)
    && (forall k, l | 0 <= k < l < |blobs| :: Earlier(seeds[k], seeds[l]))
  }

  lemma CollectedOrder(items: seq<RangeImage>, root: seq<nat>, lab: map<Run, nat>, seeds: seq<Run>,
                       ks: seq<nat>, blobs: seq<RangeImage>) returns (firsts: seq<Run>)
    requires Consistent(items, root, lab) && Seeded(items, root, lab, seeds)
    requires Collected(items, root, |items|, ks, blobs)
    ensures Seeds(blobs, firsts)
  {
    firsts := seq(|ks|, j requires 0 <= j < |ks| => seeds[ks[j]]);
    forall j | 0 <= j < |ks|
      ensures InBlob(blobs[j], firsts[j])
    {
      var u := seeds[ks[j]];
      assert Holds(items[ks[j]], lab, ks[j]);
      assert u == Run(u.y, u.rng);
    }
  }

  /** `ks` lists the roots, and `blobs` their builders. */
  ghost predicate Collected(items: seq<RangeImage>, root: seq<nat>, n: nat, ks: seq<nat>, blobs: seq<RangeImage>) {
    && |items| == |root| && n <= |items| && |ks| == |blobs|
    && (forall j | 0 <= j < |ks| :: ks[j] < n && root[ks[j]] == ks[j] && blobs[j] == items[ks[j]])
    && (forall i, j | 0 <= i < j < |ks| :: ks[i] < ks[j])
    && (forall c | 0 <= c < n && root[c] == c :: c in ks)
  }

  lemma CollectedNext(items: seq<RangeImage>, root: seq<nat>, n: nat, ks: seq<nat>, blobs: seq<RangeImage>)
    requires Collected(items, root, n, ks, blobs) && n < |items|
    ensures
      if root[n] == n then Collected(items, root, n + 1, ks + [n], blobs + [items[n]])
      else Collected(items, root, n + 1, ks, blobs)
  {
    forall c | 0 <= c < n && root[c] == c
      ensures c in ks + [n]
    {
      assert c in ks;
    }
  }

  lemma CollectedMembers(items: seq<RangeImage>, root: seq<nat>, lab: map<Run, nat>, ks: seq<nat>, blobs: seq<RangeImage>)
    requires Consistent(items, root, lab) && Collected(items, root, |items|, ks, blobs)
    ensures forall j, u | 0 <= j < |blobs| :: InBlob(blobs[j], u) <==> u in lab && lab[u] == ks[j]
  {
    forall j, u | 0 <= j < |blobs|
      ensures InBlob(blobs[j], u) <==> u in lab && lab[u] == ks[j]
    {
      assert Holds(items[ks[j]], lab, ks[j]);
      assert u == Run(u.y, u.rng);
    }
  }

  lemma CollectedComponents(rows: seq<Row>, items: seq<RangeImage>, root: seq<nat>, lab: map<Run, nat>,
                            ks: seq<nat>, blobs: seq<RangeImage>)
    requires Consistent(items, root, lab) && Collected(items, root, |items|, ks, blobs)
    requires Sound(rows, lab) && RowsJoined(rows, |rows|, lab) && (forall u :: u in lab <==> IsRun(rows, u))
    ensures Components(rows, blobs)
  {
    CollectedMembers(items, root, lab, ks, blobs);
    forall u | IsRun(rows, u)
      ensures exists k :: 0 <= k < |blobs| && InBlob(blobs[k], u)
    {
      assert lab[u] in ks;
      var k :| 0 <= k < |ks| && ks[k] == lab[u];
      assert InBlob(blobs[k], u);
    }
    forall k, l, u, v | 0 <= k < |blobs| && 0 <= l < |blobs| && InBlob(blobs[k], u) && InBlob(blobs[l], v)
      ensures k == l <==> Connected(rows, u, v)
    {
      if Connected(rows, u, v) {
        var p :| Path(rows, u, p, v);
        PathStaysJoined(rows, lab, u, p, v);
      }
    }
    forall k | 0 <= k < |blobs|
      ensures Ends(blobs[k]) && forall y :: SortedRow(RowAt(blobs[k], y))
    {
      assert Holds(items[ks[k]], lab, ks[k]);
    }
  }

  /** BlobDisjointSet::get_blobs. */
  method GetBlobs(bs: BlobDisjointSet) returns (blobs: seq<RangeImage>)
    requires bs.Valid()
    ensures exists ks: seq<nat> :: Collected(bs.items, bs.djSet.root, |bs.items|, ks, blobs)
  {
    hide Consistent, Seeded;
    blobs := [];
    ghost var ks: seq<nat> := [];
    var i := 0;
    while i < |bs.items|
      invariant 0 <= i <= |bs.items|
      invariant Collected(bs.items, bs.djSet.root, i, ks, blobs)
    {
      CollectedNext(bs.items, bs.djSet.root, i, ks, blobs);
      if bs.djSet.ufindl[i] < 0 {
        blobs := blobs + [bs.items[i]];
        ks := ks + [i];
      }
      i := i + 1;
    }
  }

  /** The first row: every run opens a blob. */
  method FirstRow(bs: BlobDisjointSet, rows: seq<Row>) returns (pids: seq<nat>)
    requires bs.Valid() && bs.lab == map[] && rows != []
    requires forall y | 0 <= y < |rows| :: SortedRow(rows[y])
    modifies bs, bs.djSet
    ensures bs.Valid() && |pids| == |rows[0]| && SweepState(rows, 0, [], pids, bs.djSet.root, bs.lab)
  {
    pids := [];
    var k := 0;
    while k < |rows[0]|
      invariant 0 <= k <= |rows[0]| && |pids| == k
      invariant bs.Valid() && SweepState(rows, 0, [], pids, bs.djSet.root, bs.lab)
    {
      pids := NewRun(bs, rows, 0, rows[0][k], [], pids);
      k := k + 1;
    }
  }

  method RowStep(bs: BlobDisjointSet, rows: seq<Row>, i: nat, ghost above: seq<nat>, pids: seq<nat>)
    returns (cids: seq<nat>)
    requires bs.Valid() && 1 <= i < |rows|
    requires |pids| == |rows[i - 1]| && SweepState(rows, i - 1, above, pids, bs.djSet.root, bs.lab)
    requires RowsJoined(rows, i, bs.lab)
    modifies bs, bs.djSet
    ensures bs.Valid() && |cids| == |rows[i]| && SweepState(rows, i, pids, cids, bs.djSet.root, bs.lab)
    ensures RowsJoined(rows, i + 1, bs.lab)
  {
    NextRow(rows, i - 1, above, pids, bs.djSet.root, bs.lab);
    cids := SweepRow(bs, rows, i, rows[i - 1], rows[i], pids);
    RowsJoinedStep(rows, i, old(bs.lab), bs.lab);
  }

  /** The row loop: one sweep for every row below the first. */
  method LabelRows(bs: BlobDisjointSet, rows: seq<Row>)
    requires bs.Valid() && bs.lab == map[] && rows != []
    requires forall y | 0 <= y < |rows| :: SortedRow(rows[y])
    modifies bs, bs.djSet
    ensures bs.Valid() && Sound(rows, bs.lab) && RowsJoined(rows, |rows|, bs.lab)
    ensures forall u :: u in bs.lab <==> IsRun(rows, u)
  {
    var pids := FirstRow(bs, rows);
    ghost var above: seq<nat> := [];
    var i := 1;
    while i < |rows|
      invariant 1 <= i <= |rows|
      invariant bs.Valid()
      invariant |pids| == |rows[i - 1]| && SweepState(rows, i - 1, above, pids, bs.djSet.root, bs.lab)
      invariant RowsJoined(rows, i, bs.lab)
    {
      var cids := RowStep(bs, rows, i, above, pids);
      above, pids := pids, cids;
      i := i + 1;
    }
    AllSeen(rows, bs.lab, |pids|);
  }

  /**
   * find_blobs: exactly the connected components of the runs, for every image with sorted rows, in the order in
   * which the image is read.
   */
  method FindBlobs(rows: seq<Row>) returns (blobs: seq<RangeImage>)
    requires rows != [] && forall y | 0 <= y < |rows| :: SortedRow(rows[y])
    ensures Components(rows, blobs) && exists seeds :: Seeds(blobs, seeds)
    ensures forall k | 0 <= k < |blobs| :: Solid(blobs[k])
  {
    var bs := new BlobDisjointSet();
    LabelRows(bs, rows);
    blobs := GetBlobs(bs);
    hide Components, Seeds, Solid, Collected, BlobDisjointSet.Valid;
    ghost var ks: seq<nat> :| Collected(bs.items, bs.djSet.root, |bs.items|, ks, blobs);
    bs.Facts();
    CollectedComponents(rows, bs.items, bs.djSet.root, bs.lab, ks, blobs);
    ghost var seeds := CollectedOrder(bs.items, bs.djSet.root, bs.lab, bs.seeds, ks, blobs);
    forall k | 0 <= k < |blobs|
      ensures Solid(blobs[k])
    {
      ComponentsSolid(rows, blobs, k);
    }
  }

  lemma AllSeen(rows: seq<Row>, lab: map<Run, nat>, m: nat)
    requires rows != [] && m == |rows[|rows| - 1]| && SeenUpTo(rows, |rows| - 1, m, lab)
    ensures forall u :: u in lab <==> IsRun(rows, u)
  {
    var i := |rows| - 1;
    assert rows[i][..m] == rows[i];
    forall u
      ensures u in lab <==> IsRun(rows, u)
    {
      assert u in lab <==> Seen(rows, i, m, u);
    }
  }
}
