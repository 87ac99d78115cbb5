/** Blob lists as bytes (aos/vision/blob/codec.cc). */
module BlobCodec {
  import opened ByteOrder
  import opened RangeImages

  // ----- 16-bit integers -----

  /** The cast to a 16-bit unsigned integer. */
  function Narrow(n: int): nat {
    n % 0x1_0000
  }

  function Le16(n: int): (b: seq<byte>)
    ensures |b| == 2
  {
    [Narrow(n) % 256, Narrow(n) / 256]
  }

  function FromLe16(b: seq<byte>): nat
    requires |b| >= 2
  {
    b[0] as int + 256 * (b[1] as int)
  }

  lemma Le16RoundTrip(n: int, rest: seq<byte>)
    ensures FromLe16(Le16(n) + rest) == Narrow(n) && (Le16(n) + rest)[2..] == rest
  {
  }

  // ----- the format -----

  function Concat<T>(f: T -> seq<byte>, xs: seq<T>): seq<byte> {
    if xs == [] then [] else f(xs[0]) + Concat(f, xs[1..])
  }

  function RangeBytes(r: ImageRange): seq<byte> {
    Le16(r.st) + Le16(r.ed)
  }

  function RowBytes(row: Row): seq<byte> {
    Le16(|row|) + Concat(RangeBytes, row)
  }

  function BlobBytes(blob: RangeImage): seq<byte> {
    Le16(blob.mini) + Le16(|blob.ranges|) + Concat(RowBytes, blob.ranges)
  }

  function ListBytes(blobs: seq<RangeImage>): seq<byte> {
    Le16(|blobs|) + Concat(BlobBytes, blobs)
  }

  /** The counts fit 16 bits. */
  predicate BlobOk(blob: RangeImage) {
    |blob.ranges| < 0x1_0000 && forall i | 0 <= i < |blob.ranges| :: |blob.ranges[i]| < 0x1_0000
  }

  predicate ListOk(blobs: seq<RangeImage>) {
    |blobs| < 0x1_0000 && forall i | 0 <= i < |blobs| :: BlobOk(blobs[i])
  }

  // ----- what comes back -----

  function NarrowRange(r: ImageRange): ImageRange {
    ImageRange(Narrow(r.st), Narrow(r.ed))
  }

  function NarrowRow(row: Row): Row {
    seq(|row|, i requires 0 <= i < |row| => NarrowRange(row[i]))
  }

  function NarrowBlob(blob: RangeImage): RangeImage {
    RangeImage(Narrow(blob.mini), seq(|blob.ranges|, i requires 0 <= i < |blob.ranges| => NarrowRow(blob.ranges[i])))
  }

  function NarrowList(blobs: seq<RangeImage>): seq<RangeImage> {
    seq(|blobs|, i requires 0 <= i < |blobs| => NarrowBlob(blobs[i]))
  }

  predicate Fits(n: int) {
    0 <= n < 0x1_0000
  }

  /** All coordinates fit 16 bits. */
  predicate RowFits(row: Row) {
    forall i | 0 <= i < |row| :: Fits(row[i].st) && Fits(row[i].ed)
  }

  predicate BlobFits(blob: RangeImage) {
    Fits(blob.mini) && forall i | 0 <= i < |blob.ranges| :: RowFits(blob.ranges[i])
  }

  lemma RowUnchanged(row: Row)
    ensures NarrowRow(row) == row <==> RowFits(row)
  {
    if NarrowRow(row) == row {
      forall i | 0 <= i < |row|
        ensures Fits(row[i].st) && Fits(row[i].ed)
      {
        assert NarrowRow(row)[i] == row[i];
      }
    }
  }

  lemma BlobUnchanged(blob: RangeImage)
    ensures NarrowBlob(blob) == blob <==> BlobFits(blob)
  {
    var rows := NarrowBlob(blob).ranges;
    if NarrowBlob(blob) == blob {
      forall i | 0 <= i < |rows|
        ensures RowFits(blob.ranges[i])
      {
        assert rows[i] == blob.ranges[i];
        RowUnchanged(blob.ranges[i]);
      }
    } else if BlobFits(blob) {
      forall i | 0 <= i < |rows|
        ensures rows[i] == blob.ranges[i]
      {
        RowUnchanged(blob.ranges[i]);
      }
    }
  }

  /** The list comes back as it was exactly when every coordinate fits 16 bits. */
  lemma ListUnchanged(blobs: seq<RangeImage>)
    ensures NarrowList(blobs) == blobs <==> forall i | 0 <= i < |blobs| :: BlobFits(blobs[i])
  {
    var out := NarrowList(blobs);
    forall i | 0 <= i < |blobs|
      ensures out[i] == blobs[i] <==> BlobFits(blobs[i])
    {
      BlobUnchanged(blobs[i]);
    }
  }

  // ----- sizes -----

  lemma {:induction false} ConcatAppend<T>(f: T -> seq<byte>, xs: seq<T>, x: T)
    ensures Concat(f, xs + [x]) == Concat(f, xs) + f(x)
    decreases |xs|
  {
    if xs == [] {
      assert xs + [x] == [x] && Concat(f, [x][1..]) == [];
    } else {
      assert (xs + [x])[1..] == xs[1..] + [x];
      ConcatAppend(f, xs[1..], x);
    }
  }

  lemma ConcatPrefix<T>(f: T -> seq<byte>, xs: seq<T>, i: nat)
    requires i < |xs|
    ensures Concat(f, xs[..i + 1]) == Concat(f, xs[..i]) + f(xs[i])
  {
    assert xs[..i + 1] == xs[..i] + [xs[i]];
    ConcatAppend(f, xs[..i], xs[i]);
  }

  lemma {:induction false} ConcatSplit<T>(f: T -> seq<byte>, xs: seq<T>, i: nat)
    requires i <= |xs|
    ensures Concat(f, xs) == Concat(f, xs[..i]) + Concat(f, xs[i..])
    decreases |xs| - i
  {
    if i == |xs| {
      assert xs[..i] == xs && Concat(f, xs[i..]) == [];
    } else {
      ConcatSplit(f, xs, i + 1);
      ConcatPrefix(f, xs, i);
      assert xs[i..][1..] == xs[i + 1..];
    }
  }

  lemma {:induction false} RowSize(row: Row)
    ensures |Concat(RangeBytes, row)| == 4 * |row|
    decreases |row|
  {
    if row != [] {
      RowSize(row[1..]);
    }
  }

  method PredictSize(blobs: seq<RangeImage>) returns (count: nat)
    ensures count == |ListBytes(blobs)|
  {
    count := 2;
    for i := 0 to |blobs|
      invariant count == 2 + |Concat(BlobBytes, blobs[..i])|
    {
      ConcatPrefix(BlobBytes, blobs, i);
      var rows := blobs[i].ranges;
      ghost var before := count;
      count := count + 4;
      for j := 0 to |rows|
        invariant count == before + 4 + |Concat(RowBytes, rows[..j])|
      {
        ConcatPrefix(RowBytes, rows, j);
        RowSize(rows[j]);
        count := count + 2 + 4 * |rows[j]|;
      }
      assert rows[..|rows|] == rows;
    }
    assert blobs[..|blobs|] == blobs;
  }

  // ----- which integer stands where -----

  /** At `k` stand the low 16 bits of `v`, the less significant byte first. */
  predicate Int16At(b: seq<byte>, k: nat, v: int) {
    k + 2 <= |b| && b[k] as int + 256 * (b[k + 1] as int) == v % 0x1_0000
  }

  ghost function RowsLength(rows: seq<Row>): nat {
    if rows == [] then 0 else RowsLength(rows[..|rows| - 1]) + 2 + 4 * |rows[|rows| - 1]|
  }

  ghost function BlobsLength(blobs: seq<RangeImage>): nat {
    if blobs == [] then 0 else BlobsLength(blobs[..|blobs| - 1]) + 4 + RowsLength(blobs[|blobs| - 1].ranges)
  }

  /** `part` stands in `b` from `p` on. */
  ghost predicate StandsAt(b: seq<byte>, p: nat, part: seq<byte>) {
    p + |part| <= |b| && b[p..p + |part|] == part
  }

  lemma Within(b: seq<byte>, p: nat, part: seq<byte>, q: nat, inner: seq<byte>)
    requires StandsAt(b, p, part) && StandsAt(part, q, inner)
    ensures StandsAt(b, p + q, inner)
  {
    forall k | 0 <= k < |inner|
      ensures b[p + q + k] == inner[k]
    {
      assert inner[k] == part[q + k] == b[p + q + k];
    }
  }

  lemma Int16Within(b: seq<byte>, p: nat, part: seq<byte>, k: nat, v: int)
    requires StandsAt(b, p, part) && Int16At(part, k, v)
    ensures Int16At(b, p + k, v)
  {
    assert part[k] == b[p + k] && part[k + 1] == b[p + k + 1];
  }

  /** Behind a header, item `i` stands where the bytes of the items before it end. */
  lemma ItemAt<T>(f: T -> seq<byte>, xs: seq<T>, i: nat, header: seq<byte>)
    requires i < |xs|
    ensures StandsAt(header + Concat(f, xs), |header| + |Concat(f, xs[..i])|, f(xs[i]))
  {
    ConcatSplit(f, xs, i);
    var front, item, back := header + Concat(f, xs[..i]), f(xs[i]), Concat(f, xs[i..][1..]);
    assert header + Concat(f, xs) == front + (item + back);
  }

  lemma {:induction false} RowsSize(rows: seq<Row>)
    ensures |Concat(RowBytes, rows)| == RowsLength(rows)
    decreases |rows|
  {
    if rows != [] {
      var n := |rows| - 1;
      RowsSize(rows[..n]);
      RowSize(rows[n]);
      ConcatPrefix(RowBytes, rows, n);
      assert rows[..n + 1] == rows;
    }
  }

  lemma {:induction false} BlobsSize(blobs: seq<RangeImage>)
    ensures |Concat(BlobBytes, blobs)| == BlobsLength(blobs)
    decreases |blobs|
  {
    if blobs != [] {
      var n := |blobs| - 1;
      BlobsSize(blobs[..n]);
      RowsSize(blobs[n].ranges);
      ConcatPrefix(BlobBytes, blobs, n);
      assert blobs[..n + 1] == blobs;
    }
  }

  lemma Le16At(v: int, rest: seq<byte>)
    ensures Int16At(Le16(v) + rest, 0, v)
  {
  }

  /** A row is the number of its runs, then the start and the end of each run. */
  lemma RowLayout(row: Row, k: nat)
    ensures |RowBytes(row)| == 2 + 4 * |row| && Int16At(RowBytes(row), 0, |row|)
    ensures k < |row| ==> Int16At(RowBytes(row), 2 + 4 * k, row[k].st) && Int16At(RowBytes(row), 4 + 4 * k, row[k].ed)
  {
    hide Concat, Int16At, StandsAt, Le16;
    RowSize(row);
    Le16At(|row|, Concat(RangeBytes, row));
    if k < |row| {
      RowSize(row[..k]);
      ItemAt(RangeBytes, row, k, Le16(|row|));
      RangeLayout(row[k]);
      Int16Within(RowBytes(row), 2 + 4 * k, RangeBytes(row[k]), 0, row[k].st);
      Int16Within(RowBytes(row), 2 + 4 * k, RangeBytes(row[k]), 2, row[k].ed);
    }
  }

  lemma RangeLayout(r: ImageRange)
    ensures Int16At(RangeBytes(r), 0, r.st) && Int16At(RangeBytes(r), 2, r.ed)
  {
  }

  /** A blob is its first line, the number of its rows, then the rows. */
  lemma BlobLayout(blob: RangeImage, j: nat)
    ensures |BlobBytes(blob)| == 4 + RowsLength(blob.ranges)
    ensures Int16At(BlobBytes(blob), 0, blob.mini) && Int16At(BlobBytes(blob), 2, |blob.ranges|)
    ensures
      j < |blob.ranges| ==>
        StandsAt(BlobBytes(blob), 4 + RowsLength(blob.ranges[..j]), RowBytes(blob.ranges[j]))
  {
    hide Concat, StandsAt, RowBytes;
    RowsSize(blob.ranges);
    if j < |blob.ranges| {
      RowsSize(blob.ranges[..j]);
      ItemAt(RowBytes, blob.ranges, j, Le16(blob.mini) + Le16(|blob.ranges|));
    }
  }

  /**
   * The bytes of a list: the number of blobs at 0; each blob behind those before it; in it the first line, the
   * number of rows and the rows one behind the other; in a row the number of runs and each run's start and end.
   */
  lemma ListLayout(blobs: seq<RangeImage>, i: nat, j: nat, k: nat)
    ensures |ListBytes(blobs)| == 2 + BlobsLength(blobs) && Int16At(ListBytes(blobs), 0, |blobs|)
    ensures
      i < |blobs| ==>
        var p := 2 + BlobsLength(blobs[..i]);
        Int16At(ListBytes(blobs), p, blobs[i].mini) && Int16At(ListBytes(blobs), p + 2, |blobs[i].ranges|)
    ensures
      i < |blobs| && j < |blobs[i].ranges| ==>
        var row, p := blobs[i].ranges[j], 2 + BlobsLength(blobs[..i]) + 4 + RowsLength(blobs[i].ranges[..j]);
        && Int16At(ListBytes(blobs), p, |row|)
        && (k < |row| ==>
              Int16At(ListBytes(blobs), p + 2 + 4 * k, row[k].st) && Int16At(ListBytes(blobs), p + 4 + 4 * k, row[k].ed))
  {
    hide Concat, Int16At, StandsAt, Le16, BlobBytes, RowBytes;
    var b := ListBytes(blobs);
    BlobsSize(blobs);
    Le16At(|blobs|, Concat(BlobBytes, blobs));
    if i < |blobs| {
      var blob, p := blobs[i], 2 + BlobsLength(blobs[..i]);
      BlobsSize(blobs[..i]);
      ItemAt(BlobBytes, blobs, i, Le16(|blobs|));
      BlobLayout(blob, j);
      Int16Within(b, p, BlobBytes(blob), 0, blob.mini);
      Int16Within(b, p, BlobBytes(blob), 2, |blob.ranges|);
      if j < |blob.ranges| {
        var row, q := blob.ranges[j], 4 + RowsLength(blob.ranges[..j]);
        Within(b, p, BlobBytes(blob), q, RowBytes(row));
        RowLayout(row, k);
        Int16Within(b, p + q, RowBytes(row), 0, |row|);
        if k < |row| {
          Int16Within(b, p + q, RowBytes(row), 2 + 4 * k, row[k].st);
          Int16Within(b, p + q, RowBytes(row), 4 + 4 * k, row[k].ed);
        }
      }
    }
  }

  // ----- writing -----

  /** One more item written after the first `i`: it fits, and the bytes so far are those of `i + 1` items. */
  lemma NextItem<T>(f: T -> seq<byte>, xs: seq<T>, i: nat, before: seq<byte>, room: nat)
    requires i < |xs| && |before| + |Concat(f, xs)| <= room
    ensures |before + Concat(f, xs[..i])| + |f(xs[i])| <= room
    ensures before + Concat(f, xs[..i]) + f(xs[i]) == before + Concat(f, xs[..i + 1])
  {
    ConcatPrefix(f, xs, i);
    ConcatSplit(f, xs, i + 1);
  }

  method WriteRow(row: Row, buffer: array<byte>, start: nat) returns (at: nat)
    requires start + |RowBytes(row)| <= buffer.Length
    modifies buffer
    ensures at == start + |RowBytes(row)| && buffer[..at] == old(buffer[..start]) + RowBytes(row)
  {
    hide Le16, RangeBytes;
    at := Copy(buffer, start, Le16(|row|));
    ghost var before := buffer[..at];
    for i := 0 to |row|
      invariant at <= buffer.Length && buffer[..at] == before + Concat(RangeBytes, row[..i])
    {
      NextItem(RangeBytes, row, i, before, buffer.Length);
      at := Copy(buffer, at, RangeBytes(row[i]));
    }
    assert row[..|row|] == row;
  }

  method WriteBlob(blob: RangeImage, buffer: array<byte>, start: nat) returns (at: nat)
    requires start + |BlobBytes(blob)| <= buffer.Length
    modifies buffer
    ensures at == start + |BlobBytes(blob)| && buffer[..at] == old(buffer[..start]) + BlobBytes(blob)
  {
    hide Le16, RowBytes;
    at := Copy(buffer, start, Le16(blob.mini));
    at := Copy(buffer, at, Le16(|blob.ranges|));
    ghost var before := buffer[..at];
    for i := 0 to |blob.ranges|
      invariant at <= buffer.Length && buffer[..at] == before + Concat(RowBytes, blob.ranges[..i])
    {
      NextItem(RowBytes, blob.ranges, i, before, buffer.Length);
      at := WriteRow(blob.ranges[i], buffer, at);
    }
    assert blob.ranges[..|blob.ranges|] == blob.ranges;
  }

  /** SerializeBlobTo: exactly the predicted number of bytes are written. */
  method SerializeBlobTo(blobs: seq<RangeImage>) returns (buffer: array<byte>)
    ensures fresh(buffer) && buffer[..] == ListBytes(blobs)
  {
    hide Le16, BlobBytes;
    var len := PredictSize(blobs);
    buffer := new byte[len](_ => 0);
    var at := Copy(buffer, 0, Le16(|blobs|));
    ghost var before := buffer[..at];
    for i := 0 to |blobs|
      invariant 0 <= at <= buffer.Length == len && buffer[..at] == before + Concat(BlobBytes, blobs[..i])
    {
      NextItem(BlobBytes, blobs, i, before, buffer.Length);
      at := WriteBlob(blobs[i], buffer, at);
    }
    assert blobs[..|blobs|] == blobs;
    assert buffer[..at] == buffer[..];
  }

  // ----- reading -----

  /** What a reader makes of its input, which may end too soon. */
  datatype Read<T> = Got(value: T, rest: seq<byte>) | Short

  function ReadInt16(data: seq<byte>): Read<nat> {
    if |data| < 2 then Short else Got(FromLe16(data), data[2..])
  }

  /** `n` items, one after the other. */
  function Repeat<T>(f: seq<byte> -> Read<T>, n: nat, data: seq<byte>): Read<seq<T>>
    decreases n
  {
    if n == 0 then Got([], data)
    else match f(data)
      case Short => Short
      case Got(x, rest) => Before([x], Repeat(f, n - 1, rest))
  }

  function Before<T>(xs: seq<T>, r: Read<seq<T>>): Read<seq<T>> {
    match r
    case Short => Short
    case Got(ys, rest) => Got(xs + ys, rest)
  }

  /** A count, and that many items. */
  function Counted<T>(f: seq<byte> -> Read<T>, data: seq<byte>): Read<seq<T>> {
    match ReadInt16(data)
    case Short => Short
    case Got(n, rest) => Repeat(f, n, rest)
  }

  function RangeOf(data: seq<byte>): Read<ImageRange> {
    match ReadInt16(data)
    case Short => Short
    case Got(st, rest) =>
      match ReadInt16(rest)
      case Short => Short
      case Got(ed, left) => Got(ImageRange(st, ed), left)
  }

  function RowOf(data: seq<byte>): Read<Row> {
    Counted(RangeOf, data)
  }

  function BlobOf(data: seq<byte>): Read<RangeImage> {
    match ReadInt16(data)
    case Short => Short
    case Got(mini, rest) =>
      match Counted(RowOf, rest)
      case Short => Short
      case Got(ranges, left) => Got(RangeImage(mini, ranges), left)
  }

  function ListOf(data: seq<byte>): Read<seq<RangeImage>> {
    Counted(BlobOf, data)
  }

  // ----- what was read is what the bytes say -----

  lemma Int16Sound(data: seq<byte>)
    requires |data| >= 2
    ensures Fits(FromLe16(data)) && data == Le16(FromLe16(data)) + data[2..]
  {
    var a, b := data[0], data[1];
    TwoBytes(a as int, b as int);
    assert Le16(FromLe16(data)) == [a, b];
    assert data == [a, b] + data[2..];
  }

  lemma TwoBytes(a: nat, b: nat)
    requires a < 256 && b < 256
    ensures Fits(a + 256 * b) && Narrow(a + 256 * b) % 256 == a && Narrow(a + 256 * b) / 256 == b
  {
    NarrowCount(a + 256 * b);
  }

  /** An item that was read has the property, and its bytes were where it was read. */
  ghost predicate Sound<T(!new)>(f: seq<byte> -> Read<T>, bytes: T -> seq<byte>, ok: T -> bool) {
    forall data :: f(data).Got? ==> ok(f(data).value) && data == bytes(f(data).value) + f(data).rest
  }

  lemma {:induction false} RepeatSound<T(!new)>(f: seq<byte> -> Read<T>, bytes: T -> seq<byte>, ok: T -> bool,
                                                n: nat, data: seq<byte>)
    requires Sound(f, bytes, ok) && Repeat(f, n, data).Got?
    ensures
      var r := Repeat(f, n, data);
      |r.value| == n && data == Concat(bytes, r.value) + r.rest && forall i | 0 <= i < n :: ok(r.value[i])
    decreases n
  {
    if n > 0 {
      RepeatSound(f, bytes, ok, n - 1, f(data).rest);
      var r := Repeat(f, n, data);
      assert r.value[1..] == Repeat(f, n - 1, f(data).rest).value;
    }
  }

  lemma CountedSound<T(!new)>(f: seq<byte> -> Read<T>, bytes: T -> seq<byte>, ok: T -> bool, data: seq<byte>)
    requires Sound(f, bytes, ok) && Counted(f, data).Got?
    ensures
      var r := Counted(f, data);
      && |r.value| < 0x1_0000 && data == Le16(|r.value|) + Concat(bytes, r.value) + r.rest
      && forall i | 0 <= i < |r.value| :: ok(r.value[i])
  {
    hide Le16, FromLe16;
    Int16Sound(data);
    RepeatSound(f, bytes, ok, FromLe16(data), data[2..]);
  }

  predicate RangeFits(r: ImageRange) {
    Fits(r.st) && Fits(r.ed)
  }

  predicate RowReadable(row: Row) {
    |row| < 0x1_0000 && forall i | 0 <= i < |row| :: RangeFits(row[i])
  }

  predicate BlobReadable(blob: RangeImage) {
    Fits(blob.mini) && |blob.ranges| < 0x1_0000 && forall i | 0 <= i < |blob.ranges| :: RowReadable(blob.ranges[i])
  }

  /** A list whose counts and coordinates all fit 16 bits. */
  predicate ListReadable(blobs: seq<RangeImage>) {
    |blobs| < 0x1_0000 && forall i | 0 <= i < |blobs| :: BlobReadable(blobs[i])
  }

  lemma RangeSound()
    ensures Sound(RangeOf, RangeBytes, RangeFits)
  {
    hide Le16, FromLe16;
    forall data: seq<byte> | RangeOf(data).Got?
      ensures RangeFits(RangeOf(data).value) && data == RangeBytes(RangeOf(data).value) + RangeOf(data).rest
    {
      Int16Sound(data);
      Int16Sound(data[2..]);
    }
  }

  lemma RowSound()
    ensures Sound(RowOf, RowBytes, RowReadable)
  {
    hide Le16, Counted, RangeFits;
    RangeSound();
    forall data: seq<byte> | RowOf(data).Got?
      ensures RowReadable(RowOf(data).value) && data == RowBytes(RowOf(data).value) + RowOf(data).rest
    {
      CountedSound(RangeOf, RangeBytes, RangeFits, data);
    }
  }

  lemma BlobSound()
    ensures Sound(BlobOf, BlobBytes, BlobReadable)
  {
    hide Le16, FromLe16, Counted, RowReadable;
    RowSound();
    forall data: seq<byte> | BlobOf(data).Got?
      ensures BlobReadable(BlobOf(data).value) && data == BlobBytes(BlobOf(data).value) + BlobOf(data).rest
    {
      Int16Sound(data);
      CountedSound(RowOf, RowBytes, RowReadable, data[2..]);
    }
  }

  /** Whatever is read, from whatever bytes, writes back to the bytes it was read from. */
  lemma ListSound(data: seq<byte>)
    requires ListOf(data).Got?
    ensures ListReadable(ListOf(data).value) && data == ListBytes(ListOf(data).value) + ListOf(data).rest
  {
    hide Le16, Counted, BlobReadable;
    BlobSound();
    CountedSound(BlobOf, BlobBytes, BlobReadable, data);
  }

  // ----- what was written is read -----

  lemma NarrowCount(n: nat)
    requires n < 0x1_0000
    ensures Narrow(n) == n
  {
  }

  ghost predicate ReadsBack<T(!new)>(f: seq<byte> -> Read<T>, bytes: T -> seq<byte>, x: T, y: T) {
    forall rest :: f(bytes(x) + rest) == Got(y, rest)
  }

  lemma {:induction false} RepeatComplete<T(!new)>(f: seq<byte> -> Read<T>, bytes: T -> seq<byte>, xs: seq<T>,
                                                   ys: seq<T>, rest: seq<byte>)
    requires |ys| == |xs| && forall i | 0 <= i < |xs| :: ReadsBack(f, bytes, xs[i], ys[i])
    ensures Repeat(f, |xs|, Concat(bytes, xs) + rest) == Got(ys, rest)
    decreases |xs|
  {
    if xs != [] {
      var more := Concat(bytes, xs[1..]) + rest;
      assert Concat(bytes, xs) + rest == bytes(xs[0]) + more;
      assert ReadsBack(f, bytes, xs[0], ys[0]);
      forall i | 0 <= i < |xs[1..]|
        ensures ReadsBack(f, bytes, xs[1..][i], ys[1..][i])
      {
        assert ReadsBack(f, bytes, xs[i + 1], ys[i + 1]);
      }
      RepeatComplete(f, bytes, xs[1..], ys[1..], rest);
      assert ys == [ys[0]] + ys[1..];
    }
  }

  lemma CountedComplete<T(!new)>(f: seq<byte> -> Read<T>, bytes: T -> seq<byte>, xs: seq<T>, ys: seq<T>,
                                 rest: seq<byte>)
    requires |ys| == |xs| < 0x1_0000 && forall i | 0 <= i < |xs| :: ReadsBack(f, bytes, xs[i], ys[i])
    ensures Counted(f, Le16(|xs|) + Concat(bytes, xs) + rest) == Got(ys, rest)
  {
    hide Le16, FromLe16, Narrow;
    var more := Concat(bytes, xs) + rest;
    assert Le16(|xs|) + Concat(bytes, xs) + rest == Le16(|xs|) + more;
    Le16RoundTrip(|xs|, more);
    NarrowCount(|xs|);
    RepeatComplete(f, bytes, xs, ys, rest);
  }

  lemma RangeComplete(r: ImageRange)
    ensures ReadsBack(RangeOf, RangeBytes, r, NarrowRange(r))
  {
    hide Le16, FromLe16, Narrow;
    forall rest: seq<byte>
      ensures RangeOf(RangeBytes(r) + rest) == Got(NarrowRange(r), rest)
    {
      assert RangeBytes(r) + rest == Le16(r.st) + (Le16(r.ed) + rest);
      Le16RoundTrip(r.st, Le16(r.ed) + rest);
      Le16RoundTrip(r.ed, rest);
    }
  }

  lemma RowComplete(row: Row)
    requires |row| < 0x1_0000
    ensures ReadsBack(RowOf, RowBytes, row, NarrowRow(row))
  {
    hide Le16, Counted, NarrowRange, RangeBytes;
    forall i | 0 <= i < |row|
      ensures ReadsBack(RangeOf, RangeBytes, row[i], NarrowRow(row)[i])
    {
      RangeComplete(row[i]);
    }
    forall rest: seq<byte>
      ensures RowOf(RowBytes(row) + rest) == Got(NarrowRow(row), rest)
    {
      CountedComplete(RangeOf, RangeBytes, row, NarrowRow(row), rest);
    }
  }

  lemma BlobComplete(blob: RangeImage)
    requires BlobOk(blob)
    ensures ReadsBack(BlobOf, BlobBytes, blob, NarrowBlob(blob))
  {
    hide Le16, FromLe16, Narrow, Counted, NarrowRow, RowBytes;
    var rows, out := blob.ranges, NarrowBlob(blob).ranges;
    forall i | 0 <= i < |rows|
      ensures ReadsBack(RowOf, RowBytes, rows[i], out[i])
    {
      RowComplete(rows[i]);
    }
    forall rest: seq<byte>
      ensures BlobOf(BlobBytes(blob) + rest) == Got(NarrowBlob(blob), rest)
    {
      var more := Le16(|rows|) + Concat(RowBytes, rows) + rest;
      assert BlobBytes(blob) + rest == Le16(blob.mini) + more;
      Le16RoundTrip(blob.mini, more);
      CountedComplete(RowOf, RowBytes, rows, out, rest);
    }
  }

  /** The bytes of any list whose counts fit, followed by anything, are read as that list cut to 16 bits. */
  lemma ListComplete(blobs: seq<RangeImage>, rest: seq<byte>)
    requires ListOk(blobs)
    ensures ListOf(ListBytes(blobs) + rest) == Got(NarrowList(blobs), rest)
  {
    hide Le16, Counted, NarrowBlob, BlobBytes, BlobOk;
    forall i | 0 <= i < |blobs|
      ensures ReadsBack(BlobOf, BlobBytes, blobs[i], NarrowList(blobs)[i])
    {
      BlobComplete(blobs[i]);
    }
    CountedComplete(BlobOf, BlobBytes, blobs, NarrowList(blobs), rest);
  }

  /** The input is too short exactly if it does not start with the bytes of any list. */
  lemma ShortIff(data: seq<byte>)
    ensures ListOf(data).Short? <==> forall blobs, rest | ListOk(blobs) :: data != ListBytes(blobs) + rest
  {
    hide Counted, ListOf, ListBytes, BlobOk;
    if ListOf(data).Got? {
      ListSound(data);
      ReadableOk(ListOf(data).value);
    } else {
      forall blobs, rest | ListOk(blobs)
        ensures data != ListBytes(blobs) + rest
      {
        ListComplete(blobs, rest);
      }
    }
  }

  lemma ReadableOk(blobs: seq<RangeImage>)
    requires ListReadable(blobs)
    ensures ListOk(blobs)
  {
    forall i | 0 <= i < |blobs|
      ensures BlobOk(blobs[i])
    {
      assert BlobReadable(blobs[i]);
      assert forall k | 0 <= k < |blobs[i].ranges| :: RowReadable(blobs[i].ranges[k]);
    }
  }

  // ----- the loops -----

  /** One more item read. */
  lemma RepeatStep<T>(f: seq<byte> -> Read<T>, n: nat, data: seq<byte>, out: seq<T>)
    requires n > 0
    ensures Before(out, Repeat(f, n, data)) ==
      match f(data)
      case Short => Short
      case Got(x, rest) => Before(out + [x], Repeat(f, n - 1, rest))
  {
    if f(data).Got? {
      var r := Repeat(f, n - 1, f(data).rest);
      if r.Got? {
        assert out + ([f(data).value] + r.value) == out + [f(data).value] + r.value;
      }
    }
  }

  method ParseRow(data: seq<byte>) returns (r: Read<Row>)
    ensures r == RowOf(data)
  {
    hide FromLe16, Repeat;
    if |data| < 2 {
      return Short;
    }
    var n, left, out: Row := FromLe16(data), data[2..], [];
    BeforeNothing(Repeat(RangeOf, n, left));
    for i := 0 to n
      invariant RowOf(data) == Before(out, Repeat(RangeOf, n - i, left))
    {
      RepeatStep(RangeOf, n - i, left, out);
      if |left| < 4 {
        return Short;
      }
      out, left := out + [ImageRange(FromLe16(left), FromLe16(left[2..]))], left[2..][2..];
    }
    RepeatNone(RangeOf, left, out);
    r := Got(out, left);
  }

  lemma BeforeNothing<T>(r: Read<seq<T>>)
    ensures Before([], r) == r
  {
    if r.Got? {
      assert [] + r.value == r.value;
    }
  }

  lemma RepeatNone<T>(f: seq<byte> -> Read<T>, data: seq<byte>, out: seq<T>)
    ensures Before(out, Repeat(f, 0, data)) == Got(out, data)
  {
    assert out + [] == out;
  }

  method ParseBlob(data: seq<byte>) returns (r: Read<RangeImage>)
    ensures r == BlobOf(data)
  {
    hide FromLe16, Repeat, RowOf;
    if |data| < 4 {
      return Short;
    }
    var mini, n, left, out: seq<Row> := FromLe16(data), FromLe16(data[2..]), data[2..][2..], [];
    BeforeNothing(Repeat(RowOf, n, left));
    for i := 0 to n
      invariant Counted(RowOf, data[2..]) == Before(out, Repeat(RowOf, n - i, left))
    {
      RepeatStep(RowOf, n - i, left, out);
      var row := ParseRow(left);
      if row.Short? {
        return Short;
      }
      out, left := out + [row.value], row.rest;
    }
    RepeatNone(RowOf, left, out);
    r := Got(RangeImage(mini, out), left);
  }

  /** ParseBlobList; where the original would go on past the end of its input, the result is `Short`. */
  method ParseBlobList(data: seq<byte>) returns (r: Read<seq<RangeImage>>)
    ensures r.Got? ==> ListReadable(r.value) && data == ListBytes(r.value) + r.rest
    ensures r.Short? <==> forall blobs, rest | ListOk(blobs) :: data != ListBytes(blobs) + rest
    ensures forall blobs, rest | ListOk(blobs) && data == ListBytes(blobs) + rest :: r == Got(NarrowList(blobs), rest)
  {
    hide FromLe16, Repeat, Counted, BlobOf, ListBytes, ListReadable, ListOk, NarrowList;
    r := ParseList(data);
    ShortIff(data);
    if r.Got? {
      ListSound(data);
    }
    forall blobs, rest | ListOk(blobs) && data == ListBytes(blobs) + rest
      ensures r == Got(NarrowList(blobs), rest)
    {
      ListComplete(blobs, rest);
    }
  }

  method ParseList(data: seq<byte>) returns (r: Read<seq<RangeImage>>)
    ensures r == ListOf(data)
  {
    hide FromLe16, Repeat, BlobOf;
    if |data| < 2 {
      return Short;
    }
    var n, left, out: seq<RangeImage> := FromLe16(data), data[2..], [];
    BeforeNothing(Repeat(BlobOf, n, left));
    for i := 0 to n
      invariant ListOf(data) == Before(out, Repeat(BlobOf, n - i, left))
    {
      RepeatStep(BlobOf, n - i, left, out);
      var blob := ParseBlob(left);
      if blob.Short? {
        return Short;
      }
      out, left := out + [blob.value], blob.rest;
    }
    RepeatNone(BlobOf, left, out);
    r := Got(out, left);
  }
}
