/** Frames with a length in front, read from a socket in pieces (aos/vision/events/socket_types.h). */
module StreamReaders {
  import opened ByteOrder

  const MAX_FRAME: nat := 200000

  /** What one call of read gives: an error, or some of the bytes that were asked for. */
  datatype ReadResult = Failed | Got(bytes: seq<byte>)

  // ----- the stream as a whole -----

  function Frame(data: seq<byte>): seq<byte> {
    Le32(|data|) + data
  }

  /** The length of the data in the first four bytes, the data behind it. */
  lemma FrameLayout(data: seq<byte>)
    requires |data| < 0x1_0000_0000
    ensures Word32At(Frame(data), 0, |data|) && Frame(data)[4..] == data
  {
    Le32Means(|data|);
  }

  function Stream(frames: seq<seq<byte>>): seq<byte> {
    if frames == [] then [] else Stream(frames[..|frames| - 1]) + Frame(frames[|frames| - 1])
  }

  predicate FrameOk(data: seq<byte>) {
    |data| <= MAX_FRAME
  }

  ghost predicate FramesOk(frames: seq<seq<byte>>) {
    forall i | 0 <= i < |frames| :: FrameOk(frames[i])
  }

  /** Whether the bytes start with a whole frame. */
  predicate Whole(b: seq<byte>) {
    |b| >= 4 && FromLe32(b[..4]) <= MAX_FRAME && 4 + FromLe32(b[..4]) <= |b|
  }

  /** What a decoder makes of all the bytes at once: the whole frames at their start. */
  function DecodeAll(b: seq<byte>): seq<seq<byte>>
    decreases |b|
  {
    if !Whole(b) then [] else [b[4..4 + FromLe32(b[..4])]] + DecodeAll(b[4 + FromLe32(b[..4])..])
  }

  lemma FrameFirst(data: seq<byte>, rest: seq<byte>)
    requires FrameOk(data)
    ensures Whole(Frame(data) + rest) && DecodeAll(Frame(data) + rest) == [data] + DecodeAll(rest)
  {
    hide Le32, FromLe32;
    var b := Frame(data) + rest;
    assert b[..4] == Le32(|data|);
    Le32RoundTrip(|data|);
    assert b[4..4 + |data|] == data && b[4 + |data|..] == rest;
  }

  lemma {:induction false} StreamFirst(frames: seq<seq<byte>>)
    requires frames != []
    ensures Stream(frames) == Frame(frames[0]) + Stream(frames[1..])
    decreases |frames|
  {
    hide Frame;
    var n := |frames| - 1;
    if n > 0 {
      StreamFirst(frames[..n]);
      assert frames[..n][1..] == frames[1..][..n - 1] && frames[..n][0] == frames[0];
      var middle := Stream(frames[1..][..n - 1]);
      assert Stream(frames[1..]) == middle + Frame(frames[n]);
      assert Frame(frames[0]) + middle + Frame(frames[n]) == Frame(frames[0]) + (middle + Frame(frames[n]));
    } else {
      assert Stream(frames[..0]) == [] && Stream(frames[1..]) == [];
    }
  }

  /** Any frames followed by less than a frame decode to those frames. */
  lemma {:induction false} DecodesTo(frames: seq<seq<byte>>, rest: seq<byte>)
    requires FramesOk(frames)
    ensures DecodeAll(Stream(frames) + rest) == frames + DecodeAll(rest)
    decreases |frames|
  {
    hide Frame, Whole;
    if frames == [] {
      assert [] + rest == rest && frames + DecodeAll(rest) == DecodeAll(rest);
    } else {
      StreamFirst(frames);
      var more := Stream(frames[1..]) + rest;
      assert Stream(frames) + rest == Frame(frames[0]) + more;
      FrameFirst(frames[0], more);
      DecodesTo(frames[1..], rest);
      assert [frames[0]] + (frames[1..] + DecodeAll(rest)) == frames + DecodeAll(rest);
    }
  }

  // ----- the reader, seen from its bytes -----

  /** The bytes behind the last frame start with a length that is too large. */
  predicate Bad(pending: seq<byte>) {
    |pending| >= 4 && FromLe32(pending[..4]) > MAX_FRAME
  }

  /** The length of an empty frame has been read, the frame has not been delivered. */
  predicate EmptyFrameNext(pending: seq<byte>) {
    |pending| == 4 && FromLe32(pending) == 0
  }

  /** How many bytes are missing from the length, or from the frame. */
  function Missing(pending: seq<byte>): nat {
    if |pending| < 4 then 4 - |pending|
    else if Bad(pending) || 4 + FromLe32(pending[..4]) <= |pending| then 0
    else 4 + FromLe32(pending[..4]) - |pending|
  }

  /** The bytes behind the last frame, and what a call delivers, when it is given some of the missing bytes. */
  datatype Fed = Fed(pending: seq<byte>, out: seq<seq<byte>>)

  function Feed(pending: seq<byte>, bytes: seq<byte>): Fed {
    var b := pending + bytes;
    if |pending| >= 4 && |b| == 4 + FromLe32(pending[..4]) then Fed([], [b[4..]]) else Fed(b, [])
  }

  // ----- the reader -----

  class BufferedLengthDelimReader {
    var lenBuf: seq<byte>
    var numRead: nat
    var data: seq<byte>
    var imgRead: int
    var dead: bool
    ghost var frames: seq<seq<byte>>
    ghost var consumed: seq<byte>

    /** The bytes read so far are the frames delivered and the part of a frame that is in the buffers. */
    ghost predicate Valid()
      reads this
    {
      && |lenBuf| == 4 && FramesOk(frames) && consumed == Stream(frames) + Pending()
      && (dead ==> imgRead == 0 && data == [] && FromLe32(lenBuf) > MAX_FRAME)
      && if imgRead < 0 then
           imgRead == -1 && numRead < 4
         else
           dead || (numRead == 0 && |data| == FromLe32(lenBuf) <= MAX_FRAME && (imgRead < |data| || imgRead == 0))
    }

    ghost function Pending(): seq<byte>
      reads this
    {
      if imgRead < 0 then lenBuf[..if numRead <= |lenBuf| then numRead else 0]
      else lenBuf + data[..if imgRead <= |data| then imgRead else 0]
    }

    constructor ()
      ensures Valid() && !dead && consumed == [] && frames == [] && Pending() == []
    {
      lenBuf, numRead, data, imgRead, dead, frames, consumed := [0, 0, 0, 0], 0, [], -1, false, [], [];
    }

    /** How many bytes the next call asks for. */
    function Wants(): (n: nat)
      requires Valid()
      reads this
      ensures n == Missing(Pending()) && dead == Bad(Pending())
    {
      PendingLength();
      if dead then 0 else if imgRead < 0 then 4 - numRead else |data| - imgRead
    }

    lemma PendingLength()
      requires Valid()
      ensures |Pending()| >= 4 <==> imgRead >= 0
      ensures imgRead >= 0 ==> Pending()[..4] == lenBuf
    {
    }

    /** One call of `up` with what the read in it gives; `out` holds the frame that is delivered, if there is one. */
    method Up(got: ReadResult) returns (out: seq<seq<byte>>)
      requires Valid() && !dead && (got.Got? ==> |got.bytes| <= Wants())
      modifies this
      ensures Valid()
      ensures consumed == old(consumed) + (if got.Got? then got.bytes else [])
      ensures frames == old(frames) + out
      ensures Fed(Pending(), out) == if got.Got? then Feed(old(Pending()), got.bytes) else Fed(old(Pending()), [])
    {
      hide FromLe32, Le32;
      PendingLength();
      out := [];
      if got.Failed? {
        return;
      }
      ghost var was := Stream(frames);
      consumed := consumed + got.bytes;
      if imgRead < 0 {
        var n := numRead + |got.bytes|;
        ghost var head := lenBuf[..numRead] + got.bytes;
        lenBuf := lenBuf[..numRead] + got.bytes + lenBuf[n..];
        numRead := n;
        assert lenBuf[..n] == head;
        assert consumed == was + head;
        if numRead < 4 {
          return;
        }
        assert lenBuf[..4] == lenBuf;
        numRead, imgRead, data := 0, 0, [];
        assert lenBuf + data[..0] == lenBuf;
        if FromLe32(lenBuf) > MAX_FRAME {
          dead := true;
          return;
        }
        data := seq(FromLe32(lenBuf), _ => 0);
        assert lenBuf + data[..0] == lenBuf;
      } else {
        out := Body(got.bytes, was);
      }
    }

    /** The part of `up` that reads the frame itself. */
    method Body(bytes: seq<byte>, ghost was: seq<byte>) returns (out: seq<seq<byte>>)
      requires |lenBuf| == 4 && FramesOk(frames) && !dead && numRead == 0 && was == Stream(frames)
      requires 0 <= imgRead && imgRead + |bytes| <= |data| == FromLe32(lenBuf) <= MAX_FRAME
      requires consumed == was + (lenBuf + data[..imgRead]) + bytes
      modifies this`data, this`imgRead, this`numRead, this`frames
      ensures Valid() && frames == old(frames) + out
      ensures Fed(Pending(), out) == Feed(old(lenBuf + data[..imgRead]), bytes)
    {
      hide FromLe32, Le32, FramesOk, Stream;
      assert (lenBuf + data[..imgRead])[..4] == lenBuf;
      assert lenBuf + data[..imgRead] + bytes == lenBuf + (data[..imgRead] + bytes);
      var n := imgRead + |bytes|;
      ghost var head := data[..imgRead] + bytes;
      data := data[..imgRead] + bytes + data[n..];
      imgRead := n;
      BodyBytes(was, lenBuf, old(data[..imgRead]), bytes);
      assert data[..n] == head;
      if imgRead < |data| {
        return [];
      }
      out := [data];
      assert head == data;
      StreamMore(frames, data, lenBuf);
      imgRead, frames, numRead := -1, frames + [data], 0;
      assert lenBuf[..0] == [];
    }
  }

  lemma BodyBytes(was: seq<byte>, len: seq<byte>, part: seq<byte>, bytes: seq<byte>)
    ensures was + (len + part) + bytes == was + (len + (part + bytes))
  {
  }

  /** One more frame on the stream. */
  lemma StreamMore(frames: seq<seq<byte>>, data: seq<byte>, len: seq<byte>)
    requires |len| == 4 && FromLe32(len) == |data| && FramesOk(frames) && FrameOk(data)
    ensures FramesOk(frames + [data])
    ensures Stream(frames + [data]) + [] == Stream(frames) + (len + data)
  {
    hide FromLe32, Le32;
    FromLe32RoundTrip(len);
    assert (frames + [data])[..|frames|] == frames;
  }

  /**
   * However the bytes came in, the frames delivered are those a decoder finds in all of them, short of an empty
   * frame whose length has just been read.
   */
  lemma DeliversTheStream(r: BufferedLengthDelimReader)
    requires r.Valid()
    ensures DecodeAll(r.consumed) == r.frames + if EmptyFrameNext(r.Pending()) then [[]] else []
  {
    hide FromLe32, Le32;
    DecodesTo(r.frames, r.Pending());
    var b := r.Pending();
    if r.imgRead >= 0 {
      assert b[..4] == r.lenBuf && (|b| == 4 ==> b == b[..4]);
      if !r.dead && r.data == [] {
        assert b == b[..4] && b[4..4] == [] && DecodeAll(b[4..]) == [];
        assert [[]] + DecodeAll(b[4..]) == [[]];
      }
    }
  }

  // ----- a whole connection -----

  /** How far a connection has come: the bytes taken from the stream, the frames delivered, the bytes behind them. */
  datatype Progress = Progress(at: nat, out: seq<seq<byte>>, pending: seq<byte>)

  /** One more read, of at most `count` bytes or, if that is negative, failing; a bad length ends it all. */
  function Next(stream: seq<byte>, p: Progress, count: int): (r: Progress)
    requires p.at <= |stream|
    ensures p.at <= r.at <= |stream|
  {
    if count < 0 || Bad(p.pending) then p
    else
      var n := Least(count, Missing(p.pending), |stream| - p.at);
      var fed := Feed(p.pending, stream[p.at..p.at + n]);
      Progress(p.at + n, p.out + fed.out, fed.pending)
  }

  function After(stream: seq<byte>, counts: seq<int>): (r: Progress)
    ensures r.at <= |stream|
  {
    if counts == [] then Progress(0, [], []) else Next(stream, After(stream, counts[..|counts| - 1]), counts[|counts| - 1])
  }

  // ----- what was sent arrives -----

  /**
   * On the bytes of `frames`: the frames delivered are the first ones, the bytes behind them are the start of the
   * next frame, all of it only if it is empty and its length has just been read.
   */
  ghost predicate OnTheWay(frames: seq<seq<byte>>, p: Progress) {
    var stream := Stream(frames);
    && p.out <= frames && |Stream(p.out)| + |p.pending| == p.at <= |stream|
    && p.pending == stream[|Stream(p.out)|..p.at]
    && if |p.out| == |frames| then p.pending == []
       else var next := |frames[|p.out|]|; |p.pending| < 4 + next || |p.pending| == 4
  }

  /** The stream is the frames delivered, the next frame and the others. */
  lemma StreamSplit(frames: seq<seq<byte>>, i: nat)
    requires i < |frames|
    ensures Stream(frames) == Stream(frames[..i]) + (Frame(frames[i]) + Stream(frames[i + 1..]))
    ensures Stream(frames[..i + 1]) == Stream(frames[..i]) + Frame(frames[i])
  {
    hide Frame;
    StreamParts(frames, i);
    StreamFirst(frames[i..]);
    assert frames[i..][1..] == frames[i + 1..];
    assert frames[..i + 1][..i] == frames[..i];
  }

  lemma {:induction false} StreamParts(frames: seq<seq<byte>>, i: nat)
    requires i <= |frames|
    ensures Stream(frames) == Stream(frames[..i]) + Stream(frames[i..])
    decreases |frames|
  {
    hide Frame;
    var n := |frames| - 1;
    if i == |frames| {
      assert frames[..i] == frames && Stream(frames[i..]) == [];
    } else {
      StreamParts(frames[..n], i);
      assert frames[..n][..i] == frames[..i] && frames[..n][i..] == frames[i..][..n - i];
      assert frames[i..][n - i] == frames[n];
    }
  }

  /** What a read does with the next frame. */
  lemma FeedFrame(data: seq<byte>, k: nat, n: nat)
    requires FrameOk(data) && (k < 4 + |data| || k == 4) && k <= 4 + |data| && n <= Missing(Frame(data)[..k])
    ensures !Bad(Frame(data)[..k])
    ensures Missing(Frame(data)[..k]) == if k < 4 then 4 - k else 4 + |data| - k
    ensures
      Feed(Frame(data)[..k], Frame(data)[k..k + n])
      == if k >= 4 && k + n == 4 + |data| then Fed([], [data]) else Fed(Frame(data)[..k + n], [])
  {
    hide Le32, FromLe32;
    var b := Frame(data);
    assert b[..4] == Le32(|data|);
    Le32RoundTrip(|data|);
    assert k >= 4 ==> b[..k][..4] == b[..4];
    assert b[..k] + b[k..k + n] == b[..k + n];
    assert b[4..] == data && b[..4 + |data|] == b;
  }

  /** The bytes behind the frames delivered are the start of the next frame. */
  lemma InFrame(frames: seq<seq<byte>>, p: Progress)
    requires OnTheWay(frames, p) && |p.out| < |frames|
    ensures
      var data, k := frames[|p.out|], |p.pending|;
      && Stream(frames) == Stream(p.out) + (Frame(data) + Stream(frames[|p.out| + 1..]))
      && |Frame(data)| == 4 + |data| && p.pending == Frame(data)[..k] && |Stream(p.out)| == p.at - k
      && (k < 4 + |data| || k == 4) && k <= 4 + |data|
      && p.at - k + 4 + |data| <= |Stream(frames)| && Stream(p.out + [data]) == Stream(p.out) + Frame(data)
  {
    hide Stream, Frame;
    var i, k := |p.out|, |p.pending|;
    assert frames[..i] == p.out && p.out + [frames[i]] == frames[..i + 1];
    StreamSplit(frames, i);
    FrameSlice(Stream(frames), Stream(p.out), frames[i], Stream(frames[i + 1..]), 0, k);
  }

  /** Where a read from within a frame leads. */
  lemma ReadIn(front: seq<byte>, data: seq<byte>, back: seq<byte>, p: Progress, count: nat)
    requires FrameOk(data) && |Frame(data)| == 4 + |data| && |p.pending| <= 4 + |data|
    requires (|p.pending| < 4 + |data| || |p.pending| == 4) && p.at == |front| + |p.pending|
    requires p.pending == Frame(data)[..|p.pending|]
    ensures
      var stream, k, m := front + (Frame(data) + back), |p.pending|, Missing(p.pending);
      var n := if count < m then count else m;
      && m == (if k < 4 then 4 - k else 4 + |data| - k)
      && Next(stream, p, count)
         == if k >= 4 && k + n == 4 + |data| then Progress(p.at + n, p.out + [data], [])
            else Progress(p.at + n, p.out, Frame(data)[..k + n])
  {
    hide Frame, Feed, Missing, Bad;
    var stream, k := front + (Frame(data) + back), |p.pending|;
    FeedFrame(data, k, 0);
    var n := Least(count, Missing(p.pending), |stream| - p.at);
    FeedFrame(data, k, n);
    FrameSlice(stream, front, data, back, k, k + n);
    assert p.out + [] == p.out;
  }

  lemma ReadFrame(frames: seq<seq<byte>>, p: Progress, count: nat)
    requires FramesOk(frames) && OnTheWay(frames, p) && |p.out| < |frames|
    ensures
      var data, k, m := frames[|p.out|], |p.pending|, Missing(p.pending);
      var n := if count < m then count else m;
      && m == (if k < 4 then 4 - k else 4 + |data| - k)
      && Next(Stream(frames), p, count)
         == if k >= 4 && k + n == 4 + |data| then Progress(p.at + n, p.out + [data], [])
            else Progress(p.at + n, p.out, Frame(data)[..k + n])
  {
    InFrame(frames, p);
    hide Stream, Frame, Missing, OnTheWay, Next;
    ReadIn(Stream(p.out), frames[|p.out|], Stream(frames[|p.out| + 1..]), p, count);
  }

  lemma PartRead(frames: seq<seq<byte>>, p: Progress, n: nat)
    requires OnTheWay(frames, p) && |p.out| < |frames|
    requires var b, k := |frames[|p.out|]|, |p.pending| + n; k <= 4 + b && (k < 4 + b || k == 4)
    ensures OnTheWay(frames, Progress(p.at + n, p.out, Frame(frames[|p.out|])[..|p.pending| + n]))
  {
    InFrame(frames, p);
    hide Stream, Frame;
    var i := |p.out|;
    FrameSlice(Stream(frames), Stream(p.out), frames[i], Stream(frames[i + 1..]), 0, |p.pending| + n);
  }

  lemma AllRead(frames: seq<seq<byte>>, p: Progress)
    requires OnTheWay(frames, p) && |p.out| < |frames|
    ensures
      var data := frames[|p.out|];
      OnTheWay(frames, Progress(p.at - |p.pending| + 4 + |data|, p.out + [data], []))
  {
    InFrame(frames, p);
    hide Stream, Frame;
    var data := frames[|p.out|];
    assert p.out + [data] <= frames;
  }

  /** One read keeps the delivery on the way; if it may take a byte, less is left. */
  lemma NextOnTheWay(frames: seq<seq<byte>>, p: Progress, count: int)
    requires FramesOk(frames) && OnTheWay(frames, p)
    ensures
      var r := Next(Stream(frames), p, count);
      OnTheWay(frames, r) && Left(frames, r) <= Left(frames, p)
      && (count >= 1 && Left(frames, p) > 0 ==> Left(frames, r) < Left(frames, p))
  {
    hide Stream, Frame, Feed, Missing, Bad;
    var stream, i := Stream(frames), |p.out|;
    if i == |frames| {
      assert p.out == frames && p.at == |stream|;
      assert stream[p.at..p.at] == [] && p.out + [] == p.out;
      NothingMore();
    } else if count >= 0 {
      InFrame(frames, p);
      ReadFrame(frames, p, count);
      var n := if count < Missing(p.pending) then count else Missing(p.pending);
      AllRead(frames, p);
      hide Next, OnTheWay;
      if |p.pending| < 4 || |p.pending| + n != 4 + |frames[i]| {
        PartRead(frames, p, n);
      }
    } else {
      assert Next(stream, p, count) == p;
    }
  }

  lemma NothingMore()
    ensures !Bad([]) && Feed([], []) == Fed([], []) && Missing([]) == 4
  {
  }

  lemma FrameSlice(stream: seq<byte>, front: seq<byte>, data: seq<byte>, back: seq<byte>, i: nat, j: nat)
    requires stream == front + (Frame(data) + back) && i <= j <= 4 + |data|
    ensures |Frame(data)| == 4 + |data| && |front| + 4 + |data| <= |stream|
    ensures stream[|front| + i..|front| + j] == Frame(data)[i..j]
  {
  }

  /** The bytes that have not been taken and the frames that have not been delivered. */
  ghost function Left(frames: seq<seq<byte>>, p: Progress): int {
    |Stream(frames)| - p.at + |frames| - |p.out|
  }

  /** How many of the reads may take a byte. */
  function Reads(counts: seq<int>): nat {
    if counts == [] then 0 else Reads(counts[..|counts| - 1]) + if counts[|counts| - 1] >= 1 then 1 else 0
  }

  lemma {:induction false} EachReadHelps(frames: seq<seq<byte>>, counts: seq<int>)
    requires FramesOk(frames)
    ensures var p := After(Stream(frames), counts);
            OnTheWay(frames, p) && (Left(frames, p) == 0 || Left(frames, p) + Reads(counts) <= |Stream(frames)| + |frames|)
    decreases |counts|
  {
    if counts == [] {
      assert Stream([]) == [] && Stream(frames)[0..0] == [];
    } else {
      hide Next, Stream, OnTheWay;
      var n := |counts| - 1;
      EachReadHelps(frames, counts[..n]);
      NextOnTheWay(frames, After(Stream(frames), counts[..n]), counts[n]);
    }
  }

  /**
   * Whatever was framed and sent arrives: at any time the first frames have been delivered, in order and whole, and
   * after as many reads that may take a byte as there are bytes and frames, all of them have.
   */
  lemma AllDelivered(frames: seq<seq<byte>>, counts: seq<int>)
    requires FramesOk(frames)
    ensures After(Stream(frames), counts).out <= frames
    ensures
      Reads(counts) >= |Stream(frames)| + |frames| ==>
        After(Stream(frames), counts) == Progress(|Stream(frames)|, frames, [])
  {
    hide After, Stream;
    EachReadHelps(frames, counts);
    var p := After(Stream(frames), counts);
    if Left(frames, p) == 0 {
      assert p.out == frames;
    }
  }

  /** `counts` says how many bytes each read gives at most, negative for one that fails. */
  method Receive(stream: seq<byte>, counts: seq<int>) returns (out: seq<seq<byte>>, at: nat)
    ensures at == After(stream, counts).at && out == After(stream, counts).out
    ensures at <= |stream|
    ensures DecodeAll(stream[..at]) == out + if EmptyFrameNext(After(stream, counts).pending) then [[]] else []
  {
    hide DecodeAll, Stream, FromLe32, Le32, Feed, Missing, Bad;
    hide BufferedLengthDelimReader.Valid, BufferedLengthDelimReader.Pending;
    var reader := new BufferedLengthDelimReader();
    out, at := [], 0;
    assert counts[..0] == [];
    for i := 0 to |counts|
      invariant fresh(reader) && reader.Valid() && 0 <= at <= |stream|
      invariant reader.consumed == stream[..at] && reader.frames == out
      invariant Progress(at, out, reader.Pending()) == After(stream, counts[..i])
    {
      assert counts[..i + 1][..i] == counts[..i];
      var wants := reader.Wants();
      if !reader.dead {
        var got := Failed;
        if counts[i] >= 0 {
          var n := Least(counts[i], wants, |stream| - at);
          got := Got(stream[at..at + n]);
          assert stream[..at] + stream[at..at + n] == stream[..at + n];
          at := at + n;
        }
        var more := reader.Up(got);
        out := out + more;
      }
    }
    assert counts[..|counts|] == counts;
    DeliversTheStream(reader);
  }

  function Least(a: nat, b: nat, c: nat): (m: nat)
    ensures m <= a && m <= b && m <= c
  {
    var d := if a < b then a else b;
    if c < d then c else d
  }
}
