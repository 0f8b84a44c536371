/** Length-prefixed frames over byte streams. A stream is the bytes the peer will ever send,
    with a position; a sink is the bytes accepted so far, and breaks at some point. */
module Frames {
  import opened Ordering
  import opened Wire

  const MAX_FRAME := 0x100_0000

  const MAX_UINT32 := 0xFFFF_FFFF

  datatype ReadError = EndOfStream | UnexpectedEnd | NegativeLength | TooLarge

  datatype FrameResult = Frame(body: Bytes) | Failed(error: ReadError)

  /** A frame as it travels. */
  function Framed(body: Bytes): (b: Bytes)
    ensures |b| == |body| + 4
  {
    AppendInt32([], |body|) + body
  }

  function Concat(frames: seq<Bytes>): Bytes
  {
    if frames == [] then [] else Concat(frames[..|frames| - 1]) + Framed(frames[|frames| - 1])
  }

  /** A frame the reader takes: its length is a non-negative int32 within the limit. */
  predicate Acceptable(body: Bytes, maxSize: int)
  {
    |body| <= maxSize && IsInt32(|body|)
  }

  // ---------------------------------------------------------------- streams

  class Source {
    const data: Bytes
    var pos: nat

    ghost predicate Valid()
      reads this
    {
      pos <= |data|
    }

    constructor (data: Bytes)
      ensures Valid() && this.data == data && pos == 0
    {
      this.data := data;
      pos := 0;
    }

    /** Read `n` bytes, or all that are left if those are fewer. */
    method ReadFull(n: nat) returns (got: Bytes)
      requires Valid()
      modifies this
      ensures Valid() && old(pos) <= pos && got == data[old(pos)..pos]
      ensures pos == if old(pos) + n <= |data| then old(pos) + n else |data|
    {
      var end := if pos + n <= |data| then pos + n else |data|;
      got := data[pos..end];
      pos := end;
    }
  }

  class Sink {
    var written: Bytes
    const room: nat    // how many bytes the peer takes before the connection breaks

    ghost predicate Valid()
      reads this
    {
      |written| <= room
    }

    constructor (room: nat)
      ensures Valid() && this.room == room && written == []
    {
      this.room := room;
      written := [];
    }

    method Write(b: Bytes) returns (ok: bool)
      requires Valid()
      modifies this
      ensures Valid()
      ensures ok == (|old(written)| + |b| <= room)
      ensures old(written) <= written <= old(written) + b && (ok ==> written == old(written) + b)
    {
      ok := |written| + |b| <= room;
      written := written + if ok then b else b[..room - |written|];
    }
  }

  /** What a short read means: nothing came, or something. */
  function ShortRead(got: Bytes): ReadError
  {
    if got == [] then EndOfStream else UnexpectedEnd
  }

  /** The frame at the front of what is still to come. */
  function Parse(rest: Bytes, maxSize: int): FrameResult
  {
    if |rest| < 4 then Failed(ShortRead(rest)) else
      var size := ReadInt32(rest, 0).v;
      if size < 0 then Failed(NegativeLength)
      else if size > maxSize then Failed(TooLarge)
      else if |rest| < 4 + size then Failed(ShortRead(rest[4..|rest|]))
      else Frame(rest[4..4 + size])
  }

  class Reader {
    const source: Source
    const maxSize: int
    var hdr: Bytes

    constructor (source: Source, maxSize: int)
      ensures this.source == source && this.maxSize == if maxSize <= 0 then MAX_FRAME else maxSize
    {
      this.source := source;
      this.maxSize := if maxSize <= 0 then MAX_FRAME else maxSize;
      hdr := [0, 0, 0, 0];
    }

    /** Read one frame; of a frame that comes back, exactly the encoding has been consumed. */
    method ReadFrame() returns (res: FrameResult)
      requires source.Valid()
      modifies this, source
      ensures source.Valid() && old(source.pos) <= source.pos
      ensures res == Parse(source.data[old(source.pos)..], maxSize)
      ensures res.Frame? ==> source.pos == old(source.pos) + |Framed(res.body)|
    {
      ghost var rest := source.data[source.pos..];
      var got := source.ReadFull(4);
      if |got| < 4 {
        assert got == rest;
        return Failed(ShortRead(got));
      }
      hdr := got;
      assert hdr == rest[..4];
      var size := Signed32(U16(hdr, 0) * 0x1_0000 + U16(hdr, 2));
      assert size == ReadInt32(rest, 0).v;
      if size < 0 { return Failed(NegativeLength); }
      if size > maxSize { return Failed(TooLarge); }
      var body := source.ReadFull(size);
      if |body| < size {
        SliceOfRest(source.data, old(source.pos), 4, |rest|);
        return Failed(ShortRead(body));
      }
      SliceOfRest(source.data, old(source.pos), 4, 4 + size);
      return Frame(body);
    }
  }

  /** Which error comes when: the stream ends before or within the length field or the body, or
      the length is negative or above the limit. */
  lemma ParseErrors(rest: Bytes, maxSize: int)
    requires maxSize >= 0
    ensures rest == [] ==> Parse(rest, maxSize) == Failed(EndOfStream)
    ensures 0 < |rest| < 4 ==> Parse(rest, maxSize) == Failed(UnexpectedEnd)
    ensures |rest| >= 4 ==>
              var size := ReadInt32(rest, 0).v;
              && (Parse(rest, maxSize) == Failed(NegativeLength) <==> rest[0] >= 0x80)
              && (Parse(rest, maxSize) == Failed(TooLarge) <==> size > maxSize)
              && (0 < size <= maxSize && |rest| == 4 ==> Parse(rest, maxSize) == Failed(EndOfStream))
              && (0 <= size <= maxSize && 4 < |rest| < 4 + size ==> Parse(rest, maxSize) == Failed(UnexpectedEnd))
  {
  }

  lemma SliceOfRest(data: Bytes, pos: nat, from: nat, to: nat)
    requires from <= to && pos + to <= |data|
    ensures data[pos..][from..to] == data[pos + from..pos + to]
  {
  }

  /** A frame comes back exactly when the stream goes on with the encoding of an acceptable
      one. */
  lemma ParseIff(rest: Bytes, maxSize: int, body: Bytes)
    ensures Parse(rest, maxSize) == Frame(body) <==> Acceptable(body, maxSize) && Framed(body) <= rest
  {
    if Parse(rest, maxSize) == Frame(body) {
      LengthWritten(rest);
      assert Framed(body) == rest[..4 + |body|];
    }
    if Acceptable(body, maxSize) && Framed(body) <= rest {
      LengthRead(rest, body);
      assert rest[4..4 + |body|] == Framed(body)[4..] == body;
    }
  }

  /** The length field of a frame says its length. */
  lemma LengthRead(rest: Bytes, body: Bytes)
    requires IsInt32(|body|) && Framed(body) <= rest
    ensures ReadInt32(rest, 0) == Ok(|body|, 4)
  {
    assert AppendInt32([], |body|) <= rest;
    Int32Trip([], |body|, rest);
  }

  lemma LengthWritten(rest: Bytes)
    requires |rest| >= 4 && ReadInt32(rest, 0).v >= 0
    ensures AppendInt32([], ReadInt32(rest, 0).v) == rest[..4]
  {
    var hi, lo := U16(rest, 0), U16(rest, 2);
    var size := hi * 0x1_0000 + lo;
    assert size / 0x1_0000 == hi && size % 0x1_0000 == lo;
    assert Bytes16(hi) == rest[..2] && Bytes16(lo) == rest[2..4];
  }

  class Writer {
    const sink: Sink
    var hdr: Bytes

    constructor (sink: Sink)
      ensures this.sink == sink
    {
      this.sink := sink;
      hdr := [0, 0, 0, 0];
    }

    /** Write one frame; when the sink breaks, a prefix of the frame has been written. */
    method WriteFrame(body: Bytes) returns (ok: bool)
      requires sink.Valid()
      modifies this, sink
      ensures sink.Valid()
      ensures ok == (|body| <= MAX_UINT32 && |old(sink.written)| + |Framed(body)| <= sink.room)
      ensures old(sink.written) <= sink.written <= old(sink.written) + Framed(body)
      ensures ok ==> sink.written == old(sink.written) + Framed(body)
      ensures |body| > MAX_UINT32 ==> sink.written == old(sink.written)
    {
      if |body| > MAX_UINT32 { return false; }
      hdr := AppendInt32([], |body|);
      ok := sink.Write(hdr);
      if !ok { return; }
      ok := sink.Write(body);
    }
  }

  // -------------------------------------------------- sequences of frames

  lemma ConcatSnoc(frames: seq<Bytes>, body: Bytes)
    ensures Concat(frames + [body]) == Concat(frames) + Framed(body)
  {
    assert (frames + [body])[..|frames|] == frames;
  }

  /** A prefix goes on as the rest of the data does. */
  lemma PrefixExtends(a: Bytes, b: Bytes, data: Bytes)
    requires a <= data
    ensures a + b <= data <==> b <= data[|a|..]
  {
    assert data == data[..|a|] + data[|a|..];
    if a + b <= data { assert data[|a|..][..|b|] == data[..|a| + |b|][|a|..] == b; }
  }

  /** Fewer frames are fewer bytes. */
  lemma {:induction false} ConcatMonotone(a: seq<Bytes>, b: seq<Bytes>)
    requires a <= b
    ensures Concat(a) <= Concat(b)
  {
    if |a| < |b| {
      ConcatMonotone(a, b[..|b| - 1]);
    } else {
      assert a == b;
    }
  }

  /** The frames read from a stream one after the other, up to `n` of them. */
  function Split(data: Bytes, maxSize: int, n: nat): seq<Bytes>
  {
    if n == 0 then [] else
      var frames := Split(data, maxSize, n - 1);
      var used := |Concat(frames)|;
      if |frames| < n - 1 || used > |data| then frames else
        match Parse(data[used..], maxSize)
        case Frame(body) => frames + [body]
        case Failed(_) => frames
  }

  /** What has been read is the start of the stream, frame by frame. */
  lemma {:induction false} SplitReads(data: Bytes, maxSize: int, n: nat)
    ensures Concat(Split(data, maxSize, n)) <= data
    ensures forall x :: x in Split(data, maxSize, n) ==> Acceptable(x, maxSize)
  {
    hide Parse, Framed, Acceptable;
    if n > 0 {
      SplitReads(data, maxSize, n - 1);
      var frames := Split(data, maxSize, n - 1);
      var used := |Concat(frames)|;
      var next := Parse(data[used..], maxSize);
      if next.Frame? {
        ParseIff(data[used..], maxSize, next.body);
        ConcatSnoc(frames, next.body);
        PrefixExtends(Concat(frames), Framed(next.body), data);
      }
    }
  }

  /** Frames that were written come back as they were, whatever follows them. */
  lemma {:induction false} SplitConcat(frames: seq<Bytes>, maxSize: int, data: Bytes)
    requires Concat(frames) <= data && forall x :: x in frames ==> Acceptable(x, maxSize)
    ensures Split(data, maxSize, |frames|) == frames
  {
    hide Parse, Framed, Acceptable;
    if frames != [] {
      var n := |frames| - 1;
      var front, last := frames[..n], frames[n];
      var used := |Concat(front)|;
      assert forall x :: x in front ==> x in frames;
      assert Concat(front) <= data;
      SplitConcat(front, maxSize, data);
      PrefixExtends(Concat(front), Framed(last), data);
      ParseIff(data[used..], maxSize, last);
      assert frames == front + [last];
    }
  }
}
