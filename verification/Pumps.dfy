/** The two pumps of a connection as they run, one frame at a time and as loops. One round of
    a pump makes the steps that module Connection interleaves: the same request, the same
    table, the same frame out. */
module Pumps {
  import opened Ordering
  import opened Wire
  import opened Header
  import opened Frames
  import opened Topology
  import opened Tracker
  import opened Connection
  import opened Decoders
  import opened Cursors
  import opened Interceptor
  import Meta = MetadataMessage
  import Coord = CoordinatorMessage

  /** The table after the registration of request `i`, if it is registered at all. */
  function TableAfter(cfg: Config, t: Table, i: nat, r: Request, now: int): Table
    requires Decodes(r)
  {
    if r.intercept.Some? then Registered(cfg, t, PendingOf(i, r), now) else t
  }

  /** The request must not be forwarded: its response could not be rewritten. */
  predicate Refused(cfg: Config, t: Table, i: nat, r: Request, now: int)
    requires Decodes(r)
  {
    WantsRewrite(r) && !Accepts(cfg, t, PendingOf(i, r), now)
  }

  /** The request in the next frame of a stream, if there is a frame with a header. */
  function NextRequest(rest: Bytes, maxSize: int, onRequest: (RequestHeader, Bytes) -> Opt<Intercept>,
                       sent: int): (r: Opt<Request>)
    ensures r.Some? ==> Decodes(r.value) && Parse(rest, maxSize) == Frame(r.value.body) && r.value.sent == sent
    ensures r.Some? ==>
              var h := ReadRequestHeader(r.value.body);
              r.value.intercept == onRequest(h.v, r.value.body[h.off..])
    ensures r.None? <==> Parse(rest, maxSize).Failed? || ReadRequestHeader(Parse(rest, maxSize).body).Bad?
  {
    match Parse(rest, maxSize)
    case Failed(_) => None
    case Frame(body) =>
      match ReadRequestHeader(body)
      case Bad(_) => None
      case Ok(h, k) => Some(Request(body, onRequest(h, body[k..]), sent))
  }

  /** A sink with so many bytes written takes the frame whole. */
  predicate Takes(written: Bytes, room: nat, frame: Bytes)
  {
    |frame| <= MAX_UINT32 && |written| + |Framed(frame)| <= room
  }

  /** One round of the upstream pump. `sent` is when the request is stamped, `now` when it is
      registered; `onRequest` is what the interceptor says. */
  method UpstreamRound(i: nat, reader: Reader, writer: Writer, tracker: Correlation,
                       onRequest: (RequestHeader, Bytes) -> Opt<Intercept>, sent: int, now: int)
    returns (alive: bool, ghost r: Opt<Request>)
    requires reader.source.Valid() && writer.sink.Valid()
    modifies reader, reader.source, writer, writer.sink, tracker
    ensures reader.source.Valid() && writer.sink.Valid()
    ensures r == NextRequest(reader.source.data[old(reader.source.pos)..], reader.maxSize, onRequest, sent)
    ensures r.Some? ==> reader.source.pos == old(reader.source.pos) + |Framed(r.value.body)|
    ensures tracker.State() == if r.None? then old(tracker.State())
            else TableAfter(tracker.cfg, old(tracker.State()), i, r.value, now)
    ensures r.None? || Refused(tracker.cfg, old(tracker.State()), i, r.value, now) ==>
              !alive && writer.sink.written == old(writer.sink.written)
    ensures r.Some? ==>
              old(writer.sink.written) <= writer.sink.written <= old(writer.sink.written) + Framed(OutFrame(r.value))
    ensures alive ==> r.Some? && writer.sink.written == old(writer.sink.written) + Framed(OutFrame(r.value))
    ensures r.Some? && !WantsRewrite(r.value) ==>
              (alive <==> Takes(old(writer.sink.written), writer.sink.room, OutFrame(r.value)))
  {
    alive, r := false, None;
    var res := reader.ReadFrame();
    if res.Failed? { return; }
    var body := res.body;
    var h, headerSize := DecodeRequestHeader(body);
    if h.Err? { return; }
    var intercept := onRequest(h.value, body[headerSize..]);
    r := Some(Request(body, intercept, sent));
    var out := body;
    if intercept.Some? {
      var p := Pending(i, h.value.apiKey, h.value.version, h.value.correlId, sent, intercept.value.hook);
      if intercept.value.payload.Some? { out := body[..headerSize] + intercept.value.payload.value; }
      var ok := tracker.Register(p, now);
      if !ok && p.hook.Rewrite? { return; }
    }
    alive := writer.WriteFrame(out);
  }

  /** What the downstream pump makes of a frame whose entry is `found`. */
  function Delivered(m: Mapping, found: Found, frame: Bytes): Opt<Bytes>
  {
    if found.Nothing? || found.p.hook.NoRewrite? then Some(frame)
    else Rewritten(m, found.p, frame)
  }

  /** A response comes as it is unless an entry asks for a rewriting; then it is dropped, and
      the connection with it, exactly if its header or its body does not decode. */
  lemma DeliveredIff(m: Mapping, found: Found, frame: Bytes)
    ensures found == Nothing || found.p.hook == NoRewrite ==> Delivered(m, found, frame) == Some(frame)
    ensures found.Found? && found.p.hook.Rewrite? ==>
              (Delivered(m, found, frame).Some? <==> RewritesWell(found.p, frame))
  {
  }

  ghost predicate RewritesWell(p: Pending, frame: Bytes)
    requires p.hook.Rewrite?
  {
    var h := ReadResponseHeader(frame, p.apiKey, p.version);
    && h.Ok?
    && match p.hook.rewriter
       case MetadataRewriter => Meta.ReadMetadata(frame[h.off..], 0, p.version).Ok?
       case CoordinatorRewriter => Coord.ReadCoordinator(frame[h.off..], 0, p.version).Ok?
  }

  method RunRewrite(m: Mapping, rewriter: Rewriter, body: Bytes, version: int) returns (out: Opt<Bytes>)
    ensures out == Apply(m, rewriter, body, version)
  {
    match rewriter
    case MetadataRewriter => out := RewriteMetadataResponse(m, body, version);
    case CoordinatorRewriter => out := RewriteCoordinatorResponse(m, body, version);
  }

  /** One round of the downstream pump. */
  method DownstreamRound(reader: Reader, writer: Writer, tracker: Correlation, m: Mapping)
    returns (alive: bool, ghost frame: Opt<Bytes>, ghost out: Opt<Bytes>)
    requires reader.source.Valid() && writer.sink.Valid()
    modifies reader, reader.source, writer, writer.sink, tracker
    ensures reader.source.Valid() && writer.sink.Valid()
    ensures frame.Some? <==> Parse(reader.source.data[old(reader.source.pos)..], reader.maxSize).Frame?
    ensures frame.Some? ==> Parse(reader.source.data[old(reader.source.pos)..], reader.maxSize) == Frame(frame.value)
                            && reader.source.pos == old(reader.source.pos) + |Framed(frame.value)|
    ensures if frame.Some? && PeekCorrelId(frame.value).Ok? then
              var id := PeekCorrelId(frame.value).v;
              && tracker.State() == Taken(old(tracker.State()), id)
              && out == Delivered(m, Find(old(tracker.State()), id), frame.value)
            else tracker.State() == old(tracker.State()) && out == None
    ensures out.None? ==> !alive && writer.sink.written == old(writer.sink.written)
    ensures out.Some? ==>
              old(writer.sink.written) <= writer.sink.written <= old(writer.sink.written) + Framed(out.value)
    ensures alive <==> out.Some? && Takes(old(writer.sink.written), writer.sink.room, out.value)
    ensures alive ==> writer.sink.written == old(writer.sink.written) + Framed(out.value)
  {
    alive, frame, out := false, None, None;
    var res := reader.ReadFrame();
    if res.Failed? { return; }
    var body := res.body;
    frame := Some(body);
    var c := new Cursor(body);
    var id := c.Int32();
    if id.Err? { return; }
    var found := tracker.Take(id.value);
    if found.Nothing? || found.p.hook.NoRewrite? {
      out := Some(body);
      alive := writer.WriteFrame(body);
      return;
    }
    var p := found.p;
    var header, headerSize := DecodeResponseHeader(body, p.apiKey, p.version);
    if header.Err? { return; }
    var payload := RunRewrite(m, p.hook.rewriter, body[headerSize..], p.version);
    if payload.None? { return; }
    var assembled := AppendResponseHeader([], p.apiKey, p.version, p.correlId) + payload.value;
    out := Some(assembled);
    alive := writer.WriteFrame(assembled);
  }

  // ------------------------------------------------------------------- loops

  function OutFrames(requests: seq<Request>): seq<Bytes>
    requires forall r :: r in requests ==> Decodes(r)
  {
    if requests == [] then [] else OutFrames(requests[..|requests| - 1]) + [OutFrame(requests[|requests| - 1])]
  }

  lemma OutFramesSnoc(requests: seq<Request>, r: Request)
    requires (forall q :: q in requests ==> Decodes(q)) && Decodes(r)
    ensures OutFrames(requests + [r]) == OutFrames(requests) + [OutFrame(r)]
    ensures Bodies(requests + [r]) == Bodies(requests) + [r.body]
  {
    assert (requests + [r])[..|requests|] == requests;
  }

  /** Without new payloads what goes out is what came in. */
  lemma {:induction false} UntouchedFrames(requests: seq<Request>)
    requires forall r :: r in requests ==> Decodes(r) && r.intercept.None?
    ensures OutFrames(requests) == Bodies(requests)
  {
    if requests != [] {
      var front := requests[..|requests| - 1];
      UntouchedFrames(front);
      OutFramesSnoc(front, requests[|requests| - 1]);
      assert requests == front + [requests[|requests| - 1]];
    }
  }

  /** All that was read has been forwarded. */
  ghost predicate Relayed(requests: seq<Request>, data: Bytes, pos: nat, written: Bytes)
  {
    && (forall r :: r in requests ==> Decodes(r)) && pos <= |data|
    && Concat(Bodies(requests)) == data[..pos] && written == Concat(OutFrames(requests))
  }

  /** The same, but for a part of the last frame. */
  ghost predicate RelayedTo(requests: seq<Request>, data: Bytes, written: Bytes)
  {
    && (forall r :: r in requests ==> Decodes(r))
    && Concat(Bodies(requests)) <= data && written <= Concat(OutFrames(requests))
    && (requests != [] ==> Concat(OutFrames(requests[..|requests| - 1])) <= written)
  }

  lemma NothingRelayed(data: Bytes)
    ensures Relayed([], data, 0, [])
  {
  }

  lemma RelayedEnds(requests: seq<Request>, data: Bytes, pos: nat, written: Bytes)
    requires Relayed(requests, data, pos, written)
    ensures RelayedTo(requests, data, written)
  {
    hide Framed, OutFrame, Decodes;
    if requests != [] { ConcatMonotone(OutFrames(requests[..|requests| - 1]), OutFrames(requests)); }
  }

  lemma RelayedGrows(requests: seq<Request>, data: Bytes, pos: nat, written: Bytes, maxSize: int, r: Request,
                     written': Bytes)
    requires Relayed(requests, data, pos, written) && Decodes(r) && Parse(data[pos..], maxSize) == Frame(r.body)
    requires written <= written' <= written + Framed(OutFrame(r))
    ensures RelayedTo(requests + [r], data, written')
    ensures written' == written + Framed(OutFrame(r)) ==>
            Relayed(requests + [r], data, pos + |Framed(r.body)|, written')
  {
    hide Parse, Framed, Decodes, OutFrame;
    OutFramesSnoc(requests, r);
    ConcatSnoc(OutFrames(requests), OutFrame(r));
    ConcatSnoc(Bodies(requests), r.body);
    ReadOn(data, pos, maxSize, r.body);
    assert (requests + [r])[..|requests|] == requests;
  }

  /** Nothing was intercepted, so the bytes are the client's. */
  lemma RelayedUntouched(requests: seq<Request>, data: Bytes, written: Bytes)
    requires RelayedTo(requests, data, written) && forall r :: r in requests ==> r.intercept.None?
    ensures written <= data
  {
    UntouchedFrames(requests);
  }

  /** The upstream pump runs until a round ends it. What the broker got are the frames read
      so far in order, each with only its payload replaced, the last one perhaps in part;
      without interception that is a prefix of what the client sent. */
  method UpstreamPump(reader: Reader, writer: Writer, tracker: Correlation,
                      onRequest: (RequestHeader, Bytes) -> Opt<Intercept>, clock: nat -> int)
    returns (ghost requests: seq<Request>)
    requires reader.source.Valid() && writer.sink.Valid() && reader.source.pos == 0 && writer.sink.written == []
    modifies reader, reader.source, writer, writer.sink, tracker
    ensures RelayedTo(requests, reader.source.data, writer.sink.written)
    ensures (forall r :: r in requests ==> r.intercept.None?) ==> writer.sink.written <= reader.source.data
  {
    hide Relayed, RelayedTo, NextRequest, OutFrame, TableAfter, Refused, Framed, Parse, Decodes;
    var source, sink := reader.source, writer.sink;
    requests := [];
    NothingRelayed(source.data);
    var alive, i := true, 0;
    while alive
      invariant source.Valid() && sink.Valid()
      invariant alive ==> Relayed(requests, source.data, source.pos, sink.written)
      invariant !alive ==> RelayedTo(requests, source.data, sink.written)
      decreases alive, |source.data| - source.pos
    {
      ghost var pos, written := source.pos, sink.written;
      RelayedEnds(requests, source.data, pos, written);
      ghost var r;
      alive, r := UpstreamRound(i, reader, writer, tracker, onRequest, clock(2 * i), clock(2 * i + 1));
      if r.Some? {
        RelayedGrows(requests, source.data, pos, written, reader.maxSize, r.value, sink.written);
        requests := requests + [r.value];
      }
      i := i + 1;
    }
    if forall r :: r in requests ==> r.intercept.None? { RelayedUntouched(requests, source.data, sink.written); }
  }

  lemma ReadOn(data: Bytes, pos: nat, maxSize: int, body: Bytes)
    requires pos <= |data| && Parse(data[pos..], maxSize) == Frame(body)
    ensures pos + |Framed(body)| <= |data| && data[..pos] + Framed(body) == data[..pos + |Framed(body)|]
  {
    ParseIff(data[pos..], maxSize, body);
    PrefixExtends(data[..pos], Framed(body), data);
  }

  /** The table after the frames have taken their entries. */
  function TableAfterFrames(t: Table, frames: seq<Bytes>): Table
  {
    if frames == [] then t else
      var front, id := TableAfterFrames(t, frames[..|frames| - 1]), PeekCorrelId(frames[|frames| - 1]);
      if id.Ok? then Taken(front, id.v) else front
  }

  /** What the frame becomes for a table; nothing if it has no id or does not decode. */
  function DeliveredOne(m: Mapping, t: Table, frame: Bytes): (r: seq<Bytes>)
    ensures |r| <= 1
  {
    var id := PeekCorrelId(frame);
    if id.Bad? then [] else
      match Delivered(m, Find(t, id.v), frame)
      case None => []
      case Some(out) => [out]
  }

  /** What the frames become, one after the other: each through the entry it finds, or raw. */
  function DeliveredAll(m: Mapping, t: Table, frames: seq<Bytes>): seq<Bytes>
  {
    if frames == [] then [] else
      var n := |frames| - 1;
      DeliveredAll(m, t, frames[..n]) + DeliveredOne(m, TableAfterFrames(t, frames[..n]), frames[n])
  }

  lemma DeliveredSnoc(m: Mapping, t: Table, frames: seq<Bytes>, frame: Bytes)
    ensures DeliveredAll(m, t, frames + [frame]) == DeliveredAll(m, t, frames) +
            DeliveredOne(m, TableAfterFrames(t, frames), frame)
    ensures TableAfterFrames(t, frames + [frame]) ==
              var id := PeekCorrelId(frame); if id.Ok? then Taken(TableAfterFrames(t, frames), id.v)
                  else TableAfterFrames(t, frames)
  {
    assert (frames + [frame])[..|frames|] == frames;
  }

  /** All that was read has been delivered as it should. */
  ghost predicate Answers(m: Mapping, t: Table, frames: seq<Bytes>, data: Bytes, pos: nat, written: Bytes)
  {
    pos <= |data| && Concat(frames) == data[..pos] && written == Concat(DeliveredAll(m, t, frames))
  }

  /** The same, but for a part of the last frame. */
  ghost predicate AnswersTo(m: Mapping, t: Table, frames: seq<Bytes>, data: Bytes, written: Bytes)
  {
    && Concat(frames) <= data && written <= Concat(DeliveredAll(m, t, frames))
    && (frames != [] ==> Concat(DeliveredAll(m, t, frames[..|frames| - 1])) <= written)
  }

  lemma NothingAnswered(m: Mapping, t: Table, data: Bytes)
    ensures Answers(m, t, [], data, 0, [])
  {
  }

  lemma AnswersEnd(m: Mapping, t: Table, frames: seq<Bytes>, data: Bytes, pos: nat, written: Bytes)
    requires Answers(m, t, frames, data, pos, written)
    ensures AnswersTo(m, t, frames, data, written)
  {
    if frames != [] { ConcatMonotone(DeliveredAll(m, t, frames[..|frames| - 1]), DeliveredAll(m, t, frames)); }
  }

  lemma AnswersGrow(m: Mapping, t: Table, frames: seq<Bytes>, data: Bytes, pos: nat, written: Bytes,
                    maxSize: int, frame: Bytes, written': Bytes)
    requires Answers(m, t, frames, data, pos, written) && Parse(data[pos..], maxSize) == Frame(frame)
    requires var out := DeliveredOne(m, TableAfterFrames(t, frames), frame);
             written <= written' <= written + (if out == [] then [] else Framed(out[0]))
    ensures AnswersTo(m, t, frames + [frame], data, written')
    ensures var out := DeliveredOne(m, TableAfterFrames(t, frames), frame);
            out != [] && written' == written + Framed(out[0]) ==>
              Answers(m, t, frames + [frame], data, pos + |Framed(frame)|, written')
  {
    hide Parse, Framed, DeliveredOne, DeliveredAll, TableAfterFrames, Concat;
    var all, out := DeliveredAll(m, t, frames), DeliveredOne(m, TableAfterFrames(t, frames), frame);
    DeliveredSnoc(m, t, frames, frame);
    ConcatSnoc(frames, frame);
    if out == [] {
      assert all + [] == all && written + [] == written;
    } else {
      assert out == [out[0]];
      ConcatSnoc(all, out[0]);
    }
    ReadOn(data, pos, maxSize, frame);
    assert (frames + [frame])[..|frames|] == frames;
  }

  /** The downstream pump runs until a round ends it. What the client got are the frames read
      so far in order, each as the entry it finds in the table demands, the last one perhaps
      in part; with no entries that is a prefix of what the broker sent. */
  method DownstreamPump(reader: Reader, writer: Writer, tracker: Correlation, m: Mapping)
    returns (ghost frames: seq<Bytes>)
    requires reader.source.Valid() && writer.sink.Valid() && reader.source.pos == 0 && writer.sink.written == []
    modifies reader, reader.source, writer, writer.sink, tracker
    ensures AnswersTo(m, old(tracker.State()), frames, reader.source.data, writer.sink.written)
    ensures old(tracker.entries) == map[] ==> writer.sink.written <= reader.source.data
  {
    hide Answers, AnswersTo, Parse, Framed, Rewritten, DeliveredAll, ReadResponseHeader;
    var source, sink := reader.source, writer.sink;
    ghost var t, untouched := tracker.State(), tracker.entries == map[];
    frames := [];
    NothingAnswered(m, t, source.data);
    var alive := true;
    while alive
      invariant source.Valid() && sink.Valid()
      invariant alive ==> Answers(m, t, frames, source.data, source.pos, sink.written)
      invariant alive ==> tracker.State() == TableAfterFrames(t, frames)
      invariant !alive ==> AnswersTo(m, t, frames, source.data, sink.written)
      invariant untouched ==> tracker.entries == map[] && sink.written <= source.data
      invariant untouched && alive ==> sink.written == source.data[..source.pos]
      decreases alive, |source.data| - source.pos
    {
      ghost var pos, written := source.pos, sink.written;
      AnswersEnd(m, t, frames, source.data, pos, written);
      ghost var frame, out;
      alive, frame, out := DownstreamRound(reader, writer, tracker, m);
      if frame.Some? {
        ReadOn(source.data, pos, reader.maxSize, frame.value);
        AnswersGrow(m, t, frames, source.data, pos, written, reader.maxSize, frame.value, sink.written);
        DeliveredSnoc(m, t, frames, frame.value);
        frames := frames + [frame.value];
      }
    }
  }

  // ------------------------------------------- rounds are steps of the protocol

  /** One round of the upstream pump is a read, a pause, a registration if the interceptor asks
      for one, and a write, in the protocol of module Connection: the same table, the same
      refusal, the same frame. */
  lemma UpstreamRoundSteps(env: Env, s: State, body: Bytes, intercept: Opt<Intercept>, pause: int)
      returns (read: State, later: State, registered: State)
    requires Enabled(s, ReadRequest(body, intercept)) && ReadRequestHeader(body).Ok? && pause >= 0
    ensures read == Next(env, s, ReadRequest(body, intercept)) && later == Next(env, read, Tick(pause))
    ensures if intercept.None? then registered == later
            else Enabled(later, RegisterLast) && registered == Next(env, later, RegisterLast)
    ensures var i, r := |s.requests|, Request(body, intercept, s.now);
            && registered.requests == s.requests + [r] && registered.forwarded == s.forwarded
            && registered.table == TableAfter(env.cfg, s.table, i, r, later.now)
            && (registered.up == Dead <==> Refused(env.cfg, s.table, i, r, later.now))
            && (!WantsRewrite(r) ==> registered.up == Ready)
            && (registered.up != Dead ==>
                  && Enabled(registered, WriteLast)
                  && Next(env, registered, WriteLast).forwarded == s.forwarded + [OutFrame(r)])
  {
    hide ReadRequestHeader, OutFrame;
    read := Next(env, s, ReadRequest(body, intercept));
    later := Next(env, read, Tick(pause));
    registered := if intercept.None? then later else Next(env, later, RegisterLast);
  }

  /** One round of the downstream pump is a take and a delivery. */
  lemma DownstreamRoundSteps(env: Env, s: State) returns (held: State)
    requires Enabled(s, TakeNext)
    ensures held == Next(env, s, TakeNext)
    ensures var frame := s.answers[s.taken].frame;
            var id := PeekCorrelId(frame);
            if id.Bad? then held.down == Stopped && held.table == s.table else
              && held.table == Taken(s.table, id.v) && Enabled(held, DeliverTaken)
              && Outputs(Next(env, held, DeliverTaken).delivered) ==
                   Outputs(s.delivered) + DeliveredOne(env.topology, s.table, frame)
  {
    hide PeekCorrelId, Rewritten;
    held := Next(env, s, TakeNext);
    if PeekCorrelId(s.answers[s.taken].frame).Ok? {
      var done := Next(env, held, DeliverTaken);
      assert Outputs(done.delivered) == Outputs(s.delivered) +
             DeliveredOne(env.topology, s.table, s.answers[s.taken].frame);
    }
  }
}
