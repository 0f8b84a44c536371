/** What a client sees on a proxied connection: the responses to its Metadata and
    FindCoordinator requests, decoded, and the bytes of an untouched connection. */
module ClientView {
  import opened Ordering
  import opened Wire
  import opened Header
  import opened Topology
  import opened Tracker
  import opened Connection
  import Frames
  import Meta = MetadataMessage
  import Coord = CoordinatorMessage

  /** `d` is the answer `frame` to request `r`, delivered in time for its rewriting. */
  ghost predicate InTime(env: Env, run: Interleaving, n: nat, j: nat, rewriter: Rewriter)
  {
    && IsRun(env, run) && n <= |run.events| && j < |run.states[n].delivered| && j < |run.states[n].answers|
    && var s := run.states[n];
    var i := s.answers[j].request;
    && i < |s.requests| && Decodes(s.requests[i]) && WantsRewrite(s.requests[i])
    && s.requests[i].intercept.value.hook.rewriter == rewriter
    && s.delivered[j].takenAt - s.requests[i].sent <= env.cfg.maxAge
  }

  /** A frame with a response header for `h` and what stands behind it. */
  ghost predicate Carries(h: RequestHeader, frame: Bytes, payload: Bytes)
  {
    && PeekCorrelId(frame) == Ok(h.correlId, 4)
    && ReadResponseHeader(frame, h.apiKey, h.version).Ok?
    && ReadResponseHeader(frame, h.apiKey, h.version).v == h.correlId
    && frame[ReadResponseHeader(frame, h.apiKey, h.version).off..] == payload
  }

  /** What the rewriting of a response amounts to, frame by frame. */
  lemma RewrittenCarries(env: Env, i: nat, r: Request, frame: Bytes)
    requires Decodes(r) && WantsRewrite(r) && Rewritten(env.topology, PendingOf(i, r), frame).Some?
    ensures var h := ReadRequestHeader(r.body).v;
            var from := ReadResponseHeader(frame, h.apiKey, h.version);
            && from.Ok?
            && var payload := Apply(env.topology, r.intercept.value.hook.rewriter, frame[from.off..], h.version);
            payload.Some? && Carries(h, Rewritten(env.topology, PendingOf(i, r), frame).value, payload.value)
  {
    var h := ReadRequestHeader(r.body).v;
    var from := ReadResponseHeader(frame, h.apiKey, h.version);
    var payload := Apply(env.topology, r.intercept.value.hook.rewriter, frame[from.off..], h.version);
    FrameParts(h.apiKey, h.version, h.correlId, payload.value);
  }

  /** `out` has the request's correlation id, and a client decodes it to what the broker
      answered in `frame` with every mapped broker steered to its advertised endpoint and
      everything else the same. */
  ghost predicate MetadataSteered(m: Mapping, h: RequestHeader, frame: Bytes, out: Bytes)
  {
    var from, to := ReadResponseHeader(frame, h.apiKey, h.version), ReadResponseHeader(out, h.apiKey, h.version);
    && from.Ok? && to.Ok? && to.v == h.correlId && PeekCorrelId(out) == Ok(h.correlId, 4)
    && MetadataBodySteered(m, frame[from.off..], h.version, out[to.off..])
  }

  /** The same for FindCoordinator, where only coordinators with host and port are steered. */
  ghost predicate CoordinatorSteered(m: Mapping, h: RequestHeader, frame: Bytes, out: Bytes)
  {
    var from, to := ReadResponseHeader(frame, h.apiKey, h.version), ReadResponseHeader(out, h.apiKey, h.version);
    && from.Ok? && to.Ok? && to.v == h.correlId && PeekCorrelId(out) == Ok(h.correlId, 4)
    && CoordinatorBodySteered(m, frame[from.off..], h.version, out[to.off..])
  }

  /** The endpoints advertised for the brokers in this very response fit its format. */
  ghost predicate MetadataFits(m: Mapping, h: RequestHeader, frame: Bytes)
  {
    var from := ReadResponseHeader(frame, h.apiKey, h.version);
    from.Ok? ==>
      var r := Meta.ReadMetadata(frame[from.off..], 0, h.version);
      r.Ok? ==> FitsBrokers(m, r.v)
  }

  ghost predicate CoordinatorFits(m: Mapping, h: RequestHeader, frame: Bytes)
  {
    var from := ReadResponseHeader(frame, h.apiKey, h.version);
    from.Ok? ==>
      var r := Coord.ReadCoordinator(frame[from.off..], 0, h.version);
      r.Ok? ==> FitsCoordinators(m, r.v)
  }

  /** The header of the request that delivery `j` answers. */
  ghost function HeaderOf(env: Env, run: Interleaving, n: nat, j: nat, rewriter: Rewriter): RequestHeader
    requires InTime(env, run, n, j, rewriter)
  {
    ReadRequestHeader(run.states[n].requests[run.states[n].answers[j].request].body).v
  }

  /** In every interleaving, a Metadata response that is taken in time is seen steered. */
  lemma MetadataSeen(env: Env, run: Interleaving, n: nat, j: nat)
    requires InTime(env, run, n, j, MetadataRewriter)
    requires MetadataFits(env.topology, HeaderOf(env, run, n, j, MetadataRewriter), run.states[n].answers[j].frame)
    ensures MetadataSteered(env.topology, HeaderOf(env, run, n, j, MetadataRewriter),
                            run.states[n].answers[j].frame, run.states[n].delivered[j].frame)
  {
    NoBypass(env, run, n, j);
    var s := run.states[n];
    var i := s.answers[j].request;
    MetadataFrame(env, i, s.requests[i], s.answers[j].frame);
  }

  lemma MetadataFrame(env: Env, i: nat, r: Request, frame: Bytes)
    requires Decodes(r) && WantsRewrite(r) && r.intercept.value.hook.rewriter == MetadataRewriter
    requires Rewritten(env.topology, PendingOf(i, r), frame).Some?
             && MetadataFits(env.topology, ReadRequestHeader(r.body).v, frame)
    ensures MetadataSteered(env.topology, ReadRequestHeader(r.body).v, frame,
            Rewritten(env.topology, PendingOf(i, r), frame).value)
  {
    var h := ReadRequestHeader(r.body).v;
    RewrittenCarries(env, i, r, frame);
    ClientSeesSteeredMetadata(env.topology, frame[ReadResponseHeader(frame, h.apiKey, h.version).off..], h.version);
  }

  lemma CoordinatorSeen(env: Env, run: Interleaving, n: nat, j: nat)
    requires InTime(env, run, n, j, CoordinatorRewriter)
    requires CoordinatorFits(env.topology, HeaderOf(env, run, n, j, CoordinatorRewriter),
             run.states[n].answers[j].frame)
    ensures CoordinatorSteered(env.topology, HeaderOf(env, run, n, j, CoordinatorRewriter),
                               run.states[n].answers[j].frame, run.states[n].delivered[j].frame)
  {
    NoBypass(env, run, n, j);
    var s := run.states[n];
    var i := s.answers[j].request;
    CoordinatorFrame(env, i, s.requests[i], s.answers[j].frame);
  }

  lemma CoordinatorFrame(env: Env, i: nat, r: Request, frame: Bytes)
    requires Decodes(r) && WantsRewrite(r) && r.intercept.value.hook.rewriter == CoordinatorRewriter
    requires Rewritten(env.topology, PendingOf(i, r), frame).Some?
             && CoordinatorFits(env.topology, ReadRequestHeader(r.body).v, frame)
    ensures CoordinatorSteered(env.topology, ReadRequestHeader(r.body).v, frame,
            Rewritten(env.topology, PendingOf(i, r), frame).value)
  {
    var h := ReadRequestHeader(r.body).v;
    RewrittenCarries(env, i, r, frame);
    ClientSeesSteeredCoordinator(env.topology, frame[ReadResponseHeader(frame, h.apiKey, h.version).off..], h.version);
  }

  /** Without interception the bytes written in each direction are a prefix of the bytes read
      in that direction, whatever the interleaving. */
  lemma BytesPassThrough(env: Env, run: Interleaving, n: nat, client: Bytes, broker: Bytes, maxSize: int, k: nat,
                         l: nat)
    requires IsRun(env, run) && n <= |run.events| && Unintercepted(run.states[n])
    requires Bodies(run.states[n].requests) <= Frames.Split(client, maxSize, k)
    requires AnswerFrames(run.states[n].answers) <= Frames.Split(broker, maxSize, l)
    ensures Frames.Concat(run.states[n].forwarded) <= client
    ensures Frames.Concat(Outputs(run.states[n].delivered)) <= broker
  {
    var s := run.states[n];
    PassThrough(env, run, n);
    Frames.SplitReads(client, maxSize, k);
    Frames.SplitReads(broker, maxSize, l);
    Frames.ConcatMonotone(s.forwarded, Frames.Split(client, maxSize, k));
    Frames.ConcatMonotone(Outputs(s.delivered), Frames.Split(broker, maxSize, l));
  }
}
