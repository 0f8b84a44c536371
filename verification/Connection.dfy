/** One proxied connection as a protocol: the upstream pump stamps, registers and forwards
    requests; the broker answers forwarded requests in any order, each at most once; the
    downstream pump takes each answer's entry and forwards the answer, rewritten or raw; the
    clock advances at any point in between. */
module Connection {
  import opened Ordering
  import opened Wire
  import opened Header
  import opened Tracker
  import opened Topology

  /** What the interceptor returns for a request: how to treat the response, and a new
      payload for the request, if any. */
  datatype Intercept = Intercept(hook: Hook, payload: Opt<Bytes>)

  datatype Request = Request(body: Bytes, intercept: Opt<Intercept>, sent: int)

  predicate Decodes(r: Request) { ReadRequestHeader(r.body).Ok? }

  function CorrelOf(r: Request): int
    requires Decodes(r)
  {
    ReadRequestHeader(r.body).v.correlId
  }

  /** The frame that goes to the broker: header as read, payload replaced if asked for. */
  function OutFrame(r: Request): Bytes
    requires Decodes(r)
  {
    if r.intercept.Some? && r.intercept.value.payload.Some?
    then r.body[..ReadRequestHeader(r.body).off] + r.intercept.value.payload.value
    else r.body
  }

  function PendingOf(i: nat, r: Request): Pending
    requires Decodes(r) && r.intercept.Some?
  {
    var h := ReadRequestHeader(r.body).v;
    Pending(i, h.apiKey, h.version, h.correlId, r.sent, r.intercept.value.hook)
  }

  /** The request was given a rewriting for its response. */
  predicate WantsRewrite(r: Request)
  {
    r.intercept.Some? && r.intercept.value.hook.Rewrite?
  }

  /** Where the upstream pump is with the request it read last. */
  datatype Up = Idle | Stamped | Ready | Dead

  datatype Answer = Answer(request: nat, frame: Bytes)

  datatype Down = Waiting | Holding(takenAt: int, found: Found) | Stopped

  /** A frame reached the client as it came, or through the rewriting of a request. */
  datatype Via = Raw | Through(request: nat)

  datatype Delivery = Delivery(takenAt: int, frame: Bytes, via: Via)

  datatype State = State(
    now: int,
    requests: seq<Request>,    // read from the client, in order
    up: Up,
    table: Table,
    evicted: set<nat>,         // requests whose entry a sweep has dropped
    forwarded: seq<Bytes>,     // written to the broker, in order
    answers: seq<Answer>,      // sent by the broker, in order
    taken: nat,                // how many of them the downstream pump has read
    down: Down,
    delivered: seq<Delivery>)  // written to the client, in order

  datatype Env = Env(cfg: Config, topology: Mapping)

  const INIT := State(0, [], Idle, Table(map[], 0), {}, [], [], 0, Waiting, [])

  datatype Event =
    | Tick(d: int)
    | ReadRequest(body: Bytes, intercept: Opt<Intercept>)
    | RegisterLast
    | WriteLast
    | Respond(request: nat, frame: Bytes)
    | TakeNext
    | DeliverTaken
    | StopUp
    | StopDown

  /** Not yet answered, or answered but the answer not yet read by the downstream pump. */
  ghost predicate InFlight(s: State, i: nat)
  {
    i < |s.requests| && s.taken <= |s.answers| && forall j :: 0 <= j < s.taken ==> s.answers[j].request != i
  }

  /** The client does not reuse a correlation id that is in flight. */
  ghost predicate NewId(s: State, body: Bytes)
  {
    ReadRequestHeader(body).Ok? ==>
      forall i: nat :: InFlight(s, i) && Decodes(s.requests[i]) ==>
          CorrelOf(s.requests[i]) != ReadRequestHeader(body).v.correlId
  }

  /** The broker echoes the correlation id it finds in the frame it received. */
  ghost predicate Echoes(s: State, request: nat, frame: Bytes)
  {
    && request < |s.forwarded| && ReadRequestHeader(s.forwarded[request]).Ok? && PeekCorrelId(frame).Ok?
    && PeekCorrelId(frame).v == ReadRequestHeader(s.forwarded[request]).v.correlId
    && forall j :: 0 <= j < |s.answers| ==> s.answers[j].request != request
  }

  ghost predicate Enabled(s: State, e: Event)
  {
    match e
    case Tick(d) => d >= 0
    case ReadRequest(body, _) => s.up.Idle? && NewId(s, body)
    case RegisterLast => s.up.Stamped? && s.requests != []
    case WriteLast => s.up.Ready? && s.requests != []
    case Respond(request, frame) => Echoes(s, request, frame)
    case TakeNext => s.down.Waiting? && s.taken < |s.answers|
    case DeliverTaken => s.down.Holding? && 0 < s.taken <= |s.answers|
    case StopUp => true
    case StopDown => true
  }

  function Apply(m: Mapping, rewriter: Rewriter, body: Bytes, version: int): Opt<Bytes>
  {
    match rewriter
    case MetadataRewriter => RewriteMetadataBody(m, body, version)
    case CoordinatorRewriter => RewriteCoordinatorBody(m, body, version)
  }

  /** The frame that takes the place of `frame` for the entry `p`; none if it does not decode. */
  function Rewritten(m: Mapping, p: Pending, frame: Bytes): Opt<Bytes>
    requires p.hook.Rewrite?
  {
    match ReadResponseHeader(frame, p.apiKey, p.version)
    case Bad(_) => None
    case Ok(_, k) =>
      match Apply(m, p.hook.rewriter, frame[k..], p.version)
      case None => None
      case Some(payload) => Some(AppendResponseHeader([], p.apiKey, p.version, p.correlId) + payload)
  }

  function LastPending(s: State): Opt<Pending>
    requires s.requests != []
  {
    var i := |s.requests| - 1;
    if Decodes(s.requests[i]) && s.requests[i].intercept.Some? then Some(PendingOf(i, s.requests[i])) else None
  }

  /** Requests whose entry the sweep of a registration drops. */
  ghost function Dropped(env: Env, t: Table, now: int): set<nat>
  {
    set id | id in t.entries && id !in BeforeInsert(env.cfg, t, now).entries :: t.entries[id].request
  }

  ghost function AfterRegister(env: Env, s: State, p: Pending): State
  {
    var ok := Accepts(env.cfg, s.table, p, s.now);
    s.(table := Registered(env.cfg, s.table, p, s.now), evicted := s.evicted + Dropped(env, s.table, s.now),
       up := if !ok && p.hook.Rewrite? then Dead else Ready)
  }

  ghost function AfterTake(s: State): State
    requires s.taken < |s.answers|
  {
    var id := PeekCorrelId(s.answers[s.taken].frame);
    if id.Bad? then s.(taken := s.taken + 1, down := Stopped)
    else s.(taken := s.taken + 1, table := Taken(s.table, id.v), down := Holding(s.now, Find(s.table, id.v)))
  }

  ghost function AfterDeliver(env: Env, s: State): State
    requires s.down.Holding? && 0 < s.taken <= |s.answers|
  {
    var frame := s.answers[s.taken - 1].frame;
    var found := s.down.found;
    if found.Nothing? || found.p.hook.NoRewrite?
    then s.(delivered := s.delivered + [Delivery(s.down.takenAt, frame, Raw)], down := Waiting)
    else match Rewritten(env.topology, found.p, frame)
      case None => s.(down := Stopped)
      case Some(out) => s.(delivered := s.delivered + [Delivery(s.down.takenAt, out, Through(found.p.request))],
          down := Waiting)
  }

  ghost function Next(env: Env, s: State, e: Event): State
    requires Enabled(s, e)
  {
    match e
    case Tick(d) => s.(now := s.now + d)
    case ReadRequest(body, intercept) =>
      if ReadRequestHeader(body).Bad? then s.(up := Dead)
      else s.(requests := s.requests + [Request(body, intercept, s.now)],
              up := if intercept.Some? then Stamped else Ready)
    case RegisterLast =>
      var p := LastPending(s);
      if p.Some? then AfterRegister(env, s, p.value) else s
    case WriteLast =>
      var r := s.requests[|s.requests| - 1];
      if Decodes(r) then s.(forwarded := s.forwarded + [OutFrame(r)], up := Idle) else s
    case Respond(request, frame) => s.(answers := s.answers + [Answer(request, frame)])
    case TakeNext => AfterTake(s)
    case DeliverTaken => AfterDeliver(env, s)
    case StopUp => s.(up := Dead)
    case StopDown => s.(down := Stopped)
  }

  // ------------------------------------------------------------- invariants

  /** Requests are forwarded in order, one at a time. */
  ghost predicate Orderly(s: State)
  {
    && (forall i :: 0 <= i < |s.requests| ==> Decodes(s.requests[i]))
    && |s.forwarded| <= |s.requests| <= |s.forwarded| + 1
    && (s.up.Idle? ==> |s.requests| == |s.forwarded|)
    && (s.up.Stamped? || s.up.Ready? ==> |s.requests| == |s.forwarded| + 1)
    && (s.up.Stamped? ==> s.requests[|s.requests| - 1].intercept.Some?)
    && (forall i :: 0 <= i < |s.forwarded| ==> s.forwarded[i] == OutFrame(s.requests[i]))
  }

  ghost predicate AnswerOk(s: State, j: nat)
    requires Orderly(s) && j < |s.answers|
  {
    var a := s.answers[j];
    a.request < |s.forwarded| && PeekCorrelId(a.frame).Ok? && PeekCorrelId(a.frame).v == CorrelOf(s.requests[a.request])
  }

  /** Answers belong to forwarded requests, each to another, and are read in order. */
  ghost predicate Answered(s: State)
  {
    && Orderly(s) && s.taken <= |s.answers|
    && (forall j: nat :: j < |s.answers| ==> AnswerOk(s, j))
    && (forall j, k :: 0 <= j < k < |s.answers| ==> s.answers[j].request != s.answers[k].request)
    && |s.delivered| <= s.taken && (s.down.Waiting? ==> |s.delivered| == s.taken)
    && (s.down.Holding? ==> |s.delivered| + 1 == s.taken)
  }

  /** The entry under `id` is that of a request in flight with that id. */
  ghost predicate EntryOk(s: State, id: int)
    requires Orderly(s) && id in s.table.entries
  {
    var p := s.table.entries[id];
    && p.correlId == id && p.request < |s.requests| && InFlight(s, p.request)
    && s.requests[p.request].intercept.Some? && p == PendingOf(p.request, s.requests[p.request])
  }

  ghost predicate Apart(s: State, i: nat, j: nat)
    requires Orderly(s)
  {
    InFlight(s, i) && InFlight(s, j) && i != j ==> CorrelOf(s.requests[i]) != CorrelOf(s.requests[j])
  }

  /** A request past its registration that wants a rewriting has its entry, unless a sweep
      has dropped it. */
  ghost predicate Guarded(s: State, i: nat)
    requires Orderly(s)
  {
    InFlight(s, i) && WantsRewrite(s.requests[i]) && (i < |s.forwarded| || s.up.Ready?) ==>
      i in s.evicted || Find(s.table, CorrelOf(s.requests[i])) == Found(PendingOf(i, s.requests[i]))
  }

  ghost predicate OverAge(env: Env, s: State, i: nat)
  {
    i < |s.requests| && s.now - s.requests[i].sent > env.cfg.maxAge
  }

  ghost predicate Tracked(env: Env, s: State)
  {
    && Answered(s)
    && (forall id :: id in s.table.entries ==> EntryOk(s, id))
    && (forall i: nat, j: nat :: Apart(s, i, j))
    && (forall i: nat :: i < |s.requests| ==> Guarded(s, i))
    && (forall i: nat :: i in s.evicted ==> OverAge(env, s, i))
  }

  /** What the downstream pump holds for the answer to request `i`. */
  ghost predicate HoldsOwn(env: Env, r: Request, i: nat, takenAt: int, found: Found, evicted: set<nat>)
    requires Decodes(r)
  {
    if WantsRewrite(r) then
      found == Found(PendingOf(i, r)) || (found == Nothing && i in evicted && takenAt - r.sent > env.cfg.maxAge)
    else
      found == Nothing || (r.intercept.Some? && found == Found(PendingOf(i, r)))
  }

  /** A delivery is the answer to request `i`: rewritten if the request wanted that and its
      entry was not dropped for old age, raw otherwise. */
  ghost predicate DeliveredWell(env: Env, r: Request, i: nat, frame: Bytes, d: Delivery, evicted: set<nat>)
    requires Decodes(r)
  {
    if WantsRewrite(r) && !(i in evicted && d.takenAt - r.sent > env.cfg.maxAge && d.via.Raw?) then
      d.via == Through(i) && Some(d.frame) == Rewritten(env.topology, PendingOf(i, r), frame)
    else
      d.via == Raw && d.frame == frame
  }

  ghost predicate DeliveryOk(env: Env, s: State, j: nat)
    requires Answered(s) && j < |s.delivered|
  {
    var a := s.answers[j];
    AnswerOk(s, j) && DeliveredWell(env, s.requests[a.request], a.request, a.frame, s.delivered[j], s.evicted)
  }

  ghost predicate HoldingOk(env: Env, s: State)
    requires Answered(s) && s.down.Holding?
  {
    var a := s.answers[s.taken - 1];
    AnswerOk(s, s.taken - 1) && HoldsOwn(env, s.requests[a.request], a.request, s.down.takenAt, s.down.found, s.evicted)
  }

  ghost predicate Inv(env: Env, s: State)
  {
    && Tracked(env, s)
    && (s.down.Holding? ==> HoldingOk(env, s))
    && (forall j: nat :: j < |s.delivered| ==> DeliveryOk(env, s, j))
  }

  // ------------------------------------------------------------------ steps

  lemma OutFrameHeader(r: Request)
    requires Decodes(r)
    ensures ReadRequestHeader(OutFrame(r)) == ReadRequestHeader(r.body)
  {
    if r.intercept.Some? && r.intercept.value.payload.Some? {
      SpliceKeepsHeader(r.body, r.intercept.value.payload.value);
    }
  }

  lemma InitInv(env: Env)
    ensures Inv(env, INIT)
  {
  }

  lemma TickInv(env: Env, s: State, d: int)
    requires Inv(env, s) && d >= 0
    ensures Inv(env, s.(now := s.now + d))
  {
    hide ReadRequestHeader, PeekCorrelId, OutFrame, Rewritten;
    var s' := s.(now := s.now + d);
    forall j: nat | j < |s'.answers| ensures AnswerOk(s', j) { assert AnswerOk(s, j); }
    forall id | id in s'.table.entries ensures EntryOk(s', id) { assert EntryOk(s, id); }
    forall i: nat, j: nat ensures Apart(s', i, j) { assert Apart(s, i, j); }
    forall i: nat | i < |s'.requests| ensures Guarded(s', i) { assert Guarded(s, i); }
    forall i: nat | i in s'.evicted ensures OverAge(env, s', i) { assert OverAge(env, s, i); }
    forall j: nat | j < |s'.delivered| ensures DeliveryOk(env, s', j) { assert DeliveryOk(env, s, j); }
  }

  /** Deliveries and what is held stay well when requests and answers only grow and more
      entries are dropped. */
  lemma DeliveriesKeep(env: Env, s: State, s': State)
    requires Inv(env, s) && Answered(s') && s'.down == s.down && s'.taken == s.taken && s'.delivered == s.delivered
    requires s.requests <= s'.requests && s.answers <= s'.answers && s.evicted <= s'.evicted
    ensures s'.down.Holding? ==> HoldingOk(env, s')
    ensures forall j: nat :: j < |s'.delivered| ==> DeliveryOk(env, s', j)
  {
    hide ReadRequestHeader, PeekCorrelId, OutFrame, Rewritten;
    forall j: nat | j < |s'.delivered| ensures DeliveryOk(env, s', j) {
      assert DeliveryOk(env, s, j) && AnswerOk(s', j);
      assert s'.answers[j] == s.answers[j] && s'.requests[s.answers[j].request] == s.requests[s.answers[j].request];
    }
    if s'.down.Holding? {
      var j := s.taken - 1;
      assert HoldingOk(env, s) && AnswerOk(s', j);
      assert s'.answers[j] == s.answers[j] && s'.requests[s.answers[j].request] == s.requests[s.answers[j].request];
    }
  }

  lemma ReadInv(env: Env, s: State, body: Bytes, intercept: Opt<Intercept>)
    requires Inv(env, s) && s.up.Idle? && NewId(s, body) && ReadRequestHeader(body).Ok?
    ensures Inv(env, Next(env, s, ReadRequest(body, intercept)))
  {
    hide ReadRequestHeader, PeekCorrelId, OutFrame, Rewritten;
    var s' := Next(env, s, ReadRequest(body, intercept));
    var n := |s.requests|;
    assert Answered(s') by {
      forall j: nat | j < |s'.answers| ensures AnswerOk(s', j) { assert AnswerOk(s, j); }
    }
    forall id | id in s'.table.entries ensures EntryOk(s', id) { assert EntryOk(s, id); }
    forall i: nat, j: nat ensures Apart(s', i, j) {
      assert Apart(s, i, j);
      assert i < n && InFlight(s', i) ==> InFlight(s, i);
      assert j < n && InFlight(s', j) ==> InFlight(s, j);
    }
    forall i: nat | i < |s'.requests| ensures Guarded(s', i) {
      if i < n {
        assert Guarded(s, i);
        assert InFlight(s', i) ==> InFlight(s, i);
      }
    }
    forall i: nat | i in s'.evicted ensures OverAge(env, s', i) { assert OverAge(env, s, i); }
    DeliveriesKeep(env, s, s');
  }

  lemma RegisterEntries(env: Env, s: State, p: Pending)
    requires Tracked(env, s) && s.up.Stamped? && s.requests != []
    requires p == PendingOf(|s.requests| - 1, s.requests[|s.requests| - 1])
    ensures var s' := AfterRegister(env, s, p);
            && Answered(s')
            && (forall id :: id in s'.table.entries ==> EntryOk(s', id))
            && (forall i: nat :: i in s'.evicted ==> OverAge(env, s', i))
  {
    hide ReadRequestHeader, PeekCorrelId, OutFrame, Rewritten;
    var s' := AfterRegister(env, s, p);
    assert Answered(s') by {
      forall j: nat | j < |s'.answers| ensures AnswerOk(s', j) { assert AnswerOk(s, j); }
    }
    LastInFlight(s);
    forall id | id in s'.table.entries ensures EntryOk(s', id) {
      if id in s.table.entries {
        assert EntryOk(s, id);
      }
    }
    forall i: nat | i in s'.evicted ensures OverAge(env, s', i) {
      if i in s.evicted {
        assert OverAge(env, s, i);
      } else {
        var id :| id in s.table.entries && id !in BeforeInsert(env.cfg, s.table, s.now).entries
            && s.table.entries[id].request == i;
        assert EntryOk(s, id);
      }
    }
  }

  /** The request read last is in flight until it is written. */
  lemma LastInFlight(s: State)
    requires Answered(s) && |s.requests| == |s.forwarded| + 1
    ensures InFlight(s, |s.requests| - 1)
  {
    forall j: nat | j < s.taken ensures s.answers[j].request != |s.requests| - 1 { assert AnswerOk(s, j); }
  }

  lemma RegisterKeepsEntry(env: Env, t: Table, p: Pending, now: int, id: int)
    requires id in t.entries
    ensures Find(Registered(env.cfg, t, p, now), id) == Found(t.entries[id])
            || t.entries[id].request in Dropped(env, t, now)
  {
  }

  lemma RegisterGuards(env: Env, s: State, p: Pending, i: nat)
    requires Tracked(env, s) && s.up.Stamped? && s.requests != [] && i < |s.requests|
    requires p == PendingOf(|s.requests| - 1, s.requests[|s.requests| - 1])
    requires Orderly(AfterRegister(env, s, p))
    ensures Guarded(AfterRegister(env, s, p), i)
  {
    hide ReadRequestHeader, PeekCorrelId, OutFrame, Rewritten;
    var s' := AfterRegister(env, s, p);
    if InFlight(s', i) && WantsRewrite(s.requests[i]) {
      var id := CorrelOf(s.requests[i]);
      if i < |s.forwarded| {
        assert InFlight(s, i) && Guarded(s, i);
        if i !in s.evicted { RegisterKeepsEntry(env, s.table, p, s.now, id); }
      } else {
        assert i == |s.requests| - 1 && p.correlId == id;
      }
    }
  }

  /** In-flight requests depend on requests and answers alone. */
  lemma ApartKeeps(s: State, s': State)
    requires Orderly(s) && Orderly(s') && s'.requests == s.requests && s'.taken == s.taken <= |s.answers|
             && s.answers <= s'.answers
    requires forall i: nat, j: nat :: Apart(s, i, j)
    ensures forall i: nat :: InFlight(s', i) <==> InFlight(s, i)
    ensures forall i: nat, j: nat :: Apart(s', i, j)
  {
    hide ReadRequestHeader, PeekCorrelId, OutFrame, Rewritten;
    forall i: nat ensures InFlight(s', i) <==> InFlight(s, i) {
      assert forall j :: 0 <= j < s.taken ==> s'.answers[j] == s.answers[j];
    }
    forall i: nat, j: nat ensures Apart(s', i, j) { assert Apart(s, i, j); }
  }

  lemma RegisterInv(env: Env, s: State)
    requires Inv(env, s) && Enabled(s, RegisterLast)
    ensures Inv(env, Next(env, s, RegisterLast))
  {
    hide ReadRequestHeader, PeekCorrelId, OutFrame, Rewritten;
    var p := PendingOf(|s.requests| - 1, s.requests[|s.requests| - 1]);
    var s' := AfterRegister(env, s, p);
    assert Tracked(env, s') by {
      RegisterEntries(env, s, p);
      ApartKeeps(s, s');
      forall i: nat | i < |s'.requests| ensures Guarded(s', i) { RegisterGuards(env, s, p, i); }
    }
    DeliveriesKeep(env, s, s');
  }

  lemma WriteInv(env: Env, s: State)
    requires Inv(env, s) && Enabled(s, WriteLast)
    ensures Inv(env, Next(env, s, WriteLast))
  {
    hide ReadRequestHeader, PeekCorrelId, OutFrame, Rewritten;
    var s' := Next(env, s, WriteLast);
    assert Answered(s') by {
      forall j: nat | j < |s'.answers| ensures AnswerOk(s', j) { assert AnswerOk(s, j); }
    }
    forall id | id in s'.table.entries ensures EntryOk(s', id) { assert EntryOk(s, id); }
    forall i: nat, j: nat ensures Apart(s', i, j) { assert Apart(s, i, j); }
    forall i: nat | i < |s'.requests| ensures Guarded(s', i) { assert Guarded(s, i); }
    forall i: nat | i in s'.evicted ensures OverAge(env, s', i) { assert OverAge(env, s, i); }
    DeliveriesKeep(env, s, s');
  }

  lemma RespondInv(env: Env, s: State, request: nat, frame: Bytes)
    requires Inv(env, s) && Enabled(s, Respond(request, frame))
    ensures Inv(env, Next(env, s, Respond(request, frame)))
  {
    hide ReadRequestHeader, PeekCorrelId, OutFrame, Rewritten;
    var s' := Next(env, s, Respond(request, frame));
    OutFrameHeader(s.requests[request]);
    assert Answered(s') by {
      forall j: nat | j < |s'.answers| ensures AnswerOk(s', j) { assert j < |s.answers| ==> AnswerOk(s, j); }
    }
    ApartKeeps(s, s');
    forall id | id in s'.table.entries ensures EntryOk(s', id) { assert EntryOk(s, id); }
    forall i: nat | i < |s'.requests| ensures Guarded(s', i) { assert Guarded(s, i); }
    forall i: nat | i in s'.evicted ensures OverAge(env, s', i) { assert OverAge(env, s, i); }
    DeliveriesKeep(env, s, s');
  }

  /** The answer about to be taken is in flight, and the entry under its id, if any, is its own. */
  lemma TakesOwn(env: Env, s: State)
    requires Tracked(env, s) && s.taken < |s.answers|
    ensures var i := s.answers[s.taken].request;
            && AnswerOk(s, s.taken) && InFlight(s, i)
            && HoldsOwn(env, s.requests[i], i, s.now, Find(s.table, CorrelOf(s.requests[i])), s.evicted)
  {
    hide ReadRequestHeader, PeekCorrelId, OutFrame, Rewritten;
    var i := s.answers[s.taken].request;
    assert AnswerOk(s, s.taken);
    assert InFlight(s, i);
    var id := CorrelOf(s.requests[i]);
    if id in s.table.entries {
      assert EntryOk(s, id);
      assert Apart(s, i, s.table.entries[id].request);
    } else if WantsRewrite(s.requests[i]) {
      assert Guarded(s, i);
      assert OverAge(env, s, i);
    }
  }

  lemma TakeTracked(env: Env, s: State)
    requires Tracked(env, s) && s.down.Waiting? && s.taken < |s.answers|
    ensures Tracked(env, AfterTake(s)) && AfterTake(s).down.Holding?
  {
    hide ReadRequestHeader, PeekCorrelId, OutFrame, Rewritten;
    TakesOwn(env, s);
    var s' := AfterTake(s);
    var i := s.answers[s.taken].request;
    var gone := CorrelOf(s.requests[i]);
    assert Answered(s') by {
      forall j: nat | j < |s'.answers| ensures AnswerOk(s', j) { assert AnswerOk(s, j); }
    }
    forall k: nat ensures InFlight(s', k) <==> InFlight(s, k) && k != i {
      assert s'.answers[s'.taken - 1].request == i;
    }
    forall id | id in s'.table.entries ensures EntryOk(s', id) { assert EntryOk(s, id); }
    forall k: nat, j: nat ensures Apart(s', k, j) { assert Apart(s, k, j); }
    forall k: nat | k < |s'.requests| ensures Guarded(s', k) {
      assert Guarded(s, k);
      assert Apart(s, k, i);
    }
    forall k: nat | k in s'.evicted ensures OverAge(env, s', k) { assert OverAge(env, s, k); }
  }

  lemma TakeInv(env: Env, s: State)
    requires Inv(env, s) && Enabled(s, TakeNext)
    ensures Inv(env, Next(env, s, TakeNext))
  {
    hide ReadRequestHeader, PeekCorrelId, OutFrame, Rewritten;
    var s' := Next(env, s, TakeNext);
    TakeTracked(env, s);
    TakesOwn(env, s);
    assert AnswerOk(s', s'.taken - 1);
    forall j: nat | j < |s'.delivered| ensures DeliveryOk(env, s', j) {
      assert DeliveryOk(env, s, j) && AnswerOk(s', j);
    }
  }

  /** Pumps and deliveries aside, nothing moves. */
  lemma TrackedKeeps(env: Env, s: State, s': State)
    requires Tracked(env, s) && Answered(s') && s'.requests == s.requests && s'.answers == s.answers
             && s'.taken == s.taken
    requires s'.forwarded == s.forwarded && s'.table == s.table && s'.evicted == s.evicted && s'.now == s.now
    requires s'.up == s.up || s'.up == Dead
    ensures Tracked(env, s')
  {
    hide ReadRequestHeader, PeekCorrelId, OutFrame, Rewritten;
    ApartKeeps(s, s');
    forall id | id in s'.table.entries ensures EntryOk(s', id) { assert EntryOk(s, id); }
    forall i: nat | i < |s'.requests| ensures Guarded(s', i) { assert Guarded(s, i); }
    forall i: nat | i in s'.evicted ensures OverAge(env, s', i) { assert OverAge(env, s, i); }
  }

  lemma DeliverInv(env: Env, s: State)
    requires Inv(env, s) && Enabled(s, DeliverTaken)
    ensures Inv(env, Next(env, s, DeliverTaken))
  {
    hide ReadRequestHeader, PeekCorrelId, OutFrame, Rewritten;
    var s' := Next(env, s, DeliverTaken);
    assert Answered(s') by {
      forall j: nat | j < |s'.answers| ensures AnswerOk(s', j) { assert AnswerOk(s, j); }
    }
    TrackedKeeps(env, s, s');
    forall j: nat | j < |s'.delivered| ensures DeliveryOk(env, s', j) {
      assert AnswerOk(s', j);
      if j < |s.delivered| { assert DeliveryOk(env, s, j); } else { NewDelivery(env, s); }
    }
  }

  /** The delivery made from what the pump holds is a good one. */
  lemma NewDelivery(env: Env, s: State)
    requires Inv(env, s) && Enabled(s, DeliverTaken)
    ensures var s', a := AfterDeliver(env, s), s.answers[s.taken - 1];
            |s'.delivered| > |s.delivered| ==>
              && a.request < |s.requests| && Decodes(s.requests[a.request])
              && DeliveredWell(env, s.requests[a.request], a.request, a.frame, s'.delivered[|s.delivered|], s.evicted)
  {
    hide ReadRequestHeader, PeekCorrelId, OutFrame, Rewritten;
    assert HoldingOk(env, s);
  }

  lemma StopInv(env: Env, s: State, s': State)
    requires Inv(env, s) && (s' == s.(up := Dead) || s' == s.(down := Stopped))
    ensures Inv(env, s')
  {
    hide ReadRequestHeader, PeekCorrelId, OutFrame, Rewritten;
    assert Answered(s') by {
      forall j: nat | j < |s'.answers| ensures AnswerOk(s', j) { assert AnswerOk(s, j); }
    }
    TrackedKeeps(env, s, s');
    forall j: nat | j < |s'.delivered| ensures DeliveryOk(env, s', j) {
      assert DeliveryOk(env, s, j) && AnswerOk(s', j);
    }
    if s'.down.Holding? { assert HoldingOk(env, s) && AnswerOk(s', s.taken - 1); }
  }

  lemma StepInv(env: Env, s: State, e: Event)
    requires Inv(env, s) && Enabled(s, e)
    ensures Inv(env, Next(env, s, e))
  {
    hide ReadRequestHeader, PeekCorrelId, OutFrame, Rewritten;
    match e
    case Tick(d) => TickInv(env, s, d);
    case ReadRequest(body, intercept) =>
      if ReadRequestHeader(body).Ok? { ReadInv(env, s, body, intercept); } else { StopInv(env, s, s.(up := Dead)); }
    case RegisterLast => RegisterInv(env, s);
    case WriteLast => WriteInv(env, s);
    case Respond(request, frame) => RespondInv(env, s, request, frame);
    case TakeNext => TakeInv(env, s);
    case DeliverTaken => DeliverInv(env, s);
    case StopUp => StopInv(env, s, s.(up := Dead));
    case StopDown => StopInv(env, s, s.(down := Stopped));
  }

  // ------------------------------------------------------------------- runs

  datatype Interleaving = Interleaving(events: seq<Event>, states: seq<State>)

  ghost predicate Moves(env: Env, run: Interleaving, i: nat)
    requires |run.states| == |run.events| + 1 && i < |run.events|
  {
    Enabled(run.states[i], run.events[i]) && run.states[i + 1] == Next(env, run.states[i], run.events[i])
  }

  /** An interleaving of the two pumps, the broker and the clock. */
  ghost predicate IsRun(env: Env, run: Interleaving)
  {
    && |run.states| == |run.events| + 1 && run.states[0] == INIT
    && forall i: nat :: i < |run.events| ==> Moves(env, run, i)
  }

  lemma {:induction false} AlwaysInv(env: Env, run: Interleaving, n: nat)
    requires IsRun(env, run) && n <= |run.events|
    ensures Inv(env, run.states[n])
  {
    if n == 0 {
      InitInv(env);
    } else {
      AlwaysInv(env, run, n - 1);
      assert Moves(env, run, n - 1);
      StepInv(env, run.states[n - 1], run.events[n - 1]);
    }
  }

  /** No bypass: in every interleaving, a response to a request given a rewriting that is
      taken within the maximal age reaches the client only through that request's own
      rewriting; later it may come raw, but only if a sweep has dropped the entry, and never
      through another's; every other response comes raw. */
  lemma NoBypass(env: Env, run: Interleaving, n: nat, j: nat)
    requires IsRun(env, run) && n <= |run.events| && j < |run.states[n].delivered|
    ensures var s := run.states[n];
            && j < |s.answers| && s.answers[j].request < |s.requests| && Decodes(s.requests[s.answers[j].request])
            && var i, d := s.answers[j].request, s.delivered[j];
            var r := s.requests[i];
            && (WantsRewrite(r) && d.takenAt - r.sent <= env.cfg.maxAge ==>
                  d.via == Through(i) && Some(d.frame) == Rewritten(env.topology, PendingOf(i, r), s.answers[j].frame))
            && (d.via == Raw ==> d.frame == s.answers[j].frame && (WantsRewrite(r) ==> i in s.evicted))
            && (d.via != Raw ==> d.via == Through(i) && WantsRewrite(r))
  {
    AlwaysInv(env, run, n);
    assert DeliveryOk(env, run.states[n], j);
  }

  /** The payload that the interceptor wants forwarded, if it wants one. */
  function PayloadOf(r: Request): Opt<Bytes>
  {
    if r.intercept.Some? then r.intercept.value.payload else None
  }

  /** Transparency: frames go to the broker in the order in which they were read, with only
      the payload behind the header replaced by the interceptor's, where it asks for that;
      the broker decodes the header that the client sent. */
  lemma Transparent(env: Env, run: Interleaving, n: nat, i: nat)
    requires IsRun(env, run) && n <= |run.events| && i < |run.states[n].forwarded|
    ensures var s := run.states[n];
            && i < |s.requests| && Decodes(s.requests[i])
            && var k := ReadRequestHeader(s.requests[i].body).off;
            && k <= |s.forwarded[i]| && s.forwarded[i][..k] == s.requests[i].body[..k]
            && ReadRequestHeader(s.forwarded[i]) == ReadRequestHeader(s.requests[i].body)
            && s.forwarded[i] == match PayloadOf(s.requests[i])
                 case None => s.requests[i].body
                 case Some(payload) => s.requests[i].body[..k] + payload
  {
    AlwaysInv(env, run, n);
    OutFrameHeader(run.states[n].requests[i]);
  }

  ghost predicate Unintercepted(s: State)
  {
    forall i :: 0 <= i < |s.requests| ==> s.requests[i].intercept.None?
  }

  function Bodies(requests: seq<Request>): (r: seq<Bytes>)
    ensures |r| == |requests| && forall i :: 0 <= i < |r| ==> r[i] == requests[i].body
  {
    seq(|requests|, i requires 0 <= i < |requests| => requests[i].body)
  }

  function AnswerFrames(answers: seq<Answer>): (r: seq<Bytes>)
    ensures |r| == |answers| && forall i :: 0 <= i < |r| ==> r[i] == answers[i].frame
  {
    seq(|answers|, i requires 0 <= i < |answers| => answers[i].frame)
  }

  function Outputs(delivered: seq<Delivery>): (r: seq<Bytes>)
    ensures |r| == |delivered| && forall i :: 0 <= i < |r| ==> r[i] == delivered[i].frame
  {
    seq(|delivered|, i requires 0 <= i < |delivered| => delivered[i].frame)
  }

  /** Without interception both directions carry a prefix of what was read, frame by frame. */
  lemma PassThrough(env: Env, run: Interleaving, n: nat)
    requires IsRun(env, run) && n <= |run.events| && Unintercepted(run.states[n])
    ensures var s := run.states[n];
            s.forwarded <= Bodies(s.requests) && Outputs(s.delivered) <= AnswerFrames(s.answers)
  {
    AlwaysInv(env, run, n);
    var s := run.states[n];
    forall j: nat | j < |s.delivered| ensures s.delivered[j].frame == s.answers[j].frame {
      assert DeliveryOk(env, s, j);
    }
  }
}
