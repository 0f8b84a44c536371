/** Exactly when a response that should have been rewritten reaches the client raw: when a
    sweep has dropped the request's entry before the response was taken. */
module Sweeps {
  import opened Wire
  import opened Header
  import opened Tracker
  import opened Connection
  import Topology

  /** The request behind an entry is not among those a sweep has dropped. */
  ghost predicate Alive(s: State, id: int)
    requires id in s.table.entries
  {
    var i := s.table.entries[id].request;
    i !in s.evicted && (s.up.Stamped? ==> i < |s.forwarded|)
  }

  /** A delivery went through a rewriting only if the entry was still there. */
  ghost predicate KeptUntilTaken(s: State, j: nat)
    requires j < |s.delivered| && j < |s.answers|
  {
    s.delivered[j].via.Through? ==> s.answers[j].request !in s.evicted
  }

  ghost predicate Settled(env: Env, s: State)
  {
    && Inv(env, s)
    && (forall id :: id in s.table.entries ==> Alive(s, id))
    && (s.up.Stamped? ==> forall i: nat :: i in s.evicted ==> i < |s.forwarded|)
    && (forall j: nat :: j < |s.delivered| ==> KeptUntilTaken(s, j))
    && (s.down.Holding? && s.down.found.Found? ==> s.answers[s.taken - 1].request !in s.evicted)
  }

  lemma ReadSettled(env: Env, s: State, body: Bytes, intercept: Opt<Intercept>)
    requires Settled(env, s) && Enabled(s, ReadRequest(body, intercept))
    ensures Settled(env, Next(env, s, ReadRequest(body, intercept)))
  {
    hide ReadRequestHeader, PeekCorrelId, OutFrame, Rewritten;
    var s' := Next(env, s, ReadRequest(body, intercept));
    StepInv(env, s, ReadRequest(body, intercept));
    forall id | id in s'.table.entries ensures Alive(s', id) { assert Alive(s, id) && EntryOk(s, id); }
    forall i: nat | i in s'.evicted ensures i < |s.requests| { assert OverAge(env, s, i); }
    forall j: nat | j < |s'.delivered| ensures KeptUntilTaken(s', j) { assert KeptUntilTaken(s, j); }
  }

  /** A sweep drops requests in flight only. */
  lemma DroppedInFlight(env: Env, s: State, i: nat)
    requires Inv(env, s) && i in Dropped(env, s.table, s.now)
    ensures InFlight(s, i)
  {
    hide ReadRequestHeader, PeekCorrelId, OutFrame, Rewritten;
    var id :| id in s.table.entries && s.table.entries[id].request == i;
    assert EntryOk(s, id);
  }

  /** An entry that stays belongs to another request than those that are dropped. */
  lemma StaysApart(env: Env, s: State, id: int)
    requires Inv(env, s) && id in BeforeInsert(env.cfg, s.table, s.now).entries
    ensures s.table.entries[id].request !in Dropped(env, s.table, s.now)
  {
    hide ReadRequestHeader, PeekCorrelId, OutFrame, Rewritten;
    var i := s.table.entries[id].request;
    assert EntryOk(s, id);
    forall other | other in s.table.entries && s.table.entries[other].request == i
      ensures other == id { assert EntryOk(s, other); }
  }

  lemma RegisterAlive(env: Env, s: State, id: int)
    requires Settled(env, s) && Enabled(s, RegisterLast) && id in Next(env, s, RegisterLast).table.entries
    ensures Alive(Next(env, s, RegisterLast), id)
  {
    hide ReadRequestHeader, PeekCorrelId, OutFrame, Rewritten;
    var t := BeforeInsert(env.cfg, s.table, s.now);
    if id in t.entries {
      assert Alive(s, id);
      StaysApart(env, s, id);
    } else {
      var i := |s.requests| - 1;
      forall id' | id' in s.table.entries ensures s.table.entries[id'].request != i { assert Alive(s, id'); }
      assert i !in Dropped(env, s.table, s.now);
    }
  }

  /** Nothing that was taken is dropped afterwards. */
  lemma TakenNotDropped(env: Env, s: State, j: nat)
    requires Inv(env, s) && j < s.taken
    ensures s.answers[j].request !in Dropped(env, s.table, s.now)
  {
    hide ReadRequestHeader, PeekCorrelId, OutFrame, Rewritten;
    var i := s.answers[j].request;
    if i in Dropped(env, s.table, s.now) {
      DroppedInFlight(env, s, i);
      assert false;
    }
  }

  lemma RegisterSettled(env: Env, s: State)
    requires Settled(env, s) && Enabled(s, RegisterLast)
    ensures Settled(env, Next(env, s, RegisterLast))
  {
    hide ReadRequestHeader, PeekCorrelId, OutFrame, Rewritten;
    var s' := Next(env, s, RegisterLast);
    StepInv(env, s, RegisterLast);
    forall id | id in s'.table.entries ensures Alive(s', id) { RegisterAlive(env, s, id); }
    forall j: nat | j < |s'.delivered| ensures KeptUntilTaken(s', j) {
      assert KeptUntilTaken(s, j);
      TakenNotDropped(env, s, j);
    }
    if s.down.Holding? { TakenNotDropped(env, s, s.taken - 1); }
  }

  lemma TakeSettled(env: Env, s: State)
    requires Settled(env, s) && Enabled(s, TakeNext)
    ensures Settled(env, Next(env, s, TakeNext))
  {
    hide ReadRequestHeader, PeekCorrelId, OutFrame, Rewritten;
    var s' := Next(env, s, TakeNext);
    StepInv(env, s, TakeNext);
    TakesOwn(env, s);
    forall id | id in s'.table.entries ensures Alive(s', id) { assert Alive(s, id); }
    forall j: nat | j < |s'.delivered| ensures KeptUntilTaken(s', j) { assert KeptUntilTaken(s, j); }
    var id := CorrelOf(s.requests[s.answers[s.taken].request]);
    if id in s.table.entries { assert Alive(s, id); }
  }

  /** A delivery adds at most one frame, rewritten only if an entry was found. */
  lemma DeliverAdds(env: Env, s: State)
    requires Enabled(s, DeliverTaken)
    ensures var s' := Next(env, s, DeliverTaken);
            && s' == s.(delivered := s'.delivered, down := s'.down) && !s'.down.Holding?
            && (s'.delivered == s.delivered
                || (|s'.delivered| == |s.delivered| + 1 && s.delivered <= s'.delivered
                    && (s'.delivered[|s.delivered|].via.Through? ==> s.down.found.Found?)))
  {
    hide ReadRequestHeader, PeekCorrelId, OutFrame, Rewritten;
  }

  lemma DeliverSettled(env: Env, s: State)
    requires Settled(env, s) && Enabled(s, DeliverTaken)
    ensures Settled(env, Next(env, s, DeliverTaken))
  {
    hide ReadRequestHeader, PeekCorrelId, OutFrame, Rewritten;
    StepInv(env, s, DeliverTaken);
    DeliverAdds(env, s);
    DeliveredSettled(env, s, Next(env, s, DeliverTaken));
  }

  lemma DeliveredSettled(env: Env, s: State, s': State)
    requires Settled(env, s) && s.down.Holding? && Inv(env, s')
    requires s' == s.(delivered := s'.delivered, down := s'.down) && !s'.down.Holding?
    requires s'.delivered == s.delivered
             || (|s'.delivered| == |s.delivered| + 1 && s.delivered <= s'.delivered
                 && (s'.delivered[|s.delivered|].via.Through? ==> s.down.found.Found?))
    ensures Settled(env, s')
  {
    hide ReadRequestHeader, PeekCorrelId, OutFrame, Rewritten;
    forall id | id in s'.table.entries ensures Alive(s', id) { assert Alive(s, id); }
    forall j: nat | j < |s'.delivered| ensures KeptUntilTaken(s', j) {
      if j < |s.delivered| { assert KeptUntilTaken(s, j); }
    }
  }

  /** The other steps leave table and evictions alone. */
  lemma QuietSettled(env: Env, s: State, e: Event)
    requires Settled(env, s) && Enabled(s, e)
    requires e.Tick? || e.WriteLast? || e.Respond? || e.StopUp? || e.StopDown?
    ensures Settled(env, Next(env, s, e))
  {
    hide ReadRequestHeader, PeekCorrelId, OutFrame, Rewritten;
    var s' := Next(env, s, e);
    StepInv(env, s, e);
    forall id | id in s'.table.entries ensures Alive(s', id) { assert Alive(s, id); }
    forall j: nat | j < |s'.delivered| ensures KeptUntilTaken(s', j) { assert KeptUntilTaken(s, j); }
  }

  lemma {:induction false} AlwaysSettled(env: Env, run: Interleaving, n: nat)
    requires IsRun(env, run) && n <= |run.events|
    ensures Settled(env, run.states[n])
  {
    if n == 0 {
      InitInv(env);
    } else {
      AlwaysSettled(env, run, n - 1);
      assert Moves(env, run, n - 1);
      var s, e := run.states[n - 1], run.events[n - 1];
      match e
      case ReadRequest(body, intercept) => ReadSettled(env, s, body, intercept);
      case RegisterLast => RegisterSettled(env, s);
      case TakeNext => TakeSettled(env, s);
      case DeliverTaken => DeliverSettled(env, s);
      case _ => QuietSettled(env, s, e);
    }
  }

  // ------------------------------------------------------- when it happens

  /** Step `k` is a registration whose sweep is due, and it finds the entry of request `i`
      over age. */
  ghost predicate SweptAt(env: Env, run: Interleaving, k: nat, i: nat)
    requires |run.states| == |run.events| + 1
  {
    && k < |run.events| && run.events[k] == RegisterLast
    && var s := run.states[k];
    && HasEntry(s, i)
    && (|s.table.entries| >= env.cfg.maxSize || s.now - s.table.lastSweep >= env.cfg.sweepEvery)
    && s.now - s.requests[i].sent > env.cfg.maxAge
  }

  /** The table has the entry of request `i`. */
  ghost predicate HasEntry(s: State, i: nat)
  {
    && i < |s.requests| && Decodes(s.requests[i]) && s.requests[i].intercept.Some?
    && Find(s.table, CorrelOf(s.requests[i])) == Found(PendingOf(i, s.requests[i]))
  }

  lemma DroppedIff(env: Env, s: State, i: nat)
    requires Inv(env, s)
    ensures i in Dropped(env, s.table, s.now) <==>
              && HasEntry(s, i) && s.now - s.requests[i].sent > env.cfg.maxAge
              && (|s.table.entries| >= env.cfg.maxSize || s.now - s.table.lastSweep >= env.cfg.sweepEvery)
  {
    hide ReadRequestHeader, PeekCorrelId, OutFrame, Rewritten;
    if i in Dropped(env, s.table, s.now) {
      var id :| id in s.table.entries && id !in BeforeInsert(env.cfg, s.table, s.now).entries
          && s.table.entries[id].request == i;
      assert EntryOk(s, id);
    }
    if HasEntry(s, i) && s.now - s.requests[i].sent > env.cfg.maxAge {
      var id := CorrelOf(s.requests[i]);
      assert id in s.table.entries && s.table.entries[id].request == i;
    }
  }

  /** One step adds to the dropped requests exactly those it sweeps away. */
  lemma EvictedStep(env: Env, run: Interleaving, n: nat, i: nat)
    requires IsRun(env, run) && n < |run.events|
    ensures i in run.states[n + 1].evicted <==> i in run.states[n].evicted || SweptAt(env, run, n, i)
  {
    hide ReadRequestHeader, PeekCorrelId, OutFrame, Rewritten;
    AlwaysInv(env, run, n);
    assert Moves(env, run, n);
    if run.events[n] == RegisterLast { DroppedIff(env, run.states[n], i); }
  }

  /** A request counts as dropped if and only if such a sweep has happened. */
  lemma {:induction false} EvictedIff(env: Env, run: Interleaving, n: nat, i: nat)
    requires IsRun(env, run) && n <= |run.events|
    ensures i in run.states[n].evicted <==> exists k: nat :: k < n && SweptAt(env, run, k, i)
  {
    if n > 0 {
      EvictedIff(env, run, n - 1, i);
      EvictedStep(env, run, n - 1, i);
    }
  }

  /** In every interleaving a response comes raw if and only if its request asked for no
      rewriting, or some registration before found its entry over age while a sweep was due:
      the table full, or the last sweep an interval ago. */
  lemma RawIffSwept(env: Env, run: Interleaving, n: nat, j: nat)
    requires IsRun(env, run) && n <= |run.events| && j < |run.states[n].delivered|
    ensures var s := run.states[n];
            && j < |s.answers| && s.answers[j].request < |s.requests|
            && var i := s.answers[j].request;
            s.delivered[j].via == Raw <==>
              !WantsRewrite(s.requests[i]) || exists k: nat :: k < n && SweptAt(env, run, k, i)
  {
    AlwaysSettled(env, run, n);
    NoBypass(env, run, n, j);
    assert KeptUntilTaken(run.states[n], j);
    assert DeliveryOk(env, run.states[n], j);
    EvictedIff(env, run, n, run.states[n].answers[j].request);
  }

  // --------------------------------------------------- when it has to happen

  /** The turn of request `i` to be registered is over; as long as its entry is there, no
      sweep has happened after `bound`. */
  ghost predicate SweepsBy(env: Env, s: State, i: nat, bound: int)
  {
    && i < |s.requests| && (i + 1 == |s.requests| ==> !s.up.Stamped?)
    && s.requests[i].sent + env.cfg.maxAge <= bound
    && (HasEntry(s, i) ==> s.table.lastSweep <= bound)
  }

  /** A sweep that leaves the entry there came while it was not over age. */
  lemma SweepsStep(env: Env, s: State, e: Event, i: nat, bound: int)
    requires Inv(env, s) && Enabled(s, e) && SweepsBy(env, s, i, bound)
    ensures SweepsBy(env, Next(env, s, e), i, bound) && Next(env, s, e).requests[i] == s.requests[i]
  {
    hide ReadRequestHeader, PeekCorrelId, OutFrame, Rewritten;
    if e == DeliverTaken { DeliverAdds(env, s); }
  }

  lemma {:induction false} SweepsSince(env: Env, run: Interleaving, k: nat, n: nat, i: nat, bound: int)
    requires IsRun(env, run) && k <= n <= |run.events| && SweepsBy(env, run.states[k], i, bound)
    ensures SweepsBy(env, run.states[n], i, bound) && run.states[n].requests[i] == run.states[k].requests[i]
  {
    if k < n {
      SweepsSince(env, run, k, n - 1, i, bound);
      AlwaysInv(env, run, n - 1);
      assert Moves(env, run, n - 1);
      SweepsStep(env, run.states[n - 1], run.events[n - 1], i, bound);
    }
  }

  lemma {:induction false} SweptByNow(env: Env, run: Interleaving, n: nat)
    requires IsRun(env, run) && n <= |run.events|
    ensures run.states[n].table.lastSweep <= run.states[n].now
  {
    hide ReadRequestHeader, PeekCorrelId, OutFrame, Rewritten;
    if n > 0 {
      SweptByNow(env, run, n - 1);
      assert Moves(env, run, n - 1);
      if run.events[n - 1] == DeliverTaken { DeliverAdds(env, run.states[n - 1]); }
    }
  }

  /** Step `r` registers request `i`. */
  ghost predicate RegistersAt(run: Interleaving, r: nat, i: nat)
    requires |run.states| == |run.events| + 1
  {
    r < |run.events| && run.events[r] == RegisterLast && i + 1 == |run.states[r].requests|
  }

  /** Right after its registration the last sweep lies within the bound. */
  lemma SweepsStart(env: Env, run: Interleaving, r: nat, i: nat, bound: int)
    requires IsRun(env, run) && RegistersAt(run, r, i)
    requires run.states[r].now <= bound && run.states[r].requests[i].sent + env.cfg.maxAge <= bound
    ensures SweepsBy(env, run.states[r + 1], i, bound) && run.states[r + 1].requests == run.states[r].requests
  {
    hide ReadRequestHeader, PeekCorrelId, OutFrame, Rewritten;
    AlwaysInv(env, run, r);
    SweptByNow(env, run, r);
    assert Moves(env, run, r);
  }

  /** A registration, while request `i` is in flight, one sweep interval after the request
      went over age (and was registered itself) finds its entry swept, or sweeps it. */
  lemma MustSweep(env: Env, run: Interleaving, r: nat, k: nat, i: nat)
    requires IsRun(env, run) && RegistersAt(run, r, i) && r < k < |run.events| && run.events[k] == RegisterLast
    requires InFlight(run.states[k], i) && WantsRewrite(run.states[k].requests[i]) && Sane(env.cfg)
    requires run.states[k].now >= run.states[k].requests[i].sent + env.cfg.maxAge + env.cfg.sweepEvery
    requires run.states[k].now >= run.states[r].now + env.cfg.sweepEvery
    ensures i in run.states[k].evicted || SweptAt(env, run, k, i)
  {
    hide ReadRequestHeader, PeekCorrelId, OutFrame, Rewritten;
    var s, bound := run.states[k], run.states[k].now - env.cfg.sweepEvery;
    SameRequest(env, run, r, k, i);
    SweepsStart(env, run, r, i, bound);
    SweepsSince(env, run, r + 1, k, i, bound);
    AlwaysInv(env, run, k);
    assert Moves(env, run, k);
    assert Guarded(s, i);
  }

  lemma {:induction false} SameRequest(env: Env, run: Interleaving, m: nat, n: nat, i: nat)
    requires IsRun(env, run) && m <= n <= |run.events| && i < |run.states[m].requests|
    ensures i < |run.states[n].requests| && run.states[n].requests[i] == run.states[m].requests[i]
  {
    hide ReadRequestHeader, PeekCorrelId, OutFrame, Rewritten;
    if m < n {
      SameRequest(env, run, m, n - 1, i);
      assert Moves(env, run, n - 1);
      if run.events[n - 1] == DeliverTaken { DeliverAdds(env, run.states[n - 1]); }
    }
  }

  /** The other side of NoBypass: once a registration has come an interval after a request in
      flight went over age, its response reaches the client raw. */
  lemma LateForcesRaw(env: Env, run: Interleaving, r: nat, k: nat, n: nat, j: nat)
    requires IsRun(env, run) && r < k < n <= |run.events| && j < |run.states[n].delivered|
             && j < |run.states[n].answers|
    requires var i := run.states[n].answers[j].request;
             && RegistersAt(run, r, i) && run.events[k] == RegisterLast && Sane(env.cfg)
             && InFlight(run.states[k], i) && WantsRewrite(run.states[k].requests[i])
             && run.states[k].now >= run.states[k].requests[i].sent + env.cfg.maxAge + env.cfg.sweepEvery
             && run.states[k].now >= run.states[r].now + env.cfg.sweepEvery
    ensures run.states[n].delivered[j].via == Raw && run.states[n].delivered[j].frame == run.states[n].answers[j].frame
  {
    hide ReadRequestHeader, PeekCorrelId, OutFrame, Rewritten;
    var i := run.states[n].answers[j].request;
    MustSweep(env, run, r, k, i);
    EvictedIff(env, run, k, i);
    RawIffSwept(env, run, n, j);
    NoBypass(env, run, n, j);
  }

  // ------------------------------------------------------ a late answer

  lemma Extended(env: Env, run: Interleaving, e: Event, s: State) returns (longer: Interleaving)
    requires IsRun(env, run) && var last := run.states[|run.events|]; Enabled(last, e) && s == Next(env, last, e)
    ensures IsRun(env, longer) && longer.events == run.events + [e] && longer.states == run.states + [s]
  {
    longer := Interleaving(run.events + [e], run.states + [s]);
    forall i: nat | i < |longer.events| ensures Moves(env, longer, i) {
      if i < |run.events| { assert Moves(env, run, i); }
    }
  }

  /** Two Metadata requests, version 0, without a client id. */
  const FIRST: Bytes := [0, 3, 0, 0, 0, 0, 0, 7, 255, 255]
  const SECOND: Bytes := [0, 3, 0, 0, 0, 0, 0, 8, 255, 255]
  const ANSWER: Bytes := [0, 0, 0, 7]
  const HOOKED: Intercept := Intercept(Rewrite(MetadataRewriter), None)

  lemma HeadersRead()
    ensures ReadRequestHeader(FIRST) == Ok(RequestHeader(3, 0, 7, None), 10)
    ensures ReadRequestHeader(SECOND) == Ok(RequestHeader(3, 0, 8, None), 10)
    ensures PeekCorrelId(ANSWER) == Ok(7, 4)
  {
  }

  const ENV: Env := Env(Config(10, 100, 1), Topology.Mapping(map[], map[], (h, p) => h))

  const R0 := Request(FIRST, Some(HOOKED), 0)
  const R1 := Request(SECOND, Some(HOOKED), 101)
  const P0 := Pending(0, 3, 0, 7, 0, Rewrite(MetadataRewriter))
  const P1 := Pending(1, 3, 0, 8, 101, Rewrite(MetadataRewriter))

  /** The first request has been forwarded; then the clock goes past the maximal age. */
  const WAITING := State(101, [R0], Idle, Table(map[7 := P0], 0), {}, [FIRST], [], 0, Waiting, [])

  const FIRST_READ := INIT.(requests := [R0], up := Stamped)

  const REGISTERED := FIRST_READ.(up := Ready, table := Table(map[7 := P0], 0))

  lemma Registers() returns (run: Interleaving)
    ensures IsRun(ENV, run) && |run.events| == 2 && run.states[2] == REGISTERED
  {
    HeadersRead();
    run := Interleaving([], [INIT]);
    run := Extended(ENV, run, ReadRequest(FIRST, Some(HOOKED)), FIRST_READ);
    assert Dropped(ENV, FIRST_READ.table, 0) == {};
    run := Extended(ENV, run, RegisterLast, REGISTERED);
  }

  lemma Waits() returns (run: Interleaving)
    ensures IsRun(ENV, run) && |run.events| == 4 && run.states[4] == WAITING
  {
    HeadersRead();
    run := Registers();
    run := Extended(ENV, run, WriteLast, REGISTERED.(up := Idle, forwarded := [FIRST]));
    run := Extended(ENV, run, Tick(101), WAITING);
  }

  const SECOND_READ := WAITING.(requests := [R0, R1], up := Stamped)

  const SWEPT := SECOND_READ.(up := Ready, table := Table(map[8 := P1], 101), evicted := {0})

  lemma SweepsFirst()
    ensures BeforeInsert(ENV.cfg, SECOND_READ.table, 101) == Table(map[], 101)
    ensures Dropped(ENV, SECOND_READ.table, 101) == {0}
  {
    var t := BeforeInsert(ENV.cfg, SECOND_READ.table, 101);
    assert t == Table(map[], 101);
    assert 7 in SECOND_READ.table.entries && 7 !in t.entries;
  }

  /** The registration of the second request sweeps the entry of the first away. */
  lemma SweepsOut() returns (run: Interleaving)
    ensures IsRun(ENV, run) && |run.events| == 6 && run.states[6] == SWEPT
  {
    HeadersRead();
    run := Waits();
    run := Extended(ENV, run, ReadRequest(SECOND, Some(HOOKED)), SECOND_READ);
    SweepsFirst();
    assert Registered(ENV.cfg, SECOND_READ.table, P1, 101) == Table(map[8 := P1], 101);
    run := Extended(ENV, run, RegisterLast, SWEPT);
  }

  const ANSWERED := SWEPT.(answers := [Answer(0, ANSWER)])

  lemma AnswersLate() returns (run: Interleaving)
    ensures IsRun(ENV, run) && |run.events| == 7 && run.states[7] == ANSWERED
  {
    HeadersRead();
    run := SweepsOut();
    run := Extended(ENV, run, Respond(0, ANSWER), ANSWERED);
  }

  const TAKEN := ANSWERED.(taken := 1, down := Holding(101, Nothing))

  lemma TakesLate() returns (run: Interleaving)
    ensures IsRun(ENV, run) && |run.events| == 8 && run.states[8] == TAKEN
  {
    run := AnswersLate();
    assert PeekCorrelId(ANSWER) == Ok(7, 4);
    assert Taken(ANSWERED.table, 7) == ANSWERED.table;
    run := Extended(ENV, run, TakeNext, TAKEN);
  }

  /** Past the maximal age a response that was to be rewritten can reach the client raw. */
  lemma LateIsRaw() returns (run: Interleaving)
    ensures IsRun(ENV, run) && |run.events| == 9
    ensures var s := run.states[9];
            && |s.requests| == 2 && WantsRewrite(s.requests[0]) && s.answers == [Answer(0, ANSWER)]
            && s.delivered == [Delivery(101, ANSWER, Raw)]
  {
    run := TakesLate();
    run := Extended(ENV, run, DeliverTaken, TAKEN.(down := Waiting, delivered := [Delivery(101, ANSWER, Raw)]));
  }
}
