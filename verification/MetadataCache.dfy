/** The metadata cache: snapshots built from Metadata responses, and the single-flight refresh
    as a protocol of steps that any number of callers take in any interleaving. */
module MetadataCache {
  import opened Ordering
  import opened Wire
  import opened MetadataMessage

  // --------------------------------------------------------------- snapshots

  /** topic -> partition ids */
  type Topics = map<Str, seq<int>>

  function Indices(ps: seq<Partition>): (r: seq<int>)
    ensures |r| == |ps| && forall i :: 0 <= i < |ps| ==> r[i] == ps[i].index
  {
    seq(|ps|, i requires 0 <= i < |ps| => ps[i].index)
  }

  predicate Usable(t: Topic)
  {
    t.name.Some? && t.name.value != [] && t.partitions != []
  }

  /** `i` is the last usable entry for its topic. */
  predicate LastFor(ts: seq<Topic>, i: nat)
    requires i < |ts|
  {
    Usable(ts[i]) && forall j :: i < j < |ts| && Usable(ts[j]) ==> ts[j].name != ts[i].name
  }

  function SnapshotOf(ts: seq<Topic>): Topics
  {
    if ts == [] then map[] else
      var front, last := SnapshotOf(ts[..|ts| - 1]), ts[|ts| - 1];
      if Usable(last) then front[last.name.value := Indices(last.partitions)] else front
  }

  lemma LastForGrows(ts: seq<Topic>, last: Topic, i: nat)
    requires i < |ts|
    ensures LastFor(ts + [last], i) <==> LastFor(ts, i) && (Usable(last) ==> last.name != ts[i].name)
  {
    var all := ts + [last];
    assert all[|ts|] == last && forall j :: 0 <= j < |ts| ==> all[j] == ts[j];
  }

  /** No topic is named "", none is without partitions, and each has the partitions of its
      last usable entry. */
  lemma {:induction false} SnapshotIs(ts: seq<Topic>, t: Str)
    ensures t in SnapshotOf(ts) ==> t != [] && SnapshotOf(ts)[t] != []
    ensures t in SnapshotOf(ts) <==> exists i: nat :: i < |ts| && LastFor(ts, i) && ts[i].name.value == t
    ensures forall i: nat :: i < |ts| && LastFor(ts, i) && ts[i].name.value == t ==>
            SnapshotOf(ts)[t] == Indices(ts[i].partitions)
    ensures forall i: nat :: i < |ts| && t != [] && ts[i].name == Some(t) && ts[i].partitions != [] ==>
              t in SnapshotOf(ts)
  {
    if ts != [] {
      var n := |ts| - 1;
      var front, last := ts[..n], ts[n];
      SnapshotIs(front, t);
      assert ts == front + [last];
      forall i: nat | i < n
        ensures LastFor(ts, i) <==> LastFor(front, i) && (Usable(last) ==> last.name != ts[i].name)
      {
        LastForGrows(front, last, i);
      }
      assert LastFor(ts, n) <==> Usable(last);
      if t in SnapshotOf(ts) {
        if Usable(last) && last.name.value == t {
          assert LastFor(ts, n);
        } else {
          var i: nat :| i < n && LastFor(front, i) && front[i].name.value == t;
          assert LastFor(ts, i);
        }
      }
    }
  }

  /** Reshape a response: nameless and empty topics are left out, later entries win. */
  method BuildSnapshot(ts: seq<Topic>) returns (byTopic: Topics)
    ensures byTopic == SnapshotOf(ts) && [] !in byTopic && forall t :: t in byTopic ==> byTopic[t] != []
  {
    byTopic := map[];
    for n := 0 to |ts|
      invariant byTopic == SnapshotOf(ts[..n])
    {
      assert ts[..n + 1][..n] == ts[..n];
      var t := ts[n];
      if t.name.None? || t.name.value == [] || |t.partitions| == 0 { continue; }
      byTopic := byTopic[t.name.value := Indices(t.partitions)];
    }
    assert ts[..|ts|] == ts;
    forall t | t in byTopic ensures t != [] && byTopic[t] != [] { SnapshotIs(ts, t); }
  }

  /** Every list of partitions, and the number of topics, is one an int32 can count. */
  ghost predicate Countable(m: Topics)
  {
    |m| <= MAX_BYTES && forall t :: t in m ==> FitsArr(Int32Codec(), m[t], false)
  }

  lemma {:induction false} WeightAtLeast<T(!new)>(c: Codec<T>, xs: seq<T>, i: nat)
    requires i < |xs| && forall x :: x in xs ==> c.weight(x) >= 1
    ensures WeightN(c, xs) >= |xs| && WeightN(c, xs) >= c.weight(xs[i])
  {
    var n := |xs| - 1;
    assert xs[n] in xs;
    if n > 0 { WeightAtLeast(c, xs[..n], if i < n then i else 0); }
  }

  lemma {:induction false} SnapshotSmall(ts: seq<Topic>)
    ensures |SnapshotOf(ts)| <= |ts|
  {
    if ts != [] {
      var front, last := SnapshotOf(ts[..|ts| - 1]), ts[|ts| - 1];
      SnapshotSmall(ts[..|ts| - 1]);
      if Usable(last) {
        var longer := front[last.name.value := Indices(last.partitions)];
        assert longer.Keys == front.Keys + {last.name.value};
        assert |longer.Keys| == |longer| && |front.Keys| == |front|;
      }
    }
  }

  lemma TopicCountable(t: Topic, version: int, flex: bool)
    requires FitsTopic(t, version, flex) && TopicWeight(t, version, flex) <= MAX_BYTES
    ensures FitsArr(Int32Codec(), Indices(t.partitions), false)
  {
    var c, ids := PartitionCodec(version, flex), Indices(t.partitions);
    if t.partitions != [] { WeightAtLeast(c, t.partitions, 0); }
    forall x | x in ids ensures IsInt32(x) {
      var i :| 0 <= i < |ids| && ids[i] == x;
      assert t.partitions[i] in t.partitions && c.fits(t.partitions[i]);
    }
  }

  /** The snapshot of a response that came in a frame is countable. */
  lemma SnapshotCountable(body: Bytes, version: int)
    requires ReadMetadata(body, 0, version).Ok? && |body| <= MAX_BYTES
    ensures Countable(SnapshotOf(ReadMetadata(body, 0, version).v.topics))
  {
    hide ReadMetadata, TopicWeight, FitsTopic;
    MetadataReads(body, 0, version);
    var flex, ts := Flex(version), ReadMetadata(body, 0, version).v.topics;
    var c := TopicCodec(version, flex);
    forall i: nat | i < |ts| ensures |ts| <= MAX_BYTES && FitsTopic(ts[i], version, flex)
        && TopicWeight(ts[i], version, flex) <= MAX_BYTES {
      forall x | x in ts ensures c.weight(x) >= 1 { TopicWeighs(x, version, flex); }
      WeightAtLeast(c, ts, i);
      assert ts[i] in ts && c.fits(ts[i]);
    }
    SnapshotSmall(ts);
    forall t | t in SnapshotOf(ts) ensures FitsArr(Int32Codec(), SnapshotOf(ts)[t], false) {
      SnapshotIs(ts, t);
      var i: nat :| i < |ts| && LastFor(ts, i) && ts[i].name.value == t;
      TopicCountable(ts[i], version, flex);
    }
  }

  lemma TopicWeighs(t: Topic, version: int, flex: bool)
    ensures TopicWeight(t, version, flex) >= 1
  {
  }

  // ----------------------------------------------------------- the protocol

  type Snapshot = nat

  /** What a fetch returns: a snapshot or nil, and whether there was an error. */
  datatype Result = Result(snap: Opt<Snapshot>, failed: bool)

  const CANCELLED := Result(None, true)

  /** Where a call of Refresh is. The leader fetches, clears the flight, publishes, fills in
      the shared call and closes it; a joiner waits for its leader's call. */
  datatype Phase =
    | Elected | Fetching | Fetched | Cleared | Stored | Filled | Closed
    | Joined(leader: nat)
    | Returned(leader: nat, out: Result, cancelled: bool)

  datatype Call = Call(result: Opt<Result>, closed: bool)

  datatype State = State(
    phase: map<nat, Phase>,        // by caller
    flight: Opt<nat>,              // the leader of the call in flight
    calls: map<nat, Call>,         // by leader
    fetched: map<nat, Result>,     // by leader: what its fetch returned
    published: Opt<Snapshot>,
    everPublished: set<Snapshot>)

  const INIT := State(map[], None, map[], map[], None, {})

  datatype Event =
    | Enter(who: nat)
    | StartFetch(who: nat)
    | EndFetch(who: nat, result: Result)
    | ClearFlight(who: nat)
    | Publish(who: nat)
    | Fill(who: nat)
    | Close(who: nat)
    | LeaderReturns(who: nat)
    | JoinerReturns(who: nat)
    | JoinerCancels(who: nat)

  predicate At(s: State, who: nat, phase: Phase)
  {
    who in s.phase && s.phase[who] == phase
  }

  predicate Waits(s: State, who: nat)
  {
    who in s.phase && s.phase[who].Joined?
  }

  predicate Enabled(s: State, e: Event)
  {
    match e
    case Enter(who) => who !in s.phase
    case StartFetch(who) => At(s, who, Elected)
    case EndFetch(who, _) => At(s, who, Fetching)
    case ClearFlight(who) => At(s, who, Fetched)
    case Publish(who) => At(s, who, Cleared) && who in s.fetched
    case Fill(who) => At(s, who, Stored) && who in s.fetched && who in s.calls
    case Close(who) => At(s, who, Filled) && who in s.calls
    case LeaderReturns(who) => At(s, who, Closed) && who in s.fetched
    case JoinerReturns(who) =>
      Waits(s, who) && s.phase[who].leader in s.calls && s.calls[s.phase[who].leader].closed
      && s.calls[s.phase[who].leader].result.Some?
    case JoinerCancels(who) => Waits(s, who)
  }

  predicate Succeeded(r: Result)
  {
    !r.failed && r.snap.Some?
  }

  function Goes(s: State, who: nat, to: Phase): State
  {
    s.(phase := s.phase[who := to])
  }

  function Next(s: State, e: Event): State
    requires Enabled(s, e)
  {
    match e
    case Enter(who) =>
      if s.flight.Some? then Goes(s, who, Joined(s.flight.value))
      else Goes(s, who, Elected).(flight := Some(who), calls := s.calls[who := Call(None, false)])
    case StartFetch(who) => Goes(s, who, Fetching)
    case EndFetch(who, result) => Goes(s, who, Fetched).(fetched := s.fetched[who := result])
    case ClearFlight(who) => Goes(s, who, Cleared).(flight := None)
    case Publish(who) =>
      var r := s.fetched[who];
      if Succeeded(r) then Goes(s, who, Stored).(published := r.snap, everPublished := s.everPublished + {r.snap.value})
      else Goes(s, who, Stored)
    case Fill(who) => Goes(s, who, Filled).(calls := s.calls[who := Call(Some(s.fetched[who]), s.calls[who].closed)])
    case Close(who) => Goes(s, who, Closed).(calls := s.calls[who := s.calls[who].(closed := true)])
    case LeaderReturns(who) => Goes(s, who, Returned(who, s.fetched[who], false))
    case JoinerReturns(who) =>
      var leader := s.phase[who].leader;
      Goes(s, who, Returned(leader, s.calls[leader].result.value, false))
    case JoinerCancels(who) => Goes(s, who, Returned(s.phase[who].leader, CANCELLED, true))
  }

  // -------------------------------------------------------------- invariant

  /** A result that carries a snapshot without an error has been published. */
  predicate Visible(s: State, r: Result)
  {
    Succeeded(r) ==> r.snap.value in s.everPublished
  }

  predicate Open(s: State, who: nat)
  {
    who in s.calls && !s.calls[who].closed && s.calls[who].result.None?
  }

  predicate ThreadOk(s: State, who: nat)
    requires who in s.phase
  {
    match s.phase[who]
    case Elected => s.flight == Some(who) && Open(s, who) && who !in s.fetched
    case Fetching => s.flight == Some(who) && Open(s, who) && who !in s.fetched
    case Fetched => s.flight == Some(who) && Open(s, who) && who in s.fetched
    case Cleared => s.flight != Some(who) && Open(s, who) && who in s.fetched
    case Stored => s.flight != Some(who) && Open(s, who) && who in s.fetched && Visible(s, s.fetched[who])
    case Filled =>
      && s.flight != Some(who) && who in s.calls && who in s.fetched && Visible(s, s.fetched[who])
      && s.calls[who] == Call(Some(s.fetched[who]), false)
    case Closed =>
      && s.flight != Some(who) && who in s.calls && who in s.fetched && Visible(s, s.fetched[who])
      && s.calls[who] == Call(Some(s.fetched[who]), true)
    case Joined(leader) => leader in s.calls && who !in s.calls && who !in s.fetched && s.flight != Some(who)
    case Returned(leader, out, cancelled) =>
      && leader in s.calls && s.flight != Some(who)
      && if cancelled then out == CANCELLED && who !in s.calls
         else s.calls[leader].closed && leader in s.fetched && out == s.fetched[leader]
  }

  predicate CallOk(s: State, leader: nat)
    requires leader in s.calls
  {
    && leader in s.phase && !s.phase[leader].Joined?
    && (s.phase[leader].Returned? ==> s.phase[leader].leader == leader)
    && (s.calls[leader].closed ==>
          leader in s.fetched && s.calls[leader].result == Some(s.fetched[leader]) && Visible(s, s.fetched[leader]))
  }

  /** The fetch behind a snapshot. */
  ghost predicate Fetches(s: State, leader: nat, snap: Snapshot)
  {
    leader in s.fetched && s.fetched[leader] == Result(Some(snap), false)
  }

  /** The leader of the call in flight has not cleared it yet. */
  predicate FlightOk(s: State)
  {
    s.flight.Some? ==>
      var l := s.flight.value;
      l in s.calls && (At(s, l, Elected) || At(s, l, Fetching) || At(s, l, Fetched))
  }

  ghost predicate Inv(s: State)
  {
    && (forall who :: who in s.phase ==> ThreadOk(s, who))
    && (forall leader :: leader in s.calls ==> CallOk(s, leader))
    && (forall who :: who in s.fetched ==> who in s.calls)
    && FlightOk(s)
    && (s.published.Some? ==> s.published.value in s.everPublished)
    && (forall snap :: snap in s.everPublished ==> exists leader :: Fetches(s, leader, snap))
  }

  lemma MoverStep(s: State, e: Event)
    requires Inv(s) && Enabled(s, e)
    ensures ThreadOk(Next(s, e), e.who)
  {
    if e.who in s.phase {
      assert ThreadOk(s, e.who);
      if s.phase[e.who].Joined? { assert CallOk(s, s.phase[e.who].leader); }
    }
  }

  /** What a step of one caller leaves alone: the phases, calls and results of the others,
      results that are there, and calls that are closed. */
  ghost predicate Keeps(s: State, s': State, who: nat)
  {
    && (forall t :: t in s.phase && t != who ==> t in s'.phase && s'.phase[t] == s.phase[t])
    && (forall l :: l in s.calls ==> l in s'.calls && (l != who || s.calls[l].closed ==> s'.calls[l] == s.calls[l]))
    && (forall l :: l in s'.calls && l != who ==> l in s.calls)
    && (forall l :: l in s.fetched ==> l in s'.fetched && s'.fetched[l] == s.fetched[l])
    && (forall l :: l in s'.fetched && l != who ==> l in s.fetched)
    && s.everPublished <= s'.everPublished
    && (s'.flight == s.flight || (s.flight == None && s'.flight == Some(who))
        || (s.flight == Some(who) && s'.flight == None))
  }

  lemma StepKeeps(s: State, e: Event)
    requires Inv(s) && Enabled(s, e)
    ensures Keeps(s, Next(s, e), e.who)
  {
    if e.who in s.phase { assert ThreadOk(s, e.who); }
  }

  lemma OtherKeeps(s: State, s': State, who: nat, t: nat)
    requires Inv(s) && Keeps(s, s', who) && t in s.phase && t != who
    ensures t in s'.phase && ThreadOk(s', t)
  {
    assert ThreadOk(s, t);
  }

  lemma OtherStep(s: State, e: Event, t: nat)
    requires Inv(s) && Enabled(s, e) && t in s.phase && t != e.who
    ensures t in Next(s, e).phase && ThreadOk(Next(s, e), t)
  {
    StepKeeps(s, e);
    OtherKeeps(s, Next(s, e), e.who, t);
  }

  lemma CallStep(s: State, e: Event, leader: nat)
    requires Inv(s) && Enabled(s, e) && leader in Next(s, e).calls
    ensures CallOk(Next(s, e), leader)
  {
    if leader in s.calls { assert CallOk(s, leader); }
    if e.who in s.phase { assert ThreadOk(s, e.who); }
  }

  lemma FetchStep(s: State, e: Event, snap: Snapshot)
    requires Inv(s) && Enabled(s, e) && snap in Next(s, e).everPublished
    ensures exists leader :: Fetches(Next(s, e), leader, snap)
  {
    if snap in s.everPublished {
      var leader :| Fetches(s, leader, snap);
      if e.who in s.phase { assert ThreadOk(s, e.who); }
      assert Fetches(Next(s, e), leader, snap);
    } else {
      assert Fetches(Next(s, e), e.who, snap);
    }
  }

  lemma FlightStep(s: State, e: Event)
    requires Inv(s) && Enabled(s, e)
    ensures FlightOk(Next(s, e)) && forall who :: who in Next(s, e).fetched ==> who in Next(s, e).calls
  {
    if e.who in s.phase { assert ThreadOk(s, e.who); }
  }

  lemma StepInv(s: State, e: Event)
    requires Inv(s) && Enabled(s, e)
    ensures Inv(Next(s, e))
  {
    var s' := Next(s, e);
    forall t | t in s'.phase ensures ThreadOk(s', t) {
      if t == e.who { MoverStep(s, e); } else { OtherStep(s, e, t); }
    }
    forall l | l in s'.calls ensures CallOk(s', l) { CallStep(s, e, l); }
    forall snap | snap in s'.everPublished ensures exists leader :: Fetches(s', leader, snap) { FetchStep(s, e, snap); }
    FlightStep(s, e);
  }

  // ------------------------------------------------------------------- runs

  datatype Interleaving = Interleaving(events: seq<Event>, states: seq<State>)

  ghost predicate Moves(run: Interleaving, i: nat)
    requires |run.states| == |run.events| + 1 && i < |run.events|
  {
    Enabled(run.states[i], run.events[i]) && run.states[i + 1] == Next(run.states[i], run.events[i])
  }

  ghost predicate IsRun(run: Interleaving)
  {
    && |run.states| == |run.events| + 1 && run.states[0] == INIT
    && forall i: nat :: i < |run.events| ==> Moves(run, i)
  }

  lemma {:induction false} AlwaysInv(run: Interleaving, n: nat)
    requires IsRun(run) && n <= |run.events|
    ensures Inv(run.states[n])
  {
    if n > 0 {
      AlwaysInv(run, n - 1);
      assert Moves(run, n - 1);
      StepInv(run.states[n - 1], run.events[n - 1]);
    }
  }

  /** At most one fetch runs at a time. */
  lemma SingleFlight(run: Interleaving, n: nat, a: nat, b: nat)
    requires IsRun(run) && n <= |run.events| && At(run.states[n], a, Fetching) && At(run.states[n], b, Fetching)
    ensures a == b
  {
    AlwaysInv(run, n);
    assert ThreadOk(run.states[n], a) && ThreadOk(run.states[n], b);
  }

  /** A joiner that does not cancel returns exactly what its leader's fetch returned, which
      is also what the leader itself returns. */
  lemma JoinersShare(run: Interleaving, n: nat, who: nat)
    requires IsRun(run) && n <= |run.events| && who in run.states[n].phase
    requires run.states[n].phase[who].Returned? && !run.states[n].phase[who].cancelled
    ensures var s := run.states[n]; var leader := s.phase[who].leader;
            && leader in s.fetched && s.phase[who].out == s.fetched[leader]
            && (leader in s.phase && s.phase[leader].Returned? ==> s.phase[leader].out == s.phase[who].out)
  {
    AlwaysInv(run, n);
    var s := run.states[n];
    var leader := s.phase[who].leader;
    assert ThreadOk(s, who) && CallOk(s, leader);
    if leader in s.phase { assert ThreadOk(s, leader); }
  }

  /** A caller that returns a snapshot without an error does so after it was published, by a
      fetch that returned it. */
  lemma ReturnedWasPublished(run: Interleaving, n: nat, who: nat)
    requires IsRun(run) && n <= |run.events| && who in run.states[n].phase
    requires run.states[n].phase[who].Returned? && Succeeded(run.states[n].phase[who].out)
    ensures var s := run.states[n];
            s.phase[who].out.snap.value in s.everPublished
            && exists k: nat :: k <= n && run.states[k].published == s.phase[who].out.snap
  {
    AlwaysInv(run, n);
    var s := run.states[n];
    assert ThreadOk(s, who) && CallOk(s, s.phase[who].leader);
    PublishedOnce(run, n, s.phase[who].out.snap.value);
  }

  lemma {:induction false} PublishedOnce(run: Interleaving, n: nat, snap: Snapshot)
    requires IsRun(run) && n <= |run.events| && snap in run.states[n].everPublished
    ensures exists k: nat :: k <= n && run.states[k].published == Some(snap)
  {
    if n > 0 {
      assert Moves(run, n - 1);
      if snap in run.states[n - 1].everPublished {
        PublishedOnce(run, n - 1, snap);
      } else {
        assert run.states[n].published == Some(snap);
      }
    }
  }

  /** Nobody waits in vain: while a joiner waits for a call that is not closed, its leader
      has a next step; once the call is closed the joiner can return. */
  lemma NobodyStuck(run: Interleaving, n: nat, who: nat)
    requires IsRun(run) && n <= |run.events| && Waits(run.states[n], who)
    ensures var s := run.states[n]; var leader := s.phase[who].leader;
            || Enabled(s, JoinerReturns(who))
            || Enabled(s, StartFetch(leader)) || Enabled(s, EndFetch(leader, CANCELLED))
            || Enabled(s, ClearFlight(leader))
            || Enabled(s, Publish(leader)) || Enabled(s, Fill(leader)) || Enabled(s, Close(leader))
  {
    AlwaysInv(run, n);
    var s := run.states[n];
    var leader := s.phase[who].leader;
    assert ThreadOk(s, who) && CallOk(s, leader) && ThreadOk(s, leader);
  }

  lemma Extended(run: Interleaving, e: Event, s: State) returns (longer: Interleaving)
    requires IsRun(run) && var last := run.states[|run.events|]; Enabled(last, e) && s == Next(last, e)
    ensures IsRun(longer) && longer.events == run.events + [e] && longer.states == run.states + [s]
  {
    longer := Interleaving(run.events + [e], run.states + [s]);
    forall i: nat | i < |longer.events| ensures Moves(longer, i) {
      if i < |run.events| { assert Moves(run, i); }
    }
  }

  /** Caller 0 has fetched and cleared the flight, but has not stored its result. */
  const HESITANT := State(map[0 := Cleared], None, map[0 := Call(None, false)], map[0 := Result(Some(1), false)],
                          None, {})

  lemma Hesitates() returns (run: Interleaving)
    ensures IsRun(run) && run.events == [Enter(0), StartFetch(0), EndFetch(0, Result(Some(1), false)), ClearFlight(0)]
    ensures run.states[4] == HESITANT
  {
    var s1 := State(map[0 := Elected], Some(0), map[0 := Call(None, false)], map[], None, {});
    var s2 := Goes(s1, 0, Fetching);
    var s3 := Goes(s2, 0, Fetched).(fetched := map[0 := Result(Some(1), false)]);
    run := Interleaving([], [INIT]);
    run := Extended(run, Enter(0), s1);
    run := Extended(run, StartFetch(0), s2);
    run := Extended(run, EndFetch(0, Result(Some(1), false)), s3);
    run := Extended(run, ClearFlight(0), HESITANT);
  }

  /** The published snapshot is not always the newest: the flight is cleared before the
      result is stored, so an older result can be stored after a newer one. */
  lemma OlderMayWin() returns (run: Interleaving)
    ensures IsRun(run) && |run.events| == 10
    ensures run.events[2] == EndFetch(0, Result(Some(1), false)) && run.events[6] == EndFetch(1, Result(Some(2), false))
    ensures run.states[9].published == Some(2) && run.states[10].published == Some(1)
  {
    var s5 := Goes(HESITANT, 1, Elected).(flight := Some(1), calls := HESITANT.calls[1 := Call(None, false)]);
    var s6 := Goes(s5, 1, Fetching);
    var s7 := Goes(s6, 1, Fetched).(fetched := s6.fetched[1 := Result(Some(2), false)]);
    var s8 := Goes(s7, 1, Cleared).(flight := None);
    var s9 := Goes(s8, 1, Stored).(published := Some(2), everPublished := {} + {2});
    var s10 := Goes(s9, 0, Stored).(published := Some(1), everPublished := s9.everPublished + {1});
    run := Hesitates();
    run := Extended(run, Enter(1), s5);
    run := Extended(run, StartFetch(1), s6);
    run := Extended(run, EndFetch(1, Result(Some(2), false)), s7);
    run := Extended(run, ClearFlight(1), s8);
    run := Extended(run, Publish(1), s9);
    run := Extended(run, Publish(0), s10);
  }
}
