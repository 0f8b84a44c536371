/** What the proxy does with the requests it knows: Metadata and FindCoordinator get their
    responses steered, JoinGroup is observed for subscriptions, and a leader's SyncGroup gets
    freshly planned assignments. */
module Interceptor {
  import opened Ordering
  import opened Wire
  import opened ApiKeys
  import opened NodeFields
  import opened Header
  import opened Topology
  import opened Tracker
  import opened Connection
  import opened Decoders
  import opened Cursors
  import opened PlanSpec
  import opened PlanCompute
  import Meta = MetadataMessage
  import Coord = CoordinatorMessage
  import Sync = SyncGroupMessage
  import Proto = ConsumerProtocol
  import Subs = Subscriptions

  // ------------------------------------------------- steering responses

  /** Requests are hooked only when some node id is mapped. */
  function OnMetadata(m: Mapping): Opt<Intercept>
  {
    if m.byNode == map[] then None else Some(Intercept(Rewrite(MetadataRewriter), None))
  }

  function OnFindCoordinator(m: Mapping): Opt<Intercept>
  {
    if m.byNode == map[] then None else Some(Intercept(Rewrite(CoordinatorRewriter), None))
  }

  /** Decode, overwrite the brokers in place, encode. */
  method RewriteMetadataResponse(m: Mapping, body: Bytes, version: int) returns (out: Opt<Bytes>)
    ensures out == RewriteMetadataBody(m, body, version)
    ensures var r := Meta.ReadMetadata(body, 0, version);
            && (out.None? <==> r.Bad?)
            && (r.Ok? && FitsBrokers(m, r.v) ==> MetadataBodySteered(m, body, version, out.value))
  {
    hide Meta.ReadMetadata, Meta.AppendMetadata, Lookup, MetadataBodySteered, FitsBrokers;
    var res := DecodeMetadata(body, version);
    if res.Err? { return None; }
    var r := res.value;
    var brokers := new Meta.Broker[|r.brokers|](i requires 0 <= i < |r.brokers| => r.brokers[i]);
    assert brokers[..] == r.brokers;
    var _ := RewriteBrokers(brokers, m);
    var bytes := EncodeMetadata([], r.(brokers := brokers[..]));
    if FitsBrokers(m, res.value) { ClientSeesSteeredMetadata(m, body, version); }
    return Some(bytes);
  }

  method RewriteCoordinatorResponse(m: Mapping, body: Bytes, version: int) returns (out: Opt<Bytes>)
    ensures out == RewriteCoordinatorBody(m, body, version)
    ensures var r := Coord.ReadCoordinator(body, 0, version);
            && (out.None? <==> r.Bad?)
            && (r.Ok? && FitsCoordinators(m, r.v) ==> CoordinatorBodySteered(m, body, version, out.value))
  {
    hide Coord.ReadCoordinator, Coord.AppendCoordinator, Lookup, CoordinatorBodySteered, FitsCoordinators;
    var res := DecodeCoordinator(body, version);
    if res.Err? { return None; }
    var r := res.value;
    if r.version <= 3 {
      var n := r.single.node;
      if n.host != [] && n.port > 0 {
        var e := Lookup(m, n);
        if e.Some? { r := r.(single := r.single.(node := Node(n.id, e.value.host, e.value.port))); }
      }
    } else {
      var entries := new Coord.Entry[|r.coordinators|](i requires 0 <= i < |r.coordinators| => r.coordinators[i]);
      assert entries[..] == r.coordinators;
      var _ := RewriteEntries(entries, m);
      r := r.(coordinators := entries[..]);
    }
    var bytes := EncodeCoordinator([], r);
    if FitsCoordinators(m, res.value) { ClientSeesSteeredCoordinator(m, body, version); }
    return Some(bytes);
  }

  // -------------------------------------------- observing subscriptions

  /** The parts of a JoinGroup request that matter; each protocol has a metadata blob. */
  datatype JoinGroup = JoinGroup(group: Bytes, memberId: Bytes, protocols: seq<Bytes>)

  /** Nobody in the store has the empty id, and topic names fit their length field. */
  ghost predicate Named(f: Subs.Flat)
  {
    forall id :: id in f ==> id.member != [] && forall t :: t in f[id].topics ==> FitsStr(t, false)
  }

  function Observed(join: Opt<JoinGroup>): Opt<Subs.Record>
  {
    if join.None? || join.value.protocols == [] || join.value.memberId == [] then None else
      match Proto.ReadSubscription(join.value.protocols[0], 0)
      case Bad(_) => None
      case Ok(s, _) =>
        var generation := if s.extras.generation.Some? then s.extras.generation.value else 0;
        Some(Subs.Record(join.value.group, join.value.memberId, s.topics, s.extras.owned, generation))
  }

  /** The member announces the subscription `s` with its first protocol. */
  ghost predicate Announces(join: Opt<JoinGroup>, s: Proto.Subscription)
  {
    && join.Some? && join.value.protocols != [] && join.value.memberId != []
    && Proto.FitsSubscription(s) && Proto.AppendSubscription([], s) <= join.value.protocols[0]
  }

  /** Between `before` and `after` the subscription `s` has been stored under its group and
      member, unless that is new and the store is full; nothing else has changed. */
  ghost predicate Recorded(before: Subs.Flat, after: Subs.Flat, max: int, group: Str, member: Str,
                           s: Proto.Subscription)
  {
    var id := Subs.Id(group, member);
    if id !in before && max > 0 && |before| >= max then after == before else
      && after.Keys == before.Keys + {id}
      && (forall other :: other in before && other != id ==> after[other] == before[other])
      && after[id].group == group && after[id].member == member
      && Subs.FirstOccurrences(s.topics, after[id].topics)
      && after[id].owned == s.extras.owned
      && after[id].generation == if s.extras.generation.Some? then s.extras.generation.value else 0
  }

  /** The first protocol of a member that has an id is recorded; `join` is none if the
      request does not decode. The request goes on untouched. */
  method OnJoinGroup(store: Subs.Store, join: Opt<JoinGroup>) returns (res: Opt<Intercept>)
    requires store.Valid() && Named(store.Records())
    modifies store
    ensures store.Valid() && Named(store.Records()) && res == None
    ensures match Observed(join)
            case None => store.Records() == old(store.Records())
            case Some(r) => store.Records() == Subs.FlatPut(old(store.Records()), store.max, r)
    ensures join.None? || join.value.protocols == [] || join.value.memberId == [] ==>
              store.Records() == old(store.Records())
    ensures forall s :: Announces(join, s) ==>
              Recorded(old(store.Records()), store.Records(), store.max, join.value.group, join.value.memberId, s)
  {
    hide Proto.ReadSubscription, Named, Subs.FlatPut, Announces, Recorded;
    ghost var before := store.Records();
    forall s | Announces(join, s)
      ensures Observed(join).Some?
      ensures Recorded(before, Subs.FlatPut(before, store.max, Observed(join).value), store.max,
                       join.value.group, join.value.memberId, s)
    {
      JoinRecords(before, store.max, join, s);
    }
    if join.None? || |join.value.protocols| == 0 || join.value.memberId == [] { return None; }
    var sub := DecodeSubscription(join.value.protocols[0]);
    if sub.Err? { return None; }
    var extras := sub.value.extras;
    var generation := if extras.generation.Some? then extras.generation.value else 0;
    var r := Subs.Record(join.value.group, join.value.memberId, sub.value.topics, extras.owned, generation);
    ObservedNamed(join);
    PutNamed(store.Records(), store.max, r);
    var _ := store.Put(r);
    return None;
  }

  /** Through the wire and into the store: whatever subscription a member announces is what
      the store then has of it. */
  lemma JoinRecords(before: Subs.Flat, max: int, join: Opt<JoinGroup>, s: Proto.Subscription)
    requires Announces(join, s)
    ensures Observed(join).Some?
    ensures var after := Subs.FlatPut(before, max, Observed(join).value);
            Recorded(before, after, max, join.value.group, join.value.memberId, s)
  {
    hide Proto.ReadSubscription, Proto.AppendSubscription, Proto.FitsSubscription;
    Proto.SubscriptionTrip([], s, join.value.protocols[0]);
    Subs.DedupIs(s.topics);
  }

  lemma ObservedNamed(join: Opt<JoinGroup>)
    requires Observed(join).Some?
    ensures Observed(join).value.member != []
    ensures forall t :: t in Observed(join).value.topics ==> FitsStr(t, false)
  {
    hide Proto.ReadSubscription;
    Proto.SubscriptionReads(join.value.protocols[0], 0);
  }

  lemma PutNamed(f: Subs.Flat, max: int, r: Subs.Record)
    requires Named(f) && r.member != [] && forall t :: t in r.topics ==> FitsStr(t, false)
    ensures Named(Subs.FlatPut(f, max, r))
  {
    Subs.DedupIs(r.topics);
  }

  // ------------------------------------------------- planning assignments

  /** What the store, telemetry and metadata say about the group at the time of the request:
      its records, the members' lag, and the partitions of each topic, if known. */
  datatype View = View(records: Subs.Flat, lag: map<Str, int>, snapshot: Opt<map<Str, seq<int>>>)

  function LagOf(view: View, member: Str): int
  {
    if member in view.lag then view.lag[member] else 0
  }

  /** The members with a known subscription, in the order of the slots. */
  function Members(group: Str, slots: seq<Sync.Slot>, view: View): seq<Member>
  {
    if slots == [] then [] else
      var front, id := Members(group, slots[..|slots| - 1], view), slots[|slots| - 1].memberId;
      match Subs.Find(view.records, Subs.Id(group, id))
      case Missing => front
      case Found(r) => front + [Member(id, r.topics, LagOf(view, id))]
  }

  predicate Wanted(members: seq<Member>, t: Str)
  {
    exists i :: 0 <= i < |members| && t in members[i].topics
  }

  /** The partitions to plan: those of the known topics that somebody subscribes to. */
  function Parts(members: seq<Member>, snapshot: Opt<map<Str, seq<int>>>): map<Str, seq<int>>
  {
    if snapshot.None? then map[] else
      map t | t in snapshot.value && snapshot.value[t] != [] && Wanted(members, t) :: snapshot.value[t]
  }

  /** The planner is called without a previous assignment. */
  function PlanInputs(sg: Sync.SyncGroup, view: View): Inputs
  {
    var members := Members(sg.sender.group, sg.slots, view);
    Inputs(members, Parts(members, view.snapshot), map[])
  }

  /** Only a leader's request about known members and topics is planned. */
  predicate Plannable(sg: Sync.SyncGroup, view: View)
  {
    sg.slots != [] && PlanInputs(sg, view).members != [] && PlanInputs(sg, view).partitions != map[]
  }

  /** `tps` lists the map in some order, each topic once. */
  ghost predicate Spells(byTopic: map<Str, seq<int>>, tps: seq<Proto.TopicPartitions>)
  {
    && (forall i :: 0 <= i < |tps| ==> tps[i].topic in byTopic && byTopic[tps[i].topic] == tps[i].partitions)
    && (forall i, j :: 0 <= i < j < |tps| ==> tps[i].topic != tps[j].topic)
    && (forall t :: t in byTopic ==> exists i :: 0 <= i < |tps| && tps[i].topic == t)
  }

  function AssignmentOf(tps: seq<Proto.TopicPartitions>): Proto.Assignment
  {
    Proto.Assignment(0, tps, None, None)
  }

  function Blob(tps: seq<Proto.TopicPartitions>): Bytes
  {
    Proto.AppendAssignment([], AssignmentOf(tps))
  }

  /** `blob` is an encoding of the map. */
  ghost predicate Encodes(byTopic: map<Str, seq<int>>, blob: Bytes)
  {
    exists tps :: Spells(byTopic, tps) && blob == Blob(tps)
  }

  /** One slot with a new blob, for that member's part of the plan. */
  ghost predicate FilledSlot(slot: Sync.Slot, out: Plan, tps: seq<Proto.TopicPartitions>, filled: Sync.Slot)
  {
    Spells(Topics(out, slot.memberId), tps) && filled == Sync.Slot(slot.memberId, Some(Blob(tps)))
  }

  /** The slots with new blobs in place of the leader's. */
  ghost predicate Filled(slots: seq<Sync.Slot>, out: Plan, lists: seq<seq<Proto.TopicPartitions>>,
                         filled: seq<Sync.Slot>)
  {
    && |lists| == |slots| == |filled|
    && forall i :: 0 <= i < |slots| ==> FilledSlot(slots[i], out, lists[i], filled[i])
  }

  /** `payload` is the rewritten request for the plan that the run `tr` arrives at. */
  ghost predicate PlannedAs(sg: Sync.SyncGroup, view: View, tr: Trace, lists: seq<seq<Proto.TopicPartitions>>,
                            filled: seq<Sync.Slot>, payload: Bytes)
  {
    var c := Index(PlanInputs(sg, view));
    && Run(c, tr) && Filled(sg.slots, Final(c, tr), lists, filled)
    && payload == Sync.AppendSyncGroup([], sg.(slots := filled))
  }

  /** `payload` is the rewritten request for a plan that the planner may compute. */
  ghost predicate Planned(sg: Sync.SyncGroup, view: View, payload: Bytes)
  {
    exists tr, lists, filled :: PlannedAs(sg, view, tr, lists, filled, payload)
  }

  method CollectMembers(store: Subs.Store, group: Str, slots: seq<Sync.Slot>, view: View) returns (members: seq<Member>)
    requires view.records == store.Records()
    ensures members == Members(group, slots, view)
  {
    members := [];
    for i := 0 to |slots|
      invariant members == Members(group, slots[..i], view)
    {
      assert slots[..i + 1][..i] == slots[..i];
      var id := slots[i].memberId;
      var sub := store.Get(group, id);
      if sub.Missing? { continue; }
      var lag := if id in view.lag then view.lag[id] else 0;
      members := members + [Member(id, sub.record.topics, lag)];
    }
    assert slots[..|slots|] == slots;
  }

  /** `t` is wanted by one of the first `i` members, or among the first `j` topics of the next. */
  predicate WantedBy(members: seq<Member>, i: nat, j: nat, t: Str)
    requires i <= |members| && (i < |members| ==> j <= |members[i].topics|)
  {
    Wanted(members[..i], t) || (i < |members| && t in members[i].topics[..j])
  }

  method CollectParts(members: seq<Member>, snap: map<Str, seq<int>>) returns (parts: map<Str, seq<int>>)
    ensures parts == Parts(members, Some(snap))
  {
    parts := map[];
    for i := 0 to |members|
      invariant parts == Parts(members[..i], Some(snap))
    {
      var topics := members[i].topics;
      for j := 0 to |topics|
        invariant parts == map t | t in snap && snap[t] != [] && WantedBy(members, i, j, t) :: snap[t]
      {
        var t := topics[j];
        assert topics[..j + 1] == topics[..j] + [t];
        if t in parts { continue; }
        if t in snap && |snap[t]| > 0 { parts := parts[t := snap[t]]; }
      }
      WantedNext(members, i);
    }
    assert members[..|members|] == members;
  }

  lemma WantedNext(members: seq<Member>, i: nat)
    requires i < |members|
    ensures forall t :: WantedBy(members, i, |members[i].topics|, t) <==> Wanted(members[..i + 1], t)
  {
    var topics := members[i].topics;
    assert topics[..|topics|] == topics;
    forall t ensures WantedBy(members, i, |topics|, t) <==> Wanted(members[..i + 1], t) {
      if t in topics { assert t in members[..i + 1][i].topics; }
      if Wanted(members[..i], t) {
        var k :| 0 <= k < i && t in members[..i][k].topics;
        assert t in members[..i + 1][k].topics;
      }
      if Wanted(members[..i + 1], t) {
        var k :| 0 <= k < i + 1 && t in members[..i + 1][k].topics;
        assert k < i ==> t in members[..i][k].topics;
      }
    }
  }

  /** Encode one member's assignment; the map is visited in any order. */
  method EncodePlan(byTopic: map<Str, seq<int>>) returns (blob: Bytes, ghost tps: seq<Proto.TopicPartitions>)
    ensures Encodes(byTopic, blob)
    ensures Spells(byTopic, tps) && blob == Blob(tps)
  {
    hide Proto.AppendAssignment;
    var out: seq<Proto.TopicPartitions> := [];
    var todo := byTopic.Keys;
    while todo != {}
      invariant todo <= byTopic.Keys
      invariant forall i :: 0 <= i < |out| ==>
                  out[i].topic in byTopic.Keys - todo && byTopic[out[i].topic] == out[i].partitions
      invariant forall i, j :: 0 <= i < j < |out| ==> out[i].topic != out[j].topic
      invariant forall t :: t in byTopic.Keys - todo ==> exists i :: 0 <= i < |out| && out[i].topic == t
      decreases todo
    {
      var t := AnyOf(todo);
      ghost var before, left := out, todo;
      out := out + [Proto.TopicPartitions(t, byTopic[t])];
      todo := todo - {t};
      forall u | u in byTopic.Keys - todo ensures exists i :: 0 <= i < |out| && out[i].topic == u {
        if u == t {
          assert out[|before|].topic == u;
        } else {
          assert u in byTopic.Keys - left;
          var i :| 0 <= i < |before| && before[i].topic == u;
          assert out[i].topic == u;
        }
      }
    }
    assert byTopic.Keys - todo == byTopic.Keys;
    tps := out;
    blob := EncodeAssignment([], Proto.Assignment(0, out, None, None));
    assert Spells(byTopic, tps) && blob == Blob(tps);
  }

  method FillSlots(slots: seq<Sync.Slot>, out: Plan)
      returns (filled: seq<Sync.Slot>, ghost lists: seq<seq<Proto.TopicPartitions>>)
    ensures Filled(slots, out, lists, filled)
  {
    hide Spells, Blob;
    filled, lists := [], [];
    for i := 0 to |slots|
      invariant Filled(slots[..i], out, lists, filled)
    {
      var id := slots[i].memberId;
      var mine := if id in out then out[id] else map[];
      var blob, tps := EncodePlan(mine);
      filled := filled + [Sync.Slot(id, Some(blob))];
      lists := lists + [tps];
    }
    assert slots[..|slots|] == slots;
  }

  /** A leader's SyncGroup is rewritten exactly when it decodes, its members and topics are
      known and the planner answers (`planner`: there is one, and it does so in time). The
      response is not touched. Everything else passes through. */
  method OnSyncGroup(store: Subs.Store, lag: map<Str, int>, snapshot: Opt<map<Str, seq<int>>>, planner: bool,
                     version: int, body: Bytes)
    returns (res: Opt<Intercept>)
    ensures var sg, view := Sync.ReadSyncGroup(body, 0, version), View(store.Records(), lag, snapshot);
            if planner && sg.Ok? && Plannable(sg.v, view) then
              res.Some? && res.value.hook == NoRewrite && res.value.payload.Some?
                  && Planned(sg.v, view, res.value.payload.value)
            else res == None
  {
    if !planner { return None; }
    var dec := DecodeSyncGroup(body, version);
    if dec.Err? { return None; }
    var sg := dec.value;
    if |sg.slots| == 0 { return None; }
    ghost var view := View(store.Records(), lag, snapshot);
    var members := CollectMembers(store, sg.sender.group, sg.slots, View(store.Records(), lag, snapshot));
    if |members| == 0 { return None; }
    var parts: map<Str, seq<int>> := map[];
    if snapshot.Some? { parts := CollectParts(members, snapshot.value); }
    if |parts| == 0 { return None; }
    assert PlanInputs(sg, view) == Inputs(members, parts, map[]);
    var out := Compute(Inputs(members, parts, map[]));
    var slots, lists := FillSlots(sg.slots, out);
    var payload := EncodeSyncGroup([], sg.(slots := slots));
    PlansPayload(sg, view, out, lists, slots, payload);
    return Some(Intercept(NoRewrite, Some(payload)));
  }

  lemma PlansPayload(sg: Sync.SyncGroup, view: View, out: Plan, lists: seq<seq<Proto.TopicPartitions>>,
                     filled: seq<Sync.Slot>, payload: Bytes)
    requires Possible(Index(PlanInputs(sg, view)), out) && Filled(sg.slots, out, lists, filled)
    requires payload == Sync.AppendSyncGroup([], sg.(slots := filled))
    ensures Planned(sg, view, payload)
  {
    hide Run, Filled, Sync.AppendSyncGroup, Index, PlanInputs;
    var c := Index(PlanInputs(sg, view));
    var tr :| Run(c, tr) && out == Final(c, tr);
    assert PlannedAs(sg, view, tr, lists, filled, payload);
  }

  /** Dispatch by API key; `join` is what the body decodes to as a JoinGroup request. Only
      Metadata and FindCoordinator get their responses rewritten, only SyncGroup gets a new
      payload, and only JoinGroup touches the store. */
  method OnRequest(h: RequestHeader, body: Bytes, m: Mapping, store: Subs.Store, join: Opt<JoinGroup>,
                   lag: map<Str, int>, snapshot: Opt<map<Str, seq<int>>>, planner: bool)
    returns (res: Opt<Intercept>)
    requires store.Valid() && Named(store.Records())
    modifies store
    ensures store.Valid() && Named(store.Records())
            && (h.apiKey != JOIN_GROUP ==> store.Records() == old(store.Records()))
    ensures res.Some? && res.value.hook.Rewrite? <==> h.apiKey in {METADATA, FIND_COORDINATOR} && m.byNode != map[]
    ensures res.Some? && res.value.hook.Rewrite? ==>
              (res.value.hook.rewriter == MetadataRewriter <==> h.apiKey == METADATA) && res.value.payload == None
    ensures res.Some? && res.value.payload.Some? ==> h.apiKey == SYNC_GROUP
    ensures h.apiKey == SYNC_GROUP ==>
              var sg, view := Sync.ReadSyncGroup(body, 0, h.version), View(store.Records(), lag, snapshot);
              if planner && sg.Ok? && Plannable(sg.v, view) then
                res.Some? && res.value.payload.Some? && Planned(sg.v, view, res.value.payload.value)
              else res == None
  {
    if h.apiKey == METADATA {
      res := OnMetadata(m);
    } else if h.apiKey == FIND_COORDINATOR {
      res := OnFindCoordinator(m);
    } else if h.apiKey == JOIN_GROUP {
      res := OnJoinGroup(store, join);
    } else if h.apiKey == SYNC_GROUP {
      res := OnSyncGroup(store, lag, snapshot, planner, h.version, body);
    } else {
      res := None;
    }
  }
}
