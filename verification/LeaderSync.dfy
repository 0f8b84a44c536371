/** End to end: what the broker decodes from a leader's SyncGroup after the proxy has put its
    own plan into it. */
module LeaderSync {
  import opened Ordering
  import opened Wire
  import opened Header
  import opened Connection
  import opened PlanSpec
  import opened PlanConservation
  import opened PlanSteal
  import opened Interceptor
  import opened PlanView
  import Tracker
  import Sync = SyncGroupMessage
  import Proto = ConsumerProtocol
  import Subs = Subscriptions
  import Cache = MetadataCache

  // ---------------------------------------------- counting in assignments

  function CountIn(tps: seq<Proto.TopicPartitions>, t: Str, p: int): nat
  {
    if tps == [] then 0 else
      var last := tps[|tps| - 1];
      CountIn(tps[..|tps| - 1], t, p) + if last.topic == t then multiset(last.partitions)[p] else 0
  }

  predicate Mentions(tps: seq<Proto.TopicPartitions>, n: nat, t: Str)
    requires n <= |tps|
  {
    exists i :: 0 <= i < n && tps[i].topic == t
  }

  lemma {:induction false} SpellsCountAt(byTopic: map<Str, seq<int>>, tps: seq<Proto.TopicPartitions>, n: nat,
      t: Str, p: int)
    requires Spells(byTopic, tps) && n <= |tps|
    ensures CountIn(tps[..n], t, p) == if Mentions(tps, n, t) then multiset(byTopic[t])[p] else 0
  {
    if n > 0 {
      SpellsCountAt(byTopic, tps, n - 1, t, p);
      assert tps[..n][..n - 1] == tps[..n - 1];
      if tps[n - 1].topic == t {
        assert Mentions(tps, n, t) && !Mentions(tps, n - 1, t);
      } else {
        assert Mentions(tps, n, t) <==> Mentions(tps, n - 1, t);
      }
    }
  }

  /** An assignment holds what the plan's lists hold, however they are ordered. */
  lemma SpellsCount(out: Plan, m: Str, tps: seq<Proto.TopicPartitions>, t: Str, p: int)
    requires Spells(Topics(out, m), tps)
    ensures CountIn(tps, t, p) == multiset(List(out, m, t))[p]
  {
    SpellsCountAt(Topics(out, m), tps, |tps|, t, p);
    assert tps[..|tps|] == tps;
  }

  // --------------------------------------------------- everything fits

  lemma DistinctInto<T(!new)>(a: seq<T>, b: seq<T>)
    requires Distinct(a) && forall x :: x in a ==> x in b
    ensures |a| <= |b|
  {
    forall x ensures multiset(a)[x] <= multiset(b)[x] {
      if x in a {
        DistinctCounts(a, x);
        assert x in multiset(b);
      } else {
        assert x !in multiset(a);
      }
    }
    assert multiset(b) == multiset(a) + (multiset(b) - multiset(a));
  }

  lemma {:induction false} DistinctIntoSet<T(!new)>(a: seq<T>, s: set<T>)
    requires Distinct(a) && forall x :: x in a ==> x in s
    ensures |a| <= |s|
  {
    if a != [] {
      var n := |a| - 1;
      assert a[n] in a;
      forall x | x in a[..n] ensures x in s - {a[n]} { }
      DistinctIntoSet(a[..n], s - {a[n]});
    }
  }

  /** What the metadata says about topics fits the arrays and strings of an assignment. */
  ghost predicate WireSized(parts: map<Str, seq<int>>)
  {
    && FitsLen(|parts|, false)
    && forall t :: t in parts ==> FitsStr(t, false) && FitsArr(Int32Codec(), parts[t], false)
  }

  /** In a tidy plan over such topics, one member's assignment fits. */
  lemma AssignmentFits(c: Ctx, out: Plan, m: Str, tps: seq<Proto.TopicPartitions>)
    requires Tidy(c, out) && WireSized(c.parts) && Spells(Topics(out, m), tps)
    ensures Proto.FitsAssignment(AssignmentOf(tps))
  {
    var topics := seq(|tps|, i requires 0 <= i < |tps| => tps[i].topic);
    forall i | 0 <= i < |tps| ensures tps[i].topic in c.parts.Keys && Proto.FitsTopicPartitions(tps[i]) {
      ListFits(c, out, m, tps[i].topic);
    }
    DistinctIntoSet(topics, c.parts.Keys);
    assert |c.parts.Keys| == |c.parts|;
    forall tp | tp in tps ensures Proto.TopicPartitionsCodec().fits(tp) {
      var i :| 0 <= i < |tps| && tps[i] == tp;
    }
  }

  lemma ListFits(c: Ctx, out: Plan, m: Str, t: Str)
    requires Tidy(c, out) && WireSized(c.parts) && t in Topics(out, m)
    ensures t in c.parts && FitsStr(t, false) && FitsArr(Int32Codec(), List(out, m, t), false)
  {
    var l := List(out, m, t);
    assert Fit(c, m, t, l) && l != [];
    assert l[0] in l && Key(t, l[0]) in Listed(c);
    forall p | p in l ensures p in c.parts[t] { assert Key(t, p) in Listed(c); }
    DistinctInto(l, c.parts[t]);
  }

  lemma PlannedName(sg: Sync.SyncGroup, view: View, t: Str)
    requires Named(view.records) && t in PlanInputs(sg, view).partitions
    ensures FitsStr(t, false)
  {
    var p := PlanInputs(sg, view).partitions[t][0];
    DueIff(sg, view, t, p);
    assert Due(sg, view, t, p);
    var i: nat :| OnRecord(sg, view, i) && t in TopicsOn(sg, view, i);
  }

  /** With names from the store and lists from a countable snapshot, everything fits. */
  lemma PartsFit(sg: Sync.SyncGroup, view: View)
    requires Named(view.records) && view.snapshot.Some? && Cache.Countable(view.snapshot.value)
    ensures WireSized(PlanInputs(sg, view).partitions)
  {
    hide Members, Named, Wanted, FitsStr, FitsArr;
    var parts, snap := PlanInputs(sg, view).partitions, view.snapshot.value;
    forall t | t in parts ensures FitsStr(t, false) && FitsArr(Int32Codec(), parts[t], false) {
      PlannedName(sg, view, t);
      assert parts[t] == snap[t];
    }
    FewerKeys(parts, snap);
  }

  lemma FewerKeys(a: map<Str, seq<int>>, b: map<Str, seq<int>>)
    requires a.Keys <= b.Keys
    ensures |a| <= |b|
  {
    assert b.Keys == a.Keys + (b.Keys - a.Keys);
    assert |a.Keys| == |a| && |b.Keys| == |b|;
  }

  // --------------------------------------------------------- the members

  function SlotIds(slots: seq<Sync.Slot>): (r: seq<Str>)
    ensures |r| == |slots| && forall i :: 0 <= i < |r| ==> r[i] == slots[i].memberId
  {
    seq(|slots|, i requires 0 <= i < |slots| => slots[i].memberId)
  }

  /** The planner's subscribers are the slots' members with a record for the topic. */
  lemma SubscriberIs(sg: Sync.SyncGroup, view: View, t: Str, id: Str)
    requires id in SubsOf(Index(PlanInputs(sg, view)), t)
    ensures id in SlotIds(sg.slots)
    ensures var key := Subs.Id(sg.sender.group, id); key in view.records && t in view.records[key].topics
  {
    IndexedAre(sg, view);
    var i: nat :| OnRecord(sg, view, i) && sg.slots[i].memberId == id;
    assert SlotIds(sg.slots)[i] == id;
  }

  /** Every planned topic has a subscriber with a proper id. */
  lemma PlannedTakeable(sg: Sync.SyncGroup, view: View, t: Str)
    requires Named(view.records) && t in PlanInputs(sg, view).partitions
    ensures Takeable(Index(PlanInputs(sg, view)), t)
  {
    var p := PlanInputs(sg, view).partitions[t][0];
    DueIff(sg, view, t, p);
    assert Due(sg, view, t, p);
    var i: nat :| OnRecord(sg, view, i) && t in TopicsOn(sg, view, i);
    IndexedAre(sg, view);
    assert sg.slots[i].memberId in SubsOf(Index(PlanInputs(sg, view)), t);
  }

  // -------------------------------------------------------- the plan itself

  /** The plan that goes into the slots is tidy and covers what is listed. */
  lemma PlanTidy(sg: Sync.SyncGroup, view: View, tr: Trace)
    requires Named(view.records) && Run(Index(PlanInputs(sg, view)), tr)
    ensures var c := Index(PlanInputs(sg, view));
            && Tidy(c, Final(c, tr))
            && forall t, p :: Owned(Final(c, tr), t, p) <==> Key(t, p) in Listed(c)
  {
    var c := Index(PlanInputs(sg, view));
    var out := Final(c, tr);
    NoPreviousKept(c);
    ExactlyOnce(c, tr);
    FinalSound(c, tr);
    OnceTidy(c, out);
    forall t, p ensures Owned(out, t, p) <==> Key(t, p) in Listed(c) {
      TidyOcc(c, out, t, p);
      if Key(t, p) in Listed(c) { PlannedTakeable(sg, view, t); }
    }
  }

  lemma NoPreviousKept(c: Ctx)
    requires c.prev == map[]
    ensures Retained(c) == {}
  {
  }

  // --------------------------------------------------------- what is sent

  /** How many times (t, p) occurs in the first `n` lists. */
  function CountAll(lists: seq<seq<Proto.TopicPartitions>>, n: nat, t: Str, p: int): nat
    requires n <= |lists|
  {
    if n == 0 then 0 else CountAll(lists, n - 1, t, p) + CountIn(lists[n - 1], t, p)
  }

  /** The list of member `m` holds (t, p) once if `m` is the owner, and otherwise not. */
  ghost predicate OnlyOwner(tps: seq<Proto.TopicPartitions>, owner: Str, m: Str, t: Str, p: int)
  {
    CountIn(tps, t, p) == if m == owner then 1 else 0
  }

  /** How many of the first `n` ids are `x`. */
  function Times(ids: seq<Str>, n: nat, x: Str): nat
    requires n <= |ids|
  {
    if n == 0 then 0 else Times(ids, n - 1, x) + if ids[n - 1] == x then 1 else 0
  }

  /** A partition occurs once for every slot that names its owner. */
  lemma {:induction false} CountOwner(ids: seq<Str>, lists: seq<seq<Proto.TopicPartitions>>, n: nat, owner: Str,
                                      t: Str, p: int)
    requires |lists| == |ids| && n <= |ids| && forall i :: 0 <= i < |ids| ==> OnlyOwner(lists[i], owner, ids[i], t, p)
    ensures CountAll(lists, n, t, p) == Times(ids, n, owner)
  {
    if n > 0 {
      CountOwner(ids, lists, n - 1, owner, t, p);
      assert OnlyOwner(lists[n - 1], owner, ids[n - 1], t, p);
    }
  }

  lemma CountSlot(out: Plan, slot: Sync.Slot, tps: seq<Proto.TopicPartitions>, filled: Sync.Slot, t: Str, p: int)
    requires FilledSlot(slot, out, tps, filled)
    ensures CountIn(tps, t, p) == multiset(List(out, slot.memberId, t))[p]
  {
    SpellsCount(out, slot.memberId, tps, t, p);
  }

  lemma {:induction false} TimesIs(ids: seq<Str>, n: nat, x: Str)
    requires n <= |ids|
    ensures Times(ids, n, x) == multiset(ids[..n])[x]
  {
    if n > 0 {
      TimesIs(ids, n - 1, x);
      assert ids[..n] == ids[..n - 1] + [ids[n - 1]];
    }
  }

  lemma CountHeld(c: Ctx, out: Plan, slot: Sync.Slot, tps: seq<Proto.TopicPartitions>, filled: Sync.Slot,
                  owner: Str, t: Str, p: int)
    requires Tidy(c, out) && Holds(out, owner, t, p) && FilledSlot(slot, out, tps, filled)
    ensures OnlyOwner(tps, owner, slot.memberId, t, p)
  {
    var m := slot.memberId;
    CountSlot(out, slot, tps, filled, t, p);
    assert Fit(c, m, t, List(out, m, t));
    if m == owner { DistinctCounts(List(out, m, t), p); } else { assert !Holds(out, m, t, p); }
  }

  lemma {:induction false} CountNone(out: Plan, slots: seq<Sync.Slot>, lists: seq<seq<Proto.TopicPartitions>>,
                                     filled: seq<Sync.Slot>, n: nat, t: Str, p: int)
    requires Filled(slots, out, lists, filled) && n <= |slots| && !Owned(out, t, p)
    ensures CountAll(lists, n, t, p) == 0
  {
    if n > 0 {
      CountNone(out, slots, lists, filled, n - 1, t, p);
      CountSlot(out, slots[n - 1], lists[n - 1], filled[n - 1], t, p);
      assert !Holds(out, slots[n - 1].memberId, t, p);
    }
  }

  /** Every planned partition is sent once per slot of its owner; with distinct member ids,
      exactly once. */
  lemma OwnedSent(c: Ctx, out: Plan, slots: seq<Sync.Slot>, lists: seq<seq<Proto.TopicPartitions>>,
                  filled: seq<Sync.Slot>, owner: Str, t: Str, p: int)
    requires Tidy(c, out) && Filled(slots, out, lists, filled) && Holds(out, owner, t, p) && owner in SlotIds(slots)
    ensures CountAll(lists, |lists|, t, p) >= 1 && (Distinct(SlotIds(slots)) ==> CountAll(lists, |lists|, t, p) == 1)
  {
    var ids := SlotIds(slots);
    forall i | 0 <= i < |ids| ensures OnlyOwner(lists[i], owner, ids[i], t, p) {
      CountHeld(c, out, slots[i], lists[i], filled[i], owner, t, p);
    }
    CountOwner(ids, lists, |ids|, owner, t, p);
    OwnerTimes(ids, owner);
  }

  lemma OwnerTimes(ids: seq<Str>, owner: Str)
    requires owner in ids
    ensures Times(ids, |ids|, owner) >= 1 && (Distinct(ids) ==> Times(ids, |ids|, owner) == 1)
  {
    assert ids[..|ids|] == ids;
    TimesIs(ids, |ids|, owner);
    assert owner in multiset(ids);
    if Distinct(ids) { DistinctCounts(ids, owner); }
  }

  lemma OwnerHasSlot(sg: Sync.SyncGroup, view: View, out: Plan, owner: Str, t: Str, p: int)
    requires Tidy(Index(PlanInputs(sg, view)), out) && Holds(out, owner, t, p)
    ensures owner in SlotIds(sg.slots)
  {
    var c := Index(PlanInputs(sg, view));
    assert Fit(c, owner, t, List(out, owner, t));
    SubscriberIs(sg, view, t, owner);
  }

  /** Conservation end to end: the blobs together hold every planned partition, and nothing
      else; with distinct member ids they hold it exactly once. */
  lemma Coverage(sg: Sync.SyncGroup, view: View, tr: Trace, lists: seq<seq<Proto.TopicPartitions>>,
                 filled: seq<Sync.Slot>, payload: Bytes, t: Str, p: int)
    requires Named(view.records) && PlannedAs(sg, view, tr, lists, filled, payload)
    ensures var sent := CountAll(lists, |lists|, t, p);
            if Due(sg, view, t, p) then sent >= 1 && (Distinct(SlotIds(sg.slots)) ==> sent == 1) else sent == 0
  {
    DueIff(sg, view, t, p);
    var c := Index(PlanInputs(sg, view));
    var out := Final(c, tr);
    PlanTidy(sg, view, tr);
    assert Owned(out, t, p) <==> Key(t, p) in Listed(c);
    if Owned(out, t, p) {
      var owner :| Holds(out, owner, t, p);
      OwnerHasSlot(sg, view, out, owner, t, p);
      OwnedSent(c, out, sg.slots, lists, filled, owner, t, p);
    } else {
      CountNone(out, sg.slots, lists, filled, |sg.slots|, t, p);
    }
  }

  /** What is in a member's assignment is a topic of its own subscription. */
  lemma OnlySubscribed(sg: Sync.SyncGroup, view: View, tr: Trace, lists: seq<seq<Proto.TopicPartitions>>,
                       filled: seq<Sync.Slot>, payload: Bytes, i: nat, t: Str, p: int)
    requires PlannedAs(sg, view, tr, lists, filled, payload) && i < |lists| && CountIn(lists[i], t, p) > 0
    ensures var key := Subs.Id(sg.sender.group, sg.slots[i].memberId);
            key in view.records && t in view.records[key].topics
  {
    var c := Index(PlanInputs(sg, view));
    var out, m := Final(c, tr), sg.slots[i].memberId;
    CountSlot(out, sg.slots[i], lists[i], filled[i], t, p);
    FinalSound(c, tr);
    assert Holds(out, m, t, p);
    SubscriberIs(sg, view, t, m);
  }

  /** The blobs fit the length fields of the request. */
  ghost predicate BlobsFit(filled: seq<Sync.Slot>, version: int)
  {
    forall i :: 0 <= i < |filled| ==> FitsOptBytes(filled[i].blob, Sync.Flex(version))
  }

  // ------------------------------------- a blob is no longer than the request

  lemma SlotLength(dst: Bytes, s: Sync.Slot, flex: bool)
    requires s.blob.Some?
    ensures |Sync.AppendSlot(dst, s, flex)| >= |dst| + |s.blob.value|
  {
    var d1 := AppendStr(dst, s.memberId, flex);
    if flex {
      UvarintExtends(dst, (|s.memberId| + 1) % 0x1_0000_0000);
      UvarintExtends(d1, (|s.blob.value| + 1) % 0x1_0000_0000);
    }
  }

  lemma {:induction false} SlotsLength(dst: Bytes, slots: seq<Sync.Slot>, flex: bool, i: nat)
    requires i < |slots| && forall s :: s in slots ==> s.blob.Some?
    ensures |AppendN(Sync.SlotCodec(flex), dst, slots)| >= |dst| + |slots[i].blob.value|
  {
    hide Sync.AppendSlot;
    var n := |slots| - 1;
    assert slots[n] in slots;
    var mid := AppendN(Sync.SlotCodec(flex), dst, slots[..n]);
    SlotLength(mid, slots[n], flex);
    if i < n {
      SlotsLength(dst, slots[..n], flex, i);
    } else if n > 0 {
      SlotsLength(dst, slots[..n], flex, 0);
    }
  }

  /** The blobs of a request that is no longer than an int32 can say fit their fields. */
  lemma ShortPayload(sg: Sync.SyncGroup)
    requires |Sync.AppendSyncGroup([], sg)| <= MAX_BYTES && forall s :: s in sg.slots ==> s.blob.Some?
    ensures BlobsFit(sg.slots, sg.version)
  {
    var flex := Sync.Flex(sg.version);
    var front := AppendArrLen(Sync.AppendSender([], sg.sender, sg.version, flex), |sg.slots|, flex);
    forall i: nat | i < |sg.slots| ensures FitsOptBytes(sg.slots[i].blob, flex) {
      SlotsLength(front, sg.slots, flex, i);
    }
  }

  lemma FilledFits(sg: Sync.SyncGroup, filled: seq<Sync.Slot>)
    requires Sync.FitsSyncGroup(sg) && |filled| == |sg.slots| && BlobsFit(filled, sg.version)
    requires forall i :: 0 <= i < |filled| ==> filled[i].memberId == sg.slots[i].memberId
    ensures Sync.FitsSyncGroup(sg.(slots := filled))
  {
    var flex := Sync.Flex(sg.version);
    var c := Sync.SlotCodec(flex);
    forall x | x in filled ensures c.fits(x) {
      var i :| 0 <= i < |filled| && filled[i] == x;
      assert sg.slots[i] in sg.slots && c.fits(sg.slots[i]);
    }
  }

  /** The blob of every slot decodes to that slot's list. */
  lemma BlobDecodes(sg: Sync.SyncGroup, view: View, tr: Trace, lists: seq<seq<Proto.TopicPartitions>>,
                    filled: seq<Sync.Slot>, payload: Bytes, i: nat)
    requires Named(view.records) && PlannedAs(sg, view, tr, lists, filled, payload) && i < |lists|
    requires WireSized(PlanInputs(sg, view).partitions)
    ensures filled[i].blob.Some?
    ensures Proto.ReadAssignment(filled[i].blob.value, 0) ==
              Ok(Proto.Assignment(0, lists[i], None, None), |filled[i].blob.value|)
  {
    var c := Index(PlanInputs(sg, view));
    PlanTidy(sg, view, tr);
    AssignmentFits(c, Final(c, tr), sg.slots[i].memberId, lists[i]);
    Proto.AssignmentTrip([], AssignmentOf(lists[i]), Blob(lists[i]));
  }

  /** The frame that goes to the broker when the interceptor replaces the payload. */
  function Forwarded(frame: Bytes, sent: int, payload: Bytes): Bytes
    requires ReadRequestHeader(frame).Ok?
  {
    OutFrame(Request(frame, Some(Intercept(Tracker.NoRewrite, Some(payload))), sent))
  }

  lemma ForwardedParts(frame: Bytes, sent: int, payload: Bytes)
    requires ReadRequestHeader(frame).Ok?
    ensures var k, out := ReadRequestHeader(frame).off, Forwarded(frame, sent, payload);
            ReadRequestHeader(out) == ReadRequestHeader(frame) && k <= |out| && out[k..] == payload
  {
    OutFrameHeader(Request(frame, Some(Intercept(Tracker.NoRewrite, Some(payload))), sent));
  }

  lemma PayloadDecodes(body: Bytes, version: int, filled: seq<Sync.Slot>)
    requires Sync.ReadSyncGroup(body, 0, version).Ok? && BlobsFit(filled, version)
    requires var sg := Sync.ReadSyncGroup(body, 0, version).v; SlotIds(filled) == SlotIds(sg.slots)
    ensures var sg := Sync.ReadSyncGroup(body, 0, version).v.(slots := filled);
            Sync.ReadSyncGroup(Sync.AppendSyncGroup([], sg), 0, version) == Ok(sg, |Sync.AppendSyncGroup([], sg)|)
  {
    var sg := Sync.ReadSyncGroup(body, 0, version).v;
    Sync.SyncGroupReads(body, 0, version);
    assert forall i :: 0 <= i < |filled| ==> filled[i].memberId == SlotIds(filled)[i] == SlotIds(sg.slots)[i];
    FilledFits(sg, filled);
    Sync.SyncGroupTrip([], sg.(slots := filled), Sync.AppendSyncGroup([], sg.(slots := filled)));
  }

  lemma FilledIds(slots: seq<Sync.Slot>, out: Plan, lists: seq<seq<Proto.TopicPartitions>>, filled: seq<Sync.Slot>)
    requires Filled(slots, out, lists, filled)
    ensures SlotIds(filled) == SlotIds(slots)
  {
    forall i | 0 <= i < |slots| ensures filled[i].memberId == slots[i].memberId {
      assert FilledSlot(slots[i], out, lists[i], filled[i]);
    }
  }

  /** What the broker decodes from the forwarded frame of a rewritten request: the header
      and the sender's fields as the leader sent them, the same members in the same order,
      and behind them the new blobs, with nothing left over. */
  lemma BrokerDecodes(frame: Bytes, sent: int, sg: Sync.SyncGroup, view: View, tr: Trace,
                      lists: seq<seq<Proto.TopicPartitions>>, filled: seq<Sync.Slot>, payload: Bytes)
    requires ReadRequestHeader(frame).Ok?
    requires var h := ReadRequestHeader(frame);
             Sync.ReadSyncGroup(frame[h.off..], 0, h.v.version).Ok?
                 && sg == Sync.ReadSyncGroup(frame[h.off..], 0, h.v.version).v
    requires PlannedAs(sg, view, tr, lists, filled, payload) && BlobsFit(filled, ReadRequestHeader(frame).v.version)
    ensures var h, out := ReadRequestHeader(frame), Forwarded(frame, sent, payload);
            && ReadRequestHeader(out) == h && h.off <= |out|
            && Sync.ReadSyncGroup(out[h.off..], 0, h.v.version) == Ok(sg.(slots := filled), |out| - h.off)
            && SlotIds(filled) == SlotIds(sg.slots)
  {
    var h := ReadRequestHeader(frame);
    ForwardedParts(frame, sent, payload);
    FilledIds(sg.slots, Final(Index(PlanInputs(sg, view)), tr), lists, filled);
    PayloadDecodes(frame[h.off..], h.v.version, filled);
  }

  /** What a member finds in the blob of its slot. */
  function Received(slot: Sync.Slot): seq<Proto.TopicPartitions>
  {
    if slot.blob.None? then [] else
      match Proto.ReadAssignment(slot.blob.value, 0)
      case Ok(a, _) => a.partitions
      case Bad(_) => []
  }

  /** How many times (t, p) is received in the first `n` slots. */
  function ReceivedTimes(slots: seq<Sync.Slot>, n: nat, t: Str, p: int): nat
    requires n <= |slots|
  {
    if n == 0 then 0 else ReceivedTimes(slots, n - 1, t, p) + CountIn(Received(slots[n - 1]), t, p)
  }

  lemma {:induction false} ReceivedAsSent(lists: seq<seq<Proto.TopicPartitions>>, slots: seq<Sync.Slot>, n: nat,
      t: Str, p: int)
    requires |lists| == |slots| && n <= |slots| && forall i :: 0 <= i < |slots| ==> Received(slots[i]) == lists[i]
    ensures ReceivedTimes(slots, n, t, p) == CountAll(lists, n, t, p)
  {
    if n > 0 { ReceivedAsSent(lists, slots, n - 1, t, p); }
  }

  /** What the members receive of the rewritten slots together. */
  lemma ReceivedCoverage(sg: Sync.SyncGroup, view: View, tr: Trace, lists: seq<seq<Proto.TopicPartitions>>,
                         filled: seq<Sync.Slot>, payload: Bytes, t: Str, p: int)
    requires PlannedAs(sg, view, tr, lists, filled, payload) && Named(view.records)
    requires WireSized(PlanInputs(sg, view).partitions) && Distinct(SlotIds(sg.slots))
    ensures ReceivedTimes(filled, |filled|, t, p) == if Due(sg, view, t, p) then 1 else 0
  {
    hide Index, Final, Run, Proto.ReadAssignment, Spells, Blob, Sync.AppendSyncGroup, CountIn, PlanInputs, FilledSlot;
    forall i: nat | i < |filled| ensures Received(filled[i]) == lists[i] {
      BlobDecodes(sg, view, tr, lists, filled, payload, i);
    }
    ReceivedAsSent(lists, filled, |filled|, t, p);
    Coverage(sg, view, tr, lists, filled, payload, t, p);
  }

  lemma PlannedFits(sg: Sync.SyncGroup, out: Plan, lists: seq<seq<Proto.TopicPartitions>>, filled: seq<Sync.Slot>)
    requires Filled(sg.slots, out, lists, filled) && |Sync.AppendSyncGroup([], sg.(slots := filled))| <= MAX_BYTES
    ensures BlobsFit(filled, sg.version)
  {
    hide Sync.AppendSyncGroup, Spells, Blob;
    forall s | s in filled ensures s.blob.Some? {
      var i :| 0 <= i < |filled| && filled[i] == s;
      assert FilledSlot(sg.slots[i], out, lists[i], filled[i]);
    }
    ShortPayload(sg.(slots := filled));
  }

  /** What the broker makes of `out`, the forwarded form of `frame`: the leader's header and
      sender, the same members in order, and nothing left over. */
  ghost predicate SameButBlobs(frame: Bytes, out: Bytes)
  {
    var h, h' := ReadRequestHeader(frame), ReadRequestHeader(out);
    && h.Ok? && h' == h
    && var sg, sg' := Sync.ReadSyncGroup(frame[h.off..], 0, h.v.version),
        Sync.ReadSyncGroup(out[h.off..], 0, h.v.version);
    && sg.Ok? && sg'.Ok? && sg'.off == |out| - h.off
    && sg'.v.sender == sg.v.sender && SlotIds(sg'.v.slots) == SlotIds(sg.v.slots)
  }

  /** The slots that the broker finds in `out`. */
  ghost function SlotsOf(frame: Bytes, out: Bytes): seq<Sync.Slot>
    requires SameButBlobs(frame, out)
  {
    var h := ReadRequestHeader(frame);
    Sync.ReadSyncGroup(out[h.off..], 0, h.v.version).v.slots
  }

  /** How many times (t, p) is in the blobs of the request `out`, over all members. */
  ghost function ReceivedFrom(frame: Bytes, out: Bytes, t: Str, p: int): nat
    requires SameButBlobs(frame, out)
  {
    ReceivedTimes(SlotsOf(frame, out), |SlotsOf(frame, out)|, t, p)
  }

  /** The main result: after the rewriting, the request that the broker decodes has the
      leader's header, sender and member ids, and if those ids are distinct, the members
      together receive every partition that is due exactly once, and nothing else. */
  lemma ExactlyOnceEndToEnd(frame: Bytes, sent: int, sg: Sync.SyncGroup, view: View, payload: Bytes, t: Str, p: int)
    requires var h := ReadRequestHeader(frame);
             h.Ok? && Sync.ReadSyncGroup(frame[h.off..], 0, h.v.version).Ok?
                 && sg == Sync.ReadSyncGroup(frame[h.off..], 0, h.v.version).v
    requires Planned(sg, view, payload) && |payload| <= MAX_BYTES
    requires Named(view.records) && view.snapshot.Some? && Cache.Countable(view.snapshot.value)
             && Distinct(SlotIds(sg.slots))
    ensures var out := Forwarded(frame, sent, payload);
            && SameButBlobs(frame, out)
            && ReceivedFrom(frame, out, t, p) == if Due(sg, view, t, p) then 1 else 0
  {
    hide Sync.ReadSyncGroup, Sync.AppendSyncGroup, ReadRequestHeader, Forwarded, PlanInputs, WireSized, Run, Index,
        Filled, SlotIds, Distinct, Named;
    var h := ReadRequestHeader(frame);
    Sync.SyncGroupReads(frame[h.off..], 0, h.v.version);
    var tr, lists, filled :| PlannedAs(sg, view, tr, lists, filled, payload);
    PlannedFits(sg, Final(Index(PlanInputs(sg, view)), tr), lists, filled);
    BrokerDecodes(frame, sent, sg, view, tr, lists, filled, payload);
    PartsFit(sg, view);
    ReceivedCoverage(sg, view, tr, lists, filled, payload, t, p);
  }

  /** The same on a connection, in every interleaving: once a request whose payload the
      interceptor replaced by a plan has been forwarded, the broker decodes it so. */
  lemma ExactlyOnceOnConnection(env: Env, run: Interleaving, n: nat, i: nat, sg: Sync.SyncGroup, view: View, t: Str,
                                p: int)
    requires IsRun(env, run) && n <= |run.events| && i < |run.states[n].forwarded| && i < |run.states[n].requests|
    requires var r := run.states[n].requests[i];
             var h := ReadRequestHeader(r.body);
             && h.Ok? && Sync.ReadSyncGroup(r.body[h.off..], 0, h.v.version).Ok?
             && sg == Sync.ReadSyncGroup(r.body[h.off..], 0, h.v.version).v
             && PayloadOf(r).Some? && Planned(sg, view, PayloadOf(r).value) && |PayloadOf(r).value| <= MAX_BYTES
    requires Named(view.records) && view.snapshot.Some? && Cache.Countable(view.snapshot.value)
             && Distinct(SlotIds(sg.slots))
    ensures var frame, out := run.states[n].requests[i].body, run.states[n].forwarded[i];
            && SameButBlobs(frame, out)
            && ReceivedFrom(frame, out, t, p) == if Due(sg, view, t, p) then 1 else 0
  {
    hide Sync.ReadSyncGroup, ReadRequestHeader, PlanInputs, Planned, Distinct, Named, SameButBlobs, ReceivedFrom;
    var r := run.states[n].requests[i];
    Transparent(env, run, n, i);
    assert run.states[n].forwarded[i] == Forwarded(r.body, r.sent, PayloadOf(r).value);
    ExactlyOnceEndToEnd(r.body, r.sent, sg, view, PayloadOf(r).value, t, p);
  }

  // ------------------------------------------------- everybody gets something

  /** The ids of the slots on record. */
  ghost function IdsOnRecord(sg: Sync.SyncGroup, view: View): set<Str>
  {
    set i: nat | i < |sg.slots| && OnRecord(sg, view, i) :: sg.slots[i].memberId
  }

  function Numbers(ps: seq<int>): set<int>
  {
    set p | p in ps
  }

  /** `t` is on record for every member on record, and the snapshot lists no partitions of any
      other topic on record. */
  ghost predicate OneTopic(sg: Sync.SyncGroup, view: View, t: Str)
  {
    && view.snapshot.Some? && t in view.snapshot.value
    && forall i: nat :: OnRecord(sg, view, i) ==>
         && t in TopicsOn(sg, view, i)
         && forall u, p :: u in TopicsOn(sg, view, i) && u != t ==> !Due(sg, view, u, p)
  }

  lemma SomeOf<T(!new)>(s: set<T>) returns (x: T)
    requires s != {}
    ensures x in s
  {
    x :| x in s;
  }

  lemma {:induction false} KeysSize(t: Str, ps: set<int>, keys: set<Key>)
    requires forall k :: k in keys <==> k.topic == t && k.part in ps
    ensures |keys| == |ps|
    decreases |ps|
  {
    if ps == {} {
      if k :| k in keys { assert false; }
      assert keys == {};
    } else {
      var p := SomeOf(ps);
      KeysSize(t, ps - {p}, keys - {Key(t, p)});
      assert Key(t, p) in keys;
    }
  }

  lemma OneTopicSubs(sg: Sync.SyncGroup, view: View, t: Str)
    requires OneTopic(sg, view, t)
    ensures SubsOf(Index(PlanInputs(sg, view)), t) == IdsOnRecord(sg, view)
  {
    IndexedAre(sg, view);
    var c := Index(PlanInputs(sg, view));
    forall id ensures id in SubsOf(c, t) <==> id in IdsOnRecord(sg, view) {
      if id in SubsOf(c, t) { var i: nat :| OnRecord(sg, view, i) && sg.slots[i].memberId == id; }
      if id in IdsOnRecord(sg, view) {
        var i: nat :| i < |sg.slots| && OnRecord(sg, view, i) && sg.slots[i].memberId == id;
      }
    }
  }

  lemma OneTopicListed(sg: Sync.SyncGroup, view: View, t: Str)
    requires OneTopic(sg, view, t) && IdsOnRecord(sg, view) != {}
    ensures |ListedOf(Index(PlanInputs(sg, view)), t)| == |Numbers(view.snapshot.value[t])|
  {
    var c := Index(PlanInputs(sg, view));
    var id :| id in IdsOnRecord(sg, view);
    var i: nat :| i < |sg.slots| && OnRecord(sg, view, i);
    forall k ensures k in ListedOf(c, t) <==> k.topic == t && k.part in Numbers(view.snapshot.value[t]) {
      DueIff(sg, view, t, k.part);
      assert t in TopicsOn(sg, view, i);
      if k.topic == t { assert k == Key(t, k.part); }
    }
    KeysSize(t, Numbers(view.snapshot.value[t]), ListedOf(c, t));
  }

  lemma OneTopicSole(sg: Sync.SyncGroup, view: View, t: Str)
    requires OneTopic(sg, view, t) && Named(view.records)
    ensures SoleTopic(Index(PlanInputs(sg, view)), t)
  {
    var c := Index(PlanInputs(sg, view));
    IndexedAre(sg, view);
    OneTopicSubs(sg, view, t);
    forall m, u | m in SubsOf(c, t) && u in c.byId[m].topics && u != t ensures PartsOf(c, u) == [] {
      var i: nat :| OnRecord(sg, view, i) && sg.slots[i].memberId == m;
      if PartsOf(c, u) != [] {
        DueIff(sg, view, u, PartsOf(c, u)[0]);
        assert false;
      }
    }
  }

  /** Slot `i` of the request receives something. */
  ghost predicate Receives(slot: Sync.Slot, t: Str)
  {
    exists p :: CountIn(Received(slot), t, p) > 0
  }

  /** The plan has a share for the member of slot `i`. */
  lemma ShareHeld(sg: Sync.SyncGroup, view: View, tr: Trace, t: Str, i: nat) returns (p: int)
    requires Run(Index(PlanInputs(sg, view)), tr) && Named(view.records)
    requires OneTopic(sg, view, t) && OnRecord(sg, view, i)
    requires |Numbers(view.snapshot.value[t])| >= |IdsOnRecord(sg, view)|
    ensures Holds(Final(Index(PlanInputs(sg, view)), tr), sg.slots[i].memberId, t, p)
  {
    hide PlanInputs, Index, Run, SoleTopic, Named;
    var c, m := Index(PlanInputs(sg, view)), sg.slots[i].memberId;
    assert m in IdsOnRecord(sg, view);
    OneTopicSubs(sg, view, t);
    OneTopicListed(sg, view, t);
    OneTopicSole(sg, view, t);
    EnoughServes(c, tr, t, m);
    OwnerHoldsOne(c, tr, t, m);
    p :| Holds(Final(c, tr), m, t, p);
  }

  lemma ShareReceived(sg: Sync.SyncGroup, view: View, tr: Trace, lists: seq<seq<Proto.TopicPartitions>>,
                      filled: seq<Sync.Slot>, payload: Bytes, t: Str, i: nat)
    requires PlannedAs(sg, view, tr, lists, filled, payload) && Named(view.records)
    requires WireSized(PlanInputs(sg, view).partitions) && OneTopic(sg, view, t) && OnRecord(sg, view, i)
    requires |Numbers(view.snapshot.value[t])| >= |IdsOnRecord(sg, view)|
    ensures i < |filled| && Receives(filled[i], t)
  {
    hide PlanInputs, Index, Run, OneTopic, Named, WireSized, IdsOnRecord, Numbers, FilledSlot, Sync.AppendSyncGroup,
         Proto.ReadAssignment, CountIn;
    var p := ShareHeld(sg, view, tr, t, i);
    CountSlot(Final(Index(PlanInputs(sg, view)), tr), sg.slots[i], lists[i], filled[i], t, p);
    BlobDecodes(sg, view, tr, lists, filled, payload, i);
    assert CountIn(Received(filled[i]), t, p) > 0;
  }

  /** With one topic to share and at least as many distinct partitions as members on record,
      every member on record receives a partition, as the broker decodes the request. */
  lemma EveryMemberReceives(frame: Bytes, sent: int, sg: Sync.SyncGroup, view: View, payload: Bytes, t: Str, i: nat)
    requires var h := ReadRequestHeader(frame);
             && h.Ok? && Sync.ReadSyncGroup(frame[h.off..], 0, h.v.version).Ok?
             && sg == Sync.ReadSyncGroup(frame[h.off..], 0, h.v.version).v
    requires Planned(sg, view, payload) && |payload| <= MAX_BYTES && Named(view.records)
    requires OneTopic(sg, view, t) && OnRecord(sg, view, i)
    requires view.snapshot.Some? && Cache.Countable(view.snapshot.value)
    requires t in view.snapshot.value && |Numbers(view.snapshot.value[t])| >= |IdsOnRecord(sg, view)|
    ensures var out := Forwarded(frame, sent, payload);
            && SameButBlobs(frame, out)
            && var slots := SlotsOf(frame, out);
            i < |slots| && slots[i].memberId == sg.slots[i].memberId && Receives(slots[i], t)
  {
    hide Sync.ReadSyncGroup, Sync.AppendSyncGroup, ReadRequestHeader, Forwarded, PlanInputs, WireSized, Run, Index,
         OneTopic, Named, Receives, Numbers, IdsOnRecord, Filled, SlotIds, OnRecord, Cache.Countable;
    var h := ReadRequestHeader(frame);
    Sync.SyncGroupReads(frame[h.off..], 0, h.v.version);
    var tr, lists, filled :| PlannedAs(sg, view, tr, lists, filled, payload);
    PlannedFits(sg, Final(Index(PlanInputs(sg, view)), tr), lists, filled);
    BrokerDecodes(frame, sent, sg, view, tr, lists, filled, payload);
    PartsFit(sg, view);
    ShareReceived(sg, view, tr, lists, filled, payload, t, i);
    assert SlotIds(filled)[i] == SlotIds(sg.slots)[i];
  }
}
