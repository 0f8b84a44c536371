/** What the planner is asked for a leader's SyncGroup, in terms of the slots of the request,
    the recorded subscriptions, the telemetry and the metadata snapshot. */
module PlanView {
  import opened Ordering
  import opened Wire
  import opened PlanSpec
  import opened Interceptor
  import PlanOrder
  import Sync = SyncGroupMessage
  import Subs = Subscriptions

  /** The member of slot `i` has a subscription on record. */
  predicate OnRecord(sg: Sync.SyncGroup, view: View, i: nat)
  {
    i < |sg.slots| && Subs.Id(sg.sender.group, sg.slots[i].memberId) in view.records
  }

  function TopicsOn(sg: Sync.SyncGroup, view: View, i: nat): seq<Str>
    requires OnRecord(sg, view, i)
  {
    view.records[Subs.Id(sg.sender.group, sg.slots[i].memberId)].topics
  }

  /** What the planner is told about the member of slot `i`: its id, the topics on record, and
      its lag, which is 0 if the telemetry does not know it. */
  function Told(sg: Sync.SyncGroup, view: View, i: nat): Member
    requires OnRecord(sg, view, i)
  {
    var id := sg.slots[i].memberId;
    Member(id, TopicsOn(sg, view, i), if id in view.lag then view.lag[id] else 0)
  }

  /** Partition `p` of topic `t` is to be assigned: the snapshot lists it, and the topic is on
      record for one of the slots. */
  ghost predicate Due(sg: Sync.SyncGroup, view: View, t: Str, p: int)
  {
    && view.snapshot.Some? && t in view.snapshot.value && p in view.snapshot.value[t]
    && exists i: nat :: OnRecord(sg, view, i) && t in TopicsOn(sg, view, i)
  }

  ghost predicate Increasing(at: seq<nat>, n: nat)
  {
    (forall k :: 0 <= k < |at| ==> at[k] < n) && forall j, k :: 0 <= j < k < |at| ==> at[j] < at[k]
  }

  /** The planner's members are those of the slots on record, all of them, in the order of the
      slots. */
  lemma {:induction false} MembersAre(sg: Sync.SyncGroup, view: View) returns (at: seq<nat>)
    ensures Increasing(at, |sg.slots|) && forall i: nat :: OnRecord(sg, view, i) <==> i in at
    ensures var members := PlanInputs(sg, view).members;
            && |at| == |members|
            && forall k :: 0 <= k < |at| ==> OnRecord(sg, view, at[k]) && members[k] == Told(sg, view, at[k])
    decreases |sg.slots|
  {
    if sg.slots == [] {
      at := [];
    } else {
      var n := |sg.slots| - 1;
      var front := sg.(slots := sg.slots[..n]);
      at := MembersAre(front, view);
      forall i: nat | i < n ensures OnRecord(sg, view, i) <==> OnRecord(front, view, i) { }
      forall k | 0 <= k < |at| ensures Told(front, view, at[k]) == Told(sg, view, at[k]) { }
      if OnRecord(sg, view, n) { at := at + [n]; }
    }
  }

  /** The planner's index holds the member of every slot on record, with exactly the topics on
      record and the lag that the telemetry reports, and nobody else. */
  lemma IndexedAre(sg: Sync.SyncGroup, view: View)
    ensures var byId := Index(PlanInputs(sg, view)).byId;
            && (forall i: nat :: OnRecord(sg, view, i) ==>
                  sg.slots[i].memberId in byId && byId[sg.slots[i].memberId] == Told(sg, view, i))
            && (forall id :: id in byId ==> exists i: nat :: OnRecord(sg, view, i) && sg.slots[i].memberId == id)
  {
    var members := PlanInputs(sg, view).members;
    var at := MembersAre(sg, view);
    forall i: nat | OnRecord(sg, view, i)
      ensures sg.slots[i].memberId in ById(members) && ById(members)[sg.slots[i].memberId] == Told(sg, view, i)
    {
      var k :| 0 <= k < |at| && at[k] == i;
      SameTold(sg, view, members, at, k);
    }
    forall id | id in ById(members) ensures exists i: nat :: OnRecord(sg, view, i) && sg.slots[i].memberId == id {
      IdsAreKeys(members);
      IdIndex(members, id);
      var k :| 0 <= k < |members| && members[k].id == id;
      assert OnRecord(sg, view, at[k]) && sg.slots[at[k]].memberId == id;
    }
  }

  lemma {:induction false} IdIndex(members: seq<Member>, id: Str)
    requires id in Ids(members)
    ensures exists k :: 0 <= k < |members| && members[k].id == id
  {
    var n := |members| - 1;
    if members[n].id != id {
      IdIndex(members[..n], id);
      var k :| 0 <= k < n && members[..n][k].id == id;
      assert members[k].id == id;
    }
  }

  /** Slots that repeat an id are told the same. */
  lemma SameTold(sg: Sync.SyncGroup, view: View, members: seq<Member>, at: seq<nat>, k: nat)
    requires |at| == |members| && k < |members|
    requires forall j :: 0 <= j < |at| ==> OnRecord(sg, view, at[j]) && members[j] == Told(sg, view, at[j])
    ensures members[k].id in ById(members) && ById(members)[members[k].id] == members[k]
  {
    var last := LastIndex(members, k);
    PlanOrder.ByIdLast(members, last);
  }

  lemma {:induction false} LastIndex(members: seq<Member>, k: nat) returns (last: nat)
    requires k < |members|
    ensures last < |members| && members[last].id == members[k].id && PlanOrder.LastWith(members, last)
    decreases |members| - k
  {
    if j :| k < j < |members| && members[j].id == members[k].id {
      last := LastIndex(members, j);
    } else {
      last := k;
    }
  }

  /** The partitions to plan are those that are due. */
  lemma DueIff(sg: Sync.SyncGroup, view: View, t: Str, p: int)
    ensures var parts := PlanInputs(sg, view).partitions; t in parts && p in parts[t] <==> Due(sg, view, t, p)
  {
    var members := PlanInputs(sg, view).members;
    var at := MembersAre(sg, view);
    if Wanted(members, t) {
      var k :| 0 <= k < |members| && t in members[k].topics;
      assert OnRecord(sg, view, at[k]) && t in TopicsOn(sg, view, at[k]);
    }
    if i: nat :| OnRecord(sg, view, i) && t in TopicsOn(sg, view, i) {
      var k :| 0 <= k < |at| && at[k] == i;
      assert t in members[k].topics;
    }
  }

  /** A request is planned if and only if something is due. */
  lemma PlannableIff(sg: Sync.SyncGroup, view: View)
    ensures Plannable(sg, view) <==> exists t, p :: Due(sg, view, t, p)
  {
    var parts := PlanInputs(sg, view).partitions;
    if t, p :| Due(sg, view, t, p) {
      DueIff(sg, view, t, p);
      var i: nat :| OnRecord(sg, view, i);
      var at := MembersAre(sg, view);
      assert i in at && t in parts;
    }
    if Plannable(sg, view) {
      var t :| t in parts;
      DueIff(sg, view, t, parts[t][0]);
    }
  }
}
