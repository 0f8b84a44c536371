/** Independence from map iteration order and from the order of the members, and the exact
    point where it ends: ties between donors. */
module PlanDeterminism {
  import opened Ordering
  import opened PlanSpec
  import opened PlanConservation
  import opened PlanBalance
  import opened PlanSteal
  import opened PlanSticky

  ghost predicate DistinctIds(members: seq<Member>)
  {
    forall i, j :: 0 <= i < j < |members| ==> members[i].id != members[j].id
  }

  lemma {:induction false} ByIdIs(members: seq<Member>, m: Member)
    requires DistinctIds(members)
    ensures m in members ==> m.id in ById(members) && ById(members)[m.id] == m
    ensures m.id in ById(members) ==> ById(members)[m.id] in members && ById(members)[m.id].id == m.id
  {
    if members != [] {
      var n := |members| - 1;
      assert members == members[..n] + [members[n]];
      ByIdIs(members[..n], m);
      if m in members[..n] {
        var i :| 0 <= i < n && members[i] == m;
        assert members[i].id != members[n].id;
      }
    }
  }

  lemma SameMembersSameById(a: seq<Member>, b: seq<Member>)
    requires DistinctIds(a) && DistinctIds(b) && multiset(a) == multiset(b)
    ensures ById(a) == ById(b)
  {
    forall m: Member ensures m in a <==> m in b {
      assert m in a <==> m in multiset(a);
      assert m in b <==> m in multiset(b);
    }
    forall id ensures id in ById(a) <==> id in ById(b)
              ensures id in ById(a) ==> ById(a)[id] == ById(b)[id]
    {
      SameEntry(a, b, id);
      SameEntry(b, a, id);
    }
  }

  lemma SameEntry(a: seq<Member>, b: seq<Member>, id: Str)
    requires DistinctIds(a) && DistinctIds(b) && forall m: Member :: m in a ==> m in b
    ensures id in ById(a) ==> id in ById(b) && ById(a)[id] == ById(b)[id]
  {
    if id in ById(a) {
      ByIdIs(a, Member(id, [], 0));
      ByIdIs(b, ById(a)[id]);
    }
  }

  lemma {:induction false} IdsAt(members: seq<Member>)
    ensures |Ids(members)| == |members|
    ensures forall i :: 0 <= i < |members| ==> Ids(members)[i] == members[i].id
  {
    if members != [] { IdsAt(members[..|members| - 1]); }
  }

  lemma DistinctIdsOnce(members: seq<Member>, id: Str)
    requires DistinctIds(members)
    ensures multiset(Ids(members))[id] == if id in ById(members) then 1 else 0
  {
    IdsAt(members);
    IdsAreKeys(members);
    assert Distinct(Ids(members));
    DistinctCounts(Ids(members), id);
    assert id in Ids(members) <==> id in multiset(Ids(members));
  }

  /** Indexing forgets the order of distinct members. */
  lemma PermutedIndex(a: Inputs, b: Inputs)
    requires DistinctIds(a.members) && DistinctIds(b.members) && multiset(a.members) == multiset(b.members)
    requires a.partitions == b.partitions && a.previous == b.previous
    ensures Index(a) == Index(b)
  {
    SameMembersSameById(a.members, b.members);
    forall id ensures multiset(Ids(a.members))[id] == multiset(Ids(b.members))[id] {
      DistinctIdsOnce(a.members, id);
      DistinctIdsOnce(b.members, id);
    }
    assert multiset(Ids(a.members)) == multiset(Ids(b.members));
    StrOrder();
    SortedUnique(SortBy(Ids(a.members), StrLeq), SortBy(Ids(b.members), StrLeq), StrLeq);
  }

  /** The plan after the sticky and distribution passes is the same for every permutation
      of distinct members. */
  lemma PermutedDistribution(a: Inputs, b: Inputs)
    requires DistinctIds(a.members) && DistinctIds(b.members) && multiset(a.members) == multiset(b.members)
    requires a.partitions == b.partitions && a.previous == b.previous
    ensures Indexed(Index(a)) && Indexed(Index(b)) && Distributed(Index(a)) == Distributed(Index(b))
  {
    PermutedIndex(a, b);
    IndexIndexes(a);
  }

  // ------------------------------------------------------------- donor ties

  /** No harmful tie: two different most-loaded donors both hold at most one partition of
      the topic, so that neither gives anything. */
  ghost predicate Settled(c: Ctx, out: Plan, a: Attempt)
  {
    Scans(c, out, a) ==>
      forall d, e :: MaxDonor(c, out, a, d) && MaxDonor(c, out, a, e) && d != e ==>
        !Succeeds(c, out, a, d) && !Succeeds(c, out, a, e)
  }

  /** One attempt has the same outcome for all iteration orders if and only if no harmful
      tie is met. */
  lemma OutcomeUniqueIff(c: Ctx, out: Plan, a: Attempt)
    requires Sound(c, out) && a.mid in SubsOf(c, a.topic)
    ensures (forall d, e :: MayPick(c, out, a, d) && MayPick(c, out, a, e) ==>
               Steal(c, out, a, d) == Steal(c, out, a, e)) <==> Settled(c, out, a)
  {
    if Settled(c, out, a) {
      forall d, e | MayPick(c, out, a, d) && MayPick(c, out, a, e) ensures Steal(c, out, a, d) == Steal(c, out, a, e) {
      }
    } else {
      var d, e :| MaxDonor(c, out, a, d) && MaxDonor(c, out, a, e) && d != e
                  && (Succeeds(c, out, a, d) || Succeeds(c, out, a, e));
      assert MayPick(c, out, a, d) && MayPick(c, out, a, e);
      if Succeeds(c, out, a, d) { MovesDiffer(c, out, a, d, e); } else { MovesDiffer(c, out, a, e, d); }
    }
  }

  lemma MovesDiffer(c: Ctx, out: Plan, a: Attempt, d: Str, e: Str)
    requires Succeeds(c, out, a, d) && d != e && d != a.mid && e != a.mid
    ensures Steal(c, out, a, d) != Steal(c, out, a, e)
  {
    ListMove(out, d, a.mid, a.topic);
    if Succeeds(c, out, a, e) { ListMove(out, e, a.mid, a.topic); }
    assert |List(Steal(c, out, a, d), d, a.topic)| < |List(out, d, a.topic)|;
    assert List(Steal(c, out, a, e), d, a.topic) == List(out, d, a.topic);
  }

  /** Every attempt is free of harmful ties. */
  ghost predicate NoHarmfulTie(c: Ctx, tr: Trace)
    requires Sized(tr)
  {
    forall i: nat :: i < |tr.attempts| ==> Settled(c, tr.states[i], tr.attempts[i])
  }

  lemma {:induction false} SameSoFar(c: Ctx, p: Trace, q: Trace, i: nat)
    requires Steps(c, p) && Steps(c, q) && p.attempts == q.attempts && p.states[0] == q.states[0]
    requires NoHarmfulTie(c, p) && i <= |p.attempts|
    ensures p.states[i] == q.states[i]
  {
    if i > 0 {
      SameSoFar(c, p, q, i - 1);
      NextState(c, p, i - 1);
      NextState(c, q, i - 1);
      assert Settled(c, p.states[i - 1], p.attempts[i - 1]);
      SameStep(c, p.states[i - 1], p.attempts[i - 1], p.picks[i - 1], q.picks[i - 1]);
    }
  }

  lemma SameStep(c: Ctx, out: Plan, a: Attempt, d: Str, e: Str)
    requires Settled(c, out, a) && MayPick(c, out, a, d) && MayPick(c, out, a, e)
    ensures Steal(c, out, a, d) == Steal(c, out, a, e)
  {
  }

  lemma SameWithoutTies(c: Ctx, p: Trace, q: Trace)
    requires Run(c, p) && Run(c, q) && NoHarmfulTie(c, p)
    ensures Final(c, p) == Final(c, q)
  {
    SameSoFar(c, p, q, |p.attempts|);
  }

  /** Determinism: if one run meets no harmful tie between donors, every run on the same
      members in any order and under any map iteration order ends with the same plan. */
  lemma Deterministic(a: Inputs, b: Inputs, p: Trace, q: Trace)
    requires DistinctIds(a.members) && DistinctIds(b.members) && multiset(a.members) == multiset(b.members)
    requires a.partitions == b.partitions && a.previous == b.previous
    requires Run(Index(a), p) && Run(Index(b), q) && NoHarmfulTie(Index(a), p)
    ensures Final(Index(a), p) == Final(Index(b), q)
  {
    PermutedIndex(a, b);
    SameWithoutTies(Index(a), p, q);
  }

  // ------------------------------------- harmful ties always show in the end

  lemma MostLoaded(out: Plan, among: set<Str>) returns (d: Str)
    requires among != {}
    ensures d in among && forall e :: e in among ==> NoHeavier(out, e, d)
    decreases |among|
  {
    var x :| x in among;
    if among == {x} {
      d := x;
    } else {
      var y := MostLoaded(out, among - {x});
      d := if NoHeavier(out, y, x) then x else y;
      forall e | e in among ensures NoHeavier(out, e, d) {
        assert e != x ==> NoHeavier(out, e, y);
      }
    }
  }

  lemma SomePick(c: Ctx, out: Plan, a: Attempt) returns (d: Str)
    ensures MayPick(c, out, a, d)
  {
    d := NOBODY;
    if SubsOf(c, a.topic) - {a.mid} != {} { d := MostLoaded(out, SubsOf(c, a.topic) - {a.mid}); }
  }

  /** One more attempt, with donor `d`. */
  ghost function Extend(c: Ctx, tr: Trace, a: Attempt, d: Str): Trace
    requires Sized(tr)
  {
    Trace(tr.attempts + [a], tr.picks + [d], tr.states + [Steal(c, tr.states[|tr.attempts|], a, d)])
  }

  lemma ExtendSteps(c: Ctx, tr: Trace, a: Attempt, d: Str)
    requires Steps(c, tr) && MayPick(c, tr.states[|tr.attempts|], a, d)
    ensures Steps(c, Extend(c, tr, a, d))
  {
    var tr' := Extend(c, tr, a, d);
    forall i: nat | i < |tr'.attempts| ensures Stepped(c, tr', i) {
      assert i < |tr.attempts| ==> Stepped(c, tr, i);
    }
  }

  /** Every partial run can be completed. */
  lemma {:induction false} Completed(c: Ctx, attempts: seq<Attempt>, part: Trace) returns (tr: Trace)
    requires Steps(c, part) && part.attempts <= attempts
    ensures Steps(c, tr) && tr.attempts == attempts && part.picks <= tr.picks && part.states <= tr.states
    decreases |attempts| - |part.attempts|
  {
    var n := |part.attempts|;
    if n == |attempts| {
      tr := part;
    } else {
      var d := SomePick(c, part.states[n], attempts[n]);
      ExtendSteps(c, part, attempts[n], d);
      tr := Completed(c, attempts, Extend(c, part, attempts[n], d));
    }
  }

  ghost function Prefix(tr: Trace, n: nat): Trace
    requires Sized(tr) && n <= |tr.attempts|
  {
    Trace(tr.attempts[..n], tr.picks[..n], tr.states[..n + 1])
  }

  lemma PrefixSteps(c: Ctx, tr: Trace, n: nat)
    requires Steps(c, tr) && n <= |tr.attempts|
    ensures Steps(c, Prefix(tr, n))
  {
    forall i: nat | i < n ensures Stepped(c, Prefix(tr, n), i) {
      assert Stepped(c, tr, i);
    }
  }

  /** The run that follows `p` up to attempt `i` and takes donor `d` there. */
  lemma Divert(c: Ctx, p: Trace, i: nat, d: Str) returns (q: Trace)
    requires Steps(c, p) && i < |p.attempts| && MayPick(c, p.states[i], p.attempts[i], d)
    ensures Steps(c, q) && q.attempts == p.attempts && q.states[0] == p.states[0]
    ensures q.picks[i] == d && q.states[i] == p.states[i]
  {
    PrefixSteps(c, p, i);
    var part := Prefix(p, i);
    ExtendSteps(c, part, p.attempts[i], d);
    var more := Extend(c, part, p.attempts[i], d);
    q := Completed(c, p.attempts, more);
    assert part.states[0] == more.states[0] == q.states[0];
    assert part.states[i] == more.states[i] == q.states[i];
    assert more.picks[i] == q.picks[i];
  }

  lemma ListStaysOnce(c: Ctx, out: Plan, a: Attempt, donor: Str, m: Str, t: Str)
    requires a != Attempt(m, t) && Load(out, m) <= 1 && MayPick(c, out, a, donor)
    ensures List(Steal(c, out, a, donor), m, t) == List(out, m, t)
  {
    if Succeeds(c, out, a, donor) {
      LoadAtLeast(out, m, a.topic);
      ListMove(out, donor, a.mid, a.topic);
    }
  }

  /** What a starved member holds of a topic does not change any more once it has made its
      only attempt on that topic. */
  lemma {:induction false} ListStays(c: Ctx, p: Trace, i: nat, j: nat, m: Str, t: Str)
    requires Traced(c, p) && Distinct(p.attempts) && i < j <= |p.attempts| && p.attempts[i] == Attempt(m, t)
    requires !OwnsAny(p.states[0], m)
    ensures List(p.states[j], m, t) == List(p.states[i + 1], m, t)
    decreases j - i
  {
    if j > i + 1 {
      ListStays(c, p, i, j - 1, m, t);
      StepKeepsList(c, p, j - 1, m, t);
    }
  }

  lemma StepKeepsList(c: Ctx, p: Trace, j: nat, m: Str, t: Str)
    requires Traced(c, p) && j < |p.attempts| && p.attempts[j] != Attempt(m, t) && !OwnsAny(p.states[0], m)
    ensures List(p.states[j + 1], m, t) == List(p.states[j], m, t)
  {
    TraceTrims(c, p, j);
    assert TrimmedAt(p.states[0], p.states[j], m);
    NextState(c, p, j);
    ListStaysOnce(c, p.states[j], p.attempts[j], p.picks[j], m, t);
  }

  /** What the member of a scanning attempt holds of that topic right after it. */
  lemma GetsLast(c: Ctx, out: Plan, a: Attempt, d: Str)
    requires Scans(c, out, a) && MayPick(c, out, a, d)
    ensures var l := List(out, d, a.topic);
            List(Steal(c, out, a, d), a.mid, a.topic) == if Succeeds(c, out, a, d) then [l[|l| - 1]] else []
  {
    assert List(out, a.mid, a.topic) == [] by {
      if List(out, a.mid, a.topic) != [] { OwnsWitness(out, a.mid, a.topic); }
    }
    if Succeeds(c, out, a, d) { ListMove(out, d, a.mid, a.topic); }
  }

  /** ... and at the end of the run. */
  lemma EndsWith(c: Ctx, q: Trace, i: nat)
    requires Traced(c, q) && Distinct(q.attempts) && i < |q.attempts| && Scans(c, q.states[i], q.attempts[i])
    ensures var l := List(q.states[i], q.picks[i], q.attempts[i].topic);
            List(q.states[|q.attempts|], q.attempts[i].mid, q.attempts[i].topic) ==
              if Rescued(c, q, i) then [l[|l| - 1]] else []
  {
    var m, t := q.attempts[i].mid, q.attempts[i].topic;
    if OwnsAny(q.states[0], m) { OwnersStay(c, q, 0, i, m); }
    NextState(c, q, i);
    GetsLast(c, q.states[i], q.attempts[i], q.picks[i]);
    ListStays(c, q, i, |q.attempts|, m, t);
  }

  lemma ShowsInTheEnd(c: Ctx, p: Trace, i: nat, d: Str, e: Str) returns (q: Trace, r: Trace)
    requires Traced(c, p) && Distinct(p.attempts) && i < |p.attempts| && Exclusive(p.states[i])
    requires d != e && MaxDonor(c, p.states[i], p.attempts[i], d) && MaxDonor(c, p.states[i], p.attempts[i], e)
    requires Succeeds(c, p.states[i], p.attempts[i], d)
    ensures Steps(c, q) && q.attempts == p.attempts && q.states[0] == p.states[0]
    ensures Steps(c, r) && r.attempts == p.attempts && r.states[0] == p.states[0]
    ensures SortPlan(q.states[|p.attempts|]) != SortPlan(r.states[|p.attempts|])
  {
    q := Divert(c, p, i, d);
    r := Divert(c, p, i, e);
    EndsWith(c, q, i);
    EndsWith(c, r, i);
    var m, t := p.attempts[i].mid, p.attempts[i].topic;
    var ld, le := List(p.states[i], d, t), List(p.states[i], e, t);
    if le != [] { LastsDiffer(p.states[i], d, e, t); }
    DifferentLists(q.states[|p.attempts|], r.states[|p.attempts|], m, t, ld[|ld| - 1]);
  }

  lemma LastsDiffer(out: Plan, d: Str, e: Str, t: Str)
    requires Exclusive(out) && d != e && List(out, d, t) != [] && List(out, e, t) != []
    ensures List(out, d, t)[|List(out, d, t)| - 1] != List(out, e, t)[|List(out, e, t)| - 1]
  {
    var x := List(out, d, t)[|List(out, d, t)| - 1];
    assert Holds(out, d, t, x) && !Holds(out, e, t, x);
  }

  lemma DifferentLists(a: Plan, b: Plan, m: Str, t: Str, x: int)
    requires x in List(a, m, t) && x !in List(b, m, t)
    ensures SortPlan(a) != SortPlan(b)
  {
    HoldsSorted(a, m, t, x);
    HoldsSorted(b, m, t, x);
  }

  lemma HarmfulTie(c: Ctx, out: Plan, a: Attempt) returns (d: Str, e: Str)
    requires !Settled(c, out, a)
    ensures d != e && MaxDonor(c, out, a, d) && MaxDonor(c, out, a, e) && Succeeds(c, out, a, d)
  {
    d, e :| MaxDonor(c, out, a, d) && MaxDonor(c, out, a, e) && d != e
            && (Succeeds(c, out, a, d) || Succeeds(c, out, a, e));
    if !Succeeds(c, out, a, d) { d, e := e, d; }
  }

  lemma TieShows(c: Ctx, p: Trace) returns (q: Trace, r: Trace)
    requires Run(c, p) && !NoHarmfulTie(c, p) && Distinct(Attempts(c)) && !TombstoneClash(c)
    ensures Run(c, q) && Run(c, r) && Final(c, q) != Final(c, r)
  {
    var i: nat :| i < |p.attempts| && !Settled(c, p.states[i], p.attempts[i]);
    var d, e := HarmfulTie(c, p.states[i], p.attempts[i]);
    RunTraced(c, p);
    RunTidy(c, p, i);
    q, r := ShowsInTheEnd(c, p, i, d, e);
  }

  /** The final plan is independent of map iteration order if and only if one run, whichever,
      meets no harmful tie (for attempts without repeats: distinct members, no repeated
      topic). */
  lemma DeterministicIff(c: Ctx, p: Trace)
    requires Run(c, p) && Distinct(Attempts(c)) && !TombstoneClash(c)
    ensures (forall q, r :: Run(c, q) && Run(c, r) ==> Final(c, q) == Final(c, r)) <==> NoHarmfulTie(c, p)
  {
    if NoHarmfulTie(c, p) {
      forall q, r | Run(c, q) && Run(c, r) ensures Final(c, q) == Final(c, r) {
        SameWithoutTies(c, p, q);
        SameWithoutTies(c, p, r);
      }
    } else {
      var q, r := TieShows(c, p);
    }
  }
}
