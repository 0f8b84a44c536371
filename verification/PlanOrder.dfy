/** The order in which the planner does things, and what a steal may and may not do. */
module PlanOrder {
  import opened Ordering
  import opened PlanSpec
  import opened PlanConservation
  import opened PlanBalance
  import opened PlanSteal
  import opened PlanSticky
  import opened PlanDeterminism
  import opened PlanRescue

  // -------------------------------------------------------------- indexing

  /** `i` is the last of the members with its id. */
  predicate LastWith(members: seq<Member>, i: nat)
    requires i < |members|
  {
    forall j :: i < j < |members| ==> members[j].id != members[i].id
  }

  lemma {:induction false} ByIdLast(members: seq<Member>, i: nat)
    requires i < |members| && LastWith(members, i)
    ensures members[i].id in ById(members) && ById(members)[members[i].id] == members[i]
  {
    if i < |members| - 1 { ByIdLast(members[..|members| - 1], i); }
  }

  /** The index: ids in byte order, each as often as members have it, and under each id the
      last member that has it. */
  lemma IndexIs(inputs: Inputs)
    ensures var ids, ms := Index(inputs).ids, inputs.members;
            && (forall i, j :: 0 <= i < j < |ids| ==> StrLeq(ids[i], ids[j]))
            && multiset(ids) == multiset(seq(|ms|, i requires 0 <= i < |ms| => ms[i].id))
    ensures var ms, byId := inputs.members, Index(inputs).byId;
            forall i: nat :: i < |ms| && LastWith(ms, i) ==> ms[i].id in byId && byId[ms[i].id] == ms[i]
  {
    hide StrLeq;
    var ms := inputs.members;
    StrOrder();
    IdsAt(ms);
    SortByKeeps(Ids(ms), StrLeq);
    assert Ids(ms) == seq(|ms|, i requires 0 <= i < |ms| => ms[i].id);
    forall i: nat | i < |ms| && LastWith(ms, i) ensures ms[i].id in ById(ms) && ById(ms)[ms[i].id] == ms[i] {
      ByIdLast(ms, i);
    }
  }

  /** The order of ids and topics: a string comes before another if it is a prefix of it, or
      has the smaller byte where they first differ. */
  lemma {:induction false} StrLeqIs(a: Str, b: Str)
    ensures StrLeq(a, b) <==> a <= b || exists i: nat :: Parts(a, b, i) && a[i] < b[i]
  {
    if a != [] && b != [] && a[0] == b[0] {
      StrLeqIs(a[1..], b[1..]);
      if i: nat :| Parts(a, b, i) && a[i] < b[i] {
        assert i > 0;
        assert a[1..][..i - 1] == a[..i][1..] && b[1..][..i - 1] == b[..i][1..];
        assert Parts(a[1..], b[1..], i - 1);
      }
      if i: nat :| Parts(a[1..], b[1..], i) && a[1..][i] < b[1..][i] {
        assert a[..i + 1] == [a[0]] + a[1..][..i] && b[..i + 1] == [b[0]] + b[1..][..i];
        assert Parts(a, b, i + 1);
      }
      assert a == [a[0]] + a[1..] && b == [b[0]] + b[1..];
    } else if a != [] && b != [] {
      assert Parts(a, b, 0);
      forall i: nat | Parts(a, b, i) ensures i == 0 { PartsAgree(a, b, i); }
    }
  }

  /** The strings agree up to `i`, where both go on. */
  predicate Parts(a: Str, b: Str, i: nat)
  {
    i < |a| && i < |b| && a[..i] == b[..i]
  }

  lemma PartsAgree(a: Str, b: Str, i: nat)
    requires Parts(a, b, i)
    ensures i > 0 ==> a[0] == b[0]
  {
    if i > 0 { assert a[..i][0] == b[..i][0]; }
  }

  // ---------------------------------------------------------- distribution

  /** Free partitions are handed out topic by topic, in byte order, and within a topic by
      partition number. */
  lemma HandedOutInOrder(c: Ctx, i: nat, j: nat)
    requires i < j < |FreeKeys(c)|
    ensures var a, b := FreeKeys(c)[i], FreeKeys(c)[j];
            if a.topic == b.topic then a.part <= b.part else StrLeq(a.topic, b.topic)
  {
  }

  // ------------------------------------------------------------ feasibility

  lemma {:induction false} AttemptsOfAt(m: Str, topics: seq<Str>)
    ensures |AttemptsOf(m, topics)| == |topics|
    ensures forall k :: 0 <= k < |topics| ==> AttemptsOf(m, topics)[k] == Attempt(m, topics[k])
  {
    if topics != [] { AttemptsOfAt(m, topics[..|topics| - 1]); }
  }

  /** Members take their turns in the order of their ids, and try their topics in the order in
      which they list them. */
  lemma TurnsInOrder(c: Ctx, n: nat, k: nat)
    requires Indexed(c) && n < |c.ids| && k < |c.byId[c.ids[n]].topics|
    ensures |AttemptsAt(c, n + 1)| == |AttemptsAt(c, n)| + |c.byId[c.ids[n]].topics|
    ensures |AttemptsAt(c, n)| + k < |Attempts(c)|
    ensures Attempts(c)[|AttemptsAt(c, n)| + k] == Attempt(c.ids[n], c.byId[c.ids[n]].topics[k])
  {
    AttemptsOfAt(c.ids[n], c.byId[c.ids[n]].topics);
    AttemptsGrow(c, n + 1, |c.ids|);
  }

  /** Who owns something after distribution gets nothing more. */
  lemma OwnersGainNothing(c: Ctx, tr: Trace, m: Str, t: Str, p: int)
    requires Run(c, tr) && OwnsAny(Distributed(c), m) && Holds(Final(c, tr), m, t, p)
    ensures Holds(Distributed(c), m, t, p)
  {
    RunTraced(c, tr);
    TraceTrims(c, tr, |tr.attempts|);
    assert TrimmedAt(tr.states[0], Stolen(c, tr), m);
    HoldsSorted(Stolen(c, tr), m, t, p);
  }

  /** Who owns nothing after distribution ends with one partition at most. */
  lemma HungryGetOne(c: Ctx, tr: Trace, m: Str)
    requires Run(c, tr) && !OwnsAny(Distributed(c), m)
    ensures Load(Final(c, tr), m) <= 1
  {
    RunTraced(c, tr);
    TraceTrims(c, tr, |tr.attempts|);
    assert TrimmedAt(tr.states[0], Stolen(c, tr), m);
    LoadSorted(Stolen(c, tr), m);
  }

  /** Nobody loses its last partition of a topic. */
  lemma {:induction false} KeepsOneOf(c: Ctx, tr: Trace, n: nat, m: Str, t: Str)
    requires Traced(c, tr) && n <= |tr.attempts| && List(tr.states[0], m, t) != []
    ensures List(tr.states[n], m, t) != []
  {
    if n > 0 {
      KeepsOneOf(c, tr, n - 1, m, t);
      TraceStep(c, tr, n - 1);
      var out, a, d := tr.states[n - 1], tr.attempts[n - 1], tr.picks[n - 1];
      if Succeeds(c, out, a, d) { ListMove(out, d, a.mid, a.topic); }
    }
  }

  /** A steal needs a topic with at least as many partitions as subscribers: without one, who
      owns nothing after distribution ends with nothing. */
  lemma ScarceTopicsYieldNothing(c: Ctx, tr: Trace, m: Str)
    requires Run(c, tr) && m in c.byId && !OwnsAny(Distributed(c), m)
    requires forall t :: t in c.byId[m].topics ==> |PartsOf(c, t)| < |SubsOf(c, t)|
    ensures !OwnsAny(Final(c, tr), m)
  {
    OwnTopics(c, m);
    forall i | 0 <= i < |tr.attempts| && tr.attempts[i].mid == m ensures !Rescued(c, tr, i) {
      assert tr.attempts[i] in Attempts(c);
    }
    StarvesIff(c, tr, m);
  }

  // ----------------------------------------------------------------- lists

  /** The lists of the final plan go upwards; without a tombstone clash, strictly. */
  lemma FinalListsSorted(c: Ctx, tr: Trace, m: Str, t: Str)
    requires Run(c, tr)
    ensures var l := List(Final(c, tr), m, t);
            forall i, j :: 0 <= i < j < |l| ==> l[i] <= l[j] && (!TombstoneClash(c) ==> l[i] < l[j])
  {
    var out, l := Stolen(c, tr), List(Final(c, tr), m, t);
    IntOrder();
    if m in out && t in out[m] {
      SortByKeeps(out[m][t], IntLeq);
      assert l == SortBy(out[m][t], IntLeq);
      assert forall i, j :: 0 <= i < j < |l| ==> IntLeq(l[i], l[j]);
    }
    if !TombstoneClash(c) {
      ExactlyOnce(c, tr);
      FinalSound(c, tr);
      OnceTidy(c, Final(c, tr));
      assert Fit(c, m, t, l);
    }
  }
}
