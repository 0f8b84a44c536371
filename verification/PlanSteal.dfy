/** The feasibility pass: nobody is ever emptied, members that share one topic with enough
    partitions all end up owning something, and in general exactly when a member starves. */
module PlanSteal {
  import opened Ordering
  import opened Sums
  import opened PlanSpec
  import opened PlanConservation
  import opened PlanBalance

  predicate OwnsAny(out: Plan, m: Str)
  {
    HasAny(Topics(out, m))
  }

  lemma OwnsWitness(out: Plan, m: Str, t: Str)
    requires List(out, m, t) != []
    ensures OwnsAny(out, m)
  {
    assert t in Topics(out, m) && Topics(out, m)[t] != [];
  }

  /** One attempt never empties anybody, and a successful one serves its member. */
  lemma StealServes(c: Ctx, out: Plan, a: Attempt, donor: Str, m: Str)
    requires a.mid in SubsOf(c, a.topic) && MayPick(c, out, a, donor)
    ensures OwnsAny(out, m) ==> OwnsAny(Steal(c, out, a, donor), m)
    ensures Succeeds(c, out, a, donor) ==> OwnsAny(Steal(c, out, a, donor), a.mid)
    ensures m != a.mid && !OwnsAny(out, m) ==> !OwnsAny(Steal(c, out, a, donor), m)
  {
    if Succeeds(c, out, a, donor) {
      ListMove(out, donor, a.mid, a.topic);
      var out' := Steal(c, out, a, donor);
      OwnsWitness(out', a.mid, a.topic);
      if OwnsAny(out, m) {
        var t :| t in Topics(out, m) && Topics(out, m)[t] != [];
        assert List(out, m, t) != [];
        OwnsWitness(out', m, t);
      }
    }
  }

  lemma {:induction false} OwnersStay(c: Ctx, tr: Trace, i: nat, j: nat, m: Str)
    requires Traced(c, tr) && i <= j <= |tr.attempts| && OwnsAny(tr.states[i], m)
    ensures OwnsAny(tr.states[j], m)
    decreases j - i
  {
    if i < j {
      OwnersStay(c, tr, i, j - 1, m);
      TraceStep(c, tr, j - 1);
      StealServes(c, tr.states[j - 1], tr.attempts[j - 1], tr.picks[j - 1], m);
    }
  }

  lemma SortOwns(out: Plan, m: Str)
    ensures OwnsAny(SortPlan(out), m) <==> OwnsAny(out, m)
  {
    NothingWeighsNothing(SortPlan(out), m);
    NothingWeighsNothing(out, m);
    LoadSorted(out, m);
  }

  /** For all inputs and donor choices: whoever owns something after distribution owns
      something in the final plan. */
  lemma NobodyEmptied(c: Ctx, tr: Trace, m: Str)
    requires Run(c, tr) && OwnsAny(Distributed(c), m)
    ensures OwnsAny(Final(c, tr), m)
  {
    RunTraced(c, tr);
    OwnersStay(c, tr, 0, |tr.attempts|, m);
    SortOwns(Stolen(c, tr), m);
  }

  // ------------------------------------------------- when a member starves

  /** Attempt `i` yields something. */
  ghost predicate Rescued(c: Ctx, tr: Trace, i: nat)
    requires Sized(tr) && i < |tr.attempts|
  {
    Succeeds(c, tr.states[i], tr.attempts[i], tr.picks[i])
  }

  lemma {:induction false} StillStarved(c: Ctx, tr: Trace, n: nat, m: Str)
    requires Traced(c, tr) && n <= |tr.attempts| && !OwnsAny(tr.states[0], m)
    requires forall i :: 0 <= i < n && tr.attempts[i].mid == m ==> !Rescued(c, tr, i)
    ensures !OwnsAny(tr.states[n], m)
  {
    if n > 0 {
      StillStarved(c, tr, n - 1, m);
      TraceStep(c, tr, n - 1);
      StealServes(c, tr.states[n - 1], tr.attempts[n - 1], tr.picks[n - 1], m);
    }
  }

  lemma RescueLasts(c: Ctx, tr: Trace, i: nat)
    requires Traced(c, tr) && i < |tr.attempts| && Rescued(c, tr, i)
    ensures OwnsAny(tr.states[|tr.attempts|], tr.attempts[i].mid)
  {
    TraceStep(c, tr, i);
    StealServes(c, tr.states[i], tr.attempts[i], tr.picks[i], tr.attempts[i].mid);
    OwnersStay(c, tr, i + 1, |tr.attempts|, tr.attempts[i].mid);
  }

  /** A member ends with nothing exactly when distribution gave it nothing and, at each of
      its turns, every topic it tried either lists fewer partitions than subscribers or has
      a most-loaded other subscriber holding at most one partition of it. */
  lemma StarvesIff(c: Ctx, tr: Trace, m: Str)
    requires Run(c, tr)
    ensures !OwnsAny(Final(c, tr), m) <==>
              && !OwnsAny(Distributed(c), m)
              && forall i :: 0 <= i < |tr.attempts| && tr.attempts[i].mid == m ==> !Rescued(c, tr, i)
  {
    RunTraced(c, tr);
    SortOwns(Stolen(c, tr), m);
    if OwnsAny(Distributed(c), m) {
      NobodyEmptied(c, tr, m);
    } else if i: nat :| i < |tr.attempts| && tr.attempts[i].mid == m && Rescued(c, tr, i) {
      RescueLasts(c, tr, i);
    } else {
      StillStarved(c, tr, |tr.attempts|, m);
    }
  }

  // ------------------------------------------- members with one topic to share

  /** The subscribers of `t` find partitions of no other topic, and none is named "". */
  ghost predicate SoleTopic(c: Ctx, t: Str)
  {
    && NOBODY !in SubsOf(c, t)
    && forall m, u :: m in SubsOf(c, t) && u in c.byId[m].topics && u != t ==> PartsOf(c, u) == []
  }

  /** The distinct partitions of `t`. */
  function ListedOf(c: Ctx, t: Str): set<Key>
  {
    set p | p in PartsOf(c, t) :: Key(t, p)
  }

  lemma ListedOfListed(c: Ctx, t: Str, p: int)
    ensures Key(t, p) in ListedOf(c, t) <==> Key(t, p) in Listed(c)
  {
  }

  lemma {:induction false} SetNoLarger(s: seq<int>, t: Str, keys: set<Key>)
    requires forall k :: k in keys ==> k.topic == t && k.part in s
    ensures |keys| <= |s|
  {
    if s == [] {
      if k :| k in keys { assert false; }
      assert keys == {};
    } else {
      var x := Key(t, s[|s| - 1]);
      var rest := s[..|s| - 1];
      assert s == rest + [x.part];
      forall k | k in keys - {x} ensures k.topic == t && k.part in rest { }
      SetNoLarger(rest, t, keys - {x});
      assert keys <= (keys - {x}) + {x};
      assert |keys| <= |(keys - {x}) + {x}|;
    }
  }

  /** What a subscriber of `t` owns is of the topic `t`. */
  lemma OwnsOfTopic(c: Ctx, t: Str, out: Plan, m: Str, u: Str)
    requires SoleTopic(c, t) && Sound(c, out) && m in SubsOf(c, t) && u in Topics(out, m)
    ensures u == t && Topics(out, m)[u] != []
  {
    var p := Topics(out, m)[u][0];
    assert Holds(out, m, u, p);
    assert m in SubsOf(c, u) && p in PartsOf(c, u);
  }

  lemma LoadIsList(c: Ctx, t: Str, out: Plan, m: Str)
    requires SoleTopic(c, t) && Sound(c, out) && m in SubsOf(c, t)
    ensures Load(out, m) == |List(out, m, t)|
  {
    var byTopic := Topics(out, m);
    forall u | u in byTopic ensures u == t { OwnsOfTopic(c, t, out, m, u); }
    if t in byTopic {
      assert byTopic.Keys == {t};
      SumSplit(byTopic.Keys, Lengths(byTopic), t);
      assert byTopic.Keys - {t} == {};
    } else {
      assert byTopic.Keys == {};
    }
  }

  ghost predicate HeldAmong(out: Plan, ms: set<Str>, t: Str, k: Key)
  {
    k.topic == t && exists m :: m in ms && Holds(out, m, t, k.part)
  }

  /** A set of partitions, each on the list of some member of `ms`, is no larger than the
      lists together. */
  lemma {:induction false} UnionBound(out: Plan, t: Str, ms: set<Str>, keys: set<Key>, loads: map<Str, int>)
    requires ms <= loads.Keys && forall m :: m in ms ==> loads[m] == |List(out, m, t)|
    requires forall k :: k in keys ==> HeldAmong(out, ms, t, k)
    ensures |keys| <= Sum(ms, loads)
    decreases |ms|
  {
    if keys == {} {
      SumNonNegative(ms, loads);
    } else {
      var k0 :| k0 in keys;
      assert HeldAmong(out, ms, t, k0);
      var m :| m in ms;
      var his := set k | k in keys && Holds(out, m, t, k.part);
      HeldRest(out, t, ms, m, keys, his);
      SetNoLarger(List(out, m, t), t, his);
      UnionBound(out, t, ms - {m}, keys - his, loads);
      SumSplit(ms, loads, m);
      SplitSize(keys, his);
    }
  }

  lemma SplitSize(keys: set<Key>, part: set<Key>)
    requires part <= keys
    ensures |keys| == |part| + |keys - part|
  {
    assert keys == part + (keys - part);
  }

  lemma HeldRest(out: Plan, t: Str, ms: set<Str>, m: Str, keys: set<Key>, his: set<Key>)
    requires forall k :: k in keys ==> HeldAmong(out, ms, t, k)
    requires his == set k | k in keys && Holds(out, m, t, k.part)
    ensures forall k :: k in his ==> k.topic == t && k.part in List(out, m, t)
    ensures forall k :: k in keys - his ==> HeldAmong(out, ms - {m}, t, k)
  {
    forall k | k in keys - his ensures HeldAmong(out, ms - {m}, t, k) {
      var n :| n in ms && Holds(out, n, t, k.part);
      assert n in ms - {m};
    }
  }

  /** All partitions of `t` have owners. */
  ghost predicate AllOwned(c: Ctx, t: Str, out: Plan)
  {
    forall p :: p in PartsOf(c, t) ==> Owned(out, t, p)
  }

  lemma ListsCover(c: Ctx, t: Str, out: Plan, loads: map<Str, int>)
    requires Sound(c, out) && AllOwned(c, t, out)
    requires loads == map m | m in SubsOf(c, t) :: |List(out, m, t)| as int
    ensures |ListedOf(c, t)| <= Sum(SubsOf(c, t), loads)
  {
    forall k | k in ListedOf(c, t) ensures HeldAmong(out, SubsOf(c, t), t, k) {
      assert Owned(out, t, k.part);
      var m :| Holds(out, m, t, k.part);
      assert m in SubsOf(c, t);
    }
    UnionBound(out, t, SubsOf(c, t), ListedOf(c, t), loads);
  }

  /** When everything is owned and a subscriber owns nothing, another owns two. */
  lemma Crowded(c: Ctx, t: Str, out: Plan, mid: Str) returns (d: Str)
    requires Sound(c, out) && AllOwned(c, t, out) && |ListedOf(c, t)| >= |SubsOf(c, t)|
    requires mid in SubsOf(c, t) && !OwnsAny(out, mid)
    ensures d in SubsOf(c, t) && d != mid && |List(out, d, t)| > 1
  {
    var subs := SubsOf(c, t);
    var loads := map m | m in subs :: |List(out, m, t)| as int;
    ListsCover(c, t, out, loads);
    assert loads[mid] == 0 by { if List(out, mid, t) != [] { OwnsWitness(out, mid, t); } }
    SumSplit(subs, loads, mid);
    if forall e :: e in subs - {mid} ==> loads[e] <= 1 {
      SumAtMost(subs - {mid}, loads, 1);
      assert false;
    }
    d :| d in subs - {mid} && loads[d] > 1;
  }

  lemma AllListedOwned(c: Ctx, t: Str, tr: Trace, n: nat)
    requires Run(c, tr) && n <= |tr.attempts| && SoleTopic(c, t) && SubsOf(c, t) != {}
    ensures AllOwned(c, t, tr.states[n])
  {
    var m :| m in SubsOf(c, t);
    assert Takeable(c, t);
    forall p | p in PartsOf(c, t) ensures Owned(tr.states[n], t, p) {
      ListedOfListed(c, t, p);
      assert Expected(c, t, p) >= 1;
      OccDistributed(c, t, p);
      OccState(c, tr, n, t, p);
      OwnedOcc(tr.states[n], t, p);
    }
  }

  /** An attempt on its sole topic by a member that owns nothing succeeds, whichever
      most-loaded donor the scan comes back with. */
  lemma SoleAttemptSucceeds(c: Ctx, t: Str, out: Plan, a: Attempt, donor: Str)
    requires SoleTopic(c, t) && Sound(c, out) && AllOwned(c, t, out) && |ListedOf(c, t)| >= |SubsOf(c, t)|
    requires a.topic == t && a.mid in SubsOf(c, t) && !OwnsAny(out, a.mid) && MayPick(c, out, a, donor)
    ensures Succeeds(c, out, a, donor)
  {
    var d := Crowded(c, t, out, a.mid);
    SetNoLarger(PartsOf(c, t), t, ListedOf(c, t));
    assert Scans(c, out, a);
    assert d in SubsOf(c, t) - {a.mid} && NoHeavier(out, d, donor);
    LoadIsList(c, t, out, d);
    LoadIsList(c, t, out, donor);
  }

  lemma {:induction false} AttemptsInclude(c: Ctx, n: nat, j: nat, t: Str) returns (i: nat)
    requires Indexed(c) && j < n <= |c.ids| && t in c.byId[c.ids[j]].topics
    ensures i < |AttemptsAt(c, n)| && AttemptsAt(c, n)[i] == Attempt(c.ids[j], t)
  {
    if j < n - 1 {
      i := AttemptsInclude(c, n - 1, j, t);
    } else {
      i := AttemptsOfInclude(c.ids[j], c.byId[c.ids[j]].topics, t);
      i := i + |AttemptsAt(c, n - 1)|;
    }
  }

  lemma {:induction false} AttemptsOfInclude(m: Str, topics: seq<Str>, t: Str) returns (i: nat)
    requires t in topics
    ensures i < |AttemptsOf(m, topics)| && AttemptsOf(m, topics)[i] == Attempt(m, t)
  {
    var n := |topics| - 1;
    if topics[n] == t {
      i := |AttemptsOf(m, topics)| - 1;
    } else {
      assert topics == topics[..n] + [topics[n]];
      i := AttemptsOfInclude(m, topics[..n], t);
    }
  }

  lemma SoleRescue(c: Ctx, tr: Trace, t: Str, i: nat)
    requires Run(c, tr) && SoleTopic(c, t) && |ListedOf(c, t)| >= |SubsOf(c, t)|
    requires i < |tr.attempts| && tr.attempts[i].topic == t && !OwnsAny(tr.states[i], tr.attempts[i].mid)
    ensures Rescued(c, tr, i)
  {
    RunTraced(c, tr);
    TraceStep(c, tr, i);
    RunSound(c, tr, i);
    AllListedOwned(c, t, tr, i);
    SoleAttemptSucceeds(c, t, tr.states[i], tr.attempts[i], tr.picks[i]);
  }

  /** Enough distinct partitions: every subscriber of a sole topic ends with something, from
      any previous plan and under any donor tie-break. */
  lemma EnoughServes(c: Ctx, tr: Trace, t: Str, m: Str)
    requires Run(c, tr) && SoleTopic(c, t) && |ListedOf(c, t)| >= |SubsOf(c, t)| && m in SubsOf(c, t)
    ensures OwnsAny(Final(c, tr), m)
  {
    var j :| 0 <= j < |c.ids| && c.ids[j] == m;
    var i := AttemptsInclude(c, |c.ids|, j, t);
    SortOwns(Stolen(c, tr), m);
    RunTraced(c, tr);
    if OwnsAny(tr.states[i], m) {
      OwnersStay(c, tr, i, |tr.attempts|, m);
    } else {
      SoleRescue(c, tr, t, i);
      RescueLasts(c, tr, i);
    }
  }

  // ------------------------------------------------- too few partitions

  ghost predicate HoldsOneOf(out: Plan, m: Str, t: Str, keys: set<Key>)
  {
    exists p :: Holds(out, m, t, p) && Key(t, p) in keys
  }

  /** No partition of `t` has two owners. */
  ghost predicate OneOwner(out: Plan, t: Str)
  {
    forall m, n, p :: Holds(out, m, t, p) && Holds(out, n, t, p) ==> m == n
  }

  /** Members that hold a partition each are no more than the partitions. */
  lemma {:induction false} Pigeonhole(out: Plan, t: Str, ms: set<Str>, keys: set<Key>)
    requires OneOwner(out, t) && forall m :: m in ms ==> HoldsOneOf(out, m, t, keys)
    ensures |ms| <= |keys|
    decreases |ms|
  {
    if ms != {} {
      var m :| m in ms;
      assert HoldsOneOf(out, m, t, keys);
      var p :| Holds(out, m, t, p) && Key(t, p) in keys;
      forall n | n in ms - {m} ensures HoldsOneOf(out, n, t, keys - {Key(t, p)}) {
        assert HoldsOneOf(out, n, t, keys);
        var q :| Holds(out, n, t, q) && Key(t, q) in keys;
        assert q != p;
      }
      Pigeonhole(out, t, ms - {m}, keys - {Key(t, p)});
    }
  }

  lemma FinalOneOwner(c: Ctx, tr: Trace, t: Str)
    requires Run(c, tr) && (t != TOMBSTONE.topic || !TombstoneClash(c))
    ensures OneOwner(Final(c, tr), t)
  {
    var out := Final(c, tr);
    forall m, n, p | Holds(out, m, t, p) && Holds(out, n, t, p) ensures m == n {
      Conservation(c, tr, t, p);
      if !TombstoneClash(c) { ExpectedOnce(c, t, p); }
      assert Occ(out, t, p) <= 1;
      if m != n { OccTwo(out, m, n, t, p); }
    }
  }

  lemma OwnerHoldsOne(c: Ctx, tr: Trace, t: Str, m: Str)
    requires Run(c, tr) && SoleTopic(c, t) && m in SubsOf(c, t) && OwnsAny(Final(c, tr), m)
    ensures HoldsOneOf(Final(c, tr), m, t, ListedOf(c, t))
  {
    var out := Final(c, tr);
    FinalSound(c, tr);
    var u :| u in Topics(out, m) && Topics(out, m)[u] != [];
    OwnsOfTopic(c, t, out, m, u);
    var p := Topics(out, m)[u][0];
    assert Holds(out, m, t, p);
    ListedOfListed(c, t, p);
  }

  /** Feasibility, read off the inputs: in every run, all subscribers of a topic that is the
      only one with partitions for them end with something if and only if it lists at least
      that many distinct partitions. (For a topic named "" without a tombstone clash; with
      one, too few partitions can go round, see TooFewServe.) */
  lemma SoleTopicServedIff(c: Ctx, tr: Trace, t: Str)
    requires Run(c, tr) && SoleTopic(c, t) && (t != TOMBSTONE.topic || !TombstoneClash(c))
    ensures (forall m :: m in SubsOf(c, t) ==> OwnsAny(Final(c, tr), m)) <==> |ListedOf(c, t)| >= |SubsOf(c, t)|
  {
    if |ListedOf(c, t)| >= |SubsOf(c, t)| {
      forall m | m in SubsOf(c, t) ensures OwnsAny(Final(c, tr), m) { EnoughServes(c, tr, t, m); }
    }
    if forall m :: m in SubsOf(c, t) ==> OwnsAny(Final(c, tr), m) {
      forall m | m in SubsOf(c, t) ensures HoldsOneOf(Final(c, tr), m, t, ListedOf(c, t)) {
        OwnerHoldsOne(c, tr, t, m);
      }
      FinalOneOwner(c, tr, t);
      Pigeonhole(Final(c, tr), t, SubsOf(c, t), ListedOf(c, t));
    }
  }

  /** Exactly `t` has partitions, everybody subscribes to it, and nobody is named "". */
  ghost predicate OneSharedTopic(c: Ctx, t: Str)
  {
    && NOBODY !in c.byId && SubsOf(c, t) == c.byId.Keys
    && t in c.parts && (forall u :: u in c.parts && u != t ==> c.parts[u] == [])
  }

  /** With one shared topic, everybody ends with something if and only if there are at least
      as many distinct partitions as members. */
  lemma OneSharedTopicServedIff(c: Ctx, tr: Trace, t: Str)
    requires Run(c, tr) && OneSharedTopic(c, t) && (t != TOMBSTONE.topic || !TombstoneClash(c))
    ensures (forall m :: m in c.byId ==> OwnsAny(Final(c, tr), m)) <==> |Listed(c)| >= |c.byId|
  {
    hide Listed, ListedOf, Run, TombstoneClash, OwnsAny;
    SharedIsSole(c, t);
    SoleTopicServedIff(c, tr, t);
    assert |c.byId.Keys| == |c.byId|;
  }

  lemma SharedIsSole(c: Ctx, t: Str)
    requires OneSharedTopic(c, t)
    ensures SoleTopic(c, t) && ListedOf(c, t) == Listed(c)
  {
    forall k ensures k in Listed(c) <==> k in ListedOf(c, t) {
      if k in Listed(c) { assert k.topic == t && k.part in c.parts[t]; }
      if k in ListedOf(c, t) { assert k.part in c.parts[t]; }
    }
  }
}
