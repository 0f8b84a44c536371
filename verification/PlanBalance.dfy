/** Balance of the distribution pass: the chosen owner is the unique best candidate, loads
    obey a water-filling bound, and with identical subscriptions the resulting load vector
    is optimal among all that extend the sticky loads. */
module PlanBalance {
  import opened Ordering
  import opened Sums
  import opened PlanSpec
  import opened PlanConservation

  // ------------------------------------------------------------------ loads

  ghost function Size(byTopic: map<Str, seq<int>>): int
  {
    Sum(byTopic.Keys, Lengths(byTopic))
  }

  lemma SizeUpdate(byTopic: map<Str, seq<int>>, t: Str, l: seq<int>)
    ensures Size(byTopic[t := l]) == Size(byTopic) - (if t in byTopic then |byTopic[t]| else 0) + |l|
  {
    var after := byTopic[t := l];
    SumSplit(after.Keys, Lengths(after), t);
    assert after.Keys - {t} == byTopic.Keys - {t};
    SumCongruent(byTopic.Keys - {t}, Lengths(after), Lengths(byTopic));
    if t in byTopic {
      SumSplit(byTopic.Keys, Lengths(byTopic), t);
    } else {
      assert byTopic.Keys - {t} == byTopic.Keys;
    }
  }

  lemma LoadAdd(out: Plan, m: Str, t: Str, p: int, n: Str)
    ensures Load(Add(out, m, t, p), n) == Load(out, n) + if n == m then 1 else 0
  {
    if n == m {
      SizeUpdate(Topics(out, m), t, List(out, m, t) + [p]);
    } else {
      assert Topics(Add(out, m, t, p), n) == Topics(out, n);
    }
  }

  lemma LoadMove(out: Plan, donor: Str, m: Str, t: Str, n: Str)
    requires |List(out, donor, t)| > 0 && donor != m
    ensures Load(Move(out, donor, m, t), n) ==
              Load(out, n) + (if n == m then 1 else 0) - (if n == donor then 1 else 0)
  {
    var l := List(out, donor, t);
    LoadAdd(Cut(out, donor, t), m, t, l[|l| - 1], n);
    if n == donor {
      SizeUpdate(Topics(out, donor), t, l[..|l| - 1]);
    } else {
      assert Topics(Cut(out, donor, t), n) == Topics(out, n);
    }
  }

  lemma LoadAtLeast(out: Plan, m: Str, t: Str)
    ensures Load(out, m) >= |List(out, m, t)| >= 0
  {
    var byTopic := Topics(out, m);
    if t in byTopic {
      SumSplit(byTopic.Keys, Lengths(byTopic), t);
      SumNonNegative(byTopic.Keys - {t}, Lengths(byTopic));
    } else {
      SumNonNegative(byTopic.Keys, Lengths(byTopic));
    }
  }

  lemma NothingWeighsNothing(out: Plan, m: Str)
    ensures !HasAny(Topics(out, m)) <==> Load(out, m) == 0
  {
    if HasAny(Topics(out, m)) {
      var t :| t in Topics(out, m) && Topics(out, m)[t] != [];
      LoadAtLeast(out, m, t);
    } else {
      SumZero(Topics(out, m).Keys, Lengths(Topics(out, m)));
    }
  }

  // ---------------------------------------------------------------- choice

  /** `b` is a better owner than `m`: higher score, then lower load, then smaller id. */
  ghost predicate Beats(c: Ctx, out: Plan, b: Str, m: Str)
    requires b in c.byId && m in c.byId
  {
    || Score(c, out, b) > Score(c, out, m)
    || (Score(c, out, b) == Score(c, out, m)
        && (Load(out, b) < Load(out, m) || (Load(out, b) == Load(out, m) && StrLeq(b, m))))
  }

  lemma {:induction false} BestAtReal(c: Ctx, out: Plan, t: Str, n: nat)
    requires Indexed(c) && n <= |c.ids|
    ensures var b := BestAt(c, out, t, n);
            b.id != NOBODY ==>
              b.id in SubsOf(c, t) && b.score == Score(c, out, b.id) && b.load == Load(out, b.id)
  {
    if n > 0 { BestAtReal(c, out, t, n - 1); }
  }

  /** Higher score, or the same score with a lower load. */
  ghost predicate Outranks(c: Ctx, out: Plan, a: Str, b: Str)
    requires a in c.byId && b in c.byId
  {
    Score(c, out, a) > Score(c, out, b) || (Score(c, out, a) == Score(c, out, b) && Load(out, a) < Load(out, b))
  }

  lemma BestStep(c: Ctx, out: Plan, t: Str, n: nat)
    requires Indexed(c) && 0 < n <= |c.ids|
    ensures var b, prior, m := BestAt(c, out, t, n).id, BestAt(c, out, t, n - 1).id, c.ids[n - 1];
            if m !in SubsOf(c, t) then b == prior
            else if prior == NOBODY then b == m
            else prior in SubsOf(c, t) && b == if Outranks(c, out, m, prior) then m else prior
  {
    BestAtReal(c, out, t, n - 1);
  }

  lemma {:induction false} BestAtBeats(c: Ctx, out: Plan, t: Str, n: nat, i: nat)
    requires Indexed(c) && i < n <= |c.ids| && c.ids[i] in SubsOf(c, t) && c.ids[i] != NOBODY
    ensures var b := BestAt(c, out, t, n).id;
            b in SubsOf(c, t) && b != NOBODY && Beats(c, out, b, c.ids[i])
  {
    hide BestAt, Score, Load;
    BestIs(c, out, t, n);
    if i < n - 1 {
      BestAtBeats(c, out, t, n - 1, i);
      BestStep(c, out, t, n);
    } else {
      LastBeaten(c, out, t, n);
    }
  }

  lemma LastBeaten(c: Ctx, out: Plan, t: Str, n: nat)
    requires Indexed(c) && 0 < n <= |c.ids| && c.ids[n - 1] in SubsOf(c, t)
    requires BestAt(c, out, t, n).id in SubsOf(c, t)
    ensures Beats(c, out, BestAt(c, out, t, n).id, c.ids[n - 1])
  {
    hide BestAt, Score, Load;
    BestStep(c, out, t, n);
    BestIs(c, out, t, n - 1);
    assert StrLeq(c.ids[n - 1], c.ids[n - 1]) by { StrOrder(); }
    var prior := BestAt(c, out, t, n - 1).id;
    if prior != NOBODY {
      assert StrLeq(prior, c.ids[n - 1]) by {
        var j :| 0 <= j < n - 1 && c.ids[j] == prior;
      }
    }
  }

  /** The distribution pass gives each partition to the subscriber that beats all others. */
  lemma BestBeats(c: Ctx, out: Plan, t: Str, m: Str)
    requires Indexed(c) && m in SubsOf(c, t) && m != NOBODY
    ensures Best(c, out, t) in SubsOf(c, t) && Best(c, out, t) != NOBODY
    ensures Beats(c, out, Best(c, out, t), m)
  {
    var i :| 0 <= i < |c.ids| && c.ids[i] == m;
    BestAtBeats(c, out, t, |c.ids|, i);
  }

  // --------------------------------------------------------- water-filling

  /** All members subscribe to every topic that lists partitions; none is named "". */
  ghost predicate SharedTopics(c: Ctx)
  {
    NOBODY !in c.byId && forall t :: t in c.parts ==> SubsOf(c, t) == c.byId.Keys
  }

  /** Load in excess of eight times the weight; the pass serves the lowest first. */
  ghost function Level(c: Ctx, out: Plan, m: Str): int
    requires m in c.byId
  {
    Load(out, m) - 8 * Weight(c, m)
  }

  ghost predicate WaterFilled(c: Ctx, before: Plan, after: Plan)
  {
    forall i, j {:trigger FilledPair(c, before, after, i, j)} ::
      i in c.byId && j in c.byId ==> FilledPair(c, before, after, i, j)
  }

  ghost predicate FilledPair(c: Ctx, before: Plan, after: Plan, i: Str, j: Str)
    requires i in c.byId && j in c.byId
  {
    Load(after, j) > Load(before, j) ==> Level(c, after, j) <= Level(c, after, i) + 1
  }

  lemma {:induction false} PlaceAllFills(c: Ctx, before: Plan, keys: seq<Key>)
    requires Indexed(c) && SharedTopics(c)
    requires forall k :: k in keys ==> k in Listed(c)
    ensures WaterFilled(c, before, PlaceAll(c, before, keys))
    ensures forall m :: Load(PlaceAll(c, before, keys), m) >= Load(before, m)
  {
    if keys != [] {
      var n := |keys| - 1;
      PlaceAllFills(c, before, keys[..n]);
      assert keys[n] in keys;
      PlaceFills(c, before, PlaceAll(c, before, keys[..n]), keys[n]);
    }
  }

  lemma PlaceFills(c: Ctx, before: Plan, mid: Plan, k: Key)
    requires Indexed(c) && SharedTopics(c) && k in Listed(c)
    requires WaterFilled(c, before, mid) && forall m :: Load(mid, m) >= Load(before, m)
    ensures WaterFilled(c, before, Place(c, mid, k))
    ensures forall m :: Load(Place(c, mid, k), m) >= Load(before, m)
  {
    var b := Best(c, mid, k.topic);
    if b != NOBODY {
      BestTakes(c, mid, k.topic);
      forall m ensures Load(Place(c, mid, k), m) == Load(mid, m) + if m == b then 1 else 0 {
        LoadAdd(mid, b, k.topic, k.part, m);
      }
      forall i | i in c.byId ensures Level(c, mid, b) <= Level(c, mid, i) {
        BestBeats(c, mid, k.topic, i);
      }
      FillOne(c, before, mid, Place(c, mid, k), b);
    }
  }

  lemma FillOne(c: Ctx, before: Plan, mid: Plan, after: Plan, b: Str)
    requires WaterFilled(c, before, mid) && b in c.byId
    requires forall m :: Load(after, m) == Load(mid, m) + if m == b then 1 else 0
    requires forall i :: i in c.byId ==> Level(c, mid, b) <= Level(c, mid, i)
    ensures WaterFilled(c, before, after)
  {
    forall i, j | i in c.byId && j in c.byId ensures FilledPair(c, before, after, i, j) {
      assert FilledPair(c, before, mid, i, j);
    }
  }

  lemma FreeKeysListed(c: Ctx)
    requires Indexed(c)
    ensures forall k :: k in FreeKeys(c) ==> k in Listed(c)
  {
    forall k | k in FreeKeys(c) ensures k in Listed(c) {
      assert k in multiset(FreeKeys(c));
      OccFreeKeys(c, k);
    }
  }

  /** Water-filling bound: a member that received anything in distribution ends at most one
      above the level of every other member. */
  lemma DistributionFills(c: Ctx)
    requires Indexed(c) && SharedTopics(c)
    ensures WaterFilled(c, Sticky(c).out, Distributed(c))
    ensures forall m :: Load(Distributed(c), m) >= Load(Sticky(c).out, m)
  {
    FreeKeysListed(c);
    PlaceAllFills(c, Sticky(c).out, FreeKeys(c));
  }

  // ------------------------------------------------------------ optimality

  ghost function Loads(c: Ctx, out: Plan): (loads: map<Str, int>)
    ensures loads.Keys == c.byId.Keys
  {
    map m | m in c.byId :: Load(out, m)
  }

  ghost function Levels(c: Ctx, loads: map<Str, int>): (levels: map<Str, int>)
    requires loads.Keys == c.byId.Keys
    ensures levels.Keys == c.byId.Keys
  {
    map m | m in c.byId :: loads[m] - 8 * Weight(c, m)
  }

  /** Sum over the members of (load - 8 * weight)^2. */
  ghost function Cost(c: Ctx, loads: map<Str, int>): int
    requires loads.Keys == c.byId.Keys
  {
    Sum(c.byId.Keys, Squares(Levels(c, loads)))
  }

  lemma LowestLevel(c: Ctx, out: Plan) returns (lowest: Str)
    requires c.byId != map[]
    ensures lowest in c.byId && forall m :: m in c.byId ==> Level(c, out, lowest) <= Level(c, out, m)
  {
    lowest :| lowest in c.byId;
    var todo := c.byId.Keys;
    while todo != {}
      invariant todo <= c.byId.Keys && lowest in c.byId
      invariant forall m :: m in c.byId && m !in todo ==> Level(c, out, lowest) <= Level(c, out, m)
      decreases todo
    {
      var m :| m in todo;
      if Level(c, out, m) < Level(c, out, lowest) { lowest := m; }
      todo := todo - {m};
    }
  }

  lemma FilledOptimal(c: Ctx, before: Plan, out: Plan, other: map<Str, int>, lowest: Str)
    requires WaterFilled(c, before, out) && other.Keys == c.byId.Keys && lowest in c.byId
    requires forall m :: m in c.byId ==> other[m] >= Load(before, m) && Level(c, out, lowest) <= Level(c, out, m)
    requires Sum(c.byId.Keys, other) == Sum(c.byId.Keys, Loads(c, out))
    ensures Cost(c, other) >= Cost(c, Loads(c, out))
  {
    var mine, low := Loads(c, out), Level(c, out, lowest);
    var f, g := Levels(c, mine), Levels(c, other);
    forall m | m in c.byId.Keys ensures low <= f[m] && (g[m] < f[m] ==> f[m] <= low + 1) {
      assert FilledPair(c, before, out, lowest, m);
    }
    SumDifference(c.byId.Keys, g, f, other, mine);
    SquaresDominate(c.byId.Keys, f, g, low);
  }

  /** Optimality: among all load vectors that extend the sticky loads and have the same
      total, the distribution pass attains the least sum of (load - 8 * weight)^2. */
  lemma DistributionOptimal(c: Ctx, other: map<Str, int>)
    requires Indexed(c) && SharedTopics(c) && other.Keys == c.byId.Keys
    requires forall m :: m in c.byId ==> other[m] >= Load(Sticky(c).out, m)
    requires Sum(c.byId.Keys, other) == Sum(c.byId.Keys, Loads(c, Distributed(c)))
    ensures Cost(c, other) >= Cost(c, Loads(c, Distributed(c)))
  {
    if c.byId == map[] {
      assert c.byId.Keys == {};
    } else {
      DistributionFills(c);
      var lowest := LowestLevel(c, Distributed(c));
      FilledOptimal(c, Sticky(c).out, Distributed(c), other, lowest);
    }
  }

  // --------------------------------------------------------------- balance

  ghost predicate EqualWeights(c: Ctx)
  {
    forall m, n :: m in c.byId && n in c.byId ==> Weight(c, m) == Weight(c, n)
  }

  ghost predicate Even(c: Ctx, out: Plan)
  {
    forall m, n {:trigger Close(out, m, n)} :: m in c.byId && n in c.byId ==> Close(out, m, n)
  }

  ghost predicate Close(out: Plan, m: Str, n: Str)
  {
    Load(out, m) <= Load(out, n) + 1
  }

  lemma {:induction false} NothingRetained(c: Ctx, n: nat)
    requires n <= |c.ids| && c.prev == map[]
    ensures StickyAt(c, n).out == map[]
  {
    if n > 0 { NothingRetained(c, n - 1); }
  }

  lemma DistributionEven(c: Ctx)
    requires Indexed(c) && SharedTopics(c) && EqualWeights(c) && c.prev == map[]
    ensures Even(c, Distributed(c))
  {
    forall m, n | m in c.byId && n in c.byId ensures Close(Distributed(c), m, n) {
      PairEven(c, m, n);
    }
  }

  lemma PairEven(c: Ctx, m: Str, n: Str)
    requires Indexed(c) && SharedTopics(c) && EqualWeights(c) && c.prev == map[]
    requires m in c.byId && n in c.byId
    ensures Load(Distributed(c), m) <= Load(Distributed(c), n) + 1
  {
    hide Distributed, Sticky, SharedTopics, Indexed, Load;
    StartsWithNothing(c, m);
    LoadAtLeast(Distributed(c), n, []);
    DistributionFills(c);
    assert FilledPair(c, Sticky(c).out, Distributed(c), n, m);
  }

  lemma StartsWithNothing(c: Ctx, m: Str)
    requires c.prev == map[]
    ensures Load(Sticky(c).out, m) == 0
  {
    NothingRetained(c, |c.ids|);
    assert Topics(Sticky(c).out, m) == map[];
  }

  /** Whole thousands of messages that a member lags behind; nothing counts above 99. */
  function Thousands(lag: int): (k: nat)
    ensures k <= 99 && (lag < 1000 ==> k == 0) && (0 <= lag < 100_000 ==> 1000 * k <= lag < 1000 * (k + 1))
  {
    if lag < 0 then 0 else if lag >= 99_000 then 99 else lag / 1000
  }

  /** What a weight is: 100 without lag worth counting, one less for every thousand messages,
      and 1 from 99000 messages on. */
  lemma WeightIs(c: Ctx, m: Str)
    requires m in c.byId
    ensures 1 <= Weight(c, m) <= 100
    ensures Weight(c, m) == 100 <==> c.byId[m].lag < 1000
    ensures Weight(c, m) == 1 <==> c.byId[m].lag >= 99_000
    ensures 0 <= c.byId[m].lag < 100_000 ==> Weight(c, m) == 100 - c.byId[m].lag / 1000
    ensures Weight(c, m) == 100 - Thousands(c.byId[m].lag)
  {
  }

  lemma WeightSteps(c: Ctx, m: Str, n: Str)
    requires m in c.byId && n in c.byId && c.byId[n].lag == c.byId[m].lag + 1000 && 0 <= c.byId[m].lag < 99_000
    ensures Weight(c, n) == Weight(c, m) - 1
  {
    WeightIs(c, m);
    WeightIs(c, n);
  }

  /** The distribution pass in terms of lag: with shared topics, whoever retained nothing and
      received something stays eight partitions behind everybody else for every thousand
      messages it lags behind them, but for one. */
  lemma LagDecides(c: Ctx, m: Str, n: Str)
    requires Indexed(c) && SharedTopics(c) && m in c.byId && n in c.byId && Load(Sticky(c).out, m) == 0
    ensures Load(Distributed(c), m) > 0 ==>
              Load(Distributed(c), n) >=
                Load(Distributed(c), m) + 8 * (Thousands(c.byId[m].lag) - Thousands(c.byId[n].lag)) - 1
  {
    hide Distributed, Sticky, SharedTopics, Indexed, Load, Weight, Thousands;
    WeightIs(c, m);
    WeightIs(c, n);
    DistributionFills(c);
    assert FilledPair(c, Sticky(c).out, Distributed(c), n, m);
  }

  lemma LowerLagWeighsMore(c: Ctx, m: Str, n: Str)
    requires m in c.byId && n in c.byId && c.byId[n].lag <= c.byId[m].lag
    ensures Weight(c, n) >= Weight(c, m)
  {
  }

  /** Members with lower lag get more: with shared topics, whoever retained nothing ends
      distribution with at most one partition more than anybody whose lag is no higher. */
  lemma LowerLagGetsMore(c: Ctx, m: Str, n: Str)
    requires Indexed(c) && SharedTopics(c) && m in c.byId && n in c.byId && c.byId[n].lag <= c.byId[m].lag
    requires Load(Sticky(c).out, m) == 0
    ensures Load(Distributed(c), n) >= Load(Distributed(c), m) - 1
  {
    hide Distributed, Sticky, SharedTopics, Indexed, Load, Weight;
    LowerLagWeighsMore(c, m, n);
    LoadAtLeast(Distributed(c), n, []);
    DistributionFills(c);
    assert FilledPair(c, Sticky(c).out, Distributed(c), n, m);
  }

  lemma EvenPair(c: Ctx, out: Plan, m: Str, n: Str)
    requires Even(c, out) && m in c.byId && n in c.byId
    ensures Load(out, m) <= Load(out, n) + 1
  {
    assert Close(out, m, n);
  }

  /** Nobody steals when loads are even: a donor would hold at most one partition. */
  lemma EvenNoSteal(c: Ctx, out: Plan, a: Attempt, donor: Str)
    requires Even(c, out) && a.mid in SubsOf(c, a.topic) && MayPick(c, out, a, donor)
    ensures Steal(c, out, a, donor) == out
  {
    if Succeeds(c, out, a, donor) {
      EvenPair(c, out, donor, a.mid);
      LoadAtLeast(out, donor, a.topic);
      NothingWeighsNothing(out, a.mid);
      assert false;
    }
  }

  lemma {:induction false} EvenTrace(c: Ctx, tr: Trace, n: nat)
    requires Traced(c, tr) && n <= |tr.attempts| && Even(c, tr.states[0])
    ensures tr.states[n] == tr.states[0]
  {
    if n > 0 {
      EvenTrace(c, tr, n - 1);
      TraceStep(c, tr, n - 1);
      EvenNoSteal(c, tr.states[n - 1], tr.attempts[n - 1], tr.picks[n - 1]);
    }
  }

  /** With shared topics, equal weights and no previous plan, final loads differ by at
      most one: the feasibility pass has nothing to do. */
  lemma FinalEven(c: Ctx, tr: Trace)
    requires Run(c, tr) && SharedTopics(c) && EqualWeights(c) && c.prev == map[]
    ensures Stolen(c, tr) == Distributed(c)
    ensures Even(c, Final(c, tr))
  {
    DistributionEven(c);
    RunTraced(c, tr);
    EvenTrace(c, tr, |tr.attempts|);
    forall m, n | m in c.byId && n in c.byId ensures Close(Final(c, tr), m, n) {
      LoadSorted(Distributed(c), m);
      LoadSorted(Distributed(c), n);
      assert Close(Distributed(c), m, n);
    }
  }

  lemma LoadSorted(out: Plan, m: Str)
    ensures Load(SortPlan(out), m) == Load(out, m)
  {
    if m in out {
      IntOrder();
      forall t | t in out[m] ensures |SortPlan(out)[m][t]| == |out[m][t]| { SortByKeeps(out[m][t], IntLeq); }
      assert Lengths(SortPlan(out)[m]) == Lengths(out[m]);
      assert SortPlan(out)[m].Keys == out[m].Keys;
    }
  }
}
