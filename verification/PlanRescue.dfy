/** The first member to go hungry: whether the feasibility pass serves it can be told from the
    plan after distribution, which is a function of the inputs. */
module PlanRescue {
  import opened Ordering
  import opened PlanSpec
  import opened PlanConservation
  import opened PlanSteal
  import opened PlanDeterminism

  /** Every donor that the scan for `a` may come back with has two partitions to choose from. */
  ghost predicate SureDonors(c: Ctx, out: Plan, a: Attempt)
  {
    && Scans(c, out, a) && SubsOf(c, a.topic) - {a.mid} != {}
    && forall d :: MaxDonor(c, out, a, d) ==> Succeeds(c, out, a, d)
  }

  /** One of the topics of `m` is sure to yield a partition. */
  ghost predicate SureOfRescue(c: Ctx, out: Plan, m: Str)
    requires m in c.byId
  {
    exists t :: t in c.byId[m].topics && SureDonors(c, out, Attempt(m, t))
  }

  /** `m` owns nothing after distribution, and every member before it owns something. */
  ghost predicate FirstHungry(c: Ctx, m: Str)
    requires Indexed(c)
  {
    && m in c.ids && !OwnsAny(Distributed(c), m)
    && forall j, k :: 0 <= j < k < |c.ids| && c.ids[k] == m && c.ids[j] != m ==> OwnsAny(Distributed(c), c.ids[j])
  }

  /** Attempt `i` is by `m` or by an owner. */
  ghost predicate Harmless(out: Plan, attempts: seq<Attempt>, m: Str, n: nat)
  {
    n <= |attempts| && forall i :: 0 <= i < n ==> attempts[i].mid == m || OwnsAny(out, attempts[i].mid)
  }

  lemma {:induction false} AttemptsOfMid(m: Str, topics: seq<Str>)
    ensures forall a :: a in AttemptsOf(m, topics) ==> a.mid == m && a.topic in topics
  {
    if topics != [] { AttemptsOfMid(m, topics[..|topics| - 1]); }
  }

  lemma {:induction false} AttemptsOwner(c: Ctx, n: nat, i: nat) returns (j: nat)
    requires Indexed(c) && n <= |c.ids| && i < |AttemptsAt(c, n)|
    ensures j < n && AttemptsAt(c, n)[i].mid == c.ids[j] && AttemptsAt(c, n)[i].topic in c.byId[c.ids[j]].topics
  {
    AttemptsOfMid(c.ids[n - 1], c.byId[c.ids[n - 1]].topics);
    if i < |AttemptsAt(c, n - 1)| {
      j := AttemptsOwner(c, n - 1, i);
    } else {
      j := n - 1;
      assert AttemptsAt(c, n)[i] in AttemptsOf(c.ids[n - 1], c.byId[c.ids[n - 1]].topics);
    }
  }

  lemma {:induction false} AttemptsGrow(c: Ctx, n: nat, k: nat)
    requires Indexed(c) && n <= k <= |c.ids|
    ensures AttemptsAt(c, n) <= AttemptsAt(c, k)
  {
    if n < k { AttemptsGrow(c, n, k - 1); }
  }

  /** Up to the last turn of the first hungry member, only it and owners make attempts. */
  lemma HarmlessUpTo(c: Ctx, m: Str, k: nat)
    requires Indexed(c) && FirstHungry(c, m) && k < |c.ids| && c.ids[k] == m
    ensures Harmless(Distributed(c), Attempts(c), m, |AttemptsAt(c, k + 1)|)
  {
    hide Distributed, OwnsAny, AttemptsAt;
    AttemptsGrow(c, k + 1, |c.ids|);
    var attempts := AttemptsAt(c, k + 1);
    forall i: nat | i < |attempts| ensures attempts[i].mid == m || OwnsAny(Distributed(c), attempts[i].mid) {
      var j := AttemptsOwner(c, k + 1, i);
    }
  }

  lemma LastTurn(c: Ctx, m: Str) returns (k: nat)
    requires m in c.ids
    ensures k < |c.ids| && c.ids[k] == m && forall j :: k < j < |c.ids| ==> c.ids[j] != m
  {
    var i :| 0 <= i < |c.ids| && c.ids[i] == m;
    k := i;
    while exists j :: k < j < |c.ids| && c.ids[j] == m
      invariant k < |c.ids| && c.ids[k] == m
      decreases |c.ids| - k
    {
      var j :| k < j < |c.ids| && c.ids[j] == m;
      k := j;
    }
  }

  /** An attempt by an owner changes nothing, nor does a failed one. */
  lemma {:induction false} StillDistributed(c: Ctx, tr: Trace, m: Str, n: nat)
    requires Steps(c, tr) && Harmless(tr.states[0], tr.attempts, m, n)
    requires forall i: nat :: i < n && tr.attempts[i].mid == m ==> !Rescued(c, tr, i)
    ensures tr.states[n] == tr.states[0]
  {
    if n > 0 {
      StillDistributed(c, tr, m, n - 1);
      NextState(c, tr, n - 1);
    }
  }

  // ----------------------------------------------------------- sure rescue

  lemma SureRescued(c: Ctx, tr: Trace, i: nat)
    requires Steps(c, tr) && i < |tr.attempts| && SureDonors(c, tr.states[i], tr.attempts[i])
    ensures Rescued(c, tr, i)
  {
    NextState(c, tr, i);
  }

  /** In every run some attempt of `m` succeeds. */
  lemma SomeRescue(c: Ctx, tr: Trace, m: Str, t: Str) returns (i: nat)
    requires Run(c, tr) && FirstHungry(c, m) && t in c.byId[m].topics && SureDonors(c, Distributed(c), Attempt(m, t))
    ensures i < |tr.attempts| && tr.attempts[i].mid == m && Rescued(c, tr, i)
  {
    hide Distributed, SureDonors, OwnsAny, AttemptsAt, MayPick, Steal, Succeeds;
    var k := LastTurn(c, m);
    i := AttemptsInclude(c, k + 1, k, t);
    AttemptsGrow(c, k + 1, |c.ids|);
    HarmlessUpTo(c, m, k);
    if j: nat :| j < i && tr.attempts[j].mid == m && Rescued(c, tr, j) {
      i := j;
    } else {
      StillDistributed(c, tr, m, i);
      SureRescued(c, tr, i);
    }
  }

  lemma SureServes(c: Ctx, tr: Trace, m: Str)
    requires Run(c, tr) && FirstHungry(c, m) && SureOfRescue(c, Distributed(c), m)
    ensures OwnsAny(Final(c, tr), m)
  {
    hide Distributed, SureDonors, OwnsAny;
    var t :| t in c.byId[m].topics && SureDonors(c, Distributed(c), Attempt(m, t));
    var i := SomeRescue(c, tr, m, t);
    RunTraced(c, tr);
    RescueLasts(c, tr, i);
    SortOwns(Stolen(c, tr), m);
  }

  // ------------------------------------------------------ a run without luck

  lemma UnluckyPick(c: Ctx, out: Plan, a: Attempt) returns (d: Str)
    requires !SureDonors(c, out, a)
    ensures MayPick(c, out, a, d) && !Succeeds(c, out, a, d)
  {
    if Scans(c, out, a) && SubsOf(c, a.topic) - {a.mid} != {} {
      d :| MaxDonor(c, out, a, d) && !Succeeds(c, out, a, d);
    } else {
      d := NOBODY;
    }
  }

  /** Follow the attempts up to `n`, with the picks that fail `m`. */
  lemma {:induction false} UnluckyRun(c: Ctx, attempts: seq<Attempt>, out: Plan, m: Str, n: nat) returns (tr: Trace)
    requires Harmless(out, attempts, m, n) && m in c.byId && !SureOfRescue(c, out, m)
    requires forall a :: a in attempts && a.mid == m ==> a.topic in c.byId[m].topics
    ensures Steps(c, tr) && tr.attempts == attempts[..n] && tr.states[0] == out && tr.states[n] == out
    ensures forall i: nat :: i < n && tr.attempts[i].mid == m ==> !Rescued(c, tr, i)
  {
    if n == 0 {
      tr := Trace([], [], [out]);
    } else {
      var front := UnluckyRun(c, attempts, out, m, n - 1);
      var a := attempts[n - 1];
      assert a in attempts;
      var d;
      if a.mid == m {
        assert a == Attempt(m, a.topic);
        d := UnluckyPick(c, out, a);
      } else {
        d := SomePick(c, out, a);
      }
      ExtendSteps(c, front, a, d);
      tr := Extend(c, front, a, d);
      assert attempts[..n] == attempts[..n - 1] + [a];
      forall i: nat | i < n && tr.attempts[i].mid == m ensures !Rescued(c, tr, i) {
        if i < n - 1 { assert !Rescued(c, front, i); }
      }
    }
  }

  lemma UnluckyEnds(c: Ctx, m: Str) returns (tr: Trace)
    requires Indexed(c) && FirstHungry(c, m) && !SureOfRescue(c, Distributed(c), m)
    ensures Run(c, tr) && !OwnsAny(Final(c, tr), m)
  {
    var k := LastTurn(c, m);
    HarmlessUpTo(c, m, k);
    AttemptsGrow(c, k + 1, |c.ids|);
    var n := |AttemptsAt(c, k + 1)|;
    OwnTopics(c, m);
    var part := UnluckyRun(c, Attempts(c), Distributed(c), m, n);
    tr := Completed(c, Attempts(c), part);
    forall i: nat | i < |tr.attempts| && tr.attempts[i].mid == m ensures !Rescued(c, tr, i) {
      TurnsEnd(c, m, k, i);
      assert !Rescued(c, part, i);
      assert part.states[i] == tr.states[i] && part.picks[i] == tr.picks[i] && part.attempts[i] == tr.attempts[i];
    }
    StarvesIff(c, tr, m);
  }

  lemma OwnTopics(c: Ctx, m: Str)
    requires Indexed(c) && m in c.byId
    ensures forall a :: a in Attempts(c) && a.mid == m ==> a.topic in c.byId[m].topics
  {
    forall a | a in Attempts(c) && a.mid == m ensures a.topic in c.byId[m].topics {
      var i: nat :| i < |Attempts(c)| && Attempts(c)[i] == a;
      var j := AttemptsOwner(c, |c.ids|, i);
    }
  }

  /** After its last turn a member makes no more attempts. */
  lemma TurnsEnd(c: Ctx, m: Str, k: nat, i: nat)
    requires Indexed(c) && k < |c.ids| && (forall j :: k < j < |c.ids| ==> c.ids[j] != m)
    requires i < |Attempts(c)| && Attempts(c)[i].mid == m
    ensures i < |AttemptsAt(c, k + 1)|
  {
    hide AttemptsAt;
    if i >= |AttemptsAt(c, k + 1)| { LaterOwner(c, k + 1, |c.ids|, i); }
  }

  lemma {:induction false} LaterOwner(c: Ctx, k: nat, n: nat, i: nat)
    requires Indexed(c) && k <= n <= |c.ids| && |AttemptsAt(c, k)| <= i < |AttemptsAt(c, n)|
    ensures exists j :: k <= j < n && c.ids[j] == AttemptsAt(c, n)[i].mid
  {
    AttemptsOfMid(c.ids[n - 1], c.byId[c.ids[n - 1]].topics);
    if i < |AttemptsAt(c, n - 1)| {
      LaterOwner(c, k, n - 1, i);
    } else {
      assert AttemptsAt(c, n)[i] in AttemptsOf(c.ids[n - 1], c.byId[c.ids[n - 1]].topics);
    }
  }

  /** The first hungry member is served in every run if and only if, in the plan after
      distribution, one of its topics lists at least as many partitions as subscribers and
      every most-loaded other subscriber holds two of them. */
  lemma FirstHungryServedIff(c: Ctx, m: Str)
    requires Indexed(c) && FirstHungry(c, m)
    ensures (forall tr :: Run(c, tr) ==> OwnsAny(Final(c, tr), m)) <==> SureOfRescue(c, Distributed(c), m)
  {
    if SureOfRescue(c, Distributed(c), m) {
      forall tr | Run(c, tr) ensures OwnsAny(Final(c, tr), m) { SureServes(c, tr, m); }
    } else {
      var tr := UnluckyEnds(c, m);
    }
  }
}
