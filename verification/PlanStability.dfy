/** Stability: a previous plan that is complete and still valid survives the first two passes
    unchanged, so planning again from the planner's own result changes nothing once everybody
    owns something. */
module PlanStability {
  import opened Ordering
  import opened PlanSpec
  import opened PlanConservation
  import opened PlanSteal

  lemma {:induction false} KeptAll(free: set<Key>, t: Str, l: seq<int>)
    requires Distinct(l) && forall p :: p in l ==> Key(t, p) in free
    ensures Kept(free, t, l) == l
  {
    if l != [] {
      var n := |l| - 1;
      KeptAll(free, t, l[..n]);
      assert l == l[..n] + [l[n]];
    }
  }

  lemma {:induction false} KeptNone(free: set<Key>, t: Str, l: seq<int>)
    requires forall p :: p in l ==> Key(t, p) !in free
    ensures Kept(free, t, l) == []
  {
    if l != [] {
      KeptNone(free, t, l[..|l| - 1]);
      assert l[|l| - 1] in l;
    }
  }

  /** The part of the previous plan that belongs to `ids`. */
  ghost function Part(prev: Plan, ids: seq<Str>): Plan
  {
    map m | m in prev && m in ids :: prev[m]
  }

  /** Keys are free until their owner's turn. */
  lemma FreeUntilOwner(c: Ctx, n: nat, m: Str, t: Str, p: int)
    requires Indexed(c) && n <= |c.ids| && Tidy(c, c.prev) && Holds(c.prev, m, t, p)
    ensures Key(t, p) in StickyAt(c, n).free <==> m !in c.ids[..n]
  {
    FreeIs(c, n, t, p);
    assert Fit(c, m, t, List(c.prev, m, t));
    if m !in c.ids[..n] {
      forall o | o in c.ids[..n] ensures !Claims(c, o, t, p) { assert Claims(c, o, t, p) ==> Holds(c.prev, o, t, p); }
    } else {
      assert Claims(c, m, t, p);
    }
  }

  /** A member's turn gives it its whole share of the previous plan, the first time. */
  lemma GainIs(c: Ctx, n: nat, m: Str)
    requires Indexed(c) && n <= |c.ids| && Tidy(c, c.prev)
    ensures Gain(c, StickyAt(c, n).free, m, Topics(c.prev, m).Keys) ==
              if m in c.ids[..n] then map[] else Topics(c.prev, m)
  {
    var free := StickyAt(c, n).free;
    forall t | t in Topics(c.prev, m) ensures KeptBySelf(c, free, m, t) == if m in c.ids[..n] then []
        else c.prev[m][t] {
      var l := List(c.prev, m, t);
      assert Fit(c, m, t, l);
      forall p | p in l ensures Key(t, p) in free <==> m !in c.ids[..n] {
        assert Holds(c.prev, m, t, p);
        FreeUntilOwner(c, n, m, t, p);
      }
      if m in c.ids[..n] { KeptNone(free, t, l); } else { KeptAll(free, t, l); }
    }
    forall t | t in Topics(c.prev, m) ensures m in SubsOf(c, t) && c.prev[m][t] != [] {
      assert Fit(c, m, t, List(c.prev, m, t));
    }
  }

  ghost function KeptBySelf(c: Ctx, free: set<Key>, m: Str, t: Str): seq<int>
    requires t in Topics(c.prev, m)
  {
    Kept(free, t, c.prev[m][t])
  }

  lemma MergeEmpty(a: map<Str, seq<int>>)
    ensures Merge(map[], a) == a
  {
    var r := Merge(map[], a);
    assert r.Keys == a.Keys;
    forall t | t in a ensures r[t] == a[t] { assert [] + a[t] == a[t]; }
  }

  lemma PartSnoc(prev: Plan, ids: seq<Str>, m: Str)
    ensures Part(prev, ids + [m]) == if m in ids || m !in prev then Part(prev, ids) else Part(prev, ids)[m := prev[m]]
  {
    assert forall o :: o in ids + [m] <==> o in ids || o == m;
  }

  lemma AbsorbPart(prev: Plan, ids: seq<Str>, m: Str)
    requires Full(prev)
    ensures Absorb(Part(prev, ids), m, if m in ids then map[] else Topics(prev, m)) == Part(prev, ids + [m])
  {
    PartSnoc(prev, ids, m);
    if m in prev { MergeEmpty(prev[m]); }
  }

  lemma {:induction false} StickyPart(c: Ctx, n: nat)
    requires Indexed(c) && n <= |c.ids| && Tidy(c, c.prev)
    ensures StickyAt(c, n).out == Part(c.prev, c.ids[..n])
  {
    hide Gain, Absorb, Fit, Exclusive;
    if n == 0 {
      assert Part(c.prev, c.ids[..0]) == map[];
    } else {
      StickyPart(c, n - 1);
      var m := c.ids[n - 1];
      GainIs(c, n - 1, m);
      AbsorbPart(c.prev, c.ids[..n - 1], m);
      assert c.ids[..n] == c.ids[..n - 1] + [m];
    }
  }

  /** Everything that can be taken is owned. */
  ghost predicate Complete(c: Ctx, out: Plan)
  {
    forall t, p :: Key(t, p) in Listed(c) && Takeable(c, t) ==> Owned(out, t, p)
  }

  lemma {:induction false} NothingPlaced(c: Ctx, out: Plan, keys: seq<Key>)
    requires Indexed(c) && forall k :: k in keys ==> !Takeable(c, k.topic)
    ensures PlaceAll(c, out, keys) == out
  {
    if keys != [] {
      var n := |keys| - 1;
      NothingPlaced(c, out, keys[..n]);
      assert keys[n] in keys;
      BestTakes(c, out, keys[n].topic);
    }
  }

  lemma StickyWhole(c: Ctx)
    requires Indexed(c) && Tidy(c, c.prev)
    ensures Sticky(c).out == c.prev
  {
    StickyPart(c, |c.ids|);
    assert c.ids[..|c.ids|] == c.ids;
    forall m | m in c.prev ensures m in c.ids { OwnersAreMembers(c, m); }
  }

  lemma LeftOverUntakeable(c: Ctx, k: Key)
    requires Indexed(c) && Complete(c, Sticky(c).out) && k in FreeKeys(c)
    ensures !Takeable(c, k.topic)
  {
    assert k in multiset(FreeKeys(c));
    OccFreeKeys(c, k);
    FreeOrRetained(c, k);
    StickyFree(c, k.topic, k.part);
    assert k == Key(k.topic, k.part);
  }

  /** A valid and complete previous plan is what distribution ends with. */
  lemma Stable(c: Ctx)
    requires Indexed(c) && Tidy(c, c.prev) && Complete(c, c.prev)
    ensures Distributed(c) == c.prev
  {
    StickyWhole(c);
    forall k | k in FreeKeys(c) ensures !Takeable(c, k.topic) { LeftOverUntakeable(c, k); }
    NothingPlaced(c, c.prev, FreeKeys(c));
  }

  lemma OwnersAreMembers(c: Ctx, m: Str)
    requires Indexed(c) && Tidy(c, c.prev) && m in c.prev
    ensures m in c.ids
  {
    var t :| t in c.prev[m];
    assert Fit(c, m, t, List(c.prev, m, t));
  }

  /** If everybody who could try owns something, the feasibility pass does nothing. */
  lemma {:induction false} NobodyTries(c: Ctx, tr: Trace, n: nat)
    requires Steps(c, tr) && n <= |tr.attempts| && forall a :: a in tr.attempts ==> OwnsAny(tr.states[0], a.mid)
    ensures tr.states[n] == tr.states[0]
  {
    if n > 0 {
      NobodyTries(c, tr, n - 1);
      NextState(c, tr, n - 1);
      assert tr.attempts[n - 1] in tr.attempts;
    }
  }

  lemma SortedTwice(l: seq<int>)
    ensures TotalOrder(IntLeq) && SortBy(SortBy(l, IntLeq), IntLeq) == SortBy(l, IntLeq)
  {
    IntOrder();
    SortByKeeps(l, IntLeq);
    SortByKeeps(SortBy(l, IntLeq), IntLeq);
    SortedUnique(SortBy(SortBy(l, IntLeq), IntLeq), SortBy(l, IntLeq), IntLeq);
  }

  lemma SortListsTwice(byTopic: map<Str, seq<int>>)
    ensures SortLists(SortLists(byTopic)) == SortLists(byTopic)
  {
    var once := SortLists(byTopic);
    var twice := SortLists(once);
    assert twice.Keys == once.Keys;
    forall t | t in once ensures twice[t] == once[t] { SortedTwice(byTopic[t]); }
  }

  lemma SortPlanTwice(out: Plan)
    ensures SortPlan(SortPlan(out)) == SortPlan(out)
  {
    var once := SortPlan(out);
    var twice := SortPlan(once);
    assert twice.Keys == once.Keys;
    forall m | m in once ensures twice[m] == once[m] { SortListsTwice(out[m]); }
  }

  lemma FinalTidy(c: Ctx, tr: Trace)
    requires Run(c, tr) && !TombstoneClash(c)
    ensures Tidy(c, Final(c, tr)) && Complete(c, Final(c, tr))
  {
    ExactlyOnce(c, tr);
    FinalSound(c, tr);
    OnceTidy(c, Final(c, tr));
    forall t, p | Key(t, p) in Listed(c) && Takeable(c, t) ensures Owned(Final(c, tr), t, p) {
      OwnedOcc(Final(c, tr), t, p);
    }
  }

  /** The same group planned again, from the plan it got. */
  ghost function Again(c: Ctx, tr: Trace): Ctx
    requires Run(c, tr)
  {
    c.(prev := Final(c, tr))
  }

  lemma TidyAgain(c: Ctx, tr: Trace)
    requires Run(c, tr) && !TombstoneClash(c)
    ensures Tidy(Again(c, tr), Final(c, tr)) && Complete(Again(c, tr), Final(c, tr))
  {
    FinalTidy(c, tr);
    var d, out := Again(c, tr), Final(c, tr);
    assert Listed(d) == Listed(c);
    forall t ensures SubsOf(d, t) == SubsOf(c, t) { }
    forall m, t ensures Fit(d, m, t, List(out, m, t)) { assert Fit(c, m, t, List(out, m, t)); }
    forall t, p | Key(t, p) in Listed(d) && Takeable(d, t) ensures Owned(out, t, p) { assert Takeable(c, t); }
  }

  /** Planning again from the planner's own result starts the feasibility pass from that
      result; and if everybody with a topic owns something, the result is a fixed point,
      under every donor choice. */
  lemma Replanned(c: Ctx, tr: Trace, tr': Trace)
    requires Run(c, tr) && !TombstoneClash(c) && Run(Again(c, tr), tr')
    ensures Distributed(Again(c, tr)) == Final(c, tr)
    ensures (forall a :: a in Attempts(c) ==> OwnsAny(Final(c, tr), a.mid)) ==> Final(Again(c, tr), tr') == Final(c, tr)
  {
    TidyAgain(c, tr);
    Stable(Again(c, tr));
    if forall a :: a in Attempts(c) ==> OwnsAny(Final(c, tr), a.mid) {
      SameAttempts(c, Again(c, tr), |c.ids|);
      NobodyTries(Again(c, tr), tr', |tr'.attempts|);
      SortPlanTwice(Stolen(c, tr));
    }
  }

  lemma {:induction false} SameAttempts(c: Ctx, d: Ctx, n: nat)
    requires Indexed(c) && Indexed(d) && d.ids == c.ids && d.byId == c.byId && n <= |c.ids|
    ensures AttemptsAt(d, n) == AttemptsAt(c, n)
  {
    if n > 0 { SameAttempts(c, d, n - 1); }
  }
}
