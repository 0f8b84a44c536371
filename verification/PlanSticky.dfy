/** Stickiness across the later passes: retained ownerships survive distribution; the
    feasibility pass takes at most one partition per starved member, and takes a retained
    one only when the donor has no newly distributed partition of that topic left. */
module PlanSticky {
  import opened Ordering
  import opened PlanSpec
  import opened PlanConservation
  import opened PlanBalance
  import opened PlanSteal

  /** Distribution only appends to lists. */
  lemma {:induction false} PlaceAllExtends(c: Ctx, out: Plan, keys: seq<Key>, m: Str, t: Str)
    requires Indexed(c)
    ensures List(out, m, t) <= List(PlaceAll(c, out, keys), m, t)
  {
    if keys != [] {
      var n := |keys| - 1;
      PlaceAllExtends(c, out, keys[..n], m, t);
      var mid := PlaceAll(c, out, keys[..n]);
      ListAdd(mid, Best(c, mid, keys[n].topic), keys[n].topic, keys[n].part);
    }
  }

  /** Every still-valid previous ownership, a contested one going to the smallest id,
      survives distribution. */
  lemma RetainedSurvives(c: Ctx, m: Str, t: Str, p: int)
    requires Indexed(c) && Key(t, p) in Listed(c) && FirstClaimant(c, c.ids, m, t, p)
    ensures Holds(Sticky(c).out, m, t, p) && Holds(Distributed(c), m, t, p)
    ensures List(Sticky(c).out, m, t) <= List(Distributed(c), m, t)
  {
    assert c.ids[..|c.ids|] == c.ids;
    StickyIs(c, |c.ids|, m, t, p);
    PlaceAllExtends(c, Sticky(c).out, FreeKeys(c), m, t);
    var a, b := List(Sticky(c).out, m, t), List(Distributed(c), m, t);
    var i :| 0 <= i < |a| && a[i] == p;
    assert b[i] == p;
  }

  // ------------------------------------------------------ shape of steals

  /** What the lists of a member look like during the feasibility pass: somebody who owned
      something after distribution keeps a prefix of each list; somebody who owned nothing
      has at most one partition. */
  ghost predicate Trimmed(base: Plan, out: Plan)
  {
    forall m :: TrimmedAt(base, out, m)
  }

  ghost predicate TrimmedAt(base: Plan, out: Plan, m: Str)
  {
    if OwnsAny(base, m) then OwnsAny(out, m) && forall t :: List(out, m, t) <= List(base, m, t)
    else Load(out, m) <= 1
  }

  lemma StealTrims(c: Ctx, base: Plan, out: Plan, a: Attempt, donor: Str)
    requires Trimmed(base, out) && a.mid in SubsOf(c, a.topic) && MayPick(c, out, a, donor)
    ensures Trimmed(base, Steal(c, out, a, donor))
    ensures Succeeds(c, out, a, donor) ==> OwnsAny(base, donor) && !OwnsAny(base, a.mid)
  {
    if Succeeds(c, out, a, donor) {
      LoadAtLeast(out, donor, a.topic);
      assert TrimmedAt(base, out, donor) && TrimmedAt(base, out, a.mid);
      var out' := Steal(c, out, a, donor);
      ListMove(out, donor, a.mid, a.topic);
      forall m ensures TrimmedAt(base, out', m) {
        assert TrimmedAt(base, out, m);
        StealServes(c, out, a, donor, m);
        LoadMove(out, donor, a.mid, a.topic, m);
        NothingWeighsNothing(out, a.mid);
        if OwnsAny(base, m) {
          forall t ensures List(out', m, t) <= List(base, m, t) {
            assert List(out, m, t) <= List(base, m, t);
          }
        }
      }
    }
  }

  lemma {:induction false} TraceTrims(c: Ctx, tr: Trace, i: nat)
    requires Traced(c, tr) && i <= |tr.attempts|
    ensures Trimmed(tr.states[0], tr.states[i])
  {
    if i == 0 {
      forall m ensures TrimmedAt(tr.states[0], tr.states[0], m) { NothingWeighsNothing(tr.states[0], m); }
    } else {
      TraceTrims(c, tr, i - 1);
      TraceStep(c, tr, i - 1);
      StealTrims(c, tr.states[0], tr.states[i - 1], tr.attempts[i - 1], tr.picks[i - 1]);
    }
  }

  /** Two prefixes of a list without repeats: if the last entry of one is in the other, the
      one is a prefix of the other. */
  lemma LastInPrefix(held: seq<int>, kept: seq<int>, all: seq<int>)
    requires held <= all && kept <= all && Distinct(all) && held != [] && held[|held| - 1] in kept
    ensures held <= kept
  {
    var j :| 0 <= j < |kept| && kept[j] == held[|held| - 1];
    assert all[j] == all[|held| - 1];
    assert j == |held| - 1;
  }

  /** A retained partition is stolen only when all the donor still holds of that topic is
      retained: newly distributed partitions go first. */
  lemma NewlyDistributedGoFirst(c: Ctx, tr: Trace, i: nat)
    requires Run(c, tr) && !TombstoneClash(c) && i < |tr.attempts| && Rescued(c, tr, i)
    ensures var held := List(tr.states[i], tr.picks[i], tr.attempts[i].topic);
            var kept := List(Sticky(c).out, tr.picks[i], tr.attempts[i].topic);
            held[|held| - 1] in kept ==> held <= kept
  {
    var donor, t := tr.picks[i], tr.attempts[i].topic;
    var held, kept, all := List(tr.states[i], donor, t), List(Sticky(c).out, donor, t), List(Distributed(c), donor, t);
    RunTraced(c, tr);
    HeldIsPrefix(c, tr, i);
    PlaceAllExtends(c, Sticky(c).out, FreeKeys(c), donor, t);
    assert Fit(c, donor, t, all) by { DistributedTidy(c); }
    if held[|held| - 1] in kept { LastInPrefix(held, kept, all); }
  }

  lemma HeldIsPrefix(c: Ctx, tr: Trace, i: nat)
    requires Traced(c, tr) && i < |tr.attempts| && Rescued(c, tr, i)
    ensures List(tr.states[i], tr.picks[i], tr.attempts[i].topic) <= List(tr.states[0], tr.picks[i],
            tr.attempts[i].topic)
  {
    TraceTrims(c, tr, i);
    TraceStep(c, tr, i);
    StealTrims(c, tr.states[0], tr.states[i], tr.attempts[i], tr.picks[i]);
    assert TrimmedAt(tr.states[0], tr.states[i], tr.picks[i]);
  }

  // -------------------------------------------------- at most one per member

  /** Retained partitions that `out` no longer leaves with the member that retained them. */
  ghost function Lost(c: Ctx, out: Plan): set<Key>
  {
    set k | k in Listed(c) && exists m :: Holds(Sticky(c).out, m, k.topic, k.part) && !Holds(out, m, k.topic, k.part)
  }

  /** Members that `base` leaves with nothing. */
  ghost function StarvedIn(c: Ctx, base: Plan): set<Str>
  {
    set m | m in c.byId && !OwnsAny(base, m)
  }

  ghost function Served(c: Ctx, base: Plan, out: Plan): set<Str>
  {
    set m | m in c.byId && !OwnsAny(base, m) && OwnsAny(out, m)
  }

  lemma LostStep(c: Ctx, out: Plan, a: Attempt, donor: Str)
    requires Tidy(c, out) && Succeeds(c, out, a, donor) && donor != a.mid
    ensures var l := List(out, donor, a.topic);
            Lost(c, Steal(c, out, a, donor)) <= Lost(c, out) + {Key(a.topic, l[|l| - 1])}
  {
    HoldsMove(c, out, donor, a.mid, a.topic);
  }

  lemma ServedStep(c: Ctx, base: Plan, out: Plan, a: Attempt, donor: Str)
    requires a.mid in SubsOf(c, a.topic) && MayPick(c, out, a, donor) && Trimmed(base, out)
    ensures Served(c, base, out) <= Served(c, base, Steal(c, out, a, donor))
    ensures Succeeds(c, out, a, donor) ==>
              a.mid in Served(c, base, Steal(c, out, a, donor)) && a.mid !in Served(c, base, out)
  {
    forall m ensures OwnsAny(out, m) ==> OwnsAny(Steal(c, out, a, donor), m) { StealServes(c, out, a, donor, m); }
    StealServes(c, out, a, donor, a.mid);
    StealTrims(c, base, out, a, donor);
  }

  lemma OneLossOneServed(c: Ctx, base: Plan, out: Plan, a: Attempt, donor: Str)
    requires a.mid in SubsOf(c, a.topic) && MayPick(c, out, a, donor) && Trimmed(base, out) && Tidy(c, out)
    requires |Lost(c, out)| <= |Served(c, base, out)|
    ensures |Lost(c, Steal(c, out, a, donor))| <= |Served(c, base, Steal(c, out, a, donor))|
  {
    if Succeeds(c, out, a, donor) {
      var out' := Steal(c, out, a, donor);
      var l := List(out, donor, a.topic);
      LostStep(c, out, a, donor);
      ServedStep(c, base, out, a, donor);
      GrowTogether(Lost(c, out), Lost(c, out'), Key(a.topic, l[|l| - 1]), Served(c, base, out),
          Served(c, base, out'), a.mid);
    }
  }

  lemma GrowTogether(lost: set<Key>, lost': set<Key>, k: Key, served: set<Str>, served': set<Str>, m: Str)
    requires |lost| <= |served| && lost' <= lost + {k} && served <= served' && m in served' && m !in served
    ensures |lost'| <= |served'|
  {
    CardinalityMonotone(lost', lost + {k});
    CardinalityMonotone(served + {m}, served');
  }

  lemma {:induction false} CardinalityMonotone<T>(a: set<T>, b: set<T>)
    requires a <= b
    ensures |a| <= |b|
  {
    assert b == a + (b - a);
  }

  lemma NothingLostYet(c: Ctx)
    requires Indexed(c)
    ensures Lost(c, Distributed(c)) == {}
  {
    forall k | k in Lost(c, Distributed(c)) ensures false {
      var m :| Holds(Sticky(c).out, m, k.topic, k.part) && !Holds(Distributed(c), m, k.topic, k.part);
      PlaceAllExtends(c, Sticky(c).out, FreeKeys(c), m, k.topic);
    }
  }

  lemma {:induction false} LostAtMostServed(c: Ctx, tr: Trace, i: nat)
    requires Traced(c, tr) && i <= |tr.attempts| && Lost(c, tr.states[0]) == {}
    requires forall j: nat :: j <= i ==> Tidy(c, tr.states[j])
    ensures |Lost(c, tr.states[i])| <= |Served(c, tr.states[0], tr.states[i])|
  {
    if i > 0 {
      LostAtMostServed(c, tr, i - 1);
      TraceStep(c, tr, i - 1);
      TraceTrims(c, tr, i - 1);
      OneLossOneServed(c, tr.states[0], tr.states[i - 1], tr.attempts[i - 1], tr.picks[i - 1]);
    }
  }

  lemma LostSorted(c: Ctx, out: Plan)
    ensures Lost(c, SortPlan(out)) == Lost(c, out)
  {
    forall m, t, p ensures Holds(SortPlan(out), m, t, p) <==> Holds(out, m, t, p) { HoldsSorted(out, m, t, p); }
  }

  /** The final plan takes away at most one retained partition per member that distribution
      left with nothing. */
  lemma FewRetainedLost(c: Ctx, tr: Trace)
    requires Run(c, tr) && !TombstoneClash(c)
    ensures |Lost(c, Final(c, tr))| <= |StarvedIn(c, Distributed(c))|
  {
    RunTraced(c, tr);
    NothingLostYet(c);
    forall j: nat | j <= |tr.attempts| ensures Tidy(c, tr.states[j]) { RunTidy(c, tr, j); }
    LostAtMostServed(c, tr, |tr.attempts|);
    LostSorted(c, Stolen(c, tr));
    CardinalityMonotone(Served(c, tr.states[0], Stolen(c, tr)), StarvedIn(c, Distributed(c)));
  }

}
