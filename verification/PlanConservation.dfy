/** Conservation: through every pass each listed partition has at most one owner, owners
    subscribe to what they own, nothing unlisted is assigned, and a listed partition is
    assigned exactly when somebody can take it. */
module PlanConservation {
  import opened Ordering
  import opened PlanSpec
  import opened Sums

  /** `m` held (t, p) in the previous plan and still subscribes to `t`. */
  predicate Claims(c: Ctx, m: Str, t: Str, p: int)
  {
    m in SubsOf(c, t) && p in List(c.prev, m, t)
  }

  /** Lists and inner maps are never empty. */
  ghost predicate Full(out: Plan)
  {
    && (forall m :: m in out ==> out[m] != map[])
    && (forall m, t :: m in out && t in out[m] ==> out[m][t] != [])
  }

  /** A list has no repeats, names listed partitions only, and its owner subscribes. */
  ghost predicate Fit(c: Ctx, m: Str, t: Str, l: seq<int>)
  {
    && Distinct(l)
    && (forall p :: p in l ==> Key(t, p) in Listed(c))
    && (l != [] ==> m in SubsOf(c, t))
  }

  /** No partition has two owners. */
  ghost predicate Exclusive(out: Plan)
  {
    forall m, n, t, p :: Holds(out, m, t, p) && Holds(out, n, t, p) ==> m == n
  }

  ghost predicate Tidy(c: Ctx, out: Plan)
  {
    && Full(out)
    && (forall m, t :: Fit(c, m, t, List(out, m, t)))
    && Exclusive(out)
  }

  /** Owners subscribe to what they own, and only listed partitions are owned. */
  ghost predicate Sound(c: Ctx, out: Plan)
  {
    && Full(out)
    && (forall m, t, p :: Holds(out, m, t, p) ==> m in SubsOf(c, t) && Key(t, p) in Listed(c))
  }

  ghost predicate Owned(out: Plan, t: Str, p: int)
  {
    exists m :: Holds(out, m, t, p)
  }

  // ------------------------------------------------------ effect of steps

  lemma ListAdd(out: Plan, m: Str, t: Str, p: int)
    ensures forall n, u :: List(Add(out, m, t, p), n, u) ==
              if n == m && u == t then List(out, m, t) + [p] else List(out, n, u)
    ensures Full(out) ==> Full(Add(out, m, t, p))
  {
    var out' := Add(out, m, t, p);
    assert t in out'[m];
    assert forall n :: n in out' && n != m ==> out'[n] == out[n];
    assert forall u :: u in out'[m] && u != t ==> m in out && u in out[m] && out'[m][u] == out[m][u];
  }

  lemma HoldsAdd(out: Plan, m: Str, t: Str, p: int)
    ensures forall n, u, q :: Holds(Add(out, m, t, p), n, u, q) <==>
              Holds(out, n, u, q) || (n == m && u == t && q == p)
  {
    ListAdd(out, m, t, p);
  }

  lemma ListCut(out: Plan, donor: Str, t: Str)
    requires |List(out, donor, t)| > 1
    ensures var l := List(out, donor, t);
            forall n, u :: List(Cut(out, donor, t), n, u) ==
              if n == donor && u == t then l[..|l| - 1] else List(out, n, u)
    ensures Full(out) ==> Full(Cut(out, donor, t))
    ensures Cut(out, donor, t).Keys == out.Keys
  {
    var l := List(out, donor, t);
    var cut := Cut(out, donor, t);
    assert t in cut[donor];
    assert forall u :: u in cut[donor] && u != t ==> u in out[donor] && cut[donor][u] == out[donor][u];
    assert forall n :: n in cut && n != donor ==> n in out && cut[n] == out[n];
  }

  /** A move takes the last entry of the donor's list, appends it to the receiver's, and
      changes no other list. */
  lemma ListMove(out: Plan, donor: Str, m: Str, t: Str)
    requires |List(out, donor, t)| > 1 && m != donor
    ensures var l := List(out, donor, t);
            forall n, u :: List(Move(out, donor, m, t), n, u) ==
              if n == donor && u == t then l[..|l| - 1]
              else if n == m && u == t then List(out, m, t) + [l[|l| - 1]]
              else List(out, n, u)
    ensures Full(out) ==> Full(Move(out, donor, m, t))
  {
    ListCut(out, donor, t);
    var l := List(out, donor, t);
    ListAdd(Cut(out, donor, t), m, t, l[|l| - 1]);
  }

  lemma HoldsMove(c: Ctx, out: Plan, donor: Str, m: Str, t: Str)
    requires Tidy(c, out) && |List(out, donor, t)| > 1 && m != donor
    ensures var l := List(out, donor, t); var x := l[|l| - 1];
            forall n, u, q :: Holds(Move(out, donor, m, t), n, u, q) <==>
              (Holds(out, n, u, q) && !(n == donor && u == t && q == x)) || (n == m && u == t && q == x)
  {
    var l := List(out, donor, t);
    assert Fit(c, donor, t, l);
    assert l == l[..|l| - 1] + [l[|l| - 1]];
    ListMove(out, donor, m, t);
  }

  // ------------------------------------------------------------ stickiness

  lemma {:induction false} KeptIs(free: set<Key>, t: Str, previous: seq<int>)
    ensures Distinct(Kept(free, t, previous))
    ensures forall p :: p in Kept(free, t, previous) <==> p in previous && Key(t, p) in free
  {
    if previous != [] {
      var n := |previous| - 1;
      KeptIs(free, t, previous[..n]);
      assert previous == previous[..n] + [previous[n]];
    }
  }

  ghost function KeptBy(c: Ctx, free: set<Key>, m: Str, t: Str): seq<int>
  {
    if m in SubsOf(c, t) then Kept(free, t, List(c.prev, m, t)) else []
  }

  lemma RetainList(c: Ctx, s: Split, m: Str, n: Str, t: Str)
    ensures List(Retain(c, s, m).out, n, t) ==
              List(s.out, n, t) + if n == m then KeptBy(c, s.free, m, t) else []
  {
    var gain := Gain(c, s.free, m, Topics(c.prev, m).Keys);
    assert (if t in gain then gain[t] else []) == KeptBy(c, s.free, m, t);
    if gain != map[] && n == m {
      assert Retain(c, s, m).out[m] == Merge(Topics(s.out, m), gain);
    }
  }

  lemma RetainFull(c: Ctx, s: Split, m: Str)
    requires Full(s.out)
    ensures Full(Retain(c, s, m).out)
  {
    var gain := Gain(c, s.free, m, Topics(c.prev, m).Keys);
    var out' := Retain(c, s, m).out;
    if gain != map[] {
      var t :| t in gain;
      assert t in out'[m];
      assert forall u :: u in out'[m] ==> (u in gain && gain[u] != []) || (m in s.out && u in s.out[m]);
    }
  }

  lemma RetainFree(c: Ctx, s: Split, m: Str, t: Str, p: int)
    ensures Key(t, p) in Retain(c, s, m).free <==> Key(t, p) in s.free && !Claims(c, m, t, p)
  {
    var gain := Gain(c, s.free, m, Topics(c.prev, m).Keys);
    KeptIs(s.free, t, List(c.prev, m, t));
    if Key(t, p) in s.free && Claims(c, m, t, p) {
      assert t in gain && p in gain[t];
    }
  }

  /** Contested partitions go to the smallest claimant. */
  ghost predicate FirstClaimant(c: Ctx, ids: seq<Str>, m: Str, t: Str, p: int)
  {
    m in ids && Claims(c, m, t, p) && forall n :: n in ids && Claims(c, n, t, p) ==> StrLeq(m, n)
  }

  ghost predicate Unclaimed(c: Ctx, ids: seq<Str>, t: Str, p: int)
  {
    forall m :: m in ids ==> !Claims(c, m, t, p)
  }

  lemma {:induction false} FreeIs(c: Ctx, n: nat, t: Str, p: int)
    requires Indexed(c) && n <= |c.ids|
    ensures Key(t, p) in StickyAt(c, n).free <==> Key(t, p) in Listed(c) && Unclaimed(c, c.ids[..n], t, p)
  {
    if n > 0 {
      FreeIs(c, n - 1, t, p);
      RetainFree(c, StickyAt(c, n - 1), c.ids[n - 1], t, p);
      assert c.ids[..n] == c.ids[..n - 1] + [c.ids[n - 1]];
    }
  }

  lemma FirstClaimantExtends(c: Ctx, n: nat, m: Str, t: Str, p: int)
    requires Indexed(c) && 0 < n <= |c.ids|
    ensures FirstClaimant(c, c.ids[..n], m, t, p) <==>
              if Unclaimed(c, c.ids[..n - 1], t, p) then m == c.ids[n - 1] && Claims(c, m, t, p)
              else FirstClaimant(c, c.ids[..n - 1], m, t, p)
  {
    var o := c.ids[n - 1];
    assert c.ids[..n] == c.ids[..n - 1] + [o];
    assert forall e :: e in c.ids[..n - 1] ==> StrLeq(e, o);
    assert StrLeq(o, o) by { StrOrder(); }
    if !Unclaimed(c, c.ids[..n - 1], t, p) && FirstClaimant(c, c.ids[..n], m, t, p) && m !in c.ids[..n - 1] {
      var e :| e in c.ids[..n - 1] && Claims(c, e, t, p);
      StrAntisymmetric(m, e);
    }
  }

  /** The sticky pass, read off the inputs: a listed partition is held exactly by its
      smallest still-subscribed previous owner. */
  lemma {:induction false} StickyIs(c: Ctx, n: nat, m: Str, t: Str, p: int)
    requires Indexed(c) && n <= |c.ids|
    ensures Holds(StickyAt(c, n).out, m, t, p) <==>
              Key(t, p) in Listed(c) && FirstClaimant(c, c.ids[..n], m, t, p)
  {
    if n > 0 {
      var s, o := StickyAt(c, n - 1), c.ids[n - 1];
      StickyIs(c, n - 1, m, t, p);
      FreeIs(c, n - 1, t, p);
      RetainList(c, s, o, m, t);
      KeptIs(s.free, t, List(c.prev, o, t));
      FirstClaimantExtends(c, n, m, t, p);
    }
  }

  lemma FitConcat(c: Ctx, m: Str, t: Str, a: seq<int>, b: seq<int>)
    requires Fit(c, m, t, a) && Fit(c, m, t, b) && forall p :: p in b ==> p !in a
    ensures Fit(c, m, t, a + b)
  {
    forall x | x in a ensures x !in b { }
    DistinctConcat(a, b);
  }

  lemma KeptFit(c: Ctx, free: set<Key>, m: Str, t: Str)
    requires free <= Listed(c)
    ensures Fit(c, m, t, KeptBy(c, free, m, t))
    ensures forall p :: p in KeptBy(c, free, m, t) ==> Key(t, p) in free
  {
    KeptIs(free, t, List(c.prev, m, t));
  }

  lemma FreeNotHeld(c: Ctx, n: nat, m: Str, t: Str, p: int)
    requires Indexed(c) && n <= |c.ids| && Key(t, p) in StickyAt(c, n).free
    ensures p !in List(StickyAt(c, n).out, m, t)
  {
    StickyIs(c, n, m, t, p);
    FreeIs(c, n, t, p);
  }

  lemma {:induction false} StickyFit(c: Ctx, n: nat, m: Str, t: Str)
    requires Indexed(c) && n <= |c.ids|
    ensures Fit(c, m, t, List(StickyAt(c, n).out, m, t))
  {
    if n > 0 {
      StickyFit(c, n - 1, m, t);
      RetainList(c, StickyAt(c, n - 1), c.ids[n - 1], m, t);
      if m == c.ids[n - 1] {
        KeptFitsIn(c, n - 1, m, t);
      }
    }
  }

  lemma KeptFitsIn(c: Ctx, n: nat, m: Str, t: Str)
    requires Indexed(c) && n <= |c.ids| && Fit(c, m, t, List(StickyAt(c, n).out, m, t))
    ensures Fit(c, m, t, List(StickyAt(c, n).out, m, t) + KeptBy(c, StickyAt(c, n).free, m, t))
  {
    var s := StickyAt(c, n);
    FreeIsListed(c, n);
    KeptFit(c, s.free, m, t);
    forall p | p in KeptBy(c, s.free, m, t) ensures p !in List(s.out, m, t) { FreeNotHeld(c, n, m, t, p); }
    FitConcat(c, m, t, List(s.out, m, t), KeptBy(c, s.free, m, t));
  }

  lemma {:induction false} StickyFull(c: Ctx, n: nat)
    requires n <= |c.ids|
    ensures Full(StickyAt(c, n).out)
  {
    if n > 0 {
      StickyFull(c, n - 1);
      RetainFull(c, StickyAt(c, n - 1), c.ids[n - 1]);
    }
  }

  lemma StickyTidy(c: Ctx)
    requires Indexed(c)
    ensures Tidy(c, Sticky(c).out)
  {
    StickyFull(c, |c.ids|);
    forall m, t ensures Fit(c, m, t, List(Sticky(c).out, m, t)) { StickyFit(c, |c.ids|, m, t); }
    forall m, n, t, p | Holds(Sticky(c).out, m, t, p) && Holds(Sticky(c).out, n, t, p) ensures m == n {
      StickyIs(c, |c.ids|, m, t, p);
      StickyIs(c, |c.ids|, n, t, p);
      StrAntisymmetric(m, n);
    }
  }

  lemma StickyFree(c: Ctx, t: Str, p: int)
    requires Indexed(c) && Key(t, p) in Listed(c)
    ensures Key(t, p) in Sticky(c).free <==> !Owned(Sticky(c).out, t, p)
  {
    assert c.ids[..|c.ids|] == c.ids;
    forall m ensures Holds(Sticky(c).out, m, t, p) <==> FirstClaimant(c, c.ids, m, t, p) {
      StickyIs(c, |c.ids|, m, t, p);
    }
    FreeIs(c, |c.ids|, t, p);
    if !Unclaimed(c, c.ids, t, p) {
      var m := LeastClaimant(c, |c.ids|, t, p);
      assert Holds(Sticky(c).out, m, t, p);
    }
  }

  lemma {:induction false} LeastClaimant(c: Ctx, n: nat, t: Str, p: int) returns (m: Str)
    requires Indexed(c) && n <= |c.ids| && !Unclaimed(c, c.ids[..n], t, p)
    ensures FirstClaimant(c, c.ids[..n], m, t, p)
  {
    assert c.ids[..n] == c.ids[..n - 1] + [c.ids[n - 1]];
    if Unclaimed(c, c.ids[..n - 1], t, p) {
      m := c.ids[n - 1];
      StrOrder();
    } else {
      m := LeastClaimant(c, n - 1, t, p);
      var i :| 0 <= i < n - 1 && c.ids[i] == m;
    }
  }

  // ---------------------------------------------------------- distribution

  /** Somebody other than the member named "" subscribes to `t`. */
  ghost predicate Takeable(c: Ctx, t: Str)
  {
    exists m :: m in SubsOf(c, t) && m != NOBODY
  }

  lemma {:induction false} BestIs(c: Ctx, out: Plan, t: Str, n: nat)
    requires Indexed(c) && n <= |c.ids|
    ensures var b := BestAt(c, out, t, n).id;
            && (b == NOBODY <==> forall m :: m in c.ids[..n] && m in SubsOf(c, t) ==> m == NOBODY)
            && (b != NOBODY ==> b in SubsOf(c, t) && b in c.ids[..n])
  {
    if n > 0 {
      BestIs(c, out, t, n - 1);
      assert c.ids[..n] == c.ids[..n - 1] + [c.ids[n - 1]];
    }
  }

  lemma BestTakes(c: Ctx, out: Plan, t: Str)
    requires Indexed(c)
    ensures Best(c, out, t) != NOBODY <==> Takeable(c, t)
    ensures Best(c, out, t) != NOBODY ==> Best(c, out, t) in SubsOf(c, t)
  {
    assert c.ids[..|c.ids|] == c.ids;
    BestIs(c, out, t, |c.ids|);
  }

  // ------------------------------------------------- counting occurrences

  ghost function OccIn(out: Plan, t: Str, p: int): map<Str, int>
  {
    map m | m in out :: multiset(List(out, m, t))[p] as int
  }

  /** How many times (t, p) occurs in the plan, over all members and list positions. */
  ghost function Occ(out: Plan, t: Str, p: int): int
  {
    Sum(out.Keys, OccIn(out, t, p))
  }

  /** Occurrences may be counted over any set of members that includes all owners. */
  lemma OccOver(out: Plan, t: Str, p: int, m: Str)
    ensures var f := OccIn(out, t, p)[m := multiset(List(out, m, t))[p]];
            Occ(out, t, p) == Sum(out.Keys + {m}, f)
  {
    var f := OccIn(out, t, p)[m := multiset(List(out, m, t))[p]];
    if m in out {
      assert out.Keys + {m} == out.Keys && f == OccIn(out, t, p);
    } else {
      SumSplit(out.Keys + {m}, f, m);
      assert out.Keys + {m} - {m} == out.Keys;
      SumCongruent(out.Keys, f, OccIn(out, t, p));
    }
  }

  /** Changing one member's lists changes the count by the difference in that member's list. */
  lemma OccChange(out: Plan, out': Plan, m: Str, t: Str, p: int)
    requires out'.Keys == out.Keys + {m}
    requires forall n :: n in out && n != m ==> List(out', n, t) == List(out, n, t)
    ensures Occ(out', t, p) == Occ(out, t, p) - multiset(List(out, m, t))[p] + multiset(List(out', m, t))[p]
  {
    OccOver(out, t, p, m);
    var f := OccIn(out, t, p)[m := multiset(List(out, m, t))[p]];
    var v := multiset(List(out', m, t))[p];
    SumUpdate(out'.Keys, f, m, v);
    SumCongruent(out'.Keys, OccIn(out', t, p), f[m := v]);
  }

  lemma OccAdd(out: Plan, m: Str, t: Str, p: int, u: Str, q: int)
    ensures Occ(Add(out, m, t, p), u, q) == Occ(out, u, q) + if u == t && q == p then 1 else 0
  {
    ListAdd(out, m, t, p);
    OccChange(out, Add(out, m, t, p), m, u, q);
  }

  lemma {:induction false} OccPlaceAll(c: Ctx, out: Plan, keys: seq<Key>, t: Str, p: int)
    requires Indexed(c)
    ensures Occ(PlaceAll(c, out, keys), t, p) ==
              Occ(out, t, p) + if Takeable(c, t) then multiset(keys)[Key(t, p)] else 0
  {
    if keys != [] {
      var n := |keys| - 1;
      OccPlaceAll(c, out, keys[..n], t, p);
      var mid, k := PlaceAll(c, out, keys[..n]), keys[n];
      assert keys == keys[..n] + [k];
      BestTakes(c, mid, k.topic);
      if Best(c, mid, k.topic) != NOBODY {
        OccAdd(mid, Best(c, mid, k.topic), k.topic, k.part, t, p);
      }
    }
  }

  lemma OccCut(out: Plan, donor: Str, t: Str, u: Str, q: int)
    requires |List(out, donor, t)| > 1
    ensures var l := List(out, donor, t);
            Occ(Cut(out, donor, t), u, q) == Occ(out, u, q) - if u == t && q == l[|l| - 1] then 1 else 0
  {
    var l, cut := List(out, donor, t), Cut(out, donor, t);
    ListCut(out, donor, t);
    assert cut.Keys == out.Keys + {donor};
    assert forall n :: n in out && n != donor ==> List(cut, n, u) == List(out, n, u);
    OccChange(out, cut, donor, u, q);
    if u == t {
      CutCounts(l, q);
      assert List(cut, donor, u) == l[..|l| - 1];
    } else {
      assert List(cut, donor, u) == List(out, donor, u);
    }
  }

  lemma CutCounts(l: seq<int>, q: int)
    requires |l| > 0
    ensures multiset(l[..|l| - 1])[q] == multiset(l)[q] - if q == l[|l| - 1] then 1 else 0
  {
    assert l == l[..|l| - 1] + [l[|l| - 1]];
  }

  lemma OccMove(out: Plan, donor: Str, m: Str, t: Str, u: Str, q: int)
    requires |List(out, donor, t)| > 1
    ensures Occ(Move(out, donor, m, t), u, q) == Occ(out, u, q)
  {
    var l := List(out, donor, t);
    OccCut(out, donor, t, u, q);
    OccAdd(Cut(out, donor, t), m, t, l[|l| - 1], u, q);
  }

  lemma NextState(c: Ctx, tr: Trace, i: nat)
    requires Steps(c, tr) && i < |tr.attempts|
    ensures tr.states[i + 1] == Steal(c, tr.states[i], tr.attempts[i], tr.picks[i])
    ensures MayPick(c, tr.states[i], tr.attempts[i], tr.picks[i])
  {
    assert Stepped(c, tr, i);
  }

  lemma {:induction false} OccState(c: Ctx, tr: Trace, n: nat, t: Str, p: int)
    requires Steps(c, tr) && n <= |tr.attempts|
    ensures Occ(tr.states[n], t, p) == Occ(tr.states[0], t, p)
  {
    if n > 0 {
      OccState(c, tr, n - 1, t, p);
      NextState(c, tr, n - 1);
      OccSteal(c, tr.states[n - 1], tr.attempts[n - 1], tr.picks[n - 1], t, p);
    }
  }

  lemma OccSteal(c: Ctx, out: Plan, a: Attempt, donor: Str, t: Str, p: int)
    ensures Occ(Steal(c, out, a, donor), t, p) == Occ(out, t, p)
  {
    if Succeeds(c, out, a, donor) { OccMove(out, donor, a.mid, a.topic, t, p); }
  }

  lemma ListSorted(out: Plan, m: Str, t: Str)
    ensures multiset(List(SortPlan(out), m, t)) == multiset(List(out, m, t))
  {
    IntOrder();
    if m in out && t in out[m] {
      assert List(SortPlan(out), m, t) == SortBy(out[m][t], IntLeq);
    }
  }

  lemma HoldsSorted(out: Plan, m: Str, t: Str, p: int)
    ensures Holds(SortPlan(out), m, t, p) <==> Holds(out, m, t, p)
  {
    ListSorted(out, m, t);
    assert p in List(out, m, t) <==> p in multiset(List(out, m, t));
    assert p in List(SortPlan(out), m, t) <==> p in multiset(List(SortPlan(out), m, t));
  }

  lemma OccSorted(out: Plan, t: Str, p: int)
    ensures Occ(SortPlan(out), t, p) == Occ(out, t, p)
  {
    forall m | m in out ensures OccIn(SortPlan(out), t, p)[m] == OccIn(out, t, p)[m] { ListSorted(out, m, t); }
    assert SortPlan(out).Keys == out.Keys;
    SumCongruent(out.Keys, OccIn(SortPlan(out), t, p), OccIn(out, t, p));
  }

  /** In a tidy plan a partition occurs once if owned and otherwise not at all. */
  lemma TidyOcc(c: Ctx, out: Plan, t: Str, p: int)
    requires Tidy(c, out)
    ensures Occ(out, t, p) == if Owned(out, t, p) then 1 else 0
  {
    var f := OccIn(out, t, p);
    if Owned(out, t, p) {
      var m :| Holds(out, m, t, p);
      assert Fit(c, m, t, List(out, m, t));
      DistinctCounts(List(out, m, t), p);
      SumSplit(out.Keys, f, m);
      forall n | n in out.Keys - {m} ensures f[n] == 0 { assert !Holds(out, n, t, p); }
      SumZero(out.Keys - {m}, f);
    } else {
      forall n | n in out.Keys ensures f[n] == 0 { assert !Holds(out, n, t, p); }
      SumZero(out.Keys, f);
    }
  }

  // ------------------------------------------------------ the closed form

  /** Some listed partition is kept by the sticky pass, which leaves a tombstone. */
  ghost function Retained(c: Ctx): set<Key>
  {
    set k | k in Listed(c) && !Unclaimed(c, c.ids, k.topic, k.part)
  }

  lemma RetainedIs(c: Ctx)
    requires Indexed(c)
    ensures Sticky(c).free == Listed(c) - Retained(c)
    ensures Retained(c) <= Listed(c)
    ensures |Listed(c)| - |Sticky(c).free| == |Retained(c)|
  {
    hide Sticky, Unclaimed;
    FreeIsListed(c, |c.ids|);
    forall k ensures k in Sticky(c).free <==> k in Listed(c) && k !in Retained(c) { FreeOrRetained(c, k); }
    assert Listed(c) == Sticky(c).free + Retained(c);
  }

  lemma FreeOrRetained(c: Ctx, k: Key)
    requires Indexed(c)
    ensures k in Sticky(c).free <==> k in Listed(c) && k !in Retained(c)
  {
    assert c.ids[..|c.ids|] == c.ids;
    FreeIs(c, |c.ids|, k.topic, k.part);
  }

  /** How often each partition occurs in the final plan, read off the inputs alone. */
  ghost function Expected(c: Ctx, t: Str, p: int): int
  {
    if Key(t, p) !in Listed(c) then 0
    else if Key(t, p) in Retained(c) then 1
    else if !Takeable(c, t) then 0
    else if Key(t, p) == TOMBSTONE then 1 + |Retained(c)|
    else 1
  }

  /** The main conservation law, for every input and every donor choice: the final plan
      holds each partition exactly as often as `Expected` says. */
  lemma Conservation(c: Ctx, tr: Trace, t: Str, p: int)
    requires Run(c, tr)
    ensures Occ(Final(c, tr), t, p) == Expected(c, t, p)
  {
    OccSorted(Stolen(c, tr), t, p);
    OccState(c, tr, |tr.attempts|, t, p);
    OccDistributed(c, t, p);
  }

  lemma OccDistributed(c: Ctx, t: Str, p: int)
    requires Indexed(c)
    ensures Occ(Distributed(c), t, p) == Expected(c, t, p)
  {
    OccPlaceAll(c, Sticky(c).out, FreeKeys(c), t, p);
    OccSticky(c, t, p);
    OccFreeKeys(c, Key(t, p));
  }

  lemma OccSticky(c: Ctx, t: Str, p: int)
    requires Indexed(c)
    ensures Occ(Sticky(c).out, t, p) == if Key(t, p) in Retained(c) then 1 else 0
  {
    StickyTidy(c);
    TidyOcc(c, Sticky(c).out, t, p);
    FreeOrRetained(c, Key(t, p));
    if Key(t, p) in Listed(c) {
      StickyFree(c, t, p);
    } else {
      forall m ensures !Holds(Sticky(c).out, m, t, p) { StickyIs(c, |c.ids|, m, t, p); }
    }
  }

  lemma OccFreeKeys(c: Ctx, k: Key)
    requires Indexed(c)
    ensures multiset(FreeKeys(c))[k] ==
              if k !in Listed(c) || k in Retained(c) then 0
              else if k == TOMBSTONE then 1 + |Retained(c)| else 1
  {
    RetainedIs(c);
    PoolOrderCounts(Sticky(c).free, |Retained(c)|, k);
  }

  lemma PoolOrderCounts(free: set<Key>, tombstones: nat, k: Key)
    ensures multiset(PoolOrder(free, tombstones))[k] ==
              if k !in free then 0 else if k == TOMBSTONE then 1 + tombstones else 1
  {
    assert multiset(free)[k] == if k in free then 1 else 0;
  }

  /** The one way to go wrong: a partition 0 of a topic named "" that is up for
      distribution while the pool contains tombstones. */
  ghost predicate TombstoneClash(c: Ctx)
  {
    TOMBSTONE in Listed(c) - Retained(c) && Retained(c) != {} && Takeable(c, TOMBSTONE.topic)
  }

  /** Exactly-once assignment holds if and only if there is no tombstone clash. */
  lemma ExactlyOnce(c: Ctx, tr: Trace)
    requires Run(c, tr)
    ensures (forall t, p :: Occ(Final(c, tr), t, p) <= 1) <==> !TombstoneClash(c)
    ensures !TombstoneClash(c) ==> forall t, p :: Occ(Final(c, tr), t, p) == 1 <==>
              Key(t, p) in Retained(c) || (Key(t, p) in Listed(c) && Takeable(c, t))
  {
    assert Retained(c) <= Listed(c);
    if TombstoneClash(c) {
      Conservation(c, tr, TOMBSTONE.topic, TOMBSTONE.part);
      assert Occ(Final(c, tr), TOMBSTONE.topic, TOMBSTONE.part) > 1;
    } else {
      forall t, p ensures Occ(Final(c, tr), t, p) <= 1
                  ensures Occ(Final(c, tr), t, p) == 1 <==>
                            Key(t, p) in Retained(c) || (Key(t, p) in Listed(c) && Takeable(c, t))
      {
        Conservation(c, tr, t, p);
        ExpectedOnce(c, t, p);
      }
    }
  }

  lemma ExpectedOnce(c: Ctx, t: Str, p: int)
    requires !TombstoneClash(c)
    ensures Expected(c, t, p) ==
              if Key(t, p) in Retained(c) || (Key(t, p) in Listed(c) && Takeable(c, t)) then 1 else 0
  {
    if Key(t, p) == TOMBSTONE && Retained(c) == {} {
      assert |Retained(c)| == 0;
    }
  }

  // ------------------------------------------------- soundness of every run

  lemma {:induction false} PlaceAllSound(c: Ctx, out: Plan, keys: seq<Key>)
    requires Indexed(c) && Sound(c, out) && forall k :: k in keys ==> k in Listed(c)
    ensures Sound(c, PlaceAll(c, out, keys))
  {
    if keys != [] {
      var n := |keys| - 1;
      PlaceAllSound(c, out, keys[..n]);
      var mid, k := PlaceAll(c, out, keys[..n]), keys[n];
      assert k in keys;
      BestTakes(c, mid, k.topic);
      if Best(c, mid, k.topic) != NOBODY {
        AddSound(c, mid, Best(c, mid, k.topic), k.topic, k.part);
      }
    }
  }

  lemma AddSound(c: Ctx, out: Plan, m: Str, t: Str, p: int)
    requires Sound(c, out) && m in SubsOf(c, t) && Key(t, p) in Listed(c)
    ensures Sound(c, Add(out, m, t, p))
  {
    ListAdd(out, m, t, p);
    HoldsAdd(out, m, t, p);
  }

  lemma DistributedSound(c: Ctx)
    requires Indexed(c)
    ensures Sound(c, Distributed(c))
  {
    StickyTidy(c);
    forall m, t, p | Holds(Sticky(c).out, m, t, p) ensures m in SubsOf(c, t) && Key(t, p) in Listed(c) {
      assert Fit(c, m, t, List(Sticky(c).out, m, t));
    }
    forall k | k in FreeKeys(c) ensures k in Listed(c) {
      assert k in multiset(FreeKeys(c));
      OccFreeKeys(c, k);
    }
    PlaceAllSound(c, Sticky(c).out, FreeKeys(c));
  }

  /** A successful attempt moves a partition from a donor to a different subscriber. */
  ghost predicate Proper(c: Ctx, attempts: seq<Attempt>)
  {
    forall a :: a in attempts ==> a.mid in SubsOf(c, a.topic)
  }

  lemma {:induction false} AttemptsOfProper(c: Ctx, m: Str, topics: seq<Str>)
    requires m in c.byId && forall t :: t in topics ==> t in c.byId[m].topics
    ensures Proper(c, AttemptsOf(m, topics))
    ensures forall a :: a in AttemptsOf(m, topics) ==> a.mid == m
  {
    if topics != [] {
      AttemptsOfProper(c, m, topics[..|topics| - 1]);
    }
  }

  lemma {:induction false} AttemptsProper(c: Ctx, n: nat)
    requires Indexed(c) && n <= |c.ids|
    ensures Proper(c, AttemptsAt(c, n))
  {
    if n > 0 {
      AttemptsProper(c, n - 1);
      AttemptsOfProper(c, c.ids[n - 1], c.byId[c.ids[n - 1]].topics);
    }
  }

  /** The steps of a run, with what its attempts have in common. */
  ghost predicate Traced(c: Ctx, tr: Trace)
  {
    Steps(c, tr) && Proper(c, tr.attempts)
  }

  lemma RunTraced(c: Ctx, tr: Trace)
    requires Run(c, tr)
    ensures Traced(c, tr)
  {
    AttemptsProper(c, |c.ids|);
  }

  lemma TraceStep(c: Ctx, tr: Trace, i: nat)
    requires Traced(c, tr) && i < |tr.attempts|
    ensures tr.attempts[i].mid in SubsOf(c, tr.attempts[i].topic)
    ensures MayPick(c, tr.states[i], tr.attempts[i], tr.picks[i])
    ensures tr.states[i + 1] == Steal(c, tr.states[i], tr.attempts[i], tr.picks[i])
  {
    assert tr.attempts[i] in tr.attempts;
    assert Stepped(c, tr, i);
  }

  lemma StealSound(c: Ctx, out: Plan, a: Attempt, donor: Str)
    requires Sound(c, out) && a.mid in SubsOf(c, a.topic) && MayPick(c, out, a, donor)
    ensures Sound(c, Steal(c, out, a, donor))
    ensures Succeeds(c, out, a, donor) ==> donor != a.mid
  {
    if Succeeds(c, out, a, donor) {
      var l := List(out, donor, a.topic);
      assert Holds(out, donor, a.topic, l[|l| - 1]);
      var out' := Move(out, donor, a.mid, a.topic);
      ListMove(out, donor, a.mid, a.topic);
      forall n, u, q | Holds(out', n, u, q) ensures n in SubsOf(c, u) && Key(u, q) in Listed(c) {
        assert Holds(out, n, u, q) || (n == a.mid && u == a.topic && q == l[|l| - 1]);
      }
    }
  }

  lemma {:induction false} TraceSound(c: Ctx, tr: Trace, n: nat)
    requires Traced(c, tr) && n <= |tr.attempts| && Sound(c, tr.states[0])
    ensures Sound(c, tr.states[n])
  {
    if n > 0 {
      TraceSound(c, tr, n - 1);
      TraceStep(c, tr, n - 1);
      StealSound(c, tr.states[n - 1], tr.attempts[n - 1], tr.picks[n - 1]);
    }
  }

  lemma RunSound(c: Ctx, tr: Trace, n: nat)
    requires Run(c, tr) && n <= |tr.attempts|
    ensures Sound(c, tr.states[n])
  {
    DistributedSound(c);
    RunTraced(c, tr);
    TraceSound(c, tr, n);
  }

  /** In every run, whatever the inputs, only subscribers own partitions and only listed
      partitions are owned. */
  lemma FinalSound(c: Ctx, tr: Trace)
    requires Run(c, tr)
    ensures Sound(c, Final(c, tr))
  {
    RunSound(c, tr, |tr.attempts|);
    SortFull(Stolen(c, tr));
    forall m, t, p | Holds(Final(c, tr), m, t, p) ensures m in SubsOf(c, t) && Key(t, p) in Listed(c) {
      HoldsSorted(Stolen(c, tr), m, t, p);
    }
  }

  lemma SortFull(out: Plan)
    requires Full(out)
    ensures Full(SortPlan(out))
  {
    var out' := SortPlan(out);
    forall m | m in out' ensures out'[m] != map[] {
      var t :| t in out[m];
      assert t in out'[m];
    }
    forall m, t | m in out' && t in out'[m] ensures out'[m][t] != [] {
      IntOrder();
      assert multiset(out'[m][t]) == multiset(out[m][t]);
      assert out[m][t][0] in multiset(out[m][t]);
    }
  }

  lemma OccAtLeast(out: Plan, m: Str, t: Str, p: int)
    ensures Occ(out, t, p) >= multiset(List(out, m, t))[p]
  {
    var f := OccIn(out, t, p);
    if m in out {
      SumSplit(out.Keys, f, m);
      SumNonNegative(out.Keys - {m}, f);
    } else {
      SumNonNegative(out.Keys, f);
    }
  }

  lemma OccTwo(out: Plan, m: Str, n: Str, t: Str, p: int)
    requires m != n && Holds(out, m, t, p) && Holds(out, n, t, p)
    ensures Occ(out, t, p) >= 2
  {
    var f := OccIn(out, t, p);
    SumSplit(out.Keys, f, m);
    SumSplit(out.Keys - {m}, f, n);
    SumNonNegative(out.Keys - {m} - {n}, f);
    assert f[m] >= 1 && f[n] >= 1;
  }

  lemma OwnedOcc(out: Plan, t: Str, p: int)
    ensures Owned(out, t, p) <==> Occ(out, t, p) > 0
  {
    if Owned(out, t, p) {
      var m :| Holds(out, m, t, p);
      OccAtLeast(out, m, t, p);
    } else {
      forall n | n in out.Keys ensures OccIn(out, t, p)[n] == 0 { assert !Holds(out, n, t, p); }
      SumZero(out.Keys, OccIn(out, t, p));
    }
  }

  /** Counting at most one occurrence of everything makes a sound plan tidy. */
  lemma OnceTidy(c: Ctx, out: Plan)
    requires Sound(c, out) && forall t, p :: Occ(out, t, p) <= 1
    ensures Tidy(c, out)
  {
    forall m, t ensures Fit(c, m, t, List(out, m, t)) {
      var l := List(out, m, t);
      forall p ensures multiset(l)[p] <= 1 { OccAtLeast(out, m, t, p); }
      DistinctFromCounts(l);
      if l != [] { assert Holds(out, m, t, l[0]); }
      forall p | p in l ensures Key(t, p) in Listed(c) { assert Holds(out, m, t, p); }
    }
    forall m, n, t, p | Holds(out, m, t, p) && Holds(out, n, t, p) ensures m == n {
      if m != n { OccTwo(out, m, n, t, p); }
    }
  }

  /** Along a run without a tombstone clash, the plan stays tidy through every steal. */
  lemma RunTidy(c: Ctx, tr: Trace, n: nat)
    requires Run(c, tr) && n <= |tr.attempts| && !TombstoneClash(c)
    ensures Tidy(c, tr.states[n])
  {
    RunSound(c, tr, n);
    forall t, p ensures Occ(tr.states[n], t, p) <= 1 {
      OccState(c, tr, n, t, p);
      OccDistributed(c, t, p);
      ExpectedOnce(c, t, p);
    }
    OnceTidy(c, tr.states[n]);
  }

  lemma DistributedTidy(c: Ctx)
    requires Indexed(c) && !TombstoneClash(c)
    ensures Tidy(c, Distributed(c))
  {
    DistributedSound(c);
    forall t, p ensures Occ(Distributed(c), t, p) <= 1 {
      OccDistributed(c, t, p);
      ExpectedOnce(c, t, p);
    }
    OnceTidy(c, Distributed(c));
  }
}
