/** Inputs on which the planner falls short of its own documentation: a member that starves
    although partitions suffice, a plan that depends on map iteration order, and a partition
    of the topic named "" that is handed out twice. Exactly when this happens is in
    FirstHungryServedIff, SoleTopicServedIff, DeterministicIff and ExactlyOnce. */
module PlanExamples {
  import opened Ordering
  import opened Sums
  import opened PlanSpec
  import opened PlanConservation
  import opened PlanBalance
  import opened PlanSteal
  import opened PlanDeterminism
  import opened PlanStability

  const A: Str := [97]
  const B: Str := [98]
  const M: Str := [109]
  const T: Str := [116]
  const U: Str := [117]

  lemma SizeOne(byTopic: map<Str, seq<int>>, t: Str)
    requires byTopic.Keys == {t}
    ensures Sum(byTopic.Keys, Lengths(byTopic)) == |byTopic[t]|
  {
    SumSplit(byTopic.Keys, Lengths(byTopic), t);
    assert byTopic.Keys - {t} == {};
  }

  lemma SizeTwo(byTopic: map<Str, seq<int>>, t: Str, u: Str)
    requires byTopic.Keys == {t, u} && t != u
    ensures Sum(byTopic.Keys, Lengths(byTopic)) == |byTopic[t]| + |byTopic[u]|
  {
    SumSplit(byTopic.Keys, Lengths(byTopic), t);
    assert byTopic.Keys - {t} == {u};
    SumSplit({u}, Lengths(byTopic), u);
    assert {u} - {u} == {};
  }

  lemma IdsSnoc(members: seq<Member>, m: Member)
    ensures Ids(members + [m]) == Ids(members) + [m.id] && ById(members + [m]) == ById(members)[m.id := m]
  {
    assert (members + [m])[..|members|] == members;
  }

  lemma IdsOfTwo(a: Member, b: Member)
    ensures Ids([a] + [b]) == [a.id] + [b.id] && ById([a] + [b]) == map[a.id := a][b.id := b]
  {
    IdsSnoc([], a);
    assert [] + [a] == [a];
    assert [] + [a.id] == [a.id];
    IdsSnoc([a], b);
  }

  lemma IdsOfThree(a: Member, b: Member, m: Member)
    ensures Ids([a] + [b] + [m]) == [a.id] + [b.id] + [m.id]
    ensures ById([a] + [b] + [m]) == map[a.id := a][b.id := b][m.id := m]
  {
    IdsOfTwo(a, b);
    IdsSnoc([a] + [b], m);
  }

  lemma SortedIds()
    ensures TotalOrder(StrLeq) && SortBy([A, B, M], StrLeq) == [A, B, M]
  {
    hide SortBy;
    StrOrder();
    assert StrLeq(A, B) && StrLeq(B, M) && StrLeq(A, M);
    assert Sorted([A, B, M], StrLeq);
    SortByKeeps([A, B, M], StrLeq);
    SortedUnique(SortBy([A, B, M], StrLeq), [A, B, M], StrLeq);
  }

  lemma IndexOfThree(inputs: Inputs, a: Member, b: Member, m: Member)
    requires inputs.members == [a, b, m] && a.id == A && b.id == B && m.id == M
    ensures Index(inputs) == Ctx([A, B, M], map[A := a, B := b, M := m], inputs.partitions, inputs.previous)
    ensures Indexed(Index(inputs))
  {
    hide Ids, ById, SortBy;
    IdsOfThree(a, b, m);
    assert [a] + [b] + [m] == [a, b, m] && [A] + [B] + [M] == [A, B, M];
    SortedIds();
    assert map[A := a][B := b][M := m] == map[A := a, B := b, M := m];
    IndexIndexes(inputs);
  }

  // ------------------------------------------------- starving in plenty

  /** The topic T has three partitions for its three subscribers, but the heaviest of them
      owns mostly partitions of U. */
  const HELD: Plan := map[A := map[T := [0, 1]], B := map[T := [2], U := [0, 1]]]

  const PLENTY := Inputs([Member(A, [T], 0), Member(B, [T, U], 0), Member(M, [T], 0)],
                         map[T := [0, 1, 2], U := [0, 1]], HELD)

  const PLENTY_INDEXED := Ctx([A, B, M], map[A := Member(A, [T], 0), B := Member(B, [T, U], 0), M := Member(M, [T], 0)],
                              map[T := [0, 1, 2], U := [0, 1]], HELD)

  lemma PlentyIndex()
    ensures Index(PLENTY) == PLENTY_INDEXED && Indexed(PLENTY_INDEXED)
  {
    IndexOfThree(PLENTY, Member(A, [T], 0), Member(B, [T, U], 0), Member(M, [T], 0));
  }

  lemma HeldLists(m: Str, t: Str)
    ensures List(HELD, m, t) ==
              if m == A && t == T then [0, 1]
              else if m == B && t == T then [2]
              else if m == B && t == U then [0, 1]
              else []
  {
  }

  lemma HeldFits(m: Str, t: Str)
    ensures Fit(PLENTY_INDEXED, m, t, List(HELD, m, t))
  {
    HeldLists(m, t);
    assert A in SubsOf(PLENTY_INDEXED, T) && B in SubsOf(PLENTY_INDEXED, T) && B in SubsOf(PLENTY_INDEXED, U);
  }

  lemma HeldAll(t: Str, p: int)
    requires Key(t, p) in Listed(PLENTY_INDEXED)
    ensures Owned(HELD, t, p)
  {
    HeldLists(A, t);
    HeldLists(B, t);
    assert (t == T && p in [0, 1, 2]) || (t == U && p in [0, 1]);
    assert Holds(HELD, A, t, p) || Holds(HELD, B, t, p);
  }

  lemma PlentyTidy()
    ensures Tidy(PLENTY_INDEXED, HELD) && Complete(PLENTY_INDEXED, HELD)
  {
    var c := PLENTY_INDEXED;
    forall m, t ensures Fit(c, m, t, List(HELD, m, t)) { HeldFits(m, t); }
    forall m, n, t, p | Holds(HELD, m, t, p) && Holds(HELD, n, t, p) ensures m == n {
      HeldLists(m, t);
      HeldLists(n, t);
    }
    forall t, p | Key(t, p) in Listed(c) ensures Owned(HELD, t, p) { HeldAll(t, p); }
    assert Full(HELD) by {
      assert T in HELD[A] && T in HELD[B];
    }
  }

  lemma HeldLoads()
    ensures Load(HELD, A) == 2 && Load(HELD, B) == 3 && OwnsAny(HELD, A) && OwnsAny(HELD, B) && !OwnsAny(HELD, M)
  {
    SizeOne(HELD[A], T);
    SizeTwo(HELD[B], T, U);
    OwnsWitness(HELD, A, T);
    OwnsWitness(HELD, B, T);
  }

  /** Whatever the plan was before, an attempt by an owner changes nothing; the attempt of M
      on T meets B, who has one partition of T. */
  lemma PlentyStuck(c: Ctx, a: Attempt, d: Str)
    requires c == PLENTY_INDEXED && a.mid in [A, B, M] && (a.mid == M ==> a.topic == T) && MayPick(c, HELD, a, d)
    ensures Steal(c, HELD, a, d) == HELD && !Succeeds(c, HELD, a, d)
  {
    HeldLoads();
    if a.mid == M && Scans(c, HELD, a) {
      assert SubsOf(c, T) - {M} == {A, B};
      assert NoHeavier(HELD, B, d);
      HeldLists(B, T);
    }
  }

  lemma {:induction false} PlentyStays(c: Ctx, tr: Trace, n: nat)
    requires c == PLENTY_INDEXED && Run(c, tr) && n <= |tr.attempts|
    ensures tr.states[n] == HELD
  {
    if n == 0 {
      PlentyTidy();
      Stable(c);
    } else {
      PlentyStays(c, tr, n - 1);
      PlentyAttempt(c, tr, n - 1);
      NextState(c, tr, n - 1);
      PlentyStuck(c, tr.attempts[n - 1], tr.picks[n - 1]);
    }
  }

  lemma PlentyAttempt(c: Ctx, tr: Trace, i: nat)
    requires c == PLENTY_INDEXED && Run(c, tr) && i < |tr.attempts|
    ensures tr.attempts[i].mid in [A, B, M] && (tr.attempts[i].mid == M ==> tr.attempts[i].topic == T)
  {
    RunTraced(c, tr);
    TraceStep(c, tr, i);
  }

  lemma HeldSorted()
    ensures !OwnsAny(SortPlan(HELD), M) && |List(SortPlan(HELD), A, T)| == 2
  {
    HeldLoads();
    SortOwns(HELD, M);
    ListSorted(HELD, A, T);
    HeldLists(A, T);
    assert |multiset(List(SortPlan(HELD), A, T))| == |multiset(List(HELD, A, T))|;
  }

  lemma PlentySubscribers()
    ensures SubsOf(PLENTY_INDEXED, T) == {A, B, M} && |SubsOf(PLENTY_INDEXED, T)| == 3 == |PartsOf(PLENTY_INDEXED, T)|
  {
    assert SubsOf(PLENTY_INDEXED, T) == {A, B, M};
  }

  /** In every run the member M ends with nothing, although its topic has as many partitions
      as subscribers and another subscriber has two of them. */
  lemma StarvesInPlenty(c: Ctx, tr: Trace)
    requires c == Index(PLENTY) && Run(c, tr)
    ensures M in SubsOf(c, T) && |PartsOf(c, T)| >= |SubsOf(c, T)|
    ensures !OwnsAny(Final(c, tr), M) && |List(Final(c, tr), A, T)| == 2
  {
    PlentyIndex();
    PlentyStays(c, tr, |tr.attempts|);
    HeldSorted();
    PlentySubscribers();
  }

  // ----------------------------------------------------- a tie of donors

  const EVEN: Plan := map[A := map[T := [0, 1]], B := map[T := [2, 3]]]

  const TIED := Ctx([A, B, M], map[A := Member(A, [T], 0), B := Member(B, [T], 0), M := Member(M, [T], 0)],
                    map[T := [0, 1, 2, 3]], EVEN)

  const TIE := Inputs([Member(A, [T], 0), Member(B, [T], 0), Member(M, [T], 0)], map[T := [0, 1, 2, 3]], EVEN)

  lemma TieIndex()
    ensures Index(TIE) == TIED && Indexed(TIED)
  {
    IndexOfThree(TIE, Member(A, [T], 0), Member(B, [T], 0), Member(M, [T], 0));
  }

  lemma EvenLists(m: Str, t: Str)
    ensures List(EVEN, m, t) == if m == A && t == T then [0, 1] else if m == B && t == T then [2, 3] else []
  {
  }

  lemma TiedTidy()
    ensures Tidy(TIED, EVEN) && Complete(TIED, EVEN)
  {
    forall m, t ensures Fit(TIED, m, t, List(EVEN, m, t)) { EvenLists(m, t); }
    forall m, n, t, p | Holds(EVEN, m, t, p) && Holds(EVEN, n, t, p) ensures m == n {
      EvenLists(m, t);
      EvenLists(n, t);
    }
    forall t, p | Key(t, p) in Listed(TIED) ensures Owned(EVEN, t, p) {
      assert Holds(EVEN, A, t, p) || Holds(EVEN, B, t, p);
    }
    assert Full(EVEN) by {
      assert T in EVEN[A] && T in EVEN[B];
    }
  }

  lemma TiedAttempts()
    requires Indexed(TIED)
    ensures Attempts(TIED) == [Attempt(A, T), Attempt(B, T), Attempt(M, T)]
  {
    assert AttemptsOf(A, [T]) == [Attempt(A, T)];
    assert AttemptsOf(B, [T]) == [Attempt(B, T)];
    assert AttemptsOf(M, [T]) == [Attempt(M, T)];
    assert AttemptsAt(TIED, 1) == [Attempt(A, T)];
    assert AttemptsAt(TIED, 2) == [Attempt(A, T), Attempt(B, T)];
  }

  /** The donor scan for M may come back with either owner. */
  lemma EitherDonor(d: Str)
    requires d == A || d == B
    ensures MayPick(TIED, EVEN, Attempt(M, T), d) && Succeeds(TIED, EVEN, Attempt(M, T), d)
    ensures OwnsAny(EVEN, A) && OwnsAny(EVEN, B)
  {
    SizeOne(EVEN[A], T);
    SizeOne(EVEN[B], T);
    OwnsWitness(EVEN, A, T);
    OwnsWitness(EVEN, B, T);
    assert SubsOf(TIED, T) == {A, B, M};
    assert SubsOf(TIED, T) - {M} == {A, B};
  }

  ghost function TieTrace(d: Str): Trace
  {
    Trace([Attempt(A, T), Attempt(B, T), Attempt(M, T)], [NOBODY, NOBODY, d],
        [EVEN, EVEN, EVEN, Steal(TIED, EVEN, Attempt(M, T), d)])
  }

  lemma TieStep(d: Str, i: nat)
    requires (d == A || d == B) && i < 3
    ensures Stepped(TIED, TieTrace(d), i)
  {
    EitherDonor(d);
  }

  lemma TieRuns(d: Str)
    requires d == A || d == B
    ensures Run(TIED, TieTrace(d))
  {
    TieIndex();
    TiedAttempts();
    TiedTidy();
    Stable(TIED);
    TieSteps(d);
  }

  lemma TieSteps(d: Str)
    requires d == A || d == B
    ensures Steps(TIED, TieTrace(d))
  {
    forall i: nat | i < 3 ensures Stepped(TIED, TieTrace(d), i) { TieStep(d, i); }
  }

  lemma TieEnds(d: Str)
    requires d == A || d == B
    ensures List(TieTrace(d).states[3], M, T) == if d == A then [1] else [3]
  {
    EitherDonor(d);
    EvenLists(d, T);
    EvenLists(M, T);
    ListMove(EVEN, d, M, T);
  }

  lemma TwoEnds()
    requires Run(TIED, TieTrace(A)) && Run(TIED, TieTrace(B))
    ensures Final(TIED, TieTrace(A)) != Final(TIED, TieTrace(B))
  {
    TieEnds(A);
    TieEnds(B);
    DifferentLists(TieTrace(A).states[3], TieTrace(B).states[3], M, T, 1);
  }

  /** The same input, two outcomes: the order in which the map of subscribers is visited
      shows in the final plan. */
  lemma OrderShows(c: Ctx) returns (p: Trace, q: Trace)
    requires c == Index(TIE)
    ensures Run(c, p) && Run(c, q) && Final(c, p) != Final(c, q)
  {
    TieIndex();
    TieRuns(A);
    TieRuns(B);
    TwoEnds();
    p, q := TieTrace(A), TieTrace(B);
  }

  // ------------------------------------------------- the topic named ""

  const UNNAMED: Str := []

  lemma SortedOne(a: Str)
    ensures TotalOrder(StrLeq) && SortBy([a], StrLeq) == [a]
  {
    hide SortBy;
    StrOrder();
    SortByKeeps([a], StrLeq);
    SortedUnique(SortBy([a], StrLeq), [a], StrLeq);
  }

  lemma IndexOfOne(inputs: Inputs, a: Member)
    requires inputs.members == [a]
    ensures Index(inputs) == Ctx([a.id], map[a.id := a], inputs.partitions, inputs.previous) && Indexed(Index(inputs))
  {
    hide SortBy;
    IdsSnoc([], a);
    assert [] + [a] == [a] && [] + [a.id] == [a.id];
    SortedOne(a.id);
    IndexIndexes(inputs);
  }

  /** Partition 1 is kept, which leaves a tombstone that looks like partition 0. */
  const CLASH := Inputs([Member(A, [UNNAMED], 0)], map[UNNAMED := [0, 1]], map[A := map[UNNAMED := [1]]])

  lemma ClashRetains(c: Ctx)
    requires Indexed(c) && c.ids != [] && A in c.ids && UNNAMED in c.byId[A].topics
    requires c.parts == map[UNNAMED := [0, 1]] && c.prev == map[A := map[UNNAMED := [1]]]
    ensures Retained(c) == {Key(UNNAMED, 1)} && Takeable(c, UNNAMED) && TOMBSTONE in Listed(c)
  {
    assert A in SubsOf(c, UNNAMED);
    assert Claims(c, A, UNNAMED, 1);
    forall k ensures k in Retained(c) <==> k == Key(UNNAMED, 1) { }
  }

  /** In every run partition 0 of the topic named "" is handed out twice. */
  lemma HandedOutTwice(c: Ctx, tr: Trace)
    requires c == Index(CLASH) && Run(c, tr)
    ensures TombstoneClash(c) && Occ(Final(c, tr), UNNAMED, 0) == 2
  {
    IndexOfOne(CLASH, Member(A, [UNNAMED], 0));
    ClashRetains(c);
    Conservation(c, tr, UNNAMED, 0);
  }

  /** Two partitions for three members. */
  const SCARCE := Inputs([Member(A, [UNNAMED], 0), Member(B, [UNNAMED], 0), Member(M, [UNNAMED], 0)],
                         map[UNNAMED := [0, 1]], map[A := map[UNNAMED := [1]]])

  const KEPT: Plan := map[A := map[UNNAMED := [1]]]

  const SCARCE_INDEXED := Ctx([A, B, M],
                              map[A := Member(A, [UNNAMED], 0), B := Member(B, [UNNAMED], 0),
                                  M := Member(M, [UNNAMED], 0)],
                              map[UNNAMED := [0, 1]], KEPT)

  lemma ScarceIndex()
    ensures Index(SCARCE) == SCARCE_INDEXED && Indexed(SCARCE_INDEXED)
  {
    IndexOfThree(SCARCE, Member(A, [UNNAMED], 0), Member(B, [UNNAMED], 0), Member(M, [UNNAMED], 0));
  }

  lemma ScarceSubscribers()
    ensures SubsOf(SCARCE_INDEXED, UNNAMED) == {A, B, M}
  {
  }

  lemma KeptList(m: Str, t: Str)
    ensures List(KEPT, m, t) == if m == A && t == UNNAMED then [1] else []
  {
  }

  lemma ScarceTidy()
    ensures Tidy(SCARCE_INDEXED, KEPT)
  {
    ScarceSubscribers();
    forall m, t ensures Fit(SCARCE_INDEXED, m, t, List(KEPT, m, t)) { KeptList(m, t); }
    forall m, n, t, p | Holds(KEPT, m, t, p) && Holds(KEPT, n, t, p) ensures m == n {
      KeptList(m, t);
      KeptList(n, t);
    }
    assert Full(KEPT) by { assert UNNAMED in KEPT[A]; }
  }

  lemma {:induction false} AllAlike(s: seq<Key>, k: Key)
    requires forall x :: x in s ==> x == k
    ensures multiset(s)[k] == |s|
  {
    if s != [] {
      var n := |s| - 1;
      assert s == s[..n] + [s[n]];
      forall x | x in s[..n] ensures x == k { assert x in s; }
      assert s[n] in s;
      AllAlike(s[..n], k);
    }
  }

  lemma ScarceListed()
    ensures Listed(SCARCE_INDEXED) == {TOMBSTONE, Key(UNNAMED, 1)}
  {
  }

  /** The pool hands out the zero key at its own place and at the tombstone. */
  lemma ScarceKeys()
    requires Indexed(SCARCE_INDEXED)
    ensures FreeKeys(SCARCE_INDEXED) == [TOMBSTONE, TOMBSTONE]
  {
    hide FreeKeys, Retained, Listed, Indexed, Takeable;
    var c, keys := SCARCE_INDEXED, FreeKeys(SCARCE_INDEXED);
    ScarceRetains();
    ScarceListed();
    forall k | k in keys ensures k == TOMBSTONE {
      assert k in multiset(keys);
      OccFreeKeys(c, k);
    }
    OccFreeKeys(c, TOMBSTONE);
    AllAlike(keys, TOMBSTONE);
    assert keys[0] in keys && keys[1] in keys;
  }

  lemma ScarceRetains()
    requires Indexed(SCARCE_INDEXED)
    ensures Retained(SCARCE_INDEXED) == {Key(UNNAMED, 1)} && |Retained(SCARCE_INDEXED)| == 1
    ensures Takeable(SCARCE_INDEXED, UNNAMED) && TOMBSTONE in Listed(SCARCE_INDEXED)
  {
    ClashRetains(SCARCE_INDEXED);
  }

  lemma BestOf(out: Plan, m: Str, n: Str, o: Str)
    requires Indexed(SCARCE_INDEXED) && {m, n, o} == {A, B, M} && m in {B, M}
    requires Load(out, m) == 0 && Load(out, n) == 1 && (Load(out, o) == 1 || (Load(out, o) == 0 && !StrLeq(o, m)))
    ensures Best(SCARCE_INDEXED, out, UNNAMED) == m
  {
    hide Load, Best;
    ScarceSubscribers();
    BestBeats(SCARCE_INDEXED, out, UNNAMED, m);
  }

  lemma PlaceTwice(c: Ctx, out: Plan, k: Key)
    requires Indexed(c)
    ensures PlaceAll(c, out, [k, k]) == Place(c, Place(c, out, k), k)
  {
    hide Place;
    assert [k, k][..1] == [k] && [k][..0] == [];
    assert PlaceAll(c, out, [k]) == Place(c, out, k);
  }

  lemma KeptLoads()
    ensures Load(KEPT, A) == 1 && Load(KEPT, B) == 0 && Load(KEPT, M) == 0
  {
    SizeOne(KEPT[A], UNNAMED);
    assert Topics(KEPT, B) == map[] && Topics(KEPT, M) == map[];
  }

  const ONE_PLACED: Plan := Add(KEPT, B, UNNAMED, 0)

  const TWO_PLACED: Plan := Add(ONE_PLACED, M, UNNAMED, 0)

  lemma ScarceFirst()
    requires Indexed(SCARCE_INDEXED)
    ensures Place(SCARCE_INDEXED, KEPT, TOMBSTONE) == ONE_PLACED
  {
    hide Load, Best;
    KeptLoads();
    assert !StrLeq(M, B);
    BestOf(KEPT, B, A, M);
  }

  lemma ScarceSecond()
    requires Indexed(SCARCE_INDEXED)
    ensures Place(SCARCE_INDEXED, ONE_PLACED, TOMBSTONE) == TWO_PLACED
  {
    hide Load, Best;
    KeptLoads();
    forall n ensures Load(ONE_PLACED, n) == Load(KEPT, n) + if n == B then 1 else 0 { LoadAdd(KEPT, B, UNNAMED, 0, n); }
    BestOf(ONE_PLACED, M, A, B);
  }

  lemma ScarcePlaced()
    requires Indexed(SCARCE_INDEXED)
    ensures Distributed(SCARCE_INDEXED) == TWO_PLACED
  {
    hide Place, FreeKeys, Sticky, Tidy, Indexed;
    ScarceTidy();
    StickyWhole(SCARCE_INDEXED);
    ScarceKeys();
    PlaceTwice(SCARCE_INDEXED, KEPT, TOMBSTONE);
    ScarceFirst();
    ScarceSecond();
  }

  lemma AllPlaced(m: Str)
    requires m in {A, B, M}
    ensures OwnsAny(TWO_PLACED, m)
  {
    ListAdd(KEPT, B, UNNAMED, 0);
    ListAdd(ONE_PLACED, M, UNNAMED, 0);
    KeptList(A, UNNAMED);
    OwnsWitness(TWO_PLACED, m, UNNAMED);
  }

  lemma ScarceShape()
    requires Indexed(SCARCE_INDEXED)
    ensures OneSharedTopic(SCARCE_INDEXED, UNNAMED) && TombstoneClash(SCARCE_INDEXED)
    ensures |Listed(SCARCE_INDEXED)| == 2 && SCARCE_INDEXED.byId.Keys == {A, B, M} && |SCARCE_INDEXED.byId| == 3
  {
    ScarceSubscribers();
    ScarceRetains();
    ScarceListed();
    assert SCARCE_INDEXED.byId.Keys == {A, B, M};
    assert |SCARCE_INDEXED.byId.Keys| == |SCARCE_INDEXED.byId|;
  }

  /** With a tombstone clash, too few partitions go round: everybody ends with something. */
  lemma TooFewServe(c: Ctx, tr: Trace, m: Str)
    requires c == Index(SCARCE) && Run(c, tr) && m in c.byId
    ensures OneSharedTopic(c, UNNAMED) && TombstoneClash(c) && |Listed(c)| < |c.byId| && OwnsAny(Final(c, tr), m)
  {
    hide Listed, OneSharedTopic, TombstoneClash, OwnsAny, Distributed, Run, Index;
    ScarceIndex();
    ScarceShape();
    ScarcePlaced();
    AllPlaced(m);
    NobodyEmptied(c, tr, m);
  }

  // ------------------------------------------------------- a lag that counts

  /** Four partitions, listed in no order; B lags a thousand messages behind. */
  const LAGGING := Inputs([Member(A, [T], 0), Member(B, [T], 1000)], map[T := [2, 0, 3, 1]], map[])

  const LAGGING_INDEXED := Ctx([A, B], map[A := Member(A, [T], 0), B := Member(B, [T], 1000)],
                               map[T := [2, 0, 3, 1]], map[])

  lemma SortedTwo()
    ensures TotalOrder(StrLeq) && SortBy([A, B], StrLeq) == [A, B]
  {
    hide SortBy;
    StrOrder();
    assert StrLeq(A, B);
    assert Sorted([A, B], StrLeq);
    SortByKeeps([A, B], StrLeq);
    SortedUnique(SortBy([A, B], StrLeq), [A, B], StrLeq);
  }

  lemma LaggingIndex()
    ensures Index(LAGGING) == LAGGING_INDEXED && Indexed(LAGGING_INDEXED)
  {
    hide Ids, ById, SortBy;
    var a, b := Member(A, [T], 0), Member(B, [T], 1000);
    IdsOfTwo(a, b);
    assert [a] + [b] == [a, b] && [A] + [B] == [A, B];
    SortedTwo();
    assert map[A := a][B := b] == map[A := a, B := b];
    IndexIndexes(LAGGING);
  }

  const IN_ORDER: seq<Key> := [Key(T, 0), Key(T, 1), Key(T, 2), Key(T, 3)]

  lemma LaggingKeys()
    requires Indexed(LAGGING_INDEXED)
    ensures FreeKeys(LAGGING_INDEXED) == IN_ORDER
  {
    hide FreeKeys, Retained, Indexed;
    var c, keys := LAGGING_INDEXED, FreeKeys(LAGGING_INDEXED);
    LaggingListed();
    LaggingRetains();
    forall k ensures multiset(keys)[k] == multiset(IN_ORDER)[k] { OccFreeKeys(c, k); }
    KeyOrder();
    FreeKeysSorted(c);
    assert Sorted(IN_ORDER, KeyLeq);
    SortedUnique(keys, IN_ORDER, KeyLeq);
  }

  lemma FreeKeysSorted(c: Ctx)
    ensures Sorted(FreeKeys(c), KeyLeq)
  {
  }

  lemma LaggingListed()
    ensures Listed(LAGGING_INDEXED) == {Key(T, 0), Key(T, 1), Key(T, 2), Key(T, 3)}
  {
  }

  lemma LaggingRetains()
    ensures Retained(LAGGING_INDEXED) == {} && Sticky(LAGGING_INDEXED).out == map[]
  {
    NothingRetained(LAGGING_INDEXED, 2);
  }

  function Upto(n: nat): (l: seq<int>)
    ensures |l| == n && forall i :: 0 <= i < n ==> l[i] == i
  {
    seq(n, i => i)
  }

  const NOTHING: Plan := map[]

  /** A has the first `n` partitions. */
  function FirstTo(n: nat): Plan
  {
    if n == 0 then NOTHING else map[A := map[T := Upto(n)]]
  }

  lemma FirstToLoads(n: nat)
    ensures Load(FirstTo(n), A) == n && Load(FirstTo(n), B) == 0
  {
    assert Topics(FirstTo(n), B) == map[];
    if n > 0 { SizeOne(FirstTo(n)[A], T); }
  }

  /** As long as A has at most eight partitions, it gets the next one. */
  lemma NextToA(n: nat)
    requires Indexed(LAGGING_INDEXED) && n < 8
    ensures Place(LAGGING_INDEXED, FirstTo(n), Key(T, n)) == FirstTo(n + 1)
  {
    hide Load, Best, Weight, Indexed;
    var c := LAGGING_INDEXED;
    assert SubsOf(c, T) == {A, B};
    FirstToLoads(n);
    WeightIs(c, A);
    WeightIs(c, B);
    BestBeats(c, FirstTo(n), T, A);
    OneMoreForA(n);
  }

  lemma OneMoreForA(n: nat)
    ensures Add(FirstTo(n), A, T, n) == FirstTo(n + 1)
  {
    assert List(FirstTo(n), A, T) == Upto(n) by { if n == 0 { assert Upto(0) == []; } }
    assert Upto(n) + [n] == Upto(n + 1);
    assert Topics(FirstTo(n), A)[T := Upto(n + 1)] == map[T := Upto(n + 1)];
  }

  lemma {:induction false} AllToA(n: nat)
    requires Indexed(LAGGING_INDEXED) && n <= 4
    ensures PlaceAll(LAGGING_INDEXED, NOTHING, IN_ORDER[..n]) == FirstTo(n)
  {
    hide Place;
    if n > 0 {
      AllToA(n - 1);
      assert IN_ORDER[..n][..n - 1] == IN_ORDER[..n - 1];
      NextToA(n - 1);
    }
  }

  lemma LaggingDistributed()
    requires Indexed(LAGGING_INDEXED)
    ensures Distributed(LAGGING_INDEXED) == FirstTo(4)
  {
    hide Sticky, FreeKeys, PlaceAll, Indexed;
    LaggingRetains();
    LaggingKeys();
    AllToA(4);
    assert IN_ORDER[..4] == IN_ORDER;
  }

  lemma LaggingAttempts()
    requires Indexed(LAGGING_INDEXED)
    ensures Attempts(LAGGING_INDEXED) == [Attempt(A, T), Attempt(B, T)]
  {
    assert AttemptsOf(A, [T]) == [Attempt(A, T)];
    assert AttemptsOf(B, [T]) == [Attempt(B, T)];
    assert AttemptsAt(LAGGING_INDEXED, 1) == [Attempt(A, T)];
  }

  const SHARED: Plan := map[A := map[T := [0, 1, 2]], B := map[T := [3]]]

  /** A gives its last partition to B. */
  lemma LaggingSteal(d: Str)
    requires MayPick(LAGGING_INDEXED, FirstTo(4), Attempt(B, T), d)
    ensures Steal(LAGGING_INDEXED, FirstTo(4), Attempt(B, T), d) == SHARED
  {
    var c, out := LAGGING_INDEXED, FirstTo(4);
    assert SubsOf(c, T) == {A, B};
    assert SubsOf(c, T) - {B} == {A};
    assert !OwnsAny(out, B);
    assert List(out, A, T) == Upto(4);
    assert d == A && Succeeds(c, out, Attempt(B, T), A);
    LaggingMove();
  }

  lemma LaggingMove()
    ensures |List(FirstTo(4), A, T)| == 4 && Move(FirstTo(4), A, B, T) == SHARED
  {
    var out := FirstTo(4);
    assert List(out, A, T) == Upto(4);
    assert Upto(4)[..3] == [0, 1, 2] && Upto(4)[3] == 3;
    var cut := Cut(out, A, T);
    assert out[A][T := [0, 1, 2]] == map[T := [0, 1, 2]];
    assert cut == map[A := map[T := [0, 1, 2]]];
    assert List(cut, B, T) + [3] == [3] && Topics(cut, B)[T := [3]] == map[T := [3]];
  }

  lemma SortedAlready(l: seq<int>)
    requires forall i, j :: 0 <= i < j < |l| ==> l[i] <= l[j]
    ensures TotalOrder(IntLeq) && SortBy(l, IntLeq) == l
  {
    hide SortBy;
    IntOrder();
    SortByKeeps(l, IntLeq);
    SortedUnique(SortBy(l, IntLeq), l, IntLeq);
  }

  /** From inputs to plan, in every run: the member without lag gets all four partitions, and
      gives the last one to the other, who would go without. */
  lemma LagShows(c: Ctx, tr: Trace)
    requires c == Index(LAGGING) && Run(c, tr)
    ensures Final(c, tr) == SHARED
  {
    hide Distributed, Index, Attempts, Steal, MayPick, SortPlan, FirstTo;
    LaggingIndex();
    LaggingAttempts();
    LaggingDistributed();
    NextState(c, tr, 0);
    NextState(c, tr, 1);
    OwnerStays(c, tr.picks[0]);
    LaggingSteal(tr.picks[1]);
    SharedSorted();
  }

  lemma SharedSorted()
    ensures SortPlan(SHARED) == SHARED
  {
    hide SortBy;
    SortedAlready([0, 1, 2]);
    SortedAlready([3]);
    assert SortLists(SHARED[A]) == SHARED[A];
    assert SortLists(SHARED[B]) == SHARED[B];
  }

  lemma OwnerStays(c: Ctx, d: Str)
    ensures Steal(c, FirstTo(4), Attempt(A, T), d) == FirstTo(4)
  {
    assert List(FirstTo(4), A, T) == Upto(4);
    OwnsWitness(FirstTo(4), A, T);
  }
}
