/** The planner as it runs: loops over maps that may be visited in any order, a pool with
    tombstones, and maps of loads and weights updated along the way. Every step is proved
    against the functions of PlanSpec. */
module PlanCompute {
  import opened Ordering
  import opened Sums
  import opened PlanSpec
  import opened PlanConservation
  import opened PlanBalance
  import opened PlanSteal
  import opened PlanDeterminism

  // -------------------------------------------------------------- free pool

  class FreePool {
    var keys: seq<Key>
    var index: map<Key, nat>
    ghost var tombstones: nat
    ghost var added: nat

    ghost predicate Valid()
      reads this
    {
      && (forall k :: k in index ==> index[k] < |keys| && keys[index[k]] == k)
      && multiset(keys) == multiset(index.Keys) + multiset{}[TOMBSTONE := tombstones]
      && added == tombstones + |index.Keys|
    }

    constructor ()
      ensures Valid() && index == map[] && tombstones == 0
    {
      keys, index, tombstones, added := [], map[], 0, 0;
    }

    method Add(k: Key)
      requires Valid()
      modifies this
      ensures Valid() && index.Keys == old(index.Keys) + {k} && tombstones == old(tombstones)
    {
      if k in index {
        assert index.Keys == index.Keys + {k};
        return;
      }
      index := index[k := |keys|];
      keys := keys + [k];
      added := added + 1;
      AddCounts(old(keys), k, old(index.Keys), tombstones);
      assert index.Keys == old(index.Keys) + {k};
    }

    method Remove(k: Key) returns (removed: bool)
      requires Valid()
      modifies this
      ensures Valid() && removed == (k in old(index)) && added == old(added)
      ensures index.Keys == old(index.Keys) - {k}
    {
      if k !in index {
        assert index.Keys == index.Keys - {k};
        return false;
      }
      var idx := index[k];
      RemoveCounts(keys, idx, index.Keys, tombstones);
      keys := keys[idx := TOMBSTONE];
      index := index - {k};
      tombstones := tombstones + 1;
      return true;
    }

    /** The keys that `forEach` calls back with, in order. */
    method Remaining() returns (remaining: seq<Key>)
      requires Valid()
      ensures remaining == PoolOrder(index.Keys, tombstones)
    {
      var live: seq<Key> := [];
      for i := 0 to |keys|
        invariant live == Live(keys[..i], index.Keys)
      {
        assert keys[..i + 1][..i] == keys[..i];
        if keys[i] in index { live := live + [keys[i]]; }
      }
      assert keys[..|keys|] == keys;
      KeyOrder();
      remaining := SortBy(live, KeyLeq);
      LiveIsPool(keys, index.Keys, tombstones);
      SortedUnique(remaining, PoolOrder(index.Keys, tombstones), KeyLeq);
    }
  }

  lemma OneMore(s: set<Key>, k: Key)
    requires k !in s
    ensures multiset(s + {k}) == multiset(s) + multiset{k} && |s + {k}| == |s| + 1
  {
  }

  lemma AddCounts(keys: seq<Key>, k: Key, free: set<Key>, tombstones: nat)
    requires k !in free && multiset(keys) == multiset(free) + multiset{}[TOMBSTONE := tombstones]
    ensures multiset(keys + [k]) == multiset(free + {k}) + multiset{}[TOMBSTONE := tombstones]
            && |free + {k}| == |free| + 1
  {
    OneMore(free, k);
  }

  lemma RemoveCounts(keys: seq<Key>, idx: nat, free: set<Key>, tombstones: nat)
    requires idx < |keys| && keys[idx] in free
    requires multiset(keys) == multiset(free) + multiset{}[TOMBSTONE := tombstones]
    ensures multiset(keys[idx := TOMBSTONE]) ==
              multiset(free - {keys[idx]}) + multiset{}[TOMBSTONE := tombstones + 1]
  {
    assert multiset(free - {keys[idx]}) == multiset(free) - multiset{keys[idx]};
    assert multiset(keys[idx := TOMBSTONE]) == multiset(keys) - multiset{keys[idx]} + multiset{TOMBSTONE};
  }

  /** The entries of `keys` that are in `free`. */
  ghost function Live(keys: seq<Key>, free: set<Key>): seq<Key>
  {
    if keys == [] then [] else
      var rest := Live(keys[..|keys| - 1], free);
      if keys[|keys| - 1] in free then rest + [keys[|keys| - 1]] else rest
  }

  lemma {:induction false} LiveCounts(keys: seq<Key>, free: set<Key>, k: Key)
    ensures multiset(Live(keys, free))[k] == if k in free then multiset(keys)[k] else 0
  {
    if keys != [] {
      LiveCounts(keys[..|keys| - 1], free, k);
      assert keys == keys[..|keys| - 1] + [keys[|keys| - 1]];
    }
  }

  lemma LiveIsPool(keys: seq<Key>, free: set<Key>, tombstones: nat)
    requires multiset(keys) == multiset(free) + multiset{}[TOMBSTONE := tombstones]
    ensures multiset(Live(keys, free)) == multiset(PoolOrder(free, tombstones))
  {
    forall k ensures multiset(Live(keys, free))[k] == multiset(PoolOrder(free, tombstones))[k] {
      LiveCounts(keys, free, k);
      PoolOrderCounts(free, tombstones, k);
      assert multiset(free)[k] == if k in free then 1 else 0;
    }
  }

  function KeysOn(t: Str, l: seq<int>): set<Key>
  {
    set p | p in l :: Key(t, p)
  }

  // --------------------------------------------------------------- indexing

  method IndexMembers(inputs: Inputs) returns (c: Ctx)
    ensures c == Index(inputs)
  {
    var ids: seq<Str> := [];
    var byId: map<Str, Member> := map[];
    for i := 0 to |inputs.members|
      invariant ids == Ids(inputs.members[..i]) && byId == ById(inputs.members[..i])
    {
      assert inputs.members[..i + 1][..i] == inputs.members[..i];
      ids := ids + [inputs.members[i].id];
      byId := byId[inputs.members[i].id := inputs.members[i]];
    }
    assert inputs.members[..|inputs.members|] == inputs.members;
    StrOrder();
    c := Ctx(SortBy(ids, StrLeq), byId, inputs.partitions, inputs.previous);
  }

  type Subscribers = map<Str, set<Str>>

  function SubsIn(subs: Subscribers, t: Str): set<Str>
  {
    if t in subs then subs[t] else {}
  }

  ghost predicate SubsAgree(c: Ctx, subs: Subscribers)
  {
    forall t :: SubsIn(subs, t) == SubsOf(c, t)
  }

  method IndexSubscribers(c: Ctx) returns (subs: Subscribers)
    requires Indexed(c)
    ensures SubsAgree(c, subs)
  {
    subs := map[];
    for n := 0 to |c.ids|
      invariant forall t, m :: m in SubsIn(subs, t) <==> m in SubsOf(c, t) && m in c.ids[..n]
    {
      assert c.ids[..n + 1] == c.ids[..n] + [c.ids[n]];
      subs := SubscribeMember(subs, c.ids[n], c.byId[c.ids[n]].topics);
    }
    assert c.ids[..|c.ids|] == c.ids;
  }

  method SubscribeMember(subs0: Subscribers, m: Str, topics: seq<Str>) returns (subs: Subscribers)
    ensures forall t, o :: o in SubsIn(subs, t) <==> o in SubsIn(subs0, t) || (o == m && t in topics)
  {
    subs := subs0;
    for k := 0 to |topics|
      invariant forall t, o :: o in SubsIn(subs, t) <==> o in SubsIn(subs0, t) || (o == m && t in topics[..k])
    {
      assert topics[..k + 1] == topics[..k] + [topics[k]];
      subs := subs[topics[k] := SubsIn(subs, topics[k]) + {m}];
    }
    assert topics[..|topics|] == topics;
  }

  ghost function ListedIn(parts: map<Str, seq<int>>, topics: set<Str>): set<Key>
  {
    set t, p | t in parts && t in topics && p in parts[t] :: Key(t, p)
  }

  method FillPool(c: Ctx) returns (pool: FreePool)
    ensures fresh(pool) && pool.Valid() && pool.tombstones == 0 && pool.index.Keys == Listed(c)
  {
    pool := new FreePool();
    var todo := c.parts.Keys;
    while todo != {}
      invariant fresh(pool) && pool.Valid() && pool.tombstones == 0 && todo <= c.parts.Keys
      invariant pool.index.Keys == ListedIn(c.parts, c.parts.Keys - todo)
      decreases todo
    {
      var t :| t in todo;
      FillTopic(pool, t, c.parts[t]);
      ListedStep(c.parts, todo, t);
      todo := todo - {t};
    }
    assert ListedIn(c.parts, c.parts.Keys) == Listed(c);
  }

  lemma ListedStep(parts: map<Str, seq<int>>, todo: set<Str>, t: Str)
    requires t in todo && t in parts
    ensures ListedIn(parts, parts.Keys - (todo - {t})) == ListedIn(parts, parts.Keys - todo) + KeysOn(t, parts[t])
  {
  }

  method FillTopic(pool: FreePool, t: Str, parts: seq<int>)
    requires pool.Valid()
    modifies pool
    ensures pool.Valid() && pool.tombstones == old(pool.tombstones)
    ensures pool.index.Keys == old(pool.index.Keys) + KeysOn(t, parts)
  {
    ghost var before := pool.index.Keys;
    for i := 0 to |parts|
      invariant pool.Valid() && pool.tombstones == old(pool.tombstones)
      invariant pool.index.Keys == before + KeysOn(t, parts[..i])
    {
      KeysOnStep(t, parts, i);
      pool.Add(Key(t, parts[i]));
    }
    assert parts[..|parts|] == parts;
  }

  lemma KeysOnStep(t: Str, l: seq<int>, i: nat)
    requires i < |l|
    ensures KeysOn(t, l[..i + 1]) == KeysOn(t, l[..i]) + {Key(t, l[i])}
  {
    assert l[..i + 1] == l[..i] + [l[i]];
  }

  // ------------------------------------------------------------- stickiness

  lemma {:induction false} KeptSame(a: set<Key>, b: set<Key>, t: Str, previous: seq<int>)
    requires forall p :: Key(t, p) in a <==> Key(t, p) in b
    ensures Kept(a, t, previous) == Kept(b, t, previous)
  {
    if previous != [] { KeptSame(a, b, t, previous[..|previous| - 1]); }
  }

  function AppendList(out: Plan, m: Str, t: Str, l: seq<int>): Plan
  {
    if l == [] then out else out[m := Topics(out, m)[t := List(out, m, t) + l]]
  }

  /** The inner loop: one member's previous list of one topic. */
  method RetainTopic(pool: FreePool, out0: Plan, m: Str, t: Str, previous: seq<int>) returns (out: Plan)
    requires pool.Valid()
    modifies pool
    ensures pool.Valid() && pool.added == old(pool.added)
    ensures var kept := Kept(old(pool.index.Keys), t, previous);
            && out == AppendList(out0, m, t, kept)
            && pool.index.Keys == old(pool.index.Keys) - KeysOn(t, kept)
  {
    out := out0;
    ghost var free := pool.index.Keys;
    for i := 0 to |previous|
      invariant pool.Valid() && pool.added == old(pool.added)
      invariant out == AppendList(out0, m, t, Kept(free, t, previous[..i]))
      invariant pool.index.Keys == free - KeysOn(t, Kept(free, t, previous[..i]))
    {
      RetainEntry(out0, m, free, t, previous, i);
      var removed := pool.Remove(Key(t, previous[i]));
      if removed { out := Add(out, m, t, previous[i]); }
    }
    assert previous[..|previous|] == previous;
  }

  lemma RetainEntry(out0: Plan, m: Str, free: set<Key>, t: Str, previous: seq<int>, i: nat)
    requires i < |previous|
    ensures var kept, kept', k := Kept(free, t, previous[..i]), Kept(free, t, previous[..i + 1]), Key(t, previous[i]);
            var freeNow := free - KeysOn(t, kept);
            && freeNow - {k} == free - KeysOn(t, kept')
            && AppendList(out0, m, t, kept') ==
                 if k in freeNow then Add(AppendList(out0, m, t, kept), m, t, previous[i])
                     else AppendList(out0, m, t, kept)
  {
    KeptStep(free, t, previous, i);
    AppendOne(out0, m, t, Kept(free, t, previous[..i]), previous[i]);
  }

  lemma KeptStep(free: set<Key>, t: Str, previous: seq<int>, i: nat)
    requires i < |previous|
    ensures var kept, p := Kept(free, t, previous[..i]), previous[i];
            && Kept(free, t, previous[..i + 1]) ==
                 (if Key(t, p) in free - KeysOn(t, kept) then kept + [p] else kept)
            && KeysOn(t, kept + [p]) == KeysOn(t, kept) + {Key(t, p)}
  {
    assert previous[..i + 1][..i] == previous[..i];
    var kept, p := Kept(free, t, previous[..i]), previous[i];
    assert Key(t, p) in KeysOn(t, kept) <==> p in kept;
  }

  lemma AppendOne(out0: Plan, m: Str, t: Str, l: seq<int>, p: int)
    ensures Add(AppendList(out0, m, t, l), m, t, p) == AppendList(out0, m, t, l + [p])
  {
    assert List(out0, m, t) + (l + [p]) == (List(out0, m, t) + l) + [p];
    if l == [] {
      assert l + [p] == [p];
    } else {
      var a := AppendList(out0, m, t, l);
      assert a[m] == Topics(out0, m)[t := List(out0, m, t) + l];
      assert Add(a, m, t, p)[m] == Topics(out0, m)[t := List(out0, m, t) + (l + [p])];
    }
  }

  /** Absorbing one more topic is appending its list. */
  lemma GainOne(c: Ctx, free: set<Key>, m: Str, done: set<Str>, t: Str)
    requires t !in done && m in c.prev && t in c.prev[m]
    ensures var kept := KeptBy(c, free, m, t);
            && t !in Gain(c, free, m, done)
            && Gain(c, free, m, done + {t}) ==
                 (if kept == [] then Gain(c, free, m, done) else Gain(c, free, m, done)[t := kept])
            && KeysOf(Gain(c, free, m, done + {t})) == KeysOf(Gain(c, free, m, done)) + KeysOn(t, kept)
  {
    var gain, gain', kept := Gain(c, free, m, done), Gain(c, free, m, done + {t}), KeptBy(c, free, m, t);
    assert kept == if m in SubsOf(c, t) then Kept(free, t, c.prev[m][t]) else [];
    assert gain' == if kept == [] then gain else gain[t := kept];
  }

  lemma AbsorbOne(out: Plan, m: Str, gain: map<Str, seq<int>>, t: Str, kept: seq<int>)
    requires t !in gain && kept != []
    ensures Absorb(out, m, gain[t := kept]) == AppendList(Absorb(out, m, gain), m, t, kept)
  {
    var a, b := Absorb(out, m, gain), Absorb(out, m, gain[t := kept]);
    if gain == map[] {
      MergeOne(Topics(out, m), gain, t, kept);
      MergeNone(Topics(out, m));
    } else {
      assert a[m] == Merge(Topics(out, m), gain);
      assert List(a, m, t) == List(out, m, t);
      MergeOne(Topics(out, m), gain, t, kept);
      assert b == a[m := a[m][t := List(a, m, t) + kept]];
    }
  }

  lemma MergeOne(a: map<Str, seq<int>>, gain: map<Str, seq<int>>, t: Str, kept: seq<int>)
    requires t !in gain
    ensures Merge(a, gain[t := kept]) == Merge(a, gain)[t := (if t in a then a[t] else []) + kept]
  {
  }


  lemma MergeNone(a: map<Str, seq<int>>)
    ensures Merge(a, map[]) == a
  {
    forall t | t in a ensures Merge(a, map[])[t] == a[t] { assert a[t] + [] == a[t]; }
  }

  /** What is in the plan and in the pool once `m` has gone through the topics in `done`. */
  ghost function AfterTopics(c: Ctx, s: Split, m: Str, done: set<Str>): Split
  {
    Split(Absorb(s.out, m, Gain(c, s.free, m, done)), s.free - KeysOf(Gain(c, s.free, m, done)))
  }

  method RetainOne(c: Ctx, subs: Subscribers, pool: FreePool, out0: Plan, m: Str, t: Str, ghost s: Split,
                   ghost done: set<Str>)
    returns (out: Plan)
    requires SubsAgree(c, subs) && pool.Valid() && m in c.prev && t in c.prev[m] && t !in done
    requires Split(out0, pool.index.Keys) == AfterTopics(c, s, m, done)
    modifies pool
    ensures pool.Valid() && Split(out, pool.index.Keys) == AfterTopics(c, s, m, done + {t})
    ensures pool.added == old(pool.added)
  {
    if m in SubsIn(subs, t) {
      TopicDone(c, s, m, done, t);
      out := RetainTopic(pool, out0, m, t, c.prev[m][t]);
    } else {
      GainOne(c, s.free, m, done, t);
      out := out0;
    }
  }

  /** One member's turn, with the topics of its previous plan visited in any order. */
  method RetainMember(c: Ctx, subs: Subscribers, pool: FreePool, out0: Plan, m: Str, ghost s: Split) returns (out: Plan)
    requires SubsAgree(c, subs) && pool.Valid() && s == Split(out0, pool.index.Keys) && m in c.prev
    modifies pool
    ensures pool.Valid() && Split(out, pool.index.Keys) == Retain(c, s, m)
    ensures pool.added == old(pool.added)
  {
    hide AfterTopics, Retain, SubsAgree, FreePool.Valid;
    out := out0;
    var todo := c.prev[m].Keys;
    NoTopics(c, s, m);
    ghost var done := {};
    while todo != {}
      invariant pool.Valid() && c.prev[m].Keys == done + todo && done !! todo
      invariant Split(out, pool.index.Keys) == AfterTopics(c, s, m, done)
      invariant pool.added == old(pool.added)
      decreases todo
    {
      var t :| t in todo;
      out := RetainOne(c, subs, pool, out, m, t, s, done);
      todo, done := todo - {t}, done + {t};
    }
    AllTopics(c, s, m, done);
  }

  lemma AllTopics(c: Ctx, s: Split, m: Str, done: set<Str>)
    requires m in c.prev && done == c.prev[m].Keys
    ensures AfterTopics(c, s, m, done) == Retain(c, s, m)
  {
  }

  lemma NoTopics(c: Ctx, s: Split, m: Str)
    ensures AfterTopics(c, s, m, {}) == s
  {
    assert Gain(c, s.free, m, {}) == map[] && KeysOf(map[]) == {};
  }

  lemma TopicDone(c: Ctx, s: Split, m: Str, done: set<Str>, t: Str)
    requires t !in done && m in SubsOf(c, t) && m in c.prev && t in c.prev[m]
    ensures var out, free := Absorb(s.out, m, Gain(c, s.free, m, done)), s.free - KeysOf(Gain(c, s.free, m, done));
            var kept := Kept(free, t, c.prev[m][t]);
            && AppendList(out, m, t, kept) == Absorb(s.out, m, Gain(c, s.free, m, done + {t}))
            && free - KeysOn(t, kept) == s.free - KeysOf(Gain(c, s.free, m, done + {t}))
  {
    GainOne(c, s.free, m, done, t);
    KeptStillFree(c, s.free, m, done, t);
    assert KeptBy(c, s.free, m, t) == Kept(s.free, t, c.prev[m][t]);
    if KeptBy(c, s.free, m, t) != [] {
      AbsorbOne(s.out, m, Gain(c, s.free, m, done), t, KeptBy(c, s.free, m, t));
    }
  }

  lemma KeptStillFree(c: Ctx, free: set<Key>, m: Str, done: set<Str>, t: Str)
    requires t !in done && m in c.prev && t in c.prev[m]
    ensures Kept(free - KeysOf(Gain(c, free, m, done)), t, c.prev[m][t]) == Kept(free, t, c.prev[m][t])
  {
    KeptSame(free - KeysOf(Gain(c, free, m, done)), free, t, c.prev[m][t]);
  }

  method RetainPrevious(c: Ctx, subs: Subscribers, pool: FreePool) returns (out: Plan)
    requires Indexed(c) && SubsAgree(c, subs)
    requires pool.Valid() && pool.tombstones == 0 && pool.index.Keys == Listed(c)
    modifies pool
    ensures pool.Valid() && out == Sticky(c).out && pool.index.Keys == Sticky(c).free
    ensures pool.tombstones + |Sticky(c).free| == |Listed(c)|
  {
    hide Retain, Listed, SubsAgree;
    out := map[];
    for n := 0 to |c.ids|
      invariant pool.Valid() && Split(out, pool.index.Keys) == StickyAt(c, n)
      invariant pool.added == |Listed(c)|
    {
      if c.ids[n] in c.prev {
        out := RetainMember(c, subs, pool, out, c.ids[n], StickyAt(c, n));
      } else {
        RetainNothing(c, StickyAt(c, n), c.ids[n]);
      }
    }
  }

  lemma RetainNothing(c: Ctx, s: Split, m: Str)
    requires m !in c.prev
    ensures Retain(c, s, m) == s
  {
    assert Gain(c, s.free, m, {}) == map[];
    assert s.free - {} == s.free;
  }

  // ----------------------------------------------------- weights and loads

  method Weights(c: Ctx) returns (weight: map<Str, int>)
    requires Indexed(c)
    ensures forall m :: m in c.byId ==> m in weight && weight[m] == Weight(c, m)
  {
    weight := map[];
    for n := 0 to |c.ids|
      invariant forall m :: m in c.ids[..n] ==> m in weight && weight[m] == Weight(c, m)
    {
      var lag := c.byId[c.ids[n]].lag;
      var w := SCALE;
      if lag > 0 {
        var drop := if lag / LAG_DIVISOR < SCALE - 1 then lag / LAG_DIVISOR else SCALE - 1;
        w := w - drop;
      }
      if w < 1 { w := 1; }
      weight := weight[c.ids[n] := w];
      assert c.ids[..n + 1] == c.ids[..n] + [c.ids[n]];
    }
    assert c.ids[..|c.ids|] == c.ids;
  }

  /** A Go map of counters: a missing key counts as zero. */
  function At(load: map<Str, int>, m: Str): int
  {
    if m in load then load[m] else 0
  }

  /** The bookkeeping in `load` is the real number of owned partitions. */
  ghost predicate Tallies(load: map<Str, int>, out: Plan)
  {
    forall m :: At(load, m) == Load(out, m)
  }

  method CountLists(byTopic: map<Str, seq<int>>) returns (n: int)
    ensures n == Sum(byTopic.Keys, Lengths(byTopic))
  {
    n := 0;
    var todo := byTopic.Keys;
    while todo != {}
      invariant todo <= byTopic.Keys
      invariant n + Sum(todo, Lengths(byTopic)) == Sum(byTopic.Keys, Lengths(byTopic))
      decreases todo
    {
      var t :| t in todo;
      SumSplit(todo, Lengths(byTopic), t);
      n := n + |byTopic[t]|;
      todo := todo - {t};
    }
  }

  method InitialLoads(out: Plan) returns (load: map<Str, int>)
    ensures Tallies(load, out)
  {
    load := map[];
    var todo := out.Keys;
    while todo != {}
      invariant todo <= out.Keys
      invariant forall m :: At(load, m) == if m in todo then 0 else Load(out, m)
      decreases todo
    {
      var m :| m in todo;
      var n := CountLists(out[m]);
      load := load[m := At(load, m) + n];
      todo := todo - {m};
    }
  }

  // ----------------------------------------------------------- distribution

  method BestOwner(c: Ctx, subs: set<Str>, weight: map<Str, int>, load: map<Str, int>, ghost out: Plan, ghost t: Str)
    returns (bestId: Str)
    requires Indexed(c) && subs == SubsOf(c, t) && Tallies(load, out)
    requires forall m :: m in c.byId ==> m in weight && weight[m] == Weight(c, m)
    ensures bestId == Best(c, out, t)
  {
    var best := Candidate(NOBODY, -1, 0);
    for n := 0 to |c.ids|
      invariant best == BestAt(c, out, t, n)
    {
      var m := c.ids[n];
      if m in subs {
        var a := Candidate(m, weight[m] * 8 - At(load, m), At(load, m));
        if Replaces(a, best) { best := a; }
      }
    }
    bestId := best.id;
  }

  method Distribute(c: Ctx, subs: Subscribers, keys: seq<Key>, out0: Plan) returns (out: Plan, load: map<Str, int>)
    requires Indexed(c) && SubsAgree(c, subs)
    ensures out == PlaceAll(c, out0, keys) && Tallies(load, out)
  {
    var weight := Weights(c);
    out := out0;
    load := InitialLoads(out);
    for i := 0 to |keys|
      invariant out == PlaceAll(c, out0, keys[..i]) && Tallies(load, out)
    {
      var k := keys[i];
      assert keys[..i + 1][..i] == keys[..i] && keys[..i + 1][i] == k;
      var bestId := BestOwner(c, SubsIn(subs, k.topic), weight, load, out, k.topic);
      if bestId != NOBODY {
        forall n ensures Load(Add(out, bestId, k.topic, k.part), n) == Load(out, n) + if n == bestId then 1 else 0 {
          LoadAdd(out, bestId, k.topic, k.part, n);
        }
        out := Add(out, bestId, k.topic, k.part);
        load := load[bestId := At(load, bestId) + 1];
      }
    }
    assert keys[..|keys|] == keys;
  }

  // ------------------------------------------------------------ feasibility

  method HasAnyList(byTopic: map<Str, seq<int>>) returns (any: bool)
    ensures any == HasAny(byTopic)
  {
    var todo := byTopic.Keys;
    while todo != {}
      invariant todo <= byTopic.Keys
      invariant forall t :: t in byTopic && t !in todo ==> byTopic[t] == []
      decreases todo
    {
      var t :| t in todo;
      if |byTopic[t]| > 0 { return true; }
      todo := todo - {t};
    }
    return false;
  }

  /** The donor scan, which visits the subscribers in any order. */
  method FindDonor(subs: set<Str>, mid: Str, load: map<Str, int>, ghost out: Plan) returns (donor: Str)
    requires Tallies(load, out)
    ensures if subs - {mid} == {} then donor == NOBODY
            else donor in subs - {mid} && forall d :: d in subs - {mid} ==> NoHeavier(out, d, donor)
  {
    donor := NOBODY;
    var donorLoad := -1;
    var todo := subs;
    while todo != {}
      invariant todo <= subs
      invariant donorLoad == -1 ==> donor == NOBODY && subs - {mid} - todo == {}
      invariant donorLoad != -1 ==> donor in subs - {mid} && donorLoad == Load(out, donor)
      invariant forall d :: d in subs - {mid} - todo ==> Load(out, d) <= donorLoad
      decreases todo
    {
      var d :| d in todo;
      todo := todo - {d};
      if d != mid {
        LoadAtLeast(out, d, []);
        if At(load, d) > donorLoad { donor, donorLoad := d, At(load, d); }
      }
    }
    assert subs - {mid} - {} == subs - {mid};
  }

  /** `tr` records the attempts made so far, and `out` is the plan they led to. */
  ghost predicate SoFar(c: Ctx, start: Plan, attempts: seq<Attempt>, tr: Trace, out: Plan)
  {
    Steps(c, tr) && tr.attempts == attempts && tr.states[0] == start && out == tr.states[|attempts|]
  }

  /** A member that owns something skips its remaining topics. */
  lemma {:induction false} SkipRest(c: Ctx, start: Plan, done: seq<Attempt>, tr: Trace, out: Plan, m: Str,
                                    topics: seq<Str>, k: nat)
      returns (tr': Trace)
    requires k <= |topics| && SoFar(c, start, done + AttemptsOf(m, topics[..k]), tr, out) && OwnsAny(out, m)
    ensures SoFar(c, start, done + AttemptsOf(m, topics), tr', out)
    decreases |topics| - k
  {
    if k == |topics| {
      tr' := tr;
      assert topics[..k] == topics;
    } else {
      AttemptsOfStep(done, m, topics, k);
      ExtendSteps(c, tr, Attempt(m, topics[k]), NOBODY);
      tr' := SkipRest(c, start, done, Extend(c, tr, Attempt(m, topics[k]), NOBODY), out, m, topics, k + 1);
    }
  }

  lemma AttemptsOfStep(done: seq<Attempt>, m: Str, topics: seq<Str>, k: nat)
    requires k < |topics|
    ensures done + AttemptsOf(m, topics[..k + 1]) == done + AttemptsOf(m, topics[..k]) + [Attempt(m, topics[k])]
  {
    assert topics[..k + 1][..k] == topics[..k];
  }

  /** One attempt that reaches the donor scan. */
  method TryTopic(c: Ctx, subs: Subscribers, out0: Plan, load0: map<Str, int>, mid: Str, topic: Str)
    returns (out: Plan, load: map<Str, int>, stole: bool, ghost pick: Str)
    requires SubsAgree(c, subs) && Tallies(load0, out0) && mid in SubsOf(c, topic) && !OwnsAny(out0, mid)
    ensures MayPick(c, out0, Attempt(mid, topic), pick)
    ensures out == Steal(c, out0, Attempt(mid, topic), pick) && stole == Succeeds(c, out0, Attempt(mid, topic), pick)
    ensures Tallies(load, out)
  {
    out, load, stole, pick := out0, load0, false, NOBODY;
    if |PartsOf(c, topic)| < |SubsIn(subs, topic)| { return; }
    var donor := FindDonor(SubsIn(subs, topic), mid, load, out);
    pick := donor;
    if donor == NOBODY { return; }
    var donorParts := List(out, donor, topic);
    if |donorParts| <= 1 { return; }
    MoveTallies(load, out, donor, mid, topic);
    out := Move(out, donor, mid, topic);
    load := load[donor := At(load, donor) - 1];
    load := load[mid := At(load, mid) + 1];
    stole := true;
  }

  lemma MoveTallies(load: map<Str, int>, out: Plan, donor: Str, m: Str, t: Str)
    requires Tallies(load, out) && |List(out, donor, t)| > 0 && donor != m
    ensures Tallies(load[donor := At(load, donor) - 1][m := At(load, m) + 1], Move(out, donor, m, t))
  {
    forall n ensures At(load[donor := At(load, donor) - 1][m := At(load, m) + 1], n) ==
        Load(Move(out, donor, m, t), n) {
      LoadMove(out, donor, m, t, n);
    }
  }

  /** One member's turn: its topics in order, until one yields a partition. */
  method StealFor(c: Ctx, subs: Subscribers, out0: Plan, load0: map<Str, int>, mid: Str,
                  ghost start: Plan, ghost done: seq<Attempt>, ghost tr0: Trace)
    returns (out: Plan, load: map<Str, int>, ghost tr: Trace)
    requires SubsAgree(c, subs) && Tallies(load0, out0) && mid in c.byId
    requires SoFar(c, start, done, tr0, out0)
    ensures SoFar(c, start, done + AttemptsOf(mid, c.byId[mid].topics), tr, out)
    ensures Tallies(load, out)
  {
    out, load, tr := out0, load0, tr0;
    var topics := c.byId[mid].topics;
    var k := 0;
    assert done + AttemptsOf(mid, topics[..k]) == done;
    var owns := HasAnyList(Topics(out, mid));
    while k < |topics| && !owns
      invariant k <= |topics| && owns == OwnsAny(out, mid) && Tallies(load, out)
      invariant SoFar(c, start, done + AttemptsOf(mid, topics[..k]), tr, out)
    {
      ghost var pick;
      ghost var before := out;
      out, load, owns, pick := TryTopic(c, subs, out, load, mid, topics[k]);
      AttemptsOfStep(done, mid, topics, k);
      StealServes(c, before, Attempt(mid, topics[k]), pick, mid);
      ExtendSteps(c, tr, Attempt(mid, topics[k]), pick);
      tr := Extend(c, tr, Attempt(mid, topics[k]), pick);
      k := k + 1;
    }
    if owns {
      tr := SkipRest(c, start, done, tr, out, mid, topics, k);
    } else {
      assert topics[..k] == topics;
    }
  }

  method StealPass(c: Ctx, subs: Subscribers, start: Plan, load0: map<Str, int>)
    returns (out: Plan, load: map<Str, int>, ghost tr: Trace)
    requires Indexed(c) && SubsAgree(c, subs) && Tallies(load0, start)
    ensures SoFar(c, start, Attempts(c), tr, out) && Tallies(load, out)
  {
    out, load, tr := start, load0, Trace([], [], [start]);
    for n := 0 to |c.ids|
      invariant Tallies(load, out) && SoFar(c, start, AttemptsAt(c, n), tr, out)
    {
      out, load, tr := StealFor(c, subs, out, load, c.ids[n], start, AttemptsAt(c, n), tr);
    }
  }

  // ------------------------------------------------------------------- plan

  method SortAll(out0: Plan) returns (out: Plan)
    ensures out == SortPlan(out0)
  {
    out := out0;
    var todo := out.Keys;
    while todo != {}
      invariant out.Keys == out0.Keys && todo <= out.Keys
      invariant forall m :: m in out ==> out[m] == if m in todo then out0[m] else SortLists(out0[m])
      decreases todo
    {
      var m :| m in todo;
      var sorted := SortTopics(out[m]);
      out := out[m := sorted];
      todo := todo - {m};
    }
  }

  method SortTopics(byTopic0: map<Str, seq<int>>) returns (byTopic: map<Str, seq<int>>)
    ensures byTopic == SortLists(byTopic0)
  {
    IntOrder();
    byTopic := byTopic0;
    var todo := byTopic.Keys;
    while todo != {}
      invariant byTopic.Keys == byTopic0.Keys && todo <= byTopic.Keys
      invariant forall t :: t in byTopic ==> byTopic[t] == if t in todo then byTopic0[t]
                else SortBy(byTopic0[t], IntLeq)
      decreases todo
    {
      var t :| t in todo;
      byTopic := byTopic[t := SortBy(byTopic[t], IntLeq)];
      todo := todo - {t};
    }
  }

  /** The planner. The result is the end of a run of the feasibility pass, and holds every
      partition as often as the inputs demand. */
  method Compute(inputs: Inputs) returns (out: Plan)
    ensures Possible(Index(inputs), out)
    ensures forall t, p :: Occ(out, t, p) == Expected(Index(inputs), t, p)
  {
    ghost var tr;
    out, tr := RunPasses(inputs);
    forall t, p ensures Occ(out, t, p) == Expected(Index(inputs), t, p) { Conservation(Index(inputs), tr, t, p); }
  }

  method RunPasses(inputs: Inputs) returns (out: Plan, ghost tr: Trace)
    ensures Run(Index(inputs), tr) && out == Final(Index(inputs), tr)
  {
    IndexIndexes(inputs);
    var c := IndexMembers(inputs);
    if |inputs.members| == 0 {
      tr := Trace([], [], [map[]]);
      EmptyRun(c);
      return map[], tr;
    }
    var subs := IndexSubscribers(c);
    var pool := FillPool(c);
    var sticky := RetainPrevious(c, subs, pool);
    var keys := pool.Remaining();
    var placed, load := Distribute(c, subs, keys, sticky);
    out, load, tr := StealPass(c, subs, placed, load);
    out := SortAll(out);
  }

  lemma EmptyRun(c: Ctx)
    requires Indexed(c) && c.ids == []
    ensures var tr := Trace([], [], [map[]]); Run(c, tr) && Final(c, tr) == map[]
  {
    EmptyPlaces(c, FreeKeys(c));
    assert Sticky(c).out == map[];
  }

  lemma {:induction false} EmptyPlaces(c: Ctx, keys: seq<Key>)
    requires Indexed(c) && c.ids == []
    ensures PlaceAll(c, map[], keys) == map[]
  {
    if keys != [] { EmptyPlaces(c, keys[..|keys| - 1]); }
  }
}
