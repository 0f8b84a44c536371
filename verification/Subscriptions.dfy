/** The subscription store: group -> member -> record, bounded over all groups together.
    It is proved to be a flat map from (group, member) to record. */
module Subscriptions {
  import opened Ordering
  import opened Sums
  import opened ConsumerProtocol

  datatype Record = Record(group: Str, member: Str, topics: seq<Str>, owned: seq<TopicPartitions>, generation: int)

  type Nested = map<Str, map<Str, Record>>

  datatype Id = Id(group: Str, member: Str)

  type Flat = map<Id, Record>

  // ----------------------------------------------------- first occurrences

  /** The elements of `s`, each at its first occurrence. */
  function Dedup(s: seq<Str>): seq<Str>
  {
    if s == [] then [] else
      var front, last := s[..|s| - 1], s[|s| - 1];
      if last in front then Dedup(front) else Dedup(front) + [last]
  }

  function FirstIndex(s: seq<Str>, x: Str): (i: nat)
    requires x in s
    ensures i < |s| && s[i] == x && forall j :: 0 <= j < i ==> s[j] != x
  {
    if s[0] == x then 0 else 1 + FirstIndex(s[1..], x)
  }

  /** Every element once, in the order of the first occurrences. */
  ghost predicate FirstOccurrences(s: seq<Str>, r: seq<Str>)
  {
    && (forall x :: x in r <==> x in s)
    && (forall i, j :: 0 <= i < j < |r| ==> r[i] in s && r[j] in s && FirstIndex(s, r[i]) < FirstIndex(s, r[j]))
  }

  lemma FirstIndexGrows(s: seq<Str>, x: Str, y: Str)
    requires x in s
    ensures FirstIndex(s + [y], x) == FirstIndex(s, x)
  {
    var i := FirstIndex(s, x);
    assert (s + [y])[i] == x && forall j :: 0 <= j < i ==> (s + [y])[j] == s[j];
  }

  lemma {:induction false} DedupIs(s: seq<Str>)
    ensures FirstOccurrences(s, Dedup(s))
  {
    if s != [] {
      var front, last := s[..|s| - 1], s[|s| - 1];
      assert s == front + [last];
      DedupIs(front);
      forall x | x in front ensures FirstIndex(s, x) == FirstIndex(front, x) { FirstIndexGrows(front, x, last); }
      var r := Dedup(s);
      forall i, j | 0 <= i < j < |r| ensures r[i] in s && r[j] in s && FirstIndex(s, r[i]) < FirstIndex(s, r[j]) {
        assert r[i] in Dedup(front);
      }
    }
  }

  /** There is only one such sequence. */
  lemma {:induction false} FirstOccurrencesUnique(s: seq<Str>, a: seq<Str>, b: seq<Str>)
    requires FirstOccurrences(s, a) && FirstOccurrences(s, b)
    ensures a == b
  {
    forall i: nat | i < |a| && i < |b| ensures a[i] == b[i] { SameAt(s, a, b, i); }
    if |b| > 0 { ReachesAsFar(s, a, b, |b| - 1); }
    if |a| > 0 { ReachesAsFar(s, b, a, |a| - 1); }
  }

  lemma ReachesAsFar(s: seq<Str>, a: seq<Str>, b: seq<Str>, j: nat)
    requires FirstOccurrences(s, a) && FirstOccurrences(s, b) && j < |b|
    requires forall i: nat :: i < |a| && i < |b| ==> a[i] == b[i]
    ensures j < |a|
  {
    assert b[j] in a;
    var i: nat :| i < |a| && a[i] == b[j];
    if i < |b| { assert b[i] == b[j]; }
  }

  lemma {:induction false} SameAt(s: seq<Str>, a: seq<Str>, b: seq<Str>, i: nat)
    requires FirstOccurrences(s, a) && FirstOccurrences(s, b) && i < |a| && i < |b|
    ensures a[i] == b[i]
  {
    forall k: nat | k < i ensures a[k] == b[k] { SameAt(s, a, b, k); }
    assert a[i] in b && b[i] in a;
    var j :| 0 <= j < |b| && b[j] == a[i];
    var k :| 0 <= k < |a| && a[k] == b[i];
    assert j >= i;
    assert k >= i;
  }

  /** Copy without repeats. */
  method DedupCopy(topics: seq<Str>) returns (out: seq<Str>)
    ensures FirstOccurrences(topics, out) && out == Dedup(topics)
  {
    var seen: set<Str> := {};
    out := [];
    for i := 0 to |topics|
      invariant out == Dedup(topics[..i]) && forall x :: x in seen <==> x in topics[..i]
    {
      assert topics[..i + 1][..i] == topics[..i];
      var t := topics[i];
      if t in seen { continue; }
      seen := seen + {t};
      out := out + [t];
    }
    assert topics[..|topics|] == topics;
    DedupIs(topics);
  }

  // ------------------------------------------------------ nested and flat

  function IdsOf(n: Nested, groups: set<Str>): set<Id>
    requires groups <= n.Keys
  {
    set g, m | g in groups && m in n[g] :: Id(g, m)
  }

  function Flatten(n: Nested): Flat
  {
    map id | id in IdsOf(n, n.Keys) :: n[id.group][id.member]
  }

  lemma FlattenAt(n: Nested, id: Id)
    ensures id in Flatten(n) <==> id.group in n && id.member in n[id.group]
    ensures id in Flatten(n) ==> Flatten(n)[id] == n[id.group][id.member]
  {
    assert id == Id(id.group, id.member);
  }

  ghost function Sizes(n: Nested): map<Str, int>
  {
    map g | g in n :: |n[g]|
  }

  /** The number of records over all groups. */
  ghost function Total(n: Nested): int
  {
    Sum(n.Keys, Sizes(n))
  }

  function IdsIn(g: Str, members: set<Str>): set<Id>
  {
    set m | m in members :: Id(g, m)
  }

  lemma {:induction false} IdsInSize(g: Str, members: set<Str>)
    ensures |IdsIn(g, members)| == |members|
  {
    if members != {} {
      var m :| m in members;
      IdsInSize(g, members - {m});
      assert IdsIn(g, members) == IdsIn(g, members - {m}) + {Id(g, m)};
    }
  }

  lemma {:induction false} IdsOfSize(n: Nested, groups: set<Str>)
    requires groups <= n.Keys
    ensures |IdsOf(n, groups)| == Sum(groups, Sizes(n))
    decreases |groups|
  {
    if groups != {} {
      var g :| g in groups;
      SumSplit(groups, Sizes(n), g);
      IdsOfSize(n, groups - {g});
      IdsInSize(g, n[g].Keys);
      assert IdsOf(n, groups) == IdsOf(n, groups - {g}) + IdsIn(g, n[g].Keys);
      assert IdsOf(n, groups - {g}) !! IdsIn(g, n[g].Keys);
      assert |n[g].Keys| == |n[g]|;
    } else {
      assert IdsOf(n, groups) == {};
    }
  }

  /** Counting group by group is counting the records. */
  lemma TotalIsSize(n: Nested)
    ensures Total(n) == |Flatten(n)|
  {
    IdsOfSize(n, n.Keys);
    assert Flatten(n).Keys == IdsOf(n, n.Keys);
    assert |Flatten(n).Keys| == |Flatten(n)|;
  }

  ghost predicate NoEmptyGroup(n: Nested)
  {
    forall g :: g in n ==> n[g] != map[]
  }

  /** Two nestings of the same records without empty groups are the same. */
  lemma FlattenInjective(a: Nested, b: Nested)
    requires NoEmptyGroup(a) && NoEmptyGroup(b) && Flatten(a) == Flatten(b)
    ensures a == b
  {
    forall g | g in a ensures g in b && a[g] == b[g] { SameGroup(a, b, g); }
    forall g | g in b ensures g in a { SameGroup(b, a, g); }
  }

  lemma SameGroup(a: Nested, b: Nested, g: Str)
    requires NoEmptyGroup(a) && Flatten(a) == Flatten(b) && g in a
    ensures g in b && a[g] == b[g]
  {
    var m0 :| m0 in a[g];
    FlattenAt(a, Id(g, m0));
    FlattenAt(b, Id(g, m0));
    forall m ensures m in a[g] <==> m in b[g] {
      FlattenAt(a, Id(g, m));
      FlattenAt(b, Id(g, m));
    }
    forall m | m in a[g] ensures a[g][m] == b[g][m] {
      FlattenAt(a, Id(g, m));
      FlattenAt(b, Id(g, m));
    }
  }

  function Stored(r: Record): Record
  {
    r.(topics := Dedup(r.topics))
  }

  predicate Refused(f: Flat, max: int, id: Id)
  {
    id !in f && max > 0 && |f| >= max
  }

  function FlatPut(f: Flat, max: int, r: Record): Flat
  {
    if Refused(f, max, Id(r.group, r.member)) then f else f[Id(r.group, r.member) := Stored(r)]
  }

  function Opened(n: Nested, g: Str): (r: Nested)
    ensures g in r
  {
    if g in n then n else n[g := map[]]
  }

  function Entered(n: Nested, r: Record): Nested
    requires r.group in n
  {
    n[r.group := n[r.group][r.member := r]]
  }

  ghost predicate AtCap(n: Nested, max: int)
  {
    max > 0 && Total(n) >= max
  }

  /** What Put does to the nested map: a missing group is created, unless the store is full. */
  ghost function NestedPut(n: Nested, max: int, r: Record): Nested
  {
    if r.group !in n && AtCap(n, max) then n else
      var n1 := Opened(n, r.group);
      if r.member !in n1[r.group] && AtCap(n1, max) then n1 else Entered(n1, Stored(r))
  }

  function NestedRemove(n: Nested, group: Str, member: Str): Nested
  {
    if group !in n || member !in n[group] then n else
      var g := n[group] - {member};
      if |g| == 0 then n - {group} else n[group := g]
  }

  datatype Lookup = Missing | Found(record: Record)

  function Find(f: Flat, id: Id): Lookup
  {
    if id in f then Found(f[id]) else Missing
  }

  lemma SameFinds(a: Flat, b: Flat)
    requires forall id :: Find(a, id) == Find(b, id)
    ensures a == b
  {
    assert forall id :: id in a <==> Find(a, id) != Missing;
    assert forall id :: id in b <==> Find(b, id) != Missing;
    assert forall id :: id in a ==> Find(a, id) == Found(a[id]) && Find(b, id) == Found(b[id]);
  }

  lemma InsertFlat(n: Nested, r: Record)
    requires r.group in n
    ensures Flatten(Entered(n, r)) == Flatten(n)[Id(r.group, r.member) := r]
  {
    var n' := Entered(n, r);
    var f' := Flatten(n)[Id(r.group, r.member) := r];
    forall id ensures Find(Flatten(n'), id) == Find(f', id) {
      FlattenAt(n, id);
      FlattenAt(n', id);
    }
    SameFinds(Flatten(n'), f');
  }

  lemma RemoveFlat(n: Nested, group: Str, member: Str)
    requires group in n && member in n[group]
    ensures Flatten(NestedRemove(n, group, member)) == Flatten(n) - {Id(group, member)}
  {
    var n' := NestedRemove(n, group, member);
    var f' := Flatten(n) - {Id(group, member)};
    var g := n[group] - {member};
    forall id ensures Find(Flatten(n'), id) == Find(f', id) {
      FlattenAt(n, id);
      FlattenAt(n', id);
      assert id.group == group && id.member in n[group] && id.member != member ==> id.member in g;
    }
    SameFinds(Flatten(n'), f');
  }

  lemma RemoveSmaller(f: Flat, id: Id)
    ensures |f - {id}| <= |f|
  {
    assert (f - {id}).Keys == f.Keys - {id};
    assert |(f - {id}).Keys| == |f - {id}| && |f.Keys| == |f|;
  }


  /** Records sit under their own group and member, and list each topic once. */
  ghost predicate WellFiled(id: Id, r: Record)
  {
    id == Id(r.group, r.member) && Distinct(r.topics)
  }

  ghost predicate Filed(f: Flat)
  {
    forall id :: id in f ==> WellFiled(id, f[id])
  }

  ghost predicate Bounded(f: Flat, max: int)
  {
    max > 0 ==> |f| <= max
  }

  ghost predicate Good(n: Nested, max: int)
  {
    NoEmptyGroup(n) && Bounded(Flatten(n), max) && Filed(Flatten(n))
  }

  lemma DedupDistinct(s: seq<Str>)
    ensures Distinct(Dedup(s))
  {
    DedupIs(s);
  }

  lemma FlatPutGood(f: Flat, max: int, r: Record)
    requires Bounded(f, max) && Filed(f)
    ensures Bounded(FlatPut(f, max, r), max) && Filed(FlatPut(f, max, r))
  {
    DedupDistinct(r.topics);
    var id := Id(r.group, r.member);
    var f' := f[id := Stored(r)];
    assert f'.Keys == f.Keys + {id};
    assert |f'.Keys| == |f'| && |f.Keys| == |f|;
  }

  /** An empty group more makes no difference to the flat map. */
  lemma OpenedFlat(n: Nested, g: Str)
    ensures Flatten(Opened(n, g)) == Flatten(n) && Total(Opened(n, g)) == Total(n)
  {
    forall id ensures Find(Flatten(Opened(n, g)), id) == Find(Flatten(n), id) {
      FlattenAt(n, id);
      FlattenAt(Opened(n, g), id);
    }
    SameFinds(Flatten(Opened(n, g)), Flatten(n));
    TotalIsSize(n);
    TotalIsSize(Opened(n, g));
  }

  lemma EnteredNotEmpty(n: Nested, r: Record)
    requires NoEmptyGroup(n)
    ensures NoEmptyGroup(Entered(Opened(n, r.group), r))
  {
    var n' := Entered(Opened(n, r.group), r);
    forall g | g in n' ensures n'[g] != map[] { assert g == r.group ==> r.member in n'[g]; }
  }

  /** Put is refused on the nested map exactly when it is on the flat one. */
  lemma RefusedAlike(n: Nested, max: int, r: Record)
    ensures Refused(Flatten(n), max, Id(r.group, r.member)) <==>
              AtCap(n, max) && (r.group !in n || r.member !in n[r.group])
  {
    TotalIsSize(n);
    FlattenAt(n, Id(r.group, r.member));
  }

  /** Put on the nested map is Put on the flat one. */
  lemma PutRefines(n: Nested, max: int, r: Record)
    requires NoEmptyGroup(n)
    ensures Flatten(NestedPut(n, max, r)) == FlatPut(Flatten(n), max, r) && NoEmptyGroup(NestedPut(n, max, r))
  {
    hide Flatten, Total, NoEmptyGroup;
    RefusedAlike(n, max, r);
    OpenedFlat(n, r.group);
    InsertFlat(Opened(n, r.group), Stored(r));
    EnteredNotEmpty(n, Stored(r));
  }

  /** So is RemoveMember. */
  lemma RemoveRefines(n: Nested, group: Str, member: Str)
    requires NoEmptyGroup(n)
    ensures Flatten(NestedRemove(n, group, member)) == Flatten(n) - {Id(group, member)}
    ensures NoEmptyGroup(NestedRemove(n, group, member))
  {
    if group in n && member in n[group] {
      RemoveFlat(n, group, member);
    } else {
      FlattenAt(n, Id(group, member));
      assert Flatten(n) - {Id(group, member)} == Flatten(n);
    }
  }

  // ---------------------------------------------------------- as an object

  class Store {
    var byGroup: Nested
    const max: int

    ghost predicate Valid()
      reads this
    {
      Good(byGroup, max)
    }

    function Records(): Flat
      reads this
    {
      Flatten(byGroup)
    }

    /** A cap that is not positive means no cap. */
    constructor (max: int)
      ensures Valid() && Records() == map[] && this.max == max
    {
      this.max := max;
      byGroup := map[];
    }

    method Count() returns (n: int)
      ensures n == |Records()| == Total(byGroup)
    {
      n := 0;
      var todo := byGroup.Keys;
      while todo != {}
        invariant todo <= byGroup.Keys && n + Sum(todo, Sizes(byGroup)) == Total(byGroup)
        decreases todo
      {
        var g: Str :| g in todo;
        SumSplit(todo, Sizes(byGroup), g);
        n := n + |byGroup[g]|;
        todo := todo - {g};
      }
      TotalIsSize(byGroup);
    }

    /** Put fails exactly for a new member at the cap, and then changes nothing. */
    method Put(sub: Record) returns (ok: bool)
      requires Valid()
      modifies this
      ensures Valid()
      ensures ok == !Refused(old(Records()), max, Id(sub.group, sub.member))
      ensures Records() == FlatPut(old(Records()), max, sub)
    {
      PutRefines(byGroup, max, sub);
      FlatPutGood(Records(), max, sub);
      RefusedAlike(byGroup, max, sub);
      ok := PutCopy(sub);
    }

    /** The steps of Put on the nested map. */
    method PutCopy(sub: Record) returns (ok: bool)
      modifies this
      ensures byGroup == NestedPut(old(byGroup), max, sub)
      ensures ok == !(AtCap(old(byGroup), max)
              && (sub.group !in old(byGroup) || sub.member !in old(byGroup)[sub.group]))
    {
      var topics := DedupCopy(sub.topics);
      var cp := sub.(topics := topics);
      OpenedFlat(byGroup, cp.group);
      if cp.group !in byGroup {
        var full := Full();
        if full { return false; }
        byGroup := byGroup[cp.group := map[]];
      }
      if cp.member !in byGroup[cp.group] {
        var full := Full();
        if full { return false; }
      }
      byGroup := byGroup[cp.group := byGroup[cp.group][cp.member := cp]];
      return true;
    }

    method Full() returns (full: bool)
      ensures full == AtCap(byGroup, max)
    {
      if max <= 0 { return false; }
      var n := Count();
      return n >= max;
    }

    method Get(group: Str, member: Str) returns (r: Lookup)
      ensures r == Find(Records(), Id(group, member))
    {
      FlattenAt(byGroup, Id(group, member));
      if group in byGroup && member in byGroup[group] {
        return Found(byGroup[group][member]);
      }
      return Missing;
    }

    /** The group goes with its last member. */
    method RemoveMember(group: Str, member: Str)
      requires Valid()
      modifies this
      ensures Valid() && Records() == old(Records()) - {Id(group, member)}
    {
      RemoveRefines(byGroup, group, member);
      RemoveSmaller(Records(), Id(group, member));
      Drop(group, member);
    }

    method Drop(group: Str, member: Str)
      modifies this
      ensures byGroup == NestedRemove(old(byGroup), group, member)
    {
      if group !in byGroup { return; }
      if member !in byGroup[group] { return; }
      var g := byGroup[group] - {member};
      byGroup := byGroup[group := g];
      if |g| == 0 {
        assert byGroup - {group} == old(byGroup) - {group};
        byGroup := byGroup - {group};
      }
    }
  }

  // -------------------------------------------------------------- histories

  datatype Op = Put(r: Record) | Remove(group: Str, member: Str)

  ghost function NestedAfter(max: int, ops: seq<Op>): Nested
  {
    if ops == [] then map[] else
      var n := NestedAfter(max, ops[..|ops| - 1]);
      match ops[|ops| - 1]
      case Put(r) => NestedPut(n, max, r)
      case Remove(group, member) => NestedRemove(n, group, member)
  }

  function FlatAfter(max: int, ops: seq<Op>): Flat
  {
    if ops == [] then map[] else
      var f := FlatAfter(max, ops[..|ops| - 1]);
      match ops[|ops| - 1]
      case Put(r) => FlatPut(f, max, r)
      case Remove(group, member) => f - {Id(group, member)}
  }

  /** Under every sequence of calls the two-level store is the flat bounded map: the same
      records, never more than the cap, and no group without members. */
  lemma {:induction false} StoreRefines(max: int, ops: seq<Op>)
    ensures Flatten(NestedAfter(max, ops)) == FlatAfter(max, ops)
    ensures NoEmptyGroup(NestedAfter(max, ops)) && Total(NestedAfter(max, ops)) == |FlatAfter(max, ops)|
    ensures Bounded(FlatAfter(max, ops), max) && Filed(FlatAfter(max, ops))
  {
    if ops != [] {
      StoreRefines(max, ops[..|ops| - 1]);
      var n := NestedAfter(max, ops[..|ops| - 1]);
      match ops[|ops| - 1]
      case Put(r) =>
        PutRefines(n, max, r);
        FlatPutGood(Flatten(n), max, r);
      case Remove(group, member) =>
        RemoveRefines(n, group, member);
        RemoveSmaller(Flatten(n), Id(group, member));
    }
    TotalIsSize(NestedAfter(max, ops));
  }
}
