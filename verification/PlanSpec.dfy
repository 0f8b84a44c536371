/** What the partition planner computes, pass by pass, as functions of its inputs.

    The imperative planner (module PlanCompute) is proved to compute exactly these
    functions; what the planner promises is proved about them in the modules
    PlanConservation, PlanBalance, PlanSteal, PlanSticky and PlanDeterminism. */
module PlanSpec {
  import opened Ordering
  import opened Sums

  datatype Member = Member(id: Str, topics: seq<Str>, lag: int)

  /** member id -> topic -> partitions */
  type Plan = map<Str, map<Str, seq<int>>>

  /** `previous` is empty when there is no last known assignment. */
  datatype Inputs = Inputs(members: seq<Member>, partitions: map<Str, seq<int>>, previous: Plan)

  datatype Key = Key(topic: Str, part: int)

  /** The empty string, which the planner also uses for "no member". */
  const NOBODY: Str := []

  /** The zero value of a pool key, which overwrites removed entries. */
  const TOMBSTONE: Key := Key([], 0)

  const SCALE := 100
  const LAG_DIVISOR := 1000

  /** Inputs indexed: `ids` sorted (repeats kept), `byId` the last member with each id. */
  datatype Ctx = Ctx(ids: seq<Str>, byId: map<Str, Member>, parts: map<Str, seq<int>>, prev: Plan)

  // ---------------------------------------------------------------- plans

  function List(out: Plan, m: Str, t: Str): seq<int>
  {
    if m in out && t in out[m] then out[m][t] else []
  }

  predicate Holds(out: Plan, m: Str, t: Str, p: int)
  {
    p in List(out, m, t)
  }

  function Topics(out: Plan, m: Str): map<Str, seq<int>>
  {
    if m in out then out[m] else map[]
  }

  function Add(out: Plan, m: Str, t: Str, p: int): Plan
  {
    out[m := Topics(out, m)[t := List(out, m, t) + [p]]]
  }

  predicate HasAny(byTopic: map<Str, seq<int>>)
  {
    exists t :: t in byTopic && byTopic[t] != []
  }

  ghost function Lengths(byTopic: map<Str, seq<int>>): map<Str, int>
  {
    map t | t in byTopic :: |byTopic[t]|
  }

  /** The number of partitions a member owns over all topics. */
  ghost function Load(out: Plan, m: Str): int
  {
    Sum(Topics(out, m).Keys, Lengths(Topics(out, m)))
  }

  // ------------------------------------------------------------- indexing

  function Ids(members: seq<Member>): seq<Str>
  {
    if members == [] then [] else Ids(members[..|members| - 1]) + [members[|members| - 1].id]
  }

  function ById(members: seq<Member>): map<Str, Member>
  {
    if members == [] then map[] else
      var last := members[|members| - 1];
      ById(members[..|members| - 1])[last.id := last]
  }

  function Index(inputs: Inputs): Ctx
  {
    StrOrder();
    Ctx(SortBy(Ids(inputs.members), StrLeq), ById(inputs.members), inputs.partitions, inputs.previous)
  }

  ghost predicate Indexed(c: Ctx)
  {
    && Sorted(c.ids, StrLeq)
    && (forall m :: m in c.ids <==> m in c.byId)
  }

  lemma {:induction false} IdsAreKeys(members: seq<Member>)
    ensures forall m :: m in Ids(members) <==> m in ById(members)
  {
    if members != [] {
      IdsAreKeys(members[..|members| - 1]);
    }
  }

  lemma IndexIndexes(inputs: Inputs)
    ensures Indexed(Index(inputs))
  {
    StrOrder();
    IdsAreKeys(inputs.members);
    SortByKeeps(Ids(inputs.members), StrLeq);
  }

  function SubsOf(c: Ctx, t: Str): set<Str>
  {
    set m | m in c.byId && t in c.byId[m].topics
  }

  function PartsOf(c: Ctx, t: Str): seq<int>
  {
    if t in c.parts then c.parts[t] else []
  }

  function Listed(c: Ctx): set<Key>
  {
    set t, p | t in c.parts && p in c.parts[t] :: Key(t, p)
  }

  function Weight(c: Ctx, m: Str): int
    requires m in c.byId
  {
    var lag := c.byId[m].lag;
    var w := if lag > 0
             then SCALE - (if lag / LAG_DIVISOR < SCALE - 1 then lag / LAG_DIVISOR else SCALE - 1)
             else SCALE;
    if w < 1 then 1 else w
  }

  // -------------------------------------------------- pass 1: stickiness

  /** What one member keeps of one topic: the entries of its previous list that are
      still free, each once, in the order of their first occurrence. */
  function Kept(free: set<Key>, t: Str, previous: seq<int>): seq<int>
  {
    if previous == [] then [] else
      var kept := Kept(free, t, previous[..|previous| - 1]);
      var p := previous[|previous| - 1];
      if Key(t, p) in free && p !in kept then kept + [p] else kept
  }

  /** What member `m` keeps of the topics in `among`. */
  function Gain(c: Ctx, free: set<Key>, m: Str, among: set<Str>): map<Str, seq<int>>
  {
    map t | t in among && m in SubsOf(c, t) && m in c.prev && t in c.prev[m]
            && Kept(free, t, c.prev[m][t]) != []
          :: Kept(free, t, c.prev[m][t])
  }

  function KeysOf(gain: map<Str, seq<int>>): set<Key>
  {
    set t, p | t in gain && p in gain[t] :: Key(t, p)
  }

  function Merge(a: map<Str, seq<int>>, b: map<Str, seq<int>>): map<Str, seq<int>>
  {
    map t | t in a.Keys + b.Keys :: (if t in a then a[t] else []) + (if t in b then b[t] else [])
  }

  function Absorb(out: Plan, m: Str, gain: map<Str, seq<int>>): Plan
  {
    if gain == map[] then out else out[m := Merge(Topics(out, m), gain)]
  }

  datatype Split = Split(out: Plan, free: set<Key>)

  function Retain(c: Ctx, s: Split, m: Str): Split
  {
    var gain := Gain(c, s.free, m, Topics(c.prev, m).Keys);
    Split(Absorb(s.out, m, gain), s.free - KeysOf(gain))
  }

  function StickyAt(c: Ctx, n: nat): Split
    requires n <= |c.ids|
  {
    if n == 0 then Split(map[], Listed(c)) else Retain(c, StickyAt(c, n - 1), c.ids[n - 1])
  }

  function Sticky(c: Ctx): Split
  {
    StickyAt(c, |c.ids|)
  }

  // ------------------------------------------------ pass 2: distribution

  predicate KeyLeq(a: Key, b: Key)
  {
    if a.topic != b.topic then StrLeq(a.topic, b.topic) else a.part <= b.part
  }

  lemma KeyOrder()
    ensures TotalOrder(KeyLeq)
  {
    StrOrder();
  }

  ghost function AnyOrder(s: set<Key>): (r: seq<Key>)
    ensures multiset(r) == multiset(s)
  {
    if s == {} then [] else
      var k :| k in s;
      AnyOrder(s - {k}) + [k]
  }

  function Copies(k: Key, n: nat): (r: seq<Key>)
    ensures multiset(r) == multiset{}[k := n]
  {
    if n == 0 then [] else Copies(k, n - 1) + [k]
  }

  /** The order in which the pool hands out its keys: sorted by topic and partition.
      A key equal to the tombstone is met again at every tombstone. */
  ghost function PoolOrder(free: set<Key>, tombstones: nat): (r: seq<Key>)
    ensures Sorted(r, KeyLeq)
    ensures multiset(r) == multiset(free) + multiset{}[TOMBSTONE := if TOMBSTONE in free then tombstones else 0]
  {
    KeyOrder();
    SortBy(AnyOrder(free) + Copies(TOMBSTONE, if TOMBSTONE in free then tombstones else 0), KeyLeq)
  }

  datatype Candidate = Candidate(id: Str, score: int, load: int)

  predicate Replaces(a: Candidate, best: Candidate)
  {
    best.id == NOBODY || a.score > best.score || (a.score == best.score && a.load < best.load)
  }

  ghost function Score(c: Ctx, out: Plan, m: Str): int
    requires m in c.byId
  {
    Weight(c, m) * 8 - Load(out, m)
  }

  /** The scan over the first `n` member ids for the best owner of a partition of `t`. */
  ghost function BestAt(c: Ctx, out: Plan, t: Str, n: nat): Candidate
    requires n <= |c.ids| && Indexed(c)
  {
    if n == 0 then Candidate(NOBODY, -1, 0) else
      var best := BestAt(c, out, t, n - 1);
      var m := c.ids[n - 1];
      if m !in SubsOf(c, t) then best else
        var a := Candidate(m, Score(c, out, m), Load(out, m));
        if Replaces(a, best) then a else best
  }

  ghost function Best(c: Ctx, out: Plan, t: Str): Str
    requires Indexed(c)
  {
    BestAt(c, out, t, |c.ids|).id
  }

  ghost function Place(c: Ctx, out: Plan, k: Key): Plan
    requires Indexed(c)
  {
    var best := Best(c, out, k.topic);
    if best == NOBODY then out else Add(out, best, k.topic, k.part)
  }

  ghost function PlaceAll(c: Ctx, out: Plan, keys: seq<Key>): Plan
    requires Indexed(c)
  {
    if keys == [] then out else Place(c, PlaceAll(c, out, keys[..|keys| - 1]), keys[|keys| - 1])
  }

  lemma {:induction false} FreeIsListed(c: Ctx, n: nat)
    requires n <= |c.ids|
    ensures StickyAt(c, n).free <= Listed(c)
  {
    if n > 0 { FreeIsListed(c, n - 1); }
  }

  ghost function FreeKeys(c: Ctx): seq<Key>
  {
    var free := Sticky(c).free;
    FreeIsListed(c, |c.ids|);
    assert Listed(c) == free + (Listed(c) - free);
    PoolOrder(free, |Listed(c)| - |free|)
  }

  /** The plan after the sticky and distribution passes. */
  ghost function Distributed(c: Ctx): Plan
    requires Indexed(c)
  {
    PlaceAll(c, Sticky(c).out, FreeKeys(c))
  }

  // ------------------------------------------------- pass 3: feasibility

  /** Member `mid` looks at `topic` for something to steal. */
  datatype Attempt = Attempt(mid: Str, topic: Str)

  function AttemptsOf(m: Str, topics: seq<Str>): seq<Attempt>
  {
    if topics == [] then [] else AttemptsOf(m, topics[..|topics| - 1]) + [Attempt(m, topics[|topics| - 1])]
  }

  function AttemptsAt(c: Ctx, n: nat): seq<Attempt>
    requires n <= |c.ids| && Indexed(c)
  {
    if n == 0 then [] else AttemptsAt(c, n - 1) + AttemptsOf(c.ids[n - 1], c.byId[c.ids[n - 1]].topics)
  }

  function Attempts(c: Ctx): seq<Attempt>
    requires Indexed(c)
  {
    AttemptsAt(c, |c.ids|)
  }

  /** Take the last partition of `t` away from the donor. */
  function Cut(out: Plan, donor: Str, t: Str): Plan
    requires |List(out, donor, t)| >= 1
  {
    out[donor := out[donor][t := List(out, donor, t)[..|List(out, donor, t)| - 1]]]
  }

  function Move(out: Plan, donor: Str, m: Str, t: Str): Plan
    requires |List(out, donor, t)| >= 1
  {
    Add(Cut(out, donor, t), m, t, List(out, donor, t)[|List(out, donor, t)| - 1])
  }

  /** The attempt reaches the scan for a donor: the member owns nothing and the topic
      lists at least as many partitions as it has subscribers. */
  predicate Scans(c: Ctx, out: Plan, a: Attempt)
  {
    !HasAny(Topics(out, a.mid)) && |PartsOf(c, a.topic)| >= |SubsOf(c, a.topic)|
  }

  predicate Succeeds(c: Ctx, out: Plan, a: Attempt, donor: Str)
  {
    Scans(c, out, a) && donor != NOBODY && |List(out, donor, a.topic)| > 1
  }

  function Steal(c: Ctx, out: Plan, a: Attempt, donor: Str): Plan
  {
    if Succeeds(c, out, a, donor) then Move(out, donor, a.mid, a.topic) else out
  }

  ghost predicate MaxDonor(c: Ctx, out: Plan, a: Attempt, donor: Str)
  {
    && donor in SubsOf(c, a.topic) - {a.mid}
    && forall d {:trigger NoHeavier(out, d, donor)} :: d in SubsOf(c, a.topic) - {a.mid} ==> NoHeavier(out, d, donor)
  }

  ghost predicate NoHeavier(out: Plan, d: Str, e: Str)
  {
    Load(out, d) <= Load(out, e)
  }

  /** What the donor scan, which visits a Go map in any order, may come back with. */
  ghost predicate MayPick(c: Ctx, out: Plan, a: Attempt, donor: Str)
  {
    Scans(c, out, a) ==>
      if SubsOf(c, a.topic) - {a.mid} == {} then donor == NOBODY else MaxDonor(c, out, a, donor)
  }

  /** How the feasibility pass goes: the attempts, the donor each scan came back with, and
      the plan before every attempt and at the end. */
  datatype Trace = Trace(attempts: seq<Attempt>, picks: seq<Str>, states: seq<Plan>)

  ghost predicate Sized(tr: Trace)
  {
    |tr.picks| == |tr.attempts| && |tr.states| == |tr.attempts| + 1
  }

  ghost predicate Stepped(c: Ctx, tr: Trace, i: nat)
    requires Sized(tr) && i < |tr.attempts|
  {
    && MayPick(c, tr.states[i], tr.attempts[i], tr.picks[i])
    && tr.states[i + 1] == Steal(c, tr.states[i], tr.attempts[i], tr.picks[i])
  }

  ghost predicate Steps(c: Ctx, tr: Trace)
  {
    Sized(tr) && forall i: nat :: i < |tr.attempts| ==> Stepped(c, tr, i)
  }

  /** `tr` is a possible run of the feasibility pass after the first two passes on `c`. */
  ghost predicate Run(c: Ctx, tr: Trace)
  {
    Indexed(c) && Steps(c, tr) && tr.attempts == Attempts(c) && tr.states[0] == Distributed(c)
  }

  ghost function Stolen(c: Ctx, tr: Trace): Plan
    requires Run(c, tr)
  {
    tr.states[|tr.attempts|]
  }

  lemma IntOrder()
    ensures TotalOrder(IntLeq)
  {
  }

  function SortLists(byTopic: map<Str, seq<int>>): map<Str, seq<int>>
  {
    IntOrder();
    map t | t in byTopic :: SortBy(byTopic[t], IntLeq)
  }

  function SortPlan(out: Plan): Plan
  {
    map m | m in out :: SortLists(out[m])
  }

  ghost function Final(c: Ctx, tr: Trace): Plan
    requires Run(c, tr)
  {
    SortPlan(Stolen(c, tr))
  }

  /** `out` is what the planner may return: the end of some run. */
  ghost predicate Possible(c: Ctx, out: Plan)
  {
    exists tr :: Run(c, tr) && out == Final(c, tr)
  }
}
