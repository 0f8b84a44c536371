/** The correlation tracker: which forwarded requests await a response that the proxy wants
    to see. Expired entries are dropped by sweeps that run now and then. */
module Tracker {

  /** Which rewriting a response is to go through. */
  datatype Rewriter = MetadataRewriter | CoordinatorRewriter

  datatype Hook = NoRewrite | Rewrite(rewriter: Rewriter)

  /** `request` identifies the request; times are nanoseconds. */
  datatype Pending = Pending(request: nat, apiKey: int, version: int, correlId: int, sent: int, hook: Hook)

  datatype Config = Config(maxSize: int, maxAge: int, sweepEvery: int)

  const SECOND := 1_000_000_000
  const MICROSECOND := 1_000

  function NewConfig(maxSize: int, maxAge: int): (cfg: Config)
    ensures Sane(cfg)
    ensures cfg.maxSize == if maxSize > 0 then maxSize else 4096
    ensures cfg.maxAge == if maxAge > 0 then maxAge else 300_000_000_000
    ensures cfg.maxAge >= 4_000_000_000 ==> cfg.sweepEvery == 1_000_000_000
    ensures cfg.sweepEvery <= SECOND && (cfg.maxAge >= 4 ==> cfg.sweepEvery * 4 <= cfg.maxAge)
  {
    var size := if maxSize <= 0 then 4096 else maxSize;
    var age := if maxAge <= 0 then 300 * SECOND else maxAge;
    var sweep := if age / 4 < SECOND then age / 4 else SECOND;
    Config(size, age, if sweep <= 0 then MICROSECOND else sweep)
  }

  predicate Sane(cfg: Config)
  {
    cfg.maxSize > 0 && cfg.maxAge > 0 && cfg.sweepEvery > 0
  }

  datatype Table = Table(entries: map<int, Pending>, lastSweep: int)

  predicate Expired(cfg: Config, p: Pending, now: int)
  {
    now - p.sent > cfg.maxAge
  }

  /** The table without its expired entries. */
  function Swept(cfg: Config, t: Table, now: int): Table
  {
    Table(map id | id in t.entries && !Expired(cfg, t.entries[id], now) :: t.entries[id], now)
  }

  /** A registration sweeps first when the table is full or the last sweep is long ago. */
  function BeforeInsert(cfg: Config, t: Table, now: int): Table
  {
    if |t.entries| >= cfg.maxSize || now - t.lastSweep >= cfg.sweepEvery then Swept(cfg, t, now) else t
  }

  predicate Accepts(cfg: Config, t: Table, p: Pending, now: int)
  {
    var t' := BeforeInsert(cfg, t, now);
    |t'.entries| < cfg.maxSize && p.correlId !in t'.entries
  }

  function Registered(cfg: Config, t: Table, p: Pending, now: int): Table
  {
    var t' := BeforeInsert(cfg, t, now);
    if Accepts(cfg, t, p, now) then t'.(entries := t'.entries[p.correlId := p]) else t'
  }

  datatype Found = Nothing | Found(p: Pending)

  function Find(t: Table, id: int): Found
  {
    if id in t.entries then Found(t.entries[id]) else Nothing
  }

  function Taken(t: Table, id: int): Table
  {
    t.(entries := t.entries - {id})
  }

  // ---------------------------------------------------------- as an object

  class Correlation {
    var entries: map<int, Pending>
    var lastSweep: int
    const cfg: Config

    function State(): Table
      reads this
    {
      Table(entries, lastSweep)
    }

    constructor (maxSize: int, maxAge: int)
      ensures cfg == NewConfig(maxSize, maxAge) && State() == Table(map[], 0)
    {
      cfg := NewConfig(maxSize, maxAge);
      entries := map[];
      lastSweep := 0;
    }

    method Register(p: Pending, now: int) returns (ok: bool)
      modifies this
      ensures State() == Registered(cfg, old(State()), p, now)
      ensures ok == Accepts(cfg, old(State()), p, now)
    {
      if |entries| >= cfg.maxSize || now - lastSweep >= cfg.sweepEvery {
        EvictExpired(now);
        lastSweep := now;
      }
      if |entries| >= cfg.maxSize { return false; }
      if p.correlId in entries { return false; }
      entries := entries[p.correlId := p];
      return true;
    }

    method Take(id: int) returns (found: Found)
      modifies this
      ensures State() == Taken(old(State()), id) && found == Find(old(State()), id)
    {
      if id !in entries {
        assert entries - {id} == entries;
        return Nothing;
      }
      found := Found(entries[id]);
      entries := entries - {id};
    }

    method EvictExpired(now: int)
      modifies this
      ensures lastSweep == old(lastSweep) && entries == Swept(cfg, old(State()), now).entries
    {
      var todo: set<int> := entries.Keys;
      ghost var before := entries;
      while todo != {}
        invariant todo <= before.Keys && lastSweep == old(lastSweep)
        invariant entries == Remaining(cfg, before, todo, now)
        decreases todo
      {
        var id := AnyOf(todo);
        if now - entries[id].sent > cfg.maxAge { entries := entries - {id}; }
        todo := todo - {id};
      }
    }
  }

  method AnyOf<T>(s: set<T>) returns (x: T)
    requires s != {}
    ensures x in s
  {
    x :| x in s;
  }

  /** What is left when the entries with ids in `todo` are yet to be looked at. */
  ghost function Remaining(cfg: Config, before: map<int, Pending>, todo: set<int>, now: int): map<int, Pending>
  {
    map id | id in before && (id in todo || !Expired(cfg, before[id], now)) :: before[id]
  }

  // -------------------------------------------------------------- histories

  datatype Op = Register(p: Pending) | Take(id: int)

  /** A history: the calls, the times at which they happen, and the tables in between. */
  datatype History = History(ops: seq<Op>, times: seq<int>, tables: seq<Table>)

  function After(cfg: Config, t: Table, op: Op, now: int): Table
  {
    match op
    case Register(p) => Registered(cfg, t, p, now)
    case Take(id) => Taken(t, id)
  }

  ghost predicate Sized(h: History)
  {
    |h.times| == |h.ops| && |h.tables| == |h.ops| + 1
  }

  ghost predicate Stepped(cfg: Config, h: History, i: nat)
    requires Sized(h) && i < |h.ops|
  {
    h.tables[i + 1] == After(cfg, h.tables[i], h.ops[i], h.times[i])
  }

  ghost predicate Timely(cfg: Config, h: History, i: nat)
    requires Sized(h) && i < |h.ops|
  {
    && (if i == 0 then 0 <= h.times[0] else h.times[i - 1] <= h.times[i])
    && (h.ops[i].Register? ==> !Expired(cfg, h.ops[i].p, h.times[i]))
  }

  /** A history of a new tracker: the clock does not go back, and requests are at most the
      maximal age old when they are registered. */
  ghost predicate Valid(cfg: Config, h: History)
  {
    && Sane(cfg) && Sized(h) && h.tables[0] == Table(map[], 0)
    && forall i: nat :: i < |h.ops| ==> Stepped(cfg, h, i) && Timely(cfg, h, i)
  }

  lemma SweptSmaller(cfg: Config, t: Table, now: int)
    ensures |Swept(cfg, t, now).entries| <= |t.entries|
  {
    var s := Swept(cfg, t, now).entries;
    assert s.Keys <= t.entries.Keys;
    assert t.entries.Keys == s.Keys + (t.entries.Keys - s.Keys);
    assert |s.Keys| == |s| && |t.entries.Keys| == |t.entries|;
  }

  lemma RegisterBounded(cfg: Config, t: Table, p: Pending, now: int)
    requires |t.entries| <= cfg.maxSize
    ensures |Registered(cfg, t, p, now).entries| <= cfg.maxSize
  {
    SweptSmaller(cfg, t, now);
  }

  lemma TakeSmaller(t: Table, id: int)
    ensures |Taken(t, id).entries| <= |t.entries|
  {
    var s := t.entries - {id};
    assert s.Keys == t.entries.Keys - {id};
    assert |s.Keys| == |s| && |t.entries.Keys| == |t.entries|;
  }

  /** The size never exceeds the maximum. */
  lemma {:induction false} NeverTooLarge(cfg: Config, h: History, i: nat)
    requires Valid(cfg, h) && i <= |h.ops|
    ensures |h.tables[i].entries| <= cfg.maxSize
  {
    if i > 0 {
      NeverTooLarge(cfg, h, i - 1);
      assert Stepped(cfg, h, i - 1);
      match h.ops[i - 1]
      case Register(p) => RegisterBounded(cfg, h.tables[i - 1], p, h.times[i - 1]);
      case Take(id) => TakeSmaller(h.tables[i - 1], id);
    }
  }

  /** No entry was expired at the last sweep. */
  ghost predicate Fresh(cfg: Config, t: Table)
  {
    forall id :: id in t.entries ==> !Expired(cfg, t.entries[id], t.lastSweep)
  }

  lemma RegisterFresh(cfg: Config, t: Table, p: Pending, now: int)
    requires Sane(cfg) && Fresh(cfg, t) && t.lastSweep <= now && !Expired(cfg, p, now)
    ensures Fresh(cfg, Registered(cfg, t, p, now)) && Registered(cfg, t, p, now).lastSweep <= now
    ensures now - Registered(cfg, t, p, now).lastSweep < cfg.sweepEvery
  {
  }

  lemma {:induction false} AlwaysFresh(cfg: Config, h: History, i: nat)
    requires Valid(cfg, h) && i <= |h.ops|
    ensures Fresh(cfg, h.tables[i]) && h.tables[i].lastSweep <= if i == 0 then 0 else h.times[i - 1]
  {
    if i > 0 {
      AlwaysFresh(cfg, h, i - 1);
      assert Stepped(cfg, h, i - 1) && Timely(cfg, h, i - 1);
      if h.ops[i - 1].Register? {
        RegisterFresh(cfg, h.tables[i - 1], h.ops[i - 1].p, h.times[i - 1]);
      }
    }
  }

  /** After each registration every entry is younger than the maximal age plus one sweep
      interval. */
  lemma YoungAfterRegister(cfg: Config, h: History, i: nat, id: int)
    requires Valid(cfg, h) && i < |h.ops| && h.ops[i].Register? && id in h.tables[i + 1].entries
    ensures h.times[i] - h.tables[i + 1].entries[id].sent < cfg.maxAge + cfg.sweepEvery
  {
    AlwaysFresh(cfg, h, i);
    assert Stepped(cfg, h, i) && Timely(cfg, h, i);
    RegisterFresh(cfg, h.tables[i], h.ops[i].p, h.times[i]);
  }

  /** A request whose id is not pending is refused exactly when the maximal number of
      unexpired entries remains. */
  lemma RefusedOnlyWhenFull(cfg: Config, t: Table, p: Pending, now: int)
    requires p.correlId !in t.entries
    ensures Accepts(cfg, t, p, now) <==> |Swept(cfg, t, now).entries| < cfg.maxSize
    ensures !Accepts(cfg, t, p, now) ==>
              && |Registered(cfg, t, p, now).entries| >= cfg.maxSize
              && forall id :: id in Registered(cfg, t, p, now).entries ==>
                  !Expired(cfg, Registered(cfg, t, p, now).entries[id], now)
  {
    SweptSmaller(cfg, t, now);
  }

  /** An id that is pending is refused while its entry is not expired, and the entry stays. */
  lemma PendingIdRefused(cfg: Config, t: Table, p: Pending, now: int)
    requires p.correlId in t.entries && !Expired(cfg, t.entries[p.correlId], now)
    ensures !Accepts(cfg, t, p, now)
    ensures Find(Registered(cfg, t, p, now), p.correlId) == Found(t.entries[p.correlId])
  {
  }

  /** A registration enters its own entry and touches no other that is not expired. */
  lemma RegisterEnters(cfg: Config, t: Table, p: Pending, now: int, id: int)
    ensures Accepts(cfg, t, p, now) ==> Find(Registered(cfg, t, p, now), p.correlId) == Found(p)
    ensures id != p.correlId && id in t.entries && now - t.entries[id].sent <= cfg.maxAge ==>
              Find(Registered(cfg, t, p, now), id) == Found(t.entries[id])
    ensures id != p.correlId && id !in t.entries ==> Find(Registered(cfg, t, p, now), id) == Nothing
  {
  }

  // --------------------------------------------------- at most one delivery

  /** Call `i` of the history returns `p`. */
  ghost predicate Delivers(h: History, i: nat, p: Pending)
    requires Sized(h)
  {
    i < |h.ops| && h.ops[i].Take? && Find(h.tables[i], h.ops[i].id) == Found(p)
  }

  /** Call `i` of the history accepts `p`. */
  ghost predicate Enters(cfg: Config, h: History, i: nat, p: Pending)
    requires Sized(h)
  {
    i < |h.ops| && h.ops[i] == Register(p) && Accepts(cfg, h.tables[i], p, h.times[i])
  }

  /** Every request is registered at most once. */
  ghost predicate Once(h: History)
  {
    forall i: nat, j: nat :: i < j < |h.ops| && h.ops[i].Register? && h.ops[j].Register? ==> h.ops[i].p != h.ops[j].p
  }

  /** Entries sit under their own id and have been accepted before. */
  lemma {:induction false} EntryEntered(cfg: Config, h: History, i: nat, id: int) returns (k: nat)
    requires Valid(cfg, h) && i <= |h.ops| && id in h.tables[i].entries
    ensures h.tables[i].entries[id].correlId == id
    ensures k < i && Enters(cfg, h, k, h.tables[i].entries[id])
  {
    assert Stepped(cfg, h, i - 1);
    if h.ops[i - 1].Register? && Accepts(cfg, h.tables[i - 1], h.ops[i - 1].p, h.times[i - 1])
        && h.ops[i - 1].p.correlId == id {
      k := i - 1;
    } else {
      k := EntryEntered(cfg, h, i - 1, id);
    }
  }

  /** What has been delivered does not come back. */
  lemma {:induction false} GoneForGood(cfg: Config, h: History, i: nat, j: nat, p: Pending, id: int)
    requires Valid(cfg, h) && Once(h) && Delivers(h, i, p) && i < j <= |h.ops|
    ensures id in h.tables[j].entries ==> h.tables[j].entries[id] != p
  {
    var k0 := EntryEntered(cfg, h, i, h.ops[i].id);
    assert Stepped(cfg, h, j - 1);
    if j > i + 1 {
      GoneForGood(cfg, h, i, j - 1, p, id);
    } else if id in h.tables[i].entries && id != h.ops[i].id {
      var k := EntryEntered(cfg, h, i, id);
    }
  }

  /** Each accepted entry is delivered at most once, and only under its own id. */
  lemma DeliveredOnce(cfg: Config, h: History, i: nat, j: nat, p: Pending)
    requires Valid(cfg, h) && Once(h) && Delivers(h, i, p) && Delivers(h, j, p)
    ensures i == j && h.ops[i].id == p.correlId && exists k: nat :: k < i && Enters(cfg, h, k, p)
  {
    var k := EntryEntered(cfg, h, i, h.ops[i].id);
    if i < j {
      GoneForGood(cfg, h, i, j, p, h.ops[j].id);
    } else if j < i {
      GoneForGood(cfg, h, j, i, p, h.ops[i].id);
    }
  }
}
