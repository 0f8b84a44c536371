/** Steering clients to the proxy: the mapping from real to advertised endpoints, and the
    responses rewritten through it. */
module Topology {
  import opened Ordering
  import opened Wire
  import opened ApiKeys
  import opened NodeFields
  import opened MetadataMessage
  import Coord = CoordinatorMessage
  import opened Header

  datatype Endpoint = Endpoint(host: Bytes, port: int)

  /** `key` renders host and port the way lookups do (lower case, IPv6 in brackets). */
  datatype Mapping = Mapping(byNode: map<int, Endpoint>, byAddress: map<Bytes, Endpoint>, key: (Bytes, int) -> Bytes)

  /** The node id decides; otherwise the address does. */
  function Lookup(m: Mapping, n: Node): Opt<Endpoint>
  {
    if n.id >= 0 && n.id in m.byNode then Some(m.byNode[n.id])
    else var key := m.key(n.host, n.port);
      if key in m.byAddress then Some(m.byAddress[key]) else None
  }

  /** The endpoint advertised for this node, if any, fits the host and port fields. */
  predicate Fits(m: Mapping, n: Node, flex: bool)
  {
    Lookup(m, n).Some? ==> FitsStr(Lookup(m, n).value.host, flex) && IsInt32(Lookup(m, n).value.port)
  }

  /** A node with the advertised host and port, if there are any. */
  function Steer(m: Mapping, n: Node): Node
  {
    match Lookup(m, n)
    case Some(e) => Node(n.id, e.host, e.port)
    case None => n
  }

  function SteerBroker(m: Mapping, b: Broker): Broker
  {
    b.(node := Steer(m, b.node))
  }

  function SteerBrokers(m: Mapping, bs: seq<Broker>): (r: seq<Broker>)
    ensures |r| == |bs| && forall i :: 0 <= i < |bs| ==> r[i] == SteerBroker(m, bs[i])
  {
    if bs == [] then [] else SteerBrokers(m, bs[..|bs| - 1]) + [SteerBroker(m, bs[|bs| - 1])]
  }

  function SteerMetadata(m: Mapping, r: MetadataResponse): MetadataResponse
  {
    r.(brokers := SteerBrokers(m, r.brokers))
  }

  /** Coordinators without a host or port report errors and are left alone. */
  predicate Located(n: Node)
  {
    n.host != [] && n.port > 0
  }

  function SteerLocated(m: Mapping, n: Node): Node
  {
    if Located(n) then Steer(m, n) else n
  }

  function SteerEntry(m: Mapping, e: Coord.Entry): Coord.Entry
  {
    e.(node := SteerLocated(m, e.node))
  }

  function SteerEntries(m: Mapping, es: seq<Coord.Entry>): (r: seq<Coord.Entry>)
    ensures |r| == |es| && forall i :: 0 <= i < |es| ==> r[i] == SteerEntry(m, es[i])
  {
    if es == [] then [] else SteerEntries(m, es[..|es| - 1]) + [SteerEntry(m, es[|es| - 1])]
  }

  function SteerCoordinator(m: Mapping, r: Coord.CoordinatorResponse): Coord.CoordinatorResponse
  {
    if r.version <= 3 then r.(single := r.single.(node := SteerLocated(m, r.single.node)))
    else r.(coordinators := SteerEntries(m, r.coordinators))
  }

  // -------------------------------------------- what steering is, by field

  /** The node id stays; host and port are the advertised ones if a lookup returns them, and
      otherwise stay too. */
  predicate NodeSteered(m: Mapping, was: Node, now: Node)
  {
    && now.id == was.id
    && match Lookup(m, was)
       case Some(e) => now.host == e.host && now.port == e.port
       case None => now.host == was.host && now.port == was.port
  }

  /** Coordinators without host or port stay as they are. */
  predicate CoordinatorNodeSteered(m: Mapping, was: Node, now: Node)
  {
    if was.host != [] && was.port > 0 then NodeSteered(m, was, now) else now == was
  }

  ghost predicate BrokersSteered(m: Mapping, was: seq<Broker>, now: seq<Broker>)
  {
    |now| == |was| && forall i :: 0 <= i < |was| ==>
      NodeSteered(m, was[i].node, now[i].node) && now[i].rack == was[i].rack
  }

  ghost predicate EntriesSteered(m: Mapping, was: seq<Coord.Entry>, now: seq<Coord.Entry>)
  {
    |now| == |was| && forall i :: 0 <= i < |was| ==>
      && CoordinatorNodeSteered(m, was[i].node, now[i].node)
      && now[i].key == was[i].key && now[i].error == was[i].error && now[i].message == was[i].message
  }

  /** A Metadata response with its brokers steered and all other fields as they were. */
  ghost predicate MetadataBecomes(m: Mapping, was: MetadataResponse, now: MetadataResponse)
  {
    && BrokersSteered(m, was.brokers, now.brokers)
    && now.version == was.version && now.throttle == was.throttle && now.cluster == was.cluster
    && now.topics == was.topics && now.clusterOperations == was.clusterOperations
  }

  /** A FindCoordinator response with its coordinators steered: one up to version 3, a list
      of them from version 4. */
  ghost predicate CoordinatorBecomes(m: Mapping, was: Coord.CoordinatorResponse, now: Coord.CoordinatorResponse)
  {
    && now.version == was.version && now.throttle == was.throttle
    && if was.version <= 3 then
         && CoordinatorNodeSteered(m, was.single.node, now.single.node)
         && now.single.error == was.single.error && now.single.message == was.single.message
         && now.coordinators == was.coordinators
       else now.single == was.single && EntriesSteered(m, was.coordinators, now.coordinators)
  }

  lemma SteerMetadataIs(m: Mapping, r: MetadataResponse)
    ensures MetadataBecomes(m, r, SteerMetadata(m, r))
  {
  }

  lemma SteerCoordinatorIs(m: Mapping, r: Coord.CoordinatorResponse)
    ensures CoordinatorBecomes(m, r, SteerCoordinator(m, r))
  {
  }

  // --------------------------------------------------------- the table

  datatype Tables = Tables(byNode: map<int, Endpoint>, byAddress: map<Bytes, Endpoint>)

  /** A call of Add: node id, real endpoint, its rendering as Add makes it (which need not be
      in lower case), and the endpoint to advertise. */
  datatype Entry = Entry(id: int, actual: Endpoint, rendered: Bytes, advertised: Endpoint)

  predicate HasAddress(e: Endpoint)
  {
    e.host != [] && e.port > 0
  }

  /** The node id is not mapped to anything else; ids below zero are not entered at all. */
  predicate IdFree(t: Tables, e: Entry)
  {
    e.id >= 0 && e.id in t.byNode ==> t.byNode[e.id] == e.advertised
  }

  predicate AddressFree(t: Tables, e: Entry)
  {
    e.rendered in t.byAddress ==> t.byAddress[e.rendered] == e.advertised
  }

  /** Whether Add succeeds. */
  predicate Admits(t: Tables, e: Entry)
  {
    HasAddress(e.actual) && HasAddress(e.advertised) && IdFree(t, e) && AddressFree(t, e)
  }

  /** The tables after Add. A clash of addresses is found only after the node id has been
      entered. */
  function Added(t: Tables, e: Entry): Tables
  {
    if !HasAddress(e.actual) || !HasAddress(e.advertised) || !IdFree(t, e) then t else
      var byNode := if e.id >= 0 then t.byNode[e.id := e.advertised] else t.byNode;
      Tables(byNode, if AddressFree(t, e) then t.byAddress[e.rendered := e.advertised] else t.byAddress)
  }

  /** A refused Add changes the tables all the same if and only if it is the address that
      clashes and the node id is new. */
  lemma EntersThoughRefusedIff(t: Tables, e: Entry)
    ensures !Admits(t, e) && Added(t, e) != t <==>
              HasAddress(e.actual) && HasAddress(e.advertised) && e.id >= 0 && e.id !in t.byNode && !AddressFree(t, e)
    ensures !Admits(t, e) ==> Added(t, e).byAddress == t.byAddress
  {
    if e.id in t.byNode && IdFree(t, e) && e.id >= 0 { assert t.byNode[e.id := e.advertised] == t.byNode; }
    if e.id >= 0 && e.id !in t.byNode { assert e.id in t.byNode[e.id := e.advertised]; }
  }

  /** The same real endpoint advertised twice: the second Add is refused, and yet its node is
      steered from then on. */
  lemma RefusedYetSteered(key: (Bytes, int) -> Bytes, host: Bytes, port: int) returns (t: Tables, e: Entry)
    ensures !Admits(t, e) && Lookup(Mapping(t.byNode, t.byAddress, key), Node(2, [], 0)) != Some(e.advertised)
    ensures Lookup(Mapping(Added(t, e).byNode, Added(t, e).byAddress, key), Node(e.id, host, port)) ==
            Some(e.advertised)
  {
        t := Tables(map[1 := Endpoint([97], 1)], map[[107] := Endpoint([97], 1)]);
    e := Entry(2, Endpoint([107], 9092), [107], Endpoint([98], 1));
  }

  /** The tables after a sequence of calls. */
  function AddedAll(t: Tables, es: seq<Entry>): Tables
  {
    if es == [] then t else Added(AddedAll(t, es[..|es| - 1]), es[|es| - 1])
  }

  /** Once a node id or an address is mapped, no sequence of calls maps it elsewhere. */
  lemma {:induction false} NeverRemapped(t: Tables, es: seq<Entry>)
    ensures var t' := AddedAll(t, es);
            && (forall id :: id in t.byNode ==> id in t'.byNode && t'.byNode[id] == t.byNode[id])
            && (forall k :: k in t.byAddress ==> k in t'.byAddress && t'.byAddress[k] == t.byAddress[k])
  {
    if es != [] { NeverRemapped(t, es[..|es| - 1]); }
  }

  class Registry {
    var byNode: map<int, Endpoint>
    var byAddress: map<Bytes, Endpoint>
    const key: (Bytes, int) -> Bytes

    ghost predicate Valid()
      reads this
    {
      && (forall id :: id in byNode ==> id >= 0 && HasAddress(byNode[id]))
      && (forall k :: k in byAddress ==> HasAddress(byAddress[k]))
    }

    function Contents(): Tables
      reads this
    {
      Tables(byNode, byAddress)
    }

    function Current(): Mapping
      reads this
    {
      Mapping(byNode, byAddress, key)
    }

    constructor (key: (Bytes, int) -> Bytes)
      ensures Valid() && Contents() == Tables(map[], map[]) && this.key == key
    {
      this.key := key;
      byNode, byAddress := map[], map[];
    }

    /** Register an advertised endpoint; a node id that is admitted resolves to it, whatever
        its host and port, and so does the address of nodes that no id decides. */
    method Add(e: Entry) returns (ok: bool)
      requires Valid()
      modifies this
      ensures Valid() && ok == Admits(old(Contents()), e) && Contents() == Added(old(Contents()), e)
      ensures ok && e.id >= 0 ==> forall host, port :: Lookup(Current(), Node(e.id, host, port)) == Some(e.advertised)
      ensures ok ==> forall n: Node :: (n.id < 0 || n.id !in byNode) && key(n.host, n.port) == e.rendered ==>
                Lookup(Current(), n) == Some(e.advertised)
    {
      if e.actual.host == [] || e.actual.port <= 0 { return false; }
      if e.advertised.host == [] || e.advertised.port <= 0 { return false; }
      if e.id >= 0 {
        if e.id in byNode && byNode[e.id] != e.advertised { return false; }
        byNode := byNode[e.id := e.advertised];
      }
      if e.rendered in byAddress && byAddress[e.rendered] != e.advertised { return false; }
      byAddress := byAddress[e.rendered := e.advertised];
      return true;
    }
  }

  // ------------------------------------------------- rewriting in place

  function Mapped(m: Mapping, bs: seq<Broker>): nat
  {
    if bs == [] then 0 else Mapped(m, bs[..|bs| - 1]) + if Lookup(m, bs[|bs| - 1].node).Some? then 1 else 0
  }

  /** The count is that of the brokers for which a lookup returns something. */
  lemma {:induction false} MappedIs(m: Mapping, bs: seq<Broker>)
    ensures Mapped(m, bs) == |set i | 0 <= i < |bs| && Lookup(m, bs[i].node).Some?|
  {
    hide Lookup;
    if bs != [] {
      var n := |bs| - 1;
      MappedIs(m, bs[..n]);
      var front := set i | 0 <= i < n && Lookup(m, bs[..n][i].node).Some?;
      var all := set i | 0 <= i < |bs| && Lookup(m, bs[i].node).Some?;
      assert forall i :: 0 <= i < n ==> bs[..n][i] == bs[i];
      assert all == if Lookup(m, bs[n].node).Some? then front + {n} else front;
    }
  }

  /** Overwrite host and port of every mapped broker, and count them. */
  method RewriteBrokers(brokers: array<Broker>, m: Mapping) returns (n: nat)
    modifies brokers
    ensures brokers[..] == SteerBrokers(m, old(brokers[..])) && BrokersSteered(m, old(brokers[..]), brokers[..])
    ensures n == Mapped(m, old(brokers[..])) <= brokers.Length
  {
    n := 0;
    ghost var was := brokers[..];
    for i := 0 to brokers.Length
      invariant forall j :: 0 <= j < brokers.Length ==> brokers[j] == if j < i then SteerBroker(m, was[j]) else was[j]
      invariant n == Mapped(m, was[..i]) <= i
    {
      assert was[..i + 1][..i] == was[..i];
      var b := brokers[i];
      var e := Lookup(m, b.node);
      if e.Some? {
        brokers[i] := Broker(Node(b.node.id, e.value.host, e.value.port), b.rack);
        n := n + 1;
      }
    }
    assert was[..brokers.Length] == was;
  }

  function MappedEntries(m: Mapping, es: seq<Coord.Entry>): nat
  {
    if es == [] then 0 else
      var n := es[|es| - 1].node;
      MappedEntries(m, es[..|es| - 1]) + if Located(n) && Lookup(m, n).Some? then 1 else 0
  }

  lemma {:induction false} MappedEntriesIs(m: Mapping, es: seq<Coord.Entry>)
    ensures MappedEntries(m, es) ==
              |set i | 0 <= i < |es| && es[i].node.host != [] && es[i].node.port > 0 && Lookup(m, es[i].node).Some?|
  {
    hide Lookup;
    if es != [] {
      var n := |es| - 1;
      MappedEntriesIs(m, es[..n]);
      var front := set i | 0 <= i < n && es[..n][i].node.host != [] && es[..n][i].node.port > 0
                         && Lookup(m, es[..n][i].node).Some?;
      var all := set i | 0 <= i < |es| && es[i].node.host != [] && es[i].node.port > 0 && Lookup(m, es[i].node).Some?;
      assert forall i :: 0 <= i < n ==> es[..n][i] == es[i];
      assert all == if Located(es[n].node) && Lookup(m, es[n].node).Some? then front + {n} else front;
    }
  }

  /** Overwrite host and port of every located and mapped coordinator, and count them. */
  method RewriteEntries(entries: array<Coord.Entry>, m: Mapping) returns (n: nat)
    modifies entries
    ensures entries[..] == SteerEntries(m, old(entries[..])) && EntriesSteered(m, old(entries[..]), entries[..])
    ensures n == MappedEntries(m, old(entries[..])) <= entries.Length
  {
    n := 0;
    ghost var was := entries[..];
    for i := 0 to entries.Length
      invariant forall j :: 0 <= j < entries.Length ==> entries[j] == if j < i then SteerEntry(m, was[j]) else was[j]
      invariant n == MappedEntries(m, was[..i]) <= i
    {
      assert was[..i + 1][..i] == was[..i];
      var c := entries[i];
      if c.node.host == [] || c.node.port <= 0 { continue; }
      var e := Lookup(m, c.node);
      if e.Some? {
        entries[i] := c.(node := Node(c.node.id, e.value.host, e.value.port));
        n := n + 1;
      }
    }
    assert was[..entries.Length] == was;
  }

  // --------------------------------------------------- what the client sees

  lemma SteerFits(m: Mapping, n: Node, flex: bool)
    requires Fits(m, n, flex) && FitsNode(n, flex)
    ensures FitsNode(Steer(m, n), flex)
  {
  }

  /** What is advertised for the brokers of this response fits its format. */
  ghost predicate FitsBrokers(m: Mapping, r: MetadataResponse)
  {
    forall i :: 0 <= i < |r.brokers| ==> Fits(m, r.brokers[i].node, Flex(r.version))
  }

  lemma SteerMetadataFits(m: Mapping, r: MetadataResponse)
    requires FitsMetadata(r) && FitsBrokers(m, r)
    ensures FitsMetadata(SteerMetadata(m, r))
  {
    var flex := Flex(r.version);
    var c := BrokerCodec(r.version, flex);
    var bs := SteerBrokers(m, r.brokers);
    forall x | x in bs ensures c.fits(x) {
      var i :| 0 <= i < |bs| && bs[i] == x;
      assert r.brokers[i] in r.brokers && c.fits(r.brokers[i]);
      SteerFits(m, r.brokers[i].node, flex);
    }
  }

  /** What is advertised for the located coordinators of this response fits its format. */
  ghost predicate FitsCoordinators(m: Mapping, r: Coord.CoordinatorResponse)
  {
    if r.version <= 3 then Located(r.single.node) ==> Fits(m, r.single.node, Coord.Flex(r.version))
    else forall i :: 0 <= i < |r.coordinators| && Located(r.coordinators[i].node) ==>
      Fits(m, r.coordinators[i].node, Coord.Flex(r.version))
  }

  lemma SteerCoordinatorFits(m: Mapping, r: Coord.CoordinatorResponse)
    requires Coord.FitsCoordinator(r) && FitsCoordinators(m, r)
    ensures Coord.FitsCoordinator(SteerCoordinator(m, r))
  {
    var flex := Coord.Flex(r.version);
    if r.version <= 3 {
      if Located(r.single.node) { SteerFits(m, r.single.node, flex); }
    } else {
      var c := Coord.EntryCodec(flex);
      var es := SteerEntries(m, r.coordinators);
      forall x | x in es ensures c.fits(x) {
        var i :| 0 <= i < |es| && es[i] == x;
        assert r.coordinators[i] in r.coordinators && c.fits(r.coordinators[i]);
        if Located(r.coordinators[i].node) { SteerFits(m, r.coordinators[i].node, flex); }
      }
    }
  }

  /** The rewriters: decode, steer, encode. A body that does not decode is an error. */
  function RewriteMetadataBody(m: Mapping, body: Bytes, version: int): Opt<Bytes>
  {
    match ReadMetadata(body, 0, version)
    case Ok(r, _) => Some(AppendMetadata([], SteerMetadata(m, r)))
    case Bad(_) => None
  }

  function RewriteCoordinatorBody(m: Mapping, body: Bytes, version: int): Opt<Bytes>
  {
    match Coord.ReadCoordinator(body, 0, version)
    case Ok(r, _) => Some(Coord.AppendCoordinator([], SteerCoordinator(m, r)))
    case Bad(_) => None
  }

  /** `out` decodes, to its end, to what `body` decodes to with the brokers steered. */
  ghost predicate MetadataBodySteered(m: Mapping, body: Bytes, version: int, out: Bytes)
  {
    var was, now := ReadMetadata(body, 0, version), ReadMetadata(out, 0, version);
    was.Ok? && now.Ok? && now.off == |out| && MetadataBecomes(m, was.v, now.v)
  }

  ghost predicate CoordinatorBodySteered(m: Mapping, body: Bytes, version: int, out: Bytes)
  {
    var was, now := Coord.ReadCoordinator(body, 0, version), Coord.ReadCoordinator(out, 0, version);
    was.Ok? && now.Ok? && now.off == |out| && CoordinatorBecomes(m, was.v, now.v)
  }

  /** For every body that decodes: what the client gets decodes to the same response with
      the mapped brokers steered, and nothing else changed. */
  lemma ClientSeesSteeredMetadata(m: Mapping, body: Bytes, version: int)
    requires ReadMetadata(body, 0, version).Ok? && FitsBrokers(m, ReadMetadata(body, 0, version).v)
    ensures var out := RewriteMetadataBody(m, body, version);
            out.Some? && MetadataBodySteered(m, body, version, out.value)
  {
    var r := ReadMetadata(body, 0, version).v;
    MetadataReads(body, 0, version);
    SteerMetadataFits(m, r);
    MetadataTrip([], SteerMetadata(m, r), AppendMetadata([], SteerMetadata(m, r)));
    SteerMetadataIs(m, r);
  }

  lemma ClientSeesSteeredCoordinator(m: Mapping, body: Bytes, version: int)
    requires Coord.ReadCoordinator(body, 0, version).Ok?
             && FitsCoordinators(m, Coord.ReadCoordinator(body, 0, version).v)
    ensures var out := RewriteCoordinatorBody(m, body, version);
            out.Some? && CoordinatorBodySteered(m, body, version, out.value)
  {
    var r := Coord.ReadCoordinator(body, 0, version).v;
    Coord.CoordinatorReads(body, 0, version);
    SteerCoordinatorFits(m, r);
    Coord.CoordinatorTrip([], SteerCoordinator(m, r), Coord.AppendCoordinator([], SteerCoordinator(m, r)));
    SteerCoordinatorIs(m, r);
  }

  /** The reassembled frame: header with the same correlation id, then the new payload. */
  lemma FrameParts(apiKey: int, version: int, correlId: int, payload: Bytes)
    requires IsInt32(correlId)
    ensures var head := AppendResponseHeader([], apiKey, version, correlId);
            && ReadResponseHeader(head + payload, apiKey, version) == Ok(correlId, |head|)
            && PeekCorrelId(head + payload) == Ok(correlId, 4)
            && (head + payload)[|head|..] == payload
  {
    var head := AppendResponseHeader([], apiKey, version, correlId);
    ResponseHeaderTrip(apiKey, version, correlId, head + payload);
  }
}
