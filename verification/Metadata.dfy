/** Which request and response versions use the flexible encoding. */
module ApiKeys {
  const METADATA := 3
  const FIND_COORDINATOR := 10
  const JOIN_GROUP := 11
  const SYNC_GROUP := 14

  /** The lowest flexible version of each API, for requests and for responses. */
  const FlexRequest: map<int, int> := map[
    0 := 9, 1 := 12, 2 := 6, 3 := 9, 8 := 8, 9 := 6, 10 := 3, 11 := 6, 12 := 4, 13 := 4,
    14 := 4, 15 := 5, 16 := 3, 17 := -1, 18 := 3, 36 := 2]

  const FlexResponse: map<int, int> := FlexRequest[18 := -1]

  predicate IsFlexibleRequest(apiKey: int, version: int)
  {
    apiKey in FlexRequest && FlexRequest[apiKey] >= 0 && version >= FlexRequest[apiKey]
  }

  predicate IsFlexibleResponse(apiKey: int, version: int)
  {
    apiKey in FlexResponse && FlexResponse[apiKey] >= 0 && version >= FlexResponse[apiKey]
  }
}

/** Node id, host and port: the consecutive fields by which brokers and coordinators are
    advertised, and which the proxy rewrites. */
module NodeFields {
  import opened Ordering
  import opened Wire

  datatype Node = Node(id: int, host: Bytes, port: int)

  function ReadNode(buf: Bytes, off: nat, flex: bool): (r: R<Node>)
    ensures r.Ok? ==> off < r.off <= |buf| && FitsNode(r.v, flex)
  {
    var (id, o1) :- ReadInt32(buf, off);
    var (host, o2) :- ReadStr(buf, o1, flex);
    var (port, o3) :- ReadInt32(buf, o2);
    Ok(Node(id, host, port), o3)
  }

  predicate FitsNode(n: Node, flex: bool)
  {
    IsInt32(n.id) && FitsStr(n.host, flex) && IsInt32(n.port)
  }

  function AppendNode(dst: Bytes, n: Node, flex: bool): Bytes
  {
    AppendInt32(AppendStr(AppendInt32(dst, n.id), n.host, flex), n.port)
  }

  lemma NodeTrip(dst: Bytes, n: Node, flex: bool, buf: Bytes)
    requires FitsNode(n, flex) && AppendNode(dst, n, flex) <= buf
    ensures dst < AppendNode(dst, n, flex) && ReadNode(buf, |dst|, flex) == Ok(n, |AppendNode(dst, n, flex)|)
  {
    var d1 := AppendInt32(dst, n.id);
    var d2 := AppendStr(d1, n.host, flex);
    Int32Trip(d2, n.port, buf);
    StrTrip(d1, n.host, flex, buf);
    Int32Trip(dst, n.id, buf);
  }
}

/** The versioned Metadata response. A field that the version does not carry is left at the
    value the decoder starts from; `fits` requires exactly that of values to be encoded. */
module MetadataMessage {
  import opened Ordering
  import opened Wire
  import opened ApiKeys
  import opened NodeFields

  // ---------------------------------------------------------------- brokers

  datatype Broker = Broker(node: Node, rack: Opt<Bytes>)

  function ReadBroker(buf: Bytes, off: nat, version: int, flex: bool): (r: R<Broker>)
    ensures r.Ok? ==> off < r.off <= |buf| && FitsBroker(r.v, version, flex)
  {
    var (node, o1) :- ReadNode(buf, off, flex);
    var (rack, o2) :- ReadOptStrIf(buf, o1, version >= 1, flex);
    var (_, o3) :- ReadTags(buf, o2, flex);
    Ok(Broker(node, rack), o3)
  }

  predicate FitsBroker(b: Broker, version: int, flex: bool)
  {
    FitsNode(b.node, flex) && FitsOptStrIf(b.rack, version >= 1, flex)
  }

  function AppendBroker(dst: Bytes, b: Broker, version: int, flex: bool): Bytes
  {
    AppendTags(AppendOptStrIf(AppendNode(dst, b.node, flex), b.rack, version >= 1, flex), flex)
  }

  lemma BrokerTrip(dst: Bytes, b: Broker, version: int, flex: bool, buf: Bytes)
    requires FitsBroker(b, version, flex) && AppendBroker(dst, b, version, flex) <= buf
    ensures dst < AppendBroker(dst, b, version, flex)
    ensures ReadBroker(buf, |dst|, version, flex) == Ok(b, |AppendBroker(dst, b, version, flex)|)
  {
    var d1 := AppendNode(dst, b.node, flex);
    var d2 := AppendOptStrIf(d1, b.rack, version >= 1, flex);
    TagsTrip(d2, flex, buf);
    OptStrIfTrip(d1, b.rack, version >= 1, flex, buf);
    NodeTrip(dst, b.node, flex, buf);
  }

  function BrokerCodec(version: int, flex: bool): Codec<Broker>
  {
    Codec((b, o) => ReadBroker(b, o, version, flex), (d, x) => AppendBroker(d, x, version, flex),
          x => FitsBroker(x, version, flex), x => 1)
  }

  lemma BrokerLawful(version: int, flex: bool)
    ensures Lawful(BrokerCodec(version, flex))
  {
    var c := BrokerCodec(version, flex);
    forall dst, x, buf ensures Trips(c, dst, x, buf) {
      if c.fits(x) && c.append(dst, x) <= buf { BrokerTrip(dst, x, version, flex, buf); }
    }
  }

  // ------------------------------------------------------------- partitions

  datatype Partition = Partition(error: int, index: int, leader: int, leaderEpoch: int,
                                 replicas: seq<int>, isr: seq<int>, offline: seq<int>)

  function ReadOffline(buf: Bytes, off: nat, present: bool, flex: bool): R<seq<int>>
  {
    if present then ReadArr(Int32Codec(), buf, off, flex) else Ok([], off)
  }

  predicate FitsOffline(xs: seq<int>, present: bool, flex: bool)
  {
    if present then FitsArr(Int32Codec(), xs, flex) else xs == []
  }

  function AppendOffline(dst: Bytes, xs: seq<int>, present: bool, flex: bool): Bytes
  {
    if present then AppendArr(Int32Codec(), dst, xs, flex) else dst
  }

  lemma OfflineTrip(dst: Bytes, xs: seq<int>, present: bool, flex: bool, buf: Bytes)
    requires FitsOffline(xs, present, flex) && AppendOffline(dst, xs, present, flex) <= buf
    ensures dst <= AppendOffline(dst, xs, present, flex)
    ensures ReadOffline(buf, |dst|, present, flex) == Ok(xs, |AppendOffline(dst, xs, present, flex)|)
  {
    Int32Lawful();
    if present { ArrTrip(Int32Codec(), dst, xs, flex, buf); }
  }

  function ReadPartition(buf: Bytes, off: nat, version: int, flex: bool): R<Partition>
  {
    var (error, o1) :- ReadInt16(buf, off);
    var (index, o2) :- ReadInt32(buf, o1);
    var (leader, o3) :- ReadInt32(buf, o2);
    var (epoch, o4) :- ReadInt32If(buf, o3, version >= 7, -1);
    var (replicas, o5) :- ReadArr(Int32Codec(), buf, o4, flex);
    var (isr, o6) :- ReadArr(Int32Codec(), buf, o5, flex);
    var (offline, o7) :- ReadOffline(buf, o6, version >= 5, flex);
    var (_, o8) :- ReadTags(buf, o7, flex);
    Ok(Partition(error, index, leader, epoch, replicas, isr, offline), o8)
  }

  predicate FitsPartition(p: Partition, version: int, flex: bool)
  {
    && IsInt16(p.error) && IsInt32(p.index) && IsInt32(p.leader) && FitsInt32If(p.leaderEpoch, version >= 7, -1)
    && FitsArr(Int32Codec(), p.replicas, flex) && FitsArr(Int32Codec(), p.isr, flex)
    && FitsOffline(p.offline, version >= 5, flex)
  }

  function PartitionWeight(p: Partition): nat
  {
    1 + WeightN(Int32Codec(), p.replicas) + WeightN(Int32Codec(), p.isr) + WeightN(Int32Codec(), p.offline)
  }

  lemma PartitionReads(buf: Bytes, off: nat, version: int, flex: bool)
    ensures var r := ReadPartition(buf, off, version, flex);
            r.Ok? ==> off < r.off <= |buf| && FitsPartition(r.v, version, flex) && PartitionWeight(r.v) <= r.off - off
  {
    Int32Lawful();
    var r := ReadPartition(buf, off, version, flex);
    if r.Ok? {
      var o3 := off + 10;
      var o4 := ReadInt32If(buf, o3, version >= 7, -1).off;
      ArrReads(Int32Codec(), buf, o4, flex);
      var o5 := ReadArr(Int32Codec(), buf, o4, flex).off;
      ArrReads(Int32Codec(), buf, o5, flex);
      var o6 := ReadArr(Int32Codec(), buf, o5, flex).off;
      ArrReads(Int32Codec(), buf, o6, flex);
    }
  }

  function AppendPartition(dst: Bytes, p: Partition, version: int, flex: bool): Bytes
  {
    var d1 := AppendInt16(dst, p.error);
    var d2 := AppendInt32(d1, p.index);
    var d3 := AppendInt32(d2, p.leader);
    var d4 := AppendInt32If(d3, p.leaderEpoch, version >= 7);
    var d5 := AppendArr(Int32Codec(), d4, p.replicas, flex);
    var d6 := AppendArr(Int32Codec(), d5, p.isr, flex);
    var d7 := AppendOffline(d6, p.offline, version >= 5, flex);
    AppendTags(d7, flex)
  }

  lemma PartitionTrip(dst: Bytes, p: Partition, version: int, flex: bool, buf: Bytes)
    requires FitsPartition(p, version, flex) && AppendPartition(dst, p, version, flex) <= buf
    ensures dst < AppendPartition(dst, p, version, flex)
    ensures ReadPartition(buf, |dst|, version, flex) == Ok(p, |AppendPartition(dst, p, version, flex)|)
  {
    hide AppendInt16, AppendInt32, AppendInt32If, AppendArr, AppendOffline, AppendTags, ReadInt16, ReadInt32,
        ReadInt32If, ReadArr, ReadOffline, ReadTags;
    Int32Lawful();
    var d1 := AppendInt16(dst, p.error);
    var d2 := AppendInt32(d1, p.index);
    var d3 := AppendInt32(d2, p.leader);
    var d4 := AppendInt32If(d3, p.leaderEpoch, version >= 7);
    var d5 := AppendArr(Int32Codec(), d4, p.replicas, flex);
    var d6 := AppendArr(Int32Codec(), d5, p.isr, flex);
    var d7 := AppendOffline(d6, p.offline, version >= 5, flex);
    TagsTrip(d7, flex, buf);
    OfflineTrip(d6, p.offline, version >= 5, flex, buf);
    ArrTrip(Int32Codec(), d5, p.isr, flex, buf);
    ArrTrip(Int32Codec(), d4, p.replicas, flex, buf);
    Int32IfTrip(d3, p.leaderEpoch, version >= 7, -1, buf);
    Int32Trip(d2, p.leader, buf);
    Int32Trip(d1, p.index, buf);
    Int16Trip(dst, p.error, buf);
  }

  function PartitionCodec(version: int, flex: bool): Codec<Partition>
  {
    Codec((b, o) => ReadPartition(b, o, version, flex), (d, x) => AppendPartition(d, x, version, flex),
          x => FitsPartition(x, version, flex), x => PartitionWeight(x))
  }

  lemma PartitionLawful(version: int, flex: bool)
    ensures Lawful(PartitionCodec(version, flex))
  {
    var c := PartitionCodec(version, flex);
    forall dst, x, buf ensures Trips(c, dst, x, buf) {
      if c.fits(x) && c.append(dst, x) <= buf { PartitionTrip(dst, x, version, flex, buf); }
    }
    forall buf, off ensures Reads(c, buf, off) { PartitionReads(buf, off, version, flex); }
  }

  // ----------------------------------------------------------------- topics

  const NO_TOPIC_ID: Bytes := [0, 0, 0, 0, 0, 0, 0, 0, 0, 0, 0, 0, 0, 0, 0, 0]

  datatype Topic = Topic(error: int, name: Opt<Bytes>, topicId: Bytes, isInternal: bool,
                         partitions: seq<Partition>, operations: int)

  /** Topic names are nullable from version 12. */
  function ReadName(buf: Bytes, off: nat, version: int, flex: bool): (r: R<Opt<Bytes>>)
    ensures r.Ok? ==> off < r.off <= |buf| && FitsName(r.v, version, flex)
  {
    if version >= 12 then ReadOptStr(buf, off, flex) else
      var (s, o) :- ReadStr(buf, off, flex);
      Ok(Some(s), o)
  }

  predicate FitsName(name: Opt<Bytes>, version: int, flex: bool)
  {
    FitsOptStr(name, flex) && (version < 12 ==> name.Some?)
  }

  function AppendName(dst: Bytes, name: Opt<Bytes>, version: int, flex: bool): Bytes
  {
    if version >= 12 then AppendOptStr(dst, name, flex)
    else AppendStr(dst, if name.Some? then name.value else [], flex)
  }

  lemma NameTrip(dst: Bytes, name: Opt<Bytes>, version: int, flex: bool, buf: Bytes)
    requires FitsName(name, version, flex) && AppendName(dst, name, version, flex) <= buf
    ensures dst < AppendName(dst, name, version, flex)
    ensures ReadName(buf, |dst|, version, flex) == Ok(name, |AppendName(dst, name, version, flex)|)
  {
    if version >= 12 { OptStrTrip(dst, name, flex, buf); } else { StrTrip(dst, name.value, flex, buf); }
  }

  function ReadTopicId(buf: Bytes, off: nat, present: bool): (r: R<Bytes>)
    ensures r.Ok? ==> off <= r.off && (off <= |buf| ==> r.off <= |buf|) && FitsTopicId(r.v, present)
  {
    if present then Take(buf, off, 16) else Ok(NO_TOPIC_ID, off)
  }

  predicate FitsTopicId(id: Bytes, present: bool)
  {
    if present then |id| == 16 else id == NO_TOPIC_ID
  }

  function AppendTopicId(dst: Bytes, id: Bytes, present: bool): Bytes
  {
    if present then dst + id else dst
  }

  lemma TopicIdTrip(dst: Bytes, id: Bytes, present: bool, buf: Bytes)
    requires FitsTopicId(id, present) && AppendTopicId(dst, id, present) <= buf
    ensures dst <= AppendTopicId(dst, id, present)
    ensures ReadTopicId(buf, |dst|, present) == Ok(id, |AppendTopicId(dst, id, present)|)
  {
    if present { TakeTrip(dst, id, buf); }
  }

  /** A flag byte: any non-zero value reads as true. */
  function ReadFlag(buf: Bytes, off: nat, present: bool): (r: R<bool>)
    ensures r.Ok? ==> off <= r.off && (off <= |buf| ==> r.off <= |buf|) && (!present ==> !r.v)
  {
    if !present then Ok(false, off) else
      var (b, o) :- ReadInt8(buf, off);
      Ok(b != 0, o)
  }

  function AppendFlag(dst: Bytes, f: bool, present: bool): Bytes
  {
    if present then AppendInt8(dst, if f then 1 else 0) else dst
  }

  lemma FlagTrip(dst: Bytes, f: bool, present: bool, buf: Bytes)
    requires (!present ==> !f) && AppendFlag(dst, f, present) <= buf
    ensures dst <= AppendFlag(dst, f, present)
    ensures ReadFlag(buf, |dst|, present) == Ok(f, |AppendFlag(dst, f, present)|)
  {
    if present { Int8Trip(dst, if f then 1 else 0, buf); }
  }

  /** What topics and whole responses end with: an array, a versioned set of authorized
      operations, and tagged fields. */
  function ReadTail<T(!new)>(c: Codec<T>, buf: Bytes, off: nat, present: bool, flex: bool): R<(seq<T>, int)>
  {
    var (xs, o1) :- ReadArr(c, buf, off, flex);
    var (operations, o2) :- ReadInt32If(buf, o1, present, 0);
    var (_, o3) :- ReadTags(buf, o2, flex);
    Ok((xs, operations), o3)
  }

  function AppendTail<T(!new)>(c: Codec<T>, dst: Bytes, xs: seq<T>, operations: int, present: bool, flex: bool): Bytes
  {
    AppendTags(AppendInt32If(AppendArr(c, dst, xs, flex), operations, present), flex)
  }

  lemma TailTrip<T(!new)>(c: Codec<T>, dst: Bytes, xs: seq<T>, operations: int, present: bool, flex: bool, buf: Bytes)
    requires Lawful(c) && FitsArr(c, xs, flex) && FitsInt32If(operations, present, 0)
    requires AppendTail(c, dst, xs, operations, present, flex) <= buf
    ensures dst < AppendTail(c, dst, xs, operations, present, flex)
    ensures ReadTail(c, buf, |dst|, present, flex) ==
              Ok((xs, operations), |AppendTail(c, dst, xs, operations, present, flex)|)
  {
    var d1 := AppendArr(c, dst, xs, flex);
    var d2 := AppendInt32If(d1, operations, present);
    TagsTrip(d2, flex, buf);
    Int32IfTrip(d1, operations, present, 0, buf);
    ArrTrip(c, dst, xs, flex, buf);
  }

  function ReadTopic(buf: Bytes, off: nat, version: int, flex: bool): R<Topic>
  {
    var (error, o1) :- ReadInt16(buf, off);
    var (name, o2) :- ReadName(buf, o1, version, flex);
    var (id, o3) :- ReadTopicId(buf, o2, version >= 10);
    var (internal, o4) :- ReadFlag(buf, o3, version >= 1);
    var ((partitions, operations), o5) :- ReadTail(PartitionCodec(version, flex), buf, o4, version >= 8, flex);
    Ok(Topic(error, name, id, internal, partitions, operations), o5)
  }

  predicate FitsTopic(t: Topic, version: int, flex: bool)
  {
    && IsInt16(t.error) && FitsName(t.name, version, flex) && FitsTopicId(t.topicId, version >= 10)
    && (version < 1 ==> !t.isInternal)
    && FitsArr(PartitionCodec(version, flex), t.partitions, flex) && FitsInt32If(t.operations, version >= 8, 0)
  }

  function TopicWeight(t: Topic, version: int, flex: bool): nat
  {
    1 + WeightN(PartitionCodec(version, flex), t.partitions)
  }

  lemma TopicReads(buf: Bytes, off: nat, version: int, flex: bool)
    ensures var r := ReadTopic(buf, off, version, flex);
            r.Ok? ==>
              off < r.off <= |buf| && FitsTopic(r.v, version, flex) && TopicWeight(r.v, version, flex) <= r.off - off
  {
    var r := ReadTopic(buf, off, version, flex);
    if r.Ok? {
      var o2 := ReadName(buf, off + 2, version, flex).off;
      var o3 := ReadTopicId(buf, o2, version >= 10).off;
      var o4 := ReadFlag(buf, o3, version >= 1).off;
      PartitionLawful(version, flex);
      ArrReads(PartitionCodec(version, flex), buf, o4, flex);
    }
  }

  function AppendTopic(dst: Bytes, t: Topic, version: int, flex: bool): Bytes
  {
    var d1 := AppendInt16(dst, t.error);
    var d2 := AppendName(d1, t.name, version, flex);
    var d3 := AppendTopicId(d2, t.topicId, version >= 10);
    var d4 := AppendFlag(d3, t.isInternal, version >= 1);
    AppendTail(PartitionCodec(version, flex), d4, t.partitions, t.operations, version >= 8, flex)
  }

  lemma TopicTrip(dst: Bytes, t: Topic, version: int, flex: bool, buf: Bytes)
    requires FitsTopic(t, version, flex) && AppendTopic(dst, t, version, flex) <= buf
    ensures dst < AppendTopic(dst, t, version, flex)
    ensures ReadTopic(buf, |dst|, version, flex) == Ok(t, |AppendTopic(dst, t, version, flex)|)
  {
    hide AppendInt16, AppendName, AppendTopicId, AppendFlag, AppendTail, ReadInt16, ReadName, ReadTopicId, ReadFlag;
    var d1 := AppendInt16(dst, t.error);
    var d2 := AppendName(d1, t.name, version, flex);
    var d3 := AppendTopicId(d2, t.topicId, version >= 10);
    var d4 := AppendFlag(d3, t.isInternal, version >= 1);
    PartitionLawful(version, flex);
    TailTrip(PartitionCodec(version, flex), d4, t.partitions, t.operations, version >= 8, flex, buf);
    FlagTrip(d3, t.isInternal, version >= 1, buf);
    TopicIdTrip(d2, t.topicId, version >= 10, buf);
    NameTrip(d1, t.name, version, flex, buf);
    Int16Trip(dst, t.error, buf);
  }

  function TopicCodec(version: int, flex: bool): Codec<Topic>
  {
    Codec((b, o) => ReadTopic(b, o, version, flex), (d, x) => AppendTopic(d, x, version, flex),
          x => FitsTopic(x, version, flex), x => TopicWeight(x, version, flex))
  }

  lemma TopicLawful(version: int, flex: bool)
    ensures Lawful(TopicCodec(version, flex))
  {
    var c := TopicCodec(version, flex);
    forall dst, x, buf ensures Trips(c, dst, x, buf) {
      if c.fits(x) && c.append(dst, x) <= buf { TopicTrip(dst, x, version, flex, buf); }
    }
    forall buf, off ensures Reads(c, buf, off) { TopicReads(buf, off, version, flex); }
  }

  // --------------------------------------------------------------- response

  datatype MetadataResponse = MetadataResponse(
    version: int, throttle: int, brokers: seq<Broker>, cluster: Cluster, topics: seq<Topic>, clusterOperations: int)

  datatype Cluster = Cluster(id: Opt<Bytes>, controllerId: int)

  function ReadCluster(buf: Bytes, off: nat, version: int, flex: bool): (r: R<Cluster>)
    ensures r.Ok? ==> off <= r.off && (off <= |buf| ==> r.off <= |buf|) && FitsCluster(r.v, version, flex)
  {
    var (id, o1) :- ReadOptStrIf(buf, off, version >= 2, flex);
    var (controller, o2) :- ReadInt32If(buf, o1, version >= 1, -1);
    Ok(Cluster(id, controller), o2)
  }

  predicate FitsCluster(c: Cluster, version: int, flex: bool)
  {
    FitsOptStrIf(c.id, version >= 2, flex) && FitsInt32If(c.controllerId, version >= 1, -1)
  }

  function AppendCluster(dst: Bytes, c: Cluster, version: int, flex: bool): Bytes
  {
    AppendInt32If(AppendOptStrIf(dst, c.id, version >= 2, flex), c.controllerId, version >= 1)
  }

  lemma ClusterTrip(dst: Bytes, c: Cluster, version: int, flex: bool, buf: Bytes)
    requires FitsCluster(c, version, flex) && AppendCluster(dst, c, version, flex) <= buf
    ensures dst <= AppendCluster(dst, c, version, flex)
    ensures ReadCluster(buf, |dst|, version, flex) == Ok(c, |AppendCluster(dst, c, version, flex)|)
  {
    Int32IfTrip(AppendOptStrIf(dst, c.id, version >= 2, flex), c.controllerId, version >= 1, -1, buf);
    OptStrIfTrip(dst, c.id, version >= 2, flex, buf);
  }

  predicate Flex(version: int) { IsFlexibleResponse(METADATA, version) }

  function ReadMetadata(buf: Bytes, off: nat, version: int): R<MetadataResponse>
  {
    var flex := Flex(version);
    var (throttle, o1) :- ReadInt32If(buf, off, version >= 3, 0);
    var (brokers, o2) :- ReadArr(BrokerCodec(version, flex), buf, o1, flex);
    var (cluster, o3) :- ReadCluster(buf, o2, version, flex);
    var ((topics, operations), o4) :- ReadTail(TopicCodec(version, flex), buf, o3, 8 <= version <= 10, flex);
    Ok(MetadataResponse(version, throttle, brokers, cluster, topics, operations), o4)
  }

  predicate FitsMetadata(r: MetadataResponse)
  {
    var flex := Flex(r.version);
    && FitsInt32If(r.throttle, r.version >= 3, 0) && FitsArr(BrokerCodec(r.version, flex), r.brokers, flex)
    && FitsCluster(r.cluster, r.version, flex)
    && FitsArr(TopicCodec(r.version, flex), r.topics, flex) && FitsInt32If(r.clusterOperations, 8 <= r.version <= 10, 0)
  }

  function AppendMetadata(dst: Bytes, r: MetadataResponse): Bytes
  {
    var flex := Flex(r.version);
    var d1 := AppendInt32If(dst, r.throttle, r.version >= 3);
    var d2 := AppendArr(BrokerCodec(r.version, flex), d1, r.brokers, flex);
    var d3 := AppendCluster(d2, r.cluster, r.version, flex);
    AppendTail(TopicCodec(r.version, flex), d3, r.topics, r.clusterOperations, 8 <= r.version <= 10, flex)
  }

  /** The number of list elements of a response, over all nesting levels. */
  function Elements(r: MetadataResponse): nat
  {
    WeightN(BrokerCodec(r.version, Flex(r.version)), r.brokers) +
        WeightN(TopicCodec(r.version, Flex(r.version)), r.topics)
  }

  /** Whatever the bytes and the version: a decoded response fits the format of its version,
      ends inside the body, and has no more list elements than bytes were read. */
  lemma MetadataReads(buf: Bytes, off: nat, version: int)
    ensures var r := ReadMetadata(buf, off, version);
            r.Ok? ==>
              off < r.off <= |buf| && r.v.version == version && FitsMetadata(r.v) && Elements(r.v) <= r.off - off
  {
    var flex := Flex(version);
    var r := ReadMetadata(buf, off, version);
    if r.Ok? {
      var o1 := ReadInt32If(buf, off, version >= 3, 0).off;
      BrokerLawful(version, flex);
      ArrReads(BrokerCodec(version, flex), buf, o1, flex);
      var o2 := ReadArr(BrokerCodec(version, flex), buf, o1, flex).off;
      var o3 := ReadCluster(buf, o2, version, flex).off;
      TopicLawful(version, flex);
      ArrReads(TopicCodec(version, flex), buf, o3, flex);
    }
  }

  /** Round trip, inside any buffer: decoding the encoding followed by arbitrary bytes
      returns the value and consumes exactly the encoding. */
  lemma MetadataTrip(dst: Bytes, r: MetadataResponse, buf: Bytes)
    requires FitsMetadata(r) && AppendMetadata(dst, r) <= buf
    ensures dst < AppendMetadata(dst, r)
    ensures ReadMetadata(buf, |dst|, r.version) == Ok(r, |AppendMetadata(dst, r)|)
  {
    hide AppendInt32If, AppendArr, AppendCluster, AppendTail, ReadInt32If, ReadCluster;
    var version, flex := r.version, Flex(r.version);
    var d1 := AppendInt32If(dst, r.throttle, version >= 3);
    var d2 := AppendArr(BrokerCodec(version, flex), d1, r.brokers, flex);
    var d3 := AppendCluster(d2, r.cluster, version, flex);
    TopicLawful(version, flex);
    TailTrip(TopicCodec(version, flex), d3, r.topics, r.clusterOperations, 8 <= version <= 10, flex, buf);
    ClusterTrip(d2, r.cluster, version, flex, buf);
    BrokerLawful(version, flex);
    ArrTrip(BrokerCodec(version, flex), d1, r.brokers, flex, buf);
    Int32IfTrip(dst, r.throttle, version >= 3, 0, buf);
  }
}
