/** The message decoders and encoders, driven by a cursor. */
module Decoders {
  import opened Ordering
  import opened Wire
  import opened Cursors
  import opened ApiKeys
  import opened NodeFields
  import opened MetadataMessage
  import Coord = CoordinatorMessage
  import Sync = SyncGroupMessage
  import Proto = ConsumerProtocol
  import opened Header

  // ---------------------------------------------------------------- metadata

  method DecodeNode(c: Cursor, flex: bool) returns (res: Res<Node>)
    requires c.Valid()
    modifies c
    ensures c.Valid() && Follows(ReadNode(c.buf, old(c.off), flex), res, c.off)
  {
    var id :- c.Int32();
    var host :- c.Str(flex);
    var port :- c.Int32();
    return Val(Node(id, host, port));
  }

  method DecodeBroker(c: Cursor, version: int, flex: bool) returns (res: Res<Broker>)
    requires c.Valid()
    modifies c
    ensures c.Valid() && Follows(ReadBroker(c.buf, old(c.off), version, flex), res, c.off)
  {
    var node :- DecodeNode(c, flex);
    var rack :- c.OptStrIf(version >= 1, flex);
    var tags, _ := c.SkipTagged(flex);
    if tags.Err? { return Err(tags.error); }
    return Val(Broker(node, rack));
  }

  method DecodeBrokers(c: Cursor, version: int, flex: bool) returns (res: Res<seq<Broker>>)
    requires c.Valid()
    modifies c
    ensures c.Valid() && Follows(ReadArr(BrokerCodec(version, flex), c.buf, old(c.off), flex), res, c.off)
  {
    hide ReadBroker;
    var n :- c.ArrLen(flex);
    ghost var start := c.off;
    var xs: seq<Broker> := [];
    for i := 0 to n
      invariant c.Valid() && ReadN(BrokerCodec(version, flex), c.buf, start, i) == Ok(xs, c.off)
    {
      ReadNNext(BrokerCodec(version, flex), c.buf, start, i, n, xs, c.off);
      var x :- DecodeBroker(c, version, flex);
      xs := xs + [x];
    }
    return Val(xs);
  }

  method DecodeOffline(c: Cursor, present: bool, flex: bool) returns (res: Res<seq<int>>)
    requires c.Valid()
    modifies c
    ensures c.Valid() && Follows(ReadOffline(c.buf, old(c.off), present, flex), res, c.off)
  {
    if !present { return Val([]); }
    res := c.Int32s(flex);
  }

  method DecodePartition(c: Cursor, version: int, flex: bool) returns (res: Res<Partition>)
    requires c.Valid()
    modifies c
    ensures c.Valid() && Follows(ReadPartition(c.buf, old(c.off), version, flex), res, c.off)
  {
    hide ReadInt16, ReadInt32, ReadInt32If, ReadOffline, ReadArr, ReadTags;
    var error :- c.Int16();
    var index :- c.Int32();
    var leader :- c.Int32();
    var epoch :- c.Int32If(version >= 7, -1);
    var replicas :- c.Int32s(flex);
    var isr :- c.Int32s(flex);
    var offline :- DecodeOffline(c, version >= 5, flex);
    var tags, _ := c.SkipTagged(flex);
    if tags.Err? { return Err(tags.error); }
    return Val(Partition(error, index, leader, epoch, replicas, isr, offline));
  }

  method DecodePartitions(c: Cursor, version: int, flex: bool) returns (res: Res<seq<Partition>>)
    requires c.Valid()
    modifies c
    ensures c.Valid() && Follows(ReadArr(PartitionCodec(version, flex), c.buf, old(c.off), flex), res, c.off)
  {
    hide ReadPartition;
    var n :- c.ArrLen(flex);
    ghost var start := c.off;
    var xs: seq<Partition> := [];
    for i := 0 to n
      invariant c.Valid() && ReadN(PartitionCodec(version, flex), c.buf, start, i) == Ok(xs, c.off)
    {
      ReadNNext(PartitionCodec(version, flex), c.buf, start, i, n, xs, c.off);
      var x :- DecodePartition(c, version, flex);
      xs := xs + [x];
    }
    return Val(xs);
  }

  method DecodeName(c: Cursor, version: int, flex: bool) returns (res: Res<Opt<Bytes>>)
    requires c.Valid()
    modifies c
    ensures c.Valid() && Follows(ReadName(c.buf, old(c.off), version, flex), res, c.off)
  {
    if version >= 12 {
      res := c.OptStr(flex);
    } else {
      var s :- c.Str(flex);
      return Val(Some(s));
    }
  }

  method DecodeTopicId(c: Cursor, present: bool) returns (res: Res<Bytes>)
    requires c.Valid()
    modifies c
    ensures c.Valid() && Follows(ReadTopicId(c.buf, old(c.off), present), res, c.off)
  {
    if !present { return Val(NO_TOPIC_ID); }
    res := c.Next(16);
  }

  method DecodeFlag(c: Cursor, present: bool) returns (res: Res<bool>)
    requires c.Valid()
    modifies c
    ensures c.Valid() && Follows(ReadFlag(c.buf, old(c.off), present), res, c.off)
  {
    if !present { return Val(false); }
    var b :- c.Int8();
    return Val(b != 0);
  }

  method DecodeTopic(c: Cursor, version: int, flex: bool) returns (res: Res<Topic>)
    requires c.Valid()
    modifies c
    ensures c.Valid() && Follows(ReadTopic(c.buf, old(c.off), version, flex), res, c.off)
  {
    hide ReadInt16, ReadInt32If, ReadName, ReadTopicId, ReadFlag, ReadArr, ReadTags;
    var error :- c.Int16();
    var name :- DecodeName(c, version, flex);
    var id :- DecodeTopicId(c, version >= 10);
    var internal :- DecodeFlag(c, version >= 1);
    var partitions :- DecodePartitions(c, version, flex);
    var operations :- c.Int32If(version >= 8, 0);
    var tags, _ := c.SkipTagged(flex);
    if tags.Err? { return Err(tags.error); }
    return Val(Topic(error, name, id, internal, partitions, operations));
  }

  method DecodeTopics(c: Cursor, version: int, flex: bool) returns (res: Res<seq<Topic>>)
    requires c.Valid()
    modifies c
    ensures c.Valid() && Follows(ReadArr(TopicCodec(version, flex), c.buf, old(c.off), flex), res, c.off)
  {
    hide ReadTopic;
    var n :- c.ArrLen(flex);
    ghost var start := c.off;
    var xs: seq<Topic> := [];
    for i := 0 to n
      invariant c.Valid() && ReadN(TopicCodec(version, flex), c.buf, start, i) == Ok(xs, c.off)
    {
      ReadNNext(TopicCodec(version, flex), c.buf, start, i, n, xs, c.off);
      var x :- DecodeTopic(c, version, flex);
      xs := xs + [x];
    }
    return Val(xs);
  }

  /** Decode a Metadata response body. */
  method DecodeMetadata(body: Bytes, version: int) returns (res: Res<MetadataResponse>)
    ensures match ReadMetadata(body, 0, version)
            case Ok(r, _) => res == Val(r)
            case Bad(e) => res == Err(e)
  {
    hide ReadInt32If, ReadOptStrIf, ReadArr, ReadTags;
    var c := new Cursor(body);
    var flex := IsFlexibleResponse(METADATA, version);
    var throttle :- c.Int32If(version >= 3, 0);
    var brokers :- DecodeBrokers(c, version, flex);
    var clusterId :- c.OptStrIf(version >= 2, flex);
    var controller :- c.Int32If(version >= 1, -1);
    var topics :- DecodeTopics(c, version, flex);
    var operations :- c.Int32If(8 <= version <= 10, 0);
    var tags, _ := c.SkipTagged(flex);
    if tags.Err? { return Err(tags.error); }
    return Val(MetadataResponse(version, throttle, brokers, Cluster(clusterId, controller), topics, operations));
  }

  method EncodePartition(dst0: Bytes, p: Partition, version: int, flex: bool) returns (dst: Bytes)
    ensures dst == AppendPartition(dst0, p, version, flex)
  {
    hide AppendInt16, AppendInt32;
    dst := AppendInt16(dst0, p.error);
    dst := AppendInt32(dst, p.index);
    dst := AppendInt32(dst, p.leader);
    if version >= 7 { dst := AppendInt32(dst, p.leaderEpoch); }
    dst := EncodeInt32s(dst, p.replicas, flex);
    dst := EncodeInt32s(dst, p.isr, flex);
    if version >= 5 { dst := EncodeInt32s(dst, p.offline, flex); }
    dst := AppendTags(dst, flex);
  }

  method EncodeTopic(dst0: Bytes, t: Topic, version: int, flex: bool) returns (dst: Bytes)
    ensures dst == AppendTopic(dst0, t, version, flex)
  {
    hide AppendPartition, AppendInt16, AppendInt8, AppendInt32;
    dst := AppendInt16(dst0, t.error);
    dst := AppendName(dst, t.name, version, flex);
    if version >= 10 { dst := dst + t.topicId; }
    if version >= 1 { dst := AppendInt8(dst, if t.isInternal then 1 else 0); }
    ghost var front := dst;
    dst := AppendArrLen(dst, |t.partitions|, flex);
    ghost var start := dst;
    for i := 0 to |t.partitions|
      invariant dst == AppendN(PartitionCodec(version, flex), start, t.partitions[..i])
    {
      assert t.partitions[..i + 1][..i] == t.partitions[..i];
      dst := EncodePartition(dst, t.partitions[i], version, flex);
    }
    assert t.partitions[..|t.partitions|] == t.partitions;
    assert dst == AppendArr(PartitionCodec(version, flex), front, t.partitions, flex);
    if version >= 8 { dst := AppendInt32(dst, t.operations); }
    dst := AppendTags(dst, flex);
  }

  /** Encode a Metadata response body. */
  method EncodeMetadata(dst0: Bytes, r: MetadataResponse) returns (dst: Bytes)
    ensures dst == AppendMetadata(dst0, r)
  {
    hide AppendInt32, AppendOptStr;
    var version, flex := r.version, IsFlexibleResponse(METADATA, r.version);
    dst := dst0;
    if version >= 3 { dst := AppendInt32(dst, r.throttle); }
    dst := EncodeBrokers(dst, r.brokers, version, flex);
    if version >= 2 { dst := AppendOptStr(dst, r.cluster.id, flex); }
    if version >= 1 { dst := AppendInt32(dst, r.cluster.controllerId); }
    dst := EncodeTopics(dst, r.topics, version, flex);
    if 8 <= version <= 10 { dst := AppendInt32(dst, r.clusterOperations); }
    dst := AppendTags(dst, flex);
  }

  method EncodeBrokers(dst0: Bytes, xs: seq<Broker>, version: int, flex: bool) returns (dst: Bytes)
    ensures dst == AppendArr(BrokerCodec(version, flex), dst0, xs, flex)
  {
    hide AppendBroker, AppendArrLen;
    dst := AppendArrLen(dst0, |xs|, flex);
    for i := 0 to |xs|
      invariant dst == AppendN(BrokerCodec(version, flex), AppendArrLen(dst0, |xs|, flex), xs[..i])
    {
      assert xs[..i + 1][..i] == xs[..i];
      dst := AppendBroker(dst, xs[i], version, flex);
    }
    assert xs[..|xs|] == xs;
  }

  method EncodeTopics(dst0: Bytes, xs: seq<Topic>, version: int, flex: bool) returns (dst: Bytes)
    ensures dst == AppendArr(TopicCodec(version, flex), dst0, xs, flex)
  {
    hide AppendTopic, AppendArrLen;
    dst := AppendArrLen(dst0, |xs|, flex);
    for i := 0 to |xs|
      invariant dst == AppendN(TopicCodec(version, flex), AppendArrLen(dst0, |xs|, flex), xs[..i])
    {
      assert xs[..i + 1][..i] == xs[..i];
      dst := EncodeTopic(dst, xs[i], version, flex);
    }
    assert xs[..|xs|] == xs;
  }

  // ------------------------------------------------------------ coordinators

  method DecodeEntry(c: Cursor, flex: bool) returns (res: Res<Coord.Entry>)
    requires c.Valid()
    modifies c
    ensures c.Valid() && Follows(Coord.ReadEntry(c.buf, old(c.off), flex), res, c.off)
  {
    var key :- c.Str(flex);
    var node :- DecodeNode(c, flex);
    var error :- c.Int16();
    var message :- c.OptStr(flex);
    var tags, _ := c.SkipTagged(flex);
    if tags.Err? { return Err(tags.error); }
    return Val(Coord.Entry(key, node, error, message));
  }

  method DecodeEntries(c: Cursor, flex: bool) returns (res: Res<seq<Coord.Entry>>)
    requires c.Valid()
    modifies c
    ensures c.Valid() && Follows(ReadArr(Coord.EntryCodec(flex), c.buf, old(c.off), flex), res, c.off)
  {
    hide Coord.ReadEntry;
    var n :- c.ArrLen(flex);
    ghost var start := c.off;
    var xs: seq<Coord.Entry> := [];
    for i := 0 to n
      invariant c.Valid() && ReadN(Coord.EntryCodec(flex), c.buf, start, i) == Ok(xs, c.off)
    {
      ReadNNext(Coord.EntryCodec(flex), c.buf, start, i, n, xs, c.off);
      var x :- DecodeEntry(c, flex);
      xs := xs + [x];
    }
    return Val(xs);
  }

  method DecodeSingle(c: Cursor, version: int, flex: bool) returns (res: Res<Coord.Single>)
    requires c.Valid()
    modifies c
    ensures c.Valid() && Follows(Coord.ReadSingle(c.buf, old(c.off), version, flex), res, c.off)
  {
    var error :- c.Int16();
    var message :- c.OptStrIf(version >= 1, flex);
    var node :- DecodeNode(c, flex);
    return Val(Coord.Single(error, message, node));
  }

  /** Decode a FindCoordinator response body. */
  method DecodeCoordinator(body: Bytes, version: int) returns (res: Res<Coord.CoordinatorResponse>)
    ensures match Coord.ReadCoordinator(body, 0, version)
            case Ok(r, _) => res == Val(r)
            case Bad(e) => res == Err(e)
  {
    var c := new Cursor(body);
    var flex := IsFlexibleResponse(FIND_COORDINATOR, version);
    var throttle :- c.Int32If(version >= 1, 0);
    var single, entries := Coord.UNUSED, [];
    if version <= 3 {
      single :- DecodeSingle(c, version, flex);
    } else {
      entries :- DecodeEntries(c, flex);
    }
    var tags, _ := c.SkipTagged(flex);
    if tags.Err? { return Err(tags.error); }
    return Val(Coord.CoordinatorResponse(version, throttle, single, entries));
  }

  /** Encode a FindCoordinator response body. */
  method EncodeCoordinator(dst0: Bytes, r: Coord.CoordinatorResponse) returns (dst: Bytes)
    ensures dst == Coord.AppendCoordinator(dst0, r)
  {
    hide Coord.AppendEntry, Coord.AppendSingle, AppendArrLen, AppendInt32;
    var flex := IsFlexibleResponse(FIND_COORDINATOR, r.version);
    dst := dst0;
    if r.version >= 1 { dst := AppendInt32(dst, r.throttle); }
    if r.version <= 3 {
      dst := Coord.AppendSingle(dst, r.single, r.version, flex);
    } else {
      ghost var front := dst;
      dst := AppendArrLen(dst, |r.coordinators|, flex);
      for i := 0 to |r.coordinators|
        invariant dst == AppendN(Coord.EntryCodec(flex), AppendArrLen(front, |r.coordinators|, flex),
                  r.coordinators[..i])
      {
        assert r.coordinators[..i + 1][..i] == r.coordinators[..i];
        dst := Coord.AppendEntry(dst, r.coordinators[i], flex);
      }
      assert r.coordinators[..|r.coordinators|] == r.coordinators;
    }
    dst := AppendTags(dst, flex);
  }

  // -------------------------------------------------------------- sync group

  method DecodeSlot(c: Cursor, flex: bool) returns (res: Res<Sync.Slot>)
    requires c.Valid()
    modifies c
    ensures c.Valid() && Follows(Sync.ReadSlot(c.buf, old(c.off), flex), res, c.off)
  {
    var id :- c.Str(flex);
    var blob :- c.OptBytes(flex);
    var tags, _ := c.SkipTagged(flex);
    if tags.Err? { return Err(tags.error); }
    return Val(Sync.Slot(id, blob));
  }

  method DecodeSlots(c: Cursor, flex: bool) returns (res: Res<seq<Sync.Slot>>)
    requires c.Valid()
    modifies c
    ensures c.Valid() && Follows(ReadArr(Sync.SlotCodec(flex), c.buf, old(c.off), flex), res, c.off)
  {
    hide Sync.ReadSlot;
    var n :- c.ArrLen(flex);
    ghost var start := c.off;
    var xs: seq<Sync.Slot> := [];
    for i := 0 to n
      invariant c.Valid() && ReadN(Sync.SlotCodec(flex), c.buf, start, i) == Ok(xs, c.off)
    {
      ReadNNext(Sync.SlotCodec(flex), c.buf, start, i, n, xs, c.off);
      var x :- DecodeSlot(c, flex);
      xs := xs + [x];
    }
    return Val(xs);
  }

  method DecodeSender(c: Cursor, version: int, flex: bool) returns (res: Res<Sync.Sender>)
    requires c.Valid()
    modifies c
    ensures c.Valid() && Follows(Sync.ReadSender(c.buf, old(c.off), version, flex), res, c.off)
  {
    var group :- c.Str(flex);
    var generation :- c.Int32();
    var member :- c.Str(flex);
    var instance :- c.OptStrIf(version >= 3, flex);
    var ptype :- c.OptStrIf(version >= 5, flex);
    var pname :- c.OptStrIf(version >= 5, flex);
    return Val(Sync.Sender(group, generation, member, Sync.Names(instance, ptype, pname)));
  }

  /** Decode a SyncGroup request body. */
  method DecodeSyncGroup(body: Bytes, version: int) returns (res: Res<Sync.SyncGroup>)
    ensures match Sync.ReadSyncGroup(body, 0, version)
            case Ok(r, _) => res == Val(r)
            case Bad(e) => res == Err(e)
  {
    var c := new Cursor(body);
    var flex := IsFlexibleRequest(SYNC_GROUP, version);
    var sender :- DecodeSender(c, version, flex);
    var slots :- DecodeSlots(c, flex);
    var tags, _ := c.SkipTagged(flex);
    if tags.Err? { return Err(tags.error); }
    return Val(Sync.SyncGroup(version, sender, slots));
  }

  /** Encode a SyncGroup request body. */
  method EncodeSyncGroup(dst0: Bytes, r: Sync.SyncGroup) returns (dst: Bytes)
    ensures dst == Sync.AppendSyncGroup(dst0, r)
  {
    hide Sync.AppendSlot, Sync.AppendSender, AppendArrLen;
    var flex := IsFlexibleRequest(SYNC_GROUP, r.version);
    dst := Sync.AppendSender(dst0, r.sender, r.version, flex);
    ghost var front := dst;
    dst := AppendArrLen(dst, |r.slots|, flex);
    for i := 0 to |r.slots|
      invariant dst == AppendN(Sync.SlotCodec(flex), AppendArrLen(front, |r.slots|, flex), r.slots[..i])
    {
      assert r.slots[..i + 1][..i] == r.slots[..i];
      dst := Sync.AppendSlot(dst, r.slots[i], flex);
    }
    assert r.slots[..|r.slots|] == r.slots;
    dst := AppendTags(dst, flex);
  }

  // ------------------------------------------------------- consumer protocol

  method DecodeTopicPartitions(c: Cursor) returns (res: Res<Proto.TopicPartitions>)
    requires c.Valid()
    modifies c
    ensures c.Valid() && Follows(Proto.ReadTopicPartitions(c.buf, old(c.off)), res, c.off)
  {
    var topic :- c.Str(false);
    var partitions :- c.Int32s(false);
    return Val(Proto.TopicPartitions(topic, partitions));
  }

  method DecodeTopicPartitionLists(c: Cursor) returns (res: Res<seq<Proto.TopicPartitions>>)
    requires c.Valid()
    modifies c
    ensures c.Valid() && Follows(ReadArr(Proto.TopicPartitionsCodec(), c.buf, old(c.off), false), res, c.off)
  {
    hide Proto.ReadTopicPartitions;
    var n :- c.ArrLen(false);
    ghost var start := c.off;
    var xs: seq<Proto.TopicPartitions> := [];
    for i := 0 to n
      invariant c.Valid() && ReadN(Proto.TopicPartitionsCodec(), c.buf, start, i) == Ok(xs, c.off)
    {
      ReadNNext(Proto.TopicPartitionsCodec(), c.buf, start, i, n, xs, c.off);
      var x :- DecodeTopicPartitions(c);
      xs := xs + [x];
    }
    return Val(xs);
  }

  method DecodeStrs(c: Cursor) returns (res: Res<seq<Bytes>>)
    requires c.Valid()
    modifies c
    ensures c.Valid() && Follows(ReadArr(StrCodec(false), c.buf, old(c.off), false), res, c.off)
  {
    hide ReadStr;
    var n :- c.ArrLen(false);
    ghost var start := c.off;
    var xs: seq<Bytes> := [];
    for i := 0 to n
      invariant c.Valid() && ReadN(StrCodec(false), c.buf, start, i) == Ok(xs, c.off)
    {
      ReadNNext(StrCodec(false), c.buf, start, i, n, xs, c.off);
      var x :- c.Str(false);
      xs := xs + [x];
    }
    return Val(xs);
  }

  method DecodeRack(c: Cursor, expected: bool) returns (res: Res<Proto.Rack>)
    requires c.Valid()
    modifies c
    ensures c.Valid() && Follows(Proto.ReadRackIf(c.buf, old(c.off), expected), res, c.off)
  {
    if !expected || c.off == |c.buf| { return Val(None); }
    var rack :- c.OptStr(false);
    return Val(Some(rack));
  }

  method DecodeExtras(c: Cursor, version: int) returns (res: Res<Proto.Extras>)
    requires c.Valid()
    modifies c
    ensures c.Valid() && Follows(Proto.ReadExtras(c.buf, old(c.off), version), res, c.off)
  {
    hide ReadArr, ReadInt32, ReadOptStr;
    var owned: seq<Proto.TopicPartitions> := [];
    if version >= 1 && c.off < |c.buf| { owned :- DecodeTopicPartitionLists(c); }
    var generation: Opt<int> := None;
    if version >= 2 && c.off < |c.buf| {
      var g :- c.Int32();
      generation := Some(g);
    }
    var rack :- DecodeRack(c, version >= 3);
    return Val(Proto.Extras(owned, generation, rack));
  }

  /** Decode a subscription blob; fields that a shorter blob leaves out are absent. */
  method DecodeSubscription(body: Bytes) returns (res: Res<Proto.Subscription>)
    ensures match Proto.ReadSubscription(body, 0)
            case Ok(s, _) => res == Val(s)
            case Bad(e) => res == Err(e)
  {
    hide ReadInt16, ReadArr, ReadOptBytes, Proto.ReadExtras;
    var c := new Cursor(body);
    var version :- c.Int16();
    var topics :- DecodeStrs(c);
    var userData :- c.OptBytes(false);
    var extras :- DecodeExtras(c, version);
    return Val(Proto.Subscription(version, topics, userData, extras));
  }

  /** Decode an assignment blob. */
  method DecodeAssignment(body: Bytes) returns (res: Res<Proto.Assignment>)
    ensures match Proto.ReadAssignment(body, 0)
            case Ok(a, _) => res == Val(a)
            case Bad(e) => res == Err(e)
  {
    hide ReadInt16, ReadArr, ReadOptBytes, Proto.ReadRackIf;
    var c := new Cursor(body);
    var version :- c.Int16();
    var partitions :- DecodeTopicPartitionLists(c);
    var userData :- c.OptBytes(false);
    var rack :- DecodeRack(c, version >= 3);
    return Val(Proto.Assignment(version, partitions, userData, rack));
  }

  /** Encode an assignment blob. */
  method EncodeAssignment(dst0: Bytes, a: Proto.Assignment) returns (dst: Bytes)
    ensures dst == Proto.AppendAssignment(dst0, a)
  {
    hide AppendInt16, AppendStr, AppendArrLen, AppendOptStr, AppendOptBytes;
    dst := AppendInt16(dst0, a.version);
    ghost var front := dst;
    dst := AppendArrLen(dst, |a.partitions|, false);
    for i := 0 to |a.partitions|
      invariant dst == AppendN(Proto.TopicPartitionsCodec(), AppendArrLen(front, |a.partitions|, false),
                a.partitions[..i])
    {
      assert a.partitions[..i + 1][..i] == a.partitions[..i];
      dst := AppendStr(dst, a.partitions[i].topic, false);
      dst := EncodeInt32s(dst, a.partitions[i].partitions, false);
    }
    assert a.partitions[..|a.partitions|] == a.partitions;
    dst := AppendOptBytes(dst, a.userData, false);
    if a.version >= 3 {
      dst := AppendOptStr(dst, if a.rack.Some? then a.rack.value else Some([]), false);
    }
  }

  // ----------------------------------------------------------------- headers

  method DecodeRequestHeader(body: Bytes) returns (res: Res<RequestHeader>, headerSize: nat)
    ensures Follows(ReadRequestHeader(body), res, headerSize) && headerSize <= |body|
  {
    var c := new Cursor(body);
    res := DecodeHeaderFields(c);
    headerSize := c.off;
  }

  method DecodeHeaderFields(c: Cursor) returns (res: Res<RequestHeader>)
    requires c.Valid() && c.off == 0
    modifies c
    ensures c.Valid() && Follows(ReadRequestHeader(c.buf), res, c.off)
  {
    var apiKey :- c.Int16();
    var version :- c.Int16();
    var correlId :- c.Int32();
    var clientId :- c.OptStr(false);
    var tags, _ := c.SkipTagged(IsFlexibleRequest(apiKey, version));
    if tags.Err? { return Err(tags.error); }
    return Val(RequestHeader(apiKey, version, correlId, clientId));
  }

  method DecodeResponseHeader(body: Bytes, apiKey: int, version: int) returns (res: Res<int>, headerSize: nat)
    ensures Follows(ReadResponseHeader(body, apiKey, version), res, headerSize) && headerSize <= |body|
  {
    hide ReadInt32, ReadTags;
    var c := new Cursor(body);
    res := c.Int32();
    headerSize := c.off;
    if res.Err? { return; }
    var tags, _ := c.SkipTagged(IsFlexibleResponse(apiKey, version));
    headerSize := c.off;
    if tags.Err? { res := Err(tags.error); }
  }
}
