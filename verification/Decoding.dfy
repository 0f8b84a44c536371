/** What the decoders make of given bytes: where headers end, what counts as an array, what is
    refused, and some messages byte by byte. */
module Decoding {
  import opened Ordering
  import opened Wire
  import opened ApiKeys
  import opened NodeFields
  import opened Header
  import opened Layout
  import Frames
  import Meta = MetadataMessage
  import Coord = CoordinatorMessage
  import Sync = SyncGroupMessage

  /** A frame is the length of its body as an int32, and the body. */
  lemma FrameLayout(body: Bytes)
    ensures Frames.Framed(body) == I32(|body|) + body
  {
    hide AppendInt32, I32;
    Int32First([], |body|);
    assert [] + I32(|body|) == I32(|body|);
  }

  // -------------------------------------------------------------- primitives

  /** A null array reads as an empty one, and takes its length field only. */
  lemma NullArray<T(!new)>(c: Codec<T>, buf: Bytes, off: nat)
    ensures off + 4 <= |buf| && buf[off] >= 0x80 ==> ReadArr(c, buf, off, false) == Ok([], off + 4)
    ensures off < |buf| && buf[off] == 0 ==> ReadArr(c, buf, off, true) == Ok([], off + 1)
  {
  }

  /** An array that announces more elements than bytes are left is refused. */
  lemma LongArray<T(!new)>(c: Codec<T>, buf: Bytes, off: nat, n: nat)
    ensures ReadInt32(buf, off) == Ok(n, off + 4) && n > |buf| - off - 4 ==>
              ReadArr(c, buf, off, false) == Bad(Truncated)
    ensures ReadUvarint(buf, off).Ok? && ReadUvarint(buf, off).v > |buf| - ReadUvarint(buf, off).off + 1 ==>
              ReadArr(c, buf, off, true) == Bad(Truncated)
  {
  }

  /** Null where a string must be is refused. */
  lemma NullString(buf: Bytes, off: nat)
    ensures off + 2 <= |buf| && buf[off] >= 0x80 ==> ReadStr(buf, off, false) == Bad(Malformed)
    ensures off < |buf| && buf[off] == 0 ==> ReadStr(buf, off, true) == Bad(Malformed)
  {
  }

  /** Any byte but zero is true. */
  lemma FlagReads(buf: Bytes, off: nat)
    requires off < |buf|
    ensures Meta.ReadFlag(buf, off, true) == Ok(buf[off] != 0, off + 1)
  {
  }

  /** A varint has at most five bytes. */
  lemma LongVarint(buf: Bytes, off: nat)
    requires off + 5 <= |buf| && forall i :: off <= i < off + 5 ==> buf[i] >= 0x80
    ensures ReadUvarint(buf, off).Bad?
  {
    assert forall v: nat, o: nat :: UvarintFrom(buf, o, v, 5).Bad?;
    var v1 := Digit(buf[off], 0);
    var v2 := v1 + Digit(buf[off + 1], 1);
    var v3 := v2 + Digit(buf[off + 2], 2);
    var v4 := v3 + Digit(buf[off + 3], 3);
    var v5 := v4 + Digit(buf[off + 4], 4);
    assert UvarintFrom(buf, off + 4, v4, 4) == UvarintFrom(buf, off + 5, v5, 5);
    assert UvarintFrom(buf, off + 3, v3, 3) == UvarintFrom(buf, off + 4, v4, 4);
    assert UvarintFrom(buf, off + 2, v2, 2) == UvarintFrom(buf, off + 3, v3, 3);
    assert UvarintFrom(buf, off + 1, v1, 1) == UvarintFrom(buf, off + 2, v2, 2);
  }

  function Low(b: int, n: int): int
    requires n > 0
  {
    b % n
  }

  /** The value of five bytes: seven bits of each, least significant first, and of the last one
      four; the rest of it is dropped. */
  lemma FiveByteVarint(buf: Bytes, off: nat)
    requires off + 5 <= |buf| && buf[off + 4] < 0x80 && forall i :: off <= i < off + 4 ==> buf[i] >= 0x80
    ensures ReadUvarint(buf, off) ==
              Ok(Low(buf[off], 0x80) + Low(buf[off + 1], 0x80) * 0x80 + Low(buf[off + 2], 0x80) * 0x4000
                 + Low(buf[off + 3], 0x80) * 0x20_0000 + Low(buf[off + 4], 0x10) * 0x1000_0000, off + 5)
  {
    hide Digit;
    DigitIs(buf[off], 0);
    DigitIs(buf[off + 1], 1);
    DigitIs(buf[off + 2], 2);
    DigitIs(buf[off + 3], 3);
    DigitIs(buf[off + 4], 4);
    var v1 := Digit(buf[off], 0);
    var v2 := v1 + Digit(buf[off + 1], 1);
    var v3 := v2 + Digit(buf[off + 2], 2);
    var v4 := v3 + Digit(buf[off + 3], 3);
    var v5 := v4 + Digit(buf[off + 4], 4);
    assert UvarintFrom(buf, off + 4, v4, 4) == Ok(v5, off + 5);
    assert UvarintFrom(buf, off + 3, v3, 3) == UvarintFrom(buf, off + 4, v4, 4);
    assert UvarintFrom(buf, off + 2, v2, 2) == UvarintFrom(buf, off + 3, v3, 3);
    assert UvarintFrom(buf, off + 1, v1, 1) == UvarintFrom(buf, off + 2, v2, 2);
  }

  /** A tagged field is a tag, a size and that many bytes, all skipped. */
  lemma TagSkipped(dst: Bytes, tag: nat, data: Bytes, buf: Bytes)
    requires tag < 0x1_0000_0000 && |data| < 0x1_0000_0000
    requires dst + Varint(tag) + Varint(|data|) + data <= buf
    ensures SkipTag(buf, |dst|) == Ok((), |dst + Varint(tag) + Varint(|data|) + data|)
  {
    hide AppendUvarint, Varint, ReadUvarint;
    var d0 := dst + Varint(tag);
    var d1 := d0 + Varint(|data|);
    VarintReads(dst, tag, buf);
    VarintReads(d0, |data|, buf);
  }

  lemma VarintReads(dst: Bytes, v: nat, buf: Bytes)
    requires v < 0x1_0000_0000 && dst + Varint(v) <= buf
    ensures ReadUvarint(buf, |dst|) == Ok(v, |dst + Varint(v)|)
  {
    hide AppendUvarint, Varint, ReadUvarint;
    assert dst + [] == dst && [] + Varint(v) == Varint(v);
    UvarintAfter(dst, [], v);
    UvarintTrip(dst, v, buf);
  }

  // ----------------------------------------------------------------- headers

  /** Where the client id ends: behind ten bytes and its own, if it is not null. */
  function ClientIdEnd(h: RequestHeader): nat
  {
    10 + if h.clientId.Some? then |h.clientId.value| else 0
  }

  ghost predicate EndsAt(body: Bytes, end: nat, k: nat, tagged: bool)
  {
    if !tagged then k == end else end < k <= |body| && (end < |body| && body[end] == 0 ==> k == end + 1)
  }

  /** Which bytes are the request header: for the APIs that the proxy parses, at every
      version, the byte behind the client id belongs to it exactly in the versions named. */
  lemma RequestHeaderEnds(body: Bytes)
    requires ReadRequestHeader(body).Ok?
    ensures var h, k := ReadRequestHeader(body).v, ReadRequestHeader(body).off;
            && (h.apiKey == 3 ==> EndsAt(body, ClientIdEnd(h), k, h.version >= 9))
            && (h.apiKey == 10 ==> EndsAt(body, ClientIdEnd(h), k, h.version >= 3))
            && (h.apiKey == 11 ==> EndsAt(body, ClientIdEnd(h), k, h.version >= 6))
            && (h.apiKey == 14 ==> EndsAt(body, ClientIdEnd(h), k, h.version >= 4))
            && ReadInt16(body, 0) == Ok(h.apiKey, 2) && ReadInt16(body, 2) == Ok(h.version, 4)
            && ReadInt32(body, 4) == Ok(h.correlId, 8)
  {
    hide ReadInt16, ReadInt32, IsFlexibleRequest, ReadTags;
    var h := ReadRequestHeader(body).v;
    FlexibleRequests(h.version);
    ClientIdReads(body);
    TagsEnd(body, ClientIdEnd(h), IsFlexibleRequest(h.apiKey, h.version));
  }

  lemma ClientIdReads(body: Bytes)
    ensures var id := ReadOptStr(body, 8, false);
            id.Ok? ==> id.off == 10 + (if id.v.Some? then |id.v.value| else 0) <= |body|
  {
  }

  lemma TagsEnd(buf: Bytes, off: nat, flex: bool)
    requires ReadTags(buf, off, flex).Ok? && off <= |buf|
    ensures EndsAt(buf, off, ReadTags(buf, off, flex).off, flex)
  {
    if flex && off < |buf| && buf[off] == 0 { ZeroReads(buf, off); }
  }

  lemma ZeroReads(buf: Bytes, off: nat)
    requires off < |buf| && buf[off] == 0
    ensures ReadUvarint(buf, off) == Ok(0, off + 1)
  {
  }

  /** The same for response headers, which have the correlation id only; those of ApiVersions
      end behind it in every version. */
  lemma ResponseHeaderEnds(body: Bytes, version: int)
    ensures forall key :: key in {3, 10, 11, 14, 18} && ReadResponseHeader(body, key, version).Ok? ==>
              var tagged := match key
                case 3 => version >= 9
                case 10 => version >= 3
                case 11 => version >= 6
                case 14 => version >= 4
                case _ => false;
              EndsAt(body, 4, ReadResponseHeader(body, key, version).off, tagged)
  {
    hide ReadInt32, IsFlexibleRequest, IsFlexibleResponse, ReadTags;
    FlexibleRequests(version);
    forall key | key in {3, 10, 11, 14, 18} && ReadResponseHeader(body, key, version).Ok?
      ensures EndsAt(body, 4, ReadResponseHeader(body, key, version).off, IsFlexibleResponse(key, version))
      ensures key != 18 ==> (IsFlexibleResponse(key, version) <==> IsFlexibleRequest(key, version))
      ensures key == 18 ==> !IsFlexibleResponse(key, version)
    {
      FlexibleResponses(key, version);
      TagsEnd(body, 4, IsFlexibleResponse(key, version));
    }
  }

  // ----------------------------------------------------------- first arrays

  /** What a length field says: an int32, negative for null, or one more as a varint. */
  ghost predicate Announces(buf: Bytes, off: nat, flex: bool, n: nat)
  {
    var count := if flex then ReadUvarint(buf, off) else ReadInt32(buf, off);
    count.Ok? && n == if flex then (if count.v == 0 then 0 else count.v - 1) else if count.v < 0 then 0 else count.v
  }

  lemma ArrayAnnounced<T(!new)>(c: Codec<T>, buf: Bytes, off: nat, flex: bool)
    requires Lawful(c) && ReadArr(c, buf, off, flex).Ok?
    ensures Announces(buf, off, flex, |ReadArr(c, buf, off, flex).v|)
  {
    var len := ReadArrLen(buf, off, flex);
    ReadNReads(c, buf, len.off, len.v);
  }

  /** The number of brokers of a Metadata response stands behind the throttle time of version
      3, in four bytes before version 9 and as a varint from then on. */
  lemma BrokersAnnounced(body: Bytes, version: int)
    requires Meta.ReadMetadata(body, 0, version).Ok?
    ensures var brokers := Meta.ReadMetadata(body, 0, version).v.brokers;
            Announces(body, if version >= 3 then 4 else 0, version >= 9, |brokers|)
  {
    hide IsFlexibleRequest, IsFlexibleResponse, ReadArr, Announces, Meta.BrokerCodec, Meta.ReadTail, Meta.ReadCluster;
    FlexibleRequests(version);
    FlexibleResponses(METADATA, version);
    Meta.BrokerLawful(version, version >= 9);
    ArrayAnnounced(Meta.BrokerCodec(version, version >= 9), body, if version >= 3 then 4 else 0, version >= 9);
  }

  /** From version 4 a FindCoordinator response has its coordinators behind the throttle time,
      counted by a varint. */
  lemma CoordinatorsAnnounced(body: Bytes, version: int)
    requires version >= 4 && Coord.ReadCoordinator(body, 0, version).Ok?
    ensures Announces(body, 4, true, |Coord.ReadCoordinator(body, 0, version).v.coordinators|)
  {
    hide IsFlexibleRequest, IsFlexibleResponse, ReadArr, Announces, Coord.EntryCodec;
    FlexibleRequests(version);
    FlexibleResponses(FIND_COORDINATOR, version);
    Coord.EntryLawful(true);
    ArrayAnnounced(Coord.EntryCodec(true), body, 4, true);
  }

  /** The group of a SyncGroup request is counted by an int16 before version 4 and by a varint
      from then on. */
  lemma GroupFirst(body: Bytes, version: int)
    requires Sync.ReadSyncGroup(body, 0, version).Ok?
    ensures ReadStr(body, 0, version >= 4).Ok?
    ensures ReadStr(body, 0, version >= 4).v == Sync.ReadSyncGroup(body, 0, version).v.sender.group
  {
    hide IsFlexibleRequest, ReadArr, ReadStr;
    FlexibleRequests(version);
  }

  // ---------------------------------------------------------------- examples

  lemma HeaderBytes(v: Byte, tagged: bool)
    requires v < 0x80
    ensures RequestHeaderBytes(RequestHeader(3, v, 1, None), tagged) ==
              [0, 3, 0, v, 0, 0, 0, 1, 255, 255] + if tagged then [0] else []
  {
    assert I16(3) == [0, 3] && I16(v) == [0, v] && I32(1) == [0, 0, 0, 1];
  }

  /** A version 12 request header without client id has eleven bytes, the last of which says
      that there are no tagged fields; in version 8 that byte is payload. */
  lemma HeaderExample()
    ensures ReadRequestHeader([0, 3, 0, 12, 0, 0, 0, 1, 255, 255, 0]) == Ok(RequestHeader(3, 12, 1, None), 11)
    ensures ReadRequestHeader([0, 3, 0, 8, 0, 0, 0, 1, 255, 255, 0]) == Ok(RequestHeader(3, 8, 1, None), 10)
  {
    hide ReadRequestHeader, AppendRequestHeader, RequestHeaderBytes, IsFlexibleRequest;
    FlexibleRequests(12);
    FlexibleRequests(8);
    HeaderBytes(12, true);
    HeaderBytes(8, false);
    RequestHeaderLayout(RequestHeader(3, 12, 1, None));
    RequestHeaderLayout(RequestHeader(3, 8, 1, None));
    var flexible: Bytes := [0, 3, 0, 12, 0, 0, 0, 1, 255, 255, 0];
    var plain: Bytes := [0, 3, 0, 8, 0, 0, 0, 1, 255, 255];
    assert flexible == [0, 3, 0, 12, 0, 0, 0, 1, 255, 255] + [0];
    assert plain == [0, 3, 0, 8, 0, 0, 0, 1, 255, 255] + [];
    assert plain + [0] == [0, 3, 0, 8, 0, 0, 0, 1, 255, 255, 0];
    RequestHeaderTrip(RequestHeader(3, 12, 1, None), flexible);
    RequestHeaderTrip(RequestHeader(3, 8, 1, None), plain + [0]);
  }

  /** A version 12 response without brokers and topics: no throttling, null cluster id,
      controller 1. */
  lemma EmptyMetadataExample()
    ensures Meta.ReadMetadata([0, 0, 0, 0, 1, 0, 0, 0, 0, 1, 1, 0], 0, 12) ==
              Ok(Meta.MetadataResponse(12, 0, [], Meta.Cluster(None, 1), [], 0), 12)
  {
    hide Meta.ReadMetadata, Meta.AppendMetadata, MetadataBytes, Meta.FitsMetadata;
    EmptyFits();
    EmptyBytes();
    MetadataLayout([], EMPTY_RESPONSE);
    assert [] + EMPTY == EMPTY;
    Meta.MetadataTrip([], EMPTY_RESPONSE, EMPTY);
  }

  const EMPTY: Bytes := [0, 0, 0, 0, 1, 0, 0, 0, 0, 1, 1, 0]

  const EMPTY_RESPONSE := Meta.MetadataResponse(12, 0, [], Meta.Cluster(None, 1), [], 0)

  lemma EmptyFits()
    ensures Meta.FitsMetadata(EMPTY_RESPONSE)
  {
  }

  lemma EmptyBytes()
    ensures MetadataBytes(EMPTY_RESPONSE) == EMPTY
  {
    hide Array, I32;
    EmptyArrays();
    assert I32(0) == [0, 0, 0, 0] && I32(1) == [0, 0, 0, 1] by { ZeroAndOne(); }
    assert EMPTY == [0, 0, 0, 0] + [1] + [0] + [0, 0, 0, 1] + [1] + [] + [0];
  }

  lemma ZeroAndOne()
    ensures I32(0) == [0, 0, 0, 0] && I32(1) == [0, 0, 0, 1]
  {
  }

  lemma EmptyArrays()
    ensures Array([], BrokerEncoder(12, true), true) == [1] && Array([], TopicEncoder(12, true), true) == [1]
  {
  }

  /** A version 1 response byte by byte: broker 1 at b:9092 without rack, controller 1, topic t
      with partition 7, which broker 1 leads and replicates. */
  const BROKER_1: Bytes := [0, 0, 0, 1, 0, 1, 98, 0, 0, 35, 132, 255, 255]  // node id, host, port, no rack

  const PARTITION_7: Bytes := [
    0, 0, 0, 0, 0, 7, 0, 0, 0, 1, // no error, index, leader
    0, 0, 0, 1, 0, 0, 0, 1,       // replicas
    0, 0, 0, 0]                   // no replica in sync

  const TOPIC_T: Bytes := [0, 0, 0, 1, 116, 0] + [0, 0, 0, 1] + PARTITION_7  // no error, name, not internal, partitions

  const SMALL: Bytes := [0, 0, 0, 1] + BROKER_1 + [0, 0, 0, 1] + [0, 0, 0, 1] + TOPIC_T  // brokers, controller, topics

  const SMALL_BROKER := Meta.Broker(Node(1, [98], 9092), None)
  const SMALL_PARTITION := Meta.Partition(0, 7, 1, -1, [1], [], [])
  const SMALL_TOPIC := Meta.Topic(0, Some([116]), Meta.NO_TOPIC_ID, false, [SMALL_PARTITION], 0)
  const SMALL_RESPONSE := Meta.MetadataResponse(1, 0, [SMALL_BROKER], Meta.Cluster(Some([]), 1), [SMALL_TOPIC], 0)

  lemma One<T>(x: T, encode: T -> Bytes)
    ensures Array([x], encode, false) == [0, 0, 0, 1] + encode(x)
  {
    var none: seq<T> := [];
    assert [x][..0] == none;
    assert All([x], encode) == All(none, encode) + encode(x) == encode(x);
    assert Count(1, false) == [0, 0, 0, 1];
  }

  lemma NoInts()
    ensures Ints([], false) == [0, 0, 0, 0]
  {
  }

  lemma SmallNumbers()
    ensures I16(0) == [0, 0] && I32(1) == [0, 0, 0, 1] && I32(7) == [0, 0, 0, 7] && I32(9092) == [0, 0, 35, 132]
    ensures Text([98], false) == [0, 1, 98] && Text([116], false) == [0, 1, 116]
  {
  }

  lemma SmallPartition()
    ensures PartitionBytes(SMALL_PARTITION, 1, false) == PARTITION_7
  {
    hide Array, I16, I32;
    SmallNumbers();
    One(1, INT32);
    NoInts();
    assert Ints([1], false) == [0, 0, 0, 1, 0, 0, 0, 1];
  }

  lemma SmallBroker()
    ensures BrokerBytes(SMALL_BROKER, 1, false) == BROKER_1
  {
    hide I16, I32, Text;
    SmallNumbers();
  }

  lemma SmallTopic()
    ensures TopicBytes(SMALL_TOPIC, 1, false) == TOPIC_T
  {
    hide Array, PartitionBytes, I16, I32, Text;
    SmallNumbers();
    One(SMALL_PARTITION, PartitionEncoder(1, false));
    SmallPartition();
    var head: Bytes := [0, 0, 0, 1, 116, 0];
    assert [0, 0] + [0, 1, 116] + [] + [0] == head;
    Glue(head, [0, 0, 0, 1], PARTITION_7);
    assert TOPIC_T + [] + [] == TOPIC_T;
  }

  lemma SmallExample()
    ensures Meta.ReadMetadata(SMALL, 0, 1) == Ok(SMALL_RESPONSE, |SMALL|)
  {
    hide Meta.ReadMetadata, Meta.AppendMetadata, Meta.FitsMetadata, MetadataBytes;
    SmallFits();
    MetadataLayout([], SMALL_RESPONSE);
    SmallBytes();
    assert [] + SMALL == SMALL;
    Meta.MetadataTrip([], SMALL_RESPONSE, SMALL);
  }

  lemma SmallBytes()
    ensures MetadataBytes(SMALL_RESPONSE) == SMALL
  {
    hide Array, BrokerBytes, TopicBytes, I32;
    SmallNumbers();
    One(SMALL_BROKER, BrokerEncoder(1, false));
    One(SMALL_TOPIC, TopicEncoder(1, false));
    SmallBroker();
    SmallTopic();
    var one: Bytes := [0, 0, 0, 1];
    var l1 := one + BROKER_1;
    assert [] + l1 + [] == l1;
    Glue(l1 + one, one, TOPIC_T);
    assert SMALL + [] + [] == SMALL;
  }

  lemma SmallFits()
    ensures Meta.FitsMetadata(SMALL_RESPONSE)
  {
  }
}
