/** The bytes on the wire. The readers and appenders of the message modules are proved to be
    inverses elsewhere; here the encodings are written out as plain concatenations of their
    fields, with byte order, field order, versions and the choice of encoding spelled out. */
module Layout {
  import opened Ordering
  import opened Wire
  import opened ApiKeys
  import opened NodeFields
  import opened Header
  import Meta = MetadataMessage
  import Coord = CoordinatorMessage
  import Sync = SyncGroupMessage
  import Proto = ConsumerProtocol

  // -------------------------------------------------------------- primitives

  /** Two's complement, most significant byte first. */
  function I16(v: int): Bytes
  {
    var u := v % 0x1_0000;
    [u / 0x100, u % 0x100]
  }

  function I32(v: int): Bytes
  {
    var u := v % 0x1_0000_0000;
    [u / 0x100_0000, u / 0x1_0000 % 0x100, u / 0x100 % 0x100, u % 0x100]
  }

  /** Seven bits to a byte, least significant first; the high bit says that more follow. */
  function Varint(v: nat): Bytes
  {
    if v < 0x80 then [v] else [v % 0x80 + 0x80] + Varint(v / 0x80)
  }

  /** The length of a string: an int16, or one more as a varint; then its bytes. */
  function Text(s: Bytes, flex: bool): Bytes
  {
    (if flex then Varint(|s| + 1) else I16(|s|)) + s
  }

  /** Null is the length -1, or the varint 0. */
  function OptText(s: Opt<Bytes>, flex: bool): Bytes
  {
    if s.Some? then Text(s.value, flex) else if flex then [0] else [0xFF, 0xFF]
  }

  function OptBlob(b: Opt<Bytes>, flex: bool): Bytes
  {
    if b.None? then (if flex then [0] else [0xFF, 0xFF, 0xFF, 0xFF])
    else (if flex then Varint(|b.value| + 1) else I32(|b.value|)) + b.value
  }

  function Count(n: nat, flex: bool): Bytes
  {
    if flex then Varint(n + 1) else I32(n)
  }

  /** A field that only some versions have. */
  function If(present: bool, field: Bytes): Bytes
  {
    if present then field else []
  }

  /** No tagged fields: a zero in flexible messages, nothing in others. */
  function NoTags(flex: bool): Bytes
  {
    If(flex, [0])
  }

  function All<T>(xs: seq<T>, encode: T -> Bytes): Bytes
  {
    if xs == [] then [] else All(xs[..|xs| - 1], encode) + encode(xs[|xs| - 1])
  }

  function Array<T>(xs: seq<T>, encode: T -> Bytes, flex: bool): Bytes
  {
    Count(|xs|, flex) + All(xs, encode)
  }

  const INT32: int -> Bytes := v => I32(v)

  function Ints(xs: seq<int>, flex: bool): Bytes
  {
    Array(xs, INT32, flex)
  }

  lemma Glue(a: Bytes, b: Bytes, c: Bytes)
    ensures a + b + c == a + (b + c)
  {
  }

  // Each of the following says what an appender adds behind `dst + l`.

  lemma Int16After(dst: Bytes, l: Bytes, v: int)
    ensures AppendInt16(dst + l, v) == dst + (l + I16(v))
  {
    assert AppendInt16(dst + l, v) == dst + l + I16(v);
    Glue(dst, l, I16(v));
  }

  lemma Int32After(dst: Bytes, l: Bytes, v: int)
    ensures AppendInt32(dst + l, v) == dst + (l + I32(v))
  {
    var u := v % 0x1_0000_0000;
    HighLow(u);
    assert Bytes16(u / 0x1_0000) + Bytes16(u % 0x1_0000) == I32(v);
    Glue(dst + l, Bytes16(u / 0x1_0000), Bytes16(u % 0x1_0000));
    Glue(dst, l, I32(v));
  }

  lemma HighLow(u: nat)
    requires u < 0x1_0000_0000
    ensures u / 0x1_0000 < 0x1_0000 && u / 0x1_0000 / 0x100 == u / 0x100_0000
    ensures u % 0x1_0000 / 0x100 == u / 0x100 % 0x100 && u % 0x1_0000 % 0x100 == u % 0x100
  {
    var h, l := u / 0x1_0000, u % 0x1_0000;
    assert u == h * 0x1_0000 + l;
    assert u / 0x100 == h * 0x100 + l / 0x100;
  }

  lemma {:induction false} UvarintAfter(dst: Bytes, l: Bytes, v: nat)
    ensures AppendUvarint(dst + l, v) == dst + (l + Varint(v))
    decreases v
  {
    if v < 0x80 {
      Glue(dst, l, [v]);
    } else {
      var b: Bytes := [v % 0x80 + 0x80];
      Glue(dst, l, b);
      UvarintAfter(dst, l + b, v / 0x80);
      Glue(l, b, Varint(v / 0x80));
    }
  }

  lemma StrAfter(dst: Bytes, l: Bytes, s: Bytes, flex: bool)
    requires FitsStr(s, flex)
    ensures AppendStr(dst + l, s, flex) == dst + (l + Text(s, flex))
  {
    hide AppendInt16, AppendUvarint, I16, Varint;
    var head := if flex then Varint(|s| + 1) else I16(|s|);
    if flex { UvarintAfter(dst, l, |s| + 1); } else { Int16After(dst, l, |s|); }
    Glue(dst, l + head, s);
    Glue(l, head, s);
  }

  lemma OptStrAfter(dst: Bytes, l: Bytes, s: Opt<Bytes>, flex: bool)
    requires FitsOptStr(s, flex)
    ensures AppendOptStr(dst + l, s, flex) == dst + (l + OptText(s, flex))
  {
    if s.Some? {
      StrAfter(dst, l, s.value, flex);
    } else if flex {
      UvarintAfter(dst, l, 0);
    } else {
      Int16After(dst, l, -1);
    }
  }

  lemma OptBytesAfter(dst: Bytes, l: Bytes, b: Opt<Bytes>, flex: bool)
    requires FitsOptBytes(b, flex)
    ensures AppendOptBytes(dst + l, b, flex) == dst + (l + OptBlob(b, flex))
  {
    hide AppendInt32, AppendUvarint, Varint, AppendStr;
    if flex {
      if b.Some? { StrAfter(dst, l, b.value, true); } else { UvarintAfter(dst, l, 0); ZeroVarint(); }
    } else if b.None? {
      Int32After(dst, l, -1);
    } else {
      Int32After(dst, l, |b.value|);
      Glue(dst, l + I32(|b.value|), b.value);
      Glue(l, I32(|b.value|), b.value);
    }
  }

  lemma ZeroVarint()
    ensures Varint(0) == [0]
  {
  }

  lemma CountAfter(dst: Bytes, l: Bytes, n: nat, flex: bool)
    requires FitsLen(n, flex)
    ensures AppendArrLen(dst + l, n, flex) == dst + (l + Count(n, flex))
  {
    if flex { UvarintAfter(dst, l, n + 1); } else { Int32After(dst, l, n); }
  }

  lemma TagsAfter(dst: Bytes, l: Bytes, flex: bool)
    ensures AppendTags(dst + l, flex) == dst + (l + NoTags(flex))
  {
    if flex { Glue(dst, l, [0]); } else { assert l + [] == l; }
  }

  lemma Int32IfAfter(dst: Bytes, l: Bytes, v: int, present: bool)
    ensures AppendInt32If(dst + l, v, present) == dst + (l + If(present, I32(v)))
  {
    if present { Int32After(dst, l, v); } else { assert l + [] == l; }
  }

  lemma OptStrIfAfter(dst: Bytes, l: Bytes, s: Opt<Bytes>, present: bool, flex: bool)
    requires FitsOptStrIf(s, present, flex)
    ensures AppendOptStrIf(dst + l, s, present, flex) == dst + (l + If(present, OptText(s, flex)))
  {
    if present { OptStrAfter(dst, l, s, flex); } else { assert l + [] == l; }
  }

  /** The elements of a codec are encoded by `encode`. */
  ghost predicate Encodes<T(!new)>(c: Codec<T>, encode: T -> Bytes, dst: Bytes, l: Bytes, x: T)
  {
    c.fits(x) ==> c.append(dst + l, x) == dst + (l + encode(x))
  }

  lemma {:induction false} AllAfter<T(!new)>(c: Codec<T>, encode: T -> Bytes, dst: Bytes, l: Bytes, xs: seq<T>)
    requires (forall x :: x in xs ==> c.fits(x)) && forall d, k, x :: Encodes(c, encode, d, k, x)
    ensures AppendN(c, dst + l, xs) == dst + (l + All(xs, encode))
  {
    if xs == [] {
      assert l + [] == l;
    } else {
      var n := |xs| - 1;
      AllAfter(c, encode, dst, l, xs[..n]);
      assert Encodes(c, encode, dst, l + All(xs[..n], encode), xs[n]);
      Glue(l, All(xs[..n], encode), encode(xs[n]));
    }
  }

  lemma ArrayAfter<T(!new)>(c: Codec<T>, encode: T -> Bytes, dst: Bytes, l: Bytes, xs: seq<T>, flex: bool)
    requires FitsArr(c, xs, flex) && forall d, k, x :: Encodes(c, encode, d, k, x)
    ensures AppendArr(c, dst + l, xs, flex) == dst + (l + Array(xs, encode, flex))
  {
    hide AppendArrLen, Count;
    CountAfter(dst, l, |xs|, flex);
    AllAfter(c, encode, dst, l + Count(|xs|, flex), xs);
    Glue(l, Count(|xs|, flex), All(xs, encode));
  }

  lemma IntsAfter(dst: Bytes, l: Bytes, xs: seq<int>, flex: bool)
    requires FitsArr(Int32Codec(), xs, flex)
    ensures AppendArr(Int32Codec(), dst + l, xs, flex) == dst + (l + Ints(xs, flex))
  {
    hide AppendInt32, I32;
    forall d, k, x ensures Encodes(Int32Codec(), INT32, d, k, x) { Int32After(d, k, x); }
    ArrayAfter(Int32Codec(), INT32, dst, l, xs, flex);
  }

  // The same for the first field of a message.

  lemma Int16First(dst: Bytes, v: int)
    ensures AppendInt16(dst, v) == dst + I16(v)
  {
    hide AppendInt16, I16;
    assert dst + [] == dst && [] + I16(v) == I16(v);
    Int16After(dst, [], v);
  }

  lemma Int32First(dst: Bytes, v: int)
    ensures AppendInt32(dst, v) == dst + I32(v)
  {
    hide AppendInt32, I32;
    assert dst + [] == dst && [] + I32(v) == I32(v);
    Int32After(dst, [], v);
  }

  lemma Int32IfFirst(dst: Bytes, v: int, present: bool)
    ensures AppendInt32If(dst, v, present) == dst + If(present, I32(v))
  {
    if present { Int32First(dst, v); } else { assert dst + [] == dst; }
  }

  lemma StrFirst(dst: Bytes, s: Bytes, flex: bool)
    requires FitsStr(s, flex)
    ensures AppendStr(dst, s, flex) == dst + Text(s, flex)
  {
    hide AppendStr, Text;
    assert dst + [] == dst && [] + Text(s, flex) == Text(s, flex);
    StrAfter(dst, [], s, flex);
  }

  // -------------------------------------------------- which versions are flexible

  /** The first version of each API whose requests are flexible. */
  lemma FlexibleRequests(version: int)
    ensures IsFlexibleRequest(METADATA, version) <==> version >= 9
    ensures IsFlexibleRequest(FIND_COORDINATOR, version) <==> version >= 3
    ensures IsFlexibleRequest(JOIN_GROUP, version) <==> version >= 6
    ensures IsFlexibleRequest(SYNC_GROUP, version) <==> version >= 4
    ensures METADATA == 3 && FIND_COORDINATOR == 10 && JOIN_GROUP == 11 && SYNC_GROUP == 14
    ensures (IsFlexibleRequest(0, version) <==> version >= 9) && (IsFlexibleRequest(1, version) <==> version >= 12)
    ensures (IsFlexibleRequest(2, version) <==> version >= 6) && (IsFlexibleRequest(8, version) <==> version >= 8)
    ensures (IsFlexibleRequest(9, version) <==> version >= 6) && (IsFlexibleRequest(12, version) <==> version >= 4)
    ensures (IsFlexibleRequest(13, version) <==> version >= 4) && (IsFlexibleRequest(15, version) <==> version >= 5)
    ensures (IsFlexibleRequest(16, version) <==> version >= 3) && !IsFlexibleRequest(17, version)
    ensures (IsFlexibleRequest(18, version) <==> version >= 3) && (IsFlexibleRequest(36, version) <==> version >= 2)
  {
  }

  /** Responses are flexible when the request is, but for ApiVersions (18), whose responses
      never are; APIs that are not listed have no flexible versions. */
  lemma FlexibleResponses(apiKey: int, version: int)
    ensures !IsFlexibleResponse(18, version)
    ensures apiKey != 18 ==> (IsFlexibleResponse(apiKey, version) <==> IsFlexibleRequest(apiKey, version))
    ensures apiKey !in {0, 1, 2, 3, 8, 9, 10, 11, 12, 13, 14, 15, 16, 17, 18, 36} ==>
              !IsFlexibleRequest(apiKey, version)
  {
  }

  // ----------------------------------------------------------------- headers

  function RequestHeaderBytes(h: RequestHeader, tagged: bool): Bytes
  {
    I16(h.apiKey) + I16(h.version) + I32(h.correlId) + OptText(h.clientId, false) + NoTags(tagged)
  }

  lemma RequestHeaderLayout(h: RequestHeader)
    requires FitsRequestHeader(h)
    ensures AppendRequestHeader([], h) == RequestHeaderBytes(h, IsFlexibleRequest(h.apiKey, h.version))
  {
    hide AppendInt16, AppendInt32, AppendOptStr, AppendTags, I16, I32, OptText, NoTags, IsFlexibleRequest;
    var l1 := I16(h.apiKey);
    var l2 := l1 + I16(h.version);
    var l3 := l2 + I32(h.correlId);
    var l4 := l3 + OptText(h.clientId, false);
    Int16First([], h.apiKey);
    Int16After([], l1, h.version);
    Int32After([], l2, h.correlId);
    OptStrAfter([], l3, h.clientId, false);
    TagsAfter([], l4, IsFlexibleRequest(h.apiKey, h.version));
    assert forall l: Bytes :: [] + l == l;
  }

  lemma ResponseHeaderLayout(apiKey: int, version: int, correlId: int)
    ensures AppendResponseHeader([], apiKey, version, correlId) ==
              I32(correlId) + NoTags(IsFlexibleResponse(apiKey, version))
  {
    hide AppendInt32, AppendTags, I32, NoTags, IsFlexibleResponse;
    Int32First([], correlId);
    TagsAfter([], I32(correlId), IsFlexibleResponse(apiKey, version));
    assert forall l: Bytes :: [] + l == l;
  }

  // ---------------------------------------------------------------- metadata

  function NodeBytes(n: Node, flex: bool): Bytes
  {
    I32(n.id) + Text(n.host, flex) + I32(n.port)
  }

  lemma NodeLayout(dst: Bytes, n: Node, flex: bool)
    requires FitsNode(n, flex)
    ensures AppendNode(dst, n, flex) == dst + NodeBytes(n, flex)
  {
    hide AppendInt32, AppendStr, I32, Text;
    Int32First(dst, n.id);
    StrAfter(dst, I32(n.id), n.host, flex);
    Int32After(dst, I32(n.id) + Text(n.host, flex), n.port);
  }

  lemma NodeAfter(dst: Bytes, l: Bytes, n: Node, flex: bool)
    requires FitsNode(n, flex)
    ensures AppendNode(dst + l, n, flex) == dst + (l + NodeBytes(n, flex))
  {
    hide AppendNode, NodeBytes;
    NodeLayout(dst + l, n, flex);
    Glue(dst, l, NodeBytes(n, flex));
  }

  function BrokerBytes(b: Meta.Broker, version: int, flex: bool): Bytes
  {
    NodeBytes(b.node, flex) + If(version >= 1, OptText(b.rack, flex)) + NoTags(flex)
  }

  lemma BrokerLayout(dst: Bytes, b: Meta.Broker, version: int, flex: bool)
    requires Meta.FitsBroker(b, version, flex)
    ensures Meta.AppendBroker(dst, b, version, flex) == dst + BrokerBytes(b, version, flex)
  {
    hide AppendNode, AppendOptStrIf, AppendTags, NodeBytes, If, OptText, NoTags;
    var l1 := NodeBytes(b.node, flex);
    NodeLayout(dst, b.node, flex);
    OptStrIfAfter(dst, l1, b.rack, version >= 1, flex);
    TagsAfter(dst, l1 + If(version >= 1, OptText(b.rack, flex)), flex);
  }

  function BrokerEncoder(version: int, flex: bool): Meta.Broker -> Bytes
  {
    b => BrokerBytes(b, version, flex)
  }

  lemma BrokersAfter(dst: Bytes, l: Bytes, xs: seq<Meta.Broker>, version: int, flex: bool)
    requires FitsArr(Meta.BrokerCodec(version, flex), xs, flex)
    ensures AppendArr(Meta.BrokerCodec(version, flex), dst + l, xs, flex) ==
              dst + (l + Array(xs, BrokerEncoder(version, flex), flex))
  {
    hide Meta.AppendBroker, BrokerBytes, Meta.FitsBroker, AppendArr, Array;
    var c, encode := Meta.BrokerCodec(version, flex), BrokerEncoder(version, flex);
    forall d, k, x ensures Encodes(c, encode, d, k, x) {
      if c.fits(x) {
        BrokerLayout(d + k, x, version, flex);
        Glue(d, k, BrokerBytes(x, version, flex));
      }
    }
    ArrayAfter(c, encode, dst, l, xs, flex);
  }

  function PartitionBytes(p: Meta.Partition, version: int, flex: bool): Bytes
  {
    I16(p.error) + I32(p.index) + I32(p.leader) + If(version >= 7, I32(p.leaderEpoch))
    + Ints(p.replicas, flex) + Ints(p.isr, flex) + If(version >= 5, Ints(p.offline, flex)) + NoTags(flex)
  }

  lemma OfflineAfter(dst: Bytes, l: Bytes, xs: seq<int>, present: bool, flex: bool)
    requires Meta.FitsOffline(xs, present, flex)
    ensures Meta.AppendOffline(dst + l, xs, present, flex) == dst + (l + If(present, Ints(xs, flex)))
  {
    if present { IntsAfter(dst, l, xs, flex); } else { assert l + [] == l; }
  }

  lemma PartitionLayout(dst: Bytes, p: Meta.Partition, version: int, flex: bool)
    requires Meta.FitsPartition(p, version, flex)
    ensures Meta.AppendPartition(dst, p, version, flex) == dst + PartitionBytes(p, version, flex)
  {
    hide AppendInt16, AppendInt32, AppendInt32If, AppendArr, Meta.AppendOffline, AppendTags, I16, I32, If, Ints, NoTags;
    var l1 := I16(p.error);
    var l2 := l1 + I32(p.index);
    var l3 := l2 + I32(p.leader);
    var l4 := l3 + If(version >= 7, I32(p.leaderEpoch));
    var l5 := l4 + Ints(p.replicas, flex);
    var l6 := l5 + Ints(p.isr, flex);
    var l7 := l6 + If(version >= 5, Ints(p.offline, flex));
    Int16First(dst, p.error);
    Int32After(dst, l1, p.index);
    Int32After(dst, l2, p.leader);
    Int32IfAfter(dst, l3, p.leaderEpoch, version >= 7);
    IntsAfter(dst, l4, p.replicas, flex);
    IntsAfter(dst, l5, p.isr, flex);
    OfflineAfter(dst, l6, p.offline, version >= 5, flex);
    TagsAfter(dst, l7, flex);
  }

  function PartitionEncoder(version: int, flex: bool): Meta.Partition -> Bytes
  {
    p => PartitionBytes(p, version, flex)
  }

  lemma PartitionsAfter(dst: Bytes, l: Bytes, xs: seq<Meta.Partition>, version: int, flex: bool)
    requires FitsArr(Meta.PartitionCodec(version, flex), xs, flex)
    ensures AppendArr(Meta.PartitionCodec(version, flex), dst + l, xs, flex) ==
              dst + (l + Array(xs, PartitionEncoder(version, flex), flex))
  {
    hide Meta.AppendPartition, PartitionBytes, Meta.FitsPartition, AppendArr, Array;
    var c, encode := Meta.PartitionCodec(version, flex), PartitionEncoder(version, flex);
    forall d, k, x ensures Encodes(c, encode, d, k, x) {
      if c.fits(x) {
        PartitionLayout(d + k, x, version, flex);
        Glue(d, k, PartitionBytes(x, version, flex));
      }
    }
    ArrayAfter(c, encode, dst, l, xs, flex);
  }

  /** Topic names are nullable from version 12; the id is 16 bytes as they are. */
  function TopicBytes(t: Meta.Topic, version: int, flex: bool): Bytes
  {
    I16(t.error) + (if version < 12 && t.name.Some? then Text(t.name.value, flex) else OptText(t.name, flex))
    + If(version >= 10, t.topicId) + If(version >= 1, [if t.isInternal then 1 else 0])
    + Array(t.partitions, PartitionEncoder(version, flex), flex) + If(version >= 8, I32(t.operations)) + NoTags(flex)
  }

  lemma NameAfter(dst: Bytes, l: Bytes, name: Opt<Bytes>, version: int, flex: bool)
    requires Meta.FitsName(name, version, flex)
    ensures Meta.AppendName(dst + l, name, version, flex) ==
              dst + (l + if version < 12 && name.Some? then Text(name.value, flex) else OptText(name, flex))
  {
    if version >= 12 { OptStrAfter(dst, l, name, flex); } else { StrAfter(dst, l, name.value, flex); }
  }

  lemma FieldAfter(dst: Bytes, l: Bytes, field: Bytes, present: bool)
    ensures (if present then dst + l + field else dst + l) == dst + (l + If(present, field))
  {
    if present { Glue(dst, l, field); } else { assert l + [] == l; }
  }

  lemma FlagAfter(dst: Bytes, l: Bytes, f: bool, present: bool)
    ensures Meta.AppendFlag(dst + l, f, present) == dst + (l + If(present, [if f then 1 else 0]))
  {
    FieldAfter(dst, l, [if f then 1 else 0], present);
  }

  /** What follows the list at the end of a topic or a response. */
  lemma TailAfter(dst: Bytes, l: Bytes, operations: int, present: bool, flex: bool)
    ensures AppendTags(AppendInt32If(dst + l, operations, present), flex) ==
              dst + (l + If(present, I32(operations)) + NoTags(flex))
  {
    hide AppendInt32If, AppendTags, If, NoTags, I32;
    Int32IfAfter(dst, l, operations, present);
    TagsAfter(dst, l + If(present, I32(operations)), flex);
  }

  lemma TopicLayout(dst: Bytes, t: Meta.Topic, version: int, flex: bool)
    requires Meta.FitsTopic(t, version, flex)
    ensures Meta.AppendTopic(dst, t, version, flex) == dst + TopicBytes(t, version, flex)
  {
    hide AppendInt16, Meta.AppendName, Meta.AppendFlag, AppendArr, AppendInt32If, AppendTags, I16, I32, If, Text,
         OptText, Array, NoTags, Meta.FitsName;
    var l1 := I16(t.error);
    var l2 := l1 + if version < 12 && t.name.Some? then Text(t.name.value, flex) else OptText(t.name, flex);
    var l3 := l2 + If(version >= 10, t.topicId);
    var l4 := l3 + If(version >= 1, [if t.isInternal then 1 else 0]);
    var l5 := l4 + Array(t.partitions, PartitionEncoder(version, flex), flex);
    Int16First(dst, t.error);
    NameAfter(dst, l1, t.name, version, flex);
    FieldAfter(dst, l2, t.topicId, version >= 10);
    FlagAfter(dst, l3, t.isInternal, version >= 1);
    PartitionsAfter(dst, l4, t.partitions, version, flex);
    TailAfter(dst, l5, t.operations, version >= 8, flex);
  }

  function TopicEncoder(version: int, flex: bool): Meta.Topic -> Bytes
  {
    t => TopicBytes(t, version, flex)
  }

  lemma TopicsAfter(dst: Bytes, l: Bytes, xs: seq<Meta.Topic>, version: int, flex: bool)
    requires FitsArr(Meta.TopicCodec(version, flex), xs, flex)
    ensures AppendArr(Meta.TopicCodec(version, flex), dst + l, xs, flex) ==
              dst + (l + Array(xs, TopicEncoder(version, flex), flex))
  {
    hide Meta.AppendTopic, TopicBytes, Meta.FitsTopic, AppendArr, Array;
    var c, encode := Meta.TopicCodec(version, flex), TopicEncoder(version, flex);
    forall d, k, x ensures Encodes(c, encode, d, k, x) {
      if c.fits(x) {
        TopicLayout(d + k, x, version, flex);
        Glue(d, k, TopicBytes(x, version, flex));
      }
    }
    ArrayAfter(c, encode, dst, l, xs, flex);
  }

  /** The Metadata response, flexible from version 9. */
  function MetadataBytes(r: Meta.MetadataResponse): Bytes
  {
    var v, flex := r.version, r.version >= 9;
    If(v >= 3, I32(r.throttle)) + Array(r.brokers, BrokerEncoder(v, flex), flex)
    + If(v >= 2, OptText(r.cluster.id, flex)) + If(v >= 1, I32(r.cluster.controllerId))
    + Array(r.topics, TopicEncoder(v, flex), flex) + If(8 <= v <= 10, I32(r.clusterOperations)) + NoTags(flex)
  }

  lemma MetadataLayout(dst: Bytes, r: Meta.MetadataResponse)
    requires Meta.FitsMetadata(r)
    ensures Meta.AppendMetadata(dst, r) == dst + MetadataBytes(r)
  {
    hide AppendInt32If, AppendArr, AppendOptStrIf, AppendTags, I32, If, OptText, Array, NoTags, FitsArr, FitsOptStrIf,
         IsFlexibleResponse, IsFlexibleRequest;
    var v, flex := r.version, r.version >= 9;
    FlexibleRequests(v);
    FlexibleResponses(METADATA, v);
    var l1 := If(v >= 3, I32(r.throttle));
    var l2 := l1 + Array(r.brokers, BrokerEncoder(v, flex), flex);
    var l3 := l2 + If(v >= 2, OptText(r.cluster.id, flex));
    var l4 := l3 + If(v >= 1, I32(r.cluster.controllerId));
    var l5 := l4 + Array(r.topics, TopicEncoder(v, flex), flex);
    Int32IfFirst(dst, r.throttle, v >= 3);
    BrokersAfter(dst, l1, r.brokers, v, flex);
    OptStrIfAfter(dst, l2, r.cluster.id, v >= 2, flex);
    Int32IfAfter(dst, l3, r.cluster.controllerId, v >= 1);
    TopicsAfter(dst, l4, r.topics, v, flex);
    TailAfter(dst, l5, r.clusterOperations, 8 <= v <= 10, flex);
  }

  // ------------------------------------------------------------ coordinators

  function EntryBytes(e: Coord.Entry, flex: bool): Bytes
  {
    Text(e.key, flex) + NodeBytes(e.node, flex) + I16(e.error) + OptText(e.message, flex) + NoTags(flex)
  }

  lemma EntryLayout(dst: Bytes, e: Coord.Entry, flex: bool)
    requires Coord.FitsEntry(e, flex)
    ensures Coord.AppendEntry(dst, e, flex) == dst + EntryBytes(e, flex)
  {
    hide AppendStr, AppendNode, AppendInt16, AppendOptStr, AppendTags, Text, NodeBytes, I16, OptText, NoTags;
    var l1 := Text(e.key, flex);
    var l2 := l1 + NodeBytes(e.node, flex);
    var l3 := l2 + I16(e.error);
    StrFirst(dst, e.key, flex);
    NodeAfter(dst, l1, e.node, flex);
    Int16After(dst, l2, e.error);
    OptStrAfter(dst, l3, e.message, flex);
    TagsAfter(dst, l3 + OptText(e.message, flex), flex);
  }

  function EntryEncoder(flex: bool): Coord.Entry -> Bytes
  {
    e => EntryBytes(e, flex)
  }

  lemma EntriesAfter(dst: Bytes, l: Bytes, xs: seq<Coord.Entry>, flex: bool)
    requires FitsArr(Coord.EntryCodec(flex), xs, flex)
    ensures AppendArr(Coord.EntryCodec(flex), dst + l, xs, flex) == dst + (l + Array(xs, EntryEncoder(flex), flex))
  {
    hide Coord.AppendEntry, EntryBytes, Coord.FitsEntry, AppendArr, Array;
    var c, encode := Coord.EntryCodec(flex), EntryEncoder(flex);
    forall d, k, x ensures Encodes(c, encode, d, k, x) {
      if c.fits(x) {
        EntryLayout(d + k, x, flex);
        Glue(d, k, EntryBytes(x, flex));
      }
    }
    ArrayAfter(c, encode, dst, l, xs, flex);
  }

  function SingleBytes(s: Coord.Single, version: int, flex: bool): Bytes
  {
    I16(s.error) + If(version >= 1, OptText(s.message, flex)) + NodeBytes(s.node, flex)
  }

  lemma SingleAfter(dst: Bytes, l: Bytes, s: Coord.Single, version: int, flex: bool)
    requires Coord.FitsSingle(s, version, flex)
    ensures Coord.AppendSingle(dst + l, s, version, flex) == dst + (l + SingleBytes(s, version, flex))
  {
    hide AppendInt16, AppendOptStrIf, AppendNode, I16, If, OptText, NodeBytes;
    var l1 := I16(s.error);
    Int16First(dst + l, s.error);
    OptStrIfAfter(dst + l, l1, s.message, version >= 1, flex);
    NodeAfter(dst + l, l1 + If(version >= 1, OptText(s.message, flex)), s.node, flex);
    Glue(dst, l, SingleBytes(s, version, flex));
  }

  /** The FindCoordinator response, flexible from version 3, a list from version 4. */
  function CoordinatorBytes(r: Coord.CoordinatorResponse): Bytes
  {
    var v, flex := r.version, r.version >= 3;
    If(v >= 1, I32(r.throttle))
    + (if v <= 3 then SingleBytes(r.single, v, flex) else Array(r.coordinators, EntryEncoder(flex), flex))
    + NoTags(flex)
  }

  lemma CoordinatorLayout(dst: Bytes, r: Coord.CoordinatorResponse)
    requires Coord.FitsCoordinator(r)
    ensures Coord.AppendCoordinator(dst, r) == dst + CoordinatorBytes(r)
  {
    hide AppendInt32If, Coord.AppendSingle, AppendArr, AppendTags, I32, If, SingleBytes, Array, NoTags, FitsArr,
         Coord.FitsSingle, IsFlexibleResponse, IsFlexibleRequest;
    var v, flex := r.version, r.version >= 3;
    FlexibleRequests(v);
    FlexibleResponses(FIND_COORDINATOR, v);
    var l1 := If(v >= 1, I32(r.throttle));
    Int32IfFirst(dst, r.throttle, v >= 1);
    if v <= 3 {
      SingleAfter(dst, l1, r.single, v, flex);
      TagsAfter(dst, l1 + SingleBytes(r.single, v, flex), flex);
    } else {
      EntriesAfter(dst, l1, r.coordinators, flex);
      TagsAfter(dst, l1 + Array(r.coordinators, EntryEncoder(flex), flex), flex);
    }
  }

  // -------------------------------------------------------------- sync group

  function SlotBytes(s: Sync.Slot, flex: bool): Bytes
  {
    Text(s.memberId, flex) + OptBlob(s.blob, flex) + NoTags(flex)
  }

  lemma SlotLayout(dst: Bytes, s: Sync.Slot, flex: bool)
    requires Sync.FitsSlot(s, flex)
    ensures Sync.AppendSlot(dst, s, flex) == dst + SlotBytes(s, flex)
  {
    hide AppendStr, AppendOptBytes, AppendTags, Text, OptBlob, NoTags;
    var l1 := Text(s.memberId, flex);
    StrFirst(dst, s.memberId, flex);
    OptBytesAfter(dst, l1, s.blob, flex);
    TagsAfter(dst, l1 + OptBlob(s.blob, flex), flex);
  }

  function SlotEncoder(flex: bool): Sync.Slot -> Bytes
  {
    s => SlotBytes(s, flex)
  }

  lemma SlotsAfter(dst: Bytes, l: Bytes, xs: seq<Sync.Slot>, flex: bool)
    requires FitsArr(Sync.SlotCodec(flex), xs, flex)
    ensures AppendArr(Sync.SlotCodec(flex), dst + l, xs, flex) == dst + (l + Array(xs, SlotEncoder(flex), flex))
  {
    hide Sync.AppendSlot, SlotBytes, Sync.FitsSlot, AppendArr, Array;
    var c, encode := Sync.SlotCodec(flex), SlotEncoder(flex);
    forall d, k, x ensures Encodes(c, encode, d, k, x) {
      if c.fits(x) {
        SlotLayout(d + k, x, flex);
        Glue(d, k, SlotBytes(x, flex));
      }
    }
    ArrayAfter(c, encode, dst, l, xs, flex);
  }

  /** The SyncGroup request, flexible from version 4. */
  function SyncGroupBytes(r: Sync.SyncGroup): Bytes
  {
    var v, flex, names := r.version, r.version >= 4, r.sender.names;
    Text(r.sender.group, flex) + I32(r.sender.generation) + Text(r.sender.memberId, flex)
    + If(v >= 3, OptText(names.instance, flex)) + If(v >= 5, OptText(names.protocolType, flex))
    + If(v >= 5, OptText(names.protocolName, flex)) + Array(r.slots, SlotEncoder(flex), flex) + NoTags(flex)
  }

  lemma SyncGroupLayout(dst: Bytes, r: Sync.SyncGroup)
    requires Sync.FitsSyncGroup(r)
    ensures Sync.AppendSyncGroup(dst, r) == dst + SyncGroupBytes(r)
  {
    hide AppendStr, AppendInt32, AppendOptStrIf, AppendArr, AppendTags, Text, I32, If, OptText, Array, NoTags, FitsArr,
         FitsOptStrIf, FitsStr, IsFlexibleRequest;
    var v, flex, names := r.version, r.version >= 4, r.sender.names;
    FlexibleRequests(v);
    var l1 := Text(r.sender.group, flex);
    var l2 := l1 + I32(r.sender.generation);
    var l3 := l2 + Text(r.sender.memberId, flex);
    var l4 := l3 + If(v >= 3, OptText(names.instance, flex));
    var l5 := l4 + If(v >= 5, OptText(names.protocolType, flex));
    var l6 := l5 + If(v >= 5, OptText(names.protocolName, flex));
    StrFirst(dst, r.sender.group, flex);
    Int32After(dst, l1, r.sender.generation);
    StrAfter(dst, l2, r.sender.memberId, flex);
    OptStrIfAfter(dst, l3, names.instance, v >= 3, flex);
    OptStrIfAfter(dst, l4, names.protocolType, v >= 5, flex);
    OptStrIfAfter(dst, l5, names.protocolName, v >= 5, flex);
    SlotsAfter(dst, l6, r.slots, flex);
    TagsAfter(dst, l6 + Array(r.slots, SlotEncoder(flex), flex), flex);
  }

  // ------------------------------------------------------- consumer protocol

  function TopicPartitionsBytes(tp: Proto.TopicPartitions): Bytes
  {
    Text(tp.topic, false) + Ints(tp.partitions, false)
  }

  const TOPIC_PARTITIONS: Proto.TopicPartitions -> Bytes := tp => TopicPartitionsBytes(tp)

  lemma TopicPartitionsLayout(dst: Bytes, tp: Proto.TopicPartitions)
    requires Proto.FitsTopicPartitions(tp)
    ensures Proto.AppendTopicPartitions(dst, tp) == dst + TopicPartitionsBytes(tp)
  {
    hide AppendStr, AppendArr, Text, Ints;
    StrFirst(dst, tp.topic, false);
    IntsAfter(dst, Text(tp.topic, false), tp.partitions, false);
  }

  lemma TopicPartitionsAfter(dst: Bytes, l: Bytes, xs: seq<Proto.TopicPartitions>)
    requires FitsArr(Proto.TopicPartitionsCodec(), xs, false)
    ensures AppendArr(Proto.TopicPartitionsCodec(), dst + l, xs, false) ==
              dst + (l + Array(xs, TOPIC_PARTITIONS, false))
  {
    hide Proto.AppendTopicPartitions, TopicPartitionsBytes, Proto.FitsTopicPartitions, AppendArr, Array;
    var c := Proto.TopicPartitionsCodec();
    forall d, k, x ensures Encodes(c, TOPIC_PARTITIONS, d, k, x) {
      if c.fits(x) {
        TopicPartitionsLayout(d + k, x);
        Glue(d, k, TopicPartitionsBytes(x));
      }
    }
    ArrayAfter(c, TOPIC_PARTITIONS, dst, l, xs, false);
  }

  lemma RackAfter(dst: Bytes, l: Bytes, rack: Proto.Rack, expected: bool)
    requires Proto.FitsRackIf(rack, expected)
    ensures Proto.AppendRackIf(dst + l, rack, expected) ==
              dst + (l + if expected then OptText(rack.value, false) else [])
  {
    if expected { OptStrAfter(dst, l, rack.value, false); } else { assert l + [] == l; }
  }

  /** An assignment: version, topics with their partitions, user data, and from version 3 the
      rack; never flexible. */
  function AssignmentBytes(a: Proto.Assignment): Bytes
    requires Proto.FitsAssignment(a)
  {
    I16(a.version) + Array(a.partitions, TOPIC_PARTITIONS, false) + OptBlob(a.userData, false)
    + if a.version >= 3 then OptText(a.rack.value, false) else []
  }

  lemma AssignmentLayout(dst: Bytes, a: Proto.Assignment)
    requires Proto.FitsAssignment(a)
    ensures Proto.AppendAssignment(dst, a) == dst + AssignmentBytes(a)
  {
    hide AppendInt16, AppendArr, AppendOptBytes, Proto.AppendRackIf, I16, Array, OptBlob, OptText, FitsArr;
    var l1 := I16(a.version);
    var l2 := l1 + Array(a.partitions, TOPIC_PARTITIONS, false);
    var l3 := l2 + OptBlob(a.userData, false);
    Int16First(dst, a.version);
    TopicPartitionsAfter(dst, l1, a.partitions);
    OptBytesAfter(dst, l2, a.userData, false);
    RackAfter(dst, l3, a.rack, a.version >= 3);
  }

  const TEXT: Bytes -> Bytes := s => Text(s, false)

  lemma TextsAfter(dst: Bytes, l: Bytes, xs: seq<Bytes>)
    requires FitsArr(StrCodec(false), xs, false)
    ensures AppendArr(StrCodec(false), dst + l, xs, false) == dst + (l + Array(xs, TEXT, false))
  {
    hide AppendStr, Text, FitsStr, AppendArr, Array;
    forall d, k, x ensures Encodes(StrCodec(false), TEXT, d, k, x) {
      if FitsStr(x, false) { StrAfter(d, k, x, false); }
    }
    ArrayAfter(StrCodec(false), TEXT, dst, l, xs, false);
  }

  /** A subscription: version, topics, user data, then the partitions owned, the generation
      and the rack from versions 1, 2 and 3. */
  function SubscriptionBytes(s: Proto.Subscription): Bytes
    requires Proto.FitsSubscription(s)
  {
    I16(s.version) + Array(s.topics, TEXT, false) + OptBlob(s.userData, false)
    + If(s.version >= 1, Array(s.extras.owned, TOPIC_PARTITIONS, false))
    + (if s.version >= 2 then I32(s.extras.generation.value) else [])
    + if s.version >= 3 then OptText(s.extras.rack.value, false) else []
  }

  lemma OwnedAfter(dst: Bytes, l: Bytes, xs: seq<Proto.TopicPartitions>, expected: bool)
    requires expected ==> FitsArr(Proto.TopicPartitionsCodec(), xs, false)
    ensures Proto.AppendOwnedIf(dst + l, xs, expected) == dst + (l + If(expected, Array(xs, TOPIC_PARTITIONS, false)))
  {
    if expected { TopicPartitionsAfter(dst, l, xs); } else { assert l + [] == l; }
  }

  lemma GenerationAfter(dst: Bytes, l: Bytes, g: Opt<int>, expected: bool)
    requires expected ==> g.Some?
    ensures Proto.AppendGenerationIf(dst + l, g, expected) == dst + (l + if expected then I32(g.value) else [])
  {
    if expected { Int32After(dst, l, g.value); } else { assert l + [] == l; }
  }

  lemma SubscriptionLayout(dst: Bytes, s: Proto.Subscription)
    requires Proto.FitsSubscription(s)
    ensures Proto.AppendSubscription(dst, s) == dst + SubscriptionBytes(s)
  {
    hide AppendInt16, AppendArr, AppendOptBytes, Proto.AppendOwnedIf, Proto.AppendGenerationIf, Proto.AppendRackIf, I16,
         I32, Array, OptBlob, OptText, FitsArr, If;
    var l1 := I16(s.version);
    var l2 := l1 + Array(s.topics, TEXT, false);
    var l3 := l2 + OptBlob(s.userData, false);
    var l4 := l3 + If(s.version >= 1, Array(s.extras.owned, TOPIC_PARTITIONS, false));
    var l5 := l4 + if s.version >= 2 then I32(s.extras.generation.value) else [];
    Int16First(dst, s.version);
    TextsAfter(dst, l1, s.topics);
    OptBytesAfter(dst, l2, s.userData, false);
    OwnedAfter(dst, l3, s.extras.owned, s.version >= 1);
    GenerationAfter(dst, l4, s.extras.generation, s.version >= 2);
    RackAfter(dst, l5, s.extras.rack, s.version >= 3);
  }
}
