/** The SyncGroup request, which carries every member's assignment as an opaque blob. */
module SyncGroupMessage {
  import opened Ordering
  import opened Wire
  import opened ApiKeys

  datatype Slot = Slot(memberId: Bytes, blob: Opt<Bytes>)

  function ReadSlot(buf: Bytes, off: nat, flex: bool): (r: R<Slot>)
    ensures r.Ok? ==> off < r.off <= |buf| && FitsSlot(r.v, flex)
  {
    var (id, o1) :- ReadStr(buf, off, flex);
    var (blob, o2) :- ReadOptBytes(buf, o1, flex);
    var (_, o3) :- ReadTags(buf, o2, flex);
    Ok(Slot(id, blob), o3)
  }

  predicate FitsSlot(s: Slot, flex: bool)
  {
    FitsStr(s.memberId, flex) && FitsOptBytes(s.blob, flex)
  }

  function AppendSlot(dst: Bytes, s: Slot, flex: bool): Bytes
  {
    AppendTags(AppendOptBytes(AppendStr(dst, s.memberId, flex), s.blob, flex), flex)
  }

  function SlotCodec(flex: bool): Codec<Slot>
  {
    Codec((b, o) => ReadSlot(b, o, flex), (d, x) => AppendSlot(d, x, flex), x => FitsSlot(x, flex), x => 1)
  }

  lemma SlotTrip(dst: Bytes, s: Slot, flex: bool, buf: Bytes)
    requires FitsSlot(s, flex) && AppendSlot(dst, s, flex) <= buf
    ensures dst < AppendSlot(dst, s, flex) && ReadSlot(buf, |dst|, flex) == Ok(s, |AppendSlot(dst, s, flex)|)
  {
    hide AppendStr, AppendOptBytes, AppendTags, ReadStr, ReadOptBytes, ReadTags;
    var d1 := AppendStr(dst, s.memberId, flex);
    var d2 := AppendOptBytes(d1, s.blob, flex);
    TagsTrip(d2, flex, buf);
    OptBytesTrip(d1, s.blob, flex, buf);
    StrTrip(dst, s.memberId, flex, buf);
  }

  lemma SlotLawful(flex: bool)
    ensures Lawful(SlotCodec(flex))
  {
    var c := SlotCodec(flex);
    forall dst, x, buf ensures Trips(c, dst, x, buf) {
      if c.fits(x) && c.append(dst, x) <= buf { SlotTrip(dst, x, flex, buf); }
    }
  }

  /** Who sends the request: group, generation, member, and from versions 3 and 5 the
      instance and the protocol. */
  datatype Sender = Sender(group: Bytes, generation: int, memberId: Bytes, names: Names)

  datatype Names = Names(instance: Opt<Bytes>, protocolType: Opt<Bytes>, protocolName: Opt<Bytes>)

  function ReadNames(buf: Bytes, off: nat, version: int, flex: bool): (r: R<Names>)
    ensures r.Ok? ==> off <= r.off && (off <= |buf| ==> r.off <= |buf|) && FitsNames(r.v, version, flex)
  {
    var (instance, o1) :- ReadOptStrIf(buf, off, version >= 3, flex);
    var (ptype, o2) :- ReadOptStrIf(buf, o1, version >= 5, flex);
    var (pname, o3) :- ReadOptStrIf(buf, o2, version >= 5, flex);
    Ok(Names(instance, ptype, pname), o3)
  }

  predicate FitsNames(n: Names, version: int, flex: bool)
  {
    && FitsOptStrIf(n.instance, version >= 3, flex)
    && FitsOptStrIf(n.protocolType, version >= 5, flex) && FitsOptStrIf(n.protocolName, version >= 5, flex)
  }

  function AppendNames(dst: Bytes, n: Names, version: int, flex: bool): Bytes
  {
    var d1 := AppendOptStrIf(dst, n.instance, version >= 3, flex);
    var d2 := AppendOptStrIf(d1, n.protocolType, version >= 5, flex);
    AppendOptStrIf(d2, n.protocolName, version >= 5, flex)
  }

  lemma NamesTrip(dst: Bytes, n: Names, version: int, flex: bool, buf: Bytes)
    requires FitsNames(n, version, flex) && AppendNames(dst, n, version, flex) <= buf
    ensures dst <= AppendNames(dst, n, version, flex)
    ensures ReadNames(buf, |dst|, version, flex) == Ok(n, |AppendNames(dst, n, version, flex)|)
  {
    var d1 := AppendOptStrIf(dst, n.instance, version >= 3, flex);
    var d2 := AppendOptStrIf(d1, n.protocolType, version >= 5, flex);
    OptStrIfTrip(d2, n.protocolName, version >= 5, flex, buf);
    OptStrIfTrip(d1, n.protocolType, version >= 5, flex, buf);
    OptStrIfTrip(dst, n.instance, version >= 3, flex, buf);
  }

  function ReadSender(buf: Bytes, off: nat, version: int, flex: bool): (r: R<Sender>)
    ensures r.Ok? ==> off < r.off <= |buf| && FitsSender(r.v, version, flex)
  {
    var (group, o1) :- ReadStr(buf, off, flex);
    var (generation, o2) :- ReadInt32(buf, o1);
    var (member, o3) :- ReadStr(buf, o2, flex);
    var (names, o4) :- ReadNames(buf, o3, version, flex);
    Ok(Sender(group, generation, member, names), o4)
  }

  predicate FitsSender(s: Sender, version: int, flex: bool)
  {
    && FitsStr(s.group, flex) && IsInt32(s.generation) && FitsStr(s.memberId, flex)
    && FitsNames(s.names, version, flex)
  }

  function AppendSender(dst: Bytes, s: Sender, version: int, flex: bool): Bytes
  {
    var d1 := AppendStr(dst, s.group, flex);
    var d2 := AppendInt32(d1, s.generation);
    var d3 := AppendStr(d2, s.memberId, flex);
    AppendNames(d3, s.names, version, flex)
  }

  lemma SenderTrip(dst: Bytes, s: Sender, version: int, flex: bool, buf: Bytes)
    requires FitsSender(s, version, flex) && AppendSender(dst, s, version, flex) <= buf
    ensures dst < AppendSender(dst, s, version, flex)
    ensures ReadSender(buf, |dst|, version, flex) == Ok(s, |AppendSender(dst, s, version, flex)|)
  {
    hide AppendStr, AppendInt32, AppendNames, ReadStr, ReadInt32, ReadNames;
    var d1 := AppendStr(dst, s.group, flex);
    var d2 := AppendInt32(d1, s.generation);
    var d3 := AppendStr(d2, s.memberId, flex);
    NamesTrip(d3, s.names, version, flex, buf);
    StrTrip(d2, s.memberId, flex, buf);
    Int32Trip(d1, s.generation, buf);
    StrTrip(dst, s.group, flex, buf);
  }

  datatype SyncGroup = SyncGroup(version: int, sender: Sender, slots: seq<Slot>)

  predicate Flex(version: int) { IsFlexibleRequest(SYNC_GROUP, version) }

  function ReadSyncGroup(buf: Bytes, off: nat, version: int): R<SyncGroup>
  {
    var flex := Flex(version);
    var (sender, o1) :- ReadSender(buf, off, version, flex);
    var (slots, o2) :- ReadArr(SlotCodec(flex), buf, o1, flex);
    var (_, o3) :- ReadTags(buf, o2, flex);
    Ok(SyncGroup(version, sender, slots), o3)
  }

  predicate FitsSyncGroup(r: SyncGroup)
  {
    FitsSender(r.sender, r.version, Flex(r.version)) && FitsArr(SlotCodec(Flex(r.version)), r.slots, Flex(r.version))
  }

  function AppendSyncGroup(dst: Bytes, r: SyncGroup): Bytes
  {
    var flex := Flex(r.version);
    AppendTags(AppendArr(SlotCodec(flex), AppendSender(dst, r.sender, r.version, flex), r.slots, flex), flex)
  }

  lemma SyncGroupReads(buf: Bytes, off: nat, version: int)
    ensures var r := ReadSyncGroup(buf, off, version);
            r.Ok? ==> off < r.off <= |buf| && r.v.version == version && FitsSyncGroup(r.v)
                      && WeightN(SlotCodec(Flex(version)), r.v.slots) <= r.off - off
  {
    var r := ReadSyncGroup(buf, off, version);
    if r.Ok? {
      SlotLawful(Flex(version));
      ArrReads(SlotCodec(Flex(version)), buf, ReadSender(buf, off, version, Flex(version)).off, Flex(version));
    }
  }

  lemma SyncGroupTrip(dst: Bytes, r: SyncGroup, buf: Bytes)
    requires FitsSyncGroup(r) && AppendSyncGroup(dst, r) <= buf
    ensures dst < AppendSyncGroup(dst, r)
    ensures ReadSyncGroup(buf, |dst|, r.version) == Ok(r, |AppendSyncGroup(dst, r)|)
  {
    hide AppendSender, ReadSender, AppendArr, ReadArr, AppendTags, ReadTags;
    var flex := Flex(r.version);
    var d1 := AppendSender(dst, r.sender, r.version, flex);
    var d2 := AppendArr(SlotCodec(flex), d1, r.slots, flex);
    TagsTrip(d2, flex, buf);
    SlotLawful(flex);
    ArrTrip(SlotCodec(flex), d1, r.slots, flex, buf);
    SenderTrip(dst, r.sender, r.version, flex, buf);
  }
}

/** The consumer protocol inside those blobs: subscriptions and assignments. Blobs carry
    their own version, never use the flexible encoding, and decoders take fields that a
    shorter blob leaves out as absent. */
module ConsumerProtocol {
  import opened Ordering
  import opened Wire

  datatype TopicPartitions = TopicPartitions(topic: Bytes, partitions: seq<int>)

  function ReadTopicPartitions(buf: Bytes, off: nat): R<TopicPartitions>
  {
    var (topic, o1) :- ReadStr(buf, off, false);
    var (partitions, o2) :- ReadArr(Int32Codec(), buf, o1, false);
    Ok(TopicPartitions(topic, partitions), o2)
  }

  predicate FitsTopicPartitions(tp: TopicPartitions)
  {
    FitsStr(tp.topic, false) && FitsArr(Int32Codec(), tp.partitions, false)
  }

  function AppendTopicPartitions(dst: Bytes, tp: TopicPartitions): Bytes
  {
    AppendArr(Int32Codec(), AppendStr(dst, tp.topic, false), tp.partitions, false)
  }

  function TopicPartitionsCodec(): Codec<TopicPartitions>
  {
    Codec((b, o) => ReadTopicPartitions(b, o), (d, x) => AppendTopicPartitions(d, x), x => FitsTopicPartitions(x),
          (x: TopicPartitions) => 1 + WeightN(Int32Codec(), x.partitions))
  }

  lemma TopicPartitionsTrip(dst: Bytes, tp: TopicPartitions, buf: Bytes)
    requires FitsTopicPartitions(tp) && AppendTopicPartitions(dst, tp) <= buf
    ensures dst < AppendTopicPartitions(dst, tp)
    ensures ReadTopicPartitions(buf, |dst|) == Ok(tp, |AppendTopicPartitions(dst, tp)|)
  {
    Int32Lawful();
    ArrTrip(Int32Codec(), AppendStr(dst, tp.topic, false), tp.partitions, false, buf);
    StrTrip(dst, tp.topic, false, buf);
  }

  lemma TopicPartitionsLawful()
    ensures Lawful(TopicPartitionsCodec())
  {
    var c := TopicPartitionsCodec();
    forall dst, x, buf ensures Trips(c, dst, x, buf) {
      if c.fits(x) && c.append(dst, x) <= buf { TopicPartitionsTrip(dst, x, buf); }
    }
    forall buf, off ensures Reads(c, buf, off) {
      Int32Lawful();
      var topic := ReadStr(buf, off, false);
      if topic.Ok? { ArrReads(Int32Codec(), buf, topic.off, false); }
    }
  }

  /** A rack id: absent, or present and possibly null. */
  type Rack = Opt<Opt<Bytes>>

  function ReadRackIf(buf: Bytes, off: nat, expected: bool): R<Rack>
  {
    if !(expected && off < |buf|) then Ok(None, off) else
      var (rack, o) :- ReadOptStr(buf, off, false);
      Ok(Some(rack), o)
  }

  function AppendRackIf(dst: Bytes, rack: Rack, expected: bool): Bytes
  {
    if !expected then dst else AppendOptStr(dst, if rack.Some? then rack.value else Some([]), false)
  }

  predicate FitsRackIf(rack: Rack, expected: bool)
  {
    if expected then rack.Some? && FitsOptStr(rack.value, false) else rack.None?
  }

  lemma RackIfTrip(dst: Bytes, rack: Rack, expected: bool, buf: Bytes)
    requires FitsRackIf(rack, expected) && AppendRackIf(dst, rack, expected) <= buf
    ensures dst <= AppendRackIf(dst, rack, expected)
    ensures ReadRackIf(buf, |dst|, expected) == Ok(rack, |AppendRackIf(dst, rack, expected)|)
  {
    if expected { OptStrTrip(dst, rack.value, false, buf); }
  }

  // ------------------------------------------------------------ assignments

  datatype Assignment = Assignment(version: int, partitions: seq<TopicPartitions>, userData: Opt<Bytes>, rack: Rack)

  function ReadAssignment(buf: Bytes, off: nat): R<Assignment>
  {
    var (version, o1) :- ReadInt16(buf, off);
    var (partitions, o2) :- ReadArr(TopicPartitionsCodec(), buf, o1, false);
    var (userData, o3) :- ReadOptBytes(buf, o2, false);
    var (rack, o4) :- ReadRackIf(buf, o3, version >= 3);
    Ok(Assignment(version, partitions, userData, rack), o4)
  }

  function AppendAssignment(dst: Bytes, a: Assignment): Bytes
  {
    var d1 := AppendInt16(dst, a.version);
    var d2 := AppendArr(TopicPartitionsCodec(), d1, a.partitions, false);
    var d3 := AppendOptBytes(d2, a.userData, false);
    AppendRackIf(d3, a.rack, a.version >= 3)
  }

  predicate FitsAssignment(a: Assignment)
  {
    && IsInt16(a.version) && FitsArr(TopicPartitionsCodec(), a.partitions, false)
    && FitsOptBytes(a.userData, false) && FitsRackIf(a.rack, a.version >= 3)
  }

  lemma AssignmentTrip(dst: Bytes, a: Assignment, buf: Bytes)
    requires FitsAssignment(a) && AppendAssignment(dst, a) <= buf
    ensures dst < AppendAssignment(dst, a)
    ensures ReadAssignment(buf, |dst|) == Ok(a, |AppendAssignment(dst, a)|)
  {
    hide AppendInt16, AppendArr, AppendOptBytes, AppendRackIf, ReadInt16, ReadArr, ReadOptBytes, ReadRackIf;
    TopicPartitionsLawful();
    var d1 := AppendInt16(dst, a.version);
    var d2 := AppendArr(TopicPartitionsCodec(), d1, a.partitions, false);
    var d3 := AppendOptBytes(d2, a.userData, false);
    RackIfTrip(d3, a.rack, a.version >= 3, buf);
    OptBytesTrip(d2, a.userData, false, buf);
    ArrTrip(TopicPartitionsCodec(), d1, a.partitions, false, buf);
    Int16Trip(dst, a.version, buf);
  }

  // ---------------------------------------------------------- subscriptions

  /** What versions 1, 2 and 3 add. */
  datatype Extras = Extras(owned: seq<TopicPartitions>, generation: Opt<int>, rack: Rack)

  datatype Subscription = Subscription(version: int, topics: seq<Bytes>, userData: Opt<Bytes>, extras: Extras)

  function ReadOwnedIf(buf: Bytes, off: nat, expected: bool): R<seq<TopicPartitions>>
  {
    if expected && off < |buf| then ReadArr(TopicPartitionsCodec(), buf, off, false) else Ok([], off)
  }

  function ReadGenerationIf(buf: Bytes, off: nat, expected: bool): R<Opt<int>>
  {
    if !(expected && off < |buf|) then Ok(None, off) else
      var (g, o) :- ReadInt32(buf, off);
      Ok(Some(g), o)
  }

  function ReadExtras(buf: Bytes, off: nat, version: int): R<Extras>
  {
    var (owned, o1) :- ReadOwnedIf(buf, off, version >= 1);
    var (generation, o2) :- ReadGenerationIf(buf, o1, version >= 2);
    var (rack, o3) :- ReadRackIf(buf, o2, version >= 3);
    Ok(Extras(owned, generation, rack), o3)
  }

  function ReadSubscription(buf: Bytes, off: nat): R<Subscription>
  {
    var (version, o1) :- ReadInt16(buf, off);
    var (topics, o2) :- ReadArr(StrCodec(false), buf, o1, false);
    var (userData, o3) :- ReadOptBytes(buf, o2, false);
    var (extras, o4) :- ReadExtras(buf, o3, version);
    Ok(Subscription(version, topics, userData, extras), o4)
  }

  function AppendOwnedIf(dst: Bytes, owned: seq<TopicPartitions>, expected: bool): Bytes
  {
    if expected then AppendArr(TopicPartitionsCodec(), dst, owned, false) else dst
  }

  function AppendGenerationIf(dst: Bytes, g: Opt<int>, expected: bool): Bytes
  {
    if expected then AppendInt32(dst, if g.Some? then g.value else -1) else dst
  }

  function AppendExtras(dst: Bytes, e: Extras, version: int): Bytes
  {
    AppendRackIf(AppendGenerationIf(AppendOwnedIf(dst, e.owned, version >= 1), e.generation, version >= 2), e.rack,
        version >= 3)
  }

  function AppendSubscription(dst: Bytes, s: Subscription): Bytes
  {
    var d1 := AppendInt16(dst, s.version);
    var d2 := AppendArr(StrCodec(false), d1, s.topics, false);
    var d3 := AppendOptBytes(d2, s.userData, false);
    AppendExtras(d3, s.extras, s.version)
  }

  /** All optional fields of the version are present. */
  predicate FitsExtras(e: Extras, version: int)
  {
    && (if version >= 1 then FitsArr(TopicPartitionsCodec(), e.owned, false) else e.owned == [])
    && (if version >= 2 then e.generation.Some? && IsInt32(e.generation.value) else e.generation.None?)
    && FitsRackIf(e.rack, version >= 3)
  }

  predicate FitsSubscription(s: Subscription)
  {
    && IsInt16(s.version) && FitsArr(StrCodec(false), s.topics, false) && FitsOptBytes(s.userData, false)
    && FitsExtras(s.extras, s.version)
  }

  lemma OwnedIfTrip(dst: Bytes, owned: seq<TopicPartitions>, expected: bool, buf: Bytes)
    requires AppendOwnedIf(dst, owned, expected) <= buf
    requires if expected then FitsArr(TopicPartitionsCodec(), owned, false) else owned == []
    ensures dst <= AppendOwnedIf(dst, owned, expected)
    ensures ReadOwnedIf(buf, |dst|, expected) == Ok(owned, |AppendOwnedIf(dst, owned, expected)|)
  {
    TopicPartitionsLawful();
    if expected { ArrTrip(TopicPartitionsCodec(), dst, owned, false, buf); }
  }

  lemma GenerationIfTrip(dst: Bytes, g: Opt<int>, expected: bool, buf: Bytes)
    requires AppendGenerationIf(dst, g, expected) <= buf
    requires if expected then g.Some? && IsInt32(g.value) else g.None?
    ensures dst <= AppendGenerationIf(dst, g, expected)
    ensures ReadGenerationIf(buf, |dst|, expected) == Ok(g, |AppendGenerationIf(dst, g, expected)|)
  {
    if expected { Int32Trip(dst, g.value, buf); }
  }

  lemma ExtrasTrip(dst: Bytes, e: Extras, version: int, buf: Bytes)
    requires FitsExtras(e, version) && AppendExtras(dst, e, version) <= buf
    ensures dst <= AppendExtras(dst, e, version)
    ensures ReadExtras(buf, |dst|, version) == Ok(e, |AppendExtras(dst, e, version)|)
  {
    var d1 := AppendOwnedIf(dst, e.owned, version >= 1);
    var d2 := AppendGenerationIf(d1, e.generation, version >= 2);
    RackIfTrip(d2, e.rack, version >= 3, buf);
    GenerationIfTrip(d1, e.generation, version >= 2, buf);
    OwnedIfTrip(dst, e.owned, version >= 1, buf);
  }

  lemma SubscriptionTrip(dst: Bytes, s: Subscription, buf: Bytes)
    requires FitsSubscription(s) && AppendSubscription(dst, s) <= buf
    ensures dst < AppendSubscription(dst, s)
    ensures ReadSubscription(buf, |dst|) == Ok(s, |AppendSubscription(dst, s)|)
  {
    StrLawful(false);
    var d1 := AppendInt16(dst, s.version);
    var d2 := AppendArr(StrCodec(false), d1, s.topics, false);
    var d3 := AppendOptBytes(d2, s.userData, false);
    ExtrasTrip(d3, s.extras, s.version, buf);
    OptBytesTrip(d2, s.userData, false, buf);
    ArrTrip(StrCodec(false), d1, s.topics, false, buf);
    Int16Trip(dst, s.version, buf);
  }

  /** List elements over all nesting levels. */
  function SubscriptionElements(s: Subscription): nat
  {
    WeightN(StrCodec(false), s.topics) + WeightN(TopicPartitionsCodec(), s.extras.owned)
  }

  lemma ExtrasReads(buf: Bytes, off: nat, version: int)
    requires off <= |buf|
    ensures var r := ReadExtras(buf, off, version);
            r.Ok? ==> off <= r.off <= |buf| && WeightN(TopicPartitionsCodec(), r.v.owned) <= r.off - off
  {
    TopicPartitionsLawful();
    if version >= 1 && off < |buf| { ArrReads(TopicPartitionsCodec(), buf, off, false); }
  }

  /** Whatever the bytes: decoding ends inside the blob, yields no more list elements than
      there were bytes, and the topics are names that a STRING field can hold. */
  lemma SubscriptionReads(buf: Bytes, off: nat)
    ensures var r := ReadSubscription(buf, off);
            r.Ok? ==> off < r.off <= |buf| && SubscriptionElements(r.v) <= r.off - off
                      && forall t :: t in r.v.topics ==> FitsStr(t, false)
  {
    hide ReadExtras, ReadInt16, ReadOptBytes;
    StrLawful(false);
    var r := ReadSubscription(buf, off);
    if r.Ok? {
      ArrReads(StrCodec(false), buf, off + 2, false);
      var o2 := ReadArr(StrCodec(false), buf, off + 2, false).off;
      ExtrasReads(buf, ReadOptBytes(buf, o2, false).off, r.v.version);
    }
  }

  lemma AssignmentReads(buf: Bytes, off: nat)
    ensures var r := ReadAssignment(buf, off);
            r.Ok? ==> off < r.off <= |buf| && WeightN(TopicPartitionsCodec(), r.v.partitions) <= r.off - off
  {
    hide ReadInt16, ReadOptBytes, ReadOptStr, ReadTopicPartitions, AppendTopicPartitions, FitsTopicPartitions, AppendN;
    TopicPartitionsLawful();
    var r := ReadAssignment(buf, off);
    if r.Ok? { ArrReads(TopicPartitionsCodec(), buf, off + 2, false); }
  }
}
