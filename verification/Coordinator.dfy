/** The FindCoordinator response in its two shapes: one coordinator up to version 3, a list
    of them from version 4. */
module CoordinatorMessage {
  import opened Ordering
  import opened Wire
  import opened ApiKeys
  import opened NodeFields

  datatype Entry = Entry(key: Bytes, node: Node, error: int, message: Opt<Bytes>)

  function ReadEntry(buf: Bytes, off: nat, flex: bool): (r: R<Entry>)
    ensures r.Ok? ==> off < r.off <= |buf| && FitsEntry(r.v, flex)
  {
    var (key, o1) :- ReadStr(buf, off, flex);
    var (node, o2) :- ReadNode(buf, o1, flex);
    var (error, o3) :- ReadInt16(buf, o2);
    var (message, o4) :- ReadOptStr(buf, o3, flex);
    var (_, o5) :- ReadTags(buf, o4, flex);
    Ok(Entry(key, node, error, message), o5)
  }

  predicate FitsEntry(e: Entry, flex: bool)
  {
    FitsStr(e.key, flex) && FitsNode(e.node, flex) && IsInt16(e.error) && FitsOptStr(e.message, flex)
  }

  function AppendEntry(dst: Bytes, e: Entry, flex: bool): Bytes
  {
    var d1 := AppendStr(dst, e.key, flex);
    var d2 := AppendNode(d1, e.node, flex);
    var d3 := AppendInt16(d2, e.error);
    var d4 := AppendOptStr(d3, e.message, flex);
    AppendTags(d4, flex)
  }

  lemma EntryTrip(dst: Bytes, e: Entry, flex: bool, buf: Bytes)
    requires FitsEntry(e, flex) && AppendEntry(dst, e, flex) <= buf
    ensures dst < AppendEntry(dst, e, flex)
    ensures ReadEntry(buf, |dst|, flex) == Ok(e, |AppendEntry(dst, e, flex)|)
  {
    var d1 := AppendStr(dst, e.key, flex);
    var d2 := AppendNode(d1, e.node, flex);
    var d3 := AppendInt16(d2, e.error);
    var d4 := AppendOptStr(d3, e.message, flex);
    TagsTrip(d4, flex, buf);
    OptStrTrip(d3, e.message, flex, buf);
    Int16Trip(d2, e.error, buf);
    NodeTrip(d1, e.node, flex, buf);
    StrTrip(dst, e.key, flex, buf);
  }

  function EntryCodec(flex: bool): Codec<Entry>
  {
    Codec((b, o) => ReadEntry(b, o, flex), (d, x) => AppendEntry(d, x, flex), x => FitsEntry(x, flex), x => 1)
  }

  lemma EntryLawful(flex: bool)
    ensures Lawful(EntryCodec(flex))
  {
    var c := EntryCodec(flex);
    forall dst, x, buf ensures Trips(c, dst, x, buf) {
      if c.fits(x) && c.append(dst, x) <= buf { EntryTrip(dst, x, flex, buf); }
    }
  }

  /** The fields of the single-coordinator shape. */
  datatype Single = Single(error: int, message: Opt<Bytes>, node: Node)

  /** Unused fields keep the values the decoder starts from. */
  const UNUSED := Single(0, Some([]), Node(0, [], 0))

  datatype CoordinatorResponse = CoordinatorResponse(version: int, throttle: int, single: Single,
      coordinators: seq<Entry>)

  predicate Flex(version: int) { IsFlexibleResponse(FIND_COORDINATOR, version) }

  function ReadSingle(buf: Bytes, off: nat, version: int, flex: bool): (r: R<Single>)
    ensures r.Ok? ==> off < r.off <= |buf| && FitsSingle(r.v, version, flex)
  {
    var (error, o1) :- ReadInt16(buf, off);
    var (message, o2) :- ReadOptStrIf(buf, o1, version >= 1, flex);
    var (node, o3) :- ReadNode(buf, o2, flex);
    Ok(Single(error, message, node), o3)
  }

  predicate FitsSingle(s: Single, version: int, flex: bool)
  {
    IsInt16(s.error) && FitsOptStrIf(s.message, version >= 1, flex) && FitsNode(s.node, flex)
  }

  function AppendSingle(dst: Bytes, s: Single, version: int, flex: bool): Bytes
  {
    AppendNode(AppendOptStrIf(AppendInt16(dst, s.error), s.message, version >= 1, flex), s.node, flex)
  }

  lemma SingleTrip(dst: Bytes, s: Single, version: int, flex: bool, buf: Bytes)
    requires FitsSingle(s, version, flex) && AppendSingle(dst, s, version, flex) <= buf
    ensures dst < AppendSingle(dst, s, version, flex)
    ensures ReadSingle(buf, |dst|, version, flex) == Ok(s, |AppendSingle(dst, s, version, flex)|)
  {
    var d1 := AppendInt16(dst, s.error);
    var d2 := AppendOptStrIf(d1, s.message, version >= 1, flex);
    NodeTrip(d2, s.node, flex, buf);
    OptStrIfTrip(d1, s.message, version >= 1, flex, buf);
    Int16Trip(dst, s.error, buf);
  }

  function ReadCoordinator(buf: Bytes, off: nat, version: int): R<CoordinatorResponse>
  {
    var flex := Flex(version);
    var (throttle, o1) :- ReadInt32If(buf, off, version >= 1, 0);
    if version <= 3 then
      var (single, o2) :- ReadSingle(buf, o1, version, flex);
      var (_, o3) :- ReadTags(buf, o2, flex);
      Ok(CoordinatorResponse(version, throttle, single, []), o3)
    else
      var (entries, o2) :- ReadArr(EntryCodec(flex), buf, o1, flex);
      var (_, o3) :- ReadTags(buf, o2, flex);
      Ok(CoordinatorResponse(version, throttle, UNUSED, entries), o3)
  }

  predicate FitsCoordinator(r: CoordinatorResponse)
  {
    var flex := Flex(r.version);
    && FitsInt32If(r.throttle, r.version >= 1, 0)
    && (if r.version <= 3 then FitsSingle(r.single, r.version, flex) && r.coordinators == []
        else r.single == UNUSED && FitsArr(EntryCodec(flex), r.coordinators, flex))
  }

  function AppendCoordinator(dst: Bytes, r: CoordinatorResponse): Bytes
  {
    var flex := Flex(r.version);
    var d1 := AppendInt32If(dst, r.throttle, r.version >= 1);
    var d2 := if r.version <= 3 then AppendSingle(d1, r.single, r.version, flex)
              else AppendArr(EntryCodec(flex), d1, r.coordinators, flex);
    AppendTags(d2, flex)
  }

  lemma CoordinatorReads(buf: Bytes, off: nat, version: int)
    ensures var r := ReadCoordinator(buf, off, version);
            r.Ok? ==> off < r.off <= |buf| && r.v.version == version && FitsCoordinator(r.v)
                      && WeightN(EntryCodec(Flex(version)), r.v.coordinators) <= r.off - off
  {
    var flex := Flex(version);
    var r := ReadCoordinator(buf, off, version);
    if r.Ok? && version > 3 {
      var o1 := ReadInt32If(buf, off, version >= 1, 0).off;
      EntryLawful(flex);
      ArrReads(EntryCodec(flex), buf, o1, flex);
    }
  }

  lemma CoordinatorTrip(dst: Bytes, r: CoordinatorResponse, buf: Bytes)
    requires FitsCoordinator(r) && AppendCoordinator(dst, r) <= buf
    ensures dst < AppendCoordinator(dst, r)
    ensures ReadCoordinator(buf, |dst|, r.version) == Ok(r, |AppendCoordinator(dst, r)|)
  {
    hide AppendInt32If, AppendSingle, AppendArr, AppendTags, ReadInt32If, ReadSingle, ReadArr, ReadTags;
    var flex := Flex(r.version);
    var d1 := AppendInt32If(dst, r.throttle, r.version >= 1);
    if r.version <= 3 {
      TagsTrip(AppendSingle(d1, r.single, r.version, flex), flex, buf);
      SingleTrip(d1, r.single, r.version, flex, buf);
    } else {
      TagsTrip(AppendArr(EntryCodec(flex), d1, r.coordinators, flex), flex, buf);
      EntryLawful(flex);
      ArrTrip(EntryCodec(flex), d1, r.coordinators, flex, buf);
    }
    Int32IfTrip(dst, r.throttle, r.version >= 1, 0, buf);
  }
}
