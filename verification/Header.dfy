/** Request and response headers, and the locality of the request header: decoding it looks
    at no byte behind it, so a payload can be replaced without disturbing it. */
module Header {
  import opened Ordering
  import opened Wire
  import opened ApiKeys

  datatype RequestHeader = RequestHeader(apiKey: int, version: int, correlId: int, clientId: Opt<Bytes>)

  /** The offset that comes with the header is the header size. The client id is never in
      the compact form; only the tagged fields at the end depend on the version. */
  function ReadRequestHeader(body: Bytes): (r: R<RequestHeader>)
    ensures r.Ok? ==> r.off <= |body| && FitsRequestHeader(r.v)
  {
    var (apiKey, o1) :- ReadInt16(body, 0);
    var (version, o2) :- ReadInt16(body, o1);
    var (correlId, o3) :- ReadInt32(body, o2);
    var (clientId, o4) :- ReadOptStr(body, o3, false);
    var (_, o5) :- ReadTags(body, o4, IsFlexibleRequest(apiKey, version));
    Ok(RequestHeader(apiKey, version, correlId, clientId), o5)
  }

  predicate FitsRequestHeader(h: RequestHeader)
  {
    IsInt16(h.apiKey) && IsInt16(h.version) && IsInt32(h.correlId) && FitsOptStr(h.clientId, false)
  }

  function AppendRequestHeader(dst: Bytes, h: RequestHeader): Bytes
  {
    var d1 := AppendInt16(dst, h.apiKey);
    var d2 := AppendInt16(d1, h.version);
    var d3 := AppendInt32(d2, h.correlId);
    var d4 := AppendOptStr(d3, h.clientId, false);
    AppendTags(d4, IsFlexibleRequest(h.apiKey, h.version))
  }

  lemma RequestHeaderTrip(h: RequestHeader, buf: Bytes)
    requires FitsRequestHeader(h) && AppendRequestHeader([], h) <= buf
    ensures ReadRequestHeader(buf) == Ok(h, |AppendRequestHeader([], h)|)
  {
    var d1 := AppendInt16([], h.apiKey);
    var d2 := AppendInt16(d1, h.version);
    var d3 := AppendInt32(d2, h.correlId);
    var d4 := AppendOptStr(d3, h.clientId, false);
    TagsTrip(d4, IsFlexibleRequest(h.apiKey, h.version), buf);
    OptStrTrip(d3, h.clientId, false, buf);
    Int32Trip(d2, h.correlId, buf);
    Int16Trip(d1, h.version, buf);
    Int16Trip([], h.apiKey, buf);
  }

  function ReadResponseHeader(body: Bytes, apiKey: int, version: int): (r: R<int>)
    ensures r.Ok? ==> r.off <= |body| && IsInt32(r.v)
  {
    var (correlId, o1) :- ReadInt32(body, 0);
    var (_, o2) :- ReadTags(body, o1, IsFlexibleResponse(apiKey, version));
    Ok(correlId, o2)
  }

  function AppendResponseHeader(dst: Bytes, apiKey: int, version: int, correlId: int): Bytes
  {
    AppendTags(AppendInt32(dst, correlId), IsFlexibleResponse(apiKey, version))
  }

  lemma ResponseHeaderTrip(apiKey: int, version: int, correlId: int, buf: Bytes)
    requires IsInt32(correlId) && AppendResponseHeader([], apiKey, version, correlId) <= buf
    ensures ReadResponseHeader(buf, apiKey, version) ==
            Ok(correlId, |AppendResponseHeader([], apiKey, version, correlId)|)
    ensures PeekCorrelId(buf) == Ok(correlId, 4)
  {
    TagsTrip(AppendInt32([], correlId), IsFlexibleResponse(apiKey, version), buf);
    Int32Trip([], correlId, buf);
  }

  function PeekCorrelId(body: Bytes): R<int>
  {
    ReadInt32(body, 0)
  }

  // --------------------------------------------------------------- locality

  /** The buffers agree on their first `n` bytes. */
  ghost predicate Agree(a: Bytes, b: Bytes, n: nat)
  {
    n <= |a| && n <= |b| && forall i :: 0 <= i < n ==> a[i] == b[i]
  }

  lemma Int16Local(a: Bytes, b: Bytes, off: nat, n: nat)
    requires Agree(a, b, n) && ReadInt16(a, off).Ok? && ReadInt16(a, off).off <= n
    ensures ReadInt16(b, off) == ReadInt16(a, off)
  {
  }

  lemma Int32Local(a: Bytes, b: Bytes, off: nat, n: nat)
    requires Agree(a, b, n) && ReadInt32(a, off).Ok? && ReadInt32(a, off).off <= n
    ensures ReadInt32(b, off) == ReadInt32(a, off)
  {
  }

  lemma {:induction false} UvarintFromLocal(a: Bytes, b: Bytes, off: nat, v: nat, k: nat, n: nat)
    requires k <= 5 && Agree(a, b, n) && UvarintFrom(a, off, v, k).Ok? && UvarintFrom(a, off, v, k).off <= n
    ensures UvarintFrom(b, off, v, k) == UvarintFrom(a, off, v, k)
    decreases 5 - k
  {
    UvarintAdvances(a, off, v, k);
    if a[off] >= 0x80 { UvarintFromLocal(a, b, off + 1, v + Digit(a[off], k), k + 1, n); }
  }

  lemma {:induction false} UvarintAdvances(a: Bytes, off: nat, v: nat, k: nat)
    requires k <= 5
    ensures UvarintFrom(a, off, v, k).Ok? ==> off < UvarintFrom(a, off, v, k).off <= |a|
    decreases 5 - k
  {
    if k < 5 && off < |a| { UvarintAdvances(a, off + 1, v + Digit(a[off], k), k + 1); }
  }

  lemma UvarintLocal(a: Bytes, b: Bytes, off: nat, n: nat)
    requires Agree(a, b, n) && ReadUvarint(a, off).Ok? && ReadUvarint(a, off).off <= n
    ensures ReadUvarint(b, off) == ReadUvarint(a, off)
  {
    UvarintFromLocal(a, b, off, 0, 0, n);
  }

  lemma TakeLocal(a: Bytes, b: Bytes, off: nat, k: nat, n: nat)
    requires Agree(a, b, n) && Take(a, off, k).Ok? && off + k <= n
    ensures Take(b, off, k) == Take(a, off, k)
  {
    assert a[off..off + k] == b[off..off + k];
  }

  lemma StringLocal(a: Bytes, b: Bytes, off: nat, n: nat)
    requires Agree(a, b, n) && ReadOptStr(a, off, false).Ok? && ReadOptStr(a, off, false).off <= n
    ensures ReadOptStr(b, off, false) == ReadOptStr(a, off, false)
  {
    Int16Local(a, b, off, n);
    var len := ReadInt16(a, off);
    if len.v >= 0 { TakeLocal(a, b, len.off, len.v, n); }
  }

  lemma SkipTagLocal(a: Bytes, b: Bytes, off: nat, n: nat)
    requires Agree(a, b, n) && SkipTag(a, off).Ok? && SkipTag(a, off).off <= n
    ensures SkipTag(b, off) == SkipTag(a, off)
  {
    var o1 := ReadUvarint(a, off).off;
    var size := ReadUvarint(a, o1);
    UvarintLocal(a, b, off, n);
    UvarintLocal(a, b, o1, n);
    TakeLocal(a, b, size.off, size.v, n);
  }

  lemma {:induction false} SkipTagsLocal(a: Bytes, b: Bytes, off: nat, count: nat, n: nat)
    requires Agree(a, b, n) && SkipTags(a, off, count).Ok? && SkipTags(a, off, count).off <= n
    ensures SkipTags(b, off, count) == SkipTags(a, off, count)
  {
    if count > 0 {
      SkipTagsLocal(a, b, off, count - 1, n);
      SkipTagLocal(a, b, SkipTags(a, off, count - 1).off, n);
    }
  }

  lemma TagsLocal(a: Bytes, b: Bytes, off: nat, flex: bool, n: nat)
    requires Agree(a, b, n) && ReadTags(a, off, flex).Ok? && ReadTags(a, off, flex).off <= n
    ensures ReadTags(b, off, flex) == ReadTags(a, off, flex)
  {
    if flex {
      UvarintLocal(a, b, off, n);
      SkipTagsLocal(a, b, ReadUvarint(a, off).off, ReadUvarint(a, off).v, n);
    }
  }

  /** Header locality: a body that agrees with `a` on the bytes of its header decodes to the
      same header of the same size. */
  lemma RequestHeaderLocal(a: Bytes, b: Bytes)
    requires ReadRequestHeader(a).Ok? && Agree(a, b, ReadRequestHeader(a).off)
    ensures ReadRequestHeader(b) == ReadRequestHeader(a)
  {
    var n := ReadRequestHeader(a).off;
    Int16Local(a, b, 0, n);
    Int16Local(a, b, 2, n);
    Int32Local(a, b, 4, n);
    StringLocal(a, b, 8, n);
    var o4 := ReadOptStr(a, 8, false).off;
    TagsLocal(a, b, o4, IsFlexibleRequest(ReadInt16(a, 0).v, ReadInt16(a, 2).v), n);
  }

  /** Splicing a new payload behind the header of a frame keeps the header, whatever tagged
      fields it carries and whatever the payload. */
  lemma SpliceKeepsHeader(body: Bytes, payload: Bytes)
    requires ReadRequestHeader(body).Ok?
    ensures var k := ReadRequestHeader(body).off;
            ReadRequestHeader(body[..k] + payload) == ReadRequestHeader(body)
  {
    RequestHeaderLocal(body, body[..ReadRequestHeader(body).off] + payload);
  }
}
