/** Kafka wire primitives: what each reader returns at an offset of a buffer, and what each
    appender adds to a buffer. Integers are big-endian two's complement; lengths and tagged
    fields of flexible messages are base-128 varints.

    A reader returns the value with the offset behind it. `Append(dst, x)` always extends
    `dst`, so a round trip is stated inside any buffer that starts with the encoding:
    reading at |dst| from any extension of Append(dst, x) yields x and ends where
    Append(dst, x) ends. */
module Wire {
  import opened Ordering

  type Bytes = seq<Byte>

  datatype Opt<+T> = None | Some(value: T)

  datatype Error = Truncated | Malformed

  datatype R<+T> = Ok(v: T, off: nat) | Bad(e: Error) {
    predicate IsFailure() { Bad? }
    function PropagateFailure<U>(): R<U>
      requires Bad?
    {
      Bad(e)
    }
    function Extract(): (T, nat)
      requires Ok?
    {
      (v, off)
    }
  }

  // --------------------------------------------------------------- integers

  predicate IsInt8(v: int) { -0x80 <= v < 0x80 }
  predicate IsInt16(v: int) { -0x8000 <= v < 0x8000 }
  predicate IsInt32(v: int) { -0x8000_0000 <= v < 0x8000_0000 }

  function Signed8(u: int): int { if u < 0x80 then u else u - 0x100 }
  function Signed16(u: int): int { if u < 0x8000 then u else u - 0x1_0000 }
  function Signed32(u: int): int { if u < 0x8000_0000 then u else u - 0x1_0000_0000 }

  function U16(buf: Bytes, off: nat): (u: int)
    requires off + 2 <= |buf|
    ensures 0 <= u < 0x1_0000
  {
    (buf[off] as int) * 0x100 + (buf[off + 1] as int)
  }

  function ReadInt8(buf: Bytes, off: nat): (r: R<int>)
    ensures r.Ok? ==> r.off == off + 1 <= |buf| && IsInt8(r.v)
  {
    if off + 1 > |buf| then Bad(Truncated) else Ok(Signed8(buf[off]), off + 1)
  }

  function ReadInt16(buf: Bytes, off: nat): (r: R<int>)
    ensures r.Ok? ==> r.off == off + 2 <= |buf| && IsInt16(r.v)
  {
    if off + 2 > |buf| then Bad(Truncated) else Ok(Signed16(U16(buf, off)), off + 2)
  }

  function ReadInt32(buf: Bytes, off: nat): (r: R<int>)
    ensures r.Ok? ==> r.off == off + 4 <= |buf| && IsInt32(r.v)
  {
    if off + 4 > |buf| then Bad(Truncated)
    else Ok(Signed32(U16(buf, off) * 0x1_0000 + U16(buf, off + 2)), off + 4)
  }

  function Bytes16(u: int): (b: Bytes)
    requires 0 <= u < 0x1_0000
    ensures |b| == 2
  {
    [u / 0x100, u % 0x100]
  }

  function AppendInt8(dst: Bytes, v: int): Bytes
  {
    dst + [v % 0x100]
  }

  function AppendInt16(dst: Bytes, v: int): Bytes
  {
    dst + Bytes16(v % 0x1_0000)
  }

  function AppendInt32(dst: Bytes, v: int): Bytes
  {
    var u := v % 0x1_0000_0000;
    dst + Bytes16(u / 0x1_0000) + Bytes16(u % 0x1_0000)
  }

  lemma Int8Trip(dst: Bytes, v: int, buf: Bytes)
    requires IsInt8(v) && AppendInt8(dst, v) <= buf
    ensures dst <= buf && |AppendInt8(dst, v)| == |dst| + 1 && ReadInt8(buf, |dst|) == Ok(v, |dst| + 1)
  {
    assert AppendInt8(dst, v)[|dst|] == buf[|dst|];
  }

  lemma U16Trip(dst: Bytes, u: int, buf: Bytes)
    requires 0 <= u < 0x1_0000 && dst + Bytes16(u) <= buf
    ensures U16(buf, |dst|) == u
  {
    var all := dst + Bytes16(u);
    assert all[|dst|] == buf[|dst|] && all[|dst| + 1] == buf[|dst| + 1];
  }

  lemma Int16Trip(dst: Bytes, v: int, buf: Bytes)
    requires IsInt16(v) && AppendInt16(dst, v) <= buf
    ensures dst <= buf && |AppendInt16(dst, v)| == |dst| + 2 && ReadInt16(buf, |dst|) == Ok(v, |dst| + 2)
  {
    U16Trip(dst, v % 0x1_0000, buf);
  }

  lemma Int32Trip(dst: Bytes, v: int, buf: Bytes)
    requires IsInt32(v) && AppendInt32(dst, v) <= buf
    ensures dst <= buf && |AppendInt32(dst, v)| == |dst| + 4 && ReadInt32(buf, |dst|) == Ok(v, |dst| + 4)
  {
    var u := v % 0x1_0000_0000;
    U16Trip(dst, u / 0x1_0000, buf);
    U16Trip(dst + Bytes16(u / 0x1_0000), u % 0x1_0000, buf);
  }

  // ----------------------------------------------------------------- varints

  /** 128^k for the five bytes a varint may have. */
  function Place(k: nat): (w: nat)
    requires k < 5
    ensures w > 0
  {
    [1, 0x80, 0x4000, 0x20_0000, 0x1000_0000][k]
  }

  /** The low seven bits of byte `k`, shifted into place; the shift of the fifth byte drops
      what does not fit 32 bits. */
  function Digit(b: int, k: nat): nat
    requires k < 5
  {
    (b % 0x80) * Place(k) % 0x1_0000_0000
  }

  /** Byte `k` and following; `v` holds the bits read so far. */
  function UvarintFrom(buf: Bytes, off: nat, v: nat, k: nat): R<nat>
    requires k <= 5
    decreases 5 - k
  {
    if k == 5 then Bad(Malformed)
    else if off >= |buf| then Bad(Truncated)
    else
      var v' := v + Digit(buf[off], k);
      if buf[off] < 0x80 then Ok(v', off + 1) else UvarintFrom(buf, off + 1, v', k + 1)
  }

  function ReadUvarint(buf: Bytes, off: nat): (r: R<nat>)
    ensures r.Ok? ==> off < r.off <= |buf| && r.v < 0x1_0000_0000
  {
    UvarintBounds(buf, off, 0, 0);
    UvarintFrom(buf, off, 0, 0)
  }

  function AppendUvarint(dst: Bytes, v: nat): Bytes
    decreases v
  {
    if v >= 0x80 then AppendUvarint(dst + [v % 0x80 + 0x80], v / 0x80) else dst + [v]
  }

  lemma {:induction false} UvarintExtends(dst: Bytes, v: nat)
    ensures dst < AppendUvarint(dst, v)
    decreases v
  {
    if v >= 0x80 { UvarintExtends(dst + [v % 0x80 + 0x80], v / 0x80); }
  }

  /** The first four bytes keep all seven bits, the fifth keeps four. */
  lemma DigitIs(b: nat, k: nat)
    requires k < 5
    ensures k < 4 ==> Digit(b, k) == (b % 0x80) * Place(k)
    ensures k == 4 ==> Digit(b, k) == (b % 0x10) * 0x1000_0000
  {
    LowBits(b);
    if k == 4 { FifthDigit(b % 0x80); } else { LowDigit(b % 0x80, Place(k)); }
  }

  lemma LowBits(b: nat)
    ensures b % 0x80 % 0x10 == b % 0x10
  {
    assert b == 0x80 * (b / 0x80) + b % 0x80;
  }

  lemma LowDigit(x: nat, w: nat)
    requires x < 0x80 && w <= 0x20_0000
    ensures x * w % 0x1_0000_0000 == x * w
  {
    ProductBound(x, w);
    SmallRemainder(x * w);
  }

  lemma ProductBound(x: nat, w: nat)
    requires x < 0x80
    ensures x * w <= 0x7F * w
  {
  }

  lemma SmallRemainder(y: nat)
    requires y < 0x1_0000_0000
    ensures y % 0x1_0000_0000 == y
  {
  }

  lemma FifthDigit(x: nat)
    requires x < 0x80
    ensures x * 0x1000_0000 % 0x1_0000_0000 == (x % 0x10) * 0x1000_0000
  {
    var q, r := x / 0x10, x % 0x10;
    assert x * 0x1000_0000 == q * 0x1_0000_0000 + r * 0x1000_0000;
    assert (q * 0x1_0000_0000 + r * 0x1000_0000) % 0x1_0000_0000 == r * 0x1000_0000;
  }

  lemma Regroup(v: nat, w: nat)
    ensures v * w == (v % 0x80) * w + (v / 0x80) * (0x80 * w)
  {
    var q, r := v / 0x80, v % 0x80;
    assert v == 0x80 * q + r;
    assert (0x80 * q + r) * w == r * w + q * (0x80 * w);
  }

  lemma PlaceStep(k: nat, v: nat)
    requires k < 5 && v * Place(k) < 0x1_0000_0000
    ensures v < 0x80 ==> Digit(v, k) == v * Place(k)
    ensures v >= 0x80 ==> k < 4 && (v / 0x80) * Place(k + 1) < 0x1_0000_0000
                          && Digit(v % 0x80 + 0x80, k) + (v / 0x80) * Place(k + 1) == v * Place(k)
  {
    hide Digit;
    DigitIs(v, k);
    DigitIs(v % 0x80 + 0x80, k);
    assert (v % 0x80 + 0x80) % 0x80 == v % 0x80;
    if k < 4 {
      assert Place(k + 1) == 0x80 * Place(k);
      Regroup(v, Place(k));
    }
  }

  lemma {:induction false} UvarintTripFrom(dst: Bytes, v: nat, buf: Bytes, acc: nat, k: nat, scaled: nat)
    requires k < 5 && scaled == v * Place(k) < 0x1_0000_0000 && AppendUvarint(dst, v) <= buf
    ensures UvarintFrom(buf, |dst|, acc, k) == Ok(acc + scaled, |AppendUvarint(dst, v)|)
    decreases v
  {
    UvarintExtends(dst, v);
    PlaceStep(k, v);
    if v >= 0x80 {
      var b := v % 0x80 + 0x80;
      assert (dst + [b])[|dst|] == b;
      UvarintExtends(dst + [b], v / 0x80);
      assert buf[|dst|] == b;
      UvarintTripFrom(dst + [b], v / 0x80, buf, acc + Digit(b, k), k + 1, (v / 0x80) * Place(k + 1));
    } else {
      assert (dst + [v])[|dst|] == buf[|dst|];
    }
  }

  lemma UvarintTrip(dst: Bytes, v: nat, buf: Bytes)
    requires v < 0x1_0000_0000 && AppendUvarint(dst, v) <= buf
    ensures dst < AppendUvarint(dst, v) && ReadUvarint(buf, |dst|) == Ok(v, |AppendUvarint(dst, v)|)
  {
    UvarintExtends(dst, v);
    UvarintTripFrom(dst, v, buf, 0, 0, v);
  }

  lemma {:induction false} UvarintBounds(buf: Bytes, off: nat, v: nat, k: nat)
    requires k <= 5 && v < if k == 5 then 0x1_0000_0000 else Place(k)
    ensures var r := UvarintFrom(buf, off, v, k);
            r.Ok? ==> off < r.off <= off + 5 - k && r.off <= |buf| && r.v < 0x1_0000_0000
    decreases 5 - k
  {
    if k < 5 && off < |buf| {
      DigitBounds(buf[off], v, k);
      UvarintBounds(buf, off + 1, v + Digit(buf[off], k), k + 1);
    }
  }

  lemma DigitBounds(b: Byte, v: nat, k: nat)
    requires k < 5 && v < Place(k)
    ensures v + Digit(b, k) < if k == 4 then 0x1_0000_0000 else Place(k + 1)
  {
    hide Digit;
    DigitIs(b, k);
    if k < 4 {
      assert (b % 0x80) * Place(k) <= 0x7F * Place(k);
    }
  }

  // --------------------------------------------------- strings and byte runs

  const MAX_STRING := 0x7FFF
  const MAX_BYTES := 0x7FFF_FFFF
  const MAX_COMPACT := 0xFFFF_FFFE

  function Take(buf: Bytes, off: nat, n: nat): (r: R<Bytes>)
    ensures r.Ok? ==> r.off == off + n <= |buf| && |r.v| == n
  {
    if off + n > |buf| then Bad(Truncated) else Ok(buf[off..off + n], off + n)
  }

  lemma TakeTrip(dst: Bytes, s: Bytes, buf: Bytes)
    requires dst + s <= buf
    ensures Take(buf, |dst|, |s|) == Ok(s, |dst| + |s|)
  {
    assert buf[|dst|..|dst| + |s|] == (dst + s)[|dst|..];
  }

  /** Strings: an int16 length, or in flexible messages the length plus one as a varint. */
  predicate FitsStr(s: Bytes, flex: bool)
  {
    |s| <= if flex then MAX_COMPACT else MAX_STRING
  }

  function ReadStr(buf: Bytes, off: nat, flex: bool): (r: R<Bytes>)
    ensures r.Ok? ==> off < r.off <= |buf| && FitsStr(r.v, flex)
  {
    if flex then
      var (n, o) :- ReadUvarint(buf, off);
      if n == 0 then Bad(Malformed) else Take(buf, o, n - 1)
    else
      var (n, o) :- ReadInt16(buf, off);
      if n < 0 then Bad(Malformed) else Take(buf, o, n)
  }

  function AppendStr(dst: Bytes, s: Bytes, flex: bool): Bytes
  {
    (if flex then AppendUvarint(dst, (|s| + 1) % 0x1_0000_0000) else AppendInt16(dst, |s|)) + s
  }

  lemma StrTrip(dst: Bytes, s: Bytes, flex: bool, buf: Bytes)
    requires FitsStr(s, flex) && AppendStr(dst, s, flex) <= buf
    ensures dst < AppendStr(dst, s, flex) && ReadStr(buf, |dst|, flex) == Ok(s, |AppendStr(dst, s, flex)|)
  {
    hide ReadUvarint, AppendUvarint, ReadInt16, AppendInt16;
    if flex {
      UvarintTrip(dst, |s| + 1, buf);
      TakeTrip(AppendUvarint(dst, |s| + 1), s, buf);
    } else {
      Int16Trip(dst, |s|, buf);
      TakeTrip(AppendInt16(dst, |s|), s, buf);
    }
  }

  predicate FitsOptStr(s: Opt<Bytes>, flex: bool)
  {
    s.Some? ==> FitsStr(s.value, flex)
  }

  function ReadOptStr(buf: Bytes, off: nat, flex: bool): (r: R<Opt<Bytes>>)
    ensures r.Ok? ==> off < r.off <= |buf| && FitsOptStr(r.v, flex)
  {
    if flex then
      var (n, o) :- ReadUvarint(buf, off);
      if n == 0 then Ok(None, o) else
        var (s, o') :- Take(buf, o, n - 1);
        Ok(Some(s), o')
    else
      var (n, o) :- ReadInt16(buf, off);
      if n < 0 then Ok(None, o) else
        var (s, o') :- Take(buf, o, n);
        Ok(Some(s), o')
  }

  function AppendOptStr(dst: Bytes, s: Opt<Bytes>, flex: bool): Bytes
  {
    if s.Some? then AppendStr(dst, s.value, flex)
    else if flex then AppendUvarint(dst, 0) else AppendInt16(dst, -1)
  }

  lemma PresentStr(buf: Bytes, off: nat, flex: bool)
    requires ReadStr(buf, off, flex).Ok?
    ensures ReadOptStr(buf, off, flex) == Ok(Some(ReadStr(buf, off, flex).v), ReadStr(buf, off, flex).off)
  {
  }

  lemma OptStrTrip(dst: Bytes, s: Opt<Bytes>, flex: bool, buf: Bytes)
    requires FitsOptStr(s, flex) && AppendOptStr(dst, s, flex) <= buf
    ensures dst < AppendOptStr(dst, s, flex) && ReadOptStr(buf, |dst|, flex) == Ok(s, |AppendOptStr(dst, s, flex)|)
  {
    if s.Some? {
      StrTrip(dst, s.value, flex, buf);
      PresentStr(buf, |dst|, flex);
    } else if flex {
      UvarintTrip(dst, 0, buf);
    } else {
      Int16Trip(dst, -1, buf);
    }
  }

  predicate FitsOptBytes(b: Opt<Bytes>, flex: bool)
  {
    b.Some? ==> |b.value| <= if flex then MAX_COMPACT else MAX_BYTES
  }

  function ReadOptBytes(buf: Bytes, off: nat, flex: bool): (r: R<Opt<Bytes>>)
    ensures r.Ok? ==> off < r.off <= |buf| && FitsOptBytes(r.v, flex)
  {
    if flex then
      ReadOptStr(buf, off, true)
    else
      var (n, o) :- ReadInt32(buf, off);
      if n < 0 then Ok(None, o) else
        var (b, o') :- Take(buf, o, n);
        Ok(Some(b), o')
  }

  function AppendOptBytes(dst: Bytes, b: Opt<Bytes>, flex: bool): Bytes
  {
    if flex then AppendOptStr(dst, b, true)
    else if b.None? then AppendInt32(dst, -1)
    else AppendInt32(dst, |b.value|) + b.value
  }

  lemma OptBytesTrip(dst: Bytes, b: Opt<Bytes>, flex: bool, buf: Bytes)
    requires FitsOptBytes(b, flex) && AppendOptBytes(dst, b, flex) <= buf
    ensures dst < AppendOptBytes(dst, b, flex)
    ensures ReadOptBytes(buf, |dst|, flex) == Ok(b, |AppendOptBytes(dst, b, flex)|)
  {
    if flex {
      OptStrTrip(dst, b, true, buf);
    } else if b.None? {
      Int32Trip(dst, -1, buf);
    } else {
      Int32Trip(dst, |b.value|, buf);
      TakeTrip(AppendInt32(dst, |b.value|), b.value, buf);
    }
  }

  // ------------------------------------------------------ versioned fields

  function ReadInt32If(buf: Bytes, off: nat, present: bool, default: int): (r: R<int>)
    ensures r.Ok? ==> off <= r.off && (off <= |buf| ==> r.off <= |buf|) && FitsInt32If(r.v, present, default)
  {
    if present then ReadInt32(buf, off) else Ok(default, off)
  }

  predicate FitsInt32If(v: int, present: bool, default: int)
  {
    if present then IsInt32(v) else v == default
  }

  function AppendInt32If(dst: Bytes, v: int, present: bool): Bytes
  {
    if present then AppendInt32(dst, v) else dst
  }

  lemma Int32IfTrip(dst: Bytes, v: int, present: bool, default: int, buf: Bytes)
    requires FitsInt32If(v, present, default) && AppendInt32If(dst, v, present) <= buf
    ensures dst <= AppendInt32If(dst, v, present)
    ensures ReadInt32If(buf, |dst|, present, default) == Ok(v, |AppendInt32If(dst, v, present)|)
  {
    if present { Int32Trip(dst, v, buf); }
  }

  /** A nullable string that starts out as the empty string, not as null. */
  function ReadOptStrIf(buf: Bytes, off: nat, present: bool, flex: bool): (r: R<Opt<Bytes>>)
    ensures r.Ok? ==> off <= r.off && (off <= |buf| ==> r.off <= |buf|) && FitsOptStrIf(r.v, present, flex)
  {
    if present then ReadOptStr(buf, off, flex) else Ok(Some([]), off)
  }

  predicate FitsOptStrIf(s: Opt<Bytes>, present: bool, flex: bool)
  {
    if present then FitsOptStr(s, flex) else s == Some([])
  }

  function AppendOptStrIf(dst: Bytes, s: Opt<Bytes>, present: bool, flex: bool): Bytes
  {
    if present then AppendOptStr(dst, s, flex) else dst
  }

  lemma OptStrIfTrip(dst: Bytes, s: Opt<Bytes>, present: bool, flex: bool, buf: Bytes)
    requires FitsOptStrIf(s, present, flex) && AppendOptStrIf(dst, s, present, flex) <= buf
    ensures dst <= AppendOptStrIf(dst, s, present, flex)
    ensures ReadOptStrIf(buf, |dst|, present, flex) == Ok(s, |AppendOptStrIf(dst, s, present, flex)|)
  {
    if present { OptStrTrip(dst, s, flex, buf); }
  }

  // ----------------------------------------------------------- tagged fields

  /** One tagged field: tag, size, and that many bytes. */
  function SkipTag(buf: Bytes, off: nat): (r: R<()>)
    ensures r.Ok? ==> off + 2 <= r.off <= |buf|
  {
    var (_, o1) :- ReadUvarint(buf, off);
    var (size, o2) :- ReadUvarint(buf, o1);
    var (_, o3) :- Take(buf, o2, size);
    Ok((), o3)
  }

  /** Walk past `n` tagged fields. */
  function SkipTags(buf: Bytes, off: nat, n: nat): (r: R<()>)
    ensures r.Ok? ==> off + 2 * n <= r.off && (n > 0 ==> r.off <= |buf|)
  {
    if n == 0 then Ok((), off) else
      var (_, o) :- SkipTags(buf, off, n - 1);
      SkipTag(buf, o)
  }

  function ReadTags(buf: Bytes, off: nat, flex: bool): (r: R<()>)
    ensures r.Ok? ==> off <= r.off && (flex ==> off < r.off <= |buf|) && (!flex ==> r.off == off)
  {
    if !flex then Ok((), off) else
      var (n, o) :- ReadUvarint(buf, off);
      SkipTags(buf, o, n)
  }

  function AppendTags(dst: Bytes, flex: bool): Bytes
  {
    if flex then dst + [0] else dst
  }

  lemma TagsTrip(dst: Bytes, flex: bool, buf: Bytes)
    requires AppendTags(dst, flex) <= buf
    ensures dst <= AppendTags(dst, flex) && ReadTags(buf, |dst|, flex) == Ok((), |AppendTags(dst, flex)|)
  {
    if flex {
      assert AppendUvarint(dst, 0) == dst + [0];
      UvarintTrip(dst, 0, buf);
    }
  }

  // -------------------------------------------------------------- collections

  /** How a kind of value is read and appended, which values fit the format, and how many
      list elements a value stands for: itself and all that are nested in it. */
  datatype Codec<!T> = Codec(
    read: (Bytes, nat) -> R<T>,
    append: (Bytes, T) -> Bytes,
    fits: T -> bool,
    weight: T -> nat)

  /** Encodings extend the buffer and are read back from it, whatever follows. */
  ghost predicate Trips<T(!new)>(c: Codec<T>, dst: Bytes, x: T, buf: Bytes)
  {
    c.fits(x) && c.append(dst, x) <= buf ==>
      dst < c.append(dst, x) && c.read(buf, |dst|) == Ok(x, |c.append(dst, x)|)
  }

  /** What is read stays in bounds, fits the format, and has no more elements than bytes. */
  ghost predicate Reads<T(!new)>(c: Codec<T>, buf: Bytes, off: nat)
  {
    var r := c.read(buf, off);
    r.Ok? ==> off < r.off <= |buf| && c.fits(r.v) && c.weight(r.v) <= r.off - off
  }

  ghost predicate Lawful<T(!new)>(c: Codec<T>)
  {
    && (forall dst, x, buf :: Trips(c, dst, x, buf))
    && (forall buf, off :: Reads(c, buf, off))
  }

  function ReadN<T(!new)>(c: Codec<T>, buf: Bytes, off: nat, n: nat): R<seq<T>>
  {
    if n == 0 then Ok([], off) else
      var (xs, o) :- ReadN(c, buf, off, n - 1);
      var (x, o') :- c.read(buf, o);
      Ok(xs + [x], o')
  }

  function AppendN<T(!new)>(c: Codec<T>, dst: Bytes, xs: seq<T>): Bytes
  {
    if xs == [] then dst else c.append(AppendN(c, dst, xs[..|xs| - 1]), xs[|xs| - 1])
  }

  function WeightN<T(!new)>(c: Codec<T>, xs: seq<T>): nat
  {
    if xs == [] then 0 else WeightN(c, xs[..|xs| - 1]) + c.weight(xs[|xs| - 1])
  }

  lemma {:induction false} ReadNTrip<T(!new)>(c: Codec<T>, dst: Bytes, xs: seq<T>, buf: Bytes)
    requires Lawful(c) && (forall x :: x in xs ==> c.fits(x)) && AppendN(c, dst, xs) <= buf
    ensures dst <= AppendN(c, dst, xs) && |dst| + |xs| <= |AppendN(c, dst, xs)|
    ensures ReadN(c, buf, |dst|, |xs|) == Ok(xs, |AppendN(c, dst, xs)|)
  {
    if xs != [] {
      var n := |xs| - 1;
      var mid := AppendN(c, dst, xs[..n]);
      assert Trips(c, mid, xs[n], buf);
      ReadNTrip(c, dst, xs[..n], buf);
      assert xs == xs[..n] + [xs[n]];
    }
  }

  lemma {:induction false} ReadNReads<T(!new)>(c: Codec<T>, buf: Bytes, off: nat, n: nat)
    requires Lawful(c) && off <= |buf|
    ensures var r := ReadN(c, buf, off, n);
            r.Ok? ==> off + n <= r.off <= |buf| && |r.v| == n && (forall x :: x in r.v ==> c.fits(x))
                      && WeightN(c, r.v) <= r.off - off
  {
    if n > 0 {
      ReadNReads(c, buf, off, n - 1);
      var prior := ReadN(c, buf, off, n - 1);
      if prior.Ok? {
        assert Reads(c, buf, prior.off);
        var r := ReadN(c, buf, off, n);
        if r.Ok? { assert r.v[..n - 1] == prior.v; }
      }
    }
  }

  /** Array lengths: int32, or the length plus one as a varint; null reads as empty. A length
      above the number of bytes left is refused. */
  function ReadArrLen(buf: Bytes, off: nat, flex: bool): (r: R<nat>)
    ensures r.Ok? ==> off < r.off <= |buf| && r.v <= |buf| - r.off && FitsLen(r.v, flex)
  {
    if flex then
      var (n, o) :- ReadUvarint(buf, off);
      if n == 0 then Ok(0, o) else if n - 1 > |buf| - o then Bad(Truncated) else Ok(n - 1, o)
    else
      var (n, o) :- ReadInt32(buf, off);
      if n < 0 then Ok(0, o) else if n > |buf| - o then Bad(Truncated) else Ok(n, o)
  }

  predicate FitsLen(n: nat, flex: bool)
  {
    n <= if flex then MAX_COMPACT else MAX_BYTES
  }

  function AppendArrLen(dst: Bytes, n: nat, flex: bool): Bytes
  {
    if flex then AppendUvarint(dst, (n + 1) % 0x1_0000_0000) else AppendInt32(dst, n)
  }

  lemma ArrLenTrip(dst: Bytes, n: nat, flex: bool, buf: Bytes)
    requires FitsLen(n, flex) && AppendArrLen(dst, n, flex) <= buf && |AppendArrLen(dst, n, flex)| + n <= |buf|
    ensures dst < AppendArrLen(dst, n, flex) && ReadArrLen(buf, |dst|, flex) == Ok(n, |AppendArrLen(dst, n, flex)|)
  {
    hide ReadUvarint, AppendUvarint, ReadInt32, AppendInt32;
    if flex { UvarintTrip(dst, n + 1, buf); } else { Int32Trip(dst, n, buf); }
  }

  function ReadArr<T(!new)>(c: Codec<T>, buf: Bytes, off: nat, flex: bool): R<seq<T>>
  {
    var (n, o) :- ReadArrLen(buf, off, flex);
    ReadN(c, buf, o, n)
  }

  function AppendArr<T(!new)>(c: Codec<T>, dst: Bytes, xs: seq<T>, flex: bool): Bytes
  {
    AppendN(c, AppendArrLen(dst, |xs|, flex), xs)
  }

  predicate FitsArr<T(!new, ==)>(c: Codec<T>, xs: seq<T>, flex: bool)
  {
    FitsLen(|xs|, flex) && forall x :: x in xs ==> c.fits(x)
  }

  /** The guard on array lengths never refuses an encoded array. */
  lemma ArrTrip<T(!new)>(c: Codec<T>, dst: Bytes, xs: seq<T>, flex: bool, buf: Bytes)
    requires Lawful(c) && FitsArr(c, xs, flex) && AppendArr(c, dst, xs, flex) <= buf
    ensures dst < AppendArr(c, dst, xs, flex)
    ensures ReadArr(c, buf, |dst|, flex) == Ok(xs, |AppendArr(c, dst, xs, flex)|)
  {
    ReadNTrip(c, AppendArrLen(dst, |xs|, flex), xs, buf);
    ArrLenTrip(dst, |xs|, flex, buf);
  }

  lemma ArrReads<T(!new)>(c: Codec<T>, buf: Bytes, off: nat, flex: bool)
    requires Lawful(c)
    ensures var r := ReadArr(c, buf, off, flex);
            r.Ok? ==> off < r.off <= |buf| && FitsArr(c, r.v, flex) && WeightN(c, r.v) + off < r.off
  {
    var len := ReadArrLen(buf, off, flex);
    if len.Ok? { ReadNReads(c, buf, len.off, len.v); }
  }

  // ----------------------------------------------------- two element codecs

  function Int32Codec(): Codec<int>
  {
    Codec((b, o) => ReadInt32(b, o), (d, v) => AppendInt32(d, v), v => IsInt32(v), v => 1)
  }

  lemma Int32Lawful()
    ensures Lawful(Int32Codec())
  {
    var c := Int32Codec();
    forall dst, x, buf ensures Trips(c, dst, x, buf) {
      if c.fits(x) && c.append(dst, x) <= buf { Int32Trip(dst, x, buf); }
    }
  }

  function StrCodec(flex: bool): Codec<Bytes>
  {
    Codec((b, o) => ReadStr(b, o, flex), (d, s) => AppendStr(d, s, flex), s => FitsStr(s, flex), s => 1)
  }

  lemma StrLawful(flex: bool)
    ensures Lawful(StrCodec(flex))
  {
    var c := StrCodec(flex);
    forall dst, x, buf ensures Trips(c, dst, x, buf) {
      if c.fits(x) && c.append(dst, x) <= buf { StrTrip(dst, x, flex, buf); }
    }
  }
}
