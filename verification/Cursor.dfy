/** The decoders and encoders as they run: a cursor that its readers advance, and loops that
    fill and drain lists. Each follows the reader or appender of the same part in the
    message modules; on an error the cursor still points into its buffer. */
module Cursors {
  import opened Ordering
  import opened Wire

  /** A decoder's result: a value or an error. */
  datatype Res<+T> = Val(value: T) | Err(error: Error) {
    predicate IsFailure() { Err? }
    function PropagateFailure<U>(): Res<U>
      requires Err?
    {
      Err(error)
    }
    function Extract(): T
      requires Val?
    {
      value
    }
  }

  /** The outcome of a decoder that has advanced to `off` is what the reader `r` says. */
  ghost predicate Follows<T>(r: R<T>, res: Res<T>, off: nat)
  {
    match r
    case Ok(v, o) => res == Val(v) && off == o
    case Bad(e) => res == Err(e)
  }

  class Cursor {
    const buf: Bytes
    var off: nat

    ghost predicate Valid()
      reads this
    {
      off <= |buf|
    }

    constructor (buf: Bytes)
      ensures Valid() && this.buf == buf && off == 0
    {
      this.buf := buf;
      off := 0;
    }

    method Int8() returns (res: Res<int>)
      requires Valid()
      modifies this
      ensures Valid() && Follows(ReadInt8(buf, old(off)), res, off)
    {
      if off + 1 > |buf| { return Err(Truncated); }
      res := Val(Signed8(buf[off]));
      off := off + 1;
    }

    method Int16() returns (res: Res<int>)
      requires Valid()
      modifies this
      ensures Valid() && Follows(ReadInt16(buf, old(off)), res, off)
    {
      if off + 2 > |buf| { return Err(Truncated); }
      res := Val(Signed16(U16(buf, off)));
      off := off + 2;
    }

    method Int32() returns (res: Res<int>)
      requires Valid()
      modifies this
      ensures Valid() && Follows(ReadInt32(buf, old(off)), res, off)
    {
      if off + 4 > |buf| { return Err(Truncated); }
      res := Val(Signed32(U16(buf, off) * 0x1_0000 + U16(buf, off + 2)));
      off := off + 4;
    }

    /** The next `n` bytes. */
    method Next(n: nat) returns (res: Res<Bytes>)
      requires Valid()
      modifies this
      ensures Valid() && Follows(Take(buf, old(off), n), res, off)
    {
      if off + n > |buf| { return Err(Truncated); }
      res := Val(buf[off..off + n]);
      off := off + n;
    }

    method Uvarint() returns (res: Res<nat>)
      requires Valid()
      modifies this
      ensures Valid() && Follows(ReadUvarint(buf, old(off)), res, off)
    {
      var v: nat := 0;
      for k := 0 to 5
        invariant Valid() && ReadUvarint(buf, old(off)) == UvarintFrom(buf, off, v, k)
      {
        if off >= |buf| { return Err(Truncated); }
        var b := buf[off];
        off := off + 1;
        v := v + Digit(b, k);
        if b < 0x80 { return Val(v); }
      }
      return Err(Malformed);
    }

    method Str(flex: bool) returns (res: Res<Bytes>)
      requires Valid()
      modifies this
      ensures Valid() && Follows(ReadStr(buf, old(off), flex), res, off)
    {
      if flex {
        var n :- Uvarint();
        if n == 0 { return Err(Malformed); }
        res := Next(n - 1);
      } else {
        var n :- Int16();
        if n < 0 { return Err(Malformed); }
        res := Next(n);
      }
    }

    method OptStr(flex: bool) returns (res: Res<Opt<Bytes>>)
      requires Valid()
      modifies this
      ensures Valid() && Follows(ReadOptStr(buf, old(off), flex), res, off)
    {
      if flex {
        var n :- Uvarint();
        if n == 0 { return Val(None); }
        var s :- Next(n - 1);
        return Val(Some(s));
      } else {
        var n :- Int16();
        if n < 0 { return Val(None); }
        var s :- Next(n);
        return Val(Some(s));
      }
    }

    method OptBytes(flex: bool) returns (res: Res<Opt<Bytes>>)
      requires Valid()
      modifies this
      ensures Valid() && Follows(ReadOptBytes(buf, old(off), flex), res, off)
    {
      if flex {
        res := OptStr(true);
      } else {
        var n :- Int32();
        if n < 0 { return Val(None); }
        var b :- Next(n);
        return Val(Some(b));
      }
    }

    method ArrLen(flex: bool) returns (res: Res<nat>)
      requires Valid()
      modifies this
      ensures Valid() && Follows(ReadArrLen(buf, old(off), flex), res, off)
    {
      if flex {
        var n :- Uvarint();
        if n == 0 { return Val(0); }
        if n - 1 > |buf| - off { return Err(Truncated); }
        return Val(n - 1);
      } else {
        var n :- Int32();
        if n < 0 { return Val(0); }
        if n > |buf| - off { return Err(Truncated); }
        return Val(n);
      }
    }

    /** Tagged fields are skipped in at most half as many rounds as bytes are left, plus one,
        whatever count is announced. */
    method SkipTagged(flex: bool) returns (res: Res<()>, ghost rounds: nat)
      requires Valid()
      modifies this
      ensures Valid() && Follows(ReadTags(buf, old(off), flex), res, off)
      ensures rounds <= (|buf| - old(off)) / 2 + 1
    {
      hide ReadUvarint;
      rounds := 0;
      if !flex { return Val(()), rounds; }
      var count := Uvarint();
      if count.Err? { return Err(count.error), rounds; }
      ghost var start := off;
      for i := 0 to count.value
        invariant Valid() && SkipTags(buf, start, i) == Ok((), off) && rounds == i
        invariant rounds <= (|buf| - start) / 2
      {
        rounds := rounds + 1;
        var one := SkipOne();
        if one.Err? {
          SkipTagsFails(buf, start, i + 1, count.value);
          return one, rounds;
        }
      }
      return Val(()), rounds;
    }

    method SkipOne() returns (res: Res<()>)
      requires Valid()
      modifies this
      ensures Valid() && Follows(SkipTag(buf, old(off)), res, off)
    {
      var _ :- Uvarint();
      var size :- Uvarint();
      var _ :- Next(size);
      return Val(());
    }

    method Int32If(present: bool, default: int) returns (res: Res<int>)
      requires Valid()
      modifies this
      ensures Valid() && Follows(ReadInt32If(buf, old(off), present, default), res, off)
    {
      if !present { return Val(default); }
      res := Int32();
    }

    method OptStrIf(present: bool, flex: bool) returns (res: Res<Opt<Bytes>>)
      requires Valid()
      modifies this
      ensures Valid() && Follows(ReadOptStrIf(buf, old(off), present, flex), res, off)
    {
      if !present { return Val(Some([])); }
      res := OptStr(flex);
    }

    method Int32s(flex: bool) returns (res: Res<seq<int>>)
      requires Valid()
      modifies this
      ensures Valid() && Follows(ReadArr(Int32Codec(), buf, old(off), flex), res, off)
    {
      var n :- ArrLen(flex);
      ghost var start := off;
      var xs: seq<int> := [];
      for i := 0 to n
        invariant Valid() && ReadN(Int32Codec(), buf, start, i) == Ok(xs, off)
      {
        ReadNNext(Int32Codec(), buf, start, i, n, xs, off);
        var x :- Int32();
        xs := xs + [x];
      }
      return Val(xs);
    }
  }

  lemma {:induction false} SkipTagsFails(buf: Bytes, off: nat, i: nat, n: nat)
    requires i <= n && SkipTags(buf, off, i).Bad?
    ensures SkipTags(buf, off, n) == SkipTags(buf, off, i)
  {
    if i < n { SkipTagsFails(buf, off, i, n - 1); }
  }

  /** One element more. */
  lemma ReadNNext<T(!new)>(c: Codec<T>, buf: Bytes, off: nat, i: nat, n: nat, xs: seq<T>, o: nat)
    requires i < n && ReadN(c, buf, off, i) == Ok(xs, o)
    ensures c.read(buf, o).Ok? ==> ReadN(c, buf, off, i + 1) == Ok(xs + [c.read(buf, o).v], c.read(buf, o).off)
    ensures c.read(buf, o).Bad? ==> ReadN(c, buf, off, n) == Bad(c.read(buf, o).e)
  {
    if c.read(buf, o).Bad? { ReadNFails(c, buf, off, i + 1, n); }
  }

  /** An element that does not decode makes the list fail the same way. */
  lemma {:induction false} ReadNFails<T(!new)>(c: Codec<T>, buf: Bytes, off: nat, i: nat, n: nat)
    requires i <= n && ReadN(c, buf, off, i).Bad?
    ensures ReadN(c, buf, off, n).Bad? && ReadN(c, buf, off, n).e == ReadN(c, buf, off, i).e
  {
    if i < n { ReadNFails(c, buf, off, i, n - 1); }
  }

  method EncodeUvarint(dst0: Bytes, v0: nat) returns (dst: Bytes)
    ensures dst == AppendUvarint(dst0, v0)
  {
    dst := dst0;
    var v := v0;
    while v >= 0x80
      invariant AppendUvarint(dst, v) == AppendUvarint(dst0, v0)
    {
      dst := dst + [v % 0x80 + 0x80];
      v := v / 0x80;
    }
    dst := dst + [v];
  }

  method EncodeInt32s(dst0: Bytes, xs: seq<int>, flex: bool) returns (dst: Bytes)
    ensures dst == AppendArr(Int32Codec(), dst0, xs, flex)
  {
    dst := AppendArrLen(dst0, |xs|, flex);
    for i := 0 to |xs|
      invariant dst == AppendN(Int32Codec(), AppendArrLen(dst0, |xs|, flex), xs[..i])
    {
      assert xs[..i + 1][..i] == xs[..i];
      dst := AppendInt32(dst, xs[i]);
    }
    assert xs[..|xs|] == xs;
  }
}
