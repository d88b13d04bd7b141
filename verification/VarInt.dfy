/** The Minecraft VarInt (internal/mc/varint.go:20-63, 75-111 and internal/mc/sniffer.go:161-179):
    little-endian base-128, at most five bytes, carrying an int32. The code has three decoders; all
    three are proved against one reference.

    Shift-and-or on a uint32 is written as addition modulo 2^32: the or never overlaps, because the
    accumulated value is below 2^(7*i) when byte i is added. */
module VarInts {
  import opened Prelude

  const TWO32: int := 0x1_0000_0000

  /** Reinterpret a uint32 as an int32. */
  function ToInt32(u: int): int {
    if u >= 0x8000_0000 then u - TWO32 else u
  }

  /** Reinterpret an int32 as a uint32. */
  function ToUint32(v: int): int {
    if v < 0 then v + TWO32 else v
  }

  predicate IsInt32(v: int) { -0x8000_0000 <= v < 0x8000_0000 }

  /** 128 to the i. */
  function P128(i: nat): int {
    if i == 0 then 1 else 128 * P128(i - 1)
  }

  /** A complete value with its length; not enough bytes yet; or over five bytes. */
  datatype VarInt = Value(v: int, n: nat) | Truncated(n: nat) | TooLong

  /** The accumulator after one more byte. */
  function Accumulate(acc: int, b: Byte, i: nat): int {
    (acc + b % 128 * P128(i)) % TWO32
  }

  function DecodeFrom(buf: seq<Byte>, i: nat, acc: int): VarInt
    requires i <= 4
    decreases 5 - i
  {
    if i >= |buf| then Truncated(i)
    else
      var a := Accumulate(acc, buf[i], i);
      if buf[i] < 128 then Value(ToInt32(a), i + 1)
      else if i == 4 then TooLong
      else DecodeFrom(buf, i + 1, a)
  }

  function Decode(buf: seq<Byte>): VarInt { DecodeFrom(buf, 0, 0) }

  // ------------------------------------------------------------------------------------------
  // What decoding means.

  /** The base-128 number written by the first n bytes. */
  function Number(buf: seq<Byte>, n: nat): int
    requires n <= |buf|
  {
    if n == 0 then 0 else Number(buf, n - 1) + buf[n - 1] % 128 * P128(n - 1)
  }

  /** The first n bytes are one VarInt: n from 1 to 5, all but the last with the high bit set. */
  ghost predicate Spells(buf: seq<Byte>, n: nat) {
    && 1 <= n <= 5 && n <= |buf|
    && (forall k :: 0 <= k < n - 1 ==> buf[k] >= 128)
    && buf[n - 1] < 128
  }

  /** r is the right reading of buf: a value precisely when the bytes start with a VarInt; more
      bytes wanted precisely when at most four are there and all continue; too long precisely when
      five continue. */
  ghost predicate IsReading(buf: seq<Byte>, r: VarInt) {
    match r
    case Value(v, n) => Spells(buf, n) && v == ToInt32(Number(buf, n) % TWO32)
    case Truncated(n) => n == |buf| && n <= 4 && forall k :: 0 <= k < |buf| ==> buf[k] >= 128
    case TooLong => |buf| >= 5 && forall k :: 0 <= k < 5 ==> buf[k] >= 128
  }

  lemma AddThenWrap(x: int, y: int)
    ensures (x % TWO32 + y) % TWO32 == (x + y) % TWO32
  {
    assert x == x / TWO32 * TWO32 + x % TWO32;
  }

  lemma {:induction false} DecodeFromMeaning(buf: seq<Byte>, i: nat, acc: int)
    requires i <= 4 && i <= |buf| && acc == Number(buf, i) % TWO32
    requires forall k :: 0 <= k < i ==> buf[k] >= 128
    ensures IsReading(buf, DecodeFrom(buf, i, acc))
    decreases 5 - i
  {
    if i < |buf| {
      var a := Accumulate(acc, buf[i], i);
      AddThenWrap(Number(buf, i), buf[i] % 128 * P128(i));
      if buf[i] >= 128 && i < 4 {
        DecodeFromMeaning(buf, i + 1, a);
      }
    }
  }

  /** Decoding is exact: it yields a value precisely when the bytes start with a VarInt, and then
      the int32 that VarInt spells, canonical or not; it asks for more bytes precisely when fewer
      than five are there and all continue; it rejects precisely when five continue. */
  lemma DecodeMeaning(buf: seq<Byte>)
    ensures IsReading(buf, Decode(buf))
  {
    DecodeFromMeaning(buf, 0, 0);
  }

  /** A verdict on a prefix is final. */
  lemma {:induction false} DecodeFromExtends(buf: seq<Byte>, x: seq<Byte>, i: nat, acc: int)
    requires i <= 4 && !DecodeFrom(buf, i, acc).Truncated?
    ensures DecodeFrom(buf + x, i, acc) == DecodeFrom(buf, i, acc)
    decreases 5 - i
  {
    assert (buf + x)[i] == buf[i];
    if buf[i] >= 128 && i < 4 {
      DecodeFromExtends(buf, x, i + 1, Accumulate(acc, buf[i], i));
    }
  }

  lemma DecodeExtends(buf: seq<Byte>, x: seq<Byte>)
    requires !Decode(buf).Truncated?
    ensures Decode(buf + x) == Decode(buf)
  {
    DecodeFromExtends(buf, x, 0, 0);
  }

  // ------------------------------------------------------------------------------------------
  // Encoding.

  function EncodeU(u: nat): seq<Byte> {
    if u < 128 then [u] else [u % 128 + 128] + EncodeU(u / 128)
  }

  function Encode(v: int): seq<Byte>
    requires IsInt32(v)
  {
    EncodeU(ToUint32(v))
  }

  lemma Distribute(q: int, d: int, m: int)
    ensures d * m + q * (128 * m) == (q * 128 + d) * m
  {
  }

  lemma DigitFits(d: int, m: int)
    requires m > 0 && 0 <= d < 128
    ensures 0 <= d * m <= 127 * m
  {
  }

  /** One more byte of the encoding: acc holds the digits so far, u the rest, m is 128^i. */
  lemma SplitDigit(u: nat, m: int, acc: int)
    requires m > 0 && 0 <= acc < m
    ensures u % 128 * m + u / 128 * (128 * m) == u * m
    ensures 0 <= acc + u % 128 * m < 128 * m
  {
    var q, d := u / 128, u % 128;
    assert u == q * 128 + d;
    Distribute(q, d, m);
    DigitFits(d, m);
  }

  lemma Powers()
    ensures P128(0) == 1 && P128(1) == 128 && P128(2) == 16384 && P128(3) == 2097152 && P128(4) == 268435456
  {
    assert P128(2) == 128 * P128(1);
  }

  /** The remaining value still fits: with i digits gone, at most 4 - i more continue. */
  lemma DigitsLeft(i: nat, u: nat, m: int)
    requires i <= 4 && m == P128(i) && u * m < TWO32 && u >= 128
    ensures i < 4
  {
    Powers();
  }

  lemma {:induction false} EncodeDecodes(pre: seq<Byte>, u: nat, x: seq<Byte>, acc: nat, total: nat)
    requires |pre| <= 4 && acc < P128(|pre|) && total == acc + u * P128(|pre|) && total < TWO32
    ensures 1 <= |EncodeU(u)| <= 5 - |pre|
    ensures DecodeFrom(pre + EncodeU(u) + x, |pre|, acc) == Value(ToInt32(total), |pre| + |EncodeU(u)|)
    decreases u
  {
    var i := |pre|;
    var m := P128(i);
    var w := pre + EncodeU(u) + x;
    assert w[i] == EncodeU(u)[0];
    SplitDigit(u, m, acc);
    if u < 128 {
      assert Accumulate(acc, w[i], i) == total;
    } else {
      DigitsLeft(i, u, m);
      var b: Byte := u % 128 + 128;
      var a := acc + u % 128 * m;
      NextDigit(i, acc, b, u % 128, a);
      assert w == pre + [b] + EncodeU(u / 128) + x;
      EncodeDecodes(pre + [b], u / 128, x, a, total);
    }
  }

  lemma NextDigit(i: nat, acc: int, b: Byte, d: int, a: int)
    requires i < 4 && b == d + 128 && 0 <= d && a == acc + d * P128(i) && 0 <= a < 128 * P128(i)
    ensures Accumulate(acc, b, i) == a
  {
    Powers();
    assert b % 128 == d;
  }

  /** Round trip: every int32 encodes to one to five bytes and decodes back, whatever follows. */
  lemma RoundTrip(v: int, x: seq<Byte>)
    requires IsInt32(v)
    ensures 1 <= |Encode(v)| <= 5
    ensures Decode(Encode(v) + x) == Value(v, |Encode(v)|)
  {
    EncodeDecodes([], ToUint32(v), x, 0, ToUint32(v));
    assert [] + Encode(v) + x == Encode(v) + x;
  }

  // ------------------------------------------------------------------------------------------
  // The code's encoder and decoders.

  /** AppendVarInt. */
  method AppendVarInt(dst: seq<Byte>, v: int) returns (out: seq<Byte>)
    requires IsInt32(v)
    ensures out == dst + Encode(v)
  {
    var u := ToUint32(v);
    out := dst;
    while true
      invariant u >= 0 && out + EncodeU(u) == dst + Encode(v)
      decreases u
    {
      var b: Byte := u % 128;
      ghost var u0 := u;
      u := u / 128;
      if u != 0 {
        b := b + 128;
      }
      out := out + [b];
      if u == 0 {
        return;
      }
      assert EncodeU(u0) == [b] + EncodeU(u);
    }
  }

  /** readVarIntPrefix: n is -1 for an over-long VarInt and the bytes seen for a truncated one. */
  method ReadVarIntPrefix(buf: seq<Byte>) returns (val: int, n: int, ok: bool)
    ensures ok == Decode(buf).Value?
    ensures Decode(buf).Value? ==> val == Decode(buf).v && n == Decode(buf).n
    ensures Decode(buf).Truncated? ==> val == 0 && n == Decode(buf).n
    ensures Decode(buf).TooLong? ==> val == 0 && n == -1
  {
    var v := 0;
    var i: nat := 0;
    while true
      invariant i <= 4
      invariant Decode(buf) == DecodeFrom(buf, i, v)
      decreases 5 - i
    {
      if i >= |buf| {
        return 0, i, false;
      }
      var b := buf[i];
      v := Accumulate(v, b, i);
      if b < 128 {
        return ToInt32(v), i + 1, true;
      }
      if i == 4 {
        return 0, -1, false;
      }
      i := i + 1;
    }
  }

  datatype ReadError = Eof | UnexpectedEof | VarIntTooBig | BadLength | BadPacketId

  /** A byte source with a read position, as io.Reader presents one. */
  class Stream {
    const data: seq<Byte>
    var pos: nat

    ghost predicate Valid()
      reads this
    {
      pos <= |data|
    }

    ghost function Rest(): seq<Byte>
      requires Valid()
      reads this
    {
      data[pos..]
    }

    constructor (data: seq<Byte>)
      ensures Valid() && Rest() == data
    {
      this.data := data;
      this.pos := 0;
    }

    /** ReadFull of n bytes: nothing at all there is Eof, a part of it UnexpectedEof. A short read
        consumes what there was. */
    method ReadFull(n: nat) returns (chunk: seq<Byte>, err: ReadError, ok: bool)
      requires Valid()
      modifies this
      ensures Valid()
      ensures ok == (n <= |old(Rest())|)
      ensures ok ==> chunk == old(Rest())[..n] && Rest() == old(Rest())[n..]
      ensures !ok ==> Rest() == [] && err == if old(Rest()) == [] then Eof else UnexpectedEof
    {
      err := Eof;
      if n <= |data| - pos {
        chunk := data[pos..pos + n];
        pos := pos + n;
        ok := true;
      } else {
        chunk := [];
        err := if pos == |data| then Eof else UnexpectedEof;
        pos := |data|;
        ok := false;
      }
    }
  }

  /** ReadVarInt from a stream: consumes exactly the value; an end of input inside the value is
      reported as unexpected. */
  method ReadVarInt(r: Stream) returns (val: int, n: nat, err: ReadError, ok: bool)
    requires r.Valid()
    modifies r
    ensures r.Valid()
    ensures ok == Decode(old(r.Rest())).Value?
    ensures ok ==> val == Decode(old(r.Rest())).v && n == Decode(old(r.Rest())).n
    ensures ok ==> n <= |old(r.Rest())| && r.Rest() == old(r.Rest())[n..]
    ensures Decode(old(r.Rest())).Truncated? ==>
      n == |old(r.Rest())| && err == if n == 0 then Eof else UnexpectedEof
    ensures Decode(old(r.Rest())).TooLong? ==> n == 5 && err == VarIntTooBig
  {
    var v := 0;
    n := 0;
    err := Eof;
    ghost var s := r.Rest();
    while true
      invariant n <= 4 && n <= |s| && r.Valid() && r.Rest() == s[n..]
      invariant Decode(s) == DecodeFrom(s, n, v)
      decreases 5 - n
    {
      var chunk, e, got := r.ReadFull(1);
      if !got {
        err := e;
        if e == Eof && n > 0 {
          err := UnexpectedEof;
        }
        return 0, n, err, false;
      }
      var b := chunk[0];
      assert b == s[n];
      v := Accumulate(v, b, n);
      n := n + 1;
      if b < 128 {
        return ToInt32(v), n, err, true;
      }
      if n == 5 {
        return 0, n, VarIntTooBig, false;
      }
    }
  }
}
