/** Packet bodies and framing: the body reader (internal/mc/varint.go:66-197), packet read and write
    (internal/mc/packet.go:20-48), the sniffer's frame splitting (internal/mc/sniffer.go:143-189),
    the handshake (internal/mc/handshake.go) and login start (internal/mc/login.go). Strings are
    their bytes. */
module Packets {
  import opened VarInts
  import opened Prelude

  datatype BodyError = ErrTruncated | ErrVarIntTooBig | ErrStringTooLong

  /** What a body reader can still do: read on from rest, or nothing more after its first error. */
  datatype Reader = At(rest: seq<Byte>) | Stuck(err: BodyError)

  const ZERO_UUID: seq<Byte> := [0, 0, 0, 0, 0, 0, 0, 0, 0, 0, 0, 0, 0, 0, 0, 0]

  function VarIntR(r: Reader): (int, Reader) {
    if r.Stuck? then (0, r)
    else
      DecodeMeaning(r.rest);
      match Decode(r.rest)
      case Value(v, n) => (v, At(r.rest[n..]))
      case Truncated(_) => (0, Stuck(ErrTruncated))
      case TooLong => (0, Stuck(ErrVarIntTooBig))
  }

  function StringR(r: Reader, maxBytes: nat): (seq<Byte>, Reader) {
    var (n, r1) := VarIntR(r);
    if r1.Stuck? then ([], r1)
    else if n < 0 || n > maxBytes then ([], Stuck(ErrStringTooLong))
    else if n > |r1.rest| then ([], Stuck(ErrTruncated))
    else (r1.rest[..n], At(r1.rest[n..]))
  }

  function BigEndian(hi: Byte, lo: Byte): int {
    var h: int := hi;
    h * 256 + lo
  }

  function Uint16R(r: Reader): (int, Reader) {
    if r.Stuck? then (0, r)
    else if |r.rest| < 2 then (0, Stuck(ErrTruncated))
    else (BigEndian(r.rest[0], r.rest[1]), At(r.rest[2..]))
  }

  function BooleanR(r: Reader): (bool, Reader) {
    if r.Stuck? then (false, r)
    else if |r.rest| < 1 then (false, Stuck(ErrTruncated))
    else (r.rest[0] != 0, At(r.rest[1..]))
  }

  /** A missing UUID does not make the reader stuck. */
  function UuidR(r: Reader): (Option<seq<Byte>>, Reader) {
    if r.Stuck? || |r.rest| < 16 then (None, r)
    else (Some(r.rest[..16]), At(r.rest[16..]))
  }

  function SkipR(r: Reader, n: int): Reader {
    if r.Stuck? then r
    else if n < 0 || n > |r.rest| then Stuck(ErrTruncated)
    else At(r.rest[n..])
  }

  function SkipByteArrayR(r: Reader, maxBytes: nat): Reader {
    var (n, r1) := VarIntR(r);
    if r1.Stuck? then r1
    else if n < 0 || n > maxBytes then Stuck(ErrStringTooLong)
    else SkipR(r1, n)
  }

  /** bodyReader: an offset into a body and a sticky error. */
  class BodyReader {
    const b: seq<Byte>
    var off: nat
    var err: Option<BodyError>

    ghost predicate Valid()
      reads this
    {
      off <= |b|
    }

    ghost function State(): Reader
      requires Valid()
      reads this
    {
      if err.Some? then Stuck(err.value) else At(b[off..])
    }

    constructor (b: seq<Byte>)
      ensures Valid() && this.b == b && off == 0 && State() == At(b)
    {
      this.b := b;
      this.off := 0;
      this.err := None;
    }

    method Fail(e: BodyError)
      requires Valid()
      modifies this`err
      ensures State() == if old(State()).Stuck? then old(State()) else Stuck(e)
    {
      if err.None? {
        err := Some(e);
      }
    }

    /** The third of the code's VarInt decoders. */
    method Varint() returns (v: int)
      requires Valid()
      modifies this
      ensures Valid() && (v, State()) == VarIntR(old(State()))
    {
      if err.Some? {
        return 0;
      }
      v := 0;
      var n: nat := 0;
      ghost var s := b[off..];
      while true
        invariant n <= 4 && n <= |s| && Valid() && err.None? && b[off..] == s[n..]
        invariant Decode(s) == DecodeFrom(s, n, v)
        decreases 5 - n
      {
        if off >= |b| {
          assert Decode(s) == Truncated(n);
          Fail(ErrTruncated);
          return 0;
        }
        var x := b[off];
        assert x == s[n];
        off := off + 1;
        v := Accumulate(v, x, n);
        n := n + 1;
        assert b[off..] == s[n..];
        if x < 128 {
          assert Decode(s) == Value(ToInt32(v), n);
          return ToInt32(v);
        }
        if n == 5 {
          assert Decode(s) == TooLong;
          Fail(ErrVarIntTooBig);
          return 0;
        }
      }
    }

    /** The code's string method. */
    method Str(maxBytes: nat) returns (s: seq<Byte>)
      requires Valid()
      modifies this
      ensures Valid() && (s, State()) == StringR(old(State()), maxBytes)
    {
      var n := Varint();
      if err.Some? {
        return [];
      }
      if n < 0 || n > maxBytes {
        Fail(ErrStringTooLong);
        return [];
      }
      if off + n > |b| {
        Fail(ErrTruncated);
        return [];
      }
      s := b[off..off + n];
      assert b[off..][..n] == s && b[off..][n..] == b[off + n..];
      off := off + n;
    }

    method Uint16() returns (v: int)
      requires Valid()
      modifies this
      ensures Valid() && (v, State()) == Uint16R(old(State()))
    {
      if err.Some? {
        return 0;
      }
      if off + 2 > |b| {
        Fail(ErrTruncated);
        return 0;
      }
      v := BigEndian(b[off], b[off + 1]);
      off := off + 2;
    }

    method Boolean() returns (v: bool)
      requires Valid()
      modifies this
      ensures Valid() && (v, State()) == BooleanR(old(State()))
    {
      if err.Some? {
        return false;
      }
      if off >= |b| {
        Fail(ErrTruncated);
        return false;
      }
      v := b[off] != 0;
      off := off + 1;
    }

    method Uuid() returns (u: seq<Byte>, ok: bool)
      requires Valid()
      modifies this
      ensures Valid() && ((if ok then Some(u) else None), State()) == UuidR(old(State()))
      ensures !ok ==> u == ZERO_UUID
    {
      if err.Some? || off + 16 > |b| {
        return ZERO_UUID, false;
      }
      u := b[off..off + 16];
      assert b[off..][..16] == u && b[off..][16..] == b[off + 16..];
      off := off + 16;
      ok := true;
    }

    method Skip(n: int)
      requires Valid()
      modifies this
      ensures Valid() && State() == SkipR(old(State()), n)
    {
      if err.Some? {
        return;
      }
      if n < 0 || off + n > |b| {
        Fail(ErrTruncated);
        return;
      }
      off := off + n;
    }

    method SkipByteArray(maxBytes: nat)
      requires Valid()
      modifies this
      ensures Valid() && State() == SkipByteArrayR(old(State()), maxBytes)
    {
      var n := Varint();
      if err.Some? {
        return;
      }
      if n < 0 || n > maxBytes {
        Fail(ErrStringTooLong);
        return;
      }
      Skip(n);
    }

    method Remaining() returns (n: nat)
      requires Valid()
      ensures State().At? ==> n == |State().rest|
    {
      n := |b| - off;
    }
  }

  // ------------------------------------------------------------------------------------------
  // Framing.

  datatype Frame = FrameOk(body: seq<Byte>, consumed: nat) | FrameIncomplete | FrameBad

  function SplitFrame(buf: seq<Byte>, maxSize: int): Frame {
    DecodeMeaning(buf);
    match Decode(buf)
    case TooLong => FrameBad
    case Truncated(_) => FrameIncomplete
    case Value(length, n) =>
      if length <= 0 || length > maxSize then FrameBad
      else if |buf| < n + length then FrameIncomplete
      else FrameOk(buf[n..n + length], n + length)
  }

  /** packetID: the VarInt id and what follows it. */
  function PacketId(body: seq<Byte>): Option<(int, seq<Byte>)> {
    var (id, r) := VarIntR(At(body));
    if r.Stuck? then None else Some((id, r.rest))
  }

  /** splitFrame. */
  method Split(buf: seq<Byte>, maxSize: int) returns (f: Frame)
    ensures f == SplitFrame(buf, maxSize)
  {
    DecodeMeaning(buf);
    var length, n, ok := ReadVarIntPrefix(buf);
    if !ok {
      return if n < 0 then FrameBad else FrameIncomplete;
    }
    if length <= 0 || length > maxSize {
      return FrameBad;
    }
    var total := n + length;
    if |buf| < total {
      return FrameIncomplete;
    }
    return FrameOk(buf[n..total], total);
  }

  /** packetID. */
  method SplitPacketId(body: seq<Byte>) returns (id: int, payload: seq<Byte>, ok: bool)
    ensures ok == PacketId(body).Some?
    ensures ok ==> (id, payload) == PacketId(body).value
  {
    var rd := new BodyReader(body);
    id := rd.Varint();
    if rd.err.Some? {
      return 0, [], false;
    }
    payload := body[rd.off..];
    ok := true;
  }

  /** The framed part of ReadPacket: length, cap, and that many bytes. */
  method ReadFrame(r: Stream, maxSize: int) returns (raw: seq<Byte>, err: ReadError, ok: bool)
    requires r.Valid()
    modifies r
    ensures r.Valid()
    ensures ok == SplitFrame(old(r.Rest()), maxSize).FrameOk?
    ensures ok ==> raw == SplitFrame(old(r.Rest()), maxSize).body
    ensures ok ==> r.Rest() == old(r.Rest())[SplitFrame(old(r.Rest()), maxSize).consumed..]
    ensures SplitFrame(old(r.Rest()), maxSize).FrameBad? ==> err in {VarIntTooBig, BadLength}
    ensures SplitFrame(old(r.Rest()), maxSize).FrameIncomplete? ==> err in {Eof, UnexpectedEof}
  {
    ghost var s := r.Rest();
    DecodeMeaning(s);
    var length, n, e, got := ReadVarInt(r);
    if !got {
      return [], e, false;
    }
    if length <= 0 || length > maxSize {
      return [], BadLength, false;
    }
    raw, err, ok := r.ReadFull(length);
    if ok {
      assert raw == s[n..n + length];
      assert r.Rest() == s[n + length..];
    }
  }

  /** ReadPacket agrees with splitFrame and packetID over the same bytes: it succeeds on exactly the
      inputs they accept, with their id and body, and consumes exactly the frame. Each way they
      refuse is one of its errors. */
  method ReadPacket(r: Stream, maxSize: int) returns (id: int, body: seq<Byte>, err: ReadError, ok: bool)
    requires r.Valid()
    modifies r
    ensures r.Valid()
    ensures SplitFrame(old(r.Rest()), maxSize).FrameBad? ==> !ok && err in {VarIntTooBig, BadLength}
    ensures SplitFrame(old(r.Rest()), maxSize).FrameIncomplete? ==> !ok && err in {Eof, UnexpectedEof}
    ensures SplitFrame(old(r.Rest()), maxSize).FrameOk? ==>
      var f := SplitFrame(old(r.Rest()), maxSize);
      && r.Rest() == old(r.Rest())[f.consumed..]
      && ok == PacketId(f.body).Some?
      && (ok ==> (id, body) == PacketId(f.body).value)
      && (!ok ==> err == BadPacketId)
  {
    var raw, e, whole := ReadFrame(r, maxSize);
    if !whole {
      return 0, [], e, false;
    }
    id, body, ok := SplitPacketId(raw);
    err := BadPacketId;
  }

  /** The cast of a length to int32. */
  function Cast32(n: nat): int { ToInt32(n % TWO32) }

  lemma CastIsInt32(n: nat)
    ensures IsInt32(Cast32(n))
  {
  }

  /** The bytes WritePacket sends. */
  function Packet(id: int, body: seq<Byte>): seq<Byte>
    requires IsInt32(id)
  {
    var idBytes := Encode(id);
    CastIsInt32(|idBytes| + |body|);
    Encode(Cast32(|idBytes| + |body|)) + idBytes + body
  }

  method WritePacket(id: int, body: seq<Byte>) returns (frame: seq<Byte>)
    requires IsInt32(id)
    ensures frame == Packet(id, body)
  {
    var idBytes := AppendVarInt([], id);
    assert idBytes == Encode(id);
    CastIsInt32(|idBytes| + |body|);
    frame := AppendVarInt([], Cast32(|idBytes| + |body|));
    frame := frame + idBytes;
    frame := frame + body;
  }

  /** Reading inverts writing within the cap: whatever follows on the stream, the frame is found
      whole and gives back the id and the body. */
  lemma PacketRoundTrip(id: int, body: seq<Byte>, maxSize: int, x: seq<Byte>)
    requires IsInt32(id) && IsInt32(maxSize) && |Encode(id)| + |body| <= maxSize
    ensures SplitFrame(Packet(id, body) + x, maxSize) == FrameOk(Encode(id) + body, |Packet(id, body)|)
    ensures PacketId(Encode(id) + body) == Some((id, body))
  {
    RoundTrip(id, body);
    assert (Encode(id) + body)[|Encode(id)|..] == body;
    var len := |Encode(id)| + |body|;
    assert Cast32(len) == len;
    var head := Encode(len);
    RoundTrip(len, Encode(id) + body + x);
    assert Packet(id, body) + x == head + (Encode(id) + body + x);
    assert (Packet(id, body) + x)[|head|..|head| + len] == Encode(id) + body;
  }

  /** A whole or a malformed frame is recognised as soon as its bytes are there, and more bytes do
      not change it. */
  lemma SplitExtends(buf: seq<Byte>, x: seq<Byte>, maxSize: int)
    requires !SplitFrame(buf, maxSize).FrameIncomplete?
    ensures SplitFrame(buf + x, maxSize) == SplitFrame(buf, maxSize)
  {
    DecodeMeaning(buf);
    DecodeExtends(buf, x);
    match SplitFrame(buf, maxSize)
    case FrameOk(body, c) => assert (buf + x)[c - |body|..c] == buf[c - |body|..c];
    case FrameBad =>
    case FrameIncomplete =>
  }

  /** An incomplete frame is short: under the length prefix and the cap. */
  lemma IncompleteIsShort(buf: seq<Byte>, maxSize: nat)
    requires SplitFrame(buf, maxSize).FrameIncomplete?
    ensures |buf| <= 4 + maxSize
  {
    DecodeMeaning(buf);
  }

  // ------------------------------------------------------------------------------------------
  // The handshake.

  const MAX_SERVER_ADDRESS := 4096
  const STATUS := 1
  const LOGIN := 2
  const TRANSFER := 3

  datatype Handshake = Handshake(protocol: int, address: seq<Byte>, port: int, next: int)

  function HandshakeOf(id: int, body: seq<Byte>): Option<Handshake> {
    if id != 0 then None
    else
      var (protocol, r1) := VarIntR(At(body));
      var (address, r2) := StringR(r1, MAX_SERVER_ADDRESS);
      var (port, r3) := Uint16R(r2);
      var (next, r4) := VarIntR(r3);
      if r4.Stuck? || r4.rest != [] || next !in {STATUS, LOGIN, TRANSFER} then None
      else Some(Handshake(protocol, address, port, next))
  }

  method ParseHandshake(id: int, body: seq<Byte>) returns (h: Option<Handshake>)
    ensures h == HandshakeOf(id, body)
  {
    if id != 0 {
      return None;
    }
    var rd := new BodyReader(body);
    var protocol := rd.Varint();
    var address := rd.Str(MAX_SERVER_ADDRESS);
    var port := rd.Uint16();
    var next := rd.Varint();
    if rd.err.Some? {
      return None;
    }
    var left := rd.Remaining();
    if left != 0 {
      return None;
    }
    if next != STATUS && next != LOGIN && next != TRANSFER {
      return None;
    }
    return Some(Handshake(protocol, address, port, next));
  }

  /** w is one whole VarInt worth v, canonical or not. */
  ghost predicate VarIntBytes(w: seq<Byte>, v: int) {
    Spells(w, |w|) && v == ToInt32(Number(w, |w|) % TWO32)
  }

  lemma {:induction false} NumberOfPrefix(a: seq<Byte>, b: seq<Byte>, n: nat)
    requires n <= |a| <= |b| && a == b[..|a|]
    ensures Number(a, n) == Number(b, n)
  {
    if n > 0 {
      NumberOfPrefix(a, b, n - 1);
      assert a[n - 1] == b[n - 1];
    }
  }

  /** Reading a VarInt takes off exactly one spelled VarInt. */
  lemma VarIntTakes(r: Reader) returns (w: seq<Byte>)
    requires VarIntR(r).1.At?
    ensures r.At? && r.rest == w + VarIntR(r).1.rest && VarIntBytes(w, VarIntR(r).0)
  {
    DecodeMeaning(r.rest);
    var n := Decode(r.rest).n;
    w := r.rest[..n];
    NumberOfPrefix(w, r.rest, n);
  }

  lemma VarIntGives(w: seq<Byte>, v: int, x: seq<Byte>)
    requires VarIntBytes(w, v)
    ensures VarIntR(At(w + x)) == (v, At(x))
  {
    DecodeMeaning(w);
    assert Decode(w) == Value(v, |w|);
    DecodeExtends(w, x);
  }

  /** The bytes of a handshake, from the spelling of its three VarInts. */
  function HandshakeBytes(h: Handshake, v1: seq<Byte>, v2: seq<Byte>, v3: seq<Byte>): seq<Byte>
    requires 0 <= h.port < 65536
  {
    v1 + (v2 + (h.address + ([h.port / 256, h.port % 256] + v3)))
  }

  /** The wire layout: three VarInts in any spelling around the address and a big-endian port, and
      nothing after them. */
  ghost predicate HandshakeLayout(body: seq<Byte>, h: Handshake, v1: seq<Byte>, v2: seq<Byte>, v3: seq<Byte>) {
    && 0 <= h.port < 65536 && |h.address| <= MAX_SERVER_ADDRESS && h.next in {STATUS, LOGIN, TRANSFER}
    && VarIntBytes(v1, h.protocol) && VarIntBytes(v2, |h.address|) && VarIntBytes(v3, h.next)
    && body == HandshakeBytes(h, v1, v2, v3)
  }

  lemma StringGives(w: seq<Byte>, s: seq<Byte>, x: seq<Byte>, cap: nat)
    requires VarIntBytes(w, |s|) && |s| <= cap
    ensures StringR(At(w + (s + x)), cap) == (s, At(x))
  {
    VarIntGives(w, |s|, s + x);
    assert (s + x)[..|s|] == s && (s + x)[|s|..] == x;
  }

  lemma PortGives(port: int, x: seq<Byte>)
    requires 0 <= port < 65536
    ensures Uint16R(At([port / 256, port % 256] + x)) == (port, At(x))
  {
    var two: seq<Byte> := [port / 256, port % 256];
    assert (two + x)[2..] == x;
  }

  lemma LayoutIsRead(body: seq<Byte>, h: Handshake, v1: seq<Byte>, v2: seq<Byte>, v3: seq<Byte>)
    requires HandshakeLayout(body, h, v1, v2, v3)
    ensures HandshakeOf(0, body) == Some(h)
  {
    var t3: seq<Byte> := [h.port / 256, h.port % 256] + v3;
    VarIntGives(v1, h.protocol, v2 + (h.address + t3));
    StringGives(v2, h.address, t3, MAX_SERVER_ADDRESS);
    PortGives(h.port, v3);
    VarIntGives(v3, h.next, []);
    assert v3 + [] == v3;
  }

  lemma StringTakes(r: Reader, cap: nat) returns (w: seq<Byte>)
    requires StringR(r, cap).1.At?
    ensures r.At? && r.rest == w + (StringR(r, cap).0 + StringR(r, cap).1.rest)
    ensures |StringR(r, cap).0| <= cap && VarIntBytes(w, |StringR(r, cap).0|)
  {
    w := VarIntTakes(r);
    var (s, r2) := StringR(r, cap);
    assert VarIntR(r).1.rest == s + r2.rest;
  }

  lemma PortTakes(r: Reader)
    requires Uint16R(r).1.At?
    ensures r.At? && 0 <= Uint16R(r).0 < 65536
    ensures r.rest == [Uint16R(r).0 / 256, Uint16R(r).0 % 256] + Uint16R(r).1.rest
  {
    var p := Uint16R(r).0;
    assert p / 256 == r.rest[0] && p % 256 == r.rest[1];
  }

  lemma ReadIsLayout(body: seq<Byte>, h: Handshake) returns (v1: seq<Byte>, v2: seq<Byte>, v3: seq<Byte>)
    requires HandshakeOf(0, body) == Some(h)
    ensures HandshakeLayout(body, h, v1, v2, v3)
  {
    var r1 := VarIntR(At(body)).1;
    var r2 := StringR(r1, MAX_SERVER_ADDRESS).1;
    var r3 := Uint16R(r2).1;
    v1 := VarIntTakes(At(body));
    v2 := StringTakes(r1, MAX_SERVER_ADDRESS);
    PortTakes(r2);
    v3 := VarIntTakes(r3);
    assert v3 == r3.rest;
  }

  /** The handshake parser accepts exactly the handshake layout, and reads every field from it. */
  lemma HandshakeExact(body: seq<Byte>, h: Handshake)
    ensures HandshakeOf(0, body) == Some(h) <==> exists v1, v2, v3 :: HandshakeLayout(body, h, v1, v2, v3)
  {
    if HandshakeOf(0, body) == Some(h) {
      var v1, v2, v3 := ReadIsLayout(body, h);
    }
    forall v1, v2, v3 | HandshakeLayout(body, h, v1, v2, v3)
      ensures HandshakeOf(0, body) == Some(h)
    {
      LayoutIsRead(body, h, v1, v2, v3);
    }
  }

  // ------------------------------------------------------------------------------------------
  // Login start.

  const MAX_SIG_FIELD := 8192

  predicate NameByte(b: Byte) {
    'A' as int <= b <= 'Z' as int || 'a' as int <= b <= 'z' as int || '0' as int <= b <= '9' as int || b == '_' as int
  }

  predicate ValidName(name: seq<Byte>) {
    1 <= |name| <= 16 && forall k :: 0 <= k < |name| ==> NameByte(name[k])
  }

  datatype LoginStart = LoginStart(name: seq<Byte>, uuid: Option<seq<Byte>>)

  /** skipSignatureData. */
  function SkipSigR(r: Reader): Reader {
    var (has, r1) := BooleanR(r);
    if !has then r1
    else SkipByteArrayR(SkipByteArrayR(SkipR(r1, 8), MAX_SIG_FIELD), MAX_SIG_FIELD)
  }

  function OptionalUuid(r: Reader): Option<seq<Byte>> {
    var (has, r1) := BooleanR(r);
    if has then UuidR(r1).0 else None
  }

  function LoginUuid(protocol: int, r: Reader): Option<seq<Byte>> {
    if protocol >= 764 then UuidR(r).0
    else if protocol >= 761 then OptionalUuid(r)
    else if protocol == 760 then OptionalUuid(SkipSigR(r))
    else None
  }

  function LoginStartOf(protocol: int, body: seq<Byte>): Option<LoginStart> {
    var (name, r) := StringR(At(body), 16);
    if r.Stuck? || !ValidName(name) then None
    else Some(LoginStart(name, LoginUuid(protocol, r)))
  }

  method CheckName(name: seq<Byte>) returns (ok: bool)
    ensures ok == ValidName(name)
  {
    if |name| < 1 || |name| > 16 {
      return false;
    }
    for k := 0 to |name|
      invariant forall j :: 0 <= j < k ==> NameByte(name[j])
    {
      if !NameByte(name[k]) {
        return false;
      }
    }
    ok := true;
  }

  method SkipSignatureData(rd: BodyReader)
    requires rd.Valid()
    modifies rd
    ensures rd.Valid() && rd.State() == SkipSigR(old(rd.State()))
  {
    var has := rd.Boolean();
    if !has {
      return;
    }
    rd.Skip(8);
    rd.SkipByteArray(MAX_SIG_FIELD);
    rd.SkipByteArray(MAX_SIG_FIELD);
  }

  method ReadUuid(rd: BodyReader) returns (uuid: Option<seq<Byte>>)
    requires rd.Valid()
    modifies rd
    ensures rd.Valid() && uuid == UuidR(old(rd.State())).0
  {
    var u, ok := rd.Uuid();
    uuid := if ok then Some(u) else None;
  }

  method ParseLoginStart(protocol: int, body: seq<Byte>) returns (ls: Option<LoginStart>)
    ensures ls == LoginStartOf(protocol, body)
  {
    var rd := new BodyReader(body);
    var name := rd.Str(16);
    if rd.err.Some? {
      return None;
    }
    var valid := CheckName(name);
    if !valid {
      return None;
    }
    var uuid: Option<seq<Byte>> := None;
    if protocol >= 764 {
      uuid := ReadUuid(rd);
    } else if protocol >= 761 {
      var has := rd.Boolean();
      if has {
        uuid := ReadUuid(rd);
      }
    } else if protocol == 760 {
      SkipSignatureData(rd);
      var has := rd.Boolean();
      if has {
        uuid := ReadUuid(rd);
      }
    } else if protocol == 759 {
      SkipSignatureData(rd);
    }
    ls := Some(LoginStart(name, uuid));
  }

  /** A chat-signing block. */
  datatype Signature = Signature(expiry: seq<Byte>, publicKey: seq<Byte>, signature: seq<Byte>)

  ghost predicate ValidSignature(sig: Option<Signature>) {
    sig.Some? ==>
      && |sig.value.expiry| == 8 && |sig.value.publicKey| <= MAX_SIG_FIELD
      && |sig.value.signature| <= MAX_SIG_FIELD
  }

  ghost predicate ValidUuid(uuid: Option<seq<Byte>>) {
    uuid.Some? ==> |uuid.value| == 16
  }

  /** AppendString. */
  function Prefixed(s: seq<Byte>): seq<Byte>
    requires |s| < 0x8000_0000
  {
    Encode(|s|) + s
  }

  ghost function SigBytes(sig: Option<Signature>): seq<Byte>
    requires ValidSignature(sig)
  {
    if sig.None? then [0]
    else [1] + (sig.value.expiry + (Prefixed(sig.value.publicKey) + Prefixed(sig.value.signature)))
  }

  ghost function UuidBytes(uuid: Option<seq<Byte>>): seq<Byte> {
    if uuid.None? then [0] else [1] + uuid.value
  }

  /** AppendString and the string reader are inverse under the reader's cap. */
  lemma StringRoundTrip(s: seq<Byte>, cap: nat, x: seq<Byte>)
    requires |s| < 0x8000_0000
    ensures StringR(At(Prefixed(s) + x), cap) == if |s| <= cap then (s, At(x)) else ([], Stuck(ErrStringTooLong))
    ensures |s| <= cap ==> SkipByteArrayR(At(Prefixed(s) + x), cap) == At(x)
  {
    RoundTrip(|s|, s + x);
    assert Prefixed(s) + x == Encode(|s|) + (s + x);
    assert (Encode(|s|) + (s + x))[|Encode(|s|)|..] == s + x;
    assert VarIntR(At(Prefixed(s) + x)) == (|s|, At(s + x));
  }

  lemma SkipFront(front: seq<Byte>, x: seq<Byte>)
    ensures SkipR(At(front + x), |front|) == At(x)
  {
    assert (front + x)[|front|..] == x;
  }

  lemma ReadFlag(flag: Byte, x: seq<Byte>)
    ensures BooleanR(At([flag] + x)) == (flag != 0, At(x))
  {
    assert ([flag] + x)[1..] == x;
  }

  lemma SigRoundTrip(sig: Option<Signature>, x: seq<Byte>)
    requires ValidSignature(sig)
    ensures SkipSigR(At(SigBytes(sig) + x)) == At(x)
  {
    if sig.Some? {
      var k, g := Prefixed(sig.value.publicKey), Prefixed(sig.value.signature);
      assert SigBytes(sig) + x == [1] + (sig.value.expiry + (k + (g + x)));
      ReadFlag(1, sig.value.expiry + (k + (g + x)));
      SkipFront(sig.value.expiry, k + (g + x));
      StringRoundTrip(sig.value.publicKey, MAX_SIG_FIELD, g + x);
      StringRoundTrip(sig.value.signature, MAX_SIG_FIELD, x);
    } else {
      ReadFlag(0, x);
    }
  }

  lemma UuidRoundTrip(uuid: Option<seq<Byte>>, x: seq<Byte>)
    requires ValidUuid(uuid)
    ensures OptionalUuid(At(UuidBytes(uuid) + x)) == uuid
    ensures uuid.Some? ==> UuidR(At(uuid.value + x)).0 == uuid
  {
    if uuid.Some? {
      assert UuidBytes(uuid) + x == [1] + (uuid.value + x);
      ReadFlag(1, uuid.value + x);
      assert (uuid.value + x)[..16] == uuid.value;
    } else {
      ReadFlag(0, x);
    }
  }

  /** What follows the name on each protocol range. */
  ghost function LoginTail(protocol: int, sig: Option<Signature>, uuid: Option<seq<Byte>>): seq<Byte>
    requires ValidSignature(sig)
  {
    if protocol >= 764 then (if uuid.Some? then uuid.value else [])
    else if protocol >= 761 then UuidBytes(uuid)
    else if protocol == 760 then SigBytes(sig) + UuidBytes(uuid)
    else if protocol == 759 then SigBytes(sig)
    else []
  }

  lemma TailRoundTrip(protocol: int, sig: Option<Signature>, uuid: Option<seq<Byte>>, x: seq<Byte>)
    requires ValidSignature(sig) && ValidUuid(uuid)
    requires protocol >= 764 && uuid.None? ==> |x| < 16
    ensures LoginUuid(protocol, At(LoginTail(protocol, sig, uuid) + x)) == if protocol >= 760 then uuid else None
  {
    UuidRoundTrip(uuid, x);
    if protocol >= 764 {
      if uuid.None? {
        assert [] + x == x;
      }
    } else if protocol == 760 {
      SigThenUuid(sig, uuid, x);
    }
  }

  lemma SigThenUuid(sig: Option<Signature>, uuid: Option<seq<Byte>>, x: seq<Byte>)
    requires ValidSignature(sig) && ValidUuid(uuid)
    ensures OptionalUuid(SkipSigR(At(SigBytes(sig) + UuidBytes(uuid) + x))) == uuid
  {
    Regrouped(SigBytes(sig), UuidBytes(uuid), x);
    SigRoundTrip(sig, UuidBytes(uuid) + x);
    UuidRoundTrip(uuid, x);
  }

  lemma Regrouped(a: seq<Byte>, b: seq<Byte>, c: seq<Byte>)
    ensures a + b + c == a + (b + c)
  {
  }

  /** Login start round trip for every protocol version: the name always comes back, and the UUID on
      exactly the versions that carry one. A version at or above 764 has no flag byte, so there an
      absent UUID is read as absent only when under sixteen bytes follow. */
  lemma LoginRoundTrip(protocol: int, name: seq<Byte>, sig: Option<Signature>, uuid: Option<seq<Byte>>, x: seq<Byte>)
    requires ValidName(name) && ValidSignature(sig) && ValidUuid(uuid)
    requires protocol >= 764 && uuid.None? ==> |x| < 16
    ensures LoginStartOf(protocol, Prefixed(name) + (LoginTail(protocol, sig, uuid) + x))
         == Some(LoginStart(name, if protocol >= 760 then uuid else None))
  {
    StringRoundTrip(name, 16, LoginTail(protocol, sig, uuid) + x);
    TailRoundTrip(protocol, sig, uuid, x);
  }

  /** Whatever follows the name only ever costs the UUID: acceptance and the name are decided by the
      name field alone, on every version. */
  lemma NameDecides(protocol: int, other: int, name: seq<Byte>, x: seq<Byte>, y: seq<Byte>)
    requires |name| < 0x8000_0000
    ensures LoginStartOf(protocol, Prefixed(name) + x).Some? <==> ValidName(name)
    ensures ValidName(name) ==>
      LoginStartOf(protocol, Prefixed(name) + x).value.name == name == LoginStartOf(other, Prefixed(name) + y).value.name
  {
    StringRoundTrip(name, 16, x);
    StringRoundTrip(name, 16, y);
  }

  // ------------------------------------------------------------------------------------------
  // The login start, exactly.

  /** A byte array of at most MAX_SIG_FIELD bytes in the given spelling of its length. */
  ghost predicate SigField(w: seq<Byte>, f: seq<Byte>) { VarIntBytes(w, |f|) && |f| <= MAX_SIG_FIELD }

  ghost predicate SigFields(s: seq<Byte>, flag: Byte, expiry: seq<Byte>, w1: seq<Byte>, key: seq<Byte>, w2: seq<Byte>, sig: seq<Byte>) {
    flag != 0 && |expiry| == 8 && SigField(w1, key) && SigField(w2, sig)
    && s == [flag] + (expiry + (w1 + (key + (w2 + sig))))
  }

  /** s is one whole signature block: a zero byte, or any other, an expiry and two byte arrays. */
  ghost predicate SigBlock(s: seq<Byte>) {
    s == [0] || exists flag: Byte, expiry, w1, key, w2, sig :: SigFields(s, flag, expiry, w1, key, w2, sig)
  }

  ghost predicate Flagged(x: seq<Byte>, u: seq<Byte>) { |x| >= 17 && x[0] != 0 && u == x[1..17] }

  /** The bytes after the name carry UUID u on this protocol version. */
  ghost predicate HasUuid(protocol: int, x: seq<Byte>, u: seq<Byte>) {
    if protocol >= 764 then |x| >= 16 && u == x[..16]
    else if protocol >= 761 then Flagged(x, u)
    else if protocol == 760 then exists s, y :: SigBlock(s) && x == s + y && Flagged(y, u)
    else false
  }

  /** The layout of a login start: the name in any spelling of its length, then what the version has. */
  ghost predicate LoginLayout(protocol: int, body: seq<Byte>, l: LoginStart, w: seq<Byte>, x: seq<Byte>) {
    && ValidName(l.name) && VarIntBytes(w, |l.name|) && body == w + (l.name + x)
    && forall u :: l.uuid == Some(u) <==> HasUuid(protocol, x, u)
  }

  ghost predicate IsLogin(protocol: int, body: seq<Byte>, l: LoginStart) {
    exists w, x :: LoginLayout(protocol, body, l, w, x)
  }

  lemma {:induction false} ArrayGives(w: seq<Byte>, f: seq<Byte>, x: seq<Byte>)
    requires SigField(w, f)
    ensures SkipByteArrayR(At(w + (f + x)), MAX_SIG_FIELD) == At(x)
  {
    VarIntGives(w, |f|, f + x);
    assert (f + x)[|f|..] == x;
  }

  lemma {:induction false} ArrayTakes(r: Reader) returns (w: seq<Byte>, f: seq<Byte>)
    requires SkipByteArrayR(r, MAX_SIG_FIELD).At?
    ensures r.At? && SigField(w, f) && r.rest == w + (f + SkipByteArrayR(r, MAX_SIG_FIELD).rest)
  {
    w := VarIntTakes(r);
    f := VarIntR(r).1.rest[..VarIntR(r).0];
    assert VarIntR(r).1.rest == f + SkipByteArrayR(r, MAX_SIG_FIELD).rest;
  }

  lemma {:induction false} SigGives(
    s: seq<Byte>, flag: Byte, expiry: seq<Byte>, w1: seq<Byte>, key: seq<Byte>, w2: seq<Byte>, sig: seq<Byte>, y: seq<Byte>)
    requires SigFields(s, flag, expiry, w1, key, w2, sig)
    ensures SkipSigR(At(s + y)) == At(y)
  {
    var t2 := w2 + (sig + y);
    var t1 := w1 + (key + t2);
    assert s + y == [flag] + (expiry + t1);
    ReadFlag(flag, expiry + t1);
    SkipFront(expiry, t1);
    ArrayGives(w1, key, t2);
    ArrayGives(w2, sig, y);
  }

  lemma {:induction false} BlockGives(s: seq<Byte>, y: seq<Byte>)
    requires SigBlock(s)
    ensures SkipSigR(At(s + y)) == At(y)
  {
    if s == [0] {
      ReadFlag(0, y);
    } else {
      var flag: Byte, expiry, w1, key, w2, sig :| SigFields(s, flag, expiry, w1, key, w2, sig);
      SigGives(s, flag, expiry, w1, key, w2, sig, y);
    }
  }

  /** The three parts after a nonzero flag. */
  lemma {:induction false} PartsTake(r1: Reader) returns (expiry: seq<Byte>, w1: seq<Byte>, key: seq<Byte>, w2: seq<Byte>, sig: seq<Byte>)
    requires SkipByteArrayR(SkipByteArrayR(SkipR(r1, 8), MAX_SIG_FIELD), MAX_SIG_FIELD).At?
    ensures r1.At? && |expiry| == 8 && SigField(w1, key) && SigField(w2, sig)
    ensures r1.rest == expiry + (w1 + (key + (w2 + (sig +
      SkipByteArrayR(SkipByteArrayR(SkipR(r1, 8), MAX_SIG_FIELD), MAX_SIG_FIELD).rest))))
  {
    var r2 := SkipR(r1, 8);
    w2, sig := ArrayTakes(SkipByteArrayR(r2, MAX_SIG_FIELD));
    w1, key := ArrayTakes(r2);
    expiry := r1.rest[..8];
    assert r1.rest == expiry + r2.rest;
  }

  lemma {:induction false} FlagTakes(r: Reader)
    requires BooleanR(r).1.At?
    ensures r.At? && r.rest != [] && BooleanR(r) == (r.rest[0] != 0, At(r.rest[1..])) && r.rest == [r.rest[0]] + r.rest[1..]
  {
  }

  lemma {:induction false} BlockTakes(r: Reader) returns (s: seq<Byte>)
    requires SkipSigR(r).At?
    ensures r.At? && SigBlock(s) && r.rest == s + SkipSigR(r).rest
  {
    FlagTakes(r);
    var flag := r.rest[0];
    if flag == 0 {
      s := [0];
    } else {
      var expiry, w1, key, w2, sig := PartsTake(At(r.rest[1..]));
      s := [flag] + (expiry + (w1 + (key + (w2 + sig))));
      assert SigFields(s, flag, expiry, w1, key, w2, sig);
      Nested(flag, expiry, w1, key, w2, sig, SkipSigR(r).rest);
    }
  }

  lemma {:induction false} Nested(flag: Byte, a: seq<Byte>, b: seq<Byte>, c: seq<Byte>, d: seq<Byte>, e: seq<Byte>, y: seq<Byte>)
    ensures [flag] + (a + (b + (c + (d + e)))) + y == [flag] + (a + (b + (c + (d + (e + y)))))
  {
  }

  /** Skipping takes off exactly one signature block. */
  lemma {:induction false} SkipSigExactly(x: seq<Byte>, y: seq<Byte>)
    ensures SkipSigR(At(x)) == At(y) <==> exists s :: SigBlock(s) && x == s + y
  {
    if SkipSigR(At(x)) == At(y) {
      var s := BlockTakes(At(x));
    }
    forall s | SigBlock(s) && x == s + y
      ensures SkipSigR(At(x)) == At(y)
    {
      BlockGives(s, y);
    }
  }

  lemma {:induction false} FlaggedExactly(r: Reader, u: seq<Byte>)
    ensures OptionalUuid(r) == Some(u) <==> r.At? && Flagged(r.rest, u)
  {
    if r.At? && |r.rest| >= 17 {
      assert r.rest[1..][..16] == r.rest[1..17];
    }
  }

  lemma {:induction false} UuidExactly(protocol: int, x: seq<Byte>, u: seq<Byte>)
    ensures LoginUuid(protocol, At(x)) == Some(u) <==> HasUuid(protocol, x, u)
  {
    FlaggedExactly(At(x), u);
    FlaggedExactly(SkipSigR(At(x)), u);
    if SkipSigR(At(x)).At? {
      SkipSigExactly(x, SkipSigR(At(x)).rest);
    }
    forall s, y | SigBlock(s) && x == s + y
      ensures SkipSigR(At(x)) == At(y)
    {
      BlockGives(s, y);
    }
  }

  lemma {:induction false} LoginGives(protocol: int, body: seq<Byte>, l: LoginStart, w: seq<Byte>, x: seq<Byte>)
    requires LoginLayout(protocol, body, l, w, x)
    ensures LoginStartOf(protocol, body) == Some(l)
  {
    StringGives(w, l.name, x, 16);
    SameOption(protocol, x, l.uuid);
  }

  lemma {:induction false} SameOption(protocol: int, x: seq<Byte>, o: Option<seq<Byte>>)
    requires forall u :: o == Some(u) <==> HasUuid(protocol, x, u)
    ensures o == LoginUuid(protocol, At(x))
  {
    var p := LoginUuid(protocol, At(x));
    if p.Some? {
      UuidExactly(protocol, x, p.value);
    } else if o.Some? {
      UuidExactly(protocol, x, o.value);
    }
  }

  lemma {:induction false} LoginTakes(protocol: int, body: seq<Byte>, l: LoginStart)
    requires LoginStartOf(protocol, body) == Some(l)
    ensures IsLogin(protocol, body, l)
  {
    var w := StringTakes(At(body), 16);
    var x := StringR(At(body), 16).1.rest;
    forall u
      ensures l.uuid == Some(u) <==> HasUuid(protocol, x, u)
    {
      UuidExactly(protocol, x, u);
    }
    assert LoginLayout(protocol, body, l, w, x);
  }

  /** The login parser accepts exactly the bodies that begin with a valid name, in any spelling of its
      length, and finds a UUID exactly where the protocol version's layout has one, malformed and cut
      off tails included. */
  lemma {:induction false} LoginExact(protocol: int, body: seq<Byte>, l: LoginStart)
    ensures LoginStartOf(protocol, body) == Some(l) <==> IsLogin(protocol, body, l)
  {
    if LoginStartOf(protocol, body) == Some(l) {
      LoginTakes(protocol, body, l);
    }
    forall w, x | LoginLayout(protocol, body, l, w, x)
      ensures LoginStartOf(protocol, body) == Some(l)
    {
      LoginGives(protocol, body, l, w, x);
    }
  }
}
