/** What the login sniffer finds (internal/mc/sniffer.go:70-139), said of the bytes alone: which
    handshake, which login and which verdict a client's stream holds, in any cutting. */
module SniffedLogins {
  import opened Prelude
  import opened VarInts
  import opened Packets
  import opened Sniffers

  // ------------------------------------------------------------------------------------------
  // The stream's own terms.

  /** The bytes s begin with a packet of this id and body, in the given spelling of its length w and
      of its id v, and rest follows it. */
  ghost predicate FramedAs(s: seq<Byte>, id: int, body: seq<Byte>, rest: seq<Byte>, w: seq<Byte>, v: seq<Byte>) {
    && VarIntBytes(v, id) && VarIntBytes(w, |v| + |body|) && 0 < |v| + |body| <= MAX_HANDSHAKE_PACKET
    && s == w + (v + (body + rest))
  }

  ghost predicate Framed(s: seq<Byte>, id: int, body: seq<Byte>, rest: seq<Byte>) {
    exists w, v :: FramedAs(s, id, body, rest, w, v)
  }

  /** Nothing wrong so far, but the first frame is not all there: its length is cut short, or
      announced and not reached. */
  ghost predicate Partial(s: seq<Byte>) {
    || (|s| <= 4 && forall k :: 0 <= k < |s| ==> s[k] >= 128)
    || exists w, n: int :: VarIntBytes(w, n) && 0 < n <= MAX_HANDSHAKE_PACKET && w <= s && |s| < |w| + n
  }

  ghost predicate IsHandshake(body: seq<Byte>, h: Handshake) {
    exists v1, v2, v3 :: HandshakeLayout(body, h, v1, v2, v3)
  }

  /** The stream opens with handshake h, and mid follows it. */
  ghost predicate Opens(stream: seq<Byte>, h: Handshake, mid: seq<Byte>) {
    exists hs :: Framed(stream, 0, hs, mid) && IsHandshake(hs, h)
  }

  /** Then it goes on to a login, awaited on mid. */
  ghost predicate OpensLogin(stream: seq<Byte>, h: Handshake, mid: seq<Byte>) {
    Opens(stream, h, mid) && h.next in {LOGIN, TRANSFER}
  }

  ghost predicate LogsIn(stream: seq<Byte>, h: Handshake, mid: seq<Byte>, body: seq<Byte>, rest: seq<Byte>) {
    OpensLogin(stream, h, mid) && Framed(mid, 0, body, rest)
  }

  /** A view says of the stream what is there: the handshake it opens with, the login that follows
      in the layout of its version, and a wait for exactly the frame that is not all there. */
  ghost predicate Sniffs(view: View, stream: seq<Byte>) {
    && (forall h :: view.handshake == Some(h) <==> exists mid :: Opens(stream, h, mid))
    && (forall l :: view.login == Some(l) <==>
          exists h, mid, body, rest :: LogsIn(stream, h, mid, body, rest) && IsLogin(h.protocol, body, l))
    && (view.stage == AwaitHandshake <==> Partial(stream))
    && (view.stage == AwaitLogin <==> exists h, mid :: OpensLogin(stream, h, mid) && Partial(mid))
    && view.protocol == if view.handshake.Some? then view.handshake.value.protocol else 0
  }

  // ------------------------------------------------------------------------------------------
  // Frames.

  lemma SpelledDecodes(w: seq<Byte>, n: int, x: seq<Byte>)
    requires VarIntBytes(w, n)
    ensures Decode(w + x) == Value(n, |w|)
  {
    DecodeMeaning(w);
    DecodeExtends(w, x);
  }

  lemma DecodedSpells(s: seq<Byte>)
    requires Decode(s).Value?
    ensures Decode(s).n <= |s| && VarIntBytes(s[..Decode(s).n], Decode(s).v)
  {
    DecodeMeaning(s);
    NumberOfPrefix(s[..Decode(s).n], s, Decode(s).n);
  }

  lemma FrameGives(s: seq<Byte>, id: int, body: seq<Byte>, rest: seq<Byte>, w: seq<Byte>, v: seq<Byte>)
    requires FramedAs(s, id, body, rest, w, v)
    ensures SplitFrame(s, MAX_HANDSHAKE_PACKET) == FrameOk(v + body, |w| + |v| + |body|)
    ensures PacketId(v + body) == Some((id, body)) && s[|w| + |v| + |body|..] == rest
  {
    SpelledDecodes(w, |v| + |body|, v + (body + rest));
    assert s[|w|..|w| + |v| + |body|] == v + body;
    VarIntGives(v, id, body);
  }

  lemma LengthSpells(s: seq<Byte>) returns (w: seq<Byte>)
    requires SplitFrame(s, MAX_HANDSHAKE_PACKET).FrameOk?
    ensures var f := SplitFrame(s, MAX_HANDSHAKE_PACKET);
      && VarIntBytes(w, |f.body|) && 0 < |f.body| <= MAX_HANDSHAKE_PACKET
      && f.consumed <= |s| && s == w + (f.body + s[f.consumed..])
  {
    DecodedSpells(s);
    w := s[..Decode(s).n];
  }

  lemma IdSpells(b: seq<Byte>) returns (v: seq<Byte>)
    requires PacketId(b).Some?
    ensures VarIntBytes(v, PacketId(b).value.0) && b == v + PacketId(b).value.1
  {
    DecodedSpells(b);
    v := b[..Decode(b).n];
  }

  lemma FrameTakes(s: seq<Byte>)
    requires SplitFrame(s, MAX_HANDSHAKE_PACKET).FrameOk? && PacketId(SplitFrame(s, MAX_HANDSHAKE_PACKET).body).Some?
    ensures var f := SplitFrame(s, MAX_HANDSHAKE_PACKET);
      f.consumed <= |s| && Framed(s, PacketId(f.body).value.0, PacketId(f.body).value.1, s[f.consumed..])
  {
    var f := SplitFrame(s, MAX_HANDSHAKE_PACKET);
    var w := LengthSpells(s);
    var v := IdSpells(f.body);
    var (id, body) := PacketId(f.body).value;
    var rest := s[f.consumed..];
    assert v + body + rest == v + (body + rest);
    assert FramedAs(s, id, body, rest, w, v);
  }

  /** Frame splitting finds exactly the frame that is there. */
  lemma FramedExactly(s: seq<Byte>, id: int, body: seq<Byte>, rest: seq<Byte>)
    ensures Framed(s, id, body, rest) <==>
      var f := SplitFrame(s, MAX_HANDSHAKE_PACKET);
      f.FrameOk? && PacketId(f.body) == Some((id, body)) && f.consumed <= |s| && rest == s[f.consumed..]
  {
    forall w, v | FramedAs(s, id, body, rest, w, v)
      ensures var f := SplitFrame(s, MAX_HANDSHAKE_PACKET);
        f.FrameOk? && PacketId(f.body) == Some((id, body)) && f.consumed <= |s| && rest == s[f.consumed..]
    {
      FrameGives(s, id, body, rest, w, v);
    }
    var f := SplitFrame(s, MAX_HANDSHAKE_PACKET);
    if f.FrameOk? && PacketId(f.body) == Some((id, body)) {
      FrameTakes(s);
    }
  }

  lemma PartialExactly(s: seq<Byte>)
    ensures Partial(s) <==> SplitFrame(s, MAX_HANDSHAKE_PACKET).FrameIncomplete?
  {
    DecodeMeaning(s);
    forall w, n: int | VarIntBytes(w, n) && 0 < n <= MAX_HANDSHAKE_PACKET && w <= s && |s| < |w| + n
      ensures SplitFrame(s, MAX_HANDSHAKE_PACKET).FrameIncomplete?
    {
      SpelledDecodes(w, n, s[|w|..]);
      assert w + s[|w|..] == s;
    }
    if Decode(s).Value? {
      DecodedSpells(s);
      assert s[..Decode(s).n] <= s;
    }
  }

  /** What follows the handshake, if the stream opens with one. */
  function AfterHandshake(stream: seq<Byte>): Option<(Handshake, seq<Byte>)> {
    match SplitFrame(stream, MAX_HANDSHAKE_PACKET)
    case FrameOk(b, c) =>
      if c <= |stream| && PacketId(b).Some? && HandshakeOf(PacketId(b).value.0, PacketId(b).value.1).Some? then
        Some((HandshakeOf(PacketId(b).value.0, PacketId(b).value.1).value, stream[c..]))
      else None
    case _ => None
  }

  lemma OpensExactly(stream: seq<Byte>, h: Handshake, mid: seq<Byte>)
    ensures Opens(stream, h, mid) <==> AfterHandshake(stream) == Some((h, mid))
  {
    forall hs | Framed(stream, 0, hs, mid) && IsHandshake(hs, h)
      ensures AfterHandshake(stream) == Some((h, mid))
    {
      FramedExactly(stream, 0, hs, mid);
      HandshakeExact(hs, h);
    }
    if AfterHandshake(stream) == Some((h, mid)) {
      var (id, hs) := PacketId(SplitFrame(stream, MAX_HANDSHAKE_PACKET).body).value;
      FramedExactly(stream, id, hs, mid);
      HandshakeExact(hs, h);
    }
  }

  // ------------------------------------------------------------------------------------------
  // The parse, case by case.

  lemma NoHandshakeView(stream: seq<Byte>)
    requires AfterHandshake(stream).None?
    ensures var stage := if SplitFrame(stream, MAX_HANDSHAKE_PACKET).FrameIncomplete? then AwaitHandshake else Done;
      ViewOf(Whole(stream)) == View(stage, 0, None, None)
  {
    FrameFits(stream);
    var f := SplitFrame(stream, MAX_HANDSHAKE_PACKET);
    if f.FrameOk? {
      FirstStep(stream, f.body, f.consumed);
      NothingTaken(FRESH.With(stream[f.consumed..]), f.body);
    }
  }

  lemma FirstStep(stream: seq<Byte>, body: seq<Byte>, consumed: nat)
    requires SplitFrame(stream, MAX_HANDSHAKE_PACKET) == FrameOk(body, consumed) && consumed <= |stream|
    ensures Whole(stream) == AdvanceS(OnFrame(FRESH.With(stream[consumed..]), body))
  {
  }

  lemma NothingTaken(t: SnifferS, body: seq<Byte>)
    requires t.stage == AwaitHandshake
    requires PacketId(body).Some? ==> HandshakeOf(PacketId(body).value.0, PacketId(body).value.1).None?
    ensures OnFrame(t, body) == t.Given()
  {
  }

  lemma FrameFits(s: seq<Byte>)
    ensures SplitFrame(s, MAX_HANDSHAKE_PACKET).FrameOk? ==> SplitFrame(s, MAX_HANDSHAKE_PACKET).consumed <= |s|
  {
    DecodeMeaning(s);
  }

  lemma HandshakeTaken(t: SnifferS, body: seq<Byte>)
    requires t.stage == AwaitHandshake && PacketId(body).Some?
    requires HandshakeOf(PacketId(body).value.0, PacketId(body).value.1).Some?
    ensures var h := HandshakeOf(PacketId(body).value.0, PacketId(body).value.1).value;
      && h.next in {STATUS, LOGIN, TRANSFER}
      && OnFrame(t, body) == t.(handshake := Some(h), protocol := h.protocol, stage := if h.next == STATUS then Done else AwaitLogin)
  {
  }

  lemma StatusView(stream: seq<Byte>)
    requires AfterHandshake(stream).Some? && AfterHandshake(stream).value.0.next == STATUS
    ensures var h := AfterHandshake(stream).value.0; ViewOf(Whole(stream)) == View(Done, h.protocol, Some(h), None)
  {
    var f := SplitFrame(stream, MAX_HANDSHAKE_PACKET);
    FirstStep(stream, f.body, f.consumed);
    HandshakeTaken(FRESH.With(stream[f.consumed..]), f.body);
  }

  /** The parser awaiting a login on mid after handshake h. */
  function Awaiting(h: Handshake, mid: seq<Byte>): SnifferS { SnifferS(mid, AwaitLogin, h.protocol, Some(h), None) }

  lemma LoginStarts(stream: seq<Byte>)
    requires AfterHandshake(stream).Some? && AfterHandshake(stream).value.0.next != STATUS
    ensures Whole(stream) == AdvanceS(Awaiting(AfterHandshake(stream).value.0, AfterHandshake(stream).value.1))
  {
    var f := SplitFrame(stream, MAX_HANDSHAKE_PACKET);
    FirstStep(stream, f.body, f.consumed);
    HandshakeTaken(FRESH.With(stream[f.consumed..]), f.body);
  }

  /** The body of the login packet on mid, if there is one. */
  function LoginBody(mid: seq<Byte>): Option<seq<Byte>> {
    match SplitFrame(mid, MAX_HANDSHAKE_PACKET)
    case FrameOk(b, _) => if PacketId(b).Some? && PacketId(b).value.0 == 0 then Some(PacketId(b).value.1) else None
    case _ => None
  }

  lemma LoginView(h: Handshake, mid: seq<Byte>)
    ensures var stage := if SplitFrame(mid, MAX_HANDSHAKE_PACKET).FrameIncomplete? then AwaitLogin else Done;
      var login := if LoginBody(mid).Some? then LoginStartOf(h.protocol, LoginBody(mid).value) else None;
      ViewOf(AdvanceS(Awaiting(h, mid))) == View(stage, h.protocol, Some(h), login)
  {
    FrameFits(mid);
  }

  lemma LoginBodyExactly(mid: seq<Byte>, body: seq<Byte>)
    ensures LoginBody(mid) == Some(body) <==> exists rest :: Framed(mid, 0, body, rest)
  {
    FrameFits(mid);
    forall rest | Framed(mid, 0, body, rest)
      ensures LoginBody(mid) == Some(body)
    {
      FramedExactly(mid, 0, body, rest);
    }
    if LoginBody(mid) == Some(body) {
      FramedExactly(mid, 0, body, mid[SplitFrame(mid, MAX_HANDSHAKE_PACKET).consumed..]);
    }
  }

  lemma HandshakeSeen(stream: seq<Byte>)
    ensures forall h :: Whole(stream).handshake == Some(h) <==> exists mid :: Opens(stream, h, mid)
    ensures Whole(stream).protocol == if Whole(stream).handshake.Some? then Whole(stream).handshake.value.protocol else 0
  {
    SeenView(stream);
    forall h, mid
      ensures Opens(stream, h, mid) <==> AfterHandshake(stream) == Some((h, mid))
    {
      OpensExactly(stream, h, mid);
    }
  }

  /** The handshake and protocol of the whole parse. */
  lemma SeenView(stream: seq<Byte>)
    ensures var o := AfterHandshake(stream);
      Whole(stream).handshake == (if o.Some? then Some(o.value.0) else None)
      && Whole(stream).protocol == if o.Some? then o.value.0.protocol else 0
  {
    if AfterHandshake(stream).None? {
      NoHandshakeView(stream);
    } else if AfterHandshake(stream).value.0.next == STATUS {
      StatusView(stream);
    } else {
      LoginStarts(stream);
      LoginView(AfterHandshake(stream).value.0, AfterHandshake(stream).value.1);
    }
  }

  lemma NextState(stream: seq<Byte>)
    requires AfterHandshake(stream).Some?
    ensures AfterHandshake(stream).value.0.next in {STATUS, LOGIN, TRANSFER}
  {
  }

  /** The login of the whole parse. */
  lemma LoginOf(stream: seq<Byte>)
    ensures var o := AfterHandshake(stream);
      Whole(stream).login ==
        if o.Some? && o.value.0.next != STATUS && LoginBody(o.value.1).Some? then
          LoginStartOf(o.value.0.protocol, LoginBody(o.value.1).value)
        else None
  {
    if AfterHandshake(stream).None? {
      NoHandshakeView(stream);
    } else if AfterHandshake(stream).value.0.next == STATUS {
      StatusView(stream);
    } else {
      LoginStarts(stream);
      LoginView(AfterHandshake(stream).value.0, AfterHandshake(stream).value.1);
    }
  }

  lemma LogsInExactly(stream: seq<Byte>, h: Handshake, mid: seq<Byte>, body: seq<Byte>)
    ensures (exists rest :: LogsIn(stream, h, mid, body, rest)) <==>
      AfterHandshake(stream) == Some((h, mid)) && h.next != STATUS && LoginBody(mid) == Some(body)
  {
    OpensExactly(stream, h, mid);
    LoginBodyExactly(mid, body);
    if AfterHandshake(stream) == Some((h, mid)) {
      NextState(stream);
    }
    if rest :| Framed(mid, 0, body, rest) && OpensLogin(stream, h, mid) {
      assert LogsIn(stream, h, mid, body, rest);
    }
  }

  lemma LoginSeen(stream: seq<Byte>, l: LoginStart)
    ensures Whole(stream).login == Some(l) <==>
      exists h, mid, body, rest :: LogsIn(stream, h, mid, body, rest) && IsLogin(h.protocol, body, l)
  {
    LoginOf(stream);
    forall h, mid, body, rest | LogsIn(stream, h, mid, body, rest) && IsLogin(h.protocol, body, l)
      ensures AfterHandshake(stream) == Some((h, mid)) && h.next != STATUS && LoginBody(mid) == Some(body)
      ensures LoginStartOf(h.protocol, body) == Some(l)
    {
      LogsInExactly(stream, h, mid, body);
      LoginExact(h.protocol, body, l);
    }
    if Whole(stream).login == Some(l) {
      var (h, mid) := AfterHandshake(stream).value;
      var body := LoginBody(mid).value;
      LogsInExactly(stream, h, mid, body);
      var rest :| LogsIn(stream, h, mid, body, rest);
      LoginExact(h.protocol, body, l);
    }
  }

  lemma StageOf(stream: seq<Byte>)
    ensures var o := AfterHandshake(stream);
      Whole(stream).stage ==
        if SplitFrame(stream, MAX_HANDSHAKE_PACKET).FrameIncomplete? then AwaitHandshake
        else if o.Some? && o.value.0.next != STATUS && SplitFrame(o.value.1, MAX_HANDSHAKE_PACKET).FrameIncomplete? then AwaitLogin
        else Done
  {
    if AfterHandshake(stream).None? {
      NoHandshakeView(stream);
    } else if AfterHandshake(stream).value.0.next == STATUS {
      StatusView(stream);
    } else {
      LoginStarts(stream);
      LoginView(AfterHandshake(stream).value.0, AfterHandshake(stream).value.1);
    }
  }

  lemma StageSeen(stream: seq<Byte>)
    ensures Whole(stream).stage == AwaitHandshake <==> Partial(stream)
    ensures Whole(stream).stage == AwaitLogin <==> exists h, mid :: OpensLogin(stream, h, mid) && Partial(mid)
  {
    StageOf(stream);
    PartialExactly(stream);
    forall h, mid | OpensLogin(stream, h, mid) && Partial(mid)
      ensures Whole(stream).stage == AwaitLogin
    {
      OpensExactly(stream, h, mid);
      PartialExactly(mid);
    }
    if Whole(stream).stage == AwaitLogin {
      var (h, mid) := AfterHandshake(stream).value;
      OpensExactly(stream, h, mid);
      NextState(stream);
      PartialExactly(mid);
      assert OpensLogin(stream, h, mid);
    }
  }

  // ------------------------------------------------------------------------------------------
  // The theorem.

  /** The whole parse says of every stream exactly what is there. */
  lemma WholeSniffs(stream: seq<Byte>)
    ensures Sniffs(ViewOf(Whole(stream)), stream)
  {
    HandshakeSeen(stream);
    StageSeen(stream);
    forall l
      ensures Whole(stream).login == Some(l) <==>
        exists h, mid, body, rest :: LogsIn(stream, h, mid, body, rest) && IsLogin(h.protocol, body, l)
    {
      LoginSeen(stream, l);
    }
  }

  /** And so does the sniffer, for every stream whose verdict, if any, comes within the first 12288
      bytes, however the stream is cut into chunks. */
  lemma RunSniffs(chunks: seq<seq<Byte>>)
    requires Settles(Concat(chunks)) ==> SettlesEarly(Concat(chunks))
    ensures Sniffs(ViewOf(RunS(chunks)), Concat(chunks))
  {
    WholeSniffs(Concat(chunks));
    ChunkingExact(Concat(chunks));
  }

  // ------------------------------------------------------------------------------------------
  // Streams a client sends.

  lemma PacketFramed(id: int, body: seq<Byte>, rest: seq<Byte>)
    requires IsInt32(id) && |Encode(id)| + |body| <= MAX_HANDSHAKE_PACKET
    ensures Framed(Packet(id, body) + rest, id, body, rest)
  {
    PacketRoundTrip(id, body, MAX_HANDSHAKE_PACKET, rest);
    FramedExactly(Packet(id, body) + rest, id, body, rest);
  }

  /** The two packets a client opens with, and whatever follows. */
  function Client(hs: seq<Byte>, id: int, login: seq<Byte>, x: seq<Byte>): seq<Byte>
    requires IsInt32(id)
  {
    Packet(0, hs) + (Packet(id, login) + x)
  }

  lemma ClientOpens(hs: seq<Byte>, h: Handshake, rest: seq<Byte>)
    requires IsHandshake(hs, h) && |Encode(0)| + |hs| <= MAX_HANDSHAKE_PACKET
    ensures AfterHandshake(Packet(0, hs) + rest) == Some((h, rest))
  {
    PacketFramed(0, hs, rest);
    assert Opens(Packet(0, hs) + rest, h, rest);
    OpensExactly(Packet(0, hs) + rest, h, rest);
  }

  lemma ClientView(hs: seq<Byte>, h: Handshake, id: int, login: seq<Byte>, x: seq<Byte>)
    requires IsHandshake(hs, h) && h.next in {LOGIN, TRANSFER} && IsInt32(id)
    requires |Encode(0)| + |hs| <= MAX_HANDSHAKE_PACKET && |Encode(id)| + |login| <= MAX_HANDSHAKE_PACKET
    ensures ViewOf(Whole(Client(hs, id, login, x))) ==
      View(Done, h.protocol, Some(h), if id == 0 then LoginStartOf(h.protocol, login) else None)
  {
    var mid := Packet(id, login) + x;
    ClientOpens(hs, h, mid);
    LoginStarts(Client(hs, id, login, x));
    PacketFramed(id, login, x);
    FramedExactly(mid, id, login, x);
    LoginView(h, mid);
  }

  /** A stream with two whole packets within the cap settles early. */
  lemma ClientSettles(hs: seq<Byte>, h: Handshake, id: int, login: seq<Byte>, x: seq<Byte>)
    requires IsHandshake(hs, h) && h.next in {LOGIN, TRANSFER} && IsInt32(id)
    requires |Encode(0)| + |hs| <= MAX_HANDSHAKE_PACKET && |Encode(id)| + |login| <= MAX_HANDSHAKE_PACKET
    requires |Packet(0, hs)| + |Packet(id, login)| <= MAX_SNIFF_BYTES
    ensures SettlesEarly(Client(hs, id, login, x))
  {
    var stream := Client(hs, id, login, x);
    if |stream| > MAX_SNIFF_BYTES {
      var y := x[..MAX_SNIFF_BYTES - |Packet(0, hs)| - |Packet(id, login)|];
      assert stream[..MAX_SNIFF_BYTES] == Client(hs, id, login, y);
      ClientView(hs, h, id, login, y);
    }
  }

  /** A client that logs in is found, however its bytes are cut and whatever follows: its handshake
      and the name it gives, in the layout of its protocol version with the UUID where that version
      carries one. */
  lemma LoginFound(
    chunks: seq<seq<Byte>>, hs: seq<Byte>, h: Handshake, name: seq<Byte>, sig: Option<Signature>, uuid: Option<seq<Byte>>,
    extra: seq<Byte>, x: seq<Byte>)
    requires IsHandshake(hs, h) && h.next in {LOGIN, TRANSFER} && |Encode(0)| + |hs| <= MAX_HANDSHAKE_PACKET
    requires ValidName(name) && ValidSignature(sig) && ValidUuid(uuid)
    requires h.protocol >= 764 && uuid.None? ==> |extra| < 16
    requires var login := Prefixed(name) + (LoginTail(h.protocol, sig, uuid) + extra);
      && |Encode(0)| + |login| <= MAX_HANDSHAKE_PACKET
      && |Packet(0, hs)| + |Packet(0, login)| <= MAX_SNIFF_BYTES
      && Concat(chunks) == Client(hs, 0, login, x)
    ensures ViewOf(RunS(chunks)) ==
      View(Done, h.protocol, Some(h), Some(LoginStart(name, if h.protocol >= 760 then uuid else None)))
  {
    var login := Prefixed(name) + (LoginTail(h.protocol, sig, uuid) + extra);
    LoginRoundTrip(h.protocol, name, sig, uuid, extra);
    ClientView(hs, h, 0, login, x);
    ClientSettles(hs, h, 0, login, x);
    EarlyRuns(chunks);
  }

  /** Whatever follows the name in its packet, the name is found exactly when it is a valid one. */
  lemma NameFound(chunks: seq<seq<Byte>>, hs: seq<Byte>, h: Handshake, name: seq<Byte>, tail: seq<Byte>, x: seq<Byte>)
    requires IsHandshake(hs, h) && h.next in {LOGIN, TRANSFER} && |Encode(0)| + |hs| <= MAX_HANDSHAKE_PACKET
    requires |name| < 0x8000_0000 && |Encode(0)| + |Prefixed(name) + tail| <= MAX_HANDSHAKE_PACKET
    requires |Packet(0, hs)| + |Packet(0, Prefixed(name) + tail)| <= MAX_SNIFF_BYTES
    requires Concat(chunks) == Client(hs, 0, Prefixed(name) + tail, x)
    ensures var s := RunS(chunks);
      && s.stage.Done? && s.handshake == Some(h) && (s.login.Some? <==> ValidName(name))
      && (s.login.Some? ==> s.login.value.name == name)
  {
    NameDecides(h.protocol, h.protocol, name, tail, tail);
    ClientView(hs, h, 0, Prefixed(name) + tail, x);
    ClientSettles(hs, h, 0, Prefixed(name) + tail, x);
    EarlyRuns(chunks);
  }

  /** A second packet that is no login start ends it with the handshake alone. */
  lemma OtherPacketEnds(chunks: seq<seq<Byte>>, hs: seq<Byte>, h: Handshake, id: int, body: seq<Byte>, x: seq<Byte>)
    requires IsHandshake(hs, h) && h.next in {LOGIN, TRANSFER} && |Encode(0)| + |hs| <= MAX_HANDSHAKE_PACKET
    requires IsInt32(id) && id != 0 && |Encode(id)| + |body| <= MAX_HANDSHAKE_PACKET
    requires |Packet(0, hs)| + |Packet(id, body)| <= MAX_SNIFF_BYTES && Concat(chunks) == Client(hs, id, body, x)
    ensures ViewOf(RunS(chunks)) == View(Done, h.protocol, Some(h), None)
  {
    ClientView(hs, h, id, body, x);
    ClientSettles(hs, h, id, body, x);
    EarlyRuns(chunks);
  }

  /** A status ping ends with its handshake alone, whatever follows. */
  lemma StatusEnds(chunks: seq<seq<Byte>>, hs: seq<Byte>, h: Handshake, x: seq<Byte>)
    requires IsHandshake(hs, h) && h.next == STATUS && |Encode(0)| + |hs| <= MAX_HANDSHAKE_PACKET
    requires Concat(chunks) == Packet(0, hs) + x
    ensures ViewOf(RunS(chunks)) == View(Done, h.protocol, Some(h), None)
  {
    ClientOpens(hs, h, x);
    StatusView(Packet(0, hs) + x);
    var stream := Packet(0, hs) + x;
    if |stream| > MAX_SNIFF_BYTES {
      FirstPacketShort(0, hs);
      var y := x[..MAX_SNIFF_BYTES - |Packet(0, hs)|];
      assert stream[..MAX_SNIFF_BYTES] == Packet(0, hs) + y;
      ClientOpens(hs, h, y);
      StatusView(Packet(0, hs) + y);
    }
    EarlyRuns(chunks);
  }

  lemma FirstPacketShort(id: int, body: seq<Byte>)
    requires IsInt32(id) && |Encode(id)| + |body| <= MAX_HANDSHAKE_PACKET
    ensures |Packet(id, body)| <= MAX_HANDSHAKE_PACKET + 5
  {
    RoundTrip(|Encode(id)| + |body|, []);
  }

  /** A first packet that is no handshake ends it with nothing, whatever follows. */
  lemma NoHandshakeEnds(chunks: seq<seq<Byte>>, id: int, body: seq<Byte>, x: seq<Byte>)
    requires IsInt32(id) && |Encode(id)| + |body| <= MAX_HANDSHAKE_PACKET
    requires id != 0 || forall h :: !IsHandshake(body, h)
    requires Concat(chunks) == Packet(id, body) + x
    ensures ViewOf(RunS(chunks)) == View(Done, 0, None, None)
  {
    FirstFrameAlone(id, body, x);
    var stream := Packet(id, body) + x;
    if |stream| > MAX_SNIFF_BYTES {
      FirstPacketShort(id, body);
      var y := x[..MAX_SNIFF_BYTES - |Packet(id, body)|];
      assert stream[..MAX_SNIFF_BYTES] == Packet(id, body) + y;
      FirstFrameAlone(id, body, y);
    }
    EarlyRuns(chunks);
  }

  lemma FirstFrameAlone(id: int, body: seq<Byte>, x: seq<Byte>)
    requires IsInt32(id) && |Encode(id)| + |body| <= MAX_HANDSHAKE_PACKET
    requires id != 0 || forall h :: !IsHandshake(body, h)
    ensures ViewOf(Whole(Packet(id, body) + x)) == View(Done, 0, None, None)
  {
    var stream := Packet(id, body) + x;
    PacketFramed(id, body, x);
    FramedExactly(stream, id, body, x);
    NotRead(id, body);
    NoHandshakeView(stream);
  }

  lemma {:induction false} NotRead(id: int, body: seq<Byte>)
    requires id != 0 || forall h :: !IsHandshake(body, h)
    ensures HandshakeOf(id, body).None?
  {
    if id == 0 {
      LayoutTaken(body, HandshakeOf(0, body));
    }
  }

  lemma {:induction false} LayoutTaken(body: seq<Byte>, o: Option<Handshake>)
    requires o == HandshakeOf(0, body)
    ensures o.Some? ==> IsHandshake(body, o.value)
  {
    if o.Some? {
      HandshakeExact(body, o.value);
    }
  }
}
