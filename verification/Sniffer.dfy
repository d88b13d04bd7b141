/** The streaming login sniffer (internal/mc/sniffer.go): an incremental, capped parser fed the
    client's bytes in chunks of any size. The reference is one parse of the whole stream with no cap;
    the theorem says exactly when chunking makes no difference to it. */
module Sniffers {
  import opened Prelude
  import opened VarInts
  import opened Packets

  const MAX_HANDSHAKE_PACKET := 8192
  const MAX_SNIFF_BYTES := MAX_HANDSHAKE_PACKET + 4096

  datatype Stage = AwaitHandshake | AwaitLogin | Done

  /** The sniffer as a value. A handshake is present exactly when the code's haveH is set. */
  datatype SnifferS =
    SnifferS(buf: seq<Byte>, stage: Stage, protocol: int, handshake: Option<Handshake>, login: Option<LoginStart>)
  {
    function With(bytes: seq<Byte>): SnifferS { this.(buf := bytes) }

    /** give. */
    function Given(): SnifferS { this.(stage := Done, buf := []) }
  }

  /** What an observer sees: everything but the bytes still buffered. */
  datatype View = View(stage: Stage, protocol: int, handshake: Option<Handshake>, login: Option<LoginStart>)

  function ViewOf(s: SnifferS): View { View(s.stage, s.protocol, s.handshake, s.login) }

  const FRESH: SnifferS := SnifferS([], AwaitHandshake, 0, None, None)

  function Rank(stage: Stage): nat {
    match stage
    case AwaitHandshake => 2
    case AwaitLogin => 1
    case Done => 0
  }

  /** One complete frame: what the code does with it before looking for the next. */
  function OnFrame(t: SnifferS, body: seq<Byte>): SnifferS
    requires !t.stage.Done?
  {
    match PacketId(body)
    case None => t.Given()
    case Some((id, payload)) =>
      if t.stage.AwaitHandshake? then
        match HandshakeOf(id, payload)
        case None => t.Given()
        case Some(h) =>
          t.(handshake := Some(h), protocol := h.protocol,
             stage := if h.next != LOGIN && h.next != TRANSFER then Done else AwaitLogin)
      else if id != 0 then t.Given()
      else
        t.(stage := Done,
           login := if LoginStartOf(t.protocol, payload).Some? then LoginStartOf(t.protocol, payload) else t.login)
  }

  /** advance. */
  function AdvanceS(s: SnifferS): SnifferS
    decreases Rank(s.stage)
  {
    if s.stage.Done? then s
    else
      match SplitFrame(s.buf, MAX_HANDSHAKE_PACKET)
      case FrameIncomplete => s
      case FrameBad => s.Given()
      case FrameOk(body, consumed) =>
        var t := OnFrame(s.With(s.buf[consumed..]), body);
        AdvanceS(t)
  }

  /** The first bytes of p that fit. */
  function Fitting(s: SnifferS, p: seq<Byte>): seq<Byte> {
    var room := MAX_SNIFF_BYTES - |s.buf|;
    if room <= 0 then [] else if |p| > room then p[..room] else p
  }

  /** Feed. */
  function FeedS(s: SnifferS, p: seq<Byte>): SnifferS {
    if s.stage.Done? then s
    else
      var t := AdvanceS(s.With(s.buf + Fitting(s, p)));
      if !t.stage.Done? && |t.buf| >= MAX_SNIFF_BYTES then t.Given() else t
  }

  function RunS(chunks: seq<seq<Byte>>): SnifferS {
    if chunks == [] then FRESH else FeedS(RunS(chunks[..|chunks| - 1]), chunks[|chunks| - 1])
  }

  function Concat(chunks: seq<seq<Byte>>): seq<Byte> {
    if chunks == [] then [] else Concat(chunks[..|chunks| - 1]) + chunks[|chunks| - 1]
  }

  /** The uncapped parse of a whole stream. */
  function Whole(stream: seq<Byte>): SnifferS { AdvanceS(FRESH.With(stream)) }

  /** The parse of the stream reaches a verdict. */
  predicate Settles(stream: seq<Byte>) { Whole(stream).stage.Done? }

  // ------------------------------------------------------------------------------------------
  // The sniffer in place.

  class Sniffer {
    var buf: seq<Byte>
    var stage: Stage
    var protocol: int
    var handshake: Option<Handshake>
    var login: Option<LoginStart>

    ghost function State(): SnifferS
      reads this
    {
      SnifferS(buf, stage, protocol, handshake, login)
    }

    constructor ()
      ensures State() == FRESH
    {
      buf, stage, protocol, handshake, login := [], AwaitHandshake, 0, None, None;
    }

    method Give()
      modifies this
      ensures State() == old(State()).Given()
    {
      stage := Done;
      buf := [];
    }

    method Advance()
      modifies this
      ensures State() == AdvanceS(old(State()))
    {
      while stage != Done
        invariant AdvanceS(State()) == AdvanceS(old(State()))
        decreases Rank(stage)
      {
        var f := Split(buf, MAX_HANDSHAKE_PACKET);
        if f.FrameIncomplete? {
          return;
        }
        if f.FrameBad? {
          Give();
          return;
        }
        buf := buf[f.consumed..];
        var id, payload, ok := SplitPacketId(f.body);
        if !ok {
          Give();
          return;
        }
        if stage == AwaitHandshake {
          var h := ParseHandshake(id, payload);
          if h.None? {
            Give();
            return;
          }
          handshake := h;
          protocol := h.value.protocol;
          if h.value.next != LOGIN && h.value.next != TRANSFER {
            stage := Done;
            return;
          }
          stage := AwaitLogin;
        } else {
          if id != 0 {
            Give();
            return;
          }
          var ls := ParseLoginStart(protocol, payload);
          if ls.Some? {
            login := ls;
          }
          stage := Done;
          return;
        }
      }
    }

    method Feed(p: seq<Byte>) returns (done: bool)
      modifies this
      ensures State() == FeedS(old(State()), p) && done == State().stage.Done?
    {
      if stage == Done {
        return true;
      }
      var room := MAX_SNIFF_BYTES - |buf|;
      if room > 0 {
        buf := buf + if |p| > room then p[..room] else p;
      } else {
        assert buf == buf + [];
      }
      Advance();
      if stage != Done && |buf| >= MAX_SNIFF_BYTES {
        Give();
      }
      return stage == Done;
    }

    method Outcome() returns (out: (Option<Handshake>, Option<LoginStart>), haveH: bool)
      ensures out == (State().handshake, State().login) && haveH == State().handshake.Some?
    {
      out, haveH := (handshake, login), handshake.Some?;
    }
  }

  // ------------------------------------------------------------------------------------------
  // Resuming: more bytes later is the same as more bytes at once.

  /** A frame is treated alike whatever is buffered behind it. */
  lemma OnFrameView(t: SnifferS, u: SnifferS, body: seq<Byte>)
    requires !t.stage.Done? && ViewOf(t) == ViewOf(u)
    ensures ViewOf(OnFrame(t, body)) == ViewOf(OnFrame(u, body))
    ensures !OnFrame(t, body).stage.Done? ==> OnFrame(t, body).buf == t.buf
  {
  }

  /** Parsing a prefix and then the rest from where that stopped sees what parsing all sees. */
  lemma {:induction false} AdvanceResumes(s: SnifferS, x: seq<Byte>)
    ensures ViewOf(AdvanceS(s.With(s.buf + x))) == ViewOf(AdvanceS(AdvanceS(s).With(AdvanceS(s).buf + x)))
    ensures AdvanceS(s).stage.Done? ==> ViewOf(AdvanceS(s.With(s.buf + x))) == ViewOf(AdvanceS(s))
    ensures !AdvanceS(s.With(s.buf + x)).stage.Done? ==>
      AdvanceS(s.With(s.buf + x)) == AdvanceS(AdvanceS(s).With(AdvanceS(s).buf + x))
    decreases Rank(s.stage)
  {
    if !s.stage.Done? {
      var f := SplitFrame(s.buf, MAX_HANDSHAKE_PACKET);
      if !f.FrameIncomplete? {
        SplitExtends(s.buf, x, MAX_HANDSHAKE_PACKET);
      }
      if f.FrameOk? {
        var rest := s.buf[f.consumed..];
        assert (s.buf + x)[f.consumed..] == rest + x;
        var t := OnFrame(s.With(rest), f.body);
        var u := OnFrame(s.With(rest + x), f.body);
        OnFrameView(s.With(rest), s.With(rest + x), f.body);
        if t.stage.Done? {
        } else {
          assert u == t.With(t.buf + x);
          AdvanceResumes(t, x);
        }
      }
    }
  }

  /** Without a verdict, what stays buffered is a suffix of the input and one incomplete frame. */
  lemma {:induction false} AdvanceLeaves(s: SnifferS)
    requires !AdvanceS(s).stage.Done?
    ensures |AdvanceS(s).buf| <= |s.buf| && |AdvanceS(s).buf| <= MAX_HANDSHAKE_PACKET + 4
    ensures SplitFrame(AdvanceS(s).buf, MAX_HANDSHAKE_PACKET).FrameIncomplete?
    decreases Rank(s.stage)
  {
    match SplitFrame(s.buf, MAX_HANDSHAKE_PACKET)
    case FrameIncomplete => IncompleteIsShort(s.buf, MAX_HANDSHAKE_PACKET);
    case FrameOk(body, consumed) => AdvanceLeaves(OnFrame(s.With(s.buf[consumed..]), body));
    case FrameBad =>
  }

  /** The buffer bound, over every run: a waiting sniffer holds at most one incomplete frame, 8196
      bytes, so the give-up at a full buffer is never reached; and at no time, not even inside Feed,
      are more than the cap's bytes buffered. */
  lemma {:induction false} RunBounded(chunks: seq<seq<Byte>>)
    ensures !RunS(chunks).stage.Done? ==>
      |RunS(chunks).buf| <= MAX_HANDSHAKE_PACKET + 4
      && SplitFrame(RunS(chunks).buf, MAX_HANDSHAKE_PACKET).FrameIncomplete?
    ensures !RunS(chunks).stage.Done? ==> forall p :: |RunS(chunks).buf + Fitting(RunS(chunks), p)| <= MAX_SNIFF_BYTES
    ensures chunks != [] ==>
      var s := RunS(chunks[..|chunks| - 1]);
      ViewOf(RunS(chunks)) == ViewOf(AdvanceS(s.With(s.buf + Fitting(s, chunks[|chunks| - 1]))))
  {
    if chunks != [] {
      var s := RunS(chunks[..|chunks| - 1]);
      RunBounded(chunks[..|chunks| - 1]);
      if !s.stage.Done? {
        var t := s.With(s.buf + Fitting(s, chunks[|chunks| - 1]));
        if !AdvanceS(t).stage.Done? {
          AdvanceLeaves(t);
        }
      }
    }
  }

  // ------------------------------------------------------------------------------------------
  // Chunking independence.

  lemma WholeResumes(stream: seq<Byte>, x: seq<Byte>)
    ensures ViewOf(Whole(stream + x)) == ViewOf(AdvanceS(Whole(stream).With(Whole(stream).buf + x)))
    ensures Settles(stream) ==> ViewOf(Whole(stream + x)) == ViewOf(Whole(stream))
    ensures !Settles(stream + x) ==> Whole(stream + x) == AdvanceS(Whole(stream).With(Whole(stream).buf + x))
  {
    AdvanceResumes(FRESH.With(stream), x);
  }

  /** The run so far has seen exactly what the whole parse sees, and is waiting with the same bytes. */
  ghost predicate InStep(s: SnifferS, stream: seq<Byte>) {
    ViewOf(s) == ViewOf(Whole(stream)) && (!s.stage.Done? ==> s == Whole(stream))
  }

  /** One more chunk that fits keeps the run in step. */
  lemma StepWhole(s: SnifferS, stream: seq<Byte>, p: seq<Byte>)
    requires InStep(s, stream) && Fitting(s, p) == p
    ensures InStep(FeedS(s, p), stream + p)
  {
    WholeResumes(stream, p);
    if !s.stage.Done? {
      var t := AdvanceS(s.With(s.buf + p));
      if !t.stage.Done? {
        AdvanceLeaves(s.With(s.buf + p));
      }
    }
  }

  /** A chunk cut short by the cap does no harm when the bytes that fit already settle the verdict. */
  lemma StepCut(s: SnifferS, stream: seq<Byte>, p: seq<Byte>)
    requires InStep(s, stream) && Settles(stream + Fitting(s, p))
    ensures InStep(FeedS(s, p), stream + p)
  {
    var q := Fitting(s, p);
    WholeResumes(stream + q, p[|q|..]);
    assert stream + q + p[|q|..] == stream + p;
    CutFeed(s, stream, p);
  }

  lemma CutFeed(s: SnifferS, stream: seq<Byte>, p: seq<Byte>)
    requires InStep(s, stream) && Settles(stream + Fitting(s, p))
    ensures ViewOf(FeedS(s, p)) == ViewOf(Whole(stream + Fitting(s, p)))
  {
    WholeResumes(stream, Fitting(s, p));
  }

  /** The verdict lies within the first MAX_SNIFF_BYTES bytes, or the stream is no longer than that. */
  predicate SettlesEarly(stream: seq<Byte>) {
    |stream| <= MAX_SNIFF_BYTES || Settles(stream[..MAX_SNIFF_BYTES])
  }

  lemma EarlySoFar(stream: seq<Byte>, p: seq<Byte>)
    requires SettlesEarly(stream + p)
    ensures SettlesEarly(stream)
  {
    if |stream| > MAX_SNIFF_BYTES {
      assert (stream + p)[..MAX_SNIFF_BYTES] == stream[..MAX_SNIFF_BYTES];
    }
  }

  lemma SettledStays(stream: seq<Byte>, n: nat)
    requires n <= |stream| && Settles(stream[..n])
    ensures Settles(stream) && ViewOf(Whole(stream)) == ViewOf(Whole(stream[..n]))
  {
    WholeResumes(stream[..n], stream[n..]);
    assert stream[..n] + stream[n..] == stream;
  }

  lemma {:induction false} StepEarly(s: SnifferS, stream: seq<Byte>, p: seq<Byte>)
    requires InStep(s, stream) && SettlesEarly(stream + p) && (!s.stage.Done? ==> |s.buf| <= MAX_HANDSHAKE_PACKET + 4)
    ensures InStep(FeedS(s, p), stream + p)
  {
    if s.stage.Done? {
      WholeResumes(stream, p);
    } else {
      AdvanceLeaves(FRESH.With(stream));
      var q := Fitting(s, p);
      if q != p {
        var n := |stream + q|;
        assert (stream + p)[..n] == stream + q;
        assert n >= MAX_SNIFF_BYTES;
        assert (stream + p)[..MAX_SNIFF_BYTES] == (stream + q)[..MAX_SNIFF_BYTES];
        SettledStays(stream + q, MAX_SNIFF_BYTES);
        StepCut(s, stream, p);
      } else {
        StepWhole(s, stream, p);
      }
    }
  }

  /** Any cutting of a stream whose verdict comes early follows the whole parse. */
  lemma {:induction false} EarlyRuns(chunks: seq<seq<Byte>>)
    requires SettlesEarly(Concat(chunks))
    ensures InStep(RunS(chunks), Concat(chunks))
  {
    if chunks != [] {
      var before, p := chunks[..|chunks| - 1], chunks[|chunks| - 1];
      EarlySoFar(Concat(before), p);
      EarlyRuns(before);
      RunBounded(before);
      StepEarly(RunS(before), Concat(before), p);
    } else {
      assert FRESH.With([]) == FRESH;
    }
  }

  // ------------------------------------------------------------------------------------------
  // Streams without a verdict: bytes may be lost at the cap, but never a verdict made up.

  /** Once login is awaited, bytes may be missing from the middle of the login frame, but never from
      its length prefix. */
  ghost predicate Trails(s: SnifferS, whole: SnifferS) {
    && ViewOf(s) == ViewOf(whole) && !s.stage.Done?
    && (s.buf == whole.buf
        || (s.stage == AwaitLogin && 5 <= |s.buf| <= |whole.buf| && s.buf[..5] == whole.buf[..5]))
    && SplitFrame(s.buf, MAX_HANDSHAKE_PACKET).FrameIncomplete?
  }

  /** The first five bytes fix the declared length, so fewer bytes behind them stay incomplete. */
  lemma ShorterIncomplete(a: seq<Byte>, b: seq<Byte>)
    requires 5 <= |a| <= |b| && a[..5] == b[..5] && SplitFrame(b, MAX_HANDSHAKE_PACKET).FrameIncomplete?
    ensures SplitFrame(a, MAX_HANDSHAKE_PACKET).FrameIncomplete?
  {
    DecodeMeaning(a[..5]);
    DecodeExtends(a[..5], a[5..]);
    DecodeExtends(a[..5], b[5..]);
    assert a[..5] + a[5..] == a && a[..5] + b[5..] == b;
  }

  /** A lossy sniffer still waits when the whole parse still waits. */
  lemma TrailsOnLogin(s: SnifferS, whole: SnifferS, p: seq<Byte>)
    requires Trails(s, whole) && s.stage == AwaitLogin && |s.buf| <= MAX_HANDSHAKE_PACKET + 4
    requires SplitFrame(whole.buf + p, MAX_HANDSHAKE_PACKET).FrameIncomplete?
    ensures Trails(FeedS(s, p), whole.With(whole.buf + p))
  {
    IncompleteIsShort(whole.buf + p, MAX_HANDSHAKE_PACKET);
    assert Fitting(s, p) == p;
    if s.buf != whole.buf {
      assert (s.buf + p)[..5] == s.buf[..5] && (whole.buf + p)[..5] == whole.buf[..5];
      ShorterIncomplete(s.buf + p, whole.buf + p);
    }
    assert AdvanceS(s.With(s.buf + p)) == s.With(s.buf + p);
  }

  /** After a frame of under 8200 bytes, a buffer cut at the cap still holds over 4000 bytes. */
  lemma TrailsOnHandshake(s: SnifferS, p: seq<Byte>)
    requires s.stage == AwaitHandshake && |s.buf| <= MAX_HANDSHAKE_PACKET + 4
    requires !AdvanceS(s.With(s.buf + p)).stage.Done?
    ensures Trails(FeedS(s, p), AdvanceS(s.With(s.buf + p)))
  {
    var q := Fitting(s, p);
    var x := p[|q|..];
    var all, cut := s.buf + p, s.buf + q;
    assert all == cut + x;
    AdvanceLeaves(s.With(all));
    AdvanceResumes(s.With(cut), x);
    AdvanceLeaves(s.With(cut));
    if x != [] {
      HandshakeTakes(s.With(cut), x);
    } else {
      assert all == cut;
    }
  }

  /** A handshake frame that gives no verdict: the sniffer drops it, awaits login and stops there. */
  lemma HandshakeFrame(t: SnifferS, body: seq<Byte>, consumed: nat)
    requires t.stage == AwaitHandshake && SplitFrame(t.buf, MAX_HANDSHAKE_PACKET) == FrameOk(body, consumed)
    requires !AdvanceS(t).stage.Done?
    ensures consumed <= MAX_HANDSHAKE_PACKET + 5 && consumed <= |t.buf|
    ensures AdvanceS(t) == OnFrame(t.With(t.buf[consumed..]), body)
    ensures AdvanceS(t).stage == AwaitLogin && AdvanceS(t).buf == t.buf[consumed..]
  {
    DecodeMeaning(t.buf);
    var u := OnFrame(t.With(t.buf[consumed..]), body);
    assert AdvanceS(t) == AdvanceS(u);
    LoginWaits(u);
  }

  /** A buffer at the cap holds the first frame whole. */
  lemma FullHasFrame(t: SnifferS)
    requires !t.stage.Done? && |t.buf| == MAX_SNIFF_BYTES && !AdvanceS(t).stage.Done?
    ensures SplitFrame(t.buf, MAX_HANDSHAKE_PACKET).FrameOk?
  {
    if SplitFrame(t.buf, MAX_HANDSHAKE_PACKET).FrameIncomplete? {
      IncompleteIsShort(t.buf, MAX_HANDSHAKE_PACKET);
    }
  }

  /** With the buffer cut at the cap, the handshake frame is whole and the login prefix is present. */
  lemma HandshakeTakes(t: SnifferS, x: seq<Byte>)
    requires t.stage == AwaitHandshake && |t.buf| == MAX_SNIFF_BYTES
    requires !AdvanceS(t).stage.Done? && !AdvanceS(t.With(t.buf + x)).stage.Done?
    ensures AdvanceS(t).stage == AwaitLogin && |AdvanceS(t).buf| >= 5
    ensures AdvanceS(t.With(t.buf + x)).buf == AdvanceS(t).buf + x
    ensures ViewOf(AdvanceS(t.With(t.buf + x))) == ViewOf(AdvanceS(t))
  {
    FullHasFrame(t);
    var f := SplitFrame(t.buf, MAX_HANDSHAKE_PACKET);
    SplitExtends(t.buf, x, MAX_HANDSHAKE_PACKET);
    HandshakeFrame(t, f.body, f.consumed);
    HandshakeFrame(t.With(t.buf + x), f.body, f.consumed);
    var rest := t.buf[f.consumed..];
    assert (t.buf + x)[f.consumed..] == rest + x;
    OnFrameView(t.With(rest), t.With(rest + x), f.body);
  }

  /** A sniffer awaiting login that stays without a verdict has not moved. */
  lemma LoginWaits(u: SnifferS)
    requires u.stage == AwaitLogin && !AdvanceS(u).stage.Done?
    ensures AdvanceS(u) == u && SplitFrame(u.buf, MAX_HANDSHAKE_PACKET).FrameIncomplete?
  {
  }

  lemma StepTrails(s: SnifferS, stream: seq<Byte>, p: seq<Byte>)
    requires Trails(s, Whole(stream)) && !Settles(stream + p) && |s.buf| <= MAX_HANDSHAKE_PACKET + 4
    ensures Trails(FeedS(s, p), Whole(stream + p))
  {
    WholeResumes(stream, p);
    var w := Whole(stream);
    if s.stage == AwaitLogin {
      LoginWaits(w.With(w.buf + p));
      TrailsOnLogin(s, w, p);
    } else {
      assert s == w;
      TrailsOnHandshake(s, p);
    }
  }

  lemma {:induction false} UnsettledRuns(chunks: seq<seq<Byte>>)
    requires !Settles(Concat(chunks))
    ensures Trails(RunS(chunks), Whole(Concat(chunks)))
  {
    if chunks == [] {
      assert FRESH.With([]) == FRESH;
    } else {
      var before, p := chunks[..|chunks| - 1], chunks[|chunks| - 1];
      WholeResumes(Concat(before), p);
      UnsettledRuns(before);
      RunBounded(before);
      StepTrails(RunS(before), Concat(before), p);
    }
  }

  // ------------------------------------------------------------------------------------------
  // The theorem.

  /** Every way of cutting the stream into chunks shows what the whole parse shows. */
  ghost predicate ChunkingFree(stream: seq<Byte>) {
    forall chunks :: Concat(chunks) == stream ==> ViewOf(RunS(chunks)) == ViewOf(Whole(stream))
  }

  lemma OneChunk(p: seq<Byte>)
    ensures Concat([p]) == p && RunS([p]) == FeedS(FRESH, p)
  {
    assert [p][..0] == [];
    assert RunS([]) == FRESH && Concat([]) == [];
  }

  /** A stream whose verdict comes only after the cap: fed whole, its tail is dropped and no verdict
      is reached. */
  lemma LateLosesTail(stream: seq<Byte>)
    requires !SettlesEarly(stream)
    ensures !RunS([stream]).stage.Done?
  {
    OneChunk(stream);
    var head := stream[..MAX_SNIFF_BYTES];
    assert FRESH.buf + Fitting(FRESH, stream) == head;
    AdvanceLeaves(FRESH.With(head));
  }

  /** Chunking independence, exactly: cutting makes no difference precisely when a verdict, if the
      stream has one at all, is reached within its first 12288 bytes. */
  lemma ChunkingExact(stream: seq<Byte>)
    ensures ChunkingFree(stream) <==> (Settles(stream) ==> SettlesEarly(stream))
  {
    if Settles(stream) && !SettlesEarly(stream) {
      LateLosesTail(stream);
      OneChunk(stream);
      assert Concat([stream]) == stream;
    } else {
      forall chunks | Concat(chunks) == stream
        ensures ViewOf(RunS(chunks)) == ViewOf(Whole(stream))
      {
        if Settles(stream) {
          EarlyRuns(chunks);
        } else {
          UnsettledRuns(chunks);
        }
      }
    }
  }

  /** In the excluded case some other cutting does find the verdict: fed at the cap and then the
      rest, the sniffer agrees with the whole parse. */
  lemma LateFoundInTwo(stream: seq<Byte>)
    requires Settles(stream) && !SettlesEarly(stream)
    ensures var cut := [stream[..MAX_SNIFF_BYTES], stream[MAX_SNIFF_BYTES..]];
      Concat(cut) == stream && ViewOf(RunS(cut)) == ViewOf(Whole(stream))
  {
    var a, b := stream[..MAX_SNIFF_BYTES], stream[MAX_SNIFF_BYTES..];
    OneChunk(a);
    assert [a, b][..1] == [a];
    assert a + b == stream;
    EarlyRuns([a]);
    var s := RunS([a]);
    AdvanceLeaves(FRESH.With(a));
    LoginAfterCap(a);
    assert s == Whole(a);
    if Fitting(s, b) == b {
      StepWhole(s, a, b);
    } else {
      var q := Fitting(s, b);
      LoginSettles(s.With(s.buf + q));
      WholeResumes(a, q);
      StepCut(s, a, b);
    }
  }

  /** A whole parse of a full cap without a verdict is past the handshake. */
  lemma LoginAfterCap(a: seq<Byte>)
    requires |a| == MAX_SNIFF_BYTES && !Settles(a)
    ensures Whole(a).stage == AwaitLogin
  {
    var t := FRESH.With(a);
    FullHasFrame(t);
    var f := SplitFrame(a, MAX_HANDSHAKE_PACKET);
    HandshakeFrame(t, f.body, f.consumed);
  }

  /** A full buffer settles the login. */
  lemma LoginSettles(t: SnifferS)
    requires t.stage == AwaitLogin && |t.buf| >= MAX_SNIFF_BYTES
    ensures AdvanceS(t).stage.Done?
  {
    if SplitFrame(t.buf, MAX_HANDSHAKE_PACKET).FrameIncomplete? {
      IncompleteIsShort(t.buf, MAX_HANDSHAKE_PACKET);
    }
  }

  // ------------------------------------------------------------------------------------------
  // The excluded case is a stream a client may send.

  function Zeros(n: nat): (z: seq<Byte>)
    ensures |z| == n
  {
    seq(n, _ => 0)
  }

  const LONG_ADDRESS: Handshake := Handshake(0, Zeros(MAX_SERVER_ADDRESS), 0, LOGIN)

  /** A handshake with the longest address the parser takes. */
  function LongHandshake(): seq<Byte> { HandshakeBytes(LONG_ADDRESS, Encode(0), Encode(MAX_SERVER_ADDRESS), Encode(LOGIN)) }

  /** A login start padded to the longest packet. */
  function LongLogin(): seq<Byte> { Prefixed(['A' as int]) + Zeros(MAX_HANDSHAKE_PACKET - 3) }

  function LateStream(): seq<Byte> { Packet(0, LongHandshake()) + Packet(0, LongLogin()) }

  lemma EncodedSize(v: int)
    requires 0 <= v < 16384
    ensures |Encode(v)| == if v < 128 then 1 else 2
  {
    if v >= 128 {
      assert |EncodeU(v / 128)| == 1;
    }
  }

  lemma EncodedSpells(v: int)
    requires IsInt32(v)
    ensures VarIntBytes(Encode(v), v)
  {
    RoundTrip(v, []);
    assert Encode(v) + [] == Encode(v);
    DecodeMeaning(Encode(v));
  }

  lemma LongSizes()
    ensures |Encode(0)| == 1 && |LongHandshake()| == 4102 && |LongLogin()| == 8191
    ensures |Packet(0, LongHandshake())| == 4105 && |Packet(0, LongLogin())| == 8194
  {
    EncodedSize(0);
    EncodedSize(1);
    EncodedSize(LOGIN);
    EncodedSize(MAX_SERVER_ADDRESS);
    EncodedSize(4103);
    EncodedSize(8192);
  }

  /** The first packet is taken whatever follows it. */
  lemma LongHandshakeRuns(x: seq<Byte>)
    ensures Whole(Packet(0, LongHandshake()) + x)
         == AdvanceS(SnifferS(x, AwaitLogin, 0, Some(LONG_ADDRESS), None))
  {
    LongSizes();
    var h := Packet(0, LongHandshake());
    PacketRoundTrip(0, LongHandshake(), MAX_HANDSHAKE_PACKET, x);
    EncodedSpells(0);
    EncodedSpells(MAX_SERVER_ADDRESS);
    EncodedSpells(LOGIN);
    LayoutIsRead(LongHandshake(), LONG_ADDRESS, Encode(0), Encode(MAX_SERVER_ADDRESS), Encode(LOGIN));
    assert (h + x)[|h|..] == x;
  }

  lemma CutFrame(x: seq<Byte>, y: seq<Byte>)
    requires y != [] && SplitFrame(x + y, MAX_HANDSHAKE_PACKET).FrameOk?
    requires SplitFrame(x + y, MAX_HANDSHAKE_PACKET).consumed == |x + y|
    ensures SplitFrame(x, MAX_HANDSHAKE_PACKET).FrameIncomplete?
  {
    DecodeMeaning(x);
    if !SplitFrame(x, MAX_HANDSHAKE_PACKET).FrameIncomplete? {
      SplitExtends(x, y, MAX_HANDSHAKE_PACKET);
    }
  }

  /** It has a verdict, and not within the cap. */
  lemma LateStreamExists()
    ensures Settles(LateStream()) && !SettlesEarly(LateStream())
  {
    LongSizes();
    var h, l := Packet(0, LongHandshake()), Packet(0, LongLogin());
    LongHandshakeRuns(l);
    PacketRoundTrip(0, LongLogin(), MAX_HANDSHAKE_PACKET, []);
    assert l + [] == l;
    var x := l[..MAX_SNIFF_BYTES - |h|];
    LongHandshakeRuns(x);
    assert LateStream()[..MAX_SNIFF_BYTES] == h + x;
    assert x + l[|x|..] == l;
    CutFrame(x, l[|x|..]);
  }
}
