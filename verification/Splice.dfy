/** The two-way splice (internal/relay/relay.go:79-181). Each half copies one leg to the other; a step
    is one read, one wait for the limiter, one write or one half-close, so a run of steps is any
    interleaving of the two halves. What the legs do is free: reads of any size, short writes, errors
    at any point, and whatever one half's closing of a leg does to the other. */
module Splice {
  import opened Prelude

  datatype ReadEnd = More | Eof | Failed

  datatype Fault = ReadError | WriteError | ShortWrite | CloseError | Cancelled

  datatype Phase =
    | Reading
    | Throttled(chunk: seq<Byte>, end: ReadEnd)
    | Writing(chunk: seq<Byte>, end: ReadEnd)
    | Closing
    | Done(fault: Option<Fault>)

  /** One direction: all its source will ever send, how much was read, what the sink accepted, the
      byte counter, and whether the sink was half-closed. */
  datatype Half = Half(sent: seq<Byte>, read: nat, accepted: seq<Byte>, count: nat, closedWrite: bool, phase: Phase)

  datatype Move =
    | Read(n: nat, end: ReadEnd)
    | Wait(ok: bool)
    | Write(k: nat, ok: bool)
    | CloseWrite(ok: bool)

  function Fresh(sent: seq<Byte>): Half { Half(sent, 0, [], 0, false, Reading) }

  /** After a chunk is done with, the end that came with it counts. */
  function AfterChunk(h: Half, end: ReadEnd): Half {
    match end
    case More => h.(phase := Reading)
    case Eof => h.(phase := Closing)
    case Failed => h.(closedWrite := true, phase := Done(Some(ReadError)))
  }

  /** A read yields the next bytes of the source, and its end of file only at their end. */
  predicate CanRead(h: Half, n: nat, end: ReadEnd) {
    h.phase.Reading? && h.read + n <= |h.sent| && (end == Eof ==> h.read + n == |h.sent|)
  }

  /** One step of copyHalf; a move that does not apply changes nothing. */
  function HalfStep(h: Half, limited: bool, m: Move): Half {
    match m
    case Read(n, end) =>
      if !CanRead(h, n, end) then h
      else if n == 0 then AfterChunk(h, end)
      else
        var chunk := h.sent[h.read..h.read + n];
        h.(read := h.read + n, phase := if limited then Throttled(chunk, end) else Writing(chunk, end))
    case Wait(ok) =>
      if !h.phase.Throttled? then h
      else if ok then h.(phase := Writing(h.phase.chunk, h.phase.end))
      else h.(phase := Done(Some(Cancelled)))
    case Write(k, ok) =>
      if !h.phase.Writing? || k > |h.phase.chunk| then h
      else
        var g := h.(accepted := h.accepted + h.phase.chunk[..k], count := h.count + k);
        if !ok then g.(phase := Done(Some(WriteError)))
        else if k < |h.phase.chunk| then g.(phase := Done(Some(ShortWrite)))
        else AfterChunk(g, h.phase.end)
    case CloseWrite(ok) =>
      if !h.phase.Closing? then h
      else h.(closedWrite := true, phase := Done(if ok then None else Some(CloseError)))
  }

  function HalfRun(h: Half, limited: bool, moves: seq<Move>): Half {
    if moves == [] then h
    else HalfStep(HalfRun(h, limited, moves[..|moves| - 1]), limited, moves[|moves| - 1])
  }

  // ------------------------------------------------------------------------------------------
  // copyHalf as the loop it is.

  /** What the legs and the limiter do in one turn of the loop. */
  datatype Turn = Turn(n: nat, end: ReadEnd, waitOk: bool, k: nat, writeOk: bool, closeOk: bool)

  function Moves(turns: seq<Turn>): seq<Move> {
    if turns == [] then []
    else
      var t := turns[|turns| - 1];
      Moves(turns[..|turns| - 1]) + [Read(t.n, t.end), Wait(t.waitOk), Write(t.k, t.writeOk), CloseWrite(t.closeOk)]
  }

  lemma RunSnoc(h: Half, limited: bool, moves: seq<Move>, m: Move)
    ensures HalfRun(h, limited, moves + [m]) == HalfStep(HalfRun(h, limited, moves), limited, m)
  {
    assert (moves + [m])[..|moves|] == moves;
  }

  /** One turn from state g. */
  function TurnStep(g: Half, limited: bool, t: Turn): Half {
    HalfStep(HalfStep(HalfStep(HalfStep(g, limited, Read(t.n, t.end)), limited, Wait(t.waitOk)), limited,
                      Write(t.k, t.writeOk)), limited, CloseWrite(t.closeOk))
  }

  lemma RunTurn(h: Half, limited: bool, turns: seq<Turn>, i: nat)
    requires i < |turns|
    ensures HalfRun(h, limited, Moves(turns[..i + 1])) == TurnStep(HalfRun(h, limited, Moves(turns[..i])), limited, turns[i])
  {
    var t := turns[i];
    assert turns[..i + 1][..i] == turns[..i];
    var m0 := Moves(turns[..i]);
    var m1 := m0 + [Read(t.n, t.end)];
    var m2 := m1 + [Wait(t.waitOk)];
    var m3 := m2 + [Write(t.k, t.writeOk)];
    RunSnoc(h, limited, m0, Read(t.n, t.end));
    RunSnoc(h, limited, m1, Wait(t.waitOk));
    RunSnoc(h, limited, m2, Write(t.k, t.writeOk));
    RunSnoc(h, limited, m3, CloseWrite(t.closeOk));
    assert Moves(turns[..i + 1]) == m3 + [CloseWrite(t.closeOk)];
  }

  /** What is done stays done. */
  lemma {:induction false} DoneForever(h: Half, limited: bool, turns: seq<Turn>, i: nat)
    requires i <= |turns| && HalfRun(h, limited, Moves(turns[..i])).phase.Done?
    ensures HalfRun(h, limited, Moves(turns)) == HalfRun(h, limited, Moves(turns[..i]))
    decreases |turns| - i
  {
    if i < |turns| {
      RunTurn(h, limited, turns, i);
      DoneForever(h, limited, turns, i + 1);
    } else {
      assert turns[..i] == turns;
    }
  }

  /** copyHalf against legs that behave as the turns say; it may still be running when they are used
      up. A write accepts no more than it was given. */
  method CopyHalf(sent: seq<Byte>, limited: bool, turns: seq<Turn>) returns (h: Half)
    requires forall i :: 0 <= i < |turns| ==> turns[i].k <= turns[i].n
    ensures h == HalfRun(Fresh(sent), limited, Moves(turns))
  {
    h := Fresh(sent);
    for i := 0 to |turns|
      invariant h.phase.Reading? && h == HalfRun(Fresh(sent), limited, Moves(turns[..i]))
    {
      var t := turns[i];
      h := CopyTurn(h, limited, t);
      RunTurn(Fresh(sent), limited, turns, i);
      if h.phase.Done? {
        DoneForever(Fresh(sent), limited, turns, i + 1);
        return;
      }
    }
    assert turns[..|turns|] == turns;
  }

  /** The write of a chunk. */
  method WriteChunk(h0: Half, k: nat, ok: bool) returns (h: Half)
    requires h0.phase.Writing? && k <= |h0.phase.chunk|
    ensures forall limited :: h == HalfStep(h0, limited, Write(k, ok))
    ensures h.phase.Reading? || h.phase.Closing? || h.phase.Done?
  {
    var chunk, end := h0.phase.chunk, h0.phase.end;
    h := h0.(accepted := h0.accepted + chunk[..k], count := h0.count + k);
    if !ok {
      return h.(phase := Done(Some(WriteError)));
    }
    if k < |chunk| {
      return h.(phase := Done(Some(ShortWrite)));
    }
    h := AfterChunk(h, end);
  }

  /** A chunk that was read: throttle it, then write it. */
  method Forward(h0: Half, limited: bool, t: Turn) returns (h: Half)
    requires CanRead(h0, t.n, t.end) && 0 < t.n && t.k <= t.n
    ensures h == HalfStep(HalfStep(HalfStep(h0, limited, Read(t.n, t.end)), limited, Wait(t.waitOk)), limited, Write(t.k, t.writeOk))
    ensures h.phase.Reading? || h.phase.Closing? || h.phase.Done?
  {
    var chunk := h0.sent[h0.read..h0.read + t.n];
    h := h0.(read := h0.read + t.n);
    if limited && !t.waitOk {
      return h.(phase := Done(Some(Cancelled)));
    }
    h := WriteChunk(h.(phase := Writing(chunk, t.end)), t.k, t.writeOk);
  }

  /** One turn of the loop. */
  method CopyTurn(h0: Half, limited: bool, t: Turn) returns (h: Half)
    requires h0.phase.Reading? && t.k <= t.n
    ensures h == TurnStep(h0, limited, t)
    ensures h.phase.Reading? || h.phase.Done?
  {
    if !CanRead(h0, t.n, t.end) {
      return h0; // not a read this source can give
    }
    if t.n > 0 {
      h := Forward(h0, limited, t);
    } else {
      h := AfterChunk(h0, t.end);
    }
    if h.phase.Closing? {
      h := h.(closedWrite := true, phase := Done(if t.closeOk then None else Some(CloseError)));
    }
  }

  /** What one turn comes to, exactly: a cancelled wait, a write error, a short write, a read error, a
      failed or a clean half-close each end the half with its own fault or none, after the bytes the
      sink took; otherwise everything read has been passed on. */
  lemma TurnEnds(g: Half, limited: bool, t: Turn)
    requires CanRead(g, t.n, t.end) && t.k <= t.n
    ensures var chunk := g.sent[g.read..g.read + t.n];
      var h := g.(read := g.read + t.n);
      var part := h.(accepted := g.accepted + chunk[..t.k], count := g.count + t.k);
      var all := h.(accepted := g.accepted + chunk, count := g.count + t.n);
      TurnStep(g, limited, t) ==
        if t.n > 0 && limited && !t.waitOk then h.(phase := Done(Some(Cancelled)))
        else if t.n > 0 && !t.writeOk then part.(phase := Done(Some(WriteError)))
        else if t.n > 0 && t.k < t.n then part.(phase := Done(Some(ShortWrite)))
        else if t.end == Failed then all.(closedWrite := true, phase := Done(Some(ReadError)))
        else if t.end == Eof then all.(closedWrite := true, phase := Done(if t.closeOk then None else Some(CloseError)))
        else all
  {
    if t.n == 0 {
      assert g.accepted + g.sent[g.read..g.read + t.n] == g.accepted;
    } else {
      ChunkPassed(g, limited, t);
    }
  }

  /** The first three moves of a turn that read something. */
  lemma ChunkPassed(g: Half, limited: bool, t: Turn)
    requires CanRead(g, t.n, t.end) && t.k <= t.n && t.n > 0
    ensures var chunk := g.sent[g.read..g.read + t.n];
      var h := g.(read := g.read + t.n);
      var part := h.(accepted := g.accepted + chunk[..t.k], count := g.count + t.k);
      HalfStep(HalfStep(HalfStep(g, limited, Read(t.n, t.end)), limited, Wait(t.waitOk)), limited, Write(t.k, t.writeOk)) ==
        if limited && !t.waitOk then h.(phase := Done(Some(Cancelled)))
        else if !t.writeOk then part.(phase := Done(Some(WriteError)))
        else if t.k < t.n then part.(phase := Done(Some(ShortWrite)))
        else AfterChunk(part, t.end)
  {
  }

  function ReadBy(turns: seq<Turn>): nat { if turns == [] then 0 else ReadBy(turns[..|turns| - 1]) + turns[|turns| - 1].n }

  /** Every wait, write and half-close succeeds, and the reads yield all there is and then its end. */
  ghost predicate Clean(sent: seq<Byte>, turns: seq<Turn>) {
    && turns != [] && ReadBy(turns) == |sent|
    && (forall i :: 0 <= i < |turns| ==>
          && turns[i].waitOk && turns[i].writeOk && turns[i].closeOk && turns[i].k == turns[i].n
          && turns[i].end == if i == |turns| - 1 then Eof else More)
  }

  lemma {:induction false} CleanSoFar(sent: seq<Byte>, limited: bool, turns: seq<Turn>, i: nat)
    requires Clean(sent, turns) && i < |turns|
    ensures ReadBy(turns[..i]) + turns[i].n <= |sent|
    ensures var n := ReadBy(turns[..i]);
      HalfRun(Fresh(sent), limited, Moves(turns[..i])) == Half(sent, n, sent[..n], n, false, Reading)
  {
    ReadSoFar(turns, i + 1);
    assert turns[..i + 1][..i] == turns[..i];
    if i > 0 {
      CleanSoFar(sent, limited, turns, i - 1);
      assert turns[..i][..i - 1] == turns[..i - 1];
      RunTurn(Fresh(sent), limited, turns, i - 1);
      CleanTurn(sent, limited, turns[i - 1], ReadBy(turns[..i - 1]));
    }
  }

  /** A turn nothing goes wrong with, before the last. */
  lemma CleanTurn(sent: seq<Byte>, limited: bool, t: Turn, n: nat)
    requires t.waitOk && t.writeOk && t.closeOk && t.k == t.n && t.end == More && n + t.n <= |sent|
    ensures TurnStep(Half(sent, n, sent[..n], n, false, Reading), limited, t)
         == Half(sent, n + t.n, sent[..n + t.n], n + t.n, false, Reading)
  {
    TurnEnds(Half(sent, n, sent[..n], n, false, Reading), limited, t);
    assert sent[..n] + sent[n..n + t.n] == sent[..n + t.n];
  }

  lemma {:induction false} ReadSoFar(turns: seq<Turn>, i: nat)
    requires i <= |turns|
    ensures ReadBy(turns[..i]) <= ReadBy(turns)
    decreases |turns|
  {
    if i < |turns| {
      var n := |turns| - 1;
      ReadSoFar(turns[..n], i);
      assert turns[..n][..i] == turns[..i];
    } else {
      assert turns[..i] == turns;
    }
  }

  /** A copy nothing goes wrong with ends cleanly, whatever sizes the reads come in, throttled or not:
      the sink has everything, counted, and is half-closed. */
  lemma {:induction false} CleanCopyCompletes(sent: seq<Byte>, limited: bool, turns: seq<Turn>)
    requires Clean(sent, turns)
    ensures HalfRun(Fresh(sent), limited, Moves(turns)) == Half(sent, |sent|, sent, |sent|, true, Done(None))
  {
    var i := |turns| - 1;
    CleanSoFar(sent, limited, turns, i);
    RunTurn(Fresh(sent), limited, turns, i);
    assert turns[..i + 1] == turns;
    var n := ReadBy(turns[..i]);
    TurnEnds(Half(sent, n, sent[..n], n, false, Reading), limited, turns[i]);
    assert sent[..n] + sent[n..] == sent;
  }

  // ------------------------------------------------------------------------------------------
  // What a half keeps.

  /** The bytes read but not yet given to the sink. */
  function Held(h: Half): seq<Byte> {
    match h.phase
    case Throttled(chunk, _) => chunk
    case Writing(chunk, _) => chunk
    case _ => []
  }

  function EndOf(p: Phase): ReadEnd {
    match p
    case Throttled(_, end) => end
    case Writing(_, end) => end
    case Closing => Eof
    case _ => More
  }

  ghost predicate HalfInv(h: Half) {
    && h.read <= |h.sent| && h.count == |h.accepted|
    && (if h.phase.Done? then h.accepted <= h.sent[..h.read] else h.accepted + Held(h) == h.sent[..h.read])
    && (EndOf(h.phase) == Eof ==> h.read == |h.sent|)
    && (h.closedWrite ==> h.phase.Done? && h.accepted == h.sent[..h.read])
    && (h.phase == Done(None) ==> h.closedWrite && h.read == |h.sent|)
  }

  lemma WriteKeeps(h: Half, limited: bool, k: nat, ok: bool)
    requires HalfInv(h) && h.phase.Writing? && k <= |h.phase.chunk|
    ensures HalfInv(HalfStep(h, limited, Write(k, ok)))
  {
    var chunk := h.phase.chunk;
    assert h.accepted + chunk == h.sent[..h.read];
    assert h.accepted + chunk[..k] == h.sent[..h.read][..|h.accepted| + k];
    if k == |chunk| {
      assert chunk[..k] == chunk;
    }
  }

  lemma HalfStepKeeps(h: Half, limited: bool, m: Move)
    requires HalfInv(h)
    ensures HalfInv(HalfStep(h, limited, m))
  {
    match m
    case Read(n, end) =>
      if CanRead(h, n, end) {
        assert h.accepted + [] == h.accepted;
        assert h.sent[..h.read] + h.sent[h.read..h.read + n] == h.sent[..h.read + n];
      }
    case Wait(ok) =>
      if h.phase.Throttled? {
        assert h.accepted <= h.accepted + h.phase.chunk;
      }
    case Write(k, ok) =>
      if h.phase.Writing? && k <= |h.phase.chunk| {
        WriteKeeps(h, limited, k, ok);
      }
    case CloseWrite(_) =>
      assert h.accepted + [] == h.accepted;
  }

  // ------------------------------------------------------------------------------------------
  // Both halves.

  /** ctx is cancelled by a half that ends in a fault, or by the parent when the agent is evicted. A
      limiter exists per direction; a chunk never exceeds its burst, so a wait fails only then. */
  datatype Splice = Splice(ab: Half, ba: Half, limitAB: bool, limitBA: bool, cancelled: bool, evicted: bool)

  datatype Event = StepAB(m: Move) | StepBA(m: Move) | EvictAgent

  function Begin(a: seq<Byte>, b: seq<Byte>, limitAB: bool, limitBA: bool): Splice {
    Splice(Fresh(a), Fresh(b), limitAB, limitBA, false, false)
  }

  predicate Faulted(h: Half) { h.phase.Done? && h.phase.fault.Some? }

  predicate CanMove(s: Splice, m: Move) { m == Wait(false) ==> s.cancelled || s.evicted }

  function Step(s: Splice, e: Event): Splice {
    match e
    case StepAB(m) =>
      if !CanMove(s, m) then s
      else
        var h := HalfStep(s.ab, s.limitAB, m);
        s.(ab := h, cancelled := s.cancelled || Faulted(h))
    case StepBA(m) =>
      if !CanMove(s, m) then s
      else
        var h := HalfStep(s.ba, s.limitBA, m);
        s.(ba := h, cancelled := s.cancelled || Faulted(h))
    case EvictAgent => s.(evicted := true)
  }

  function Run(s: Splice, events: seq<Event>): Splice {
    if events == [] then s else Step(Run(s, events[..|events| - 1]), events[|events| - 1])
  }

  predicate OwnFault(h: Half) { Faulted(h) && h.phase.fault != Some(Cancelled) }
  predicate WasCancelled(h: Half) { h.phase == Done(Some(Cancelled)) }

  ghost predicate Inv(s: Splice) {
    && HalfInv(s.ab) && HalfInv(s.ba)
    && (s.cancelled <==> Faulted(s.ab) || Faulted(s.ba))
    && (WasCancelled(s.ab) ==> s.evicted || OwnFault(s.ba))
    && (WasCancelled(s.ba) ==> s.evicted || OwnFault(s.ab))
  }

  lemma FaultStays(h: Half, limited: bool, m: Move)
    requires h.phase.Done?
    ensures HalfStep(h, limited, m) == h
  {
  }

  lemma StepKeeps(s: Splice, e: Event)
    requires Inv(s)
    ensures Inv(Step(s, e))
  {
    match e
    case StepAB(m) =>
      HalfStepKeeps(s.ab, s.limitAB, m);
      if s.ab.phase.Done? { FaultStays(s.ab, s.limitAB, m); }
    case StepBA(m) =>
      HalfStepKeeps(s.ba, s.limitBA, m);
      if s.ba.phase.Done? { FaultStays(s.ba, s.limitBA, m); }
    case EvictAgent =>
  }

  lemma HalfSentStays(h: Half, limited: bool, m: Move)
    ensures HalfStep(h, limited, m).sent == h.sent
  {
  }

  lemma SentStays(s: Splice, e: Event)
    ensures Step(s, e).ab.sent == s.ab.sent && Step(s, e).ba.sent == s.ba.sent
  {
    match e
    case StepAB(m) => HalfSentStays(s.ab, s.limitAB, m);
    case StepBA(m) => HalfSentStays(s.ba, s.limitBA, m);
    case EvictAgent =>
  }

  lemma {:induction false} RunOk(a: seq<Byte>, b: seq<Byte>, limitAB: bool, limitBA: bool, events: seq<Event>)
    ensures Inv(Run(Begin(a, b, limitAB, limitBA), events))
    ensures Run(Begin(a, b, limitAB, limitBA), events).ab.sent == a
    ensures Run(Begin(a, b, limitAB, limitBA), events).ba.sent == b
  {
    if events == [] {
      assert a[..0] == [] && b[..0] == [];
    } else {
      var s := Run(Begin(a, b, limitAB, limitBA), events[..|events| - 1]);
      RunOk(a, b, limitAB, limitBA, events[..|events| - 1]);
      StepKeeps(s, events[|events| - 1]);
      SentStays(s, events[|events| - 1]);
    }
  }

  /** Delivery, over every interleaving: each leg has received a prefix of what the other sent, the
      counters are the bytes accepted, a leg is half-closed only when every byte read for it has been
      delivered, and when a half ends cleanly all the other leg ever sent has arrived. */
  lemma Delivers(a: seq<Byte>, b: seq<Byte>, limitAB: bool, limitBA: bool, events: seq<Event>)
    ensures var s := Run(Begin(a, b, limitAB, limitBA), events);
      && s.ab.accepted <= a && s.ba.accepted <= b
      && s.ab.read <= |a| && s.ba.read <= |b|
      && s.ab.count == |s.ab.accepted| && s.ba.count == |s.ba.accepted|
      && (s.ab.closedWrite ==> s.ab.accepted == a[..s.ab.read])
      && (s.ba.closedWrite ==> s.ba.accepted == b[..s.ba.read])
      && (s.ab.phase == Done(None) ==> s.ab.accepted == a && s.ab.closedWrite)
      && (s.ba.phase == Done(None) ==> s.ba.accepted == b && s.ba.closedWrite)
  {
    RunOk(a, b, limitAB, limitBA, events);
    var s := Run(Begin(a, b, limitAB, limitBA), events);
    PrefixOfSent(s.ab);
    PrefixOfSent(s.ba);
  }

  lemma PrefixOfSent(h: Half)
    requires HalfInv(h)
    ensures h.accepted <= h.sent && (h.read == |h.sent| && h.closedWrite ==> h.accepted == h.sent)
  {
    if !h.phase.Done? {
      assert h.accepted <= h.accepted + Held(h);
    }
  }

  /** The halves cancel each other on a fault and on nothing else: over every interleaving the splice is
      cancelled exactly when a half has ended in a fault, and a throttled half is then, or once the
      agent is evicted, free to give up its wait. */
  lemma CancelledExactly(a: seq<Byte>, b: seq<Byte>, limitAB: bool, limitBA: bool, events: seq<Event>)
    ensures var s := Run(Begin(a, b, limitAB, limitBA), events);
      && (s.cancelled <==> Faulted(s.ab) || Faulted(s.ba))
      && (s.ab.phase.Throttled? ==>
            (Step(s, StepAB(Wait(false))).ab.phase == Done(Some(Cancelled)) <==> s.cancelled || s.evicted))
      && (s.ba.phase.Throttled? ==>
            (Step(s, StepBA(Wait(false))).ba.phase == Done(Some(Cancelled)) <==> s.cancelled || s.evicted))
  {
    RunOk(a, b, limitAB, limitBA, events);
  }

  /** A clean end never cancels the other direction: a half is cancelled only by an eviction or by a
      fault of the other half that was not itself a cancellation. So while nobody is evicted, a half
      whose opposite ended cleanly, or still runs, drains to its own end. */
  lemma CleanEndNeverCancels(a: seq<Byte>, b: seq<Byte>, limitAB: bool, limitBA: bool, events: seq<Event>)
    ensures var s := Run(Begin(a, b, limitAB, limitBA), events);
      && (WasCancelled(s.ab) ==> s.evicted || OwnFault(s.ba))
      && (WasCancelled(s.ba) ==> s.evicted || OwnFault(s.ab))
  {
    RunOk(a, b, limitAB, limitBA, events);
  }
}
