/** The dial-back handoff (internal/gateway/perconn.go:21-123) under every interleaving. A player's
    goroutine opens a slot, asks the agent to dial back and waits; any number of dial-backs arrive,
    each in its own goroutine. A step is what happens between two points where another goroutine can
    come in: one critical section under the slot's mutex, closing the ready channel, one map access. */
module DialBack {
  import opened Prelude

  /** The player's goroutine: the slot is stored; it waits in the select; a cancel or timeout woke it
      but it does not hold the lock yet; take returned; or the open_data write failed. */
  datatype Waiter = Opening | Waiting | Woken | Returned(conn: Option<nat>) | WriteFailed

  /** pendingConn. A dialed-back connection is named by the handler that brought it. */
  datatype Slot = Slot(agentId: string, conn: Option<nat>, done: bool, ready: bool, waiter: Waiter)

  /** The goroutine of one dial-back: which connection id it claims; holding the slot it found; its
      deliver stored the connection but has not signalled; returned true; returned false with the
      connection still open; or it closed its connection. */
  datatype Handler =
    | Dialed(connId: nat, agentId: string)
    | Loaded(slot: nat)
    | Stored(slot: nat)
    | Delivered(slot: nat)
    | Refused(slot: nat)
    | Closed

  /** Who dialed, and for which connection id. */
  datatype Claim = Claim(connId: nat, agentId: string)

  /** Connection ids are issued once, so slot i serves connection id i; pending is the map's domain.
      claims is history: the dial-back each handler was started for. */
  datatype World = World(slots: seq<Slot>, pending: set<nat>, handlers: seq<Handler>, claims: seq<Claim>)

  datatype Event =
    | Open(agentId: string)
    | Write(slot: nat, ok: bool)
    | Dial(connId: nat, agentId: string)
    | Lookup(h: nat)
    | Deliver(h: nat)
    | Signal(h: nat)
    | CloseConn(h: nat)
    | WakeReady(slot: nat)
    | WakeOther(slot: nat)
    | TakeLocked(slot: nat)
    | Delete(slot: nat)

  /** The critical section of deliver. */
  function DeliverS(s: Slot, h: nat): (Slot, bool) {
    if s.done then (s, false) else (s.(conn := Some(h), done := true), true)
  }

  /** The critical section of take, after a cancel or timeout. */
  function TakeS(s: Slot): (Slot, Option<nat>) {
    if s.done then (s, s.conn) else (s.(done := true), None)
  }

  function SetSlot(w: World, i: nat, s: Slot): World
    requires i < |w.slots|
  {
    w.(slots := w.slots[i := s])
  }

  function SetHandler(w: World, h: nat, x: Handler): World
    requires h < |w.handlers|
  {
    w.(handlers := w.handlers[h := x])
  }

  function WaiterStep(w: World, e: Event, i: nat): World
    requires i < |w.slots| && (e.Write? || e.WakeReady? || e.WakeOther? || e.TakeLocked? || e.Delete?)
  {
    var s := w.slots[i];
    match e
    case Write(_, ok) => if s.waiter.Opening? then SetSlot(w, i, s.(waiter := if ok then Waiting else WriteFailed)) else w
    case WakeReady(_) => if s.waiter.Waiting? && s.ready then SetSlot(w, i, s.(waiter := Returned(s.conn))) else w
    case WakeOther(_) => if s.waiter.Waiting? then SetSlot(w, i, s.(waiter := Woken)) else w
    case TakeLocked(_) =>
      if s.waiter.Woken? then
        var (t, conn) := TakeS(s);
        SetSlot(w, i, t.(waiter := Returned(conn)))
      else w
    case Delete(_) =>
      if s.waiter.Returned? || s.waiter.WriteFailed? then w.(pending := w.pending - {i}) else w
  }

  function HandlerStep(w: World, e: Event, h: nat): World
    requires h < |w.handlers| && (e.Lookup? || e.Deliver? || e.Signal? || e.CloseConn?)
  {
    match (e, w.handlers[h])
    case (Lookup(_), Dialed(connId, agentId)) =>
      if connId in w.pending && connId < |w.slots| && w.slots[connId].agentId == agentId then
        SetHandler(w, h, Loaded(connId))
      else SetHandler(w, h, Closed)
    case (Deliver(_), Loaded(i)) =>
      if i < |w.slots| then
        var (t, won) := DeliverS(w.slots[i], h);
        SetHandler(SetSlot(w, i, t), h, if won then Stored(i) else Refused(i))
      else w
    case (Signal(_), Stored(i)) =>
      if i < |w.slots| then SetHandler(SetSlot(w, i, w.slots[i].(ready := true)), h, Delivered(i)) else w
    case (CloseConn(_), Refused(_)) => SetHandler(w, h, Closed)
    case _ => w
  }

  /** One step; an event that cannot happen changes nothing. */
  function Step(w: World, e: Event): World {
    match e
    case Open(agentId) =>
      w.(slots := w.slots + [Slot(agentId, None, false, false, Opening)], pending := w.pending + {|w.slots|})
    case Dial(connId, agentId) =>
      w.(handlers := w.handlers + [Dialed(connId, agentId)], claims := w.claims + [Claim(connId, agentId)])
    case Lookup(h) => if h < |w.handlers| then HandlerStep(w, e, h) else w
    case Deliver(h) => if h < |w.handlers| then HandlerStep(w, e, h) else w
    case Signal(h) => if h < |w.handlers| then HandlerStep(w, e, h) else w
    case CloseConn(h) => if h < |w.handlers| then HandlerStep(w, e, h) else w
    case Write(i, _) => if i < |w.slots| then WaiterStep(w, e, i) else w
    case WakeReady(i) => if i < |w.slots| then WaiterStep(w, e, i) else w
    case WakeOther(i) => if i < |w.slots| then WaiterStep(w, e, i) else w
    case TakeLocked(i) => if i < |w.slots| then WaiterStep(w, e, i) else w
    case Delete(i) => if i < |w.slots| then WaiterStep(w, e, i) else w
  }

  const START := World([], {}, [], [])

  function Run(events: seq<Event>): World {
    if events == [] then START else Step(Run(events[..|events| - 1]), events[|events| - 1])
  }

  // ------------------------------------------------------------------------------------------
  // The slot in place.

  class PendingConn {
    const agentId: string
    var conn: Option<nat>
    var done: bool
    var ready: bool

    ghost function State(waiter: Waiter): Slot
      reads this
    {
      Slot(agentId, conn, done, ready, waiter)
    }

    constructor (agentId: string)
      ensures State(Opening) == Slot(agentId, None, false, false, Opening)
    {
      this.agentId, conn, done, ready := agentId, None, false, false;
    }

    /** deliver up to its unlock. */
    method DeliverLocked(h: nat) returns (won: bool)
      modifies this
      ensures forall wt :: (State(wt), won) == DeliverS(old(State(wt)), h)
    {
      if done {
        return false;
      }
      conn := Some(h);
      done := true;
      won := true;
    }

    /** take's section under the lock. */
    method TakeUnderLock() returns (r: Option<nat>)
      modifies this
      ensures forall wt :: (State(wt), r) == TakeS(old(State(wt)))
    {
      if done {
        return conn;
      }
      done := true;
      r := None;
    }
  }

  // ------------------------------------------------------------------------------------------
  // Exactly once.

  /** The handler's deliver on slot i has won. */
  predicate Winner(x: Handler, i: nat) { (x.Stored? || x.Delivered?) && x.slot == i }

  ghost predicate SlotOk(w: World, i: nat)
    requires i < |w.slots|
  {
    var s := w.slots[i];
    && (s.conn.Some? ==> s.done && s.conn.value < |w.handlers| && Winner(w.handlers[s.conn.value], i))
    && (s.ready ==> s.conn.Some? && w.handlers[s.conn.value].Delivered?)
    && (s.done && s.conn.None? ==> s.waiter == Returned(None))
    && (s.waiter.Returned? ==> s.done && s.waiter.conn == s.conn)
  }

  ghost predicate HandlerOk(w: World, h: nat)
    requires h < |w.handlers|
  {
    match w.handlers[h]
    case Dialed(_, _) => true
    case Loaded(i) => i < |w.slots|
    case Stored(i) => i < |w.slots| && w.slots[i].conn == Some(h) && !w.slots[i].ready
    case Delivered(i) => i < |w.slots| && w.slots[i].conn == Some(h) && w.slots[i].ready
    case Refused(i) => i < |w.slots| && w.slots[i].done && w.slots[i].conn != Some(h)
    case Closed => forall i :: 0 <= i < |w.slots| ==> w.slots[i].conn != Some(h)
  }

  ghost predicate Inv(w: World) {
    && (forall i :: 0 <= i < |w.slots| ==> SlotOk(w, i))
    && (forall h :: 0 <= h < |w.handlers| ==> HandlerOk(w, h))
  }

  /** Only slot i may differ, and its connection and ready flag do not. */
  lemma WaiterKeeps(w: World, e: Event, i: nat)
    requires Inv(w) && i < |w.slots| && (e.Write? || e.WakeReady? || e.WakeOther? || e.TakeLocked? || e.Delete?)
    ensures Inv(WaiterStep(w, e, i))
  {
    var v := WaiterStep(w, e, i);
    assert SlotOk(w, i);
    forall j | 0 <= j < |v.slots|
      ensures SlotOk(v, j)
    {
      assert SlotOk(w, j);
    }
    forall h | 0 <= h < |v.handlers|
      ensures HandlerOk(v, h)
    {
      assert HandlerOk(w, h);
    }
  }

  lemma HandlerKeeps(w: World, e: Event, h: nat)
    requires Inv(w) && h < |w.handlers| && (e.Lookup? || e.Deliver? || e.Signal? || e.CloseConn?)
    ensures Inv(HandlerStep(w, e, h))
  {
    var v := HandlerStep(w, e, h);
    assert HandlerOk(w, h);
    if w.handlers[h].Loaded? {
      assert SlotOk(w, w.handlers[h].slot);
    }
    forall j | 0 <= j < |v.slots|
      ensures SlotOk(v, j)
    {
      assert SlotOk(w, j);
    }
    forall g | 0 <= g < |v.handlers|
      ensures HandlerOk(v, g)
    {
      assert HandlerOk(w, g);
      if v.handlers[h].Closed? && g == h {
        forall i | 0 <= i < |v.slots|
          ensures v.slots[i].conn != Some(h)
        {
          assert SlotOk(w, i);
        }
      }
    }
  }

  lemma GrowKeeps(w: World, e: Event)
    requires Inv(w) && (e.Open? || e.Dial?)
    ensures Inv(Step(w, e))
  {
    var v := Step(w, e);
    forall j | 0 <= j < |v.slots|
      ensures SlotOk(v, j)
    {
      if j < |w.slots| {
        assert SlotOk(w, j);
      }
    }
    forall g | 0 <= g < |v.handlers|
      ensures HandlerOk(v, g)
    {
      if g < |w.handlers| {
        assert HandlerOk(w, g);
      }
    }
  }

  lemma StepKeeps(w: World, e: Event)
    requires Inv(w)
    ensures Inv(Step(w, e))
  {
    match e
    case Open(_) => GrowKeeps(w, e);
    case Dial(_, _) => GrowKeeps(w, e);
    case Lookup(h) => if h < |w.handlers| { HandlerKeeps(w, e, h); }
    case Deliver(h) => if h < |w.handlers| { HandlerKeeps(w, e, h); }
    case Signal(h) => if h < |w.handlers| { HandlerKeeps(w, e, h); }
    case CloseConn(h) => if h < |w.handlers| { HandlerKeeps(w, e, h); }
    case Write(i, _) => if i < |w.slots| { WaiterKeeps(w, e, i); }
    case WakeReady(i) => if i < |w.slots| { WaiterKeeps(w, e, i); }
    case WakeOther(i) => if i < |w.slots| { WaiterKeeps(w, e, i); }
    case TakeLocked(i) => if i < |w.slots| { WaiterKeeps(w, e, i); }
    case Delete(i) => if i < |w.slots| { WaiterKeeps(w, e, i); }
  }

  lemma {:induction false} RunOk(events: seq<Event>)
    ensures Inv(Run(events))
  {
    if events != [] {
      RunOk(events[..|events| - 1]);
      StepKeeps(Run(events[..|events| - 1]), events[|events| - 1]);
    }
  }

  /** At most one deliver wins a slot, and take returns a connection exactly when one did, and that
      one: over every interleaving of any number of dial-backs, cancels and timeouts. */
  lemma ExactlyOnce(events: seq<Event>, i: nat)
    requires i < |Run(events).slots|
    ensures var w := Run(events);
      && (forall g, h :: 0 <= g < h < |w.handlers| ==> !(Winner(w.handlers[g], i) && Winner(w.handlers[h], i)))
      && (w.slots[i].waiter.Returned? ==>
            forall h :: 0 <= h < |w.handlers| ==> (Winner(w.handlers[h], i) <==> w.slots[i].waiter.conn == Some(h)))
  {
    RunOk(events);
    var w := Run(events);
    assert SlotOk(w, i);
    forall h | 0 <= h < |w.handlers| && Winner(w.handlers[h], i)
      ensures w.slots[i].conn == Some(h)
    {
      assert HandlerOk(w, h);
    }
  }

  lemma RunStep(events: seq<Event>, e: Event)
    ensures Run(events + [e]) == Step(Run(events), e)
  {
    assert (events + [e])[..|events|] == events;
  }

  // ------------------------------------------------------------------------------------------
  // Only the slot's own agent is answered, and it is.

  /** The slot a handler has found, if it got that far. */
  function Found(x: Handler): Option<nat> {
    match x
    case Loaded(i) => Some(i)
    case Stored(i) => Some(i)
    case Delivered(i) => Some(i)
    case Refused(i) => Some(i)
    case _ => None
  }

  /** What a handler has found is the slot it was dialed for, and it was dialed by that slot's agent. */
  ghost predicate ClaimOk(w: World, h: nat)
    requires h < |w.handlers| == |w.claims|
  {
    && (w.handlers[h].Dialed? ==> w.claims[h] == Claim(w.handlers[h].connId, w.handlers[h].agentId))
    && (Found(w.handlers[h]).Some? ==>
          var i := Found(w.handlers[h]).value;
          i < |w.slots| && w.claims[h] == Claim(i, w.slots[i].agentId))
  }

  ghost predicate ClaimsOk(w: World) {
    |w.handlers| == |w.claims| && forall h :: 0 <= h < |w.handlers| ==> ClaimOk(w, h)
  }

  /** A slot whose player has not given up is in the map. */
  ghost predicate PendingOk(w: World) {
    && (forall i :: i in w.pending ==> i < |w.slots|)
    && (forall i :: 0 <= i < |w.slots| && !w.slots[i].waiter.Returned? && !w.slots[i].waiter.WriteFailed? ==> i in w.pending)
  }

  lemma ClaimsStep(w: World, e: Event)
    requires ClaimsOk(w) && PendingOk(w)
    ensures ClaimsOk(Step(w, e)) && PendingOk(Step(w, e))
  {
    var v := Step(w, e);
    forall h | 0 <= h < |v.handlers|
      ensures ClaimOk(v, h)
    {
      if h < |w.handlers| {
        assert ClaimOk(w, h);
      }
    }
  }

  lemma {:induction false} RunClaims(events: seq<Event>)
    ensures ClaimsOk(Run(events)) && PendingOk(Run(events))
  {
    if events != [] {
      RunClaims(events[..|events| - 1]);
      ClaimsStep(Run(events[..|events| - 1]), events[|events| - 1]);
    }
  }

  /** No agent answers for another: over every interleaving, the connection a slot holds, and the one
      its player is handed, was dialed back for that slot by the slot's own agent. */
  lemma AnsweredByOwnAgent(events: seq<Event>, i: nat, h: nat)
    requires i < |Run(events).slots|
    requires Run(events).slots[i].conn == Some(h) || Run(events).slots[i].waiter == Returned(Some(h))
    ensures var w := Run(events); h < |w.claims| && w.claims[h] == Claim(i, w.slots[i].agentId)
  {
    RunOk(events);
    RunClaims(events);
    var w := Run(events);
    assert SlotOk(w, i);
    assert ClaimOk(w, h);
  }

  /** A lookup finds the slot exactly when it is still in the map and the dialing agent's own, and
      closes the connection otherwise. */
  lemma LookupExactly(events: seq<Event>, h: nat)
    requires h < |Run(events).handlers| && Run(events).handlers[h].Dialed?
    ensures var w := Run(events);
      var v := Step(w, Lookup(h));
      var i := w.handlers[h].connId;
      && |w.claims| == |w.handlers| == |v.handlers|
      && (v.handlers[h] == Loaded(i) <==> i in w.pending && i < |w.slots| && w.slots[i].agentId == w.claims[h].agentId)
      && (v.handlers[h] == Loaded(i) || v.handlers[h] == Closed)
      && v.slots == w.slots && v.pending == w.pending
  {
    RunClaims(events);
    assert ClaimOk(Run(events), h);
  }

  /** The first dial-back of a waiting player's own agent gets through: from any reachable world, the
      lookup finds the slot, the deliver wins, and the signalled player takes that connection. */
  lemma OwnAgentGetsThrough(events: seq<Event>, i: nat, h: nat)
    requires var w := Run(events);
      && h < |w.handlers| && i < |w.slots| && w.handlers[h] == Dialed(i, w.slots[i].agentId)
      && w.slots[i].waiter.Waiting? && !w.slots[i].done
    ensures var v := Run(events + [Lookup(h)] + [Deliver(h)] + [Signal(h)] + [WakeReady(i)]);
      && h < |v.handlers| && v.handlers[h] == Delivered(i)
      && i < |v.slots| && v.slots[i].waiter == Returned(Some(h))
  {
    RunClaims(events);
    var e1 := events + [Lookup(h)];
    var e2 := e1 + [Deliver(h)];
    var e3 := e2 + [Signal(h)];
    RunStep(events, Lookup(h));
    assert Run(e1).handlers[h] == Loaded(i) && Run(e1).slots == Run(events).slots;
    RunStep(e1, Deliver(h));
    assert Run(e2).handlers[h] == Stored(i) && Run(e2).slots[i].conn == Some(h) && Run(e2).slots[i].waiter.Waiting?;
    RunStep(e2, Signal(h));
    RunStep(e3, WakeReady(i));
  }

  /** And a dial-back that comes too late closes its connection: a deliver loses on a slot that is
      done and on no other, and the loser then closes. */
  lemma LoserCloses(events: seq<Event>, i: nat, h: nat)
    requires var w := Run(events); h < |w.handlers| && i < |w.slots| && w.handlers[h] == Loaded(i)
    ensures var w := Run(events);
      var v := Step(w, Deliver(h));
      && |v.handlers| == |w.handlers| == |Step(v, CloseConn(h)).handlers|
      && (w.slots[i].done ==> v.slots == w.slots && Step(v, CloseConn(h)).handlers[h] == Closed)
      && (!w.slots[i].done ==> Winner(v.handlers[h], i))
  {
  }

  /** A player never waits for good: from any reachable world a cancel or timeout and one turn under the
      lock give it the connection that was delivered, or none, and then the slot is done and leaves the
      map. */
  lemma PlayerGetsAway(events: seq<Event>, i: nat)
    requires i < |Run(events).slots| && Run(events).slots[i].waiter.Waiting?
    ensures var w := Run(events);
      var v := Step(Step(w, WakeOther(i)), TakeLocked(i));
      var u := Step(v, Delete(i));
      && |v.slots| == |u.slots| == |w.slots|
      && v.slots[i] == w.slots[i].(done := true, waiter := Returned(w.slots[i].conn))
      && i !in u.pending && u.slots == v.slots
  {
    RunOk(events);
    assert SlotOk(Run(events), i);
  }

  ghost predicate Finished(x: Handler) { x.Delivered? || x.Closed? }

  /** No connection leaks: once every dial-back has finished and every player has, each dialed-back
      connection is either closed by its own handler and in no player's hands, or in the hands of
      exactly the player whose slot it was delivered to; unless that player's open_data write failed,
      and then nobody holds or closes it. */
  lemma EveryConnectionAccounted(events: seq<Event>, h: nat)
    requires h < |Run(events).handlers| && Finished(Run(events).handlers[h])
    requires forall i :: 0 <= i < |Run(events).slots| ==>
      Run(events).slots[i].waiter.Returned? || Run(events).slots[i].waiter.WriteFailed?
    ensures var w := Run(events);
      if w.handlers[h].Closed? then
        forall i :: 0 <= i < |w.slots| ==> w.slots[i].waiter != Returned(Some(h))
      else
        var i := w.handlers[h].slot;
        && i < |w.slots| && (w.slots[i].waiter == Returned(Some(h)) <==> !w.slots[i].waiter.WriteFailed?)
        && (forall j :: 0 <= j < |w.slots| && j != i ==> w.slots[j].waiter != Returned(Some(h)))
  {
    RunOk(events);
    var w := Run(events);
    assert HandlerOk(w, h);
    forall j | 0 <= j < |w.slots|
      ensures w.slots[j].waiter == Returned(Some(h)) ==> w.slots[j].conn == Some(h)
      ensures w.slots[j].conn == Some(h) ==> Winner(w.handlers[h], j)
    {
      assert SlotOk(w, j);
    }
    if w.handlers[h].Delivered? {
      assert SlotOk(w, w.handlers[h].slot);
    }
  }

  /** Such a run exists: the dial-back arrives although the write is reported failed, finds the slot
      before it is deleted, and delivers to nobody. */
  lemma FailedWriteLeaks()
    ensures var w := Run([Open("a"), Dial(0, "a"), Lookup(0), Write(0, false), Deliver(0), Signal(0), Delete(0)]);
      && w.handlers == [Delivered(0)] && w.pending == {}
      && |w.slots| == 1 && w.slots[0].waiter.WriteFailed?
  {
    var r1 := [Open("a")];
    var r2 := r1 + [Dial(0, "a")];
    var r3 := r2 + [Lookup(0)];
    var r4 := r3 + [Write(0, false)];
    var r5 := r4 + [Deliver(0)];
    var r6 := r5 + [Signal(0)];
    assert [] + [Open("a")] == r1;
    RunStep([], Open("a"));
    RunStep(r1, Dial(0, "a"));
    RunStep(r2, Lookup(0));
    RunStep(r3, Write(0, false));
    RunStep(r4, Deliver(0));
    RunStep(r5, Signal(0));
    RunStep(r6, Delete(0));
    assert r6 + [Delete(0)] == [Open("a"), Dial(0, "a"), Lookup(0), Write(0, false), Deliver(0), Signal(0), Delete(0)];
    assert Run(r3).handlers == [Loaded(0)] && Run(r3).pending == {0};
    assert Run(r4).slots == [Slot("a", None, false, false, WriteFailed)];
    assert Run(r6).handlers == [Delivered(0)];
  }
}
