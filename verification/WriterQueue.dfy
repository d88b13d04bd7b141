/** The analytics write queue (internal/analytics/db.go:190-346): producers that never block, a
    bounded channel, barriers, and one writer that batches. A step is one channel operation or one
    batch, so every interleaving of producers, barriers and the writer is a run. */
module WriterQueue {

  /** A queued operation; stamp counts the operations that have entered the queue, in order. */
  datatype Op = Op(stamp: nat, barrier: bool)

  /** The producer holding qmu in the slow path, with its write still in hand: about to try the send,
      about to take a victim, or putting a barrier back. */
  datatype Holder = Nobody | Trying | Evicting | Resending(victim: Op)

  /** accepted lists every operation that ever entered; handed every one given to runBatch, in order;
      lost every evicted one. waiting counts producers that found the queue full and want qmu. */
  datatype Q = Q(
    cap: nat, queue: seq<Op>, pending: seq<Op>, handed: seq<Op>, accepted: seq<Op>,
    holder: Holder, waiting: nat, dropped: nat, lost: seq<Op>, draining: bool, stopped: bool)

  datatype Event =
    | Enqueue
    | EnqueueBarrier
    | Acquire
    | TrySend
    | Evict
    | Resend
    | Receive(batchFull: bool)
    | Flush
    | Stop
    | Exit

  function Fresh(cap: nat): Q { Q(cap, [], [], [], [], Nobody, 0, 0, [], false, false) }

  predicate Room(q: Q) { |q.queue| < q.cap }

  /** A new operation enters at the tail. */
  function Land(q: Q, barrier: bool): Q {
    var o := Op(|q.accepted|, barrier);
    q.(queue := q.queue + [o], accepted := q.accepted + [o])
  }

  /** runBatch of everything pending. */
  function FlushS(q: Q): Q { q.(handed := q.handed + q.pending, pending := []) }

  /** The writer takes the head; a barrier or a full batch is flushed at once, except while draining. */
  function ReceiveS(q: Q, batchFull: bool): Q
    requires q.queue != []
  {
    var o := q.queue[0];
    var r := q.(queue := q.queue[1..], pending := q.pending + [o]);
    if !q.draining && (o.barrier || batchFull) then FlushS(r) else r
  }

  function EvictS(q: Q): Q {
    if q.queue == [] then q.(holder := Trying)
    else
      var victim := q.queue[0];
      var r := q.(queue := q.queue[1..]);
      if victim.barrier then r.(holder := Resending(victim))
      else r.(holder := Trying, dropped := q.dropped + 1, lost := q.lost + [victim])
  }

  /** One step; an event that cannot happen changes nothing. */
  function Step(q: Q, e: Event): Q {
    match e
    case Enqueue => if Room(q) then Land(q, false) else q.(waiting := q.waiting + 1)
    case EnqueueBarrier => if Room(q) then Land(q, true) else q
    case Acquire => if q.holder.Nobody? && q.waiting > 0 then q.(holder := Trying, waiting := q.waiting - 1) else q
    case TrySend =>
      if !q.holder.Trying? then q
      else if Room(q) then Land(q, false).(holder := Nobody)
      else q.(holder := Evicting)
    case Evict => if q.holder.Evicting? then EvictS(q) else q
    case Resend =>
      if q.holder.Resending? && Room(q) then q.(queue := q.queue + [q.holder.victim], holder := Trying) else q
    case Receive(batchFull) => if q.queue != [] && !q.stopped then ReceiveS(q, batchFull) else q
    case Flush => if q.stopped then q else FlushS(q)
    case Stop => q.(draining := true)
    case Exit => if q.draining && q.queue == [] && !q.stopped then FlushS(q).(stopped := true) else q
  }

  function Run(cap: nat, events: seq<Event>): Q {
    if events == [] then Fresh(cap) else Step(Run(cap, events[..|events| - 1]), events[|events| - 1])
  }

  // ------------------------------------------------------------------------------------------
  // The invariant.

  /** What has entered and was not lost, in the order the writer has seen or will see it. */
  function Stream(q: Q): seq<Op> { q.handed + q.pending + q.queue }

  function InHand(q: Q): seq<Op> { if q.holder.Resending? then [q.holder.victim] else [] }

  /** A write comes after everything ahead of it: only barriers ever move, and only back. */
  ghost predicate Ordered(s: seq<Op>) {
    forall i, j :: 0 <= i < j < |s| && !s[j].barrier ==> s[i].stamp < s[j].stamp
  }

  ghost predicate Stamped(accepted: seq<Op>) {
    forall i :: 0 <= i < |accepted| ==> accepted[i].stamp == i
  }

  /** Every accepted operation is in the stream, lost, or a barrier in hand, once. */
  ghost predicate Sound(accepted: seq<Op>, stream: seq<Op>, lost: seq<Op>, hand: seq<Op>) {
    && multiset(accepted) == multiset(stream) + multiset(lost) + multiset(hand)
    && Stamped(accepted) && Ordered(stream)
    && (forall i :: 0 <= i < |lost| ==> !lost[i].barrier)
    && (forall i :: 0 <= i < |hand| ==> hand[i].barrier)
  }

  ghost predicate Inv(q: Q) {
    && Sound(q.accepted, Stream(q), q.lost, InHand(q))
    && q.dropped == |q.lost| && |q.queue| <= q.cap
  }

  lemma StampsBelow(accepted: seq<Op>, stream: seq<Op>, lost: seq<Op>, hand: seq<Op>, i: nat)
    requires Sound(accepted, stream, lost, hand) && i < |stream|
    ensures stream[i].stamp < |accepted|
  {
    assert stream[i] in multiset(stream);
    assert stream[i] in multiset(accepted);
    assert stream[i] in accepted;
  }

  lemma SoundLand(accepted: seq<Op>, stream: seq<Op>, lost: seq<Op>, hand: seq<Op>, barrier: bool)
    requires Sound(accepted, stream, lost, hand)
    ensures var o := Op(|accepted|, barrier); Sound(accepted + [o], stream + [o], lost, hand)
  {
    forall i | 0 <= i < |stream|
      ensures stream[i].stamp < |accepted|
    {
      StampsBelow(accepted, stream, lost, hand, i);
    }
  }

  lemma OrderedWithout(s: seq<Op>, k: nat)
    requires Ordered(s) && k < |s|
    ensures Ordered(s[..k] + s[k + 1..])
  {
    var t := s[..k] + s[k + 1..];
    forall i, j | 0 <= i < j < |t| && !t[j].barrier
      ensures t[i].stamp < t[j].stamp
    {
      var i0, j0 := if i < k then i else i + 1, if j < k then j else j + 1;
      assert s[i0] == t[i] && s[j0] == t[j];
    }
  }

  lemma SoundEvict(accepted: seq<Op>, stream: seq<Op>, lost: seq<Op>, k: nat)
    requires Sound(accepted, stream, lost, []) && k < |stream|
    ensures var rest := stream[..k] + stream[k + 1..];
      if stream[k].barrier then Sound(accepted, rest, lost, [stream[k]])
      else Sound(accepted, rest, lost + [stream[k]], [])
  {
    OrderedWithout(stream, k);
    assert stream == stream[..k] + [stream[k]] + stream[k + 1..];
  }

  lemma SoundResend(accepted: seq<Op>, stream: seq<Op>, lost: seq<Op>, victim: Op)
    requires Sound(accepted, stream, lost, [victim])
    ensures Sound(accepted, stream + [victim], lost, [])
  {
    assert [victim][0].barrier;
  }

  lemma LandStream(q: Q, barrier: bool)
    requires Sound(q.accepted, Stream(q), q.lost, InHand(q))
    ensures var r := Land(q, barrier); Sound(r.accepted, Stream(r), r.lost, InHand(q))
  {
    SoundLand(q.accepted, Stream(q), q.lost, InHand(q), barrier);
    assert Stream(Land(q, barrier)) == Stream(q) + [Op(|q.accepted|, barrier)];
  }

  /** The head of the queue taken out of the stream. */
  lemma HeadOut(ahead: seq<Op>, queue: seq<Op>)
    requires queue != []
    ensures var s := ahead + queue;
      s[|ahead|] == queue[0] && ahead + queue[1..] == s[..|ahead|] + s[|ahead| + 1..]
  {
  }

  /** Taking the head of the queue for a victim. */
  lemma SoundEvictHead(accepted: seq<Op>, ahead: seq<Op>, queue: seq<Op>, lost: seq<Op>)
    requires Sound(accepted, ahead + queue, lost, []) && queue != []
    ensures if queue[0].barrier then Sound(accepted, ahead + queue[1..], lost, [queue[0]])
            else Sound(accepted, ahead + queue[1..], lost + [queue[0]], [])
  {
    HeadOut(ahead, queue);
    SoundEvict(accepted, ahead + queue, lost, |ahead|);
  }

  lemma EvictKeeps(q: Q)
    requires Inv(q) && q.holder.Evicting?
    ensures Inv(EvictS(q))
  {
    if q.queue != [] {
      SoundEvictHead(q.accepted, q.handed + q.pending, q.queue, q.lost);
    }
  }

  lemma ResendKeeps(q: Q)
    requires Inv(q) && q.holder.Resending? && Room(q)
    ensures Inv(Step(q, Resend))
  {
    SoundResend(q.accepted, Stream(q), q.lost, q.holder.victim);
    assert Stream(Step(q, Resend)) == Stream(q) + [q.holder.victim];
  }

  lemma FlushStream(handed: seq<Op>, pending: seq<Op>, queue: seq<Op>)
    ensures (handed + pending) + [] + queue == handed + pending + queue
  {
  }

  lemma ReceiveStream(handed: seq<Op>, pending: seq<Op>, queue: seq<Op>)
    requires queue != []
    ensures handed + (pending + [queue[0]]) + queue[1..] == handed + pending + queue
    ensures (handed + (pending + [queue[0]])) + [] + queue[1..] == handed + pending + queue
  {
  }

  lemma ReceiveKeeps(q: Q, batchFull: bool)
    requires Inv(q) && q.queue != []
    ensures Inv(ReceiveS(q, batchFull))
  {
    ReceiveStream(q.handed, q.pending, q.queue);
    assert Stream(ReceiveS(q, batchFull)) == Stream(q);
  }

  lemma ProducerKeeps(q: Q, e: Event)
    requires Inv(q) && (e.Enqueue? || e.EnqueueBarrier? || e.Acquire? || e.TrySend?)
    ensures Inv(Step(q, e))
  {
    if Room(q) && !e.Acquire? {
      LandStream(q, e.EnqueueBarrier?);
    }
  }

  lemma WriterKeeps(q: Q, e: Event)
    requires Inv(q) && (e.Receive? || e.Flush? || e.Stop? || e.Exit?)
    ensures Inv(Step(q, e))
  {
    FlushStream(q.handed, q.pending, q.queue);
    if e.Receive? && q.queue != [] {
      ReceiveKeeps(q, e.batchFull);
    }
  }

  lemma StepKeeps(q: Q, e: Event)
    requires Inv(q)
    ensures Inv(Step(q, e))
  {
    if e.Evict? {
      if q.holder.Evicting? {
        EvictKeeps(q);
      }
    } else if e.Resend? {
      if q.holder.Resending? && Room(q) {
        ResendKeeps(q);
      }
    } else if e.Enqueue? || e.EnqueueBarrier? || e.Acquire? || e.TrySend? {
      ProducerKeeps(q, e);
    } else {
      WriterKeeps(q, e);
    }
  }

  lemma CapStays(q: Q, e: Event)
    ensures Step(q, e).cap == q.cap
  {
  }

  lemma {:induction false} RunOk(cap: nat, events: seq<Event>)
    ensures Inv(Run(cap, events)) && Run(cap, events).cap == cap
  {
    if events != [] {
      RunOk(cap, events[..|events| - 1]);
      var q, e := Run(cap, events[..|events| - 1]), events[|events| - 1];
      StepKeeps(q, e);
      CapStays(q, e);
    }
  }

  /** Conservation, over every interleaving: every accepted operation is exactly one of queued,
      pending, handed to a batch, evicted and counted, or a barrier on its way back to the tail. No
      barrier is ever evicted, the count of evictions is exact, and the queue stays bounded. */
  lemma EveryOpAccounted(cap: nat, events: seq<Event>, o: Op)
    ensures var q := Run(cap, events);
      && (o in q.accepted ==>
            multiset(q.queue)[o] + multiset(q.pending)[o] + multiset(q.handed)[o] + multiset(q.lost)[o]
            + multiset(InHand(q))[o] == 1)
      && (o in q.lost ==> !o.barrier) && q.dropped == |q.lost| && |q.queue| <= cap
  {
    RunOk(cap, events);
    var q := Run(cap, events);
    if o in q.accepted {
      OnceStamped(q.accepted, o);
    }
  }

  lemma {:induction false} OnceStamped(accepted: seq<Op>, o: Op)
    requires Stamped(accepted)
    ensures multiset(accepted)[o] == if o in accepted then 1 else 0
  {
    if accepted != [] {
      var n := |accepted| - 1;
      assert accepted == accepted[..n] + [accepted[n]];
      OnceStamped(accepted[..n], o);
    }
  }

  /** The barrier guarantee: when a barrier's batch has run, every write that entered the queue
      before it was handed to a batch or evicted, though the barrier may have been moved to the tail
      any number of times. */
  lemma BarrierCovers(cap: nat, events: seq<Event>, b: Op, w: Op)
    requires var q := Run(cap, events);
      b in q.handed && b.barrier && w in q.accepted && !w.barrier && w.stamp < b.stamp
    ensures w in Run(cap, events).handed || w in Run(cap, events).lost
  {
    var q := Run(cap, events);
    RunOk(cap, events);
    StreamTail(q.handed, q.pending, q.queue);
    Covered(q.accepted, q.handed, q.pending + q.queue, q.lost, InHand(q), b, w);
  }

  lemma StreamTail(handed: seq<Op>, pending: seq<Op>, queue: seq<Op>)
    ensures handed + pending + queue == handed + (pending + queue)
  {
  }

  lemma Covered(accepted: seq<Op>, front: seq<Op>, rest: seq<Op>, lost: seq<Op>, hand: seq<Op>, b: Op, w: Op)
    requires Sound(accepted, front + rest, lost, hand)
    requires b in front && w in accepted && !w.barrier && w.stamp < b.stamp
    ensures w in front || w in lost
  {
    assert w in multiset(accepted);
    assert w in multiset(front + rest) || w in multiset(lost) || w in multiset(hand);
    if w in front + rest {
      NotBehind(front, rest, b, w);
    }
  }

  /** In an ordered stream a write older than a barrier is ahead of it. */
  lemma NotBehind(front: seq<Op>, rest: seq<Op>, b: Op, w: Op)
    requires Ordered(front + rest) && b in front && w in front + rest && !w.barrier && w.stamp < b.stamp
    ensures w in front
  {
    var s := front + rest;
    var i :| 0 <= i < |front| && front[i] == b;
    var j :| 0 <= j < |s| && s[j] == w;
    assert s[i] == b;
    assert j < i;
  }

  /** Writes reach the batches in the order they entered. */
  lemma WritesInOrder(cap: nat, events: seq<Event>, i: nat, j: nat)
    requires i < j < |Run(cap, events).handed|
    requires !Run(cap, events).handed[i].barrier && !Run(cap, events).handed[j].barrier
    ensures Run(cap, events).handed[i].stamp < Run(cap, events).handed[j].stamp
  {
    RunOk(cap, events);
    var q := Run(cap, events);
    assert Stream(q)[i] == q.handed[i] && Stream(q)[j] == q.handed[j];
  }

  /** The writer's exit leaves nothing pending: its last batch takes all it received. */
  lemma {:induction false} ExitDrains(cap: nat, events: seq<Event>)
    ensures Run(cap, events).stopped ==> Run(cap, events).pending == []
  {
    if events != [] {
      ExitDrains(cap, events[..|events| - 1]);
    }
  }

  /** Until it drains, the writer never sits on a barrier. */
  lemma {:induction false} NoBarrierPending(cap: nat, events: seq<Event>)
    ensures !Run(cap, events).draining ==> forall i :: 0 <= i < |Run(cap, events).pending| ==> !Run(cap, events).pending[i].barrier
  {
    if events != [] {
      NoBarrierPending(cap, events[..|events| - 1]);
    }
  }

  /** So a barrier's batch runs at once when the writer receives it, or when the batch is full: all that
      was pending is handed over, in order, and it with it. Otherwise the operation waits with the
      pending ones, and the timer hands all of them over. */
  lemma BarrierRunsAtOnce(cap: nat, events: seq<Event>, batchFull: bool)
    requires var q := Run(cap, events); q.queue != [] && !q.draining && !q.stopped
    ensures var q := Run(cap, events);
      var r := Step(q, Receive(batchFull));
      && r.queue == q.queue[1..]
      && (q.queue[0].barrier || batchFull ==> r.handed == q.handed + q.pending + [q.queue[0]] && r.pending == [])
      && (!q.queue[0].barrier && !batchFull ==> r.handed == q.handed && r.pending == q.pending + [q.queue[0]])
      && (r.pending != [] ==> Step(r, Flush) == r.(handed := r.handed + r.pending, pending := []))
  {
  }

  /** A producer that finds room enters at once; one that does not changes nothing but its waiting. */
  lemma RoomLetsIn(cap: nat, events: seq<Event>)
    ensures var q := Run(cap, events);
      var r := Step(q, Enqueue);
      var o := Op(|q.accepted|, false);
      if |q.queue| < cap then
        r.queue == q.queue + [o] && r.accepted == q.accepted + [o] && r.waiting == q.waiting && r.lost == q.lost
      else r == q.(waiting := q.waiting + 1)
  {
    RunOk(cap, events);
  }

  function Enqueues(events: seq<Event>): nat {
    if events == [] then 0 else Enqueues(events[..|events| - 1]) + if events[|events| - 1].Enqueue? then 1 else 0
  }

  function Writes(s: seq<Op>): nat {
    if s == [] then 0 else Writes(s[..|s| - 1]) + if s[|s| - 1].barrier then 0 else 1
  }

  /** No write is forgotten before it enters: over every interleaving each call of Enqueue has either
      entered its write, waits for qmu, or holds it with the write in hand. */
  lemma {:induction false} NoWriteForgotten(cap: nat, events: seq<Event>)
    ensures var q := Run(cap, events);
      Enqueues(events) == Writes(q.accepted) + q.waiting + (if q.holder.Nobody? then 0 else 1)
  {
    if events != [] {
      NoWriteForgotten(cap, events[..|events| - 1]);
      Forgets(Run(cap, events[..|events| - 1]), events[|events| - 1]);
    }
  }

  /** The writes that calls have brought: entered, waiting, or in hand. */
  function Brought(q: Q): nat { Writes(q.accepted) + q.waiting + if q.holder.Nobody? then 0 else 1 }

  lemma {:induction false} Forgets(q: Q, e: Event)
    ensures Brought(Step(q, e)) == Brought(q) + if e.Enqueue? then 1 else 0
  {
    if e.Enqueue? || e.EnqueueBarrier? || e.TrySend? {
      LandBrings(q, e.EnqueueBarrier?);
    } else {
      OnlyHolderMoves(q, e);
    }
  }

  lemma {:induction false} LandBrings(q: Q, barrier: bool)
    ensures Writes(Land(q, barrier).accepted) == Writes(q.accepted) + if barrier then 0 else 1
    ensures Land(q, barrier).waiting == q.waiting && Land(q, barrier).holder == q.holder
  {
    WritesSnoc(q.accepted, Op(|q.accepted|, barrier));
  }

  lemma {:induction false} OnlyHolderMoves(q: Q, e: Event)
    requires !e.Enqueue? && !e.EnqueueBarrier? && !e.TrySend?
    ensures var r := Step(q, e);
      r.accepted == q.accepted && r.waiting + (if r.holder.Nobody? then 0 else 1) == q.waiting + if q.holder.Nobody? then 0 else 1
  {
  }

  lemma {:induction false} WritesSnoc(s: seq<Op>, o: Op)
    ensures Writes(s + [o]) == Writes(s) + if o.barrier then 0 else 1
  {
    assert (s + [o])[..|s|] == s;
  }

  function Received(q: Q, n: nat): Q { if n == 0 then q else Step(Received(q, n - 1), Receive(false)) }

  lemma {:induction false} DrainStep(q: Q, n: nat)
    requires q.draining && !q.stopped && n <= |q.queue|
    ensures Received(q, n) == q.(queue := q.queue[n..], pending := q.pending + q.queue[..n])
  {
    if n > 0 {
      DrainStep(q, n - 1);
      assert q.queue[n - 1..][1..] == q.queue[n..];
      assert q.pending + q.queue[..n - 1] + [q.queue[n - 1]] == q.pending + q.queue[..n];
    }
  }

  /** Closing loses nothing: from any world of any run in which the writer still runs, told to stop it
      takes what is queued, hands it all over in order, and exits. */
  lemma CloseHandsAll(cap: nat, events: seq<Event>)
    requires !Run(cap, events).stopped
    ensures var q := Run(cap, events);
      var r := Step(Received(Step(q, Stop), |q.queue|), Exit);
      && r.stopped && r.queue == [] && r.pending == [] && r.handed == q.handed + q.pending + q.queue && r.lost == q.lost
  {
    var q := Run(cap, events);
    DrainStep(Step(q, Stop), |q.queue|);
    assert q.queue[..|q.queue|] == q.queue;
    assert q.handed + (q.pending + q.queue) == q.handed + q.pending + q.queue;
  }

  // ------------------------------------------------------------------------------------------
  // The slow path on its own.

  /** The holder's moves until it tries again: a failed send, an eviction, and a resend if it caught
      a barrier. */
  function Round(q: Q): Q { Step(Step(Step(q, TrySend), Evict), Resend) }

  function Iterate(f: Q -> Q, q: Q, n: nat): Q
    decreases n
  {
    if n == 0 then q else Iterate(f, f(q), n - 1)
  }

  lemma {:induction false} IterateSplit(f: Q -> Q, q: Q, a: nat, b: nat)
    ensures Iterate(f, q, a + b) == Iterate(f, Iterate(f, q, a), b)
    decreases a
  {
    if a > 0 {
      IterateSplit(f, f(q), a - 1, b);
    }
  }

  function Rounds(q: Q, n: nat): Q { Iterate(Round, q, n) }

  ghost predicate AllBarriers(s: seq<Op>) { forall i :: 0 <= i < |s| ==> s[i].barrier }

  lemma RoundRotates(q: Q)
    requires q.holder.Trying? && |q.queue| == q.cap > 0 && q.queue[0].barrier
    ensures Round(q) == q.(queue := q.queue[1..] + [q.queue[0]])
  {
  }

  lemma Rotation(s: seq<Op>, n: nat)
    requires 0 < n <= |s| && AllBarriers(s[..n])
    ensures var t := s[1..] + [s[0]];
      AllBarriers(t[..n - 1]) && t[n - 1..] + t[..n - 1] == s[n..] + s[..n]
  {
    var t := s[1..] + [s[0]];
    assert t[..n - 1] == s[..n][1..];
    assert s[..n] == [s[0]] + s[..n][1..];
  }

  lemma {:induction false} RoundsRotate(q: Q, n: nat)
    requires q.holder.Trying? && |q.queue| == q.cap && n <= |q.queue| && AllBarriers(q.queue[..n])
    ensures Rounds(q, n) == q.(queue := q.queue[n..] + q.queue[..n])
    decreases n
  {
    if n > 0 {
      RoundRotates(q);
      Rotation(q.queue, n);
      RoundsRotate(Round(q), n - 1);
    } else {
      assert q.queue[0..] + q.queue[..0] == q.queue;
    }
  }

  /** When the writer emptied the queue between the two selects, the producer tries again and lands
      without a loss. */
  lemma RetryLands(q: Q)
    requires q.holder.Evicting? && q.queue == [] && q.cap > 0
    ensures var r := Step(Step(q, Evict), TrySend);
      var o := Op(|q.accepted|, false);
      r == q.(queue := [o], accepted := q.accepted + [o], holder := Nobody)
  {
  }

  /** The slow path exactly, when nobody interferes: with k barriers ahead of the oldest write, k
      rounds move them to the tail, one more evicts that write and no other, and the next send lands
      the new one. */
  lemma SlowPathDropsOldestWrite(q: Q, k: nat)
    requires q.holder.Trying? && |q.queue| == q.cap
    requires k < |q.queue| && AllBarriers(q.queue[..k]) && !q.queue[k].barrier
    ensures var r := Step(Round(Rounds(q, k)), TrySend);
      && r.queue == q.queue[k + 1..] + q.queue[..k] + [Op(|q.accepted|, false)]
      && r.holder.Nobody? && r.lost == q.lost + [q.queue[k]] && r.dropped == q.dropped + 1
      && r.accepted == q.accepted + [Op(|q.accepted|, false)] && r.pending == q.pending && r.handed == q.handed
  {
    RoundsRotate(q, k);
    var m := Rounds(q, k);
    assert m.queue[0] == q.queue[k];
    assert m.queue[1..] == q.queue[k + 1..] + q.queue[..k];
  }

  lemma {:induction false} BarriersAloneHoldOut(q: Q, n: nat)
    requires q.holder.Trying? && |q.queue| == q.cap > 0 && AllBarriers(q.queue)
    ensures Rounds(q, n).holder.Trying? && Rounds(q, n).accepted == q.accepted && Rounds(q, n).dropped == q.dropped
    decreases n
  {
    if n > 0 {
      RoundRotates(q);
      BarriersAloneHoldOut(Round(q), n - 1);
    }
  }

  /** A producer that has landed takes no further part. */
  lemma {:induction false} LandedStays(q: Q, n: nat)
    requires q.holder.Nobody?
    ensures Rounds(q, n) == q
    decreases n
  {
    if n > 0 {
      assert Round(q) == q;
      LandedStays(q, n - 1);
    }
  }

  lemma {:induction false} FirstWrite(s: seq<Op>) returns (k: nat)
    requires !AllBarriers(s)
    ensures k < |s| && !s[k].barrier && AllBarriers(s[..k])
  {
    var n := |s| - 1;
    if AllBarriers(s[..n]) {
      k := n;
      assert forall i :: 0 <= i < n ==> s[i] == s[..n][i];
    } else {
      k := FirstWrite(s[..n]);
      assert s[..n][..k] == s[..k];
    }
  }

  lemma LandsAfter(q: Q, k: nat)
    requires q.holder.Trying? && |q.queue| == q.cap
    requires k < |q.queue| && AllBarriers(q.queue[..k]) && !q.queue[k].barrier
    ensures Rounds(q, k + 2) == Step(Round(Rounds(q, k)), TrySend) && Rounds(q, k + 2).holder.Nobody?
  {
    SlowPathDropsOldestWrite(q, k);
    IterateSplit(Round, q, k, 2);
    var m := Round(Rounds(q, k));
    assert Rounds(Rounds(q, k), 2) == Rounds(m, 1) == Round(m);
  }

  lemma LandsInTime(q: Q)
    requires q.holder.Trying? && |q.queue| == q.cap && !AllBarriers(q.queue)
    ensures Rounds(q, q.cap + 1).holder.Nobody?
  {
    var k := FirstWrite(q.queue);
    LandsAfter(q, k);
    IterateSplit(Round, q, k + 2, q.cap - k - 1);
    LandedStays(Rounds(q, k + 2), q.cap - k - 1);
  }

  /** Undisturbed, the producer lands within n rounds. */
  ghost predicate LandsWithin(q: Q, n: nat) { Rounds(q, n).holder.Nobody? }

  /** When "the new op always lands" holds: an undisturbed producer in the slow path lands, and then
      within one round more than the queue is long, if and only if some queued operation is a write.
      Against a queue of barriers alone it never lands, however long it runs, until the writer takes
      one. */
  lemma SlowPathLandsExactly(q: Q)
    requires q.holder.Trying? && |q.queue| == q.cap > 0
    ensures LandsWithin(q, q.cap + 1) <==> !AllBarriers(q.queue)
    ensures (exists n :: LandsWithin(q, n)) <==> !AllBarriers(q.queue)
  {
    if AllBarriers(q.queue) {
      forall n
        ensures !LandsWithin(q, n)
      {
        BarriersAloneHoldOut(q, n);
      }
    } else {
      LandsInTime(q);
    }
  }

  function Barriers(n: nat): seq<Event> { seq(n, _ => EnqueueBarrier) }

  lemma {:induction false} BarriersFill(cap: nat, n: nat)
    requires n <= cap
    ensures var q := Run(cap, Barriers(n));
      |q.queue| == n && AllBarriers(q.queue) && q == Fresh(cap).(queue := q.queue, accepted := q.accepted)
  {
    if n > 0 {
      BarriersFill(cap, n - 1);
      assert Barriers(n)[..n - 1] == Barriers(n - 1);
    }
  }

  lemma RunSnoc(cap: nat, events: seq<Event>, e: Event)
    ensures Run(cap, events + [e]) == Step(Run(cap, events), e)
  {
    assert (events + [e])[..|events|] == events;
  }

  /** Such a queue is reached: as many barriers as it holds, then one write whose producer goes the
      slow way. */
  lemma BarriersAloneReached(cap: nat, n: nat)
    requires cap > 0
    ensures var q := Run(cap, Barriers(cap) + [Enqueue, Acquire]);
      && q.holder.Trying? && |q.queue| == cap == q.cap && AllBarriers(q.queue)
      && Rounds(q, n).holder.Trying? && Rounds(q, n).accepted == q.accepted
  {
    BarriersFill(cap, cap);
    var b := Barriers(cap);
    assert b + [Enqueue, Acquire] == (b + [Enqueue]) + [Acquire];
    RunSnoc(cap, b, Enqueue);
    RunSnoc(cap, b + [Enqueue], Acquire);
    BarriersAloneHoldOut(Run(cap, b + [Enqueue, Acquire]), n);
  }
}
