/** A session's traffic points bucketed for a chart (internal/analytics/queries.go:593-624). */
module TrafficChart {
  import opened Prelude
  import opened Arith

  const MAX_HISTORY_POINTS: int := 300

  datatype TrafficPoint = TrafficPoint(t: int, bytesIn: int, bytesOut: int)

  function SumIn(s: seq<TrafficPoint>): int {
    if s == [] then 0 else SumIn(s[..|s| - 1]) + s[|s| - 1].bytesIn
  }

  function SumOut(s: seq<TrafficPoint>): int {
    if s == [] then 0 else SumOut(s[..|s| - 1]) + s[|s| - 1].bytesOut
  }

  lemma SumSnoc(s: seq<TrafficPoint>, p: TrafficPoint)
    ensures SumIn(s + [p]) == SumIn(s) + p.bytesIn && SumOut(s + [p]) == SumOut(s) + p.bytesOut
  {
    assert (s + [p])[..|s|] == s;
  }

  lemma SumTake(s: seq<TrafficPoint>, i: nat)
    requires i < |s|
    ensures SumIn(s[..i + 1]) == SumIn(s[..i]) + s[i].bytesIn && SumOut(s[..i + 1]) == SumOut(s[..i]) + s[i].bytesOut
  {
    assert s[..i + 1] == s[..i] + [s[i]];
    SumSnoc(s[..i], s[i]);
  }

  /** Samples in the order they were recorded, none before the epoch. */
  ghost predicate InTimeOrder(s: seq<TrafficPoint>) {
    && (forall k :: 0 <= k < |s| ==> s[k].t >= 0)
    && (forall j, k :: 0 <= j < k < |s| ==> s[j].t <= s[k].t)
  }

  /** Quotients of times at most span apart differ by at most 299 once span / 299 is below the
      bucket width. */
  lemma FewBuckets(first: int, last: int, span: int, w: int)
    requires 0 <= first <= last && last - first <= span && w >= span / (MAX_HISTORY_POINTS - 1) + 1 && span >= 0
    ensures w > 0 && last / w - first / w <= MAX_HISTORY_POINTS - 1
  {
    var n := MAX_HISTORY_POINTS - 1;
    var qf, ql := first / w, last / w;
    assert first == qf * w + first % w && last == ql * w + last % w;
    assert span < w * n;
    if ql - qf > n {
      assert (ql - qf) * w == ql * w - qf * w;
      MulStrict(n, ql - qf, w);
    }
  }

  lemma NextBucket(before: int, t: int, w: int)
    requires w > 0 && 0 <= before <= t
    ensures 0 <= before / w <= t / w
  {
    DivMono(0, before, w);
    DivMono(before, t, w);
  }

  // ------------------------------------------------------------------------------------------
  // The reference: the samples of one slot. ks lists the slot of each sample.

  function SlotsOf(s: seq<TrafficPoint>, w: int): (ks: seq<int>)
    requires w > 0
    ensures |ks| == |s| && forall k :: 0 <= k < |s| ==> ks[k] == s[k].t / w
  {
    seq(|s|, k requires 0 <= k < |s| => s[k].t / w)
  }

  function SlotIn(s: seq<TrafficPoint>, ks: seq<int>, g: int): int
    requires |ks| == |s|
  {
    if s == [] then 0
    else SlotIn(s[..|s| - 1], ks[..|s| - 1], g) + if ks[|s| - 1] == g then s[|s| - 1].bytesIn else 0
  }

  function SlotOut(s: seq<TrafficPoint>, ks: seq<int>, g: int): int
    requires |ks| == |s|
  {
    if s == [] then 0
    else SlotOut(s[..|s| - 1], ks[..|s| - 1], g) + if ks[|s| - 1] == g then s[|s| - 1].bytesOut else 0
  }

  /** p carries exactly the bytes of the samples in slot g. */
  ghost predicate HasBytes(p: TrafficPoint, s: seq<TrafficPoint>, ks: seq<int>, g: int)
    requires |ks| == |s|
  {
    p.bytesIn == SlotIn(s, ks, g) && p.bytesOut == SlotOut(s, ks, g)
  }

  ghost predicate Increasing(gs: seq<int>) { forall i, j :: 0 <= i < j < |gs| ==> gs[i] < gs[j] }

  ghost predicate BytesAre(out: seq<TrafficPoint>, gs: seq<int>, s: seq<TrafficPoint>, ks: seq<int>)
    requires |ks| == |s|
  {
    |out| == |gs| && forall i :: 0 <= i < |out| ==> HasBytes(out[i], s, ks, gs[i])
  }

  ghost predicate StartsAre(out: seq<TrafficPoint>, gs: seq<int>, w: int) {
    |out| == |gs| && forall i :: 0 <= i < |out| ==> out[i].t == gs[i] * w
  }

  /** The slots listed are exactly those of the samples. */
  ghost predicate SameSlots(gs: seq<int>, ks: seq<int>) { forall g :: g in gs <==> g in ks }

  /** out has one point for each slot of width w that has samples, in order, at the slot's start and
      with the slot's bytes. */
  ghost predicate Bucketed(out: seq<TrafficPoint>, gs: seq<int>, s: seq<TrafficPoint>, w: int)
    requires w > 0
  {
    && Increasing(gs) && SameSlots(gs, SlotsOf(s, w))
    && BytesAre(out, gs, s, SlotsOf(s, w)) && StartsAre(out, gs, w)
  }

  /** One more sample adds to its own slot and to no other. */
  lemma SlotNext(p: TrafficPoint, s: seq<TrafficPoint>, ks: seq<int>, i: nat, g: int)
    requires |ks| == |s| && i < |s| && HasBytes(p, s[..i], ks[..i], g)
    ensures HasBytes(if ks[i] == g then With(p, s[i]) else p, s[..i + 1], ks[..i + 1], g)
  {
    assert s[..i + 1][..i] == s[..i] && ks[..i + 1][..i] == ks[..i];
  }

  lemma {:induction false} SlotEmpty(s: seq<TrafficPoint>, ks: seq<int>, g: int)
    requires |ks| == |s| && g !in ks
    ensures SlotIn(s, ks, g) == 0 && SlotOut(s, ks, g) == 0
  {
    if s != [] {
      SlotEmpty(s[..|s| - 1], ks[..|s| - 1], g);
    }
  }

  lemma BytesNext(out: seq<TrafficPoint>, gs: seq<int>, s: seq<TrafficPoint>, ks: seq<int>, i: nat)
    requires |ks| == |s| && i < |s| && BytesAre(out, gs, s[..i], ks[..i]) && ks[i] !in gs
    ensures BytesAre(out, gs, s[..i + 1], ks[..i + 1])
  {
    forall j | 0 <= j < |out|
      ensures HasBytes(out[j], s[..i + 1], ks[..i + 1], gs[j])
    {
      SlotNext(out[j], s, ks, i, gs[j]);
    }
  }

  function With(p: TrafficPoint, s: TrafficPoint): TrafficPoint {
    p.(bytesIn := p.bytesIn + s.bytesIn, bytesOut := p.bytesOut + s.bytesOut)
  }

  /** The state of the loop after the samples s, if any: finished points for the slots gs, the current
      point for slot g, the newest; no byte lost, and a slot from lo on for each finished point. */
  ghost predicate State(out: seq<TrafficPoint>, gs: seq<int>, cur: TrafficPoint, g: int, s: seq<TrafficPoint>, ks: seq<int>, lo: int)
    requires |ks| == |s|
  {
    if s == [] then out == [] && gs == [] && g == -1 && cur == TrafficPoint(0, 0, 0)
    else
      && Increasing(gs + [g]) && SameSlots(gs + [g], ks)
      && BytesAre(out, gs, s, ks) && HasBytes(cur, s, ks, g)
      && SumIn(out) + cur.bytesIn == SumIn(s) && SumOut(out) + cur.bytesOut == SumOut(s)
      && |out| <= g - lo && g >= lo >= 0
  }

  lemma SlotsNext(gs: seq<int>, hs: seq<int>, ks: seq<int>, i: nat)
    requires i < |ks| && SameSlots(gs, ks[..i]) && hs == if ks[i] in gs then gs else gs + [ks[i]]
    ensures SameSlots(hs, ks[..i + 1])
  {
    assert ks[..i + 1] == ks[..i] + [ks[i]];
  }

  /** The next sample is the first, or falls in the current slot, or in a later one. */
  lemma FirstSample(s: seq<TrafficPoint>, ks: seq<int>, cur: TrafficPoint)
    requires |ks| == |s| > 0 && ks[0] >= 0 && cur.bytesIn == cur.bytesOut == 0
    ensures State([], [], With(cur, s[0]), ks[0], s[..1], ks[..1], ks[0])
  {
    SumTake(s, 0);
    assert s[..0] == [] && ks[..0] == [];
    SlotNext(cur, s, ks, 0, ks[0]);
    assert ks[..1] == [] + [ks[0]];
  }

  lemma JoiningSample(out: seq<TrafficPoint>, gs: seq<int>, cur: TrafficPoint, g: int,
                      s: seq<TrafficPoint>, ks: seq<int>, i: nat, lo: int)
    requires |ks| == |s| && 0 < i < |s| && State(out, gs, cur, g, s[..i], ks[..i], lo) && ks[i] == g
    ensures State(out, gs, With(cur, s[i]), g, s[..i + 1], ks[..i + 1], lo)
  {
    SumTake(s, i);
    assert (gs + [g])[|gs|] == g;
    forall j | 0 <= j < |gs|
      ensures gs[j] != g
    {
      assert (gs + [g])[j] < (gs + [g])[|gs|];
    }
    BytesNext(out, gs, s, ks, i);
    SlotNext(cur, s, ks, i, g);
    SlotsNext(gs + [g], gs + [g], ks, i);
  }

  lemma OpeningSample(out: seq<TrafficPoint>, gs: seq<int>, cur: TrafficPoint, g: int,
                      s: seq<TrafficPoint>, ks: seq<int>, i: nat, lo: int, next: TrafficPoint)
    requires |ks| == |s| && 0 < i < |s| && State(out, gs, cur, g, s[..i], ks[..i], lo) && ks[i] > g
    requires next.bytesIn == next.bytesOut == 0
    ensures State(out + [cur], gs + [g], With(next, s[i]), ks[i], s[..i + 1], ks[..i + 1], lo)
  {
    SumTake(s, i);
    SumSnoc(out, cur);
    var hs := gs + [g];
    assert hs[|gs|] == g;
    assert ks[i] !in hs;
    SlotEmpty(s[..i], ks[..i], ks[i]);
    SlotNext(next, s, ks, i, ks[i]);
    BytesNext(out + [cur], hs, s, ks, i);
    SlotsNext(hs, hs + [ks[i]], ks, i);
  }

  // ------------------------------------------------------------------------------------------

  /** The bucket width for a span: the least, from the sample cadence of 15 s on, of which one less
      than the cap exceed the span. */
  function WidthFor(span: int): (w: int)
    ensures w >= 15_000 && span < (MAX_HISTORY_POINTS - 1) * w
    ensures w > 15_000 ==> (MAX_HISTORY_POINTS - 1) * (w - 1) <= span
  {
    Max(span / (MAX_HISTORY_POINTS - 1) + 1, 15_000)
  }

  method Width(samples: seq<TrafficPoint>, spanMs: int, nowMs: int) returns (w: int)
    requires samples != []
    ensures w == WidthFor(if spanMs > 0 then spanMs else nowMs - samples[0].t)
  {
    var span := spanMs;
    if span <= 0 {
      span := nowMs - samples[0].t;
    }
    w := span / (MAX_HISTORY_POINTS - 1) + 1;
    if w < 15_000 {
      w := 15_000;
    }
  }

  /** Slots of samples in time order only grow. */
  lemma SlotsGrow(s: seq<TrafficPoint>, ks: seq<int>, w: int)
    requires w > 0 && InTimeOrder(s) && ks == SlotsOf(s, w)
    ensures forall j, k :: 0 <= j <= k < |ks| ==> 0 <= ks[j] <= ks[k]
  {
    forall j, k | 0 <= j <= k < |ks|
      ensures 0 <= ks[j] <= ks[k]
    {
      NextBucket(s[j].t, s[k].t, w);
    }
  }

  lemma Capped(s: seq<TrafficPoint>, ks: seq<int>, w: int, span: int, points: int)
    requires s != [] && InTimeOrder(s) && w == WidthFor(span) && ks == SlotsOf(s, w)
    requires points <= ks[|s| - 1] - ks[0]
    ensures s[|s| - 1].t - s[0].t <= span ==> points + 1 <= MAX_HISTORY_POINTS
  {
    if s[|s| - 1].t - s[0].t <= span {
      FewBuckets(s[0].t, s[|s| - 1].t, span, w);
    }
  }

  /** The bucketed series has exactly one point for each slot that has samples, at the slot's start
      and with the slot's bytes, so it keeps every byte; and at most 300 points whenever the samples
      really fit in the span the caller names. */
  method BucketTraffic(samples: seq<TrafficPoint>, spanMs: int, nowMs: int)
    returns (out: seq<TrafficPoint>, ghost gs: seq<int>)
    requires InTimeOrder(samples)
    ensures samples == [] ==> out == []
    ensures samples != [] ==>
      var span := if spanMs > 0 then spanMs else nowMs - samples[0].t;
      && Bucketed(out, gs, samples, WidthFor(span))
      && (samples[|samples| - 1].t - samples[0].t <= span ==> |out| <= MAX_HISTORY_POINTS)
    ensures SumIn(out) == SumIn(samples) && SumOut(out) == SumOut(samples)
  {
    out, gs := [], [];
    if |samples| == 0 {
      return;
    }
    var w := Width(samples, spanMs, nowMs);
    ghost var ks := SlotsOf(samples, w);
    SlotsGrow(samples, ks, w);
    var cur := TrafficPoint(0, 0, 0);
    var curBucket := -1;
    for i := 0 to |samples|
      invariant State(out, gs, cur, curBucket, samples[..i], ks[..i], ks[0])
      invariant i > 0 ==> curBucket == ks[i - 1]
      invariant StartsAre(out, gs, w) && (i > 0 ==> cur.t == curBucket * w)
    {
      var s := samples[i];
      var b := s.t / w;
      assert b == ks[i];
      if b != curBucket {
        if curBucket >= 0 {
          OpeningSample(out, gs, cur, curBucket, samples, ks, i, ks[0], TrafficPoint(b * w, 0, 0));
          out := out + [cur];
          gs := gs + [curBucket];
        } else {
          FirstSample(samples, ks, TrafficPoint(b * w, 0, 0));
        }
        cur := TrafficPoint(b * w, 0, 0);
        curBucket := b;
      } else {
        JoiningSample(out, gs, cur, curBucket, samples, ks, i, ks[0]);
      }
      cur := With(cur, s);
    }
    assert samples[..|samples|] == samples && ks[..|samples|] == ks;
    SumSnoc(out, cur);
    Capped(samples, ks, w, if spanMs > 0 then spanMs else nowMs - samples[0].t, |out|);
    out := out + [cur];
    gs := gs + [curBucket];
  }
}
