/** The sampler of one series and the history object that owns its rings
    (internal/stats/stats.go:211-289, 583-610).

    Clocks are whole milliseconds at or after the epoch; readings carry the monotonic byte totals
    and the gauges. */
module Histories {
  import opened Prelude
  import opened Arith
  import opened Buckets
  import opened Rings
  import opened Ladder

  datatype Reading = Reading(t: int, appIn: int, appOut: int, conns: int, players: int, rttMs: real, lossPct: real)

  /** The value of a history, without its dirty watermarks. */
  datatype HistoryS = HistoryS(
    tiers: seq<RingS>, baselined: bool, lastT: int, lastIn: int, lastOut: int, touched: int)

  /** A shrinking total counts as a new baseline, never as negative traffic. */
  function MonotonicDelta(cur: int, prev: int): int {
    if cur - prev > 0 then cur - prev else 0
  }

  function Flat(v: real): Ohlc { Ohlc(v, v, v, v) }

  /** The raw point one reading contributes on top of the baseline. */
  function PointOf(x: Reading, lastT: int, lastIn: int, lastOut: int): Bucket
    requires x.t > lastT
  {
    var dIn := MonotonicDelta(x.appIn, lastIn);
    var dOut := MonotonicDelta(x.appOut, lastOut);
    var dt := (x.t - lastT) as real;
    Bucket(x.t, dIn, dOut,
           Flat(dIn as real * 1000.0 / dt), Flat(dOut as real * 1000.0 / dt),
           Flat(x.conns as real),
           Flat(if x.rttMs > 0.0 then x.rttMs else -1.0),
           Flat(if x.players >= 0 then x.players as real else -1.0),
           Flat(if x.lossPct >= 0.0 then x.lossPct else -1.0))
  }

  function FreshHistory(): HistoryS {
    HistoryS(FreshTiers(), false, 0, 0, 0, 0)
  }

  /** The reading produces a point: there is a baseline and the clock moved on. */
  predicate Advances(h: HistoryS, x: Reading) {
    h.baselined && x.t > h.lastT
  }

  function SampleS(h: HistoryS, x: Reading): HistoryS
    requires AllWF(h.tiers) && x.t >= 0
  {
    if !h.baselined then h.(baselined := true, lastT := x.t, lastIn := x.appIn, lastOut := x.appOut, touched := x.t)
    else if x.t <= h.lastT then h.(touched := x.t)
    else HistoryS(AddS(h.tiers, PointOf(x, h.lastT, h.lastIn, h.lastOut)), true, x.t, x.appIn, x.appOut, x.t)
  }

  ghost predicate Clocks(xs: seq<Reading>) {
    forall k :: 0 <= k < |xs| ==> xs[k].t >= 0
  }

  /** The history after a run of readings from fresh. */
  function RunReadings(xs: seq<Reading>): (h: HistoryS)
    requires Clocks(xs)
    ensures AllWF(h.tiers) && |h.tiers| == 5
  {
    if xs == [] then FreshHistory() else SampleS(RunReadings(xs[..|xs| - 1]), xs[|xs| - 1])
  }

  /** The raw points the run contributed, oldest first. */
  function Points(xs: seq<Reading>): seq<Bucket>
    requires Clocks(xs)
  {
    if xs == [] then []
    else
      var h := RunReadings(xs[..|xs| - 1]);
      var x := xs[|xs| - 1];
      Points(xs[..|xs| - 1]) + (if Advances(h, x) then [PointOf(x, h.lastT, h.lastIn, h.lastOut)] else [])
  }

  /** What the last reading of a run does, in either case. */
  lemma LastReading(xs: seq<Reading>)
    requires Clocks(xs) && xs != []
    ensures var ys := xs[..|xs| - 1]; var x := xs[|xs| - 1];
      var h := RunReadings(ys); var g := RunReadings(xs); var P := Points(xs);
      && g.baselined
      && (Advances(h, x) ==>
            && |P| == |Points(ys)| + 1 && P[..|P| - 1] == Points(ys)
            && P[|P| - 1].t == x.t && g.tiers == AddS(h.tiers, P[|P| - 1])
            && P[|P| - 1].bytesIn == MonotonicDelta(x.appIn, h.lastIn)
            && P[|P| - 1].bytesOut == MonotonicDelta(x.appOut, h.lastOut)
            && g.lastT == x.t && g.lastIn == x.appIn && g.lastOut == x.appOut)
      && (!Advances(h, x) ==> P == Points(ys) && g.tiers == h.tiers)
      && (!Advances(h, x) && h.baselined ==> g.lastT == h.lastT && g.lastIn == h.lastIn && g.lastOut == h.lastOut)
      && (!h.baselined ==> g.lastT == x.t && g.lastIn == x.appIn && g.lastOut == x.appOut)
  {
  }

  /** Which series was sampled least recently is decided by every reading, those that produce no point
      included. */
  lemma {:induction false} TouchedLast(xs: seq<Reading>)
    requires Clocks(xs) && xs != []
    ensures RunReadings(xs).touched == xs[|xs| - 1].t
  {
  }

  /** Points in strictly increasing time, the last of them at lastT. */
  ghost predicate Advancing(P: seq<Bucket>, lastT: int) {
    && (forall k :: 0 <= k < |P| ==> 0 <= P[k].t <= lastT)
    && (forall j, k :: 0 <= j < k < |P| ==> P[j].t < P[k].t)
    && (P != [] ==> P[|P| - 1].t == lastT)
  }

  lemma AdvancingNext(P: seq<Bucket>, lastT: int)
    requires P != [] && Advancing(P[..|P| - 1], lastT) && P[|P| - 1].t > lastT && P[|P| - 1].t >= 0
    ensures Advancing(P, P[|P| - 1].t)
  {
    var z := P[..|P| - 1];
    assert P == z + [P[|P| - 1]];
  }

  ghost predicate InOrder(xs: seq<Reading>)
    requires Clocks(xs)
  {
    var h := RunReadings(xs);
    && Advancing(Points(xs), h.lastT) && (Points(xs) != [] ==> h.baselined)
    && (xs != [] ==> h.baselined && h.lastT >= 0)
  }

  lemma {:induction false} PointsInOrder(xs: seq<Reading>)
    requires Clocks(xs)
    ensures InOrder(xs)
  {
    if xs != [] {
      var ys := xs[..|xs| - 1];
      PointsInOrder(ys);
      LastReading(xs);
      if Advances(RunReadings(ys), xs[|xs| - 1]) {
        AdvancingNext(Points(xs), RunReadings(ys).lastT);
      }
    }
  }

  /** The sampler feeds the ladder points in strictly increasing time whatever clock it is given,
      so the late-point drop in add is unreachable on a fresh history, and its tiers are exactly
      the ladder run on those points. */
  lemma {:induction false} SamplerFeedsLadder(xs: seq<Reading>)
    requires Clocks(xs)
    ensures InOrder(xs) && Ordered(Points(xs))
    ensures RunReadings(xs).tiers == RunS(Points(xs))
  {
    PointsInOrder(xs);
    if xs != [] {
      SamplerFeedsLadder(xs[..|xs| - 1]);
      LastReading(xs);
    }
  }

  /** So whatever clock and totals a run of readings carries, its next reading is dropped at no tier
      its point reaches. */
  lemma ReadingNeverDropped(xs: seq<Reading>, x: Reading, L: nat)
    requires Clocks(xs + [x]) && L < 5
    ensures Clocks(xs)
    ensures var h := RunReadings(xs);
      Advances(h, x) ==>
        var p := Reaching(h.tiers, PointOf(x, h.lastT, h.lastIn, h.lastOut), L);
        p.Some? ==> !TooLate(h.tiers[L], p.value)
  {
    var ys := xs + [x];
    assert ys[..|xs|] == xs && forall k :: 0 <= k < |xs| ==> xs[k] == ys[k];
    SamplerFeedsLadder(xs);
    SamplerFeedsLadder(ys);
    if Advances(RunReadings(xs), x) {
      var h := RunReadings(xs);
      assert Points(ys) == Points(xs) + [PointOf(x, h.lastT, h.lastIn, h.lastOut)];
      assert Points(ys)[..|Points(xs)|] == Points(xs);
      NothingDropped(Points(ys), |Points(xs)|, L);
    }
  }

  /** The readings that count: the first, and each whose clock is past the last one that counted. */
  function Accounted(xs: seq<Reading>): seq<Reading> {
    if xs == [] then []
    else
      var before := Accounted(xs[..|xs| - 1]);
      var x := xs[|xs| - 1];
      if before == [] || x.t > before[|before| - 1].t then before + [x] else before
  }

  /** The rises of the totals from each of these readings to the next; a fall counts nothing. */
  function RisesIn(xs: seq<Reading>): int {
    if |xs| < 2 then 0
    else RisesIn(xs[..|xs| - 1]) + MonotonicDelta(xs[|xs| - 1].appIn, xs[|xs| - 2].appIn)
  }

  function RisesOut(xs: seq<Reading>): int {
    if |xs| < 2 then 0
    else RisesOut(xs[..|xs| - 1]) + MonotonicDelta(xs[|xs| - 1].appOut, xs[|xs| - 2].appOut)
  }

  /** The baseline is the last reading that counts. */
  ghost predicate BaselineIs(h: HistoryS, A: seq<Reading>) {
    if A == [] then h == FreshHistory()
    else
      var last := A[|A| - 1];
      h.baselined && h.lastT == last.t && h.lastIn == last.appIn && h.lastOut == last.appOut
  }

  /** What the last reading adds to the sampled bytes. */
  lemma PointsSum(xs: seq<Reading>)
    requires Clocks(xs) && xs != []
    ensures var ys := xs[..|xs| - 1]; var x := xs[|xs| - 1]; var h := RunReadings(ys);
      && SumIn(Points(xs)) == SumIn(Points(ys)) + (if Advances(h, x) then MonotonicDelta(x.appIn, h.lastIn) else 0)
      && SumOut(Points(xs)) == SumOut(Points(ys)) + (if Advances(h, x) then MonotonicDelta(x.appOut, h.lastOut) else 0)
  {
    LastReading(xs);
  }

  lemma RisesSnoc(A: seq<Reading>, x: Reading)
    requires A != []
    ensures RisesIn(A + [x]) == RisesIn(A) + MonotonicDelta(x.appIn, A[|A| - 1].appIn)
    ensures RisesOut(A + [x]) == RisesOut(A) + MonotonicDelta(x.appOut, A[|A| - 1].appOut)
  {
    assert (A + [x])[..|A|] == A;
  }

  lemma BaselineNext(xs: seq<Reading>)
    requires Clocks(xs) && xs != [] && BaselineIs(RunReadings(xs[..|xs| - 1]), Accounted(xs[..|xs| - 1]))
    ensures BaselineIs(RunReadings(xs), Accounted(xs))
    ensures var A := Accounted(xs[..|xs| - 1]); var x := xs[|xs| - 1];
      Advances(RunReadings(xs[..|xs| - 1]), x) <==> A != [] && x.t > A[|A| - 1].t
  {
    LastReading(xs);
  }

  lemma RisesStep(xs: seq<Reading>)
    requires Clocks(xs) && xs != [] && BaselineIs(RunReadings(xs[..|xs| - 1]), Accounted(xs[..|xs| - 1]))
    ensures var ys := xs[..|xs| - 1];
      && SumIn(Points(xs)) - SumIn(Points(ys)) == RisesIn(Accounted(xs)) - RisesIn(Accounted(ys))
      && SumOut(Points(xs)) - SumOut(Points(ys)) == RisesOut(Accounted(xs)) - RisesOut(Accounted(ys))
  {
    PointsSum(xs);
    BaselineNext(xs);
    var A, x := Accounted(xs[..|xs| - 1]), xs[|xs| - 1];
    if A != [] {
      RisesSnoc(A, x);
    }
  }

  /** Conservation at the sampler, whatever the totals do: the sampled bytes are the rises from each
      reading that counts to the next. A reading whose clock did not move is not lost: its bytes
      arrive with the next one; after a fall counting starts anew. */
  lemma {:induction false} SampledRises(xs: seq<Reading>)
    requires Clocks(xs)
    ensures SumIn(Points(xs)) == RisesIn(Accounted(xs)) && SumOut(Points(xs)) == RisesOut(Accounted(xs))
    ensures BaselineIs(RunReadings(xs), Accounted(xs))
  {
    if xs != [] {
      SampledRises(xs[..|xs| - 1]);
      BaselineNext(xs);
      RisesStep(xs);
    }
  }

  /** One value throughout. */
  ghost predicate Level(o: Ohlc, v: real) { o.o == v && o.h == v && o.l == v && o.c == v }

  /** A rate in bytes a second, from bytes in dt milliseconds. */
  ghost predicate RateIs(o: Ohlc, bytes: int, dt: int) { Level(o, o.c) && o.c * dt as real == bytes as real * 1000.0 }

  /** p is what was measured from one reading to the next: the rise of each total or nothing when it
      fell, its rate over the time between, and the gauges read at the end, unknown when unmeasured. */
  ghost predicate Measures(p: Bucket, before: Reading, x: Reading) {
    && p.t == x.t
    && p.bytesIn == (if x.appIn >= before.appIn then x.appIn - before.appIn else 0)
    && p.bytesOut == (if x.appOut >= before.appOut then x.appOut - before.appOut else 0)
    && RateIs(p.inRate, p.bytesIn, x.t - before.t) && RateIs(p.outRate, p.bytesOut, x.t - before.t)
    && Level(p.conns, x.conns as real)
    && (if x.rttMs > 0.0 then Level(p.rtt, x.rttMs) else !Known(p.rtt))
    && (if x.players >= 0 then Level(p.players, x.players as real) else !Known(p.players))
    && (if x.lossPct >= 0.0 then Level(p.loss, x.lossPct) else !Known(p.loss))
  }

  lemma PerSecond(bytes: real, dt: real)
    requires dt > 0.0
    ensures bytes * 1000.0 / dt * dt == bytes * 1000.0
  {
  }

  lemma PointMeasures(x: Reading, before: Reading)
    requires x.t > before.t
    ensures Measures(PointOf(x, before.t, before.appIn, before.appOut), before, x)
  {
    var p := PointOf(x, before.t, before.appIn, before.appOut);
    PerSecond(p.bytesIn as real, (x.t - before.t) as real);
    PerSecond(p.bytesOut as real, (x.t - before.t) as real);
  }

  /** The points of a run, field by field, whatever clock and totals it carries: one from each reading
      that counts to the next. */
  lemma {:induction false} PointsMeasure(xs: seq<Reading>)
    requires Clocks(xs)
    ensures var A := Accounted(xs); var P := Points(xs);
      && |P| == (if A == [] then 0 else |A| - 1)
      && forall k :: 0 <= k < |P| ==> A[k].t < A[k + 1].t && Measures(P[k], A[k], A[k + 1])
  {
    if xs != [] {
      var ys, x := xs[..|xs| - 1], xs[|xs| - 1];
      PointsMeasure(ys);
      SampledRises(ys);
      BaselineNext(xs);
      var A := Accounted(ys);
      if A != [] && x.t > A[|A| - 1].t {
        PointMeasures(x, A[|A| - 1]);
      }
    }
  }

  ghost predicate NeverShrink(xs: seq<Reading>) {
    forall j, k :: 0 <= j <= k < |xs| ==> xs[j].appIn <= xs[k].appIn && xs[j].appOut <= xs[k].appOut
  }

  lemma {:induction false} RisesTelescope(A: seq<Reading>)
    requires NeverShrink(A) && A != []
    ensures RisesIn(A) == A[|A| - 1].appIn - A[0].appIn && RisesOut(A) == A[|A| - 1].appOut - A[0].appOut
  {
    if |A| > 1 {
      RisesTelescope(A[..|A| - 1]);
    }
  }

  lemma StillRising(xs: seq<Reading>, A: seq<Reading>)
    requires NeverShrink(xs) && xs != [] && NeverShrink(A) && forall x :: x in A ==> x in xs
    ensures NeverShrink(A + [xs[|xs| - 1]])
  {
    var x := xs[|xs| - 1];
    forall j | 0 <= j < |A|
      ensures A[j].appIn <= x.appIn && A[j].appOut <= x.appOut
    {
      assert A[j] in A;
      var i :| 0 <= i < |xs| && xs[i] == A[j];
      assert xs[i].appIn <= xs[|xs| - 1].appIn;
    }
  }

  lemma {:induction false} AccountedRising(xs: seq<Reading>)
    requires NeverShrink(xs) && xs != []
    ensures Accounted(xs) != [] && Accounted(xs)[0] == xs[0] && NeverShrink(Accounted(xs))
    ensures forall x :: x in Accounted(xs) ==> x in xs
  {
    var n := |xs| - 1;
    assert xs == xs[..n] + [xs[n]];
    if n > 0 {
      AccountedRising(xs[..n]);
      StillRising(xs, Accounted(xs[..n]));
    } else {
      assert Accounted(xs[..0]) == [];
    }
  }

  /** When the totals never shrink that is the last accounted total minus the first. */
  lemma SampledBytes(xs: seq<Reading>)
    requires Clocks(xs) && xs != [] && NeverShrink(xs)
    ensures SumIn(Points(xs)) == RunReadings(xs).lastIn - xs[0].appIn
    ensures SumOut(Points(xs)) == RunReadings(xs).lastOut - xs[0].appOut
    ensures exists x :: x in xs && RunReadings(xs).lastIn == x.appIn && RunReadings(xs).lastOut == x.appOut
  {
    SampledRises(xs);
    AccountedRising(xs);
    RisesTelescope(Accounted(xs));
    assert Accounted(xs)[|Accounted(xs)| - 1] in xs;
  }

  // ------------------------------------------------------------------------------------------

  /** AddS on a ladder with a given head. */
  lemma AddUnfolds(r: RingS, coarser: seq<RingS>, b: Bucket)
    requires WF(r) && AllWF(coarser) && b.t >= 0
    ensures AddS([r] + coarser, b) ==
            [PutS(r, b)] + if r.cur >= 0 && IdxOf(b, r.res) > r.cur then AddS(coarser, CurBucket(r)) else coarser
  {
    assert ([r] + coarser)[1..] == coarser;
  }

  /** The history object: five rings, the per-tier dirty watermark and the sampler baseline. */
  class History {
    const tiers: seq<Ring>
    var lastCurT: map<nat, int>
    var baselined: bool
    var lastT: int
    var lastIn: int
    var lastOut: int
    var touched: int

    /** The objects of tier k and coarser: each ring and its buffer. */
    ghost function Objects(k: nat): set<object>
      requires k <= |tiers|
      decreases |tiers| - k
    {
      if k == |tiers| then {} else {tiers[k], tiers[k].buf} + Objects(k + 1)
    }

    /** Tier k and coarser are well formed, separate objects over separate buffers. */
    ghost predicate ValidFrom(k: nat)
      requires k <= |tiers|
      reads Objects(k)
      decreases |tiers| - k
    {
      k < |tiers| ==>
        tiers[k].Valid() && {tiers[k], tiers[k].buf} !! Objects(k + 1) && this !in Objects(k) && ValidFrom(k + 1)
    }

    ghost predicate Valid()
      reads Objects(0)
    {
      ValidFrom(0)
    }

    /** The ring values of tier k and coarser. */
    ghost function From(k: nat): (ts: seq<RingS>)
      requires k <= |tiers| && ValidFrom(k)
      reads Objects(k)
      ensures |ts| == |tiers| - k && AllWF(ts)
      decreases |tiers| - k
    {
      if k == |tiers| then [] else [tiers[k].S()] + From(k + 1)
    }

    ghost function S(): HistoryS
      requires Valid()
      reads this, Objects(0)
    {
      HistoryS(From(0), baselined, lastT, lastIn, lastOut, touched)
    }

    /** Entry i of From is the value of its ring. */
    lemma TierValue(k: nat, i: nat)
      requires k <= |tiers| && ValidFrom(k) && k + i < |tiers|
      ensures tiers[k + i].Valid() && From(k)[i] == tiers[k + i].S()
      decreases i
    {
      if i > 0 { TierValue(k + 1, i - 1); }
    }

    lemma TierAt(i: nat)
      requires Valid() && i < |tiers|
      ensures tiers[i].Valid() && From(0)[i] == tiers[i].S()
    {
      TierValue(0, i);
    }

    /** One new ring per row of the tier table. */
    static method NewTiers() returns (ts: seq<Ring>)
      ensures |ts| == 5
      ensures forall k :: 0 <= k < 5 ==> fresh(ts[k]) && fresh(ts[k].buf) && ts[k].Valid()
      ensures forall k :: 0 <= k < 5 ==> ts[k].S() == FreshTiers()[k]
      ensures forall j, k :: 0 <= j < k < 5 ==> ts[j] != ts[k] && ts[j].buf != ts[k].buf
    {
      ts := [];
      for i := 0 to |TIERS|
        invariant |ts| == i
        invariant forall k :: 0 <= k < i ==> fresh(ts[k]) && fresh(ts[k].buf) && ts[k].Valid()
        invariant forall k :: 0 <= k < i ==> ts[k].S() == FreshTiers()[k]
        invariant forall j, k :: 0 <= j < k < i ==> ts[j] != ts[k] && ts[j].buf != ts[k].buf
      {
        var r := new Ring(TIERS[i].resMs, TIERS[i].slots);
        ts := ts + [r];
      }
    }

    constructor ()
      ensures Valid() && S() == FreshHistory() && lastCurT == map[]
      ensures fresh(Objects(0)) && |tiers| == 5
    {
      var ts := NewTiers();
      tiers := ts;
      lastCurT := map[];
      baselined := false;
      lastT, lastIn, lastOut, touched := 0, 0, 0, 0;
      new;
      FiveTiers();
      assert From(0) == FreshTiers();
    }

    /** Five separate rings make a valid history. */
    lemma FiveTiers()
      requires |tiers| == 5
      requires forall k :: 0 <= k < 5 ==> tiers[k].Valid()
      requires forall j, k :: 0 <= j < k < 5 ==> tiers[j] != tiers[k] && tiers[j].buf != tiers[k].buf
      requires forall k :: 0 <= k < 5 ==> this != tiers[k] as object
      ensures Valid()
      ensures Objects(0) == {tiers[0], tiers[0].buf, tiers[1], tiers[1].buf, tiers[2], tiers[2].buf, tiers[3], tiers[3].buf, tiers[4], tiers[4].buf}
      ensures From(0) == [tiers[0].S(), tiers[1].S(), tiers[2].S(), tiers[3].S(), tiers[4].S()]
    {
      assert Objects(5) == {} && Objects(4) == {tiers[4], tiers[4].buf};
      assert Objects(3) == {tiers[3], tiers[3].buf} + Objects(4);
      assert Objects(2) == {tiers[2], tiers[2].buf} + Objects(3);
      assert Objects(1) == {tiers[1], tiers[1].buf} + Objects(2);
      assert ValidFrom(4);
      assert ValidFrom(3);
      assert ValidFrom(2);
      assert ValidFrom(1);
      assert From(4) == [tiers[4].S()];
      assert From(3) == [tiers[3].S()] + From(4);
      assert From(2) == [tiers[2].S()] + From(3);
      assert From(1) == [tiers[1].S()] + From(2);
    }

    /** add: fold a point into a tier; a bucket it completes cascades one tier up. */
    method Add(level: nat, b: Bucket)
      requires level < |tiers| && ValidFrom(level) && b.t >= 0
      modifies Objects(level)
      ensures ValidFrom(level)
      ensures From(level) == AddS(old(From(level)), b)
      decreases |tiers| - level
    {
      var r := tiers[level];
      var idx := b.t / r.resMs;
      ghost var r0 := r.S();
      ghost var coarser := From(level + 1);
      assert r !in Objects(level + 1) && r.buf !in Objects(level + 1);
      assert From(level) == [r0] + coarser;
      DivMono(0, b.t, r.resMs);
      forall i | level + 1 <= i < |tiers|
        ensures tiers[i] != r && tiers[i].buf != r.buf
      {
        Distinct(level + 1, i);
      }
      label entry:
      if r.cur < 0 {
        r.Start(idx);
        r.MergeCur(b);
        CoarserUntouched@entry(level + 1);
        assert r.S() == PutS(r0, b);
      } else if idx > r.cur {
        var completed := r.buf[r.cur % r.buf.Length];
        assert completed == CurBucket(r0);
        r.Start(idx);
        CoarserUntouched@entry(level + 1);
        ghost var started := r.S();
        if level + 1 < |tiers| {
          Add(level + 1, completed);
        }
        label cascaded:
        assert From(level + 1) == AddS(coarser, completed);
        assert r.S() == started;
        r.MergeCur(b);
        CoarserUntouched@cascaded(level + 1);
        assert r.S() == PutS(r0, b);
      } else if idx == r.cur {
        r.MergeCur(b);
        CoarserUntouched@entry(level + 1);
        assert r.S() == PutS(r0, b);
      }
      AddUnfolds(r0, coarser, b);
      assert From(level) == [r.S()] + From(level + 1);
    }

    lemma Distinct(k: nat, i: nat)
      requires k <= |tiers| && k <= i < |tiers|
      ensures tiers[i] in Objects(k) && tiers[i].buf in Objects(k)
      decreases i - k
    {
      if k < i { Distinct(k + 1, i); }
    }

    /** Tiers none of whose objects changed keep their values. */
    twostate lemma CoarserUntouched(k: nat)
      requires k <= |tiers| && old(ValidFrom(k))
      requires forall i :: k <= i < |tiers| ==> unchanged(tiers[i]) && unchanged(tiers[i].buf)
      ensures ValidFrom(k) && From(k) == old(From(k))
      decreases |tiers| - k
    {
      if k < |tiers| {
        CoarserUntouched(k + 1);
        assert tiers[k].S() == old(tiers[k].S());
      }
    }

    /** sample: record one reading; reports the byte deltas it accounted. */
    method Sample(x: Reading) returns (dIn: int, dOut: int, advanced: bool)
      requires Valid() && |tiers| > 0 && x.t >= 0
      modifies this`baselined, this`lastT, this`lastIn, this`lastOut, this`touched
      modifies Objects(0)
      ensures Valid() && S() == SampleS(old(S()), x)
      ensures advanced == Advances(old(S()), x)
      ensures dIn == if advanced then MonotonicDelta(x.appIn, old(lastIn)) else 0
      ensures dOut == if advanced then MonotonicDelta(x.appOut, old(lastOut)) else 0
    {
      ghost var h0 := S();
      touched := x.t;
      assert S() == h0.(touched := x.t);
      if !baselined {
        baselined := true;
        lastT, lastIn, lastOut := x.t, x.appIn, x.appOut;
        return 0, 0, false;
      }
      var dt := x.t - lastT;
      if dt <= 0 {
        return 0, 0, false;
      }
      dIn := MonotonicDelta(x.appIn, lastIn);
      dOut := MonotonicDelta(x.appOut, lastOut);
      var p := PointOf(x, lastT, lastIn, lastOut);
      lastT, lastIn, lastOut := x.t, x.appIn, x.appOut;
      assert From(0) == h0.tiers;
      Add(0, p);
      assert From(0) == AddS(h0.tiers, p);
      advanced := true;
    }
  }
}
