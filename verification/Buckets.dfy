/** One time slot of the bandwidth history (internal/stats/stats.go:25-72) and the merge that
    every consumer of buckets shares: the ring's mergeCur, the gauge merge, and chart regrouping.

    Rates and gauges are reals: the code only ever copies and compares them. */
module Buckets {

  /** Open, high, low and close of one measured value. */
  datatype Ohlc = Ohlc(o: real, h: real, l: real, c: real)

  /** A bucket: start time, exact byte sums, and six OHLC families. The four gauges are unknown
      when their close is negative. */
  datatype Bucket = Bucket(
    t: int, bytesIn: int, bytesOut: int,
    inRate: Ohlc, outRate: Ohlc,
    conns: Ohlc, rtt: Ohlc, players: Ohlc, loss: Ohlc)

  const ZERO_OHLC := Ohlc(0.0, 0.0, 0.0, 0.0)

  /** Go's zero value of a bucket, with the given start time. */
  function ZeroAt(t: int): Bucket {
    Bucket(t, 0, 0, ZERO_OHLC, ZERO_OHLC, ZERO_OHLC, ZERO_OHLC, ZERO_OHLC, ZERO_OHLC)
  }

  function MaxR(a: real, b: real): real { if a < b then b else a }
  function MinR(a: real, b: real): real { if b < a then b else a }

  /** Rate merge: first open, greatest high, least low, last close. */
  function MergeRate(a: Ohlc, b: Ohlc): Ohlc {
    Ohlc(a.o, MaxR(a.h, b.h), MinR(a.l, b.l), b.c)
  }

  predicate Known(g: Ohlc) { g.c >= 0.0 }

  /** Gauge merge: an unknown side never touches a known one. */
  function MergeGauge(a: Ohlc, b: Ohlc): Ohlc {
    if !Known(b) then a
    else if !Known(a) then b
    else MergeRate(a, b)
  }

  /** b folded into a; the result keeps a's start time. */
  function Combine(a: Bucket, b: Bucket): Bucket {
    Bucket(
      a.t, a.bytesIn + b.bytesIn, a.bytesOut + b.bytesOut,
      MergeRate(a.inRate, b.inRate), MergeRate(a.outRate, b.outRate),
      MergeGauge(a.conns, b.conns), MergeGauge(a.rtt, b.rtt),
      MergeGauge(a.players, b.players), MergeGauge(a.loss, b.loss))
  }

  function At(b: Bucket, t: int): Bucket { b.(t := t) }

  /** Left-to-right fold of a run of points. */
  function Fold(s: seq<Bucket>): Bucket
    requires s != []
  {
    if |s| == 1 then s[0] else Combine(Fold(s[..|s| - 1]), s[|s| - 1])
  }

  function SumIn(s: seq<Bucket>): int {
    if s == [] then 0 else SumIn(s[..|s| - 1]) + s[|s| - 1].bytesIn
  }

  function SumOut(s: seq<Bucket>): int {
    if s == [] then 0 else SumOut(s[..|s| - 1]) + s[|s| - 1].bytesOut
  }

  lemma MergeGaugeAssoc(a: Ohlc, b: Ohlc, c: Ohlc)
    ensures MergeGauge(MergeGauge(a, b), c) == MergeGauge(a, MergeGauge(b, c))
  {
  }

  lemma CombineAssoc(a: Bucket, b: Bucket, c: Bucket)
    ensures Combine(Combine(a, b), c) == Combine(a, Combine(b, c))
  {
    MergeGaugeAssoc(a.conns, b.conns, c.conns);
    MergeGaugeAssoc(a.rtt, b.rtt, c.rtt);
    MergeGaugeAssoc(a.players, b.players, c.players);
    MergeGaugeAssoc(a.loss, b.loss, c.loss);
  }

  /** Cascading is sound: folding two adjacent runs first and merging the results is the same as
      folding all their points in order. */
  lemma {:induction false} FoldConcat(x: seq<Bucket>, y: seq<Bucket>)
    requires x != [] && y != []
    ensures Fold(x + y) == Combine(Fold(x), Fold(y))
  {
    var s := x + y;
    var z := y[..|y| - 1];
    var l := y[|y| - 1];
    assert s[..|s| - 1] == x + z && s[|s| - 1] == l;
    if z == [] {
      assert x + z == x && y == [l];
    } else {
      FoldConcat(x, z);
      CombineAssoc(Fold(x), Fold(z), l);
    }
  }

  lemma {:induction false} SumConcat(x: seq<Bucket>, y: seq<Bucket>)
    ensures SumIn(x + y) == SumIn(x) + SumIn(y)
    ensures SumOut(x + y) == SumOut(x) + SumOut(y)
  {
    if y == [] {
      assert x + y == x;
    } else {
      assert (x + y)[..|x + y| - 1] == x + y[..|y| - 1];
      SumConcat(x, y[..|y| - 1]);
    }
  }

  lemma {:induction false} FoldSums(s: seq<Bucket>)
    requires s != []
    ensures Fold(s).bytesIn == SumIn(s) && Fold(s).bytesOut == SumOut(s)
    ensures Fold(s).t == s[0].t
  {
    if |s| == 1 {
      assert s[..0] == [];
    } else {
      FoldSums(s[..|s| - 1]);
    }
  }

  /** r is the OHLC of the whole run q: first open, last close, extremes attained and bounding. */
  ghost predicate OhlcOf(r: Ohlc, q: seq<Ohlc>)
    requires q != []
  {
    && r.o == q[0].o && r.c == q[|q| - 1].c
    && (forall k :: 0 <= k < |q| ==> q[k].h <= r.h && r.l <= q[k].l)
    && (exists k :: 0 <= k < |q| && q[k].h == r.h)
    && (exists k :: 0 <= k < |q| && q[k].l == r.l)
  }

  lemma OhlcOfSnoc(r: Ohlc, q: seq<Ohlc>, x: Ohlc)
    requires q != [] && OhlcOf(r, q)
    ensures OhlcOf(MergeRate(r, x), q + [x])
  {
    var w := q + [x];
    var m := MergeRate(r, x);
    var kh :| 0 <= kh < |q| && q[kh].h == r.h;
    var kl :| 0 <= kl < |q| && q[kl].l == r.l;
    assert w[kh] == q[kh] && w[kl] == q[kl] && w[|q|] == x;
    assert forall k :: 0 <= k < |w| ==> w[k] == if k < |q| then q[k] else x;
    assert w[if r.h < x.h then |q| else kh].h == m.h;
    assert w[if x.l < r.l then |q| else kl].l == m.l;
  }

  function InRates(s: seq<Bucket>): (q: seq<Ohlc>)
    ensures |q| == |s|
  {
    seq(|s|, i requires 0 <= i < |s| => s[i].inRate)
  }

  function OutRates(s: seq<Bucket>): (q: seq<Ohlc>)
    ensures |q| == |s|
  {
    seq(|s|, i requires 0 <= i < |s| => s[i].outRate)
  }

  /** What the fold means for the two rate families, stated without the merge. */
  lemma {:induction false} FoldRates(s: seq<Bucket>)
    requires s != []
    ensures OhlcOf(Fold(s).inRate, InRates(s))
    ensures OhlcOf(Fold(s).outRate, OutRates(s))
  {
    if |s| == 1 {
      assert InRates(s)[0] == s[0].inRate && OutRates(s)[0] == s[0].outRate;
    } else {
      var z := s[..|s| - 1];
      FoldRates(z);
      OhlcOfSnoc(Fold(z).inRate, InRates(z), s[|s| - 1].inRate);
      OhlcOfSnoc(Fold(z).outRate, OutRates(z), s[|s| - 1].outRate);
      assert InRates(s) == InRates(z) + [s[|s| - 1].inRate];
      assert OutRates(s) == OutRates(z) + [s[|s| - 1].outRate];
    }
  }

  /** The known readings among q, in order. */
  function KnownOf(q: seq<Ohlc>): seq<Ohlc> {
    if q == [] then []
    else KnownOf(q[..|q| - 1]) + (if Known(q[|q| - 1]) then [q[|q| - 1]] else [])
  }

  function FoldGauges(q: seq<Ohlc>): Ohlc
    requires q != []
  {
    if |q| == 1 then q[0] else MergeGauge(FoldGauges(q[..|q| - 1]), q[|q| - 1])
  }

  /** A folded gauge is unknown exactly when every reading is, and otherwise is the OHLC of the
      known readings alone: unmeasured slots never poison a merge. */
  lemma {:induction false} FoldGaugesMeaning(q: seq<Ohlc>)
    requires q != []
    ensures Known(FoldGauges(q)) <==> KnownOf(q) != []
    ensures KnownOf(q) != [] ==> OhlcOf(FoldGauges(q), KnownOf(q))
    ensures KnownOf(q) == [] ==> FoldGauges(q) == q[0]
  {
    var l := q[|q| - 1];
    if |q| == 1 {
      assert q[..0] == [] && KnownOf(q[..0]) == [];
      assert KnownOf(q) == if Known(l) then [l] else [];
      if Known(l) {
        assert KnownOf(q)[0] == l;
      }
    } else {
      var z := q[..|q| - 1];
      FoldGaugesMeaning(z);
      if Known(l) {
        if KnownOf(z) == [] {
          assert KnownOf(q) == [l] && KnownOf(q)[0] == l;
        } else {
          OhlcOfSnoc(FoldGauges(z), KnownOf(z), l);
        }
      } else {
        assert KnownOf(q) == KnownOf(z);
      }
    }
  }

  function ConnGauges(s: seq<Bucket>): (q: seq<Ohlc>) ensures |q| == |s|
  { seq(|s|, i requires 0 <= i < |s| => s[i].conns) }

  function RttGauges(s: seq<Bucket>): (q: seq<Ohlc>) ensures |q| == |s|
  { seq(|s|, i requires 0 <= i < |s| => s[i].rtt) }

  function PlayerGauges(s: seq<Bucket>): (q: seq<Ohlc>) ensures |q| == |s|
  { seq(|s|, i requires 0 <= i < |s| => s[i].players) }

  function LossGauges(s: seq<Bucket>): (q: seq<Ohlc>) ensures |q| == |s|
  { seq(|s|, i requires 0 <= i < |s| => s[i].loss) }

  /** The fold of buckets folds each gauge family on its own, so FoldGaugesMeaning applies. */
  lemma {:induction false} FoldGaugeFamilies(s: seq<Bucket>)
    requires s != []
    ensures Fold(s).conns == FoldGauges(ConnGauges(s))
    ensures Fold(s).rtt == FoldGauges(RttGauges(s))
    ensures Fold(s).players == FoldGauges(PlayerGauges(s))
    ensures Fold(s).loss == FoldGauges(LossGauges(s))
  {
    if |s| > 1 {
      var z := s[..|s| - 1];
      FoldGaugeFamilies(z);
      assert ConnGauges(s)[..|s| - 1] == ConnGauges(z);
      assert RttGauges(s)[..|s| - 1] == RttGauges(z);
      assert PlayerGauges(s)[..|s| - 1] == PlayerGauges(z);
      assert LossGauges(s)[..|s| - 1] == LossGauges(z);
    }
  }
}
