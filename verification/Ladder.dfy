/** The five-tier bandwidth history (internal/stats/stats.go:113-127, 211-289, 583-610).

    add folds a point into a tier; a bucket completed by a newer one cascades into the next,
    coarser tier. The main results say that this is the direct fold of the raw samples, tier by
    tier and slot by slot, and that no byte is lost or counted twice on the way up. */
module Ladder {
  import opened Prelude
  import opened Arith
  import opened Buckets
  import opened Rings

  datatype TierSpec = TierSpec(resMs: int, slots: nat, persist: bool)

  const TIERS: seq<TierSpec> := [
    TierSpec(100, 1200, false),
    TierSpec(1_000, 1800, false),
    TierSpec(15_000, 7200, true),
    TierSpec(600_000, 5760, true),
    TierSpec(86_400_000, 1100, true)]

  const RESOLUTIONS: seq<int> := [100, 1_000, 15_000, 600_000, 86_400_000]

  ghost predicate AllWF(ts: seq<RingS>) {
    forall k :: 0 <= k < |ts| ==> WF(ts[k])
  }

  function FreshTiers(): (ts: seq<RingS>)
    ensures |ts| == 5 && AllWF(ts)
    ensures forall k :: 0 <= k < 5 ==> ts[k].res == RESOLUTIONS[k] && ts[k].cur == -1
  {
    seq(5, i requires 0 <= i < 5 => EmptyRing(TIERS[i].resMs, TIERS[i].slots))
  }

  function CurBucket(r: RingS): (b: Bucket)
    requires WF(r) && r.cur >= 0
    ensures b.t >= 0
  {
    r.buf[Pos(r, r.cur)]
  }

  /** add, on the ladder from some tier upwards. */
  function AddS(ts: seq<RingS>, b: Bucket): (q: seq<RingS>)
    requires AllWF(ts) && b.t >= 0
    ensures |q| == |ts| && AllWF(q)
    ensures forall k :: 0 <= k < |ts| ==> q[k].res == ts[k].res && |q[k].buf| == |ts[k].buf|
  {
    if ts == [] then []
    else
      var r := ts[0];
      if r.cur >= 0 && IdxOf(b, r.res) > r.cur
      then [PutS(r, b)] + AddS(ts[1..], CurBucket(r))
      else [PutS(r, b)] + ts[1..]
  }

  // ------------------------------------------------------------------------------------------
  // The reference: which raw samples have reached a tier.

  function DropTail(res: int, C: seq<Bucket>, j: int): seq<Bucket>
    requires res > 0
  {
    if C != [] && IdxOf(C[|C| - 1], res) == j then DropTail(res, C[..|C| - 1], j) else C
  }

  /** C without its newest slot: the samples a tier of this resolution has already completed. */
  function Completed(res: int, C: seq<Bucket>): seq<Bucket>
    requires res > 0
  {
    if C == [] then [] else DropTail(res, C, IdxOf(C[|C| - 1], res))
  }

  ghost predicate AllPositive(res: seq<int>) {
    forall k :: 0 <= k < |res| ==> res[k] > 0
  }

  /** The samples that every one of the given finer tiers has completed. */
  function Cascaded(res: seq<int>, C: seq<Bucket>): seq<Bucket>
    requires AllPositive(res)
  {
    if res == [] then C else Cascaded(res[1..], Completed(res[0], C))
  }

  /** A run that ends before slot j lies before it throughout. */
  lemma AllBefore(res: int, C: seq<Bucket>, j: int)
    requires res > 0 && Ordered(C) && (C != [] ==> IdxOf(C[|C| - 1], res) < j)
    ensures Slot(res, C, j) == [] && forall k :: 0 <= k < |C| ==> IdxOf(C[k], res) < j
  {
    forall k | 0 <= k < |C|
      ensures IdxOf(C[k], res) < j
    {
      IdxMono(res, C, k, |C| - 1);
    }
    SlotNonEmpty(res, C, j);
  }

  ghost predicate Before(res: int, C: seq<Bucket>, j: int)
    requires res > 0
  {
    forall k :: 0 <= k < |C| ==> IdxOf(C[k], res) < j
  }

  lemma LastToo(D: seq<Bucket>, S: seq<Bucket>, x: Bucket)
    ensures D + (S + [x]) == D + S + [x]
  {
  }

  lemma {:induction false} DropTailSplit(res: int, C: seq<Bucket>, j: int)
    requires res > 0 && Ordered(C)
    requires C != [] ==> IdxOf(C[|C| - 1], res) <= j
    ensures C == DropTail(res, C, j) + Slot(res, C, j)
    ensures Ordered(DropTail(res, C, j)) && Before(res, DropTail(res, C, j), j)
  {
    if C == [] || IdxOf(C[|C| - 1], res) != j {
      AllBefore(res, C, j);
    } else {
      var z, x := C[..|C| - 1], C[|C| - 1];
      OrderedPrefix(C, |z|);
      if z != [] { IdxMono(res, C, |z| - 1, |C| - 1); }
      DropTailSplit(res, z, j);
      LastToo(DropTail(res, z, j), Slot(res, z, j), x);
    }
  }

  /** Completed is exactly a cut: before it every sample is in an older slot than the newest
      sample, from it on every sample is in the newest slot. */
  lemma CompletedIsCut(res: int, C: seq<Bucket>)
    requires res > 0 && Ordered(C) && C != []
    ensures var j := IdxOf(C[|C| - 1], res); var P := Completed(res, C);
            && C == P + Slot(res, C, j) && Ordered(P)
            && (forall k :: 0 <= k < |P| ==> IdxOf(C[k], res) < j)
            && (forall k :: |P| <= k < |C| ==> IdxOf(C[k], res) == j)
  {
    var j := IdxOf(C[|C| - 1], res);
    DropTailSplit(res, C, j);
    SlotMembers(res, C, j);
    var P := Completed(res, C);
    forall k | 0 <= k < |P|
      ensures IdxOf(C[k], res) < j
    {
      assert C[k] == P[k];
    }
    forall k | |P| <= k < |C|
      ensures IdxOf(C[k], res) == j
    {
      assert C[k] == Slot(res, C, j)[k - |P|];
    }
  }

  lemma {:induction false} SlotMembers(res: int, C: seq<Bucket>, j: int)
    requires res > 0
    ensures forall k :: 0 <= k < |Slot(res, C, j)| ==> IdxOf(Slot(res, C, j)[k], res) == j
  {
    if C != [] {
      SlotMembers(res, C[..|C| - 1], j);
    }
  }

  lemma {:induction false} DropTailRun(res: int, C: seq<Bucket>, R: seq<Bucket>, j: int)
    requires res > 0 && forall k :: 0 <= k < |R| ==> IdxOf(R[k], res) == j
    ensures DropTail(res, C + R, j) == DropTail(res, C, j)
  {
    if R == [] {
      assert C + R == C;
    } else {
      var S := C + R;
      assert S[|S| - 1] == R[|R| - 1] && S[..|S| - 1] == C + R[..|R| - 1];
      DropTailRun(res, C, R[..|R| - 1], j);
    }
  }

  /** Every tier holds the reference for the samples its finer neighbours completed. */
  ghost predicate LadderHolds(ts: seq<RingS>, C: seq<Bucket>) {
    ts == [] || (Holds(ts[0], C) && LadderHolds(ts[1..], Completed(ts[0].res, C)))
  }

  /** Each resolution divides the next. */
  ghost predicate Divides(ts: seq<RingS>) {
    && (forall k :: 0 <= k < |ts| ==> ts[k].res > 0)
    && (forall k :: 1 <= k < |ts| ==> ts[k].res % ts[k - 1].res == 0)
  }

  lemma CompletedStands(r: RingS, res1: int, C: seq<Bucket>)
    requires Holds(r, C) && Ordered(C) && C != []
    requires res1 > 0 && res1 % r.res == 0
    ensures r.cur >= 0 && CurBucket(r) == SlotBucket(r.res, C, r.cur)
    ensures Stands(CurBucket(r), Slot(r.res, C, r.cur), res1)
  {
    IdxMono(r.res, C, |C| - 1, |C| - 1);
    var R := Slot(r.res, C, r.cur);
    SlotNonEmpty(r.res, C, r.cur);
    SlotMembers(r.res, C, r.cur);
    var b := CurBucket(r);
    assert b == Content(r.res, |r.buf|, C, r.cur % |r.buf|);
    var k := res1 / r.res;
    assert res1 == k * r.res;
    assert k > 0;
    SlotOfOrdered(r.res, C, r.cur);
    forall m | 0 <= m < |R|
      ensures IdxOf(R[m], res1) == IdxOf(b, res1)
    {
      DivNest(R[m].t, r.res, k);
    }
  }

  lemma {:induction false} SlotOfOrdered(res: int, C: seq<Bucket>, j: int)
    requires res > 0 && Ordered(C)
    ensures forall k :: 0 <= k < |Slot(res, C, j)| ==> Slot(res, C, j)[k].t >= 0
  {
    if C != [] {
      SlotOfOrdered(res, C[..|C| - 1], j);
    }
  }

  /** A point in a later slot completes everything before it. */
  lemma CompletesAll(res: int, C: seq<Bucket>, R: seq<Bucket>, j: int)
    requires res > 0 && Ordered(C) && R != [] && (C != [] ==> IdxOf(C[|C| - 1], res) < j)
    requires forall k :: 0 <= k < |R| ==> IdxOf(R[k], res) == j
    ensures Completed(res, C + R) == C
  {
    assert (C + R)[|C + R| - 1] == R[|R| - 1];
    DropTailRun(res, C, R, j);
  }

  /** A point in the newest slot completes nothing more. */
  lemma CompletesSame(res: int, C: seq<Bucket>, R: seq<Bucket>, j: int)
    requires res > 0 && R != [] && (C != [] ==> IdxOf(C[|C| - 1], res) == j)
    requires forall k :: 0 <= k < |R| ==> IdxOf(R[k], res) == j
    ensures Completed(res, C + R) == Completed(res, C)
  {
    assert (C + R)[|C + R| - 1] == R[|R| - 1];
    DropTailRun(res, C, R, j);
  }

  lemma LadderJoin(r: RingS, rest: seq<RingS>, S: seq<Bucket>)
    requires Holds(r, S) && LadderHolds(rest, Completed(r.res, S))
    ensures LadderHolds([r] + rest, S)
  {
    assert ([r] + rest)[1..] == rest;
  }

  lemma DividesTail(ts: seq<RingS>)
    requires ts != [] && Divides(ts)
    ensures Divides(ts[1..])
  {
  }

  /** What a tier hands up when a later slot opens: it stands for the slot it just completed. */
  lemma HandsUp(ts: seq<RingS>, C: seq<Bucket>)
    requires ts != [] && AllWF(ts) && Holds(ts[0], C) && Divides(ts) && Ordered(C) && ts[0].cur >= 0
    ensures var r := ts[0];
      && C == Completed(r.res, C) + Slot(r.res, C, r.cur) && Ordered(Completed(r.res, C))
      && (|ts| >= 2 ==> Stands(CurBucket(r), Slot(r.res, C, r.cur), ts[1].res))
  {
    CompletedIsCut(ts[0].res, C);
    if |ts| >= 2 {
      CompletedStands(ts[0], ts[1].res, C);
    }
  }

  /** One point through the whole ladder: it may stand for a run of raw samples, and the ladder
      afterwards holds the reference for those samples appended. */
  lemma {:induction false} AddHolds(ts: seq<RingS>, b: Bucket, C: seq<Bucket>, R: seq<Bucket>)
    requires AllWF(ts) && LadderHolds(ts, C) && Divides(ts)
    requires ts != [] ==> Stands(b, R, ts[0].res)
    requires b.t >= 0 && Ordered(C + R)
    ensures LadderHolds(AddS(ts, b), C + R)
  {
    if ts != [] {
      var r := ts[0];
      var j := IdxOf(b, r.res);
      assert Ordered(C) by { assert (C + R)[..|C|] == C; OrderedPrefix(C + R, |C|); }
      PutHolds(r, b, C, R);
      if r.cur >= 0 && j > r.cur {
        HandsUp(ts, C);
        DividesTail(ts);
        AddHolds(ts[1..], CurBucket(r), Completed(r.res, C), Slot(r.res, C, r.cur));
        CompletesAll(r.res, C, R, j);
        LadderJoin(PutS(r, b), AddS(ts[1..], CurBucket(r)), C + R);
      } else {
        CompletesSame(r.res, C, R, j);
        LadderJoin(PutS(r, b), ts[1..], C + R);
      }
    }
  }

  lemma OrderedPrefix(C: seq<Bucket>, n: nat)
    requires Ordered(C) && n <= |C|
    ensures Ordered(C[..n])
  {
  }

  // ------------------------------------------------------------------------------------------
  // Whole runs on a fresh ladder.

  ghost predicate Times(S: seq<Bucket>) {
    forall k :: 0 <= k < |S| ==> S[k].t >= 0
  }

  /** The ladder after adding the raw samples S, oldest first, to a fresh history. */
  function RunS(S: seq<Bucket>): (ts: seq<RingS>)
    requires Times(S)
    ensures |ts| == 5 && AllWF(ts)
    ensures forall k :: 0 <= k < 5 ==> ts[k].res == RESOLUTIONS[k] && |ts[k].buf| == TIERS[k].slots
  {
    if S == [] then FreshTiers() else AddS(RunS(S[..|S| - 1]), S[|S| - 1])
  }

  lemma RunDivides(ts: seq<RingS>)
    requires |ts| == 5 && forall k :: 0 <= k < 5 ==> ts[k].res == RESOLUTIONS[k]
    ensures Divides(ts)
  {
    forall k | 1 <= k < 5
      ensures ts[k].res % ts[k - 1].res == 0
    {
      assert ts[k].res == RESOLUTIONS[k] && ts[k - 1].res == RESOLUTIONS[k - 1];
    }
  }

  lemma {:induction false} FreshHolds(ts: seq<RingS>)
    requires forall k :: 0 <= k < |ts| ==> WF(ts[k]) && ts[k] == EmptyRing(ts[k].res, |ts[k].buf|)
    ensures LadderHolds(ts, [])
  {
    if ts != [] {
      FreshHolds(ts[1..]);
    }
  }

  lemma {:induction false} RunHolds(S: seq<Bucket>)
    requires Ordered(S)
    ensures LadderHolds(RunS(S), S)
  {
    if S == [] {
      FreshHolds(FreshTiers());
    } else {
      var z := S[..|S| - 1];
      var s := S[|S| - 1];
      OrderedPrefix(S, |z|);
      RunHolds(z);
      RunDivides(RunS(z));
      assert z + [s] == S;
      AddHolds(RunS(z), s, z, [s]);
    }
  }

  lemma {:induction false} TierHolds(ts: seq<RingS>, C: seq<Bucket>, res: seq<int>, L: nat)
    requires LadderHolds(ts, C) && L < |ts| <= |res| && AllPositive(res) && Ordered(C)
    requires forall k :: 0 <= k < |ts| ==> ts[k].res == res[k]
    ensures Holds(ts[L], Cascaded(res[..L], C)) && Ordered(Cascaded(res[..L], C))
  {
    if L > 0 {
      if C != [] { CompletedIsCut(res[0], C); }
      TierHolds(ts[1..], Completed(res[0], C), res[1..], L - 1);
      assert res[..L][1..] == res[1..][..L - 1];
    } else {
      assert res[..0] == [];
    }
  }

  /** The ladder refinement. After any run of samples in time order, whatever the gaps, laps and
      skipped slots: for every tier L, with C the samples the finer tiers have completed, the
      tier's newest index is that of C's last sample; an index is valid exactly when it is in the
      window and some sample of C fell in it; and the stored bucket is the direct fold of those
      samples. Index 0 is valid also while untouched, and then reads as the zero bucket. */
  lemma LadderRefines(S: seq<Bucket>, L: nat, i: nat)
    requires Ordered(S) && L < 5
    ensures AllPositive(RESOLUTIONS[..L])
    ensures var r := RunS(S)[L]; var C := Cascaded(RESOLUTIONS[..L], S);
      && r.cur == (if C == [] then -1 else C[|C| - 1].t / RESOLUTIONS[L])
      && (ValidS(r, i) <==> InWindow(r, i) && (i == 0 || Slot(RESOLUTIONS[L], C, i) != []))
      && (ValidS(r, i) && Slot(RESOLUTIONS[L], C, i) != [] ==>
            r.buf[Pos(r, i)] == SlotBucket(RESOLUTIONS[L], C, i))
      && (ValidS(r, i) && Slot(RESOLUTIONS[L], C, i) == [] ==> r.buf[Pos(r, i)] == ZeroAt(0))
  {
    RunHolds(S);
    TierHolds(RunS(S), S, RESOLUTIONS, L);
    RingReads(RunS(S)[L], Cascaded(RESOLUTIONS[..L], S), i);
  }

  // ------------------------------------------------------------------------------------------
  // Nothing is dropped.

  /** The point that one add brings to tier L, if its cascade reaches that far: the point itself at
      the finest tier, and above it the bucket that the tier below has just completed. */
  function Reaching(ts: seq<RingS>, b: Bucket, L: nat): (p: Option<Bucket>)
    requires AllWF(ts) && b.t >= 0 && L < |ts|
    ensures p.Some? ==> p.value.t >= 0
  {
    if L == 0 then Some(b)
    else if ts[0].cur >= 0 && IdxOf(b, ts[0].res) > ts[0].cur then Reaching(ts[1..], CurBucket(ts[0]), L - 1)
    else None
  }

  /** One level of add: the finest tier takes the point, and the others the cascade or nothing. */
  lemma {:induction false} AddLevels(ts: seq<RingS>, b: Bucket, L: nat)
    requires AllWF(ts) && b.t >= 0 && L < |ts|
    ensures AddS(ts, b)[L] ==
      if L == 0 then PutS(ts[0], b)
      else if ts[0].cur >= 0 && IdxOf(b, ts[0].res) > ts[0].cur then AddS(ts[1..], CurBucket(ts[0]))[L - 1]
      else ts[L]
  {
    var rest := if ts[0].cur >= 0 && IdxOf(b, ts[0].res) > ts[0].cur then AddS(ts[1..], CurBucket(ts[0])) else ts[1..];
    assert AddS(ts, b) == [PutS(ts[0], b)] + rest;
  }

  /** It is the point add gives to that tier, which is otherwise left alone. */
  lemma {:induction false} ReachingIsAdded(ts: seq<RingS>, b: Bucket, L: nat)
    requires AllWF(ts) && b.t >= 0 && L < |ts|
    ensures Reaching(ts, b, L).Some? ==> AddS(ts, b)[L] == PutS(ts[L], Reaching(ts, b, L).value)
    ensures Reaching(ts, b, L).None? ==> AddS(ts, b)[L] == ts[L]
    decreases L
  {
    AddLevels(ts, b, L);
    if L > 0 && ts[0].cur >= 0 && IdxOf(b, ts[0].res) > ts[0].cur {
      ReachingIsAdded(ts[1..], CurBucket(ts[0]), L - 1);
    }
  }

  /** The guard of add's drop: the point is older than the ring's current bucket. */
  predicate TooLate(r: RingS, p: Bucket)
    requires WF(r)
  {
    r.cur >= 0 && IdxOf(p, r.res) < r.cur
  }

  /** A point in time order is dropped at no tier its cascade reaches. */
  lemma {:induction false} NewestNeverFalls(ts: seq<RingS>, b: Bucket, C: seq<Bucket>, R: seq<Bucket>, L: nat)
    requires AllWF(ts) && LadderHolds(ts, C) && Divides(ts) && L < |ts|
    requires Stands(b, R, ts[0].res) && Ordered(C + R)
    ensures Reaching(ts, b, L).Some? ==> !TooLate(ts[L], Reaching(ts, b, L).value)
    ensures AddS(ts, b)[L].cur >= ts[L].cur
    ensures L == 0 ==> AddS(ts, b)[0].cur == IdxOf(b, ts[0].res)
  {
    var r := ts[0];
    assert Ordered(C) by { assert (C + R)[..|C|] == C; OrderedPrefix(C + R, |C|); }
    PutHolds(r, b, C, R);
    if L > 0 && r.cur >= 0 && IdxOf(b, r.res) > r.cur {
      CompletedIsCut(r.res, C);
      CompletedStands(r, ts[1].res, C);
      NewestNeverFalls(ts[1..], CurBucket(r), Completed(r.res, C), Slot(r.res, C, r.cur), L - 1);
    }
  }

  /** The drop for a clock gone backward is unreachable: at every step of every run of samples in
      time order and at every tier, what reaches the tier is not older than its current bucket. */
  lemma NothingDropped(S: seq<Bucket>, k: nat, L: nat)
    requires Ordered(S) && k < |S| && L < 5
    ensures var ts := RunS(S[..k]);
      Reaching(ts, S[k], L).Some? ==> !TooLate(ts[L], Reaching(ts, S[k], L).value)
  {
    OrderedPrefix(S, k);
    OrderedPrefix(S, k + 1);
    assert S[..k] + [S[k]] == S[..k + 1];
    RunHolds(S[..k]);
    RunDivides(RunS(S[..k]));
    NewestNeverFalls(RunS(S[..k]), S[k], S[..k], [S[k]], L);
  }

  // ------------------------------------------------------------------------------------------
  // Conservation.

  /** Bytes sitting in the current buckets of a run of tiers. */
  function CurIn(ts: seq<RingS>): int
    requires AllWF(ts)
  {
    if ts == [] then 0
    else (if ts[0].cur >= 0 then CurBucket(ts[0]).bytesIn else 0) + CurIn(ts[1..])
  }

  function CurOut(ts: seq<RingS>): int
    requires AllWF(ts)
  {
    if ts == [] then 0
    else (if ts[0].cur >= 0 then CurBucket(ts[0]).bytesOut else 0) + CurOut(ts[1..])
  }

  lemma {:induction false} LadderConserves(ts: seq<RingS>, C: seq<Bucket>, res: seq<int>, L: nat)
    requires LadderHolds(ts, C) && AllWF(ts) && L <= |ts| <= |res| && AllPositive(res) && Ordered(C)
    requires forall k :: 0 <= k < |ts| ==> ts[k].res == res[k]
    ensures SumIn(C) == SumIn(Cascaded(res[..L], C)) + CurIn(ts[..L])
    ensures SumOut(C) == SumOut(Cascaded(res[..L], C)) + CurOut(ts[..L])
  {
    if L == 0 {
      assert res[..0] == [] && ts[..0] == [];
    } else {
      var r := ts[0];
      var D := Completed(r.res, C);
      if C != [] {
        CompletedIsCut(r.res, C);
        var R := Slot(r.res, C, r.cur);
        SumConcat(D, R);
        IdxMono(r.res, C, |C| - 1, |C| - 1);
        SlotNonEmpty(r.res, C, r.cur);
        assert CurBucket(r) == SlotBucket(r.res, C, r.cur);
        FoldSums(R);
      }
      LadderConserves(ts[1..], D, res[1..], L - 1);
      assert ts[..L][0] == r && ts[..L][1..] == ts[1..][..L - 1];
      assert res[..L][1..] == res[1..][..L - 1];
    }
  }

  /** Byte conservation: for each tier, what was ever folded into it plus what still sits in the
      current buckets of the finer tiers is everything sampled. */
  lemma BytesConserved(S: seq<Bucket>, L: nat)
    requires Ordered(S) && L < 5
    ensures AllPositive(RESOLUTIONS[..L])
    ensures SumIn(S) == SumIn(Cascaded(RESOLUTIONS[..L], S)) + CurIn(RunS(S)[..L])
    ensures SumOut(S) == SumOut(Cascaded(RESOLUTIONS[..L], S)) + CurOut(RunS(S)[..L])
  {
    RunHolds(S);
    LadderConserves(RunS(S), S, RESOLUTIONS, L);
  }
}
