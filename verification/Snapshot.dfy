/** What a ring persists and how it is restored (internal/stats/stats.go:422-494), and how a ring
    may change between two saves. */
module Snapshots {
  import opened Arith
  import opened Buckets
  import opened Rings
  import opened Ladder

  /** The valid buckets of indices lo to hi, oldest first. */
  function Collect(r: RingS, lo: int, hi: int): seq<Bucket>
    requires WF(r) && lo <= hi + 1
    decreases hi - lo + 1
  {
    if hi < lo then []
    else Collect(r, lo, hi - 1) + (if hi >= 0 && ValidS(r, hi) then [r.buf[Pos(r, hi)]] else [])
  }

  /** Every valid bucket of the ring, oldest first: what a full save would write. */
  function Live(r: RingS): seq<Bucket>
    requires WF(r)
  {
    if r.cur < 0 then [] else Collect(r, r.cur - |r.buf| + 1, r.cur)
  }

  /** The current slot carries the current index. */
  ghost predicate OwnsCur(r: RingS)
    requires WF(r)
  {
    r.cur >= 0 ==> r.buf[Pos(r, r.cur)].t == r.cur * r.res
  }

  ghost predicate Rising(B: seq<Bucket>) {
    forall j, k :: 0 <= j < k < |B| ==> B[j].t < B[k].t
  }

  /** Collect lists bucket i for exactly the valid indices i in range, in increasing time. */
  lemma {:induction false} CollectMembers(r: RingS, lo: int, hi: int)
    requires WF(r) && lo <= hi + 1
    ensures forall k :: 0 <= k < |Collect(r, lo, hi)| ==> IsBucketOf(r, lo, hi, Collect(r, lo, hi)[k])
    ensures forall i :: lo <= i <= hi && i >= 0 && ValidS(r, i) ==> r.buf[Pos(r, i)] in Collect(r, lo, hi)
    ensures Rising(Collect(r, lo, hi))
    decreases hi - lo + 1
  {
    if lo <= hi {
      CollectMembers(r, lo, hi - 1);
      var P := Collect(r, lo, hi - 1);
      var Q := Collect(r, lo, hi);
      forall k | 0 <= k < |Q|
        ensures IsBucketOf(r, lo, hi, Q[k])
      {
        if k < |P| {
          assert IsBucketOf(r, lo, hi - 1, P[k]);
          var i :| lo <= i <= hi - 1 && i >= 0 && ValidS(r, i) && P[k] == r.buf[Pos(r, i)];
        }
      }
      if hi >= 0 && ValidS(r, hi) {
        forall k | 0 <= k < |P|
          ensures P[k].t < hi * r.res
        {
          assert IsBucketOf(r, lo, hi - 1, P[k]);
          var i :| lo <= i <= hi - 1 && i >= 0 && ValidS(r, i) && P[k] == r.buf[Pos(r, i)];
          MulStrict(i, hi, r.res);
        }
      }
    }
  }

  ghost predicate IsBucketOf(r: RingS, lo: int, hi: int, b: Bucket)
    requires WF(r)
  {
    exists i :: lo <= i <= hi && i >= 0 && ValidS(r, i) && b == r.buf[Pos(r, i)]
  }

  /** Live lists exactly the buckets of valid indices; the last one is the current bucket. */
  lemma LiveMembers(r: RingS)
    requires WF(r)
    ensures Rising(Live(r))
    ensures forall b :: b in Live(r) ==> exists i :: i >= 0 && ValidS(r, i) && b == r.buf[Pos(r, i)]
    ensures forall i :: i >= 0 && ValidS(r, i) ==> r.buf[Pos(r, i)] in Live(r)
    ensures r.cur >= 0 && OwnsCur(r) ==> Live(r) != [] && Live(r)[|Live(r)| - 1] == r.buf[Pos(r, r.cur)]
  {
    if r.cur >= 0 {
      var lo := r.cur - |r.buf| + 1;
      CollectMembers(r, lo, r.cur);
      forall b | b in Live(r)
        ensures exists i :: i >= 0 && ValidS(r, i) && b == r.buf[Pos(r, i)]
      {
        var k :| 0 <= k < |Live(r)| && Live(r)[k] == b;
        assert IsBucketOf(r, lo, r.cur, Collect(r, lo, r.cur)[k]);
      }
    }
  }

  // ------------------------------------------------------------------------------------------
  // How a ring changes between two moments.

  /** Finished buckets never change: below r0's newest index, whatever is still in r1's window
      reads the same in both. */
  ghost predicate Evolves(r0: RingS, r1: RingS)
    requires WF(r0) && WF(r1)
  {
    && r0.res == r1.res && |r0.buf| == |r1.buf|
    && (r0.cur >= 0 ==>
          && r1.cur >= r0.cur
          && (InWindow(r1, r0.cur) ==> ValidS(r1, r0.cur))
          && forall i :: 0 <= i < r0.cur && InWindow(r1, i) ==>
               && (ValidS(r1, i) <==> ValidS(r0, i))
               && (ValidS(r0, i) ==> r1.buf[Pos(r1, i)] == r0.buf[Pos(r0, i)]))
  }

  lemma EvolvesTrans(r0: RingS, r1: RingS, r2: RingS)
    requires WF(r0) && WF(r1) && WF(r2) && Evolves(r0, r1) && Evolves(r1, r2)
    ensures Evolves(r0, r2)
  {
    if r0.cur >= 0 {
      forall i | 0 <= i < r0.cur && InWindow(r2, i)
        ensures (ValidS(r2, i) <==> ValidS(r0, i))
        ensures ValidS(r0, i) ==> r2.buf[Pos(r2, i)] == r0.buf[Pos(r0, i)]
      {
        assert InWindow(r1, i);
      }
    }
  }

  lemma EvolvesRefl(r: RingS)
    requires WF(r) && OwnsCur(r)
    ensures Evolves(r, r)
  {
  }

  lemma StartEvolves(r: RingS, idx: int)
    requires WF(r) && OwnsCur(r) && idx > r.cur && idx >= 0
    ensures Evolves(r, StartS(r, idx)) && OwnsCur(StartS(r, idx))
  {
    var q := StartS(r, idx);
    if r.cur >= 0 {
      forall i | 0 <= i <= r.cur && InWindow(q, i)
        ensures q.buf[Pos(q, i)] == r.buf[Pos(r, i)]
      {
        if Pos(r, i) == Pos(r, idx) { ModUnique(i, idx, |r.buf|); }
      }
    }
  }

  lemma MergeEvolves(r: RingS, b: Bucket)
    requires WF(r) && OwnsCur(r) && r.cur >= 0
    ensures Evolves(r, MergeS(r, b)) && OwnsCur(MergeS(r, b))
  {
    var q := MergeS(r, b);
    forall i | 0 <= i < r.cur && InWindow(q, i)
      ensures q.buf[Pos(q, i)] == r.buf[Pos(r, i)]
    {
      if Pos(r, i) == Pos(r, r.cur) { ModUnique(i, r.cur, |r.buf|); }
    }
  }

  lemma PutEvolves(r: RingS, b: Bucket)
    requires WF(r) && OwnsCur(r) && b.t >= 0
    ensures Evolves(r, PutS(r, b)) && OwnsCur(PutS(r, b))
  {
    var idx := IdxOf(b, r.res);
    DivMono(0, b.t, r.res);
    if r.cur < 0 || idx > r.cur {
      StartEvolves(r, idx);
      MergeEvolves(StartS(r, idx), b);
      EvolvesTrans(r, StartS(r, idx), PutS(r, b));
    } else if idx < r.cur {
      EvolvesRefl(r);
    } else {
      MergeEvolves(r, b);
    }
  }

  /** The clock from which index 0 is outside every ring's window: 1100 days after the epoch, a
      multiple of every resolution. */
  const LATE: int := 95_040_000_000

  /** Index 0 is out of the window of a ring that holds anything. */
  ghost predicate Late(r: RingS)
    requires WF(r)
  {
    OwnsCur(r) && (r.cur >= 0 ==> r.cur * r.res >= LATE)
  }

  lemma PutLate(r: RingS, b: Bucket)
    requires WF(r) && Late(r) && b.t >= LATE && LATE % r.res == 0
    ensures Late(PutS(r, b))
  {
    PutEvolves(r, b);
    var idx := IdxOf(b, r.res);
    DivMono(LATE, b.t, r.res);
    MulLe(LATE / r.res, idx, r.res);
    DivMono(0, b.t, r.res);
  }

  ghost predicate AllLate(ts: seq<RingS>)
    requires AllWF(ts)
  {
    forall k :: 0 <= k < |ts| ==> Late(ts[k]) && LATE % ts[k].res == 0
  }

  /** A point entering the ladder evolves every tier. */
  lemma {:induction false} AddEvolves(ts: seq<RingS>, b: Bucket)
    requires AllWF(ts) && AllLate(ts) && b.t >= LATE
    ensures AllLate(AddS(ts, b))
    ensures forall k :: 0 <= k < |ts| ==> Evolves(ts[k], AddS(ts, b)[k])
  {
    if ts != [] {
      var r := ts[0];
      var q := AddS(ts, b);
      PutEvolves(r, b);
      PutLate(r, b);
      if r.cur >= 0 && IdxOf(b, r.res) > r.cur {
        AddEvolves(ts[1..], CurBucket(r));
        assert q[1..] == AddS(ts[1..], CurBucket(r));
        forall k | 1 <= k < |ts|
          ensures Late(q[k]) && LATE % q[k].res == 0 && Evolves(ts[k], q[k])
        {
          assert ts[k] == ts[1..][k - 1] && q[k] == q[1..][k - 1];
        }
      } else {
        forall k | 1 <= k < |ts|
          ensures Late(q[k]) && Evolves(ts[k], q[k])
        {
          EvolvesRefl(ts[k]);
        }
      }
    }
  }

  // ------------------------------------------------------------------------------------------
  // Restore.

  predicate Aligned(res: int, b: Bucket)
    requires res > 0
  {
    b.t > 0 && b.t % res == 0
  }

  /** Index of the newest well-aligned bucket, or -1. */
  function Newest(res: int, B: seq<Bucket>): (n: int)
    requires res > 0
    ensures n >= -1
  {
    if B == [] then -1
    else
      var n := Newest(res, B[..|B| - 1]);
      var b := B[|B| - 1];
      if Aligned(res, b) && b.t / res > n then b.t / res else n
  }

  /** The ring position bucket b belongs in. */
  function Home(r: RingS, b: Bucket): (p: int)
    requires WF(r) && b.t >= 0
    ensures 0 <= p < |r.buf|
  {
    DivMono(0, b.t, r.res);
    Pos(r, b.t / r.res)
  }

  function PlaceAll(r: RingS, B: seq<Bucket>, floor: int): (q: RingS)
    requires WF(r)
    ensures WF(q) && q.res == r.res && |q.buf| == |r.buf| && q.cur == r.cur
  {
    if B == [] then r
    else
      var q := PlaceAll(r, B[..|B| - 1], floor);
      var b := B[|B| - 1];
      if Aligned(r.res, b) && b.t / r.res >= floor then q.(buf := q.buf[Home(r, b) := b]) else q
  }

  /** restoreTier: put persisted buckets back, dropping misaligned ones and any a ring length or
      more behind the newest. */
  function RestoreS(r: RingS, B: seq<Bucket>): (q: RingS)
    requires WF(r)
    ensures WF(q) && q.res == r.res && |q.buf| == |r.buf|
  {
    var n := Newest(r.res, B);
    if n < 0 then r else PlaceAll(r, B, n - |r.buf| + 1).(cur := n, curEmpty := false)
  }

  /** B lists buckets of a ring of this resolution: distinct aligned times within one window. */
  ghost predicate Fits(res: int, slots: int, B: seq<Bucket>, cur: int)
    requires res > 0 && slots > 0
  {
    && Rising(B)
    && forall k :: 0 <= k < |B| ==> B[k].t % res == 0 && 0 < B[k].t && cur - slots < B[k].t / res <= cur
  }

  lemma HomesDiffer(r: RingS, a: Bucket, b: Bucket, cur: int)
    requires WF(r) && Fits(r.res, |r.buf|, [a, b], cur)
    ensures [a, b][0].t >= 0 && [a, b][1].t >= 0
    ensures Home(r, a) != Home(r, b)
  {
    var B := [a, b];
    assert B[0] == a && B[1] == b;
    DivMono(0, a.t, r.res);
    DivMono(a.t, b.t, r.res);
    if Home(r, a) == Home(r, b) {
      ModUnique(a.t / r.res, b.t / r.res, |r.buf|);
      SameQuotient(a.t, b.t, r.res);
    }
  }

  lemma {:induction false} PlaceAllContent(r: RingS, B: seq<Bucket>, floor: int, cur: int)
    requires WF(r) && Fits(r.res, |r.buf|, B, cur) && floor == cur - |r.buf| + 1
    ensures forall k :: 0 <= k < |B| ==> PlaceAll(r, B, floor).buf[Home(r, B[k])] == B[k]
    ensures forall p :: 0 <= p < |r.buf| && (forall k :: 0 <= k < |B| ==> Home(r, B[k]) != p) ==>
              PlaceAll(r, B, floor).buf[p] == r.buf[p]
  {
    if B != [] {
      var z := B[..|B| - 1];
      var b := B[|B| - 1];
      PlaceAllContent(r, z, floor, cur);
      forall k | 0 <= k < |z|
        ensures Home(r, B[k]) != Home(r, b)
      {
        HomesDiffer(r, B[k], b, cur);
      }
    }
  }

  lemma PlacedAt(r: RingS, B: seq<Bucket>, b: Bucket, floor: int, cur: int)
    requires WF(r) && Fits(r.res, |r.buf|, B, cur) && floor == cur - |r.buf| + 1 && b in B
    ensures b.t >= 0 && PlaceAll(r, B, floor).buf[Home(r, b)] == b
  {
    PlaceAllContent(r, B, floor, cur);
    var k :| 0 <= k < |B| && B[k] == b;
  }

  lemma {:induction false} NewestIsLast(res: int, B: seq<Bucket>)
    requires res > 0 && B != [] && Rising(B)
    requires forall k :: 0 <= k < |B| ==> Aligned(res, B[k])
    ensures Newest(res, B) == B[|B| - 1].t / res
  {
    var z := B[..|B| - 1];
    var b := B[|B| - 1];
    DivMono(0, b.t, res);
    if z != [] {
      NewestIsLast(res, z);
      var a := z[|z| - 1];
      DivMono(a.t, b.t, res);
      if a.t / res == b.t / res {
        SameQuotient(a.t, b.t, res);
      }
    } else {
      assert Newest(res, z) == -1;
    }
  }

  lemma LiveFits(r: RingS)
    requires WF(r) && Late(r) && LATE % r.res == 0 && LATE / r.res >= |r.buf|
    ensures Fits(r.res, |r.buf|, Live(r), r.cur)
  {
    LiveMembers(r);
    var B := Live(r);
    forall k | 0 <= k < |B|
      ensures B[k].t % r.res == 0 && 0 < B[k].t && r.cur - |r.buf| < B[k].t / r.res <= r.cur
    {
      assert B[k] in B;
      var i :| i >= 0 && ValidS(r, i) && B[k] == r.buf[Pos(r, i)];
      ExactDiv(i, r.res);
      LateWindow(r, i);
      MulStrict(0, i, r.res);
    }
  }

  lemma LateWindow(r: RingS, i: int)
    requires WF(r) && Late(r) && LATE % r.res == 0 && LATE / r.res >= |r.buf|
    requires InWindow(r, i)
    ensures i > 0
  {
    ExactDiv(r.cur, r.res);
    DivMono(LATE, r.cur * r.res, r.res);
  }

  /** Reloading what a ring persisted gives a ring with the same valid indices and the same bucket
      at each of them, ready to continue from the same current bucket. */
  lemma RestoreRoundTrip(r: RingS, e: RingS)
    requires WF(r) && Late(r) && LATE % r.res == 0 && LATE / r.res >= |r.buf|
    requires e == EmptyRing(r.res, |r.buf|)
    ensures WF(e)
    ensures var q := RestoreS(e, Live(r));
      && q.cur == r.cur && !q.curEmpty && Late(q)
      && (forall i :: i >= 0 ==> (ValidS(q, i) <==> ValidS(r, i)))
      && (forall i :: i >= 0 && ValidS(r, i) ==> q.buf[Pos(q, i)] == r.buf[Pos(r, i)])
  {
    if r.cur >= 0 {
      RestoreRefills(r, e);
      var q := RestoreS(e, Live(r));
      forall i | i >= 0
        ensures ValidS(q, i) <==> ValidS(r, i)
        ensures ValidS(r, i) ==> q.buf[Pos(q, i)] == r.buf[Pos(r, i)]
      {
        if InWindow(r, i) {
          LateWindow(r, i);
          if ValidS(r, i) { RestoredHit(r, e, q, i); } else { RestoredMiss(r, e, q, i); }
        }
      }
      assert ValidS(r, r.cur);
      assert ValidS(q, r.cur);
    }
  }

  lemma RestoreRefills(r: RingS, e: RingS)
    requires WF(r) && Late(r) && LATE % r.res == 0 && LATE / r.res >= |r.buf|
    requires e == EmptyRing(r.res, |r.buf|) && r.cur >= 0
    ensures WF(e) && Refilled(r, e, RestoreS(e, Live(r))) && !RestoreS(e, Live(r)).curEmpty
  {
    var B := Live(r);
    LiveMembers(r);
    LiveFits(r);
    NewestIsLast(r.res, B);
    ExactDiv(r.cur, r.res);
  }

  /** A live bucket of index i goes back to i's own position. */
  lemma HomeOfLive(r: RingS, i: int)
    requires WF(r) && i >= 0 && ValidS(r, i)
    ensures r.buf[Pos(r, i)].t >= 0 && r.buf[Pos(r, i)].t / r.res == i && Home(r, r.buf[Pos(r, i)]) == Pos(r, i)
  {
    ExactDiv(i, r.res);
  }

  /** If some live bucket belongs in i's position, index i itself is live. */
  lemma HomeTaken(r: RingS, b: Bucket, i: int)
    requires WF(r) && i >= 0 && InWindow(r, i) && b in Live(r) && b.t >= 0 && Home(r, b) == Pos(r, i)
    ensures ValidS(r, i)
  {
    LiveMembers(r);
    var m :| m >= 0 && ValidS(r, m) && b == r.buf[Pos(r, m)];
    HomeOfLive(r, m);
    if i <= m { ModUnique(i, m, |r.buf|); } else { ModUnique(m, i, |r.buf|); }
  }

  /** q is the empty ring e after placing r's live buckets. */
  ghost predicate Refilled(r: RingS, e: RingS, q: RingS) {
    && WF(r) && Late(r) && LATE % r.res == 0 && LATE / r.res >= |r.buf|
    && e == EmptyRing(r.res, |r.buf|) && WF(e) && WF(q)
    && q.res == r.res && |q.buf| == |r.buf| && q.cur == r.cur
    && q.buf == PlaceAll(e, Live(r), r.cur - |r.buf| + 1).buf
  }

  lemma RestoredHit(r: RingS, e: RingS, q: RingS, i: int)
    requires Refilled(r, e, q) && i > 0 && ValidS(r, i)
    ensures q.buf[Pos(q, i)] == r.buf[Pos(r, i)]
  {
    var b := r.buf[Pos(r, i)];
    assert b in Live(r) by { LiveMembers(r); }
    HomeOfLive(r, i);
    LiveFits(r);
    PlacedAt(e, Live(r), b, r.cur - |r.buf| + 1, r.cur);
    assert Home(e, b) == Home(r, b);
  }

  lemma RestoredMiss(r: RingS, e: RingS, q: RingS, i: int)
    requires Refilled(r, e, q) && i > 0 && InWindow(r, i) && !ValidS(r, i)
    ensures !ValidS(q, i)
  {
    var B := Live(r);
    var p := Pos(r, i);
    LiveFits(r);
    PlaceAllContent(e, B, r.cur - |r.buf| + 1, r.cur);
    forall k | 0 <= k < |B|
      ensures Home(e, B[k]) != p
    {
      if Home(r, B[k]) == p { HomeTaken(r, B[k], i); }
    }
    assert q.buf[p] == e.buf[p];
    MulStrict(0, i, r.res);
  }

  // ------------------------------------------------------------------------------------------
  // The methods that run this on ring objects.

  /** The persisted image of one ring, as appendTiersLocked walks it: buckets oldest first and the
      start of the oldest index still in the window. */
  method SnapshotRing(r: Ring) returns (floorT: int, B: seq<Bucket>)
    requires r.Valid() && r.cur >= 0
    ensures B == Live(r.S())
    ensures floorT == FloorOf(r.S())
  {
    var floorIdx := r.cur - r.buf.Length + 1;
    floorT := floorIdx * r.resMs;
    if floorT < 0 {
      floorT := 0;
    }
    B := [];
    var i := floorIdx;
    while i <= r.cur
      invariant floorIdx <= i <= r.cur + 1
      invariant B == Collect(r.S(), floorIdx, i - 1)
    {
      if i >= 0 {
        var ok := r.IsValid(i);
        if ok {
          B := B + [r.buf[i % r.buf.Length]];
        }
      }
      i := i + 1;
    }
  }

  function FloorOf(r: RingS): int
    requires WF(r)
  {
    var f := (r.cur - |r.buf| + 1) * r.res;
    if f < 0 then 0 else f
  }

  /** restoreTier's first pass. */
  method NewestIndex(res: int, B: seq<Bucket>) returns (newest: int)
    requires res > 0
    ensures newest == Newest(res, B)
  {
    newest := -1;
    for k := 0 to |B|
      invariant newest == Newest(res, B[..k])
    {
      assert B[..k + 1][..k] == B[..k];
      var b := B[k];
      if b.t > 0 && b.t % res == 0 {
        var idx := b.t / res;
        if idx > newest {
          newest := idx;
        }
      }
    }
    assert B[..|B|] == B;
  }

  /** Its second pass: the buckets that fit land in their slots. */
  method PlaceFrom(r: Ring, B: seq<Bucket>, floor: int)
    requires r.Valid()
    modifies r.buf
    ensures r.Valid() && r.S() == PlaceAll(old(r.S()), B, floor)
  {
    ghost var r0 := r.S();
    for k := 0 to |B|
      invariant r.Valid() && r.S() == PlaceAll(r0, B[..k], floor)
    {
      assert B[..k + 1][..k] == B[..k];
      var b := B[k];
      if b.t > 0 && b.t % r.resMs == 0 {
        var idx := b.t / r.resMs;
        if idx >= floor {
          DivMono(0, b.t, r.resMs);
          r.buf[idx % r.buf.Length] := b;
        }
      }
    }
    assert B[..|B|] == B;
  }

  /** restoreTier on the ring object. */
  method RestoreTier(r: Ring, B: seq<Bucket>)
    requires r.Valid()
    modifies r, r.buf
    ensures r.Valid() && r.S() == RestoreS(old(r.S()), B)
  {
    var newest := NewestIndex(r.resMs, B);
    if newest < 0 {
      return;
    }
    PlaceFrom(r, B, newest - r.buf.Length + 1);
    r.cur := newest;
    r.curEmpty := false;
  }
}
