/** One tier of the history: a fixed-size ring of buckets (internal/stats/stats.go:129-209).

    The slot of absolute bucket index i is i modulo the ring length. Nothing is ever cleared: a
    slot counts for index i only when its stored start time says so. RingS is the ring's value;
    class Ring is the object the code updates in place. */
module Rings {
  import opened Arith
  import opened Buckets

  datatype RingS = RingS(res: int, buf: seq<Bucket>, cur: int, curEmpty: bool)

  /** The shape every ring keeps. */
  ghost predicate WF(r: RingS) {
    && r.res > 0 && |r.buf| > 0 && r.cur >= -1
    && forall p :: 0 <= p < |r.buf| ==> r.buf[p].t >= 0
  }

  function Pos(r: RingS, i: int): (p: int)
    requires |r.buf| > 0 && i >= 0
    ensures 0 <= p < |r.buf|
  {
    i % |r.buf|
  }

  function EmptyRing(res: int, slots: nat): RingS {
    RingS(res, seq(slots, _ => ZeroAt(0)), -1, false)
  }

  /** start: open a fresh bucket at idx, overwriting whatever the slot held. */
  function StartS(r: RingS, idx: int): (q: RingS)
    requires WF(r) && idx >= 0
    ensures WF(q)
  {
    MulLe(0, idx, r.res);
    r.(buf := r.buf[Pos(r, idx) := ZeroAt(idx * r.res)], cur := idx, curEmpty := true)
  }

  /** mergeCur: fold one point into the current bucket; the first point of a bucket is copied. */
  function MergeS(r: RingS, b: Bucket): (q: RingS)
    requires WF(r) && r.cur >= 0
    ensures WF(q)
  {
    var d := r.buf[Pos(r, r.cur)];
    var m := if r.curEmpty then b.(t := d.t, bytesIn := d.bytesIn + b.bytesIn, bytesOut := d.bytesOut + b.bytesOut)
             else Combine(d, b);
    r.(buf := r.buf[Pos(r, r.cur) := m], curEmpty := false)
  }

  /** Index i lies between the newest bucket and one ring length before it. */
  predicate InWindow(r: RingS, i: int) {
    r.cur >= 0 && r.cur - |r.buf| < i <= r.cur
  }

  /** valid: index i is in the window and its slot really holds bucket i. */
  predicate ValidS(r: RingS, i: int)
    requires WF(r) && i >= 0
  {
    InWindow(r, i) && r.buf[Pos(r, i)].t == i * r.res
  }

  // ------------------------------------------------------------------------------------------
  // The reference: what a ring should hold after a run of raw samples C, stated with no ring.

  function IdxOf(b: Bucket, res: int): int
    requires res > 0
  {
    b.t / res
  }

  /** The samples of C whose time falls in slot i of the given resolution, in order. */
  function Slot(res: int, C: seq<Bucket>, i: int): seq<Bucket>
    requires res > 0
  {
    if C == [] then []
    else Slot(res, C[..|C| - 1], i) + (if IdxOf(C[|C| - 1], res) == i then [C[|C| - 1]] else [])
  }

  /** The bucket for slot i: the fold of its samples, stamped with the slot's start. */
  function SlotBucket(res: int, C: seq<Bucket>, i: int): Bucket
    requires res > 0 && Slot(res, C, i) != []
  {
    At(Fold(Slot(res, C, i)), i * res)
  }

  ghost predicate Ordered(C: seq<Bucket>) {
    && (forall k :: 0 <= k < |C| ==> C[k].t >= 0)
    && (forall j, k :: 0 <= j < k < |C| ==> C[j].t <= C[k].t)
  }

  lemma {:induction false} SlotConcat(res: int, x: seq<Bucket>, y: seq<Bucket>, i: int)
    requires res > 0
    ensures Slot(res, x + y, i) == Slot(res, x, i) + Slot(res, y, i)
  {
    if y == [] {
      assert x + y == x;
    } else {
      assert (x + y)[..|x + y| - 1] == x + y[..|y| - 1];
      SlotConcat(res, x, y[..|y| - 1], i);
    }
  }

  lemma {:induction false} SlotAllSame(res: int, R: seq<Bucket>, j: int, i: int)
    requires res > 0 && forall k :: 0 <= k < |R| ==> IdxOf(R[k], res) == j
    ensures Slot(res, R, i) == if i == j then R else []
  {
    if R != [] {
      SlotAllSame(res, R[..|R| - 1], j, i);
    }
  }

  lemma {:induction false} SlotNonEmpty(res: int, C: seq<Bucket>, i: int)
    requires res > 0
    ensures Slot(res, C, i) != [] <==> exists k :: 0 <= k < |C| && IdxOf(C[k], res) == i
  {
    if C != [] {
      var z := C[..|C| - 1];
      SlotNonEmpty(res, z, i);
      if Slot(res, z, i) != [] {
        var k :| 0 <= k < |z| && IdxOf(z[k], res) == i;
        assert IdxOf(C[k], res) == i;
      }
      if k :| 0 <= k < |C| && IdxOf(C[k], res) == i {
        if k < |z| { assert IdxOf(z[k], res) == i; }
      }
    }
  }

  lemma IdxMono(res: int, C: seq<Bucket>, j: int, k: int)
    requires res > 0 && Ordered(C) && 0 <= j <= k < |C|
    ensures 0 <= IdxOf(C[j], res) <= IdxOf(C[k], res)
  {
    DivMono(C[j].t, C[k].t, res);
    DivMono(0, C[j].t, res);
  }

  /** What position p of a ring of n slots holds after C: the newest bucket that maps there. */
  function Content(res: int, n: nat, C: seq<Bucket>, p: int): Bucket
    requires res > 0 && n > 0
  {
    if C == [] then ZeroAt(0)
    else
      var j := IdxOf(C[|C| - 1], res);
      if j % n == p && Slot(res, C, j) != [] then SlotBucket(res, C, j)
      else Content(res, n, C[..|C| - 1], p)
  }

  /** A ring holds exactly what the reference says after C. */
  ghost predicate Holds(r: RingS, C: seq<Bucket>) {
    && WF(r)
    && !r.curEmpty
    && r.cur == (if C == [] then -1 else IdxOf(C[|C| - 1], r.res))
    && forall p :: 0 <= p < |r.buf| ==> r.buf[p] == Content(r.res, |r.buf|, C, p)
  }

  lemma {:induction false} ContentAppend(res: int, n: nat, C: seq<Bucket>, R: seq<Bucket>, j: int, p: int)
    requires res > 0 && n > 0 && R != []
    requires forall k :: 0 <= k < |R| ==> IdxOf(R[k], res) == j
    ensures Slot(res, C + R, j) == Slot(res, C, j) + R
    ensures Content(res, n, C + R, p) == if j % n == p then SlotBucket(res, C + R, j) else Content(res, n, C, p)
  {
    SlotConcat(res, C, R, j);
    SlotAllSame(res, R, j, j);
    var S := C + R;
    assert S[|S| - 1] == R[|R| - 1];
    if j % n != p {
      var z := R[..|R| - 1];
      assert S[..|S| - 1] == C + z;
      if z == [] {
        assert C + z == C;
      } else {
        ContentAppend(res, n, C, z, j, p);
      }
    }
  }

  /** Inside the window the newest bucket of a position is the bucket of that very index. */
  lemma {:induction false} ContentIsSlot(res: int, n: nat, C: seq<Bucket>, i: int, p: int)
    requires res > 0 && n > 0 && Ordered(C) && C != [] && i >= 0 && p == i % n
    requires IdxOf(C[|C| - 1], res) - n < i
    requires Slot(res, C, i) != []
    ensures Content(res, n, C, p) == SlotBucket(res, C, i)
  {
    var j := IdxOf(C[|C| - 1], res);
    SlotNonEmpty(res, C, i);
    var k :| 0 <= k < |C| && IdxOf(C[k], res) == i;
    IdxMono(res, C, k, |C| - 1);
    if j % n == p {
      ModUnique(i, j, n);
    } else {
      var z := C[..|C| - 1];
      assert j != i;
      assert k < |z| && z[k] == C[k];
      SlotNonEmpty(res, z, i);
      IdxMono(res, C, |z| - 1, |C| - 1);
      ContentIsSlot(res, n, z, i, p);
      assert Slot(res, C, i) == Slot(res, z, i);
    }
  }

  /** A position never claims an index that received no sample, except that the zero bucket of an
      untouched slot reads as index 0. */
  lemma {:induction false} ContentHonest(res: int, n: nat, C: seq<Bucket>, i: int, p: int)
    requires res > 0 && n > 0 && Ordered(C) && i >= 0
    requires Slot(res, C, i) == []
    ensures Content(res, n, C, p).t == i * res ==> i == 0
  {
    if C == [] {
      if 0 == i * res { MulInjective(0, i, res); }
    } else {
      var j := IdxOf(C[|C| - 1], res);
      if j % n == p && Slot(res, C, j) != [] {
        if j * res == i * res { MulInjective(j, i, res); }
      } else {
        ContentHonest(res, n, C[..|C| - 1], i, p);
      }
    }
  }

  /** While no sample has landed in position p it still holds the zero bucket. */
  lemma {:induction false} ContentUntouched(res: int, n: nat, C: seq<Bucket>, p: int)
    requires res > 0 && n > 0
    requires forall k :: 0 <= k < |C| ==> IdxOf(C[k], res) % n != p
    ensures Content(res, n, C, p) == ZeroAt(0)
  {
    if C != [] {
      ContentUntouched(res, n, C[..|C| - 1], p);
    }
  }

  /** The single-ring refinement. A ring that Holds C answers valid for exactly the window
      indices that received a sample, and stores the direct fold of those samples. Index 0 is the
      one exception: an untouched slot carries start time 0. */
  lemma RingReads(r: RingS, C: seq<Bucket>, i: int)
    requires Holds(r, C) && Ordered(C) && i >= 0
    ensures ValidS(r, i) <==> InWindow(r, i) && (i == 0 || Slot(r.res, C, i) != [])
    ensures ValidS(r, i) && Slot(r.res, C, i) != [] ==> r.buf[Pos(r, i)] == SlotBucket(r.res, C, i)
    ensures ValidS(r, i) && Slot(r.res, C, i) == [] ==> r.buf[Pos(r, i)] == ZeroAt(0)
  {
    if InWindow(r, i) {
      if Slot(r.res, C, i) != [] {
        ReadHit(r, C, i);
      } else {
        ReadMiss(r, C, i);
        if i == 0 {
          ZeroSlot(r, C);
        }
      }
    }
  }

  lemma ReadHit(r: RingS, C: seq<Bucket>, i: int)
    requires Holds(r, C) && Ordered(C) && i >= 0 && InWindow(r, i) && Slot(r.res, C, i) != []
    ensures r.buf[Pos(r, i)] == SlotBucket(r.res, C, i)
  {
    ContentIsSlot(r.res, |r.buf|, C, i, Pos(r, i));
  }

  lemma ReadMiss(r: RingS, C: seq<Bucket>, i: int)
    requires Holds(r, C) && Ordered(C) && i >= 0 && InWindow(r, i) && Slot(r.res, C, i) == []
    ensures r.buf[Pos(r, i)].t == i * r.res ==> i == 0
  {
    ContentHonest(r.res, |r.buf|, C, i, Pos(r, i));
  }

  /** While index 0 is in the window, position 0 can only have been written for index 0. */
  lemma ZeroSlot(r: RingS, C: seq<Bucket>)
    requires Holds(r, C) && Ordered(C) && InWindow(r, 0) && Slot(r.res, C, 0) == []
    ensures r.buf[0] == ZeroAt(0)
  {
    var n := |r.buf|;
    SlotNonEmpty(r.res, C, 0);
    forall k | 0 <= k < |C|
      ensures IdxOf(C[k], r.res) % n != 0
    {
      IdxMono(r.res, C, k, |C| - 1);
      var j := IdxOf(C[k], r.res);
      assert 0 < j < n;
      SmallMod(j, n);
    }
    ContentUntouched(r.res, n, C, 0);
  }

  // ------------------------------------------------------------------------------------------
  // One point arriving at a ring.

  /** Point b stands for the nonempty run R of raw samples, all in b's slot of this resolution. */
  ghost predicate Stands(b: Bucket, R: seq<Bucket>, res: int) {
    && res > 0 && R != [] && b.t >= 0
    && At(Fold(R), b.t) == b
    && forall k :: 0 <= k < |R| ==> IdxOf(R[k], res) == IdxOf(b, res)
  }

  /** start+mergeCur or mergeCur alone, as add performs them on one tier; a late point is dropped. */
  function PutS(r: RingS, b: Bucket): (q: RingS)
    requires WF(r) && b.t >= 0
    ensures WF(q)
  {
    DivMono(0, b.t, r.res);
    var idx := IdxOf(b, r.res);
    if r.cur < 0 || idx > r.cur then MergeS(StartS(r, idx), b)
    else if idx < r.cur then r
    else MergeS(r, b)
  }

  lemma PutHolds(r: RingS, b: Bucket, C: seq<Bucket>, R: seq<Bucket>)
    requires Holds(r, C) && Stands(b, R, r.res) && Ordered(C + R)
    ensures Holds(PutS(r, b), C + R)
    ensures r.cur < 0 || IdxOf(b, r.res) >= r.cur
  {
    var j := IdxOf(b, r.res);
    var n := |r.buf|;
    var S := C + R;
    assert S[|S| - 1] == R[|R| - 1];
    if C != [] {
      assert S[|C| - 1] == C[|C| - 1];
      IdxMono(r.res, S, |C| - 1, |S| - 1);
    }
    IdxMono(r.res, S, |S| - 1, |S| - 1);
    var q := PutS(r, b);
    var pj := Pos(r, j);
    PutCurrent(r, b, C, R);
    forall p | 0 <= p < n
      ensures q.buf[p] == Content(r.res, n, S, p)
    {
      ContentAppend(r.res, n, C, R, j, p);
      if p != pj {
        assert q.buf[p] == r.buf[p];
      }
    }
  }

  /** What PutS leaves in the slot it writes. */
  lemma PutWrites(r: RingS, b: Bucket)
    requires WF(r) && !r.curEmpty && b.t >= 0 && IdxOf(b, r.res) >= 0 && IdxOf(b, r.res) >= r.cur
    ensures var j := IdxOf(b, r.res);
            PutS(r, b).buf[Pos(r, j)] == if j == r.cur then Combine(r.buf[Pos(r, j)], b) else At(b, j * r.res)
  {
  }

  /** Merging a run's fold into a slot's bucket gives the bucket of the longer slot. */
  lemma SlotGrows(X: seq<Bucket>, R: seq<Bucket>, b: Bucket, t: int)
    requires R != [] && At(Fold(R), b.t) == b
    ensures X != [] ==> Combine(At(Fold(X), t), b) == At(Fold(X + R), t)
    ensures X == [] ==> At(b, t) == At(Fold(X + R), t)
  {
    if X != [] {
      FoldConcat(X, R);
    } else {
      assert X + R == R;
    }
  }

  lemma PutCurrent(r: RingS, b: Bucket, C: seq<Bucket>, R: seq<Bucket>)
    requires Holds(r, C) && Stands(b, R, r.res) && Ordered(C + R)
    requires IdxOf(b, r.res) >= 0 && IdxOf(b, r.res) >= r.cur
    ensures var j := IdxOf(b, r.res);
            Slot(r.res, C + R, j) != [] && PutS(r, b).buf[Pos(r, j)] == SlotBucket(r.res, C + R, j)
  {
    var j := IdxOf(b, r.res);
    var X := Slot(r.res, C, j);
    SlotConcat(r.res, C, R, j);
    SlotAllSame(r.res, R, j, j);
    PutWrites(r, b);
    SlotGrows(X, R, b, j * r.res);
    if j == r.cur {
      CurrentSlot(r, C);
    } else {
      assert X == [] by {
        assert (C + R)[..|C|] == C;
        NothingYet(r.res, C + R, |C|, j);
      }
    }
  }

  lemma CurrentSlot(r: RingS, C: seq<Bucket>)
    requires Holds(r, C) && r.cur >= 0
    ensures Slot(r.res, C, r.cur) != []
    ensures r.buf[Pos(r, r.cur)] == SlotBucket(r.res, C, r.cur)
  {
    SlotNonEmpty(r.res, C, r.cur);
    assert IdxOf(C[|C| - 1], r.res) == r.cur;
    var p := Pos(r, r.cur);
    assert r.buf[p] == Content(r.res, |r.buf|, C, p);
  }

  lemma NothingYet(res: int, S: seq<Bucket>, m: nat, j: int)
    requires res > 0 && Ordered(S) && m <= |S|
    requires m > 0 ==> IdxOf(S[m - 1], res) < j
    ensures Slot(res, S[..m], j) == []
  {
    SlotNonEmpty(res, S[..m], j);
    forall k | 0 <= k < m
      ensures IdxOf(S[..m][k], res) != j
    {
      IdxMono(res, S, k, m - 1);
    }
  }

  // ------------------------------------------------------------------------------------------

  /** The ring object. buf has fixed length; start and mergeCur overwrite slots in place. */
  class Ring {
    const resMs: int
    const buf: array<Bucket>
    var cur: int
    var curEmpty: bool

    ghost predicate Valid()
      reads this, buf
    {
      WF(S())
    }

    /** The ring's value. */
    ghost function S(): (r: RingS)
      reads this, buf
    {
      RingS(resMs, buf[..], cur, curEmpty)
    }

    constructor (resMs: int, slots: nat)
      requires resMs > 0 && slots > 0
      ensures Valid() && fresh(buf)
      ensures S() == EmptyRing(resMs, slots)
    {
      this.resMs := resMs;
      this.buf := new Bucket[slots](_ => ZeroAt(0));
      this.cur := -1;
      this.curEmpty := false;
      new;
      assert buf[..] == EmptyRing(resMs, slots).buf;
    }

    /** Open a fresh current bucket at absolute index idx. */
    method Start(idx: int)
      requires Valid() && idx >= 0
      modifies this`cur, this`curEmpty, buf
      ensures Valid() && S() == StartS(old(S()), idx)
    {
      cur := idx;
      buf[idx % buf.Length] := ZeroAt(idx * resMs);
      curEmpty := true;
    }

    /** Fold one point into the current bucket. */
    method MergeCur(b: Bucket)
      requires Valid() && cur >= 0
      modifies this`curEmpty, buf
      ensures Valid() && S() == MergeS(old(S()), b)
    {
      var p := cur % buf.Length;
      var dst := buf[p];
      if curEmpty {
        buf[p] := b.(t := dst.t, bytesIn := dst.bytesIn + b.bytesIn, bytesOut := dst.bytesOut + b.bytesOut);
        curEmpty := false;
        return;
      }
      buf[p] := Combine(dst, b);
    }

    /** Whether index i holds real data. A negative i would index out of range in the code unless
        an earlier test rejects it. */
    method IsValid(i: int) returns (ok: bool)
      requires Valid()
      requires i >= 0 || cur < 0 || i <= cur - buf.Length
      ensures ok == (i >= 0 && ValidS(S(), i))
    {
      if cur < 0 || i > cur || i <= cur - buf.Length {
        return false;
      }
      return buf[i % buf.Length].t == i * resMs;
    }
  }
}
