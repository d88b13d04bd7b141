/** Rendering a window of the history (internal/stats/stats.go:612-707): buckets regrouped to a coarser
    width. */
module Charts {
  import opened Prelude
  import opened Arith
  import opened Buckets
  import opened Rings
  import opened Ladder
  import opened Histories
  import opened Snapshots

  const MAX_HISTORY_BUCKETS: int := 300

  datatype HistoryResult = HistoryResult(windowMs: int, bucketMs: int, buckets: seq<Bucket>)

  /** The absolute groups of the given width that B's buckets fall in, in order of appearance. */
  function Groups(B: seq<Bucket>, width: int): seq<int>
    requires width > 0
  {
    if B == [] then []
    else
      var gs := Groups(B[..|B| - 1], width);
      var g := IdxOf(B[|B| - 1], width);
      if gs != [] && gs[|gs| - 1] == g then gs else gs + [g]
  }

  /** Buckets merged per absolute group of the given width. */
  function Regroup(B: seq<Bucket>, width: int): (o: seq<Bucket>)
    requires width > 0
    ensures |o| == |Groups(B, width)|
  {
    if B == [] then []
    else
      var gs := Groups(B[..|B| - 1], width);
      var o := Regroup(B[..|B| - 1], width);
      var b := B[|B| - 1];
      var g := IdxOf(b, width);
      if gs != [] && gs[|gs| - 1] == g then o[|o| - 1 := Combine(o[|o| - 1], b)] else o + [At(b, g * width)]
  }

  /** o is exactly the direct fold of B at this width: one bucket per group gs[j], in strictly
      increasing order, stamped with the group's start and equal to the fold of that group's
      buckets; every bucket of B is in one of the groups; and no byte is lost. */
  ghost predicate IsRegroup(o: seq<Bucket>, gs: seq<int>, B: seq<Bucket>, width: int)
    requires width > 0
  {
    |o| == |gs| && Increasing(gs) && FoldsAre(o, gs, B, width) && AllIn(B, gs, width) && SameBytes(o, B)
  }

  ghost predicate Increasing(gs: seq<int>) { forall i, j :: 0 <= i < j < |gs| ==> gs[i] < gs[j] }

  ghost predicate FoldsAre(o: seq<Bucket>, gs: seq<int>, B: seq<Bucket>, width: int)
    requires width > 0 && |o| == |gs|
  {
    forall j :: 0 <= j < |o| ==> IsFoldOf(o[j], gs[j], B, width)
  }

  ghost predicate AllIn(B: seq<Bucket>, gs: seq<int>, width: int)
    requires width > 0
  {
    forall k :: 0 <= k < |B| ==> IdxOf(B[k], width) in gs
  }

  ghost predicate SameBytes(o: seq<Bucket>, B: seq<Bucket>) { SumIn(o) == SumIn(B) && SumOut(o) == SumOut(B) }

  ghost predicate IsFoldOf(b: Bucket, g: int, B: seq<Bucket>, width: int)
    requires width > 0
  {
    Slot(width, B, g) != [] && b == SlotBucket(width, B, g)
  }

  lemma SumLast(o: seq<Bucket>, b: Bucket)
    requires o != []
    ensures SumIn(o[|o| - 1 := b]) == SumIn(o) - o[|o| - 1].bytesIn + b.bytesIn
    ensures SumOut(o[|o| - 1 := b]) == SumOut(o) - o[|o| - 1].bytesOut + b.bytesOut
  {
    assert o[|o| - 1 := b][..|o| - 1] == o[..|o| - 1];
  }

  lemma SumSnoc(o: seq<Bucket>, b: Bucket)
    ensures SumIn(o + [b]) == SumIn(o) + b.bytesIn && SumOut(o + [b]) == SumOut(o) + b.bytesOut
  {
    assert (o + [b])[..|o|] == o;
  }

  lemma SlotSnoc(z: seq<Bucket>, b: Bucket, g: int, width: int)
    requires width > 0
    ensures Slot(width, z + [b], g) == Slot(width, z, g) + (if IdxOf(b, width) == g then [b] else [])
  {
    assert (z + [b])[..|z|] == z;
  }

  /** A group other than the newest bucket's is unaffected by it. */
  lemma OtherGroup(o: Bucket, g: int, z: seq<Bucket>, b: Bucket, width: int)
    requires width > 0 && IsFoldOf(o, g, z, width) && IdxOf(b, width) != g
    ensures IsFoldOf(o, g, z + [b], width)
  {
    SlotSnoc(z, b, g, width);
    assert Slot(width, z + [b], g) == Slot(width, z, g);
  }

  lemma SameGroup(o: Bucket, g: int, z: seq<Bucket>, b: Bucket, width: int)
    requires width > 0 && IsFoldOf(o, g, z, width) && IdxOf(b, width) == g
    ensures IsFoldOf(Combine(o, b), g, z + [b], width)
  {
    SlotSnoc(z, b, g, width);
    FoldConcat(Slot(width, z, g), [b]);
  }

  lemma NewGroup(g: int, z: seq<Bucket>, b: Bucket, width: int)
    requires width > 0 && Slot(width, z, g) == [] && IdxOf(b, width) == g
    ensures IsFoldOf(At(b, g * width), g, z + [b], width)
  {
    SlotSnoc(z, b, g, width);
    assert Slot(width, z + [b], g) == [b];
  }

  lemma GroupsSnoc(z: seq<Bucket>, b: Bucket, width: int)
    requires width > 0
    ensures var gs := Groups(z, width); var g := IdxOf(b, width);
            Groups(z + [b], width) == if gs != [] && gs[|gs| - 1] == g then gs else gs + [g]
    ensures var gs := Groups(z, width); var g := IdxOf(b, width); var o := Regroup(z, width);
            Regroup(z + [b], width) ==
              if gs != [] && gs[|gs| - 1] == g then o[|o| - 1 := Combine(o[|o| - 1], b)] else o + [At(b, g * width)]
  {
    assert (z + [b])[..|z|] == z;
  }

  /** The newest bucket joins the last group. */
  lemma RegroupJoins(z: seq<Bucket>, b: Bucket, width: int)
    requires width > 0 && IsRegroup(Regroup(z, width), Groups(z, width), z, width)
    requires Groups(z, width) != [] && Groups(z, width)[|Groups(z, width)| - 1] == IdxOf(b, width)
    ensures IsRegroup(Regroup(z + [b], width), Groups(z + [b], width), z + [b], width)
  {
    GroupsSnoc(z, b, width);
    RegroupMerges(Regroup(z, width), Groups(z, width), z, b, width);
  }

  /** The newest bucket opens a group. */
  lemma RegroupStarts(z: seq<Bucket>, b: Bucket, width: int, g: int, start: int)
    requires width > 0 && IsRegroup(Regroup(z, width), Groups(z, width), z, width) && g == IdxOf(b, width)
    requires Groups(z, width) != [] ==> Groups(z, width)[|Groups(z, width)| - 1] < g
    requires start == g * width && Regroup(z + [b], width) == Regroup(z, width) + [At(b, start)]
    requires Groups(z + [b], width) == Groups(z, width) + [g]
    requires IsFoldOf(At(b, start), g, z + [b], width)
    ensures IsRegroup(Regroup(z + [b], width), Groups(z + [b], width), z + [b], width)
  {
    RegroupOpens(Regroup(z, width), Groups(z, width), z, b, At(b, start), g, width);
  }

  lemma BeyondLast(gs: seq<int>, g: int)
    requires Increasing(gs) && (gs != [] ==> gs[|gs| - 1] < g)
    ensures g !in gs && Increasing(gs + [g])
  {
  }

  lemma RegroupBeyond(z: seq<Bucket>, b: Bucket, width: int, g: int)
    requires width > 0 && IsRegroup(Regroup(z, width), Groups(z, width), z, width) && g == IdxOf(b, width)
    requires Groups(z, width) != [] ==> Groups(z, width)[|Groups(z, width)| - 1] < g
    ensures IsRegroup(Regroup(z + [b], width), Groups(z + [b], width), z + [b], width)
  {
    GroupsSnoc(z, b, width);
    BeyondLast(Groups(z, width), g);
    NoSlotYet(z, Groups(z, width), g, width);
    NewGroup(g, z, b, width);
    RegroupStarts(z, b, width, g, g * width);
  }

  /** One more bucket, not older than the last group. */
  lemma RegroupStep(z: seq<Bucket>, b: Bucket, width: int, g: int)
    requires width > 0 && IsRegroup(Regroup(z, width), Groups(z, width), z, width) && g == IdxOf(b, width)
    requires Groups(z, width) != [] ==> Groups(z, width)[|Groups(z, width)| - 1] <= g
    ensures IsRegroup(Regroup(z + [b], width), Groups(z + [b], width), z + [b], width)
  {
    var gs := Groups(z, width);
    if gs != [] && gs[|gs| - 1] == g {
      RegroupJoins(z, b, width);
    } else {
      RegroupBeyond(z, b, width, g);
    }
  }

  /** The last group is the newest bucket's. */
  lemma GroupsEnd(z: seq<Bucket>, width: int)
    requires width > 0 && z != []
    ensures Groups(z, width) != [] && Groups(z, width)[|Groups(z, width)| - 1] == IdxOf(z[|z| - 1], width)
  {
  }

  /** So it is not newer than the next bucket. */
  lemma LastGroup(z: seq<Bucket>, b: Bucket, width: int)
    requires width > 0 && Ordered(z + [b])
    ensures Groups(z, width) != [] ==> Groups(z, width)[|Groups(z, width)| - 1] <= IdxOf(b, width)
  {
    if z != [] {
      var B := z + [b];
      assert B[|z| - 1] == z[|z| - 1] && B[|z|] == b;
      IdxMono(width, B, |z| - 1, |z|);
      GroupsEnd(z, width);
    }
  }

  /** Charts conserve. Regrouping time-ordered buckets yields the direct fold at the coarser width
      and loses no byte. */
  lemma {:induction false} RegroupIsFold(B: seq<Bucket>, width: int)
    requires width > 0 && Ordered(B)
    ensures IsRegroup(Regroup(B, width), Groups(B, width), B, width)
  {
    if B != [] {
      var z, b := B[..|B| - 1], B[|B| - 1];
      assert B == z + [b];
      OrderedPrefix(B, |z|);
      RegroupIsFold(z, width);
      LastGroup(z, b, width);
      RegroupStep(z, b, width, IdxOf(b, width));
    }
  }

  lemma FoldsMerge(o: seq<Bucket>, gs: seq<int>, z: seq<Bucket>, b: Bucket, width: int)
    requires width > 0 && |o| == |gs| && o != [] && Increasing(gs) && FoldsAre(o, gs, z, width)
    requires gs[|gs| - 1] == IdxOf(b, width)
    ensures FoldsAre(o[|o| - 1 := Combine(o[|o| - 1], b)], gs, z + [b], width)
  {
    var n := |gs| - 1;
    var q := o[n := Combine(o[n], b)];
    forall j | 0 <= j < |q|
      ensures IsFoldOf(q[j], gs[j], z + [b], width)
    {
      if j < n { OtherGroup(o[j], gs[j], z, b, width); } else { SameGroup(o[n], gs[n], z, b, width); }
    }
  }

  lemma FoldsOpen(o: seq<Bucket>, gs: seq<int>, z: seq<Bucket>, b: Bucket, nb: Bucket, g: int, width: int)
    requires width > 0 && |o| == |gs| && IdxOf(b, width) == g && IsFoldOf(nb, g, z + [b], width)
    requires FoldsAre(o, gs, z, width) && g !in gs
    ensures FoldsAre(o + [nb], gs + [g], z + [b], width)
  {
    forall j | 0 <= j < |o + [nb]|
      ensures IsFoldOf((o + [nb])[j], (gs + [g])[j], z + [b], width)
    {
      if j < |o| {
        assert gs[j] != g;
        OtherGroup(o[j], gs[j], z, b, width);
      }
    }
  }

  lemma AllInSnoc(z: seq<Bucket>, gs: seq<int>, b: Bucket, hs: seq<int>, width: int)
    requires width > 0 && AllIn(z, gs, width) && IdxOf(b, width) in hs && forall g :: g in gs ==> g in hs
    ensures AllIn(z + [b], hs, width)
  {
  }

  lemma RegroupMerges(o: seq<Bucket>, gs: seq<int>, z: seq<Bucket>, b: Bucket, width: int)
    requires width > 0 && IsRegroup(o, gs, z, width) && gs != [] && gs[|gs| - 1] == IdxOf(b, width)
    ensures IsRegroup(o[|o| - 1 := Combine(o[|o| - 1], b)], gs, z + [b], width)
  {
    SumSnoc(z, b);
    SumLast(o, Combine(o[|o| - 1], b));
    FoldsMerge(o, gs, z, b, width);
    AllInSnoc(z, gs, b, gs, width);
  }

  lemma RegroupOpens(o: seq<Bucket>, gs: seq<int>, z: seq<Bucket>, b: Bucket, nb: Bucket, g: int, width: int)
    requires width > 0 && IsRegroup(o, gs, z, width) && (gs != [] ==> gs[|gs| - 1] < g) && g == IdxOf(b, width)
    requires IsFoldOf(nb, g, z + [b], width) && nb.bytesIn == b.bytesIn && nb.bytesOut == b.bytesOut
    ensures IsRegroup(o + [nb], gs + [g], z + [b], width)
  {
    SumSnoc(z, b);
    SumSnoc(o, nb);
    BeyondLast(gs, g);
    FoldsOpen(o, gs, z, b, nb, g, width);
    AllInSnoc(z, gs, b, gs + [g], width);
  }

  lemma NoSlotYet(z: seq<Bucket>, gs: seq<int>, g: int, width: int)
    requires width > 0 && AllIn(z, gs, width) && g !in gs
    ensures Slot(width, z, g) == []
  {
    SlotNonEmpty(width, z, g);
  }

  /** Strictly increasing group numbers between two bounds are at most that many. */
  lemma {:induction false} CountGroups(gs: seq<int>, lo: int, hi: int)
    requires forall i, j :: 0 <= i < j < |gs| ==> gs[i] < gs[j]
    requires forall j :: 0 <= j < |gs| ==> lo <= gs[j] <= hi
    requires lo <= hi + 1
    ensures |gs| <= hi - lo + 1
  {
    if gs != [] {
      CountGroups(gs[..|gs| - 1], lo, gs[|gs| - 1] - 1);
    }
  }

  /** A window of at most k*m indices spans at most m+1 absolute groups of k, and at most m when it
      does not straddle. */
  lemma Straddle(s: int, e: int, k: int, m: int)
    requires 0 <= s <= e && k > 0 && m > 0 && e - s + 1 <= k * m
    ensures 0 <= e / k - s / k <= m
    ensures s % k == 0 ==> e / k - s / k <= m - 1
    ensures k == 1 ==> e / k - s / k <= m - 1
  {
    var qs, qe := s / k, e / k;
    DivMono(s, e, k);
    assert s == qs * k + s % k && e == qe * k + e % k;
    assert (qe - qs) * k == qe * k - qs * k;
    if qe - qs > m {
      MulStrict(m, qe - qs, k);
    }
    if s % k == 0 && qe - qs >= m {
      MulLe(m, qe - qs, k);
    }
  }

  // ------------------------------------------------------------------------------------------

  /** The ring's window is at least that long. */
  ghost predicate Spans(r: RingS, windowMs: int) { r.res * |r.buf| >= windowMs }

  /** Windows that reach back no further than the epoch. */
  ghost predicate WindowOk(nowMs: int, windowMs: int) {
    nowMs >= 0 && windowMs <= nowMs
  }

  /** The fewest indices a group can share for m groups to hold all of them. */
  function GroupSize(s: int, e: int, m: int): (k: int)
    requires s <= e && m > 0
    ensures k > 0 && (k - 1) * m < e - s + 1 <= k * m
  {
    CeilFewest(e - s + 1, m);
    (e - s + m) / m
  }

  lemma CeilFewest(n: int, m: int)
    requires n > 0 && m > 0
    ensures var k := (n + m - 1) / m; k > 0 && (k - 1) * m < n <= k * m
  {
    var k := (n + m - 1) / m;
    assert n + m - 1 == k * m + (n + m - 1) % m;
    assert (k - 1) * m == k * m - m;
    if k <= 0 {
      MulLe(k, 0, m);
    }
  }

  /** The buckets B regrouped k indices to a group, in m groups at most, or one more when the first
      index s is not on a group boundary. */
  ghost predicate RenderedAs(q: HistoryResult, B: seq<Bucket>, res: int, k: int, m: int, s: int)
    requires k > 0
  {
    var width := q.bucketMs;
    && width == k * res && width > 0
    && IsRegroup(q.buckets, Groups(B, width), B, width)
    && |q.buckets| <= m + 1
    && (s % k == 0 || k == 1 ==> |q.buckets| <= m)
  }

  /** What a rendered window promises about its ring and its index range. The cap is the caller's, or
      the general one for a cap beyond it or none. */
  ghost predicate Rendered(q: HistoryResult, r: RingS, s: int, e: int, maxBuckets: int) {
    && WF(r) && 0 <= s <= e + 1
    && var m := if 1 <= maxBuckets <= MAX_HISTORY_BUCKETS then maxBuckets else MAX_HISTORY_BUCKETS;
       (s > e ==> q.buckets == [])
       && (s <= e ==> GroupSize(s, e, m) > 0 && RenderedAs(q, Collect(r, s, e), r.res, GroupSize(s, e, m), m, s))
  }

  lemma CollectOrdered(r: RingS, s: int, e: int)
    requires WF(r) && s <= e + 1
    ensures Ordered(Collect(r, s, e))
    ensures forall k :: 0 <= k < |Collect(r, s, e)| ==> IsBucketOf(r, s, e, Collect(r, s, e)[k])
  {
    CollectMembers(r, s, e);
  }

  lemma RenderBound(q: HistoryResult, r: RingS, s: int, e: int, k: int, m: int)
    requires WF(r) && 0 <= s <= e && m > 0 && k == GroupSize(s, e, m) && k > 0
    requires q.bucketMs == k * r.res && q.bucketMs > 0 && q.buckets == Regroup(Collect(r, s, e), q.bucketMs)
    ensures RenderedAs(q, Collect(r, s, e), r.res, k, m, s)
  {
    RenderGroups(r, s, e, q.bucketMs);
    GroupsInRange(r, s, e, k);
    SpanBound(s, e, k, m);
  }

  lemma RenderGroups(r: RingS, s: int, e: int, width: int)
    requires WF(r) && 0 <= s <= e && width > 0
    ensures var B := Collect(r, s, e);
      IsRegroup(Regroup(B, width), Groups(B, width), B, width)
      && |Regroup(B, width)| == |Groups(B, width)|
  {
    CollectOrdered(r, s, e);
    RegroupIsFold(Collect(r, s, e), width);
  }

  lemma SpanBound(s: int, e: int, k: int, m: int)
    requires 0 <= s <= e && m > 0 && k == (e - s + m) / m && k > 0
    ensures e / k - s / k + 1 <= m + 1 && (s % k == 0 || k == 1 ==> e / k - s / k + 1 <= m)
  {
    CeilFewest(e - s + 1, m);
    Straddle(s, e, k, m);
  }

  lemma GroupsInRange(r: RingS, s: int, e: int, k: int)
    requires WF(r) && 0 <= s <= e && k > 0 && k * r.res > 0
    ensures |Groups(Collect(r, s, e), k * r.res)| <= e / k - s / k + 1
  {
    var width := k * r.res;
    var B := Collect(r, s, e);
    CollectOrdered(r, s, e);
    RegroupIsFold(B, width);
    var gs := Groups(B, width);
    forall j | 0 <= j < |gs|
      ensures s / k <= gs[j] <= e / k
    {
      assert IsFoldOf(Regroup(B, width)[j], gs[j], B, width);
      GroupInRange(r, s, e, k, gs[j]);
    }
    DivMono(s, e, k);
    CountGroups(gs, s / k, e / k);
  }

  lemma GroupInRange(r: RingS, s: int, e: int, k: int, g: int)
    requires WF(r) && 0 <= s <= e && k > 0 && k * r.res > 0
    requires Slot(k * r.res, Collect(r, s, e), g) != []
    ensures s / k <= g <= e / k
  {
    var width := k * r.res;
    var B := Collect(r, s, e);
    CollectOrdered(r, s, e);
    SlotNonEmpty(width, B, g);
    var n :| 0 <= n < |B| && IdxOf(B[n], width) == g;
    assert IsBucketOf(r, s, e, B[n]);
    var i :| s <= i <= e && i >= 0 && ValidS(r, i) && B[n] == r.buf[Pos(r, i)];
    GroupOfIndex(i, k, r.res);
    DivMono(s, i, k);
    DivMono(i, e, k);
  }

  /** Grouping by index is grouping by time. */
  lemma GroupOfIndex(i: int, k: int, res: int)
    requires i >= 0 && k > 0 && res > 0
    ensures k * res > 0 && (i * res) / (k * res) == i / k
    ensures i / k * k * res == i / k * (k * res)
  {
    MulStrict(0, k, res);
    var q := i / k;
    assert i == q * k + i % k;
    MulLe(q * k, i, res);
    MulStrict(i, q * k + k, res);
    assert q * k * res == q * (k * res);
    assert (q * k + k) * res == q * k * res + k * res;
    DivUnique(i * res, q, k * res);
  }

  /** One more index of the window, valid or not, in terms of the reference. */
  lemma CollectStep(r: RingS, s: int, i: int, k: int)
    requires WF(r) && 0 <= s <= i && k > 0
    ensures k * r.res > 0
    ensures !ValidS(r, i) ==> Collect(r, s, i) == Collect(r, s, i - 1)
    ensures ValidS(r, i) ==>
      var B := Collect(r, s, i - 1); var b := r.buf[Pos(r, i)];
      var gs := Groups(B, k * r.res); var o := Regroup(B, k * r.res); var g := i / k;
      && Groups(Collect(r, s, i), k * r.res) == (if gs != [] && gs[|gs| - 1] == g then gs else gs + [g])
      && Regroup(Collect(r, s, i), k * r.res) ==
           (if gs != [] && gs[|gs| - 1] == g then o[|o| - 1 := Combine(o[|o| - 1], b)] else o + [At(b, g * k * r.res)])
  {
    GroupOfIndex(i, k, r.res);
    if ValidS(r, i) {
      var B := Collect(r, s, i - 1);
      var b := r.buf[Pos(r, i)];
      assert Collect(r, s, i) == B + [b];
      GroupsSnoc(B, b, k * r.res);
      assert IdxOf(b, k * r.res) == i / k;
      assert i / k * k * r.res == i / k * (k * r.res);
    }
  }

  /** The grouping loop of historyAt over indices s to e of one ring. */
  method RenderRing(r: Ring, s: int, e: int, k: int) returns (out: seq<Bucket>)
    requires r.Valid() && 0 <= s <= e + 1 && k > 0
    ensures r.Valid() && k * r.resMs > 0
    ensures out == Regroup(Collect(r.S(), s, e), k * r.resMs)
  {
    MulStrict(0, k, r.resMs);
    out := [];
    var groupIdx := -1;
    var first := true;
    var i := s;
    ghost var gs: seq<int> := [];
    ghost var v := r.S();
    while i <= e
      invariant s <= i <= e + 1 && |gs| == |out|
      invariant gs == Groups(Collect(v, s, i - 1), k * v.res)
      invariant out == Regroup(Collect(v, s, i - 1), k * v.res)
      invariant first <==> gs == []
      invariant !first ==> gs[|gs| - 1] == groupIdx
    {
      CollectStep(v, s, i, k);
      var ok := r.IsValid(i);
      if ok {
        var b := r.buf[i % r.buf.Length];
        var grp := i / k;
        if first || grp != groupIdx {
          out := out + [b.(t := grp * k * r.resMs)];
          gs := gs + [grp];
          groupIdx := grp;
          first := false;
        } else {
          out := out[|out| - 1 := Combine(out[|out| - 1], b)];
        }
      }
      i := i + 1;
    }
  }

  /** The tier that serves a window and the index range to walk, as historyAt picks them: the
      trailing window from the finest tier that spans it, or everything the daily tier holds when
      windowMs is not positive, starting at its oldest valid index, or its newest if none is older. s > e
      means there is nothing to serve. */
  ghost predicate Chosen(ts: seq<RingS>, nowMs: int, windowMs: int, tier: nat, s: int, e: int) {
    && tier < |ts| && WF(ts[tier]) && 0 <= s <= e + 1
    && var r := ts[tier];
       if windowMs > 0 then
         && (tier == |ts| - 1 || Spans(r, windowMs)) && (forall j :: 0 <= j < tier ==> !Spans(ts[j], windowMs))
         && s <= e && e == nowMs / r.res && e - s + 1 == (windowMs + r.res - 1) / r.res
       else
         && tier == |ts| - 1
         && (s > e <==> r.cur < 0)
         && (s <= e ==> e == r.cur && (s == e || ValidS(r, s)) && forall i :: 0 <= i < s ==> !ValidS(r, i))
  }

  method ChooseAll(h: History, nowMs: int) returns (tier: nat, s: int, e: int, window: int)
    requires h.Valid() && |h.tiers| > 0
    ensures h.Valid() && Chosen(h.From(0), nowMs, 0, tier, s, e)
    ensures window == if s > e then 0 else Max(nowMs - s * h.From(0)[tier].res, h.From(0)[tier].res)
  {
    tier := |h.tiers| - 1;
    window := 0;
    h.TierAt(tier);
    var r := h.tiers[tier];
    ghost var ts := h.From(0);
    if r.cur < 0 {
      s, e := 0, -1;
      return;
    }
    label start:
    s := FindOldest(r);
    e := r.cur;
    h.CoarserUntouched@start(0);
    assert h.From(0) == ts && ts[tier] == r.S();
    window := nowMs - s * r.resMs;
    if window < r.resMs { window := r.resMs; }
  }

  method ChooseTrailing(h: History, nowMs: int, windowMs: int) returns (tier: nat, s: int, e: int)
    requires h.Valid() && |h.tiers| > 0 && WindowOk(nowMs, windowMs) && windowMs > 0
    ensures h.Valid() && Chosen(h.From(0), nowMs, windowMs, tier, s, e)
  {
    tier := PickTier(h, windowMs);
    h.TierAt(tier);
    var r := h.tiers[tier];
    WindowFits(nowMs, windowMs, r.resMs);
    e := nowMs / r.resMs;
    s := e - (windowMs + r.resMs - 1) / r.resMs + 1;
    assert h.From(0)[tier].res == r.resMs;
  }

  /** historyAt. The result is the direct fold, at the served width, of the valid buckets in the
      chosen window; at most maxBuckets of them when the window starts on a group boundary or needs
      no grouping, and one more otherwise. */
  method HistoryAt(h: History, nowMs: int, windowMs: int, maxBuckets: int)
    returns (q: HistoryResult, ghost tier: nat, ghost s: int, ghost e: int)
    requires h.Valid() && |h.tiers| > 0 && WindowOk(nowMs, windowMs)
    ensures h.Valid() && Chosen(h.From(0), nowMs, if windowMs <= 0 then 0 else windowMs, tier, s, e)
    ensures Rendered(q, h.From(0)[tier], s, e, maxBuckets)
    ensures windowMs > 0 ==> q.windowMs == windowMs
    ensures windowMs <= 0 ==>
      q.windowMs == if s > e then 0 else Max(nowMs - s * h.From(0)[tier].res, h.From(0)[tier].res)
  {
    var n: nat, startIdx, endIdx, window := 0, 0, 0, windowMs;
    if windowMs <= 0 {
      n, startIdx, endIdx, window := ChooseAll(h, nowMs);
    } else {
      n, startIdx, endIdx := ChooseTrailing(h, nowMs, windowMs);
    }
    tier, s, e := n, startIdx, endIdx;
    if startIdx > endIdx {
      q := HistoryResult(0, 0, []);
      return;
    }
    q := RenderTier(h, n, startIdx, endIdx, maxBuckets, window);
  }

  /** Rendering reads the history and leaves it as it is. */
  method RenderTier(h: History, n: nat, s: int, e: int, maxBuckets: int, window: int) returns (q: HistoryResult)
    requires h.Valid() && n < |h.tiers| && 0 <= s <= e
    ensures h.Valid() && h.From(0) == old(h.From(0)) && Rendered(q, h.From(0)[n], s, e, maxBuckets) && q.windowMs == window
  {
    h.TierAt(n);
    label start:
    q := Render(h.tiers[n], s, e, maxBuckets, window);
    h.CoarserUntouched@start(0);
    h.TierAt(n);
  }

  /** The cap in force and the group size it calls for. */
  method GroupFor(s: int, e: int, maxBuckets: int) returns (m: int, k: int)
    requires s <= e
    ensures m == if 1 <= maxBuckets <= MAX_HISTORY_BUCKETS then maxBuckets else MAX_HISTORY_BUCKETS
    ensures m > 0 && k == GroupSize(s, e, m) && k > 0
  {
    m := maxBuckets;
    if m <= 0 || m > MAX_HISTORY_BUCKETS {
      m := MAX_HISTORY_BUCKETS;
    }
    CeilFewest(e - s + 1, m);
    k := (e - s + 1 + m - 1) / m;
  }

  /** The tail of historyAt, once the ring and the index range are chosen. */
  method Render(r: Ring, s: int, e: int, maxBuckets: int, window: int) returns (q: HistoryResult)
    requires r.Valid() && 0 <= s <= e
    ensures r.Valid() && Rendered(q, r.S(), s, e, maxBuckets) && q.windowMs == window
  {
    var m, k := GroupFor(s, e, maxBuckets);
    var out := RenderRing(r, s, e, k);
    q := HistoryResult(window, k * r.resMs, out);
    RenderBound(q, r.S(), s, e, k, m);
    RenderedBy(q, r.S(), s, e, k, m, maxBuckets);
  }

  lemma RenderedBy(q: HistoryResult, r: RingS, s: int, e: int, k: int, m: int, maxBuckets: int)
    requires WF(r) && 0 <= s <= e
    requires m == if 1 <= maxBuckets <= MAX_HISTORY_BUCKETS then maxBuckets else MAX_HISTORY_BUCKETS
    requires k == GroupSize(s, e, m) && k > 0
    requires RenderedAs(q, Collect(r, s, e), r.res, k, m, s)
    ensures Rendered(q, r, s, e, maxBuckets)
  {
  }

  lemma WindowFits(nowMs: int, windowMs: int, res: int)
    requires res > 0 && 0 < windowMs <= nowMs
    ensures 1 <= (windowMs + res - 1) / res <= nowMs / res + 1
  {
    DivMono(res, windowMs + res - 1, res);
    DivUnique(res, 1, res);
    DivMono(windowMs + res - 1, nowMs + res, res);
    var p := nowMs / res;
    assert nowMs == p * res + nowMs % res;
    DivUnique(nowMs + res, p + 1, res);
  }

  method PickTier(h: History, windowMs: int) returns (n: nat)
    requires h.Valid() && |h.tiers| > 0
    ensures h.Valid() && n < |h.tiers| && (n == |h.tiers| - 1 || Spans(h.From(0)[n], windowMs))
    ensures forall j :: 0 <= j < n ==> !Spans(h.From(0)[j], windowMs)
  {
    n := 0;
    ghost var ts := h.From(0);
    while n + 1 < |h.tiers|
      invariant n < |h.tiers| && h.Valid() && h.From(0) == ts
      invariant forall j :: 0 <= j < n ==> !Spans(ts[j], windowMs)
    {
      h.TierAt(n);
      assert ts[n] == h.tiers[n].S();
      if h.tiers[n].resMs * h.tiers[n].buf.Length >= windowMs {
        return;
      }
      n := n + 1;
    }
  }

  /** The oldest valid index of the ring, or its newest. */
  method FindOldest(r: Ring) returns (oldest: int)
    requires r.Valid() && r.cur >= 0
    ensures 0 <= oldest <= r.cur && (oldest == r.cur || ValidS(r.S(), oldest))
    ensures forall i :: 0 <= i < oldest ==> !ValidS(r.S(), i)
  {
    oldest := r.cur;
    var i := r.cur - r.buf.Length + 1;
    while i < r.cur
      invariant r.cur - r.buf.Length + 1 <= i <= r.cur || i == r.cur - r.buf.Length + 1
      invariant forall j :: 0 <= j < i ==> !ValidS(r.S(), j)
    {
      if i >= 0 {
        var ok := r.IsValid(i);
        if ok {
          return i;
        }
      }
      i := i + 1;
    }
  }

  // ------------------------------------------------------------------------------------------
  // The bound on the number of buckets.

  /** Group g of the window holds a valid index. */
  ghost predicate Hit(r: RingS, s: int, e: int, k: int, g: int)
    requires WF(r) && k > 0
  {
    exists i :: s <= i <= e && i >= 0 && ValidS(r, i) && i / k == g
  }

  lemma HitIsGroup(r: RingS, s: int, e: int, k: int, width: int, g: int)
    requires WF(r) && 0 <= s <= e && k > 0 && width == k * r.res && width > 0
    ensures g in Groups(Collect(r, s, e), width) <==> Hit(r, s, e, k, g)
  {
    if g in Groups(Collect(r, s, e), width) {
      GroupHasSlot(r, s, e, width, g);
      SlotIsHit(r, s, e, k, width, g);
    }
    if Hit(r, s, e, k, g) {
      var i :| s <= i <= e && i >= 0 && ValidS(r, i) && i / k == g;
      ValidHasGroup(r, s, e, k, width, i);
    }
  }

  lemma GroupHasSlot(r: RingS, s: int, e: int, width: int, g: int)
    requires WF(r) && 0 <= s <= e && width > 0 && g in Groups(Collect(r, s, e), width)
    ensures Slot(width, Collect(r, s, e), g) != []
  {
    var B := Collect(r, s, e);
    RenderGroups(r, s, e, width);
    var j :| 0 <= j < |Groups(B, width)| && Groups(B, width)[j] == g;
    assert IsFoldOf(Regroup(B, width)[j], g, B, width);
  }

  lemma ValidHasGroup(r: RingS, s: int, e: int, k: int, width: int, i: int)
    requires WF(r) && 0 <= s <= i <= e && k > 0 && width == k * r.res && width > 0 && ValidS(r, i)
    ensures i / k in Groups(Collect(r, s, e), width)
  {
    var B := Collect(r, s, e);
    RenderGroups(r, s, e, width);
    CollectMembers(r, s, e);
    GroupOfIndex(i, k, r.res);
    var b := r.buf[Pos(r, i)];
    assert b in B && IdxOf(b, width) == i / k;
    InAll(B, Groups(B, width), b, width);
  }

  lemma InAll(B: seq<Bucket>, gs: seq<int>, b: Bucket, width: int)
    requires width > 0 && AllIn(B, gs, width) && b in B
    ensures IdxOf(b, width) in gs
  {
    var n :| 0 <= n < |B| && B[n] == b;
  }

  lemma SlotIsHit(r: RingS, s: int, e: int, k: int, width: int, g: int)
    requires WF(r) && 0 <= s <= e && k > 0 && width == k * r.res && width > 0
    requires Slot(width, Collect(r, s, e), g) != []
    ensures Hit(r, s, e, k, g)
  {
    var B := Collect(r, s, e);
    CollectOrdered(r, s, e);
    SlotNonEmpty(width, B, g);
    var n :| 0 <= n < |B| && IdxOf(B[n], width) == g;
    assert IsBucketOf(r, s, e, B[n]);
    var i :| s <= i <= e && i >= 0 && ValidS(r, i) && B[n] == r.buf[Pos(r, i)];
    GroupOfIndex(i, k, r.res);
  }

  /** Increasing numbers between two bounds fill the range exactly when there are that many. */
  lemma {:induction false} FullRange(gs: seq<int>, lo: int, hi: int)
    requires Increasing(gs) && lo <= hi + 1 && forall j :: 0 <= j < |gs| ==> lo <= gs[j] <= hi
    ensures |gs| == hi - lo + 1 <==> forall g :: lo <= g <= hi ==> g in gs
    decreases hi - lo + 1
  {
    if lo <= hi && gs != [] {
      var n := |gs| - 1;
      var z := gs[..n];
      assert gs == z + [gs[n]];
      assert forall j :: 0 <= j < n ==> z[j] == gs[j] && gs[j] < gs[n];
      CountGroups(z, lo, gs[n] - 1);
      if gs[n] == hi {
        FullRange(z, lo, hi - 1);
        LastFills(gs, z, lo, hi);
      } else {
        assert hi !in gs;
      }
    } else {
      CountGroups(gs, lo, hi);
      assert lo <= hi ==> lo !in gs;
    }
  }

  lemma LastFills(gs: seq<int>, z: seq<int>, lo: int, hi: int)
    requires lo <= hi && gs == z + [hi] && forall j :: 0 <= j < |z| ==> z[j] < hi
    ensures (forall g :: lo <= g <= hi ==> g in gs) <==> forall g :: lo <= g <= hi - 1 ==> g in z
  {
    forall g
      ensures g in gs <==> g in z || g == hi
    {
    }
    if forall g :: lo <= g <= hi ==> g in gs {
      forall g | lo <= g <= hi - 1
        ensures g in z
      {
        assert g in gs;
      }
    }
  }

  /** When the promise of at most maxBuckets buckets holds, for any ring and window, gaps and all: it
      fails if and only if the window straddles, its ends lying maxBuckets groups apart, and every one
      of those groups holds a valid index. */
  lemma BucketCapExact(r: RingS, s: int, e: int, m: int, k: int)
    requires WF(r) && 0 <= s <= e && m > 0 && k == GroupSize(s, e, m)
    ensures k > 0 && k * r.res > 0
    ensures |Regroup(Collect(r, s, e), k * r.res)| <= m <==>
      !(e / k - s / k == m && forall g :: s / k <= g <= e / k ==> Hit(r, s, e, k, g))
  {
    CeilFewest(e - s + 1, m);
    MulStrict(0, k, r.res);
    var width := k * r.res;
    var gs := Groups(Collect(r, s, e), width);
    RenderGroups(r, s, e, width);
    GroupsInRange(r, s, e, k);
    SpanBound(s, e, k, m);
    GroupsBetween(r, s, e, k, width);
    FullRange(gs, s / k, e / k);
    forall g
      ensures g in gs <==> Hit(r, s, e, k, g)
    {
      HitIsGroup(r, s, e, k, width, g);
    }
  }

  lemma GroupsBetween(r: RingS, s: int, e: int, k: int, width: int)
    requires WF(r) && 0 <= s <= e && k > 0 && width == k * r.res && width > 0
    ensures var gs := Groups(Collect(r, s, e), width);
      Increasing(gs) && s / k <= e / k && forall j :: 0 <= j < |gs| ==> s / k <= gs[j] <= e / k
  {
    RenderGroups(r, s, e, width);
    var gs := Groups(Collect(r, s, e), width);
    DivMono(s, e, k);
    forall j | 0 <= j < |gs|
      ensures s / k <= gs[j] <= e / k
    {
      assert IsFoldOf(Regroup(Collect(r, s, e), width)[j], gs[j], Collect(r, s, e), width);
      GroupInRange(r, s, e, k, gs[j]);
    }
  }

  /** A served series of a straddling window without an empty group has one bucket too many. */
  lemma OneMore(q: HistoryResult, r: RingS, s: int, e: int, m: int, k: int)
    requires WF(r) && 0 <= s <= e && m > 0 && k == GroupSize(s, e, m) && k > 0
    requires RenderedAs(q, Collect(r, s, e), r.res, k, m, s)
    requires e / k - s / k == m && forall g :: s / k <= g <= e / k ==> Hit(r, s, e, k, g)
    ensures |q.buckets| == m + 1
  {
    BucketCapExact(r, s, e, m, k);
    RenderGroups(r, s, e, q.bucketMs);
  }

  // A window that straddles.

  const NOW_INDEX: int := LATE / 100

  /** Four points a tenth of a second apart, from an odd index on. */
  function FourPoints(): seq<Bucket> {
    [ZeroAt(LATE + 100), ZeroAt(LATE + 200), ZeroAt(LATE + 300), ZeroAt(LATE + 400)]
  }

  lemma FourValid(i: int)
    requires NOW_INDEX + 1 <= i <= NOW_INDEX + 4
    ensures Ordered(FourPoints()) && ValidS(RunS(FourPoints())[0], i)
  {
    var S := FourPoints();
    assert Cascaded(RESOLUTIONS[..0], S) == S;
    LadderRefines(S, 0, i);
    SlotNonEmpty(100, S, i);
    assert IdxOf(S[i - NOW_INDEX - 1], 100) == i;
  }

  lemma FourHit(g: int)
    requires (NOW_INDEX + 1) / 2 <= g <= (NOW_INDEX + 4) / 2
    ensures Ordered(FourPoints()) && Hit(RunS(FourPoints())[0], NOW_INDEX + 1, NOW_INDEX + 4, 2, g)
  {
    var s := NOW_INDEX + 1;
    var i := if g == s / 2 then s else 2 * g;
    FourValid(i);
  }

  lemma FourWindow(ts: seq<RingS>, tier: nat, s: int, e: int)
    requires |ts| == 5 && AllWF(ts) && ts[0].res == 100 && |ts[0].buf| == 1200
    requires Chosen(ts, LATE + 450, 400, tier, s, e)
    ensures tier == 0 && s == NOW_INDEX + 1 && e == NOW_INDEX + 4
  {
  }

  /** The promise broken: on a history that recorded those four points, asking for the last 400
      milliseconds in at most two buckets yields three, whatever result, tier and window meet what
      historyAt promises of them. */
  lemma {:induction false} BucketCapExceeded(q: HistoryResult, tier: nat, s: int, e: int)
    requires Ordered(FourPoints())
    requires Chosen(RunS(FourPoints()), LATE + 450, 400, tier, s, e)
    requires Rendered(q, RunS(FourPoints())[tier], s, e, 2)
    ensures WindowOk(LATE + 450, 400) && |q.buckets| == 3
  {
    var r := RunS(FourPoints())[0];
    FourWindow(RunS(FourPoints()), tier, s, e);
    assert GroupSize(s, e, 2) == 2;
    AllHit(r, s, e);
    OneMore(q, r, s, e, 2, 2);
  }

  lemma AllHit(r: RingS, s: int, e: int)
    requires Ordered(FourPoints()) && r == RunS(FourPoints())[0] && s == NOW_INDEX + 1 && e == NOW_INDEX + 4
    ensures forall g :: s / 2 <= g <= e / 2 ==> Hit(r, s, e, 2, g)
  {
    forall g | s / 2 <= g <= e / 2
      ensures Hit(r, s, e, 2, g)
    {
      FourHit(g);
    }
  }
}
