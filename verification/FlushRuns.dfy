/** Whole runs of the history store (internal/stats/stats.go:380-581): samples of the global series
    and of agents, evictions, flushes in their three phases (snapshot under the lock, save outside
    it, watermarks under the lock again), failed saves, and restarts that reload the table.

    Series "" is the gateway-wide one. */
module FlushRuns {
  import opened Arith
  import opened Buckets
  import opened Rings
  import opened Ladder
  import opened Histories
  import opened Snapshots
  import opened SaveTable

  const MAX_AGENTS: nat := 32

  /** One series: its history and the per-tier dirty watermark. */
  datatype Series = Series(h: HistoryS, dirty: map<nat, int>)

  /** Where a flush is. at remembers the series as they were under the snapshot lock. */
  datatype Phase =
    | Idle
    | Saving(snap: Snapshot, at: map<string, Series>)
    | Landed(snap: Snapshot, at: map<string, Series>)

  /** base and tainted are history variables: each series' tiers as last saved or reloaded, and the
      agents that came back while a deletion of their rows was still pending. */
  datatype World = World(
    series: map<string, Series>, evicted: set<string>, rows: Rows, phase: Phase,
    base: map<string, seq<RingS>>, tainted: set<string>)

  datatype Event =
    | Sample(id: string, x: Reading, victim: string)
    | TakeSnapshot(snap: Snapshot)
    | SaveFails
    | SaveLands
    | AdvanceMarks
    | Restart

  /** Five tiers with the ladder's resolutions and lengths. */
  ghost predicate Sized(ts: seq<RingS>) {
    && |ts| == 5 && AllWF(ts)
    && (forall k :: 0 <= k < 5 ==> ts[k].res == RESOLUTIONS[k] && |ts[k].buf| == TIERS[k].slots)
  }

  /** Five tiers fed by late clocks only. */
  ghost predicate Shape(ts: seq<RingS>) {
    Sized(ts) && AllLate(ts)
  }

  predicate Persisted(ti: nat) { ti < 5 && TIERS[ti].persist }

  function DirtyOf(s: Series, ti: nat): int {
    if ti in s.dirty then s.dirty[ti] else 0
  }

  function TierSnapOf(id: string, ti: nat, s: Series): TierSnap
    requires ti < |s.h.tiers| && WF(s.h.tiers[ti])
  {
    TierSnap(id, ti, FloorOf(s.h.tiers[ti]), DirtyOf(s, ti), Live(s.h.tiers[ti]))
  }

  ghost predicate Shapely(series: map<string, Series>) {
    forall id :: id in series ==> Sized(series[id].h.tiers)
  }

  /** snap is a snapshot of these series: one entry, in some order, for each persisted tier that
      holds anything, and a deletion for each evicted agent. */
  ghost predicate IsSnapshot(snap: Snapshot, series: map<string, Series>, evicted: set<string>)
    requires Shapely(series)
  {
    && (forall k :: 0 <= k < |snap.tiers| ==>
          var ts := snap.tiers[k];
          ts.agent in series && Persisted(ts.tier) && series[ts.agent].h.tiers[ts.tier].cur >= 0
          && ts == TierSnapOf(ts.agent, ts.tier, series[ts.agent]))
    && (forall id, ti: nat :: id in series && Persisted(ti) && series[id].h.tiers[ti].cur >= 0 ==> Mentions(snap.tiers, id, ti))
    && (forall j, k :: 0 <= j < k < |snap.tiers| ==>
          snap.tiers[j].agent != snap.tiers[k].agent || snap.tiers[j].tier != snap.tiers[k].tier)
    && (forall a :: a in snap.deleteAgents <==> a in evicted)
  }

  ghost predicate Mentions(tiers: seq<TierSnap>, id: string, ti: nat) {
    exists k :: 0 <= k < |tiers| && tiers[k].agent == id && tiers[k].tier == ti
  }

  function FreshSeries(): Series { Series(FreshHistory(), map[]) }

  function Sampled(s: Series, x: Reading): Series
    requires AllWF(s.h.tiers) && x.t >= 0
  {
    s.(h := SampleS(s.h, x))
  }

  /** The agent an overfull map drops: one least recently sampled. */
  ghost predicate Oldest(series: map<string, Series>, victim: string) {
    victim in series && victim != "" &&
    forall id :: id in series && id != "" ==> series[victim].h.touched <= series[id].h.touched
  }

  ghost predicate SampleStep(w: World, id: string, x: Reading, victim: string, w': World)
    requires Shapely(w.series)
  {
    x.t >= LATE &&
    if id in w.series then
      w' == w.(series := w.series[id := Sampled(w.series[id], x)])
    else
      var full := |w.series| - 1 >= MAX_AGENTS;
      && (full ==> Oldest(w.series, victim))
      && var kept := if full then w.series - {victim} else w.series;
         var gone := if full then w.evicted + {victim} else w.evicted;
         w' == w.(series := kept[id := Sampled(FreshSeries(), x)], evicted := gone - {id},
                  tainted := if id in gone then w.tainted + {id} else w.tainted)
  }

  /** Advance the watermarks of the series still tracked to the last bucket saved. */
  function MarkTier(s: Series, at: Series, ti: nat): int
    requires ti < |at.h.tiers| && WF(at.h.tiers[ti])
  {
    var B := Live(at.h.tiers[ti]);
    if Persisted(ti) && B != [] then B[|B| - 1].t else DirtyOf(s, ti)
  }

  function Marked(s: Series, at: Series): Series
    requires |at.h.tiers| == 5 && AllWF(at.h.tiers)
  {
    s.(dirty := map ti: nat | 0 <= ti < 5 :: MarkTier(s, at, ti))
  }

  /** Reloading: every series with rows, and the global one, restored tier by tier; no watermarks. */
  ghost predicate Reloaded(rows: Rows, id: string, s: Series) {
    && s.dirty == map[] && !s.h.baselined
    && |s.h.tiers| == 5
    && forall ti :: 0 <= ti < 5 ==>
         if Persisted(ti) then exists B :: Stored(rows, id, ti, B) && Rising(B) && FromRows(s.h.tiers[ti], ti, B)
         else s.h.tiers[ti] == FreshTiers()[ti]
  }

  ghost predicate FromRows(r: RingS, ti: nat, B: seq<Bucket>)
    requires ti < 5
  {
    r == RestoreS(FreshTiers()[ti], B)
  }

  ghost predicate HasRows(rows: Rows, id: string) {
    exists k :: k in rows && k.agent == id
  }

  ghost predicate Step(w: World, e: Event, w': World)
    requires Shapely(w.series)
    requires w.phase.Landed? ==> Shapely(w.phase.at)
  {
    match e
    case Sample(id, x, victim) =>
      SampleStep(w, id, x, victim, w')
    case TakeSnapshot(snap) =>
      w.phase.Idle? && IsSnapshot(snap, w.series, w.evicted) && w' == w.(phase := Saving(snap, w.series))
    case SaveFails =>
      w.phase.Saving? && w' == w.(phase := Idle)
    case SaveLands =>
      w.phase.Saving? &&
      w' == w.(rows := SavedS(w.rows, w.phase.snap), phase := Landed(w.phase.snap, w.phase.at),
               base := (w.base - (set a | a in w.phase.snap.deleteAgents)) + (map id | id in w.phase.at :: w.phase.at[id].h.tiers))
    case AdvanceMarks =>
      w.phase.Landed? &&
      w' == w.(phase := Idle,
               evicted := w.evicted - (set a | a in w.phase.snap.deleteAgents),
               series := map id | id in w.series ::
                 if id in w.phase.at then Marked(w.series[id], w.phase.at[id]) else w.series[id])
    case Restart =>
      && w'.rows == w.rows && w'.phase == Idle && w'.evicted == {} && w'.tainted == w.tainted
      && (forall id :: id in w'.series <==> id == "" || HasRows(w.rows, id))
      && (forall id :: id in w'.series ==> Reloaded(w.rows, id, w'.series[id]))
      && w'.base == map id | id in w'.series :: w'.series[id].h.tiers
  }

  // ------------------------------------------------------------------------------------------
  // The invariant.

  function Base(w: World, id: string): seq<RingS> {
    if id in w.base then w.base[id] else FreshTiers()
  }

  function Mark(r: RingS): int {
    if r.cur < 0 then 0 else r.cur * r.res
  }

  /** A later state of a series against the tiers last saved. */
  ghost predicate Follows(base: seq<RingS>, s: Series)
    requires Sized(base) && Sized(s.h.tiers)
  {
    forall ti :: 0 <= ti < 5 ==> Evolves(base[ti], s.h.tiers[ti]) && DirtyOf(s, ti) <= Mark(base[ti])
  }

  ghost predicate RowsAre(rows: Rows, id: string, ts: seq<RingS>)
    requires Sized(ts)
  {
    forall ti :: 0 <= ti < 5 && Persisted(ti) ==> Stored(rows, id, ti, Live(ts[ti]))
  }

  ghost predicate Inv(w: World) {
    && "" in w.series && "" !in w.evicted && "" !in w.tainted
    && Shapely(w.series)
    && w.evicted !! w.series.Keys
    && (forall id :: Sized(Base(w, id)))
    && (forall id :: id !in w.tainted ==> Shape(Base(w, id)) && RowsAre(w.rows, id, Base(w, id)))
    && (forall id :: id in w.series && id !in w.tainted ==>
          Shape(w.series[id].h.tiers) && Follows(Base(w, id), w.series[id]))
    && (forall id :: id !in w.series && id !in w.evicted && id !in w.tainted ==> id !in w.base)
    && (!w.phase.Idle? ==> InvFlush(w))
  }

  ghost predicate InvFlush(w: World)
    requires !w.phase.Idle? && Shapely(w.series) && forall id :: Sized(Base(w, id))
  {
    var at := w.phase.at;
    && Shapely(at) && "" in at
    && (forall id :: id in at && id !in w.tainted ==> Shape(at[id].h.tiers))
    && (exists gone :: gone !! at.Keys && IsSnapshot(w.phase.snap, at, gone))
    && (forall id :: id in at && id !in w.tainted && id in w.series ==> Newer(at[id], w.series[id]))
    && (forall id :: id in at && id !in w.tainted && id !in w.series ==> id in w.evicted)
    && (forall a :: a in w.phase.snap.deleteAgents && a !in w.tainted ==> a in w.evicted)
    && (w.phase.Saving? ==> forall id :: id in at && id !in w.tainted ==> Follows(Base(w, id), at[id]))
    && (w.phase.Landed? ==>
          && (forall id :: id in at && id !in w.tainted ==> id in w.base && w.base[id] == at[id].h.tiers)
          && (forall a :: a in w.phase.snap.deleteAgents ==> a !in w.base))
  }

  ghost predicate Newer(s0: Series, s1: Series)
    requires Sized(s0.h.tiers) && Sized(s1.h.tiers)
  {
    s0.dirty == s1.dirty && forall ti :: 0 <= ti < 5 ==> Evolves(s0.h.tiers[ti], s1.h.tiers[ti])
  }

  ghost predicate Init(w: World) {
    w == World(map["" := FreshSeries()], {}, map[], Idle, map[], {})
  }

  lemma FreshShape()
    ensures Shape(FreshTiers())
    ensures forall ti :: 0 <= ti < 5 ==> FreshTiers()[ti] == EmptyRing(RESOLUTIONS[ti], TIERS[ti].slots) && Live(FreshTiers()[ti]) == []
  {
    assert LATE % 100 == 0 && LATE % 1_000 == 0 && LATE % 15_000 == 0 && LATE % 600_000 == 0 && LATE % 86_400_000 == 0;
    forall k | 0 <= k < 5
      ensures Late(FreshTiers()[k]) && LATE % FreshTiers()[k].res == 0
    {
      assert RESOLUTIONS[k] in RESOLUTIONS;
    }
  }

  lemma LateEnough(ts: seq<RingS>, ti: nat)
    requires Shape(ts) && ti < 5
    ensures LATE % ts[ti].res == 0 && LATE / ts[ti].res >= |ts[ti].buf|
  {
    assert LATE / 100 >= 1200 && LATE / 1_000 >= 1800 && LATE / 15_000 >= 7200 && LATE / 600_000 >= 5760 && LATE / 86_400_000 >= 1100;
  }

  lemma InitInv(w: World)
    requires Init(w)
    ensures Inv(w)
  {
    FreshShape();
    forall id
      ensures RowsAre(w.rows, id, Base(w, id))
    {
    }
    forall ti | 0 <= ti < 5
      ensures Evolves(FreshTiers()[ti], FreshTiers()[ti])
    {
    }
  }

  /** One sample keeps the shape and evolves every tier. */
  lemma SampledNewer(s: Series, x: Reading)
    requires Sized(s.h.tiers) && x.t >= LATE
    ensures Sized(Sampled(s, x).h.tiers)
    ensures Shape(s.h.tiers) ==> Shape(Sampled(s, x).h.tiers) && Newer(s, Sampled(s, x))
  {
    var h := s.h;
    if !Shape(s.h.tiers) { return; }
    if h.baselined && x.t > h.lastT {
      AddEvolves(h.tiers, PointOf(x, h.lastT, h.lastIn, h.lastOut));
    } else {
      forall ti | 0 <= ti < 5
        ensures Evolves(h.tiers[ti], h.tiers[ti])
      {
        EvolvesRefl(h.tiers[ti]);
      }
    }
  }

  lemma NewerTrans(s0: Series, s1: Series, s2: Series)
    requires Shape(s0.h.tiers) && Shape(s1.h.tiers) && Shape(s2.h.tiers) && Newer(s0, s1) && Newer(s1, s2)
    ensures Newer(s0, s2)
  {
    forall ti | 0 <= ti < 5
      ensures Evolves(s0.h.tiers[ti], s2.h.tiers[ti])
    {
      EvolvesTrans(s0.h.tiers[ti], s1.h.tiers[ti], s2.h.tiers[ti]);
    }
  }

  lemma FollowsNewer(base: seq<RingS>, s: Series, s1: Series)
    requires Shape(base) && Shape(s.h.tiers) && Shape(s1.h.tiers) && Follows(base, s) && Newer(s, s1)
    ensures Follows(base, s1)
  {
    forall ti | 0 <= ti < 5
      ensures Evolves(base[ti], s1.h.tiers[ti]) && DirtyOf(s1, ti) <= Mark(base[ti])
    {
      EvolvesTrans(base[ti], s.h.tiers[ti], s1.h.tiers[ti]);
    }
  }

  lemma {:induction false} SampleKnownInv(w: World, id: string, x: Reading, w': World)
    requires Inv(w) && id in w.series && SampleStep(w, id, x, "", w')
    ensures Inv(w')
  {
    SampledNewer(w.series[id], x);
    forall i | i in w'.series && i !in w.tainted
      ensures Follows(Base(w', i), w'.series[i])
    {
      assert Base(w', i) == Base(w, i);
      if i == id { FollowsNewer(Base(w, id), w.series[id], w'.series[id]); }
    }
    forall i ensures Base(w', i) == Base(w, i) { }
    if !w.phase.Idle? { SampleKnownFlush(w, id, x, w'); }
  }

  lemma SampleKnownFlush(w: World, id: string, x: Reading, w': World)
    requires Inv(w) && id in w.series && SampleStep(w, id, x, "", w') && !w.phase.Idle?
    requires Shapely(w'.series) && forall i :: Base(w', i) == Base(w, i)
    ensures InvFlush(w')
  {
    SampledNewer(w.series[id], x);
    forall i | i in w.phase.at && i !in w.tainted && i in w'.series
      ensures Newer(w.phase.at[i], w'.series[i])
    {
      if i == id { NewerTrans(w.phase.at[id], w.series[id], w'.series[id]); }
    }
  }

  lemma {:induction false} SampleNewInv(w: World, id: string, x: Reading, victim: string, w': World)
    requires Inv(w) && id !in w.series && SampleStep(w, id, x, victim, w')
    ensures Inv(w')
  {
    FreshShape();
    SampledNewer(FreshSeries(), x);
    forall i ensures Base(w', i) == Base(w, i) { }
    forall i | i in w'.series && i !in w'.tainted
      ensures Follows(Base(w', i), w'.series[i])
    {
      if i == id {
        assert i !in w.evicted && i !in w.tainted;
        assert i !in w.base;
        forall ti | 0 <= ti < 5 ensures Evolves(FreshTiers()[ti], FreshTiers()[ti]) { }
        FollowsNewer(FreshTiers(), FreshSeries(), w'.series[i]);
      }
    }
    if !w.phase.Idle? {
      forall i | i in w.phase.at && i !in w'.tainted && i in w'.series
        ensures Newer(w.phase.at[i], w'.series[i])
      {
        assert i != id;
      }
    }
  }

  lemma SnapshotInv(w: World, snap: Snapshot, w': World)
    requires Inv(w) && Step(w, TakeSnapshot(snap), w')
    ensures Inv(w')
  {
    forall i ensures Base(w', i) == Base(w, i) { }
    forall i | i in w.series && i !in w.tainted
      ensures Newer(w.series[i], w.series[i])
    {
      forall ti | 0 <= ti < 5
        ensures Evolves(w.series[i].h.tiers[ti], w.series[i].h.tiers[ti])
      {
        EvolvesRefl(w.series[i].h.tiers[ti]);
      }
    }
  }

  lemma LiveAboveFloor(r: RingS, b: Bucket)
    requires WF(r) && b in Live(r)
    ensures b.t >= FloorOf(r)
  {
    LiveMembers(r);
    var i :| i >= 0 && ValidS(r, i) && b == r.buf[Pos(r, i)];
    MulLe(r.cur - |r.buf| + 1, i, r.res);
    MulLe(0, i, r.res);
  }

  /** Below the last saved current bucket nothing has changed since. */
  lemma CleanIsStored(rb: RingS, r: RingS, b: Bucket)
    requires WF(rb) && WF(r) && Evolves(rb, r) && b in Live(r) && b.t < Mark(rb)
    ensures b in Live(rb)
  {
    LiveMembers(r);
    LiveMembers(rb);
    var i :| i >= 0 && ValidS(r, i) && b == r.buf[Pos(r, i)];
    MulLe(0, i, r.res);
    if rb.cur >= 0 && rb.cur <= i { MulLe(rb.cur, i, r.res); }
    assert i < rb.cur;
    assert ValidS(rb, i);
  }

  /** What was live at the last save is still live unless it has lapped out. */
  lemma StoredStaysLive(rb: RingS, r: RingS, b: Bucket)
    requires WF(rb) && WF(r) && Evolves(rb, r) && b in Live(rb) && b.t >= FloorOf(r)
    ensures exists b1 :: b1 in Live(r) && b1.t == b.t
  {
    LiveMembers(r);
    LiveMembers(rb);
    var i :| i >= 0 && ValidS(rb, i) && b == rb.buf[Pos(rb, i)];
    var floorIdx := r.cur - |r.buf| + 1;
    if i < floorIdx { MulStrict(i, floorIdx, r.res); }
    assert ValidS(r, i);
    assert r.buf[Pos(r, i)] in Live(r);
  }

  /** What a tier's snapshot writes and keeps agrees with what was stored for its base. */
  lemma SnapshotAgrees(rb: RingS, r: RingS, dirty: int)
    requires WF(rb) && WF(r) && Evolves(rb, r) && dirty <= Mark(rb)
    ensures forall b :: b in Live(r) ==> b.t >= FloorOf(r)
    ensures forall b :: b in Live(r) && b.t < dirty ==> b in Live(rb)
    ensures forall b :: b in Live(rb) && b.t >= FloorOf(r) ==> exists b1 :: b1 in Live(r) && b1.t == b.t
  {
    forall b | b in Live(r) ensures b.t >= FloorOf(r) { LiveAboveFloor(r, b); }
    forall b | b in Live(r) && b.t < dirty ensures b in Live(rb) { CleanIsStored(rb, r, b); }
    forall b | b in Live(rb) && b.t >= FloorOf(r)
      ensures exists b1 :: b1 in Live(r) && b1.t == b.t
    {
      StoredStaysLive(rb, r, b);
    }
  }

  lemma SnapshotWellFormed(snap: Snapshot, at: map<string, Series>, gone: set<string>)
    requires Shapely(at) && IsSnapshot(snap, at, gone)
    ensures WellFormed(snap.tiers)
  {
    forall k | 0 <= k < |snap.tiers|
      ensures Rising(snap.tiers[k].buckets)
    {
      LiveMembers(at[snap.tiers[k].agent].h.tiers[snap.tiers[k].tier]);
    }
  }

  /** The table is ready for the save of a tier of this series: as the incremental save needs it, or,
      for a tier without data, which a save does not touch, without any row. */
  ghost predicate TierReady(rows: Rows, id: string, ti: nat, s: Series)
    requires ti < |s.h.tiers| && WF(s.h.tiers[ti])
  {
    if s.h.tiers[ti].cur >= 0 then Ready(rows, TierSnapOf(id, ti, s)) else forall t :: Key(id, ti, t) !in rows
  }

  /** What a landing save leaves of a series of its snapshot, exactly. */
  lemma SavedTierExactly(rows: Rows, snap: Snapshot, at: map<string, Series>, gone: set<string>, id: string, ti: nat)
    requires Shapely(at) && IsSnapshot(snap, at, gone) && gone !! at.Keys && id in at && Persisted(ti)
    ensures Stored(SavedS(rows, snap), id, ti, Live(at[id].h.tiers[ti])) <==> TierReady(rows, id, ti, at[id])
  {
    var r := at[id].h.tiers[ti];
    var mid := DropAgents(rows, snap.deleteAgents);
    DropAgentsRows(rows, snap.deleteAgents, id, ti);
    SnapshotWellFormed(snap, at, gone);
    if r.cur >= 0 {
      assert Mentions(snap.tiers, id, ti);
      var j :| 0 <= j < |snap.tiers| && snap.tiers[j].agent == id && snap.tiers[j].tier == ti;
      assert snap.tiers[j] == TierSnapOf(id, ti, at[id]);
      forall b | b in Live(r)
        ensures b.t >= FloorOf(r)
      {
        LiveAboveFloor(r, b);
      }
      SaveTiersOne(mid, snap.tiers, j);
      ReadySame(rows, mid, snap.tiers[j]);
    } else {
      SaveTiersElsewhere(mid, snap.tiers, id, ti);
      NoneStored(rows, mid, SavedS(rows, snap), id, ti);
    }
  }

  lemma NoneStored(rows: Rows, mid: Rows, saved: Rows, id: string, ti: nat)
    requires SameSeries(rows, mid, id, ti) && SameSeries(mid, saved, id, ti)
    ensures Stored(saved, id, ti, []) <==> forall t :: Key(id, ti, t) !in rows
  {
    if Stored(saved, id, ti, []) {
      forall t
        ensures Key(id, ti, t) !in rows
      {
        assert Key(id, ti, t) in saved <==> Key(id, ti, t) in rows;
      }
    }
  }

  /** A table that stores what was live at the last save is ready. */
  lemma StoredIsReady(rows: Rows, id: string, ti: nat, rb: RingS, s: Series)
    requires ti < |s.h.tiers| && WF(rb) && WF(s.h.tiers[ti]) && Evolves(rb, s.h.tiers[ti]) && DirtyOf(s, ti) <= Mark(rb)
    requires Stored(rows, id, ti, Live(rb))
    ensures TierReady(rows, id, ti, s)
  {
    var r := s.h.tiers[ti];
    SnapshotAgrees(rb, r, DirtyOf(s, ti));
    if r.cur >= 0 {
      var ts := TierSnapOf(id, ti, s);
      forall t | Key(id, ti, t) in rows && t >= ts.floorT
        ensures exists b :: b in ts.buckets && b.t == t
      {
        var b0 :| b0 in Live(rb) && b0.t == t;
        var b1 :| b1 in Live(r) && b1.t == b0.t;
        assert b1 in ts.buckets;
      }
    } else {
      assert rb.cur < 0;
    }
  }

  /** The save lands for a series of the snapshot: its rows become its live buckets. */
  lemma LandTier(rows: Rows, snap: Snapshot, at: map<string, Series>, gone: set<string>, base: seq<RingS>, id: string, ti: nat)
    requires Shapely(at) && IsSnapshot(snap, at, gone) && gone !! at.Keys && id in at
    requires Shape(base) && Shape(at[id].h.tiers) && Follows(base, at[id]) && ti < 5 && Persisted(ti)
    requires Stored(rows, id, ti, Live(base[ti]))
    ensures Stored(SavedS(rows, snap), id, ti, Live(at[id].h.tiers[ti]))
  {
    StoredIsReady(rows, id, ti, base[ti], at[id]);
    SavedTierExactly(rows, snap, at, gone, id, ti);
  }

  lemma LandElsewhere(rows: Rows, snap: Snapshot, at: map<string, Series>, gone: set<string>, B: seq<Bucket>, id: string, ti: nat)
    requires Shapely(at) && IsSnapshot(snap, at, gone) && id !in at
    requires Stored(rows, id, ti, B)
    ensures Stored(SavedS(rows, snap), id, ti, if id in snap.deleteAgents then [] else B)
  {
    var mid := DropAgents(rows, snap.deleteAgents);
    DropAgentsRows(rows, snap.deleteAgents, id, ti);
    var B1 := if id in snap.deleteAgents then [] else B;
    if id !in snap.deleteAgents { StoredSame(rows, mid, id, ti, B); }
    SnapshotWellFormed(snap, at, gone);
    SaveTiersElsewhere(mid, snap.tiers, id, ti);
    StoredSame(mid, SavedS(rows, snap), id, ti, B1);
  }

  lemma {:induction false} LandRows(w: World, w': World, id: string)
    requires Inv(w) && Step(w, SaveLands, w') && id !in w.tainted && Shape(Base(w', id))
    ensures RowsAre(w'.rows, id, Base(w', id))
  {
    FreshShape();
    var at, snap := w.phase.at, w.phase.snap;
    var gone :| gone !! at.Keys && IsSnapshot(snap, at, gone);
    forall ti | 0 <= ti < 5 && Persisted(ti)
      ensures Stored(w'.rows, id, ti, Live(Base(w', id)[ti]))
    {
      assert Stored(w.rows, id, ti, Live(Base(w, id)[ti]));
      if id in at {
        LandTier(w.rows, snap, at, gone, Base(w, id), id, ti);
      } else {
        LandElsewhere(w.rows, snap, at, gone, Live(Base(w, id)[ti]), id, ti);
      }
    }
  }

  lemma LandBase(w: World, w': World, i: string)
    requires Inv(w) && Step(w, SaveLands, w')
    ensures Base(w', i) == if i in w.phase.at then w.phase.at[i].h.tiers
                           else if i in w.phase.snap.deleteAgents then FreshTiers() else Base(w, i)
    ensures Sized(Base(w', i)) && (i !in w.tainted ==> Shape(Base(w', i)))
  {
    FreshShape();
  }

  lemma LandSeries(w: World, w': World, i: string)
    requires Inv(w) && Step(w, SaveLands, w') && i in w.series && i !in w.tainted
    ensures Sized(Base(w', i)) && Follows(Base(w', i), w.series[i])
  {
    LandBase(w, w', i);
    if i in w.phase.at {
      LandFollows(Base(w, i), w.phase.at[i], w.series[i]);
    } else {
      assert i !in w.phase.snap.deleteAgents;
    }
  }

  lemma LandInv(w: World, w': World)
    requires Inv(w) && Step(w, SaveLands, w')
    ensures Inv(w')
  {
    forall i
      ensures Sized(Base(w', i)) && (i !in w.tainted ==> Shape(Base(w', i)) && RowsAre(w'.rows, i, Base(w', i)))
    {
      LandBase(w, w', i);
      if i !in w.tainted { LandRows(w, w', i); }
    }
    forall i | i in w.series && i !in w.tainted
      ensures Follows(Base(w', i), w.series[i])
    {
      LandSeries(w, w', i);
    }
    LandFlush(w, w');
  }

  lemma LandFlush(w: World, w': World)
    requires Inv(w) && Step(w, SaveLands, w') && forall i :: Sized(Base(w', i))
    ensures InvFlush(w')
  {
    var at, snap := w.phase.at, w.phase.snap;
    var gone :| gone !! at.Keys && IsSnapshot(snap, at, gone);
    forall a | a in snap.deleteAgents ensures a !in w'.base { }
  }

  lemma LandFollows(base: seq<RingS>, a: Series, s: Series)
    requires Shape(base) && Shape(a.h.tiers) && Shape(s.h.tiers) && Follows(base, a) && Newer(a, s)
    ensures Follows(a.h.tiers, s)
  {
    forall ti | 0 <= ti < 5
      ensures DirtyOf(s, ti) <= Mark(a.h.tiers[ti])
    {
      var rb, r := base[ti], a.h.tiers[ti];
      assert Evolves(rb, r);
      if r.cur >= 0 {
        MulLe(0, r.cur, r.res);
        if rb.cur >= 0 { MulLe(rb.cur, r.cur, r.res); }
      }
    }
  }

  /** Advancing the watermarks: they now name the last bucket saved, at which everything older is
      final. */
  lemma {:induction false} AdvanceInv(w: World, w': World)
    requires Inv(w) && Step(w, AdvanceMarks, w')
    ensures Inv(w')
  {
    var at := w.phase.at;
    forall i ensures Base(w', i) == Base(w, i) { }
    forall i | i in w'.series && i !in w.tainted
      ensures Follows(Base(w', i), w'.series[i])
    {
      assert Follows(Base(w, i), w.series[i]);
      if i in at {
        MarkedFollows(at[i], w.series[i]);
      }
    }
  }

  lemma MarkedFollows(a: Series, s: Series)
    requires Shape(a.h.tiers) && Shape(s.h.tiers) && Follows(a.h.tiers, s)
    ensures Follows(a.h.tiers, Marked(s, a))
  {
    var m := Marked(s, a);
    forall ti: nat | 0 <= ti < 5
      ensures DirtyOf(m, ti) <= Mark(a.h.tiers[ti])
    {
      assert DirtyOf(m, ti) == MarkTier(s, a, ti);
      LiveMembers(a.h.tiers[ti]);
    }
  }

  // Reloading.

  /** A table determines the bucket list it stores. */
  lemma {:induction false} RisingUnique(rows: Rows, a: string, ti: nat, B0: seq<Bucket>, B1: seq<Bucket>)
    requires Rising(B0) && Rising(B1) && SameMembers(B0, B1)
    ensures B0 == B1
  {
    if B0 == [] || B1 == [] {
      HasMember(B0);
      HasMember(B1);
    } else {
      var l0, l1 := B0[|B0| - 1], B1[|B1| - 1];
      assert B0 != [] && l0 in B1 by { assert l0 in B0; }
      assert l1 in B0 by { assert l1 in B1; }
      LastIsMax(B0, l1);
      LastIsMax(B1, l0);
      var z0, z1 := B0[..|B0| - 1], B1[..|B1| - 1];
      assert B0 == z0 + [l0] && B1 == z1 + [l1];
      var k0 :| 0 <= k0 < |B0| && B0[k0] == l1;
      assert l0 == l1;
      forall b | b in z0 ensures b in z1 { assert b in B0; DropLast(B0, b); DropLast(B1, b); }
      forall b | b in z1 ensures b in z0 { assert b in B1; DropLast(B0, b); DropLast(B1, b); }
      RisingUnique(rows, a, ti, z0, z1);
    }
  }

  lemma HasMember(B: seq<Bucket>)
    ensures B != [] ==> exists b :: b in B
  {
    if B != [] { assert B[0] in B; }
  }

  ghost predicate SameMembers(B0: seq<Bucket>, B1: seq<Bucket>) {
    (forall b :: b in B0 ==> b in B1) && (forall b :: b in B1 ==> b in B0)
  }

  lemma LastIsMax(B: seq<Bucket>, b: Bucket)
    requires Rising(B) && b in B
    ensures b.t <= B[|B| - 1].t && (b.t == B[|B| - 1].t ==> b == B[|B| - 1])
  {
    var k :| 0 <= k < |B| && B[k] == b;
  }

  lemma DropLast(B: seq<Bucket>, b: Bucket)
    requires B != [] && Rising(B) && b in B
    ensures b in B[..|B| - 1] <==> b != B[|B| - 1]
  {
    var k :| 0 <= k < |B| && B[k] == b;
    if k < |B| - 1 { assert B[..|B| - 1][k] == b; }
    if b in B[..|B| - 1] { var m :| 0 <= m < |B| - 1 && B[..|B| - 1][m] == b; }
  }

  lemma StoredUnique(rows: Rows, a: string, ti: nat, B0: seq<Bucket>, B1: seq<Bucket>)
    requires Stored(rows, a, ti, B0) && Stored(rows, a, ti, B1) && Rising(B0) && Rising(B1)
    ensures B0 == B1
  {
    forall b | b in B0 ensures b in B1 { var c :| c in B1 && c.t == b.t; }
    forall b | b in B1 ensures b in B0 { var c :| c in B0 && c.t == b.t; }
    RisingUnique(rows, a, ti, B0, B1);
  }

  lemma {:induction false} CollectSame(q: RingS, r: RingS, lo: int, hi: int)
    requires WF(q) && WF(r) && lo <= hi + 1
    requires forall i :: i >= 0 ==> (ValidS(q, i) <==> ValidS(r, i))
    requires forall i :: i >= 0 && ValidS(r, i) ==> q.buf[Pos(q, i)] == r.buf[Pos(r, i)]
    ensures Collect(q, lo, hi) == Collect(r, lo, hi)
    decreases hi - lo + 1
  {
    if lo <= hi { CollectSame(q, r, lo, hi - 1); }
  }

  /** A persisted tier reloaded from the table is the tier last saved: same newest index, same live
      buckets. */
  lemma ReloadedTier(rows: Rows, id: string, base: seq<RingS>, s: Series, ti: nat)
    requires Shape(base) && ti < 5 && Persisted(ti) && Stored(rows, id, ti, Live(base[ti])) && Reloaded(rows, id, s)
    ensures var r := s.h.tiers[ti];
      WF(r) && Late(r) && r.res == RESOLUTIONS[ti] && |r.buf| == TIERS[ti].slots
      && r.cur == base[ti].cur && Live(r) == Live(base[ti])
  {
    var rb, r := base[ti], s.h.tiers[ti];
    var B :| Stored(rows, id, ti, B) && Rising(B) && FromRows(r, ti, B);
    LiveMembers(rb);
    StoredUnique(rows, id, ti, B, Live(rb));
    RestoredLive(rb, ti, base);
  }

  lemma RestoredLive(rb: RingS, ti: nat, base: seq<RingS>)
    requires Shape(base) && ti < 5 && rb == base[ti]
    ensures var r := RestoreS(FreshTiers()[ti], Live(rb));
      WF(r) && Late(r) && r.res == RESOLUTIONS[ti] && |r.buf| == TIERS[ti].slots
      && r.cur == rb.cur && Live(r) == Live(rb)
  {
    FreshShape();
    LateEnough(base, ti);
    var e := FreshTiers()[ti];
    RestoreRoundTrip(rb, e);
    if rb.cur >= 0 {
      CollectSame(RestoreS(e, Live(rb)), rb, rb.cur - |rb.buf| + 1, rb.cur);
    }
  }

  lemma ReloadedShape(rows: Rows, id: string, base: seq<RingS>, s: Series)
    requires Shape(base) && RowsAre(rows, id, base) && Reloaded(rows, id, s)
    ensures Shape(s.h.tiers) && RowsAre(rows, id, s.h.tiers) && Follows(s.h.tiers, s)
  {
    FreshShape();
    forall ti | 0 <= ti < 5
      ensures var r := s.h.tiers[ti]; WF(r) && Late(r) && r.res == RESOLUTIONS[ti] && |r.buf| == TIERS[ti].slots
    {
      if Persisted(ti) { ReloadedTier(rows, id, base, s, ti); }
    }
    forall ti | 0 <= ti < 5 && Persisted(ti)
      ensures Stored(rows, id, ti, Live(s.h.tiers[ti]))
    {
      ReloadedTier(rows, id, base, s, ti);
    }
    forall ti | 0 <= ti < 5
      ensures Evolves(s.h.tiers[ti], s.h.tiers[ti]) && DirtyOf(s, ti) <= Mark(s.h.tiers[ti])
    {
      EvolvesRefl(s.h.tiers[ti]);
      if s.h.tiers[ti].cur >= 0 { MulLe(0, s.h.tiers[ti].cur, s.h.tiers[ti].res); }
    }
  }

  lemma ReloadedSized(rows: Rows, id: string, s: Series)
    requires Reloaded(rows, id, s)
    ensures Sized(s.h.tiers)
  {
    FreshShape();
    forall ti | 0 <= ti < 5
      ensures var r := s.h.tiers[ti]; WF(r) && r.res == RESOLUTIONS[ti] && |r.buf| == TIERS[ti].slots
    {
      if Persisted(ti) {
        var B :| Stored(rows, id, ti, B) && Rising(B) && FromRows(s.h.tiers[ti], ti, B);
      }
    }
  }

  lemma NoRowsStored(rows: Rows, id: string)
    requires !HasRows(rows, id)
    ensures Sized(FreshTiers()) && RowsAre(rows, id, FreshTiers())
  {
    FreshShape();
  }

  lemma RestartInv(w: World, w': World)
    requires Inv(w) && Step(w, Restart, w')
    ensures Inv(w')
  {
    FreshShape();
    forall i | i in w'.series
      ensures Sized(w'.series[i].h.tiers)
      ensures i !in w.tainted ==>
                Shape(w'.series[i].h.tiers) && RowsAre(w'.rows, i, w'.series[i].h.tiers)
                && Follows(w'.series[i].h.tiers, w'.series[i])
    {
      ReloadedSized(w.rows, i, w'.series[i]);
      if i !in w.tainted { ReloadedShape(w.rows, i, Base(w, i), w'.series[i]); }
    }
    forall i | i !in w'.series
      ensures RowsAre(w'.rows, i, FreshTiers())
    {
      NoRowsStored(w.rows, i);
    }
  }

  lemma StepInv(w: World, e: Event, w': World)
    requires Inv(w) && Step(w, e, w')
    ensures Inv(w')
  {
    match e
    case Sample(id, x, victim) =>
      if id in w.series { SampleKnownInv(w, id, x, w'); } else { SampleNewInv(w, id, x, victim, w'); }
    case TakeSnapshot(snap) => SnapshotInv(w, snap, w');
    case SaveFails => forall i ensures Base(w', i) == Base(w, i) { }
    case SaveLands => LandInv(w, w');
    case AdvanceMarks => AdvanceInv(w, w');
    case Restart => RestartInv(w, w');
  }

  /** ws is a run: it starts fresh and each world comes from the one before by some event. */
  ghost predicate IsRun(ws: seq<World>, es: seq<Event>) {
    && |ws| == |es| + 1 && Init(ws[0])
    && forall k :: 0 <= k < |es| ==>
         && Shapely(ws[k].series) && (ws[k].phase.Landed? ==> Shapely(ws[k].phase.at))
         && Step(ws[k], es[k], ws[k + 1])
  }

  lemma {:induction false} RunInv(ws: seq<World>, es: seq<Event>, n: nat)
    requires IsRun(ws, es) && n < |ws|
    ensures Inv(ws[n])
  {
    if n == 0 {
      InitInv(ws[0]);
    } else {
      RunInv(ws, es, n - 1);
      StepInv(ws[n - 1], es[n - 1], ws[n]);
    }
  }

  /** The incremental save is the full save. In every run, whatever mix of samples, evictions,
      failed saves, samples taken while a save is under way, and restarts: once a save has landed,
      the stored rows of the global series' persisted tiers are exactly the buckets that were valid
      when the snapshot was taken, though only rows at or after the watermark were written. The
      same holds for every agent that never came back while its old rows awaited deletion. */
  lemma SaveIsFull(ws: seq<World>, es: seq<Event>, n: nat, id: string, ti: nat)
    requires IsRun(ws, es) && n < |ws| && ws[n].phase.Landed? && Persisted(ti)
    requires id == "" || id !in ws[n].tainted
    ensures Shapely(ws[n].phase.at) && "" in ws[n].phase.at
    ensures id in ws[n].phase.at ==> Stored(ws[n].rows, id, ti, Live(ws[n].phase.at[id].h.tiers[ti]))
  {
    RunInv(ws, es, n);
    if id in ws[n].phase.at {
      assert RowsAre(ws[n].rows, id, Base(ws[n], id));
    }
  }

  /** When it is, exactly, for every series in every run, agents that came back included: a landing
      save leaves just the live buckets if and only if the table was ready for it. A series without a
      watermark, as an agent's is when it comes back, rewrites all that is live, so for it that means
      that no row from the window's floor on is at a time its new history does not hold. */
  lemma SaveIsFullExactly(ws: seq<World>, es: seq<Event>, n: nat, id: string, ti: nat)
    requires IsRun(ws, es) && n < |es| && es[n] == SaveLands && Persisted(ti)
    requires ws[n].phase.Saving? && id in ws[n].phase.at
    ensures ti < |ws[n].phase.at[id].h.tiers| && WF(ws[n].phase.at[id].h.tiers[ti])
    ensures var s := ws[n].phase.at[id];
      && (Stored(ws[n + 1].rows, id, ti, Live(s.h.tiers[ti])) <==> TierReady(ws[n].rows, id, ti, s))
      && (s.h.tiers[ti].cur >= 0 && DirtyOf(s, ti) <= 0 ==>
            (TierReady(ws[n].rows, id, ti, s) <==> NoStray(ws[n].rows, TierSnapOf(id, ti, s))))
  {
    RunInv(ws, es, n);
    var at, snap := ws[n].phase.at, ws[n].phase.snap;
    var gone :| gone !! at.Keys && IsSnapshot(snap, at, gone);
    SavedTierExactly(ws[n].rows, snap, at, gone, id, ti);
    NothingBelowZero(at[id].h.tiers[ti]);
  }

  /** What a flush gains: the watermark then stands at the start of the newest bucket it saved, so that
      older ones are not written again; a tier without data keeps the mark it had. */
  lemma {:induction false} MarkedExactly(ws: seq<World>, es: seq<Event>, n: nat, id: string, ti: nat)
    requires IsRun(ws, es) && n < |es| && es[n] == AdvanceMarks && ws[n].phase.Landed? && Persisted(ti)
    requires id in ws[n].phase.at && id in ws[n].series && id !in ws[n].tainted
    ensures id in ws[n + 1].series && ti < |ws[n].phase.at[id].h.tiers|
    ensures var r := ws[n].phase.at[id].h.tiers[ti];
      DirtyOf(ws[n + 1].series[id], ti) == if r.cur >= 0 then r.cur * r.res else DirtyOf(ws[n].series[id], ti)
  {
    RunInv(ws, es, n);
    var r := ws[n].phase.at[id].h.tiers[ti];
    assert Late(r);
    LiveMembers(r);
  }

  /** The series is tracked throughout, and no flush finishes and nothing restarts. */
  ghost predicate Undisturbed(ws: seq<World>, es: seq<Event>, n: nat, m: nat, id: string)
    requires n <= m < |ws| == |es| + 1
  {
    && (forall k :: n <= k <= m ==> id in ws[k].series)
    && (forall k :: n <= k < m ==> !es[k].AdvanceMarks? && !es[k].Restart?)
  }

  lemma {:induction false} MarkStays(ws: seq<World>, es: seq<Event>, n: nat, m: nat, id: string)
    requires IsRun(ws, es) && n <= m < |ws| && Undisturbed(ws, es, n, m, id)
    ensures ws[m].series[id].dirty == ws[n].series[id].dirty
    decreases m
  {
    if n < m {
      MarkStays(ws, es, n, m - 1, id);
      DirtyStep(ws[m - 1], es[m - 1], ws[m], id);
    }
  }

  lemma DirtyStep(w: World, e: Event, w1: World, id: string)
    requires Shapely(w.series) && (w.phase.Landed? ==> Shapely(w.phase.at)) && Step(w, e, w1)
    requires id in w.series && id in w1.series && !e.AdvanceMarks? && !e.Restart?
    ensures w1.series[id].dirty == w.series[id].dirty
  {
  }

  /** So the next save writes, of a tier saved before, only the bucket that was current then and later
      ones, whatever samples and failed saves come in between. */
  lemma {:induction false} NextSaveStartsThere(ws: seq<World>, es: seq<Event>, n: nat, m: nat, snap: Snapshot, k: nat)
    requires IsRun(ws, es) && n < m < |es| && es[n] == AdvanceMarks && ws[n].phase.Landed? && es[m] == TakeSnapshot(snap)
    requires k < |snap.tiers| && snap.tiers[k].agent in ws[n].phase.at && snap.tiers[k].agent !in ws[n].tainted
    requires snap.tiers[k].agent in ws[n].series && Undisturbed(ws, es, n + 1, m, snap.tiers[k].agent)
    ensures Persisted(snap.tiers[k].tier) && snap.tiers[k].tier < |ws[n].phase.at[snap.tiers[k].agent].h.tiers|
    ensures var r := ws[n].phase.at[snap.tiers[k].agent].h.tiers[snap.tiers[k].tier];
      r.cur >= 0 ==> snap.tiers[k].dirtyFromT == r.cur * r.res
  {
    var id, ti := snap.tiers[k].agent, snap.tiers[k].tier;
    assert Step(ws[m], es[m], ws[m + 1]);
    EntryTaken(ws[m], snap, ws[m + 1], k);
    MarkedExactly(ws, es, n, id, ti);
    MarkStays(ws, es, n + 1, m, id);
    DirtySame(ws[n + 1].series[id], ws[m].series[id], ti);
  }

  lemma EntryTaken(w: World, snap: Snapshot, w1: World, k: nat)
    requires Shapely(w.series) && (w.phase.Landed? ==> Shapely(w.phase.at)) && Step(w, TakeSnapshot(snap), w1)
    requires k < |snap.tiers|
    ensures Persisted(snap.tiers[k].tier) && snap.tiers[k].agent in w.series
    ensures snap.tiers[k].dirtyFromT == DirtyOf(w.series[snap.tiers[k].agent], snap.tiers[k].tier)
  {
  }

  lemma DirtySame(s: Series, s1: Series, ti: nat)
    requires s.dirty == s1.dirty
    ensures DirtyOf(s, ti) == DirtyOf(s1, ti)
  {
  }

  lemma NothingBelowZero(r: RingS)
    requires WF(r)
    ensures forall b :: b in Live(r) ==> b.t >= 0
  {
    LiveMembers(r);
  }

  /** Between saves too, the table holds exactly what was live at the last save or reload, for the
      global series and every agent but those that came back while their deletion was pending; and a
      restart gets each of these series back bucket for bucket, those without data excepted. */
  lemma RestartRecovers(ws: seq<World>, es: seq<Event>, n: nat, id: string, ti: nat)
    requires IsRun(ws, es) && n + 1 < |ws| && es[n] == Restart && Persisted(ti)
    requires id == "" || id !in ws[n].tainted
    ensures Sized(Base(ws[n], id)) && Shapely(ws[n + 1].series) && "" in ws[n + 1].series
    ensures Stored(ws[n].rows, id, ti, Live(Base(ws[n], id)[ti]))
    ensures id in ws[n + 1].series ==>
      && ws[n + 1].series[id].h.tiers[ti].cur == Base(ws[n], id)[ti].cur
      && Live(ws[n + 1].series[id].h.tiers[ti]) == Live(Base(ws[n], id)[ti])
    ensures id !in ws[n + 1].series ==> Live(Base(ws[n], id)[ti]) == []
  {
    RunInv(ws, es, n);
    RunInv(ws, es, n + 1);
    assert RowsAre(ws[n].rows, id, Base(ws[n], id));
    if id in ws[n + 1].series {
      ReloadedTier(ws[n].rows, id, Base(ws[n], id), ws[n + 1].series[id], ti);
    } else {
      NoRowsNoBuckets(ws[n].rows, id, ti, Live(Base(ws[n], id)[ti]));
    }
  }

  lemma NoRowsNoBuckets(rows: Rows, id: string, ti: nat, B: seq<Bucket>)
    requires Stored(rows, id, ti, B)
    ensures B != [] ==> HasRows(rows, id)
  {
    if B != [] { assert B[0] in B && Key(id, ti, B[0].t) in rows; }
  }

  /** Why the agents need that condition: an agent evicted and sampled again before the next save
      cancels the pending deletion, and a save then leaves every one of its old rows in the table
      although its history is empty. */
  lemma ReturningAgentKeepsStaleRows(
    w: World, id: string, x: Reading, victim: string, w1: World, snap: Snapshot, w2: World, w3: World, k: Key)
    requires Inv(w) && w.phase.Idle? && id in w.evicted && k in w.rows && k.agent == id
    requires Step(w, Sample(id, x, victim), w1) && Shapely(w1.series)
    requires Step(w1, TakeSnapshot(snap), w2) && Shapely(w2.series) && Step(w2, SaveLands, w3)
    ensures k in w3.rows && w3.phase == Landed(snap, w1.series)
    ensures id in w1.series && Empty(w1.series[id])
  {
    ReturnsEmpty(w, id, x, victim, w1);
    EmptyKeepsRow(w1.rows, snap, w1.series, w1.evicted, k);
  }

  ghost predicate Empty(s: Series) {
    forall ti :: 0 <= ti < |s.h.tiers| ==> s.h.tiers[ti].cur < 0
  }

  lemma ReturnsEmpty(w: World, id: string, x: Reading, victim: string, w1: World)
    requires Inv(w) && id in w.evicted && Step(w, Sample(id, x, victim), w1)
    ensures w1.rows == w.rows && w1.phase == w.phase && id !in w1.evicted
    ensures id in w1.series && Empty(w1.series[id])
  {
    FreshShape();
    assert id !in w.series;
  }

  lemma EmptyKeepsRow(rows: Rows, snap: Snapshot, at: map<string, Series>, gone: set<string>, k: Key)
    requires Shapely(at) && IsSnapshot(snap, at, gone) && k in rows
    requires k.agent !in gone && k.agent in at && Empty(at[k.agent])
    ensures k in SavedS(rows, snap)
  {
    var mid := DropAgents(rows, snap.deleteAgents);
    DropAgentsRows(rows, snap.deleteAgents, k.agent, k.tier);
    assert k == Key(k.agent, k.tier, k.t);
    assert k in mid;
    SnapshotWellFormed(snap, at, gone);
    SaveTiersElsewhere(mid, snap.tiers, k.agent, k.tier);
  }
}
