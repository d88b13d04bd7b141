/** A run that ends with rows no ring holds (internal/stats/stats.go:496-581, 341-378): an agent is
    saved, crowded out, sampled again before the next flush, and flushed. From the initial world. */
module ReturningAgent {
  import opened Arith
  import opened Buckets
  import opened Rings
  import opened Ladder
  import opened Histories
  import opened Snapshots
  import opened SaveTable
  import opened FlushRuns

  const AGENT: string := "a"

  ghost predicate Reached(w: World) {
    exists ws, es :: IsRun(ws, es) && ws[|es|] == w
  }

  /** What a world must be for its steps to be defined. */
  ghost predicate Steady(w: World) {
    Shapely(w.series) && (w.phase.Landed? ==> Shapely(w.phase.at))
  }

  lemma ReachedInv(w: World)
    requires Reached(w)
    ensures Inv(w)
  {
    var ws, es :| IsRun(ws, es) && ws[|es|] == w;
    RunInv(ws, es, |es|);
  }

  lemma ReachedSteady(w: World)
    requires Reached(w)
    ensures Steady(w)
  {
    ReachedInv(w);
  }

  lemma RunExtends(ws: seq<World>, es: seq<Event>, e: Event, w1: World)
    requires IsRun(ws, es) && Steady(ws[|es|]) && Step(ws[|es|], e, w1)
    ensures IsRun(ws + [w1], es + [e])
  {
    var vs, ds := ws + [w1], es + [e];
    forall k | 0 <= k < |ds|
      ensures Steady(vs[k]) && Step(vs[k], ds[k], vs[k + 1])
    {
      assert vs[k] == ws[k];
      if k < |es| { assert ds[k] == es[k] && vs[k + 1] == ws[k + 1]; }
    }
  }

  lemma ReachedStep(w: World, e: Event, w1: World)
    requires Reached(w) && Steady(w) && Step(w, e, w1)
    ensures Reached(w1) && Steady(w1)
  {
    var ws, es :| IsRun(ws, es) && ws[|es|] == w;
    RunExtends(ws, es, e, w1);
    var vs, ds := ws + [w1], es + [e];
    assert IsRun(vs, ds) && vs[|ds|] == w1;
    ReachedSteady(w1);
  }

  function At(t: int): Reading { Reading(t, 0, 0, 0, 0, 0.0, 0.0) }

  /** The tiers that hold data are exactly those below n. */
  ghost predicate Filled(ts: seq<RingS>, n: nat) {
    |ts| == 5 && forall k :: 0 <= k < 5 ==> (ts[k].cur >= 0 <==> k < n)
  }

  // ------------------------------------------------------------------------------------------
  // Four readings a second apart fill the three finest tiers.

  lemma OwnTime(r: RingS)
    requires WF(r) && Late(r) && r.cur >= 0
    ensures CurBucket(r).t == r.cur * r.res
  {
  }

  lemma {:induction false} FirstPoint(ts: seq<RingS>, b: Bucket)
    requires Shape(ts) && Filled(ts, 0) && b.t == LATE + 1000
    ensures Filled(AddS(ts, b), 1) && AddS(ts, b)[0].cur == 950_400_010
  {
  }

  /** A point newer than the first tier's current bucket fills the second. */
  lemma {:induction false} AddTwo(ts: seq<RingS>, b: Bucket)
    requires |ts| == 5 && AllWF(ts) && b.t >= 0 && Filled(ts, 1) && IdxOf(b, ts[0].res) > ts[0].cur
    ensures Filled(AddS(ts, b), 2)
    ensures AddS(ts, b)[0].cur == IdxOf(b, ts[0].res) && AddS(ts, b)[1].cur == IdxOf(CurBucket(ts[0]), ts[1].res)
  {
    AddUnfolds(ts[0], ts[1..], b);
    assert ts == [ts[0]] + ts[1..];
    AddUnfolds(ts[1], ts[2..], CurBucket(ts[0]));
    assert ts[1..] == [ts[1]] + ts[2..];
    PutFills(ts[0], b);
    PutFills(ts[1], CurBucket(ts[0]));
  }

  lemma {:induction false} SecondPoint(ts: seq<RingS>, b: Bucket)
    requires Shape(ts) && Filled(ts, 1) && ts[0].cur == 950_400_010 && b.t == LATE + 2000
    ensures var q := AddS(ts, b); Filled(q, 2) && q[0].cur == 950_400_020 && q[1].cur == 95_040_001
  {
    OwnTime(ts[0]);
    assert IdxOf(b, ts[0].res) == 950_400_020 && IdxOf(CurBucket(ts[0]), ts[1].res) == 95_040_001;
    AddTwo(ts, b);
  }

  /** A point newer than both current buckets fills the third. */
  lemma {:induction false} AddThree(ts: seq<RingS>, b: Bucket)
    requires |ts| == 5 && AllWF(ts) && b.t >= 0 && Filled(ts, 2)
    requires IdxOf(b, ts[0].res) > ts[0].cur && IdxOf(CurBucket(ts[0]), ts[1].res) > ts[1].cur
    ensures Filled(AddS(ts, b), 3)
  {
    AddUnfolds(ts[0], ts[1..], b);
    assert ts == [ts[0]] + ts[1..];
    AddUnfolds(ts[1], ts[2..], CurBucket(ts[0]));
    assert ts[1..] == [ts[1]] + ts[2..];
    AddUnfolds(ts[2], ts[3..], CurBucket(ts[1]));
    assert ts[2..] == [ts[2]] + ts[3..];
    PutFills(ts[0], b);
    PutFills(ts[1], CurBucket(ts[0]));
    PutFills(ts[2], CurBucket(ts[1]));
  }

  lemma {:induction false} PutFills(r: RingS, b: Bucket)
    requires WF(r) && b.t >= 0
    ensures PutS(r, b).cur >= 0
  {
    DivMono(0, b.t, r.res);
  }

  lemma {:induction false} ThirdPoint(ts: seq<RingS>, b: Bucket)
    requires Shape(ts) && Filled(ts, 2) && ts[0].cur == 950_400_020 && ts[1].cur == 95_040_001 && b.t == LATE + 3000
    ensures Filled(AddS(ts, b), 3)
  {
    OwnTime(ts[0]);
    assert IdxOf(b, ts[0].res) == 950_400_030 && IdxOf(CurBucket(ts[0]), ts[1].res) == 95_040_002;
    AddThree(ts, b);
  }

  /** The series after its first n of the four readings. */
  function Fed(n: nat): (s: Series)
    requires n <= 4
    ensures Sized(s.h.tiers)
  {
    FreshShape();
    if n == 0 then FreshSeries()
    else
      SampledNewer(Fed(n - 1), At(LATE + 1000 * (n - 1)));
      Sampled(Fed(n - 1), At(LATE + 1000 * (n - 1)))
  }

  lemma {:induction false} FedClock(n: nat)
    requires n <= 4
    ensures Shape(Fed(n).h.tiers) && Fed(n).dirty == map[] && Fed(n).h.baselined == (n > 0)
    ensures n > 0 ==> Fed(n).h.lastT == Fed(n).h.touched == LATE + 1000 * (n - 1)
    ensures Fed(n).h.lastIn == 0 && Fed(n).h.lastOut == 0
  {
    FreshShape();
    if n > 0 {
      FedClock(n - 1);
      SampledNewer(Fed(n - 1), At(LATE + 1000 * (n - 1)));
    }
  }

  function PointAfter(n: nat): (b: Bucket)
    requires 1 <= n <= 3
    ensures b.t == LATE + 1000 * n
  {
    PointOf(At(LATE + 1000 * n), LATE + 1000 * (n - 1), 0, 0)
  }

  lemma {:induction false} FedTiers(n: nat)
    requires n <= 3
    ensures Fed(n + 1).h.tiers == if n == 0 then FreshTiers() else AddS(Fed(n).h.tiers, PointAfter(n))
  {
    FedClock(n);
  }

  lemma FedFills()
    ensures Filled(Fed(4).h.tiers, 3) && Shape(Fed(4).h.tiers)
  {
    FedClock(1);
    FedClock(2);
    FedClock(3);
    FedClock(4);
    FedTiers(0);
    FedTiers(1);
    FedTiers(2);
    FedTiers(3);
    FirstPoint(Fed(1).h.tiers, PointAfter(1));
    SecondPoint(Fed(2).h.tiers, PointAfter(2));
    ThirdPoint(Fed(3).h.tiers, PointAfter(3));
  }

  // ------------------------------------------------------------------------------------------
  // The agent is sampled, and one flush saves it.

  function Alone(n: nat): World
    requires n <= 4
  {
    World(if n == 0 then map["" := FreshSeries()] else map["" := FreshSeries(), AGENT := Fed(n)], {}, map[], Idle, map[], {})
  }

  lemma {:induction false} AloneStep(n: nat)
    requires n < 4
    ensures Step(Alone(n), Sample(AGENT, At(LATE + 1000 * n), ""), Alone(n + 1))
  {
    FreshShape();
    assert Alone(n + 1).series == Alone(n).series[AGENT := Fed(n + 1)];
    if n == 0 {
      assert |Alone(0).series| == 1;
    }
  }

  lemma FirstReached()
    ensures Reached(Alone(0)) && Steady(Alone(0))
  {
    var es: seq<Event> := [];
    assert IsRun([Alone(0)], es) && [Alone(0)][|es|] == Alone(0);
    ReachedSteady(Alone(0));
  }

  lemma {:induction false} AloneNext(n: nat)
    requires n < 4 && Reached(Alone(n)) && Steady(Alone(n))
    ensures Reached(Alone(n + 1)) && Steady(Alone(n + 1))
  {
    AloneStep(n);
    ReachedStep(Alone(n), Sample(AGENT, At(LATE + 1000 * n), ""), Alone(n + 1));
  }

  lemma AloneReached()
    ensures Reached(Alone(4)) && Steady(Alone(4))
  {
    FirstReached();
    AloneNext(0);
    AloneNext(1);
    AloneNext(2);
    AloneNext(3);
  }

  // The three steps of a flush.

  function Snapped(w: World, snap: Snapshot): World {
    w.(phase := Saving(snap, w.series))
  }

  function Saved(w: World): World
    requires w.phase.Saving?
  {
    w.(rows := SavedS(w.rows, w.phase.snap), phase := Landed(w.phase.snap, w.phase.at),
       base := (w.base - (set a | a in w.phase.snap.deleteAgents)) + (map id | id in w.phase.at :: w.phase.at[id].h.tiers))
  }

  ghost function Settled(w: World): World
    requires w.phase.Landed? && Shapely(w.phase.at)
  {
    w.(phase := Idle,
       evicted := w.evicted - (set a | a in w.phase.snap.deleteAgents),
       series := map id | id in w.series ::
         if id in w.phase.at then Marked(w.series[id], w.phase.at[id]) else w.series[id])
  }

  lemma FlushReached(w: World, snap: Snapshot)
    requires Reached(w) && Steady(w) && w.phase.Idle? && IsSnapshot(snap, w.series, w.evicted)
    ensures Reached(Saved(Snapped(w, snap))) && Steady(Saved(Snapped(w, snap)))
  {
    ReachedStep(w, TakeSnapshot(snap), Snapped(w, snap));
    ReachedStep(Snapped(w, snap), SaveLands, Saved(Snapped(w, snap)));
  }

  lemma SettledReached(w: World)
    requires Reached(w) && Steady(w) && w.phase.Landed?
    ensures Reached(Settled(w)) && Steady(Settled(w))
  {
    ReachedStep(w, AdvanceMarks, Settled(w));
  }

  function FirstSnapshot(): Snapshot {
    Snapshot([TierSnapOf(AGENT, 2, Fed(4))], [])
  }

  lemma {:induction false} FirstIsSnapshot()
    ensures Shapely(Alone(4).series) && IsSnapshot(FirstSnapshot(), Alone(4).series, {})
  {
    FedFills();
    FreshShape();
    var snap := FirstSnapshot();
    assert snap.tiers[0] == TierSnapOf(AGENT, 2, Fed(4));
    assert Mentions(snap.tiers, AGENT, 2) by { assert snap.tiers[0].agent == AGENT && snap.tiers[0].tier == 2; }
    forall id, ti: nat | id in Alone(4).series && Persisted(ti) && Alone(4).series[id].h.tiers[ti].cur >= 0
      ensures Mentions(snap.tiers, id, ti)
    {
      assert id == AGENT && ti == 2;
    }
  }

  /** The agent's history has data in three tiers, the table a row of it, and nothing is pending.
      Every other series is empty, was sampled later, and has a name shorter than j + 2. */
  ghost predicate Crowded(w: World, k: Key, j: nat) {
    && Reached(w) && w.phase.Idle? && w.evicted == {}
    && k in w.rows && k.agent == AGENT && k.tier == 2
    && AGENT in w.series && w.series[AGENT].h.touched == LATE + 3000
    && Others(w.series, {AGENT}) && |w.series| == j + 2
    && forall id :: id in w.series ==> |id| < j + 2
  }

  /** Every series outside the set is empty and, the global one aside, was sampled at LATE + 10000. */
  ghost predicate Others(series: map<string, Series>, but: set<string>) {
    forall id :: id in series && id !in but ==> Empty(series[id]) && (id != "" ==> series[id].h.touched == LATE + 10000)
  }

  lemma SavedOnce() returns (w: World, k: Key)
    ensures Crowded(w, k, 0)
  {
    AloneReached();
    FirstIsSnapshot();
    FlushReached(Alone(4), FirstSnapshot());
    var w2 := Saved(Snapped(Alone(4), FirstSnapshot()));
    k := RowOfAgent(w2);
    w := Settled(w2);
    SettledReached(w2);
    SettledCrowd(w2, k);
  }

  lemma {:induction false} SettledCrowd(w: World, k: Key)
    requires w.phase.Landed? && Steady(w) && w.evicted == {} && w.series == Alone(4).series
    requires k in w.rows && k.agent == AGENT && k.tier == 2 && Reached(Settled(w))
    ensures Crowded(Settled(w), k, 0)
  {
    FreshShape();
    FedClock(4);
    var q := Settled(w).series;
    assert q.Keys == {"", AGENT};
    assert |q| == |q.Keys| == 2;
  }

  lemma LandedStored(w: World, id: string, ti: nat)
    requires Reached(w) && w.phase.Landed? && id !in w.tainted && id in w.phase.at && Persisted(ti)
    ensures Shapely(w.phase.at) && Stored(w.rows, id, ti, Live(w.phase.at[id].h.tiers[ti]))
  {
    var ws, es :| IsRun(ws, es) && ws[|es|] == w;
    SaveIsFull(ws, es, |es|, id, ti);
  }

  lemma LiveRow(rows: Rows, id: string, ti: nat, r: RingS) returns (k: Key)
    requires WF(r) && OwnsCur(r) && r.cur >= 0 && Stored(rows, id, ti, Live(r))
    ensures k in rows && k.agent == id && k.tier == ti
  {
    LiveMembers(r);
    k := Key(id, ti, Live(r)[0].t);
    assert Live(r)[0] in Live(r);
  }

  lemma RowOfAgent(w: World) returns (k: Key)
    requires Reached(w) && w.phase.Landed? && w.tainted == {}
    requires AGENT in w.phase.at && w.phase.at[AGENT] == Fed(4)
    ensures k in w.rows && k.agent == AGENT && k.tier == 2
  {
    FedFills();
    LandedStored(w, AGENT, 2);
    k := LiveRow(w.rows, AGENT, 2, Fed(4).h.tiers[2]);
  }

  // ------------------------------------------------------------------------------------------
  // Others crowd in until the agent, sampled longest ago, is dropped.

  function Name(j: nat): (s: string)
    ensures |s| == j + 2
  {
    seq(j + 2, _ => 'b')
  }

  function Newcomer(): Series
  {
    FreshShape();
    Sampled(FreshSeries(), At(LATE + 10000))
  }

  lemma NewcomerEmpty()
    ensures Empty(Newcomer()) && Newcomer().h.touched == LATE + 10000
  {
  }

  lemma Crowd(w: World, k: Key, j: nat) returns (w1: World)
    requires Crowded(w, k, j) && j < 31
    ensures Crowded(w1, k, j + 1)
  {
    ReachedSteady(w);
    NewcomerEmpty();
    w1 := w.(series := w.series[Name(j) := Newcomer()]);
    assert Name(j) !in w.series;
    ReachedStep(w, Sample(Name(j), At(LATE + 10000), ""), w1);
  }

  lemma {:induction false} CrowdAll(j: nat) returns (w: World, k: Key)
    requires j <= 31
    ensures Crowded(w, k, j)
  {
    if j == 0 {
      w, k := SavedOnce();
    } else {
      var w0;
      w0, k := CrowdAll(j - 1);
      w := Crowd(w0, k, j - 1);
    }
  }

  lemma CrowdedOut() returns (w: World, k: Key)
    ensures Reached(w) && w.phase.Idle? && w.evicted == {AGENT} && Others(w.series, {})
    ensures AGENT !in w.series && k in w.rows && k.agent == AGENT && k.tier == 2
    ensures exists v :: Oldest(w.series, v)
  {
    var w0;
    w0, k := CrowdAll(31);
    ReachedSteady(w0);
    NewcomerEmpty();
    assert Oldest(w0.series, AGENT);
    var kept := w0.series - {AGENT};
    w := w0.(series := kept[Name(31) := Newcomer()], evicted := {AGENT});
    assert Name(31) !in w0.series;
    ReachedStep(w0, Sample(Name(31), At(LATE + 10000), AGENT), w);
    assert Oldest(w.series, Name(31));
  }

  // ------------------------------------------------------------------------------------------

  /** That an agent's save can fall short is not a matter of an assumed state: this run, in which no
      save fails and nothing restarts, ends with a landed save whose snapshot has the agent, and
      with rows in the table that are not what the agent's history holds. */
  lemma ReturningAgentRun()
    ensures exists ws, es :: IsRun(ws, es) && FallsShort(ws[|es|])
  {
    var w, k := CrowdedOut();
    ReachedSteady(w);
    var victim :| Oldest(w.series, victim);
    var x := At(LATE + 20000);
    var w1 := Returned(w, x, victim);
    ReachedStep(w, Sample(AGENT, x, victim), w1);
    var snap := Snapshot([], if |w.series| - 1 >= MAX_AGENTS then [victim] else []);
    ReturnedSnapshot(w, x, victim, snap);
    FlushReached(w1, snap);
    var w3 := Saved(Snapped(w1, snap));
    EmptyKeepsRow(w1.rows, snap, w1.series, w1.evicted, k);
    ShortByOne(w3, k);
  }

  /** The landed save left something else than the agent's live buckets. */
  ghost predicate FallsShort(w: World) {
    && w.phase.Landed? && AGENT in w.phase.at && Sized(w.phase.at[AGENT].h.tiers)
    && !Stored(w.rows, AGENT, 2, Live(w.phase.at[AGENT].h.tiers[2]))
  }

  function Returned(w: World, x: Reading, victim: string): World
    requires x.t >= LATE
  {
    FreshShape();
    var full := |w.series| - 1 >= MAX_AGENTS;
    var kept := if full then w.series - {victim} else w.series;
    var gone := if full then w.evicted + {victim} else w.evicted;
    w.(series := kept[AGENT := Sampled(FreshSeries(), x)], evicted := gone - {AGENT}, tainted := w.tainted + {AGENT})
  }

  lemma {:induction false} ReturnedSnapshot(w: World, x: Reading, victim: string, snap: Snapshot)
    requires Steady(w) && w.evicted == {AGENT} && Others(w.series, {}) && x.t >= LATE && Oldest(w.series, victim)
    requires AGENT !in w.series
    requires snap == Snapshot([], if |w.series| - 1 >= MAX_AGENTS then [victim] else [])
    ensures var w1 := Returned(w, x, victim);
      Shapely(w1.series) && IsSnapshot(snap, w1.series, w1.evicted) && Empty(w1.series[AGENT])
  {
    FreshShape();
  }

  lemma ShortByOne(w: World, k: Key)
    requires Steady(w) && w.phase.Landed? && AGENT in w.phase.at && Empty(w.phase.at[AGENT])
    requires k in w.rows && k.agent == AGENT && k.tier == 2
    ensures FallsShort(w)
  {
    assert k == Key(AGENT, 2, k.t);
  }
}
