/** The rrd table and one save landing in it (internal/analytics/statspersist.go:82-146), as a map
    keyed by (agent, tier, bucket start) changed in one transaction. */
module SaveTable {
  import opened Buckets
  import opened Snapshots

  datatype Key = Key(agent: string, tier: nat, t: int)

  /** One persisted tier of one series in a snapshot. */
  datatype TierSnap = TierSnap(agent: string, tier: nat, floorT: int, dirtyFromT: int, buckets: seq<Bucket>)

  datatype Snapshot = Snapshot(tiers: seq<TierSnap>, deleteAgents: seq<string>)

  type Rows = map<Key, Bucket>

  function DropAgent(rows: Rows, a: string): Rows {
    map k | k in rows && k.agent != a :: rows[k]
  }

  function DropAgents(rows: Rows, gone: seq<string>): Rows {
    if gone == [] then rows else DropAgent(DropAgents(rows, gone[..|gone| - 1]), gone[|gone| - 1])
  }

  /** DELETE ... WHERE agent_id = a AND tier = ti AND t < floor. */
  function Expire(rows: Rows, a: string, ti: nat, floor: int): Rows {
    map k | k in rows && !(k.agent == a && k.tier == ti && k.t < floor) :: rows[k]
  }

  /** INSERT OR REPLACE each bucket at or after the watermark. */
  function Upsert(rows: Rows, a: string, ti: nat, dirty: int, B: seq<Bucket>): Rows {
    if B == [] then rows
    else
      var b := B[|B| - 1];
      var q := Upsert(rows, a, ti, dirty, B[..|B| - 1]);
      if b.t < dirty then q else q[Key(a, ti, b.t) := b]
  }

  function SaveTier(rows: Rows, ts: TierSnap): Rows {
    Upsert(Expire(rows, ts.agent, ts.tier, ts.floorT), ts.agent, ts.tier, ts.dirtyFromT, ts.buckets)
  }

  function SaveTiers(rows: Rows, tiers: seq<TierSnap>): Rows {
    if tiers == [] then rows else SaveTier(SaveTiers(rows, tiers[..|tiers| - 1]), tiers[|tiers| - 1])
  }

  function SavedS(rows: Rows, snap: Snapshot): Rows {
    SaveTiers(DropAgents(rows, snap.deleteAgents), snap.tiers)
  }

  /** The rows of series (a, ti) are exactly the buckets B, keyed by their start. */
  ghost predicate Stored(rows: Rows, a: string, ti: nat, B: seq<Bucket>) {
    && (forall b :: b in B ==> Key(a, ti, b.t) in rows && rows[Key(a, ti, b.t)] == b)
    && (forall t :: Key(a, ti, t) in rows ==> exists b :: b in B && b.t == t)
  }

  /** The two tables agree on series (a, ti). */
  ghost predicate SameSeries(r0: Rows, r1: Rows, a: string, ti: nat) {
    forall t :: (Key(a, ti, t) in r0 <==> Key(a, ti, t) in r1)
             && (Key(a, ti, t) in r0 ==> r0[Key(a, ti, t)] == r1[Key(a, ti, t)])
  }

  lemma {:induction false} UpsertRow(rows: Rows, a: string, ti: nat, dirty: int, B: seq<Bucket>)
    requires Rising(B)
    ensures forall k: Key :: k.agent != a || k.tier != ti ==>
              (k in Upsert(rows, a, ti, dirty, B) <==> k in rows) && (k in rows ==> Upsert(rows, a, ti, dirty, B)[k] == rows[k])
    ensures forall b :: b in B && b.t >= dirty ==>
              Key(a, ti, b.t) in Upsert(rows, a, ti, dirty, B) && Upsert(rows, a, ti, dirty, B)[Key(a, ti, b.t)] == b
    ensures forall t :: (forall b :: b in B && b.t >= dirty ==> b.t != t) ==>
              (Key(a, ti, t) in Upsert(rows, a, ti, dirty, B) <==> Key(a, ti, t) in rows)
              && (Key(a, ti, t) in rows ==> Upsert(rows, a, ti, dirty, B)[Key(a, ti, t)] == rows[Key(a, ti, t)])
  {
    if B != [] {
      var z := B[..|B| - 1];
      var l := B[|B| - 1];
      UpsertRow(rows, a, ti, dirty, z);
      assert B == z + [l];
      forall b | b in B && b.t >= dirty
        ensures Key(a, ti, b.t) in Upsert(rows, a, ti, dirty, B) && Upsert(rows, a, ti, dirty, B)[Key(a, ti, b.t)] == b
      {
        var k :| 0 <= k < |B| && B[k] == b;
        if k < |z| { assert z[k] == b && b in z; }
      }
    }
  }

  /** What the table must look like before a save for writing from the watermark on to be enough:
      every live bucket below the watermark is stored already, and from the floor on there is no row
      at a time that is not live. */
  ghost predicate Ready(rows: Rows, ts: TierSnap) {
    && (forall b :: b in ts.buckets && b.t < ts.dirtyFromT ==> HasRow(rows, ts.agent, ts.tier, b))
    && NoStray(rows, ts)
  }

  ghost predicate HasRow(rows: Rows, a: string, ti: nat, b: Bucket) {
    Key(a, ti, b.t) in rows && rows[Key(a, ti, b.t)] == b
  }

  ghost predicate NoStray(rows: Rows, ts: TierSnap) {
    forall t :: Key(ts.agent, ts.tier, t) in rows && t >= ts.floorT ==> exists b :: b in ts.buckets && b.t == t
  }

  /** What one tier's save leaves at time t: the upserted bucket there, or else the old row, unless it
      is below the floor. */
  lemma SavedRow(rows: Rows, ts: TierSnap, t: int)
    requires Rising(ts.buckets)
    ensures var k := Key(ts.agent, ts.tier, t); var q := SaveTier(rows, ts);
      && (forall b :: b in ts.buckets && b.t == t && t >= ts.dirtyFromT ==> k in q && q[k] == b)
      && ((forall b :: b in ts.buckets && b.t >= ts.dirtyFromT ==> b.t != t) ==>
            (k in q <==> k in rows && t >= ts.floorT) && (k in q ==> q[k] == rows[k]))
  {
    UpsertRow(Expire(rows, ts.agent, ts.tier, ts.floorT), ts.agent, ts.tier, ts.dirtyFromT, ts.buckets);
  }

  lemma ReadyIsEnough(rows: Rows, ts: TierSnap)
    requires Rising(ts.buckets) && (forall b :: b in ts.buckets ==> b.t >= ts.floorT) && Ready(rows, ts)
    ensures Stored(SaveTier(rows, ts), ts.agent, ts.tier, ts.buckets)
  {
    var q := SaveTier(rows, ts);
    forall b | b in ts.buckets
      ensures HasRow(q, ts.agent, ts.tier, b)
    {
      SavedRow(rows, ts, b.t);
    }
    forall t | Key(ts.agent, ts.tier, t) in q
      ensures exists b :: b in ts.buckets && b.t == t
    {
      SavedRow(rows, ts, t);
    }
  }

  lemma ReadyIsNeeded(rows: Rows, ts: TierSnap)
    requires Rising(ts.buckets) && Stored(SaveTier(rows, ts), ts.agent, ts.tier, ts.buckets)
    ensures Ready(rows, ts)
  {
    forall b | b in ts.buckets && b.t < ts.dirtyFromT
      ensures HasRow(rows, ts.agent, ts.tier, b)
    {
      SavedRow(rows, ts, b.t);
    }
    forall t | Key(ts.agent, ts.tier, t) in rows && t >= ts.floorT
      ensures exists b :: b in ts.buckets && b.t == t
    {
      SavedRow(rows, ts, t);
    }
  }

  /** When writing only from the watermark on is enough, exactly: the incremental save leaves just the
      live buckets in the table, the same rows a full rewrite would, if and only if the table was
      ready for it. */
  lemma IncrementalIsFull(rows: Rows, ts: TierSnap)
    requires Rising(ts.buckets) && forall b :: b in ts.buckets ==> b.t >= ts.floorT
    ensures Stored(SaveTier(rows, ts), ts.agent, ts.tier, ts.buckets) <==> Ready(rows, ts)
  {
    if Ready(rows, ts) {
      ReadyIsEnough(rows, ts);
    } else if Stored(SaveTier(rows, ts), ts.agent, ts.tier, ts.buckets) {
      ReadyIsNeeded(rows, ts);
    }
  }

  lemma ReadySame(r0: Rows, r1: Rows, ts: TierSnap)
    requires SameSeries(r0, r1, ts.agent, ts.tier)
    ensures Ready(r0, ts) <==> Ready(r1, ts)
  {
  }

  lemma SaveTierElsewhere(rows: Rows, ts: TierSnap, a: string, ti: nat)
    requires Rising(ts.buckets) && (a != ts.agent || ti != ts.tier)
    ensures SameSeries(rows, SaveTier(rows, ts), a, ti)
  {
    UpsertRow(Expire(rows, ts.agent, ts.tier, ts.floorT), ts.agent, ts.tier, ts.dirtyFromT, ts.buckets);
  }

  ghost predicate WellFormed(tiers: seq<TierSnap>) {
    && (forall k :: 0 <= k < |tiers| ==> Rising(tiers[k].buckets))
    && (forall j, k :: 0 <= j < k < |tiers| ==> tiers[j].agent != tiers[k].agent || tiers[j].tier != tiers[k].tier)
  }

  /** A save never touches a series its snapshot does not mention. */
  lemma {:induction false} SaveTiersElsewhere(rows: Rows, tiers: seq<TierSnap>, a: string, ti: nat)
    requires WellFormed(tiers)
    requires forall k :: 0 <= k < |tiers| ==> a != tiers[k].agent || ti != tiers[k].tier
    ensures SameSeries(rows, SaveTiers(rows, tiers), a, ti)
  {
    if tiers != [] {
      SaveTiersElsewhere(rows, tiers[..|tiers| - 1], a, ti);
      SaveTierElsewhere(SaveTiers(rows, tiers[..|tiers| - 1]), tiers[|tiers| - 1], a, ti);
    }
  }

  lemma StoredSame(r0: Rows, r1: Rows, a: string, ti: nat, B: seq<Bucket>)
    requires SameSeries(r0, r1, a, ti)
    ensures Stored(r0, a, ti, B) <==> Stored(r1, a, ti, B)
  {
  }

  lemma WellFormedPrefix(tiers: seq<TierSnap>, n: nat)
    requires WellFormed(tiers) && n < |tiers|
    ensures WellFormed(tiers[..n]) && Rising(tiers[n].buckets)
    ensures forall k :: 0 <= k < n ==>
      tiers[n].agent != tiers[..n][k].agent || tiers[n].tier != tiers[..n][k].tier
  {
  }

  /** The series a snapshot does mention is saved as if it were alone. */
  lemma {:induction false} SaveTiersOne(rows: Rows, tiers: seq<TierSnap>, j: nat)
    requires WellFormed(tiers) && j < |tiers| && forall b :: b in tiers[j].buckets ==> b.t >= tiers[j].floorT
    ensures Stored(SaveTiers(rows, tiers), tiers[j].agent, tiers[j].tier, tiers[j].buckets) <==> Ready(rows, tiers[j])
  {
    var n := |tiers| - 1;
    var z := tiers[..n];
    var a, ti := tiers[j].agent, tiers[j].tier;
    WellFormedPrefix(tiers, n);
    if j < n {
      assert z[j] == tiers[j];
      SaveTiersOne(rows, z, j);
      SaveTierElsewhere(SaveTiers(rows, z), tiers[n], a, ti);
      StoredSame(SaveTiers(rows, z), SaveTiers(rows, tiers), a, ti, tiers[j].buckets);
    } else {
      SaveTiersElsewhere(rows, z, a, ti);
      ReadySame(rows, SaveTiers(rows, z), tiers[j]);
      IncrementalIsFull(SaveTiers(rows, z), tiers[j]);
    }
  }

  lemma {:induction false} DropAgentsRows(rows: Rows, gone: seq<string>, a: string, ti: nat)
    ensures a !in gone ==> SameSeries(rows, DropAgents(rows, gone), a, ti)
    ensures a in gone ==> Stored(DropAgents(rows, gone), a, ti, [])
  {
    if gone != [] {
      var z := gone[..|gone| - 1];
      DropAgentsRows(rows, z, a, ti);
      assert gone == z + [gone[|gone| - 1]];
    }
  }

  // ------------------------------------------------------------------------------------------

  /** The table object. A save is one transaction: all of it or nothing. */
  class Table {
    var rrd: Rows

    constructor ()
      ensures rrd == map[]
    {
      rrd := map[];
    }

    /** SaveStats. commits says whether every statement and the commit succeeded; any failure rolls
        the transaction back. */
    method SaveStats(snap: Snapshot, commits: bool) returns (ok: bool)
      modifies this
      ensures ok == commits
      ensures rrd == if ok then SavedS(old(rrd), snap) else old(rrd)
    {
      var tx := rrd;
      for i := 0 to |snap.deleteAgents|
        invariant tx == DropAgents(rrd, snap.deleteAgents[..i])
      {
        assert snap.deleteAgents[..i + 1][..i] == snap.deleteAgents[..i];
        tx := DropAgent(tx, snap.deleteAgents[i]);
      }
      assert snap.deleteAgents[..|snap.deleteAgents|] == snap.deleteAgents;
      ghost var dropped := tx;
      for i := 0 to |snap.tiers|
        invariant tx == SaveTiers(dropped, snap.tiers[..i])
      {
        assert snap.tiers[..i + 1][..i] == snap.tiers[..i];
        var ts := snap.tiers[i];
        tx := Expire(tx, ts.agent, ts.tier, ts.floorT);
        ghost var expired := tx;
        for j := 0 to |ts.buckets|
          invariant tx == Upsert(expired, ts.agent, ts.tier, ts.dirtyFromT, ts.buckets[..j])
        {
          assert ts.buckets[..j + 1][..j] == ts.buckets[..j];
          var b := ts.buckets[j];
          if b.t >= ts.dirtyFromT {
            tx := tx[Key(ts.agent, ts.tier, b.t) := b];
          }
        }
        assert ts.buckets[..|ts.buckets|] == ts.buckets;
      }
      assert snap.tiers[..|snap.tiers|] == snap.tiers;
      if commits {
        rrd := tx;
      }
      ok := commits;
    }
  }
}
