/** Uptime from state transitions (internal/analytics/summary.go:344-443). The sweeps over events are
    proved to count instants: milliseconds t of a window at which something holds. */
module Uptime {
  import opened Prelude

  datatype UptimeEvent = UptimeEvent(t: int, up: bool)

  ghost predicate Sorted(events: seq<UptimeEvent>) {
    forall i, j :: 0 <= i < j < |events| ==> events[i].t <= events[j].t
  }

  /** The state at t: that of the latest event at or before t, if there is one. */
  function StateAtS(events: seq<UptimeEvent>, t: int): Option<bool> {
    if events == [] then None
    else
      var last := events[|events| - 1];
      if last.t <= t then Some(last.up) else StateAtS(events[..|events| - 1], t)
  }

  /** The state after the first n events. */
  function After(events: seq<UptimeEvent>, n: nat): Option<bool>
    requires n <= |events|
  {
    if n == 0 then None else Some(events[n - 1].up)
  }

  /** Where the events at or before t end. */
  lemma {:induction false} StateAtSplit(events: seq<UptimeEvent>, t: int, n: nat)
    requires n <= |events|
    requires n > 0 ==> events[n - 1].t <= t
    requires forall i :: n <= i < |events| ==> events[i].t > t
    ensures StateAtS(events, t) == After(events, n)
  {
    if n < |events| {
      StateAtSplit(events[..|events| - 1], t, n);
    }
  }

  /** stateAt. */
  method StateAt(events: seq<UptimeEvent>, t: int) returns (up: bool, ok: bool, ghost n: nat)
    requires Sorted(events)
    ensures StateAtS(events, t) == if ok then Some(up) else None
    ensures n <= |events| && (n > 0 ==> events[n - 1].t <= t) && (n < |events| ==> events[n].t > t)
    ensures StateAtS(events, t) == After(events, n)
  {
    up, ok, n := false, false, 0;
    for i := 0 to |events|
      invariant n == i
      invariant (if ok then Some(up) else None) == After(events, i)
      invariant i > 0 ==> events[i - 1].t <= t
    {
      if events[i].t <= t {
        up, ok, n := events[i].up, true, i + 1;
        continue;
      }
      break;
    }
    StateAtSplit(events, t, n);
  }

  // ------------------------------------------------------------------------------------------
  // Counting instants.

  /** How many instants of [a, b) satisfy p. */
  ghost function Count(p: int -> bool, a: int, b: int): nat
    decreases b - a
  {
    if a >= b then 0 else Count(p, a, b - 1) + if p(b - 1) then 1 else 0
  }

  ghost function IsUp(events: seq<UptimeEvent>): int -> bool { t => StateAtS(events, t) == Some(true) }
  ghost function IsKnown(events: seq<UptimeEvent>): int -> bool { t => StateAtS(events, t).Some? }

  lemma {:induction false} CountAdds(p: int -> bool, a: int, b: int, c: int)
    requires a <= b <= c
    ensures Count(p, a, c) == Count(p, a, b) + Count(p, b, c)
    decreases c - b
  {
    if b < c {
      CountAdds(p, a, b, c - 1);
    }
  }

  lemma {:induction false} CountConstant(p: int -> bool, a: int, b: int, v: bool)
    requires a <= b && forall t :: a <= t < b ==> p(t) == v
    ensures Count(p, a, b) == if v then b - a else 0
    decreases b - a
  {
    if a < b {
      CountConstant(p, a, b - 1, v);
    }
  }

  lemma {:induction false} CountSame(p: int -> bool, q: int -> bool, a: int, b: int)
    requires forall t :: a <= t < b ==> p(t) == q(t)
    ensures Count(p, a, b) == Count(q, a, b)
    decreases b - a
  {
    if a < b {
      CountSame(p, q, a, b - 1);
    }
  }

  lemma {:induction false} CountWithin(p: int -> bool, q: int -> bool, a: int, b: int)
    requires forall t :: a <= t < b && p(t) ==> q(t)
    ensures Count(p, a, b) <= Count(q, a, b)
    decreases b - a
  {
    if a < b {
      CountWithin(p, q, a, b - 1);
    }
  }

  /** One stretch without transitions. */
  lemma Segment(events: seq<UptimeEvent>, a: int, b: int, n: nat)
    requires a <= b && n <= |events|
    requires n > 0 ==> events[n - 1].t <= a
    requires forall i :: n <= i < |events| ==> events[i].t >= b
    ensures Count(IsUp(events), a, b) == if After(events, n) == Some(true) then b - a else 0
    ensures Count(IsKnown(events), a, b) == if After(events, n).Some? then b - a else 0
  {
    forall t | a <= t < b
      ensures StateAtS(events, t) == After(events, n)
    {
      StateAtSplit(events, t, n);
    }
    CountConstant(IsUp(events), a, b, After(events, n) == Some(true));
    CountConstant(IsKnown(events), a, b, After(events, n).Some?);
  }

  /** upKnown: one sweep counts exactly the instants of [a, b) whose state is up, and known. */
  method UpKnown(events: seq<UptimeEvent>, a: int, b: int) returns (up: int, known: int)
    requires Sorted(events)
    ensures up == Count(IsUp(events), a, b) && known == Count(IsKnown(events), a, b)
  {
    if a >= b {
      return 0, 0;
    }
    var state, ok, n0 := StateAt(events, a);
    up, known := 0, 0;
    var cursor := a;
    // n counts the events at or before cursor.
    ghost var n: nat := n0;
    for i := 0 to |events|
      invariant n0 <= n <= |events| && a <= cursor < b
      invariant (if ok then Some(state) else None) == After(events, n)
      invariant n > 0 ==> events[n - 1].t <= cursor
      invariant cursor == a || (n > 0 && cursor == events[n - 1].t)
      invariant n == i || (i < n == n0) || (n < i && forall j :: n <= j < |events| ==> events[j].t >= b)
      invariant up == Count(IsUp(events), a, cursor) && known == Count(IsKnown(events), a, cursor)
    {
      var e := events[i];
      if e.t <= a || e.t >= b {
        continue;
      }
      assert n == i;
      var seg := e.t - cursor;
      Segment(events, cursor, e.t, n);
      CountAdds(IsUp(events), a, cursor, e.t);
      CountAdds(IsKnown(events), a, cursor, e.t);
      if ok {
        known := known + seg;
        if state {
          up := up + seg;
        }
      }
      cursor := e.t;
      state, ok := e.up, true;
      n := i + 1;
    }
    var seg := b - cursor;
    Segment(events, cursor, b, n);
    CountAdds(IsUp(events), a, cursor, b);
    CountAdds(IsKnown(events), a, cursor, b);
    if ok {
      known := known + seg;
      if state {
        up := up + seg;
      }
    }
  }

  // ------------------------------------------------------------------------------------------
  // Engine coverage.

  type Interval = (int, int)

  /** Intervals in order, none overlapping. */
  ghost predicate Disjoint(cover: seq<Interval>) {
    forall i, j :: 0 <= i < j < |cover| ==> cover[i].1 <= cover[j].0
  }

  ghost predicate Forward(cover: seq<Interval>) { forall i :: 0 <= i < |cover| ==> cover[i].0 <= cover[i].1 }

  predicate Covers(cover: seq<Interval>, t: int) {
    exists i :: 0 <= i < |cover| && cover[i].0 <= t < cover[i].1
  }

  ghost predicate UpTo(cover: seq<Interval>, t: int) { forall i :: 0 <= i < |cover| ==> cover[i].1 <= t }

  lemma BeforeFirst(events: seq<UptimeEvent>)
    requires Sorted(events)
    ensures forall t :: (events != [] ==> t < events[0].t) ==> StateAtS(events, t) == None
  {
    forall t | events != [] ==> t < events[0].t
      ensures StateAtS(events, t) == None
    {
      StateAtSplit(events, t, 0);
    }
  }

  /** engineCoverage: the intervals are in order and disjoint, and they cover exactly the instants
      before now at which the engine's last transition was a start. */
  method EngineCoverage(events: seq<UptimeEvent>, now: int) returns (cover: seq<Interval>)
    requires Sorted(events) && forall i :: 0 <= i < |events| ==> 0 <= events[i].t
    ensures Disjoint(cover) && ((forall i :: 0 <= i < |events| ==> events[i].t <= now) ==> Forward(cover))
    ensures forall t :: t < now ==> (Covers(cover, t) <==> StateAtS(events, t) == Some(true))
    ensures cover == [] <==> forall i :: 0 <= i < |events| ==> !events[i].up
  {
    cover := [];
    var open := -1;
    BeforeFirst(events);
    for i := 0 to |events|
      invariant open == -1 || (0 <= open && UpTo(cover, open))
      invariant open >= 0 <==> After(events, i) == Some(true)
      invariant i > 0 ==> open <= events[i - 1].t && UpTo(cover, events[i - 1].t)
      invariant i == 0 ==> cover == [] && open == -1
      invariant Disjoint(cover) && Forward(cover)
      invariant cover == [] && open < 0 <==> forall j :: 0 <= j < i ==> !events[j].up
      invariant forall t :: (i < |events| ==> t < events[i].t) ==>
        ((Covers(cover, t) || (open >= 0 && t >= open)) <==> StateAtS(events, t) == Some(true))
    {
      var e := events[i];
      ghost var cover0, open0 := cover, open;
      if e.up {
        if open < 0 {
          open := e.t;
        }
      } else if open >= 0 {
        cover := cover + [(open, e.t)];
        open := -1;
      }
      Transition(events, i, cover0, open0, cover, open);
    }
    if open >= 0 {
      LastInterval(events, cover, open, now);
      cover := cover + [(open, now)];
    } else {
      assert forall t :: Covers(cover, t) <==> StateAtS(events, t) == Some(true);
    }
  }

  lemma CoversAppend(cover: seq<Interval>, iv: Interval, t: int)
    ensures Covers(cover + [iv], t) <==> Covers(cover, t) || iv.0 <= t < iv.1
  {
    var c := cover + [iv];
    if Covers(cover, t) {
      var i :| 0 <= i < |cover| && cover[i].0 <= t < cover[i].1;
      assert c[i] == cover[i];
    }
    if iv.0 <= t < iv.1 {
      assert c[|cover|] == iv;
    }
    if Covers(c, t) {
      var i :| 0 <= i < |c| && c[i].0 <= t < c[i].1;
      assert i < |cover| ==> c[i] == cover[i];
    }
  }

  /** One transition of the sweep: the instants from event i up to the next are those its state says,
      and the earlier ones stay as they were. */
  lemma Transition(events: seq<UptimeEvent>, i: nat, cover: seq<Interval>, open: int, cover1: seq<Interval>, open1: int)
    requires Sorted(events) && i < |events|
    requires open == -1 || (0 <= open && UpTo(cover, open))
    requires i > 0 ==> open <= events[i - 1].t && UpTo(cover, events[i - 1].t)
    requires i == 0 ==> cover == [] && open == -1
    requires events[i].t >= 0
    requires forall t :: t < events[i].t ==>
      ((Covers(cover, t) || (open >= 0 && t >= open)) <==> StateAtS(events, t) == Some(true))
    requires if events[i].up then cover1 == cover && open1 == (if open < 0 then events[i].t else open)
             else if open >= 0 then cover1 == cover + [(open, events[i].t)] && open1 == -1
             else cover1 == cover && open1 == open
    ensures forall t :: (i + 1 < |events| ==> t < events[i + 1].t) ==>
      ((Covers(cover1, t) || (open1 >= 0 && t >= open1)) <==> StateAtS(events, t) == Some(true))
  {
    forall t | i + 1 < |events| ==> t < events[i + 1].t
      ensures (Covers(cover1, t) || (open1 >= 0 && t >= open1)) <==> StateAtS(events, t) == Some(true)
    {
      CoversAppend(cover, (open, events[i].t), t);
      if t >= events[i].t {
        StateAtSplit(events, t, i + 1);
        NotCovered(cover, events[i].t, t, i, events);
      }
    }
  }

  lemma NotCovered(cover: seq<Interval>, e: int, t: int, i: nat, events: seq<UptimeEvent>)
    requires i < |events| && Sorted(events) && e == events[i].t <= t
    requires i > 0 ==> UpTo(cover, events[i - 1].t)
    requires i == 0 ==> cover == []
    ensures !Covers(cover, t)
  {
  }

  lemma LastInterval(events: seq<UptimeEvent>, cover: seq<Interval>, open: int, now: int)
    requires UpTo(cover, open) && Disjoint(cover)
    requires forall t :: Covers(cover, t) || t >= open <==> StateAtS(events, t) == Some(true)
    ensures var c := cover + [(open, now)];
      && Disjoint(c)
      && (forall t :: t < now ==> (Covers(c, t) <==> StateAtS(events, t) == Some(true)))
  {
    forall t | t < now
      ensures Covers(cover + [(open, now)], t) <==> StateAtS(events, t) == Some(true)
    {
      CoversAppend(cover, (open, now), t);
    }
  }

  // ------------------------------------------------------------------------------------------
  // The percentage.

  ghost function Both(p: int -> bool, cover: seq<Interval>): int -> bool { t => p(t) && Covers(cover, t) }
  ghost function InOne(p: int -> bool, iv: Interval): int -> bool { t => p(t) && iv.0 <= t < iv.1 }

  /** Clipping an interval to the window counts its instants in the window. */
  lemma ClipCounts(p: int -> bool, iv: Interval, a: int, b: int)
    requires a <= b
    ensures Count(p, Max(iv.0, a), Min(iv.1, b)) == Count(InOne(p, iv), a, b)
  {
    var q := InOne(p, iv);
    var x, y := Max(iv.0, a), Min(iv.1, b);
    if x < y {
      CountAdds(q, a, x, b);
      CountAdds(q, x, y, b);
      CountConstant(q, a, x, false);
      CountConstant(q, y, b, false);
      CountSame(p, q, x, y);
    } else {
      CountConstant(q, a, b, false);
    }
  }

  lemma {:induction false} CountApart(p: int -> bool, q: int -> bool, r: int -> bool, a: int, b: int)
    requires forall t :: a <= t < b ==> (r(t) <==> p(t) || q(t)) && !(p(t) && q(t))
    ensures Count(r, a, b) == Count(p, a, b) + Count(q, a, b)
    decreases b - a
  {
    if a < b {
      CountApart(p, q, r, a, b - 1);
    }
  }

  /** The next interval of a disjoint cover adds the instants it alone covers. */
  lemma CoverAdds(p: int -> bool, cover: seq<Interval>, k: nat, a: int, b: int)
    requires Disjoint(cover) && k < |cover| && a <= b
    ensures Count(Both(p, cover[..k + 1]), a, b)
         == Count(Both(p, cover[..k]), a, b) + Count(p, Max(cover[k].0, a), Min(cover[k].1, b))
  {
    assert cover[..k + 1] == cover[..k] + [cover[k]];
    forall t
      ensures Covers(cover[..k + 1], t) <==> Covers(cover[..k], t) || cover[k].0 <= t < cover[k].1
      ensures !(Covers(cover[..k], t) && cover[k].0 <= t < cover[k].1)
    {
      CoversAppend(cover[..k], cover[k], t);
    }
    CountApart(Both(p, cover[..k]), InOne(p, cover[k]), Both(p, cover[..k + 1]), a, b);
    ClipCounts(p, cover[k], a, b);
  }

  lemma NothingCovered(p: int -> bool, a: int, b: int)
    requires a <= b
    ensures Count(Both(p, []), a, b) == 0
  {
    forall t
      ensures !Both(p, [])(t)
    {
      assert !Covers([], t);
    }
    CountConstant(Both(p, []), a, b, false);
  }

  /** computeUptimePct: -1 when the window is empty or nothing in it is known; otherwise the share, in
      percent, of the known instants that are up, over the instants of the window the engine covers.
      A cover without intervals stands for the whole window. */
  method ComputeUptimePct(events: seq<UptimeEvent>, engineCover: seq<Interval>, since0: int, now: int) returns (pct: real)
    requires Sorted(events) && Disjoint(engineCover)
    ensures var since := Max(since0, 0);
      var cover := if engineCover == [] then [(since, now)] else engineCover;
      var known := Count(Both(IsKnown(events), cover), since, now);
      var up := Count(Both(IsUp(events), cover), since, now);
      pct == if known == 0 then -1.0 else up as real / known as real * 100.0
    ensures pct == -1.0 || 0.0 <= pct <= 100.0
  {
    var since := if since0 <= 0 then 0 else since0;
    if now <= since {
      return -1.0;
    }
    var cover := engineCover;
    if |cover| == 0 {
      cover := [(since, now)];
    }
    var up, known := 0, 0;
    NothingCovered(IsUp(events), since, now);
    NothingCovered(IsKnown(events), since, now);
    for i := 0 to |cover|
      invariant up == Count(Both(IsUp(events), cover[..i]), since, now)
      invariant known == Count(Both(IsKnown(events), cover[..i]), since, now)
    {
      var u, k := UpKnown(events, Max(cover[i].0, since), Min(cover[i].1, now));
      CoverAdds(IsUp(events), cover, i, since, now);
      CoverAdds(IsKnown(events), cover, i, since, now);
      up := up + u;
      known := known + k;
    }
    assert cover[..|cover|] == cover;
    if known == 0 {
      return -1.0;
    }
    CountWithin(Both(IsUp(events), cover), Both(IsKnown(events), cover), since, now);
    pct := up as real / known as real * 100.0;
    Share(up, known);
  }

  lemma Share(up: int, known: int)
    requires 0 <= up <= known && known > 0
    ensures 0.0 <= up as real / known as real * 100.0 <= 100.0
  {
    var r := up as real / known as real;
    assert r * known as real == up as real;
  }

  /** Uptime is additive: counting two adjacent windows and adding gives the count of both together. */
  lemma UptimeAdds(events: seq<UptimeEvent>, a: int, b: int, c: int)
    requires a <= b <= c
    ensures Count(IsUp(events), a, c) == Count(IsUp(events), a, b) + Count(IsUp(events), b, c)
    ensures Count(IsKnown(events), a, c) == Count(IsKnown(events), a, b) + Count(IsKnown(events), b, c)
  {
    CountAdds(IsUp(events), a, b, c);
    CountAdds(IsKnown(events), a, b, c);
  }

  /** The engine was running and p held. */
  ghost function WhileRunning(engine: seq<UptimeEvent>, p: int -> bool): int -> bool {
    t => p(t) && StateAtS(engine, t) == Some(true)
  }

  ghost function Share100(up: nat, known: nat): real { if known == 0 then -1.0 else up as real / known as real * 100.0 }

  /** One row of the uptime report, from both event lists: once the engine has ever been recorded as
      started, the percentage is of the instants of the window at which the engine was running and
      the state known, those at which it was up; before that, of all known instants. */
  method UptimeOf(engine: seq<UptimeEvent>, events: seq<UptimeEvent>, since0: int, now: int) returns (pct: real)
    requires Sorted(engine) && Sorted(events) && forall i :: 0 <= i < |engine| ==> 0 <= engine[i].t
    ensures var since := Max(since0, 0);
      if exists i :: 0 <= i < |engine| && engine[i].up then
        pct == Share100(Count(WhileRunning(engine, IsUp(events)), since, now),
                        Count(WhileRunning(engine, IsKnown(events)), since, now))
      else
        pct == Share100(Count(IsUp(events), since, now), Count(IsKnown(events), since, now))
  {
    var cover := EngineCoverage(engine, now);
    pct := ComputeUptimePct(events, cover, since0, now);
    ghost var since := Max(since0, 0);
    if exists i :: 0 <= i < |engine| && engine[i].up {
      CountSame(Both(IsUp(events), cover), WhileRunning(engine, IsUp(events)), since, now);
      CountSame(Both(IsKnown(events), cover), WhileRunning(engine, IsKnown(events)), since, now);
    } else {
      WindowCovered(since, now);
      CountSame(Both(IsUp(events), [(since, now)]), IsUp(events), since, now);
      CountSame(Both(IsKnown(events), [(since, now)]), IsKnown(events), since, now);
    }
  }

  lemma WindowCovered(a: int, b: int)
    ensures forall t :: a <= t < b ==> Covers([(a, b)], t)
  {
    assert [(a, b)][0] == (a, b);
  }
}
