/** Two machines contesting one agent id (internal/gateway/actor.go:305-364): how fast they can take
    the session from each other. Times are milliseconds of a clock that does not run backwards. */
module AntiFlap {
  import opened Prelude
  import opened TunnelConfig
  import opened Policies
  import opened Actors
  import opened ActorSafety

  ghost predicate ClockRuns(events: seq<Event>) {
    forall i, j :: 0 <= i < j < |events| && events[i].Admit? && events[j].Admit? ==> events[i].now <= events[j].now
  }

  /** The event supersedes a live session of the agent. */
  predicate Supersedes(a: ActorS, e: Event, agentId: string) {
    e.Admit? && e.agentId == agentId && agentId in a.agents && !Dampened(a, agentId, e.now)
  }

  /** When the agent's sessions were superseded in the run. */
  function Times(allowlist: seq<int>, events: seq<Event>, agentId: string): seq<int> {
    if events == [] then []
    else
      var n := |events| - 1;
      var e := events[n];
      var before := Times(allowlist, events[..n], agentId);
      if Supersedes(Run(allowlist, FRESH, events[..n]), e, agentId) then before + [e.now] else before
  }

  /** The supersede at position k came within two seconds of the one before it. */
  predicate Rapid(ts: seq<int>, k: int) { 1 <= k < |ts| && ts[k] - ts[k - 1] < 2000 }

  /** How long a newcomer must stay away after these supersedes: not at all after an isolated one, a
      second after a rapid one, two after two in a row. */
  function PenaltyAfter(ts: seq<int>): int {
    if !Rapid(ts, |ts| - 1) then 0 else if !Rapid(ts, |ts| - 2) then 1000 else 2000
  }

  /** What the record says of the supersedes so far. A third rapid one in a row does not occur. */
  ghost predicate Recorded(damp: map<string, Damp>, agentId: string, ts: seq<int>) {
    if ts == [] then agentId !in damp
    else
      && agentId in damp && damp[agentId].last == ts[|ts| - 1]
      && damp[agentId].penalty == PenaltyAfter(ts)
      && !(Rapid(ts, |ts| - 1) && Rapid(ts, |ts| - 2) && Rapid(ts, |ts| - 3))
  }

  ghost predicate Spread(ts: seq<int>) {
    && (forall k :: 0 <= k < |ts| - 1 ==> ts[k] <= ts[k + 1])
    && (forall k :: 0 <= k < |ts| - 2 ==> ts[k + 2] - ts[k] >= BASE_PENALTY)
  }

  /** One more supersede that was not dampened. */
  lemma Superseded(damp: map<string, Damp>, agentId: string, ts: seq<int>, now: int)
    requires Recorded(damp, agentId, ts) && Spread(ts) && (ts != [] ==> ts[|ts| - 1] <= now)
    requires agentId in damp && damp[agentId].penalty > 0 ==> now - damp[agentId].last >= damp[agentId].penalty
    ensures Recorded(NoteS(damp, agentId, now), agentId, ts + [now]) && Spread(ts + [now])
  {
    var us := ts + [now];
    forall k | 0 <= k < |us| - 2
      ensures us[k + 2] - us[k] >= BASE_PENALTY
    {
      if k < |ts| - 2 {
        assert ts[k + 2] - ts[k] >= BASE_PENALTY;
      }
    }
  }

  lemma EventKeepsRecord(allowlist: seq<int>, a: ActorS, e: Event, agentId: string)
    requires Inv(allowlist, a) && !Supersedes(a, e, agentId)
    ensures agentId in Step(allowlist, a, e).damp <==> agentId in a.damp
    ensures agentId in a.damp ==> Step(allowlist, a, e).damp[agentId] == a.damp[agentId]
  {
    match e
    case Reconcile(s, desired, envs) =>
      var valid := ValidOf(Policy(s.scope, allowlist), desired);
      if |envs| >= |valid| && Live(a, s) {
        EnsureAllFrame(PruneS(a, s, Ids(valid)), s, valid, allowlist, envs);
      }
    case _ =>
  }

  lemma SupersedeNotes(allowlist: seq<int>, a: ActorS, e: Event, agentId: string)
    requires Supersedes(a, e, agentId)
    ensures Step(allowlist, a, e).damp == NoteS(a.damp, agentId, e.now)
  {
  }

  lemma {:induction false} TimesPast(allowlist: seq<int>, events: seq<Event>, agentId: string, now: int)
    requires forall i :: 0 <= i < |events| && events[i].Admit? ==> events[i].now <= now
    ensures forall k :: 0 <= k < |Times(allowlist, events, agentId)| ==> Times(allowlist, events, agentId)[k] <= now
  {
    if events != [] {
      TimesPast(allowlist, events[..|events| - 1], agentId, now);
    }
  }

  /** The anti-flap bound, over every run: any three consecutive supersedes of one agent id span at
      least a second, and the penalty is only ever zero, one or two seconds, so its cap of thirty is
      never reached. */
  lemma {:induction false} FlapBound(allowlist: seq<int>, events: seq<Event>, agentId: string)
    requires ClockRuns(events)
    ensures Spread(Times(allowlist, events, agentId))
    ensures Recorded(Run(allowlist, FRESH, events).damp, agentId, Times(allowlist, events, agentId))
  {
    if events != [] {
      var n := |events| - 1;
      var a := Run(allowlist, FRESH, events[..n]);
      FlapBound(allowlist, events[..n], agentId);
      ActorSafe(allowlist, events[..n]);
      if Supersedes(a, events[n], agentId) {
        TimesPast(allowlist, events[..n], agentId, events[n].now);
        Superseded(a.damp, agentId, Times(allowlist, events[..n], agentId), events[n].now);
        SupersedeNotes(allowlist, a, events[n], agentId);
      } else {
        EventKeepsRecord(allowlist, a, events[n], agentId);
      }
    }
  }

  /** Admission, exactly, over every run: a newcomer is refused if and only if its agent has a live
      session and the newcomer comes sooner after the last supersede than the earlier ones call for.
      Otherwise its session is the live one, under the next generation, the session it replaces is
      evicted, and the agent has no listener left from it. */
  lemma {:induction false} AdmittedExactly(allowlist: seq<int>, events: seq<Event>, agentId: string, scope: Scope, now: int)
    requires ClockRuns(events)
    ensures var a := Run(allowlist, FRESH, events);
      var ts := Times(allowlist, events, agentId);
      var (b, gen) := AdmitS(a, agentId, scope, now);
      && (gen.None? <==> agentId in a.agents && PenaltyAfter(ts) > 0 && now - ts[|ts| - 1] < PenaltyAfter(ts))
      && (gen.None? ==> b == a.(sessions := a.sessions + 1))
      && (gen.Some? ==>
            && gen.value == b.generation == a.generation + 1
            && Live(b, Session(a.sessions, agentId, scope)) && a.sessions in b.gens && b.gens[a.sessions] == gen.value
            && (agentId in a.agents ==> a.agents[agentId].id in b.evicted)
            && forall k :: k in b.listeners <==> k in a.listeners && k.0 != agentId)
  {
    FlapBound(allowlist, events, agentId);
    ActorSafe(allowlist, events);
    var a := Run(allowlist, FRESH, events);
    DampenedExactly(a, agentId, Times(allowlist, events, agentId), now);
    AdmitTakesOver(allowlist, a, agentId, scope, now);
  }

  lemma DampenedExactly(a: ActorS, agentId: string, ts: seq<int>, now: int)
    requires Recorded(a.damp, agentId, ts)
    ensures Dampened(a, agentId, now) <==> agentId in a.agents && PenaltyAfter(ts) > 0 && now - ts[|ts| - 1] < PenaltyAfter(ts)
    ensures ts != [] ==> ts[|ts| - 1] == a.damp[agentId].last
  {
  }

  lemma {:induction false} AdmitTakesOver(allowlist: seq<int>, a: ActorS, agentId: string, scope: Scope, now: int)
    requires Inv(allowlist, a)
    ensures var (b, gen) := AdmitS(a, agentId, scope, now);
      && (gen.None? <==> Dampened(a, agentId, now))
      && (gen.None? ==> b == a.(sessions := a.sessions + 1))
      && (gen.Some? ==>
            && gen.value == b.generation == a.generation + 1
            && Live(b, Session(a.sessions, agentId, scope)) && a.sessions in b.gens && b.gens[a.sessions] == gen.value
            && (agentId in a.agents ==> a.agents[agentId].id in b.evicted)
            && forall k :: k in b.listeners <==> k in a.listeners && k.0 != agentId)
  {
    assert SessionsOk(a);
    if agentId !in a.agents {
      forall k | k in a.listeners
        ensures k.0 != agentId
      {
        assert ListenerOk(a, k, a.listeners[k]);
      }
    }
  }

  /** So a contest is slow: n supersedes take at least (n - 1) / 2 seconds. */
  lemma {:induction false} ContestIsSlow(ts: seq<int>)
    requires Spread(ts) && ts != []
    ensures ts[|ts| - 1] - ts[0] >= (|ts| - 1) / 2 * BASE_PENALTY
  {
    if |ts| > 2 {
      var us := ts[..|ts| - 2];
      ContestIsSlow(us);
      assert (|ts| - 1) / 2 == (|us| - 1) / 2 + 1;
      assert ts[|ts| - 1] - ts[|ts| - 3] >= BASE_PENALTY;
    }
  }
}
