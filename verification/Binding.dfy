/** Which port a bind and a reconcile end up with (internal/gateway/actor.go:403-451, 534-588), said of
    the ports alone: those held here, those other processes hold, and those that cannot be listened on. */
module Binding {
  import opened Prelude
  import opened TunnelConfig
  import opened Policies
  import opened Actors
  import opened ActorSafety

  /** A listen on port p succeeds. */
  ghost predicate Bindable(held: set<int>, env: Env, p: int) {
    0 < p <= 65535 && p !in env.denied && p !in held && p !in env.foreign
  }

  /** It fails because somebody has the port. */
  ghost predicate Taken(held: set<int>, env: Env, p: int) {
    0 < p <= 65535 && p !in env.denied && (p in held || p in env.foreign)
  }

  /** The system has a free port to give. */
  ghost predicate Pickable(held: set<int>, env: Env) {
    0 < env.pick <= 65535 && env.pick !in held && env.pick !in env.foreign
  }

  /** Another port, within scope and allowlist, on which a listen succeeds. */
  ghost predicate Alternative(held: set<int>, env: Env, pol: Policy, requested: int, p: int) {
    && p != requested && Bindable(held, env, p)
    && (pol.scope.ports == [] || p in pol.scope.ports) && (pol.allowlist == [] || p in pol.allowlist)
  }

  /** The port o is the right one for the request: for port 0 the system's; the requested one when it
      can be had; and when that is taken the system's if nothing restricts the agent, or else the least
      alternative. There is none exactly when these are not to be had, or the request is no port or
      refused for another reason. */
  ghost predicate RightPort(held: set<int>, env: Env, requested: int, pol: Policy, o: Option<int>) {
    if requested == 0 then o == if Pickable(held, env) then Some(env.pick) else None
    else if Bindable(held, env, requested) then o == Some(requested)
    else if !Taken(held, env, requested) then o == None
    else if pol.scope.ports == [] && pol.allowlist == [] then o == if Pickable(held, env) then Some(env.pick) else None
    else
      && (o.Some? ==> Alternative(held, env, pol, requested, o.value))
      && forall p :: Alternative(held, env, pol, requested, p) ==> o.Some? && o.value <= p
  }

  lemma {:induction false} FirstFreeLeast(held: set<int>, env: Env, candidates: seq<int>)
    requires forall k :: 0 <= k < |candidates| ==> candidates[k] > 0
    requires forall i, j :: 0 <= i < j < |candidates| ==> candidates[i] < candidates[j]
    ensures var o := FirstFree(held, env, candidates);
      && (o.Some? ==> o.value in candidates && Bindable(held, env, o.value))
      && forall p :: p in candidates && Bindable(held, env, p) ==> o.Some? && o.value <= p
  {
    if candidates != [] {
      assert candidates == [candidates[0]] + candidates[1..];
      FirstFreeLeast(held, env, candidates[1..]);
    }
  }

  /** The port for a request is the right one, whatever is held, taken or refused. */
  lemma PortForExactly(held: set<int>, env: Env, requested: int, pol: Policy)
    ensures RightPort(held, env, requested, pol, PortFor(held, env, requested, pol))
  {
    if Taken(held, env, requested) {
      var candidates := CandidatesOf(requested, pol);
      CandidatesExact(requested, pol);
      if Constrained(pol) {
        forall k | 0 <= k < |candidates|
          ensures candidates[k] > 0
        {
          assert candidates[k] in candidates;
        }
        FirstFreeLeast(held, env, candidates);
      } else {
        assert FirstFree(held, env, candidates[1..]).None?;
      }
    }
  }

  function PortOf(o: Outcome): Option<int> { if o.ok then Some(o.port) else None }

  /** The ports of all listeners but one. */
  function HeldBut(ls: map<Key, Listener>, key: Key): set<int> { set k | k in ls && k != key :: ls[k].port }

  /** A bind closes the tunnel's own listener and ends on the right port among those the others leave;
      it then has a new listener there for exactly this spec and session, or none, and every other
      listener is as it was. */
  lemma BindExactly(a: ActorS, s: Session, spec: TunnelSpec, allowlist: seq<int>, env: Env)
    ensures var key := (s.agentId, spec.id);
      var (b, o) := BindS(a, s, spec, allowlist, env);
      && o.id == spec.id && (!o.ok ==> o.port == 0)
      && RightPort(HeldBut(a.listeners, key), env, spec.publicPort, Policy(s.scope, allowlist), PortOf(o))
      && b.listeners - {key} == a.listeners - {key}
      && (key in b.listeners <==> o.ok)
      && (o.ok ==> b.listeners[key] == Listener(a.serials, spec, s, o.port) && b.serials == a.serials + 1)
  {
    var key := (s.agentId, spec.id);
    PortForExactly(OpenPorts(a.listeners - {key}), env, spec.publicPort, Policy(s.scope, allowlist));
    HeldButIs(a.listeners, key);
  }

  lemma HeldButIs(ls: map<Key, Listener>, key: Key)
    ensures HeldBut(ls, key) == OpenPorts(ls - {key})
  {
    var rest := ls - {key};
    forall k | k in ls && k != key
      ensures ls[k].port in OpenPorts(rest)
    {
      assert k in rest;
    }
  }

  lemma RightPortFree(held: set<int>, env: Env, requested: int, pol: Policy, o: Option<int>)
    requires RightPort(held, env, requested, pol, o)
    ensures o.Some? ==> o.value !in held && 0 < o.value <= 65535
  {
  }

  // ------------------------------------------------------------------------------------------
  // Reconcile.

  /** The ports a reconcile finds held at spec i: those it has just bound or kept for the specs before
      it, those the agent still holds for the specs behind it, and every other agent's. */
  function HeldAt(a: ActorS, s: Session, desired: seq<TunnelSpec>, outs: seq<Outcome>, i: nat): set<int>
    requires i < |desired| == |outs|
  {
    (set j | 0 <= j < i && outs[j].ok :: outs[j].port)
    + (set k | k in a.listeners && (k.0 != s.agentId || k.1 in Ids(desired[i + 1..])) :: a.listeners[k].port)
  }

  /** The two specs differ in the bandwidth limit alone, if at all. */
  ghost predicate SameButLimit(x: TunnelSpec, y: TunnelSpec) {
    y == x.(limitMbps := y.limitMbps, limitScope := y.limitScope)
  }

  /** The outcomes of a longer list begin with those of the shorter. */
  lemma {:induction false} OutcomesPrefix(
    a: ActorS, s: Session, desired: seq<TunnelSpec>, allowlist: seq<int>, envs: seq<Env>, i: nat)
    requires i <= |desired| <= |envs|
    ensures EnsureAll(a, s, desired[..i], allowlist, envs).1 == EnsureAll(a, s, desired, allowlist, envs).1[..i]
    decreases |desired|
  {
    if i < |desired| {
      var n := |desired| - 1;
      OutcomesPrefix(a, s, desired[..n], allowlist, envs, i);
      assert desired[..n][..i] == desired[..i];
    } else {
      assert desired[..i] == desired;
    }
  }

  lemma SpecAt(a: ActorS, s: Session, desired: seq<TunnelSpec>, allowlist: seq<int>, envs: seq<Env>, i: nat)
    requires i < |desired| <= |envs|
    ensures EnsureAll(a, s, desired, allowlist, envs).1[i] ==
      EnsureS(EnsureAll(a, s, desired[..i], allowlist, envs).0, s, desired[i], allowlist, envs[i]).1
  {
    OutcomesPrefix(a, s, desired, allowlist, envs, i + 1);
    assert desired[..i + 1][..i] == desired[..i];
  }

  lemma PrefixDistinct(desired: seq<TunnelSpec>, i: nat)
    requires DistinctIds(desired) && i < |desired|
    ensures DistinctIds(desired[..i]) && desired[i].id !in Ids(desired[..i]) && desired[i].id !in Ids(desired[i + 1..])
    ensures Ids(desired) == Ids(desired[..i]) + {desired[i].id} + Ids(desired[i + 1..])
    ensures Ids(desired[..i]) !! Ids(desired[i + 1..])
  {
    assert desired == desired[..i] + [desired[i]] + desired[i + 1..];
  }

  /** The listeners a reconcile has when it comes to spec i. */
  ghost predicate Midway(a: ActorS, b: ActorS, s: Session, desired: seq<TunnelSpec>, outs: seq<Outcome>, i: nat)
    requires i < |desired| == |outs|
  {
    && (forall j :: 0 <= j < i ==> Shows(b.listeners, s, desired[j], outs[j]))
    && (forall k: Key :: (k.0 != s.agentId || k.1 in Ids(desired[i..])) ==>
          (k in b.listeners <==> k in a.listeners) && (k in a.listeners ==> b.listeners[k] == a.listeners[k]))
    && (forall id :: (s.agentId, id) in b.listeners ==> id in Ids(desired))
  }

  lemma MidwayHolds(allowlist: seq<int>, a: ActorS, s: Session, desired: seq<TunnelSpec>, envs: seq<Env>, i: nat)
    requires Inv(allowlist, a) && Live(a, s) && i < |desired| <= |envs| && DistinctIds(desired)
    ensures var p := PruneS(a, s, Ids(desired));
      Midway(a, EnsureAll(p, s, desired[..i], allowlist, envs).0, s, desired, EnsureAll(p, s, desired, allowlist, envs).1, i)
  {
    var p := PruneS(a, s, Ids(desired));
    PrefixDistinct(desired, i);
    EnsureAllShows(p, s, desired[..i], allowlist, envs);
    OutcomesPrefix(p, s, desired, allowlist, envs, i);
    var (b, outs) := EnsureAll(p, s, desired[..i], allowlist, envs);
    forall j | 0 <= j < i
      ensures Shows(b.listeners, s, desired[j], EnsureAll(p, s, desired, allowlist, envs).1[j])
    {
      assert Shows(b.listeners, s, desired[..i][j], outs[j]);
    }
    IdsFrom(desired, i);
    PrunedKeeps(allowlist, a, s, desired);
    forall k: Key | k.0 != s.agentId || k.1 in Ids(desired[i..])
      ensures (k in b.listeners <==> k in a.listeners) && (k in a.listeners ==> b.listeners[k] == a.listeners[k])
    {
      assert !(k.0 == s.agentId && k.1 in Ids(desired[..i]));
    }
    forall id | (s.agentId, id) in b.listeners
      ensures id in Ids(desired)
    {
      if id !in Ids(desired[..i]) {
        assert (s.agentId, id) in p.listeners;
      }
    }
  }

  lemma IdsFrom(desired: seq<TunnelSpec>, i: nat)
    requires i < |desired|
    ensures Ids(desired[i..]) == {desired[i].id} + Ids(desired[i + 1..])
  {
    assert desired[i..] == [desired[i]] + desired[i + 1..];
  }

  /** A prune leaves other agents' listeners and those of wanted tunnels, and no others of the agent. */
  lemma PrunedKeeps(allowlist: seq<int>, a: ActorS, s: Session, desired: seq<TunnelSpec>)
    requires Inv(allowlist, a) && Live(a, s)
    ensures var ls := Pruned(a.listeners, s, Ids(desired));
      && (forall k: Key :: k.0 != s.agentId || k.1 in Ids(desired) ==> (k in ls <==> k in a.listeners))
      && (forall k: Key :: k in ls ==> ls[k] == a.listeners[k])
      && (forall id :: (s.agentId, id) in ls ==> id in Ids(desired))
  {
    forall id | (s.agentId, id) in Pruned(a.listeners, s, Ids(desired))
      ensures id in Ids(desired)
    {
      assert ListenerOk(a, (s.agentId, id), a.listeners[(s.agentId, id)]);
    }
  }

  lemma MidwayPorts(a: ActorS, b: ActorS, s: Session, desired: seq<TunnelSpec>, outs: seq<Outcome>, i: nat)
    requires i < |desired| == |outs| && DistinctIds(desired) && Midway(a, b, s, desired, outs, i)
    ensures HeldBut(b.listeners, (s.agentId, desired[i].id)) == HeldAt(a, s, desired, outs, i)
  {
    var key := (s.agentId, desired[i].id);
    PrefixDistinct(desired, i);
    IdsFrom(desired, i);
    forall k: Key | k in b.listeners && k != key
      ensures b.listeners[k].port in HeldAt(a, s, desired, outs, i)
    {
      if k.0 == s.agentId {
        assert k == (s.agentId, k.1);
        if k.1 in Ids(desired[..i]) {
          var j :| 0 <= j < i && desired[..i][j].id == k.1;
          assert Shows(b.listeners, s, desired[j], outs[j]);
        }
      }
    }
    forall j | 0 <= j < i && outs[j].ok
      ensures outs[j].port in HeldBut(b.listeners, key)
    {
      assert Shows(b.listeners, s, desired[j], outs[j]);
      assert desired[..i][j].id in Ids(desired[..i]);
    }
    forall k: Key | k in a.listeners && (k.0 != s.agentId || k.1 in Ids(desired[i + 1..]))
      ensures a.listeners[k].port in HeldBut(b.listeners, key)
    {
      assert k in b.listeners && k != key;
    }
  }

  /** Reconcile, exactly: spec i keeps the port of its listener if that already serves the spec, the
      bandwidth limit aside, and otherwise gets the right port among those held when its turn comes. */
  lemma ReconcileExactly(allowlist: seq<int>, a: ActorS, s: Session, desired: seq<TunnelSpec>, envs: seq<Env>, i: nat)
    requires Inv(allowlist, a) && Live(a, s) && i < |desired| <= |envs| && DistinctIds(desired)
    ensures var outs := ReconcileS(a, s, desired, allowlist, envs).1;
      var key := (s.agentId, desired[i].id);
      && outs[i].id == desired[i].id && (!outs[i].ok ==> outs[i].port == 0)
      && if key in a.listeners && SameButLimit(a.listeners[key].spec, desired[i]) then
           outs[i].ok && outs[i].port == a.listeners[key].port
         else
           RightPort(HeldAt(a, s, desired, outs, i), envs[i], desired[i].publicPort, Policy(s.scope, allowlist), PortOf(outs[i]))
  {
    var p := PruneS(a, s, Ids(desired));
    var outs := EnsureAll(p, s, desired, allowlist, envs).1;
    var b := EnsureAll(p, s, desired[..i], allowlist, envs).0;
    SpecAt(p, s, desired, allowlist, envs, i);
    MidwayHolds(allowlist, a, s, desired, envs, i);
    MidwayPorts(a, b, s, desired, outs, i);
    IdsFrom(desired, i);
    var key: Key := (s.agentId, desired[i].id);
    assert key.1 in Ids(desired[i..]);
    BindExactly(b, s, desired[i], allowlist, envs[i]);
  }

  /** A fresh agent whose tunnels ask for different ports, none of them held by another agent, by
      another process or refused, gets every one of them. */
  lemma {:induction false} FreshGetsAll(
    allowlist: seq<int>, a: ActorS, s: Session, desired: seq<TunnelSpec>, envs: seq<Env>, i: nat)
    requires Inv(allowlist, a) && Live(a, s) && i < |desired| <= |envs| && DistinctIds(desired)
    requires forall id :: (s.agentId, id) !in a.listeners
    requires forall j :: 0 <= j < |desired| ==> Bindable(OpenPorts(a.listeners), envs[j], desired[j].publicPort)
    requires forall j, k :: 0 <= j < k < |desired| ==> desired[j].publicPort != desired[k].publicPort
    ensures ReconcileS(a, s, desired, allowlist, envs).1[i] == Outcome(desired[i].id, desired[i].publicPort, true)
    decreases i
  {
    var outs := ReconcileS(a, s, desired, allowlist, envs).1;
    ReconcileExactly(allowlist, a, s, desired, envs, i);
    forall j | 0 <= j < i
      ensures outs[j] == Outcome(desired[j].id, desired[j].publicPort, true)
    {
      FreshGetsAll(allowlist, a, s, desired, envs, j);
    }
    forall p | p in HeldAt(a, s, desired, outs, i)
      ensures p != desired[i].publicPort
    {
      assert p in OpenPorts(a.listeners) || exists j :: 0 <= j < i && p == desired[j].publicPort;
    }
    assert Bindable(HeldAt(a, s, desired, outs, i), envs[i], desired[i].publicPort);
  }

  /** A port does not change hands within one reconcile to a tunnel that comes earlier in the set: two
      tunnels that swap their ports do not get them. */
  lemma EarlierCannotTakeOver(
    allowlist: seq<int>, a: ActorS, s: Session, desired: seq<TunnelSpec>, envs: seq<Env>, i: nat, j: nat)
    requires Inv(allowlist, a) && Live(a, s) && i < j < |desired| <= |envs| && DistinctIds(desired)
    requires (s.agentId, desired[j].id) in a.listeners
    requires desired[i].publicPort == a.listeners[(s.agentId, desired[j].id)].port
    ensures ReconcileS(a, s, desired, allowlist, envs).1[i].port != desired[i].publicPort
  {
    var outs := ReconcileS(a, s, desired, allowlist, envs).1;
    ReconcileExactly(allowlist, a, s, desired, envs, i);
    assert desired[i + 1..][j - i - 1] == desired[j];
    HeldByLater(allowlist, a, s, desired, outs, i, desired[j].id);
    if outs[i].ok && !((s.agentId, desired[i].id) in a.listeners && SameButLimit(a.listeners[(s.agentId, desired[i].id)].spec, desired[i])) {
      RightPortFree(HeldAt(a, s, desired, outs, i), envs[i], desired[i].publicPort, Policy(s.scope, allowlist), PortOf(outs[i]));
    }
  }

  lemma HeldByLater(
    allowlist: seq<int>, a: ActorS, s: Session, desired: seq<TunnelSpec>, outs: seq<Outcome>, i: nat, id: string)
    requires Inv(allowlist, a) && i < |desired| == |outs| && (s.agentId, id) in a.listeners && id in Ids(desired[i + 1..])
    ensures a.listeners[(s.agentId, id)].port in HeldAt(a, s, desired, outs, i) && a.listeners[(s.agentId, id)].port > 0
    ensures forall k :: k in a.listeners && k != (s.agentId, id) ==> a.listeners[k].port != a.listeners[(s.agentId, id)].port
  {
    assert ListenerOk(a, (s.agentId, id), a.listeners[(s.agentId, id)]);
  }
}
