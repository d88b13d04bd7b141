/** The gateway actor (internal/gateway/actor.go:206-616): which session is live for each agent, and
    which public listeners it owns. Every command runs alone on the actor's goroutine, so a command
    is one step. The listening sockets of the machine are an environment: a listen succeeds on a port
    nobody holds, or fails. Bandwidth limiters and the event ring are not part of this model. */
module Actors {
  import opened TunnelConfig
  import opened Policies
  import opened Prelude

  /** One connected agent. The id stands for the session's identity (its pointer in the code). */
  datatype Session = Session(id: nat, agentId: string, scope: Scope)

  /** One bound public port. The serial stands for the listener's identity. */
  datatype Listener = Listener(serial: nat, spec: TunnelSpec, owner: Session, port: int)

  /** Anti-flap record: when the agent id was last superseded, and the penalty then armed. */
  datatype Damp = Damp(last: int, penalty: int)

  type Key = (string, string)

  /** The actor as a value; listeners are keyed by agent and tunnel. sessions and serials count what
      has been handed out, and gens is the history of admissions. */
  datatype ActorS = ActorS(
    agents: map<string, Session>, generation: nat, listeners: map<Key, Listener>, evicted: set<nat>,
    damp: map<string, Damp>, sessions: nat, serials: nat, gens: map<nat, nat>)

  const FRESH := ActorS(map[], 0, map[], {}, map[], 0, 0, map[])

  /** What a listen meets outside: ports other processes hold, ports refused for another reason, and
      the port the operating system would pick. A number that is no port is refused. */
  datatype Env = Env(foreign: set<int>, denied: set<int>, pick: int)

  datatype Listen = Bound(port: int) | InUse | Refused

  function OpenPorts(ls: map<Key, Listener>): set<int> { set k | k in ls :: ls[k].port }

  function ListenOn(held: set<int>, env: Env, port: int): Listen {
    if port == 0 then
      if 0 < env.pick <= 65535 && env.pick !in held && env.pick !in env.foreign then Bound(env.pick) else Refused
    else if port < 0 || port > 65535 || port in env.denied then Refused
    else if port in held || port in env.foreign then InUse
    else Bound(port)
  }

  function FirstFree(held: set<int>, env: Env, candidates: seq<int>): Option<int> {
    if candidates == [] then None
    else
      var r := ListenOn(held, env, candidates[0]);
      if r.Bound? then Some(r.port) else FirstFree(held, env, candidates[1..])
  }

  /** The port a bind ends up on: the one asked for, or when that is taken the first free candidate. */
  function PortFor(held: set<int>, env: Env, requested: int, pol: Policy): Option<int> {
    match ListenOn(held, env, requested)
    case Bound(p) => Some(p)
    case Refused => None
    case InUse => FirstFree(held, env, CandidatesOf(requested, pol))
  }

  // ------------------------------------------------------------------------------------------
  // Commands.

  predicate Live(a: ActorS, s: Session) {
    s.agentId in a.agents && a.agents[s.agentId] == s && s.id !in a.evicted
  }

  /** The listeners of every other agent. */
  function Others(ls: map<Key, Listener>, agentId: string): map<Key, Listener> {
    map k | k in ls && k.0 != agentId :: ls[k]
  }

  /** evict: the agent's entry and all its listeners go, whoever else is connected. */
  function EvictS(a: ActorS, s: Session): ActorS {
    a.(agents := a.agents - {s.agentId}, evicted := a.evicted + {s.id},
       listeners := Others(a.listeners, s.agentId))
  }

  const FLAP_WINDOW := 2000
  const BASE_PENALTY := 1000
  const CAP_PENALTY := 30000

  /** noteSupersede. */
  function NoteS(damp: map<string, Damp>, agentId: string, now: int): map<string, Damp> {
    var penalty :=
      if agentId in damp && now - damp[agentId].last < FLAP_WINDOW then
        if damp[agentId].penalty == 0 then BASE_PENALTY else Min(2 * damp[agentId].penalty, CAP_PENALTY)
      else 0;
    damp[agentId := Damp(now, penalty)]
  }

  /** The newcomer must back off. */
  predicate Dampened(a: ActorS, agentId: string, now: int) {
    && agentId in a.agents && agentId in a.damp
    && a.damp[agentId].penalty > 0 && now - a.damp[agentId].last < a.damp[agentId].penalty
  }

  /** admit of a new session; the result is its generation, or nothing when dampened. */
  function AdmitS(a: ActorS, agentId: string, scope: Scope, now: int): (ActorS, Option<nat>) {
    var s := Session(a.sessions, agentId, scope);
    var a0 := a.(sessions := a.sessions + 1);
    if Dampened(a, agentId, now) then (a0, None)
    else
      var a1 := if agentId in a.agents then
                  EvictS(a0, a.agents[agentId]).(damp := NoteS(a.damp, agentId, now))
                else a0;
      (a1.(agents := a1.agents[agentId := s], generation := a.generation + 1, gens := a.gens[s.id := a.generation + 1]),
       Some(a.generation + 1))
  }

  function DisconnectedS(a: ActorS, s: Session): ActorS {
    if s.agentId in a.agents && a.agents[s.agentId] == s then EvictS(a, s) else a
  }

  /** bindLocked. */
  function BindS(a: ActorS, s: Session, spec: TunnelSpec, allowlist: seq<int>, env: Env): (ActorS, Outcome) {
    var key := (s.agentId, spec.id);
    var ls := a.listeners - {key};
    match PortFor(OpenPorts(ls), env, spec.publicPort, Policy(s.scope, allowlist))
    case None => (a.(listeners := ls), Outcome(spec.id, 0, false))
    case Some(p) =>
      (a.(listeners := ls[key := Listener(a.serials, spec, s, p)], serials := a.serials + 1), Outcome(spec.id, p, true))
  }

  function BindTunnelS(a: ActorS, s: Session, spec: TunnelSpec, allowlist: seq<int>, env: Env): (ActorS, Outcome) {
    if Live(a, s) then BindS(a, s, spec, allowlist, env) else (a, Outcome(spec.id, 0, false))
  }

  function UnbindS(a: ActorS, s: Session, tunnelId: string): ActorS {
    var key := (s.agentId, tunnelId);
    if key in a.listeners && a.listeners[key].owner == s then a.(listeners := a.listeners - {key}) else a
  }

  predicate SameListener(x: TunnelSpec, y: TunnelSpec) {
    && x.id == y.id && x.name == y.name && x.kind == y.kind && x.publicPort == y.publicPort
    && x.offlineMotd == y.offlineMotd && x.minecraftAware == y.minecraftAware
  }

  predicate Prunable(ls: map<Key, Listener>, s: Session, want: set<string>, k: Key)
    requires k in ls
  {
    k.0 == s.agentId && k.1 !in want && ls[k].owner == s
  }

  /** The listeners a prune leaves: all but the session's own that are not wanted. */
  function Pruned(ls: map<Key, Listener>, s: Session, want: set<string>): map<Key, Listener> {
    map k | k in ls && !Prunable(ls, s, want, k) :: ls[k]
  }

  /** The first half of reconcile. */
  function PruneS(a: ActorS, s: Session, want: set<string>): ActorS {
    a.(listeners := Pruned(a.listeners, s, want))
  }

  function EnsureS(a: ActorS, s: Session, spec: TunnelSpec, allowlist: seq<int>, env: Env): (ActorS, Outcome) {
    var key := (s.agentId, spec.id);
    if key in a.listeners && SameListener(a.listeners[key].spec, spec) then
      (a, Outcome(spec.id, a.listeners[key].port, true))
    else BindS(a, s, spec, allowlist, env)
  }

  function EnsureAll(a: ActorS, s: Session, desired: seq<TunnelSpec>, allowlist: seq<int>, envs: seq<Env>)
    : (r: (ActorS, seq<Outcome>))
    requires |envs| >= |desired|
    ensures |r.1| == |desired|
  {
    if desired == [] then (a, [])
    else
      var n := |desired| - 1;
      var (b, outs) := EnsureAll(a, s, desired[..n], allowlist, envs);
      var (c, o) := EnsureS(b, s, desired[n], allowlist, envs[n]);
      (c, outs + [o])
  }

  function AllFailed(desired: seq<TunnelSpec>): seq<Outcome> {
    seq(|desired|, i requires 0 <= i < |desired| => Outcome(desired[i].id, 0, false))
  }

  /** reconcile. */
  function ReconcileS(a: ActorS, s: Session, desired: seq<TunnelSpec>, allowlist: seq<int>, envs: seq<Env>)
    : (r: (ActorS, seq<Outcome>))
    requires |envs| >= |desired|
    ensures |r.1| == |desired|
  {
    if !Live(a, s) then (a, AllFailed(desired))
    else EnsureAll(PruneS(a, s, Ids(desired)), s, desired, allowlist, envs)
  }

  // ------------------------------------------------------------------------------------------
  // The actor in place, with the code's nested map.

  type Nested = map<string, map<string, Listener>>

  function Sub(m: Nested, agentId: string): map<string, Listener> { if agentId in m then m[agentId] else map[] }

  /** flat is the nested map read by agent and tunnel. An agent without listeners may have an empty
      entry or none. */
  ghost predicate Flattens(flat: map<Key, Listener>, m: Nested) {
    && (forall a, t :: (a, t) in flat <==> t in Sub(m, a))
    && (forall a, t :: (a, t) in flat ==> flat[(a, t)] == Sub(m, a)[t])
  }

  lemma FlattensRemove(flat: map<Key, Listener>, m: Nested, agentId: string, tunnelId: string)
    requires Flattens(flat, m)
    ensures Flattens(flat - {(agentId, tunnelId)}, m[agentId := Sub(m, agentId) - {tunnelId}])
  {
  }

  lemma FlattensPut(flat: map<Key, Listener>, m: Nested, agentId: string, tunnelId: string, l: Listener)
    requires Flattens(flat, m)
    ensures Flattens(flat[(agentId, tunnelId) := l], m[agentId := Sub(m, agentId)[tunnelId := l]])
  {
  }

  lemma FlattensDrop(flat: map<Key, Listener>, m: Nested, agentId: string)
    requires Flattens(flat, m)
    ensures Flattens(Others(flat, agentId), m - {agentId})
  {
  }

  lemma FlattensEmpty(flat: map<Key, Listener>, m: Nested, agentId: string)
    requires Flattens(flat, m) && Sub(m, agentId) == map[]
    ensures Flattens(flat, m - {agentId})
  {
  }

  /** A prune under way, with some ids still to do. */
  function PrunedBut(ls: map<Key, Listener>, s: Session, want: set<string>, left: set<string>): map<Key, Listener> {
    map k | k in ls && !(Prunable(ls, s, want, k) && k.1 !in left) :: ls[k]
  }

  lemma PruneStarts(ls: map<Key, Listener>, m: Nested, s: Session, want: set<string>, left: set<string>)
    requires Flattens(ls, m) && left == set id | id in Sub(m, s.agentId) && id !in want
    ensures PrunedBut(ls, s, want, left) == ls
  {
    forall k | k in ls && Prunable(ls, s, want, k)
      ensures k.1 in left
    {
      assert k == (k.0, k.1);
    }
  }

  lemma PruneOne(ls: map<Key, Listener>, s: Session, want: set<string>, left: set<string>, id: string)
    requires id in left && id !in want
    ensures var b := PrunedBut(ls, s, want, left);
      var key := (s.agentId, id);
      PrunedBut(ls, s, want, left - {id}) == if key in b && b[key].owner == s then b - {key} else b
  {
    var b := PrunedBut(ls, s, want, left);
    var c := PrunedBut(ls, s, want, left - {id});
    var key := (s.agentId, id);
    forall k: Key
      ensures k in c <==> k in b && !(k == key && b[k].owner == s)
    {
    }
  }

  lemma PruneEnds(ls: map<Key, Listener>, s: Session, want: set<string>)
    ensures PrunedBut(ls, s, want, {}) == Pruned(ls, s, want)
  {
  }

  class Actor {
    var agents: map<string, Session>
    var generation: nat
    var listeners: Nested
    var evicted: set<nat>
    var admitDamp: map<string, Damp>
    var sessions: nat
    var serials: nat
    ghost var gens: map<nat, nat>

    ghost var flat: map<Key, Listener>

    ghost predicate Valid()
      reads this
    {
      Flattens(flat, listeners)
    }

    ghost function State(): ActorS
      reads this
    {
      ActorS(agents, generation, flat, evicted, admitDamp, sessions, serials, gens)
    }

    constructor ()
      ensures Valid() && State() == FRESH
    {
      agents, generation, listeners, evicted := map[], 0, map[], {};
      admitDamp, sessions, serials, gens := map[], 0, 0, map[];
      flat := map[];
    }

    method Evict(s: Session)
      requires Valid()
      modifies this
      ensures Valid() && State() == EvictS(old(State()), s)
    {
      FlattensDrop(flat, listeners, s.agentId);
      agents := agents - {s.agentId};
      evicted := evicted + {s.id};
      listeners := listeners - {s.agentId};
      flat := Others(flat, s.agentId);
    }

    method NoteSupersede(agentId: string, now: int)
      modifies this`admitDamp
      ensures admitDamp == NoteS(old(admitDamp), agentId, now)
    {
      var penalty := 0;
      if agentId in admitDamp && now - admitDamp[agentId].last < FLAP_WINDOW {
        if admitDamp[agentId].penalty == 0 {
          penalty := BASE_PENALTY;
        } else {
          penalty := Min(2 * admitDamp[agentId].penalty, CAP_PENALTY);
        }
      }
      admitDamp := admitDamp[agentId := Damp(now, penalty)];
    }

    method Supersede(agentId: string, now: int)
      requires Valid() && agentId in agents
      modifies this
      ensures Valid()
      ensures State() == EvictS(old(State()), old(agents)[agentId]).(damp := NoteS(old(admitDamp), agentId, now))
    {
      Evict(agents[agentId]);
      NoteSupersede(agentId, now);
    }

    method Admit(agentId: string, scope: Scope, now: int) returns (gen: Option<nat>)
      requires Valid()
      modifies this
      ensures Valid() && (State(), gen) == AdmitS(old(State()), agentId, scope, now)
    {
      var s := Session(sessions, agentId, scope);
      sessions := sessions + 1;
      if agentId in agents {
        if agentId in admitDamp && admitDamp[agentId].penalty > 0
           && now - admitDamp[agentId].last < admitDamp[agentId].penalty
        {
          return None;
        }
        Supersede(agentId, now);
      }
      generation := generation + 1;
      gens := gens[s.id := generation];
      agents := agents[agentId := s];
      gen := Some(generation);
    }

    method Disconnected(s: Session)
      requires Valid()
      modifies this
      ensures Valid() && State() == DisconnectedS(old(State()), s)
    {
      if s.agentId !in agents || agents[s.agentId] != s {
        return;
      }
      Evict(s);
    }

    /** listenFirstFree. */
    method ListenFirstFree(candidates: seq<int>, env: Env) returns (port: Option<int>)
      requires Valid()
      ensures port == FirstFree(OpenPorts(flat), env, candidates)
    {
      ghost var held := OpenPorts(flat);
      for i := 0 to |candidates|
        invariant FirstFree(held, env, candidates) == FirstFree(held, env, candidates[i..])
      {
        assert candidates[i..][1..] == candidates[i + 1..];
        var r := TryListen(candidates[i], env);
        if r.Bound? {
          return Some(r.port);
        }
      }
      port := None;
    }

    /** A listen meets the ports this gateway itself holds. */
    method TryListen(port: int, env: Env) returns (r: Listen)
      requires Valid()
      ensures r == ListenOn(OpenPorts(flat), env, port)
    {
      var held := set a, t | a in listeners && t in listeners[a] :: listeners[a][t].port;
      HeldPorts(flat, listeners, held);
      r := ListenOn(held, env, port);
    }

    /** The tunnel's previous listener, if any, is closed before its port is tried again. */
    method CloseOld(agentId: string, tunnelId: string)
      requires Valid()
      modifies this`listeners, this`flat
      ensures Valid() && flat == old(flat) - {(agentId, tunnelId)}
    {
      var subtree := Sub(listeners, agentId);
      if tunnelId in subtree {
        FlattensRemove(flat, listeners, agentId, tunnelId);
        listeners := listeners[agentId := subtree - {tunnelId}];
        flat := flat - {(agentId, tunnelId)};
      } else {
        assert (agentId, tunnelId) !in flat;
        assert flat - {(agentId, tunnelId)} == flat;
      }
    }

    /** The port to serve on: the requested one, or when it is in use the first free candidate. */
    method ChoosePort(requested: int, pol: Policy, env: Env) returns (port: Option<int>)
      requires Valid()
      ensures port == PortFor(OpenPorts(flat), env, requested, pol)
    {
      var r := TryListen(requested, env);
      if r.Bound? {
        return Some(r.port);
      }
      if r.Refused? {
        return None;
      }
      var candidates := ReassignCandidates(requested, pol);
      port := ListenFirstFree(candidates, env);
    }

    method BindLocked(s: Session, spec: TunnelSpec, allowlist: seq<int>, env: Env) returns (o: Outcome)
      requires Valid()
      modifies this`listeners, this`flat, this`serials
      ensures Valid() && (State(), o) == BindS(old(State()), s, spec, allowlist, env)
    {
      CloseOld(s.agentId, spec.id);
      var port := ChoosePort(spec.publicPort, Policy(s.scope, allowlist), env);
      if port.None? {
        return Outcome(spec.id, 0, false);
      }
      var l := Listener(serials, spec, s, port.value);
      FlattensPut(flat, listeners, s.agentId, spec.id, l);
      listeners := listeners[s.agentId := Sub(listeners, s.agentId)[spec.id := l]];
      flat := flat[(s.agentId, spec.id) := l];
      serials := serials + 1;
      o := Outcome(spec.id, port.value, true);
    }

    method BindTunnel(s: Session, spec: TunnelSpec, allowlist: seq<int>, env: Env) returns (o: Outcome)
      requires Valid()
      modifies this
      ensures Valid() && (State(), o) == BindTunnelS(old(State()), s, spec, allowlist, env)
    {
      if s.agentId !in agents || agents[s.agentId] != s || s.id in evicted {
        return Outcome(spec.id, 0, false);
      }
      o := BindLocked(s, spec, allowlist, env);
    }

    method UnbindLocked(s: Session, tunnelId: string)
      requires Valid()
      modifies this`listeners, this`flat
      ensures Valid() && State() == UnbindS(old(State()), s, tunnelId)
    {
      var subtree := Sub(listeners, s.agentId);
      assert tunnelId in subtree <==> (s.agentId, tunnelId) in flat;
      if tunnelId !in subtree || subtree[tunnelId].owner != s {
        return;
      }
      CloseOld(s.agentId, tunnelId);
      DropEmpty(s.agentId);
    }

    /** An agent left without listeners leaves the map. */
    method DropEmpty(agentId: string)
      requires Valid()
      modifies this`listeners
      ensures Valid()
    {
      if |Sub(listeners, agentId)| == 0 {
        FlattensEmpty(flat, listeners, agentId);
        listeners := listeners - {agentId};
      }
    }

    /** The first half of reconcile, over the ids collected before anything is removed. */
    method Prune(s: Session, want: set<string>)
      requires Valid()
      modifies this`listeners, this`flat
      ensures Valid() && State() == PruneS(old(State()), s, want)
    {
      var remove := set id | id in Sub(listeners, s.agentId) && id !in want;
      ghost var before := flat;
      PruneStarts(before, listeners, s, want, remove);
      while remove != {}
        invariant Valid() && State() == old(State()).(listeners := PrunedBut(before, s, want, remove))
        invariant forall id :: id in remove ==> id !in want
        decreases |remove|
      {
        var id :| id in remove;
        PruneOne(before, s, want, remove, id);
        UnbindLocked(s, id);
        remove := remove - {id};
      }
      PruneEnds(before, s, want);
    }

    method Reconcile(s: Session, desired: seq<TunnelSpec>, allowlist: seq<int>, envs: seq<Env>)
      returns (outcomes: seq<Outcome>)
      requires Valid() && |envs| >= |desired|
      modifies this
      ensures Valid() && (State(), outcomes) == ReconcileS(old(State()), s, desired, allowlist, envs)
    {
      if s.agentId !in agents || agents[s.agentId] != s || s.id in evicted {
        return AllFailed(desired);
      }
      Prune(s, Ids(desired));
      ghost var pruned := State();
      outcomes := [];
      for i := 0 to |desired|
        invariant Valid() && (State(), outcomes) == EnsureAll(pruned, s, desired[..i], allowlist, envs)
      {
        assert desired[..i + 1][..i] == desired[..i];
        var spec := desired[i];
        var subtree := Sub(listeners, s.agentId);
        assert spec.id in subtree <==> (s.agentId, spec.id) in flat;
        if spec.id in subtree && SameListener(subtree[spec.id].spec, spec) {
          outcomes := outcomes + [Outcome(spec.id, subtree[spec.id].port, true)];
        } else {
          var o := BindLocked(s, spec, allowlist, envs[i]);
          outcomes := outcomes + [o];
        }
      }
      assert desired[..|desired|] == desired;
    }
  }

  lemma HeldPorts(flat: map<Key, Listener>, m: Nested, held: set<int>)
    requires Flattens(flat, m)
    requires held == set a, t | a in m && t in m[a] :: m[a][t].port
    ensures held == OpenPorts(flat)
  {
    forall k: Key | k in flat
      ensures flat[k].port in held
    {
      assert k == (k.0, k.1) && k.1 in Sub(m, k.0);
    }
    forall a, t | a in m && t in m[a]
      ensures m[a][t].port in OpenPorts(flat)
    {
      assert (a, t) in flat;
    }
  }
}
