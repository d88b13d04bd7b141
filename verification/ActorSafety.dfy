/** What every command of the gateway actor keeps, and what reconcile achieves. */
module ActorSafety {
  import opened Prelude
  import opened TunnelConfig
  import opened Policies
  import opened Actors

  /** A command with its outside circumstances. The session of a command may be any, live or stale. */
  datatype Event =
    | Admit(agentId: string, scope: Scope, now: int)
    | Disconnected(s: Session)
    | BindTunnel(s: Session, spec: TunnelSpec, env: Env)
    | Unbind(s: Session, tunnelId: string)
    | Reconcile(s: Session, desired: seq<TunnelSpec>, envs: seq<Env>)

  /** One command, as the gateway issues it: specs are validated against the session's scope and the
      allowlist before the actor sees them. */
  function Step(allowlist: seq<int>, a: ActorS, e: Event): ActorS {
    match e
    case Admit(agentId, scope, now) => AdmitS(a, agentId, scope, now).0
    case Disconnected(s) => DisconnectedS(a, s)
    case BindTunnel(s, spec, env) =>
      if SpecValid(Policy(s.scope, allowlist), spec) then BindTunnelS(a, s, spec, allowlist, env).0 else a
    case Unbind(s, tunnelId) => UnbindS(a, s, tunnelId)
    case Reconcile(s, desired, envs) =>
      var valid := ValidOf(Policy(s.scope, allowlist), desired);
      if |envs| >= |valid| then ReconcileS(a, s, valid, allowlist, envs).0 else a
  }

  function Run(allowlist: seq<int>, a: ActorS, events: seq<Event>): ActorS {
    if events == [] then a else Step(allowlist, Run(allowlist, a, events[..|events| - 1]), events[|events| - 1])
  }

  // ------------------------------------------------------------------------------------------
  // The invariant.

  ghost predicate SessionsOk(a: ActorS) {
    && (forall x :: x in a.agents ==>
          a.agents[x].agentId == x && a.agents[x].id < a.sessions && a.agents[x].id !in a.evicted)
    && (forall i :: i in a.evicted ==> i < a.sessions)
    && (forall x, y :: x in a.agents && y in a.agents && x != y ==> a.agents[x].id != a.agents[y].id)
  }

  /** A listener belongs to its agent's live session and carries the tunnel it is stored under. */
  ghost predicate ListenerOk(a: ActorS, k: Key, l: Listener) {
    && k.0 in a.agents && a.agents[k.0] == l.owner
    && l.spec.id == k.1 && 0 < l.port <= 65535 && l.serial < a.serials
  }

  /** A listener serves a TCP tunnel its agent's scope lists, if it lists any, and one that asked for
      a port is on one that scope and allowlist permit. */
  ghost predicate PolicyOk(allowlist: seq<int>, l: Listener) {
    && l.spec.id != "" && l.spec.kind == "tcp"
    && (l.owner.scope.tunnelIds == [] || l.spec.id in l.owner.scope.tunnelIds)
    && (l.spec.publicPort != 0 ==>
          && (l.owner.scope.ports == [] || l.port in l.owner.scope.ports)
          && (allowlist == [] || l.port in allowlist))
  }

  ghost predicate PortsDistinct(ls: map<Key, Listener>) {
    forall j, k :: j in ls && k in ls && j != k ==> ls[j].port != ls[k].port
  }

  ghost predicate SerialsDistinct(ls: map<Key, Listener>) {
    forall j, k :: j in ls && k in ls && j != k ==> ls[j].serial != ls[k].serial
  }

  ghost predicate ListenersOk(allowlist: seq<int>, a: ActorS) {
    && (forall k :: k in a.listeners ==> ListenerOk(a, k, a.listeners[k]))
    && (forall k :: k in a.listeners ==> PolicyOk(allowlist, a.listeners[k]))
    && PortsDistinct(a.listeners) && SerialsDistinct(a.listeners)
  }

  /** Later admissions have larger generations. */
  ghost predicate GensOk(a: ActorS) {
    && (forall i :: i in a.gens ==> i < a.sessions && a.gens[i] <= a.generation)
    && (forall i, j :: i in a.gens && j in a.gens && i < j ==> a.gens[i] < a.gens[j])
    && (forall x :: x in a.agents ==> a.agents[x].id in a.gens)
  }

  ghost predicate Inv(allowlist: seq<int>, a: ActorS) {
    SessionsOk(a) && ListenersOk(allowlist, a) && GensOk(a)
  }

  // ------------------------------------------------------------------------------------------
  // Binding.

  lemma {:induction false} FirstFreeIs(held: set<int>, env: Env, candidates: seq<int>)
    requires FirstFree(held, env, candidates).Some?
    ensures var p := FirstFree(held, env, candidates).value;
      p !in held && p !in env.foreign && p <= 65535 && (p in candidates || (0 in candidates && p == env.pick > 0))
  {
    if !ListenOn(held, env, candidates[0]).Bound? {
      FirstFreeIs(held, env, candidates[1..]);
    }
  }

  /** A port that is chosen is free, positive, and, when a valid port was asked for, within policy:
      reassignment never leaves scope or allowlist. */
  lemma PortForFree(held: set<int>, env: Env, spec: TunnelSpec, pol: Policy)
    requires SpecValid(pol, spec) && PortFor(held, env, spec.publicPort, pol).Some?
    ensures var p := PortFor(held, env, spec.publicPort, pol).value;
      && p !in held && p !in env.foreign && 0 < p <= 65535
      && (spec.publicPort != 0 ==> PortAllowed(pol, p))
  {
    if ListenOn(held, env, spec.publicPort).InUse? {
      FirstFreeIs(held, env, CandidatesOf(spec.publicPort, pol));
      CandidatesExact(spec.publicPort, pol);
    }
  }

  lemma OpenPortsHas(ls: map<Key, Listener>, k: Key)
    requires k in ls
    ensures ls[k].port in OpenPorts(ls)
  {
  }

  lemma FewerListeners(allowlist: seq<int>, a: ActorS, ls: map<Key, Listener>)
    requires Inv(allowlist, a)
    requires forall k :: k in ls ==> k in a.listeners && ls[k] == a.listeners[k]
    ensures Inv(allowlist, a.(listeners := ls))
  {
    var b := a.(listeners := ls);
    forall k | k in b.listeners
      ensures ListenerOk(b, k, b.listeners[k])
    {
      assert ListenerOk(a, k, a.listeners[k]);
    }
  }

  lemma {:induction false} OneMorePort(ls: map<Key, Listener>, key: Key, l: Listener, serials: nat)
    requires PortsDistinct(ls) && SerialsDistinct(ls) && key !in ls && l.port !in OpenPorts(ls)
    requires forall k :: k in ls ==> ls[k].serial != l.serial
    ensures PortsDistinct(ls[key := l]) && SerialsDistinct(ls[key := l])
  {
    forall k | k in ls
      ensures ls[k].port != l.port
    {
      OpenPortsHas(ls, k);
    }
  }

  lemma {:induction false} OneMore(allowlist: seq<int>, a: ActorS, key: Key, l: Listener)
    requires Inv(allowlist, a) && key !in a.listeners && l.serial == a.serials
    requires ListenerOk(a.(serials := a.serials + 1), key, l) && PolicyOk(allowlist, l) && l.port !in OpenPorts(a.listeners)
    ensures Inv(allowlist, a.(listeners := a.listeners[key := l], serials := a.serials + 1))
  {
    var b := a.(listeners := a.listeners[key := l], serials := a.serials + 1);
    forall k | k in a.listeners
      ensures ListenerOk(b, k, a.listeners[k]) && PolicyOk(allowlist, a.listeners[k]) && a.listeners[k].serial != l.serial
    {
      assert ListenerOk(a, k, a.listeners[k]);
    }
    OneMorePort(a.listeners, key, l, a.serials);
  }

  lemma BindKeeps(allowlist: seq<int>, a: ActorS, s: Session, spec: TunnelSpec, env: Env)
    requires Inv(allowlist, a) && Live(a, s) && SpecValid(Policy(s.scope, allowlist), spec)
    ensures Inv(allowlist, BindS(a, s, spec, allowlist, env).0)
  {
    var key := (s.agentId, spec.id);
    var ls := a.listeners - {key};
    var b := a.(listeners := ls);
    FewerListeners(allowlist, a, ls);
    var port := PortFor(OpenPorts(ls), env, spec.publicPort, Policy(s.scope, allowlist));
    if port.Some? {
      PortForFree(OpenPorts(ls), env, spec, Policy(s.scope, allowlist));
      OneMore(allowlist, b, key, Listener(a.serials, spec, s, port.value));
    }
  }

  lemma {:induction false} EnsureAllKeeps(allowlist: seq<int>, a: ActorS, s: Session, desired: seq<TunnelSpec>, envs: seq<Env>)
    requires Inv(allowlist, a) && Live(a, s) && |envs| >= |desired| && AllValid(Policy(s.scope, allowlist), desired)
    ensures Inv(allowlist, EnsureAll(a, s, desired, allowlist, envs).0)
    ensures Live(EnsureAll(a, s, desired, allowlist, envs).0, s)
  {
    if desired != [] {
      var n := |desired| - 1;
      EnsureAllKeeps(allowlist, a, s, desired[..n], envs);
      var b := EnsureAll(a, s, desired[..n], allowlist, envs).0;
      BindKeeps(allowlist, b, s, desired[n], envs[n]);
    }
  }

  lemma EvictKeeps(allowlist: seq<int>, a: ActorS, s: Session)
    requires Inv(allowlist, a) && s.agentId in a.agents && a.agents[s.agentId] == s
    ensures Inv(allowlist, EvictS(a, s))
  {
    var b := EvictS(a, s);
    forall x | x in b.agents
      ensures b.agents[x].id !in b.evicted
    {
      assert x != s.agentId;
    }
    forall k | k in b.listeners
      ensures ListenerOk(b, k, b.listeners[k])
    {
      assert ListenerOk(a, k, a.listeners[k]);
    }
  }

  /** Listeners stay in order when their owners keep their entries. */
  lemma SameListeners(allowlist: seq<int>, a: ActorS, b: ActorS)
    requires ListenersOk(allowlist, a) && b.listeners == a.listeners && b.serials == a.serials
    requires forall k :: k in a.listeners ==> k.0 in b.agents && b.agents[k.0] == a.agents[k.0]
    ensures ListenersOk(allowlist, b)
  {
    forall k | k in b.listeners
      ensures ListenerOk(b, k, b.listeners[k])
    {
      assert ListenerOk(a, k, a.listeners[k]);
    }
  }

  lemma NewGen(a: ActorS, b: ActorS, s: Session)
    requires GensOk(a) && s.id == a.sessions && b.sessions == a.sessions + 1 && b.generation == a.generation + 1
    requires b.gens == a.gens[s.id := b.generation]
    requires forall x :: x in b.agents ==> b.agents[x] == s || (x in a.agents && b.agents[x] == a.agents[x])
    ensures GensOk(b)
  {
  }

  lemma NewEntry(a: ActorS, b: ActorS, s: Session)
    requires SessionsOk(a) && s.id == a.sessions && b.sessions == a.sessions + 1
    requires s.agentId !in a.agents && b.agents == a.agents[s.agentId := s] && b.evicted == a.evicted
    ensures SessionsOk(b)
  {
  }

  /** A new session under an agent id that is free. */
  lemma EntryKeeps(allowlist: seq<int>, a: ActorS, s: Session)
    requires Inv(allowlist, a) && s.id == a.sessions && s.agentId !in a.agents
    ensures Inv(allowlist, a.(sessions := a.sessions + 1, agents := a.agents[s.agentId := s],
                              generation := a.generation + 1, gens := a.gens[s.id := a.generation + 1]))
  {
    var b := a.(sessions := a.sessions + 1, agents := a.agents[s.agentId := s],
                generation := a.generation + 1, gens := a.gens[s.id := a.generation + 1]);
    NewGen(a, b, s);
    NewEntry(a, b, s);
    forall k | k in a.listeners
      ensures k.0 in a.agents
    {
      assert ListenerOk(a, k, a.listeners[k]);
    }
    SameListeners(allowlist, a, b);
  }

  /** The record is no part of the invariant. */
  lemma DampFree(allowlist: seq<int>, a: ActorS, damp: map<string, Damp>)
    requires Inv(allowlist, a)
    ensures Inv(allowlist, a.(damp := damp))
  {
    SameListeners(allowlist, a, a.(damp := damp));
  }

  /** Sessions may be handed out and refused. */
  lemma RefusedKeeps(allowlist: seq<int>, a: ActorS)
    requires Inv(allowlist, a)
    ensures Inv(allowlist, a.(sessions := a.sessions + 1))
  {
    forall k | k in a.listeners
      ensures k.0 in a.agents
    {
      assert ListenerOk(a, k, a.listeners[k]);
    }
    SameListeners(allowlist, a, a.(sessions := a.sessions + 1));
  }

  lemma AdmitKeeps(allowlist: seq<int>, a: ActorS, agentId: string, scope: Scope, now: int)
    requires Inv(allowlist, a)
    ensures Inv(allowlist, AdmitS(a, agentId, scope, now).0)
  {
    var s := Session(a.sessions, agentId, scope);
    if Dampened(a, agentId, now) {
      RefusedKeeps(allowlist, a);
    } else if agentId in a.agents {
      var a1 := EvictS(a, a.agents[agentId]);
      EvictKeeps(allowlist, a, a.agents[agentId]);
      DampFree(allowlist, a1, NoteS(a.damp, agentId, now));
      EntryKeeps(allowlist, a1.(damp := NoteS(a.damp, agentId, now)), s);
    } else {
      EntryKeeps(allowlist, a, s);
    }
  }

  lemma StepKeeps(allowlist: seq<int>, a: ActorS, e: Event)
    requires Inv(allowlist, a)
    ensures Inv(allowlist, Step(allowlist, a, e))
  {
    match e
    case Admit(agentId, scope, now) => AdmitKeeps(allowlist, a, agentId, scope, now);
    case Disconnected(s) =>
      if s.agentId in a.agents && a.agents[s.agentId] == s {
        EvictKeeps(allowlist, a, s);
      }
    case BindTunnel(s, spec, env) =>
      if SpecValid(Policy(s.scope, allowlist), spec) && Live(a, s) {
        BindKeeps(allowlist, a, s, spec, env);
      }
    case Unbind(s, tunnelId) =>
      FewerListeners(allowlist, a, a.listeners - {(s.agentId, tunnelId)});
    case Reconcile(s, desired, envs) =>
      var valid := ValidOf(Policy(s.scope, allowlist), desired);
      if |envs| >= |valid| && Live(a, s) {
        ValidExact(Policy(s.scope, allowlist), desired);
        FewerListeners(allowlist, a, Pruned(a.listeners, s, Ids(valid)));
        EnsureAllKeeps(allowlist, PruneS(a, s, Ids(valid)), s, valid, envs);
      }
  }

  /** Safety, over every run of commands from every session, live or stale, under every circumstance
      outside: each listener is owned by its agent's live, unevicted session and carries its tunnel's
      id, no two hold the same port, the tunnel is one the agent's scope lists, whoever asked for a port
      is within scope and allowlist, and generations grow from one admission to the next. */
  lemma {:induction false} ActorSafe(allowlist: seq<int>, events: seq<Event>)
    ensures Inv(allowlist, Run(allowlist, FRESH, events))
  {
    if events != [] {
      var n := |events| - 1;
      ActorSafe(allowlist, events[..n]);
      StepKeeps(allowlist, Run(allowlist, FRESH, events[..n]), events[n]);
    }
  }

  // ------------------------------------------------------------------------------------------
  // Evicted for good.

  lemma {:induction false} EnsureAllFrame(a: ActorS, s: Session, desired: seq<TunnelSpec>, allowlist: seq<int>, envs: seq<Env>)
    requires |envs| >= |desired|
    ensures var b := EnsureAll(a, s, desired, allowlist, envs).0;
      b == a.(listeners := b.listeners, serials := b.serials)
    ensures Others(EnsureAll(a, s, desired, allowlist, envs).0.listeners, s.agentId) == Others(a.listeners, s.agentId)
  {
    if desired != [] {
      var n := |desired| - 1;
      EnsureAllFrame(a, s, desired[..n], allowlist, envs);
      var b := EnsureAll(a, s, desired[..n], allowlist, envs).0;
      EnsureFrame(b, s, desired[n], allowlist, envs[n]);
    }
  }

  lemma EnsureFrame(a: ActorS, s: Session, spec: TunnelSpec, allowlist: seq<int>, env: Env)
    ensures var b := EnsureS(a, s, spec, allowlist, env).0;
      b == a.(listeners := b.listeners, serials := b.serials)
      && Others(b.listeners, s.agentId) == Others(a.listeners, s.agentId)
  {
  }

  lemma EvictedStep(allowlist: seq<int>, a: ActorS, e: Event)
    ensures a.evicted <= Step(allowlist, a, e).evicted && a.generation <= Step(allowlist, a, e).generation
  {
    match e
    case Reconcile(s, desired, envs) =>
      var valid := ValidOf(Policy(s.scope, allowlist), desired);
      if |envs| >= |valid| && Live(a, s) {
        EnsureAllFrame(PruneS(a, s, Ids(valid)), s, valid, allowlist, envs);
      }
    case _ =>
  }

  lemma {:induction false} RunFrom(allowlist: seq<int>, a: ActorS, events: seq<Event>)
    requires Inv(allowlist, a)
    ensures Inv(allowlist, Run(allowlist, a, events)) && a.evicted <= Run(allowlist, a, events).evicted
    ensures a.generation <= Run(allowlist, a, events).generation
  {
    if events != [] {
      var n := |events| - 1;
      RunFrom(allowlist, a, events[..n]);
      StepKeeps(allowlist, Run(allowlist, a, events[..n]), events[n]);
      EvictedStep(allowlist, Run(allowlist, a, events[..n]), events[n]);
    }
  }

  /** Once a session is evicted, no later run gives it back its entry or any listener. */
  lemma EvictedForGood(allowlist: seq<int>, a: ActorS, events: seq<Event>, s: Session)
    requires Inv(allowlist, a) && s.id in a.evicted
    ensures var b := Run(allowlist, a, events);
      && (forall x :: x in b.agents ==> b.agents[x] != s)
      && (forall k :: k in b.listeners ==> b.listeners[k].owner != s)
  {
    RunFrom(allowlist, a, events);
    var b := Run(allowlist, a, events);
    forall k | k in b.listeners
      ensures b.listeners[k].owner != s
    {
      assert ListenerOk(b, k, b.listeners[k]);
    }
  }

  // ------------------------------------------------------------------------------------------
  // Isolation.

  function AgentOf(e: Event): string {
    match e
    case Admit(agentId, _, _) => agentId
    case Disconnected(s) => s.agentId
    case BindTunnel(s, _, _) => s.agentId
    case Unbind(s, _) => s.agentId
    case Reconcile(s, _, _) => s.agentId
  }

  lemma PruneFrame(ls: map<Key, Listener>, s: Session, want: set<string>)
    ensures Others(Pruned(ls, s, want), s.agentId) == Others(ls, s.agentId)
  {
  }

  /** b differs from a, in sessions and listeners, only in what belongs to the agent. */
  ghost predicate OnlyOf(a: ActorS, b: ActorS, agentId: string) {
    && Others(b.listeners, agentId) == Others(a.listeners, agentId)
    && b.agents - {agentId} == a.agents - {agentId}
  }

  lemma EvictFrame(a: ActorS, s: Session)
    ensures OnlyOf(a, EvictS(a, s), s.agentId)
  {
  }

  lemma AdmitFrame(a: ActorS, agentId: string, scope: Scope, now: int)
    requires agentId in a.agents ==> a.agents[agentId].agentId == agentId
    ensures OnlyOf(a, AdmitS(a, agentId, scope, now).0, agentId)
  {
    if agentId in a.agents {
      EvictFrame(a.(sessions := a.sessions + 1), a.agents[agentId]);
    }
  }

  lemma BindFrame(a: ActorS, s: Session, spec: TunnelSpec, allowlist: seq<int>, env: Env)
    ensures OnlyOf(a, BindS(a, s, spec, allowlist, env).0, s.agentId)
  {
  }

  /** A command of one agent, supersede and eviction included, leaves every other agent's session and
      every listener of every other agent exactly as they were. */
  lemma {:induction false} OthersUntouched(allowlist: seq<int>, a: ActorS, e: Event)
    requires Inv(allowlist, a)
    ensures OnlyOf(a, Step(allowlist, a, e), AgentOf(e))
  {
    match e
    case Reconcile(s, desired, envs) =>
      var valid := ValidOf(Policy(s.scope, allowlist), desired);
      if |envs| >= |valid| && Live(a, s) {
        PruneFrame(a.listeners, s, Ids(valid));
        EnsureAllFrame(PruneS(a, s, Ids(valid)), s, valid, allowlist, envs);
      }
    case Unbind(s, tunnelId) =>
    case BindTunnel(s, spec, env) => BindFrame(a, s, spec, allowlist, env);
    case Admit(agentId, scope, now) => AdmitFrame(a, agentId, scope, now);
    case Disconnected(s) => EvictFrame(a, s);
  }

  /** A command through a session that is not its agent's live one changes nothing at all. */
  lemma StaleChangesNothing(allowlist: seq<int>, a: ActorS, e: Event)
    requires Inv(allowlist, a) && !e.Admit? && !Live(a, e.s)
    ensures Step(allowlist, a, e) == a
  {
    match e
    case Unbind(s, tunnelId) =>
      var key := (s.agentId, tunnelId);
      if key in a.listeners {
        assert ListenerOk(a, key, a.listeners[key]);
      }
    case _ =>
  }

  /** A live session's disconnect evicts it and frees every port it held; nothing else goes. */
  lemma DisconnectFrees(allowlist: seq<int>, a: ActorS, s: Session)
    requires Inv(allowlist, a) && Live(a, s)
    ensures var b := Step(allowlist, a, Disconnected(s));
      && s.agentId !in b.agents && s.id in b.evicted
      && (forall k :: k in b.listeners <==> k in a.listeners && a.listeners[k].owner != s)
      && (forall k :: k in a.listeners && a.listeners[k].owner == s ==> a.listeners[k].port !in OpenPorts(b.listeners))
  {
    var b := Step(allowlist, a, Disconnected(s));
    forall k | k in a.listeners
      ensures k.0 == s.agentId <==> a.listeners[k].owner == s
    {
      assert ListenerOk(a, k, a.listeners[k]);
    }
    forall k, j | k in a.listeners && a.listeners[k].owner == s && j in b.listeners
      ensures b.listeners[j].port != a.listeners[k].port
    {
      assert j in a.listeners && j != k;
    }
  }

  /** A live session's unbind closes the tunnel's listener, frees its port, and nothing else. */
  lemma UnbindFrees(allowlist: seq<int>, a: ActorS, s: Session, tunnelId: string)
    requires Inv(allowlist, a) && Live(a, s)
    ensures var b := Step(allowlist, a, Unbind(s, tunnelId));
      var key := (s.agentId, tunnelId);
      && b == a.(listeners := b.listeners) && b.listeners == a.listeners - {key}
      && (key in a.listeners ==> a.listeners[key].port !in OpenPorts(b.listeners))
  {
    var key := (s.agentId, tunnelId);
    if key in a.listeners {
      assert ListenerOk(a, key, a.listeners[key]);
    } else {
      assert a.listeners - {key} == a.listeners;
    }
  }

  // ------------------------------------------------------------------------------------------
  // Reconcile.

  /** The outcome of spec i is what the listeners show. */
  ghost predicate Shows(ls: map<Key, Listener>, s: Session, spec: TunnelSpec, o: Outcome) {
    var key := (s.agentId, spec.id);
    && o.id == spec.id && (o.ok <==> key in ls)
    && (o.ok ==> SameListener(ls[key].spec, spec) && ls[key].port == o.port)
  }

  /** A listener already serving the spec is still the very same one. */
  ghost predicate StaysPut(before: map<Key, Listener>, after: map<Key, Listener>, s: Session, spec: TunnelSpec) {
    var key := (s.agentId, spec.id);
    key in before && SameListener(before[key].spec, spec) ==> key in after && after[key] == before[key]
  }

  /** The listeners outside the agent's own ids are as before. */
  ghost predicate SameOutside(before: map<Key, Listener>, after: map<Key, Listener>, agentId: string, ids: set<string>) {
    forall k: Key :: !(k.0 == agentId && k.1 in ids) ==>
      (k in after <==> k in before) && (k in before ==> after[k] == before[k])
  }

  ghost predicate AllShow(ls: map<Key, Listener>, s: Session, desired: seq<TunnelSpec>, outs: seq<Outcome>)
    requires |outs| == |desired|
  {
    forall i :: 0 <= i < |desired| ==> Shows(ls, s, desired[i], outs[i])
  }

  ghost predicate AllStay(before: map<Key, Listener>, after: map<Key, Listener>, s: Session, desired: seq<TunnelSpec>) {
    forall i :: 0 <= i < |desired| ==> StaysPut(before, after, s, desired[i])
  }

  lemma EnsureShows(a: ActorS, s: Session, spec: TunnelSpec, allowlist: seq<int>, env: Env)
    ensures var (b, o) := EnsureS(a, s, spec, allowlist, env);
      && Shows(b.listeners, s, spec, o) && StaysPut(a.listeners, b.listeners, s, spec)
      && SameOutside(a.listeners, b.listeners, s.agentId, {spec.id})
  {
  }

  /** A step for one more spec with an id of its own leaves the others' results standing. */
  lemma OneMoreShows(a: map<Key, Listener>, b: map<Key, Listener>, c: map<Key, Listener>, s: Session,
                     desired: seq<TunnelSpec>, outs: seq<Outcome>, id: string)
    requires |outs| == |desired| && AllShow(b, s, desired, outs) && AllStay(a, b, s, desired)
    requires SameOutside(b, c, s.agentId, {id}) && id !in Ids(desired)
    ensures AllShow(c, s, desired, outs) && AllStay(a, c, s, desired)
  {
    forall i | 0 <= i < |desired|
      ensures Shows(c, s, desired[i], outs[i]) && StaysPut(a, c, s, desired[i])
    {
      var key: Key := (s.agentId, desired[i].id);
      assert desired[i].id in Ids(desired);
      assert !(key.0 == s.agentId && key.1 in {id});
      assert Shows(b, s, desired[i], outs[i]) && StaysPut(a, b, s, desired[i]);
    }
  }

  lemma IdsSnoc(desired: seq<TunnelSpec>)
    requires desired != [] && DistinctIds(desired)
    ensures var n := |desired| - 1;
      && Ids(desired) == Ids(desired[..n]) + {desired[n].id} && desired[n].id !in Ids(desired[..n])
      && DistinctIds(desired[..n])
  {
    assert desired == desired[..|desired| - 1] + [desired[|desired| - 1]];
  }

  lemma {:induction false} EnsureAllShows(a: ActorS, s: Session, desired: seq<TunnelSpec>, allowlist: seq<int>, envs: seq<Env>)
    requires |envs| >= |desired| && DistinctIds(desired)
    ensures var (b, outs) := EnsureAll(a, s, desired, allowlist, envs);
      && AllShow(b.listeners, s, desired, outs) && AllStay(a.listeners, b.listeners, s, desired)
      && SameOutside(a.listeners, b.listeners, s.agentId, Ids(desired))
  {
    if desired != [] {
      var n := |desired| - 1;
      IdsSnoc(desired);
      EnsureAllShows(a, s, desired[..n], allowlist, envs);
      var (b, outs) := EnsureAll(a, s, desired[..n], allowlist, envs);
      EnsureShows(b, s, desired[n], allowlist, envs[n]);
      var (c, o) := EnsureS(b, s, desired[n], allowlist, envs[n]);
      OneMoreShows(a.listeners, b.listeners, c.listeners, s, desired[..n], outs, desired[n].id);
    }
  }

  /** Reconcile is exact: on a live session and specs with distinct ids the agent afterwards has a
      listener for a spec exactly when its outcome is a success, on the port the outcome reports, and
      no other listener; a listener already serving the same spec is the very same one; no other
      agent's is touched. */
  lemma ReconcileExact(allowlist: seq<int>, a: ActorS, s: Session, desired: seq<TunnelSpec>, envs: seq<Env>)
    requires Inv(allowlist, a) && Live(a, s) && |envs| >= |desired| && DistinctIds(desired)
    ensures var (b, outs) := ReconcileS(a, s, desired, allowlist, envs);
      && AllShow(b.listeners, s, desired, outs)
      && (forall id :: (s.agentId, id) in b.listeners ==> id in Ids(desired))
      && AllStay(a.listeners, b.listeners, s, desired)
      && Others(b.listeners, s.agentId) == Others(a.listeners, s.agentId)
  {
    var p := PruneS(a, s, Ids(desired));
    EnsureAllShows(p, s, desired, allowlist, envs);
    EnsureAllFrame(p, s, desired, allowlist, envs);
    PruneFrame(a.listeners, s, Ids(desired));
    forall id | (s.agentId, id) in p.listeners
      ensures id in Ids(desired)
    {
      assert ListenerOk(a, (s.agentId, id), a.listeners[(s.agentId, id)]);
    }
    forall i | 0 <= i < |desired| && (s.agentId, desired[i].id) in a.listeners
      ensures (s.agentId, desired[i].id) in p.listeners
    {
      assert desired[i].id in Ids(desired);
    }
  }

  ghost predicate AllOk(outs: seq<Outcome>) { forall i :: 0 <= i < |outs| ==> outs[i].ok }

  /** All of desired is served as it is. */
  ghost predicate Serves(ls: map<Key, Listener>, s: Session, desired: seq<TunnelSpec>) {
    forall i :: 0 <= i < |desired| ==>
      (s.agentId, desired[i].id) in ls && SameListener(ls[(s.agentId, desired[i].id)].spec, desired[i])
  }

  lemma {:induction false} EnsureAllIdle(a: ActorS, s: Session, desired: seq<TunnelSpec>, allowlist: seq<int>, envs: seq<Env>)
    requires |envs| >= |desired| && Serves(a.listeners, s, desired)
    ensures EnsureAll(a, s, desired, allowlist, envs).0 == a
    ensures AllOk(EnsureAll(a, s, desired, allowlist, envs).1)
  {
    if desired != [] {
      var n := |desired| - 1;
      assert Serves(a.listeners, s, desired[..n]) by {
        forall i | 0 <= i < n
          ensures (s.agentId, desired[..n][i].id) in a.listeners
          ensures SameListener(a.listeners[(s.agentId, desired[..n][i].id)].spec, desired[..n][i])
        {
          assert desired[..n][i] == desired[i];
        }
      }
      EnsureAllIdle(a, s, desired[..n], allowlist, envs);
    }
  }

  lemma NothingToPrune(ls: map<Key, Listener>, s: Session, want: set<string>)
    requires forall id :: (s.agentId, id) in ls ==> id in want
    ensures Pruned(ls, s, want) == ls
  {
    forall k: Key | k in ls
      ensures k.0 == s.agentId ==> k.1 in want
    {
      assert k == (k.0, k.1);
    }
  }

  /** Reconcile is idempotent: after it succeeded for every spec, whatever changed outside, running
      it again binds nothing and closes nothing, reassigned and ephemeral ports included. */
  lemma ReconcileIdempotent(
    allowlist: seq<int>, a: ActorS, s: Session, desired: seq<TunnelSpec>, envs: seq<Env>, later: seq<Env>)
    requires Inv(allowlist, a) && Live(a, s) && |envs| >= |desired| && |later| >= |desired| && DistinctIds(desired)
    requires AllOk(ReconcileS(a, s, desired, allowlist, envs).1)
    ensures ReconcileS(ReconcileS(a, s, desired, allowlist, envs).0, s, desired, allowlist, later).0
         == ReconcileS(a, s, desired, allowlist, envs).0
  {
    var (b, outs) := ReconcileS(a, s, desired, allowlist, envs);
    ReconcileExact(allowlist, a, s, desired, envs);
    EnsureAllFrame(PruneS(a, s, Ids(desired)), s, desired, allowlist, envs);
    assert Serves(b.listeners, s, desired) by {
      forall i | 0 <= i < |desired|
        ensures (s.agentId, desired[i].id) in b.listeners
        ensures SameListener(b.listeners[(s.agentId, desired[i].id)].spec, desired[i])
      {
        assert Shows(b.listeners, s, desired[i], outs[i]);
      }
    }
    NothingToPrune(b.listeners, s, Ids(desired));
    assert PruneS(b, s, Ids(desired)) == b;
    EnsureAllIdle(b, s, desired, allowlist, later);
  }

  // ------------------------------------------------------------------------------------------
  // Reconciling what was resolved.

  lemma {:induction false} LastBound(outs: seq<Outcome>, i: nat)
    requires i < |outs| && outs[i].ok && outs[i].port != 0
    requires forall j :: 0 <= j < |outs| && j != i ==> outs[j].id != outs[i].id
    ensures outs[i].id in BoundPorts(outs) && BoundPorts(outs)[outs[i].id] == outs[i].port
  {
    var n := |outs| - 1;
    if i < n {
      LastBound(outs[..n], i);
    }
  }

  /** What adoption stores for spec i: the spec at the port its listener holds. */
  lemma ResolvedAt(allowlist: seq<int>, a: ActorS, s: Session, desired: seq<TunnelSpec>, envs: seq<Env>, i: nat)
    requires Inv(allowlist, a) && Live(a, s) && |envs| >= |desired| && DistinctIds(desired) && i < |desired|
    requires AllValid(Policy(s.scope, allowlist), desired)
    requires ReconcileS(a, s, desired, allowlist, envs).1[i].ok
    ensures var (b, outs) := ReconcileS(a, s, desired, allowlist, envs);
      var key := (s.agentId, desired[i].id);
      && key in b.listeners && SameListener(b.listeners[key].spec, desired[i])
      && ResolveAll(desired, BoundPorts(outs))[i] == desired[i].(publicPort := b.listeners[key].port)
  {
    var (b, outs) := ReconcileS(a, s, desired, allowlist, envs);
    ReconcileExact(allowlist, a, s, desired, envs);
    ReconcileKeeps(allowlist, a, s, desired, envs);
    var key := (s.agentId, desired[i].id);
    assert Shows(b.listeners, s, desired[i], outs[i]);
    assert ListenerOk(b, key, b.listeners[key]);
    forall j | 0 <= j < |outs| && j != i
      ensures outs[j].id != outs[i].id
    {
      assert Shows(b.listeners, s, desired[j], outs[j]);
    }
    LastBound(outs, i);
  }

  lemma ReconcileKeeps(allowlist: seq<int>, a: ActorS, s: Session, desired: seq<TunnelSpec>, envs: seq<Env>)
    requires Inv(allowlist, a) && Live(a, s) && |envs| >= |desired| && AllValid(Policy(s.scope, allowlist), desired)
    ensures Inv(allowlist, ReconcileS(a, s, desired, allowlist, envs).0)
    ensures Live(ReconcileS(a, s, desired, allowlist, envs).0, s)
  {
    FewerListeners(allowlist, a, Pruned(a.listeners, s, Ids(desired)));
    EnsureAllKeeps(allowlist, PruneS(a, s, Ids(desired)), s, desired, envs);
  }

  /** Every port reconcile hands out for a spec that asked for one is within scope and allowlist. */
  lemma ReconcileHonours(allowlist: seq<int>, a: ActorS, s: Session, desired: seq<TunnelSpec>, envs: seq<Env>, i: nat)
    requires Inv(allowlist, a) && Live(a, s) && |envs| >= |desired| && DistinctIds(desired) && i < |desired|
    requires AllValid(Policy(s.scope, allowlist), desired)
    ensures var o := ReconcileS(a, s, desired, allowlist, envs).1[i];
      o.ok && desired[i].publicPort != 0 ==> PortAllowed(Policy(s.scope, allowlist), o.port)
  {
    var (b, outs) := ReconcileS(a, s, desired, allowlist, envs);
    ReconcileExact(allowlist, a, s, desired, envs);
    ReconcileKeeps(allowlist, a, s, desired, envs);
    var key := (s.agentId, desired[i].id);
    assert Shows(b.listeners, s, desired[i], outs[i]);
    if outs[i].ok {
      assert ListenerOk(b, key, b.listeners[key]) && PolicyOk(allowlist, b.listeners[key]);
    }
  }

  /** A bound port comes from a successful outcome. */
  lemma {:induction false} BoundFrom(outs: seq<Outcome>, id: string) returns (i: nat)
    requires id in BoundPorts(outs)
    ensures i < |outs| && outs[i].ok && outs[i].id == id && outs[i].port != 0 && BoundPorts(outs)[id] == outs[i].port
  {
    var n := |outs| - 1;
    if outs[n].ok && outs[n].port != 0 && outs[n].id == id {
      i := n;
    } else {
      i := BoundFrom(outs[..n], id);
    }
  }

  lemma {:induction false} NothingBound(desired: seq<TunnelSpec>, n: nat)
    requires n <= |desired|
    ensures BoundPorts(AllFailed(desired)[..n]) == map[]
  {
    if n > 0 {
      NothingBound(desired, n - 1);
      assert AllFailed(desired)[..n][..n - 1] == AllFailed(desired)[..n - 1];
    }
  }

  lemma BoundOutcome(allowlist: seq<int>, a: ActorS, s: Session, desired: seq<TunnelSpec>, envs: seq<Env>, id: string)
    returns (i: nat)
    requires Inv(allowlist, a) && Live(a, s) && |envs| >= |desired| && DistinctIds(desired)
    requires AllValid(Policy(s.scope, allowlist), desired)
    requires id in BoundPorts(ReconcileS(a, s, desired, allowlist, envs).1)
    ensures var outs := ReconcileS(a, s, desired, allowlist, envs).1;
      && i < |desired| && desired[i].id == id && 0 < BoundPorts(outs)[id] <= 65535
      && (desired[i].publicPort != 0 ==> PortAllowed(Policy(s.scope, allowlist), BoundPorts(outs)[id]))
  {
    var (b, outs) := ReconcileS(a, s, desired, allowlist, envs);
    i := BoundFrom(outs, id);
    ReconcileExact(allowlist, a, s, desired, envs);
    ReconcileKeeps(allowlist, a, s, desired, envs);
    ReconcileHonours(allowlist, a, s, desired, envs, i);
    assert Shows(b.listeners, s, desired[i], outs[i]);
    assert ListenerOk(b, (s.agentId, id), b.listeners[(s.agentId, id)]);
  }

  /** What reconcile gives config sync, for any session, live or stale: the ports it reports are all
      within scope and allowlist, which is what exact agreement asks of a run, if and only if those
      the system picked for ephemeral requests are; so always when every spec asks for a port. */
  lemma ReconcileStaysAllowed(allowlist: seq<int>, a: ActorS, s: Session, desired: seq<TunnelSpec>, envs: seq<Env>)
    requires Inv(allowlist, a) && |envs| >= |desired| && DistinctIds(desired)
    requires AllValid(Policy(s.scope, allowlist), desired)
    ensures var pol := Policy(s.scope, allowlist);
      var bound := BoundPorts(ReconcileS(a, s, desired, allowlist, envs).1);
      && (BoundAllowed(pol, bound) <==> EphemeralAllowed(pol, desired, bound))
      && ((forall i :: 0 <= i < |desired| ==> desired[i].publicPort != 0) ==> BoundAllowed(pol, bound))
  {
    var pol := Policy(s.scope, allowlist);
    var outs := ReconcileS(a, s, desired, allowlist, envs).1;
    var bound := BoundPorts(outs);
    if !Live(a, s) {
      NothingBound(desired, |desired|);
      assert outs[..|desired|] == outs;
    } else {
      forall id | id in bound && EphemeralAllowed(pol, desired, bound)
        ensures 0 < bound[id] <= 65535 && PortAllowed(pol, bound[id])
      {
        var i := BoundOutcome(allowlist, a, s, desired, envs, id);
      }
    }
  }

  lemma OutcomePort(allowlist: seq<int>, a: ActorS, s: Session, desired: seq<TunnelSpec>, envs: seq<Env>, i: nat)
    requires Inv(allowlist, a) && Live(a, s) && |envs| >= |desired| && DistinctIds(desired) && i < |desired|
    requires ReconcileS(a, s, desired, allowlist, envs).1[i].ok
    ensures var (b, outs) := ReconcileS(a, s, desired, allowlist, envs);
      (s.agentId, desired[i].id) in b.listeners && b.listeners[(s.agentId, desired[i].id)].port == outs[i].port
  {
    var (b, outs) := ReconcileS(a, s, desired, allowlist, envs);
    ReconcileExact(allowlist, a, s, desired, envs);
    assert Shows(b.listeners, s, desired[i], outs[i]);
  }

  /** A reconcile leaves a listener alone exactly when it serves the desired spec already. */
  lemma KeptExactly(allowlist: seq<int>, a: ActorS, s: Session, desired: seq<TunnelSpec>, envs: seq<Env>, i: nat)
    requires Inv(allowlist, a) && Live(a, s) && |envs| >= |desired| && DistinctIds(desired) && i < |desired|
    requires (s.agentId, desired[i].id) in a.listeners
    ensures var b := ReconcileS(a, s, desired, allowlist, envs).0;
      var key := (s.agentId, desired[i].id);
      (key in b.listeners && b.listeners[key] == a.listeners[key]) <==> SameListener(a.listeners[key].spec, desired[i])
  {
    var (b, outs) := ReconcileS(a, s, desired, allowlist, envs);
    ReconcileExact(allowlist, a, s, desired, envs);
    assert Shows(b.listeners, s, desired[i], outs[i]);
    assert StaysPut(a.listeners, b.listeners, s, desired[i]);
  }

  /** The set adoption stores and pushes back is the resolved one, and a later proposal returns it.
      Reconciling it leaves a tunnel's listener alone exactly when the tunnel is on the very port it
      first asked for: an ephemeral or reassigned tunnel is closed and bound anew. */
  lemma ResolvedRebinds(
    allowlist: seq<int>, a: ActorS, s: Session, desired: seq<TunnelSpec>, envs: seq<Env>, later: seq<Env>, i: nat)
    requires Inv(allowlist, a) && Live(a, s) && |envs| >= |desired| && |later| >= |desired| && DistinctIds(desired)
    requires AllValid(Policy(s.scope, allowlist), desired) && i < |desired|
    requires ReconcileS(a, s, desired, allowlist, envs).1[i].ok
    ensures var (b, outs) := ReconcileS(a, s, desired, allowlist, envs);
      var c := ReconcileS(b, s, ResolveAll(desired, BoundPorts(outs)), allowlist, later).0;
      var key := (s.agentId, desired[i].id);
      key in b.listeners
      && ((key in c.listeners && c.listeners[key] == b.listeners[key]) <==> outs[i].port == desired[i].publicPort)
  {
    var (b, outs) := ReconcileS(a, s, desired, allowlist, envs);
    var resolved := ResolveAll(desired, BoundPorts(outs));
    ReconcileKeeps(allowlist, a, s, desired, envs);
    ResolvedAt(allowlist, a, s, desired, envs, i);
    OutcomePort(allowlist, a, s, desired, envs, i);
    KeptExactly(allowlist, b, s, resolved, later, i);
  }
}
