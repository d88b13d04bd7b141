/** Gateway-authoritative config sync (internal/gateway/gateway.go:971-982, 1237-1260, 1393-1458;
    internal/gateway/agentstore.go:261-286; internal/agent/agent.go:779-822, 982-990;
    internal/agent/hotapply.go:17-53, 96-125): two parties, two FIFO channels, and a session that
    comes and goes. The gateway runs one control handler for the agent, its scope and allowlist stay
    fixed, and a connect (hello, hello_ok, seed, connect push) is one step. A failed write ends the
    session, so it is a drop. */
module ConfigSync {
  import opened Prelude
  import opened TunnelConfig
  import opened Policies

  /** From the agent. basis is the generation it held when it composed the proposal: the wire does
      not carry it, only the theorems read it. */
  datatype Up = Propose(specs: seq<TunnelSpec>, basis: nat) | Ack(gen: nat)

  datatype Push = Push(gen: nat, specs: seq<TunnelSpec>)

  /** The gateway's record for the agent: the stored set is the last of the adopted ones, and its
      generation their number. */
  datatype Record = Record(stored: seq<TunnelSpec>, gen: nat)

  // ------------------------------------------------------------------------------------------
  // The gateway's side.

  datatype Adopted = Adopted(record: Record, believed: nat, push: Push)

  /** adoptProposal, for a proposal whose reconcile bound the given ports. */
  function Adopt(pol: Policy, r: Record, believed: nat, proposed: seq<TunnelSpec>, bound: map<string, int>): Adopted {
    if r.gen != 0 && believed != r.gen then Adopted(r, believed, Push(r.gen, r.stored))
    else
      var resolved := ResolveAll(ValidOf(pol, proposed), bound);
      Adopted(Record(resolved, r.gen + 1), r.gen + 1, Push(r.gen + 1, resolved))
  }

  /** pushConfigOnConnect: what a fresh session is pushed, if anything. */
  function ConnectPush(pol: Policy, r: Record, reported: seq<TunnelSpec>, believed: nat): Option<Push> {
    if r.gen == 0 then None
    else
      var valid := ValidOf(pol, r.stored);
      if reported == HashTunnels(valid) && believed == r.gen then None else Some(Push(r.gen, valid))
  }

  /** The gateway's side of one session, in place. */
  class GatewaySession {
    const pol: Policy
    var stored: seq<TunnelSpec>
    var gen: nat
    var agentConfigGen: nat
    var sent: seq<Push>

    ghost function State(): Record
      reads this
    {
      Record(stored, gen)
    }

    constructor (pol: Policy, r: Record, helloGen: nat)
      ensures this.pol == pol && State() == r && agentConfigGen == helloGen && sent == []
    {
      this.pol, stored, gen, agentConfigGen, sent := pol, r.stored, r.gen, helloGen, [];
    }

    method PushConfigOnConnect(reported: seq<TunnelSpec>)
      modifies this`sent
      ensures sent == old(sent) + match ConnectPush(pol, State(), reported, agentConfigGen)
                                  case None => []
                                  case Some(p) => [p]
    {
      if gen == 0 {
        return;
      }
      var valid := ValidSpecs(pol, stored);
      if reported == HashTunnels(valid) && agentConfigGen == gen {
        return;
      }
      sent := sent + [Push(gen, valid)];
    }

    method AdoptProposal(proposed: seq<TunnelSpec>, outcomes: seq<Outcome>)
      modifies this
      ensures var a := Adopt(pol, old(State()), old(agentConfigGen), proposed, BoundPorts(outcomes));
        State() == a.record && agentConfigGen == a.believed && sent == old(sent) + [a.push]
    {
      if gen != 0 && agentConfigGen != gen {
        sent := sent + [Push(gen, stored)];
        return;
      }
      var valid := ValidSpecs(pol, proposed);
      var resolved := ResolvePorts(valid, outcomes);
      gen := gen + 1;
      stored := resolved;
      agentConfigGen := gen;
      sent := sent + [Push(gen, resolved)];
    }
  }

  // ------------------------------------------------------------------------------------------
  // Both sides.

  datatype Agent = Agent(tunnels: seq<Tunnel>, gen: nat)

  /** A live session: what the gateway believes the agent holds, and the two channels. History for
      the theorems: start is the generation stored at the connect, and confirmed the last one the agent
      itself reported, in its hello or in an ack the gateway has read. */
  datatype Session = Session(believed: nat, up: seq<Up>, down: seq<Push>, start: nat, confirmed: nat)

  /** log holds every set ever adopted: log[g - 1] is the one generation g names. */
  datatype World = World(record: Record, log: seq<seq<TunnelSpec>>, agent: Agent, session: Option<Session>)

  datatype Event =
    | Edit(tunnels: seq<Tunnel>)
    | Restart(tunnels: seq<Tunnel>, gen: nat)
    | Connect
    | Drop
    | GatewayRecv(bound: map<string, int>)
    | AgentRecv

  /** ApplyTunnels: a live session proposes, otherwise only the local set changes. */
  function EditS(w: World, tunnels: seq<Tunnel>): World {
    var w1 := w.(agent := w.agent.(tunnels := tunnels));
    if w.session.None? then w1
    else
      var s := w.session.value;
      w1.(session := Some(s.(up := s.up + [Propose(EnabledSpecsOf(tunnels), w.agent.gen)])))
  }

  function ConnectS(pol: Policy, w: World): World {
    var specs := EnabledSpecsOf(w.agent.tunnels);
    var seed := if w.record.gen == 0 then [Propose(specs, w.agent.gen)] else [];
    var push := match ConnectPush(pol, w.record, HashTunnels(specs), w.agent.gen) case None => [] case Some(p) => [p];
    w.(session := Some(Session(w.agent.gen, seed, push, w.record.gen, w.agent.gen)))
  }

  function GatewayRecvS(pol: Policy, w: World, s: Session, bound: map<string, int>): World
    requires s.up != []
  {
    var t := s.(up := s.up[1..]);
    match s.up[0]
    case Ack(g) => w.(session := Some(t.(believed := g, confirmed := g)))
    case Propose(specs, _) =>
      var a := Adopt(pol, w.record, s.believed, specs, bound);
      var log := if a.record.gen == w.record.gen then w.log else w.log + [a.record.stored];
      World(a.record, log, w.agent, Some(t.(believed := a.believed, down := s.down + [a.push])))
  }

  function AgentRecvS(w: World, s: Session): World
    requires s.down != []
  {
    var p := s.down[0];
    World(w.record, w.log, Agent(Merged(w.agent.tunnels, p.specs), p.gen),
          Some(s.(down := s.down[1..], up := s.up + [Ack(p.gen)])))
  }

  /** One step; an event that cannot happen changes nothing. */
  function Step(pol: Policy, w: World, e: Event): World {
    match e
    case Edit(tunnels) => EditS(w, tunnels)
    case Restart(tunnels, gen) => if w.session.None? then w.(agent := Agent(tunnels, gen)) else w
    case Connect => if w.session.None? then ConnectS(pol, w) else w
    case Drop => w.(session := None)
    case GatewayRecv(bound) =>
      if w.session.Some? && w.session.value.up != [] then GatewayRecvS(pol, w, w.session.value, bound) else w
    case AgentRecv =>
      if w.session.Some? && w.session.value.down != [] then AgentRecvS(w, w.session.value) else w
  }

  function Run(pol: Policy, w: World, events: seq<Event>): World {
    if events == [] then w else Step(pol, Run(pol, w, events[..|events| - 1]), events[|events| - 1])
  }

  /** A gateway that has adopted nothing and an agent in any state. */
  ghost predicate Initial(w: World) {
    w.record == Record([], 0) && w.log == [] && w.session.None?
  }

  // ------------------------------------------------------------------------------------------
  // Generations.

  /** The set a push of generation g may carry: the one g names, or the part of it still valid. */
  ghost predicate Names(pol: Policy, log: seq<seq<TunnelSpec>>, p: Push) {
    1 <= p.gen <= |log| && (p.specs == log[p.gen - 1] || p.specs == ValidOf(pol, log[p.gen - 1]))
  }

  ghost predicate HasPropose(up: seq<Up>) { exists i :: 0 <= i < |up| && up[i].Propose? }

  /** The generation the gateway will believe once it has read all acks. */
  function LastAck(believed: nat, up: seq<Up>): nat {
    if up == [] then believed
    else
      match up[|up| - 1]
      case Ack(g) => g
      case Propose(_, _) => LastAck(believed, up[..|up| - 1])
  }

  /** The same tunnels, in any order. */
  ghost predicate SameSet(a: seq<TunnelSpec>, b: seq<TunnelSpec>) { multiset(a) == multiset(b) }

  /** The agent runs the stored set or the part of it that is still valid. */
  ghost predicate Agrees(pol: Policy, w: World) {
    var specs := EnabledSpecsOf(w.agent.tunnels);
    SameSet(specs, w.record.stored) || SameSet(specs, ValidOf(pol, w.record.stored))
  }

  ghost predicate LogInv(w: World) {
    && |w.log| == w.record.gen
    && (w.record.gen > 0 ==> w.record.stored == w.log[w.record.gen - 1])
  }

  ghost predicate SessionInv(pol: Policy, w: World, s: Session) {
    && (forall i :: 0 <= i < |s.down| ==> Names(pol, w.log, s.down[i]))
    && (w.record.gen == 0 ==> s.down == [] && HasPropose(s.up))
    && (w.record.gen > 0 && s.down != [] ==> s.down[|s.down| - 1].gen == w.record.gen)
    && (w.record.gen > 0 && s.down == [] ==> w.agent.gen == w.record.gen && LastAck(s.believed, s.up) == w.record.gen)
    && (s.down == [] && !HasPropose(s.up) ==> Agrees(pol, w))
  }

  ghost predicate Inv(pol: Policy, w: World) {
    LogInv(w) && (w.session.Some? ==> SessionInv(pol, w, w.session.value))
  }

  lemma {:induction false} LastAckTail(believed: nat, up: seq<Up>)
    requires up != []
    ensures LastAck(believed, up) == LastAck(if up[0].Ack? then up[0].gen else believed, up[1..])
  {
    var n := |up| - 1;
    if n > 0 {
      assert up[1..][|up[1..]| - 1] == up[n];
      if up[n].Propose? {
        LastAckTail(believed, up[..n]);
        assert up[1..][..n - 1] == up[..n][1..];
      }
    }
  }

  lemma HasProposeTail(up: seq<Up>)
    requires up != [] && HasPropose(up[1..])
    ensures HasPropose(up)
  {
    var i :| 0 <= i < |up[1..]| && up[1..][i].Propose?;
    assert up[i + 1].Propose?;
  }

  lemma HasProposeAppend(up: seq<Up>, u: Up)
    ensures HasPropose(up + [u]) <==> HasPropose(up) || u.Propose?
  {
    var v := up + [u];
    if HasPropose(up) {
      var i :| 0 <= i < |up| && up[i].Propose?;
      assert v[i].Propose?;
    }
    if u.Propose? {
      assert v[|up|].Propose?;
    }
    if HasPropose(v) {
      var i :| 0 <= i < |v| && v[i].Propose?;
      assert i < |up| ==> up[i].Propose?;
    }
  }

  lemma ConnectKeeps(pol: Policy, w: World)
    requires Inv(pol, w)
    ensures Inv(pol, ConnectS(pol, w))
  {
    var w1 := ConnectS(pol, w);
    var specs := EnabledSpecsOf(w.agent.tunnels);
    if w.record.gen == 0 {
      assert w1.session.value.up[0].Propose?;
    } else if ConnectPush(pol, w.record, HashTunnels(specs), w.agent.gen).None? {
      HashSorts(specs);
      HashSorts(ValidOf(pol, w.record.stored));
    }
  }

  lemma EditKeeps(pol: Policy, w: World, tunnels: seq<Tunnel>)
    requires Inv(pol, w)
    ensures Inv(pol, EditS(w, tunnels))
  {
    if w.session.Some? {
      var up := w.session.value.up;
      var u := Propose(EnabledSpecsOf(tunnels), w.agent.gen);
      HasProposeAppend(up, u);
      assert (up + [u])[..|up|] == up;
    }
  }

  lemma AckKeeps(pol: Policy, w: World, s: Session)
    requires Inv(pol, w) && w.session == Some(s) && s.up != [] && s.up[0].Ack?
    ensures Inv(pol, GatewayRecvS(pol, w, s, map[]))
  {
    LastAckTail(s.believed, s.up);
    if HasPropose(s.up) {
      var i :| 0 <= i < |s.up| && s.up[i].Propose?;
      assert s.up[1..][i - 1].Propose?;
    }
    if HasPropose(s.up[1..]) {
      HasProposeTail(s.up);
    }
  }

  lemma ProposeKeeps(pol: Policy, w: World, s: Session, bound: map<string, int>)
    requires Inv(pol, w) && w.session == Some(s) && s.up != [] && s.up[0].Propose?
    ensures Inv(pol, GatewayRecvS(pol, w, s, bound))
    ensures w.log <= GatewayRecvS(pol, w, s, bound).log
  {
    var w1 := GatewayRecvS(pol, w, s, bound);
    var t := w1.session.value;
    forall i | 0 <= i < |t.down|
      ensures Names(pol, w1.log, t.down[i])
    {
      assert i < |s.down| ==> Names(pol, w.log, s.down[i]);
    }
  }

  lemma LastAckAppend(believed: nat, up: seq<Up>, g: nat)
    ensures LastAck(believed, up + [Ack(g)]) == g
  {
  }

  lemma AgentRecvKeeps(pol: Policy, w: World, s: Session)
    requires Inv(pol, w) && w.session == Some(s) && s.down != []
    ensures Inv(pol, AgentRecvS(w, s))
  {
    var p := s.down[0];
    var t := AgentRecvS(w, s).session.value;
    assert Names(pol, w.log, p);
    HasProposeAppend(s.up, Ack(p.gen));
    LastAckAppend(s.believed, s.up, p.gen);
    MergeRoundTrip(w.agent.tunnels, p.specs);
    forall i | 0 <= i < |t.down|
      ensures Names(pol, w.log, t.down[i])
    {
      assert t.down[i] == s.down[i + 1];
    }
    if |s.down| > 1 {
      assert t.down[|t.down| - 1] == s.down[|s.down| - 1];
    }
  }

  lemma StepKeeps(pol: Policy, w: World, e: Event)
    requires Inv(pol, w)
    ensures Inv(pol, Step(pol, w, e)) && w.log <= Step(pol, w, e).log
  {
    match e
    case Edit(tunnels) => EditKeeps(pol, w, tunnels);
    case Restart(_, _) =>
    case Connect => if w.session.None? { ConnectKeeps(pol, w); }
    case Drop =>
    case GatewayRecv(bound) =>
      if w.session.Some? && w.session.value.up != [] {
        var s := w.session.value;
        if s.up[0].Ack? {
          AckKeeps(pol, w, s);
        } else {
          ProposeKeeps(pol, w, s, bound);
        }
      }
    case AgentRecv =>
      if w.session.Some? && w.session.value.down != [] {
        AgentRecvKeeps(pol, w, w.session.value);
      }
  }

  /** Over every run generations only grow and what a generation names never changes. */
  lemma {:induction false} GenerationsAreForever(pol: Policy, w: World, events: seq<Event>)
    requires Inv(pol, w)
    ensures Inv(pol, Run(pol, w, events)) && w.log <= Run(pol, w, events).log
    ensures w.record.gen <= Run(pol, w, events).record.gen == |Run(pol, w, events).log|
  {
    if events != [] {
      var n := |events| - 1;
      GenerationsAreForever(pol, w, events[..n]);
      StepKeeps(pol, Run(pol, w, events[..n]), events[n]);
    }
  }

  /** Nothing that could still change either side is under way. */
  ghost predicate Quiet(s: Session) { s.down == [] && !HasPropose(s.up) }

  /** Agreement, over every run of edits, restarts, connects, drops and deliveries: whenever a
      session has no proposal and no push in flight, the gateway holds a config, the agent holds its
      generation, and the agent's enabled set is the stored one, or what of it is still valid. With
      no ack in flight either, the gateway's belief is right. */
  lemma QuietAgrees(pol: Policy, w0: World, events: seq<Event>)
    requires Initial(w0)
    ensures var w := Run(pol, w0, events);
      w.session.Some? && Quiet(w.session.value) ==>
        && w.record.gen > 0 && w.agent.gen == w.record.gen && Agrees(pol, w)
        && (w.session.value.up == [] ==> w.session.value.believed == w.record.gen)
  {
    GenerationsAreForever(pol, w0, events);
  }

  // ------------------------------------------------------------------------------------------
  // Exact agreement.

  /** Every reconcile in the run handed out only ports within scope and allowlist. */
  ghost predicate Honours(pol: Policy, events: seq<Event>) {
    forall i :: 0 <= i < |events| && events[i].GatewayRecv? ==> BoundAllowed(pol, events[i].bound)
  }

  ghost predicate LogValid(pol: Policy, log: seq<seq<TunnelSpec>>) {
    forall g :: 0 <= g < |log| ==> AllValid(pol, log[g])
  }

  lemma AdoptedValid(pol: Policy, specs: seq<TunnelSpec>, bound: map<string, int>)
    requires BoundAllowed(pol, bound)
    ensures AllValid(pol, ResolveAll(ValidOf(pol, specs), bound))
  {
    var valid := ValidOf(pol, specs);
    ValidExact(pol, specs);
    forall i | 0 <= i < |valid|
      ensures SpecValid(pol, Resolved(valid[i], bound))
    {
      assert SpecValid(pol, valid[i]);
    }
  }

  lemma {:induction false} HonouredLog(pol: Policy, w0: World, events: seq<Event>)
    requires Initial(w0) && Honours(pol, events)
    ensures LogValid(pol, Run(pol, w0, events).log)
  {
    if events != [] {
      var n := |events| - 1;
      var w := Run(pol, w0, events[..n]);
      HonouredLog(pol, w0, events[..n]);
      match events[n]
      case GatewayRecv(bound) =>
        if w.session.Some? && w.session.value.up != [] && w.session.value.up[0].Propose? {
          AdoptedValid(pol, w.session.value.up[0].specs, bound);
        }
      case _ =>
    }
  }

  /** When no reconcile hands out a port outside policy, every push carries exactly the set its
      generation names, and a quiet session means the agent runs exactly the stored set. */
  lemma QuietAgreesExactly(pol: Policy, w0: World, events: seq<Event>)
    requires Initial(w0) && Honours(pol, events) && Run(pol, w0, events).session.Some?
    ensures var w := Run(pol, w0, events);
      && (forall i :: 0 <= i < |w.session.value.down| ==>
            1 <= w.session.value.down[i].gen <= |w.log|
            && w.session.value.down[i].specs == w.log[w.session.value.down[i].gen - 1])
      && (Quiet(w.session.value) ==> SameSet(EnabledSpecsOf(w.agent.tunnels), w.record.stored))
  {
    var w := Run(pol, w0, events);
    GenerationsAreForever(pol, w0, events);
    HonouredLog(pol, w0, events);
    forall g | 0 <= g < |w.log|
      ensures ValidOf(pol, w.log[g]) == w.log[g]
    {
      ValidExact(pol, w.log[g]);
    }
    forall i | 0 <= i < |w.session.value.down|
      ensures 1 <= w.session.value.down[i].gen <= |w.log|
      ensures w.session.value.down[i].specs == w.log[w.session.value.down[i].gen - 1]
    {
      assert Names(pol, w.log, w.session.value.down[i]);
    }
  }

  /** What a connect sends, exactly: the agent proposes if and only if nothing is stored; otherwise the
      gateway pushes what is still valid of the stored set, and only if the agent's generation or its
      set, in any order, is another. */
  lemma ConnectSendsExactly(pol: Policy, w: World)
    requires w.session.None? && DistinctIds(EnabledSpecsOf(w.agent.tunnels)) && DistinctIds(w.record.stored)
    ensures var s := Step(pol, w, Connect).session;
      var specs := EnabledSpecsOf(w.agent.tunnels);
      var valid := ValidOf(pol, w.record.stored);
      && s.Some? && s.value.believed == w.agent.gen
      && s.value.up == (if w.record.gen == 0 then [Propose(specs, w.agent.gen)] else [])
      && s.value.down == (if w.record.gen == 0 || (w.agent.gen == w.record.gen && SameSet(specs, valid)) then []
                          else [Push(w.record.gen, valid)])
  {
    var specs := EnabledSpecsOf(w.agent.tunnels);
    ValidDistinct(pol, w.record.stored);
    HashExact(specs, ValidOf(pol, w.record.stored));
  }

  lemma {:induction false} ValidDistinct(pol: Policy, specs: seq<TunnelSpec>)
    requires DistinctIds(specs)
    ensures DistinctIds(ValidOf(pol, specs))
    ensures forall x :: x in ValidOf(pol, specs) ==> x in specs
  {
    if specs != [] {
      var n := |specs| - 1;
      ValidDistinct(pol, specs[..n]);
      assert specs == specs[..n] + [specs[n]];
      var before := ValidOf(pol, specs[..n]);
      forall i | 0 <= i < |before|
        ensures before[i].id != specs[n].id
      {
        assert before[i] in specs[..n];
      }
    }
  }

  /** A reconnect in agreement is silent: over every run, when a session is quiet, the stored set names
      each tunnel once and no reconcile handed out a port outside policy, dropping the session and
      connecting anew sends nothing in either direction. */
  lemma {:induction false} ReconnectIsSilent(pol: Policy, w0: World, events: seq<Event>)
    requires Initial(w0) && Honours(pol, events)
    requires var w := Run(pol, w0, events);
      w.session.Some? && Quiet(w.session.value) && DistinctIds(w.record.stored)
    ensures var w1 := Step(pol, Step(pol, Run(pol, w0, events), Drop), Connect);
      w1.session.Some? && w1.session.value.up == [] && w1.session.value.down == []
  {
    var w := Run(pol, w0, events);
    QuietAgrees(pol, w0, events);
    QuietAgreesExactly(pol, w0, events);
    StoredValid(pol, w0, events);
    ConnectSilent(pol, Step(pol, w, Drop));
  }

  lemma StoredValid(pol: Policy, w0: World, events: seq<Event>)
    requires Initial(w0) && Honours(pol, events) && Run(pol, w0, events).record.gen > 0
    ensures ValidOf(pol, Run(pol, w0, events).record.stored) == Run(pol, w0, events).record.stored
  {
    var w := Run(pol, w0, events);
    GenerationsAreForever(pol, w0, events);
    HonouredLog(pol, w0, events);
    ValidExact(pol, w.record.stored);
  }

  lemma ConnectSilent(pol: Policy, w: World)
    requires w.session.None? && w.record.gen > 0 && w.agent.gen == w.record.gen && DistinctIds(w.record.stored)
    requires ValidOf(pol, w.record.stored) == w.record.stored
    requires SameSet(EnabledSpecsOf(w.agent.tunnels), w.record.stored)
    ensures var w1 := Step(pol, w, Connect);
      w1.session.Some? && w1.session.value.up == [] && w1.session.value.down == []
  {
    DistinctFromMultiset(w.record.stored, EnabledSpecsOf(w.agent.tunnels));
    ConnectSendsExactly(pol, w);
  }

  // One message in flight.

  lemma ProposeAlone(pol: Policy, w: World, s: Session, bound: map<string, int>)
    requires w.session == Some(s) && |s.up| == 1 && s.up[0].Propose? && s.down == []
    requires w.record.gen == 0 || s.believed == w.record.gen
    ensures var resolved := ResolveAll(ValidOf(pol, s.up[0].specs), bound);
      GatewayRecvS(pol, w, s, bound)
      == World(Record(resolved, w.record.gen + 1), w.log + [resolved], w.agent,
               Some(Session(w.record.gen + 1, [], [Push(w.record.gen + 1, resolved)], s.start, s.confirmed)))
  {
    var resolved := ResolveAll(ValidOf(pol, s.up[0].specs), bound);
    assert s.up[1..] == [];
    assert s.down + [Push(w.record.gen + 1, resolved)] == [Push(w.record.gen + 1, resolved)];
  }

  lemma PushAlone(w: World, s: Session)
    requires w.session == Some(s) && s.up == [] && |s.down| == 1
    ensures AgentRecvS(w, s).session == Some(Session(s.believed, [Ack(s.down[0].gen)], [], s.start, s.confirmed))
    ensures EnabledSpecsOf(AgentRecvS(w, s).agent.tunnels) == s.down[0].specs
  {
    assert s.down[1..] == [];
    assert s.up + [Ack(s.down[0].gen)] == [Ack(s.down[0].gen)];
    MergeRoundTrip(w.agent.tunnels, s.down[0].specs);
  }

  lemma AckAlone(pol: Policy, w: World, s: Session, bound: map<string, int>)
    requires w.session == Some(s) && |s.up| == 1 && s.up[0].Ack?
    ensures GatewayRecvS(pol, w, s, bound) == w.(session := Some(Session(s.up[0].gen, [], s.down, s.start, s.up[0].gen)))
  {
    assert s.up[1..] == [];
  }

  /** The condition is needed. Under an allowlist an ephemeral request is stored with whatever port
      the system picked; the next session validates that port and drops the tunnel, so generation 1
      names one set in the store and another on the agent. */
  lemma EphemeralForksGeneration()
    ensures
      var spec := TunnelSpec("t", "n", "tcp", 0, "", false, 0, "");
      var pol := Policy(Scope([], []), [25565]);
      var w0 := World(Record([], 0), [], Agent([Tunnel(spec, "", false, true)], 0), None);
      var w := Run(pol, w0, [Connect, GatewayRecv(map["t" := 50000]), AgentRecv, Drop, Connect, AgentRecv]);
      && Initial(w0) && w.session.Some? && Quiet(w.session.value)
      && w.record == Record([spec.(publicPort := 50000)], 1)
      && w.agent.gen == 1 && EnabledSpecsOf(w.agent.tunnels) == []
  {
    var spec := TunnelSpec("t", "n", "tcp", 0, "", false, 0, "");
    var pol := Policy(Scope([], []), [25565]);
    var t := Tunnel(spec, "", false, true);
    var w0 := World(Record([], 0), [], Agent([t], 0), None);
    var bound := map["t" := 50000];
    var r := spec.(publicPort := 50000);
    OneValid(pol, spec);
    assert ResolveAll([spec], bound) == [r];
    FirstContact(pol, w0, t, bound);
    SecondConnect(pol, Step(pol, Step(pol, Step(pol, Step(pol, w0, Connect), GatewayRecv(bound)), AgentRecv), Drop), r);
    Run6(pol, w0, Connect, GatewayRecv(bound), AgentRecv, Drop, Connect, AgentRecv);
  }

  /** A first session: the seed is adopted and comes back resolved. */
  lemma FirstContact(pol: Policy, w: World, t: Tunnel, bound: map<string, int>)
    requires Initial(w) && w.agent.tunnels == [t] && t.enabled
    ensures var resolved := ResolveAll(ValidOf(pol, [t.spec]), bound);
      var w1 := Step(pol, Step(pol, Step(pol, Step(pol, w, Connect), GatewayRecv(bound)), AgentRecv), Drop);
      && w1.session.None? && w1.record == Record(resolved, 1)
      && w1.agent.gen == 1 && EnabledSpecsOf(w1.agent.tunnels) == resolved
  {
    OneEnabled(t);
    var w1 := ConnectS(pol, w);
    ProposeAlone(pol, w1, w1.session.value, bound);
    var w2 := GatewayRecvS(pol, w1, w1.session.value, bound);
    PushAlone(w2, w2.session.value);
  }

  /** The next connect of an agent that holds a spec no longer valid. */
  lemma SecondConnect(pol: Policy, w: World, r: TunnelSpec)
    requires w.session.None? && w.record == Record([r], 1) && !SpecValid(pol, r)
    requires w.agent.gen == 1 && EnabledSpecsOf(w.agent.tunnels) == [r]
    ensures var w1 := Step(pol, Step(pol, w, Connect), AgentRecv);
      && w1.session.Some? && Quiet(w1.session.value) && w1.record == w.record
      && w1.agent.gen == 1 && EnabledSpecsOf(w1.agent.tunnels) == []
  {
    OneValid(pol, r);
    HashDiffers(r);
    var w1 := ConnectS(pol, w);
    PushAlone(w1, w1.session.value);
  }

  lemma OneEnabled(t: Tunnel)
    requires t.enabled
    ensures EnabledSpecsOf([t]) == [t.spec]
  {
    assert [t][..0] == [];
  }

  lemma OneValid(pol: Policy, spec: TunnelSpec)
    ensures ValidOf(pol, [spec]) == if SpecValid(pol, spec) then [spec] else []
  {
    assert [spec][..0] == [];
  }

  lemma HashDiffers(spec: TunnelSpec)
    ensures HashTunnels([spec]) != HashTunnels([])
  {
    HashSorts([spec]);
    HashSorts([]);
    assert spec in multiset([spec]);
  }

  lemma Run2(pol: Policy, w: World, a: Event, b: Event)
    ensures Run(pol, w, [a, b]) == Step(pol, Step(pol, w, a), b)
  {
    assert [a, b][..1] == [a] && [a][..0] == [];
    assert Run(pol, w, [a]) == Step(pol, Run(pol, w, []), a);
  }

  lemma {:induction false} RunSplits(pol: Policy, w: World, a: seq<Event>, b: seq<Event>)
    ensures Run(pol, w, a + b) == Run(pol, Run(pol, w, a), b)
  {
    if b == [] {
      assert a + b == a;
    } else {
      var n := |b| - 1;
      assert (a + b)[..|a + b| - 1] == a + b[..n];
      RunSplits(pol, w, a, b[..n]);
    }
  }

  lemma Run6(pol: Policy, w: World, a: Event, b: Event, c: Event, d: Event, e: Event, f: Event)
    ensures Run(pol, w, [a, b, c, d, e, f])
         == Step(pol, Step(pol, Step(pol, Step(pol, Step(pol, Step(pol, w, a), b), c), d), e), f)
  {
    assert [a, b, c, d, e, f] == [a, b] + [c, d] + [e, f];
    RunSplits(pol, w, [a, b] + [c, d], [e, f]);
    RunSplits(pol, w, [a, b], [c, d]);
    Run2(pol, w, a, b);
    var w1 := Step(pol, Step(pol, w, a), b);
    Run2(pol, w1, c, d);
    Run2(pol, Step(pol, Step(pol, w1, c), d), e, f);
  }

  // ------------------------------------------------------------------------------------------
  // Convergence.

  function ProposalsIn(up: seq<Up>): nat {
    if up == [] then 0 else (if up[0].Propose? then 1 else 0) + ProposalsIn(up[1..])
  }

  lemma {:induction false} ProposalsAppend(up: seq<Up>, u: Up)
    ensures ProposalsIn(up + [u]) == ProposalsIn(up) + if u.Propose? then 1 else 0
  {
    if up == [] {
      assert up + [u] == [u] && [u][1..] == [];
    } else {
      assert (up + [u])[1..] == up[1..] + [u];
      ProposalsAppend(up[1..], u);
    }
  }

  /** Deliveries left: a proposal causes a push and a push causes an ack. */
  function Work(w: World): nat {
    match w.session
    case None => 0
    case Some(s) => |s.up| + 2 * ProposalsIn(s.up) + 2 * |s.down|
  }

  ghost predicate IsDelivery(w: World, e: Event) {
    && w.session.Some?
    && ((e.GatewayRecv? && w.session.value.up != []) || (e.AgentRecv? && w.session.value.down != []))
  }

  /** events is a run of deliveries, each of a message that is there. */
  ghost predicate Deliveries(pol: Policy, w: World, events: seq<Event>) {
    forall i :: 0 <= i < |events| ==> IsDelivery(Run(pol, w, events[..i]), events[i])
  }

  lemma DeliveryWorks(pol: Policy, w: World, e: Event)
    requires IsDelivery(w, e)
    ensures Work(Step(pol, w, e)) < Work(w) && Step(pol, w, e).session.Some?
  {
    var s := w.session.value;
    if e.AgentRecv? {
      ProposalsAppend(s.up, Ack(s.down[0].gen));
    }
  }

  lemma {:induction false} DeliveriesWork(pol: Policy, w: World, events: seq<Event>)
    requires Deliveries(pol, w, events) && w.session.Some?
    ensures Work(Run(pol, w, events)) + |events| <= Work(w) && Run(pol, w, events).session.Some?
  {
    if events != [] {
      var n := |events| - 1;
      forall i | 0 <= i < n
        ensures IsDelivery(Run(pol, w, events[..n][..i]), events[..n][i])
      {
        assert events[..n][..i] == events[..i];
      }
      DeliveriesWork(pol, w, events[..n]);
      DeliveryWorks(pol, Run(pol, w, events[..n]), events[n]);
    }
  }

  /** Convergence: from any reachable live session, deliveries alone come to an end within Work(w)
      steps whatever their order and whatever ports get bound, and where none is left both sides
      agree and the gateway's belief about the agent is right. */
  lemma Converges(pol: Policy, w0: World, history: seq<Event>, deliveries: seq<Event>)
    requires Initial(w0) && Run(pol, w0, history).session.Some?
    requires Deliveries(pol, Run(pol, w0, history), deliveries)
    ensures |deliveries| <= Work(Run(pol, w0, history))
    ensures var w := Run(pol, Run(pol, w0, history), deliveries);
      && w.session.Some?
      && ((forall e :: !IsDelivery(w, e)) ==>
            w.record.gen > 0 && w.agent.gen == w.record.gen == w.session.value.believed && Agrees(pol, w))
  {
    var w1 := Run(pol, w0, history);
    DeliveriesWork(pol, w1, deliveries);
    RunSplits(pol, w0, history, deliveries);
    QuietAgrees(pol, w0, history + deliveries);
    var w := Run(pol, w1, deliveries);
    if forall e :: !IsDelivery(w, e) {
      assert !IsDelivery(w, GatewayRecv(map[])) && !IsDelivery(w, AgentRecv);
    }
  }

  lemma EditRoundTrip(pol: Policy, w: World, tunnels: seq<Tunnel>, bound: map<string, int>)
    requires w.session.Some? && w.session.value.up == [] && w.session.value.down == []
    requires w.session.value.believed == w.record.gen
    ensures var resolved := ResolveAll(ValidOf(pol, EnabledSpecsOf(tunnels)), bound);
      var w1 := Step(pol, Step(pol, Step(pol, Step(pol, w, Edit(tunnels)), GatewayRecv(bound)), AgentRecv), GatewayRecv(map[]));
      && w1.record == Record(resolved, w.record.gen + 1)
      && w1.agent.gen == w1.record.gen && EnabledSpecsOf(w1.agent.tunnels) == resolved
      && w1.session.Some? && w1.session.value.up == [] && w1.session.value.down == []
  {
    var w1 := EditS(w, tunnels);
    assert w1.session.value.up == [Propose(EnabledSpecsOf(tunnels), w.agent.gen)];
    ProposeAlone(pol, w1, w1.session.value, bound);
    var w2 := GatewayRecvS(pol, w1, w1.session.value, bound);
    PushAlone(w2, w2.session.value);
    var w3 := AgentRecvS(w2, w2.session.value);
    AckAlone(pol, w3, w3.session.value, map[]);
  }

  /** An edit made when nothing is in flight is adopted: after its three deliveries the gateway
      stores what of it is valid, at the ports bound, under the next generation, and the agent runs
      exactly that. */
  lemma QuietEditAdopted(pol: Policy, w0: World, history: seq<Event>, tunnels: seq<Tunnel>, bound: map<string, int>)
    requires Initial(w0)
    requires var w := Run(pol, w0, history);
      w.session.Some? && w.session.value.up == [] && w.session.value.down == []
    ensures var w := Run(pol, w0, history);
      var resolved := ResolveAll(ValidOf(pol, EnabledSpecsOf(tunnels)), bound);
      var w1 := Step(pol, Step(pol, Step(pol, Step(pol, w, Edit(tunnels)), GatewayRecv(bound)), AgentRecv), GatewayRecv(map[]));
      && w1.record == Record(resolved, w.record.gen + 1)
      && w1.agent.gen == w1.record.gen && EnabledSpecsOf(w1.agent.tunnels) == resolved
      && w1.session.Some? && w1.session.value.up == [] && w1.session.value.down == []
  {
    var w := Run(pol, w0, history);
    QuietAgrees(pol, w0, history);
    assert !HasPropose(w.session.value.up);
    EditRoundTrip(pol, w, tunnels, bound);
  }

  // ------------------------------------------------------------------------------------------
  // A belief that moved back.

  /** From a session whose belief is not the stored generation, a stretch of events that neither ends
      the session nor delivers the agent's ack of that generation. */
  ghost predicate Unconfirmed(pol: Policy, w: World, events: seq<Event>) {
    forall i :: 0 <= i < |events| ==>
      !events[i].Drop? && !(events[i].GatewayRecv? && ReadsAckOf(Run(pol, w, events[..i]), w.record.gen))
  }

  ghost predicate ReadsAckOf(w: World, gen: nat) {
    w.session.Some? && w.session.value.up != [] && w.session.value.up[0] == Ack(gen)
  }

  ghost predicate ReadsProposal(w: World, e: Event) {
    e.GatewayRecv? && w.session.Some? && w.session.value.up != [] && w.session.value.up[0].Propose?
  }

  lemma RefusalStep(pol: Policy, w: World, e: Event)
    requires w.session.Some? && w.record.gen != 0 && w.session.value.believed != w.record.gen
    requires !e.Drop? && !(e.GatewayRecv? && ReadsAckOf(w, w.record.gen))
    ensures var w1 := Step(pol, w, e);
      && w1.session.Some? && w1.session.value.believed != w1.record.gen
      && w1.record == w.record && w1.log == w.log
      && (ReadsProposal(w, e) ==>
            w1.session.value.down == w.session.value.down + [Push(w.record.gen, w.record.stored)])
  {
  }

  lemma UnconfirmedPrefix(pol: Policy, w: World, events: seq<Event>)
    requires events != [] && Unconfirmed(pol, w, events)
    ensures Unconfirmed(pol, w, events[..|events| - 1])
  {
    forall i | 0 <= i < |events| - 1
      ensures events[..|events| - 1][..i] == events[..i]
    {
    }
  }

  /** Once the belief is off the stored generation, as after an ack of an earlier one, every proposal
      read is refused and the stored set pushed again, with record and log as they are, until the
      agent's ack of the stored generation is read, over every run of events in between. */
  lemma {:induction false} OffBeliefOnlyRepushes(pol: Policy, w: World, events: seq<Event>)
    requires w.session.Some? && w.record.gen != 0 && w.session.value.believed != w.record.gen
    requires Unconfirmed(pol, w, events)
    ensures var w1 := Run(pol, w, events);
      && w1.session.Some? && w1.session.value.believed != w1.record.gen
      && w1.record == w.record && w1.log == w.log
    ensures forall i :: 0 <= i < |events| && ReadsProposal(Run(pol, w, events[..i]), events[i]) ==>
      Repushed(Run(pol, w, events[..i]), Run(pol, w, events[..i + 1]), w.record)
  {
    if events != [] {
      var n := |events| - 1;
      UnconfirmedPrefix(pol, w, events);
      OffBeliefOnlyRepushes(pol, w, events[..n]);
      RefusalStep(pol, Run(pol, w, events[..n]), events[n]);
      forall i | 0 <= i < |events| && ReadsProposal(Run(pol, w, events[..i]), events[i])
        ensures Repushed(Run(pol, w, events[..i]), Run(pol, w, events[..i + 1]), w.record)
      {
        if i < n {
          assert events[..n][..i] == events[..i] && events[..n][..i + 1] == events[..i + 1];
        } else {
          assert events[..i + 1] == events;
        }
      }
    }
  }

  ghost predicate Repushed(before: World, after: World, r: Record) {
    && before.session.Some? && after.session.Some?
    && after.session.value.down == before.session.value.down + [Push(r.gen, r.stored)]
  }

  /** And that ack is what ends it: reading it sets the belief right, so the next proposal read is
      adopted. */
  lemma ConfirmationEndsIt(pol: Policy, w: World, bound: map<string, int>, later: map<string, int>)
    requires ReadsAckOf(w, w.record.gen) && |w.session.value.up| >= 2 && w.session.value.up[1].Propose?
    ensures Step(pol, Step(pol, w, GatewayRecv(bound)), GatewayRecv(later)).record.gen == w.record.gen + 1
  {
  }

  /** The refusal costs the agent its edit: the re-push replaces it. Two edits on either side of the
      first ack are such a case. The first is adopted, the ack then moves the belief back, the second
      is refused, and the session comes to rest with the agent running the first. */
  lemma RefusedEditIsOverwritten(pol: Policy, t: Tunnel)
    requires t.enabled
    ensures var w0 := World(Record([], 0), [], Agent([], 0), None);
      var recv := GatewayRecv(map[]);
      var w := Run(pol, w0, [Connect, recv, Edit([]), AgentRecv, Edit([t]), recv] + [recv, recv, AgentRecv, AgentRecv]);
      && Initial(w0) && w.session.Some? && Quiet(w.session.value)
      && w.record.gen == 2 && w.agent.gen == 2 && EnabledSpecsOf(w.agent.tunnels) == []
  {
    var w0 := World(Record([], 0), [], Agent([], 0), None);
    var recv := GatewayRecv(map[]);
    Run6(pol, w0, Connect, recv, Edit([]), AgentRecv, Edit([t]), recv);
    assert ResolveAll([], map[]) == [];
    OneEnabled(t);
    var a := ConnectS(pol, w0);
    ProposeAlone(pol, a, a.session.value, map[]);
    var b := GatewayRecvS(pol, a, a.session.value, map[]);
    var c := EditS(b, []);
    assert c.session.value.up == [Propose([], 0)] && c.session.value.down == [Push(1, [])];
    var d := AgentRecvS(c, c.session.value);
    assert d.session.value.up == [Propose([], 0), Ack(1)] && d.session.value.down == [];
    var e := EditS(d, [t]);
    assert e.session.value.up == [Propose([], 0), Ack(1), Propose([t.spec], 1)];
    var f := GatewayRecvS(pol, e, e.session.value, map[]);
    assert f.session.value.up == [Ack(1), Propose([t.spec], 1)] && f.session.value.down == [Push(2, [])];
    SecondHalf(pol, f, t);
    RunSplits(pol, w0, [Connect, recv, Edit([]), AgentRecv, Edit([t]), recv], [recv, recv, AgentRecv, AgentRecv]);
    Run4(pol, f, recv, recv, AgentRecv, AgentRecv);
  }

  lemma SecondHalf(pol: Policy, f: World, t: Tunnel)
    requires f.record == Record([], 2) && f.session.Some? && f.session.value.believed == 2
    requires f.session.value.up == [Ack(1), Propose([t.spec], 1)] && f.session.value.down == [Push(2, [])]
    ensures var recv := GatewayRecv(map[]);
      var w := Step(pol, Step(pol, Step(pol, Step(pol, f, recv), recv), AgentRecv), AgentRecv);
      && w.session.Some? && Quiet(w.session.value)
      && w.record.gen == 2 && w.agent.gen == 2 && EnabledSpecsOf(w.agent.tunnels) == []
  {
    var recv := GatewayRecv(map[]);
    var g := Step(pol, f, recv);
    assert g.session.value.up == [Propose([t.spec], 1)];
    var h := Step(pol, g, recv);
    assert h.session.value.up == [] && h.session.value.down == [Push(2, []), Push(2, [])];
    var i := Step(pol, h, AgentRecv);
    assert i.session.value.up == [Ack(2)] && i.session.value.down == [Push(2, [])];
    var j := Step(pol, i, AgentRecv);
    assert j.session.value.up == [Ack(2), Ack(2)] && j.session.value.down == [];
    MergeRoundTrip(i.agent.tunnels, []);
  }

  lemma Run4(pol: Policy, w: World, a: Event, b: Event, c: Event, d: Event)
    ensures Run(pol, w, [a, b, c, d]) == Step(pol, Step(pol, Step(pol, Step(pol, w, a), b), c), d)
  {
    assert [a, b, c, d] == [a, b] + [c, d];
    RunSplits(pol, w, [a, b], [c, d]);
    Run2(pol, w, a, b);
    Run2(pol, Step(pol, Step(pol, w, a), b), c, d);
  }

  // ------------------------------------------------------------------------------------------
  // What a proposal was based on.

  /** Reading up from the generation confirmed so far, each proposal is based on the last generation
      acked before it, and the agent holds the last one acked. */
  ghost predicate Chained(up: seq<Up>, confirmed: nat, held: nat) {
    if up == [] then confirmed == held
    else
      match up[0]
      case Propose(_, b) => b == confirmed && Chained(up[1..], confirmed, held)
      case Ack(g) => Chained(up[1..], g, held)
  }

  lemma {:induction false} ChainedAppend(up: seq<Up>, u: Up, confirmed: nat, held: nat)
    requires Chained(up, confirmed, held) && (u.Propose? ==> u.basis == held)
    ensures Chained(up + [u], confirmed, if u.Ack? then u.gen else held)
  {
    if up == [] {
      assert up + [u] == [u] && [u][1..] == [];
    } else {
      assert (up + [u])[1..] == up[1..] + [u];
      ChainedAppend(up[1..], u, if up[0].Ack? then up[0].gen else confirmed, held);
    }
  }

  ghost predicate AcksWithin(up: seq<Up>, low: nat, high: nat) {
    forall i :: 0 <= i < |up| && up[i].Ack? ==> low <= up[i].gen <= high
  }

  ghost predicate PushesWithin(down: seq<Push>, low: nat, high: nat) {
    forall i :: 0 <= i < |down| ==> low <= down[i].gen <= high
  }

  /** The belief is what the agent reported last, unless it is the gateway's own latest adoption. An
      agent that came with another generation than the stored one has had nothing adopted before its
      first ack is read; from then on all it reports is at or after the stored one. */
  ghost predicate BasisInv(w: World) {
    w.session.Some? ==>
      var s := w.session.value;
      && Chained(s.up, s.confirmed, w.agent.gen)
      && (s.believed == s.confirmed || s.believed == w.record.gen)
      && s.start <= w.record.gen
      && PushesWithin(s.down, s.start, w.record.gen) && AcksWithin(s.up, s.start, w.record.gen)
      && (s.start > 0 ==>
            || (s.believed == s.confirmed != s.start && w.record.gen == s.start)
            || s.start <= s.confirmed <= w.record.gen)
  }

  lemma {:induction false} BasisStep(pol: Policy, w: World, e: Event)
    requires BasisInv(w)
    ensures BasisInv(Step(pol, w, e))
  {
    if w.session.Some? {
      var s := w.session.value;
      match e
      case Edit(tunnels) => ChainedAppend(s.up, Propose(EnabledSpecsOf(tunnels), w.agent.gen), s.confirmed, w.agent.gen);
      case AgentRecv =>
        if s.down != [] {
          ChainedAppend(s.up, Ack(s.down[0].gen), s.confirmed, w.agent.gen);
        }
      case GatewayRecv(bound) => if s.up != [] { BasisReceived(pol, w, s, bound); }
      case _ =>
    }
  }

  lemma {:induction false} BasisReceived(pol: Policy, w: World, s: Session, bound: map<string, int>)
    requires BasisInv(w) && w.session == Some(s) && s.up != []
    ensures BasisInv(GatewayRecvS(pol, w, s, bound))
  {
  }

  lemma {:induction false} BasisRuns(pol: Policy, w0: World, events: seq<Event>)
    requires Initial(w0)
    ensures BasisInv(Run(pol, w0, events))
  {
    if events != [] {
      var n := |events| - 1;
      BasisRuns(pol, w0, events[..n]);
      BasisStep(pol, Run(pol, w0, events[..n]), events[n]);
    }
  }

  /** The proposal at the head of the channel is read next. */
  ghost predicate Proposing(w: World) {
    w.session.Some? && w.session.value.up != [] && w.session.value.up[0].Propose?
  }

  ghost predicate Adopts(pol: Policy, w: World, bound: map<string, int>) {
    Step(pol, w, GatewayRecv(bound)).record.gen != w.record.gen
  }

  /** When "adopted only when based on the current generation" holds, over every run: the proposal
      read next is based on exactly the generation the agent reported last, so it is based on the
      stored one if and only if the agent itself has confirmed that one to the gateway, and then it is
      adopted. A proposal is adopted on another basis if and only if nothing is stored yet, or the
      gateway's belief in the stored generation is its own adoption, not yet confirmed. */
  lemma AdoptedOnCurrentExactly(pol: Policy, w0: World, events: seq<Event>, bound: map<string, int>)
    requires Initial(w0) && Proposing(Run(pol, w0, events))
    ensures var w := Run(pol, w0, events);
      var s := w.session.value;
      && (s.up[0].basis == w.record.gen <==> s.confirmed == w.record.gen)
      && (s.confirmed == w.record.gen ==> Adopts(pol, w, bound))
      && (Adopts(pol, w, bound) && s.up[0].basis != w.record.gen <==>
            (w.record.gen == 0 || s.believed == w.record.gen) && s.confirmed != w.record.gen)
  {
    BasisRuns(pol, w0, events);
  }

  /** No adoption over unseen config: in a session that began with a config in force, a proposal is
      adopted only if the agent composed it holding that config or a later one. So a set the agent
      edited offline from an older generation, or from one the gateway never issued, is refused. */
  lemma AdoptedSawSession(pol: Policy, w0: World, events: seq<Event>, bound: map<string, int>)
    requires Initial(w0) && Proposing(Run(pol, w0, events)) && Adopts(pol, Run(pol, w0, events), bound)
    ensures var w := Run(pol, w0, events);
      w.session.value.start > 0 ==> w.session.value.start <= w.session.value.up[0].basis <= w.record.gen
  {
    BasisRuns(pol, w0, events);
  }

  /** An adoption on an older basis: two edits in a row are both adopted, the second composed at
      generation 1 when generation 2 is stored. */
  lemma BackToBackBothAdopted(pol: Policy)
    ensures var w0 := World(Record([], 0), [], Agent([], 0), None);
      var w := Run(pol, w0, [Connect, GatewayRecv(map[]), AgentRecv, GatewayRecv(map[]), Edit([]), Edit([])]);
      var w1 := Step(pol, w, GatewayRecv(map[]));
      && Initial(w0) && w1.record.gen == 2
      && w1.session.Some? && w1.session.value.up == [Propose([], 1)]
      && Step(pol, w1, GatewayRecv(map[])).record.gen == 3
  {
    var w0 := World(Record([], 0), [], Agent([], 0), None);
    Run6(pol, w0, Connect, GatewayRecv(map[]), AgentRecv, GatewayRecv(map[]), Edit([]), Edit([]));
    assert ResolveAll([], map[]) == [];
    var a := ConnectS(pol, w0);
    ProposeAlone(pol, a, a.session.value, map[]);
    var b := GatewayRecvS(pol, a, a.session.value, map[]);
    PushAlone(b, b.session.value);
    var c := AgentRecvS(b, b.session.value);
    AckAlone(pol, c, c.session.value, map[]);
    var d := GatewayRecvS(pol, c, c.session.value, map[]);
    var e := EditS(EditS(d, []), []);
    assert e.session.value.up == [Propose([], 1), Propose([], 1)];
    assert e.session.value.up[1..] == [Propose([], 1)];
  }
}
