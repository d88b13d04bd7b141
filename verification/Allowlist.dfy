/** The identity allowlist and the validators in front of it (internal/gateway/agentstore.go:156-286,
    internal/gateway/auth.go:16-138). A public key is its hex text, "" for none; whether its signature
    over the gateway's fingerprint verifies is given with the hello; the id derived from a key is a
    parameter. Validation of one hello is one step. */
module Allowlist {
  import opened Prelude
  import opened TunnelConfig
  import opened Policies

  /** ticket is the pairing ticket the key joined with, which only the theorems read. */
  datatype Record = Record(
    agentId: string, nickname: string, scope: Scope, revoked: bool, desired: seq<TunnelSpec>, gen: nat, ticket: string)

  datatype Nonce = Nonce(exp: Option<int>, reusable: bool, scope: Scope, consumed: bool)

  datatype StoreS = StoreS(agents: map<string, Record>, nonces: map<string, Nonce>)

  datatype AuthError =
    | BadToken | MissingAgentId | Revoked | ReservedAgentId
    | TicketUnknown | TicketConsumed | TicketExpired | AgentIdCollision

  datatype Identity = Identity(agentId: string, key: Option<string>, scope: Scope)

  datatype Auth = Ok(id: Identity) | Err(error: AuthError)

  datatype Hello = Hello(token: string, agentId: string, key: string, proved: bool, ticket: string)

  datatype Change = SetRevoked | SetNickname(name: string) | SetScope(scope: Scope) | AdoptSpecs(specs: seq<TunnelSpec>)

  // ------------------------------------------------------------------------------------------
  // The store.

  function IssueS(st: StoreS, ticket: string, reusable: bool, exp: Option<int>, scope: Scope): StoreS {
    st.(nonces := st.nonces[ticket := Nonce(exp, reusable, scope, false)])
  }

  predicate Expired(n: Nonce, now: int) { n.exp.Some? && now > n.exp.value }

  predicate Collides(agents: map<string, Record>, agentId: string, key: string) {
    exists k :: k in agents && agents[k].agentId == agentId && k != key
  }

  /** What enrolling would refuse. */
  function TicketError(st: StoreS, key: string, agentId: string, ticket: string, now: int): Option<AuthError> {
    if ticket !in st.nonces then Some(TicketUnknown)
    else if st.nonces[ticket].consumed then Some(TicketConsumed)
    else if Expired(st.nonces[ticket], now) then Some(TicketExpired)
    else if Collides(st.agents, agentId, key) then Some(AgentIdCollision)
    else None
  }

  /** Enroll. A record written for a key that is already there keeps only its nickname. */
  function EnrollS(st: StoreS, key: string, agentId: string, ticket: string, now: int): StoreS {
    if TicketError(st, key, agentId, ticket, now).Some? then st
    else
      var n := st.nonces[ticket];
      var nickname := if key in st.agents then st.agents[key].nickname else "";
      StoreS(st.agents[key := Record(agentId, nickname, n.scope, false, [], 0, ticket)],
             if n.reusable then st.nonces else st.nonces[ticket := n.(consumed := true)])
  }

  function Apply(c: Change, r: Record): Record {
    match c
    case SetRevoked => r.(revoked := true)
    case SetNickname(name) => r.(nickname := name)
    case SetScope(scope) => r.(scope := scope)
    case AdoptSpecs(specs) => r.(desired := specs, gen := r.gen + 1)
  }

  predicate Known(st: StoreS, agentId: string) { exists k :: k in st.agents && st.agents[k].agentId == agentId }

  /** mutate. */
  function MutateS(st: StoreS, agentId: string, c: Change): StoreS {
    st.(agents := map k | k in st.agents :: if st.agents[k].agentId == agentId then Apply(c, st.agents[k]) else st.agents[k])
  }

  /** No two keys share an agent id. */
  ghost predicate UniqueIds(agents: map<string, Record>) {
    forall j, k :: j in agents && k in agents && agents[j].agentId == agents[k].agentId ==> j == k
  }

  class AgentStore {
    var agents: map<string, Record>
    var nonces: map<string, Nonce>

    ghost function State(): StoreS
      reads this
    {
      StoreS(agents, nonces)
    }

    constructor ()
      ensures State() == StoreS(map[], map[])
    {
      agents, nonces := map[], map[];
    }

    /** The ticket text is drawn at random by the caller. */
    method IssueEnrollment(ticket: string, reusable: bool, exp: Option<int>, scope: Scope)
      modifies this
      ensures State() == IssueS(old(State()), ticket, reusable, exp, scope)
    {
      nonces := nonces[ticket := Nonce(exp, reusable, scope, false)];
    }

    /** The scan for another key under the same id. */
    method FindCollision(agentId: string, key: string) returns (hit: bool)
      ensures hit == Collides(agents, agentId, key)
    {
      var left := agents.Keys;
      while left != {}
        invariant left <= agents.Keys
        invariant forall k :: k in agents && k !in left ==> !(agents[k].agentId == agentId && k != key)
        decreases |left|
      {
        var k :| k in left;
        if agents[k].agentId == agentId && k != key {
          return true;
        }
        left := left - {k};
      }
      hit := false;
    }

    method Enroll(key: string, agentId: string, ticket: string, now: int) returns (err: Option<AuthError>)
      modifies this
      ensures State() == EnrollS(old(State()), key, agentId, ticket, now)
      ensures err == TicketError(old(State()), key, agentId, ticket, now)
    {
      if ticket !in nonces {
        return Some(TicketUnknown);
      }
      var n := nonces[ticket];
      if n.consumed {
        return Some(TicketConsumed);
      }
      if n.exp.Some? && now > n.exp.value {
        return Some(TicketExpired);
      }
      var hit := FindCollision(agentId, key);
      if hit {
        return Some(AgentIdCollision);
      }
      var rec := Record(agentId, "", n.scope, false, [], 0, ticket);
      if key in agents {
        rec := rec.(nickname := agents[key].nickname);
      }
      agents := agents[key := rec];
      if !n.reusable {
        nonces := nonces[ticket := n.(consumed := true)];
      }
      err := None;
    }

    /** mutate touches the first record it meets under the id; with unique ids that is the only one. */
    method Mutate(agentId: string, c: Change) returns (found: bool)
      requires UniqueIds(agents)
      modifies this`agents
      ensures State() == MutateS(old(State()), agentId, c) && found == Known(old(State()), agentId)
    {
      var left := agents.Keys;
      while left != {}
        invariant left <= agents.Keys && agents == old(agents)
        invariant forall k :: k in agents && k !in left ==> agents[k].agentId != agentId
        decreases |left|
      {
        var k :| k in left;
        if agents[k].agentId == agentId {
          agents := agents[k := Apply(c, agents[k])];
          MutateOne(old(State()), agentId, c, k);
          return true;
        }
        left := left - {k};
      }
      assert MutateS(old(State()), agentId, c).agents == old(agents);
      found := false;
    }

    method DesiredConfig(agentId: string) returns (specs: seq<TunnelSpec>, gen: nat, ok: bool)
      ensures ok == Known(State(), agentId)
      ensures ok ==> exists k :: k in agents && agents[k].agentId == agentId && (specs, gen) == (agents[k].desired, agents[k].gen)
    {
      var left := agents.Keys;
      while left != {}
        invariant left <= agents.Keys
        invariant forall k :: k in agents && k !in left ==> agents[k].agentId != agentId
        decreases |left|
      {
        var k :| k in left;
        if agents[k].agentId == agentId {
          return agents[k].desired, agents[k].gen, true;
        }
        left := left - {k};
      }
      return [], 0, false;
    }
  }

  lemma MutateOne(st: StoreS, agentId: string, c: Change, k: string)
    requires UniqueIds(st.agents) && k in st.agents && st.agents[k].agentId == agentId
    ensures MutateS(st, agentId, c).agents == st.agents[k := Apply(c, st.agents[k])]
  {
  }

  // ------------------------------------------------------------------------------------------
  // The validators.

  predicate IsDerived(agentId: string) { "agt_" <= agentId }

  function SharedV(token: string, hello: Hello): Auth {
    if hello.token != token then Err(BadToken)
    else if hello.agentId == "" then Err(MissingAgentId)
    else if IsDerived(hello.agentId) then Err(ReservedAgentId)
    else Ok(Identity(hello.agentId, None, Scope([], [])))
  }

  function IdentityV(st: StoreS, derive: string -> string, hello: Hello, now: int): (StoreS, Auth) {
    if !hello.proved then (st, Err(BadToken))
    else if hello.key in st.agents then
      var r := st.agents[hello.key];
      (st, if r.revoked then Err(Revoked) else Ok(Identity(r.agentId, Some(hello.key), r.scope)))
    else if hello.ticket == "" then (st, Err(BadToken))
    else
      match TicketError(st, hello.key, derive(hello.key), hello.ticket, now)
      case Some(e) => (st, Err(e))
      case None =>
        (EnrollS(st, hello.key, derive(hello.key), hello.ticket, now),
         Ok(Identity(derive(hello.key), Some(hello.key), st.nonces[hello.ticket].scope)))
  }

  /** shared is the accepted token, if the shared token is still accepted. */
  function CompositeV(st: StoreS, derive: string -> string, shared: Option<string>, hello: Hello, now: int): (StoreS, Auth) {
    if hello.key != "" then
      var (st1, a) := IdentityV(st, derive, hello, now);
      if a.Ok? || a.error in {Revoked, TicketUnknown, TicketConsumed, TicketExpired} then (st1, a)
      else if shared.Some? && hello.token != "" then (st1, SharedV(shared.value, hello))
      else (st1, a)
    else if shared.Some? then (st, SharedV(shared.value, hello))
    else (st, Err(BadToken))
  }

  /** The composite validator over the store in place. */
  method Validate(store: AgentStore, derive: string -> string, shared: Option<string>, hello: Hello, now: int) returns (a: Auth)
    modifies store
    ensures (store.State(), a) == CompositeV(old(store.State()), derive, shared, hello, now)
  {
    if hello.key == "" {
      if shared.Some? {
        return SharedV(shared.value, hello);
      }
      return Err(BadToken);
    }
    a := ValidateIdentity(store, derive, hello, now);
    if a.Ok? || a.error == Revoked || a.error == TicketUnknown || a.error == TicketConsumed || a.error == TicketExpired {
      return;
    }
    if shared.Some? && hello.token != "" {
      a := SharedV(shared.value, hello);
    }
  }

  method ValidateIdentity(store: AgentStore, derive: string -> string, hello: Hello, now: int) returns (a: Auth)
    modifies store
    ensures (store.State(), a) == IdentityV(old(store.State()), derive, hello, now)
  {
    if !hello.proved {
      return Err(BadToken);
    }
    if hello.key in store.agents {
      var r := store.agents[hello.key];
      if r.revoked {
        return Err(Revoked);
      }
      return Ok(Identity(r.agentId, Some(hello.key), r.scope));
    }
    if hello.ticket == "" {
      return Err(BadToken);
    }
    var err := store.Enroll(hello.key, derive(hello.key), hello.ticket, now);
    if err.Some? {
      return Err(err.value);
    }
    var r := store.agents[hello.key];
    return Ok(Identity(r.agentId, Some(hello.key), r.scope));
  }

  // ------------------------------------------------------------------------------------------
  // Whose hello is accepted.

  /** The hello proves a key that is enrolled. */
  ghost predicate ProvesEnrolled(st: StoreS, hello: Hello) {
    hello.key != "" && hello.proved && hello.key in st.agents
  }

  /** The hello proves a key that is not, and carries a ticket. */
  ghost predicate AsksToJoin(st: StoreS, hello: Hello) {
    hello.key != "" && hello.proved && hello.key !in st.agents && hello.ticket != ""
  }

  ghost predicate Unspent(st: StoreS, ticket: string) { ticket in st.nonces && !st.nonces[ticket].consumed }

  /** At or before the expiry, if the ticket has one. */
  ghost predicate InTime(n: Nonce, now: int) { n.exp.None? || now <= n.exp.value }

  ghost predicate Current(st: StoreS, ticket: string, now: int) {
    Unspent(st, ticket) && InTime(st.nonces[ticket], now)
  }

  ghost predicate IdTaken(st: StoreS, agentId: string) {
    exists k :: k in st.agents && st.agents[k].agentId == agentId
  }

  ghost predicate Joins(st: StoreS, derive: string -> string, hello: Hello, now: int) {
    AsksToJoin(st, hello) && Current(st, hello.ticket, now) && !IdTaken(st, derive(hello.key))
  }

  /** The shared token is looked at: it is on, and either there is no key, or a token came with one
      that proves nothing, is unknown and without a ticket, or would take another key's id. */
  ghost predicate SharedTried(st: StoreS, derive: string -> string, shared: Option<string>, hello: Hello, now: int) {
    && shared.Some?
    && (hello.key == ""
        || (hello.token != ""
            && (!hello.proved
                || (hello.key !in st.agents && hello.ticket == "")
                || (AsksToJoin(st, hello) && Current(st, hello.ticket, now) && IdTaken(st, derive(hello.key))))))
  }

  /** An id of the namespace derived from keys. */
  ghost predicate Reserved(agentId: string) { |agentId| >= 4 && agentId[..4] == "agt_" }

  /** Acceptance, exactly, with a key: a hello is accepted under a key if and only if it proves that
      key, and the key is enrolled and not revoked or joins now; under the id and scope of its record,
      or the derived id and the ticket's scope. */
  lemma KeyAcceptedExactly(
    st: StoreS, derive: string -> string, shared: Option<string>, hello: Hello, now: int, id: Identity)
    requires id.key.Some?
    ensures CompositeV(st, derive, shared, hello, now).1 == Ok(id) <==>
      && id.key == Some(hello.key)
      && if ProvesEnrolled(st, hello) then
           var r := st.agents[hello.key];
           !r.revoked && id.agentId == r.agentId && id.scope == r.scope
         else
           Joins(st, derive, hello, now) && id.agentId == derive(hello.key) && id.scope == st.nonces[hello.ticket].scope
  {
  }

  /** And without one: if and only if the shared token is looked at and matches, and the id asked for
      is neither empty nor reserved; under that id, and with no restriction. */
  lemma SharedAcceptedExactly(
    st: StoreS, derive: string -> string, shared: Option<string>, hello: Hello, now: int, id: Identity)
    requires id.key.None?
    ensures CompositeV(st, derive, shared, hello, now).1 == Ok(id) <==>
      && SharedTried(st, derive, shared, hello, now) && hello.token == shared.value
      && hello.agentId != "" && !Reserved(hello.agentId)
      && id.agentId == hello.agentId && id.scope == Scope([], [])
  {
  }

  /** Each refusal, exactly: of a key. */
  lemma KeyRefusedExactly(st: StoreS, derive: string -> string, shared: Option<string>, hello: Hello, now: int)
    ensures var a := CompositeV(st, derive, shared, hello, now).1;
      var t := hello.ticket;
      && (a == Err(Revoked) <==> ProvesEnrolled(st, hello) && st.agents[hello.key].revoked)
      && (a == Err(TicketUnknown) <==> AsksToJoin(st, hello) && t !in st.nonces)
      && (a == Err(TicketConsumed) <==> AsksToJoin(st, hello) && t in st.nonces && st.nonces[t].consumed)
      && (a == Err(TicketExpired) <==> AsksToJoin(st, hello) && Unspent(st, t) && !InTime(st.nonces[t], now))
      && (a == Err(AgentIdCollision) <==>
            && AsksToJoin(st, hello) && Current(st, t, now) && IdTaken(st, derive(hello.key))
            && !SharedTried(st, derive, shared, hello, now))
  {
  }

  /** Of the shared token, and of a hello that offers nothing. */
  lemma TokenRefusedExactly(st: StoreS, derive: string -> string, shared: Option<string>, hello: Hello, now: int)
    ensures var a := CompositeV(st, derive, shared, hello, now).1;
      var tried := SharedTried(st, derive, shared, hello, now);
      && (a == Err(MissingAgentId) <==> tried && hello.token == shared.value && hello.agentId == "")
      && (a == Err(ReservedAgentId) <==> tried && hello.token == shared.value && Reserved(hello.agentId))
      && (a == Err(BadToken) <==>
            if tried then hello.token != shared.value
            else hello.key == "" || !hello.proved || (hello.key !in st.agents && hello.ticket == ""))
  {
  }

  /** A ticket does what it was issued for: whoever proves a key that is not enrolled, under an id nobody
      has, joins with it until it expires, within the scope it was issued with. */
  lemma FreshTicketAdmits(st: StoreS, derive: string -> string, shared: Option<string>, hello: Hello, now: int,
                          reusable: bool, exp: Option<int>, scope: Scope)
    requires hello.key != "" && hello.proved && hello.key !in st.agents && hello.ticket != ""
    requires !IdTaken(st, derive(hello.key)) && (exp.Some? ==> now <= exp.value)
    ensures var st0 := IssueS(st, hello.ticket, reusable, exp, scope);
      var (st1, a) := CompositeV(st0, derive, shared, hello, now);
      && a == Ok(Identity(derive(hello.key), Some(hello.key), scope))
      && hello.key in st1.agents && st1.agents[hello.key].scope == scope
      && hello.ticket in st1.nonces && (st1.nonces[hello.ticket].consumed <==> !reusable)
  {
    var st0 := IssueS(st, hello.ticket, reusable, exp, scope);
    assert st0.agents == st.agents;
  }

  /** What a hello does to the store, exactly: a join adds the key's record and spends a single-use
      ticket; every other hello, accepted or refused, changes nothing. */
  lemma OnlyJoinsChange(st: StoreS, derive: string -> string, shared: Option<string>, hello: Hello, now: int)
    ensures var st1 := CompositeV(st, derive, shared, hello, now).0;
      if Joins(st, derive, hello, now) then
        var n := st.nonces[hello.ticket];
        && st1.agents == st.agents[hello.key := Record(derive(hello.key), "", n.scope, false, [], 0, hello.ticket)]
        && st1.nonces == if n.reusable then st.nonces else st.nonces[hello.ticket := n.(consumed := true)]
      else st1 == st
  {
  }

  // ------------------------------------------------------------------------------------------
  // Whole runs.

  datatype Event =
    | Issue(ticket: string, reusable: bool, exp: Option<int>, scope: Scope)
    | Join(hello: Hello, now: int)
    | Manage(agentId: string, change: Change)

  /** A ticket that is issued was never issued before. */
  function Step(st: StoreS, derive: string -> string, shared: Option<string>, e: Event): StoreS {
    match e
    case Issue(ticket, reusable, exp, scope) => if ticket in st.nonces then st else IssueS(st, ticket, reusable, exp, scope)
    case Join(hello, now) => CompositeV(st, derive, shared, hello, now).0
    case Manage(agentId, change) => MutateS(st, agentId, change)
  }

  function Run(st: StoreS, derive: string -> string, shared: Option<string>, events: seq<Event>): StoreS {
    if events == [] then st
    else Step(Run(st, derive, shared, events[..|events| - 1]), derive, shared, events[|events| - 1])
  }

  /** Each key joined with an issued ticket, and a single-use ticket admitted one key at most, after
      which it is consumed. */
  ghost predicate TicketsOk(st: StoreS) {
    && (forall k :: k in st.agents ==> st.agents[k].ticket in st.nonces)
    && (forall k :: k in st.agents && !st.nonces[st.agents[k].ticket].reusable ==> st.nonces[st.agents[k].ticket].consumed)
    && (forall j, k :: j in st.agents && k in st.agents && j != k && st.agents[j].ticket == st.agents[k].ticket ==>
          st.nonces[st.agents[k].ticket].reusable)
  }

  ghost predicate Inv(st: StoreS) { UniqueIds(st.agents) && TicketsOk(st) }

  /** What a key once enrolled keeps: its entry, its id, its ticket, a revocation; and its config
      generation never falls. */
  ghost predicate Keeps(a: StoreS, b: StoreS) {
    && (forall k :: k in a.agents ==>
          && k in b.agents && b.agents[k].agentId == a.agents[k].agentId && b.agents[k].ticket == a.agents[k].ticket
          && (a.agents[k].revoked ==> b.agents[k].revoked) && a.agents[k].gen <= b.agents[k].gen)
    && (forall t :: t in a.nonces ==> t in b.nonces && b.nonces[t].reusable == a.nonces[t].reusable)
  }

  lemma EnrollNewKeeps(st: StoreS, key: string, agentId: string, ticket: string, now: int)
    requires Inv(st) && key !in st.agents
    ensures Inv(EnrollS(st, key, agentId, ticket, now)) && Keeps(st, EnrollS(st, key, agentId, ticket, now))
  {
    if TicketError(st, key, agentId, ticket, now).None? {
      forall k | k in st.agents
        ensures st.agents[k].agentId != agentId
        ensures st.agents[k].ticket == ticket ==> st.nonces[ticket].reusable
      {
      }
    }
  }

  lemma JoinKeeps(st: StoreS, derive: string -> string, shared: Option<string>, hello: Hello, now: int)
    requires Inv(st)
    ensures Inv(CompositeV(st, derive, shared, hello, now).0) && Keeps(st, CompositeV(st, derive, shared, hello, now).0)
  {
    if hello.key !in st.agents {
      EnrollNewKeeps(st, hello.key, derive(hello.key), hello.ticket, now);
    }
  }

  lemma IssueKeeps(st: StoreS, ticket: string, reusable: bool, exp: Option<int>, scope: Scope)
    requires Inv(st) && ticket !in st.nonces
    ensures Inv(IssueS(st, ticket, reusable, exp, scope)) && Keeps(st, IssueS(st, ticket, reusable, exp, scope))
  {
  }

  lemma ManageKeeps(st: StoreS, agentId: string, c: Change)
    requires Inv(st)
    ensures Inv(MutateS(st, agentId, c)) && Keeps(st, MutateS(st, agentId, c))
  {
    forall k | k in st.agents
      ensures var r := MutateS(st, agentId, c).agents[k];
        r.agentId == st.agents[k].agentId && r.ticket == st.agents[k].ticket
    {
    }
  }

  lemma StepKeeps(st: StoreS, derive: string -> string, shared: Option<string>, e: Event)
    requires Inv(st)
    ensures Inv(Step(st, derive, shared, e)) && Keeps(st, Step(st, derive, shared, e))
  {
    match e
    case Issue(ticket, reusable, exp, scope) =>
      if ticket !in st.nonces {
        IssueKeeps(st, ticket, reusable, exp, scope);
      }
    case Join(hello, now) => JoinKeeps(st, derive, shared, hello, now);
    case Manage(agentId, change) => ManageKeeps(st, agentId, change);
  }

  /** Over every run of issuing, joining, revoking, renaming, scoping and adopting: no two keys share
      an agent id, a single-use ticket adds at most one key, and each key keeps its id and its
      revocation while its config generation never decreases. */
  lemma {:induction false} AllowlistSafe(st: StoreS, derive: string -> string, shared: Option<string>, events: seq<Event>)
    requires Inv(st)
    ensures Inv(Run(st, derive, shared, events)) && Keeps(st, Run(st, derive, shared, events))
  {
    if events != [] {
      var n := |events| - 1;
      AllowlistSafe(st, derive, shared, events[..n]);
      StepKeeps(Run(st, derive, shared, events[..n]), derive, shared, events[n]);
    }
  }

  lemma EmptyOk()
    ensures Inv(StoreS(map[], map[]))
  {
  }

  /** A single-use ticket: after any run two keys that joined with it are the same key. */
  lemma TicketOnce(derive: string -> string, shared: Option<string>, events: seq<Event>, j: string, k: string)
    requires var st := Run(StoreS(map[], map[]), derive, shared, events);
      && j in st.agents && k in st.agents && st.agents[j].ticket == st.agents[k].ticket
      && st.agents[j].ticket in st.nonces && !st.nonces[st.agents[j].ticket].reusable
    ensures j == k
  {
    EmptyOk();
    AllowlistSafe(StoreS(map[], map[]), derive, shared, events);
  }

  /** Revocation is final: after any later run no hello, whatever ticket or token it carries, is
      accepted as the revoked key. */
  lemma RevokedStaysOut(
    st: StoreS, derive: string -> string, shared: Option<string>, events: seq<Event>, k: string, hello: Hello, now: int)
    requires Inv(st) && k in st.agents && st.agents[k].revoked
    ensures var a := CompositeV(Run(st, derive, shared, events), derive, shared, hello, now).1;
      a.Ok? ==> a.id.key != Some(k)
  {
    AllowlistSafe(st, derive, shared, events);
  }

  /** What managing an agent changes, exactly: of the one key enrolled under the id, the field named,
      with the generation up by one when its set is adopted; of every other key, nothing. */
  lemma ManagedExactly(st: StoreS, agentId: string, c: Change, k: string)
    requires Inv(st) && k in st.agents
    ensures var st1 := MutateS(st, agentId, c);
      var r := st.agents[k];
      && st1.agents.Keys == st.agents.Keys && st1.nonces == st.nonces
      && (r.agentId != agentId ==> st1.agents[k] == r)
      && (r.agentId == agentId ==>
            var q := st1.agents[k];
            && q.agentId == agentId && q.ticket == r.ticket
            && q.revoked == (r.revoked || c.SetRevoked?)
            && q.nickname == (if c.SetNickname? then c.name else r.nickname)
            && q.scope == (if c.SetScope? then c.scope else r.scope)
            && (q.desired, q.gen) == (if c.AdoptSpecs? then (c.specs, r.gen + 1) else (r.desired, r.gen)))
  {
  }

  /** Some event of the run revokes the agent. */
  ghost predicate Revokes(events: seq<Event>, agentId: string) {
    exists i :: 0 <= i < |events| && events[i] == Manage(agentId, SetRevoked)
  }

  /** A key is revoked after a run exactly when it was before or the run revoked its agent. */
  lemma {:induction false} RevokedExactly(
    st: StoreS, derive: string -> string, shared: Option<string>, events: seq<Event>, k: string)
    requires Inv(st) && k in st.agents
    ensures var st1 := Run(st, derive, shared, events);
      && k in st1.agents && st1.agents[k].agentId == st.agents[k].agentId
      && (st1.agents[k].revoked <==> st.agents[k].revoked || Revokes(events, st.agents[k].agentId))
  {
    if events != [] {
      var n := |events| - 1;
      RevokedExactly(st, derive, shared, events[..n], k);
      AllowlistSafe(st, derive, shared, events[..n]);
      RevokedStep(Run(st, derive, shared, events[..n]), derive, shared, events[n], k);
      RevokesSnoc(events, st.agents[k].agentId);
    }
  }

  lemma RevokesSnoc(events: seq<Event>, agentId: string)
    requires events != []
    ensures var n := |events| - 1;
      Revokes(events, agentId) <==> Revokes(events[..n], agentId) || events[n] == Manage(agentId, SetRevoked)
  {
    var n := |events| - 1;
    if Revokes(events[..n], agentId) {
      var i :| 0 <= i < n && events[..n][i] == Manage(agentId, SetRevoked);
      assert events[i] == Manage(agentId, SetRevoked);
    }
    if Revokes(events, agentId) {
      var i :| 0 <= i < |events| && events[i] == Manage(agentId, SetRevoked);
      assert i < n ==> events[..n][i] == Manage(agentId, SetRevoked);
    }
  }

  lemma RevokedStep(st: StoreS, derive: string -> string, shared: Option<string>, e: Event, k: string)
    requires Inv(st) && k in st.agents
    ensures var st1 := Step(st, derive, shared, e);
      && k in st1.agents && st1.agents[k].agentId == st.agents[k].agentId
      && (st1.agents[k].revoked <==> st.agents[k].revoked || e == Manage(st.agents[k].agentId, SetRevoked))
  {
    StepKeeps(st, derive, shared, e);
    if e.Join? {
      OnlyJoinsChange(st, derive, shared, e.hello, e.now);
    }
  }

  /** So over every run a hello that proves an enrolled key is accepted, under its id, exactly as long
      as nobody revoked the agent, whatever else the hello carries. */
  lemma EnrolledAcceptedExactly(
    st: StoreS, derive: string -> string, shared: Option<string>, events: seq<Event>, hello: Hello, now: int)
    requires Inv(st) && ProvesEnrolled(st, hello)
    ensures var st1 := Run(st, derive, shared, events);
      var r := st.agents[hello.key];
      var a := CompositeV(st1, derive, shared, hello, now).1;
      && hello.key in st1.agents
      && (!r.revoked && !Revokes(events, r.agentId) <==>
            a == Ok(Identity(r.agentId, Some(hello.key), st1.agents[hello.key].scope)))
      && (a == Err(Revoked) <==> r.revoked || Revokes(events, r.agentId))
  {
    RevokedExactly(st, derive, shared, events, hello.key);
    var st1 := Run(st, derive, shared, events);
    KeyAcceptedExactly(st1, derive, shared, hello, now,
                       Identity(st.agents[hello.key].agentId, Some(hello.key), st1.agents[hello.key].scope));
    KeyRefusedExactly(st1, derive, shared, hello, now);
  }

  /** An accepted identity in the derived namespace always holds a key that proved itself, is
      enrolled under exactly that id, is not revoked, and carries the record's scope; so the shared
      token cannot speak for an enrolled agent. */
  lemma DerivedMeansKey(st: StoreS, derive: string -> string, shared: Option<string>, hello: Hello, now: int)
    ensures var (st1, a) := CompositeV(st, derive, shared, hello, now);
      a.Ok? && IsDerived(a.id.agentId) ==>
        && hello.proved && a.id.key == Some(hello.key) && hello.key in st1.agents
        && !st1.agents[hello.key].revoked && st1.agents[hello.key].agentId == a.id.agentId
        && st1.agents[hello.key].scope == a.id.scope
  {
  }

  /** Enroll, exactly: it takes a known, unspent ticket that is in time, under an id that no other key
      has; the record starts unrevoked at generation 0 with the ticket's scope, keeps at most the key's
      old nickname, and a single-use ticket is spent. */
  lemma EnrollExactly(st: StoreS, key: string, agentId: string, ticket: string, now: int)
    ensures TicketError(st, key, agentId, ticket, now).None? <==>
      Current(st, ticket, now) && forall k :: k in st.agents && st.agents[k].agentId == agentId ==> k == key
    ensures var st1 := EnrollS(st, key, agentId, ticket, now);
      if TicketError(st, key, agentId, ticket, now).Some? then st1 == st
      else
        var n := st.nonces[ticket];
        && st1.agents == st.agents[key := Record(agentId, if key in st.agents then st.agents[key].nickname else "",
                                                 n.scope, false, [], 0, ticket)]
        && st1.nonces.Keys == st.nonces.Keys && st1.nonces == st.nonces[ticket := n.(consumed := !n.reusable)]
  {
  }

  /** The protection rests on the validator looking a key up first: Enroll on its own, given a valid
      ticket, takes a revoked key back and forgets its config generation. */
  lemma EnrollAloneForgets(st: StoreS, key: string, ticket: string, now: int)
    requires key in st.agents && TicketError(st, key, st.agents[key].agentId, ticket, now).None?
    ensures var st1 := EnrollS(st, key, st.agents[key].agentId, ticket, now);
      key in st1.agents && !st1.agents[key].revoked && st1.agents[key].gen == 0
      && (Keeps(st, st1) ==> !st.agents[key].revoked && st.agents[key].gen == 0)
  {
  }
}
