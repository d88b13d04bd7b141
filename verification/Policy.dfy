/** Which public ports and tunnels an agent may bind (internal/gateway/gateway.go:1285-1313, 1358-1391;
    internal/gateway/conflict.go:80-134; internal/gateway/agentstore.go:47-78). */
module Policies {
  import opened Prelude
  import opened TunnelConfig

  /** A scope or list that is empty restricts nothing. */
  datatype Scope = Scope(ports: seq<int>, tunnelIds: seq<string>)

  datatype Policy = Policy(scope: Scope, allowlist: seq<int>)

  predicate Permits<T(==)>(list: seq<T>, x: T) { list == [] || x in list }

  /** The search loop of AllowsPort, AllowsTunnel and portInAllowlist. */
  method FindIn<T(==)>(list: seq<T>, x: T) returns (ok: bool)
    ensures ok == Permits(list, x)
  {
    if |list| == 0 {
      return true;
    }
    for i := 0 to |list|
      invariant x !in list[..i]
    {
      if list[i] == x {
        return true;
      }
    }
    ok := false;
  }

  predicate PortAllowed(pol: Policy, port: int) {
    Permits(pol.scope.ports, port) && Permits(pol.allowlist, port)
  }

  /** A chosen port is checked against scope and allowlist, an ephemeral one is not. */
  predicate SpecValid(pol: Policy, spec: TunnelSpec) {
    && spec.id != "" && spec.kind == "tcp"
    && 0 <= spec.publicPort <= 65535
    && (spec.publicPort != 0 ==> PortAllowed(pol, spec.publicPort))
    && Permits(pol.scope.tunnelIds, spec.id)
  }

  /** validateSpec, without its error texts. */
  method ValidateSpec(pol: Policy, spec: TunnelSpec) returns (ok: bool)
    ensures ok == SpecValid(pol, spec)
  {
    if spec.id == "" || spec.kind != "tcp" {
      return false;
    }
    if spec.publicPort < 0 || spec.publicPort > 65535 {
      return false;
    }
    if spec.publicPort != 0 {
      var inScope := FindIn(pol.scope.ports, spec.publicPort);
      if !inScope {
        return false;
      }
    }
    var tunnelOk := FindIn(pol.scope.tunnelIds, spec.id);
    if !tunnelOk {
      return false;
    }
    if |pol.allowlist| > 0 && spec.publicPort != 0 {
      ok := FindIn(pol.allowlist, spec.publicPort);
      return;
    }
    ok := true;
  }

  function ValidOf(pol: Policy, specs: seq<TunnelSpec>): seq<TunnelSpec> {
    if specs == [] then []
    else
      var last := specs[|specs| - 1];
      ValidOf(pol, specs[..|specs| - 1]) + if SpecValid(pol, last) then [last] else []
  }

  method ValidSpecs(pol: Policy, specs: seq<TunnelSpec>) returns (valid: seq<TunnelSpec>)
    ensures valid == ValidOf(pol, specs)
  {
    valid := [];
    for i := 0 to |specs|
      invariant valid == ValidOf(pol, specs[..i])
    {
      assert specs[..i + 1][..i] == specs[..i];
      var ok := ValidateSpec(pol, specs[i]);
      if ok {
        valid := valid + [specs[i]];
      }
    }
    assert specs[..|specs|] == specs;
  }

  ghost predicate AllValid(pol: Policy, specs: seq<TunnelSpec>) {
    forall i :: 0 <= i < |specs| ==> SpecValid(pol, specs[i])
  }

  /** Filtering keeps a list whole exactly when all of it is valid. */
  lemma {:induction false} ValidExact(pol: Policy, specs: seq<TunnelSpec>)
    ensures AllValid(pol, ValidOf(pol, specs)) && |ValidOf(pol, specs)| <= |specs|
    ensures ValidOf(pol, specs) == specs <==> AllValid(pol, specs)
  {
    if specs != [] {
      var n := |specs| - 1;
      ValidExact(pol, specs[..n]);
      assert specs == specs[..n] + [specs[n]];
      if ValidOf(pol, specs) == specs {
        assert AllValid(pol, specs);
      }
    }
  }

  /** Whether a spec is kept depends on that spec alone, and the kept ones stay in order. */
  lemma {:induction false} ValidInOrder(pol: Policy, a: seq<TunnelSpec>, b: seq<TunnelSpec>)
    ensures ValidOf(pol, a + b) == ValidOf(pol, a) + ValidOf(pol, b)
  {
    if b == [] {
      assert a + b == a;
    } else {
      ValidInOrder(pol, a, b[..|b| - 1]);
      assert (a + b)[..|a + b| - 1] == a + b[..|b| - 1];
    }
  }

  lemma ValidOne(pol: Policy, spec: TunnelSpec)
    ensures ValidOf(pol, [spec]) == if SpecValid(pol, spec) then [spec] else []
  {
    assert [spec][..0] == [];
  }

  const OPEN: Policy := Policy(Scope([], []), [])

  /** Without constraints every TCP tunnel with an id and a port in range is valid; each of the three
      lists, when not empty, takes away exactly the tunnels not on it, and a port list only those that
      ask for a port. */
  lemma ConstraintsNarrow(pol: Policy, spec: TunnelSpec)
    ensures SpecValid(OPEN, spec) <==> spec.id != [] && spec.kind == "tcp" && 0 <= spec.publicPort < 0x1_0000
    ensures SpecValid(pol, spec) <==>
      && SpecValid(OPEN, spec)
      && (pol.scope.tunnelIds != [] ==> exists i :: 0 <= i < |pol.scope.tunnelIds| && pol.scope.tunnelIds[i] == spec.id)
      && (spec.publicPort > 0 && pol.scope.ports != [] ==>
            exists i :: 0 <= i < |pol.scope.ports| && pol.scope.ports[i] == spec.publicPort)
      && (spec.publicPort > 0 && pol.allowlist != [] ==>
            exists i :: 0 <= i < |pol.allowlist| && pol.allowlist[i] == spec.publicPort)
  {
  }

  // ------------------------------------------------------------------------------------------
  // Ports that were bound.

  /** One tunnel's result from a reconcile. */
  datatype Outcome = Outcome(id: string, port: int, ok: bool)

  /** The last successful nonzero port reported for each id. */
  function BoundPorts(outcomes: seq<Outcome>): map<string, int> {
    if outcomes == [] then map[]
    else
      var last := outcomes[|outcomes| - 1];
      var m := BoundPorts(outcomes[..|outcomes| - 1]);
      if last.ok && last.port != 0 then m[last.id := last.port] else m
  }

  /** Outcome k is a success with a port for the id. */
  ghost predicate BindsId(outcomes: seq<Outcome>, k: nat, id: string)
    requires k < |outcomes|
  {
    outcomes[k].ok && outcomes[k].port != 0 && outcomes[k].id == id
  }

  /** The port on record for an id is that of the last such outcome, and there is none without one. */
  lemma {:induction false} BoundPortsExactly(outcomes: seq<Outcome>, id: string)
    ensures id !in BoundPorts(outcomes) <==> forall k :: 0 <= k < |outcomes| ==> !BindsId(outcomes, k, id)
    ensures id in BoundPorts(outcomes) ==>
      exists k :: 0 <= k < |outcomes| && BindsId(outcomes, k, id) && outcomes[k].port == BoundPorts(outcomes)[id]
                  && forall j :: k < j < |outcomes| ==> !BindsId(outcomes, j, id)
  {
    if outcomes != [] {
      var n := |outcomes| - 1;
      BoundPortsExactly(outcomes[..n], id);
      forall k | 0 <= k < n
        ensures BindsId(outcomes, k, id) <==> BindsId(outcomes[..n], k, id)
      {
      }
      if BindsId(outcomes, n, id) {
        assert id in BoundPorts(outcomes);
      }
    }
  }

  function Resolved(spec: TunnelSpec, bound: map<string, int>): TunnelSpec {
    if spec.id in bound then spec.(publicPort := bound[spec.id]) else spec
  }

  function ResolveAll(specs: seq<TunnelSpec>, bound: map<string, int>): (out: seq<TunnelSpec>)
    ensures |out| == |specs|
    ensures forall i :: 0 <= i < |specs| ==> out[i] == Resolved(specs[i], bound)
  {
    seq(|specs|, i requires 0 <= i < |specs| => Resolved(specs[i], bound))
  }

  method ResolvePorts(specs: seq<TunnelSpec>, outcomes: seq<Outcome>) returns (out: seq<TunnelSpec>)
    ensures out == ResolveAll(specs, BoundPorts(outcomes))
  {
    var bound: map<string, int> := map[];
    for i := 0 to |outcomes|
      invariant bound == BoundPorts(outcomes[..i])
    {
      assert outcomes[..i + 1][..i] == outcomes[..i];
      if outcomes[i].ok && outcomes[i].port != 0 {
        bound := bound[outcomes[i].id := outcomes[i].port];
      }
    }
    assert outcomes[..|outcomes|] == outcomes;
    out := [];
    for i := 0 to |specs|
      invariant |out| == i
      invariant forall j :: 0 <= j < i ==> out[j] == Resolved(specs[j], bound)
    {
      var s := specs[i];
      if s.id in bound {
        s := s.(publicPort := bound[s.id]);
      }
      out := out + [s];
    }
  }

  /** Every port handed out is in range and within scope and allowlist. */
  ghost predicate BoundAllowed(pol: Policy, bound: map<string, int>) {
    forall id :: id in bound ==> 0 < bound[id] <= 65535 && PortAllowed(pol, bound[id])
  }

  /** Every port handed out for a spec that asked for one is. */
  ghost predicate ChosenAllowed(pol: Policy, specs: seq<TunnelSpec>, bound: map<string, int>) {
    && (forall id :: id in bound ==> 0 < bound[id] <= 65535)
    && forall i :: 0 <= i < |specs| && specs[i].publicPort != 0 && specs[i].id in bound ==>
         PortAllowed(pol, bound[specs[i].id])
  }

  /** The ports the operating system picked for ephemeral requests happen to be within policy. */
  ghost predicate EphemeralAllowed(pol: Policy, specs: seq<TunnelSpec>, bound: map<string, int>) {
    forall i :: 0 <= i < |specs| && specs[i].publicPort == 0 && specs[i].id in bound ==>
      PortAllowed(pol, bound[specs[i].id])
  }

  /** A validated set, resolved to bound ports, passes validation again exactly when no ephemeral
      request landed on a port outside scope or allowlist. */
  lemma ResolvedStaysValid(pol: Policy, specs: seq<TunnelSpec>, bound: map<string, int>)
    requires AllValid(pol, specs) && ChosenAllowed(pol, specs, bound)
    ensures ValidOf(pol, ResolveAll(specs, bound)) == ResolveAll(specs, bound) <==> EphemeralAllowed(pol, specs, bound)
  {
    var out := ResolveAll(specs, bound);
    ValidExact(pol, out);
    if AllValid(pol, out) {
      forall i | 0 <= i < |specs| && specs[i].publicPort == 0 && specs[i].id in bound
        ensures PortAllowed(pol, bound[specs[i].id])
      {
        assert SpecValid(pol, out[i]);
      }
    }
    if EphemeralAllowed(pol, specs, bound) {
      forall i | 0 <= i < |out|
        ensures SpecValid(pol, out[i])
      {
        assert SpecValid(pol, specs[i]);
      }
    }
  }

  // ------------------------------------------------------------------------------------------
  // Where a tunnel may go when its port is taken.

  function InsertInt(x: int, s: seq<int>): seq<int> {
    if s == [] || x <= s[0] then [x] + s else [s[0]] + InsertInt(x, s[1..])
  }

  function SortInts(s: seq<int>): seq<int> {
    if s == [] then [] else InsertInt(s[|s| - 1], SortInts(s[..|s| - 1]))
  }

  predicate Ascending(s: seq<int>) { forall i, j :: 0 <= i < j < |s| ==> s[i] <= s[j] }

  lemma {:induction false} InsertIntSorts(x: int, s: seq<int>)
    requires Ascending(s)
    ensures Ascending(InsertInt(x, s)) && multiset(InsertInt(x, s)) == multiset(s) + multiset{x}
  {
    if s != [] && x > s[0] {
      var rest := s[1..];
      assert s == [s[0]] + rest;
      InsertIntSorts(x, rest);
      FirstLeast(s[0], x, rest, InsertInt(x, rest));
    }
  }

  lemma FirstLeast(m: int, x: int, s: seq<int>, t: seq<int>)
    requires Ascending(t) && multiset(t) == multiset(s) + multiset{x}
    requires m <= x && forall k :: 0 <= k < |s| ==> m <= s[k]
    ensures Ascending([m] + t)
  {
    forall k | 0 <= k < |t|
      ensures m <= t[k]
    {
      assert t[k] in multiset(t);
      assert t[k] == x || t[k] in multiset(s);
    }
  }

  lemma {:induction false} LastOut(s: seq<int>)
    requires s != []
    ensures multiset(s) == multiset(s[..|s| - 1]) + multiset{s[|s| - 1]}
  {
    assert s == s[..|s| - 1] + [s[|s| - 1]];
  }

  lemma {:induction false} SortIntsSorts(s: seq<int>)
    ensures Ascending(SortInts(s)) && multiset(SortInts(s)) == multiset(s)
  {
    if s != [] {
      var n := |s| - 1;
      SortIntsSorts(s[..n]);
      InsertIntSorts(s[n], SortInts(s[..n]));
      LastOut(s);
    }
  }

  predicate Constrained(pol: Policy) { pol.scope.ports != [] || pol.allowlist != [] }

  function Universe(pol: Policy): seq<int> { if pol.scope.ports != [] then pol.scope.ports else pol.allowlist }

  predicate Candidate(pol: Policy, requested: int, p: int) { p != requested && p > 0 && PortAllowed(pol, p) }

  ghost predicate Distinct(s: seq<int>) { forall i, j :: 0 <= i < j < |s| ==> s[i] != s[j] }

  lemma {:induction false} CountOne(s: seq<int>, x: int)
    requires Distinct(s)
    ensures multiset(s)[x] <= 1
  {
    if s != [] {
      var n := |s| - 1;
      assert s == s[..n] + [s[n]];
      if s[n] == x {
        assert x !in s[..n];
      } else {
        CountOne(s[..n], x);
      }
    }
  }

  /** Sorting keeps elements distinct. */
  lemma SortedDistinct(s: seq<int>, t: seq<int>)
    requires Distinct(s) && multiset(t) == multiset(s)
    ensures Distinct(t)
  {
    forall i, j | 0 <= i < j < |t|
      ensures t[i] != t[j]
    {
      CountOne(s, t[i]);
      assert t == t[..j] + [t[j]] + t[j + 1..];
      assert t[i] in t[..j];
      assert t[i] in multiset(t[..j]);
    }
  }

  /** The other allowed ports of the list, each where it first occurs. */
  function Kept(pol: Policy, requested: int, list: seq<int>): seq<int> {
    if list == [] then []
    else
      var p := list[|list| - 1];
      var before := Kept(pol, requested, list[..|list| - 1]);
      if Candidate(pol, requested, p) && p !in before then before + [p] else before
  }

  function CandidatesOf(requested: int, pol: Policy): seq<int> {
    if requested == 0 then []
    else if !Constrained(pol) then [0]
    else SortInts(Kept(pol, requested, Universe(pol)))
  }

  lemma {:induction false} KeptExact(pol: Policy, requested: int, list: seq<int>)
    ensures forall p :: p in Kept(pol, requested, list) <==> p in list && Candidate(pol, requested, p)
    ensures Distinct(Kept(pol, requested, list))
  {
    if list != [] {
      var n := |list| - 1;
      KeptExact(pol, requested, list[..n]);
      assert list == list[..n] + [list[n]];
    }
  }

  lemma {:induction false} SameMembers(a: seq<int>, b: seq<int>)
    requires multiset(a) == multiset(b)
    ensures forall p :: p in a <==> p in b
  {
    forall p
      ensures p in a <==> p in b
    {
      assert p in a <==> p in multiset(a);
      assert p in b <==> p in multiset(b);
    }
  }

  lemma {:induction false} SortedStrictly(s: seq<int>)
    requires Ascending(s) && Distinct(s)
    ensures forall i, j :: 0 <= i < j < |s| ==> s[i] < s[j]
  {
  }

  lemma UniverseHas(requested: int, pol: Policy, p: int)
    requires Constrained(pol)
    ensures p in Universe(pol) && Candidate(pol, requested, p) <==>
      && p != requested && p > 0 && (pol.scope.ports == [] || p in pol.scope.ports)
      && (pol.allowlist == [] || p in pol.allowlist)
  {
  }

  /** Where a tunnel may be moved: an ephemeral request nowhere; without any constraint wherever the
      operating system chooses; otherwise exactly to the other allowed ports, tried once each in
      ascending order. */
  lemma {:induction false} CandidatesExact(requested: int, pol: Policy)
    ensures var out := CandidatesOf(requested, pol);
      && (requested == 0 ==> out == [])
      && (requested != 0 && !Constrained(pol) ==> out == [0])
      && (requested != 0 && Constrained(pol) ==>
            && (forall p :: p in out <==>
                  && p != requested && p > 0 && (pol.scope.ports == [] || p in pol.scope.ports)
                  && (pol.allowlist == [] || p in pol.allowlist))
            && (forall i, j :: 0 <= i < j < |out| ==> out[i] < out[j]))
  {
    if requested != 0 && Constrained(pol) {
      var found := Kept(pol, requested, Universe(pol));
      KeptExact(pol, requested, Universe(pol));
      SortIntsSorts(found);
      SortedDistinct(found, SortInts(found));
      SortedStrictly(SortInts(found));
      SameMembers(SortInts(found), found);
      forall p
        ensures p in found <==>
          && p != requested && p > 0 && (pol.scope.ports == [] || p in pol.scope.ports)
          && (pol.allowlist == [] || p in pol.allowlist)
      {
        UniverseHas(requested, pol, p);
      }
    }
  }

  method ReassignCandidates(requested: int, pol: Policy) returns (out: seq<int>)
    ensures out == CandidatesOf(requested, pol)
  {
    if requested == 0 {
      return [];
    }
    if |pol.scope.ports| == 0 && |pol.allowlist| == 0 {
      return [0];
    }
    var universe := if |pol.scope.ports| > 0 then pol.scope.ports else pol.allowlist;
    var found: seq<int> := [];
    for i := 0 to |universe|
      invariant found == Kept(pol, requested, universe[..i])
    {
      var p := universe[i];
      assert universe[..i + 1][..i] == universe[..i];
      if p == requested || p <= 0 {
        continue;
      }
      if p in found {
        continue;
      }
      var inScope := FindIn(pol.scope.ports, p);
      var inList := FindIn(pol.allowlist, p);
      if !inScope || !inList {
        continue;
      }
      found := found + [p];
    }
    assert universe[..|universe|] == universe;
    out := SortInts(found);
  }
}
