/** Tunnel sets as the agent and the gateway exchange them (internal/agent/hotapply.go:96-160,
    internal/agent/agent.go:744-791, internal/control/control.go:242-261, 395-412). */
module TunnelConfig {
  import opened Prelude

  datatype TunnelSpec = TunnelSpec(
    id: string, name: string, kind: string, publicPort: int, offlineMotd: string,
    minecraftAware: bool, limitMbps: int, limitScope: string)

  /** A configured tunnel: the wire fields, what never leaves the agent, and whether it is enabled. */
  datatype Tunnel = Tunnel(spec: TunnelSpec, localAddr: string, proxyProtocolV2: bool, enabled: bool)

  // ------------------------------------------------------------------------------------------
  // The enabled set.

  function EnabledSpecsOf(tunnels: seq<Tunnel>): seq<TunnelSpec> {
    if tunnels == [] then []
    else
      var last := tunnels[|tunnels| - 1];
      EnabledSpecsOf(tunnels[..|tunnels| - 1]) + if last.enabled then [last.spec] else []
  }

  method EnabledSpecs(tunnels: seq<Tunnel>) returns (specs: seq<TunnelSpec>)
    ensures specs == EnabledSpecsOf(tunnels)
  {
    specs := [];
    for i := 0 to |tunnels|
      invariant specs == EnabledSpecsOf(tunnels[..i])
    {
      assert tunnels[..i + 1][..i] == tunnels[..i];
      if tunnels[i].enabled {
        specs := specs + [tunnels[i].spec];
      }
    }
    assert tunnels[..|tunnels|] == tunnels;
  }

  lemma {:induction false} EnabledConcat(a: seq<Tunnel>, b: seq<Tunnel>)
    ensures EnabledSpecsOf(a + b) == EnabledSpecsOf(a) + EnabledSpecsOf(b)
  {
    if b == [] {
      assert a + b == a;
    } else {
      var n := |b| - 1;
      assert (a + b)[..|a + b| - 1] == a + b[..n];
      EnabledConcat(a, b[..n]);
    }
  }

  // ------------------------------------------------------------------------------------------
  // Merging a pushed set into the local one.

  /** The last tunnel with the id, which is the one a map filled in order keeps. */
  function LastWith(tunnels: seq<Tunnel>, id: string): Option<Tunnel> {
    if tunnels == [] then None
    else
      var last := tunnels[|tunnels| - 1];
      if last.spec.id == id then Some(last) else LastWith(tunnels[..|tunnels| - 1], id)
  }

  /** A pushed spec over what the agent holds under its id; a new id starts from blank fields. */
  function Upserted(existing: seq<Tunnel>, spec: TunnelSpec): Tunnel {
    match LastWith(existing, spec.id)
    case Some(t) => t.(spec := spec, enabled := true)
    case None => Tunnel(spec, "", false, true)
  }

  function Upserts(existing: seq<Tunnel>, specs: seq<TunnelSpec>): (out: seq<Tunnel>)
    ensures |out| == |specs|
  {
    if specs == [] then []
    else Upserts(existing, specs[..|specs| - 1]) + [Upserted(existing, specs[|specs| - 1])]
  }

  function Ids(specs: seq<TunnelSpec>): set<string> { set s | s in specs :: s.id }

  predicate IsDraft(t: Tunnel, pushed: set<string>) { !t.enabled && t.spec.id !in pushed }

  /** The disabled local tunnels the push does not name, in order. */
  function Drafts(existing: seq<Tunnel>, pushed: set<string>): seq<Tunnel> {
    if existing == [] then []
    else
      var last := existing[|existing| - 1];
      Drafts(existing[..|existing| - 1], pushed) + if IsDraft(last, pushed) then [last] else []
  }

  function Merged(existing: seq<Tunnel>, specs: seq<TunnelSpec>): seq<Tunnel> {
    Upserts(existing, specs) + Drafts(existing, Ids(specs))
  }

  /** mergeTunnels: a map by id, then the pushed specs, then the drafts. */
  method MergeTunnels(existing: seq<Tunnel>, specs: seq<TunnelSpec>) returns (out: seq<Tunnel>)
    ensures out == Merged(existing, specs)
  {
    var byId: map<string, Tunnel> := map[];
    for i := 0 to |existing|
      invariant forall id :: id in byId <==> LastWith(existing[..i], id).Some?
      invariant forall id :: id in byId ==> byId[id] == LastWith(existing[..i], id).value
    {
      assert existing[..i + 1][..i] == existing[..i];
      byId := byId[existing[i].spec.id := existing[i]];
    }
    assert existing[..|existing|] == existing;
    var pushed: set<string> := {};
    out := [];
    for i := 0 to |specs|
      invariant pushed == Ids(specs[..i])
      invariant out == Upserts(existing, specs[..i])
    {
      var spec := specs[i];
      assert specs[..i + 1][..i] == specs[..i];
      assert Ids(specs[..i + 1]) == Ids(specs[..i]) + {spec.id} by {
        assert specs[..i + 1] == specs[..i] + [spec];
      }
      pushed := pushed + {spec.id};
      var t := if spec.id in byId then byId[spec.id] else Tunnel(spec, "", false, false);
      out := out + [t.(spec := spec, enabled := true)];
    }
    assert specs[..|specs|] == specs;
    ghost var kept := out;
    for i := 0 to |existing|
      invariant out == kept + Drafts(existing[..i], pushed)
    {
      assert existing[..i + 1][..i] == existing[..i];
      if !existing[i].enabled && existing[i].spec.id !in pushed {
        out := out + [existing[i]];
      }
    }
  }

  lemma {:induction false} UpsertsEnabled(existing: seq<Tunnel>, specs: seq<TunnelSpec>)
    ensures EnabledSpecsOf(Upserts(existing, specs)) == specs
  {
    if specs != [] {
      var n := |specs| - 1;
      UpsertsEnabled(existing, specs[..n]);
      var u := Upserts(existing, specs);
      assert u[..n] == Upserts(existing, specs[..n]);
      assert u[n] == Upserted(existing, specs[n]);
      assert specs[..n] + [specs[n]] == specs;
    }
  }

  lemma {:induction false} DraftsDisabled(existing: seq<Tunnel>, pushed: set<string>)
    ensures EnabledSpecsOf(Drafts(existing, pushed)) == []
  {
    if existing != [] {
      var n := |existing| - 1;
      DraftsDisabled(existing[..n], pushed);
      var d := Drafts(existing[..n], pushed);
      if IsDraft(existing[n], pushed) {
        assert (d + [existing[n]])[..|d|] == d;
      } else {
        assert d + [] == d;
      }
    }
  }

  /** The round trip behind the config hash: for every local set and every pushed list, duplicates
      included, the enabled specs after the merge are exactly the pushed list, in its order. */
  lemma MergeRoundTrip(existing: seq<Tunnel>, specs: seq<TunnelSpec>)
    ensures EnabledSpecsOf(Merged(existing, specs)) == specs
  {
    EnabledConcat(Upserts(existing, specs), Drafts(existing, Ids(specs)));
    UpsertsEnabled(existing, specs);
    DraftsDisabled(existing, Ids(specs));
  }

  lemma {:induction false} UpsertsAt(existing: seq<Tunnel>, specs: seq<TunnelSpec>, k: nat)
    requires k < |specs|
    ensures Upserts(existing, specs)[k] == Upserted(existing, specs[k])
  {
    var n := |specs| - 1;
    if k < n {
      UpsertsAt(existing, specs[..n], k);
    }
  }

  lemma {:induction false} LastWithFinds(tunnels: seq<Tunnel>, id: string)
    ensures LastWith(tunnels, id).Some? <==> exists t :: t in tunnels && t.spec.id == id
    ensures LastWith(tunnels, id).Some? ==>
      LastWith(tunnels, id).value in tunnels && LastWith(tunnels, id).value.spec.id == id
  {
    if tunnels != [] {
      LastWithFinds(tunnels[..|tunnels| - 1], id);
      assert tunnels == tunnels[..|tunnels| - 1] + [tunnels[|tunnels| - 1]];
    }
  }

  lemma {:induction false} LastWithIsLast(tunnels: seq<Tunnel>, j: nat)
    requires j < |tunnels| && forall i :: j < i < |tunnels| ==> tunnels[i].spec.id != tunnels[j].spec.id
    ensures LastWith(tunnels, tunnels[j].spec.id) == Some(tunnels[j])
  {
    if j < |tunnels| - 1 {
      LastWithIsLast(tunnels[..|tunnels| - 1], j);
    }
  }

  lemma {:induction false} DraftsCount(existing: seq<Tunnel>, pushed: set<string>, t: Tunnel)
    ensures multiset(Drafts(existing, pushed))[t] == if IsDraft(t, pushed) then multiset(existing)[t] else 0
  {
    if existing != [] {
      var n := |existing| - 1;
      DraftsCount(existing[..n], pushed, t);
      assert existing == existing[..n] + [existing[n]];
    }
  }

  /** What a push leaves of the agent's own data: an id it holds keeps the local address
      and proxy-protocol flag of its last tunnel, an id it does not hold gets blank ones; every
      disabled tunnel the push does not name survives, as often as before; nothing else does. */
  lemma MergeKeepsLocal(existing: seq<Tunnel>, specs: seq<TunnelSpec>, k: nat, j: nat)
    requires k < |specs| && j < |existing| && existing[j].spec.id == specs[k].id
    requires forall i :: j < i < |existing| ==> existing[i].spec.id != specs[k].id
    ensures Merged(existing, specs)[k] == Tunnel(specs[k], existing[j].localAddr, existing[j].proxyProtocolV2, true)
  {
    UpsertsAt(existing, specs, k);
    LastWithIsLast(existing, j);
  }

  lemma MergeBlanksNew(existing: seq<Tunnel>, specs: seq<TunnelSpec>, k: nat)
    requires k < |specs| && forall u :: u in existing ==> u.spec.id != specs[k].id
    ensures Merged(existing, specs)[k] == Tunnel(specs[k], "", false, true)
  {
    UpsertsAt(existing, specs, k);
    LastWithFinds(existing, specs[k].id);
  }

  lemma MergeKeepsDrafts(existing: seq<Tunnel>, specs: seq<TunnelSpec>, t: Tunnel)
    requires !t.enabled
    ensures multiset(Merged(existing, specs))[t] == if t.spec.id in Ids(specs) then 0 else multiset(existing)[t]
  {
    DraftsCount(existing, Ids(specs), t);
    var u := Upserts(existing, specs);
    forall k | 0 <= k < |u|
      ensures u[k] != t
    {
      UpsertsAt(existing, specs, k);
    }
    assert multiset(u)[t] == 0;
  }

  /** Whether a tunnel survives as a draft depends on it and the push alone, and drafts keep their order. */
  lemma {:induction false} MergedInOrder(a: seq<Tunnel>, b: seq<Tunnel>, specs: seq<TunnelSpec>)
    ensures |Merged(a, specs)| >= |specs| && |Merged(b, specs)| >= |specs| && |Merged(a + b, specs)| >= |specs|
    ensures Merged(a + b, specs)[|specs|..] == Merged(a, specs)[|specs|..] + Merged(b, specs)[|specs|..]
  {
    DraftsConcat(a, b, Ids(specs));
  }

  lemma MergedOne(t: Tunnel, specs: seq<TunnelSpec>)
    ensures |Merged([t], specs)| >= |specs|
    ensures Merged([t], specs)[|specs|..] == if !t.enabled && forall x :: x in specs ==> x.id != t.spec.id then [t] else []
  {
    assert [t][..0] == [];
    assert Drafts([t], Ids(specs)) == if IsDraft(t, Ids(specs)) then [t] else [];
  }

  lemma {:induction false} DraftsConcat(a: seq<Tunnel>, b: seq<Tunnel>, pushed: set<string>)
    ensures Drafts(a + b, pushed) == Drafts(a, pushed) + Drafts(b, pushed)
  {
    if b == [] {
      assert a + b == a;
    } else {
      DraftsConcat(a, b[..|b| - 1], pushed);
      assert (a + b)[..|a + b| - 1] == a + b[..|b| - 1];
    }
  }

  // ------------------------------------------------------------------------------------------
  // The agent's side of a push, with its port table.

  /** The last pushed nonzero port for the id. */
  function PushedPort(specs: seq<TunnelSpec>, id: string): Option<int> {
    if specs == [] then None
    else
      var last := specs[|specs| - 1];
      if last.id == id && last.publicPort != 0 then Some(last.publicPort)
      else PushedPort(specs[..|specs| - 1], id)
  }

  /** An enabled tunnel the push leaves out. */
  predicate Dropped(before: seq<Tunnel>, specs: seq<TunnelSpec>, id: string) {
    id !in Ids(specs) && exists t :: t in before && t.enabled && t.spec.id == id
  }

  class AgentConfig {
    var tunnels: seq<Tunnel>
    var generation: nat
    var publicPorts: map<string, int>

    constructor (tunnels: seq<Tunnel>, generation: nat)
      ensures this.tunnels == tunnels && this.generation == generation && publicPorts == map[]
    {
      this.tunnels, this.generation, this.publicPorts := tunnels, generation, map[];
    }

    /** The pushed ports enter the table. */
    method StorePorts(specs: seq<TunnelSpec>) returns (pushed: set<string>)
      modifies this`publicPorts
      ensures pushed == Ids(specs)
      ensures forall id :: id in publicPorts <==> PushedPort(specs, id).Some? || id in old(publicPorts)
      ensures forall id :: id in publicPorts ==>
        publicPorts[id] == if PushedPort(specs, id).Some? then PushedPort(specs, id).value else old(publicPorts)[id]
    {
      pushed := {};
      for i := 0 to |specs|
        invariant pushed == Ids(specs[..i])
        invariant forall id :: id in publicPorts <==> PushedPort(specs[..i], id).Some? || id in old(publicPorts)
        invariant forall id :: id in publicPorts ==>
          publicPorts[id] == if PushedPort(specs[..i], id).Some? then PushedPort(specs[..i], id).value else old(publicPorts)[id]
      {
        assert specs[..i + 1][..i] == specs[..i];
        assert specs[..i + 1] == specs[..i] + [specs[i]];
        pushed := pushed + {specs[i].id};
        if specs[i].publicPort != 0 {
          publicPorts := publicPorts[specs[i].id := specs[i].publicPort];
        }
      }
      assert specs[..|specs|] == specs;
    }

    /** Entries of enabled tunnels that were not pushed leave the table. */
    method ForgetDropped(before: seq<Tunnel>, ghost specs: seq<TunnelSpec>, pushed: set<string>)
      requires pushed == Ids(specs)
      modifies this`publicPorts
      ensures forall id :: id in publicPorts <==> id in old(publicPorts) && !Dropped(before, specs, id)
      ensures forall id :: id in publicPorts ==> publicPorts[id] == old(publicPorts)[id]
    {
      for i := 0 to |before|
        invariant forall id :: id in publicPorts <==> id in old(publicPorts) && !Dropped(before[..i], specs, id)
        invariant forall id :: id in publicPorts ==> publicPorts[id] == old(publicPorts)[id]
      {
        assert before[..i + 1] == before[..i] + [before[i]];
        if before[i].enabled && before[i].spec.id !in pushed {
          publicPorts := publicPorts - {before[i].spec.id};
        }
      }
      assert before[..|before|] == before;
    }

    /** applyPushedConfig. The port table afterwards: a pushed port for every tunnel pushed with one,
        nothing for an enabled tunnel the push dropped, and no other change. */
    method ApplyPushedConfig(specs: seq<TunnelSpec>, gen: nat)
      modifies this
      ensures tunnels == Merged(old(tunnels), specs) && generation == gen
      ensures forall id :: id in publicPorts <==>
        || PushedPort(specs, id).Some?
        || (id in old(publicPorts)
            && !((forall x :: x in specs ==> x.id != id)
                 && exists t :: t in old(tunnels) && t.enabled && t.spec.id == id))
      ensures forall id :: id in publicPorts ==>
        publicPorts[id] == if PushedPort(specs, id).Some? then PushedPort(specs, id).value else old(publicPorts)[id]
    {
      var before := tunnels;
      tunnels := MergeTunnels(before, specs);
      generation := gen;
      var pushed := StorePorts(specs);
      ForgetDropped(before, specs, pushed);
      forall id | PushedPort(specs, id).Some?
        ensures id in Ids(specs)
      {
        PushedPortNamed(specs, id);
      }
    }
  }

  lemma {:induction false} PushedPortNamed(specs: seq<TunnelSpec>, id: string)
    requires PushedPort(specs, id).Some?
    ensures id in Ids(specs)
  {
    var n := |specs| - 1;
    if specs[n].id != id || specs[n].publicPort == 0 {
      PushedPortNamed(specs[..n], id);
    }
  }

  /** The pushed port of an id is that of the last spec that names it with a port. */
  lemma {:induction false} PushedPortExactly(specs: seq<TunnelSpec>, id: string, p: int)
    ensures PushedPort(specs, id) == Some(p) <==>
      exists k :: 0 <= k < |specs| && NamesPort(specs, k, id) && specs[k].publicPort == p
                  && forall j :: k < j < |specs| ==> !NamesPort(specs, j, id)
    ensures PushedPort(specs, id).None? <==> forall k :: 0 <= k < |specs| ==> !NamesPort(specs, k, id)
  {
    if specs != [] {
      var n := |specs| - 1;
      PushedPortExactly(specs[..n], id, p);
      forall k | 0 <= k < n
        ensures NamesPort(specs, k, id) <==> NamesPort(specs[..n], k, id)
      {
      }
      if NamesPort(specs, n, id) {
        assert PushedPort(specs, id) == Some(specs[n].publicPort);
      }
    }
  }

  ghost predicate NamesPort(specs: seq<TunnelSpec>, k: nat, id: string)
    requires k < |specs|
  {
    specs[k].id == id && specs[k].publicPort != 0
  }

  // ------------------------------------------------------------------------------------------
  // The config hash.

  /** Byte order on ids, as the sort compares them. */
  predicate Less(a: string, b: string) {
    b != [] && (a == [] || a[0] < b[0] || (a[0] == b[0] && Less(a[1..], b[1..])))
  }

  lemma {:induction false} LessTotal(a: string, b: string)
    ensures Less(a, b) || a == b || Less(b, a)
  {
    if a != [] && b != [] && a[0] == b[0] {
      LessTotal(a[1..], b[1..]);
      assert a == [a[0]] + a[1..] && b == [b[0]] + b[1..];
    }
  }

  lemma {:induction false} LessAsymmetric(a: string, b: string)
    requires Less(a, b)
    ensures !Less(b, a) && a != b
  {
    if a != [] && a[0] == b[0] {
      LessAsymmetric(a[1..], b[1..]);
    }
  }

  lemma {:induction false} LessTransitive(a: string, b: string, c: string)
    requires Less(a, b) && Less(b, c)
    ensures Less(a, c)
  {
    if a != [] && a[0] == b[0] == c[0] {
      LessTransitive(a[1..], b[1..], c[1..]);
    }
  }

  predicate Sorted(s: seq<TunnelSpec>) {
    forall i, j :: 0 <= i < j < |s| ==> !Less(s[j].id, s[i].id)
  }

  ghost predicate DistinctIds(s: seq<TunnelSpec>) {
    forall i, j :: 0 <= i < j < |s| ==> s[i].id != s[j].id
  }

  function Insert(x: TunnelSpec, s: seq<TunnelSpec>): seq<TunnelSpec> {
    if s == [] || Less(x.id, s[0].id) then [x] + s else [s[0]] + Insert(x, s[1..])
  }

  /** The specs sorted by id. The digest is taken as injective, so two hashes are equal exactly when
      the sorted lists are, and this list stands for the hash. */
  function HashTunnels(specs: seq<TunnelSpec>): seq<TunnelSpec> {
    if specs == [] then [] else Insert(specs[|specs| - 1], HashTunnels(specs[..|specs| - 1]))
  }

  lemma {:induction false} InsertSorted(x: TunnelSpec, s: seq<TunnelSpec>)
    requires Sorted(s)
    ensures Sorted(Insert(x, s)) && multiset(Insert(x, s)) == multiset(s) + multiset{x}
    decreases |s|
  {
    if s == [] {
    } else if Less(x.id, s[0].id) {
      forall j | 0 <= j < |s|
        ensures !Less(s[j].id, x.id)
      {
        LessTotal(s[0].id, s[j].id);
        if j > 0 && Less(s[0].id, s[j].id) {
          LessTransitive(x.id, s[0].id, s[j].id);
        }
        LessAsymmetric(x.id, s[j].id);
      }
    } else {
      InsertSorted(x, s[1..]);
      assert s == [s[0]] + s[1..];
      var t := Insert(x, s[1..]);
      forall k | 0 <= k < |t|
        ensures !Less(t[k].id, s[0].id)
      {
        assert t[k] in multiset(t);
        if t[k] != x {
          assert t[k] in multiset(s[1..]);
          assert t[k] in s[1..];
        }
      }
    }
  }

  lemma {:induction false} HashSorts(specs: seq<TunnelSpec>)
    ensures Sorted(HashTunnels(specs)) && multiset(HashTunnels(specs)) == multiset(specs)
  {
    if specs != [] {
      var n := |specs| - 1;
      HashSorts(specs[..n]);
      InsertSorted(specs[n], HashTunnels(specs[..n]));
      assert specs == specs[..n] + [specs[n]];
    }
  }

  lemma DistinctFromMultiset(a: seq<TunnelSpec>, b: seq<TunnelSpec>)
    requires DistinctIds(a) && multiset(a) == multiset(b)
    ensures DistinctIds(b)
  {
    forall i, j | 0 <= i < j < |b|
      ensures b[i].id != b[j].id
    {
      assert b[i] in multiset(b) && b[j] in multiset(b);
      assert b[i] in a && b[j] in a;
      if b[i] == b[j] {
        OnceOnly(a, b[i]);
        TwiceCounts(b, i, j);
      }
    }
  }

  lemma {:induction false} TwiceCounts(b: seq<TunnelSpec>, i: nat, j: nat)
    requires i < j < |b| && b[i] == b[j]
    ensures multiset(b)[b[i]] >= 2
  {
    assert b == b[..j] + [b[j]] + b[j + 1..];
    assert b[..j][i] == b[i];
    assert b[i] in multiset(b[..j]);
  }

  lemma {:induction false} OnceOnly(a: seq<TunnelSpec>, x: TunnelSpec)
    requires DistinctIds(a)
    ensures multiset(a)[x] <= 1
  {
    if a != [] {
      var n := |a| - 1;
      assert a == a[..n] + [a[n]];
      if a[n] == x {
        assert x !in a[..n];
      } else {
        OnceOnly(a[..n], x);
      }
    }
  }

  lemma WithoutHead(s: seq<TunnelSpec>)
    requires s != []
    ensures s == [s[0]] + s[1..] && multiset(s[1..]) == multiset(s) - multiset{s[0]}
  {
    assert s == [s[0]] + s[1..];
  }

  lemma SameHead(a: seq<TunnelSpec>, b: seq<TunnelSpec>)
    requires a != [] && b != []
    requires Sorted(a) && Sorted(b) && DistinctIds(a) && DistinctIds(b) && multiset(a) == multiset(b)
    ensures a[0] == b[0]
  {
    assert a[0] in multiset(b) && a[0] in b;
    assert b[0] in multiset(a) && b[0] in a;
    LessTotal(a[0].id, b[0].id);
  }

  /** Sorted lists with distinct ids and the same specs are the same list: no sort, stable or not,
      can order them in two ways. */
  lemma {:induction false} SortedUnique(a: seq<TunnelSpec>, b: seq<TunnelSpec>)
    requires Sorted(a) && Sorted(b) && DistinctIds(a) && DistinctIds(b) && multiset(a) == multiset(b)
    ensures a == b
  {
    assert |multiset(a)| == |a| && |multiset(b)| == |b|;
    if a != [] {
      SameHead(a, b);
      WithoutHead(a);
      WithoutHead(b);
      SortedUnique(a[1..], b[1..]);
    }
  }

  /** The hash identifies a set: for lists without repeated ids it is equal exactly when one list is
      a permutation of the other, so a difference in any field of any spec shows. */
  lemma HashExact(a: seq<TunnelSpec>, b: seq<TunnelSpec>)
    requires DistinctIds(a) && DistinctIds(b)
    ensures HashTunnels(a) == HashTunnels(b) <==> multiset(a) == multiset(b)
  {
    HashSorts(a);
    HashSorts(b);
    DistinctFromMultiset(a, HashTunnels(a));
    DistinctFromMultiset(b, HashTunnels(b));
    if multiset(a) == multiset(b) {
      SortedUnique(HashTunnels(a), HashTunnels(b));
    }
  }

  /** Whichever order the library's sort leaves equal ids in, it agrees here: any sorted arrangement
      of a list without repeated ids is the hashed one. */
  lemma AnySortAgrees(specs: seq<TunnelSpec>, sorted: seq<TunnelSpec>)
    requires DistinctIds(specs) && Sorted(sorted) && multiset(sorted) == multiset(specs)
    ensures sorted == HashTunnels(specs)
  {
    HashSorts(specs);
    DistinctFromMultiset(specs, sorted);
    DistinctFromMultiset(specs, HashTunnels(specs));
    SortedUnique(sorted, HashTunnels(specs));
  }
}
