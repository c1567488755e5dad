/** What Envoy makes of the filter chains of a TLS port: a connection goes to the
    oldest route on the most specific server name its owner serves. */
module TlsMeaning {
  import opened Text
  import opened Sorting
  import opened Hostnames
  import opened GatewayModel
  import opened Attachment
  import opened Entries
  import opened Owners
  import opened RouteConfig
  import opened HttpMeaning
  import opened Precedence
  import opened Layer4
  import E = Envoy

  /** The most specific owned host that covers a server name. */
  ghost predicate MostSpecificOwned(m: Model, ls: seq<nat>, name: string, d: string) {
    OwnedHost(m, ls, d) && HostCovers(d, name) &&
    forall c :: OwnedHost(m, ls, c) && HostCovers(c, name) ==> HostCovers(c, d)
  }

  /** A host routes serve on listener i that covers the server name. */
  ghost predicate Reaches(m: Model, i: nat, name: string, host: string) {
    HostCovers(host, name) && exists r :: OnHost(m, i, host, r)
  }

  /** The most specific hostname listener i's routes serve for a server name. */
  ghost predicate MostSpecificOf(m: Model, i: nat, name: string, d: string) {
    Reaches(m, i, name, d) && forall h :: Reaches(m, i, name, h) ==> HostCovers(h, d)
  }

  function ChainDomains(chains: seq<E.FilterChain>): seq<string> {
    seq(|chains|, k requires 0 <= k < |chains| => E.ChainDomain(chains[k]))
  }

  lemma DomainsAreNames(m: Model, ls: seq<nat>, chains: seq<E.FilterChain>)
    requires AreTlsChains(m, ls, chains)
    ensures ChainDomains(chains) == ChainNames(chains)
  {
    forall k | 0 <= k < |chains| ensures E.ChainDomain(chains[k]) == chains[k].name {
      assert chains[k] in chains && IsTlsChain(m, ls, chains[k]);
    }
  }

  lemma OwnedHostIsPattern(m: Model, ls: seq<nat>, h: string)
    requires WellAttached(m) && Hostful(m, ls) && OwnedHost(m, ls, h)
    ensures Pattern(h)
  {
    var i, r :| Owns(m, ls, h, i) && OnHost(m, i, h, r);
    CandidateHostOwned(m, ls, i, h, r);
  }

  /** The chain taken is the one for the most specific owned host, and a
      connection no owned host covers is closed. */
  lemma ChainTaken(m: Model, ls: seq<nat>, chains: seq<E.FilterChain>, name: string)
    requires WellAttached(m) && Hostful(m, ls) && AreTlsChains(m, ls, chains)
    ensures var k := E.Accept(chains, name);
            (k.None? <==> forall h :: OwnedHost(m, ls, h) ==> !HostCovers(h, name)) &&
            (k.Some? ==> MostSpecificOwned(m, ls, name, chains[k.value].name) && IsTlsChain(m, ls, chains[k.value]))
  {
    DomainsAreNames(m, ls, chains);
    var names := ChainNames(chains);
    var k := E.PickDomain(names, name);
    assert seq(|chains|, k requires 0 <= k < |chains| => E.ChainDomain(chains[k])) == ChainDomains(chains);
    assert E.Accept(chains, name) == k;
    forall h | OwnedHost(m, ls, h) && HostCovers(h, name) ensures k.Some? && HostCovers(h, names[k.value]) {
      assert h in names;
      OwnedHostIsPattern(m, ls, h);
      RankIsCovering(h, name);
      assert k.Some?;
      var d := names[k.value];
      assert d in names;
      OwnedHostIsPattern(m, ls, d);
      RankIsCovering(d, name);
      CoversComparable(h, d, name);
      if !HostCovers(h, d) { RankFollowsCovering(h, d, name); }
    }
    if k.Some? {
      var d := names[k.value];
      assert d in names && chains[k.value] in chains;
      OwnedHostIsPattern(m, ls, d);
      RankIsCovering(d, name);
    }
  }

  /** Where the owner of a server name serves it at all, its most specific
      hostname is owned by it, and nothing owned is more specific. */
  lemma OwnersHostIsOwned(m: Model, ls: seq<nat>, name: string, i: nat, d: string)
    requires WellAttached(m) && Hostful(m, ls) && DistinctHosts(m, ls)
    requires Owns(m, ls, name, i) && MostSpecificOf(m, i, name, d)
    ensures Owns(m, ls, d, i) && MostSpecificOwned(m, ls, name, d)
  {
    var r :| OnHost(m, i, d, r);
    CandidateHostOwned(m, ls, i, d, r);
    OwnerOfNarrower(m, ls, name, d, i);
    forall c | OwnedHost(m, ls, c) && HostCovers(c, name) ensures HostCovers(c, d) {
      CoversComparable(c, d, name);
      if HostCovers(d, c) {
        var j, s :| Owns(m, ls, c, j) && OnHost(m, j, c, s);
        CoversTransitive(OwnHost(m, i), d, c);
        OwnerOfNarrower(m, ls, name, c, i);
        OwnerUnique(m, ls, c, i, j);
        assert Reaches(m, i, name, c);
      }
    }
  }

  /** The chain of the oldest route on the most specific hostname listener i
      serves for the server name. */
  ghost predicate ServedBy(m: Model, i: nat, name: string, chain: E.FilterChain) {
    i < |m.listeners| &&
    exists d, r :: MostSpecificOf(m, i, name, d) && OldestOn(m, i, d, r) &&
      chain == TlsChainOf(m.listeners[i], d, BackendsOf(r))
  }

  /** Listener isolation on a TLS port, and exactly when it holds: the connection
      goes to the oldest route on the most specific hostname the owner of its
      server name serves, if and only if the owner serves it at all. */
  lemma TlsIsolationExact(m: Model, ls: seq<nat>, chains: seq<E.FilterChain>, name: string, i: nat)
    requires WellAttached(m) && Hostful(m, ls) && DistinctHosts(m, ls) && AreTlsChains(m, ls, chains)
    requires Owns(m, ls, name, i)
    ensures (exists h :: Reaches(m, i, name, h)) <==>
            E.Accept(chains, name).Some? && ServedBy(m, i, name, chains[E.Accept(chains, name).value])
  {
    ChainTaken(m, ls, chains, name);
    var k := E.Accept(chains, name);
    if h :| Reaches(m, i, name, h) {
      var d := MostSpecificExists(m, ls, i, name, h);
      OwnersHostIsOwned(m, ls, name, i, d);
      assert k.Some?;
      var chain := chains[k.value];
      CoversAntisymmetric(d, chain.name);
      var j: nat, r :| j < |m.listeners| && Owns(m, ls, chain.name, j) && OldestOn(m, j, chain.name, r) &&
        chain == TlsChainOf(m.listeners[j], chain.name, BackendsOf(r));
      OwnerUnique(m, ls, d, i, j);
      assert MostSpecificOf(m, i, name, d) && OldestOn(m, i, d, r);
    }
  }

  /** The connection is taken by the chain of another listener than i. */
  ghost predicate TakenElsewhere(m: Model, ls: seq<nat>, chains: seq<E.FilterChain>, name: string, i: nat) {
    var k := E.Accept(chains, name);
    k.Some? && exists j :: j != i && Owns(m, ls, chains[k.value].name, j)
  }

  /** No other listener's route takes a connection, and exactly when that holds: the owner
      of its server name serves the name, or no hostname served by its owner covers it. */
  lemma TlsTakenElsewhere(m: Model, ls: seq<nat>, chains: seq<E.FilterChain>, name: string, i: nat)
    requires WellAttached(m) && Hostful(m, ls) && DistinctHosts(m, ls) && AreTlsChains(m, ls, chains)
    requires Owns(m, ls, name, i)
    ensures !TakenElsewhere(m, ls, chains, name, i) <==>
            (exists h :: Reaches(m, i, name, h)) || forall h :: OwnedHost(m, ls, h) ==> !HostCovers(h, name)
  {
    ChainTaken(m, ls, chains, name);
    var k := E.Accept(chains, name);
    if k.Some? {
      ChainOwner(m, ls, chains[k.value], name, i);
    }
  }

  /** The chain taken is another listener's just when the owner does not serve the name. */
  lemma ChainOwner(m: Model, ls: seq<nat>, chain: E.FilterChain, name: string, i: nat)
    requires WellAttached(m) && Hostful(m, ls) && DistinctHosts(m, ls) && Owns(m, ls, name, i)
    requires IsTlsChain(m, ls, chain) && MostSpecificOwned(m, ls, name, chain.name)
    ensures (exists j :: j != i && Owns(m, ls, chain.name, j)) <==> forall h :: !Reaches(m, i, name, h)
  {
    var d := chain.name;
    var j: nat, r :| j < |m.listeners| && Owns(m, ls, d, j) && OldestOn(m, j, d, r) && chain == TlsChainOf(m.listeners[j], d, BackendsOf(r));
    forall l | Owns(m, ls, d, l) ensures l == j {
      OwnerUnique(m, ls, d, j, l);
    }
    if h :| Reaches(m, i, name, h) {
      var e := MostSpecificExists(m, ls, i, name, h);
      OwnersHostIsOwned(m, ls, name, i, e);
      CoversAntisymmetric(d, e);
    } else {
      assert Reaches(m, j, name, d);
    }
  }

  /** Of the hostnames that reach a server name one is the most specific. */
  lemma {:induction false} MostSpecificExists(m: Model, ls: seq<nat>, i: nat, name: string, h: string) returns (d: string)
    requires WellAttached(m) && Hostful(m, ls) && i in ls && Reaches(m, i, name, h)
    ensures MostSpecificOf(m, i, name, d)
    decreases |name| + 1 - E.DomainRank(h, name)
  {
    if c :| Reaches(m, i, name, c) && !HostCovers(c, h) {
      var r :| OnHost(m, i, h, r);
      var s :| OnHost(m, i, c, s);
      CandidateHostOwned(m, ls, i, h, r);
      CandidateHostOwned(m, ls, i, c, s);
      CoversComparable(c, h, name);
      RankFollowsCovering(c, h, name);
      RankBounded(c, name);
      d := MostSpecificExists(m, ls, i, name, c);
    } else {
      d := h;
    }
  }

  lemma RankBounded(c: string, name: string)
    ensures E.DomainRank(c, name) <= |name| + 1
  {
  }

  /** The chains of a TLS port do not depend on the order of the routes. */
  lemma SameTlsChains(m: Model, n: Model, ls: seq<nat>, cs: seq<E.FilterChain>, ds: seq<E.FilterChain>)
    requires DistinctHosts(m, ls) && (forall i :: i in ls ==> TwinFree(m, i)) && SameRoutes(m, n)
    requires AreTlsChains(m, ls, cs) && AreTlsChains(n, ls, ds)
    ensures cs == ds
  {
    forall h, i ensures Owns(m, ls, h, i) <==> Owns(n, ls, h, i) {
    }
    forall i, h, r ensures OnHost(m, i, h, r) <==> OnHost(n, i, h, r) {
    }
    forall h ensures OwnedHost(m, ls, h) <==> OwnedHost(n, ls, h) {
    }
    StringLeqIsTotalOrder();
    OrderedUnique(ChainNames(cs), ChainNames(ds), StringLeq);
    forall k | 0 <= k < |cs| ensures cs[k] == ds[k] {
      assert ChainNames(cs)[k] == ChainNames(ds)[k];
      SameTlsChain(m, n, ls, cs[k], ds[k]);
    }
  }

  lemma SameTlsChain(m: Model, n: Model, ls: seq<nat>, c: E.FilterChain, d: E.FilterChain)
    requires DistinctHosts(m, ls) && (forall i :: i in ls ==> TwinFree(m, i)) && SameRoutes(m, n)
    requires IsTlsChain(m, ls, c) && IsTlsChain(n, ls, d) && c.name == d.name
    ensures c == d
  {
    var i: nat, r :| i < |m.listeners| && Owns(m, ls, c.name, i) && OldestOn(m, i, c.name, r) &&
      c == TlsChainOf(m.listeners[i], c.name, BackendsOf(r));
    var j: nat, s :| j < |n.listeners| && Owns(n, ls, d.name, j) && OldestOn(n, j, d.name, s) &&
      d == TlsChainOf(n.listeners[j], d.name, BackendsOf(s));
    SameOwner(m, n, ls, c.name, j);
    OwnerUnique(m, ls, c.name, i, j);
    SameOldestOn(m, n, i, c.name, s);
    OldestUnique(m, i, c.name, r, s);
  }

  lemma SameOldestOn(m: Model, n: Model, i: nat, host: string, s: AttachedRoute)
    requires SameRoutes(m, n) && OldestOn(n, i, host, s)
    ensures OldestOn(m, i, host, s)
  {
    assert forall r :: OnHost(m, i, host, r) <==> OnHost(n, i, host, r);
  }

  lemma OldestUnique(m: Model, i: nat, host: string, r: AttachedRoute, s: AttachedRoute)
    requires TwinFree(m, i) && OldestOn(m, i, host, r) && OldestOn(m, i, host, s)
    ensures r == s
  {
    AgeChain(r, s, r);
  }
}
