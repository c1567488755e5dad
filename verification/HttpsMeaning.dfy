/** What Envoy makes of the filter chains of an HTTPS port: a connection goes to the
    listener that owns its server name, whose certificates it gets and whose routes
    alone answer its requests. */
module HttpsMeaning {
  import opened Text
  import opened Hostnames
  import opened GatewayModel
  import opened Attachment
  import opened Entries
  import opened Owners
  import opened RouteConfig
  import opened HttpMeaning
  import opened Translate
  import E = Envoy

  ghost predicate HttpsListeners(m: Model, indexes: seq<nat>) {
    DistinctHosts(m, indexes) && forall i :: i in indexes ==> i < |m.listeners| && Pattern(OwnHost(m, i))
  }

  lemma ChainDomainIsHost(m: Model, port: nat, indexes: seq<nat>, chains: seq<E.FilterChain>)
    requires AreHttpsChains(m, port, indexes, chains)
    ensures seq(|chains|, k requires 0 <= k < |chains| => E.ChainDomain(chains[k])) == seq(|indexes|, k requires 0 <= k < |indexes| => OwnHost(m, indexes[k]))
  {
  }

  /** A connection is accepted just when some listener's hostname covers its server name,
      and then by the chain of the listener that owns it. */
  lemma HttpsChainTaken(m: Model, port: nat, indexes: seq<nat>, chains: seq<E.FilterChain>, name: string)
    requires AreHttpsChains(m, port, indexes, chains) && HttpsListeners(m, indexes)
    ensures var k := E.Accept(chains, name);
            (k.None? <==> forall i :: i in indexes ==> !HostCovers(OwnHost(m, i), name)) &&
            (k.Some? ==> Owns(m, indexes, name, indexes[k.value]) && chains[k.value] == HttpsChain(port, m.listeners[indexes[k.value]]))
  {
    ChainDomainIsHost(m, port, indexes, chains);
    var hosts := seq(|indexes|, k requires 0 <= k < |indexes| => OwnHost(m, indexes[k]));
    var k := E.PickDomain(hosts, name);
    assert E.Accept(chains, name) == k;
    forall i | i in indexes && HostCovers(OwnHost(m, i), name)
      ensures k.Some? && HostCovers(OwnHost(m, i), OwnHost(m, indexes[k.value]))
    {
      var l :| 0 <= l < |indexes| && indexes[l] == i;
      assert hosts[l] == OwnHost(m, i);
      RankIsCovering(hosts[l], name);
      assert k.Some?;
      var j := indexes[k.value];
      assert j in indexes;
      RankIsCovering(hosts[k.value], name);
      CoversComparable(OwnHost(m, i), OwnHost(m, j), name);
      if !HostCovers(OwnHost(m, i), OwnHost(m, j)) { RankFollowsCovering(OwnHost(m, i), OwnHost(m, j), name); }
    }
    if k.Some? {
      assert indexes[k.value] in indexes;
      RankIsCovering(hosts[k.value], name);
    }
  }

  /** A configuration of one listener falls back to no other: a host the listener's own
      hostname covers is served under it or not at all. */
  lemma AloneNeverFallsBack(m: Model, i: nat, req: E.Request, re: E.Matches)
    requires WellAttached(m) && Hostful(m, [i])
    ensures ServedUnder(m, [i], i, req.host) || FallbackSilent(m, [i], req, re)
    ensures !HostCovers(OwnHost(m, i), req.host) ==> forall e :: IsEntry(m, [i], e) ==> !HostCovers(e.host, req.host)
  {
    forall e | IsEntry(m, [i], e) ensures HostCovers(OwnHost(m, i), e.host) {
      EntryWithin(m, [i], e);
    }
    forall e | IsEntry(m, [i], e) && HostCovers(e.host, req.host) ensures HostCovers(OwnHost(m, i), req.host) {
      CoversTransitive(OwnHost(m, i), e.host, req.host);
    }
  }
}
