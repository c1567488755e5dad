/** Listeners without HTTP: of the routes a TCP or UDP listener carries, and of those
    on one server name of a TLS listener, the oldest gets every connection. */
module Layer4 {
  import opened Text
  import opened Sorting
  import opened Hostnames
  import opened GatewayModel
  import opened Attachment
  import opened Backends
  import opened RouteActions
  import opened Entries
  import opened Owners
  import opened Ports
  import opened RouteConfig
  import E = Envoy

  // ---- the oldest route ----

  function CompareAge(a: AttachedRoute, b: AttachedRoute): int {
    Or(CompareInt(a.route.created, b.route.created),
    Or(CompareString(a.route.key.ns, b.route.key.ns),
       CompareString(a.route.key.name, b.route.key.name)))
  }

  lemma AgeChain(a: AttachedRoute, b: AttachedRoute, c: AttachedRoute)
    ensures Chain(CompareAge(a, b), CompareAge(b, c), CompareAge(a, c))
    ensures CompareAge(a, b) == -CompareAge(b, a)
    ensures CompareAge(a, b) == 0 <==> SameAge(a.route, b.route)
  {
    StringChain(a.route.key.ns, b.route.key.ns, c.route.key.ns);
    StringChain(a.route.key.name, b.route.key.name, c.route.key.name);
    CompareStringAntisymmetric(a.route.key.ns, b.route.key.ns);
    CompareStringAntisymmetric(a.route.key.name, b.route.key.name);
    CompareStringEqual(a.route.key.ns, b.route.key.ns);
    CompareStringEqual(a.route.key.name, b.route.key.name);
  }

  method Oldest(routes: seq<AttachedRoute>) returns (r: AttachedRoute)
    requires routes != []
    ensures r in routes && forall s :: s in routes ==> CompareAge(r, s) <= 0
  {
    r := routes[0];
    AgeChain(r, r, r);
    for k := 1 to |routes|
      invariant r in routes
      invariant forall s :: s in routes[..k] ==> CompareAge(r, s) <= 0
    {
      assert routes[..k + 1] == routes[..k] + [routes[k]];
      AgeChain(routes[k], r, r);
      if CompareAge(routes[k], r) < 0 {
        forall s | s in routes[..k] ensures CompareAge(routes[k], s) <= 0 {
          AgeChain(routes[k], r, s);
        }
        AgeChain(routes[k], routes[k], routes[k]);
        r := routes[k];
      }
    }
    assert routes[..|routes|] == routes;
  }

  // ---- the routes attached to a listener ----

  /** A route that serves the host on listener i. */
  ghost predicate OnHost(m: Model, i: nat, host: string, r: AttachedRoute) {
    r in m.routes && HostOf(r, i, host)
  }

  ghost predicate OnListener(m: Model, i: nat, r: AttachedRoute) {
    exists host :: OnHost(m, i, host, r)
  }

  method HostsOf(r: AttachedRoute, i: nat) returns (hosts: seq<string>)
    ensures Distinct(hosts) && forall h :: h in hosts <==> HostOf(r, i, h)
  {
    hosts := [];
    for k := 0 to |r.parents|
      invariant Distinct(hosts)
      invariant forall h :: h in hosts <==> exists j :: 0 <= j < k && HostAt(r.parents[j], i, h)
    {
      var more := if i in r.parents[k].hostnames then r.parents[k].hostnames[i] else [];
      ghost var before := hosts;
      for j := 0 to |more|
        invariant Distinct(hosts)
        invariant forall h :: h in hosts <==> h in before || h in more[..j]
      {
        assert more[..j + 1] == more[..j] + [more[j]];
        if more[j] !in hosts {
          hosts := hosts + [more[j]];
        }
      }
      assert more[..|more|] == more;
    }
    assert forall h :: HostOf(r, i, h) <==> exists j :: 0 <= j < |r.parents| && HostAt(r.parents[j], i, h);
  }

  method AttachedToListener(m: Model, i: nat) returns (out: map<AttachedRoute, seq<string>>)
    ensures forall r :: r in out <==> OnListener(m, i, r)
    ensures forall r, h :: r in out ==> (h in out[r] <==> OnHost(m, i, h, r))
  {
    out := map[];
    for k := 0 to |m.routes|
      invariant forall r :: r in out <==> OnListener(m, i, r) && r in m.routes[..k]
      invariant forall r, h :: r in out ==> (h in out[r] <==> OnHost(m, i, h, r))
    {
      var r := m.routes[k];
      assert m.routes[..k + 1] == m.routes[..k] + [r];
      var hosts := HostsOf(r, i);
      if hosts != [] {
        assert OnHost(m, i, hosts[0], r);
        out := out[r := hosts];
      }
    }
    assert m.routes[..|m.routes|] == m.routes;
  }

  /** Only the first rule's backends count here. */
  function BackendsOf(r: AttachedRoute): seq<Backend> {
    if r.backends == [] then [] else r.backends[0]
  }

  // ---- where a connection goes ----

  function TcpTarget(backends: seq<Backend>): E.ClusterSpecifier {
    var targets := TargetsOf(backends);
    if targets == [] then E.SingleCluster(INVALID_CLUSTER)
    else if |targets| == 1 then E.SingleCluster(targets[0].name)
    else E.WeightedClusters(targets)
  }

  method TcpProxyFor(backends: seq<Backend>, clusters: map<string, Cluster>, ghost dir: map<string, Cluster>)
    returns (filter: E.NetworkFilter, out: map<string, Cluster>)
    requires Directory(dir) && Listed(backends, dir) && Gathered(clusters, dir)
    ensures filter == E.TcpProxy(TcpTarget(backends))
    ensures Gathered(out, dir) && out.Keys == clusters.Keys + (SpecifierNames(TcpTarget(backends)) - {INVALID_CLUSTER})
  {
    var targets;
    targets, out := GatherTargets(backends, clusters, dir);
    if |targets| == 0 {
      filter := E.TcpProxy(E.SingleCluster(INVALID_CLUSTER));
    } else if |targets| == 1 {
      assert TargetNames(targets) == {targets[0].name};
      filter := E.TcpProxy(E.SingleCluster(targets[0].name));
    } else {
      filter := E.TcpProxy(E.WeightedClusters(targets));
    }
  }

  // ---- a TLS port ----

  datatype TlsCandidate = TlsCandidate(route: AttachedRoute, listener: nat)

  function TlsModeOf(config: TlsConfig): TlsMode {
    if config.mode.Some? then config.mode.value else Terminate
  }

  /** The listener needs certificates. */
  predicate Terminates(l: ListenerSpec) {
    (l.protocol == HTTPS || l.protocol == TLS) && l.tls.Some? && TlsModeOf(l.tls.value) == Terminate
  }

  function CertificateData(l: Listener): seq<string> {
    seq(|l.certificates|, k requires 0 <= k < |l.certificates| => l.certificates[k].data)
  }

  function TlsChainOf(l: Listener, host: string, backends: seq<Backend>): E.FilterChain {
    E.FilterChain(host, if host == "*" then [] else [host], E.TcpProxy(TcpTarget(backends)),
                  if Terminates(l.spec) then Some(CertificateData(l)) else None)
  }

  /** The oldest of the routes serving the host on listener i. */
  ghost predicate OldestOn(m: Model, i: nat, host: string, r: AttachedRoute) {
    OnHost(m, i, host, r) && forall s :: OnHost(m, i, host, s) ==> CompareAge(r, s) <= 0
  }

  ghost predicate IsTlsChain(m: Model, ls: seq<nat>, chain: E.FilterChain) {
    exists i: nat, r :: i < |m.listeners| && Owns(m, ls, chain.name, i) && OldestOn(m, i, chain.name, r) &&
      chain == TlsChainOf(m.listeners[i], chain.name, BackendsOf(r))
  }

  /** A host that a route serves on the listener that owns it. */
  ghost predicate OwnedHost(m: Model, ls: seq<nat>, host: string) {
    exists i, r :: Owns(m, ls, host, i) && OnHost(m, i, host, r)
  }

  function ChainNames(chains: seq<E.FilterChain>): seq<string> {
    seq(|chains|, k requires 0 <= k < |chains| => chains[k].name)
  }

  ghost predicate AreTlsChains(m: Model, ls: seq<nat>, chains: seq<E.FilterChain>) {
    Ordered(ChainNames(chains), StringLeq) && Distinct(ChainNames(chains)) &&
    (forall h :: h in ChainNames(chains) <==> OwnedHost(m, ls, h)) &&
    (forall c :: c in chains ==> IsTlsChain(m, ls, c))
  }

  function FilterClusters(f: E.NetworkFilter): set<string> {
    match f
    case TcpProxy(target) => SpecifierNames(target) - {INVALID_CLUSTER}
    case HttpConnectionManager(_) => {}
  }

  function ChainsClusters(chains: seq<E.FilterChain>): set<string> {
    set c, n | c in chains && n in FilterClusters(c.filter) :: n
  }

  function CandidatesAt(byHost: map<string, seq<TlsCandidate>>, h: string): seq<TlsCandidate> {
    if h in byHost then byHost[h] else []
  }

  method AddCandidates(byHost: map<string, seq<TlsCandidate>>, r: AttachedRoute, i: nat, hosts: seq<string>)
    returns (out: map<string, seq<TlsCandidate>>)
    requires forall h :: h in byHost ==> byHost[h] != []
    ensures forall h, c :: c in CandidatesAt(out, h) <==> c in CandidatesAt(byHost, h) || (h in hosts && c == TlsCandidate(r, i))
    ensures forall h :: h in out ==> out[h] != []
  {
    out := byHost;
    for k := 0 to |hosts|
      invariant forall h, c :: c in CandidatesAt(out, h) <==> c in CandidatesAt(byHost, h) || (h in hosts[..k] && c == TlsCandidate(r, i))
      invariant forall h :: h in out ==> out[h] != []
    {
      assert hosts[..k + 1] == hosts[..k] + [hosts[k]];
      var host := hosts[k];
      ghost var before := out;
      out := out[host := CandidatesAt(out, host) + [TlsCandidate(r, i)]];
      assert forall h :: CandidatesAt(out, h) == CandidatesAt(before, h) + if h == host then [TlsCandidate(r, i)] else [];
    }
    assert hosts[..|hosts|] == hosts;
  }

  /** The candidates of listener i on each host. */
  ghost predicate OfListener(m: Model, i: nat, h: string, c: TlsCandidate) {
    c.listener == i && OnHost(m, i, h, c.route)
  }

  method AddAttached(m: Model, byHost: map<string, seq<TlsCandidate>>, i: nat) returns (out: map<string, seq<TlsCandidate>>)
    requires forall h :: h in byHost ==> byHost[h] != []
    ensures forall h, c :: c in CandidatesAt(out, h) <==> c in CandidatesAt(byHost, h) || OfListener(m, i, h, c)
    ensures forall h :: h in out ==> out[h] != []
  {
    var attached := AttachedToListener(m, i);
    out := byHost;
    var rest := attached.Keys;
    while rest != {}
      invariant rest <= attached.Keys
      invariant forall h, c :: c in CandidatesAt(out, h) <==>
        c in CandidatesAt(byHost, h) || (c.listener == i && c.route in attached && c.route !in rest && h in attached[c.route])
      invariant forall h :: h in out ==> out[h] != []
    {
      var r :| r in rest;
      rest := rest - {r};
      out := AddCandidates(out, r, i, attached[r]);
    }
    forall h, c ensures c in CandidatesAt(out, h) <==> c in CandidatesAt(byHost, h) || OfListener(m, i, h, c) {
      assert OnHost(m, i, h, c.route) ==> OnListener(m, i, c.route);
      assert c.route in attached <==> OnListener(m, i, c.route);
      assert c.route in attached ==> (h in attached[c.route] <==> OnHost(m, i, h, c.route));
    }
  }

  method GatherCandidates(m: Model, ls: seq<nat>) returns (byHost: map<string, seq<TlsCandidate>>)
    ensures forall h, c :: c in CandidatesAt(byHost, h) <==> c.listener in ls && OnHost(m, c.listener, h, c.route)
    ensures forall h :: h in byHost ==> byHost[h] != []
  {
    byHost := map[];
    for k := 0 to |ls|
      invariant forall h, c :: c in CandidatesAt(byHost, h) <==> c.listener in ls[..k] && OnHost(m, c.listener, h, c.route)
      invariant forall h :: h in byHost ==> byHost[h] != []
    {
      assert ls[..k + 1] == ls[..k] + [ls[k]];
      byHost := AddAttached(m, byHost, ls[k]);
    }
    assert ls[..|ls|] == ls;
  }

  /** The routes of the owner among a host's candidates. */
  method OwnersRoutes(candidates: seq<TlsCandidate>, owner: nat) returns (routes: seq<AttachedRoute>)
    ensures forall r :: r in routes <==> TlsCandidate(r, owner) in candidates
  {
    routes := [];
    for k := 0 to |candidates|
      invariant forall r :: r in routes <==> TlsCandidate(r, owner) in candidates[..k]
    {
      assert candidates[..k + 1] == candidates[..k] + [candidates[k]];
      if candidates[k].listener == owner {
        routes := routes + [candidates[k].route];
      }
    }
    assert candidates[..|candidates|] == candidates;
  }

  ghost predicate L4Ready(m: Model, ls: seq<nat>, clusters: map<string, Cluster>, dir: map<string, Cluster>) {
    WellAttached(m) && Hostful(m, ls) && Directory(dir) && ListedModel(m, dir) && Gathered(clusters, dir)
  }

  lemma CandidateHostOwned(m: Model, ls: seq<nat>, i: nat, host: string, r: AttachedRoute)
    requires WellAttached(m) && Hostful(m, ls) && i in ls && OnHost(m, i, host, r)
    ensures Pattern(host) && HostCovers(OwnHost(m, i), host)
  {
    assert RouteWithin(r, m.listeners);
    var p :| p in r.parents && HostAt(p, i, host);
    assert ParentWithin(p, m.listeners);
  }

  /** The listener that owns a host, and the oldest of its routes there. */
  method WinningRoute(m: Model, ls: seq<nat>, host: string, candidates: seq<TlsCandidate>) returns (i: nat, route: Option<AttachedRoute>)
    requires WellAttached(m) && Hostful(m, ls) && DistinctHosts(m, ls)
    requires candidates != [] && forall c :: c in candidates <==> c.listener in ls && OnHost(m, c.listener, host, c.route)
    ensures i < |m.listeners| && Owns(m, ls, host, i)
    ensures route.Some? <==> OwnedHost(m, ls, host)
    ensures route.Some? ==> OldestOn(m, i, host, route.value)
  {
    var owner := OwningListener(m, ls, host);
    assert candidates[0] in candidates;
    CandidateHostOwned(m, ls, candidates[0].listener, host, candidates[0].route);
    i := owner.value;
    var routes := OwnersRoutes(candidates, i);
    forall r ensures r in routes <==> OnHost(m, i, host, r) {
      assert TlsCandidate(r, i) in candidates <==> OnHost(m, i, host, r);
    }
    if |routes| == 0 {
      forall j, r | Owns(m, ls, host, j) && OnHost(m, j, host, r) ensures r in routes {
        OwnerUnique(m, ls, host, i, j);
      }
      return i, None;
    }
    var oldest := Oldest(routes);
    route := Some(oldest);
  }

  method TlsChainFor(m: Model, ls: seq<nat>, host: string, candidates: seq<TlsCandidate>,
                     clusters: map<string, Cluster>, ghost dir: map<string, Cluster>)
    returns (chain: Option<E.FilterChain>, out: map<string, Cluster>)
    requires L4Ready(m, ls, clusters, dir) && DistinctHosts(m, ls)
    requires candidates != [] && forall c :: c in candidates <==> c.listener in ls && OnHost(m, c.listener, host, c.route)
    ensures chain.Some? <==> OwnedHost(m, ls, host)
    ensures chain.Some? ==> chain.value.name == host && IsTlsChain(m, ls, chain.value)
    ensures Gathered(out, dir)
    ensures out.Keys == clusters.Keys + if chain.Some? then FilterClusters(chain.value.filter) else {}
  {
    var i, route := WinningRoute(m, ls, host, candidates);
    if route.None? {
      return None, clusters;
    }
    BackendsListed(m, route.value, dir);
    var proxy;
    proxy, out := TcpProxyFor(BackendsOf(route.value), clusters, dir);
    var names := if host == "*" then [] else [host];
    var certificates := if Terminates(m.listeners[i].spec) then Some(CertificateData(m.listeners[i])) else None;
    chain := Some(E.FilterChain(host, names, proxy, certificates));
    assert chain.value == TlsChainOf(m.listeners[i], host, BackendsOf(route.value));
  }

  lemma BackendsListed(m: Model, r: AttachedRoute, dir: map<string, Cluster>)
    requires r in m.routes && ListedModel(m, dir)
    ensures Listed(BackendsOf(r), dir)
  {
  }

  lemma ChainsGrow(chains: seq<E.FilterChain>, c: E.FilterChain)
    ensures ChainsClusters(chains + [c]) == ChainsClusters(chains) + FilterClusters(c.filter)
    ensures ChainNames(chains + [c]) == ChainNames(chains) + [c.name]
  {
    forall n | n in ChainsClusters(chains) + FilterClusters(c.filter) ensures n in ChainsClusters(chains + [c]) {
      if n in ChainsClusters(chains) {
        var d :| d in chains && n in FilterClusters(d.filter);
        assert d in chains + [c];
      } else {
        assert c in chains + [c];
      }
    }
  }

  /** The chains of the first hosts. */
  ghost predicate ChainsUpTo(m: Model, ls: seq<nat>, hosts: seq<string>, k: nat, chains: seq<E.FilterChain>)
    requires k <= |hosts|
  {
    Ordered(ChainNames(chains), StringLeq) && Distinct(ChainNames(chains)) &&
    (forall h :: h in ChainNames(chains) <==> h in hosts[..k] && OwnedHost(m, ls, h)) &&
    (forall c :: c in chains ==> IsTlsChain(m, ls, c))
  }

  lemma NextChain(m: Model, ls: seq<nat>, hosts: seq<string>, k: nat, chains: seq<E.FilterChain>, chain: Option<E.FilterChain>)
    requires Ordered(hosts, StringLeq) && Distinct(hosts) && k < |hosts| && ChainsUpTo(m, ls, hosts, k, chains)
    requires chain.Some? <==> OwnedHost(m, ls, hosts[k])
    requires chain.Some? ==> chain.value.name == hosts[k] && IsTlsChain(m, ls, chain.value)
    ensures ChainsUpTo(m, ls, hosts, k + 1, chains + if chain.Some? then [chain.value] else [])
    ensures chain.Some? ==> ChainsClusters(chains + [chain.value]) == ChainsClusters(chains) + FilterClusters(chain.value.filter)
  {
    assert hosts[..k + 1] == hosts[..k] + [hosts[k]];
    if chain.Some? {
      ChainsGrow(chains, chain.value);
      AppendOrdered(ChainNames(chains), hosts, k);
    } else {
      assert chains + [] == chains;
    }
  }

  method TlsChains(m: Model, ls: seq<nat>, clusters: map<string, Cluster>, ghost dir: map<string, Cluster>)
    returns (chains: seq<E.FilterChain>, out: map<string, Cluster>)
    requires L4Ready(m, ls, clusters, dir) && DistinctHosts(m, ls)
    ensures AreTlsChains(m, ls, chains)
    ensures Gathered(out, dir) && out.Keys == clusters.Keys + ChainsClusters(chains)
  {
    var byHost := GatherCandidates(m, ls);
    var keys := Collect(byHost.Keys);
    StringLeqIsTotalOrder();
    var hosts := SortStable(keys, StringLeq);
    PermutationFacts(keys, hosts);
    chains, out := ChainsFor(m, ls, hosts, byHost, clusters, dir);
    forall h | OwnedHost(m, ls, h) ensures h in hosts {
      var i, r :| Owns(m, ls, h, i) && OnHost(m, i, h, r);
      assert TlsCandidate(r, i) in CandidatesAt(byHost, h);
    }
    assert hosts[..|hosts|] == hosts;
  }

  method ChainsFor(m: Model, ls: seq<nat>, hosts: seq<string>, byHost: map<string, seq<TlsCandidate>>,
                   clusters: map<string, Cluster>, ghost dir: map<string, Cluster>)
    returns (chains: seq<E.FilterChain>, out: map<string, Cluster>)
    requires L4Ready(m, ls, clusters, dir) && DistinctHosts(m, ls)
    requires Ordered(hosts, StringLeq) && Distinct(hosts) && forall h :: h in hosts ==> h in byHost && byHost[h] != []
    requires forall h, c :: c in CandidatesAt(byHost, h) <==> c.listener in ls && OnHost(m, c.listener, h, c.route)
    ensures ChainsUpTo(m, ls, hosts, |hosts|, chains)
    ensures Gathered(out, dir) && out.Keys == clusters.Keys + ChainsClusters(chains)
  {
    chains, out := [], clusters;
    for k := 0 to |hosts|
      invariant ChainsUpTo(m, ls, hosts, k, chains)
      invariant Gathered(out, dir) && out.Keys == clusters.Keys + ChainsClusters(chains)
    {
      assert hosts[k] in hosts && byHost[hosts[k]] == CandidatesAt(byHost, hosts[k]);
      chains, out := ChainStep(m, ls, hosts, k, byHost[hosts[k]], chains, out, clusters.Keys, dir);
    }
  }

  /** One server name: its chain, if it has one, goes to the end. */
  method ChainStep(m: Model, ls: seq<nat>, hosts: seq<string>, k: nat, candidates: seq<TlsCandidate>, before: seq<E.FilterChain>,
                   clusters: map<string, Cluster>, ghost base: set<string>, ghost dir: map<string, Cluster>)
    returns (chains: seq<E.FilterChain>, out: map<string, Cluster>)
    requires L4Ready(m, ls, clusters, dir) && DistinctHosts(m, ls)
    requires Ordered(hosts, StringLeq) && Distinct(hosts) && k < |hosts| && ChainsUpTo(m, ls, hosts, k, before)
    requires candidates != [] && forall c :: c in candidates <==> c.listener in ls && OnHost(m, c.listener, hosts[k], c.route)
    ensures ChainsUpTo(m, ls, hosts, k + 1, chains)
    requires clusters.Keys == base + ChainsClusters(before)
    ensures Gathered(out, dir) && out.Keys == base + ChainsClusters(chains)
  {
    var chain: Option<E.FilterChain>;
    chain, out := TlsChainFor(m, ls, hosts[k], candidates, clusters, dir);
    NextChain(m, ls, hosts, k, before, chain);
    chains := before;
    if chain.Some? {
      chains := before + [chain.value];
    } else {
      assert before + [] == before;
    }
  }

  lemma AppendOrdered(names: seq<string>, hosts: seq<string>, k: nat)
    requires Ordered(names, StringLeq) && Distinct(names) && Ordered(hosts, StringLeq) && Distinct(hosts) && k < |hosts|
    requires forall h :: h in names ==> h in hosts[..k]
    ensures Ordered(names + [hosts[k]], StringLeq) && Distinct(names + [hosts[k]])
  {
    forall h | h in names ensures StringLeq(h, hosts[k]) && h != hosts[k] {
      assert h in hosts[..k];
    }
    assert forall j :: 0 <= j < |names| ==> names[j] in names;
  }

  method TlsListener(name: string, port: nat, m: Model, ls: seq<nat>, clusters: map<string, Cluster>, ghost dir: map<string, Cluster>)
    returns (listener: Option<E.Listener>, out: map<string, Cluster>)
    requires L4Ready(m, ls, clusters, dir) && DistinctHosts(m, ls)
    ensures listener.None? ==> AreTlsChains(m, ls, []) && out == clusters
    ensures listener.Some? ==>
              listener.value.StreamListener? && listener.value.name == name && listener.value.port == ContainerPort(port) &&
              listener.value.chains != [] && AreTlsChains(m, ls, listener.value.chains) &&
              Gathered(out, dir) && out.Keys == clusters.Keys + ChainsClusters(listener.value.chains)
  {
    var chains;
    chains, out := TlsChains(m, ls, clusters, dir);
    if |chains| == 0 {
      return None, clusters;
    }
    listener := Some(E.StreamListener(name, ContainerPort(port), chains));
  }
}
