/** Translating a Gateway into everything its Envoy serves. */
module Translate {
  import opened Text
  import opened Sorting
  import opened Hostnames
  import opened GatewayModel
  import opened Attachment
  import opened Backends
  import opened RouteActions
  import opened Owners
  import opened RouteConfig
  import opened Layer4
  import opened Streams
  import opened Endpoints
  import opened Ports
  import opened Validation
  import E = Envoy

  // ---- ports ----

  /** A port and the transport it is bound for. */
  datatype PortKey = PortKey(port: nat, udp: bool)

  function PortKeyOf(l: Listener): PortKey {
    PortKey(l.spec.port, l.spec.protocol == UDP)
  }

  predicate PortKeyLeq(a: PortKey, b: PortKey) {
    Or(CompareInt(a.port, b.port), CompareInt(if a.udp then 1 else 0, if b.udp then 1 else 0)) <= 0
  }

  /** The valid listeners of a port, in the order of the Gateway's spec. */
  function GroupOf(ls: seq<Listener>, key: PortKey): seq<nat> {
    if ls == [] then []
    else
      var n := |ls| - 1;
      GroupOf(ls[..n], key) + if ls[n].valid && PortKeyOf(ls[n]) == key then [n] else []
  }

  lemma {:induction false} GroupMembers(ls: seq<Listener>, key: PortKey)
    ensures forall i: nat :: i in GroupOf(ls, key) <==> i < |ls| && ls[i].valid && PortKeyOf(ls[i]) == key
    ensures Distinct(GroupOf(ls, key))
  {
    if ls != [] {
      var n := |ls| - 1;
      GroupMembers(ls[..n], key);
      var g, before := GroupOf(ls, key), GroupOf(ls[..n], key);
      assert forall i :: i in before ==> i < n;
      forall i, j | 0 <= i < j < |g| ensures g[i] != g[j] {
        assert g[i] == before[i] && before[i] in before;
        assert j < |before| ==> g[j] == before[j];
      }
    }
  }

  method GroupByPort(ls: seq<Listener>) returns (byPort: map<PortKey, seq<nat>>)
    ensures forall key :: key in byPort <==> GroupOf(ls, key) != []
    ensures forall key :: key in byPort ==> byPort[key] == GroupOf(ls, key)
  {
    byPort := map[];
    for i := 0 to |ls|
      invariant forall key :: key in byPort <==> GroupOf(ls[..i], key) != []
      invariant forall key :: key in byPort ==> byPort[key] == GroupOf(ls[..i], key)
    {
      assert ls[..i + 1][..i] == ls[..i];
      forall key
        ensures GroupOf(ls[..i + 1], key) == GroupOf(ls[..i], key) + if ls[i].valid && PortKeyOf(ls[i]) == key then [i] else []
      {
      }
      if ls[i].valid {
        var key := PortKeyOf(ls[i]);
        byPort := byPort[key := (if key in byPort then byPort[key] else []) + [i]];
      }
    }
    assert ls[..|ls|] == ls;
  }

  // ---- names ----

  function HttpName(port: nat): string { "http-" + Decimal(port) }
  function HttpsName(port: nat): string { "https-" + Decimal(port) }
  function HttpsRouteName(port: nat, listener: string): string { HttpsName(port) + "-" + listener }
  function TlsName(port: nat): string { "tls-" + Decimal(port) }
  function TcpName(port: nat): string { "tcp-" + Decimal(port) }
  function UdpName(port: nat): string { "udp-" + Decimal(port) }

  // ---- what one port becomes ----

  /** A port's listener and route configurations, the Service clusters they refer
      to, and the weighted cluster a UDP port may need. */
  datatype PortConfig = PortConfig(
    listener: Option<E.Listener>, configs: seq<E.RouteConfiguration>,
    services: set<string>, weighted: Option<WeightedCluster>)

  function HttpListenerOf(port: nat): E.Listener {
    E.StreamListener(HttpName(port), ContainerPort(port), [E.FilterChain("", [], E.HttpConnectionManager(HttpName(port)), None)])
  }

  /** Only a hostname becomes a server name to match; no server name matches them all. */
  function HttpsChain(port: nat, l: Listener): E.FilterChain {
    E.FilterChain(l.spec.name,
                  if l.spec.hostname.Some? && l.spec.hostname.value != "" then [l.spec.hostname.value] else [],
                  E.HttpConnectionManager(HttpsRouteName(port, l.spec.name)), Some(CertificateData(l)))
  }

  ghost predicate AreHttpsChains(m: Model, port: nat, indexes: seq<nat>, chains: seq<E.FilterChain>) {
    |chains| == |indexes| && forall k :: 0 <= k < |indexes| ==>
      indexes[k] < |m.listeners| && chains[k] == HttpsChain(port, m.listeners[indexes[k]])
  }

  ghost function AllConfigClusters(configs: seq<E.RouteConfiguration>): set<string> {
    set c, n | c in configs && n in ConfigClusters(c.virtualHosts) :: n
  }

  ghost predicate OldestOrNone(m: Model, i: nat, r: Option<AttachedRoute>) {
    match r
    case None => forall s :: !OnListener(m, i, s)
    case Some(route) => OldestOnListener(m, i, route)
  }

  ghost predicate IsHttpPort(m: Model, port: nat, indexes: seq<nat>, g: PortConfig) {
    |g.configs| == 1 && g.configs[0].name == HttpName(port) && IsRouteConfiguration(m, indexes, g.configs[0]) &&
    g == PortConfig(Some(HttpListenerOf(port)), g.configs, AllConfigClusters(g.configs), None)
  }

  ghost predicate AreHttpsConfigs(m: Model, port: nat, indexes: seq<nat>, configs: seq<E.RouteConfiguration>) {
    |configs| == |indexes| && forall k :: 0 <= k < |indexes| ==> configs[k] in HttpsConfigsOf(m, port, indexes[k])
  }

  /** What the route configuration of one HTTPS listener may be. */
  ghost function HttpsConfigsOf(m: Model, port: nat, i: nat): iset<E.RouteConfiguration> {
    iset c: E.RouteConfiguration | i < |m.listeners| && c.name == HttpsRouteName(port, m.listeners[i].spec.name) &&
                                   IsRouteConfiguration(m, [i], c)
  }

  ghost predicate IsHttpsPort(m: Model, port: nat, indexes: seq<nat>, g: PortConfig) {
    AreHttpsConfigs(m, port, indexes, g.configs) &&
    exists chains :: AreHttpsChains(m, port, indexes, chains) &&
      g == PortConfig(Some(E.StreamListener(HttpsName(port), ContainerPort(port), chains)),
                      g.configs, AllConfigClusters(g.configs), None)
  }

  ghost predicate IsTlsPort(m: Model, port: nat, indexes: seq<nat>, g: PortConfig) {
    exists chains :: AreTlsChains(m, indexes, chains) &&
      g == PortConfig(if chains == [] then None else Some(E.StreamListener(TlsName(port), ContainerPort(port), chains)),
                      [], ChainsClusters(chains), None)
  }

  ghost function TcpConfig(port: nat, r: Option<AttachedRoute>): PortConfig {
    match r
    case None => PortConfig(None, [], {}, None)
    case Some(route) =>
      PortConfig(Some(TcpListenerOf(TcpName(port), port, route)), [],
                 SpecifierNames(TcpTarget(BackendsOf(route))) - {INVALID_CLUSTER}, None)
  }

  ghost function UdpConfig(port: nat, r: Option<AttachedRoute>): PortConfig {
    match r
    case None => PortConfig(None, [], {}, None)
    case Some(route) =>
      PortConfig(Some(E.DatagramListener(UdpName(port), ContainerPort(port), UdpTarget(route))), [],
                 UdpService(route), UdpWeighted(route))
  }

  ghost predicate IsPortConfig(m: Model, key: PortKey, g: PortConfig) {
    var indexes := GroupOf(m.listeners, key);
    indexes != [] && indexes[0] < |m.listeners| &&
    match m.listeners[indexes[0]].spec.protocol
    case HTTP => IsHttpPort(m, key.port, indexes, g)
    case HTTPS => IsHttpsPort(m, key.port, indexes, g)
    case TLS => IsTlsPort(m, key.port, indexes, g)
    case TCP => exists r :: OldestOrNone(m, indexes[0], r) && g == TcpConfig(key.port, r)
    case UDP => exists r :: OldestOrNone(m, indexes[0], r) && g == UdpConfig(key.port, r)
    case OtherProtocol(_) => g == PortConfig(None, [], {}, None)
  }

  function AddWeighted(weighted: map<string, WeightedCluster>, w: Option<WeightedCluster>): map<string, WeightedCluster> {
    if w.Some? then weighted[w.value.name := w.value] else weighted
  }

  /** What translation relies on: validated listeners, whose hostnames are never
      a bare star, and routes attached to them. */
  ghost predicate Translatable(m: Model, dir: map<string, Cluster>) {
    WellAttached(m) && Sound(m.listeners) && Directory(dir) && ListedModel(m, dir) &&
    forall l :: l in m.listeners ==> l.spec.hostname != Some("*")
  }

  /** Valid listeners of one port stand for hostnames of their own. */
  lemma GroupIsHostful(m: Model, key: PortKey)
    requires Sound(m.listeners) && forall l :: l in m.listeners ==> l.spec.hostname != Some("*")
    ensures var indexes := GroupOf(m.listeners, key);
            (forall i :: i in indexes ==> i < |m.listeners| && PortKeyOf(m.listeners[i]) == key && m.listeners[i].valid) &&
            DistinctHosts(m, indexes) &&
            (forall i :: i in indexes && HasHostnames(m.listeners[i].spec.protocol) ==> Hostful(m, indexes))
  {
    var indexes := GroupOf(m.listeners, key);
    GroupMembers(m.listeners, key);
    forall i, j | i in indexes && j in indexes && OwnHost(m, i) == OwnHost(m, j) ensures i == j {
      assert m.listeners[i] in m.listeners && m.listeners[j] in m.listeners;
      PortGroups(m.listeners, i, j);
    }
    forall i, j | i in indexes && j in indexes ensures m.listeners[i].spec.protocol == m.listeners[j].spec.protocol {
      PortGroups(m.listeners, i, j);
    }
  }

  lemma AllConfigsGrow(configs: seq<E.RouteConfiguration>, c: E.RouteConfiguration)
    ensures AllConfigClusters(configs + [c]) == AllConfigClusters(configs) + ConfigClusters(c.virtualHosts)
    ensures AllConfigClusters([c]) == ConfigClusters(c.virtualHosts)
  {
    forall n | n in AllConfigClusters(configs) + ConfigClusters(c.virtualHosts) ensures n in AllConfigClusters(configs + [c]) {
      if n in AllConfigClusters(configs) {
        var d :| d in configs && n in ConfigClusters(d.virtualHosts);
        assert d in configs + [c];
      } else {
        assert c in configs + [c];
      }
    }
    assert c in [c];
  }

  method HttpsConfig(m: Model, port: nat, i: nat, clusters: map<string, Cluster>, ghost dir: map<string, Cluster>)
    returns (config: E.RouteConfiguration, out: map<string, Cluster>)
    requires WellAttached(m) && Directory(dir) && ListedModel(m, dir) && Gathered(clusters, dir)
    requires i < |m.listeners| && HasHostnames(m.listeners[i].spec.protocol)
    ensures config in HttpsConfigsOf(m, port, i)
    ensures Gathered(out, dir) && out.Keys == clusters.Keys + ConfigClusters(config.virtualHosts)
  {
    config, out := RouteConfigurationFor(HttpsRouteName(port, m.listeners[i].spec.name), m, [i], clusters, dir);
  }

  /** The configurations and chains of the first listeners of a port. */
  ghost predicate HttpsUpTo(m: Model, port: nat, indexes: seq<nat>, k: nat, configs: seq<E.RouteConfiguration>, chains: seq<E.FilterChain>)
    requires k <= |indexes|
  {
    AreHttpsConfigs(m, port, indexes[..k], configs) && AreHttpsChains(m, port, indexes[..k], chains)
  }

  lemma NextHttps(m: Model, port: nat, indexes: seq<nat>, k: nat, configs: seq<E.RouteConfiguration>, chains: seq<E.FilterChain>,
                  config: E.RouteConfiguration)
    requires k < |indexes| && HttpsUpTo(m, port, indexes, k, configs, chains)
    requires config in HttpsConfigsOf(m, port, indexes[k]) && indexes[k] < |m.listeners|
    ensures HttpsUpTo(m, port, indexes, k + 1, configs + [config], chains + [HttpsChain(port, m.listeners[indexes[k]])])
  {
  }

  method HttpsConfigs(m: Model, port: nat, indexes: seq<nat>, clusters: map<string, Cluster>, ghost dir: map<string, Cluster>)
    returns (configs: seq<E.RouteConfiguration>, chains: seq<E.FilterChain>, out: map<string, Cluster>)
    requires WellAttached(m) && Directory(dir) && ListedModel(m, dir) && Gathered(clusters, dir)
    requires Hostful(m, indexes)
    ensures AreHttpsConfigs(m, port, indexes, configs)
    ensures AreHttpsChains(m, port, indexes, chains)
    ensures Gathered(out, dir) && out.Keys == clusters.Keys + AllConfigClusters(configs)
  {
    configs, chains, out := [], [], clusters;
    for k := 0 to |indexes|
      invariant HttpsUpTo(m, port, indexes, k, configs, chains)
      invariant Gathered(out, dir) && out.Keys == clusters.Keys + AllConfigClusters(configs)
    {
      assert indexes[k] in indexes;
      var config, more := HttpsConfig(m, port, indexes[k], out, dir);
      AllConfigsGrow(configs, config);
      NextHttps(m, port, indexes, k, configs, chains, config);
      configs := configs + [config];
      chains := chains + [HttpsChain(port, m.listeners[indexes[k]])];
      out := more;
    }
    assert indexes[..|indexes|] == indexes;
  }

  method TranslatePort(m: Model, key: PortKey, indexes: seq<nat>, clusters: map<string, Cluster>,
                       weighted: map<string, WeightedCluster>, ghost dir: map<string, Cluster>)
    returns (listener: Option<E.Listener>, configs: seq<E.RouteConfiguration>, out: map<string, Cluster>,
             weighted': map<string, WeightedCluster>, ghost g: PortConfig)
    requires Translatable(m, dir) && Gathered(clusters, dir)
    requires indexes == GroupOf(m.listeners, key) && indexes != []
    ensures IsPortConfig(m, key, g) && listener == g.listener && configs == g.configs
    ensures Gathered(out, dir) && out.Keys == clusters.Keys + g.services
    ensures weighted' == AddWeighted(weighted, g.weighted)
  {
    GroupIsHostful(m, key);
    assert indexes[0] in indexes;
    var port := key.port;
    weighted' := weighted;
    match m.listeners[indexes[0]].spec.protocol {
      case HTTP =>
        var config;
        config, out := RouteConfigurationFor(HttpName(port), m, indexes, clusters, dir);
        AllConfigsGrow([], config);
        listener, configs := Some(HttpListenerOf(port)), [config];
        g := PortConfig(listener, configs, AllConfigClusters(configs), None);
      case HTTPS =>
        var chains;
        configs, chains, out := HttpsConfigs(m, port, indexes, clusters, dir);
        listener := Some(E.StreamListener(HttpsName(port), ContainerPort(port), chains));
        g := PortConfig(listener, configs, AllConfigClusters(configs), None);
      case TLS =>
        configs := [];
        listener, out := TlsListener(TlsName(port), port, m, indexes, clusters, dir);
        ghost var chains := if listener.Some? then listener.value.chains else [];
        g := PortConfig(listener, [], ChainsClusters(chains), None);
        assert AreTlsChains(m, indexes, chains);
      case TCP =>
        configs := [];
        ghost var route;
        listener, out, route := TcpListener(TcpName(port), port, m, indexes[0], clusters, dir);
        g := TcpConfig(port, route);
        assert OldestOrNone(m, indexes[0], route);
      case UDP =>
        configs := [];
        ghost var route;
        listener, out, weighted', route := UdpListener(UdpName(port), port, m, indexes[0], clusters, weighted, dir);
        g := UdpConfig(port, route);
        assert OldestOrNone(m, indexes[0], route);
      case OtherProtocol(_) =>
        listener, configs, out := None, [], clusters;
        g := PortConfig(None, [], {}, None);
    }
  }

  // ---- everything ----

  datatype Resources = Resources(
    listeners: seq<E.Listener>, configs: seq<E.RouteConfiguration>,
    clusters: seq<E.Cluster>, endpoints: seq<E.Assignment>)

  function ListenersOf(groups: seq<PortConfig>): seq<E.Listener> {
    if groups == [] then []
    else ListenersOf(groups[..|groups| - 1]) +
         if groups[|groups| - 1].listener.Some? then [groups[|groups| - 1].listener.value] else []
  }

  function ConfigsOf(groups: seq<PortConfig>): seq<E.RouteConfiguration> {
    if groups == [] then [] else ConfigsOf(groups[..|groups| - 1]) + groups[|groups| - 1].configs
  }

  function ServicesOf(groups: seq<PortConfig>): set<string> {
    if groups == [] then {} else ServicesOf(groups[..|groups| - 1]) + groups[|groups| - 1].services
  }

  function WeightedOf(groups: seq<PortConfig>): map<string, WeightedCluster> {
    if groups == [] then map[] else AddWeighted(WeightedOf(groups[..|groups| - 1]), groups[|groups| - 1].weighted)
  }

  ghost predicate PortKeys(m: Model, keys: seq<PortKey>) {
    Ordered(keys, PortKeyLeq) && Distinct(keys) && forall key :: key in keys <==> GroupOf(m.listeners, key) != []
  }

  ghost predicate ArePortConfigs(m: Model, keys: seq<PortKey>, groups: seq<PortConfig>) {
    |groups| == |keys| && forall k :: 0 <= k < |keys| ==> IsPortConfig(m, keys[k], groups[k])
  }

  ghost predicate NamesInOrder(names: seq<string>, all: set<string>) {
    Ordered(names, StringLeq) && Distinct(names) && forall n :: n in names <==> n in all
  }

  function EnvoyCluster(c: Cluster): E.Cluster {
    E.Cluster(c.name, c.h2, false)
  }

  ghost predicate IsAssignment(c: Cluster, refs: References, a: E.Assignment) {
    a.cluster == c.name && |a.localities| == 1 && a.localities[0].weight.None? &&
    AreEndpoints(a.localities[0].endpoints, SlicesOf(c, refs), c.port.name)
  }

  ghost predicate IsLocality(b: Backend, refs: References, l: E.Locality) {
    l.weight == Some(b.weight) &&
    if b.cluster.Some? then AreEndpoints(l.endpoints, SlicesOf(b.cluster.value, refs), b.cluster.value.port.name)
    else l.endpoints == []
  }

  /** A locality for each backend, with its weight and its Service's endpoints. */
  ghost predicate IsWeightedAssignment(w: WeightedCluster, refs: References, a: E.Assignment) {
    a.cluster == w.name && |a.localities| == |w.backends| &&
    forall k :: 0 <= k < |w.backends| ==> IsLocality(w.backends[k], refs, a.localities[k])
  }

  method WeightedAssignment(w: WeightedCluster, refs: References) returns (a: E.Assignment)
    ensures IsWeightedAssignment(w, refs, a)
  {
    var localities: seq<E.Locality> := [];
    for i := 0 to |w.backends|
      invariant |localities| == i && forall k :: 0 <= k < i ==> IsLocality(w.backends[k], refs, localities[k])
    {
      var b := w.backends[i];
      var endpoints: seq<E.Address> := [];
      if b.cluster.Some? {
        endpoints := ClusterEndpoints(b.cluster.value, refs);
      }
      localities := localities + [E.Locality(Some(b.weight), endpoints)];
    }
    a := E.Assignment(w.name, localities);
  }

  ghost predicate WeightedEmitted(weighted: map<string, WeightedCluster>, refs: References, n: string, c: E.Cluster, a: E.Assignment) {
    n in weighted && c == E.Cluster(n, false, true) && IsWeightedAssignment(weighted[n], refs, a)
  }

  ghost predicate ServiceEmitted(services: map<string, Cluster>, refs: References, n: string, c: E.Cluster, a: E.Assignment) {
    n in services && c == EnvoyCluster(services[n]) && IsAssignment(services[n], refs, a)
  }

  /** The clusters and their assignments: the weighted ones in order, then those
      of Services in order. */
  ghost predicate AreClusters(weighted: map<string, WeightedCluster>, services: map<string, Cluster>, refs: References,
                              wn: seq<string>, sn: seq<string>, clusters: seq<E.Cluster>, endpoints: seq<E.Assignment>) {
    |clusters| == |endpoints| == |wn| + |sn| &&
    (forall k :: 0 <= k < |wn| ==> WeightedEmitted(weighted, refs, wn[k], clusters[k], endpoints[k])) &&
    (forall k :: |wn| <= k < |clusters| ==> ServiceEmitted(services, refs, sn[k - |wn|], clusters[k], endpoints[k]))
  }

  method InOrder(all: set<string>) returns (names: seq<string>)
    ensures NamesInOrder(names, all)
  {
    StringLeqIsTotalOrder();
    var keys := Collect(all);
    names := SortStable(keys, StringLeq);
    PermutationFacts(keys, names);
  }

  method EmitClusters(weighted: map<string, WeightedCluster>, services: map<string, Cluster>, refs: References)
    returns (clusters: seq<E.Cluster>, endpoints: seq<E.Assignment>, ghost wn: seq<string>, ghost sn: seq<string>)
    requires forall n :: n in weighted ==> weighted[n].name == n
    ensures NamesInOrder(wn, weighted.Keys) && NamesInOrder(sn, services.Keys)
    ensures AreClusters(weighted, services, refs, wn, sn, clusters, endpoints)
    ensures |clusters| == |endpoints| == |weighted| + |services|
  {
    var weightedNames := InOrder(weighted.Keys);
    wn, sn := weightedNames, [];
    clusters, endpoints := [], [];
    for i := 0 to |weightedNames|
      invariant AreClusters(weighted, services, refs, wn[..i], [], clusters, endpoints)
    {
      var n := weightedNames[i];
      assert n in weightedNames;
      var a := WeightedAssignment(weighted[n], refs);
      clusters := clusters + [E.Cluster(n, false, true)];
      endpoints := endpoints + [a];
    }
    assert wn[..|wn|] == wn;
    clusters, endpoints, sn := EmitServices(weighted, services, refs, wn, clusters, endpoints);
    NamesCount(wn, weighted.Keys);
    NamesCount(sn, services.Keys);
  }

  /** A map has as many names as it has entries. */
  lemma {:induction false} NamesCount(names: seq<string>, keys: set<string>)
    requires Distinct(names) && forall n :: n in names <==> n in keys
    ensures |names| == |keys|
  {
    if names == [] {
      assert keys == {};
    } else {
      var n := names[|names| - 1];
      var rest := names[..|names| - 1];
      assert forall k :: k in rest <==> k in keys - {n} by {
        assert names == rest + [n] && n !in rest;
      }
      NamesCount(rest, keys - {n});
    }
  }

  method EmitServices(ghost weighted: map<string, WeightedCluster>, services: map<string, Cluster>, refs: References,
                      ghost wn: seq<string>, before: seq<E.Cluster>, earlier: seq<E.Assignment>)
    returns (clusters: seq<E.Cluster>, endpoints: seq<E.Assignment>, ghost sn: seq<string>)
    requires AreClusters(weighted, services, refs, wn, [], before, earlier)
    ensures NamesInOrder(sn, services.Keys)
    ensures AreClusters(weighted, services, refs, wn, sn, clusters, endpoints)
  {
    var names := InOrder(services.Keys);
    sn := names;
    clusters, endpoints := before, earlier;
    for i := 0 to |names|
      invariant AreClusters(weighted, services, refs, wn, sn[..i], clusters, endpoints)
    {
      assert names[i] in names;
      var c := services[names[i]];
      var addresses := ClusterEndpoints(c, refs);
      clusters := clusters + [EnvoyCluster(c)];
      endpoints := endpoints + [E.Assignment(c.name, [E.Locality(None, addresses)])];
    }
    assert sn[..|sn|] == sn;
  }

  /** What a translation is: the configurations of the ports in order, and the
      clusters they refer to. */
  ghost predicate Translates(m: Model, refs: References, dir: map<string, Cluster>, r: Resources,
                             keys: seq<PortKey>, groups: seq<PortConfig>, wn: seq<string>, sn: seq<string>) {
    PortKeys(m, keys) && ArePortConfigs(m, keys, groups) &&
    r.listeners == ListenersOf(groups) && r.configs == ConfigsOf(groups) &&
    NamesInOrder(wn, WeightedOf(groups).Keys) && NamesInOrder(sn, ServicesOf(groups)) &&
    AreClusters(WeightedOf(groups), dir, refs, wn, sn, r.clusters, r.endpoints)
  }

  method TranslatePorts(m: Model, keys: seq<PortKey>, byPort: map<PortKey, seq<nat>>, ghost dir: map<string, Cluster>)
    returns (listeners: seq<E.Listener>, configs: seq<E.RouteConfiguration>, clusters: map<string, Cluster>,
             weighted: map<string, WeightedCluster>, ghost groups: seq<PortConfig>)
    requires Translatable(m, dir)
    requires forall key :: key in keys ==> key in byPort && byPort[key] == GroupOf(m.listeners, key) && byPort[key] != []
    ensures ArePortConfigs(m, keys, groups)
    ensures listeners == ListenersOf(groups) && configs == ConfigsOf(groups)
    ensures Gathered(clusters, dir) && clusters.Keys == ServicesOf(groups) && weighted == WeightedOf(groups)
  {
    listeners, configs, clusters, weighted, groups := [], [], map[], map[], [];
    for k := 0 to |keys|
      invariant |groups| == k && forall j :: 0 <= j < k ==> IsPortConfig(m, keys[j], groups[j])
      invariant listeners == ListenersOf(groups) && configs == ConfigsOf(groups)
      invariant Gathered(clusters, dir) && clusters.Keys == ServicesOf(groups) && weighted == WeightedOf(groups)
    {
      assert keys[k] in keys;
      var listener, more;
      ghost var g;
      listener, more, clusters, weighted, g := TranslatePort(m, keys[k], byPort[keys[k]], clusters, weighted, dir);
      assert (groups + [g])[..|groups|] == groups;
      groups := groups + [g];
      configs := configs + more;
      if listener.Some? {
        listeners := listeners + [listener.value];
      }
    }
  }

  lemma PortKeyLeqIsTotalOrder()
    ensures TotalPreorder(PortKeyLeq)
    ensures forall a, b :: PortKeyLeq(a, b) && PortKeyLeq(b, a) ==> a == b
  {
  }

  lemma {:induction false} WeightedNamed(groups: seq<PortConfig>)
    ensures forall n :: n in WeightedOf(groups) ==> WeightedOf(groups)[n].name == n
  {
    if groups != [] { WeightedNamed(groups[..|groups| - 1]); }
  }

  method TranslateGateway(m: Model, refs: References, ghost dir: map<string, Cluster>)
    returns (r: Resources, ghost keys: seq<PortKey>, ghost groups: seq<PortConfig>, ghost wn: seq<string>, ghost sn: seq<string>)
    requires Translatable(m, dir)
    ensures Translates(m, refs, dir, r, keys, groups, wn, sn)
    ensures exists ks, gs, w, s :: Translates(m, refs, dir, r, ks, gs, w, s)
  {
    var byPort := GroupByPort(m.listeners);
    var collected := Collect(byPort.Keys);
    PortKeyLeqIsTotalOrder();
    var ports := SortStable(collected, PortKeyLeq);
    PermutationFacts(collected, ports);
    keys := ports;

    var listeners, configs, clusters, weighted;
    listeners, configs, clusters, weighted, groups := TranslatePorts(m, ports, byPort, dir);
    WeightedNamed(groups);
    var emitted, endpoints;
    emitted, endpoints, wn, sn := EmitClusters(weighted, clusters, refs);
    r := Resources(listeners, configs, emitted, endpoints);
    assert Translates(m, refs, dir, r, keys, groups, wn, sn);
  }
}
