/** What holds of every translation: each port is bound once, every name referred
    to exists and no other does, and the order of the routes does not matter. */
module Snapshot {
  import opened Text
  import opened Sorting
  import opened Hostnames
  import opened GatewayModel
  import opened Attachment
  import opened Backends
  import opened RouteActions
  import opened Owners
  import opened RouteConfig
  import opened Precedence
  import opened Layer4
  import opened TlsMeaning
  import opened Streams
  import opened Endpoints
  import opened Ports
  import opened Validation
  import opened Translate
  import E = Envoy

  // ---- ports are bound once ----

  /** The container port and transport an Envoy listener binds. */
  function BindOf(l: E.Listener): PortKey {
    PortKey(l.port, l.DatagramListener?)
  }

  function Binds(ls: seq<E.Listener>): seq<PortKey> {
    seq(|ls|, k requires 0 <= k < |ls| => BindOf(ls[k]))
  }

  function ContainerKey(key: PortKey): PortKey {
    PortKey(ContainerPort(key.port), key.udp)
  }

  lemma PortConfigBinds(m: Model, key: PortKey, g: PortConfig)
    requires IsPortConfig(m, key, g) && g.listener.Some?
    ensures BindOf(g.listener.value) == ContainerKey(key)
  {
    GroupMembers(m.listeners, key);
    var i := GroupOf(m.listeners, key)[0];
    assert i in GroupOf(m.listeners, key);
  }

  lemma KeysBindApart(m: Model, a: PortKey, b: PortKey)
    requires Sound(m.listeners) && GroupOf(m.listeners, a) != [] && GroupOf(m.listeners, b) != []
    ensures ContainerKey(a) == ContainerKey(b) ==> a == b
    ensures ContainerKey(a).port !in {ENVOY_ADMIN_PORT, ENVOY_READINESS_PORT}
  {
    GroupMembers(m.listeners, a);
    GroupMembers(m.listeners, b);
    var i, j := GroupOf(m.listeners, a)[0], GroupOf(m.listeners, b)[0];
    assert i in GroupOf(m.listeners, a) && j in GroupOf(m.listeners, b);
    ContainerPortsDistinct(m.listeners, i, j);
  }

  ghost predicate Grouped(m: Model, keys: seq<PortKey>, groups: seq<PortConfig>) {
    Distinct(keys) && ArePortConfigs(m, keys, groups) && forall k :: 0 <= k < |keys| ==> GroupOf(m.listeners, keys[k]) != []
  }

  /** No two Envoy listeners bind one container port and transport, and none a
      port of Envoy's own. */
  lemma {:induction false} BoundOnce(m: Model, keys: seq<PortKey>, groups: seq<PortConfig>)
    requires Sound(m.listeners) && Grouped(m, keys, groups)
    ensures Distinct(Binds(ListenersOf(groups)))
    ensures forall b :: b in Binds(ListenersOf(groups)) ==>
              b.port !in {ENVOY_ADMIN_PORT, ENVOY_READINESS_PORT} && exists k :: 0 <= k < |keys| && b == ContainerKey(keys[k])
  {
    if groups != [] {
      var n := |groups| - 1;
      BoundOnce(m, keys[..n], groups[..n]);
      var before := ListenersOf(groups[..n]);
      forall k | 0 <= k < n ensures ContainerKey(keys[k]) != ContainerKey(keys[n]) {
        KeysBindApart(m, keys[k], keys[n]);
      }
      KeysBindApart(m, keys[n], keys[n]);
      forall b | b in Binds(before) ensures exists k :: 0 <= k < n && b == ContainerKey(keys[k]) {
        var k :| 0 <= k < |keys[..n]| && b == ContainerKey(keys[..n][k]);
        assert keys[..n][k] == keys[k];
      }
      if groups[n].listener.Some? {
        PortConfigBinds(m, keys[n], groups[n]);
        assert Binds(ListenersOf(groups)) == Binds(before) + [ContainerKey(keys[n])];
      } else {
        assert ListenersOf(groups) == before;
      }
    }
  }

  /** The one listener, at index k, that binds a container port and transport. */
  ghost predicate BoundAt(ls: seq<E.Listener>, key: PortKey, k: nat) {
    k < |ls| && BindOf(ls[k]) == key && forall j :: 0 <= j < |ls| && BindOf(ls[j]) == key ==> j == k
  }

  /** A valid HTTP listener's port is served by exactly one Envoy listener. */
  lemma HttpPortServed(m: Model, refs: References, dir: map<string, Cluster>, r: Resources,
                       keys: seq<PortKey>, groups: seq<PortConfig>, wn: seq<string>, sn: seq<string>, i: nat)
    requires Sound(m.listeners) && Translates(m, refs, dir, r, keys, groups, wn, sn)
    requires i < |m.listeners| && m.listeners[i].valid && m.listeners[i].spec.protocol == HTTP
    ensures exists k: nat :: BoundAt(r.listeners, PortKey(ContainerPort(m.listeners[i].spec.port), false), k) &&
                        r.listeners[k] == HttpListenerOf(m.listeners[i].spec.port)
  {
    var port := m.listeners[i].spec.port;
    HttpPortEmitted(m, keys, groups, i);
    forall j | 0 <= j < |keys| ensures GroupOf(m.listeners, keys[j]) != [] {
      assert keys[j] in keys;
    }
    BoundOnce(m, keys, groups);
    var k :| 0 <= k < |r.listeners| && r.listeners[k] == HttpListenerOf(port);
    BindsUnique(r.listeners, k);
  }

  lemma BindsUnique(ls: seq<E.Listener>, k: nat)
    requires Distinct(Binds(ls)) && k < |ls|
    ensures BoundAt(ls, BindOf(ls[k]), k)
  {
    forall j | 0 <= j < |ls| && BindOf(ls[j]) == BindOf(ls[k]) ensures j == k {
      assert Binds(ls)[j] == Binds(ls)[k];
    }
  }

  lemma HttpPortEmitted(m: Model, keys: seq<PortKey>, groups: seq<PortConfig>, i: nat)
    requires Sound(m.listeners) && PortKeys(m, keys) && ArePortConfigs(m, keys, groups)
    requires i < |m.listeners| && m.listeners[i].valid && m.listeners[i].spec.protocol == HTTP
    ensures HttpListenerOf(m.listeners[i].spec.port) in ListenersOf(groups)
  {
    var key := PortKeyOf(m.listeners[i]);
    GroupMembers(m.listeners, key);
    assert i in GroupOf(m.listeners, key);
    assert key in keys;
    var k :| 0 <= k < |keys| && keys[k] == key;
    var first := GroupOf(m.listeners, key)[0];
    assert first in GroupOf(m.listeners, key);
    PortGroups(m.listeners, i, first);
    assert IsPortConfig(m, keys[k], groups[k]);
    ListenerOfGroup(groups, k);
  }

  lemma {:induction false} ListenerOfGroup(groups: seq<PortConfig>, k: nat)
    requires k < |groups| && groups[k].listener.Some?
    ensures groups[k].listener.value in ListenersOf(groups)
  {
    var n := |groups| - 1;
    if k < n {
      ListenerOfGroup(groups[..n], k);
    }
  }

  // ---- route configurations are referred to ----

  /** The names of the route configurations a listener asks for. */
  function RdsOfChains(chains: seq<E.FilterChain>): set<string> {
    set c | c in chains && c.filter.HttpConnectionManager? :: c.filter.rds
  }

  function RdsOf(ls: seq<E.Listener>): set<string> {
    set l, n | l in ls && l.StreamListener? && n in RdsOfChains(l.chains) :: n
  }

  function ConfigNames(configs: seq<E.RouteConfiguration>): seq<string> {
    seq(|configs|, k requires 0 <= k < |configs| => configs[k].name)
  }

  ghost predicate NameOfPort(name: string, port: nat) {
    name == HttpName(port) || exists listener :: name == HttpsRouteName(port, listener)
  }

  lemma HttpsRouteNameInjective(p: nat, a: string, q: nat, b: string)
    requires HttpsRouteName(p, a) == HttpsRouteName(q, b)
    ensures p == q && a == b
  {
    assert HttpsRouteName(p, a)[6..] == Decimal(p) + ['-'] + a && HttpsRouteName(q, b)[6..] == Decimal(q) + ['-'] + b;
    SeparatorSplits('-', Decimal(p), a, Decimal(q), b);
    DecimalInjective(p, q);
  }

  lemma NameTellsPort(name: string, p: nat, q: nat)
    requires NameOfPort(name, p) && NameOfPort(name, q)
    ensures p == q
  {
    assert forall l: string, n: nat :: HttpsRouteName(n, l)[4] == 's';
    assert HttpName(p)[4] == '-' && HttpName(q)[4] == '-';
    if name == HttpName(p) {
      assert HttpName(p)[5..] == Decimal(p) && HttpName(q)[5..] == Decimal(q);
      DecimalInjective(p, q);
    } else {
      var a :| name == HttpsRouteName(p, a);
      var b :| name == HttpsRouteName(q, b);
      HttpsRouteNameInjective(p, a, q, b);
    }
  }

  ghost predicate DistinctListenerNames(m: Model) {
    forall i, j :: 0 <= i < |m.listeners| && 0 <= j < |m.listeners| && m.listeners[i].spec.name == m.listeners[j].spec.name ==> i == j
  }

  function ListenerAsSeq(l: Option<E.Listener>): seq<E.Listener> {
    if l.Some? then [l.value] else []
  }

  /** One port refers to its own route configurations, each once. */
  lemma PortRds(m: Model, key: PortKey, g: PortConfig)
    requires IsPortConfig(m, key, g) && DistinctListenerNames(m)
    ensures forall n :: n in ConfigNames(g.configs) <==> n in RdsOf(ListenerAsSeq(g.listener))
    ensures Distinct(ConfigNames(g.configs))
    ensures forall n :: n in ConfigNames(g.configs) ==> NameOfPort(n, key.port) && !key.udp
  {
    GroupMembers(m.listeners, key);
    var indexes := GroupOf(m.listeners, key);
    assert indexes[0] in indexes;
    match m.listeners[indexes[0]].spec.protocol {
      case HTTP =>
        HttpRds(key.port, g);
      case HTTPS =>
        HttpsRds(m, key.port, indexes, g);
      case TLS =>
        var chains :| AreTlsChains(m, indexes, chains) &&
          g == PortConfig(if chains == [] then None else Some(E.StreamListener(TlsName(key.port), ContainerPort(key.port), chains)),
                          [], ChainsClusters(chains), None);
        forall c | c in chains ensures c.filter.TcpProxy? {
          assert IsTlsChain(m, indexes, c);
        }
      case _ =>
    }
  }

  lemma HttpRds(port: nat, g: PortConfig)
    requires |g.configs| == 1 && g.configs[0].name == HttpName(port) && g.listener == Some(HttpListenerOf(port))
    ensures forall n :: n in ConfigNames(g.configs) <==> n in RdsOf(ListenerAsSeq(g.listener))
    ensures forall n :: n in ConfigNames(g.configs) ==> n == HttpName(port)
  {
    var chain := HttpListenerOf(port).chains[0];
    assert chain in HttpListenerOf(port).chains && chain.filter.rds == HttpName(port);
    assert RdsOfChains(HttpListenerOf(port).chains) == {HttpName(port)};
    assert HttpListenerOf(port) in ListenerAsSeq(g.listener);
    assert ConfigNames(g.configs) == [HttpName(port)];
  }

  lemma RdsOfNames(names: seq<string>, chains: seq<E.FilterChain>)
    requires |names| == |chains| && forall k :: 0 <= k < |names| ==> chains[k].filter == E.HttpConnectionManager(names[k])
    ensures forall n :: n in names <==> n in RdsOfChains(chains)
  {
    forall n ensures n in names <==> n in RdsOfChains(chains) {
      if n in RdsOfChains(chains) {
        var c :| c in chains && c.filter.HttpConnectionManager? && c.filter.rds == n;
        var k :| 0 <= k < |chains| && chains[k] == c;
        assert names[k] == n;
      }
      if n in names {
        var k :| 0 <= k < |names| && names[k] == n;
        assert chains[k] in chains;
      }
    }
  }

  lemma HttpsNames(m: Model, port: nat, indexes: seq<nat>, configs: seq<E.RouteConfiguration>)
    requires AreHttpsConfigs(m, port, indexes, configs) && DistinctListenerNames(m) && Distinct(indexes)
    ensures forall k :: 0 <= k < |indexes| ==>
      indexes[k] < |m.listeners| && ConfigNames(configs)[k] == HttpsRouteName(port, m.listeners[indexes[k]].spec.name)
    ensures Distinct(ConfigNames(configs))
  {
    var names := ConfigNames(configs);
    forall k | 0 <= k < |indexes|
      ensures indexes[k] < |m.listeners| && names[k] == HttpsRouteName(port, m.listeners[indexes[k]].spec.name)
    {
      assert configs[k] in HttpsConfigsOf(m, port, indexes[k]);
    }
    forall j, k | 0 <= j < k < |names| ensures names[j] != names[k] {
      if names[j] == names[k] {
        HttpsRouteNameInjective(port, m.listeners[indexes[j]].spec.name, port, m.listeners[indexes[k]].spec.name);
      }
    }
  }

  lemma HttpsRds(m: Model, port: nat, indexes: seq<nat>, g: PortConfig)
    requires IsHttpsPort(m, port, indexes, g) && DistinctListenerNames(m) && Distinct(indexes)
    ensures forall n :: n in ConfigNames(g.configs) <==> n in RdsOf(ListenerAsSeq(g.listener))
    ensures Distinct(ConfigNames(g.configs))
    ensures forall n :: n in ConfigNames(g.configs) ==> NameOfPort(n, port)
  {
    var chains :| AreHttpsChains(m, port, indexes, chains) &&
      g == PortConfig(Some(E.StreamListener(HttpsName(port), ContainerPort(port), chains)), g.configs, AllConfigClusters(g.configs), None);
    HttpsNames(m, port, indexes, g.configs);
    RdsOfNames(ConfigNames(g.configs), chains);
    SingleRds(g.listener.value);
  }

  lemma SingleRds(l: E.Listener)
    requires l.StreamListener?
    ensures RdsOf([l]) == RdsOfChains(l.chains)
  {
    assert l in [l];
  }

  lemma ConfigNamesSplit(groups: seq<PortConfig>)
    requires groups != []
    ensures var n := |groups| - 1;
            ConfigNames(ConfigsOf(groups)) == ConfigNames(ConfigsOf(groups[..n])) + ConfigNames(groups[n].configs)
  {
    var n := |groups| - 1;
    ConfigNamesConcat(ConfigsOf(groups[..n]), groups[n].configs);
  }

  lemma ConfigNamesConcat(a: seq<E.RouteConfiguration>, b: seq<E.RouteConfiguration>)
    ensures ConfigNames(a + b) == ConfigNames(a) + ConfigNames(b)
  {
  }

  lemma NamesOfOtherPort(m: Model, other: PortKey, g: PortConfig, key: PortKey, name: string)
    requires DistinctListenerNames(m) && IsPortConfig(m, other, g)
    requires other != key && !key.udp && NameOfPort(name, key.port)
    ensures name !in ConfigNames(g.configs)
  {
    PortRds(m, other, g);
    if name in ConfigNames(g.configs) { NameTellsPort(name, key.port, other.port); }
  }

  /** The names of a port's configurations belong to no other port. */
  lemma {:induction false} NamesOfPorts(m: Model, keys: seq<PortKey>, groups: seq<PortConfig>, key: PortKey, name: string)
    requires DistinctListenerNames(m) && ArePortConfigs(m, keys, groups)
    requires key !in keys && !key.udp && NameOfPort(name, key.port)
    ensures name !in ConfigNames(ConfigsOf(groups))
  {
    if groups != [] {
      var n := |groups| - 1;
      NamesOfPorts(m, keys[..n], groups[..n], key, name);
      assert keys[n] in keys;
      NamesOfOtherPort(m, keys[n], groups[n], key, name);
      ConfigNamesSplit(groups);
    }
  }

  /** Every route configuration a listener asks for exists once, and there is no other. */
  lemma {:induction false} RdsClosed(m: Model, keys: seq<PortKey>, groups: seq<PortConfig>)
    requires DistinctListenerNames(m) && Distinct(keys) && ArePortConfigs(m, keys, groups)
    ensures forall n :: n in ConfigNames(ConfigsOf(groups)) <==> n in RdsOf(ListenersOf(groups))
    ensures Distinct(ConfigNames(ConfigsOf(groups)))
  {
    if groups != [] {
      var n := |groups| - 1;
      RdsClosed(m, keys[..n], groups[..n]);
      PortRds(m, keys[n], groups[n]);
      var before, more := ConfigNames(ConfigsOf(groups[..n])), ConfigNames(groups[n].configs);
      ConfigNamesSplit(groups);
      forall b | b in more ensures b !in before {
        NamesOfPorts(m, keys[..n], groups[..n], keys[n], b);
      }
      DistinctConcat(before, more);
      RdsConcat(ListenersOf(groups[..n]), ListenerAsSeq(groups[n].listener));
    }
  }

  lemma DistinctConcat<T>(a: seq<T>, b: seq<T>)
    requires Distinct(a) && Distinct(b) && forall x, y :: x in a && y in b ==> x != y
    ensures Distinct(a + b)
  {
    var c := a + b;
    forall i, j | 0 <= i < j < |c| ensures c[i] != c[j] {
      assert i < |a| <= j ==> a[i] in a && b[j - |a|] in b;
    }
  }

  lemma RdsConcat(a: seq<E.Listener>, b: seq<E.Listener>)
    ensures RdsOf(a + b) == RdsOf(a) + RdsOf(b)
  {
    forall n ensures n in RdsOf(a + b) <==> n in RdsOf(a) + RdsOf(b) {
      if n in RdsOf(a) {
        var l :| l in a && l.StreamListener? && n in RdsOfChains(l.chains);
        assert l in a + b;
      }
      if n in RdsOf(b) {
        var l :| l in b && l.StreamListener? && n in RdsOfChains(l.chains);
        assert l in a + b;
      }
    }
  }

  // ---- clusters are referred to ----

  /** The clusters a listener refers to that have to exist. */
  function ListenerRefs(l: E.Listener): set<string> {
    match l
    case StreamListener(_, _, chains) => ChainsClusters(chains)
    case DatagramListener(_, _, cluster) => {cluster} - {INVALID_CLUSTER}
  }

  function ListenersRefs(ls: seq<E.Listener>): set<string> {
    set l, n | l in ls && n in ListenerRefs(l) :: n
  }

  ghost function Referred(r: Resources): set<string> {
    ListenersRefs(r.listeners) + AllConfigClusters(r.configs)
  }

  function ClusterNames(cs: seq<E.Cluster>): seq<string> {
    seq(|cs|, k requires 0 <= k < |cs| => cs[k].name)
  }

  function WeightedNames(w: Option<WeightedCluster>): set<string> {
    if w.Some? then {w.value.name} else {}
  }

  /** One port refers to the Service clusters and the weighted cluster it gathered. */
  lemma PortRefs(m: Model, dir: map<string, Cluster>, key: PortKey, g: PortConfig)
    requires IsPortConfig(m, key, g) && Directory(dir) && ListedModel(m, dir)
    ensures ListenersRefs(ListenerAsSeq(g.listener)) + AllConfigClusters(g.configs) == g.services + WeightedNames(g.weighted)
  {
    var indexes := GroupOf(m.listeners, key);
    match m.listeners[indexes[0]].spec.protocol {
      case HTTP =>
        HttpChainsRefer(HttpListenerOf(key.port).chains);
        SingleListenerRefs(HttpListenerOf(key.port));
      case HTTPS =>
        var chains :| AreHttpsChains(m, key.port, indexes, chains) &&
          g == PortConfig(Some(E.StreamListener(HttpsName(key.port), ContainerPort(key.port), chains)),
                          g.configs, AllConfigClusters(g.configs), None);
        HttpChainsRefer(chains);
        SingleListenerRefs(g.listener.value);
      case TLS =>
        var chains :| AreTlsChains(m, indexes, chains) &&
          g == PortConfig(if chains == [] then None else Some(E.StreamListener(TlsName(key.port), ContainerPort(key.port), chains)),
                          [], ChainsClusters(chains), None);
        if chains != [] { SingleListenerRefs(g.listener.value); }
      case TCP =>
        var r :| OldestOrNone(m, indexes[0], r) && g == TcpConfig(key.port, r);
        if r.Some? {
          SingleListenerRefs(g.listener.value);
          TcpRefs(TcpName(key.port), key.port, r.value);
        }
      case UDP =>
        var r :| OldestOrNone(m, indexes[0], r) && g == UdpConfig(key.port, r);
        if r.Some? {
          SingleListenerRefs(g.listener.value);
          UdpRefs(m, dir, r.value);
        }
      case OtherProtocol(_) =>
    }
  }

  lemma SingleListenerRefs(l: E.Listener)
    ensures ListenersRefs([l]) == ListenerRefs(l)
  {
    assert l in [l];
  }

  lemma HttpChainsRefer(chains: seq<E.FilterChain>)
    requires forall c :: c in chains ==> c.filter.HttpConnectionManager?
    ensures ChainsClusters(chains) == {}
  {
  }

  lemma TcpRefs(name: string, port: nat, r: AttachedRoute)
    ensures ListenerRefs(TcpListenerOf(name, port, r)) == SpecifierNames(TcpTarget(BackendsOf(r))) - {INVALID_CLUSTER}
  {
    var chains := TcpListenerOf(name, port, r).chains;
    ChainsGrow([], chains[0]);
    assert [] + [chains[0]] == chains;
  }

  lemma UdpRefs(m: Model, dir: map<string, Cluster>, r: AttachedRoute)
    requires r in m.routes && Directory(dir) && ListedModel(m, dir)
    ensures {UdpTarget(r)} - {INVALID_CLUSTER} == UdpService(r) + WeightedNames(UdpWeighted(r))
  {
    var backends := Positive(BackendsOf(r));
    WeightedNameValid(r.route.key);
    BackendsListed(m, r, dir);
    if |backends| == 1 {
      PositiveMembers(BackendsOf(r));
      assert backends[0] in backends;
    }
  }

  lemma {:induction false} PositiveMembers(backends: seq<Backend>)
    ensures forall b :: b in Positive(backends) ==> b in backends
  {
    if backends != [] { PositiveMembers(backends[..|backends| - 1]); }
  }

  lemma RefsConcat(a: seq<E.Listener>, b: seq<E.Listener>)
    ensures ListenersRefs(a + b) == ListenersRefs(a) + ListenersRefs(b)
  {
    forall n | n in ListenersRefs(a) + ListenersRefs(b) ensures n in ListenersRefs(a + b) {
      if n in ListenersRefs(a) {
        var l :| l in a && n in ListenerRefs(l);
        assert l in a + b;
      } else {
        var l :| l in b && n in ListenerRefs(l);
        assert l in a + b;
      }
    }
  }

  lemma ConfigsConcat(a: seq<E.RouteConfiguration>, b: seq<E.RouteConfiguration>)
    ensures AllConfigClusters(a + b) == AllConfigClusters(a) + AllConfigClusters(b)
  {
    forall n | n in AllConfigClusters(a) + AllConfigClusters(b) ensures n in AllConfigClusters(a + b) {
      if n in AllConfigClusters(a) {
        var c :| c in a && n in ConfigClusters(c.virtualHosts);
        assert c in a + b;
      } else {
        var c :| c in b && n in ConfigClusters(c.virtualHosts);
        assert c in a + b;
      }
    }
  }

  lemma {:induction false} GroupsRefs(m: Model, dir: map<string, Cluster>, keys: seq<PortKey>, groups: seq<PortConfig>)
    requires ArePortConfigs(m, keys, groups) && Directory(dir) && ListedModel(m, dir)
    ensures ListenersRefs(ListenersOf(groups)) + AllConfigClusters(ConfigsOf(groups)) == ServicesOf(groups) + WeightedOf(groups).Keys
  {
    if groups != [] {
      var n := |groups| - 1;
      GroupsRefs(m, dir, keys[..n], groups[..n]);
      PortRefs(m, dir, keys[n], groups[n]);
      LastGroupRefs(groups, n);
    }
  }

  lemma LastGroupRefs(groups: seq<PortConfig>, n: nat)
    requires |groups| == n + 1
    ensures ListenersRefs(ListenersOf(groups)) == ListenersRefs(ListenersOf(groups[..n])) + ListenersRefs(ListenerAsSeq(groups[n].listener))
    ensures AllConfigClusters(ConfigsOf(groups)) == AllConfigClusters(ConfigsOf(groups[..n])) + AllConfigClusters(groups[n].configs)
    ensures WeightedOf(groups).Keys == WeightedOf(groups[..n]).Keys + WeightedNames(groups[n].weighted)
    ensures ServicesOf(groups) == ServicesOf(groups[..n]) + groups[n].services
  {
    RefsConcat(ListenersOf(groups[..n]), ListenerAsSeq(groups[n].listener));
    ConfigsConcat(ConfigsOf(groups[..n]), groups[n].configs);
    assert ListenersOf(groups) == ListenersOf(groups[..n]) + ListenerAsSeq(groups[n].listener);
  }

  /** The clusters are exactly those referred to, each with its assignment; none
      has the invalid name; and each exists once exactly when no weighted cluster
      has the name of a Service's. */
  lemma ClustersClosed(m: Model, refs: References, dir: map<string, Cluster>, r: Resources,
                       keys: seq<PortKey>, groups: seq<PortConfig>, wn: seq<string>, sn: seq<string>)
    requires Directory(dir) && ListedModel(m, dir) && Translates(m, refs, dir, r, keys, groups, wn, sn)
    ensures forall n :: n in ClusterNames(r.clusters) <==> n in Referred(r)
    ensures |r.endpoints| == |r.clusters| && forall k :: 0 <= k < |r.clusters| ==> r.endpoints[k].cluster == r.clusters[k].name
    ensures INVALID_CLUSTER !in ClusterNames(r.clusters)
    ensures Distinct(ClusterNames(r.clusters)) <==> WeightedOf(groups).Keys !! ServicesOf(groups)
  {
    GroupsRefs(m, dir, keys, groups);
    var names := ClusterNames(r.clusters);
    WeightedNamed(groups);
    forall k | 0 <= k < |names| ensures names[k] == (wn + sn)[k] && r.endpoints[k].cluster == names[k] {
      if k < |wn| {
        assert WeightedEmitted(WeightedOf(groups), refs, wn[k], r.clusters[k], r.endpoints[k]);
      } else {
        assert ServiceEmitted(dir, refs, sn[k - |wn|], r.clusters[k], r.endpoints[k]);
      }
    }
    assert names == wn + sn;
    ReferencesValid(r);
    if WeightedOf(groups).Keys !! ServicesOf(groups) {
      DistinctConcat(wn, sn);
    } else {
      var n :| n in WeightedOf(groups).Keys && n in ServicesOf(groups);
      var i :| 0 <= i < |wn| && wn[i] == n;
      var j :| 0 <= j < |sn| && sn[j] == n;
      assert names[i] == names[|wn| + j];
    }
  }

  lemma ReferencesValid(r: Resources)
    ensures INVALID_CLUSTER !in Referred(r)
  {
  }

  // ---- the order of the routes does not matter ----

  lemma SameAttachment(m: Model, n: Model)
    requires SameRoutes(m, n)
    ensures forall i, r :: OnListener(m, i, r) <==> OnListener(n, i, r)
  {
    forall i, h, r ensures OnHost(m, i, h, r) <==> OnHost(n, i, h, r) {
    }
    forall i, r ensures OnListener(m, i, r) <==> OnListener(n, i, r) {
      if h :| OnHost(m, i, h, r) { assert OnHost(n, i, h, r); }
      if h :| OnHost(n, i, h, r) { assert OnHost(m, i, h, r); }
    }
  }

  lemma SameOldest(m: Model, n: Model, i: nat, r: Option<AttachedRoute>, s: Option<AttachedRoute>)
    requires SameRoutes(m, n) && TwinFree(m, i) && OldestOrNone(m, i, r) && OldestOrNone(n, i, s)
    ensures r == s
  {
    SameAttachment(m, n);
    if r.Some? && s.Some? {
      OldestOnListenerUnique(m, i, r.value, s.value);
    }
  }

  /** On the port both lists put the entries that count and tie the same way round, and no
      two routes one of which must be the oldest are equally old. */
  ghost predicate SameOnPort(m: Model, n: Model, key: PortKey) {
    var indexes := GroupOf(m.listeners, key);
    indexes != [] && indexes[0] < |m.listeners| ==>
      match m.listeners[indexes[0]].spec.protocol
      case HTTP => SameTwinOrder(m, n, indexes)
      case HTTPS => forall i :: i in indexes ==> SameTwinOrder(m, n, [i])
      case _ => forall i :: i in indexes ==> TwinFree(m, i)
  }

  ghost predicate Comparable(m: Model, n: Model, dir: map<string, Cluster>) {
    Translatable(m, dir) && ValidNames(m) && SameRoutes(m, n) && forall key :: SameOnPort(m, n, key)
  }

  lemma SameWellAttached(m: Model, n: Model)
    requires WellAttached(m) && SameRoutes(m, n)
    ensures WellAttached(n)
  {
  }

  lemma SamePort(m: Model, n: Model, dir: map<string, Cluster>, key: PortKey, g: PortConfig, h: PortConfig)
    requires Comparable(m, n, dir) && IsPortConfig(m, key, g) && IsPortConfig(n, key, h)
    ensures g == h
  {
    GroupIsHostful(m, key);
    SameWellAttached(m, n);
    var indexes := GroupOf(m.listeners, key);
    assert indexes[0] in indexes && SameOnPort(m, n, key);
    match m.listeners[indexes[0]].spec.protocol {
      case HTTP =>
        RelistingSeen(m, n, indexes, g.configs[0], h.configs[0]);
        assert g.configs == [g.configs[0]] && h.configs == [h.configs[0]];
      case HTTPS =>
        SameHttpsPort(m, n, key.port, indexes, g, h);
      case TLS =>
        SameTlsPort(m, n, key.port, indexes, g, h);
      case TCP =>
        var r :| OldestOrNone(m, indexes[0], r) && g == TcpConfig(key.port, r);
        var s :| OldestOrNone(n, indexes[0], s) && h == TcpConfig(key.port, s);
        SameOldest(m, n, indexes[0], r, s);
      case UDP =>
        var r :| OldestOrNone(m, indexes[0], r) && g == UdpConfig(key.port, r);
        var s :| OldestOrNone(n, indexes[0], s) && h == UdpConfig(key.port, s);
        SameOldest(m, n, indexes[0], r, s);
      case OtherProtocol(_) =>
    }
  }

  lemma SameTlsPort(m: Model, n: Model, port: nat, indexes: seq<nat>, g: PortConfig, h: PortConfig)
    requires DistinctHosts(m, indexes) && (forall i :: i in indexes ==> TwinFree(m, i)) && SameRoutes(m, n)
    requires IsTlsPort(m, port, indexes, g) && IsTlsPort(n, port, indexes, h)
    ensures g == h
  {
    var cs :| AreTlsChains(m, indexes, cs) &&
      g == PortConfig(if cs == [] then None else Some(E.StreamListener(TlsName(port), ContainerPort(port), cs)), [], ChainsClusters(cs), None);
    var ds :| AreTlsChains(n, indexes, ds) &&
      h == PortConfig(if ds == [] then None else Some(E.StreamListener(TlsName(port), ContainerPort(port), ds)), [], ChainsClusters(ds), None);
    SameTlsChains(m, n, indexes, cs, ds);
  }

  lemma SameHttpsPort(m: Model, n: Model, port: nat, indexes: seq<nat>, g: PortConfig, h: PortConfig)
    requires WellAttached(m) && WellAttached(n) && Hostful(m, indexes) && ValidNames(m) && SameRoutes(m, n)
    requires forall i :: i in indexes ==> SameTwinOrder(m, n, [i])
    requires IsHttpsPort(m, port, indexes, g) && IsHttpsPort(n, port, indexes, h)
    ensures g == h
  {
    forall k | 0 <= k < |indexes| ensures g.configs[k] == h.configs[k] {
      assert indexes[k] in indexes;
      assert Hostful(m, [indexes[k]]) && DistinctHosts(m, [indexes[k]]);
      assert g.configs[k] in HttpsConfigsOf(m, port, indexes[k]) && h.configs[k] in HttpsConfigsOf(n, port, indexes[k]);
      RelistingSeen(m, n, [indexes[k]], g.configs[k], h.configs[k]);
    }
    assert g.configs == h.configs;
    var cs :| AreHttpsChains(m, port, indexes, cs) &&
      g == PortConfig(Some(E.StreamListener(HttpsName(port), ContainerPort(port), cs)), g.configs, AllConfigClusters(g.configs), None);
    var ds :| AreHttpsChains(n, port, indexes, ds) &&
      h == PortConfig(Some(E.StreamListener(HttpsName(port), ContainerPort(port), ds)), h.configs, AllConfigClusters(h.configs), None);
    assert cs == ds;
  }

  /** Listing the routes in another order, whatever order maps are walked in,
      gives the same listeners, route configurations, clusters and endpoints. */
  lemma SameSnapshot(m: Model, n: Model, refs: References, dir: map<string, Cluster>,
                     r: Resources, keys: seq<PortKey>, groups: seq<PortConfig>, wn: seq<string>, sn: seq<string>,
                     r': Resources, keys': seq<PortKey>, groups': seq<PortConfig>, wn': seq<string>, sn': seq<string>)
    requires Comparable(m, n, dir)
    requires Translates(m, refs, dir, r, keys, groups, wn, sn)
    requires Translates(n, refs, dir, r', keys', groups', wn', sn')
    ensures r == r'
  {
    PortKeyLeqIsTotalOrder();
    OrderedUnique(keys, keys', PortKeyLeq);
    forall k | 0 <= k < |keys| ensures groups[k] == groups'[k] {
      SamePort(m, n, dir, keys[k], groups[k], groups'[k]);
    }
    assert groups == groups';
    StringLeqIsTotalOrder();
    OrderedUnique(wn, wn', StringLeq);
    OrderedUnique(sn, sn', StringLeq);
    SameClusters(WeightedOf(groups), dir, refs, wn, sn, r.clusters, r.endpoints, r'.clusters, r'.endpoints);
  }

  lemma SameClusters(weighted: map<string, WeightedCluster>, dir: map<string, Cluster>, refs: References, wn: seq<string>, sn: seq<string>,
                     c: seq<E.Cluster>, a: seq<E.Assignment>, d: seq<E.Cluster>, b: seq<E.Assignment>)
    requires AreClusters(weighted, dir, refs, wn, sn, c, a) && AreClusters(weighted, dir, refs, wn, sn, d, b)
    ensures c == d && a == b
  {
    forall k | 0 <= k < |c| ensures c[k] == d[k] && a[k] == b[k] {
      if k < |wn| {
        assert WeightedEmitted(weighted, refs, wn[k], c[k], a[k]) && WeightedEmitted(weighted, refs, wn[k], d[k], b[k]);
        SameWeighted(weighted[wn[k]], refs, a[k], b[k]);
      } else {
        var n := sn[k - |wn|];
        assert ServiceEmitted(dir, refs, n, c[k], a[k]) && ServiceEmitted(dir, refs, n, d[k], b[k]);
        var s := SlicesOf(dir[n], refs);
        EndpointsUnique(a[k].localities[0].endpoints, b[k].localities[0].endpoints, s, s, dir[n].port.name);
        assert a[k].localities == [a[k].localities[0]] && b[k].localities == [b[k].localities[0]];
      }
    }
  }

  lemma SameWeighted(w: WeightedCluster, refs: References, a: E.Assignment, b: E.Assignment)
    requires IsWeightedAssignment(w, refs, a) && IsWeightedAssignment(w, refs, b)
    ensures a == b
  {
    forall k | 0 <= k < |w.backends| ensures a.localities[k] == b.localities[k] {
      assert IsLocality(w.backends[k], refs, a.localities[k]) && IsLocality(w.backends[k], refs, b.localities[k]);
      if w.backends[k].cluster.Some? {
        var c := w.backends[k].cluster.value;
        var s := SlicesOf(c, refs);
        EndpointsUnique(a.localities[k].endpoints, b.localities[k].endpoints, s, s, c.port.name);
      }
    }
  }
}
