/** Which Services' clusters the ports of a Gateway send to, and which routes need a
    cluster of several backends: the names a snapshot holds, in terms of the routes. */
module ClusterUse {
  import opened Text
  import opened Sorting
  import opened Hostnames
  import opened GatewayModel
  import opened Attachment
  import opened Backends
  import opened RouteActions
  import opened Entries
  import opened Owners
  import opened RouteConfig
  import opened Layer4
  import opened Precedence
  import opened Streams
  import opened Ports
  import opened Validation
  import opened Translate
  import opened Snapshot
  import E = Envoy

  // ---- what one rule sends to ----

  /** Some backend that takes traffic is the cluster. */
  predicate Sends(backends: seq<Backend>, c: Cluster) {
    exists b :: b in backends && b.weight > 0 && b.cluster == Some(c)
  }

  predicate SendsTo(backends: seq<Backend>, n: string) {
    exists b :: b in backends && b.weight > 0 && b.cluster.Some? && b.cluster.value.name == n
  }

  /** The rule forwards requests, rather than redirecting or refusing them. */
  predicate Forwards(rule: Rule) {
    Unsupported !in rule.filters && LastRedirect(rule.filters).None?
  }

  lemma {:induction false} TargetsSendTo(backends: seq<Backend>, n: string)
    requires n != INVALID_CLUSTER
    ensures n in TargetNames(TargetsOf(backends)) <==> SendsTo(backends, n)
  {
    if backends != [] {
      var k := |backends| - 1;
      var before, b := backends[..k], backends[k];
      TargetsSendTo(before, n);
      assert SendsTo(backends, n) <==> SendsTo(before, n) || (b.weight > 0 && b.cluster.Some? && b.cluster.value.name == n) by {
        assert forall x :: x in backends <==> x in before || x == b by { assert backends == before + [b]; }
      }
      assert TargetNames(TargetsOf(backends)) == TargetNames(TargetsOf(before)) + if b.weight > 0 then {TargetName(b)} else {};
    }
  }

  lemma TcpSendsTo(backends: seq<Backend>, n: string)
    ensures n in SpecifierNames(TcpTarget(backends)) - {INVALID_CLUSTER} <==> n != INVALID_CLUSTER && SendsTo(backends, n)
  {
    if n != INVALID_CLUSTER {
      TargetsSendTo(backends, n);
      var targets := TargetsOf(backends);
      if |targets| == 1 { assert TargetNames(targets) == {targets[0].name}; }
    }
  }

  lemma ActionSendsTo(rule: Rule, match_: Match, backends: seq<Backend>, n: string)
    ensures n in ActionClusters(ActionOf(rule, match_, backends)) <==> Forwards(rule) && n != INVALID_CLUSTER && SendsTo(backends, n)
  {
    LastKinds(rule.filters);
    if n != INVALID_CLUSTER {
      TargetsSendTo(backends, n);
      var targets := TargetsOf(backends);
      if |targets| == 1 { assert TargetNames(targets) == {targets[0].name}; }
    }
  }

  lemma UdpSendsTo(r: AttachedRoute, n: string)
    ensures n in UdpService(r) <==> |Positive(BackendsOf(r))| == 1 && SendsTo(BackendsOf(r), n)
  {
    PositiveSends(BackendsOf(r), n);
    var backends := Positive(BackendsOf(r));
    if |backends| == 1 { assert backends == [backends[0]]; }
  }

  lemma {:induction false} PositiveSends(backends: seq<Backend>, n: string)
    ensures SendsTo(Positive(backends), n) <==> SendsTo(backends, n)
    ensures forall b :: b in Positive(backends) ==> b.weight > 0
  {
    if backends != [] {
      var k := |backends| - 1;
      PositiveSends(backends[..k], n);
      assert forall x :: x in backends <==> x in backends[..k] || x == backends[k] by { assert backends == backends[..k] + [backends[k]]; }
    }
  }

  // ---- what one port sends to ----

  /** An entry of some virtual host: of the listener that owns a host the entry covers
      and some entry is on. */
  ghost predicate Shown(m: Model, ls: seq<nat>, e: Entry) {
    exists f :: IsEntry(m, ls, f) && Owns(m, ls, f.host, e.listener) && Carried(m, ls, e.listener, f.host, e)
  }

  ghost predicate EntrySends(e: Entry, c: Cluster) {
    InRoute(e.route, e.rule, e.match_) && Forwards(e.route.route.rules[e.rule]) && Sends(e.route.backends[e.rule], c)
  }

  ghost predicate HttpUses(m: Model, ls: seq<nat>, c: Cluster) {
    exists e :: Shown(m, ls, e) && EntrySends(e, c)
  }

  /** The oldest route of a server name's owner there sends to the cluster. */
  ghost predicate TlsUses(m: Model, ls: seq<nat>, c: Cluster) {
    exists h, i, r :: Owns(m, ls, h, i) && OldestOn(m, i, h, r) && Sends(BackendsOf(r), c)
  }

  ghost predicate TcpUses(m: Model, i: nat, c: Cluster) {
    exists r :: OldestOnListener(m, i, r) && Sends(BackendsOf(r), c)
  }

  ghost predicate UdpUses(m: Model, i: nat, c: Cluster) {
    exists r :: OldestOnListener(m, i, r) && |Positive(BackendsOf(r))| == 1 && Sends(BackendsOf(r), c)
  }

  /** The port sends traffic to the Service's cluster. */
  ghost predicate Uses(m: Model, key: PortKey, c: Cluster) {
    var ls := GroupOf(m.listeners, key);
    ls != [] && ls[0] < |m.listeners| &&
    match m.listeners[ls[0]].spec.protocol
    case HTTP => HttpUses(m, ls, c)
    case HTTPS => exists i :: i in ls && HttpUses(m, [i], c)
    case TLS => TlsUses(m, ls, c)
    case TCP => TcpUses(m, ls[0], c)
    case UDP => UdpUses(m, ls[0], c)
    case OtherProtocol(_) => false
  }

  /** The port needs a cluster of several backends for the route: a UDP port whose
      oldest route it is, with two or more backends that take traffic. */
  ghost predicate Pools(m: Model, key: PortKey, r: AttachedRoute) {
    var ls := GroupOf(m.listeners, key);
    ls != [] && ls[0] < |m.listeners| && m.listeners[ls[0]].spec.protocol == UDP &&
    OldestOnListener(m, ls[0], r) && |Positive(BackendsOf(r))| > 1
  }

  ghost function UserPorts(m: Model, c: Cluster): iset<PortKey> {
    iset key | Uses(m, key, c)
  }

  /** The ports pooling a route whose cluster has the name. */
  ghost function PoolPorts(m: Model, n: string): iset<PortKey> {
    iset key, r | Pools(m, key, r) && WeightedName(r.route.key) == n :: key
  }

  // ---- the clusters of one port ----

  /** No two routes on a TLS, TCP or UDP listener are equally old. */
  ghost predicate StreamsUntied(m: Model) {
    forall i: nat :: i < |m.listeners| && m.listeners[i].spec.protocol in {TLS, TCP, UDP} ==> TwinFree(m, i)
  }

  lemma SendsListed(backends: seq<Backend>, dir: map<string, Cluster>, n: string)
    requires Directory(dir) && Listed(backends, dir)
    ensures n != INVALID_CLUSTER && SendsTo(backends, n) <==> n in dir && Sends(backends, dir[n])
  {
    if n in dir && Sends(backends, dir[n]) {
      var b :| b in backends && b.weight > 0 && b.cluster == Some(dir[n]);
      assert SendsTo(backends, n);
    }
    if SendsTo(backends, n) {
      var b :| b in backends && b.weight > 0 && b.cluster.Some? && b.cluster.value.name == n;
      assert b.cluster == Some(dir[n]);
    }
  }

  lemma {:induction false} RoutesShow(s: seq<Entry>, e: Entry) returns (f: Entry)
    requires e in s
    ensures f in s && RuleKeyOf(f) == RuleKeyOf(e) && Emitted(f) in RoutesOf(s)
  {
    var n := |s| - 1;
    if e in s[..n] {
      f := RoutesShow(s[..n], e);
    } else if RuleKeyOf(s[n]) in RuleKeys(s[..n]) {
      var g :| g in s[..n] && RuleKeyOf(g) == RuleKeyOf(s[n]);
      f := RoutesShow(s[..n], g);
    } else {
      f := e;
    }
  }

  lemma {:induction false} RoutesCome(s: seq<Entry>, r: E.Route) returns (e: Entry)
    requires r in RoutesOf(s)
    ensures e in s && r == Emitted(e)
  {
    var n := |s| - 1;
    if r in RoutesOf(s[..n]) {
      e := RoutesCome(s[..n], r);
    } else {
      e := s[n];
    }
  }

  lemma EntrySendsTo(m: Model, ls: seq<nat>, e: Entry, dir: map<string, Cluster>, n: string)
    requires WellAttached(m) && Hostful(m, ls) && IsEntry(m, ls, e) && Directory(dir) && ListedModel(m, dir)
    ensures n in ActionClusters(Emitted(e).action) <==> n in dir && EntrySends(e, dir[n])
  {
    EntryWithin(m, ls, e);
    var rule := e.route.route.rules[e.rule];
    ActionSendsTo(rule, rule.matches[e.match_], e.route.backends[e.rule], n);
    SendsListed(e.route.backends[e.rule], dir, n);
  }

  lemma HostIsShown(m: Model, ls: seq<nat>, c: E.RouteConfiguration, v: E.VirtualHost) returns (f: Entry)
    requires IsRouteConfiguration(m, ls, c) && v in c.virtualHosts
    ensures IsVirtualHost(m, ls, v) && IsEntry(m, ls, f) && f.host == v.domain
  {
    var k :| 0 <= k < |c.virtualHosts| && c.virtualHosts[k] == v;
    assert E.Domains(c.virtualHosts)[k] == v.domain;
    assert v.domain in E.Domains(c.virtualHosts);
    f :| IsEntry(m, ls, f) && f.host == v.domain;
  }

  lemma ShownHost(m: Model, ls: seq<nat>, c: E.RouteConfiguration, f: Entry) returns (v: E.VirtualHost)
    requires IsRouteConfiguration(m, ls, c) && IsEntry(m, ls, f)
    ensures v in c.virtualHosts && IsVirtualHost(m, ls, v) && f.host == v.domain
  {
    assert f.host in E.Domains(c.virtualHosts);
    var k :| 0 <= k < |c.virtualHosts| && E.Domains(c.virtualHosts)[k] == f.host;
    v := c.virtualHosts[k];
  }

  lemma ConfigUses(m: Model, ls: seq<nat>, c: E.RouteConfiguration, dir: map<string, Cluster>, n: string)
    requires WellAttached(m) && Hostful(m, ls) && DistinctHosts(m, ls) && Directory(dir) && ListedModel(m, dir)
    requires IsRouteConfiguration(m, ls, c)
    ensures n in ConfigClusters(c.virtualHosts) <==> n in dir && HttpUses(m, ls, dir[n])
  {
    if n in ConfigClusters(c.virtualHosts) {
      var v :| v in c.virtualHosts && n in RoutesClusters(v.routes);
      var r :| r in v.routes && n in ActionClusters(r.action);
      var f := HostIsShown(m, ls, c, v);
      HostSends(m, ls, v, f, r, dir, n);
    }
    if n in dir && HttpUses(m, ls, dir[n]) {
      var e :| Shown(m, ls, e) && EntrySends(e, dir[n]);
      var f :| IsEntry(m, ls, f) && Owns(m, ls, f.host, e.listener) && Carried(m, ls, e.listener, f.host, e);
      var v := ShownHost(m, ls, c, f);
      HostShows(m, ls, v, f, e, dir, n);
    }
  }

  lemma HostSends(m: Model, ls: seq<nat>, v: E.VirtualHost, f: Entry, r: E.Route, dir: map<string, Cluster>, n: string)
    requires WellAttached(m) && Hostful(m, ls) && Directory(dir) && ListedModel(m, dir) && IsVirtualHost(m, ls, v)
    requires IsEntry(m, ls, f) && f.host == v.domain && r in v.routes && n in ActionClusters(r.action)
    ensures n in dir && HttpUses(m, ls, dir[n])
  {
    var i, s :| Owns(m, ls, v.domain, i) && InPrecedence(m, ls, i, v.domain, s) && v.routes == RoutesOf(s);
    var e := RoutesCome(s, r);
    EntrySendsTo(m, ls, e, dir, n);
    assert Shown(m, ls, e);
  }

  lemma HostShows(m: Model, ls: seq<nat>, v: E.VirtualHost, f: Entry, e: Entry, dir: map<string, Cluster>, n: string)
    requires WellAttached(m) && Hostful(m, ls) && DistinctHosts(m, ls) && Directory(dir) && ListedModel(m, dir)
    requires IsVirtualHost(m, ls, v) && f.host == v.domain && Owns(m, ls, f.host, e.listener) && Carried(m, ls, e.listener, f.host, e)
    requires n in dir && EntrySends(e, dir[n])
    ensures n in RoutesClusters(v.routes)
  {
    var i, s :| Owns(m, ls, v.domain, i) && InPrecedence(m, ls, i, v.domain, s) && v.routes == RoutesOf(s);
    OwnerUnique(m, ls, v.domain, i, e.listener);
    var g := RoutesShow(s, e);
    SameRule(m, ls, e, g);
    EntrySendsTo(m, ls, g, dir, n);
    assert n in ActionClusters(Emitted(g).action);
  }

  lemma SameRule(m: Model, ls: seq<nat>, e: Entry, g: Entry)
    requires WellAttached(m) && IsEntry(m, ls, e) && IsEntry(m, ls, g) && RuleKeyOf(e) == RuleKeyOf(g)
    ensures e.route == g.route && e.rule == g.rule && e.match_ == g.match_
  {
  }

  lemma TlsUsesExact(m: Model, ls: seq<nat>, chains: seq<E.FilterChain>, dir: map<string, Cluster>, n: string)
    requires DistinctHosts(m, ls) && Directory(dir) && ListedModel(m, dir) && AreTlsChains(m, ls, chains)
    requires forall i :: i in ls ==> TwinFree(m, i)
    ensures n in ChainsClusters(chains) <==> n in dir && TlsUses(m, ls, dir[n])
  {
    if n in ChainsClusters(chains) {
      var c :| c in chains && n in FilterClusters(c.filter);
      TlsChainUses(m, ls, c, dir, n);
    }
    if n in dir && TlsUses(m, ls, dir[n]) {
      var h, i, r :| Owns(m, ls, h, i) && OldestOn(m, i, h, r) && Sends(BackendsOf(r), dir[n]);
      assert OwnedHost(m, ls, h);
      var k :| 0 <= k < |chains| && ChainNames(chains)[k] == h;
      TlsChainSends(m, ls, chains[k], i, r, dir, n);
    }
  }

  lemma TlsChainUses(m: Model, ls: seq<nat>, c: E.FilterChain, dir: map<string, Cluster>, n: string)
    requires Directory(dir) && ListedModel(m, dir) && IsTlsChain(m, ls, c) && n in FilterClusters(c.filter)
    ensures n in dir && TlsUses(m, ls, dir[n])
  {
    var i: nat, r :| i < |m.listeners| && Owns(m, ls, c.name, i) && OldestOn(m, i, c.name, r) &&
      c == TlsChainOf(m.listeners[i], c.name, BackendsOf(r));
    TcpSendsTo(BackendsOf(r), n);
    BackendsListed(m, r, dir);
    SendsListed(BackendsOf(r), dir, n);
  }

  lemma TlsChainSends(m: Model, ls: seq<nat>, c: E.FilterChain, i: nat, r: AttachedRoute, dir: map<string, Cluster>, n: string)
    requires DistinctHosts(m, ls) && TwinFree(m, i) && Directory(dir) && ListedModel(m, dir) && IsTlsChain(m, ls, c)
    requires Owns(m, ls, c.name, i) && OldestOn(m, i, c.name, r) && n in dir && Sends(BackendsOf(r), dir[n])
    ensures n in FilterClusters(c.filter)
  {
    var j: nat, s :| j < |m.listeners| && Owns(m, ls, c.name, j) && OldestOn(m, j, c.name, s) &&
      c == TlsChainOf(m.listeners[j], c.name, BackendsOf(s));
    OwnerUnique(m, ls, c.name, i, j);
    AgeChain(r, s, r);
    assert r == s;
    TcpSendsTo(BackendsOf(r), n);
    BackendsListed(m, r, dir);
    SendsListed(BackendsOf(r), dir, n);
  }

  lemma StreamUses(m: Model, i: nat, r: Option<AttachedRoute>, dir: map<string, Cluster>, port: nat, n: string)
    requires TwinFree(m, i) && OldestOrNone(m, i, r) && Directory(dir) && ListedModel(m, dir)
    ensures n in TcpConfig(port, r).services <==> n in dir && TcpUses(m, i, dir[n])
    ensures n in UdpConfig(port, r).services <==> n in dir && UdpUses(m, i, dir[n])
  {
    forall s | OldestOnListener(m, i, s) ensures r == Some(s) {
      OldestOnListenerUnique(m, i, r.value, s);
    }
    if r.Some? {
      BackendsListed(m, r.value, dir);
      TcpSendsTo(BackendsOf(r.value), n);
      UdpSendsTo(r.value, n);
      SendsListed(BackendsOf(r.value), dir, n);
      InvalidUnlisted(BackendsOf(r.value), dir);
    }
  }

  lemma InvalidUnlisted(backends: seq<Backend>, dir: map<string, Cluster>)
    requires Directory(dir) && Listed(backends, dir)
    ensures !SendsTo(backends, INVALID_CLUSTER)
  {
  }

  /** The Service clusters a port gathers are those it uses. */
  lemma PortUses(m: Model, dir: map<string, Cluster>, key: PortKey, g: PortConfig, n: string)
    requires Translatable(m, dir) && StreamsUntied(m) && IsPortConfig(m, key, g)
    ensures n in g.services <==> n in dir && key in UserPorts(m, dir[n])
  {
    GroupIsHostful(m, key);
    var ls := GroupOf(m.listeners, key);
    assert ls[0] in ls;
    match m.listeners[ls[0]].spec.protocol {
      case HTTP =>
        AllConfigsGrow([], g.configs[0]);
        assert g.configs == [g.configs[0]];
        ConfigUses(m, ls, g.configs[0], dir, n);
      case HTTPS =>
        HttpsUses(m, key.port, ls, g, dir, n);
      case TLS =>
        var chains :| AreTlsChains(m, ls, chains) &&
          g == PortConfig(if chains == [] then None else Some(E.StreamListener(TlsName(key.port), ContainerPort(key.port), chains)),
                          [], ChainsClusters(chains), None);
        OneProtocol(m, key);
        TlsUsesExact(m, ls, chains, dir, n);
      case TCP =>
        var r :| OldestOrNone(m, ls[0], r) && g == TcpConfig(key.port, r);
        StreamUses(m, ls[0], r, dir, key.port, n);
      case UDP =>
        var r :| OldestOrNone(m, ls[0], r) && g == UdpConfig(key.port, r);
        StreamUses(m, ls[0], r, dir, key.port, n);
      case OtherProtocol(_) =>
    }
  }

  lemma OneProtocol(m: Model, key: PortKey)
    requires Sound(m.listeners)
    ensures var ls := GroupOf(m.listeners, key);
            forall i, j :: i in ls && j in ls ==> i < |m.listeners| && j < |m.listeners| && m.listeners[i].spec.protocol == m.listeners[j].spec.protocol
  {
    GroupMembers(m.listeners, key);
    var ls := GroupOf(m.listeners, key);
    forall i, j | i in ls && j in ls ensures m.listeners[i].spec.protocol == m.listeners[j].spec.protocol {
      PortGroups(m.listeners, i, j);
    }
  }

  lemma HttpsUses(m: Model, port: nat, ls: seq<nat>, g: PortConfig, dir: map<string, Cluster>, n: string)
    requires WellAttached(m) && Hostful(m, ls) && Directory(dir) && ListedModel(m, dir) && IsHttpsPort(m, port, ls, g)
    ensures n in g.services <==> n in dir && exists i :: i in ls && HttpUses(m, [i], dir[n])
  {
    var users := if n in dir then iset i | HttpUses(m, [i], dir[n]) else iset{};
    forall k | 0 <= k < |ls| ensures n in ConfigClusters(g.configs[k].virtualHosts) <==> ls[k] in users {
      assert ls[k] in ls && g.configs[k] in HttpsConfigsOf(m, port, ls[k]);
      assert Hostful(m, [ls[k]]) && DistinctHosts(m, [ls[k]]);
      ConfigUses(m, [ls[k]], g.configs[k], dir, n);
    }
    SomeConfig(ls, g.configs, users, n);
  }

  lemma SomeConfig(ls: seq<nat>, configs: seq<E.RouteConfiguration>, users: iset<nat>, n: string)
    requires |ls| == |configs| && forall k :: 0 <= k < |ls| ==> (n in ConfigClusters(configs[k].virtualHosts) <==> ls[k] in users)
    ensures n in AllConfigClusters(configs) <==> exists i :: i in ls && i in users
  {
    if n in AllConfigClusters(configs) {
      var c :| c in configs && n in ConfigClusters(c.virtualHosts);
      var k :| 0 <= k < |configs| && configs[k] == c;
      assert ls[k] in ls;
    }
    if i :| i in ls && i in users {
      var k :| 0 <= k < |ls| && ls[k] == i;
      assert configs[k] in configs;
    }
  }

  /** The weighted cluster a port gathers is that of the route it pools. */
  lemma PortPools(m: Model, key: PortKey, g: PortConfig, n: string)
    requires Sound(m.listeners) && StreamsUntied(m) && IsPortConfig(m, key, g)
    ensures n in WeightedNames(g.weighted) <==> key in PoolPorts(m, n)
  {
    GroupMembers(m.listeners, key);
    var ls := GroupOf(m.listeners, key);
    assert ls[0] in ls;
    if m.listeners[ls[0]].spec.protocol == UDP {
      var r :| OldestOrNone(m, ls[0], r) && g == UdpConfig(key.port, r);
      forall s | OldestOnListener(m, ls[0], s) ensures r == Some(s) {
        OldestOnListenerUnique(m, ls[0], r.value, s);
      }
      if r.Some? { assert Pools(m, key, r.value) <==> g.weighted.Some?; }
    } else {
      assert g.weighted.None?;
      assert forall r :: !Pools(m, key, r);
    }
  }

  // ---- the clusters of all ports ----

  ghost predicate SomeOf(keys: seq<PortKey>, ports: iset<PortKey>) {
    exists key :: key in keys && key in ports
  }

  lemma SomeSplit(keys: seq<PortKey>, j: nat)
    requires |keys| == j + 1
    ensures forall ports :: SomeOf(keys, ports) <==> SomeOf(keys[..j], ports) || keys[j] in ports
  {
    assert keys == keys[..j] + [keys[j]];
  }

  lemma {:induction false} ServicesUsed(m: Model, dir: map<string, Cluster>, keys: seq<PortKey>, groups: seq<PortConfig>, n: string)
    requires Translatable(m, dir) && StreamsUntied(m) && ArePortConfigs(m, keys, groups)
    ensures n in ServicesOf(groups) <==> n in dir && SomeOf(keys, UserPorts(m, dir[n]))
    ensures n in WeightedOf(groups) <==> SomeOf(keys, PoolPorts(m, n))
  {
    if groups != [] {
      var j := |groups| - 1;
      ServicesUsed(m, dir, keys[..j], groups[..j], n);
      PortUses(m, dir, keys[j], groups[j], n);
      PortPools(m, keys[j], groups[j], n);
      LastGroupRefs(groups, j);
      SomeSplit(keys, j);
    }
  }

  /** Some port pools a route n/p while some port uses a Service udp/n on port p without HTTP/2. */
  ghost predicate NamesClash(m: Model) {
    exists k1, k2, r, c :: Pools(m, k1, r) && Uses(m, k2, c) && TakesName(r.route.key, c)
  }

  predicate TakesName(key: RouteKey, c: Cluster) {
    c.service == NamespacedName("udp", key.ns) && Decimal(c.port.port) == key.name && !c.h2
  }

  /** What a cluster and a route are called is unambiguous. */
  ghost predicate PlainNames(m: Model, dir: map<string, Cluster>) {
    ValidNames(m) && forall n :: n in dir ==>
      '/' !in dir[n].service.ns && '/' !in dir[n].service.name && n == ClusterName(dir[n].service, dir[n].port.port, dir[n].h2)
  }

  lemma UsedIsListed(m: Model, dir: map<string, Cluster>, key: PortKey, c: Cluster)
    requires WellAttached(m) && ListedModel(m, dir) && Uses(m, key, c)
    ensures c.name in dir && dir[c.name] == c
  {
    var ls := GroupOf(m.listeners, key);
    match m.listeners[ls[0]].spec.protocol {
      case HTTP =>
        HttpUsed(m, dir, ls, c);
      case HTTPS =>
        var i :| i in ls && HttpUses(m, [i], c);
        HttpUsed(m, dir, [i], c);
      case TLS =>
        var h, i, r :| Owns(m, ls, h, i) && OldestOn(m, i, h, r) && Sends(BackendsOf(r), c);
        BackendsListed(m, r, dir);
      case TCP =>
        var r :| OldestOnListener(m, ls[0], r) && Sends(BackendsOf(r), c);
        BackendsListed(m, r, dir);
      case UDP =>
        var r :| OldestOnListener(m, ls[0], r) && |Positive(BackendsOf(r))| == 1 && Sends(BackendsOf(r), c);
        BackendsListed(m, r, dir);
    }
  }

  lemma HttpUsed(m: Model, dir: map<string, Cluster>, ls: seq<nat>, c: Cluster)
    requires ListedModel(m, dir) && HttpUses(m, ls, c)
    ensures c.name in dir && dir[c.name] == c
  {
    var e :| Shown(m, ls, e) && EntrySends(e, c);
    assert Listed(e.route.backends[e.rule], dir);
  }

  /** Each cluster name of a snapshot is used once, unless a pooled UDPRoute n/p and a
      Service udp/n on port p meet in it. */
  lemma ClustersDistinct(m: Model, refs: References, dir: map<string, Cluster>, r: Resources,
                         keys: seq<PortKey>, groups: seq<PortConfig>, wn: seq<string>, sn: seq<string>)
    requires Translatable(m, dir) && StreamsUntied(m) && PlainNames(m, dir) && Translates(m, refs, dir, r, keys, groups, wn, sn)
    ensures Distinct(ClusterNames(r.clusters)) <==> !NamesClash(m)
  {
    ClustersClosed(m, refs, dir, r, keys, groups, wn, sn);
    NoClash(m, dir, keys, groups);
    Clash(m, dir, keys, groups);
  }

  lemma NoClash(m: Model, dir: map<string, Cluster>, keys: seq<PortKey>, groups: seq<PortConfig>)
    requires Translatable(m, dir) && StreamsUntied(m) && PlainNames(m, dir) && ArePortConfigs(m, keys, groups)
    ensures !NamesClash(m) ==> WeightedOf(groups).Keys !! ServicesOf(groups)
  {
    if n :| n in WeightedOf(groups) && n in ServicesOf(groups) {
      ServicesUsed(m, dir, keys, groups, n);
      var k2 :| k2 in keys && k2 in UserPorts(m, dir[n]);
      var k1 :| k1 in keys && k1 in PoolPorts(m, n);
      var route :| Pools(m, k1, route) && WeightedName(route.route.key) == n;
      NameTaken(m, dir, k1, route, dir[n]);
    }
  }

  lemma Clash(m: Model, dir: map<string, Cluster>, keys: seq<PortKey>, groups: seq<PortConfig>)
    requires Translatable(m, dir) && StreamsUntied(m) && PlainNames(m, dir) && PortKeys(m, keys) && ArePortConfigs(m, keys, groups)
    ensures NamesClash(m) ==> exists n :: n in WeightedOf(groups).Keys && n in ServicesOf(groups)
  {
    if k1, k2, route, c :| Pools(m, k1, route) && Uses(m, k2, c) && TakesName(route.route.key, c) {
      UsedIsListed(m, dir, k2, c);
      NameTaken(m, dir, k1, route, c);
      ServicesUsed(m, dir, keys, groups, c.name);
      assert k1 in keys && k1 in PoolPorts(m, c.name);
      assert k2 in keys && k2 in UserPorts(m, c);
      assert c.name in WeightedOf(groups).Keys && c.name in ServicesOf(groups);
    }
  }

  lemma NameTaken(m: Model, dir: map<string, Cluster>, key: PortKey, r: AttachedRoute, c: Cluster)
    requires PlainNames(m, dir) && Pools(m, key, r) && c.name in dir && dir[c.name] == c
    ensures WeightedName(r.route.key) == c.name <==> TakesName(r.route.key, c)
  {
    CollisionExact(r.route.key, c.service, c.port.port, c.h2);
  }
}
