/** A Gateway whose snapshot holds two clusters of one name: a UDPRoute a/80 with two
    backends, and a TCPRoute to port 80 of the Service a in the namespace udp. */
module NameClash {
  import opened Text
  import opened Sorting
  import opened Hostnames
  import opened GatewayModel
  import opened Backends
  import opened Attachment
  import opened Entries
  import opened Layer4
  import opened Streams
  import opened Ports
  import opened Validation
  import opened Translate
  import opened Snapshot
  import opened ClusterUse
  import opened Pipeline
  import opened Examples

  function TheListeners(): seq<ListenerSpec> {
    [ListenerOf("dns", 53, UDP, None), ListenerOf("web", 5432, TCP, None)]
  }

  function TheGateway(): Gateway {
    GatewayOf(TheListeners())
  }

  function TheReferences(): References {
    ReferencesOf(map[NamespacedName("udp", "a") := Service(false, [ServicePort("", 80, false)])])
  }

  function PoolRoute(): Route {
    RouteOf(RouteKey("UDPRoute", "a", "80"), "dns", Rule([], [], [To("x", 53), To("y", 53)], false))
  }

  function ServiceRoute(): Route {
    RouteOf(RouteKey("TCPRoute", "udp", "t"), "web", Rule([], [], [To("a", 80)], false))
  }

  function TheCluster(): Cluster {
    Cluster(ClusterName(NamespacedName("udp", "a"), 80, false), NamespacedName("udp", "a"), ServicePort("", 80, false), false)
  }

  lemma TheInputIsAdmitted()
    ensures Admitted(TheGateway(), [PoolRoute(), ServiceRoute()], TheReferences())
  {
    var gw, routes := TheGateway(), [PoolRoute(), ServiceRoute()];
    assert forall r :: r in routes ==> r == PoolRoute() || r == ServiceRoute();
    assert forall l :: l in gw.listeners ==> l.hostname.None?;
    assert gw.listeners[0].name != gw.listeners[1].name;
    assert routes[0].key != routes[1].key;
  }

  lemma BothAreValid()
    ensures var ls := ListenersFor(TheGateway(), TheReferences());
            |ls| == 2 && ls[0].valid && ls[1].valid && ls[0].supportedKinds == ["UDPRoute"] && ls[1].supportedKinds == ["TCPRoute"]
  {
    var gw, refs := TheGateway(), TheReferences();
    var specs := gw.listeners;
    forall i | 0 <= i < 2 ensures !InConflict(specs, i) {
    }
    assert Programmable(gw.ns, specs, 0, refs);
    assert Programmable(gw.ns, specs, 1, refs);
  }

  /** Of two routes, the only one on a listener is the oldest there. */
  lemma AloneIsOldest(m: Model, i: nat, p: ParentResult, q: ParentResult)
    requires |m.routes| == 2 && i < 2 && m.routes[i].parents == [p] && m.routes[1 - i].parents == [q]
    requires i in p.hostnames && p.hostnames[i] == ["*"] && i !in q.hostnames
    ensures OldestOnListener(m, i, m.routes[i])
  {
    forall r | OnListener(m, i, r) ensures r == m.routes[i] {
      var h :| OnHost(m, i, h, r);
    }
    assert p in m.routes[i].parents && HostAt(p, i, "*");
    assert OnHost(m, i, "*", m.routes[i]);
    AgeChain(m.routes[i], m.routes[i], m.routes[i]);
  }

  ghost predicate IsTheModel(m: Model) {
    m.listeners == ListenersFor(TheGateway(), TheReferences()) &&
    m.routes == [AttachedOf(PoolRoute(), TheGateway(), m.listeners, TheReferences()),
                 AttachedOf(ServiceRoute(), TheGateway(), m.listeners, TheReferences())]
  }

  lemma EachIsOldest(m: Model)
    requires IsTheModel(m)
    ensures OldestOnListener(m, 0, m.routes[0]) && OldestOnListener(m, 1, m.routes[1])
  {
    BothAreValid();
    AttachedAlone(TheListeners(), m.listeners, PoolRoute(), 0, "dns");
    AttachedAlone(TheListeners(), m.listeners, ServiceRoute(), 1, "web");
    var p, q := ParentOf("infra", m.listeners, PoolRoute(), Parent("dns")), ParentOf("infra", m.listeners, ServiceRoute(), Parent("web"));
    AloneIsOldest(m, 0, p, q);
    AloneIsOldest(m, 1, q, p);
  }

  lemma TheGroups(m: Model)
    requires m.listeners == ListenersFor(TheGateway(), TheReferences())
    ensures GroupOf(m.listeners, PortKey(53, true)) == [0] && GroupOf(m.listeners, PortKey(5432, false)) == [1]
  {
    BothAreValid();
    var ls := m.listeners;
    assert ls[..1][..0] == [] && ls[..1] == [ls[0]];
    assert GroupOf(ls[..1], PortKey(53, true)) == [0] && GroupOf(ls[..1], PortKey(5432, false)) == [];
  }

  lemma TheBackends()
    ensures |Positive(BackendsOfRule(PoolRoute().key, PoolRoute().rules[0], TheReferences()))| == 2
    ensures Sends(BackendsOfRule(ServiceRoute().key, ServiceRoute().rules[0], TheReferences()), TheCluster())
  {
    var pool := BackendsOfRule(PoolRoute().key, PoolRoute().rules[0], TheReferences());
    assert pool[..1][..0] == [] && |Positive(pool[..1])| == 1;
    var one := BackendsOfRule(ServiceRoute().key, ServiceRoute().rules[0], TheReferences());
    assert one[0] == Backend(1, Some(TheCluster()));
  }

  lemma ThePieces(m: Model)
    requires IsTheModel(m)
    ensures m.listeners[0].spec.protocol == UDP && m.listeners[1].spec.protocol == TCP
    ensures |Positive(BackendsOf(m.routes[0]))| == 2 && Sends(BackendsOf(m.routes[1]), TheCluster())
  {
    TheBackends();
    assert m.listeners[0].spec == TheGateway().listeners[0] && m.listeners[1].spec == TheGateway().listeners[1];
    assert BackendsOf(m.routes[0]) == BackendsOfRule(PoolRoute().key, PoolRoute().rules[0], TheReferences());
    assert BackendsOf(m.routes[1]) == BackendsOfRule(ServiceRoute().key, ServiceRoute().rules[0], TheReferences());
  }

  lemma PoolsAt(m: Model, key: PortKey, i: nat, r: AttachedRoute)
    requires GroupOf(m.listeners, key) == [i] && i < |m.listeners| && m.listeners[i].spec.protocol == UDP
    requires OldestOnListener(m, i, r) && |Positive(BackendsOf(r))| > 1
    ensures Pools(m, key, r)
  {
  }

  lemma UsesAt(m: Model, key: PortKey, i: nat, r: AttachedRoute, c: Cluster)
    requires GroupOf(m.listeners, key) == [i] && i < |m.listeners| && m.listeners[i].spec.protocol == TCP
    requires OldestOnListener(m, i, r) && Sends(BackendsOf(r), c)
    ensures Uses(m, key, c)
  {
  }

  lemma ThePorts(m: Model)
    requires IsTheModel(m)
    ensures Pools(m, PortKey(53, true), m.routes[0]) && Uses(m, PortKey(5432, false), TheCluster())
  {
    EachIsOldest(m);
    TheGroups(m);
    ThePieces(m);
    PoolsAt(m, PortKey(53, true), 0, m.routes[0]);
    UsesAt(m, PortKey(5432, false), 1, m.routes[1], TheCluster());
  }

  lemma TheNameIsTaken(m: Model)
    requires IsTheModel(m)
    ensures TakesName(m.routes[0].route.key, TheCluster())
  {
    WeightedNamesCanCollide();
    CollisionExact(PoolRoute().key, NamespacedName("udp", "a"), 80, false);
    assert m.routes[0].route == PoolRoute();
  }

  lemma TheNamesClash(m: Model)
    requires IsTheModel(m)
    ensures NamesClash(m)
  {
    ThePorts(m);
    TheNameIsTaken(m);
    var r, c := m.routes[0], TheCluster();
    ClashAt(m, PortKey(53, true), PortKey(5432, false), r, c);
  }

  lemma ClashAt(m: Model, k1: PortKey, k2: PortKey, r: AttachedRoute, c: Cluster)
    requires Pools(m, k1, r) && Uses(m, k2, c) && TakesName(r.route.key, c)
    ensures NamesClash(m)
  {
  }

  lemma BothAreBuilt(m: Model, routes: seq<Route>)
    requires routes == [PoolRoute(), ServiceRoute()] && m.listeners == ListenersFor(TheGateway(), TheReferences())
    requires BuiltExactly(m.routes, Referring(routes, TheGateway()), TheGateway(), m.listeners, TheReferences())
    ensures IsTheModel(m)
  {
    TwoRefer(TheListeners(), PoolRoute(), ServiceRoute(), "dns", "web");
  }

  lemma TwoOfOneName(r: Resources)
    requires !Distinct(ClusterNames(r.clusters))
    ensures exists i, j :: 0 <= i < j < |r.clusters| && r.clusters[i].name == r.clusters[j].name
  {
    var names := ClusterNames(r.clusters);
    var i, j :| 0 <= i < j < |names| && names[i] == names[j];
    assert r.clusters[i].name == r.clusters[j].name;
  }

  /** The compiler gives this Gateway two clusters of one name. */
  method DuplicateCluster(gw: Gateway, routes: seq<Route>, refs: References) returns (r: Resources)
    requires gw == TheGateway() && routes == [PoolRoute(), ServiceRoute()] && refs == TheReferences()
    ensures exists i, j :: 0 <= i < j < |r.clusters| && r.clusters[i].name == r.clusters[j].name
  {
    TheInputIsAdmitted();
    var m;
    ghost var keys, groups, wn, sn;
    m, r, keys, groups, wn, sn := Compile(gw, routes, refs);
    BothAreBuilt(m, routes);
    TheNamesClash(m);
    TwoOfOneName(r);
  }
}
