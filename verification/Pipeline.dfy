/** From a Gateway's spec and the routes of the cluster to everything its Envoy is
    served: validation, attachment and translation in a row. */
module Pipeline {
  import opened Text
  import opened Sorting
  import opened Hostnames
  import opened GatewayModel
  import opened Backends
  import opened Attachment
  import opened Entries
  import opened Listing
  import opened RouteActions
  import opened Paths
  import opened Owners
  import opened RouteConfig
  import opened HttpMeaning
  import opened Precedence
  import opened GatewayMeaning
  import opened Ports
  import opened Validation
  import opened Translate
  import opened Streams
  import opened Snapshot
  import opened ClusterUse
  import opened Tunnel
  import opened TunnelMeaning
  import opened HttpsMeaning
  import opened Layer4
  import E = Envoy

  /** What the API server admits: hostnames are patterns, neither empty nor a bare star, the
      listeners of a Gateway have names of their own, so has every route among those
      of its kind and namespace, and no object's name holds a slash. */
  ghost predicate Admitted(gw: Gateway, routes: seq<Route>, refs: References) {
    && (forall l :: l in gw.listeners ==> Pattern(ListenerHost(l.hostname)) && l.hostname != Some("*") && l.hostname != Some(""))
    && (forall i, j :: 0 <= i < j < |gw.listeners| ==> gw.listeners[i].name != gw.listeners[j].name)
    && (forall r :: r in routes ==> ValidRouteHostnames(r))
    && (forall j, k :: 0 <= j < k < |routes| ==> routes[j].key != routes[k].key)
    && (forall r :: r in routes ==> '/' !in r.key.kind && '/' !in r.key.ns && '/' !in r.key.name)
    && (forall s :: s in refs.services ==> '/' !in s.ns && '/' !in s.name)
  }

  lemma {:induction false} ReferringFacts(routes: seq<Route>, gw: Gateway)
    ensures forall r :: r in Referring(routes, gw) <==> r in routes && RefersTo(r, gw)
    ensures (forall j, k :: 0 <= j < k < |routes| ==> routes[j].key != routes[k].key) ==>
              forall j, k :: 0 <= j < k < |Referring(routes, gw)| ==> Referring(routes, gw)[j].key != Referring(routes, gw)[k].key
  {
    if routes != [] {
      var n := |routes| - 1;
      ReferringFacts(routes[..n], gw);
      var before := Referring(routes[..n], gw);
      assert forall r :: r in routes <==> r in routes[..n] || r == routes[n] by { assert routes == routes[..n] + [routes[n]]; }
      assert forall j :: 0 <= j < |before| ==> before[j] in before;
    }
  }

  // ---- every cluster name stands for one cluster ----

  /** Some backend of the model resolves to the cluster. */
  ghost predicate Resolves(m: Model, c: Cluster) {
    exists r, k: nat, j: nat :: r in m.routes && k < |r.backends| && j < |r.backends[k]| && r.backends[k][j].cluster == Some(c)
  }

  lemma ResolvedFrom(m: Model, routes: seq<Route>, gw: Gateway, refs: References, c: Cluster)
    returns (key: RouteKey, grpc: bool, ref: BackendRef)
    requires BuiltAll(m.routes, routes, gw, m.listeners, refs) && Resolves(m, c)
    ensures ResolutionOf(key, grpc, ref, refs) == Resolved(c)
  {
    var r, k: nat, j: nat :| r in m.routes && k < |r.backends| && j < |r.backends[k]| && r.backends[k][j].cluster == Some(c);
    var i :| 0 <= i < |m.routes| && m.routes[i] == r;
    assert BuiltFrom(r, routes[i], gw, m.listeners, refs);
    var rule := routes[i].rules[k];
    key, grpc, ref := routes[i].key, rule.grpc, rule.backends[j];
  }

  lemma NamesTellApart(m: Model, routes: seq<Route>, gw: Gateway, refs: References, c: Cluster, d: Cluster)
    requires BuiltAll(m.routes, routes, gw, m.listeners, refs) && Resolves(m, c) && Resolves(m, d)
    requires forall s :: s in refs.services ==> '/' !in s.ns && '/' !in s.name
    ensures c.name != INVALID_CLUSTER && (c.name == d.name ==> c == d)
  {
    var key, grpc, ref := ResolvedFrom(m, routes, gw, refs, c);
    var key', grpc', ref' := ResolvedFrom(m, routes, gw, refs, d);
    NamesIdentifyClusters(key, grpc, ref, key', grpc', ref', refs);
  }

  ghost function ClustersOf(m: Model): set<Cluster> {
    set r, k: nat, j: nat | r in m.routes && k < |r.backends| && j < |r.backends[k]| && r.backends[k][j].cluster.Some? ::
      r.backends[k][j].cluster.value
  }

  ghost function Named(cs: set<Cluster>, n: string): Cluster
    requires exists c :: c in cs && c.name == n
  {
    var c :| c in cs && c.name == n; c
  }

  ghost function DirectoryOf(m: Model): map<string, Cluster> {
    var cs := ClustersOf(m);
    map n | n in (set c | c in cs :: c.name) :: Named(cs, n)
  }

  lemma DirectoryLists(m: Model, routes: seq<Route>, gw: Gateway, refs: References)
    requires BuiltAll(m.routes, routes, gw, m.listeners, refs)
    requires forall s :: s in refs.services ==> '/' !in s.ns && '/' !in s.name
    ensures Directory(DirectoryOf(m)) && ListedModel(m, DirectoryOf(m))
  {
    var cs, dir := ClustersOf(m), DirectoryOf(m);
    forall c | c in cs ensures Resolves(m, c) && c.name != INVALID_CLUSTER {
      assert Resolves(m, c);
      NamesTellApart(m, routes, gw, refs, c, c);
    }
    forall r, k: nat, b | r in m.routes && k < |r.backends| && b in r.backends[k] && b.cluster.Some?
      ensures b.cluster.value.name in dir && dir[b.cluster.value.name] == b.cluster.value
    {
      var j: nat :| j < |r.backends[k]| && r.backends[k][j] == b;
      var c := b.cluster.value;
      assert c in cs;
      var d := Named(cs, c.name);
      NamesTellApart(m, routes, gw, refs, c, d);
    }
  }

  /** What validation and attachment make is what translation relies on. */
  lemma BuiltIsTranslatable(gw: Gateway, routes: seq<Route>, refs: References, m: Model)
    requires Admitted(gw, routes, refs) && m.listeners == ListenersFor(gw, refs)
    requires BuiltAll(m.routes, Referring(routes, gw), gw, m.listeners, refs)
    ensures Translatable(m, DirectoryOf(m)) && DistinctListenerNames(m)
    ensures forall i :: 0 <= i < |m.listeners| ==> Pattern(OwnHost(m, i))
  {
    ReferringFacts(routes, gw);
    ListenersAreSound(gw, refs, m.listeners);
    forall l | l in m.listeners ensures Pattern(ListenerHost(l.spec.hostname)) && l.spec.hostname != Some("*") {
      var i :| 0 <= i < |m.listeners| && m.listeners[i] == l;
      assert gw.listeners[i] in gw.listeners;
    }
    BuiltIsWellAttached(gw, m.listeners, Referring(routes, gw), refs, m);
    DirectoryLists(m, Referring(routes, gw), gw, refs);
  }

  /** No listener of a TLS, TCP or UDP port accepts routes of two kinds. */
  lemma AdmittedStreams(gw: Gateway, routes: seq<Route>, refs: References, m: Model)
    requires Admitted(gw, routes, refs) && m.listeners == ListenersFor(gw, refs) && WellAttached(m)
    requires BuiltAll(m.routes, Referring(routes, gw), gw, m.listeners, refs)
    ensures StreamsUntied(m)
  {
    forall i: nat | i < |m.listeners| && m.listeners[i].spec.protocol in {TLS, TCP, UDP} ensures TwinFree(m, i) {
      forall a, b, h, k | a in m.routes && b in m.routes && HostOf(a, i, h) && HostOf(b, i, k) && SameAge(a.route, b.route) ensures a == b {
        CarriedKind(gw, Referring(routes, gw), refs, m, i, a, h);
        CarriedKind(gw, Referring(routes, gw), refs, m, i, b, k);
        OneKind(gw.listeners[i], refs.warpRouting, a.route.key.kind, b.route.key.kind);
      }
    }
  }

  lemma OneKind(l: ListenerSpec, warp: bool, a: string, b: string)
    requires l.protocol in {TLS, TCP, UDP} && a in KindsOf(l, warp) && b in KindsOf(l, warp)
    ensures a == b
  {
  }

  lemma AdmittedPlainNames(gw: Gateway, routes: seq<Route>, refs: References, m: Model)
    requires Admitted(gw, routes, refs) && BuiltExactly(m.routes, Referring(routes, gw), gw, m.listeners, refs)
    requires BuiltAll(m.routes, Referring(routes, gw), gw, m.listeners, refs)
    ensures PlainNames(m, DirectoryOf(m))
  {
    AdmittedNames(gw, routes, refs, m);
    var dir := DirectoryOf(m);
    DirectoryResolves(m);
    forall n | n in dir
      ensures '/' !in dir[n].service.ns && '/' !in dir[n].service.name && n == ClusterName(dir[n].service, dir[n].port.port, dir[n].h2)
    {
      PlainCluster(m, Referring(routes, gw), gw, refs, dir[n]);
    }
  }

  lemma DirectoryResolves(m: Model)
    ensures forall n :: n in DirectoryOf(m) ==> Resolves(m, DirectoryOf(m)[n]) && DirectoryOf(m)[n].name == n
  {
  }

  lemma PlainCluster(m: Model, routes: seq<Route>, gw: Gateway, refs: References, c: Cluster)
    requires BuiltAll(m.routes, routes, gw, m.listeners, refs) && Resolves(m, c)
    requires forall s :: s in refs.services ==> '/' !in s.ns && '/' !in s.name
    ensures '/' !in c.service.ns && '/' !in c.service.name && c.name == ClusterName(c.service, c.port.port, c.h2)
  {
    var key, grpc, ref := ResolvedFrom(m, routes, gw, refs, c);
  }

  /** What holds of every snapshot: no port is bound twice nor taken from Envoy; every
      name referred to exists and no other does; no two route configurations share a name,
      and no two clusters unless a pooled UDPRoute n/p meets a Service udp/n on port p. */
  ghost predicate Closed(m: Model, r: Resources) {
    && Distinct(Binds(r.listeners))
    && (forall b :: b in Binds(r.listeners) ==> b.port !in {ENVOY_ADMIN_PORT, ENVOY_READINESS_PORT})
    && (forall n :: n in ConfigNames(r.configs) <==> n in RdsOf(r.listeners)) && Distinct(ConfigNames(r.configs))
    && (forall n :: n in ClusterNames(r.clusters) <==> n in Referred(r)) && INVALID_CLUSTER !in ClusterNames(r.clusters)
    && |r.endpoints| == |r.clusters| && (forall k :: 0 <= k < |r.clusters| ==> r.endpoints[k].cluster == r.clusters[k].name)
    && (Distinct(ClusterNames(r.clusters)) <==> !NamesClash(m))
  }

  lemma TranslationIsClosed(m: Model, refs: References, dir: map<string, Cluster>, r: Resources,
                            keys: seq<PortKey>, groups: seq<PortConfig>, wn: seq<string>, sn: seq<string>)
    requires Translatable(m, dir) && DistinctListenerNames(m) && Translates(m, refs, dir, r, keys, groups, wn, sn)
    requires StreamsUntied(m) && PlainNames(m, dir)
    ensures Closed(m, r)
  {
    assert forall k :: 0 <= k < |keys| ==> keys[k] in keys;
    BoundOnce(m, keys, groups);
    RdsClosed(m, keys, groups);
    ClustersClosed(m, refs, dir, r, keys, groups, wn, sn);
    ClustersDistinct(m, refs, dir, r, keys, groups, wn, sn);
  }

  /** The snapshot of a Gateway: its listeners as validated, its routes as attached to
      them, and what these translate to. */
  ghost predicate Compiled(gw: Gateway, routes: seq<Route>, refs: References, m: Model, r: Resources,
                           keys: seq<PortKey>, groups: seq<PortConfig>, wn: seq<string>, sn: seq<string>)
  {
    && m.listeners == ListenersFor(gw, refs)
    && BuiltExactly(m.routes, Referring(routes, gw), gw, m.listeners, refs)
    && BuiltAll(m.routes, Referring(routes, gw), gw, m.listeners, refs)
    && Translates(m, refs, DirectoryOf(m), r, keys, groups, wn, sn)
  }

  /** The whole compiler. For any Gateway, routes and references the API server admits
      its snapshot is the translation of the validated and attached Gateway, and is closed. */
  method Compile(gw: Gateway, routes: seq<Route>, refs: References)
    returns (m: Model, r: Resources, ghost keys: seq<PortKey>, ghost groups: seq<PortConfig>, ghost wn: seq<string>, ghost sn: seq<string>)
    requires Admitted(gw, routes, refs)
    ensures Compiled(gw, routes, refs, m, r, keys, groups, wn, sn)
    ensures Translatable(m, DirectoryOf(m))
    ensures Closed(m, r)
  {
    var listeners := Listeners(gw, refs);
    m := Build(gw, listeners[..], routes, refs);
    BuiltIsTranslatable(gw, routes, refs, m);
    AdmittedStreams(gw, routes, refs, m);
    AdmittedPlainNames(gw, routes, refs, m);
    r, keys, groups, wn, sn := TranslateGateway(m, refs, DirectoryOf(m));
    TranslationIsClosed(m, refs, DirectoryOf(m), r, keys, groups, wn, sn);
  }

  // ---- the order of the routes ----

  /** What a listener accepts of a route it carries. */
  lemma CarriedKind(gw: Gateway, routes: seq<Route>, refs: References, m: Model, i: nat, a: AttachedRoute, h: string)
    requires m.listeners == ListenersFor(gw, refs) && BuiltAll(m.routes, routes, gw, m.listeners, refs)
    requires a in m.routes && HostOf(a, i, h)
    ensures i < |gw.listeners| && a.route.key.kind in KindsOf(gw.listeners[i], refs.warpRouting) && a.route in routes
  {
    var k :| 0 <= k < |m.routes| && m.routes[k] == a;
    assert BuiltFrom(a, routes[k], gw, m.listeners, refs);
    HostedKind(a, routes[k], gw, m.listeners, refs, i, h);
    ListenerFacts(gw, refs, i, a.route.key.kind);
  }

  lemma HostedKind(a: AttachedRoute, route: Route, gw: Gateway, ls: seq<Listener>, refs: References, i: nat, h: string)
    requires BuiltFrom(a, route, gw, ls, refs) && HostOf(a, i, h)
    ensures a.route == route && i < |ls| && route.key.kind in ls[i].supportedKinds
  {
    var p :| p in a.parents && HostAt(p, i, h);
    assert AttachedHosts(ls[i], gw.ns, route, p.ref) != {};
  }

  /** A listener that accepts two kinds accepts HTTPRoutes and GRPCRoutes. */
  lemma AcceptedKinds(l: ListenerSpec, warp: bool, a: string, b: string)
    requires a in KindsOf(l, warp) && b in KindsOf(l, warp) && a != b
    ensures a in {"HTTPRoute", "GRPCRoute"} && b in {"HTTPRoute", "GRPCRoute"}
  {
  }

  lemma {:induction false} PlaceMapped<S, T>(s: seq<S>, t: seq<T>, x: S, y: T)
    requires |s| == |t| && forall k :: 0 <= k < |s| ==> (s[k] == x <==> t[k] == y)
    ensures Place(s, x) == Place(t, y)
  {
    if s != [] {
      PlaceMapped(s[1..], t[1..], x, y);
    }
  }

  /** An attached route has the place of its route. */
  lemma AttachedPlace(gw: Gateway, qs: seq<Route>, refs: References, m: Model, a: AttachedRoute)
    requires BuiltExactly(m.routes, qs, gw, m.listeners, refs) && a in m.routes
    ensures a.route in qs && Place(m.routes, a) == Place(qs, a.route)
  {
    var k :| 0 <= k < |m.routes| && m.routes[k] == a;
    assert m.routes[k] == AttachedOf(qs[k], gw, m.listeners, refs);
    PlaceMapped(m.routes, qs, a, a.route);
  }

  lemma {:induction false} FilteredPlaces(routes: seq<Route>, gw: Gateway, a: Route, b: Route)
    requires a in Referring(routes, gw) && b in Referring(routes, gw)
    ensures Place(Referring(routes, gw), a) <= Place(Referring(routes, gw), b) <==> Place(routes, a) <= Place(routes, b)
  {
    var n := |routes| - 1;
    var before, last := routes[..n], routes[n];
    var kept := Referring(before, gw);
    assert routes == before + [last];
    ReferringFacts(before, gw);
    PlaceConcat(before, [last], a);
    PlaceConcat(before, [last], b);
    PlaceConcat(kept, [last], a);
    PlaceConcat(kept, [last], b);
    PlaceFinds(before, a);
    PlaceFinds(before, b);
    PlaceFinds(kept, a);
    PlaceFinds(kept, b);
    if a in kept && b in kept { FilteredPlaces(before, gw, a, b); }
    assert kept + [] == kept;
  }

  /** Two attached routes stand to each other as their routes do. */
  lemma AttachedPlaces(gw: Gateway, routes: seq<Route>, refs: References, m: Model, a: AttachedRoute, b: AttachedRoute)
    requires BuiltExactly(m.routes, Referring(routes, gw), gw, m.listeners, refs) && a in m.routes && b in m.routes
    ensures Place(m.routes, a) <= Place(m.routes, b) <==> Place(routes, a.route) <= Place(routes, b.route)
  {
    AttachedPlace(gw, Referring(routes, gw), refs, m, a);
    AttachedPlace(gw, Referring(routes, gw), refs, m, b);
    FilteredPlaces(routes, gw, a.route, b.route);
  }

  lemma TwinsStayKept(gw: Gateway, routes: seq<Route>, others: seq<Route>, refs: References, m: Model, n: Model, i: nat)
    requires Admitted(gw, routes, refs) && m.listeners == ListenersFor(gw, refs) && WellAttached(m) && SameRoutes(m, n)
    requires BuiltAll(m.routes, Referring(routes, gw), gw, m.listeners, refs) && TwinsKept(gw, routes, others)
    requires BuiltExactly(m.routes, Referring(routes, gw), gw, m.listeners, refs)
    requires BuiltExactly(n.routes, Referring(others, gw), gw, n.listeners, refs)
    ensures KeepsTwins(m, n, i)
  {
    ReferringFacts(routes, gw);
    forall a, b, h, k | a in m.routes && b in m.routes && HostOf(a, i, h) && HostOf(b, i, k) && SameAge(a.route, b.route)
      ensures SameWayRound(m, n, a, b)
    {
      CarriedKind(gw, Referring(routes, gw), refs, m, i, a, h);
      CarriedKind(gw, Referring(routes, gw), refs, m, i, b, k);
      if a.route.key.kind == b.route.key.kind {
        assert a == b;
      } else {
        AcceptedKinds(gw.listeners[i], refs.warpRouting, a.route.key.kind, b.route.key.kind);
        TwinPairKept(gw, routes, others, refs, m, n, a, b);
      }
    }
  }

  lemma TwinPairKept(gw: Gateway, routes: seq<Route>, others: seq<Route>, refs: References, m: Model, n: Model, a: AttachedRoute, b: AttachedRoute)
    requires BuiltExactly(m.routes, Referring(routes, gw), gw, m.listeners, refs)
    requires BuiltExactly(n.routes, Referring(others, gw), gw, n.listeners, refs)
    requires TwinsKept(gw, routes, others) && SameRoutes(m, n) && a in m.routes && b in m.routes && SameAge(a.route, b.route)
    requires a.route.key.kind in {"HTTPRoute", "GRPCRoute"} && b.route.key.kind in {"HTTPRoute", "GRPCRoute"}
    ensures SameWayRound(m, n, a, b)
  {
    ReferringFacts(routes, gw);
    AttachedPlace(gw, Referring(routes, gw), refs, m, a);
    AttachedPlace(gw, Referring(routes, gw), refs, m, b);
    AttachedPlaces(gw, routes, refs, m, a, b);
    AttachedPlaces(gw, others, refs, n, a, b);
    assert Mixes(gw, routes, a.route) && Mixes(gw, routes, b.route);
  }

  lemma TwinsKeptOnPorts(gw: Gateway, routes: seq<Route>, others: seq<Route>, refs: References, m: Model, n: Model)
    requires Admitted(gw, routes, refs) && m.listeners == ListenersFor(gw, refs) && WellAttached(m) && SameRoutes(m, n)
    requires BuiltAll(m.routes, Referring(routes, gw), gw, m.listeners, refs) && TwinsKept(gw, routes, others)
    requires BuiltExactly(m.routes, Referring(routes, gw), gw, m.listeners, refs)
    requires BuiltExactly(n.routes, Referring(others, gw), gw, n.listeners, refs)
    requires Sound(m.listeners) && StreamsUntied(m)
    ensures forall key :: SameOnPort(m, n, key)
  {
    forall i: nat ensures KeepsTwins(m, n, i) {
      TwinsStayKept(gw, routes, others, refs, m, n, i);
    }
    forall ls ensures SameTwinOrder(m, n, ls) {
      KeptTwinsAreEnough(m, n, ls);
    }
    forall key ensures SameOnPort(m, n, key) {
      OneProtocol(m, key);
      GroupMembers(m.listeners, key);
    }
  }

  lemma SameBuilt(gw: Gateway, routes: seq<Route>, others: seq<Route>, refs: References, m: Model, n: Model)
    requires (forall q :: q in routes <==> q in others) && m.listeners == n.listeners
    requires BuiltExactly(m.routes, Referring(routes, gw), gw, m.listeners, refs)
    requires BuiltExactly(n.routes, Referring(others, gw), gw, n.listeners, refs)
    ensures SameRoutes(m, n) && DirectoryOf(m) == DirectoryOf(n)
  {
    ReferringFacts(routes, gw);
    ReferringFacts(others, gw);
    BuiltMembers(gw, routes, refs, m);
    BuiltMembers(gw, others, refs, n);
    assert SameRoutes(m, n);
    assert ClustersOf(m) == ClustersOf(n);
  }

  lemma BuiltMembers(gw: Gateway, routes: seq<Route>, refs: References, m: Model)
    requires BuiltExactly(m.routes, Referring(routes, gw), gw, m.listeners, refs)
    ensures forall a :: a in m.routes <==> exists q :: q in Referring(routes, gw) && a == AttachedOf(q, gw, m.listeners, refs)
  {
    var qs := Referring(routes, gw);
    forall q | q in qs ensures AttachedOf(q, gw, m.listeners, refs) in m.routes {
      var k :| 0 <= k < |qs| && qs[k] == q;
      assert m.routes[k] in m.routes;
    }
  }

  lemma AdmittedNames(gw: Gateway, routes: seq<Route>, refs: References, m: Model)
    requires Admitted(gw, routes, refs) && BuiltExactly(m.routes, Referring(routes, gw), gw, m.listeners, refs)
    ensures ValidNames(m)
  {
    ReferringFacts(routes, gw);
    BuiltMembers(gw, routes, refs, m);
  }

  /** The snapshot does not depend on the order the routes are listed in, as long as the
      Gateway's HTTPRoutes and GRPCRoutes of one namespace, name and creation second keep
      theirs, nor on the order any map is walked in. */
  lemma CompiledOnce(gw: Gateway, routes: seq<Route>, others: seq<Route>, refs: References,
                     m: Model, r: Resources, keys: seq<PortKey>, groups: seq<PortConfig>, wn: seq<string>, sn: seq<string>,
                     n: Model, r': Resources, keys': seq<PortKey>, groups': seq<PortConfig>, wn': seq<string>, sn': seq<string>)
    requires Admitted(gw, routes, refs) && (forall q :: q in routes <==> q in others) && TwinsKept(gw, routes, others)
    requires Compiled(gw, routes, refs, m, r, keys, groups, wn, sn)
    requires Compiled(gw, others, refs, n, r', keys', groups', wn', sn')
    ensures m.listeners == n.listeners && r == r'
  {
    BuiltIsTranslatable(gw, routes, refs, m);
    SameBuilt(gw, routes, others, refs, m, n);
    AdmittedNames(gw, routes, refs, m);
    AdmittedStreams(gw, routes, refs, m);
    TwinsKeptOnPorts(gw, routes, others, refs, m, n);
    SameSnapshot(m, n, refs, DirectoryOf(m), r, keys, groups, wn, sn, r', keys', groups', wn', sn');
  }

  /** However the API server orders the routes of each kind, a Gateway has one snapshot. */
  lemma ListedOnce(gw: Gateway, lists: RouteLists, others: RouteLists, features: Features, refs: References,
                   m: Model, r: Resources, keys: seq<PortKey>, groups: seq<PortConfig>, wn: seq<string>, sn: seq<string>,
                   n: Model, r': Resources, keys': seq<PortKey>, groups': seq<PortConfig>, wn': seq<string>, sn': seq<string>)
    requires ByKind(lists) && ByKind(others) && forall q :: q in AllRoutes(lists, features) <==> q in AllRoutes(others, features)
    requires Admitted(gw, AllRoutes(lists, features), refs)
    requires Compiled(gw, AllRoutes(lists, features), refs, m, r, keys, groups, wn, sn)
    requires Compiled(gw, AllRoutes(others, features), refs, n, r', keys', groups', wn', sn')
    ensures m.listeners == n.listeners && r == r'
  {
    ListingKeepsTwins(gw, lists, others, features);
    CompiledOnce(gw, AllRoutes(lists, features), AllRoutes(others, features), refs, m, r, keys, groups, wn, sn, n, r', keys', groups', wn', sn');
  }

  // ---- the tunnel ----

  /** The rule list of an admitted Gateway is always well formed. */
  lemma AdmittedRulesPass(gw: Gateway, routes: seq<Route>, refs: References, handwritten: seq<IngressRule>, tcp: map<string, string>, envoy: string,
                          rules: seq<IngressRule>, exact: seq<IngressRule>, wildcard: seq<IngressRule>, service: string)
    requires Admitted(gw, routes, refs)
    requires IsTunnelIngress(rules, handwritten, ListenersFor(gw, refs), tcp, envoy, exact, wildcard, service)
    ensures ValidateIngress(rules) == ""
  {
    var ls := ListenersFor(gw, refs);
    WellFormedExact(rules, handwritten, ls, tcp, envoy, exact, wildcard, service);
    forall l | l in ls ensures !HttpClaim(l, "") {
      var i :| 0 <= i < |ls| && ls[i] == l;
      assert gw.listeners[i] in gw.listeners;
    }
  }

  /** Public hostnames of TCP listeners as the annotations give them: names or wildcards. */
  ghost predicate PublicNames(tcp: map<string, string>) {
    forall n :: n in tcp ==> Pattern(tcp[n]) && tcp[n] != "*"
  }

  lemma AdmittedClaims(gw: Gateway, routes: seq<Route>, refs: References, tcp: map<string, string>)
    requires Admitted(gw, routes, refs) && PublicNames(tcp)
    ensures ValidClaims(ListenersFor(gw, refs), tcp)
  {
    var ls := ListenersFor(gw, refs);
    forall l | l in ls ensures l.spec in gw.listeners {
      var i :| 0 <= i < |ls| && ls[i] == l;
      assert gw.listeners[i] in gw.listeners;
    }
    ClaimsAdmitted(gw.listeners, ls, tcp);
  }

  lemma ClaimsAdmitted(specs: seq<ListenerSpec>, ls: seq<Listener>, tcp: map<string, string>)
    requires PublicNames(tcp) && forall l :: l in ls ==> l.spec in specs
    requires forall l :: l in specs ==> Pattern(ListenerHost(l.hostname)) && l.hostname != Some("*") && l.hostname != Some("")
    ensures ValidClaims(ls, tcp)
  {
    forall h | Claimed(ls, tcp, h) ensures Pattern(h) && h != "*" {
      var l :| l in ls && (HttpClaim(l, h) || StreamClaim(l, tcp, h));
    }
  }

  /** The tunnel of a Gateway whose spec lists its listeners in another order sends every
      request to the same service. */
  lemma TunnelIgnoresOrder(gw: Gateway, other: Gateway, routes: seq<Route>, refs: References, handwritten: seq<IngressRule>,
                           tcp: map<string, string>, envoy: string,
                           rules: seq<IngressRule>, exact: seq<IngressRule>, wildcard: seq<IngressRule>, service: string,
                           rules': seq<IngressRule>, exact': seq<IngressRule>, wildcard': seq<IngressRule>, service': string,
                           host: string, path: string, re: E.Matches)
    requires Admitted(gw, routes, refs) && Admitted(other, routes, refs) && PublicNames(tcp)
    requires gw.ns == other.ns && forall l :: l in gw.listeners <==> l in other.listeners
    requires IsTunnelIngress(rules, handwritten, ListenersFor(gw, refs), tcp, envoy, exact, wildcard, service)
    requires IsTunnelIngress(rules', handwritten, ListenersFor(other, refs), tcp, envoy, exact', wildcard', service')
    ensures var k, k' := FirstRule(rules, host, path, re), FirstRule(rules', host, path, re);
            k.Some? && k'.Some? && rules[k.value].service == rules'[k'.value].service
  {
    OrderOfSpec(gw, other, refs);
    AdmittedClaims(gw, routes, refs, tcp);
    AdmittedClaims(other, routes, refs, tcp);
    OrderIndependent(handwritten, tcp, envoy, ListenersFor(gw, refs), rules, exact, wildcard, service,
                     ListenersFor(other, refs), rules', exact', wildcard', service', host, path, re);
  }

  // ---- what clients see ----

  lemma {:induction false} ConfigOfGroup(groups: seq<PortConfig>, k: nat, c: E.RouteConfiguration)
    requires k < |groups| && c in groups[k].configs
    ensures c in ConfigsOf(groups)
  {
    var n := |groups| - 1;
    if k < n {
      ConfigOfGroup(groups[..n], k, c);
    }
  }

  /** The listeners of a valid HTTP listener's port and the configuration Envoy serves
      there: the one of the port's name in the snapshot. */
  lemma HttpConfigured(m: Model, keys: seq<PortKey>, groups: seq<PortConfig>, i: nat) returns (c: E.RouteConfiguration)
    requires Sound(m.listeners) && PortKeys(m, keys) && ArePortConfigs(m, keys, groups)
    requires i < |m.listeners| && m.listeners[i].valid && m.listeners[i].spec.protocol == HTTP
    ensures c in ConfigsOf(groups) && c.name == HttpName(m.listeners[i].spec.port)
    ensures IsRouteConfiguration(m, GroupOf(m.listeners, PortKeyOf(m.listeners[i])), c)
  {
    var key := PortKeyOf(m.listeners[i]);
    GroupMembers(m.listeners, key);
    assert i in GroupOf(m.listeners, key);
    assert key in keys;
    var k :| 0 <= k < |keys| && keys[k] == key;
    var first := GroupOf(m.listeners, key)[0];
    assert first in GroupOf(m.listeners, key);
    PortGroups(m.listeners, i, first);
    assert IsPortConfig(m, keys[k], groups[k]);
    c := groups[k].configs[0];
    ConfigOfGroup(groups, k, c);
  }

  /** From the Gateway and its routes to what a client is answered, and exactly when: in
      the snapshot of an admitted Gateway, the one route configuration of an HTTP port's
      name answers a request whose host a valid listener of the port owns with a rule of a
      route that serves the request on that listener, of which none comes before it in
      Gateway API precedence, and with a 404 only if no rule does; if and only if some
      hostname serving the host lies under the listener's or the listener fallen back to
      accepts nothing. */
  lemma ClientsAreAnswered(gw: Gateway, routes: seq<Route>, refs: References, m: Model, r: Resources,
                           keys: seq<PortKey>, groups: seq<PortConfig>, wn: seq<string>, sn: seq<string>,
                           i: nat, c: E.RouteConfiguration, req: E.Request, re: E.Matches)
    requires Admitted(gw, routes, refs) && Compiled(gw, routes, refs, m, r, keys, groups, wn, sn)
    requires ValidMatches(m) && ValidRequest(req)
    requires i < |m.listeners| && m.listeners[i].valid && m.listeners[i].spec.protocol == HTTP
    requires Owns(m, GroupOf(m.listeners, PortKeyOf(m.listeners[i])), req.host, i)
    requires c in r.configs && c.name == HttpName(m.listeners[i].spec.port)
    ensures var ls := GroupOf(m.listeners, PortKeyOf(m.listeners[i]));
            RulesAnswer(gw, m, ls, i, req, re, E.Serve(c, req, re)) <==>
            ServedUnder(m, ls, i, req.host) || FallbackSilent(m, ls, req, re)
  {
    var ls := GroupOf(m.listeners, PortKeyOf(m.listeners[i]));
    BuiltIsTranslatable(gw, routes, refs, m);
    assert Hostful(m, ls) && DistinctHosts(m, ls) by { GroupIsHostful(m, PortKeyOf(m.listeners[i])); }
    assert IsRouteConfiguration(m, ls, c) by { TheHttpConfig(m, keys, groups, i, c); }
    NoBareStars(gw, routes, refs);
    GatewayPreserved(gw, Referring(routes, gw), refs, m, ls, c, req, re, i);
  }

  /** A request that some entry of an admitted Gateway serves gets no 404. */
  lemma ServedIsAnswered(gw: Gateway, routes: seq<Route>, refs: References, m: Model, ls: seq<nat>, i: nat,
                         req: E.Request, re: E.Matches, e: Entry, answer: Option<E.Route>)
    requires Admitted(gw, routes, refs) && BuiltAll(m.routes, Referring(routes, gw), gw, m.listeners, refs) && Hostful(m, ls)
    requires Candidate(m, ls, i, req, re, e) && RulesAnswer(gw, m, ls, i, req, re, answer)
    ensures answer.Some?
  {
    NoBareStars(gw, routes, refs);
    CandidateIsAnswered(gw, Referring(routes, gw), refs, m, ls, i, req, re, e, answer);
  }

  /** The Envoy listener and the configuration of a valid HTTPS listener. */
  lemma HttpsConfigured(m: Model, keys: seq<PortKey>, groups: seq<PortConfig>, i: nat)
    returns (chains: seq<E.FilterChain>, c: E.RouteConfiguration)
    requires Sound(m.listeners) && PortKeys(m, keys) && ArePortConfigs(m, keys, groups)
    requires i < |m.listeners| && m.listeners[i].valid && m.listeners[i].spec.protocol == HTTPS
    ensures var port, indexes := m.listeners[i].spec.port, GroupOf(m.listeners, PortKeyOf(m.listeners[i]));
            && E.StreamListener(HttpsName(port), ContainerPort(port), chains) in ListenersOf(groups)
            && AreHttpsChains(m, port, indexes, chains) && i in indexes
            && c in ConfigsOf(groups) && c in HttpsConfigsOf(m, port, i)
  {
    var key := PortKeyOf(m.listeners[i]);
    var indexes := GroupOf(m.listeners, key);
    GroupMembers(m.listeners, key);
    assert i in indexes && key in keys;
    var k :| 0 <= k < |keys| && keys[k] == key;
    assert indexes[0] in indexes;
    PortGroups(m.listeners, i, indexes[0]);
    assert IsPortConfig(m, keys[k], groups[k]);
    chains :| AreHttpsChains(m, key.port, indexes, chains) &&
      groups[k] == PortConfig(Some(E.StreamListener(HttpsName(key.port), ContainerPort(key.port), chains)),
                              groups[k].configs, AllConfigClusters(groups[k].configs), None);
    ListenerOfGroup(groups, k);
    var j :| 0 <= j < |indexes| && indexes[j] == i;
    c := groups[k].configs[j];
    ConfigOfGroup(groups, k, c);
  }

  /** The same for HTTPS, where isolation always holds: a connection whose server name a
      valid listener owns is accepted with that listener's certificates, and its requests
      are answered by that listener's routes alone, with a 404 for a host its hostname
      does not cover. */
  lemma HttpsClientsAreAnswered(gw: Gateway, routes: seq<Route>, refs: References, m: Model, r: Resources,
                                keys: seq<PortKey>, groups: seq<PortConfig>, wn: seq<string>, sn: seq<string>,
                                i: nat, name: string, req: E.Request, re: E.Matches)
    returns (l: E.Listener, c: E.RouteConfiguration)
    requires Admitted(gw, routes, refs) && Compiled(gw, routes, refs, m, r, keys, groups, wn, sn)
    requires ValidMatches(m) && ValidRequest(req)
    requires i < |m.listeners| && m.listeners[i].valid && m.listeners[i].spec.protocol == HTTPS
    requires Owns(m, GroupOf(m.listeners, PortKeyOf(m.listeners[i])), name, i)
    ensures l in r.listeners && l.StreamListener? && l.port == ContainerPort(m.listeners[i].spec.port)
    ensures forall o :: o in r.listeners && BindOf(o) == BindOf(l) ==> o == l
    ensures var k := E.Accept(l.chains, name);
            k.Some? && l.chains[k.value].certificates == Some(CertificateData(m.listeners[i])) &&
            l.chains[k.value].filter == E.HttpConnectionManager(c.name)
    ensures c in r.configs && forall d :: d in r.configs && d.name == c.name ==> d == c
    ensures HostCovers(OwnHost(m, i), req.host) ==> RulesAnswer(gw, m, [i], i, req, re, E.Serve(c, req, re))
    ensures !HostCovers(OwnHost(m, i), req.host) ==> E.Serve(c, req, re).None?
  {
    BuiltIsTranslatable(gw, routes, refs, m);
    var port, indexes := m.listeners[i].spec.port, GroupOf(m.listeners, PortKeyOf(m.listeners[i]));
    var chains;
    chains, c := HttpsConfigured(m, keys, groups, i);
    l := E.StreamListener(HttpsName(port), ContainerPort(port), chains);
    OnlyBinder(m, keys, groups, l);
    HttpsOwner(m, port, indexes, chains, name, i);
    forall d | d in r.configs && d.name == c.name ensures d == c {
      SameNameSameConfig(m, keys, groups, d, c);
    }
    HttpsAnswers(gw, routes, refs, m, port, i, c, req, re);
  }

  lemma OnlyBinder(m: Model, keys: seq<PortKey>, groups: seq<PortConfig>, l: E.Listener)
    requires Sound(m.listeners) && PortKeys(m, keys) && ArePortConfigs(m, keys, groups) && l in ListenersOf(groups)
    ensures forall o :: o in ListenersOf(groups) && BindOf(o) == BindOf(l) ==> o == l
  {
    assert forall k :: 0 <= k < |keys| ==> keys[k] in keys;
    BoundOnce(m, keys, groups);
    var ls := ListenersOf(groups);
    var k :| 0 <= k < |ls| && ls[k] == l;
    BindsUnique(ls, k);
  }

  lemma HttpsOwner(m: Model, port: nat, indexes: seq<nat>, chains: seq<E.FilterChain>, name: string, i: nat)
    requires Sound(m.listeners) && (forall l :: l in m.listeners ==> l.spec.hostname != Some("*"))
    requires forall j :: 0 <= j < |m.listeners| ==> Pattern(OwnHost(m, j))
    requires i < |m.listeners| && indexes == GroupOf(m.listeners, PortKeyOf(m.listeners[i]))
    requires AreHttpsChains(m, port, indexes, chains) && Owns(m, indexes, name, i)
    ensures var k := E.Accept(chains, name); k.Some? && chains[k.value] == HttpsChain(port, m.listeners[i])
  {
    GroupIsHostful(m, PortKeyOf(m.listeners[i]));
    HttpsChainTaken(m, port, indexes, chains, name);
    var k := E.Accept(chains, name);
    OwnerUnique(m, indexes, name, i, indexes[k.value]);
  }

  lemma HttpsAnswers(gw: Gateway, routes: seq<Route>, refs: References, m: Model, port: nat, i: nat,
                     c: E.RouteConfiguration, req: E.Request, re: E.Matches)
    requires Admitted(gw, routes, refs) && BuiltAll(m.routes, Referring(routes, gw), gw, m.listeners, refs) && WellAttached(m)
    requires ValidMatches(m) && ValidRequest(req)
    requires i < |m.listeners| && HasHostnames(m.listeners[i].spec.protocol) && c in HttpsConfigsOf(m, port, i)
    ensures HostCovers(OwnHost(m, i), req.host) ==> RulesAnswer(gw, m, [i], i, req, re, E.Serve(c, req, re))
    ensures !HostCovers(OwnHost(m, i), req.host) ==> E.Serve(c, req, re).None?
  {
    assert Hostful(m, [i]) && DistinctHosts(m, [i]);
    AloneNeverFallsBack(m, i, req, re);
    NoBareStars(gw, routes, refs);
    if HostCovers(OwnHost(m, i), req.host) {
      OwnsAlone(m, i, req.host);
      GatewayPreserved(gw, Referring(routes, gw), refs, m, [i], c, req, re, i);
    } else {
      MeaningPreserved(m, [i], c, req, re);
    }
  }

  lemma OwnsAlone(m: Model, i: nat, host: string)
    requires HostCovers(OwnHost(m, i), host)
    ensures Owns(m, [i], host, i)
  {
  }

  lemma NoBareStars(gw: Gateway, routes: seq<Route>, refs: References)
    requires Admitted(gw, routes, refs)
    ensures forall a :: a in Referring(routes, gw) ==> "*" !in a.hostnames
  {
    ReferringFacts(routes, gw);
    forall a | a in Referring(routes, gw) ensures "*" !in a.hostnames {
      assert ValidRouteHostnames(a);
    }
  }

  lemma TheHttpConfig(m: Model, keys: seq<PortKey>, groups: seq<PortConfig>, i: nat, c: E.RouteConfiguration)
    requires Sound(m.listeners) && DistinctListenerNames(m) && PortKeys(m, keys) && ArePortConfigs(m, keys, groups)
    requires i < |m.listeners| && m.listeners[i].valid && m.listeners[i].spec.protocol == HTTP
    requires c in ConfigsOf(groups) && c.name == HttpName(m.listeners[i].spec.port)
    ensures IsRouteConfiguration(m, GroupOf(m.listeners, PortKeyOf(m.listeners[i])), c)
  {
    var d := HttpConfigured(m, keys, groups, i);
    SameNameSameConfig(m, keys, groups, c, d);
  }

  lemma SameNameSameConfig(m: Model, keys: seq<PortKey>, groups: seq<PortConfig>, c: E.RouteConfiguration, d: E.RouteConfiguration)
    requires DistinctListenerNames(m) && Distinct(keys) && ArePortConfigs(m, keys, groups)
    requires c in ConfigsOf(groups) && d in ConfigsOf(groups) && c.name == d.name
    ensures c == d
  {
    RdsClosed(m, keys, groups);
    NamedApart(ConfigsOf(groups), c, d);
  }

  lemma NamedApart(configs: seq<E.RouteConfiguration>, c: E.RouteConfiguration, d: E.RouteConfiguration)
    requires Distinct(ConfigNames(configs)) && c in configs && d in configs && c.name == d.name
    ensures c == d
  {
    var j :| 0 <= j < |configs| && configs[j] == c;
    var k :| 0 <= k < |configs| && configs[k] == d;
    assert ConfigNames(configs)[j] == ConfigNames(configs)[k];
  }
}
