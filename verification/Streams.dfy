/** TCP and UDP listeners, which forward everything to one route's backends. */
module Streams {
  import opened Text
  import opened Sorting
  import opened GatewayModel
  import opened Attachment
  import opened Backends
  import opened RouteActions
  import opened Entries
  import opened RouteConfig
  import opened Precedence
  import opened Layer4
  import opened Ports
  import E = Envoy

  ghost predicate OldestOnListener(m: Model, i: nat, r: AttachedRoute) {
    OnListener(m, i, r) && forall s :: OnListener(m, i, s) ==> CompareAge(r, s) <= 0
  }

  method OldestRoute(m: Model, i: nat) returns (r: Option<AttachedRoute>)
    ensures r.None? <==> forall s :: !OnListener(m, i, s)
    ensures r.Some? ==> OldestOnListener(m, i, r.value)
  {
    var attached := AttachedToListener(m, i);
    var routes := Collect(attached.Keys);
    if |routes| == 0 {
      forall s ensures !OnListener(m, i, s) {
        assert s in attached <==> s in routes;
      }
      return None;
    }
    assert routes[0] in routes;
    var oldest := Oldest(routes);
    r := Some(oldest);
  }

  lemma OldestOnListenerUnique(m: Model, i: nat, r: AttachedRoute, s: AttachedRoute)
    requires TwinFree(m, i) && OldestOnListener(m, i, r) && OldestOnListener(m, i, s)
    ensures r == s
  {
    AgeChain(r, s, r);
  }

  // ---- TCP ----

  function TcpListenerOf(name: string, port: nat, r: AttachedRoute): E.Listener {
    E.StreamListener(name, ContainerPort(port), [E.FilterChain("", [], E.TcpProxy(TcpTarget(BackendsOf(r))), None)])
  }

  method TcpListener(name: string, port: nat, m: Model, i: nat, clusters: map<string, Cluster>, ghost dir: map<string, Cluster>)
    returns (listener: Option<E.Listener>, out: map<string, Cluster>, ghost route: Option<AttachedRoute>)
    requires Directory(dir) && ListedModel(m, dir) && Gathered(clusters, dir)
    ensures route.None? <==> forall s :: !OnListener(m, i, s)
    ensures route.Some? ==> OldestOnListener(m, i, route.value)
    ensures listener == match route case None => None case Some(r) => Some(TcpListenerOf(name, port, r))
    ensures Gathered(out, dir)
    ensures out.Keys == clusters.Keys + if route.Some? then SpecifierNames(TcpTarget(BackendsOf(route.value))) - {INVALID_CLUSTER} else {}
  {
    var r := OldestRoute(m, i);
    route := r;
    if r.None? {
      return None, clusters, None;
    }
    BackendsListed(m, r.value, dir);
    var proxy;
    proxy, out := TcpProxyFor(BackendsOf(r.value), clusters, dir);
    listener := Some(E.StreamListener(name, ContainerPort(port), [E.FilterChain("", [], proxy, None)]));
  }

  // ---- UDP ----

  /** A cluster made of several backends, one locality for each. */
  datatype WeightedCluster = WeightedCluster(name: string, backends: seq<Backend>)

  function Positive(backends: seq<Backend>): seq<Backend> {
    if backends == [] then []
    else Positive(backends[..|backends| - 1]) + if backends[|backends| - 1].weight > 0 then [backends[|backends| - 1]] else []
  }

  method PositiveBackends(all: seq<Backend>) returns (backends: seq<Backend>)
    ensures backends == Positive(all)
    ensures forall b :: b in backends ==> b.weight > 0 && b in all
  {
    backends := [];
    for k := 0 to |all|
      invariant backends == Positive(all[..k])
      invariant forall b :: b in backends ==> b.weight > 0 && b in all
    {
      assert all[..k + 1][..k] == all[..k];
      if all[k].weight > 0 {
        backends := backends + [all[k]];
      }
    }
    assert all[..|all|] == all;
  }

  /** Leaving out what weighs nothing changes no share. */
  lemma {:induction false} PositiveKeepsWeight(backends: seq<Backend>, o: Outcome)
    ensures WeightTo(Positive(backends), o) == WeightTo(backends, o)
    ensures TotalWeight(Positive(backends)) == TotalWeight(backends)
  {
    if backends != [] {
      var n := |backends| - 1;
      PositiveKeepsWeight(backends[..n], o);
      var before := Positive(backends[..n]);
      if backends[n].weight > 0 {
        assert (before + [backends[n]])[..|before|] == before;
      } else {
        assert before + [] == before;
      }
    }
  }

  function WeightedName(key: RouteKey): string {
    "udp/" + key.ns + "/" + key.name
  }

  /** Where a UDP listener sends its sessions. */
  function UdpTarget(r: AttachedRoute): string {
    var backends := Positive(BackendsOf(r));
    if |backends| == 1 && backends[0].cluster.Some? then backends[0].cluster.value.name
    else if |backends| > 1 then WeightedName(r.route.key)
    else INVALID_CLUSTER
  }

  function UdpService(r: AttachedRoute): set<string> {
    var backends := Positive(BackendsOf(r));
    if |backends| == 1 && backends[0].cluster.Some? then {backends[0].cluster.value.name} else {}
  }

  function UdpWeighted(r: AttachedRoute): Option<WeightedCluster> {
    var backends := Positive(BackendsOf(r));
    if |backends| > 1 then Some(WeightedCluster(WeightedName(r.route.key), backends)) else None
  }

  method UdpListener(name: string, port: nat, m: Model, i: nat, clusters: map<string, Cluster>,
                     weighted: map<string, WeightedCluster>, ghost dir: map<string, Cluster>)
    returns (listener: Option<E.Listener>, out: map<string, Cluster>, weighted': map<string, WeightedCluster>,
             ghost route: Option<AttachedRoute>)
    requires Directory(dir) && ListedModel(m, dir) && Gathered(clusters, dir)
    ensures route.None? <==> forall s :: !OnListener(m, i, s)
    ensures route.Some? ==> OldestOnListener(m, i, route.value)
    ensures listener.None? <==> forall s :: !OnListener(m, i, s)
    ensures listener == match route
              case None => None
              case Some(r) => Some(E.DatagramListener(name, ContainerPort(port), UdpTarget(r)))
    ensures Gathered(out, dir) && out.Keys == clusters.Keys + if route.Some? then UdpService(route.value) else {}
    ensures weighted' == if route.Some? && UdpWeighted(route.value).Some?
                         then weighted[WeightedName(route.value.route.key) := UdpWeighted(route.value).value] else weighted
  {
    out, weighted' := clusters, weighted;
    var r := OldestRoute(m, i);
    route := r;
    if r.None? {
      return None, out, weighted', None;
    }
    var backends := PositiveBackends(BackendsOf(r.value));
    BackendsListed(m, r.value, dir);

    var target := INVALID_CLUSTER;
    if |backends| == 1 && backends[0].cluster.Some? {
      target := backends[0].cluster.value.name;
      assert backends[0] in backends;
      out := out[target := backends[0].cluster.value];
    } else if |backends| > 1 {
      target := WeightedName(r.value.route.key);
      weighted' := weighted'[target := WeightedCluster(target, backends)];
    }
    listener := Some(E.DatagramListener(name, ContainerPort(port), target));
  }

  // ---- names of weighted clusters ----

  /** A weighted cluster is never taken for the invalid one. */
  lemma WeightedNameValid(a: RouteKey)
    ensures WeightedName(a) != INVALID_CLUSTER
  {
    assert WeightedName(a)[0] == 'u';
  }

  /** A Service in a namespace called udp can have the name of a UDPRoute's
      weighted cluster. */
  lemma WeightedNamesCanCollide()
    ensures WeightedName(RouteKey("UDPRoute", "a", "80")) == ClusterName(NamespacedName("udp", "a"), 80, false)
  {
    assert Decimal(80) == Decimal(8) + [Digit(0)] && Decimal(8) == [Digit(8)];
    assert Digit(8) == '8' && Digit(0) == '0';
    assert Decimal(80) == "80";
  }

  /** Exactly the Services that collide with a route: those of namespace udp, named
      like the route's namespace, on the port the route is named after. */
  lemma CollisionExact(key: RouteKey, s: NamespacedName, port: nat, h2: bool)
    requires '/' !in key.ns && '/' !in key.name && '/' !in s.ns && '/' !in s.name
    ensures WeightedName(key) == ClusterName(s, port, h2) <==>
            s.ns == "udp" && s.name == key.ns && Decimal(port) == key.name && !h2
  {
    var tail := Decimal(port) + (if h2 then "/h2" else "");
    assert WeightedName(key) == "udp" + ['/'] + (key.ns + "/" + key.name);
    assert ClusterName(s, port, h2) == s.ns + ['/'] + (s.name + "/" + tail);
    assert key.ns + "/" + key.name == key.ns + ['/'] + key.name && s.name + "/" + tail == s.name + ['/'] + tail;
    if h2 { assert tail[|Decimal(port)|] == '/'; }
    if WeightedName(key) == ClusterName(s, port, h2) {
      SeparatorSplits('/', "udp", key.ns + "/" + key.name, s.ns, s.name + "/" + tail);
      SeparatorSplits('/', key.ns, key.name, s.name, tail);
      assert tail == Decimal(port);
    }
    assert !h2 ==> tail == Decimal(port);
  }
}
