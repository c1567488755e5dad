/** Resolving the backends of routes to clusters. */
module Backends {
  import opened Text
  import opened GatewayModel
  import opened RefGrants

  /** The target standing for an unresolved backend; no snapshot emits such a cluster. */
  const INVALID_CLUSTER := "invalid-backend"

  const RESOLVED := "ResolvedRefs"

  datatype Resolution = Resolved(cluster: Cluster) | Failed(reason: string)

  function FirstPort(ports: seq<ServicePort>, n: nat): Option<ServicePort> {
    if ports == [] then None
    else if ports[0].port == n then Some(ports[0])
    else FirstPort(ports[1..], n)
  }

  function ClusterName(service: NamespacedName, port: nat, h2: bool): string {
    service.ns + "/" + service.name + "/" + Decimal(port) + (if h2 then "/h2" else "")
  }

  function BackendService(routeNs: string, ref: BackendRef): NamespacedName {
    NamespacedName(NamespaceOf(ref.ref.ns, routeNs), ref.ref.name)
  }

  ghost function ResolutionOf(key: RouteKey, grpc: bool, ref: BackendRef, refs: References): Resolution {
    var service := BackendService(key.ns, ref);
    if GroupOf(ref.ref, CORE_GROUP) != CORE_GROUP || KindOf(ref.ref, "Service") != "Service" then Failed("InvalidKind")
    else if !PermittedSpec(refs, GATEWAY_GROUP, key.kind, key.ns, CORE_GROUP, "Service", service.ns, service.name) then
      Failed("RefNotPermitted")
    else if service !in refs.services then Failed("BackendNotFound")
    else if refs.services[service].externalName then Failed("UnsupportedProtocol")
    else if ref.port.None? then Failed("BackendNotFound")
    else match FirstPort(refs.services[service].ports, ref.port.value)
      case None => Failed("BackendNotFound")
      case Some(port) =>
        var h2 := grpc || port.h2c;
        Resolved(Cluster(ClusterName(service, port.port, h2), service, port, h2))
  }

  method ResolveBackend(key: RouteKey, grpc: bool, ref: BackendRef, refs: References) returns (r: Resolution)
    ensures r == ResolutionOf(key, grpc, ref, refs)
  {
    var service := BackendService(key.ns, ref);
    if GroupOf(ref.ref, CORE_GROUP) != CORE_GROUP || KindOf(ref.ref, "Service") != "Service" {
      return Failed("InvalidKind");
    }
    var permitted := Permitted(refs, GATEWAY_GROUP, key.kind, key.ns, CORE_GROUP, "Service", service.ns, service.name);
    if !permitted {
      return Failed("RefNotPermitted");
    }
    if service !in refs.services {
      return Failed("BackendNotFound");
    }
    if refs.services[service].externalName {
      return Failed("UnsupportedProtocol");
    }
    if ref.port.None? {
      return Failed("BackendNotFound");
    }
    var ports := refs.services[service].ports;
    for i := 0 to |ports|
      invariant FirstPort(ports[i..], ref.port.value) == FirstPort(ports, ref.port.value)
    {
      var port := ports[i];
      if port.port != ref.port.value {
        assert ports[i..][1..] == ports[i + 1..];
        continue;
      }
      var h2 := grpc || port.h2c;
      return Resolved(Cluster(ClusterName(service, port.port, h2), service, port, h2));
    }
    return Failed("BackendNotFound");
  }

  ghost function ClusterOf(r: Resolution): Option<Cluster> {
    if r.Resolved? then Some(r.cluster) else None
  }

  ghost function BackendsOfRule(key: RouteKey, rule: Rule, refs: References): seq<Backend> {
    seq(|rule.backends|, j requires 0 <= j < |rule.backends| =>
      Backend(if rule.backends[j].weight.Some? then rule.backends[j].weight.value else 1,
              ClusterOf(ResolutionOf(key, rule.grpc, rule.backends[j], refs))))
  }

  ghost function FirstFailure(key: RouteKey, grpc: bool, backends: seq<BackendRef>, refs: References): Option<string> {
    if backends == [] then None
    else match FirstFailure(key, grpc, backends[..|backends| - 1], refs)
      case Some(reason) => Some(reason)
      case None =>
        var r := ResolutionOf(key, grpc, backends[|backends| - 1], refs);
        if r.Failed? then Some(r.reason) else None
  }

  ghost function FirstFailureOf(key: RouteKey, rules: seq<Rule>, refs: References): Option<string> {
    if rules == [] then None
    else match FirstFailureOf(key, rules[..|rules| - 1], refs)
      case Some(reason) => Some(reason)
      case None => FirstFailure(key, rules[|rules| - 1].grpc, rules[|rules| - 1].backends, refs)
  }

  /** The backends of one rule; of the failures, the first of all is kept. */
  method ResolveRule(key: RouteKey, rule: Rule, refs: References, before: Option<string>) returns (row: seq<Backend>, failed: Option<string>)
    ensures row == BackendsOfRule(key, rule, refs)
    ensures failed == if before.Some? then before else FirstFailure(key, rule.grpc, rule.backends, refs)
  {
    row, failed := [], before;
    for j := 0 to |rule.backends|
      invariant |row| == j
      invariant row == BackendsOfRule(key, rule.(backends := rule.backends[..j]), refs)
      invariant failed == if before.Some? then before else FirstFailure(key, rule.grpc, rule.backends[..j], refs)
    {
      var ref := rule.backends[j];
      var weight := 1;
      if ref.weight.Some? {
        weight := ref.weight.value;
      }
      var r := ResolveBackend(key, rule.grpc, ref, refs);
      if r.Failed? && failed.None? {
        failed := Some(r.reason);
      }
      assert rule.backends[..j + 1][..j] == rule.backends[..j];
      row := row + [Backend(weight, if r.Resolved? then Some(r.cluster) else None)];
    }
    assert rule.backends[..|rule.backends|] == rule.backends;
  }

  method ResolveBackends(route: Route, refs: References) returns (out: seq<seq<Backend>>, resolved: string)
    ensures |out| == |route.rules|
    ensures forall i :: 0 <= i < |out| ==> out[i] == BackendsOfRule(route.key, route.rules[i], refs)
    ensures resolved == match FirstFailureOf(route.key, route.rules, refs) case Some(reason) => reason case None => RESOLVED
  {
    out := [];
    var failed: Option<string> := None;
    for i := 0 to |route.rules|
      invariant |out| == i
      invariant forall k :: 0 <= k < i ==> out[k] == BackendsOfRule(route.key, route.rules[k], refs)
      invariant failed == FirstFailureOf(route.key, route.rules[..i], refs)
    {
      var row;
      row, failed := ResolveRule(route.key, route.rules[i], refs, failed);
      out := out + [row];
      assert route.rules[..i + 1][..i] == route.rules[..i];
    }
    assert route.rules[..|route.rules|] == route.rules;
    resolved := if failed.Some? then failed.value else RESOLVED;
  }

  // ---- a cluster's name says which cluster it is ----

  lemma {:induction false} FirstPortFinds(ports: seq<ServicePort>, n: nat)
    ensures FirstPort(ports, n).Some? ==> FirstPort(ports, n).value.port == n
  {
    if ports != [] { FirstPortFinds(ports[1..], n); }
  }

  /** Neither a namespace nor a Service name holds a slash, so a cluster's name
      determines the Service, the port and the protocol. */
  lemma ClusterNameInjective(s: NamespacedName, p: nat, h: bool, t: NamespacedName, q: nat, k: bool)
    requires '/' !in s.ns && '/' !in s.name && '/' !in t.ns && '/' !in t.name
    requires ClusterName(s, p, h) == ClusterName(t, q, k)
    ensures s == t && p == q && h == k
  {
    var a, b := Decimal(p) + (if h then "/h2" else ""), Decimal(q) + (if k then "/h2" else "");
    assert ClusterName(s, p, h) == s.ns + ['/'] + (s.name + "/" + a);
    assert ClusterName(t, q, k) == t.ns + ['/'] + (t.name + "/" + b);
    SeparatorSplits('/', s.ns, s.name + "/" + a, t.ns, t.name + "/" + b);
    assert s.name + "/" + a == s.name + ['/'] + a && t.name + "/" + b == t.name + ['/'] + b;
    SeparatorSplits('/', s.name, a, t.name, b);
    DecimalSuffix(p, h, q, k);
    DecimalInjective(p, q);
  }

  lemma DecimalSuffix(p: nat, h: bool, q: nat, k: bool)
    requires Decimal(p) + (if h then "/h2" else "") == Decimal(q) + (if k then "/h2" else "")
    ensures Decimal(p) == Decimal(q) && h == k
  {
    var a, b := Decimal(p) + (if h then "/h2" else ""), Decimal(q) + (if k then "/h2" else "");
    assert ('/' in a <==> h) by { if h { assert a[|Decimal(p)|] == '/'; } }
    assert ('/' in b <==> k) by { if k { assert b[|Decimal(q)|] == '/'; } }
    if h {
      assert a[..|a| - 3] == Decimal(p) && b[..|b| - 3] == Decimal(q);
    } else {
      assert a == Decimal(p) && b == Decimal(q);
    }
  }

  /** Two backends of one Gateway that resolve to clusters of one name resolve to
      one cluster, and it is never the one that stands for none. */
  lemma NamesIdentifyClusters(key: RouteKey, grpc: bool, ref: BackendRef, key': RouteKey, grpc': bool, ref': BackendRef, refs: References)
    requires ResolutionOf(key, grpc, ref, refs).Resolved? && ResolutionOf(key', grpc', ref', refs).Resolved?
    requires forall s :: s in refs.services ==> '/' !in s.ns && '/' !in s.name
    ensures var c, d := ResolutionOf(key, grpc, ref, refs).cluster, ResolutionOf(key', grpc', ref', refs).cluster;
            c.name != INVALID_CLUSTER && (c.name == d.name ==> c == d)
  {
    var c, d := ResolutionOf(key, grpc, ref, refs).cluster, ResolutionOf(key', grpc', ref', refs).cluster;
    assert c.name[|c.service.ns|] == '/';
    FirstPortFinds(refs.services[c.service].ports, ref.port.value);
    FirstPortFinds(refs.services[d.service].ports, ref'.port.value);
    if c.name == d.name {
      ClusterNameInjective(c.service, c.port.port, c.h2, d.service, d.port.port, d.h2);
    }
  }
}
