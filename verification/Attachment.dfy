/** Attaching routes to the listeners of a Gateway. */
module Attachment {
  import opened Text
  import opened Sorting
  import opened Hostnames
  import opened GatewayModel
  import opened RefGrants
  import opened Backends

  const NO_MATCHING_PARENT := "NoMatchingParent"
  const NOT_ALLOWED := "NotAllowedByListeners"
  const NO_MATCHING_HOSTNAME := "NoMatchingListenerHostname"
  const ACCEPTED := "Accepted"

  /** Whether a parentRef names the Gateway. */
  predicate Targets(ref: ParentRef, routeNs: string, gw: Gateway) {
    GroupOf(ref.ref, GATEWAY_GROUP) == GATEWAY_GROUP && KindOf(ref.ref, "Gateway") == "Gateway" &&
    NamespaceOf(ref.ref.ns, routeNs) == gw.ns && ref.ref.name == gw.name
  }

  /** Whether a parentRef that names the Gateway selects the listener. */
  predicate Selects(ref: ParentRef, l: Listener) {
    (ref.section.None? || ref.section.value == l.spec.name) && (ref.port.None? || ref.port.value == l.spec.port)
  }

  predicate AllowsNamespace(l: Listener, gwNs: string, routeNs: string) {
    match l.spec.from
    case All => true
    case Selected(namespaces) => routeNs in namespaces
    case Same => gwNs == routeNs
  }

  predicate Allows(l: Listener, gwNs: string, key: RouteKey) {
    AllowsNamespace(l, gwNs, key.ns) && key.kind in l.supportedKinds
  }

  /** The hostname that counts on a listener: none where nothing can be told apart by it. */
  function EffectiveHost(l: Listener): Option<string> {
    if HasHostnames(l.spec.protocol) then l.spec.hostname else None
  }

  /** The hostnames the route serves on a listener through a parentRef. */
  ghost function AttachedHosts(l: Listener, gwNs: string, route: Route, ref: ParentRef): set<string> {
    if Selects(ref, l) && Allows(l, gwNs, route.key) then IntersectSet(EffectiveHost(l), route.hostnames) else {}
  }

  ghost predicate AttachesUpTo(hostnames: map<nat, seq<string>>, ls: seq<Listener>, n: nat, gwNs: string, route: Route, ref: ParentRef)
    requires n <= |ls|
  {
    (forall i :: i in hostnames ==> i < n) &&
    (forall i: nat :: i < n ==> (i in hostnames <==> AttachedHosts(ls[i], gwNs, route, ref) != {})) &&
    (forall i :: i in hostnames ==> Distinct(hostnames[i]) && Elements(hostnames[i]) == AttachedHosts(ls[i], gwNs, route, ref))
  }

  ghost predicate AttachesAs(hostnames: map<nat, seq<string>>, ls: seq<Listener>, gwNs: string, route: Route, ref: ParentRef) {
    AttachesUpTo(hostnames, ls, |ls|, gwNs, route, ref)
  }

  ghost predicate SomeSelected(ls: seq<Listener>, ref: ParentRef) {
    exists l :: l in ls && Selects(ref, l)
  }

  ghost predicate SomeAllowed(ls: seq<Listener>, gwNs: string, route: Route, ref: ParentRef) {
    exists l :: l in ls && Selects(ref, l) && Allows(l, gwNs, route.key)
  }

  ghost function HostnamesUpTo(ls: seq<Listener>, n: nat, gwNs: string, route: Route, ref: ParentRef): map<nat, seq<string>>
    requires n <= |ls|
  {
    map i: nat | i < n && Selects(ref, ls[i]) && Allows(ls[i], gwNs, route.key) && IntersectSeq(EffectiveHost(ls[i]), route.hostnames) != [] ::
      IntersectSeq(EffectiveHost(ls[i]), route.hostnames)
  }

  /** What a parentRef that names the Gateway comes to: why it is accepted or not, and
      the hostnames it serves on each listener. */
  ghost function ParentOf(gwNs: string, ls: seq<Listener>, route: Route, ref: ParentRef): ParentResult {
    var hostnames := HostnamesUpTo(ls, |ls|, gwNs, route, ref);
    ParentResult(ref,
      if !SomeSelected(ls, ref) then NO_MATCHING_PARENT
      else if !SomeAllowed(ls, gwNs, route, ref) then NOT_ALLOWED
      else if hostnames == map[] then NO_MATCHING_HOSTNAME
      else ACCEPTED,
      hostnames)
  }

  method Attach(gwNs: string, ls: seq<Listener>, route: Route, ref: ParentRef) returns (result: ParentResult)
    requires "*" !in route.hostnames
    ensures result == ParentOf(gwNs, ls, route, ref)
    ensures result.ref == ref
    ensures AttachesAs(result.hostnames, ls, gwNs, route, ref)
    ensures result.reason ==
            if !SomeSelected(ls, ref) then NO_MATCHING_PARENT
            else if !SomeAllowed(ls, gwNs, route, ref) then NOT_ALLOWED
            else if result.hostnames == map[] then NO_MATCHING_HOSTNAME
            else ACCEPTED
  {
    var hostnames: map<nat, seq<string>> := map[];
    var candidates, allowed := 0, 0;
    for i := 0 to |ls|
      invariant candidates >= 0 && allowed >= 0
      invariant candidates > 0 <==> exists k :: 0 <= k < i && Selects(ref, ls[k])
      invariant allowed > 0 <==> exists k :: 0 <= k < i && Selects(ref, ls[k]) && Allows(ls[k], gwNs, route.key)
      invariant hostnames == HostnamesUpTo(ls, i, gwNs, route, ref)
    {
      var l := ls[i];
      HostnamesStep(ls, i, gwNs, route, ref);
      if ref.section.Some? && ref.section.value != l.spec.name {
        continue;
      }
      if ref.port.Some? && ref.port.value != l.spec.port {
        continue;
      }
      candidates := candidates + 1;
      assert Selects(ref, ls[i]);

      if !AllowsNamespace(l, gwNs, route.key.ns) || route.key.kind !in l.supportedKinds {
        continue;
      }
      allowed := allowed + 1;

      var hosts := Intersect(EffectiveHost(l), route.hostnames);
      if |hosts| > 0 {
        hostnames := hostnames[i := hosts];
      }
    }

    var reason := ACCEPTED;
    if candidates == 0 {
      reason := NO_MATCHING_PARENT;
    } else if allowed == 0 {
      reason := NOT_ALLOWED;
    } else if hostnames == map[] {
      reason := NO_MATCHING_HOSTNAME;
    }
    HostnamesAttach(ls, |ls|, gwNs, route, ref);
    NothingAllowed(hostnames, ls, gwNs, route, ref);
    // A rejected parentRef attaches to nothing, and serves no hostname.
    if reason != ACCEPTED {
      hostnames := map[];
    }
    result := ParentResult(ref, reason, hostnames);
  }

  lemma HostnamesStep(ls: seq<Listener>, i: nat, gwNs: string, route: Route, ref: ParentRef)
    requires i < |ls|
    ensures var hosts := IntersectSeq(EffectiveHost(ls[i]), route.hostnames);
            HostnamesUpTo(ls, i + 1, gwNs, route, ref) ==
            if Selects(ref, ls[i]) && Allows(ls[i], gwNs, route.key) && hosts != [] then HostnamesUpTo(ls, i, gwNs, route, ref)[i := hosts]
            else HostnamesUpTo(ls, i, gwNs, route, ref)
  {
  }

  lemma HostnamesAttach(ls: seq<Listener>, n: nat, gwNs: string, route: Route, ref: ParentRef)
    requires n <= |ls|
    ensures AttachesUpTo(HostnamesUpTo(ls, n, gwNs, route, ref), ls, n, gwNs, route, ref)
  {
    forall i: nat | i < n
      ensures var hosts := IntersectSeq(EffectiveHost(ls[i]), route.hostnames);
              Distinct(hosts) && Elements(hosts) == IntersectSet(EffectiveHost(ls[i]), route.hostnames) &&
              (hosts == [] <==> IntersectSet(EffectiveHost(ls[i]), route.hostnames) == {})
    {
      var hosts := IntersectSeq(EffectiveHost(ls[i]), route.hostnames);
      IntersectSeqIsSet(EffectiveHost(ls[i]), route.hostnames);
      assert hosts != [] ==> hosts[0] in Elements(hosts);
    }
  }

  lemma NothingAllowed(hostnames: map<nat, seq<string>>, ls: seq<Listener>, gwNs: string, route: Route, ref: ParentRef)
    requires AttachesAs(hostnames, ls, gwNs, route, ref)
    ensures !SomeAllowed(ls, gwNs, route, ref) ==> hostnames == map[]
  {
    if !SomeAllowed(ls, gwNs, route, ref) {
      forall i: nat | i < |ls| ensures i !in hostnames {
        assert ls[i] in ls;
        assert AttachedHosts(ls[i], gwNs, route, ref) == {};
      }
    }
  }

  // ---- the whole model ----

  ghost predicate AttachedTo(r: AttachedRoute, i: nat) {
    exists p :: p in r.parents && i in p.hostnames
  }

  /** How many of the routes are attached to listener i, each once however many
      of its parentRefs attach it. */
  ghost function CountAttached(routes: seq<AttachedRoute>, i: nat): nat {
    if routes == [] then 0
    else CountAttached(routes[..|routes| - 1], i) + if AttachedTo(routes[|routes| - 1], i) then 1 else 0
  }

  /** What the parentRefs that name the Gateway come to, in order. */
  ghost function ParentsOf(prs: seq<ParentRef>, gw: Gateway, ls: seq<Listener>, route: Route): seq<ParentResult> {
    if prs == [] then []
    else
      var ref := prs[|prs| - 1];
      ParentsOf(prs[..|prs| - 1], gw, ls, route) + if Targets(ref, route.key.ns, gw) then [ParentOf(gw.ns, ls, route, ref)] else []
  }

  /** The route with its parents, its backends and its ResolvedRefs condition. */
  ghost function AttachedOf(route: Route, gw: Gateway, ls: seq<Listener>, refs: References): AttachedRoute {
    AttachedRoute(route, ParentsOf(route.parentRefs, gw, ls, route),
      seq(|route.rules|, k requires 0 <= k < |route.rules| => BackendsOfRule(route.key, route.rules[k], refs)),
      match FirstFailureOf(route.key, route.rules, refs) case Some(reason) => reason case None => RESOLVED)
  }

  /** Every route of the model is what its route comes to, in order. */
  ghost predicate BuiltExactly(attached: seq<AttachedRoute>, routes: seq<Route>, gw: Gateway, ls: seq<Listener>, refs: References) {
    |attached| == |routes| && forall k :: 0 <= k < |routes| ==> attached[k] == AttachedOf(routes[k], gw, ls, refs)
  }

  /** One route, attached through each of its parentRefs that name the Gateway
      and with every backend resolved. */
  ghost predicate BuiltFrom(a: AttachedRoute, route: Route, gw: Gateway, ls: seq<Listener>, refs: References) {
    a.route == route &&
    (forall ref :: ref in route.parentRefs && Targets(ref, route.key.ns, gw) ==>
      exists p :: p in a.parents && p.ref == ref) &&
    (forall p :: p in a.parents ==>
      p.ref in route.parentRefs && Targets(p.ref, route.key.ns, gw) && AttachesAs(p.hostnames, ls, gw.ns, route, p.ref)) &&
    |a.backends| == |route.rules| &&
    (forall k :: 0 <= k < |a.backends| ==> a.backends[k] == BackendsOfRule(route.key, route.rules[k], refs))
  }

  predicate RefersTo(route: Route, gw: Gateway) {
    exists ref :: ref in route.parentRefs && Targets(ref, route.key.ns, gw)
  }

  ghost function Referring(routes: seq<Route>, gw: Gateway): seq<Route> {
    if routes == [] then []
    else Referring(routes[..|routes| - 1], gw) +
         if RefersTo(routes[|routes| - 1], gw) then [routes[|routes| - 1]] else []
  }

  ghost predicate BuiltAll(attached: seq<AttachedRoute>, routes: seq<Route>, gw: Gateway, ls: seq<Listener>, refs: References) {
    |attached| == |routes| && forall k :: 0 <= k < |routes| ==> BuiltFrom(attached[k], routes[k], gw, ls, refs)
  }

  /** What the parentRefs come to is one result for each that names the Gateway. */
  lemma {:induction false} ParentsFit(prs: seq<ParentRef>, gw: Gateway, ls: seq<Listener>, route: Route)
    ensures forall ref :: ref in prs && Targets(ref, route.key.ns, gw) ==> exists p :: p in ParentsOf(prs, gw, ls, route) && p.ref == ref
    ensures forall p :: p in ParentsOf(prs, gw, ls, route) ==>
              p.ref in prs && Targets(p.ref, route.key.ns, gw) && p == ParentOf(gw.ns, ls, route, p.ref)
  {
    if prs != [] {
      var n := |prs| - 1;
      ParentsFit(prs[..n], gw, ls, route);
      var before, last := ParentsOf(prs[..n], gw, ls, route), ParentOf(gw.ns, ls, route, prs[n]);
      assert prs == prs[..n] + [prs[n]];
      assert forall p :: p in ParentsOf(prs, gw, ls, route) <==> p in before || (Targets(prs[n], route.key.ns, gw) && p == last);
    }
  }

  lemma AttachedFits(route: Route, gw: Gateway, ls: seq<Listener>, refs: References)
    ensures BuiltFrom(AttachedOf(route, gw, ls, refs), route, gw, ls, refs)
  {
    var ps := ParentsOf(route.parentRefs, gw, ls, route);
    ParentsFit(route.parentRefs, gw, ls, route);
    forall p | p in ps ensures AttachesAs(p.hostnames, ls, gw.ns, route, p.ref) {
      HostnamesAttach(ls, |ls|, gw.ns, route, p.ref);
    }
  }

  method AttachRoute(gw: Gateway, ls: seq<Listener>, route: Route, refs: References)
    returns (attached: AttachedRoute, listeners: set<nat>)
    requires "*" !in route.hostnames
    ensures BuiltFrom(attached, route, gw, ls, refs) && attached == AttachedOf(route, gw, ls, refs)
    ensures forall i :: i in listeners <==> AttachedTo(attached, i)
    ensures forall i :: i in listeners ==> i < |ls|
  {
    var parents: seq<ParentResult> := [];
    listeners := {};
    for k := 0 to |route.parentRefs|
      invariant parents == ParentsOf(route.parentRefs[..k], gw, ls, route)
      invariant forall i :: i in listeners <==> exists p :: p in parents && i in p.hostnames
      invariant forall i :: i in listeners ==> i < |ls|
    {
      assert route.parentRefs[..k + 1][..k] == route.parentRefs[..k];
      var ref := route.parentRefs[k];
      if !Targets(ref, route.key.ns, gw) {
        continue;
      }
      var result := Attach(gw.ns, ls, route, ref);
      listeners := listeners + result.hostnames.Keys;
      ghost var before := parents;
      parents := parents + [result];
      assert forall p :: p in parents <==> p in before || p == result;
    }
    assert route.parentRefs[..|route.parentRefs|] == route.parentRefs;
    var backends, resolved := ResolveBackends(route, refs);
    attached := AttachedRoute(route, parents, backends, resolved);
    AttachedFits(route, gw, ls, refs);
  }

  method Build(gw: Gateway, ls: seq<Listener>, routes: seq<Route>, refs: References) returns (m: Model)
    requires forall r :: r in routes ==> "*" !in r.hostnames
    ensures m.listeners == ls
    ensures BuiltAll(m.routes, Referring(routes, gw), gw, ls, refs)
    ensures BuiltExactly(m.routes, Referring(routes, gw), gw, ls, refs)
    ensures |m.attachedRoutes| == |ls|
    ensures forall i :: 0 <= i < |ls| ==> m.attachedRoutes[i] == CountAttached(m.routes, i)
  {
    var counts := seq(|ls|, _ => 0);
    var attached: seq<AttachedRoute> := [];
    for r := 0 to |routes|
      invariant BuiltAll(attached, Referring(routes[..r], gw), gw, ls, refs)
      invariant BuiltExactly(attached, Referring(routes[..r], gw), gw, ls, refs)
      invariant |counts| == |ls|
      invariant forall i :: 0 <= i < |ls| ==> counts[i] == CountAttached(attached, i)
    {
      var route := routes[r];
      assert routes[..r + 1][..r] == routes[..r];
      if !RefersTo(route, gw) {
        continue;
      }
      var a, listeners := AttachRoute(gw, ls, route, refs);
      counts := AddOne(counts, listeners);
      assert (attached + [a])[..|attached|] == attached;
      attached := attached + [a];
    }
    assert routes[..|routes|] == routes;
    m := Model(ls, attached, counts);
  }

  method AddOne(counts: seq<nat>, listeners: set<nat>) returns (out: seq<nat>)
    requires forall i :: i in listeners ==> i < |counts|
    ensures |out| == |counts|
    ensures forall i :: 0 <= i < |counts| ==> out[i] == counts[i] + if i in listeners then 1 else 0
  {
    out := counts;
    var rest := listeners;
    while rest != {}
      invariant rest <= listeners
      invariant |out| == |counts|
      invariant forall i :: 0 <= i < |counts| ==> out[i] == counts[i] + if i in listeners && i !in rest then 1 else 0
    {
      var i :| i in rest;
      rest := rest - {i};
      out := out[i := out[i] + 1];
    }
  }

  /** What every model is: attached listeners exist, the hostnames served on one
      are covered by its own, and no two routes share a kind, namespace and name. */
  ghost predicate WellAttached(m: Model) {
    (forall r :: r in m.routes ==> RouteWithin(r, m.listeners)) &&
    (forall r, s :: r in m.routes && s in m.routes && r.route.key == s.route.key ==> r == s)
  }

  ghost predicate RouteWithin(r: AttachedRoute, ls: seq<Listener>) {
    |r.backends| == |r.route.rules| && forall p :: p in r.parents ==> ParentWithin(p, ls)
  }

  ghost predicate ParentWithin(p: ParentResult, ls: seq<Listener>) {
    forall i :: i in p.hostnames ==>
      i < |ls| && forall h :: h in p.hostnames[i] ==> Pattern(h) && HostCovers(ListenerHost(EffectiveHost(ls[i])), h)
  }

  /** What the API server admits as hostnames of listeners and routes. */
  ghost predicate ValidHostnames(ls: seq<Listener>) {
    forall l :: l in ls ==> Pattern(ListenerHost(l.spec.hostname))
  }

  ghost predicate ValidRouteHostnames(route: Route) {
    forall h :: h in route.hostnames ==> Pattern(h) && h != "*"
  }

  lemma BuiltIsWellAttached(gw: Gateway, ls: seq<Listener>, routes: seq<Route>, refs: References, m: Model)
    requires m.listeners == ls && BuiltAll(m.routes, routes, gw, ls, refs)
    requires ValidHostnames(ls) && forall r :: r in routes ==> ValidRouteHostnames(r)
    requires forall j, k :: 0 <= j < k < |routes| ==> routes[j].key != routes[k].key
    ensures WellAttached(m)
  {
    forall r | r in m.routes
      ensures RouteWithin(r, ls)
    {
      var k :| 0 <= k < |routes| && m.routes[k] == r;
      BuiltWithin(r, routes[k], gw, ls, refs);
    }
    forall r, s | r in m.routes && s in m.routes && r.route.key == s.route.key
      ensures r == s
    {
      var j :| 0 <= j < |routes| && m.routes[j] == r;
      var k :| 0 <= k < |routes| && m.routes[k] == s;
      assert BuiltFrom(r, routes[j], gw, ls, refs) && BuiltFrom(s, routes[k], gw, ls, refs);
    }
  }

  lemma BuiltWithin(a: AttachedRoute, route: Route, gw: Gateway, ls: seq<Listener>, refs: References)
    requires BuiltFrom(a, route, gw, ls, refs) && ValidHostnames(ls) && ValidRouteHostnames(route)
    ensures RouteWithin(a, ls)
  {
    forall p | p in a.parents ensures ParentWithin(p, ls) {
      forall i, h | i in p.hostnames && h in p.hostnames[i]
        ensures Pattern(h) && HostCovers(ListenerHost(EffectiveHost(ls[i])), h)
      {
        assert h in Elements(p.hostnames[i]);
        MeetsAreCovered(EffectiveHost(ls[i]), route.hostnames, h);
      }
    }
  }

  lemma MeetsAreCovered(lh: Option<string>, route: seq<string>, h: string)
    requires h in IntersectSet(lh, route) && Pattern(ListenerHost(lh)) && forall r :: r in route ==> Pattern(r)
    ensures Pattern(h) && HostCovers(ListenerHost(lh), h)
  {
  }

  // ---- what attachment means ----

  /** What a route, its parentRefs and a listener say: the route serves the host
      on the listener. */
  ghost predicate Serves(gw: Gateway, l: Listener, route: Route, h: string) {
    exists ref :: ref in route.parentRefs && Targets(ref, route.key.ns, gw) && Selects(ref, l) &&
      Allows(l, gw.ns, route.key) && Hostnames.Served(ListenerHost(EffectiveHost(l)), route.hostnames, h)
  }

  /** Some hostname the attached route serves on listener i covers the host. */
  ghost predicate AttachedServes(a: AttachedRoute, i: nat, h: string) {
    exists p :: p in a.parents && i in p.hostnames && SomeCovers(p.hostnames[i], h)
  }

  lemma IntersectSetIsExact(lh: Option<string>, route: seq<string>, h: string)
    requires "*" !in route
    ensures (exists p :: p in IntersectSet(lh, route) && HostCovers(p, h)) <==> Hostnames.Served(ListenerHost(lh), route, h)
  {
    var l := ListenerHost(lh);
    if route != [] {
      if p :| p in IntersectSet(lh, route) && HostCovers(p, h) {
        var r :| r in route && Meet(l, r) == Some(p);
        MeetIsExact(l, r, h);
      }
      if Hostnames.Served(l, route, h) {
        var r :| r in route && HostCovers(r, h);
        MeetIsExact(l, r, h);
        assert Meet(l, r).value in IntersectSet(lh, route);
      }
    } else {
      assert l in IntersectSet(lh, route);
    }
  }

  /** Attachment loses and invents nothing: the attached route serves a host on
      a listener exactly when the route and the listener say so. */
  lemma AttachmentIsExact(a: AttachedRoute, route: Route, gw: Gateway, ls: seq<Listener>, refs: References, i: nat, h: string)
    requires BuiltFrom(a, route, gw, ls, refs) && i < |ls| && "*" !in route.hostnames
    ensures AttachedServes(a, i, h) <==> Serves(gw, ls[i], route, h)
  {
    forall p | p in a.parents
      ensures i in p.hostnames && SomeCovers(p.hostnames[i], h) <==>
              Selects(p.ref, ls[i]) && Allows(ls[i], gw.ns, route.key) &&
              Hostnames.Served(ListenerHost(EffectiveHost(ls[i])), route.hostnames, h)
    {
      ParentIsExact(p, gw.ns, ls, route, i, h);
    }
  }

  lemma ParentIsExact(p: ParentResult, gwNs: string, ls: seq<Listener>, route: Route, i: nat, h: string)
    requires AttachesAs(p.hostnames, ls, gwNs, route, p.ref) && i < |ls| && "*" !in route.hostnames
    ensures i in p.hostnames && SomeCovers(p.hostnames[i], h) <==>
            Selects(p.ref, ls[i]) && Allows(ls[i], gwNs, route.key) &&
            Hostnames.Served(ListenerHost(EffectiveHost(ls[i])), route.hostnames, h)
  {
    var hosts := AttachedHosts(ls[i], gwNs, route, p.ref);
    IntersectSetIsExact(EffectiveHost(ls[i]), route.hostnames, h);
    assert i in p.hostnames ==> forall q :: q in p.hostnames[i] <==> q in hosts;
  }

  /** A parentRef is accepted exactly when some listener it selects allows the
      route and shares a host with it. */
  lemma AcceptedMeansServing(result: ParentResult, gwNs: string, ls: seq<Listener>, route: Route)
    requires "*" !in route.hostnames && result == ParentOf(gwNs, ls, route, result.ref)
    requires AttachesAs(result.hostnames, ls, gwNs, route, result.ref)
    ensures result.reason == ACCEPTED <==> result.hostnames != map[]
    ensures result.reason == ACCEPTED <==>
            exists i, h :: 0 <= i < |ls| && Selects(result.ref, ls[i]) && Allows(ls[i], gwNs, route.key) &&
              Hostnames.Served(ListenerHost(EffectiveHost(ls[i])), route.hostnames, h)
  {
    NothingAllowed(result.hostnames, ls, gwNs, route, result.ref);
    assert SomeAllowed(ls, gwNs, route, result.ref) ==> SomeSelected(ls, result.ref);
    if result.hostnames != map[] {
      var i :| i in result.hostnames;
      var q :| q in AttachedHosts(ls[i], gwNs, route, result.ref);
      IntersectSetIsExact(EffectiveHost(ls[i]), route.hostnames, q);
      assert HostCovers(q, q);
      assert Hostnames.Served(ListenerHost(EffectiveHost(ls[i])), route.hostnames, q);
    }
    forall i: nat, h | i < |ls| && Selects(result.ref, ls[i]) && Allows(ls[i], gwNs, route.key) &&
                       Hostnames.Served(ListenerHost(EffectiveHost(ls[i])), route.hostnames, h)
      ensures i in result.hostnames
    {
      IntersectSetIsExact(EffectiveHost(ls[i]), route.hostnames, h);
      assert AttachedHosts(ls[i], gwNs, route, result.ref) != {};
    }
  }
}
