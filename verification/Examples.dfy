/** Small Gateways to show things at: listeners that take routes from everywhere, and
    routes each of which names one listener. */
module Examples {
  import opened Text
  import opened Sorting
  import opened Hostnames
  import opened GatewayModel
  import opened Attachment
  import opened Entries
  import opened Pipeline

  function ListenerOf(name: string, port: nat, protocol: Protocol, hostname: Option<string>): ListenerSpec {
    ListenerSpec(name, port, protocol, hostname, if protocol == TLS then Some(TlsConfig(Some(Passthrough), [])) else None, [], All)
  }

  function GatewayOf(listeners: seq<ListenerSpec>): Gateway {
    Gateway("infra", "gw", listeners)
  }

  function ReferencesOf(services: map<NamespacedName, Service>): References {
    References([], services, map[], map[], {}, true)
  }

  function Parent(section: string): ParentRef {
    ParentRef(ObjectRef(None, None, Some("infra"), "gw"), Some(section), None)
  }

  function To(name: string, port: nat): BackendRef {
    BackendRef(ObjectRef(None, None, None, name), Some(port), None)
  }

  /** A route of one rule that names one listener. */
  function RouteOf(key: RouteKey, section: string, rule: Rule): Route {
    Route(key, 0, [Parent(section)], [], [rule])
  }

  /** What the one parentRef of a route comes to: the listener it names, with its hostname. */
  lemma AttachedAlone(specs: seq<ListenerSpec>, ls: seq<Listener>, route: Route, i: nat, section: string)
    requires i < |ls| && forall j :: 0 <= j < |ls| ==> (ls[j].spec.name == section <==> j == i)
    requires ls[i].spec.from == All && route.key.kind in ls[i].supportedKinds
    requires route.parentRefs == [Parent(section)] && route.hostnames == []
    ensures var p := ParentOf("infra", ls, route, Parent(section));
            ParentsOf(route.parentRefs, GatewayOf(specs), ls, route) == [p] &&
            p.hostnames == map[i := [ListenerHost(EffectiveHost(ls[i]))]]
  {
    var p := ParentOf("infra", ls, route, Parent(section));
    assert p.hostnames.Keys == {i};
    assert route.parentRefs[..0] == [];
    assert Targets(Parent(section), route.key.ns, GatewayOf(specs));
    assert ParentsOf([], GatewayOf(specs), ls, route) == [];
  }

  lemma OneRefers(specs: seq<ListenerSpec>, a: Route, section: string)
    requires a.parentRefs == [Parent(section)]
    ensures Referring([a], GatewayOf(specs)) == [a]
  {
    assert Parent(section) in a.parentRefs && RefersTo(a, GatewayOf(specs));
    assert [a][..0] == [];
  }

  lemma TwoRefer(specs: seq<ListenerSpec>, a: Route, b: Route, s: string, t: string)
    requires a.parentRefs == [Parent(s)] && b.parentRefs == [Parent(t)]
    ensures Referring([a, b], GatewayOf(specs)) == [a, b]
  {
    OneRefers(specs, a, s);
    assert Parent(t) in b.parentRefs && RefersTo(b, GatewayOf(specs));
    assert [a, b][..1] == [a];
  }

  lemma {:induction false} BuiltFromOne(specs: seq<ListenerSpec>, refs: References, m: Model, a: Route, s: string, p: ParentResult)
    requires a.parentRefs == [Parent(s)] && ParentsOf(a.parentRefs, GatewayOf(specs), m.listeners, a) == [p]
    requires BuiltExactly(m.routes, Referring([a], GatewayOf(specs)), GatewayOf(specs), m.listeners, refs)
    ensures |m.routes| == 1 && m.routes[0].route == a && m.routes[0].parents == [p]
  {
    OneRefers(specs, a, s);
  }

  lemma {:induction false} BuiltFromTwo(specs: seq<ListenerSpec>, refs: References, m: Model, a: Route, b: Route, s: string, t: string, p: ParentResult, q: ParentResult)
    requires a.parentRefs == [Parent(s)] && ParentsOf(a.parentRefs, GatewayOf(specs), m.listeners, a) == [p]
    requires b.parentRefs == [Parent(t)] && ParentsOf(b.parentRefs, GatewayOf(specs), m.listeners, b) == [q]
    requires BuiltExactly(m.routes, Referring([a, b], GatewayOf(specs)), GatewayOf(specs), m.listeners, refs)
    ensures |m.routes| == 2 && m.routes[0].route == a && m.routes[0].parents == [p] && m.routes[1].route == b && m.routes[1].parents == [q]
    ensures m.routes[0] == AttachedOf(a, GatewayOf(specs), m.listeners, refs) && m.routes[1] == AttachedOf(b, GatewayOf(specs), m.listeners, refs)
  {
    TwoRefer(specs, a, b, s, t);
  }

  /** Entries of a route on one hostname of one listener. */
  lemma EntriesOfOne(m: Model, ls: seq<nat>, a: AttachedRoute, p: ParentResult, i: nat, host: string, e: Entry)
    requires a in m.routes && a.parents == [p] && p.hostnames == map[i := [host]] && i in ls && e.route == a
    ensures IsEntry(m, ls, e) <==> InRange(e) && e.listener == i && e.host == host
  {
    assert p in a.parents;
    if InRange(e) && e.listener == i && e.host == host { assert HostAt(p, i, host); }
  }
}
