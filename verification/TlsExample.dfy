/** A Gateway on which a TLS connection is taken by a listener that does not own its server
    name: one listener takes every name and has a route, another owns *.a and has none. */
module TlsExample {
  import opened Text
  import opened Sorting
  import opened Hostnames
  import opened GatewayModel
  import opened Attachment
  import opened Backends
  import opened Entries
  import opened Owners
  import opened RouteConfig
  import opened Layer4
  import opened TlsMeaning
  import opened Ports
  import opened Validation
  import opened Translate
  import opened Snapshot
  import opened Pipeline
  import opened StreamClients
  import opened Examples
  import E = Envoy

  function TheListeners(): seq<ListenerSpec> {
    [ListenerOf("all", 443, TLS, None), ListenerOf("narrow", 443, TLS, Some("*.a"))]
  }

  function TheRoute(): Route {
    RouteOf(RouteKey("TLSRoute", "n", "r"), "all", Rule([], [], [To("x", 443)], false))
  }

  lemma TheInputIsAdmitted()
    ensures Admitted(GatewayOf(TheListeners()), [TheRoute()], ReferencesOf(map[]))
  {
    assert IsWildcard("*.a") && Pattern("*.a");
  }

  lemma BothAreValid()
    ensures var ls := ListenersFor(GatewayOf(TheListeners()), ReferencesOf(map[]));
            |ls| == 2 && ls[0].valid && ls[1].valid && ls[0].spec == TheListeners()[0] && ls[1].spec == TheListeners()[1] &&
            "TLSRoute" in ls[0].supportedKinds
  {
    var specs, refs := TheListeners(), ReferencesOf(map[]);
    forall i | 0 <= i < 2 ensures !InConflict(specs, i) {
      assert HostnameOf(specs[0]) != HostnameOf(specs[1]);
    }
    assert Programmable("infra", specs, 0, refs) && Programmable("infra", specs, 1, refs);
  }

  /** What is left of the input once it is compiled. */
  ghost predicate IsTheModel(m: Model, p: ParentResult) {
    && |m.listeners| == 2 && |m.routes| == 1
    && (forall i :: 0 <= i < 2 ==> m.listeners[i].valid && m.listeners[i].spec == TheListeners()[i])
    && m.routes[0].parents == [p] && p.hostnames == map[0 := ["*"]]
  }

  lemma TheParent(ls: seq<Listener>) returns (p: ParentResult)
    requires ls == ListenersFor(GatewayOf(TheListeners()), ReferencesOf(map[]))
    ensures ParentsOf([Parent("all")], GatewayOf(TheListeners()), ls, TheRoute()) == [p] && p.hostnames == map[0 := ["*"]]
  {
    BothAreValid();
    AttachedAlone(TheListeners(), ls, TheRoute(), 0, "all");
    p := ParentOf("infra", ls, TheRoute(), Parent("all"));
  }

  lemma TheModelIsBuilt(m: Model) returns (p: ParentResult)
    requires m.listeners == ListenersFor(GatewayOf(TheListeners()), ReferencesOf(map[]))
    requires BuiltExactly(m.routes, Referring([TheRoute()], GatewayOf(TheListeners())), GatewayOf(TheListeners()), m.listeners, ReferencesOf(map[]))
    ensures IsTheModel(m, p)
  {
    p := TheParent(m.listeners);
    BuiltFromOne(TheListeners(), ReferencesOf(map[]), m, TheRoute(), "all", p);
    BothAreValid();
  }

  lemma TheGroup(m: Model, p: ParentResult)
    requires IsTheModel(m, p)
    ensures GroupOf(m.listeners, PortKeyOf(m.listeners[1])) == [0, 1]
  {
    var ls := m.listeners;
    assert ls[..1][..0] == [] && ls[..1] == [ls[0]];
    assert GroupOf(ls[..1], PortKey(443, false)) == [0];
  }

  lemma TheNames(m: Model, p: ParentResult)
    requires IsTheModel(m, p)
    ensures Owns(m, [0, 1], "x.a", 1) && OwnedHost(m, [0, 1], "*") && forall h :: !Reaches(m, 1, "x.a", h)
  {
    assert OwnHost(m, 0) == "*" && OwnHost(m, 1) == "*.a";
    assert "x.a"[1..] == ".a" && "*.a"[1..] == ".a" && "*.a"[..2] == "*.";
    assert HostCovers("*.a", "x.a") && !HostCovers("*.a", "*");
    assert m.routes[0] in m.routes && p in m.routes[0].parents && HostAt(p, 0, "*");
    assert Owns(m, [0, 1], "*", 0) && OnHost(m, 0, "*", m.routes[0]);
  }

  /** The listener for *.a owns the server name and no route serves it there, and the
      connection goes to the other listener's route. */
  method TakenByAnother(gw: Gateway, routes: seq<Route>, refs: References)
    returns (m: Model, r: Resources, ghost chains: seq<E.FilterChain>)
    requires gw == GatewayOf(TheListeners()) && routes == [TheRoute()] && refs == ReferencesOf(map[])
    ensures m.listeners == ListenersFor(gw, refs) && BuiltExactly(m.routes, Referring(routes, gw), gw, m.listeners, refs)
    ensures E.StreamListener(TlsName(443), ContainerPort(443), chains) in r.listeners
    ensures Owns(m, [0, 1], "x.a", 1) && !SomeServes(gw, m, 1, "x.a") && TakenElsewhere(m, [0, 1], chains, "x.a", 1)
  {
    TheInputIsAdmitted();
    ghost var keys, groups, wn, sn;
    m, r, keys, groups, wn, sn := Compile(gw, routes, refs);
    chains := ItIsTaken(gw, routes, refs, m, r, keys, groups, wn, sn);
  }

  lemma ItIsTaken(gw: Gateway, routes: seq<Route>, refs: References, m: Model, r: Resources,
                  keys: seq<PortKey>, groups: seq<PortConfig>, wn: seq<string>, sn: seq<string>)
    returns (chains: seq<E.FilterChain>)
    requires gw == GatewayOf(TheListeners()) && routes == [TheRoute()] && refs == ReferencesOf(map[])
    requires Compiled(gw, routes, refs, m, r, keys, groups, wn, sn)
    ensures E.StreamListener(TlsName(443), ContainerPort(443), chains) in r.listeners
    ensures Owns(m, [0, 1], "x.a", 1) && !SomeServes(gw, m, 1, "x.a") && TakenElsewhere(m, [0, 1], chains, "x.a", 1)
  {
    TheInputIsAdmitted();
    var p := TheModelIsBuilt(m);
    TheGroup(m, p);
    TheNames(m, p);
    chains := UnservedIsTaken(gw, routes, refs, m, r, keys, groups, wn, sn, 1, "x.a", "*");
  }

  /** A server name its owner does not reach goes to another, where some owned hostname covers it. */
  lemma {:induction false} UnservedIsTaken(gw: Gateway, routes: seq<Route>, refs: References, m: Model, r: Resources,
                                           keys: seq<PortKey>, groups: seq<PortConfig>, wn: seq<string>, sn: seq<string>,
                                           i: nat, name: string, host: string)
    returns (chains: seq<E.FilterChain>)
    requires Admitted(gw, routes, refs) && Compiled(gw, routes, refs, m, r, keys, groups, wn, sn)
    requires i < |m.listeners| && m.listeners[i].valid && m.listeners[i].spec.protocol == TLS
    requires var ls := GroupOf(m.listeners, PortKeyOf(m.listeners[i]));
             Owns(m, ls, name, i) && OwnedHost(m, ls, host) && HostCovers(host, name)
    requires forall h :: !Reaches(m, i, name, h)
    ensures var port := m.listeners[i].spec.port; E.StreamListener(TlsName(port), ContainerPort(port), chains) in r.listeners
    ensures !SomeServes(gw, m, i, name) && TakenElsewhere(m, GroupOf(m.listeners, PortKeyOf(m.listeners[i])), chains, name, i)
  {
    ReachingIsServing(gw, routes, refs, m, i, name);
    chains := TlsConnections(gw, routes, refs, m, r, keys, groups, wn, sn, i, name);
    TakenByAChain(m, GroupOf(m.listeners, PortKeyOf(m.listeners[i])), r.listeners, m.listeners[i].spec.port, chains, name, i);
  }

  lemma {:induction false} TakenByAChain(m: Model, ls: seq<nat>, listeners: seq<E.Listener>, port: nat, chains: seq<E.FilterChain>, name: string, i: nat)
    requires forall o :: o in listeners && BindOf(o) == PortKey(ContainerPort(port), false) <==>
                         chains != [] && o == E.StreamListener(TlsName(port), ContainerPort(port), chains)
    requires TakenElsewhere(m, ls, chains, name, i)
    ensures E.StreamListener(TlsName(port), ContainerPort(port), chains) in listeners
  {
    assert chains != [];
  }
}
