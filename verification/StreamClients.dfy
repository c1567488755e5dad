/** What clients of TLS, TCP and UDP listeners reach, from the Gateway and its routes on. */
module StreamClients {
  import opened Text
  import opened Sorting
  import opened Hostnames
  import opened GatewayModel
  import opened Attachment
  import opened Entries
  import opened Owners
  import opened RouteConfig
  import opened HttpMeaning
  import opened GatewayMeaning
  import opened Layer4
  import opened TlsMeaning
  import opened Streams
  import opened Ports
  import opened Validation
  import opened Translate
  import opened Snapshot
  import opened Pipeline
  import E = Envoy

  // ---- the listener of a port ----

  lemma {:induction false} GroupOfListener(groups: seq<PortConfig>, o: E.Listener) returns (k: nat)
    requires o in ListenersOf(groups)
    ensures k < |groups| && groups[k].listener == Some(o)
  {
    var n := |groups| - 1;
    if o in ListenersOf(groups[..n]) {
      k := GroupOfListener(groups[..n], o);
    } else {
      k := n;
    }
  }

  lemma {:induction false} BinderIsOwn(m: Model, keys: seq<PortKey>, groups: seq<PortConfig>, k: nat, o: E.Listener)
    requires Sound(m.listeners) && PortKeys(m, keys) && ArePortConfigs(m, keys, groups) && k < |keys|
    requires o in ListenersOf(groups) && BindOf(o) == ContainerKey(keys[k])
    ensures groups[k].listener == Some(o)
  {
    var j := GroupOfListener(groups, o);
    GroupBinds(m, keys, groups, j, o);
    KeyIsGrouped(m, keys, j);
    KeyIsGrouped(m, keys, k);
    KeysBindApart(m, keys[j], keys[k]);
  }

  lemma GroupBinds(m: Model, keys: seq<PortKey>, groups: seq<PortConfig>, j: nat, o: E.Listener)
    requires ArePortConfigs(m, keys, groups) && j < |keys| && groups[j].listener == Some(o)
    ensures BindOf(o) == ContainerKey(keys[j])
  {
    assert IsPortConfig(m, keys[j], groups[j]);
    PortConfigBinds(m, keys[j], groups[j]);
  }

  lemma KeyIsGrouped(m: Model, keys: seq<PortKey>, j: nat)
    requires PortKeys(m, keys) && j < |keys|
    ensures GroupOf(m.listeners, keys[j]) != []
  {
    assert keys[j] in keys;
  }

  /** What binds a port's container port is the listener of its group, if it has one. */
  lemma PortBinder(m: Model, keys: seq<PortKey>, groups: seq<PortConfig>, k: nat, o: E.Listener)
    requires Sound(m.listeners) && PortKeys(m, keys) && ArePortConfigs(m, keys, groups) && k < |keys|
    ensures o in ListenersOf(groups) && BindOf(o) == ContainerKey(keys[k]) <==> groups[k].listener == Some(o)
  {
    if o in ListenersOf(groups) && BindOf(o) == ContainerKey(keys[k]) {
      BinderIsOwn(m, keys, groups, k, o);
    }
    if groups[k].listener == Some(o) {
      assert IsPortConfig(m, keys[k], groups[k]);
      PortConfigBinds(m, keys[k], groups[k]);
      ListenerOfGroup(groups, k);
    }
  }

  /** The group of a valid listener's port. */
  lemma PortOf(m: Model, keys: seq<PortKey>, groups: seq<PortConfig>, i: nat) returns (k: nat)
    requires Sound(m.listeners) && PortKeys(m, keys) && ArePortConfigs(m, keys, groups) && i < |m.listeners| && m.listeners[i].valid
    ensures k < |keys| && keys[k] == PortKeyOf(m.listeners[i]) && IsPortConfig(m, keys[k], groups[k])
    ensures var ls := GroupOf(m.listeners, keys[k]);
            ls != [] && i in ls && ls[0] < |m.listeners| && m.listeners[ls[0]].spec.protocol == m.listeners[i].spec.protocol
    ensures m.listeners[i].spec.protocol in {TCP, UDP} ==> GroupOf(m.listeners, keys[k])[0] == i
  {
    var key := PortKeyOf(m.listeners[i]);
    var ls := GroupOf(m.listeners, key);
    GroupMembers(m.listeners, key);
    assert i in ls && key in keys;
    k :| 0 <= k < |keys| && keys[k] == key;
    assert ls[0] in ls && IsPortConfig(m, keys[k], groups[k]);
    PortGroups(m.listeners, i, ls[0]);
  }

  // ---- TLS ----

  /** A route of the Gateway serves the host on the listener. */
  ghost predicate SomeServes(gw: Gateway, m: Model, i: nat, host: string) {
    i < |m.listeners| && exists a :: a in m.routes && Serves(gw, m.listeners[i], a.route, host)
  }

  lemma ReachingIsServing(gw: Gateway, routes: seq<Route>, refs: References, m: Model, i: nat, name: string)
    requires Admitted(gw, routes, refs) && BuiltAll(m.routes, Referring(routes, gw), gw, m.listeners, refs) && i < |m.listeners|
    ensures (exists h :: Reaches(m, i, name, h)) <==> SomeServes(gw, m, i, name)
  {
    NoBareStars(gw, routes, refs);
    if h :| Reaches(m, i, name, h) {
      var a :| OnHost(m, i, h, a);
      UnderSomeServed(a, i, h, name);
      AttachedServesExactly(gw, Referring(routes, gw), refs, m, i, a, name);
    }
    if a :| a in m.routes && Serves(gw, m.listeners[i], a.route, name) {
      AttachedServesExactly(gw, Referring(routes, gw), refs, m, i, a, name);
      var h := ServedUnderSome(a, i, name);
      assert OnHost(m, i, h, a);
      assert Reaches(m, i, name, h);
    }
  }

  /** End to end for TLS: what binds the port is one Envoy listener, or none where there is
      no chain. It sends a connection to the oldest route on the most specific hostname
      served for its server name on the listener that owns the name, if and only if some
      route serves the name there; and another listener's route takes the connection exactly
      when none does and some owned hostname covers the name. */
  lemma TlsConnections(gw: Gateway, routes: seq<Route>, refs: References, m: Model, r: Resources,
                       keys: seq<PortKey>, groups: seq<PortConfig>, wn: seq<string>, sn: seq<string>, i: nat, name: string)
    returns (chains: seq<E.FilterChain>)
    requires Admitted(gw, routes, refs) && Compiled(gw, routes, refs, m, r, keys, groups, wn, sn)
    requires i < |m.listeners| && m.listeners[i].valid && m.listeners[i].spec.protocol == TLS
    requires Owns(m, GroupOf(m.listeners, PortKeyOf(m.listeners[i])), name, i)
    ensures var port := m.listeners[i].spec.port;
            forall o :: o in r.listeners && BindOf(o) == PortKey(ContainerPort(port), false) <==>
                        chains != [] && o == E.StreamListener(TlsName(port), ContainerPort(port), chains)
    ensures SomeServes(gw, m, i, name) <==>
            E.Accept(chains, name).Some? && ServedBy(m, i, name, chains[E.Accept(chains, name).value])
    ensures var ls := GroupOf(m.listeners, PortKeyOf(m.listeners[i]));
            TakenElsewhere(m, ls, chains, name, i) <==>
            !SomeServes(gw, m, i, name) && exists h :: OwnedHost(m, ls, h) && HostCovers(h, name)
  {
    BuiltIsTranslatable(gw, routes, refs, m);
    var k := PortOf(m, keys, groups, i);
    GroupIsHostful(m, keys[k]);
    chains := TlsPort(m, keys, groups, k, i);
    TlsMeant(m, GroupOf(m.listeners, keys[k]), chains, name, i);
    ReachingIsServing(gw, routes, refs, m, i, name);
  }

  lemma TlsPort(m: Model, keys: seq<PortKey>, groups: seq<PortConfig>, k: nat, i: nat) returns (chains: seq<E.FilterChain>)
    requires Sound(m.listeners) && PortKeys(m, keys) && ArePortConfigs(m, keys, groups) && k < |keys|
    requires i < |m.listeners| && keys[k] == PortKeyOf(m.listeners[i]) && m.listeners[i].spec.protocol == TLS
    requires IsTlsPort(m, keys[k].port, GroupOf(m.listeners, keys[k]), groups[k])
    ensures AreTlsChains(m, GroupOf(m.listeners, keys[k]), chains)
    ensures var port := m.listeners[i].spec.port;
            forall o :: o in ListenersOf(groups) && BindOf(o) == PortKey(ContainerPort(port), false) <==>
                        chains != [] && o == E.StreamListener(TlsName(port), ContainerPort(port), chains)
  {
    var port := keys[k].port;
    chains :| AreTlsChains(m, GroupOf(m.listeners, keys[k]), chains) &&
      groups[k] == PortConfig(if chains == [] then None else Some(E.StreamListener(TlsName(port), ContainerPort(port), chains)),
                              [], ChainsClusters(chains), None);
    forall o ensures o in ListenersOf(groups) && BindOf(o) == ContainerKey(keys[k]) <==> groups[k].listener == Some(o) {
      PortBinder(m, keys, groups, k, o);
    }
  }

  lemma TlsMeant(m: Model, ls: seq<nat>, chains: seq<E.FilterChain>, name: string, i: nat)
    requires WellAttached(m) && Hostful(m, ls) && DistinctHosts(m, ls) && AreTlsChains(m, ls, chains) && Owns(m, ls, name, i)
    ensures (exists h :: Reaches(m, i, name, h)) <==>
            E.Accept(chains, name).Some? && ServedBy(m, i, name, chains[E.Accept(chains, name).value])
    ensures TakenElsewhere(m, ls, chains, name, i) <==>
            !(exists h :: Reaches(m, i, name, h)) && exists h :: OwnedHost(m, ls, h) && HostCovers(h, name)
  {
    TlsIsolationExact(m, ls, chains, name, i);
    TlsTakenElsewhere(m, ls, chains, name, i);
  }

  // ---- TCP and UDP ----

  /** A route is carried by a listener just when it serves some host there. */
  lemma CarriedIsServing(gw: Gateway, routes: seq<Route>, refs: References, m: Model, i: nat, a: AttachedRoute)
    requires Admitted(gw, routes, refs) && BuiltAll(m.routes, Referring(routes, gw), gw, m.listeners, refs) && i < |m.listeners|
    ensures OnListener(m, i, a) <==> a in m.routes && exists host :: Serves(gw, m.listeners[i], a.route, host)
  {
    NoBareStars(gw, routes, refs);
    if h :| OnHost(m, i, h, a) {
      UnderSomeServed(a, i, h, h);
      AttachedServesExactly(gw, Referring(routes, gw), refs, m, i, a, h);
    }
    if a in m.routes {
      if host :| Serves(gw, m.listeners[i], a.route, host) {
        AttachedServesExactly(gw, Referring(routes, gw), refs, m, i, a, host);
        var h := ServedUnderSome(a, i, host);
        assert OnHost(m, i, h, a);
      }
    }
  }

  /** The oldest of the routes a listener carries. */
  ghost predicate OldestCarried(gw: Gateway, m: Model, i: nat, a: AttachedRoute) {
    i < |m.listeners| && a in m.routes && (exists host :: Serves(gw, m.listeners[i], a.route, host)) &&
    forall b, host :: b in m.routes && Serves(gw, m.listeners[i], b.route, host) ==> CompareAge(a, b) <= 0
  }

  lemma OldestIsCarried(gw: Gateway, routes: seq<Route>, refs: References, m: Model, i: nat, a: AttachedRoute)
    requires Admitted(gw, routes, refs) && BuiltAll(m.routes, Referring(routes, gw), gw, m.listeners, refs) && i < |m.listeners|
    ensures OldestOnListener(m, i, a) <==> OldestCarried(gw, m, i, a)
  {
    forall b ensures OnListener(m, i, b) <==> b in m.routes && exists host :: Serves(gw, m.listeners[i], b.route, host) {
      CarriedIsServing(gw, routes, refs, m, i, b);
    }
  }

  /** End to end for TCP and UDP: what binds the port serves nothing but the oldest
      route the listener carries, and nothing binds it when it carries none. */
  lemma StreamConnections(gw: Gateway, routes: seq<Route>, refs: References, m: Model, r: Resources,
                          keys: seq<PortKey>, groups: seq<PortConfig>, wn: seq<string>, sn: seq<string>, i: nat, o: E.Listener)
    requires Admitted(gw, routes, refs) && Compiled(gw, routes, refs, m, r, keys, groups, wn, sn)
    requires i < |m.listeners| && m.listeners[i].valid && m.listeners[i].spec.protocol in {TCP, UDP}
    ensures var port, udp := m.listeners[i].spec.port, m.listeners[i].spec.protocol == UDP;
            o in r.listeners && BindOf(o) == PortKey(ContainerPort(port), udp) <==>
            exists a :: OldestCarried(gw, m, i, a) &&
              o == if udp then E.DatagramListener(UdpName(port), ContainerPort(port), UdpTarget(a)) else TcpListenerOf(TcpName(port), port, a)
  {
    BuiltIsTranslatable(gw, routes, refs, m);
    AdmittedStreams(gw, routes, refs, m);
    var k := PortOf(m, keys, groups, i);
    PortBinder(m, keys, groups, k, o);
    forall a ensures OldestOnListener(m, i, a) <==> OldestCarried(gw, m, i, a) {
      OldestIsCarried(gw, routes, refs, m, i, a);
    }
    var s := StreamPort(m, keys[k], groups[k], i);
    forall a | OldestOnListener(m, i, a) ensures s == Some(a) {
      OldestOnListenerUnique(m, i, s.value, a);
    }
  }

  lemma StreamPort(m: Model, key: PortKey, g: PortConfig, i: nat) returns (s: Option<AttachedRoute>)
    requires i < |m.listeners| && m.listeners[i].spec.protocol in {TCP, UDP} && key == PortKeyOf(m.listeners[i])
    requires IsPortConfig(m, key, g) && GroupOf(m.listeners, key)[0] == i
    ensures OldestOrNone(m, i, s)
    ensures g == if m.listeners[i].spec.protocol == UDP then UdpConfig(key.port, s) else TcpConfig(key.port, s)
  {
    if m.listeners[i].spec.protocol == UDP {
      s :| OldestOrNone(m, i, s) && g == UdpConfig(key.port, s);
    } else {
      s :| OldestOrNone(m, i, s) && g == TcpConfig(key.port, s);
    }
  }
}
