/** From a tunnel rule through the Service to Envoy: every hop exists, once. */
module Reachability {
  import opened Text
  import opened Sorting
  import opened GatewayModel
  import opened Ports
  import opened Backends
  import opened Validation
  import opened Translate
  import opened Snapshot
  import opened ServicePorts
  import opened Streams
  import opened Tunnel
  import E = Envoy

  /** The Service exposes a TCP port exactly once, leading to a container port
      that exactly one Envoy listener binds, and it is the port's HTTP listener. */
  ghost predicate ReachesHttpListener(port: nat, ports: seq<ExposedPort>, listeners: seq<E.Listener>) {
    exists p: nat, k: nat ::
      p < |ports| && ports[p].key == PortKey(port, false) && ports[p].targetPort == ContainerPort(port) &&
      (forall q :: 0 <= q < |ports| && ports[q].key == PortKey(port, false) ==> q == p) &&
      BoundAt(listeners, PortKey(ContainerPort(port), false), k) && listeners[k] == HttpListenerOf(port)
  }

  /** What EnvoyServicePorts leaves. */
  ghost predicate Exposes(ports: seq<ExposedPort>, ls: seq<Listener>) {
    Distinct(KeysOf(ports)) &&
    (forall key :: key in KeysOf(ports) <==> exists l :: l in ls && l.valid && PortKeyOf(l) == key) &&
    forall p :: p in ports ==> p.targetPort == ContainerPort(p.key.port)
  }

  lemma ExposedOnce(ports: seq<ExposedPort>, ls: seq<Listener>, l: Listener) returns (p: nat)
    requires Exposes(ports, ls) && l in ls && l.valid
    ensures p < |ports| && ports[p].key == PortKeyOf(l) && ports[p].targetPort == ContainerPort(l.spec.port)
    ensures forall q :: 0 <= q < |ports| && ports[q].key == PortKeyOf(l) ==> q == p
  {
    assert PortKeyOf(l) in KeysOf(ports);
    p :| 0 <= p < |ports| && KeysOf(ports)[p] == PortKeyOf(l);
    assert ports[p] in ports;
    forall q | 0 <= q < |ports| && ports[q].key == PortKeyOf(l) ensures q == p {
      assert KeysOf(ports)[q] == KeysOf(ports)[p];
    }
  }

  lemma HttpWinner(ls: seq<Listener>, tcp: map<string, string>, envoy: string, h: string, service: string) returns (l: Listener)
    requires Winner(ls, tcp, envoy, h, service) && exists l :: l in ls && HttpClaim(l, h)
    ensures l in ls && HttpClaim(l, h) && service == HttpService(envoy, l.spec.port)
  {
    l :| (HttpWins(ls, l, h) && service == HttpService(envoy, l.spec.port)) ||
         (StreamWins(ls, tcp, l, h) && service == TcpService(envoy, l.spec.port));
  }

  /** Every generated rule of an HTTP hostname sends its requests to a port that
      leads to Envoy's HTTP listener for it. */
  lemma HttpRuleReaches(m: Model, refs: References, dir: map<string, Cluster>, r: Resources,
                        keys: seq<PortKey>, groups: seq<PortConfig>, wn: seq<string>, sn: seq<string>,
                        ports: seq<ExposedPort>, tcp: map<string, string>, envoy: string, h: string, service: string)
    requires Sound(m.listeners) && Translates(m, refs, dir, r, keys, groups, wn, sn)
    requires Exposes(ports, m.listeners)
    requires Winner(m.listeners, tcp, envoy, h, service) && exists l :: l in m.listeners && HttpClaim(l, h)
    ensures exists port :: service == HttpService(envoy, port) && ReachesHttpListener(port, ports, r.listeners)
  {
    var l := HttpWinner(m.listeners, tcp, envoy, h, service);
    ListenerReaches(m, refs, dir, r, keys, groups, wn, sn, ports, l);
  }

  lemma ListenerReaches(m: Model, refs: References, dir: map<string, Cluster>, r: Resources,
                        keys: seq<PortKey>, groups: seq<PortConfig>, wn: seq<string>, sn: seq<string>,
                        ports: seq<ExposedPort>, l: Listener)
    requires Sound(m.listeners) && Translates(m, refs, dir, r, keys, groups, wn, sn)
    requires Exposes(ports, m.listeners) && l in m.listeners && l.valid && l.spec.protocol == HTTP
    ensures ReachesHttpListener(l.spec.port, ports, r.listeners)
  {
    var i :| 0 <= i < |m.listeners| && m.listeners[i] == l;
    HttpPortServed(m, refs, dir, r, keys, groups, wn, sn, i);
    var p := ExposedOnce(ports, m.listeners, l);
  }
}
