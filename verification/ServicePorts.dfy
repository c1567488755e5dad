/** Which ports the Service exposing Envoy has, and which node ports they keep. */
module ServicePorts {
  import opened Text
  import opened Sorting
  import opened GatewayModel
  import opened Ports
  import opened Validation
  import opened Translate

  datatype ExposedPort = ExposedPort(key: PortKey, targetPort: nat, nodePort: nat)

  /** The key of port k, once each. */
  function KeysOf(ports: seq<ExposedPort>): seq<PortKey> {
    seq(|ports|, k requires 0 <= k < |ports| => ports[k].key)
  }

  /** One port for each port and transport a valid listener uses, leading to the
      container port Envoy binds for it. */
  method EnvoyServicePorts(listeners: seq<Listener>) returns (ports: seq<ExposedPort>)
    ensures Distinct(KeysOf(ports))
    ensures forall key :: key in KeysOf(ports) <==> exists l :: l in listeners && l.valid && PortKeyOf(l) == key
    ensures forall p :: p in ports ==> p.targetPort == ContainerPort(p.key.port) && p.nodePort == 0
  {
    ports := [];
    var seen: set<PortKey> := {};
    for i := 0 to |listeners|
      invariant Distinct(KeysOf(ports)) && seen == Elements(KeysOf(ports))
      invariant forall key :: key in seen <==> exists k :: 0 <= k < i && listeners[k].valid && PortKeyOf(listeners[k]) == key
      invariant forall p :: p in ports ==> p.targetPort == ContainerPort(p.key.port) && p.nodePort == 0
    {
      var key := PortKeyOf(listeners[i]);
      if !listeners[i].valid || key in seen {
        continue;
      }
      seen := seen + {key};
      var port := ExposedPort(key, ContainerPort(key.port), 0);
      assert KeysOf(ports + [port]) == KeysOf(ports) + [key];
      ports := ports + [port];
    }
    forall key ensures key in KeysOf(ports) <==> exists l :: l in listeners && l.valid && PortKeyOf(l) == key {
      assert key in KeysOf(ports) <==> key in seen;
    }
  }

  /** The node port the Service already holds for a key: the last one listed, or none. */
  function Allocated(existing: seq<ExposedPort>, key: PortKey): nat {
    if existing == [] then 0
    else if existing[|existing| - 1].key == key then existing[|existing| - 1].nodePort
    else Allocated(existing[..|existing| - 1], key)
  }

  /** Writing the desired ports keeps every node port already allocated. */
  method CarryNodePorts(existing: seq<ExposedPort>, ports: seq<ExposedPort>, clusterIP: bool) returns (desired: seq<ExposedPort>)
    ensures |desired| == |ports|
    ensures forall i :: 0 <= i < |ports| ==>
      desired[i] == if clusterIP then ports[i] else ports[i].(nodePort := Allocated(existing, ports[i].key))
  {
    var held: map<PortKey, nat> := map[];
    for i := 0 to |existing|
      invariant forall key :: (if key in held then held[key] else 0) == Allocated(existing[..i], key)
    {
      assert existing[..i + 1][..i] == existing[..i];
      held := held[existing[i].key := existing[i].nodePort];
    }
    assert existing[..|existing|] == existing;
    desired := [];
    for i := 0 to |ports|
      invariant |desired| == i
      invariant forall k :: 0 <= k < i ==>
        desired[k] == if clusterIP then ports[k] else ports[k].(nodePort := Allocated(existing, ports[k].key))
    {
      var p := ports[i];
      if !clusterIP {
        p := p.(nodePort := if p.key in held then held[p.key] else 0);
      }
      desired := desired + [p];
    }
  }

  /** Carrying node ports over into what they came from changes nothing. */
  lemma CarryIsStable(existing: seq<ExposedPort>, ports: seq<ExposedPort>, desired: seq<ExposedPort>, again: seq<ExposedPort>)
    requires Distinct(KeysOf(ports)) && |desired| == |ports| == |again|
    requires forall i :: 0 <= i < |ports| ==> desired[i] == ports[i].(nodePort := Allocated(existing, ports[i].key))
    requires forall i :: 0 <= i < |ports| ==> again[i] == ports[i].(nodePort := Allocated(desired, ports[i].key))
    ensures again == desired
  {
    assert KeysOf(desired) == KeysOf(ports);
    forall i | 0 <= i < |ports| ensures again[i] == desired[i] {
      AllocatedAt(desired, i);
      assert KeysOf(ports)[i] == ports[i].key;
    }
  }

  lemma {:induction false} AllocatedAt(ports: seq<ExposedPort>, i: nat)
    requires Distinct(KeysOf(ports)) && i < |ports|
    ensures Allocated(ports, ports[i].key) == ports[i].nodePort
  {
    var n := |ports| - 1;
    assert forall k :: 0 <= k < |ports| ==> KeysOf(ports)[k] == ports[k].key;
    if i < n {
      assert KeysOf(ports[..n]) == KeysOf(ports)[..n];
      AllocatedAt(ports[..n], i);
    }
  }
}
