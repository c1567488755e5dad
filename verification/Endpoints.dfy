/** The endpoints of clusters, from the EndpointSlices of their Services. */
module Endpoints {
  import opened Text
  import opened Sorting
  import opened GatewayModel
  import opened Entries
  import E = Envoy

  function CompareAddress(a: E.Address, b: E.Address): int {
    Or(CompareString(a.ip, b.ip), CompareInt(a.port, b.port))
  }

  predicate AddressLeq(a: E.Address, b: E.Address) {
    CompareAddress(a, b) <= 0
  }

  lemma AddressLeqIsTotalOrder()
    ensures TotalPreorder(AddressLeq)
    ensures forall a, b :: AddressLeq(a, b) && AddressLeq(b, a) ==> a == b
  {
    forall a, b ensures AddressLeq(a, b) || AddressLeq(b, a) {
      CompareStringAntisymmetric(a.ip, b.ip);
    }
    forall a, b, c | AddressLeq(a, b) && AddressLeq(b, c) ensures AddressLeq(a, c) {
      StringChain(a.ip, b.ip, c.ip);
    }
    forall a, b | AddressLeq(a, b) && AddressLeq(b, a) ensures a == b {
      CompareStringAntisymmetric(a.ip, b.ip);
      CompareStringEqual(a.ip, b.ip);
    }
  }

  predicate NamesPort(p: SlicePort, name: string) {
    p.port.Some? && (if p.name.Some? then p.name.value else "") == name
  }

  /** The port a slice gives the Service port of a name: the first so named. */
  function SlicePortOf(ports: seq<SlicePort>, name: string): Option<nat> {
    if ports == [] then None
    else if NamesPort(ports[0], name) then ports[0].port
    else SlicePortOf(ports[1..], name)
  }

  method FindSlicePort(ports: seq<SlicePort>, name: string) returns (port: Option<nat>)
    ensures port == SlicePortOf(ports, name)
  {
    for i := 0 to |ports|
      invariant SlicePortOf(ports, name) == SlicePortOf(ports[i..], name)
    {
      assert ports[i..][1..] == ports[i + 1..];
      if NamesPort(ports[i], name) {
        return ports[i].port;
      }
    }
    port := None;
  }

  /** An address a slice holds ready for the Service port. */
  ghost predicate ReadyIn(s: EndpointSlice, name: string, a: E.Address) {
    s.addressType != FQDN && SlicePortOf(s.ports, name) == Some(a.port) &&
    exists e :: e in s.endpoints && e.ready != Some(false) && a.ip in e.addresses
  }

  ghost predicate ReadyAddress(slices: seq<EndpointSlice>, name: string, a: E.Address) {
    exists s :: s in slices && ReadyIn(s, name, a)
  }

  /** An address of one of the first endpoints that is ready. */
  ghost predicate ReadyAmong(endpoints: seq<Endpoint>, n: nat, ip: string)
    requires n <= |endpoints|
  {
    exists k :: 0 <= k < n && endpoints[k].ready != Some(false) && ip in endpoints[k].addresses
  }

  method AddSlice(addresses: seq<E.Address>, s: EndpointSlice, name: string) returns (out: seq<E.Address>)
    requires Distinct(addresses)
    ensures Distinct(out) && forall a :: a in out <==> a in addresses || ReadyIn(s, name, a)
  {
    out := addresses;
    if s.addressType == FQDN {
      return;
    }
    var port := FindSlicePort(s.ports, name);
    if port.None? {
      return;
    }
    for i := 0 to |s.endpoints|
      invariant Distinct(out)
      invariant forall a :: a in out <==> a in addresses || (a.port == port.value && ReadyAmong(s.endpoints, i, a.ip))
    {
      var e := s.endpoints[i];
      if e.ready.Some? && !e.ready.value {
        continue;
      }
      ghost var before := out;
      for j := 0 to |e.addresses|
        invariant Distinct(out)
        invariant forall a :: a in out <==> a in before || (a.port == port.value && a.ip in e.addresses[..j])
      {
        assert e.addresses[..j + 1] == e.addresses[..j] + [e.addresses[j]];
        var a := E.Address(e.addresses[j], port.value);
        if a !in out {
          out := out + [a];
        }
      }
      assert e.addresses[..|e.addresses|] == e.addresses;
    }
    forall a ensures ReadyIn(s, name, a) <==> a.port == port.value && ReadyAmong(s.endpoints, |s.endpoints|, a.ip) {
    }
  }

  /** Exactly the ready addresses of the Service port, each once and in order. */
  ghost predicate AreEndpoints(addresses: seq<E.Address>, slices: seq<EndpointSlice>, name: string) {
    Ordered(addresses, AddressLeq) && Distinct(addresses) && forall a :: a in addresses <==> ReadyAddress(slices, name, a)
  }

  function SlicesOf(c: Cluster, refs: References): seq<EndpointSlice> {
    if c.service in refs.endpoints then refs.endpoints[c.service] else []
  }

  method ClusterEndpoints(c: Cluster, refs: References) returns (addresses: seq<E.Address>)
    ensures AreEndpoints(addresses, SlicesOf(c, refs), c.port.name)
  {
    var slices := SlicesOf(c, refs);
    var gathered: seq<E.Address> := [];
    for i := 0 to |slices|
      invariant Distinct(gathered)
      invariant forall a :: a in gathered <==> ReadyAddress(slices[..i], c.port.name, a)
    {
      assert slices[..i + 1] == slices[..i] + [slices[i]];
      gathered := AddSlice(gathered, slices[i], c.port.name);
    }
    assert slices[..|slices|] == slices;
    AddressLeqIsTotalOrder();
    addresses := SortStable(gathered, AddressLeq);
    PermutationFacts(gathered, addresses);
  }

  /** The endpoints do not depend on the order the slices are listed in. */
  lemma EndpointsUnique(a: seq<E.Address>, b: seq<E.Address>, s: seq<EndpointSlice>, t: seq<EndpointSlice>, name: string)
    requires AreEndpoints(a, s, name) && AreEndpoints(b, t, name)
    requires forall x :: x in s <==> x in t
    ensures a == b
  {
    AddressLeqIsTotalOrder();
    forall x ensures ReadyAddress(s, name, x) <==> ReadyAddress(t, name, x) {
    }
    OrderedUnique(a, b, AddressLeq);
  }
}
