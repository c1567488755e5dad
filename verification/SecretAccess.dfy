/** Which namespaces the operator may read Secrets in, and the RoleBindings that let it. */
module SecretAccess {
  import opened Text
  import opened Sorting
  import opened GatewayModel
  import opened RefGrants
  import opened Validation

  // ---- the namespaces ----

  /** A reference a Gateway may follow to a Secret. */
  ghost predicate MayFollow(gwNs: string, ref: ObjectRef, refs: References) {
    GroupOf(ref, CORE_GROUP) == CORE_GROUP && KindOf(ref, "Secret") == "Secret" &&
    PermittedSpec(refs, GATEWAY_GROUP, "Gateway", gwNs, CORE_GROUP, "Secret", NamespaceOf(ref.ns, gwNs), ref.name)
  }

  predicate Mentions(listeners: seq<ListenerSpec>, ref: ObjectRef) {
    exists l :: l in listeners && l.tls.Some? && ref in l.tls.value.certificateRefs
  }

  /** Some listener names a Secret in the namespace that the Gateway may follow. */
  ghost predicate Needs(gw: Gateway, refs: References, ns: string) {
    exists ref :: Mentions(gw.listeners, ref) && MayFollow(gw.ns, ref, refs) && NamespaceOf(ref.ns, gw.ns) == ns
  }

  method CertificateNamespaces(gw: Gateway, refs: References) returns (namespaces: set<string>)
    ensures forall ns :: ns in namespaces <==> Needs(gw, refs, ns)
  {
    namespaces := {};
    for i := 0 to |gw.listeners|
      invariant forall ns :: ns in namespaces <==> Needs(gw.(listeners := gw.listeners[..i]), refs, ns)
    {
      var l := gw.listeners[i];
      assert gw.listeners[..i + 1] == gw.listeners[..i] + [l];
      var certs := if l.tls.Some? then l.tls.value.certificateRefs else [];
      var found := NamespacesOfRefs(gw.ns, certs, refs);
      NeedsSnoc(gw, refs, gw.listeners[..i], l);
      namespaces := namespaces + found;
    }
    assert gw.(listeners := gw.listeners[..|gw.listeners|]) == gw;
  }

  method NamespacesOfRefs(gwNs: string, certs: seq<ObjectRef>, refs: References) returns (namespaces: set<string>)
    ensures forall ns :: ns in namespaces <==> NamesOne(gwNs, certs, refs, ns)
  {
    namespaces := {};
    for i := 0 to |certs|
      invariant forall ns :: ns in namespaces <==> NamesOne(gwNs, certs[..i], refs, ns)
    {
      var ref := certs[i];
      assert forall r :: r in certs[..i + 1] <==> r in certs[..i] || r == ref by { assert certs[..i + 1] == certs[..i] + [ref]; }
      var ns := NamespaceOf(ref.ns, gwNs);
      if GroupOf(ref, CORE_GROUP) == CORE_GROUP && KindOf(ref, "Secret") == "Secret" {
        var permitted := Permitted(refs, GATEWAY_GROUP, "Gateway", gwNs, CORE_GROUP, "Secret", ns, ref.name);
        if permitted { namespaces := namespaces + {ns}; }
      }
      assert forall n :: NamesOne(gwNs, certs[..i + 1], refs, n) <==> NamesOne(gwNs, certs[..i], refs, n) || (MayFollow(gwNs, ref, refs) && n == ns);
    }
    assert certs[..|certs|] == certs;
  }

  ghost predicate NamesOne(gwNs: string, certs: seq<ObjectRef>, refs: References, ns: string) {
    exists ref :: ref in certs && MayFollow(gwNs, ref, refs) && NamespaceOf(ref.ns, gwNs) == ns
  }

  lemma NeedsSnoc(gw: Gateway, refs: References, listeners: seq<ListenerSpec>, l: ListenerSpec)
    ensures forall ns :: Needs(gw.(listeners := listeners + [l]), refs, ns) <==>
              Needs(gw.(listeners := listeners), refs, ns) ||
              NamesOne(gw.ns, if l.tls.Some? then l.tls.value.certificateRefs else [], refs, ns)
  {
    forall ref ensures Mentions(listeners + [l], ref) <==> Mentions(listeners, ref) || (l.tls.Some? && ref in l.tls.value.certificateRefs) {
      assert forall m :: m in listeners + [l] <==> m in listeners || m == l;
    }
  }

  // ---- the Gateways this controller owns ----

  datatype GatewayObject = GatewayObject(gateway: Gateway, className: string, deleting: bool)

  datatype GatewayClass = GatewayClass(name: string, controller: string)

  const CONTROLLER_NAME := "cloudflare.unmango.dev/gateway-controller"

  ghost predicate Ours(classes: seq<GatewayClass>, g: GatewayObject) {
    !g.deleting && GatewayClass(g.className, CONTROLLER_NAME) in classes
  }

  ghost predicate Wanted(classes: seq<GatewayClass>, gateways: seq<GatewayObject>, refs: References, ns: string) {
    exists g :: g in gateways && Ours(classes, g) && Needs(g.gateway, refs, ns)
  }

  /** The union of CertificateNamespaces over the live Gateways of this controller's classes. */
  method AllCertificateNamespaces(classes: seq<GatewayClass>, gateways: seq<GatewayObject>, refs: References)
    returns (namespaces: set<string>)
    ensures forall ns :: ns in namespaces <==> Wanted(classes, gateways, refs, ns)
  {
    var ours: set<string> := {};
    for i := 0 to |classes|
      invariant forall name :: name in ours <==> GatewayClass(name, CONTROLLER_NAME) in classes[..i]
    {
      assert classes[..i + 1] == classes[..i] + [classes[i]];
      if classes[i].controller == CONTROLLER_NAME { ours := ours + {classes[i].name}; }
    }
    assert classes[..|classes|] == classes;
    namespaces := {};
    for i := 0 to |gateways|
      invariant forall ns :: ns in namespaces <==> Wanted(classes, gateways[..i], refs, ns)
    {
      var g := gateways[i];
      assert forall h :: h in gateways[..i + 1] <==> h in gateways[..i] || h == g by { assert gateways[..i + 1] == gateways[..i] + [g]; }
      if g.className in ours && !g.deleting {
        var more := CertificateNamespaces(g.gateway, refs);
        namespaces := namespaces + more;
      }
      assert forall ns :: Wanted(classes, gateways[..i + 1], refs, ns) <==>
        Wanted(classes, gateways[..i], refs, ns) || (Ours(classes, g) && Needs(g.gateway, refs, ns));
    }
    assert gateways[..|gateways|] == gateways;
  }

  // ---- access is enough, and not too much ----

  /** What the operator sees of the Secrets when it may read them in some namespaces only. */
  ghost function SeenIn(refs: References, namespaces: iset<string>): References {
    refs.(secrets := map k | k in refs.secrets && k.ns in namespaces :: refs.secrets[k],
          unreadable := set k | k in refs.unreadable && k.ns in namespaces)
  }

  /** With access to just the namespaces a Gateway needs, each of its certificate
      references resolves as it would with access to all. */
  lemma AccessSuffices(gw: Gateway, refs: References, namespaces: iset<string>, ref: ObjectRef)
    requires Mentions(gw.listeners, ref)
    requires forall ns :: Needs(gw, refs, ns) ==> ns in namespaces
    ensures CertificateFailure(gw.ns, ref, SeenIn(refs, namespaces)) == CertificateFailure(gw.ns, ref, refs)
    ensures CertificateFailure(gw.ns, ref, refs).None? ==>
              Needs(gw, refs, NamespaceOf(ref.ns, gw.ns)) &&
              NamespacedName(NamespaceOf(ref.ns, gw.ns), ref.name) in SeenIn(refs, namespaces).secrets
  {
    var seen := SeenIn(refs, namespaces);
    assert MayFollow(gw.ns, ref, refs) ==> Needs(gw, refs, NamespaceOf(ref.ns, gw.ns));
    SamePermission(refs, seen, gw.ns, ref);
  }

  lemma SamePermission(refs: References, seen: References, gwNs: string, ref: ObjectRef)
    requires seen.grants == refs.grants
    ensures PermittedSpec(seen, GATEWAY_GROUP, "Gateway", gwNs, CORE_GROUP, "Secret", NamespaceOf(ref.ns, gwNs), ref.name) ==
            PermittedSpec(refs, GATEWAY_GROUP, "Gateway", gwNs, CORE_GROUP, "Secret", NamespaceOf(ref.ns, gwNs), ref.name)
  {
  }

  /** No needed namespace can be left out: some listener's reference leads there, and
      without access it fails whatever the namespace holds. */
  lemma AccessIsNeeded(gw: Gateway, refs: References, namespaces: iset<string>, ns: string)
    requires Needs(gw, refs, ns) && ns !in namespaces
    ensures exists ref :: Mentions(gw.listeners, ref) && MayFollow(gw.ns, ref, refs) && NamespaceOf(ref.ns, gw.ns) == ns &&
              CertificateFailure(gw.ns, ref, SeenIn(refs, namespaces)).Some?
  {
    var ref :| Mentions(gw.listeners, ref) && MayFollow(gw.ns, ref, refs) && NamespaceOf(ref.ns, gw.ns) == ns;
    assert NamespacedName(ns, ref.name) !in SeenIn(refs, namespaces).secrets;
    assert CertificateFailure(gw.ns, ref, SeenIn(refs, namespaces)).Some?;
  }
}
