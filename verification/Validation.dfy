/** Validating the listeners of a Gateway: what each supports, whether its
    certificates resolve, which conflict, and which ports Envoy can bind. */
module Validation {
  import opened Text
  import opened Sorting
  import opened Hostnames
  import opened GatewayModel
  import opened RefGrants
  import opened Layer4
  import opened Ports

  // ---- protocols and route kinds ----

  /** The route kinds a protocol accepts; none when the protocol is not supported. */
  function SupportedKinds(warp: bool, p: Protocol): Option<seq<string>> {
    match p
    case HTTP => Some(if warp then ["HTTPRoute", "GRPCRoute"] else ["HTTPRoute"])
    case TLS => Some(["TLSRoute"])
    case TCP => Some(["TCPRoute"])
    case HTTPS => if warp then Some(["HTTPRoute", "GRPCRoute"]) else None
    case UDP => if warp then Some(["UDPRoute"]) else None
    case OtherProtocol(_) => None
  }

  /** Whether a listener is accepted on its own, whatever the others are. */
  predicate Acceptable(l: ListenerSpec, warp: bool) {
    SupportedKinds(warp, l.protocol).Some? &&
    (l.protocol == HTTPS ==> l.tls.Some? && TlsModeOf(l.tls.value) == Terminate) &&
    (l.protocol == TLS ==> l.tls.Some?)
  }

  predicate KindSupported(k: GroupKind, kinds: seq<string>) {
    (k.group.None? || k.group.value == GATEWAY_GROUP) && k.kind in kinds
  }

  function KindsOf(l: ListenerSpec, warp: bool): seq<string> {
    match SupportedKinds(warp, l.protocol) case Some(kinds) => kinds case None => []
  }

  predicate KindsResolve(l: ListenerSpec, warp: bool) {
    forall k :: k in l.allowedKinds ==> KindSupported(k, KindsOf(l, warp))
  }

  // ---- certificates ----

  ghost function CertificateFailure(gwNs: string, ref: ObjectRef, refs: References): Option<string> {
    var key := NamespacedName(NamespaceOf(ref.ns, gwNs), ref.name);
    if GroupOf(ref, CORE_GROUP) != CORE_GROUP || KindOf(ref, "Secret") != "Secret" then Some("InvalidCertificateRef")
    else if !PermittedSpec(refs, GATEWAY_GROUP, "Gateway", gwNs, CORE_GROUP, "Secret", key.ns, key.name) then Some("RefNotPermitted")
    else if key in refs.unreadable || key !in refs.secrets || !refs.secrets[key].tlsType || !refs.secrets[key].keyPair then
      Some("InvalidCertificateRef")
    else None
  }

  ghost predicate CertificatesResolve(gwNs: string, certs: seq<ObjectRef>, refs: References) {
    certs != [] && forall ref :: ref in certs ==> CertificateFailure(gwNs, ref, refs).None?
  }

  /** The first reference that does not resolve, by its reason; none at all is a failure too. */
  ghost function CertificatesFailure(gwNs: string, certs: seq<ObjectRef>, refs: References): Option<string> {
    if certs == [] then Some("InvalidCertificateRef") else FirstFailing(gwNs, certs, refs)
  }

  ghost function FirstFailing(gwNs: string, certs: seq<ObjectRef>, refs: References): Option<string> {
    if certs == [] then None
    else match CertificateFailure(gwNs, certs[0], refs)
      case Some(reason) => Some(reason)
      case None => FirstFailing(gwNs, certs[1..], refs)
  }

  /** The Secrets the references name, where each resolves. */
  ghost function CertificatesOf(gwNs: string, certs: seq<ObjectRef>, refs: References): seq<Secret>
    requires forall ref :: ref in certs ==> CertificateFailure(gwNs, ref, refs).None?
  {
    seq(|certs|, k requires 0 <= k < |certs| => assert certs[k] in certs; CertificateAt(gwNs, certs[k], refs))
  }

  ghost function CertificateAt(gwNs: string, ref: ObjectRef, refs: References): Secret
    requires CertificateFailure(gwNs, ref, refs).None?
  {
    refs.secrets[NamespacedName(NamespaceOf(ref.ns, gwNs), ref.name)]
  }

  lemma {:induction false} FailureFinds(gwNs: string, certs: seq<ObjectRef>, refs: References)
    ensures FirstFailing(gwNs, certs, refs).None? <==> forall ref :: ref in certs ==> CertificateFailure(gwNs, ref, refs).None?
  {
    if certs != [] {
      FailureFinds(gwNs, certs[1..], refs);
      assert forall ref :: ref in certs <==> ref == certs[0] || ref in certs[1..];
    }
  }

  method ResolveCertificates(gwNs: string, certs: seq<ObjectRef>, refs: References) returns (out: seq<Secret>, failed: Option<string>)
    ensures failed.None? <==> CertificatesResolve(gwNs, certs, refs)
    ensures failed == CertificatesFailure(gwNs, certs, refs)
    ensures failed.None? ==> out == CertificatesOf(gwNs, certs, refs)
    ensures failed.None? ==> |out| == |certs| && forall k :: 0 <= k < |certs| ==>
      var key := NamespacedName(NamespaceOf(certs[k].ns, gwNs), certs[k].name);
      key in refs.secrets && out[k] == refs.secrets[key]
    ensures failed.Some? && certs != [] ==> exists k ::
      0 <= k < |certs| && CertificateFailure(gwNs, certs[k], refs) == failed &&
      forall j :: 0 <= j < k ==> CertificateFailure(gwNs, certs[j], refs).None?
  {
    if certs == [] {
      return [], Some("InvalidCertificateRef");
    }
    out := [];
    for i := 0 to |certs|
      invariant |out| == i
      invariant forall k :: 0 <= k < i ==> CertificateFailure(gwNs, certs[k], refs).None?
      invariant FirstFailing(gwNs, certs, refs) == FirstFailing(gwNs, certs[i..], refs)
      invariant forall k :: 0 <= k < i ==>
        var key := NamespacedName(NamespaceOf(certs[k].ns, gwNs), certs[k].name);
        key in refs.secrets && out[k] == refs.secrets[key]
    {
      var ref := certs[i];
      var key := NamespacedName(NamespaceOf(ref.ns, gwNs), ref.name);
      assert ref in certs && certs[i..][1..] == certs[i + 1..];
      if GroupOf(ref, CORE_GROUP) != CORE_GROUP || KindOf(ref, "Secret") != "Secret" {
        return [], Some("InvalidCertificateRef");
      }
      var permitted := Permitted(refs, GATEWAY_GROUP, "Gateway", gwNs, CORE_GROUP, "Secret", key.ns, key.name);
      if !permitted {
        return [], Some("RefNotPermitted");
      }
      if key in refs.unreadable || key !in refs.secrets || !refs.secrets[key].tlsType || !refs.secrets[key].keyPair {
        return [], Some("InvalidCertificateRef");
      }
      out := out + [refs.secrets[key]];
    }
    failed := None;
  }

  // ---- one listener ----

  /** Whether everything a listener refers to resolves. */
  ghost predicate Resolves(gwNs: string, l: ListenerSpec, refs: References) {
    KindsResolve(l, refs.warpRouting) &&
    (Terminates(l) ==> CertificatesResolve(gwNs, l.tls.value.certificateRefs, refs))
  }

  function StatusOf(conditions: seq<Condition>, t: ConditionType): bool {
    if conditions == [] then false
    else if conditions[0].ctype == t then conditions[0].status
    else StatusOf(conditions[1..], t)
  }

  /** The supported subset of the kinds a listener allows, in order. */
  function SupportedOf(allowed: seq<GroupKind>, kinds: seq<string>): seq<string> {
    if allowed == [] then []
    else SupportedOf(allowed[..|allowed| - 1], kinds) +
         if KindSupported(allowed[|allowed| - 1], kinds) then [allowed[|allowed| - 1].kind] else []
  }

  /** The kinds of route a listener accepts: all of its protocol's, or of those it allows
      the supported ones. */
  function KindsFor(l: ListenerSpec, warp: bool): seq<string> {
    if l.allowedKinds == [] then KindsOf(l, warp) else SupportedOf(l.allowedKinds, KindsOf(l, warp))
  }

  lemma {:induction false} SupportedMembers(allowed: seq<GroupKind>, kinds: seq<string>)
    ensures forall k :: k in SupportedOf(allowed, kinds) <==> exists a :: a in allowed && a.kind == k && KindSupported(a, kinds)
  {
    if allowed != [] {
      var n := |allowed| - 1;
      SupportedMembers(allowed[..n], kinds);
      assert forall a :: a in allowed <==> a in allowed[..n] || a == allowed[n] by { assert allowed == allowed[..n] + [allowed[n]]; }
    }
  }

  function AcceptedCondition(l: ListenerSpec, warp: bool): Condition {
    if Acceptable(l, warp) then Condition(Accepted, true, "Accepted")
    else if SupportedKinds(warp, l.protocol).None? then Condition(Accepted, false, "UnsupportedProtocol")
    else Condition(Accepted, false, "UnsupportedValue")
  }

  /** Route kinds are looked at before certificates. */
  ghost function ResolvedCondition(gwNs: string, l: ListenerSpec, refs: References): Condition {
    if !KindsResolve(l, refs.warpRouting) then Condition(ResolvedRefs, false, "InvalidRouteKinds")
    else if !Terminates(l) then Condition(ResolvedRefs, true, "ResolvedRefs")
    else match CertificatesFailure(gwNs, l.tls.value.certificateRefs, refs)
      case Some(reason) => Condition(ResolvedRefs, false, reason)
      case None => Condition(ResolvedRefs, true, "ResolvedRefs")
  }

  /** The certificates a listener terminates TLS with: those of its references, where
      everything it refers to resolves. */
  ghost function CertificatesFor(gwNs: string, l: ListenerSpec, refs: References): seq<Secret> {
    if Terminates(l) && Resolves(gwNs, l, refs) then CertificatesOf(gwNs, l.tls.value.certificateRefs, refs) else []
  }

  /** A listener on its own, before it is compared with the others. */
  ghost function AloneOf(gwNs: string, l: ListenerSpec, refs: References): Listener {
    Listener(l, KindsFor(l, refs.warpRouting), [AcceptedCondition(l, refs.warpRouting), ResolvedCondition(gwNs, l, refs)],
             CertificatesFor(gwNs, l, refs), false)
  }

  lemma ConditionsMean(gwNs: string, l: ListenerSpec, refs: References)
    ensures AcceptedCondition(l, refs.warpRouting).status <==> Acceptable(l, refs.warpRouting)
    ensures ResolvedCondition(gwNs, l, refs).status <==> Resolves(gwNs, l, refs)
  {
    if Terminates(l) { FailureFinds(gwNs, l.tls.value.certificateRefs, refs); }
  }

  /** The kinds the listener accepts, and whether it allows no other. */
  method SupportKinds(l: ListenerSpec, kinds: seq<string>) returns (supported: seq<string>, resolve: bool)
    ensures supported == if l.allowedKinds == [] then kinds else SupportedOf(l.allowedKinds, kinds)
    ensures resolve <==> forall k :: k in l.allowedKinds ==> KindSupported(k, kinds)
  {
    supported, resolve := [], true;
    if l.allowedKinds == [] {
      return kinds, true;
    }
    for i := 0 to |l.allowedKinds|
      invariant resolve <==> forall j :: 0 <= j < i ==> KindSupported(l.allowedKinds[j], kinds)
      invariant supported == SupportedOf(l.allowedKinds[..i], kinds)
    {
      assert l.allowedKinds[..i + 1][..i] == l.allowedKinds[..i];
      if KindSupported(l.allowedKinds[i], kinds) {
        supported := supported + [l.allowedKinds[i].kind];
      } else {
        resolve := false;
      }
    }
    assert l.allowedKinds[..|l.allowedKinds|] == l.allowedKinds;
  }

  method Validate(gwNs: string, l: ListenerSpec, refs: References) returns (out: Listener)
    ensures out == AloneOf(gwNs, l, refs)
    ensures out.spec == l && |out.conditions| == 2 && !out.valid
    ensures out.conditions[0].ctype == Accepted && (out.conditions[0].status <==> Acceptable(l, refs.warpRouting))
    ensures out.conditions[1].ctype == ResolvedRefs && (out.conditions[1].status <==> Resolves(gwNs, l, refs))
    ensures forall k :: k in out.supportedKinds ==> k in KindsOf(l, refs.warpRouting)
    ensures l.allowedKinds == [] ==> out.supportedKinds == KindsOf(l, refs.warpRouting)
    ensures l.allowedKinds != [] ==> forall k :: k in out.supportedKinds <==>
      exists a :: a in l.allowedKinds && a.kind == k && KindSupported(a, KindsOf(l, refs.warpRouting))
  {
    var kinds := KindsOf(l, refs.warpRouting);
    var accepted;
    if SupportedKinds(refs.warpRouting, l.protocol).None? {
      accepted := Condition(Accepted, false, "UnsupportedProtocol");
    } else if l.protocol == HTTPS && (l.tls.None? || TlsModeOf(l.tls.value) != Terminate) {
      accepted := Condition(Accepted, false, "UnsupportedValue");
    } else if l.protocol == TLS && l.tls.None? {
      accepted := Condition(Accepted, false, "UnsupportedValue");
    } else {
      accepted := Condition(Accepted, true, "Accepted");
    }

    var supported, resolve := SupportKinds(l, kinds);
    var resolved := if resolve then Condition(ResolvedRefs, true, "ResolvedRefs") else Condition(ResolvedRefs, false, "InvalidRouteKinds");
    var certificates: seq<Secret> := [];
    if Terminates(l) && resolved.status {
      var failed;
      certificates, failed := ResolveCertificates(gwNs, l.tls.value.certificateRefs, refs);
      if failed.Some? {
        certificates := [];
        resolved := Condition(ResolvedRefs, false, failed.value);
      }
    }
    ConditionsMean(gwNs, l, refs);
    SupportedMembers(l.allowedKinds, kinds);
    out := Listener(l, supported, [accepted, resolved], certificates, false);
  }

  // ---- conflicts ----

  predicate SameTransport(a: Protocol, b: Protocol) {
    (a == UDP) == (b == UDP)
  }

  function HostnameOf(l: ListenerSpec): string {
    if l.hostname.Some? then l.hostname.value else ""
  }

  predicate ProtocolsConflict(a: ListenerSpec, b: ListenerSpec) {
    a.port == b.port && SameTransport(a.protocol, b.protocol) && a.protocol != b.protocol
  }

  /** Two listeners nothing could tell apart. */
  predicate Conflicts(a: ListenerSpec, b: ListenerSpec) {
    a.port == b.port && SameTransport(a.protocol, b.protocol) &&
    (a.protocol != b.protocol || !HasHostnames(a.protocol) || HostnameOf(a) == HostnameOf(b))
  }

  /** Some other listener conflicts with listener i. */
  ghost predicate InConflict(specs: seq<ListenerSpec>, i: nat)
    requires i < |specs|
  {
    exists j :: 0 <= j < |specs| && j != i && Conflicts(specs[i], specs[j])
  }

  ghost predicate InProtocolConflict(specs: seq<ListenerSpec>, i: nat)
    requires i < |specs|
  {
    exists j :: 0 <= j < |specs| && j != i && ProtocolsConflict(specs[i], specs[j])
  }

  /** The condition listener i gets: a protocol that differs outweighs a hostname shared. */
  ghost function ConflictCondition(specs: seq<ListenerSpec>, i: nat): Condition
    requires i < |specs|
  {
    if InProtocolConflict(specs, i) then Condition(Conflicted, true, "ProtocolConflict")
    else if InConflict(specs, i) then Condition(Conflicted, true, "HostnameConflict")
    else Condition(Conflicted, false, "NoConflicts")
  }

  ghost predicate HasSpecs(a: array<Listener>, specs: seq<ListenerSpec>)
    reads a
  {
    a.Length == |specs| && forall k :: 0 <= k < a.Length ==> a[k].spec == specs[k]
  }

  method ConflictOf(a: array<Listener>, i: nat, ghost specs: seq<ListenerSpec>) returns (conflict: Condition)
    requires HasSpecs(a, specs) && i < a.Length
    ensures conflict == ConflictCondition(specs, i)
  {
    conflict := Condition(Conflicted, false, "NoConflicts");
    for j := 0 to a.Length
      invariant forall k :: 0 <= k < j && k != i ==> !ProtocolsConflict(specs[i], specs[k])
      invariant conflict == if exists k :: 0 <= k < j && k != i && Conflicts(specs[i], specs[k])
                            then Condition(Conflicted, true, "HostnameConflict")
                            else Condition(Conflicted, false, "NoConflicts")
    {
      var l, o := a[i].spec, a[j].spec;
      if i == j || l.port != o.port || !SameTransport(l.protocol, o.protocol) {
        continue;
      }
      if l.protocol != o.protocol {
        assert ProtocolsConflict(specs[i], specs[j]);
        conflict := Condition(Conflicted, true, "ProtocolConflict");
        return;
      }
      if !HasHostnames(l.protocol) {
        conflict := Condition(Conflicted, true, "HostnameConflict");
      } else if HostnameOf(l) == HostnameOf(o) {
        conflict := Condition(Conflicted, true, "HostnameConflict");
      }
    }
  }

  method MarkConflicts(a: array<Listener>, ghost specs: seq<ListenerSpec>)
    requires HasSpecs(a, specs)
    modifies a
    ensures HasSpecs(a, specs)
    ensures forall k :: 0 <= k < a.Length ==>
      a[k] == old(a[k]).(conditions := old(a[k]).conditions + [ConflictCondition(specs, k)])
  {
    for i := 0 to a.Length
      invariant HasSpecs(a, specs)
      invariant forall k :: i <= k < a.Length ==> a[k] == old(a[k])
      invariant forall k :: 0 <= k < i ==>
        a[k] == old(a[k]).(conditions := old(a[k]).conditions + [ConflictCondition(specs, k)])
    {
      var conflict := ConflictOf(a, i, specs);
      a[i] := a[i].(conditions := a[i].conditions + [conflict]);
    }
  }

  // ---- ports ----

  /** Whether Envoy can bind the port: it is not one of its own, nor one a
      privileged port was moved to that another listener uses. */
  predicate PortAvailable(ports: set<nat>, port: nat) {
    var bound := ContainerPort(port);
    bound != ENVOY_ADMIN_PORT && bound != ENVOY_READINESS_PORT && (bound == port || bound !in ports)
  }

  ghost function PortsOf(specs: seq<ListenerSpec>): set<nat> {
    set l | l in specs :: l.port
  }

  function RejectAccepted(conditions: seq<Condition>): seq<Condition> {
    seq(|conditions|, k requires 0 <= k < |conditions| =>
      if conditions[k].ctype == Accepted then Condition(Accepted, false, "PortUnavailable") else conditions[k])
  }

  method MarkUnavailablePorts(a: array<Listener>, ghost specs: seq<ListenerSpec>)
    requires HasSpecs(a, specs)
    modifies a
    ensures HasSpecs(a, specs)
    ensures forall k :: 0 <= k < a.Length ==>
      a[k] == if PortAvailable(PortsOf(specs), specs[k].port) then old(a[k])
              else old(a[k]).(conditions := RejectAccepted(old(a[k]).conditions))
  {
    var ports: set<nat> := {};
    for i := 0 to a.Length
      invariant forall p :: p in ports <==> exists k :: 0 <= k < i && specs[k].port == p
    {
      ports := ports + {a[i].spec.port};
    }
    assert ports == PortsOf(specs);

    for i := 0 to a.Length
      invariant HasSpecs(a, specs)
      invariant forall k :: i <= k < a.Length ==> a[k] == old(a[k])
      invariant forall k :: 0 <= k < i ==>
        a[k] == if PortAvailable(PortsOf(specs), specs[k].port) then old(a[k])
                else old(a[k]).(conditions := RejectAccepted(old(a[k]).conditions))
    {
      var l := a[i];
      var bound := ContainerPort(l.spec.port);
      if bound != ENVOY_ADMIN_PORT && bound != ENVOY_READINESS_PORT && !(bound != l.spec.port && bound in ports) {
        continue;
      }
      var conditions := l.conditions;
      for j := 0 to |conditions|
        invariant |conditions| == |l.conditions|
        invariant conditions[..j] == RejectAccepted(l.conditions)[..j] && conditions[j..] == l.conditions[j..]
      {
        if conditions[j].ctype == Accepted {
          conditions := conditions[j := Condition(Accepted, false, "PortUnavailable")];
        }
      }
      a[i] := l.(conditions := conditions);
    }
  }

  // ---- all listeners ----

  /** What a listener has to be to be programmed: supported, with references that
      resolve, in conflict with no other, and on a port Envoy can bind. */
  ghost predicate Programmable(gwNs: string, specs: seq<ListenerSpec>, i: nat, refs: References)
    requires i < |specs|
  {
    Acceptable(specs[i], refs.warpRouting) && PortAvailable(PortsOf(specs), specs[i].port) &&
    Resolves(gwNs, specs[i], refs) && !InConflict(specs, i)
  }

  /** Listener i once it has been compared with the others. */
  ghost function ListenerFor(gwNs: string, specs: seq<ListenerSpec>, i: nat, refs: References): Listener
    requires i < |specs|
  {
    var l := AloneOf(gwNs, specs[i], refs);
    var conditions := l.conditions + [ConflictCondition(specs, i)];
    l.(conditions := if PortAvailable(PortsOf(specs), specs[i].port) then conditions else RejectAccepted(conditions),
       valid := Programmable(gwNs, specs, i, refs))
  }

  ghost function ListenersFor(gw: Gateway, refs: References): seq<Listener> {
    seq(|gw.listeners|, i requires 0 <= i < |gw.listeners| => ListenerFor(gw.ns, gw.listeners, i, refs))
  }

  /** What a validated listener accepts and terminates TLS with, in terms of the Gateway. */
  lemma ListenerFacts(gw: Gateway, refs: References, i: nat, kind: string)
    requires i < |gw.listeners|
    ensures var l := ListenersFor(gw, refs)[i];
            && l.spec == gw.listeners[i] && (l.valid <==> Programmable(gw.ns, gw.listeners, i, refs))
            && (kind in l.supportedKinds <==>
                  kind in KindsOf(l.spec, refs.warpRouting) &&
                  (l.spec.allowedKinds == [] ||
                   exists a :: a in l.spec.allowedKinds && a.kind == kind && KindSupported(a, KindsOf(l.spec, refs.warpRouting))))
            && (l.valid && Terminates(l.spec) ==>
                  |l.certificates| == |l.spec.tls.value.certificateRefs| > 0 &&
                  forall k :: 0 <= k < |l.certificates| ==>
                    CertificateFailure(gw.ns, l.spec.tls.value.certificateRefs[k], refs).None? &&
                    l.certificates[k] == refs.secrets[NamespacedName(NamespaceOf(l.spec.tls.value.certificateRefs[k].ns, gw.ns),
                                                                     l.spec.tls.value.certificateRefs[k].name)])
            && (!Terminates(l.spec) ==> l.certificates == [])
  {
    SupportedMembers(gw.listeners[i].allowedKinds, KindsOf(gw.listeners[i], refs.warpRouting));
  }

  method Listeners(gw: Gateway, refs: References) returns (listeners: array<Listener>)
    ensures fresh(listeners) && HasSpecs(listeners, gw.listeners) && listeners[..] == ListenersFor(gw, refs)
    ensures forall i :: 0 <= i < listeners.Length ==> (listeners[i].valid <==> Programmable(gw.ns, gw.listeners, i, refs))
  {
    var specs := gw.listeners;
    listeners := new Listener[|specs|](_ => Listener(ListenerSpec("", 0, HTTP, None, None, [], Same), [], [], [], false));
    for i := 0 to |specs|
      invariant forall k :: 0 <= k < i ==> listeners[k] == AloneOf(gw.ns, specs[k], refs)
    {
      listeners[i] := Validate(gw.ns, specs[i], refs);
    }
    ghost var validated := listeners[..];
    MarkConflicts(listeners, specs);
    ghost var marked := listeners[..];
    MarkUnavailablePorts(listeners, specs);
    ghost var done := listeners[..];
    for i := 0 to listeners.Length
      invariant forall k :: i <= k < listeners.Length ==> listeners[k] == done[k]
      invariant forall k :: 0 <= k < i ==> listeners[k] == done[k].(valid := Ready(done[k]))
    {
      var l := listeners[i];
      listeners[i] := l.(valid := StatusOf(l.conditions, Accepted) && StatusOf(l.conditions, ResolvedRefs) &&
                                  !StatusOf(l.conditions, Conflicted));
    }
    forall i | 0 <= i < listeners.Length ensures listeners[..][i] == ListenerFor(gw.ns, specs, i, refs) {
      ReadyIsProgrammable(gw.ns, specs, i, refs, validated[i], marked[i], done[i]);
    }
  }

  predicate Ready(l: Listener) {
    StatusOf(l.conditions, Accepted) && StatusOf(l.conditions, ResolvedRefs) && !StatusOf(l.conditions, Conflicted)
  }

  /** Compared with the others, a listener is ready exactly when it is programmable. */
  lemma ReadyIsProgrammable(gwNs: string, specs: seq<ListenerSpec>, i: nat, refs: References, v: Listener, w: Listener, l: Listener)
    requires i < |specs| && v == AloneOf(gwNs, specs[i], refs)
    requires w == v.(conditions := v.conditions + [ConflictCondition(specs, i)])
    requires l == if PortAvailable(PortsOf(specs), specs[i].port) then w else w.(conditions := RejectAccepted(w.conditions))
    ensures Ready(l) <==> Programmable(gwNs, specs, i, refs)
    ensures l.(valid := Ready(l)) == ListenerFor(gwNs, specs, i, refs)
  {
    ConditionsMean(gwNs, specs[i], refs);
    var c := ConflictCondition(specs, i);
    assert InProtocolConflict(specs, i) ==> InConflict(specs, i);
    var cs := l.conditions;
    assert |cs| == 3 && cs[1] == v.conditions[1] && cs[2] == c && cs[0].ctype == Accepted;
    assert cs == [cs[0], cs[1], cs[2]] && cs[1..] == [cs[1], cs[2]] && cs[1..][1..] == [cs[2]];
    assert StatusOf(cs[1..], ResolvedRefs) == cs[1].status && StatusOf(cs[1..], Conflicted) == StatusOf([cs[2]], Conflicted);
  }

  // ---- what validation guarantees ----

  // ---- the order of the spec ----

  ghost predicate DistinctNames(specs: seq<ListenerSpec>) {
    forall i, j :: 0 <= i < j < |specs| ==> specs[i].name != specs[j].name
  }

  /** Of listeners with names of their own, one is in conflict when any but itself conflicts. */
  lemma ConflictsByName(specs: seq<ListenerSpec>, i: nat)
    requires DistinctNames(specs) && i < |specs|
    ensures InConflict(specs, i) <==> exists l :: l in specs && l != specs[i] && Conflicts(specs[i], l)
    ensures InProtocolConflict(specs, i) <==> exists l :: l in specs && l != specs[i] && ProtocolsConflict(specs[i], l)
  {
    if j :| 0 <= j < |specs| && j != i && Conflicts(specs[i], specs[j]) { assert specs[j] in specs && specs[j].name != specs[i].name; }
    if j :| 0 <= j < |specs| && j != i && ProtocolsConflict(specs[i], specs[j]) { assert specs[j] in specs && specs[j].name != specs[i].name; }
  }

  lemma ListenerAnywhere(gwNs: string, specs: seq<ListenerSpec>, others: seq<ListenerSpec>, i: nat, j: nat, refs: References)
    requires DistinctNames(specs) && DistinctNames(others) && forall l :: l in specs <==> l in others
    requires i < |specs| && j < |others| && specs[i] == others[j]
    ensures ListenerFor(gwNs, specs, i, refs) == ListenerFor(gwNs, others, j, refs)
  {
    ConflictsByName(specs, i);
    ConflictsByName(others, j);
    assert PortsOf(specs) == PortsOf(others);
  }

  /** Validation does not depend on the order of the spec: the same listeners, listed in
      another order, come out as they would have. */
  lemma OrderOfSpec(gw: Gateway, other: Gateway, refs: References)
    requires gw.ns == other.ns && DistinctNames(gw.listeners) && DistinctNames(other.listeners)
    requires forall l :: l in gw.listeners <==> l in other.listeners
    ensures forall l :: l in ListenersFor(gw, refs) <==> l in ListenersFor(other, refs)
  {
    forall l | l in ListenersFor(gw, refs) ensures l in ListenersFor(other, refs) {
      ListedElsewhere(gw, other, refs, l);
    }
    forall l | l in ListenersFor(other, refs) ensures l in ListenersFor(gw, refs) {
      ListedElsewhere(other, gw, refs, l);
    }
  }

  lemma ListedElsewhere(gw: Gateway, other: Gateway, refs: References, l: Listener)
    requires gw.ns == other.ns && DistinctNames(gw.listeners) && DistinctNames(other.listeners)
    requires forall l :: l in gw.listeners <==> l in other.listeners
    requires l in ListenersFor(gw, refs)
    ensures l in ListenersFor(other, refs)
  {
    var i :| 0 <= i < |gw.listeners| && ListenersFor(gw, refs)[i] == l;
    assert gw.listeners[i] in other.listeners;
    var j :| 0 <= j < |other.listeners| && other.listeners[j] == gw.listeners[i];
    ListenerAnywhere(gw.ns, gw.listeners, other.listeners, i, j, refs);
    assert ListenersFor(other, refs)[j] == l;
  }

  // ---- what holds of validated listeners ----

  /** A model whose valid listeners are the programmable ones. */
  ghost predicate Sound(ls: seq<Listener>) {
    (forall i, j :: 0 <= i < |ls| && 0 <= j < |ls| && i != j && ls[i].valid ==> !Conflicts(ls[i].spec, ls[j].spec)) &&
    (forall i :: 0 <= i < |ls| && ls[i].valid ==> PortAvailable(set l | l in ls :: l.spec.port, ls[i].spec.port)) &&
    (forall i :: 0 <= i < |ls| && ls[i].valid ==> !ls[i].spec.protocol.OtherProtocol?)
  }

  /** What Listeners returns is sound. */
  lemma ListenersAreSound(gw: Gateway, refs: References, ls: seq<Listener>)
    requires |ls| == |gw.listeners| && forall i :: 0 <= i < |ls| ==> ls[i].spec == gw.listeners[i]
    requires forall i :: 0 <= i < |ls| ==> (ls[i].valid <==> Programmable(gw.ns, gw.listeners, i, refs))
    ensures Sound(ls)
  {
    assert (set l | l in ls :: l.spec.port) == PortsOf(gw.listeners) by {
      forall p ensures p in (set l | l in ls :: l.spec.port) <==> p in PortsOf(gw.listeners) {
        if p in PortsOf(gw.listeners) {
          var k :| 0 <= k < |gw.listeners| && gw.listeners[k].port == p;
          assert ls[k] in ls;
        }
        if l :| l in ls && l.spec.port == p {
          var k :| 0 <= k < |ls| && ls[k] == l;
          assert gw.listeners[k] in gw.listeners;
        }
      }
    }
  }

  /** Valid listeners on one port and transport share a protocol; a TCP or UDP
      one is alone; the others have hostnames of their own. */
  lemma PortGroups(ls: seq<Listener>, i: nat, j: nat)
    requires Sound(ls) && i < |ls| && j < |ls| && ls[i].valid && ls[j].valid
    requires ls[i].spec.port == ls[j].spec.port && SameTransport(ls[i].spec.protocol, ls[j].spec.protocol)
    ensures ls[i].spec.protocol == ls[j].spec.protocol
    ensures !HasHostnames(ls[i].spec.protocol) ==> i == j
    ensures HostnameOf(ls[i].spec) == HostnameOf(ls[j].spec) ==> i == j
  {
  }

  /** No two ports valid listeners use are bound at one container port, and none
      at a port of Envoy's own. */
  lemma ContainerPortsDistinct(ls: seq<Listener>, i: nat, j: nat)
    requires Sound(ls) && i < |ls| && j < |ls| && ls[i].valid && ls[j].valid
    ensures ContainerPort(ls[i].spec.port) == ContainerPort(ls[j].spec.port) ==> ls[i].spec.port == ls[j].spec.port
    ensures ContainerPort(ls[i].spec.port) !in {ENVOY_ADMIN_PORT, ENVOY_READINESS_PORT}
  {
    assert ls[i] in ls && ls[j] in ls;
  }
}
