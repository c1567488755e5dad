/** A Gateway, its routes and the objects they refer to, before and after
    validation and attachment. */
module GatewayModel {
  import opened Text

  // ---- the Gateway ----

  datatype Protocol = HTTP | HTTPS | TLS | TCP | UDP | OtherProtocol(name: string)

  datatype TlsMode = Terminate | Passthrough

  /** A reference whose group, kind and namespace default when absent. */
  datatype ObjectRef = ObjectRef(group: Option<string>, kind: Option<string>, ns: Option<string>, name: string)

  datatype TlsConfig = TlsConfig(mode: Option<TlsMode>, certificateRefs: seq<ObjectRef>)

  datatype GroupKind = GroupKind(group: Option<string>, kind: string)

  /** Where routes may attach from. A label selector is given by the namespaces
      it selects; one that is absent or does not parse selects none. */
  datatype FromNamespaces = Same | All | Selected(namespaces: set<string>)

  datatype ListenerSpec = ListenerSpec(
    name: string, port: nat, protocol: Protocol, hostname: Option<string>,
    tls: Option<TlsConfig>, allowedKinds: seq<GroupKind>, from: FromNamespaces)

  datatype Gateway = Gateway(ns: string, name: string, listeners: seq<ListenerSpec>)

  datatype ConditionType = Accepted | ResolvedRefs | Conflicted

  datatype Condition = Condition(ctype: ConditionType, status: bool, reason: string)

  datatype Listener = Listener(
    spec: ListenerSpec, supportedKinds: seq<string>, conditions: seq<Condition>,
    certificates: seq<Secret>, valid: bool)

  predicate HasHostnames(p: Protocol) {
    p != TCP && p != UDP
  }

  // ---- what listeners and routes refer to ----

  datatype NamespacedName = NamespacedName(ns: string, name: string)

  /** A Secret: whether it is of the TLS type, and whether its data is a key pair. */
  datatype Secret = Secret(tlsType: bool, keyPair: bool, data: string)

  datatype ServicePort = ServicePort(name: string, port: nat, h2c: bool)

  datatype Service = Service(externalName: bool, ports: seq<ServicePort>)

  datatype GrantFrom = GrantFrom(group: string, kind: string, ns: string)
  datatype GrantTo = GrantTo(group: string, kind: string, name: Option<string>)
  datatype Grant = Grant(ns: string, from: seq<GrantFrom>, to: seq<GrantTo>)

  datatype AddressType = IPv4 | IPv6 | FQDN
  datatype SlicePort = SlicePort(name: Option<string>, port: Option<nat>)
  datatype Endpoint = Endpoint(ready: Option<bool>, addresses: seq<string>)
  datatype EndpointSlice = EndpointSlice(addressType: AddressType, ports: seq<SlicePort>, endpoints: seq<Endpoint>)

  datatype References = References(
    grants: seq<Grant>,
    services: map<NamespacedName, Service>,
    endpoints: map<NamespacedName, seq<EndpointSlice>>,
    secrets: map<NamespacedName, Secret>,
    unreadable: set<NamespacedName>,
    warpRouting: bool)

  // ---- routes ----

  datatype PathType = Exact | PathPrefix | RegularExpression
  datatype PathMatch = PathMatch(ptype: Option<PathType>, value: Option<string>)
  datatype ValueMatch = ValueMatch(name: string, regex: bool, value: string)

  datatype Match = Match(
    path: Option<PathMatch>, method_: Option<string>,
    headers: seq<ValueMatch>, query: seq<ValueMatch>)

  datatype PathModifier = ReplaceFullPath(path: string) | ReplacePrefixMatch(prefix: string)

  datatype Header = Header(name: string, value: string)
  datatype HeaderModifier = HeaderModifier(set_: seq<Header>, add: seq<Header>, remove: seq<string>)

  datatype Filter =
    | RequestHeaders(modifier: HeaderModifier)
    | ResponseHeaders(modifier: HeaderModifier)
    | RequestRedirect(scheme: Option<string>, rhostname: Option<string>, rport: Option<nat>, rpath: Option<PathModifier>, status: nat)
    | UrlRewrite(hostname: Option<string>, path: Option<PathModifier>)
    | Unsupported

  datatype BackendRef = BackendRef(ref: ObjectRef, port: Option<nat>, weight: Option<int>)

  datatype Rule = Rule(matches: seq<Match>, filters: seq<Filter>, backends: seq<BackendRef>, grpc: bool)

  datatype ParentRef = ParentRef(ref: ObjectRef, section: Option<string>, port: Option<nat>)

  datatype RouteKey = RouteKey(kind: string, ns: string, name: string)

  datatype Route = Route(
    key: RouteKey, created: int, parentRefs: seq<ParentRef>,
    hostnames: seq<string>, rules: seq<Rule>)

  // ---- after attachment ----

  datatype Cluster = Cluster(name: string, service: NamespacedName, port: ServicePort, h2: bool)

  datatype Backend = Backend(weight: int, cluster: Option<Cluster>)

  datatype ParentResult = ParentResult(ref: ParentRef, reason: string, hostnames: map<nat, seq<string>>)

  datatype AttachedRoute = AttachedRoute(
    route: Route, parents: seq<ParentResult>, backends: seq<seq<Backend>>, resolvedRefs: string)

  datatype Model = Model(listeners: seq<Listener>, routes: seq<AttachedRoute>, attachedRoutes: seq<nat>)
}
