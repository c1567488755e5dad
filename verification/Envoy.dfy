/** The configuration the translation emits, and how Envoy reads it: a request
    goes to the most specific virtual host for its host and there to the
    first route that matches; a connection goes to the filter chain with the
    most specific server name. */
module Envoy {
  import opened Text

  datatype StringMatcher = ExactValue(value: string) | SafeRegex(regex: string)

  datatype NamedMatcher = NamedMatcher(name: string, matcher: StringMatcher)

  datatype PathSpecifier =
    | Path(path: string)
    | PathRegex(regex: string)
    | Prefix(prefix: string)
    | PathSeparatedPrefix(prefix: string)

  datatype RouteMatch = RouteMatch(path: PathSpecifier, headers: seq<NamedMatcher>, query: seq<NamedMatcher>)

  // The three regular expressions a rewrite uses, by what they do: one replaces
  // everything, one keeps what follows a prefix and any slashes after it, and
  // one puts a substitution where the prefix was.
  datatype PathRewrite =
    | ReplaceAll(substitution: string)
    | StripPrefix(prefix: string)
    | SubstitutePrefix(prefix: string, substitution: string)

  datatype WeightedTarget = WeightedTarget(name: string, weight: int)

  datatype ClusterSpecifier = SingleCluster(name: string) | WeightedClusters(targets: seq<WeightedTarget>)

  datatype Action =
    | DirectResponse(status: nat)
    | Redirect(schemeRedirect: Option<string>, hostRedirect: Option<string>, portRedirect: Option<nat>,
               pathRedirect: Option<PathRewrite>, code: nat)
    | Forward(specifier: ClusterSpecifier, hostRewrite: Option<string>, pathRewrite: Option<PathRewrite>)

  /** A header to put, in addition to those of its name or in place of them. */
  datatype HeaderOption = HeaderOption(name: string, value: string, append: bool)

  datatype HeaderEdits = HeaderEdits(add: seq<HeaderOption>, remove: seq<string>)

  datatype Route = Route(name: string, match_: RouteMatch, action: Action, request: HeaderEdits, response: HeaderEdits)

  datatype VirtualHost = VirtualHost(domain: string, routes: seq<Route>)

  datatype RouteConfiguration = RouteConfiguration(name: string, virtualHosts: seq<VirtualHost>)

  datatype FilterChain = FilterChain(name: string, serverNames: seq<string>, filter: NetworkFilter, certificates: Option<seq<string>>)

  datatype NetworkFilter = HttpConnectionManager(rds: string) | TcpProxy(target: ClusterSpecifier)

  datatype Transport = OverTCP | OverUDP

  datatype Listener =
    | StreamListener(name: string, port: nat, chains: seq<FilterChain>)
    | DatagramListener(name: string, port: nat, cluster: string)

  datatype Address = Address(ip: string, port: nat)

  datatype Locality = Locality(weight: Option<int>, endpoints: seq<Address>)

  datatype Assignment = Assignment(cluster: string, localities: seq<Locality>)

  datatype Cluster = Cluster(name: string, h2: bool, weightedByLocality: bool)

  // ---- reading a request ----

  datatype Request = Request(host: string, path: string, verb: string, headers: map<string, string>, query: map<string, string>)

  /** Full match of a regular expression, whatever the engine. */
  type Matches = (string, string) -> bool

  function HeaderValue(req: Request, name: string): Option<string> {
    if name == ":method" then Some(req.verb)
    else if name in req.headers then Some(req.headers[name]) else None
  }

  function QueryValue(req: Request, name: string): Option<string> {
    if name in req.query then Some(req.query[name]) else None
  }

  predicate ValueMatches(m: StringMatcher, value: Option<string>, re: Matches) {
    value.Some? &&
    match m
    case ExactValue(v) => value.value == v
    case SafeRegex(r) => re(r, value.value)
  }

  predicate PathMatches(p: PathSpecifier, path: string, re: Matches) {
    match p
    case Path(v) => path == v
    case PathRegex(r) => re(r, path)
    case Prefix(v) => HasPrefix(path, v)
    case PathSeparatedPrefix(v) => path == v || HasPrefix(path, v + "/")
  }

  predicate RouteMatches(m: RouteMatch, req: Request, re: Matches) {
    PathMatches(m.path, req.path, re) &&
    (forall h :: h in m.headers ==> ValueMatches(h.matcher, HeaderValue(req, h.name), re)) &&
    (forall q :: q in m.query ==> ValueMatches(q.matcher, QueryValue(req, q.name), re))
  }

  function FirstMatch(routes: seq<Route>, req: Request, re: Matches): Option<Route> {
    if routes == [] then None
    else if RouteMatches(routes[0].match_, req, re) then Some(routes[0])
    else FirstMatch(routes[1..], req, re)
  }

  /** How well a domain fits a host: not at all is 0; the catch-all, then suffix
      wildcards by length, then the exact name. */
  function DomainRank(d: string, h: string): nat {
    if d == "*" then 1
    else if HasPrefix(d, "*") then (if HasSuffix(h, d[1..]) && |h| > |d[1..]| then |d| else 0)
    else if d == h then |h| + 1
    else 0
  }

  function PickDomain(domains: seq<string>, h: string): (r: Option<nat>)
    ensures r.None? <==> forall j :: 0 <= j < |domains| ==> DomainRank(domains[j], h) == 0
    ensures r.Some? ==> r.value < |domains| && DomainRank(domains[r.value], h) > 0 &&
                        forall j :: 0 <= j < |domains| ==> DomainRank(domains[j], h) <= DomainRank(domains[r.value], h)
  {
    if domains == [] then None
    else
      var n := |domains| - 1;
      var best := PickDomain(domains[..n], h);
      if DomainRank(domains[n], h) > (if best.Some? then DomainRank(domains[best.value], h) else 0) then Some(n) else best
  }

  function Domains(vhs: seq<VirtualHost>): seq<string> {
    seq(|vhs|, k requires 0 <= k < |vhs| => vhs[k].domain)
  }

  /** The route a request takes, or none when it is answered with a 404. */
  function Serve(config: RouteConfiguration, req: Request, re: Matches): Option<Route> {
    var k := PickDomain(Domains(config.virtualHosts), req.host);
    if k.None? then None else FirstMatch(config.virtualHosts[k.value].routes, req, re)
  }

  // ---- reading a connection ----

  function ChainDomain(c: FilterChain): string {
    if c.serverNames == [] then "*" else c.serverNames[0]
  }

  /** The chain a connection with a server name takes, or none when it is closed. */
  function Accept(chains: seq<FilterChain>, serverName: string): (r: Option<nat>)
    ensures r.Some? ==> r.value < |chains|
  {
    PickDomain(seq(|chains|, k requires 0 <= k < |chains| => ChainDomain(chains[k])), serverName)
  }
}
