# Verification of the Cloudflare operator's Gateway compiler and reconcilers

This project models two parts of the operator in Dafny and proves what they are for.

**The compiler.** A Gateway and the routes of the cluster are validated, attached and
compiled into two targets: the resources an Envoy is served over xDS, and the ordered
rule list of a cloudflared tunnel. Each target has a matching rule of its own, and
`Envoy.dfy` and `TunnelMeaning.dfy` are small interpreters of them: Envoy picks the most
specific domain and then the first matching route, cloudflared takes the first matching
rule. The source language is "the most specific hostname, then Gateway API precedence".
The main results say that both targets mean what the Gateway means, that every snapshot
is closed and binds every port once, that neither the order the API server returns routes
in nor the order maps are walked in can be seen in a snapshot, and that the order of the
listeners changes nothing a tunnel does. `Pipeline.dfy` puts the stages in a row:
`Compile` assumes only what the API server admits.

**The reconcilers.** The `DnsRecord` controller is a state machine over its single calls,
between any two of which users act, a call fails or the operator crashes, and the
reconcile method itself is proved to be a run of that machine. Private routes, tunnel DNS
records and RoleBindings are imperative reconciles against a remote store whose answers
are arbitrary. The Secret caches are a protocol whose completions may come late.

Conventions. Go maps are `map`, and a range over one visits the keys in an arbitrary
order (`Collect`). `slices.SortStableFunc` and `slices.Sort` are `SortStable`, which
promises order, permutation and stability. Errors are results. A remote API answers by an
oracle (`answer`, `answered`, `up`), arbitrary in every theorem; `Smooth` or `Calm` says
that every call is served. Ghost out-parameters of a method name the witnesses its
contract speaks of. Where a predicate in `requires` states a fact of the API server's
validation (hostnames are patterns and never a bare `*`, names hold no `/`), its comment
says so; `Pipeline.Admitted` collects them.

Statements that turned out false of the code, each with an input on which it fails and the
exact condition under which it holds:

- Listener isolation. For HTTP, a request whose host a listener owns is answered by that
  listener's routes, or with a 404, if and only if some hostname serving the host lies under
  the listener's own, or the listener Envoy falls back to has no rule for the request:
  `HttpMeaning.IsolationExact`, end to end `Pipeline.ClientsAreAnswered`, with a Gateway on
  which it fails, `FallbackExample.IsolationCanFail`. For HTTPS it always holds:
  `Pipeline.HttpsClientsAreAnswered`. For TLS, another listener's route takes a connection
  exactly when no route serves its server name on the listener that owns it and some
  owned hostname covers it: `TlsMeaning.TlsTakenElsewhere`, end to end
  `StreamClients.TlsConnections`, with a Gateway, `TlsExample.TakenByAnother`.
- Precedence is a total order. `compareEntries` ignores a route's kind, so entries of a
  virtual host tie exactly when nothing but the kind tells their routes and places apart
  (`Entries.TiesExact`, `Precedence.CarriedTies`). The sort is stable and leaves such ties to
  the list of routes, which has one configuration (`Precedence.ConfigurationUnique`). The order
  of the list is seen if and only if it puts entries that count and tie the other way round
  (`Precedence.RelistingSeen`): two listings of one Gateway whose configurations answer one
  request differently are in `TwinExample.TwinsAnswerDifferently`. The operator lists
  HTTPRoutes before GRPCRoutes, so that what the API server returns in another order is not
  seen: `Pipeline.ListedOnce`.
- A cluster name stands for one cluster. A UDPRoute's weighted cluster can have the name of
  a Service's. A snapshot's cluster names are distinct if and only if no UDP port's oldest
  route n/p has two or more backends of positive weight while some port sends to a Service
  udp/n on a port p without HTTP/2: `ClusterUse.ClustersDistinct`; a Gateway compiled to a
  duplicate: `NameClash.DuplicateCluster`.
- A `DnsRecord` comes to rest. It does, after three reconciles, if and only if the record it
  found reads as asked for or Cloudflare stores what it is asked for:
  `DnsConvergence.ConvergesInThree`. A CAA record given by its data, and one at the apex asked
  for as `@`, are written by every reconcile for ever where Cloudflare makes up the content or
  spells the name out: `DnsConvergence.CaaAndApexNeverSettle`.
- A zone holds no two records of one name and type. No run produces them where every record
  asked for is stored under its own name and type (`DnsProtocol.NeverDuplicates`), and for any
  other record a lost status patch does, whatever Cloudflare stores:
  `DnsProtocol.DuplicatesExactly`, at the apex `DnsProtocol.ApexDuplicates`.
- Every tunnel rule can take a request. It can, if and only if DNS can carry its hostname at
  all and it is no wildcard of 253 characters all whose names of one letter are claimed:
  `Shadowing.NoneShadowed`; such a Gateway: `ShadowExample.ShadowedWildcard`.
- Subscribers hear of every change in what Secrets can be read. They do, except exactly of
  namespaces a failing call stopped watching: `SecretCache.ChangesAreAnnounced`,
  `SecretCache.NoticeIsLost`, `SecretCache.NoticeCanBeLost`.

## Model

| member | source | states |
|---|---|---|
| Pipeline.Compile | internal/xds/translate.go:46-66 | for any Gateway, routes and references the API server admits, validation, attachment and translation yield exactly the validated listeners, the attached routes and their translation; the snapshot binds every port once, holds each name referred to and no other, and its cluster names are distinct iff no pooled UDPRoute takes a used Service's |
| Pipeline.ClientsAreAnswered | internal/xds/translate.go:303-366 | end to end for HTTP: the port's one route configuration answers a request whose host a listener owns with the first rule in precedence of a route that serves it there, and with a 404 only if no rule does, iff some hostname serving the host lies under the listener's or the fallback has no rule for it |
| Pipeline.HttpsClientsAreAnswered | internal/xds/translate.go:130-139 | end to end for HTTPS: the one Envoy listener of the port takes a connection by the chain of the listener that owns its server name, with that listener's certificates, and its one configuration answers by that listener's rules alone |
| Pipeline.CompiledOnce | internal/xds/translate.go:46-66 | permuting or repeating the routes of the cluster changes neither the listeners nor anything of the snapshot, as long as the Gateway's HTTPRoutes and GRPCRoutes of one namespace, name and creation second keep their order |
| Pipeline.ListedOnce | internal/gateway/load.go:158-212 | however the API server orders the routes of each kind, the Gateway they are listed for has one snapshot |
| Pipeline.AdmittedRulesPass | internal/controller/cloudflaretunnel_controller.go:351-370 | the tunnel rules generated for an admitted Gateway always pass validation |
| Pipeline.TunnelIgnoresOrder | internal/gateway/tunnel.go:51-137 | a spec that lists its listeners in another order sends every request of the tunnel to the same service |
| Pipeline.BuiltIsTranslatable | internal/gateway/model.go:72-112 | what validation and attachment make is what translation relies on, including one cluster per name |
| Listing.ListRoutes | internal/gateway/load.go:158-212 | the routes of each kind the cluster has, kind by kind |
| Listing.ListingKeepsTwins | internal/gateway/load.go:158-212 | two listings of the same routes put HTTPRoutes and GRPCRoutes of one age and name the same way round |
| Sorting.SortStable | internal/xds/translate.go:349 | an ordered permutation in which the elements that tie with any one are as they were |
| Hostnames.CoversTransitive | internal/gateway/model.go:251-270 | covering is transitive |
| Hostnames.CoversAntisymmetric | internal/gateway/model.go:251-270 | covering is antisymmetric, so with reflexivity a partial order |
| Hostnames.CoversComparable | internal/gateway/model.go:251-270 | two patterns covering a common host are comparable |
| Hostnames.SpecificityDecides | internal/xds/translate.go:388-399 | among patterns covering one host, the more specific one is the covered one, and equal specificity is equality |
| Hostnames.MeetIsExact | internal/gateway/model.go:251-270 | the narrower of two patterns covers exactly the hosts both cover |
| Hostnames.Intersect | internal/gateway/model.go:211-249 | the intersection covers a host iff the listener's hostname does and the route has none or one that does; results are distinct, come from the inputs and lie under the listener's hostname |
| RefGrants.Permitted | internal/gateway/refs.go:67-103 | a reference is permitted iff it stays in its namespace or some grant there lists both ends |
| Backends.ResolveBackend | internal/gateway/model.go:301-347 | the order in which a reference fails, and otherwise the first port of that number and its protocol |
| Backends.ResolveBackends | internal/gateway/model.go:272-299 | every rule's backends with their weights, and the first failure of all as the condition's reason |
| Backends.ClusterNameInjective | internal/gateway/model.go:301-347 | a cluster's name determines its Service, port and protocol |
| Backends.NamesIdentifyClusters | internal/xds/translate.go:597-635 | backends whose clusters share a name share the cluster, and no name is that of the invalid one |
| Attachment.Attach | internal/gateway/model.go:114-172 | the hostnames a parentRef serves on each listener, and which of the four reasons it gets |
| Attachment.Build | internal/gateway/model.go:72-112 | the attached routes are, in order, exactly what the referring routes come to: each parentRef's hostnames and reason, the backends and the ResolvedRefs condition; each listener counts its routes once |
| Attachment.AttachmentIsExact | internal/gateway/model.go:114-172 | an attached route serves a host on a listener iff a parentRef selects the listener, which allows it, and both cover the host |
| Attachment.AcceptedMeansServing | internal/gateway/model.go:114-172 | a parentRef gets the reason Accepted iff a listener it selects allows the route and shares a host with it |
| Attachment.BuiltIsWellAttached | internal/gateway/model.go:72-112 | hostnames on a listener lie under its own, and no two attached routes share a key |
| Paths.MatchPreserved | internal/xds/translate.go:516-562 | the emitted match accepts exactly the requests the Gateway API match does |
| Rewrites.RewriteReplacesElements | internal/xds/translate.go:661-682 | a prefix rewrite replaces the matched path elements by those of the replacement and keeps the others |
| Rewrites.RewriteRemovesPrefix | internal/xds/translate.go:661-682 | an empty replacement, or `/`, leaves one slash and the remainder |
| Rewrites.TrailingSlashIgnored | internal/xds/translate.go:661-682 | one trailing slash in match or replacement changes nothing |
| Rewrites.RewriteInverts | internal/xds/translate.go:661-682 | rewriting a to b and then b to a is the identity on the paths a accepts |
| Rewrites.GrpcPathMeans | internal/gateway/routes.go:162-207 | the compiled path accepts the call of a method iff the exact service and method constraints hold |
| RouteActions.GatherTargets | internal/xds/translate.go:594-635 | the targets are the backends of positive weight, and their clusters are gathered, without the invalid one |
| RouteActions.SharesPreserved | internal/xds/translate.go:594-635 | traffic is split in proportion to the weights, a backend that does not resolve keeping its share as 500s, and nothing takes traffic iff the weights add up to nothing |
| RouteActions.EnvoyRouteFor | internal/xds/translate.go:463-514 | the emitted route of one match: an unsupported filter before redirect before rewrite before action, the last filter of a kind counting, with the header edits of the filters that are looked at |
| RouteActions.HeaderModifierFor | internal/xds/translate.go:572-592 | headers to set replace, headers to add join, in order, and the removed names are kept |
| Entries.EntryLeqIsTotalPreorder | internal/xds/translate.go:401-444 | the precedence of entries is a total preorder |
| Entries.TiesExact | internal/xds/translate.go:401-444 | entries tie iff they are at one place of two routes of one namespace, name and creation second, with hostnames equally specific and matches of equal rank |
| Entries.GatherEntries | internal/xds/translate.go:303-328 | every match of every rule of every attached route is gathered once under each of its hostnames, on each in the order the routes are listed in |
| Owners.OwningListener | internal/xds/translate.go:368-386 | the most specific listener covering the host, and none iff none covers it |
| Owners.OwnerUnique | internal/gateway/listeners.go:302-351 | without conflicts a host has one owner |
| RouteConfig.VirtualHostFor | internal/xds/translate.go:335-364 | a virtual host holds the entries its owner carries there, in precedence and tied ones in the order of their routes, each match of a rule once |
| RouteConfig.RouteConfigurationFor | internal/xds/translate.go:294-367 | one virtual host per owned hostname in order, each the one the list of routes determines, and exactly the clusters its routes name |
| HttpMeaning.PickIsMostSpecific | internal/xds/translate.go:294-367 | the domain Envoy picks is the most specific hostname serving the host, and none iff none does |
| HttpMeaning.MeaningPreserved | internal/xds/translate.go:294-367 | for every host and request Envoy answers with the least accepting entry of the domain's owner whose hostname covers the host, of tied ones that of the first listed route, and a 404 when there is none |
| HttpMeaning.IsolationExact | internal/xds/translate.go:329-386 | the owner of a host answers for it iff some hostname serving it lies under the owner's or the owner of the most specific hostname serving it has no entry for the request |
| Precedence.CarriedTies | internal/xds/translate.go:401-444 | two entries of one virtual host tie iff they are on one hostname, at one place and of equal rank, in routes of one namespace, name and creation second |
| Precedence.ConfigurationUnique | internal/xds/translate.go:294-367 | a model has one route configuration, whatever order maps are walked in |
| Precedence.RelistingSeen | internal/xds/translate.go:294-367 | two lists of the same routes give one configuration iff on every virtual host they put entries that tie and come first of their match and rule the same way round |
| Precedence.KeptTwinsAreEnough | internal/xds/translate.go:401-444 | they do where they keep the order of routes of one namespace, name and creation second that share a listener |
| GatewayMeaning.ServingIsCandidacy | internal/gateway/model.go:114-172 | a rule serves a request on a listener iff some entry of it is a candidate there |
| GatewayMeaning.GatewayPreserved | internal/xds/translate.go:294-367 | Envoy's answer in terms of routes, parentRefs and listeners, and exactly when it is the owner's |
| GatewayMeaning.AnswerIsOne | internal/xds/translate.go:401-444 | the routes and the order they are listed in leave one answer to a request |
| FallbackExample.IsolationCanFail | internal/xds/translate.go:368-386 | compiling a certain admitted Gateway gives a configuration that answers a request no rule serves on the listener owning its host |
| TwinExample.TwinsAnswerDifferently | internal/xds/translate.go:401-444 | compiling a certain admitted Gateway from its two routes listed either way gives configurations of which one redirects a request and the other answers it with a 500 |
| HttpsMeaning.HttpsChainTaken | internal/xds/translate.go:239-281 | a connection takes the chain of the listener that owns its server name, and is closed iff no hostname covers it |
| Layer4.Oldest | internal/xds/l4.go:25-39 | a route no other is older than, by age and then namespace and name |
| Layer4.AttachedToListener | internal/xds/l4.go:41-57 | exactly the routes attached to a listener, each with its hostnames there |
| Layer4.TcpProxyFor | internal/xds/l4.go:165-210 | one target by name, several by weight, the invalid one for none, and their clusters gathered |
| Layer4.WinningRoute | internal/xds/l4.go:96-109 | the owner of a server name and the oldest of its routes there |
| Layer4.TlsListener | internal/xds/l4.go:68-147 | one chain per owned server name, in order, each to the oldest route of its owner; no listener when there is no chain |
| TlsMeaning.ChainTaken | internal/xds/l4.go:68-147 | the chain a connection takes is that of the most specific owned name, and it is closed iff none covers it |
| TlsMeaning.TlsIsolationExact | internal/xds/l4.go:68-147 | the connection goes to the owner's oldest route on its most specific name iff the owner serves the name |
| TlsMeaning.TlsTakenElsewhere | internal/xds/l4.go:68-147 | no other listener's route takes a connection iff the owner of its server name serves the name or no owned hostname covers it |
| StreamClients.TlsConnections | internal/xds/l4.go:68-147 | end to end for TLS: the one listener binding the port, or none, and when a connection goes to the owner's oldest route and when to another listener's |
| StreamClients.StreamConnections | internal/xds/l4.go:149-278 | end to end for TCP and UDP: what binds the port sends everything to the oldest route the listener carries, and nothing binds it when it carries none |
| TlsExample.TakenByAnother | internal/xds/l4.go:68-147 | compiling a certain admitted Gateway gives chains by which a connection no route serves on the owner of its name goes to another listener's route |
| TlsMeaning.SameTlsChains | internal/xds/l4.go:68-147 | the chains do not depend on the order of the routes, where no two routes on a listener of the port are equally old |
| Endpoints.ClusterEndpoints | internal/xds/translate.go:761-819 | exactly the addresses of ready endpoints on the port's number in each slice, sorted, each once |
| Endpoints.EndpointsUnique | internal/xds/translate.go:761-819 | the endpoints do not depend on the order of the slices |
| Streams.TcpListener | internal/xds/l4.go:149-163 | every connection goes to the oldest route attached, and there is a listener iff there is one |
| Streams.UdpListener | internal/xds/l4.go:221-278 | one backend of positive weight by its cluster, several by a weighted cluster of the route's name |
| Streams.PositiveKeepsWeight | internal/xds/l4.go:231-236 | leaving out backends without weight changes no share |
| Streams.CollisionExact | internal/xds/l4.go:238-246 | exactly which Service cluster has the name of a weighted cluster |
| Streams.WeightedNamesCanCollide | internal/xds/l4.go:238-246 | a collision of names exists |
| Validation.ResolveCertificates | internal/gateway/listeners.go:207-255 | certificates resolve iff every reference does, and the first failure is reported |
| Validation.Validate | internal/gateway/listeners.go:84-172 | one listener on its own: its supported kinds, its Accepted and ResolvedRefs conditions with their reasons, and the certificates it terminates TLS with |
| Validation.MarkConflicts | internal/gateway/listeners.go:302-351 | each listener's conflict condition, a protocol conflict before a hostname conflict, decided against all specs |
| Validation.MarkUnavailablePorts | internal/gateway/listeners.go:257-290 | a listener is rejected iff its port is Envoy's own or another listener's port is bound in its place |
| Validation.Listeners | internal/gateway/listeners.go:59-82 | every listener of the array with its supported kinds, conditions and certificates; valid iff it is supported, resolves, conflicts with none and has a port Envoy can bind |
| Validation.ListenerFacts | internal/gateway/listeners.go:59-82 | of each validated listener: which kinds it accepts, and that it terminates TLS with exactly the Secrets it refers to |
| Validation.ListenersAreSound | internal/gateway/listeners.go:59-82 | the listeners of every Gateway are sound: valid ones conflict with none and have an available port |
| Validation.OrderOfSpec | internal/gateway/listeners.go:59-82 | the same listeners listed in another order are validated alike |
| Validation.PortGroups | internal/gateway/listeners.go:302-351 | valid listeners of one port and transport share a protocol, are alone for TCP and UDP, and have distinct hostnames |
| Validation.ContainerPortsDistinct | internal/gateway/envoy.go:42-53 | distinct ports of valid listeners have distinct container ports, none of them Envoy's own |
| Translate.GroupByPort | internal/xds/translate.go:92-108 | valid listeners grouped by port and transport in spec order |
| Translate.TranslatePort | internal/xds/translate.go:117-161 | the listener and configurations each protocol gets, and the clusters they add |
| Translate.EmitClusters | internal/xds/translate.go:163-184 | weighted and then Service clusters in order, each with its assignment |
| Translate.TranslateGateway | internal/xds/translate.go:86-187 | all ports in order and all clusters they refer to |
| Snapshot.BoundOnce | internal/xds/translate.go:117-161 | no two Envoy listeners bind one container port and transport, and none a port of Envoy's own |
| Snapshot.HttpPortServed | internal/xds/translate.go:124-129 | a valid HTTP listener's container port is bound by exactly one Envoy listener, its own |
| Snapshot.RdsClosed | internal/xds/translate.go:117-161 | every route configuration asked for exists exactly once and no other exists |
| Snapshot.ClustersClosed | internal/xds/translate.go:163-184 | the clusters are exactly the names referred to but the invalid one, each with one assignment, and distinct iff no weighted one has a Service's name |
| ClusterUse.PortUses | internal/xds/translate.go:117-161 | the Service clusters a port gathers are exactly those its routes send to: of the entries its virtual hosts show, or of the oldest routes |
| ClusterUse.ClustersDistinct | internal/xds/l4.go:238-246 | a snapshot's cluster names are distinct iff no UDP port pools a route n/p while a port sends to a Service udp/n on port p without HTTP/2 |
| NameClash.DuplicateCluster | internal/xds/l4.go:238-246 | compiling a certain admitted Gateway gives two clusters of one name |
| Snapshot.SameSnapshot | internal/xds/translate.go:86-187 | the whole snapshot does not depend on the order of the routes or of any map, where on each port entries that count and tie keep their order and no two routes of which the oldest counts are equally old |
| ServicePorts.EnvoyServicePorts | internal/controller/gateway_envoy.go:157-183 | each port and transport of a valid listener is exposed exactly once, leading to its container port |
| ServicePorts.CarryNodePorts | internal/controller/gateway_envoy.go:202-215 | allocated node ports are kept, but for a ClusterIP Service |
| ServicePorts.CarryIsStable | internal/controller/gateway_envoy.go:202-215 | carrying node ports over again changes nothing |
| Reachability.HttpRuleReaches | internal/gateway/tunnel.go:69-137 | every generated HTTP rule targets a port exposed once that leads to exactly one Envoy listener |
| Reachability.ListenerReaches | internal/controller/gateway_envoy.go:157-183 | so does the port of every valid HTTP listener |
| Tunnel.RouteTo | internal/gateway/tunnel.go:73-88 | the first claim of a hostname makes its rule, and later ones change nothing |
| Tunnel.TunnelIngress | internal/gateway/tunnel.go:51-137 | hand-written rules, then one rule per claimed hostname to its winner, exact before wildcard and longer wildcards first, then the catch-all |
| TunnelMeaning.FirstMatchIsMostSpecific | internal/gateway/tunnel.go:51-137 | wherever no hand-written rule matches, the first match sends to the winner of the most specific claimed hostname covering the host, else to the catch-all |
| Shadowing.NoneShadowed | internal/gateway/tunnel.go:106-131 | a generated rule is the first generated match of some name DNS can carry iff DNS can carry its hostname and it is no wildcard of 253 characters all whose one-letter names are claimed |
| ShadowExample.ShadowedWildcard | internal/gateway/tunnel.go:106-131 | the rules of a certain admitted Gateway hold one that is the first match of no such name |
| TunnelMeaning.WellFormedExact | internal/controller/cloudflaretunnel_controller.go:351-370 | the rule list passes validation iff no valid HTTP listener has an empty hostname |
| TunnelMeaning.WinnerUnique | internal/gateway/tunnel.go:69-105 | a claimed hostname has one winner: the lowest-port HTTP listener, else the lowest-port stream claimant |
| TunnelMeaning.OrderIndependent | internal/gateway/tunnel.go:51-137 | the order of validated listeners changes no request's service |
| DnsProtocol.GuardHolds | internal/controller/dnsrecord_controller.go:66-100 | each step of anyone keeps the check made before a deletion good until the deletion |
| DnsProtocol.DeleteSafety | internal/controller/dnsrecord_controller.go:66-100 | in every run no call removes a remote record that a live DnsRecord of its zone tracks |
| DnsProtocol.TidyHolds | internal/controller/dnsrecord_controller.go:121-216 | each step keeps zones without duplicates and every tracked id naming a record of its tracker's zone and key, where users ask for records only that are stored under their own name and type |
| DnsProtocol.NeverDuplicates | internal/controller/dnsrecord_controller.go:121-216 | in every run in which only the operator writes and records are stored under the name and type asked for, a zone never holds two records of one name and type |
| DnsProtocol.DuplicatesExactly | internal/controller/dnsrecord_controller.go:121-164 | a record is safe from duplicates of its own making iff it is stored under the name and type asked for |
| DnsProtocol.ApexDuplicates | api/v1alpha1/dnsrecord_types.go:181-187 | a run of one DnsRecord at the apex, asked for as @ and stored spelled out, that leaves two records |
| DnsProtocol.LiveAlwaysBacked | internal/controller/dnsrecord_controller.go:66-219 | in every run in which only the operator writes, every id a live DnsRecord tracks names an existing record, whatever is stored |
| DnsReconcile.Controller.Adopter | internal/controller/dnsrecord_controller.go:221-237 | names another live DnsRecord of the zone with the id, and none iff there is none |
| DnsReconcile.Controller.Reconcile | internal/controller/dnsrecord_controller.go:58-219 | whatever the calls answer and users and foreign writers do in between, a reconcile is a stretch of a run of the machine, cut short only by an unanswered call, and undisturbed it is the complete reconcile |
| DnsReconcile.Controller.Deletion | internal/controller/dnsrecord_controller.go:66-100 | the same of the deletion branch |
| DnsReconcile.Controller.Acquire | internal/controller/dnsrecord_controller.go:121-164 | the same of the create and adopt branch |
| DnsReconcile.Controller.Refresh | internal/controller/dnsrecord_controller.go:165-216 | the same of the refresh branch |
| DnsConvergence.AcquireStep | internal/controller/dnsrecord_controller.go:121-164 | a whole undisturbed reconcile of an object that tracks nothing: create on none, adopt on one, nothing on several |
| DnsConvergence.RefreshStep | internal/controller/dnsrecord_controller.go:165-216 | a whole undisturbed reconcile of an object that tracks a record: forget it when gone, write it iff it differs |
| DnsConvergence.ConvergesInThree | internal/controller/dnsrecord_controller.go:300-346 | after three undisturbed reconciles a fourth changes nothing, and writes nothing iff the record found reads as asked for or Cloudflare stores what is asked for |
| DnsConvergence.NeverSettles | internal/controller/dnsrecord_controller.go:300-346 | a record stored as anything else is written by every reconcile from the fourth on |
| DnsConvergence.CaaAndApexNeverSettle | internal/controller/dnsrecord_controller.go:397-415 | a CAA record given by its data and a record at the apex are such records |
| DnsConvergence.AmbiguousNeverTracks | internal/controller/dnsrecord_controller.go:150-152 | with two candidates no number of reconciles takes one or writes any |
| Networks.MaskedNamesTheBlock | internal/controller/cloudflaretunnel_routes.go:38-47 | masked networks are equal iff they hold the same addresses, and masking is idempotent |
| TunnelRoutes.ParseRoutes | internal/controller/cloudflaretunnel_routes.go:38-47 | each entry is a masked network or one problem |
| TunnelRoutes.Dedupe | internal/controller/cloudflaretunnel_routes.go:66-77 | the first entry of each key is kept and each repeated one is one problem |
| TunnelRoutes.ResolveVirtualNetworks | internal/controller/cloudflaretunnel_routes.go:169-197 | entries get the default virtual network iff there is a route to compare with |
| TunnelRoutes.MatchRoute | internal/controller/cloudflaretunnel_routes.go:199-214 | an unmatched entry of the route's network and virtual network, and none iff all such are matched |
| TunnelRoutes.Prune | internal/controller/cloudflaretunnel_routes.go:79-95 | afterwards the tunnel's routes are exactly the matched ones; another tunnel's are untouched; nothing is deleted where each is wanted once |
| TunnelRoutes.CreateMissing | internal/controller/cloudflaretunnel_routes.go:97-124 | every unmatched entry is created or refused, and nothing is asked when all are matched |
| TunnelRoutes.ReconcileRoutes | internal/controller/cloudflaretunnel_routes.go:29-127 | ready and problems add up to the entries; with none refused the routes are exactly one per asked-for key; a run from there creates and deletes nothing; other tunnels keep theirs in every run; with every call served only a network already routed is refused |
| TunnelRoutes.DeleteRoutes | internal/controller/cloudflaretunnel_routes.go:129-149 | the tunnel has no route left, and other tunnels keep theirs in every run |
| DnsSettings.ResolveDns | internal/controller/dns.go:21-48 | each field is the entry's where set, else the tunnel's, else the default, and a zone resolves iff either names one |
| DnsSettings.DesiredDns | internal/controller/cloudflaretunnel_dns.go:69-111 | a host is a problem iff two of its entries resolve differently, and desired iff they agree on a zone |
| DnsSettings.OrderDoesNotMatter | internal/controller/cloudflaretunnel_dns.go:69-111 | the desired settings and the reported hosts depend only on the set of entries |
| TunnelDns.NameIdentifiesHost | internal/controller/cloudflaretunnel_dns.go:119-133 | a record's name fits the limit, and two hosts of a tunnel share one iff they share a digest |
| TunnelDns.NamesApart | internal/controller/cloudflaretunnel_dns.go:119-133 | where the digest tells the hosts of the ingress apart, the desired hosts have names of their own |
| TunnelDns.CheckZones | internal/controller/cloudflaretunnel_dns.go:159-176 | which hosts stay, which records are kept for a zone that reads as missing, and one problem for every other host |
| TunnelDns.ApplyAll | internal/controller/cloudflaretunnel_dns.go:183-221 | each fine host's record is the tunnel's with its spec and the status it had, unless the name is taken, which is a problem |
| TunnelDns.DeleteStale | internal/controller/cloudflaretunnel_dns.go:223-234 | exactly the owned records not kept are deleted: gone, or marked while the operator's finalizer holds them |
| TunnelDns.ReconcileDns | internal/controller/cloudflaretunnel_dns.go:135-238 | where the digest tells the hosts of the ingress apart, the controlled records are exactly those of the applied hosts, with their spec and the status and deletion mark they had, the already owned ones of hosts whose zone reads as missing, as they were, and those of other hosts a finalizer still holds, marked as being deleted; no uncontrolled record changes in any run; desired and problems add up to conflicting and agreeing hosts, and each problem is reported exactly when it is one |
| SecretAccess.CertificateNamespaces | internal/gateway/refs.go:105-127 | a namespace is listed iff some listener names a Secret there that the Gateway may refer to |
| SecretAccess.AllCertificateNamespaces | internal/controller/gateway_secrets_controller.go:189-226 | the union over Gateways that are not being deleted and whose class is this controller's |
| SecretAccess.AccessSuffices | internal/gateway/listeners.go:207-255 | with access to just these namespaces every certificate reference resolves as it would with access to all |
| SecretAccess.AccessIsNeeded | internal/gateway/listeners.go:207-255 | without one of these namespaces some reference cannot resolve |
| RoleBindings.ApiServer.Bind | internal/controller/gateway_secrets_controller.go:117-160 | the namespace's binding grants the role, and no other binding changes |
| RoleBindings.ApiServer.Reconcile | internal/controller/gateway_secrets_controller.go:85-115 | the labelled bindings are exactly one per wanted namespace, each granting the role; a run from there changes nothing; bindings neither labelled nor in the way are untouched in every run |
| SecretCache.Access.SetNamespaces | internal/secrets/access.go:110-149 | stops the caches not wanted, keeps the others, starts the missing ones, and tells of the stopped ones iff it succeeds |
| SecretCache.Access.CompleteSync | internal/secrets/access.go:190-203 | only the cache its namespace has becomes readable |
| SecretCache.Access.Get | internal/secrets/access.go:208-237 | a Secret is read iff its namespace's own live cache has synced |
| SecretCache.SetWatchesWanted | internal/secrets/access.go:110-149 | in every run a successful call leaves watched equal to wanted and kept caches as they were |
| SecretCache.StaleCompletionIsVoid | internal/secrets/access.go:190-203 | in every run the completion of a stopped cache changes nothing, even after its namespace is watched again |
| SecretCache.ReadsOnlySynced | internal/secrets/access.go:208-237 | in every run a readable namespace has been watched without a break since the completion of the very cache that serves it |
| SecretCache.ChangesAreAnnounced | internal/secrets/access.go:110-149 | a change of what can be read goes unannounced iff it is a failing call dropping a readable namespace |
| SecretCache.NoticeIsLost | internal/secrets/access.go:134-146 | in every run, until a call wants the namespace again it stays unwatched and no later call or completion gives the notice |
| SecretCache.NoticeCanBeLost | internal/secrets/access.go:134-146 | a run in which a notice is lost |

## Left out

- Protobuf messages, `anypb`, the Envoy bootstrap and the xDS server: emitted resources are plain datatypes with the fields that decide routing.
- RouteActions.EnvoyRouteFor: the header edits of a route are emitted in order; what Envoy makes of them is not modelled.
- Regular expressions: `matches` is a parameter of the interpreters; the two patterns `prefixRewrite` emits are string functions, and a backslash in a user's replacement, which Envoy would read as a reference to a group, is taken literally.
- `filterRoutes`: a route that is being deleted is taken to be gone from the list, and errors of the API server's lists are not modelled.
- Text keys of entries and routes (`kind/namespace/name`, rule and match joined by `|`): tuples, since none of the parts holds a separator.
- Namespace label selectors: given as the set of namespaces they select.
- Certificates: whether a Secret is a key pair is a given fact; X.509 is not part of this model, nor the error `translate` returns when a certificate cannot be encoded.
- ALPN, case folding of hosts, ports in Host headers: decided by Envoy and cloudflared.
- `TunnelHostnames` and the Gateway's `TunnelRoutes`: the hostnames of TCP listeners are a parameter, and the route list is a plain concatenation.
- `FromHTTPRoute` and `FromGRPCRoute` but for `grpcPath`: field-by-field copies; GRPCRoute-specific precedence is not claimed.
- Condition messages, timestamps, events and requeue delays.
- DnsProtocol.NeverDuplicates: users are assumed not to change a record's name or type, and nobody else to write the zone; a record left behind when a crash falls between a create and its status patch and the object is then deleted is not excluded.
- DnsProtocol.DeleteSafety: reads of DnsRecords are taken to be current; a stale informer cache or a second worker is not modelled. A zone id never changes.
- DnsConvergence.ConvergesInThree: the four compared fields only; a change of `proxied` or `ttl` alone is not propagated by the code.
- A DnsRecord's only finalizer is the operator's, and an object goes when it is released; the tunnel's own `finalize` is not modelled.
- TunnelRoutes.ReconcileRoutes: comments of routes are not modelled; it is assumed that the account files a route without a virtual network under its default one and refuses a second route of one network there.
- `ToLower` is ASCII lower case.
- Cloudflared workloads, Ingress and GatewayClass controllers, Deployment templates, and reading and writing of labels other than the one that marks a RoleBinding.
- RoleBindings.ApiServer.Reconcile: the list of labelled bindings is taken to be current.
- SecretCache.Access.Get: the Secret a cache returns is not modelled, only which cache is asked.
- Cancellation of a call's own context while it waits for Start: SetNamespaces before Start fails without effect.
