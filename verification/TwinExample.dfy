/** A Gateway whose snapshot shows the order of the list: an HTTPRoute and a GRPCRoute of
    one namespace, name and creation second on one listener. */
module TwinExample {
  import opened Text
  import opened Sorting
  import opened Hostnames
  import opened GatewayModel
  import opened Attachment
  import opened Backends
  import opened Paths
  import opened RouteActions
  import opened Entries
  import opened Owners
  import opened RouteConfig
  import opened HttpMeaning
  import opened GatewayMeaning
  import opened Validation
  import opened Translate
  import opened Listing
  import opened Pipeline
  import opened Examples
  import E = Envoy

  function TheListeners(): seq<ListenerSpec> {
    [ListenerOf("all", 80, HTTP, None)]
  }

  function AnyMatch(): Match {
    Match(None, None, [], [])
  }

  function Elsewhere(): Filter {
    RequestRedirect(None, Some("elsewhere"), None, None, 302)
  }

  function HttpTwin(): Route {
    RouteOf(RouteKey("HTTPRoute", "n", "r"), "all", Rule([AnyMatch()], [Elsewhere()], [], false))
  }

  function GrpcTwin(): Route {
    RouteOf(RouteKey("GRPCRoute", "n", "r"), "all", Rule([AnyMatch()], [], [], true))
  }

  function TheRequest(): E.Request {
    E.Request("x.a", "/", "POST", map[], map[])
  }

  /** The two twins, either way round. */
  predicate Twins(a: Route, b: Route) {
    (a == HttpTwin() && b == GrpcTwin()) || (a == GrpcTwin() && b == HttpTwin())
  }

  lemma TheInputIsAdmitted(a: Route, b: Route)
    requires Twins(a, b)
    ensures Admitted(GatewayOf(TheListeners()), [a, b], ReferencesOf(map[]))
  {
  }

  lemma ItIsValid()
    ensures var ls := ListenersFor(GatewayOf(TheListeners()), ReferencesOf(map[]));
            |ls| == 1 && ls[0].valid && ls[0].spec == TheListeners()[0] &&
            "HTTPRoute" in ls[0].supportedKinds && "GRPCRoute" in ls[0].supportedKinds
  {
    assert Programmable("infra", TheListeners(), 0, ReferencesOf(map[]));
  }

  ghost predicate IsTheModel(m: Model, a: Route, b: Route, p: ParentResult, q: ParentResult) {
    && |m.listeners| == 1 && |m.routes| == 2 && m.listeners[0].valid && m.listeners[0].spec == TheListeners()[0]
    && m.routes[0].route == a && m.routes[0].parents == [p] && p.hostnames == map[0 := ["*"]]
    && m.routes[1].route == b && m.routes[1].parents == [q] && q.hostnames == map[0 := ["*"]]
    && m.routes[0].backends == [[]]
  }

  lemma TheParent(ls: seq<Listener>, a: Route) returns (p: ParentResult)
    requires ls == ListenersFor(GatewayOf(TheListeners()), ReferencesOf(map[])) && (a == HttpTwin() || a == GrpcTwin())
    ensures ParentsOf(a.parentRefs, GatewayOf(TheListeners()), ls, a) == [p] && p.hostnames == map[0 := ["*"]]
  {
    ItIsValid();
    AttachedAlone(TheListeners(), ls, a, 0, "all");
    p := ParentOf("infra", ls, a, Parent("all"));
  }

  lemma TheModelIsBuilt(m: Model, a: Route, b: Route) returns (p: ParentResult, q: ParentResult)
    requires Twins(a, b) && m.listeners == ListenersFor(GatewayOf(TheListeners()), ReferencesOf(map[]))
    requires BuiltExactly(m.routes, Referring([a, b], GatewayOf(TheListeners())), GatewayOf(TheListeners()), m.listeners, ReferencesOf(map[]))
    ensures IsTheModel(m, a, b, p, q)
  {
    p := TheParent(m.listeners, a);
    q := TheParent(m.listeners, b);
    BuiltFromTwo(TheListeners(), ReferencesOf(map[]), m, a, b, "all", "all", p, q);
    ItIsValid();
    assert BackendsOfRule(a.key, a.rules[0], ReferencesOf(map[])) == [];
  }

  lemma TheGroup(m: Model, a: Route, b: Route, p: ParentResult, q: ParentResult)
    requires IsTheModel(m, a, b, p, q)
    ensures GroupOf(m.listeners, PortKeyOf(m.listeners[0])) == [0]
    ensures Owns(m, [0], "x.a", 0) && Hostful(m, [0])
  {
    assert m.listeners[..0] == [];
    assert OwnHost(m, 0) == "*";
  }

  /** The two entries, of which the first listed wins. */
  lemma TheWinner(m: Model, a: Route, b: Route, p: ParentResult, q: ParentResult, re: E.Matches, e: Entry)
    requires Twins(a, b) && IsTheModel(m, a, b, p, q) && Wins(m, [0], 0, TheRequest(), re, e)
    ensures e == Entry(m.routes[0], 0, "*", 0, 0)
  {
    var first, second := Entry(m.routes[0], 0, "*", 0, 0), Entry(m.routes[1], 0, "*", 0, 0);
    assert m.routes[0] in m.routes && m.routes[1] in m.routes;
    EntriesOfOne(m, [0], m.routes[0], p, 0, "*", first);
    EntriesOfOne(m, [0], m.routes[1], q, 0, "*", second);
    if e.route == m.routes[0] { EntriesOfOne(m, [0], m.routes[0], p, 0, "*", e); }
    if e.route == m.routes[1] { EntriesOfOne(m, [0], m.routes[1], q, 0, "*", e); }
    TheMatchAccepts(re);
    assert MatchOf(first) == AnyMatch() && MatchOf(second) == AnyMatch();
    assert Candidate(m, [0], 0, TheRequest(), re, first);
    TheyTie(first, second);
    assert Place(m.routes, m.routes[0]) == 0 && m.routes[1] != m.routes[0];
    assert e == first || e == second;
    assert ComesFirst(m.routes, e, first);
  }

  lemma TheyTie(first: Entry, second: Entry)
    requires Twins(first.route.route, second.route.route) && first.host == second.host
    requires first.rule == second.rule == 0 && first.match_ == second.match_ == 0
    ensures EntryLeq(first, second) && EntryLeq(second, first)
  {
    assert MatchOf(first) == MatchOf(second);
    TiesExact(first, second);
  }

  lemma TheMatchAccepts(re: E.Matches)
    ensures Accepts(AnyMatch(), TheRequest(), re)
  {
    assert PathOf(AnyMatch()) == (PathPrefix, "/") && TrimSuffix("/", "/") == "";
    assert Split("/") == ["", ""] && [""] <= ["", ""];
  }

  lemma TheActions(a: AttachedRoute)
    requires |a.backends| == 1 && a.backends[0] == []
    ensures a.route == HttpTwin() ==> EnvoyRouteOf(a, 0, 0).action.Redirect?
    ensures a.route == GrpcTwin() ==> EnvoyRouteOf(a, 0, 0).action == E.DirectResponse(500)
  {
    assert [Elsewhere()][|[Elsewhere()]| - 1] == Elsewhere();
  }

  lemma TheAnswer(gw: Gateway, m: Model, a: Route, b: Route, p: ParentResult, q: ParentResult, re: E.Matches, answer: Option<E.Route>)
    requires Twins(a, b) && IsTheModel(m, a, b, p, q)
    requires RulesAnswer(gw, m, [0], 0, TheRequest(), re, answer) && answer.Some?
    ensures a == HttpTwin() ==> answer.value.action.Redirect?
    ensures a == GrpcTwin() ==> answer.value.action == E.DirectResponse(500)
  {
    var e: Entry :| Wins(m, [0], 0, TheRequest(), re, e) && answer.value == Emitted(e);
    TheWinner(m, a, b, p, q, re, e);
    TheEmitted(m, a, b, p, q);
  }

  lemma TheEmitted(m: Model, a: Route, b: Route, p: ParentResult, q: ParentResult)
    requires Twins(a, b) && IsTheModel(m, a, b, p, q)
    ensures var route := Emitted(Entry(m.routes[0], 0, "*", 0, 0));
            (a == HttpTwin() ==> route.action.Redirect?) && (a == GrpcTwin() ==> route.action == E.DirectResponse(500))
  {
    TheActions(m.routes[0]);
  }

  lemma SomethingServes(m: Model, a: Route, b: Route, p: ParentResult, q: ParentResult, re: E.Matches)
    requires Twins(a, b) && IsTheModel(m, a, b, p, q)
    ensures Candidate(m, [0], 0, TheRequest(), re, Entry(m.routes[0], 0, "*", 0, 0))
    ensures ServedUnder(m, [0], 0, "x.a")
  {
    var e := Entry(m.routes[0], 0, "*", 0, 0);
    assert m.routes[0] in m.routes && OwnHost(m, 0) == "*" && MatchOf(e) == AnyMatch();
    EntriesOfOne(m, [0], m.routes[0], p, 0, "*", e);
    TheMatchAccepts(re);
  }

  /** The port's one configuration answers with the first listed of the twins. */
  lemma FirstListedAnswers(gw: Gateway, routes: seq<Route>, refs: References, m: Model, r: Resources,
                           keys: seq<PortKey>, groups: seq<PortConfig>, wn: seq<string>, sn: seq<string>, re: E.Matches)
    returns (c: E.RouteConfiguration)
    requires gw == GatewayOf(TheListeners()) && |routes| == 2 && Twins(routes[0], routes[1]) && refs == ReferencesOf(map[])
    requires Compiled(gw, routes, refs, m, r, keys, groups, wn, sn)
    ensures c in r.configs && c.name == HttpName(80) && forall d :: d in r.configs && d.name == c.name ==> d == c
    ensures E.Serve(c, TheRequest(), re).Some?
    ensures routes[0] == HttpTwin() ==> E.Serve(c, TheRequest(), re).value.action.Redirect?
    ensures routes[0] == GrpcTwin() ==> E.Serve(c, TheRequest(), re).value.action == E.DirectResponse(500)
  {
    assert routes == [routes[0], routes[1]];
    TheInputIsAdmitted(routes[0], routes[1]);
    BuiltIsTranslatable(gw, routes, refs, m);
    var p, q := TheModelIsBuilt(m, routes[0], routes[1]);
    TheGroup(m, routes[0], routes[1], p, q);
    c := HttpConfigured(m, keys, groups, 0);
    forall d | d in r.configs && d.name == c.name ensures d == c {
      SameNameSameConfig(m, keys, groups, d, c);
    }
    TwinsServe(gw, routes, refs, m, r, keys, groups, wn, sn, c, p, q, re);
  }

  lemma TwinsServe(gw: Gateway, routes: seq<Route>, refs: References, m: Model, r: Resources,
                   keys: seq<PortKey>, groups: seq<PortConfig>, wn: seq<string>, sn: seq<string>,
                   c: E.RouteConfiguration, p: ParentResult, q: ParentResult, re: E.Matches)
    requires |routes| == 2 && Twins(routes[0], routes[1]) && IsTheModel(m, routes[0], routes[1], p, q)
    requires Admitted(gw, routes, refs) && Compiled(gw, routes, refs, m, r, keys, groups, wn, sn)
    requires c in r.configs && c.name == HttpName(80)
    ensures E.Serve(c, TheRequest(), re).Some?
    ensures routes[0] == HttpTwin() ==> E.Serve(c, TheRequest(), re).value.action.Redirect?
    ensures routes[0] == GrpcTwin() ==> E.Serve(c, TheRequest(), re).value.action == E.DirectResponse(500)
  {
    var a, b := routes[0], routes[1];
    TheGroup(m, a, b, p, q);
    SomethingServes(m, a, b, p, q, re);
    TheRequestIsValid(m, a, b, p, q);
    ClientsAreAnswered(gw, routes, refs, m, r, keys, groups, wn, sn, 0, c, TheRequest(), re);
    var answer := E.Serve(c, TheRequest(), re);
    ServedIsAnswered(gw, routes, refs, m, [0], 0, TheRequest(), re, Entry(m.routes[0], 0, "*", 0, 0), answer);
    TheAnswer(gw, m, a, b, p, q, re, answer);
  }

  lemma TheRequestIsValid(m: Model, a: Route, b: Route, p: ParentResult, q: ParentResult)
    requires Twins(a, b) && IsTheModel(m, a, b, p, q)
    ensures ValidMatches(m) && ValidRequest(TheRequest())
  {
  }

  /** The port's configuration, of which there is one, redirects the request. */
  ghost predicate Redirects(r: Resources, re: E.Matches) {
    (exists c :: c in r.configs && c.name == HttpName(80)) &&
    forall c :: c in r.configs && c.name == HttpName(80) ==>
      E.Serve(c, TheRequest(), re).Some? && E.Serve(c, TheRequest(), re).value.action.Redirect?
  }

  /** It answers that there is no backend. */
  ghost predicate Refuses(r: Resources, re: E.Matches) {
    (exists c :: c in r.configs && c.name == HttpName(80)) &&
    forall c :: c in r.configs && c.name == HttpName(80) ==>
      E.Serve(c, TheRequest(), re).Some? && E.Serve(c, TheRequest(), re).value.action == E.DirectResponse(500)
  }

  method CompileTwins(gw: Gateway, routes: seq<Route>, refs: References, ghost re: E.Matches) returns (r: Resources)
    requires gw == GatewayOf(TheListeners()) && |routes| == 2 && Twins(routes[0], routes[1]) && refs == ReferencesOf(map[])
    ensures if routes[0] == HttpTwin() then Redirects(r, re) else Refuses(r, re)
  {
    assert routes == [routes[0], routes[1]];
    TheInputIsAdmitted(routes[0], routes[1]);
    var m;
    ghost var keys, groups, wn, sn;
    m, r, keys, groups, wn, sn := Compile(gw, routes, refs);
    ghost var c := FirstListedAnswers(gw, routes, refs, m, r, keys, groups, wn, sn, re);
  }

  /** Listed the one way and the other, the Gateway is compiled to configurations that
      answer one request differently: one redirects it, the other has no backend for it. */
  method TwinsAnswerDifferently(gw: Gateway, routes: seq<Route>, others: seq<Route>, refs: References, ghost re: E.Matches)
    returns (r: Resources, s: Resources)
    requires gw == GatewayOf(TheListeners()) && refs == ReferencesOf(map[])
    requires routes == [HttpTwin(), GrpcTwin()] && others == [GrpcTwin(), HttpTwin()]
    ensures Redirects(r, re) && Refuses(s, re)
  {
    r := CompileTwins(gw, routes, refs, re);
    s := CompileTwins(gw, others, refs, re);
  }
}
