/** A Gateway on which a request is answered by a listener that does not own its host:
    one listener takes every host and has a route, another owns *.a and has none. */
module FallbackExample {
  import opened Text
  import opened Sorting
  import opened Hostnames
  import opened GatewayModel
  import opened Attachment
  import opened Backends
  import opened Paths
  import opened Entries
  import opened Owners
  import opened RouteConfig
  import opened HttpMeaning
  import opened GatewayMeaning
  import opened Validation
  import opened Translate
  import opened Pipeline
  import opened Examples
  import E = Envoy

  function TheListeners(): seq<ListenerSpec> {
    [ListenerOf("all", 80, HTTP, None), ListenerOf("narrow", 80, HTTP, Some("*.a"))]
  }

  function AnyRule(): Rule {
    Rule([Match(None, None, [], [])], [], [], false)
  }

  function TheRoute(): Route {
    RouteOf(RouteKey("HTTPRoute", "n", "r"), "all", AnyRule())
  }

  function TheRequest(): E.Request {
    E.Request("x.a", "/", "GET", map[], map[])
  }

  lemma TheInputIsAdmitted()
    ensures Admitted(GatewayOf(TheListeners()), [TheRoute()], ReferencesOf(map[]))
  {
    assert IsWildcard("*.a") && Pattern("*.a");
  }

  lemma BothAreValid()
    ensures var ls := ListenersFor(GatewayOf(TheListeners()), ReferencesOf(map[]));
            |ls| == 2 && ls[0].valid && ls[1].valid && ls[0].spec == TheListeners()[0] && ls[1].spec == TheListeners()[1] &&
            "HTTPRoute" in ls[0].supportedKinds
  {
    var specs, refs := TheListeners(), ReferencesOf(map[]);
    forall i | 0 <= i < 2 ensures !InConflict(specs, i) {
      assert HostnameOf(specs[0]) != HostnameOf(specs[1]);
    }
    assert Programmable("infra", specs, 0, refs) && Programmable("infra", specs, 1, refs);
  }

  /** What is left of the input once it is compiled. */
  ghost predicate IsTheModel(m: Model, p: ParentResult) {
    && |m.listeners| == 2 && |m.routes| == 1
    && (forall i :: 0 <= i < 2 ==> m.listeners[i].valid && m.listeners[i].spec == TheListeners()[i])
    && m.routes[0].route == TheRoute() && m.routes[0].parents == [p] && p.hostnames == map[0 := ["*"]]
  }

  lemma TheParent(ls: seq<Listener>) returns (p: ParentResult)
    requires ls == ListenersFor(GatewayOf(TheListeners()), ReferencesOf(map[]))
    ensures ParentsOf([Parent("all")], GatewayOf(TheListeners()), ls, TheRoute()) == [p] && p.hostnames == map[0 := ["*"]]
  {
    BothAreValid();
    AttachedAlone(TheListeners(), ls, TheRoute(), 0, "all");
    p := ParentOf("infra", ls, TheRoute(), Parent("all"));
  }

  lemma TheModelIsBuilt(m: Model) returns (p: ParentResult)
    requires m.listeners == ListenersFor(GatewayOf(TheListeners()), ReferencesOf(map[]))
    requires BuiltExactly(m.routes, Referring([TheRoute()], GatewayOf(TheListeners())), GatewayOf(TheListeners()), m.listeners, ReferencesOf(map[]))
    ensures IsTheModel(m, p)
  {
    p := TheParent(m.listeners);
    BuiltFromOne(TheListeners(), ReferencesOf(map[]), m, TheRoute(), "all", p);
    BothAreValid();
  }

  lemma TheGroup(m: Model, p: ParentResult)
    requires IsTheModel(m, p)
    ensures GroupOf(m.listeners, PortKeyOf(m.listeners[1])) == [0, 1]
  {
    var ls := m.listeners;
    assert ls[..1][..0] == [] && ls[..1] == [ls[0]];
    assert GroupOf(ls[..1], PortKey(80, false)) == [0];
  }

  lemma TheEntries(m: Model, p: ParentResult, e: Entry)
    requires IsTheModel(m, p)
    ensures IsEntry(m, [0, 1], e) <==> e == Entry(m.routes[0], 0, "*", 0, 0)
  {
    assert m.routes[0] in m.routes;
    if e.route == m.routes[0] { EntriesOfOne(m, [0, 1], m.routes[0], p, 0, "*", e); }
  }

  lemma TheOwners(m: Model, p: ParentResult)
    requires IsTheModel(m, p)
    ensures Owns(m, [0, 1], "x.a", 1) && Owns(m, [0, 1], "*", 0) && !HostCovers(OwnHost(m, 1), "*")
  {
    assert OwnHost(m, 0) == "*" && OwnHost(m, 1) == "*.a";
    assert "x.a"[1..] == ".a" && "*.a"[1..] == ".a" && "*.a"[..2] == "*.";
    assert HostCovers("*.a", "x.a") && !HostCovers("*.a", "*");
  }

  /** Isolation must fail: the owner serves nothing, the listener fallen back to does. */
  lemma TheOwnerIsPassedOver(m: Model, p: ParentResult, re: E.Matches)
    requires IsTheModel(m, p)
    ensures !ServedUnder(m, [0, 1], 1, "x.a") && !FallbackSilent(m, [0, 1], TheRequest(), re)
    ensures forall e :: !Candidate(m, [0, 1], 1, TheRequest(), re, e)
  {
    var ls, e := [0, 1], Entry(m.routes[0], 0, "*", 0, 0);
    forall f ensures IsEntry(m, ls, f) <==> f == e {
      TheEntries(m, p, f);
    }
    TheOwners(m, p);
    TheMatchAccepts(re);
    assert MostSpecificHost(m, ls, "x.a", "*");
    assert MatchOf(e) == AnyRule().matches[0];
    assert Candidate(m, ls, 0, TheRequest(), re, e);
  }

  lemma TheMatchAccepts(re: E.Matches)
    ensures Accepts(AnyRule().matches[0], TheRequest(), re)
  {
    assert PathOf(AnyRule().matches[0]) == (PathPrefix, "/") && TrimSuffix("/", "/") == "";
    assert Split("/") == ["", ""] && [""] <= ["", ""];
  }

  /** The listener for *.a owns the host and no rule serves the request there, yet the
      configuration the compiler makes answers it, with the other listener's route. */
  method IsolationCanFail(gw: Gateway, routes: seq<Route>, refs: References, re: E.Matches)
    returns (m: Model, r: Resources, ghost c: E.RouteConfiguration)
    requires gw == GatewayOf(TheListeners()) && routes == [TheRoute()] && refs == ReferencesOf(map[])
    ensures c in r.configs && c.name == HttpName(80) && Owns(m, [0, 1], "x.a", 1)
    ensures m.listeners == ListenersFor(gw, refs) && BuiltExactly(m.routes, Referring(routes, gw), gw, m.listeners, refs)
    ensures forall a, rule, match_ :: !RuleServes(gw, m, 1, a, rule, match_, TheRequest(), re)
    ensures E.Serve(c, TheRequest(), re).Some?
  {
    TheInputIsAdmitted();
    ghost var keys, groups, wn, sn;
    m, r, keys, groups, wn, sn := Compile(gw, routes, refs);
    c := IsolationFails(gw, routes, refs, m, r, keys, groups, wn, sn, re);
  }

  lemma IsolationFails(gw: Gateway, routes: seq<Route>, refs: References, m: Model, r: Resources,
                       keys: seq<PortKey>, groups: seq<PortConfig>, wn: seq<string>, sn: seq<string>, re: E.Matches)
    returns (c: E.RouteConfiguration)
    requires gw == GatewayOf(TheListeners()) && routes == [TheRoute()] && refs == ReferencesOf(map[])
    requires Compiled(gw, routes, refs, m, r, keys, groups, wn, sn)
    ensures c in r.configs && c.name == HttpName(80) && Owns(m, [0, 1], "x.a", 1)
    ensures forall a, rule, match_ :: !RuleServes(gw, m, 1, a, rule, match_, TheRequest(), re)
    ensures E.Serve(c, TheRequest(), re).Some?
  {
    var p := TheModelIsBuilt(m);
    TheInputIsAdmitted();
    TheConfigured(gw, routes, refs, m, p);
    c := HttpConfigured(m, keys, groups, 1);
    TheOwners(m, p);
    NoRuleServes(gw, routes, refs, m, p, re);
    TheOwnerIsPassedOver(m, p, re);
    TheGroup(m, p);
    TheRequestIsValid(m, p);
    AnsweredElsewhere(gw, routes, refs, m, r, keys, groups, wn, sn, 1, c, TheRequest(), re);
  }

  lemma TheConfigured(gw: Gateway, routes: seq<Route>, refs: References, m: Model, p: ParentResult)
    requires IsTheModel(m, p) && Admitted(gw, routes, refs) && m.listeners == ListenersFor(gw, refs)
    requires BuiltAll(m.routes, Referring(routes, gw), gw, m.listeners, refs)
    ensures Sound(m.listeners) && m.listeners[1].valid && m.listeners[1].spec.protocol == HTTP && m.listeners[1].spec.port == 80
  {
    BuiltIsTranslatable(gw, routes, refs, m);
  }

  lemma NoRuleServes(gw: Gateway, routes: seq<Route>, refs: References, m: Model, p: ParentResult, re: E.Matches)
    requires IsTheModel(m, p) && Admitted(gw, routes, refs) && BuiltAll(m.routes, Referring(routes, gw), gw, m.listeners, refs)
    ensures forall a, rule, match_ :: !RuleServes(gw, m, 1, a, rule, match_, TheRequest(), re)
  {
    TheOwnerIsPassedOver(m, p, re);
    TheRequestIsValid(m, p);
    NoBareStars(gw, routes, refs);
    NothingServes(gw, Referring(routes, gw), refs, m, [0, 1], 1, TheRequest(), re);
  }

  /** Where an owner is passed over and serves nothing, some other listener answers. */
  lemma AnsweredElsewhere(gw: Gateway, routes: seq<Route>, refs: References, m: Model, r: Resources,
                          keys: seq<PortKey>, groups: seq<PortConfig>, wn: seq<string>, sn: seq<string>,
                          i: nat, c: E.RouteConfiguration, req: E.Request, re: E.Matches)
    requires Admitted(gw, routes, refs) && Compiled(gw, routes, refs, m, r, keys, groups, wn, sn)
    requires ValidMatches(m) && ValidRequest(req)
    requires i < |m.listeners| && m.listeners[i].valid && m.listeners[i].spec.protocol == HTTP
    requires var ls := GroupOf(m.listeners, PortKeyOf(m.listeners[i]));
             Owns(m, ls, req.host, i) && !ServedUnder(m, ls, i, req.host) && !FallbackSilent(m, ls, req, re)
    requires c in r.configs && c.name == HttpName(m.listeners[i].spec.port)
    requires forall a, rule, match_ :: !RuleServes(gw, m, i, a, rule, match_, req, re)
    ensures E.Serve(c, req, re).Some?
  {
    ClientsAreAnswered(gw, routes, refs, m, r, keys, groups, wn, sn, i, c, req, re);
  }

  lemma TheRequestIsValid(m: Model, p: ParentResult)
    requires IsTheModel(m, p)
    ensures ValidMatches(m) && ValidRequest(TheRequest()) && Hostful(m, [0, 1])
  {
  }
}
