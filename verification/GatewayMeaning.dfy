/** What Envoy serves in terms of the Gateway and its routes: which rules of which
    routes a listener is asked to answer with, and exactly when the answer is one of them. */
module GatewayMeaning {
  import opened Text
  import opened Sorting
  import opened Hostnames
  import opened GatewayModel
  import opened RefGrants
  import opened Attachment
  import opened Backends
  import opened Paths
  import opened RouteActions
  import opened Entries
  import opened Owners
  import opened RouteConfig
  import opened Precedence
  import opened HttpMeaning
  import E = Envoy

  // ---- back to the Gateway and its routes ----

  /** A rule of a route that serves the request on listener i, as the route, its
      parentRefs and the listener say. */
  ghost predicate RuleServes(gw: Gateway, m: Model, i: nat, a: AttachedRoute, rule: nat, match_: nat, req: E.Request, re: E.Matches) {
    a in m.routes && i < |m.listeners| && rule < |a.route.rules| && match_ < |a.route.rules[rule].matches| &&
    Serves(gw, m.listeners[i], a.route, req.host) && Accepts(a.route.rules[rule].matches[match_], req, re)
  }

  /** On a listener, a rule serves a request exactly when some entry of it does. */
  lemma ServingIsCandidacy(gw: Gateway, routes: seq<Route>, refs: References, m: Model, ls: seq<nat>, i: nat,
                           a: AttachedRoute, rule: nat, match_: nat, req: E.Request, re: E.Matches)
    requires BuiltAll(m.routes, routes, gw, m.listeners, refs) && Hostful(m, ls) && i in ls
    requires forall r :: r in routes ==> "*" !in r.hostnames
    ensures RuleServes(gw, m, i, a, rule, match_, req, re) <==>
            exists host :: Candidate(m, ls, i, req, re, Entry(a, i, host, rule, match_))
  {
    if RuleServes(gw, m, i, a, rule, match_, req, re) {
      AttachedServesExactly(gw, routes, refs, m, i, a, req.host);
      var host := ServedUnderSome(a, i, req.host);
      EntryServes(m, ls, i, a, host, rule, match_, req, re);
    }
    if host :| Candidate(m, ls, i, req, re, Entry(a, i, host, rule, match_)) {
      EntryServes(m, ls, i, a, host, rule, match_, req, re);
      AttachedServesExactly(gw, routes, refs, m, i, a, req.host);
      UnderSomeServed(a, i, host, req.host);
    }
  }

  /** What an entry on a hostname of its route is a candidate for. */
  lemma EntryServes(m: Model, ls: seq<nat>, i: nat, a: AttachedRoute, host: string, rule: nat, match_: nat, req: E.Request, re: E.Matches)
    requires i in ls
    ensures Candidate(m, ls, i, req, re, Entry(a, i, host, rule, match_)) <==>
            a in m.routes && rule < |a.route.rules| && match_ < |a.route.rules[rule].matches| &&
            HostOf(a, i, host) && HostCovers(host, req.host) && Accepts(a.route.rules[rule].matches[match_], req, re)
  {
  }

  lemma AttachedServesExactly(gw: Gateway, routes: seq<Route>, refs: References, m: Model, i: nat, a: AttachedRoute, host: string)
    requires BuiltAll(m.routes, routes, gw, m.listeners, refs) && a in m.routes && i < |m.listeners|
    requires forall r :: r in routes ==> "*" !in r.hostnames
    ensures AttachedServes(a, i, host) <==> Serves(gw, m.listeners[i], a.route, host)
  {
    var k :| 0 <= k < |m.routes| && m.routes[k] == a;
    assert routes[k] in routes;
    AttachmentIsExact(a, routes[k], gw, m.listeners, refs, i, host);
  }

  lemma ServedUnderSome(a: AttachedRoute, i: nat, host: string) returns (under: string)
    requires AttachedServes(a, i, host)
    ensures HostOf(a, i, under) && HostCovers(under, host)
  {
    var p :| p in a.parents && i in p.hostnames && SomeCovers(p.hostnames[i], host);
    under :| under in p.hostnames[i] && HostCovers(under, host);
    assert HostAt(p, i, under);
  }

  lemma UnderSomeServed(a: AttachedRoute, i: nat, under: string, host: string)
    requires HostOf(a, i, under) && HostCovers(under, host)
    ensures AttachedServes(a, i, host)
  {
    var p :| p in a.parents && HostAt(p, i, under);
    assert SomeCovers(p.hostnames[i], host);
  }

  lemma NothingServes(gw: Gateway, routes: seq<Route>, refs: References, m: Model, ls: seq<nat>, i: nat, req: E.Request, re: E.Matches)
    requires BuiltAll(m.routes, routes, gw, m.listeners, refs) && Hostful(m, ls) && i in ls
    requires forall r :: r in routes ==> "*" !in r.hostnames
    requires forall e :: !Candidate(m, ls, i, req, re, e)
    ensures forall a, rule, match_ :: !RuleServes(gw, m, i, a, rule, match_, req, re)
  {
    forall a, rule, match_ ensures !RuleServes(gw, m, i, a, rule, match_, req, re) {
      ServingIsCandidacy(gw, routes, refs, m, ls, i, a, rule, match_, req, re);
    }
  }

  lemma CandidateServes(gw: Gateway, routes: seq<Route>, refs: References, m: Model, ls: seq<nat>, i: nat, req: E.Request, re: E.Matches, e: Entry)
    requires BuiltAll(m.routes, routes, gw, m.listeners, refs) && Hostful(m, ls)
    requires forall r :: r in routes ==> "*" !in r.hostnames
    requires Candidate(m, ls, i, req, re, e)
    ensures RuleServes(gw, m, i, e.route, e.rule, e.match_, req, re)
  {
    assert e == Entry(e.route, i, e.host, e.rule, e.match_);
    ServingIsCandidacy(gw, routes, refs, m, ls, i, e.route, e.rule, e.match_, req, re);
  }

  /** What a listener is asked to answer, in terms of the routes themselves. */
  ghost predicate RulesAnswer(gw: Gateway, m: Model, ls: seq<nat>, i: nat, req: E.Request, re: E.Matches, answer: Option<E.Route>) {
    match answer
    case None => forall a, rule, match_ :: !RuleServes(gw, m, i, a, rule, match_, req, re)
    case Some(route) => exists e: Entry ::
      RuleServes(gw, m, i, e.route, e.rule, e.match_, req, re) && Wins(m, ls, i, req, re, e) && route == Emitted(e)
  }

  /** In terms of the Gateway, and exactly when it holds: Envoy answers with a rule of a
      route that serves the request on the listener owning its host, of which none comes
      before it, and with a 404 only if no rule serves it there; if and only if some
      hostname serving the host lies under the owner's, or the listener fallen back to
      accepts nothing. */
  lemma GatewayPreserved(gw: Gateway, routes: seq<Route>, refs: References, m: Model, ls: seq<nat>,
                         config: E.RouteConfiguration, req: E.Request, re: E.Matches, i: nat)
    requires BuiltAll(m.routes, routes, gw, m.listeners, refs)
    requires forall r :: r in routes ==> "*" !in r.hostnames
    requires WellAttached(m) && Hostful(m, ls) && ValidMatches(m) && ValidRequest(req)
    requires DistinctHosts(m, ls) && IsRouteConfiguration(m, ls, config) && Owns(m, ls, req.host, i)
    ensures RulesAnswer(gw, m, ls, i, req, re, E.Serve(config, req, re)) <==>
            ServedUnder(m, ls, i, req.host) || FallbackSilent(m, ls, req, re)
  {
    IsolationExact(m, ls, config, req, re, i);
    AnswerByRules(gw, routes, refs, m, ls, i, req, re, E.Serve(config, req, re));
  }

  /** An answer is the listener's by its entries just when it is by the routes' rules. */
  lemma AnswerByRules(gw: Gateway, routes: seq<Route>, refs: References, m: Model, ls: seq<nat>, i: nat,
                      req: E.Request, re: E.Matches, answer: Option<E.Route>)
    requires BuiltAll(m.routes, routes, gw, m.listeners, refs) && Hostful(m, ls) && i in ls
    requires forall r :: r in routes ==> "*" !in r.hostnames
    ensures Answers(m, ls, i, req, re, answer) <==> RulesAnswer(gw, m, ls, i, req, re, answer)
  {
    forall e | Candidate(m, ls, i, req, re, e) ensures RuleServes(gw, m, i, e.route, e.rule, e.match_, req, re) {
      CandidateServes(gw, routes, refs, m, ls, i, req, re, e);
    }
    if forall e :: !Candidate(m, ls, i, req, re, e) {
      NothingServes(gw, routes, refs, m, ls, i, req, re);
    }
  }

  /** A request some entry serves gets no 404. */
  lemma CandidateIsAnswered(gw: Gateway, routes: seq<Route>, refs: References, m: Model, ls: seq<nat>, i: nat,
                            req: E.Request, re: E.Matches, e: Entry, answer: Option<E.Route>)
    requires BuiltAll(m.routes, routes, gw, m.listeners, refs) && Hostful(m, ls)
    requires forall r :: r in routes ==> "*" !in r.hostnames
    requires Candidate(m, ls, i, req, re, e) && RulesAnswer(gw, m, ls, i, req, re, answer)
    ensures answer.Some?
  {
    CandidateServes(gw, routes, refs, m, ls, i, req, re, e);
  }

  /** There is one answer: precedence and the order of the list leave one winner. */
  lemma AnswerIsOne(gw: Gateway, m: Model, ls: seq<nat>, i: nat, req: E.Request, re: E.Matches, x: Option<E.Route>, y: Option<E.Route>)
    requires WellAttached(m) && Hostful(m, ls)
    requires RulesAnswer(gw, m, ls, i, req, re, x) && RulesAnswer(gw, m, ls, i, req, re, y)
    ensures x == y
  {
    if x.Some? && y.Some? {
      var e: Entry :| RuleServes(gw, m, i, e.route, e.rule, e.match_, req, re) && Wins(m, ls, i, req, re, e) && x.value == Emitted(e);
      var f: Entry :| RuleServes(gw, m, i, f.route, f.rule, f.match_, req, re) && Wins(m, ls, i, req, re, f) && y.value == Emitted(f);
      WinnerIsOne(m, ls, i, req, re, e, f);
    }
  }

  lemma WinnerIsOne(m: Model, ls: seq<nat>, i: nat, req: E.Request, re: E.Matches, e: Entry, f: Entry)
    requires WellAttached(m) && Hostful(m, ls) && Wins(m, ls, i, req, re, e) && Wins(m, ls, i, req, re, f)
    ensures e == f
  {
    assert ComesFirst(m.routes, e, f) && ComesFirst(m.routes, f, e);
    TiedApart(m, ls, i, req.host, e, f);
  }
}
