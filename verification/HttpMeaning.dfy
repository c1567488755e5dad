/** What Envoy makes of a route configuration: the least entry, in order of
    precedence, among those of the owning listener that cover the host and accept
    the request. */
module HttpMeaning {
  import opened Text
  import opened Sorting
  import opened Hostnames
  import opened GatewayModel
  import opened Attachment
  import opened Paths
  import opened Entries
  import opened Owners
  import opened RouteConfig
  import E = Envoy

  // ---- the language of the Gateway ----

  /** An entry of listener i that serves the request. */
  ghost predicate Candidate(m: Model, ls: seq<nat>, i: nat, req: E.Request, re: E.Matches, e: Entry) {
    IsEntry(m, ls, e) && e.listener == i && HostCovers(e.host, req.host) && Accepts(MatchOf(e), req, re)
  }

  /** The candidate that comes first in order of precedence, of tied ones that whose route
      is listed first. */
  ghost predicate Wins(m: Model, ls: seq<nat>, i: nat, req: E.Request, re: E.Matches, e: Entry) {
    Candidate(m, ls, i, req, re, e) && forall f :: Candidate(m, ls, i, req, re, f) ==> ComesFirst(m.routes, e, f)
  }

  /** What Gateway API asks of listener i: the winner's route, or a 404. */
  ghost predicate Answers(m: Model, ls: seq<nat>, i: nat, req: E.Request, re: E.Matches, answer: Option<E.Route>) {
    match answer
    case None => forall e :: !Candidate(m, ls, i, req, re, e)
    case Some(route) => exists e :: Wins(m, ls, i, req, re, e) && route == Emitted(e)
  }

  /** The most specific hostname that serves a host. */
  ghost predicate MostSpecificHost(m: Model, ls: seq<nat>, host: string, d: string) {
    HostCovers(d, host) && (exists e :: IsEntry(m, ls, e) && e.host == d) &&
    forall e :: IsEntry(m, ls, e) && HostCovers(e.host, host) ==> HostCovers(e.host, d)
  }

  ghost predicate ValidMatches(m: Model) {
    forall r, k, j :: r in m.routes && 0 <= k < |r.route.rules| && 0 <= j < |r.route.rules[k].matches| ==>
      ValidMatch(r.route.rules[k].matches[j])
  }

  // ---- domains ----

  /** Envoy's ranking of domains is covering, and ranks what is covered higher. */
  lemma RankIsCovering(d: string, h: string)
    requires Pattern(d)
    ensures E.DomainRank(d, h) > 0 <==> HostCovers(d, h)
  {
    if d == h && HasPrefix(d, "*") && d != "*" {
      assert h[|h| - |d[1..]|..] == d[1..];
    }
  }

  lemma RankFollowsCovering(d: string, c: string, h: string)
    requires Pattern(d) && Pattern(c) && HostCovers(c, h) && HostCovers(d, h) && HostCovers(c, d) && c != d
    ensures E.DomainRank(c, h) < E.DomainRank(d, h)
  {
    RankIsCovering(d, h);
    RankIsCovering(c, h);
    CoveredIsMoreSpecific(c, d);
    if c != "*" {
      assert IsWildcard(c) && E.DomainRank(c, h) == |c|;
      if HasPrefix(d, "*") && |d| <= |c| {
        CoversAntisymmetricLength(c, d);
      }
    }
  }

  lemma CoversAntisymmetricLength(c: string, d: string)
    requires HostCovers(c, d) && IsWildcard(c) && HasPrefix(d, "*") && |d| <= |c|
    ensures c == d
  {
    if c != d { SameLengthSameWildcard(c, d); }
  }

  /** The domain Envoy picks is the most specific hostname that serves the host. */
  lemma PickIsMostSpecific(m: Model, ls: seq<nat>, config: E.RouteConfiguration, host: string)
    requires WellAttached(m) && Hostful(m, ls) && IsRouteConfiguration(m, ls, config)
    ensures var k := E.PickDomain(E.Domains(config.virtualHosts), host);
            (k.Some? ==> MostSpecificHost(m, ls, host, config.virtualHosts[k.value].domain)) &&
            (k.None? ==> forall e :: IsEntry(m, ls, e) ==> !HostCovers(e.host, host))
  {
    var domains := E.Domains(config.virtualHosts);
    var k := E.PickDomain(domains, host);
    forall e | IsEntry(m, ls, e) ensures Pattern(e.host) {
      EntryWithin(m, ls, e);
    }
    forall e | IsEntry(m, ls, e) && HostCovers(e.host, host)
      ensures k.Some? && HostCovers(e.host, domains[k.value])
    {
      assert e.host in domains;
      var j :| 0 <= j < |domains| && domains[j] == e.host;
      RankIsCovering(e.host, host);
      assert k.Some?;
      var d := domains[k.value];
      assert d in domains;
      RankIsCovering(d, host);
      CoversComparable(e.host, d, host);
      if !HostCovers(e.host, d) {
        RankFollowsCovering(e.host, d, host);
      }
    }
    if k.Some? {
      assert domains[k.value] in domains;
      RankIsCovering(domains[k.value], host);
    }
  }

  // ---- the first matching route ----

  lemma {:induction false} FirstMatchConcat(a: seq<E.Route>, b: seq<E.Route>, req: E.Request, re: E.Matches)
    ensures E.FirstMatch(a + b, req, re) == if E.FirstMatch(a, req, re).Some? then E.FirstMatch(a, req, re) else E.FirstMatch(b, req, re)
  {
    if a == [] {
      assert a + b == b;
    } else {
      assert (a + b)[1..] == a[1..] + b && (a + b)[0] == a[0];
      FirstMatchConcat(a[1..], b, req, re);
    }
  }

  ghost function FirstAccepting(s: seq<Entry>, req: E.Request, re: E.Matches): (r: Option<Entry>)
    ensures r.Some? ==> r.value in s && Accepts(MatchOf(r.value), req, re)
    ensures r.None? ==> forall e :: e in s ==> !Accepts(MatchOf(e), req, re)
  {
    if s == [] then None
    else if Accepts(MatchOf(s[0]), req, re) then Some(s[0])
    else FirstAccepting(s[1..], req, re)
  }

  lemma {:induction false} FirstAcceptingConcat(s: seq<Entry>, e: Entry, req: E.Request, re: E.Matches)
    ensures FirstAccepting(s + [e], req, re) ==
            if FirstAccepting(s, req, re).Some? then FirstAccepting(s, req, re)
            else if Accepts(MatchOf(e), req, re) then Some(e) else None
  {
    if s != [] {
      assert (s + [e])[1..] == s[1..] + [e] && (s + [e])[0] == s[0];
      FirstAcceptingConcat(s[1..], e, req, re);
    }
  }

  /** The route emitted for an entry matches what the entry accepts. */
  ghost predicate Faithful(e: Entry, req: E.Request, re: E.Matches) {
    E.RouteMatches(Emitted(e).match_, req, re) <==> Accepts(MatchOf(e), req, re)
  }

  lemma EmittedIsFaithful(m: Model, e: Entry, req: E.Request, re: E.Matches)
    requires WellAttached(m) && ValidMatches(m) && ValidRequest(req) && e.route in m.routes && InRange(e)
    ensures Faithful(e, req, re)
  {
    assert RouteWithin(e.route, m.listeners);
    MatchPreserved(MatchOf(e), req, re);
  }

  /** Leaving out repeated matches never changes which entry answers. */
  lemma {:induction false} FirstMatchOfRoutes(s: seq<Entry>, emit: Entry -> E.Route, req: E.Request, re: E.Matches)
    requires forall e :: e in s ==> (E.RouteMatches(emit(e).match_, req, re) <==> Accepts(MatchOf(e), req, re))
    requires forall e, f :: e in s && f in s && RuleKeyOf(e) == RuleKeyOf(f) ==> MatchOf(e) == MatchOf(f)
    ensures E.FirstMatch(FirstOfEach(s, emit), req, re) ==
            match FirstAccepting(s, req, re) case None => None case Some(e) => Some(emit(e))
  {
    if s != [] {
      var n := |s| - 1;
      var e := s[n];
      assert s == s[..n] + [e] && e in s;
      FirstMatchOfRoutes(s[..n], emit, req, re);
      FirstAcceptingConcat(s[..n], e, req, re);
      if RuleKeyOf(e) in RuleKeys(s[..n]) {
        var f :| f in s[..n] && RuleKeyOf(f) == RuleKeyOf(e);
        assert f in s && MatchOf(f) == MatchOf(e);
        assert FirstOfEach(s, emit) == FirstOfEach(s[..n], emit);
      } else {
        FirstMatchConcat(FirstOfEach(s[..n], emit), [emit(e)], req, re);
        assert [emit(e)][1..] == [];
      }
    }
  }

  lemma {:induction false} FirstAcceptingIsLeast(routes: seq<AttachedRoute>, s: seq<Entry>, req: E.Request, re: E.Matches, f: Entry)
    requires Ordered(s, EntryLeq) && TiesInRouteOrder(routes, s) && f in s && Accepts(MatchOf(f), req, re)
    ensures FirstAccepting(s, req, re).Some? && ComesFirst(routes, FirstAccepting(s, req, re).value, f)
  {
    if Accepts(MatchOf(s[0]), req, re) {
      EntryLeqIsTotalPreorder();
      var j :| 0 <= j < |s| && s[j] == f;
      assert j == 0 || ComesFirst(routes, s[0], s[j]);
      assert EntryLeq(f, f);
    } else {
      assert f in s[1..];
      FirstAcceptingIsLeast(routes, s[1..], req, re, f);
    }
  }

  // ---- main results ----

  /** Envoy answers a request as Gateway API asks of the listener that owns the
      most specific hostname serving the host; with no such hostname it is a 404. */
  lemma MeaningPreserved(m: Model, ls: seq<nat>, config: E.RouteConfiguration, req: E.Request, re: E.Matches)
    requires WellAttached(m) && Hostful(m, ls) && ValidMatches(m) && ValidRequest(req)
    requires DistinctHosts(m, ls) && IsRouteConfiguration(m, ls, config)
    ensures forall d, i :: MostSpecificHost(m, ls, req.host, d) && Owns(m, ls, d, i) ==>
              Answers(m, ls, i, req, re, E.Serve(config, req, re))
    ensures (forall d :: !MostSpecificHost(m, ls, req.host, d)) ==> E.Serve(config, req, re).None?
  {
    PickIsMostSpecific(m, ls, config, req.host);
    var k := E.PickDomain(E.Domains(config.virtualHosts), req.host);
    forall d, i | MostSpecificHost(m, ls, req.host, d) && Owns(m, ls, d, i)
      ensures Answers(m, ls, i, req, re, E.Serve(config, req, re))
    {
      assert k.Some?;
      var vh := config.virtualHosts[k.value];
      CoversAntisymmetric(d, vh.domain);
      VirtualHostAnswers(m, ls, vh, i, req, re);
    }
  }

  lemma VirtualHostAnswers(m: Model, ls: seq<nat>, vh: E.VirtualHost, i: nat, req: E.Request, re: E.Matches)
    requires WellAttached(m) && Hostful(m, ls) && ValidMatches(m) && ValidRequest(req) && DistinctHosts(m, ls)
    requires IsVirtualHost(m, ls, vh) && Owns(m, ls, vh.domain, i) && MostSpecificHost(m, ls, req.host, vh.domain)
    ensures Answers(m, ls, i, req, re, E.FirstMatch(vh.routes, req, re))
  {
    var owner, s :| Owns(m, ls, vh.domain, owner) && InPrecedence(m, ls, owner, vh.domain, s) && vh.routes == RoutesOf(s);
    OwnerUnique(m, ls, vh.domain, owner, i);
    forall e | e in s ensures Faithful(e, req, re) {
      EmittedIsFaithful(m, e, req, re);
    }
    FirstMatchOfRoutes(s, Emitted, req, re);
    forall e ensures Candidate(m, ls, i, req, re, e) <==> e in s && Accepts(MatchOf(e), req, re) {
      if IsEntry(m, ls, e) && HostCovers(e.host, vh.domain) {
        CoversTransitive(e.host, vh.domain, req.host);
      }
    }
    var first := FirstAccepting(s, req, re);
    if first.Some? {
      forall f | Candidate(m, ls, i, req, re, f) ensures ComesFirst(m.routes, first.value, f) {
        FirstAcceptingIsLeast(m.routes, s, req, re, f);
      }
      assert Wins(m, ls, i, req, re, first.value);
    }
  }

  /** Some hostname that serves the host lies under the listener's own. */
  ghost predicate ServedUnder(m: Model, ls: seq<nat>, i: nat, host: string) {
    exists e :: IsEntry(m, ls, e) && HostCovers(e.host, host) && HostCovers(OwnHost(m, i), e.host)
  }

  /** A request stays with the listener that owns its host exactly when some
      hostname serving it lies under that listener's. */
  lemma OwnerKept(m: Model, ls: seq<nat>, host: string, d: string, i: nat, j: nat)
    requires DistinctHosts(m, ls) && MostSpecificHost(m, ls, host, d)
    requires Owns(m, ls, host, i) && Owns(m, ls, d, j)
    ensures i == j <==> ServedUnder(m, ls, i, host)
  {
    if ServedUnder(m, ls, i, host) {
      var e :| IsEntry(m, ls, e) && HostCovers(e.host, host) && HostCovers(OwnHost(m, i), e.host);
      CoversTransitive(OwnHost(m, i), e.host, d);
      OwnerOfNarrower(m, ls, host, d, i);
      OwnerUnique(m, ls, d, i, j);
    }
  }

  /** The listener that owns the most specific hostname serving the host has no route
      there that accepts the request. */
  ghost predicate FallbackSilent(m: Model, ls: seq<nat>, req: E.Request, re: E.Matches) {
    forall d, j, e :: MostSpecificHost(m, ls, req.host, d) && Owns(m, ls, d, j) ==> !Candidate(m, ls, j, req, re, e)
  }

  /** Listener isolation, and exactly when it holds: the answer is the one the
      owner of the request's host gives, if and only if some hostname serving the
      host lies under the owner's, or the listener fallen back to accepts nothing. */
  lemma IsolationExact(m: Model, ls: seq<nat>, config: E.RouteConfiguration, req: E.Request, re: E.Matches, i: nat)
    requires WellAttached(m) && Hostful(m, ls) && ValidMatches(m) && ValidRequest(req)
    requires DistinctHosts(m, ls) && IsRouteConfiguration(m, ls, config)
    requires Owns(m, ls, req.host, i)
    ensures Answers(m, ls, i, req, re, E.Serve(config, req, re)) <==>
            ServedUnder(m, ls, i, req.host) || FallbackSilent(m, ls, req, re)
  {
    var answer := E.Serve(config, req, re);
    PickIsMostSpecific(m, ls, config, req.host);
    CandidatesLieUnder(m, ls, req, re, i);
    var k := E.PickDomain(E.Domains(config.virtualHosts), req.host);
    if k.Some? {
      var d := config.virtualHosts[k.value].domain;
      assert config.virtualHosts[k.value] in config.virtualHosts;
      var j, s :| Owns(m, ls, d, j) && InPrecedence(m, ls, j, d, s) && config.virtualHosts[k.value].routes == RoutesOf(s);
      assert Answers(m, ls, j, req, re, answer) by { MeaningPreserved(m, ls, config, req, re); }
      OwnerKept(m, ls, req.host, d, i, j);
      SilentExactly(m, ls, req, re, d, j, answer);
    }
  }

  /** The listener fallen back to is silent exactly when its answer is a 404. */
  lemma SilentExactly(m: Model, ls: seq<nat>, req: E.Request, re: E.Matches, d: string, j: nat, answer: Option<E.Route>)
    requires DistinctHosts(m, ls) && MostSpecificHost(m, ls, req.host, d) && Owns(m, ls, d, j)
    requires Answers(m, ls, j, req, re, answer)
    ensures FallbackSilent(m, ls, req, re) <==> answer.None?
  {
    forall c, l | MostSpecificHost(m, ls, req.host, c) && Owns(m, ls, c, l) ensures l == j {
      CoversAntisymmetric(c, d);
      OwnerUnique(m, ls, d, l, j);
    }
  }

  /** A candidate of a listener is on a hostname under the listener's. */
  lemma CandidatesLieUnder(m: Model, ls: seq<nat>, req: E.Request, re: E.Matches, i: nat)
    requires WellAttached(m) && Hostful(m, ls)
    ensures forall e :: Candidate(m, ls, i, req, re, e) ==> ServedUnder(m, ls, i, req.host)
  {
    forall e | Candidate(m, ls, i, req, re, e) ensures ServedUnder(m, ls, i, req.host) {
      EntryWithin(m, ls, e);
    }
  }
}
