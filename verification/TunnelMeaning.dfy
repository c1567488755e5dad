/** What cloudflared makes of a tunnel's rules, taking the first that matches. */
module TunnelMeaning {
  import opened Text
  import opened Sorting
  import opened Hostnames
  import opened GatewayModel
  import opened Tunnel
  import E = Envoy

  predicate RuleMatches(r: IngressRule, host: string, path: string, re: E.Matches) {
    (r.hostname == "" || HostCovers(r.hostname, host)) && (r.path == "" || re(r.path, path))
  }

  /** The index of the rule a request takes. */
  function FirstRule(rules: seq<IngressRule>, host: string, path: string, re: E.Matches): (k: Option<nat>)
    ensures k.Some? ==> k.value < |rules| && RuleMatches(rules[k.value], host, path, re) &&
                        forall j :: 0 <= j < k.value ==> !RuleMatches(rules[j], host, path, re)
    ensures k.None? ==> forall r :: r in rules ==> !RuleMatches(r, host, path, re)
  {
    if rules == [] then None
    else if RuleMatches(rules[0], host, path, re) then Some(0)
    else match FirstRule(rules[1..], host, path, re) case None => None case Some(k) => Some(k + 1)
  }

  /** The most specific claimed hostname covering a host. */
  ghost predicate BestClaim(ls: seq<Listener>, tcp: map<string, string>, host: string, h: string) {
    Claimed(ls, tcp, h) && HostCovers(h, host) && forall c :: Claimed(ls, tcp, c) && HostCovers(c, host) ==> HostCovers(c, h)
  }

  /** What the API server and the annotation reader admit: claimed hostnames are
      never empty and never a bare star. */
  ghost predicate ValidClaims(ls: seq<Listener>, tcp: map<string, string>) {
    forall h :: Claimed(ls, tcp, h) ==> Pattern(h) && h != "*"
  }

  /** Where a request goes: to the winner of the most specific claimed hostname
      covering its host, else where what no rule matches goes. */
  ghost predicate GoesTo(ls: seq<Listener>, tcp: map<string, string>, envoy: string, host: string, service: string) {
    if exists h :: Claimed(ls, tcp, h) && HostCovers(h, host) then
      exists h :: BestClaim(ls, tcp, host, h) && Winner(ls, tcp, envoy, h, service)
    else CatchAllService(ls, envoy, service)
  }

  lemma FirstOfParts(a: seq<IngressRule>, b: seq<IngressRule>, host: string, path: string, re: E.Matches)
    ensures FirstRule(a + b, host, path, re) ==
            if FirstRule(a, host, path, re).Some? then FirstRule(a, host, path, re)
            else match FirstRule(b, host, path, re) case None => None case Some(k) => Some(|a| + k)
  {
    var ab := a + b;
    var k, l := FirstRule(a, host, path, re), FirstRule(b, host, path, re);
    if k.Some? {
      assert forall j :: 0 <= j < |a| ==> ab[j] == a[j];
      FirstIs(ab, k.value, host, path, re);
    } else if l.Some? {
      forall j | 0 <= j < |a| + l.value ensures !RuleMatches(ab[j], host, path, re) {
        assert if j < |a| then ab[j] == a[j] && a[j] in a else ab[j] == b[j - |a|];
      }
      FirstIs(ab, |a| + l.value, host, path, re);
    } else {
      assert forall r :: r in ab ==> r in a || r in b;
    }
  }

  /** The rule generated for a claimed hostname. */
  lemma RuleFor(rules: seq<IngressRule>, h: string) returns (k: nat)
    requires h in HostsOf(rules)
    ensures k < |rules| && rules[k].hostname == h
  {
    k :| 0 <= k < |rules| && HostsOf(rules)[k] == h;
  }

  /** Whatever covers the host is no more specific than the first rule that does. */
  lemma FirstGeneratedIsBest(exact: seq<IngressRule>, wildcard: seq<IngressRule>, ls: seq<Listener>, tcp: map<string, string>,
                             envoy: string, host: string, path: string, re: E.Matches)
    requires Generated(exact, wildcard, ls, tcp, envoy) && ValidClaims(ls, tcp)
    ensures var gen := exact + wildcard;
            var k := FirstRule(gen, host, path, re);
            (k.Some? ==> BestClaim(ls, tcp, host, gen[k.value].hostname)) &&
            (k.None? ==> forall h :: Claimed(ls, tcp, h) ==> !HostCovers(h, host))
  {
    var gen := exact + wildcard;
    var k := FirstRule(gen, host, path, re);
    forall c | Claimed(ls, tcp, c) && HostCovers(c, host) ensures k.Some? && HostCovers(c, gen[k.value].hostname) {
      var j := RuleFor(gen, c);
      assert gen[j] in gen && RuleMatches(gen[j], host, path, re);
      assert k.Some? && k.value <= j;
      var g := gen[k.value];
      assert g in gen;
      ClaimedRule(gen, g);
      EarlierCoversNoLess(exact, wildcard, k.value, j, host);
    }
    if k.Some? {
      assert gen[k.value] in gen;
      ClaimedRule(gen, gen[k.value]);
    }
  }

  lemma ClaimedRule(rules: seq<IngressRule>, r: IngressRule)
    requires r in rules
    ensures r.hostname in HostsOf(rules)
  {
    var k :| 0 <= k < |rules| && rules[k] == r;
    assert HostsOf(rules)[k] == r.hostname;
  }

  /** Of two rules covering a host, the later one's hostname covers the earlier one's. */
  lemma EarlierCoversNoLess(exact: seq<IngressRule>, wildcard: seq<IngressRule>, k: nat, j: nat, host: string)
    requires WellOrdered(exact, wildcard) && k <= j < |exact + wildcard|
    requires var g, c := (exact + wildcard)[k].hostname, (exact + wildcard)[j].hostname;
             HostCovers(g, host) && HostCovers(c, host) && Pattern(g) && Pattern(c) && g != "*" && c != "*"
    ensures HostCovers((exact + wildcard)[j].hostname, (exact + wildcard)[k].hostname)
  {
    var gen := exact + wildcard;
    var g, c := gen[k].hostname, gen[j].hostname;
    if k < |exact| {
      assert gen[k] in exact;
    } else {
      assert gen[k] == wildcard[k - |exact|] && gen[j] == wildcard[j - |exact|];
      assert gen[k] in wildcard && gen[j] in wildcard;
      assert k == j || LongerFirst(gen[k], gen[j]);
      assert |g| >= |c|;
      CoversComparable(g, c, host);
      if HostCovers(g, c) && g != c { SameLengthSameWildcard(g, c); }
    }
  }

  /** The first match is the most specific match, wherever no hand-written rule
      comes first. */
  lemma FirstMatchIsMostSpecific(rules: seq<IngressRule>, handwritten: seq<IngressRule>, ls: seq<Listener>, tcp: map<string, string>,
                                 envoy: string, exact: seq<IngressRule>, wildcard: seq<IngressRule>, service: string,
                                 host: string, path: string, re: E.Matches)
    requires IsTunnelIngress(rules, handwritten, ls, tcp, envoy, exact, wildcard, service) && ValidClaims(ls, tcp)
    ensures FirstRule(rules, host, path, re).Some?
    ensures FirstRule(Kept(handwritten), host, path, re).None? ==>
              GoesTo(ls, tcp, envoy, host, rules[FirstRule(rules, host, path, re).value].service)
    ensures FirstRule(Kept(handwritten), host, path, re).Some? ==>
              FirstRule(rules, host, path, re) == FirstRule(Kept(handwritten), host, path, re)
  {
    var gen, last := exact + wildcard, IngressRule("", "", service);
    FirstOfParts(Kept(handwritten), gen, host, path, re);
    FirstOfParts(Kept(handwritten) + gen, [last], host, path, re);
    assert RuleMatches([last][0], host, path, re);
    assert FirstRule([last], host, path, re) == Some(0);
    FirstGeneratedIsBest(exact, wildcard, ls, tcp, envoy, host, path, re);
    var k := FirstRule(gen, host, path, re);
    if FirstRule(Kept(handwritten), host, path, re).None? {
      var at := FirstRule(rules, host, path, re).value;
      if k.Some? {
        assert rules[at] == gen[k.value] && gen[k.value] in gen;
      } else {
        assert rules[at] == last;
      }
    }
  }

  lemma FirstIs(rules: seq<IngressRule>, k: nat, host: string, path: string, re: E.Matches)
    requires k < |rules| && RuleMatches(rules[k], host, path, re)
    requires forall j :: 0 <= j < k ==> !RuleMatches(rules[j], host, path, re)
    ensures FirstRule(rules, host, path, re) == Some(k)
  {
    assert rules[k] in rules;
  }

  // ---- well-formedness ----

  const LAST_MUST_CATCH := "the last rule must omit both hostname and path"
  const ONLY_LAST_MAY_CATCH := "only the last rule may omit both hostname and path"

  /** The checker of rule lists; an empty string means they are well ordered. */
  function ValidateIngress(rules: seq<IngressRule>): string {
    if rules == [] then ""
    else if !CatchesAll(rules[|rules| - 1]) then LAST_MUST_CATCH
    else if exists r :: r in rules[..|rules| - 1] && CatchesAll(r) then ONLY_LAST_MAY_CATCH
    else ""
  }

  lemma {:induction false} KeptCatchNothing(handwritten: seq<IngressRule>)
    ensures forall r :: r in Kept(handwritten) ==> !CatchesAll(r)
  {
    if handwritten != [] { KeptCatchNothing(handwritten[..|handwritten| - 1]); }
  }

  /** Whatever the hand-written rules, the list is well ordered exactly when no
      valid HTTP listener has an empty hostname, which the API server refuses. */
  lemma WellFormedExact(rules: seq<IngressRule>, handwritten: seq<IngressRule>, ls: seq<Listener>, tcp: map<string, string>,
                        envoy: string, exact: seq<IngressRule>, wildcard: seq<IngressRule>, service: string)
    requires IsTunnelIngress(rules, handwritten, ls, tcp, envoy, exact, wildcard, service)
    ensures ValidateIngress(rules) == "" <==> forall l :: l in ls ==> !HttpClaim(l, "")
  {
    KeptCatchNothing(handwritten);
    var gen := exact + wildcard;
    var front := rules[..|rules| - 1];
    assert front == Kept(handwritten) + gen;
    HostMember(gen, "");
    assert (exists r :: r in front && CatchesAll(r)) <==> Claimed(ls, tcp, "") by {
      if r :| r in front && CatchesAll(r) { assert r in gen; }
      if Claimed(ls, tcp, "") {
        var r :| r in gen && r.hostname == "";
        assert r in front && CatchesAll(r);
      }
    }
  }

  // ---- the order of the listeners does not matter ----

  lemma WinnerUnique(ls: seq<Listener>, tcp: map<string, string>, envoy: string, h: string, s: string, t: string)
    requires Winner(ls, tcp, envoy, h, s) && Winner(ls, tcp, envoy, h, t)
    ensures s == t
  {
    var l :| (HttpWins(ls, l, h) && s == HttpService(envoy, l.spec.port)) ||
             (StreamWins(ls, tcp, l, h) && s == TcpService(envoy, l.spec.port));
    var k :| (HttpWins(ls, k, h) && t == HttpService(envoy, k.spec.port)) ||
             (StreamWins(ls, tcp, k, h) && t == TcpService(envoy, k.spec.port));
    assert l.spec.port == k.spec.port;
  }

  lemma DestinationUnique(ls: seq<Listener>, tcp: map<string, string>, envoy: string, host: string, s: string, t: string)
    requires GoesTo(ls, tcp, envoy, host, s) && GoesTo(ls, tcp, envoy, host, t)
    ensures s == t
  {
    if h :| Claimed(ls, tcp, h) && HostCovers(h, host) {
      var a :| BestClaim(ls, tcp, host, a) && Winner(ls, tcp, envoy, a, s);
      var b :| BestClaim(ls, tcp, host, b) && Winner(ls, tcp, envoy, b, t);
      CoversAntisymmetric(a, b);
      WinnerUnique(ls, tcp, envoy, a, s, t);
    }
  }

  lemma DestinationCarries(a: seq<Listener>, b: seq<Listener>, tcp: map<string, string>, envoy: string, host: string, s: string)
    requires forall l :: l in a <==> l in b
    requires GoesTo(a, tcp, envoy, host, s)
    ensures GoesTo(b, tcp, envoy, host, s)
  {
    forall h ensures Claimed(a, tcp, h) <==> Claimed(b, tcp, h) {
    }
    if h :| Claimed(a, tcp, h) && HostCovers(h, host) {
      var best :| BestClaim(a, tcp, host, best) && Winner(a, tcp, envoy, best, s);
      WinnerCarries(a, b, tcp, envoy, best, s);
      assert BestClaim(b, tcp, host, best);
    } else {
      assert CatchAllService(b, envoy, s);
    }
  }

  /** Listing the listeners in another order sends every request to the same service. */
  lemma OrderIndependent(handwritten: seq<IngressRule>, tcp: map<string, string>, envoy: string,
                         ls: seq<Listener>, rules: seq<IngressRule>, exact: seq<IngressRule>, wildcard: seq<IngressRule>, service: string,
                         ls': seq<Listener>, rules': seq<IngressRule>, exact': seq<IngressRule>, wildcard': seq<IngressRule>, service': string,
                         host: string, path: string, re: E.Matches)
    requires IsTunnelIngress(rules, handwritten, ls, tcp, envoy, exact, wildcard, service) && ValidClaims(ls, tcp)
    requires IsTunnelIngress(rules', handwritten, ls', tcp, envoy, exact', wildcard', service') && ValidClaims(ls', tcp)
    requires forall l :: l in ls <==> l in ls'
    ensures var k, k' := FirstRule(rules, host, path, re), FirstRule(rules', host, path, re);
            k.Some? && k'.Some? && rules[k.value].service == rules'[k'.value].service
  {
    FirstMatchIsMostSpecific(rules, handwritten, ls, tcp, envoy, exact, wildcard, service, host, path, re);
    FirstMatchIsMostSpecific(rules', handwritten, ls', tcp, envoy, exact', wildcard', service', host, path, re);
    var k, k' := FirstRule(rules, host, path, re), FirstRule(rules', host, path, re);
    if FirstRule(Kept(handwritten), host, path, re).None? {
      DestinationCarries(ls', ls, tcp, envoy, host, rules'[k'.value].service);
      DestinationUnique(ls, tcp, envoy, host, rules[k.value].service, rules'[k'.value].service);
    } else {
      assert rules[k.value] == Kept(handwritten)[k.value] == rules'[k'.value];
    }
  }
}
