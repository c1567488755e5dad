/** From the listeners of a Gateway to the rules its tunnel runs by. */
module Tunnel {
  import opened Text
  import opened Sorting
  import opened Hostnames
  import opened GatewayModel
  import opened Paths
  import E = Envoy

  datatype IngressRule = IngressRule(hostname: string, path: string, service: string)

  const NOT_FOUND := "http_status:404"

  function HttpService(envoy: string, port: nat): string {
    "http://" + envoy + ":" + Decimal(port)
  }

  function TcpService(envoy: string, port: nat): string {
    "tcp://" + envoy + ":" + Decimal(port)
  }

  predicate CatchesAll(r: IngressRule) {
    r.hostname == "" && r.path == ""
  }

  // ---- who claims a hostname ----

  predicate HttpClaim(l: Listener, h: string) {
    l.valid && l.spec.protocol == HTTP && l.spec.hostname == Some(h)
  }

  /** The public hostname a TLS or TCP listener is reached at, if any. */
  function StreamHost(l: Listener, tcp: map<string, string>): string {
    match l.spec.protocol
    case TLS => if l.spec.hostname.Some? then l.spec.hostname.value else ""
    case TCP => if l.spec.name in tcp then tcp[l.spec.name] else ""
    case _ => ""
  }

  predicate StreamClaim(l: Listener, tcp: map<string, string>, h: string) {
    l.valid && h != "" && StreamHost(l, tcp) == h
  }

  predicate Hostless(l: Listener) {
    l.valid && l.spec.protocol == HTTP && l.spec.hostname.None?
  }

  ghost predicate Claimed(ls: seq<Listener>, tcp: map<string, string>, h: string) {
    exists l :: l in ls && (HttpClaim(l, h) || StreamClaim(l, tcp, h))
  }

  ghost predicate HttpWins(ls: seq<Listener>, l: Listener, h: string) {
    l in ls && HttpClaim(l, h) && forall o :: o in ls && HttpClaim(o, h) ==> l.spec.port <= o.spec.port
  }

  ghost predicate StreamWins(ls: seq<Listener>, tcp: map<string, string>, l: Listener, h: string) {
    l in ls && StreamClaim(l, tcp, h) && (forall o :: o in ls ==> !HttpClaim(o, h)) &&
    forall o :: o in ls && StreamClaim(o, tcp, h) ==> l.spec.port <= o.spec.port
  }

  /** The service a hostname goes to: the HTTP listener on the lowest port that
      claims it, else the TLS or TCP one. */
  ghost predicate Winner(ls: seq<Listener>, tcp: map<string, string>, envoy: string, h: string, service: string) {
    exists l :: (HttpWins(ls, l, h) && service == HttpService(envoy, l.spec.port)) ||
                (StreamWins(ls, tcp, l, h) && service == TcpService(envoy, l.spec.port))
  }

  /** Where what no rule matches goes: the hostless HTTP listener on the lowest
      port, or a 404. */
  ghost predicate CatchAllService(ls: seq<Listener>, envoy: string, service: string) {
    if exists l :: l in ls && Hostless(l) then
      exists l :: l in ls && Hostless(l) && service == HttpService(envoy, l.spec.port) &&
        forall o :: o in ls && Hostless(o) ==> l.spec.port <= o.spec.port
    else service == NOT_FOUND
  }

  // ---- the rules ----

  function Kept(handwritten: seq<IngressRule>): seq<IngressRule> {
    if handwritten == [] then []
    else Kept(handwritten[..|handwritten| - 1]) +
         if CatchesAll(handwritten[|handwritten| - 1]) then [] else [handwritten[|handwritten| - 1]]
  }

  function HostsOf(rules: seq<IngressRule>): seq<string> {
    seq(|rules|, k requires 0 <= k < |rules| => rules[k].hostname)
  }

  predicate LongerFirst(a: IngressRule, b: IngressRule) {
    |a.hostname| >= |b.hostname|
  }

  ghost predicate AllWin(rules: seq<IngressRule>, ls: seq<Listener>, tcp: map<string, string>, envoy: string) {
    forall r :: r in rules ==> r.path == "" && Winner(ls, tcp, envoy, r.hostname, r.service)
  }

  /** Exact hostnames ahead of wildcards, longer wildcards ahead of shorter ones. */
  ghost predicate WellOrdered(exact: seq<IngressRule>, wildcard: seq<IngressRule>) {
    (forall r :: r in exact ==> !IsWildcard(r.hostname)) && (forall r :: r in wildcard ==> IsWildcard(r.hostname)) &&
    Ordered(wildcard, LongerFirst)
  }

  /** One rule for each claimed hostname, to its winner. */
  ghost predicate Generated(exact: seq<IngressRule>, wildcard: seq<IngressRule>, ls: seq<Listener>, tcp: map<string, string>, envoy: string) {
    WellOrdered(exact, wildcard) && AllWin(exact + wildcard, ls, tcp, envoy) &&
    Distinct(HostsOf(exact + wildcard)) && forall h :: h in HostsOf(exact + wildcard) <==> Claimed(ls, tcp, h)
  }

  ghost predicate IsTunnelIngress(out: seq<IngressRule>, handwritten: seq<IngressRule>, ls: seq<Listener>, tcp: map<string, string>,
                                  envoy: string, exact: seq<IngressRule>, wildcard: seq<IngressRule>, service: string) {
    Generated(exact, wildcard, ls, tcp, envoy) && CatchAllService(ls, envoy, service) &&
    out == Kept(handwritten) + (exact + wildcard) + [IngressRule("", "", service)]
  }

  /** The rules gathered while listeners are walked. */
  datatype Claims = Claims(seen: set<string>, exact: seq<IngressRule>, wildcard: seq<IngressRule>)

  ghost predicate Consistent(c: Claims) {
    Distinct(HostsOf(c.exact + c.wildcard)) && c.seen == Elements(HostsOf(c.exact + c.wildcard)) &&
    (forall r :: r in c.exact ==> !IsWildcard(r.hostname)) && (forall r :: r in c.wildcard ==> IsWildcard(r.hostname))
  }

  method RouteTo(c: Claims, host: string, service: string) returns (out: Claims)
    requires Consistent(c)
    ensures Consistent(out) && out.seen == c.seen + {host}
    ensures forall r :: r in out.exact + out.wildcard <==>
              r in c.exact + c.wildcard || (host !in c.seen && r == IngressRule(host, "", service))
  {
    if host in c.seen {
      return c;
    }
    var rule := IngressRule(host, "", service);
    if IsWildcard(host) {
      out := Claims(c.seen + {host}, c.exact, c.wildcard + [rule]);
      assert out.exact + out.wildcard == c.exact + c.wildcard + [rule];
    } else {
      out := Claims(c.seen + {host}, c.exact + [rule], c.wildcard);
      InsertHost(c.exact, rule, c.wildcard);
    }
    assert HostsOf(c.exact + c.wildcard + [rule]) == HostsOf(c.exact + c.wildcard) + [host];
  }

  lemma InsertHost(a: seq<IngressRule>, rule: IngressRule, b: seq<IngressRule>)
    requires Distinct(HostsOf(a + b)) && rule.hostname !in HostsOf(a + b)
    ensures Distinct(HostsOf(a + [rule] + b))
    ensures Elements(HostsOf(a + [rule] + b)) == Elements(HostsOf(a + b)) + {rule.hostname}
  {
    var before, after := HostsOf(a + b), HostsOf(a + [rule] + b);
    assert before == HostsOf(a) + HostsOf(b) && after == HostsOf(a) + [rule.hostname] + HostsOf(b);
    var appended := before + [rule.hostname];
    assert Distinct(appended);
    assert multiset(appended) == multiset(after);
    PermutationFacts(appended, after);
  }

  predicate LowerPortFirst(a: Listener, b: Listener) {
    a.spec.port <= b.spec.port
  }

  ghost predicate HttpUpTo(valid: seq<Listener>, n: nat, h: string)
    requires n <= |valid|
  {
    exists i :: 0 <= i < n && HttpClaim(valid[i], h)
  }

  ghost predicate StreamUpTo(valid: seq<Listener>, tcp: map<string, string>, n: nat, h: string)
    requires n <= |valid|
  {
    exists i :: 0 <= i < n && StreamClaim(valid[i], tcp, h)
  }

  lemma FirstHttpWins(valid: seq<Listener>, n: nat, h: string)
    requires Ordered(valid, LowerPortFirst) && n < |valid| && HttpClaim(valid[n], h) && !HttpUpTo(valid, n, h)
    ensures HttpWins(valid, valid[n], h)
  {
    forall o | o in valid && HttpClaim(o, h) ensures valid[n].spec.port <= o.spec.port {
      var j :| 0 <= j < |valid| && valid[j] == o;
      assert n == j || LowerPortFirst(valid[n], valid[j]);
    }
  }

  lemma FirstStreamWins(valid: seq<Listener>, tcp: map<string, string>, n: nat, h: string)
    requires Ordered(valid, LowerPortFirst) && n < |valid| && StreamClaim(valid[n], tcp, h)
    requires !StreamUpTo(valid, tcp, n, h) && !HttpUpTo(valid, |valid|, h)
    ensures StreamWins(valid, tcp, valid[n], h)
  {
    forall o | o in valid && StreamClaim(o, tcp, h) ensures valid[n].spec.port <= o.spec.port {
      var j :| 0 <= j < |valid| && valid[j] == o;
      assert n == j || LowerPortFirst(valid[n], valid[j]);
    }
  }

  ghost predicate FirstHostless(valid: seq<Listener>, k: nat, envoy: string, service: string)
    requires k < |valid|
  {
    Hostless(valid[k]) && service == HttpService(envoy, valid[k].spec.port) && forall j :: 0 <= j < k ==> !Hostless(valid[j])
  }

  method HttpRules(valid: seq<Listener>, envoy: string, ghost tcp: map<string, string>) returns (c: Claims, catchAll: string)
    requires Ordered(valid, LowerPortFirst) && forall l :: l in valid ==> l.valid
    ensures Consistent(c) && AllWin(c.exact + c.wildcard, valid, tcp, envoy)
    ensures forall h :: h in c.seen <==> HttpUpTo(valid, |valid|, h)
    ensures CatchAllService(valid, envoy, catchAll)
  {
    c, catchAll := Claims({}, [], []), NOT_FOUND;
    for i := 0 to |valid|
      invariant Consistent(c) && AllWin(c.exact + c.wildcard, valid, tcp, envoy)
      invariant forall h :: h in c.seen <==> HttpUpTo(valid, i, h)
      invariant catchAll == NOT_FOUND ==> forall k :: 0 <= k < i ==> !Hostless(valid[k])
      invariant catchAll != NOT_FOUND ==> exists k :: 0 <= k < i && FirstHostless(valid, k, envoy, catchAll)
    {
      var l := valid[i];
      assert l in valid;
      if l.spec.protocol != HTTP {
        continue;
      }
      var service := HttpService(envoy, l.spec.port);
      assert service[4] == ':' && NOT_FOUND[4] == '_';
      if l.spec.hostname.None? {
        if catchAll == NOT_FOUND {
          catchAll := service;
          assert FirstHostless(valid, i, envoy, catchAll);
        }
        continue;
      }
      var host := l.spec.hostname.value;
      if host !in c.seen { FirstHttpWins(valid, i, host); }
      c := RouteTo(c, host, service);
    }
    LowestHostless(valid, envoy, catchAll);
  }

  lemma LowestHostless(valid: seq<Listener>, envoy: string, catchAll: string)
    requires Ordered(valid, LowerPortFirst)
    requires catchAll == NOT_FOUND ==> forall k :: 0 <= k < |valid| ==> !Hostless(valid[k])
    requires catchAll != NOT_FOUND ==> exists k :: 0 <= k < |valid| && FirstHostless(valid, k, envoy, catchAll)
    ensures CatchAllService(valid, envoy, catchAll)
  {
    if catchAll != NOT_FOUND {
      var k :| 0 <= k < |valid| && FirstHostless(valid, k, envoy, catchAll);
      assert valid[k] in valid;
      forall o | o in valid && Hostless(o) ensures valid[k].spec.port <= o.spec.port {
        var j :| 0 <= j < |valid| && valid[j] == o;
        assert k == j || LowerPortFirst(valid[k], valid[j]);
      }
    }
  }

  method StreamRules(valid: seq<Listener>, tcp: map<string, string>, envoy: string, before: Claims) returns (c: Claims)
    requires Ordered(valid, LowerPortFirst) && forall l :: l in valid ==> l.valid
    requires Consistent(before) && AllWin(before.exact + before.wildcard, valid, tcp, envoy)
    requires forall h :: h in before.seen <==> HttpUpTo(valid, |valid|, h)
    ensures Consistent(c) && AllWin(c.exact + c.wildcard, valid, tcp, envoy)
    ensures forall h :: h in c.seen <==> Claimed(valid, tcp, h)
  {
    c := before;
    for i := 0 to |valid|
      invariant Consistent(c) && AllWin(c.exact + c.wildcard, valid, tcp, envoy)
      invariant forall h :: h in c.seen <==> HttpUpTo(valid, |valid|, h) || StreamUpTo(valid, tcp, i, h)
    {
      var l := valid[i];
      assert l in valid;
      var host := StreamHost(l, tcp);
      if host == "" {
        continue;
      }
      if host !in c.seen { FirstStreamWins(valid, tcp, i, host); }
      c := RouteTo(c, host, TcpService(envoy, l.spec.port));
    }
    forall h ensures h in c.seen <==> Claimed(valid, tcp, h) {
      ClaimedUpToAll(valid, tcp, h);
    }
  }

  lemma ClaimedUpToAll(valid: seq<Listener>, tcp: map<string, string>, h: string)
    ensures Claimed(valid, tcp, h) <==> HttpUpTo(valid, |valid|, h) || StreamUpTo(valid, tcp, |valid|, h)
  {
    if HttpUpTo(valid, |valid|, h) {
      var i :| 0 <= i < |valid| && HttpClaim(valid[i], h);
      assert valid[i] in valid;
    }
    if StreamUpTo(valid, tcp, |valid|, h) {
      var i :| 0 <= i < |valid| && StreamClaim(valid[i], tcp, h);
      assert valid[i] in valid;
    }
    if Claimed(valid, tcp, h) {
      var l :| l in valid && (HttpClaim(l, h) || StreamClaim(l, tcp, h));
      var i :| 0 <= i < |valid| && valid[i] == l;
      assert HttpUpTo(valid, |valid|, h) || StreamUpTo(valid, tcp, |valid|, h);
    }
  }

  method KeepRules(handwritten: seq<IngressRule>) returns (rules: seq<IngressRule>)
    ensures rules == Kept(handwritten)
  {
    rules := [];
    for i := 0 to |handwritten|
      invariant rules == Kept(handwritten[..i])
    {
      assert handwritten[..i + 1][..i] == handwritten[..i];
      if !CatchesAll(handwritten[i]) {
        rules := rules + [handwritten[i]];
      }
    }
    assert handwritten[..|handwritten|] == handwritten;
  }

  method ValidByPort(ls: seq<Listener>) returns (valid: seq<Listener>)
    ensures Ordered(valid, LowerPortFirst) && forall l :: l in valid <==> l in ls && l.valid
  {
    var kept: seq<Listener> := [];
    for i := 0 to |ls|
      invariant forall l :: l in kept <==> l in ls[..i] && l.valid
    {
      assert ls[..i + 1] == ls[..i] + [ls[i]];
      if ls[i].valid {
        kept := kept + [ls[i]];
      }
    }
    assert ls[..|ls|] == ls;
    valid := SortStable(kept, LowerPortFirst);
    PermutationFacts(kept, valid);
  }

  method TunnelIngress(handwritten: seq<IngressRule>, ls: seq<Listener>, tcp: map<string, string>, envoy: string)
    returns (rules: seq<IngressRule>, ghost exact: seq<IngressRule>, ghost wildcard: seq<IngressRule>, ghost service: string)
    ensures IsTunnelIngress(rules, handwritten, ls, tcp, envoy, exact, wildcard, service)
    ensures exists x, w, s :: IsTunnelIngress(rules, handwritten, ls, tcp, envoy, x, w, s)
  {
    rules := KeepRules(handwritten);
    var valid := ValidByPort(ls);
    var claims, catchAll := HttpRules(valid, envoy, tcp);
    claims := StreamRules(valid, tcp, envoy, claims);
    // Longer wildcards first: one never covers another that is longer.
    var wildcards := SortStable(claims.wildcard, LongerFirst);
    SortedGenerated(claims, wildcards, valid, tcp, envoy);
    OnlyValidCount(ls, valid, tcp, envoy, claims.exact, wildcards, catchAll);
    rules := rules + (claims.exact + wildcards) + [IngressRule("", "", catchAll)];
    exact, wildcard, service := claims.exact, wildcards, catchAll;
    assert IsTunnelIngress(rules, handwritten, ls, tcp, envoy, exact, wildcard, service);
  }

  lemma SortedGenerated(c: Claims, wildcards: seq<IngressRule>, valid: seq<Listener>, tcp: map<string, string>, envoy: string)
    requires Consistent(c) && AllWin(c.exact + c.wildcard, valid, tcp, envoy)
    requires forall h :: h in c.seen <==> Claimed(valid, tcp, h)
    requires Ordered(wildcards, LongerFirst) && multiset(wildcards) == multiset(c.wildcard)
    ensures Generated(c.exact, wildcards, valid, tcp, envoy)
  {
    PermutationFacts(c.wildcard, wildcards);
    SameMembers(c.exact, c.wildcard, wildcards);
    PermuteTail(c.exact, c.wildcard, wildcards);
  }

  lemma SameMembers(a: seq<IngressRule>, b: seq<IngressRule>, b': seq<IngressRule>)
    requires forall r :: r in b <==> r in b'
    ensures forall r :: r in a + b <==> r in a + b'
    ensures forall h :: h in HostsOf(a + b) <==> h in HostsOf(a + b')
  {
    forall h ensures h in HostsOf(a + b) <==> h in HostsOf(a + b') {
      HostMember(a + b, h);
      HostMember(a + b', h);
    }
  }

  lemma HostMember(rules: seq<IngressRule>, h: string)
    ensures h in HostsOf(rules) <==> exists r :: r in rules && r.hostname == h
  {
    if h in HostsOf(rules) {
      var k :| 0 <= k < |HostsOf(rules)| && HostsOf(rules)[k] == h;
      assert rules[k] in rules;
    }
    if r :| r in rules && r.hostname == h {
      var k :| 0 <= k < |rules| && rules[k] == r;
      assert HostsOf(rules)[k] == h;
    }
  }

  lemma PermuteTail(a: seq<IngressRule>, b: seq<IngressRule>, b': seq<IngressRule>)
    requires multiset(b) == multiset(b') && Distinct(HostsOf(a + b))
    ensures Distinct(HostsOf(a + b'))
  {
    HostsApart(a + b);
    assert multiset(a + b) == multiset(a + b');
    PermutationFacts(a + b, a + b');
    HostsApart(a + b');
  }

  /** Hostnames are distinct exactly when the rules are and no two share one. */
  lemma HostsApart(rules: seq<IngressRule>)
    ensures Distinct(HostsOf(rules)) <==>
            Distinct(rules) && forall r, s :: r in rules && s in rules && r.hostname == s.hostname ==> r == s
  {
    var hosts := HostsOf(rules);
    if Distinct(hosts) {
      forall r, s | r in rules && s in rules && r.hostname == s.hostname ensures r == s {
        var i :| 0 <= i < |rules| && rules[i] == r;
        var j :| 0 <= j < |rules| && rules[j] == s;
        assert hosts[i] == hosts[j];
      }
      forall i, j | 0 <= i < j < |rules| ensures rules[i] != rules[j] {
        assert hosts[i] != hosts[j];
      }
    }
  }

  /** Listeners that are not valid claim nothing. */
  lemma OnlyValidCount(ls: seq<Listener>, valid: seq<Listener>, tcp: map<string, string>, envoy: string,
                       exact: seq<IngressRule>, wildcard: seq<IngressRule>, service: string)
    requires forall l :: l in valid <==> l in ls && l.valid
    requires Generated(exact, wildcard, valid, tcp, envoy) && CatchAllService(valid, envoy, service)
    ensures Generated(exact, wildcard, ls, tcp, envoy) && CatchAllService(ls, envoy, service)
  {
    forall h, service | Winner(valid, tcp, envoy, h, service) ensures Winner(ls, tcp, envoy, h, service) {
      WinnerCarries(valid, ls, tcp, envoy, h, service);
    }
    forall h ensures Claimed(valid, tcp, h) <==> Claimed(ls, tcp, h) {
    }
  }

  lemma WinnerCarries(a: seq<Listener>, b: seq<Listener>, tcp: map<string, string>, envoy: string, h: string, service: string)
    requires forall l: Listener :: l.valid ==> (l in a <==> l in b)
    requires Winner(a, tcp, envoy, h, service)
    ensures Winner(b, tcp, envoy, h, service)
  {
    var l :| (HttpWins(a, l, h) && service == HttpService(envoy, l.spec.port)) ||
             (StreamWins(a, tcp, l, h) && service == TcpService(envoy, l.spec.port));
    assert HttpWins(a, l, h) ==> HttpWins(b, l, h);
    assert StreamWins(a, tcp, l, h) ==> StreamWins(b, tcp, l, h);
  }
}
