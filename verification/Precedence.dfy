/** The order of the routes of a virtual host. Precedence leaves ties between routes of
    two kinds, which the list of routes decides: a list has one configuration, and two
    lists of the same routes have the same one exactly when they put the entries that
    count and tie the same way round. */
module Precedence {
  import opened Text
  import opened Sorting
  import opened Hostnames
  import opened GatewayModel
  import opened Attachment
  import opened RouteActions
  import opened Entries
  import opened Owners
  import opened RouteConfig
  import E = Envoy

  ghost predicate ValidNames(m: Model) {
    forall r :: r in m.routes ==> '/' !in r.route.key.kind && '/' !in r.route.key.ns && '/' !in r.route.key.name
  }

  // ---- which carried entries tie ----

  /** Two entries at one place of two routes that nothing tells apart but their kind. */
  predicate TwinEntries(a: Entry, b: Entry) {
    a.host == b.host && a.rule == b.rule && a.match_ == b.match_ && SameRank(MatchOf(a), MatchOf(b)) && SameAge(a.route.route, b.route.route)
  }

  lemma CarriedTies(m: Model, ls: seq<nat>, owner: nat, host: string, a: Entry, b: Entry)
    requires WellAttached(m) && Hostful(m, ls) && ValidNames(m)
    requires Carried(m, ls, owner, host, a) && Carried(m, ls, owner, host, b)
    ensures EntryLeq(a, b) && EntryLeq(b, a) <==> TwinEntries(a, b)
  {
    TiesExact(a, b);
    EntryWithin(m, ls, a);
    EntryWithin(m, ls, b);
    SpecificityDecides(a.host, b.host, host);
  }

  /** Entries of one match of one rule never tie: their hostnames tell them apart. */
  lemma SameKeyStrict(m: Model, ls: seq<nat>, owner: nat, host: string, a: Entry, b: Entry)
    requires WellAttached(m) && Hostful(m, ls) && ValidNames(m)
    requires Carried(m, ls, owner, host, a) && Carried(m, ls, owner, host, b) && RuleKeyOf(a) == RuleKeyOf(b)
    requires EntryLeq(a, b) && EntryLeq(b, a)
    ensures a == b
  {
    CarriedTies(m, ls, owner, host, a, b);
  }

  // ---- the entries that count ----

  /** The first entry of each match of each rule. */
  ghost function Firsts(s: seq<Entry>): seq<Entry> {
    if s == [] then []
    else
      var n := |s| - 1;
      Firsts(s[..n]) + if RuleKeyOf(s[n]) in RuleKeys(s[..n]) then [] else [s[n]]
  }

  ghost function Mapped(s: seq<Entry>, emit: Entry -> E.Route): seq<E.Route> {
    seq(|s|, k requires 0 <= k < |s| => emit(s[k]))
  }

  lemma {:induction false} RoutesOfFirsts(s: seq<Entry>, emit: Entry -> E.Route)
    ensures FirstOfEach(s, emit) == Mapped(Firsts(s), emit)
  {
    if s != [] {
      RoutesOfFirsts(s[..|s| - 1], emit);
    }
  }

  lemma {:induction false} FirstsIn(s: seq<Entry>)
    ensures forall e :: e in Firsts(s) ==> e in s
  {
    if s != [] {
      FirstsIn(s[..|s| - 1]);
    }
  }

  /** An entry of the sequence is among the firsts just when no earlier one has its key. */
  lemma {:induction false} FirstsAt(s: seq<Entry>, k: nat)
    requires Distinct(s) && k < |s|
    ensures s[k] in Firsts(s) <==> RuleKeyOf(s[k]) !in RuleKeys(s[..k])
  {
    var n := |s| - 1;
    var t := s[..n];
    if k < n {
      FirstsAt(t, k);
      assert t[k] == s[k] && t[..k] == s[..k] && s[n] != s[k];
    } else {
      FirstsIn(t);
      assert s[n] !in t by { assert forall j :: 0 <= j < n ==> t[j] == s[j]; }
    }
  }

  lemma {:induction false} FirstsDistinct(s: seq<Entry>)
    requires Distinct(s)
    ensures Distinct(Firsts(s))
  {
    if s != [] {
      var t, e := s[..|s| - 1], s[|s| - 1];
      FirstsDistinct(t);
      FirstsIn(t);
      var f := Firsts(t);
      forall k | 0 <= k < |f| ensures f[k] != e {
        assert f[k] in f;
        var l :| 0 <= l < |t| && t[l] == f[k];
        assert s[l] == t[l];
      }
    }
  }

  /** The firsts come in the order of the sequence. */
  lemma {:induction false} FirstsBefore(s: seq<Entry>, x: Entry, y: Entry)
    requires Distinct(s)
    ensures Before(Firsts(s), x, y) ==> Before(s, x, y)
    ensures x in Firsts(s) && y in Firsts(s) && Before(s, x, y) ==> Before(Firsts(s), x, y)
  {
    if s != [] {
      var t, e := s[..|s| - 1], s[|s| - 1];
      FirstsBefore(t, x, y);
      FirstsIn(t);
      BeforeSnoc(t, e, x, y);
      BeforeSnoc(Firsts(t), e, x, y);
      assert s == t + [e] && e !in t;
      assert Before(t, x, y) ==> x in t && y in t;
      assert Firsts(t) + [] == Firsts(t);
    }
  }

  lemma FirstsOrdered(s: seq<Entry>)
    requires Distinct(s) && Ordered(s, EntryLeq)
    ensures Ordered(Firsts(s), EntryLeq)
  {
    var g := Firsts(s);
    forall i, j | 0 <= i < j < |g| ensures EntryLeq(g[i], g[j]) {
      FirstsBefore(s, g[i], g[j]);
      assert Before(g, g[i], g[j]);
      var k, l :| 0 <= k < l < |s| && s[k] == g[i] && s[l] == g[j];
    }
  }

  /** A carried entry that comes before every other of its match and rule. */
  ghost predicate Leads(m: Model, ls: seq<nat>, owner: nat, host: string, e: Entry) {
    Carried(m, ls, owner, host, e) &&
    forall f :: Carried(m, ls, owner, host, f) && RuleKeyOf(f) == RuleKeyOf(e) ==> EntryLeq(e, f)
  }

  /** Where an earlier entry has its key, an entry does not lead. */
  lemma LaterLeadsNot(m: Model, ls: seq<nat>, owner: nat, host: string, s: seq<Entry>, j: nat, k: nat)
    requires WellAttached(m) && Hostful(m, ls) && ValidNames(m) && Arranged(m, ls, owner, host, s)
    requires j < k < |s| && RuleKeyOf(s[j]) == RuleKeyOf(s[k])
    ensures !Leads(m, ls, owner, host, s[k])
  {
    var f, e := s[j], s[k];
    assert f in s && e in s && EntryLeq(f, e) && f != e;
    if EntryLeq(e, f) { SameKeyStrict(m, ls, owner, host, e, f); }
  }

  lemma EarliestLeads(m: Model, ls: seq<nat>, owner: nat, host: string, s: seq<Entry>, k: nat)
    requires Arranged(m, ls, owner, host, s) && k < |s|
    requires forall j :: 0 <= j < k ==> RuleKeyOf(s[j]) != RuleKeyOf(s[k])
    ensures Leads(m, ls, owner, host, s[k])
  {
    var e := s[k];
    assert e in s;
    LeqReflexive(e);
    forall f | Carried(m, ls, owner, host, f) && RuleKeyOf(f) == RuleKeyOf(e) ensures EntryLeq(e, f) {
      assert f in s;
      var j :| 0 <= j < |s| && s[j] == f;
    }
  }

  lemma EarlierKeys(s: seq<Entry>, k: nat)
    requires k < |s|
    ensures RuleKeyOf(s[k]) in RuleKeys(s[..k]) <==> exists j :: 0 <= j < k && RuleKeyOf(s[j]) == RuleKeyOf(s[k])
  {
    if RuleKeyOf(s[k]) in RuleKeys(s[..k]) {
      var f :| f in s[..k] && RuleKeyOf(f) == RuleKeyOf(s[k]);
      var j :| 0 <= j < k && s[..k][j] == f;
      assert s[j] == f;
    }
    if j :| 0 <= j < k && RuleKeyOf(s[j]) == RuleKeyOf(s[k]) { assert s[j] in s[..k]; }
  }

  /** An entry is the first of its key just when it leads. */
  lemma FirstLeads(m: Model, ls: seq<nat>, owner: nat, host: string, s: seq<Entry>, k: nat)
    requires WellAttached(m) && Hostful(m, ls) && ValidNames(m) && Arranged(m, ls, owner, host, s) && k < |s|
    ensures RuleKeyOf(s[k]) !in RuleKeys(s[..k]) <==> Leads(m, ls, owner, host, s[k])
  {
    EarlierKeys(s, k);
    if j :| 0 <= j < k && RuleKeyOf(s[j]) == RuleKeyOf(s[k]) {
      LaterLeadsNot(m, ls, owner, host, s, j, k);
    } else {
      EarliestLeads(m, ls, owner, host, s, k);
    }
  }

  /** Which entries are first does not depend on how ties are broken. */
  lemma FirstsLead(m: Model, ls: seq<nat>, owner: nat, host: string, s: seq<Entry>)
    requires WellAttached(m) && Hostful(m, ls) && ValidNames(m) && Arranged(m, ls, owner, host, s)
    ensures forall e :: e in Firsts(s) <==> Leads(m, ls, owner, host, e)
    ensures Ordered(Firsts(s), EntryLeq) && Distinct(Firsts(s))
  {
    FirstsDistinct(s);
    FirstsOrdered(s);
    forall e ensures e in Firsts(s) <==> Leads(m, ls, owner, host, e) {
      FirstIsLeader(m, ls, owner, host, s, e);
    }
  }

  lemma FirstIsLeader(m: Model, ls: seq<nat>, owner: nat, host: string, s: seq<Entry>, e: Entry)
    requires WellAttached(m) && Hostful(m, ls) && ValidNames(m) && Arranged(m, ls, owner, host, s)
    ensures e in Firsts(s) <==> Leads(m, ls, owner, host, e)
  {
    FirstsIn(s);
    if e in s {
      var k :| 0 <= k < |s| && s[k] == e;
      FirstsAt(s, k);
      FirstLeads(m, ls, owner, host, s, k);
    }
  }

  lemma LeqReflexive(e: Entry)
    ensures EntryLeq(e, e)
  {
    EntryLeqIsTotalPreorder();
  }

  // ---- names of routes ----

  lemma IndexesInjective(rule: nat, m: nat, rule': nat, m': nat)
    requires Decimal(rule) + ['/'] + Decimal(m) == Decimal(rule') + ['/'] + Decimal(m')
    ensures rule == rule' && m == m'
  {
    SeparatorSplits('/', Decimal(rule), Decimal(m), Decimal(rule'), Decimal(m'));
    DecimalInjective(rule, rule');
    DecimalInjective(m, m');
  }

  lemma RouteNameParts(k: RouteKey, rule: nat, m: nat)
    ensures RouteName(k, rule, m) == k.kind + ['/'] + (k.ns + ['/'] + (k.name + ['/'] + (Decimal(rule) + ['/'] + Decimal(m))))
  {
  }

  lemma RouteNameInjective(k: RouteKey, rule: nat, m: nat, k': RouteKey, rule': nat, m': nat)
    requires '/' !in k.kind && '/' !in k.ns && '/' !in k.name && '/' !in k'.kind && '/' !in k'.ns && '/' !in k'.name
    requires RouteName(k, rule, m) == RouteName(k', rule', m')
    ensures k == k' && rule == rule' && m == m'
  {
    RouteNameParts(k, rule, m);
    RouteNameParts(k', rule', m');
    var d, d' := Decimal(rule) + ['/'] + Decimal(m), Decimal(rule') + ['/'] + Decimal(m');
    SeparatorSplits('/', k.kind, k.ns + ['/'] + (k.name + ['/'] + d), k'.kind, k'.ns + ['/'] + (k'.name + ['/'] + d'));
    SeparatorSplits('/', k.ns, k.name + ['/'] + d, k'.ns, k'.name + ['/'] + d');
    SeparatorSplits('/', k.name, d, k'.name, d');
    IndexesInjective(rule, m, rule', m');
  }

  // ---- the order of ties ----

  /** Two orders that give the same routes put the entries that count in one order. */
  lemma SameRoutesSameFirsts(m: Model, ls: seq<nat>, owner: nat, host: string, s: seq<Entry>, t: seq<Entry>)
    requires WellAttached(m) && Hostful(m, ls) && ValidNames(m)
    requires Arranged(m, ls, owner, host, s) && Arranged(m, ls, owner, host, t) && RoutesOf(s) == RoutesOf(t)
    ensures Firsts(s) == Firsts(t)
  {
    FirstsLead(m, ls, owner, host, s);
    FirstsLead(m, ls, owner, host, t);
    RoutesOfFirsts(s, Emitted);
    RoutesOfFirsts(t, Emitted);
    var f, g := Firsts(s), Firsts(t);
    assert |f| == |Mapped(f, Emitted)| == |Mapped(g, Emitted)| == |g|;
    forall k | 0 <= k < |f| ensures f[k] == g[k] {
      assert Mapped(f, Emitted)[k] == Mapped(g, Emitted)[k];
      assert f[k] in f && g[k] in g;
      SameNameSameLeader(m, ls, owner, host, f[k], g[k]);
    }
  }

  lemma SameNameSameLeader(m: Model, ls: seq<nat>, owner: nat, host: string, a: Entry, b: Entry)
    requires WellAttached(m) && Hostful(m, ls) && ValidNames(m)
    requires Leads(m, ls, owner, host, a) && Leads(m, ls, owner, host, b) && Emitted(a).name == Emitted(b).name
    ensures a == b
  {
    EmittedName(m, ls, a);
    EmittedName(m, ls, b);
    RouteNameInjective(a.route.route.key, a.rule, a.match_, b.route.route.key, b.rule, b.match_);
    SameKeyStrict(m, ls, owner, host, a, b);
  }

  lemma EmittedName(m: Model, ls: seq<nat>, e: Entry)
    requires WellAttached(m) && IsEntry(m, ls, e)
    ensures Emitted(e).name == RouteName(e.route.route.key, e.rule, e.match_)
  {
    assert RouteWithin(e.route, m.listeners);
  }

  /** The list of routes leaves one order. */
  lemma OneOrder(m: Model, ls: seq<nat>, owner: nat, host: string, s: seq<Entry>, t: seq<Entry>)
    requires WellAttached(m) && Hostful(m, ls)
    requires InPrecedence(m, ls, owner, host, s) && InPrecedence(m, ls, owner, host, t)
    ensures s == t
  {
    var leq := (a: Entry, b: Entry) => ComesFirst(m.routes, a, b);
    forall a, b | a in s && b in s && leq(a, b) && leq(b, a) ensures a == b {
      TiedApart(m, ls, owner, host, a, b);
    }
    OrderedUnique(s, t, leq);
  }

  /** Entries that tie are of different routes. */
  lemma TiedApart(m: Model, ls: seq<nat>, owner: nat, host: string, a: Entry, b: Entry)
    requires WellAttached(m) && Hostful(m, ls)
    requires Carried(m, ls, owner, host, a) && Carried(m, ls, owner, host, b) && EntryLeq(a, b) && EntryLeq(b, a)
    ensures Place(m.routes, a.route) == Place(m.routes, b.route) ==> a == b
  {
    TiedOnOneHost(m, ls, owner, host, a, b);
    TiesAlike(a, b);
    if Place(m.routes, a.route) == Place(m.routes, b.route) {
      PlaceInjective(m.routes, a.route, b.route);
    }
  }

  // ---- one list, one configuration ----

  lemma OneVirtualHost(m: Model, ls: seq<nat>, v: E.VirtualHost, w: E.VirtualHost)
    requires WellAttached(m) && Hostful(m, ls) && DistinctHosts(m, ls)
    requires IsVirtualHost(m, ls, v) && IsVirtualHost(m, ls, w) && v.domain == w.domain
    ensures v == w
  {
    var i, s :| Owns(m, ls, v.domain, i) && InPrecedence(m, ls, i, v.domain, s) && v.routes == RoutesOf(s);
    var j, t :| Owns(m, ls, w.domain, j) && InPrecedence(m, ls, j, w.domain, t) && w.routes == RoutesOf(t);
    OwnerUnique(m, ls, v.domain, i, j);
    OneOrder(m, ls, i, v.domain, s, t);
  }

  /** Whatever order maps are walked in, a model has one route configuration. */
  lemma ConfigurationUnique(m: Model, ls: seq<nat>, c: E.RouteConfiguration, d: E.RouteConfiguration)
    requires WellAttached(m) && Hostful(m, ls) && DistinctHosts(m, ls)
    requires IsRouteConfiguration(m, ls, c) && IsRouteConfiguration(m, ls, d)
    ensures c.virtualHosts == d.virtualHosts
  {
    SameDomains(m, m, ls, c, d);
    forall k | 0 <= k < |c.virtualHosts| ensures c.virtualHosts[k] == d.virtualHosts[k] {
      OneVirtualHost(m, ls, c.virtualHosts[k], d.virtualHosts[k]);
    }
  }

  // ---- two lists of the same routes ----

  ghost predicate SameRoutes(m: Model, n: Model) {
    m.listeners == n.listeners && forall r :: r in m.routes <==> r in n.routes
  }

  lemma SameDomains(m: Model, n: Model, ls: seq<nat>, c: E.RouteConfiguration, d: E.RouteConfiguration)
    requires SameRoutes(m, n) && IsRouteConfiguration(m, ls, c) && IsRouteConfiguration(n, ls, d)
    ensures |c.virtualHosts| == |d.virtualHosts|
    ensures forall k :: 0 <= k < |c.virtualHosts| ==> c.virtualHosts[k].domain == d.virtualHosts[k].domain
    ensures forall k :: 0 <= k < |c.virtualHosts| ==> IsVirtualHost(m, ls, c.virtualHosts[k]) && IsVirtualHost(n, ls, d.virtualHosts[k])
  {
    forall e ensures IsEntry(m, ls, e) <==> IsEntry(n, ls, e) {
    }
    StringLeqIsTotalOrder();
    OrderedUnique(E.Domains(c.virtualHosts), E.Domains(d.virtualHosts), StringLeq);
    forall k | 0 <= k < |c.virtualHosts| ensures c.virtualHosts[k].domain == d.virtualHosts[k].domain {
      assert E.Domains(c.virtualHosts)[k] == E.Domains(d.virtualHosts)[k];
    }
  }

  lemma SameArrangement(m: Model, n: Model, ls: seq<nat>, i: nat, host: string, t: seq<Entry>)
    requires SameRoutes(m, n)
    ensures Arranged(n, ls, i, host, t) <==> Arranged(m, ls, i, host, t)
  {
    assert forall e :: Carried(n, ls, i, host, e) <==> Carried(m, ls, i, host, e);
  }

  lemma SameOwner(m: Model, n: Model, ls: seq<nat>, host: string, j: nat)
    requires SameRoutes(m, n) && Owns(n, ls, host, j)
    ensures Owns(m, ls, host, j)
  {
  }

  /** Two entries that come first of their match and rule on a virtual host, and tie. */
  ghost predicate LeadingTwins(m: Model, ls: seq<nat>, owner: nat, host: string, a: Entry, b: Entry) {
    Leads(m, ls, owner, host, a) && Leads(m, ls, owner, host, b) && TwinEntries(a, b)
  }

  /** Both lists put the two routes the same way round. */
  predicate SameWayRound(m: Model, n: Model, r: AttachedRoute, s: AttachedRoute) {
    Place(m.routes, r) <= Place(m.routes, s) <==> Place(n.routes, r) <= Place(n.routes, s)
  }

  ghost predicate SameOnHost(m: Model, n: Model, ls: seq<nat>, owner: nat, host: string) {
    forall a, b :: LeadingTwins(m, ls, owner, host, a, b) ==> SameWayRound(m, n, a.route, b.route)
  }

  ghost predicate SameTwinOrder(m: Model, n: Model, ls: seq<nat>) {
    forall f, i :: IsEntry(m, ls, f) && Owns(m, ls, f.host, i) ==> SameOnHost(m, n, ls, i, f.host)
  }

  /** The firsts of a virtual host, tied ones in the order of the list. */
  lemma FirstsInRouteOrder(routes: seq<AttachedRoute>, s: seq<Entry>)
    requires Distinct(s) && TiesInRouteOrder(routes, s)
    ensures TiesInRouteOrder(routes, Firsts(s))
  {
    var g := Firsts(s);
    forall i, j | 0 <= i < j < |g| && EntryLeq(g[j], g[i]) ensures Place(routes, g[i].route) <= Place(routes, g[j].route) {
      FirstsBefore(s, g[i], g[j]);
      assert Before(g, g[i], g[j]);
      var k, l :| 0 <= k < l < |s| && s[k] == g[i] && s[l] == g[j];
    }
  }

  /** On one virtual host both lists give the same routes exactly when they put the
      entries that count and tie the same way round. */
  lemma HostSeesOrder(m: Model, n: Model, ls: seq<nat>, i: nat, host: string, s: seq<Entry>, t: seq<Entry>)
    requires WellAttached(m) && Hostful(m, ls) && ValidNames(m) && SameRoutes(m, n)
    requires InPrecedence(m, ls, i, host, s) && InPrecedence(n, ls, i, host, t)
    ensures RoutesOf(s) == RoutesOf(t) <==> SameOnHost(m, n, ls, i, host)
  {
    SameArrangement(m, n, ls, i, host, t);
    FirstsLead(m, ls, i, host, s);
    FirstsLead(m, ls, i, host, t);
    FirstsInRouteOrder(m.routes, s);
    FirstsInRouteOrder(n.routes, t);
    if RoutesOf(s) == RoutesOf(t) {
      SameRoutesSameFirsts(m, ls, i, host, s, t);
      forall a, b | LeadingTwins(m, ls, i, host, a, b) ensures SameWayRound(m, n, a.route, b.route) {
        FirstsShowOrder(m, n, ls, i, host, Firsts(s), a, b);
      }
    }
    if SameOnHost(m, n, ls, i, host) {
      SameWaySameFirsts(m, n, ls, i, host, Firsts(s), Firsts(t));
      RoutesOfFirsts(s, Emitted);
      RoutesOfFirsts(t, Emitted);
    }
  }

  lemma FirstsShowOrder(m: Model, n: Model, ls: seq<nat>, i: nat, host: string, g: seq<Entry>, a: Entry, b: Entry)
    requires WellAttached(m) && Hostful(m, ls) && ValidNames(m) && SameRoutes(m, n)
    requires TiesInRouteOrder(m.routes, g) && TiesInRouteOrder(n.routes, g) && forall e :: e in g <==> Leads(m, ls, i, host, e)
    requires LeadingTwins(m, ls, i, host, a, b)
    ensures SameWayRound(m, n, a.route, b.route)
  {
    CarriedTies(m, ls, i, host, a, b);
    TiedApart(m, ls, i, host, a, b);
    assert a in g && b in g;
    var j :| 0 <= j < |g| && g[j] == a;
    var k :| 0 <= k < |g| && g[k] == b;
    if a != b {
      if Place(n.routes, a.route) == Place(n.routes, b.route) { PlaceInjective(n.routes, a.route, b.route); }
    }
  }

  lemma SameWaySameFirsts(m: Model, n: Model, ls: seq<nat>, i: nat, host: string, g: seq<Entry>, h: seq<Entry>)
    requires WellAttached(m) && Hostful(m, ls) && ValidNames(m) && SameOnHost(m, n, ls, i, host)
    requires Ordered(g, EntryLeq) && Distinct(g) && TiesInRouteOrder(m.routes, g) && forall e :: e in g <==> Leads(m, ls, i, host, e)
    requires Ordered(h, EntryLeq) && Distinct(h) && TiesInRouteOrder(n.routes, h) && forall e :: e in h <==> Leads(m, ls, i, host, e)
    ensures g == h
  {
    var leq := (a: Entry, b: Entry) => ComesFirst(m.routes, a, b);
    forall j, k | 0 <= j < k < |h| ensures leq(h[j], h[k]) {
      assert h[j] in h && h[k] in h;
      if EntryLeq(h[k], h[j]) {
        CarriedTies(m, ls, i, host, h[j], h[k]);
        assert LeadingTwins(m, ls, i, host, h[j], h[k]);
      }
    }
    forall a, b | a in g && b in g && leq(a, b) && leq(b, a) ensures a == b {
      TiedApart(m, ls, i, host, a, b);
    }
    OrderedUnique(g, h, leq);
  }

  lemma VirtualHostSeesOrder(m: Model, n: Model, ls: seq<nat>, v: E.VirtualHost, w: E.VirtualHost, i: nat)
    requires WellAttached(m) && Hostful(m, ls) && DistinctHosts(m, ls) && ValidNames(m) && SameRoutes(m, n)
    requires IsVirtualHost(m, ls, v) && IsVirtualHost(n, ls, w) && v.domain == w.domain && Owns(m, ls, v.domain, i)
    ensures v == w <==> SameOnHost(m, n, ls, i, v.domain)
  {
    var j, s :| Owns(m, ls, v.domain, j) && InPrecedence(m, ls, j, v.domain, s) && v.routes == RoutesOf(s);
    var k, t :| Owns(n, ls, w.domain, k) && InPrecedence(n, ls, k, w.domain, t) && w.routes == RoutesOf(t);
    SameOwner(m, n, ls, v.domain, k);
    OwnerUnique(m, ls, v.domain, i, j);
    OwnerUnique(m, ls, v.domain, i, k);
    HostSeesOrder(m, n, ls, i, v.domain, s, t);
  }

  lemma HostAmong(m: Model, ls: seq<nat>, c: E.RouteConfiguration, f: Entry) returns (k: nat)
    requires IsRouteConfiguration(m, ls, c) && IsEntry(m, ls, f)
    ensures k < |c.virtualHosts| && c.virtualHosts[k].domain == f.host && IsVirtualHost(m, ls, c.virtualHosts[k])
  {
    var vhs := c.virtualHosts;
    assert f.host in E.Domains(vhs);
    k :| 0 <= k < |vhs| && E.Domains(vhs)[k] == f.host;
    assert vhs[k] in vhs;
  }

  /** Exactly when the order of the list is seen: two lists of the same routes give one
      configuration if and only if, on every virtual host, they put the entries that
      count and tie the same way round. */
  lemma RelistingSeen(m: Model, n: Model, ls: seq<nat>, c: E.RouteConfiguration, d: E.RouteConfiguration)
    requires WellAttached(m) && Hostful(m, ls) && DistinctHosts(m, ls) && ValidNames(m) && SameRoutes(m, n)
    requires IsRouteConfiguration(m, ls, c) && IsRouteConfiguration(n, ls, d)
    ensures c.virtualHosts == d.virtualHosts <==> SameTwinOrder(m, n, ls)
  {
    SameDomains(m, n, ls, c, d);
    if c.virtualHosts == d.virtualHosts {
      forall f, i | IsEntry(m, ls, f) && Owns(m, ls, f.host, i) ensures SameOnHost(m, n, ls, i, f.host) {
        var k := HostAmong(m, ls, c, f);
        VirtualHostSeesOrder(m, n, ls, c.virtualHosts[k], d.virtualHosts[k], i);
      }
    }
    if SameTwinOrder(m, n, ls) {
      forall k | 0 <= k < |c.virtualHosts| ensures c.virtualHosts[k] == d.virtualHosts[k] {
        var f, i := HostOwner(m, ls, c, k);
        VirtualHostSeesOrder(m, n, ls, c.virtualHosts[k], d.virtualHosts[k], i);
      }
    }
  }

  lemma HostOwner(m: Model, ls: seq<nat>, c: E.RouteConfiguration, k: nat) returns (f: Entry, i: nat)
    requires IsRouteConfiguration(m, ls, c) && k < |c.virtualHosts|
    ensures IsEntry(m, ls, f) && f.host == c.virtualHosts[k].domain && Owns(m, ls, f.host, i)
  {
    assert E.Domains(c.virtualHosts)[k] == c.virtualHosts[k].domain;
    assert c.virtualHosts[k].domain in E.Domains(c.virtualHosts);
    f :| IsEntry(m, ls, f) && f.host == c.virtualHosts[k].domain;
    assert c.virtualHosts[k] in c.virtualHosts;
    i :| Owns(m, ls, f.host, i);
  }

  /** Both lists put any two routes on a listener that nothing but their kind tells apart
      the same way round. */
  ghost predicate KeepsTwins(m: Model, n: Model, i: nat) {
    forall r, s, h, k :: r in m.routes && s in m.routes && HostOf(r, i, h) && HostOf(s, i, k) && SameAge(r.route, s.route) ==>
      SameWayRound(m, n, r, s)
  }

  lemma KeptTwinsAreEnough(m: Model, n: Model, ls: seq<nat>)
    requires forall i :: i in ls ==> KeepsTwins(m, n, i)
    ensures SameTwinOrder(m, n, ls)
  {
    forall f, i, a, b | IsEntry(m, ls, f) && Owns(m, ls, f.host, i) && LeadingTwins(m, ls, i, f.host, a, b)
      ensures SameWayRound(m, n, a.route, b.route)
    {
      assert HostOf(a.route, i, a.host) && HostOf(b.route, i, b.host);
    }
  }

  /** Routes of two kinds that share a namespace, a name and a creation second, on one listener. */
  ghost predicate TwinFree(m: Model, i: nat) {
    forall r, s, h, k :: r in m.routes && s in m.routes && HostOf(r, i, h) && HostOf(s, i, k) && SameAge(r.route, s.route) ==> r == s
  }
}
