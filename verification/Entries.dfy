/** The matches a route configuration serves, and their order of precedence. */
module Entries {
  import opened Text
  import opened Sorting
  import opened Hostnames
  import opened GatewayModel
  import opened Attachment
  import opened Paths

  /** What becomes one Envoy route: a match by its place in a route, and the listener and host it serves. */
  datatype Entry = Entry(route: AttachedRoute, listener: nat, host: string, rule: nat, match_: nat)

  /** What tells entries apart while they are gathered. */
  datatype EntryKey = EntryKey(listener: nat, host: string, key: RouteKey, rule: nat, match_: nat)

  function KeyOf(e: Entry): EntryKey {
    EntryKey(e.listener, e.host, e.route.route.key, e.rule, e.match_)
  }

  predicate InRange(e: Entry) {
    e.rule < |e.route.route.rules| && e.match_ < |e.route.route.rules[e.rule].matches|
  }

  function MatchOf(e: Entry): Match {
    if InRange(e) then e.route.route.rules[e.rule].matches[e.match_] else Match(None, None, [], [])
  }

  // ---- precedence ----

  function PathRank(m: Match): (int, int) {
    var (t, v) := PathOf(m);
    match t
    case Exact => (0, -|v|)
    case RegularExpression => (1, -|v|)
    case PathPrefix => (2, -|TrimSuffix(v, "/")|)
  }

  function MethodRank(m: Match): int {
    if m.method_.Some? then 0 else 1
  }

  function SlashedName(e: Entry): string {
    e.route.route.key.ns + "/" + e.route.route.key.name
  }

  function CompareMatches(a: Match, b: Match): int {
    var (ra, rb) := (PathRank(a), PathRank(b));
    Or(CompareInt(ra.0, rb.0),
    Or(CompareInt(ra.1, rb.1),
    Or(CompareInt(MethodRank(a), MethodRank(b)),
    Or(CompareInt(|b.headers|, |a.headers|),
       CompareInt(|b.query|, |a.query|)))))
  }

  function CompareEntries(a: Entry, b: Entry): int {
    Or(CompareInt(ExactChars(b.host), ExactChars(a.host)),
    Or(CompareInt(|b.host|, |a.host|),
    Or(CompareMatches(MatchOf(a), MatchOf(b)),
    Or(CompareInt(a.route.route.created, b.route.route.created),
    Or(CompareString(SlashedName(a), SlashedName(b)),
    Or(CompareInt(a.rule, b.rule),
       CompareInt(a.match_, b.match_)))))))
  }

  predicate EntryLeq(a: Entry, b: Entry) {
    CompareEntries(a, b) <= 0
  }

  /** Three comparisons of a, b and c that behave like those of a preorder. */
  predicate Chain(ab: int, bc: int, ac: int) {
    ab <= 0 && bc <= 0 ==> ac <= 0 && (ac == 0 ==> ab == 0 && bc == 0)
  }

  lemma StringChain(a: string, b: string, c: string)
    ensures Chain(CompareString(a, b), CompareString(b, c), CompareString(a, c))
  {
    if CompareString(a, b) <= 0 && CompareString(b, c) <= 0 {
      CompareStringTransitive(a, b, c);
      if CompareString(a, c) == 0 {
        CompareStringEqual(a, c);
        CompareStringAntisymmetric(a, b);
      }
    }
  }

  lemma MatchChain(a: Match, b: Match, c: Match)
    ensures Chain(CompareMatches(a, b), CompareMatches(b, c), CompareMatches(a, c))
    ensures CompareMatches(a, b) == -CompareMatches(b, a)
  {
  }

  lemma EntryChain(a: Entry, b: Entry, c: Entry)
    ensures Chain(CompareEntries(a, b), CompareEntries(b, c), CompareEntries(a, c))
  {
    MatchChain(MatchOf(a), MatchOf(b), MatchOf(c));
    StringChain(SlashedName(a), SlashedName(b), SlashedName(c));
  }

  lemma EntryLeqIsTotalPreorder()
    ensures TotalPreorder(EntryLeq)
  {
    forall a, b ensures EntryLeq(a, b) || EntryLeq(b, a) {
      MatchChain(MatchOf(a), MatchOf(b), MatchOf(b));
      CompareStringAntisymmetric(SlashedName(a), SlashedName(b));
    }
    forall a, b, c | EntryLeq(a, b) && EntryLeq(b, c) ensures EntryLeq(a, c) {
      EntryChain(a, b, c);
    }
  }

  /** Routes of one namespace, name and creation second; only their kinds can differ. */
  predicate SameAge(a: Route, b: Route) {
    a.created == b.created && a.key.ns == b.key.ns && a.key.name == b.key.name
  }

  /** Matches precedence does not tell apart. */
  predicate SameRank(a: Match, b: Match) {
    PathRank(a) == PathRank(b) && a.method_.Some? == b.method_.Some? && |a.headers| == |b.headers| && |a.query| == |b.query|
  }

  /** Which entries tie: those equally specific in hostname and match, at one place in
      routes of one age, namespace and name. */
  lemma TiesExact(a: Entry, b: Entry)
    requires '/' !in a.route.route.key.ns && '/' !in b.route.route.key.ns
    ensures EntryLeq(a, b) && EntryLeq(b, a) <==>
            CompareSpecificity(a.host, b.host) == 0 && SameRank(MatchOf(a), MatchOf(b)) && SameAge(a.route.route, b.route.route) &&
            a.rule == b.rule && a.match_ == b.match_
  {
    var x, y := a.route.route.key, b.route.route.key;
    assert CompareString(SlashedName(a), SlashedName(b)) == 0 <==> x.ns == y.ns && x.name == y.name by {
      CompareStringEqual(SlashedName(a), SlashedName(b));
      assert SlashedName(a) == x.ns + ['/'] + x.name && SlashedName(b) == y.ns + ['/'] + y.name;
      if SlashedName(a) == SlashedName(b) { SeparatorSplits('/', x.ns, x.name, y.ns, y.name); }
    }
    CompareStringAntisymmetric(SlashedName(a), SlashedName(b));
    assert CompareMatches(MatchOf(a), MatchOf(b)) == -CompareMatches(MatchOf(b), MatchOf(a)) by {
      MatchChain(MatchOf(a), MatchOf(b), MatchOf(b));
    }
    assert CompareMatches(MatchOf(a), MatchOf(b)) == 0 <==> SameRank(MatchOf(a), MatchOf(b));
  }

  /** Whatever their routes are called, entries that tie are alike in hostname and place. */
  lemma TiesAlike(a: Entry, b: Entry)
    requires EntryLeq(a, b) && EntryLeq(b, a)
    ensures CompareSpecificity(a.host, b.host) == 0 && a.rule == b.rule && a.match_ == b.match_
  {
    CompareStringAntisymmetric(SlashedName(a), SlashedName(b));
    MatchChain(MatchOf(a), MatchOf(b), MatchOf(b));
  }

  // ---- gathering ----

  /** The entry's place exists and its route serves its host on its listener, one of ls. */
  ghost predicate IsEntry(m: Model, ls: seq<nat>, e: Entry) {
    e.route in m.routes && InRange(e) && e.listener in ls && HostOf(e.route, e.listener, e.host)
  }

  ghost predicate HostOf(r: AttachedRoute, i: nat, host: string) {
    exists p :: p in r.parents && HostAt(p, i, host)
  }

  ghost predicate HostAt(p: ParentResult, i: nat, host: string) {
    i in p.hostnames && host in p.hostnames[i]
  }

  datatype Table = Table(byHost: map<string, seq<Entry>>, seen: set<EntryKey>)

  /** The table holds exactly the entries done so far, each once and under its host. */
  ghost predicate Holds(t: Table, done: iset<Entry>) {
    (forall e :: e in done <==> e.host in t.byHost && e in t.byHost[e.host]) &&
    (forall h :: h in t.byHost ==> t.byHost[h] != [] && Distinct(t.byHost[h]) && forall e :: e in t.byHost[h] ==> e.host == h) &&
    (forall e :: e in done ==> KeyOf(e) in t.seen) &&
    (forall k :: k in t.seen ==> exists e :: e in done && KeyOf(e) == k)
  }

  ghost predicate OfModel(m: Model, done: iset<Entry>) {
    forall e :: e in done ==> e.route in m.routes
  }

  /** The entries come in the order their routes are listed in. */
  ghost predicate InRouteOrder(routes: seq<AttachedRoute>, s: seq<Entry>) {
    forall i, j :: 0 <= i < j < |s| ==> Place(routes, s[i].route) <= Place(routes, s[j].route)
  }

  ghost predicate AllInRouteOrder(routes: seq<AttachedRoute>, byHost: map<string, seq<Entry>>) {
    forall h :: h in byHost ==> InRouteOrder(routes, byHost[h])
  }

  /** Nothing done comes later in the list than the route, unless there is nothing of it
      left to do. */
  ghost predicate Current(routes: seq<AttachedRoute>, r: AttachedRoute, all: iset<Entry>, done: iset<Entry>) {
    (forall e :: e in all ==> e.route == r) &&
    (all <= done || forall e :: e in done ==> Place(routes, e.route) <= Place(routes, r))
  }

  method AddEntry(m: Model, t: Table, e: Entry, ghost all: iset<Entry>, ghost done: iset<Entry>) returns (out: Table)
    requires WellAttached(m) && Holds(t, done) && OfModel(m, done) && e.route in m.routes
    requires AllInRouteOrder(m.routes, t.byHost) && Current(m.routes, e.route, all, done) && e in all
    ensures Holds(out, done + iset{e}) && AllInRouteOrder(m.routes, out.byHost)
  {
    if KeyOf(e) in t.seen {
      SeenIsDone(m, t, e, done);
      assert done + iset{e} == done;
      return t;
    }
    AddedHolds(t, e, done);
    AddedInRouteOrder(m.routes, t, e, done);
    var before := if e.host in t.byHost then t.byHost[e.host] else [];
    out := Table(t.byHost[e.host := before + [e]], t.seen + {KeyOf(e)});
  }

  lemma SeenIsDone(m: Model, t: Table, e: Entry, done: iset<Entry>)
    requires WellAttached(m) && Holds(t, done) && OfModel(m, done) && e.route in m.routes && KeyOf(e) in t.seen
    ensures e in done
  {
    var d :| d in done && KeyOf(d) == KeyOf(e);
  }

  function Added(t: Table, e: Entry): Table {
    Table(t.byHost[e.host := (if e.host in t.byHost then t.byHost[e.host] else []) + [e]], t.seen + {KeyOf(e)})
  }

  lemma AddedHolds(t: Table, e: Entry, done: iset<Entry>)
    requires Holds(t, done) && KeyOf(e) !in t.seen
    ensures Holds(Added(t, e), done + iset{e})
  {
    assert e !in done;
  }

  lemma AddedInRouteOrder(routes: seq<AttachedRoute>, t: Table, e: Entry, done: iset<Entry>)
    requires Holds(t, done) && AllInRouteOrder(routes, t.byHost)
    requires forall d :: d in done ==> Place(routes, d.route) <= Place(routes, e.route)
    ensures AllInRouteOrder(routes, Added(t, e).byHost)
  {
    AppendInRouteOrder(routes, if e.host in t.byHost then t.byHost[e.host] else [], e, done);
  }

  lemma AppendInRouteOrder(routes: seq<AttachedRoute>, before: seq<Entry>, e: Entry, done: iset<Entry>)
    requires InRouteOrder(routes, before) && forall d :: d in before ==> d in done
    requires forall d :: d in done ==> Place(routes, d.route) <= Place(routes, e.route)
    ensures InRouteOrder(routes, before + [e])
  {
    assert forall i :: 0 <= i < |before| ==> before[i] in before;
  }

  /** The entries of a route on one host of one listener, up to a match of a rule. */
  ghost function EntriesBefore(r: AttachedRoute, i: nat, host: string, rule: nat, match_: nat): iset<Entry> {
    iset e: Entry | e.route == r && e.listener == i && e.host == host && InRange(e) &&
      (e.rule < rule || (e.rule == rule && e.match_ < match_))
  }

  ghost function EntriesOn(r: AttachedRoute, i: nat, host: string): iset<Entry> {
    EntriesBefore(r, i, host, |r.route.rules|, 0)
  }

  lemma NextMatch(done: iset<Entry>, r: AttachedRoute, i: nat, host: string, rule: nat, match_: nat)
    requires rule < |r.route.rules| && match_ < |r.route.rules[rule].matches|
    ensures done + EntriesBefore(r, i, host, rule, match_) + iset{Entry(r, i, host, rule, match_)} ==
            done + EntriesBefore(r, i, host, rule, match_ + 1)
  {
  }

  lemma NextRule(r: AttachedRoute, i: nat, host: string, rule: nat)
    requires rule < |r.route.rules|
    ensures EntriesBefore(r, i, host, rule, |r.route.rules[rule].matches|) == EntriesBefore(r, i, host, rule + 1, 0)
    ensures EntriesBefore(r, i, host, 0, 0) == iset{}
  {
  }

  lemma CurrentStays(routes: seq<AttachedRoute>, r: AttachedRoute, all: iset<Entry>, done: iset<Entry>, more: iset<Entry>)
    requires Current(routes, r, all, done) && forall e :: e in more ==> e.route == r
    ensures Current(routes, r, all, done + more)
  {
  }

  method AddRules(m: Model, t: Table, r: AttachedRoute, i: nat, host: string, ghost all: iset<Entry>, ghost done: iset<Entry>) returns (out: Table)
    requires WellAttached(m) && Holds(t, done) && OfModel(m, done) && r in m.routes
    requires AllInRouteOrder(m.routes, t.byHost) && Current(m.routes, r, all, done) && EntriesOn(r, i, host) <= all
    ensures Holds(out, done + EntriesOn(r, i, host)) && AllInRouteOrder(m.routes, out.byHost)
  {
    out := t;
    assert EntriesBefore(r, i, host, 0, 0) == iset{};
    assert done + EntriesBefore(r, i, host, 0, 0) == done;
    for rule := 0 to |r.route.rules|
      invariant Holds(out, done + EntriesBefore(r, i, host, rule, 0)) && AllInRouteOrder(m.routes, out.byHost)
    {
      for match_ := 0 to |r.route.rules[rule].matches|
        invariant Holds(out, done + EntriesBefore(r, i, host, rule, match_)) && AllInRouteOrder(m.routes, out.byHost)
      {
        NextMatch(done, r, i, host, rule, match_);
        CurrentStays(m.routes, r, all, done, EntriesBefore(r, i, host, rule, match_));
        out := AddEntry(m, out, Entry(r, i, host, rule, match_), all, done + EntriesBefore(r, i, host, rule, match_));
      }
      NextRule(r, i, host, rule);
    }
  }

  ghost function EntriesVia(r: AttachedRoute, p: ParentResult, ls: seq<nat>): iset<Entry> {
    iset e: Entry | e.route == r && e.listener in ls && HostAt(p, e.listener, e.host) && InRange(e)
  }

  ghost function EntriesOnHosts(r: AttachedRoute, i: nat, hosts: seq<string>): iset<Entry> {
    iset e: Entry | e.route == r && e.listener == i && e.host in hosts && InRange(e)
  }

  lemma NextHost(done: iset<Entry>, r: AttachedRoute, i: nat, hosts: seq<string>, j: nat)
    requires j < |hosts|
    ensures done + EntriesOnHosts(r, i, hosts[..j]) + EntriesOn(r, i, hosts[j]) == done + EntriesOnHosts(r, i, hosts[..j + 1])
  {
    assert hosts[..j + 1] == hosts[..j] + [hosts[j]];
  }

  lemma NextListener(done: iset<Entry>, r: AttachedRoute, p: ParentResult, ls: seq<nat>, k: nat, hosts: seq<string>)
    requires k < |ls|
    requires hosts == if ls[k] in p.hostnames then p.hostnames[ls[k]] else []
    ensures done + EntriesVia(r, p, ls[..k]) + EntriesOnHosts(r, ls[k], hosts) == done + EntriesVia(r, p, ls[..k + 1])
  {
    assert ls[..k + 1] == ls[..k] + [ls[k]];
  }

  method AddListener(m: Model, t: Table, r: AttachedRoute, i: nat, hosts: seq<string>, ghost all: iset<Entry>, ghost done: iset<Entry>) returns (out: Table)
    requires WellAttached(m) && Holds(t, done) && OfModel(m, done) && r in m.routes
    requires AllInRouteOrder(m.routes, t.byHost) && Current(m.routes, r, all, done) && EntriesOnHosts(r, i, hosts) <= all
    ensures Holds(out, done + EntriesOnHosts(r, i, hosts)) && AllInRouteOrder(m.routes, out.byHost)
  {
    out := t;
    assert done + EntriesOnHosts(r, i, hosts[..0]) == done;
    for j := 0 to |hosts|
      invariant Holds(out, done + EntriesOnHosts(r, i, hosts[..j])) && AllInRouteOrder(m.routes, out.byHost)
    {
      NextHost(done, r, i, hosts, j);
      CurrentStays(m.routes, r, all, done, EntriesOnHosts(r, i, hosts[..j]));
      out := AddRules(m, out, r, i, hosts[j], all, done + EntriesOnHosts(r, i, hosts[..j]));
    }
    assert hosts[..|hosts|] == hosts;
  }

  method AddParent(m: Model, t: Table, r: AttachedRoute, p: ParentResult, ls: seq<nat>, ghost all: iset<Entry>, ghost done: iset<Entry>) returns (out: Table)
    requires WellAttached(m) && Holds(t, done) && OfModel(m, done) && r in m.routes
    requires AllInRouteOrder(m.routes, t.byHost) && Current(m.routes, r, all, done) && EntriesVia(r, p, ls) <= all
    ensures Holds(out, done + EntriesVia(r, p, ls)) && AllInRouteOrder(m.routes, out.byHost)
  {
    out := t;
    assert done + EntriesVia(r, p, ls[..0]) == done;
    for k := 0 to |ls|
      invariant Holds(out, done + EntriesVia(r, p, ls[..k])) && AllInRouteOrder(m.routes, out.byHost)
    {
      var hosts := if ls[k] in p.hostnames then p.hostnames[ls[k]] else [];
      NextListener(done, r, p, ls, k, hosts);
      CurrentStays(m.routes, r, all, done, EntriesVia(r, p, ls[..k]));
      out := AddListener(m, out, r, ls[k], hosts, all, done + EntriesVia(r, p, ls[..k]));
    }
    assert ls[..|ls|] == ls;
  }

  ghost function EntriesOf(r: AttachedRoute, parents: seq<ParentResult>, ls: seq<nat>): iset<Entry> {
    iset e: Entry | e.route == r && e.listener in ls && InRange(e) && exists p :: p in parents && HostAt(p, e.listener, e.host)
  }

  ghost function AllEntries(routes: seq<AttachedRoute>, ls: seq<nat>): iset<Entry> {
    iset e: Entry | e.route in routes && e.listener in ls && InRange(e) && HostOf(e.route, e.listener, e.host)
  }

  lemma NextParent(done: iset<Entry>, r: AttachedRoute, ls: seq<nat>, j: nat)
    requires j < |r.parents|
    ensures done + EntriesOf(r, r.parents[..j], ls) + EntriesVia(r, r.parents[j], ls) == done + EntriesOf(r, r.parents[..j + 1], ls)
  {
    assert r.parents[..j + 1] == r.parents[..j] + [r.parents[j]];
  }

  lemma NextRoute(routes: seq<AttachedRoute>, ls: seq<nat>, k: nat)
    requires k < |routes|
    ensures AllEntries(routes[..k], ls) + EntriesOf(routes[k], routes[k].parents, ls) == AllEntries(routes[..k + 1], ls)
  {
    assert routes[..k + 1] == routes[..k] + [routes[k]];
  }

  method AddRoute(m: Model, t: Table, r: AttachedRoute, ls: seq<nat>, ghost done: iset<Entry>) returns (out: Table)
    requires WellAttached(m) && Holds(t, done) && OfModel(m, done) && r in m.routes
    requires AllInRouteOrder(m.routes, t.byHost) && Current(m.routes, r, EntriesOf(r, r.parents, ls), done)
    ensures Holds(out, done + EntriesOf(r, r.parents, ls)) && AllInRouteOrder(m.routes, out.byHost)
  {
    out := t;
    assert done + EntriesOf(r, r.parents[..0], ls) == done;
    for j := 0 to |r.parents|
      invariant Holds(out, done + EntriesOf(r, r.parents[..j], ls)) && AllInRouteOrder(m.routes, out.byHost)
    {
      NextParent(done, r, ls, j);
      CurrentStays(m.routes, r, EntriesOf(r, r.parents, ls), done, EntriesOf(r, r.parents[..j], ls));
      out := AddParent(m, out, r, r.parents[j], ls, EntriesOf(r, r.parents, ls), done + EntriesOf(r, r.parents[..j], ls));
    }
    assert r.parents[..|r.parents|] == r.parents;
  }

  /** A route listed again adds nothing; any other comes after all before it. */
  lemma RouteIsCurrent(routes: seq<AttachedRoute>, ls: seq<nat>, k: nat)
    requires k < |routes|
    ensures Current(routes, routes[k], EntriesOf(routes[k], routes[k].parents, ls), AllEntries(routes[..k], ls))
  {
    var r := routes[k];
    PlaceFinds(routes, r);
    if r !in routes[..k] {
      var first := Place(routes, r);
      assert k <= first by { assert forall j :: 0 <= j < k ==> routes[j] == routes[..k][j]; }
      forall e | e in AllEntries(routes[..k], ls) ensures Place(routes, e.route) <= k {
        PlaceFinds(routes, e.route);
        var j :| 0 <= j < k && routes[..k][j] == e.route;
        assert routes[j] == e.route;
      }
    }
  }

  method GatherEntries(m: Model, ls: seq<nat>) returns (byHost: map<string, seq<Entry>>)
    requires WellAttached(m)
    ensures forall e :: IsEntry(m, ls, e) <==> e.host in byHost && e in byHost[e.host]
    ensures forall h :: h in byHost ==> byHost[h] != [] && Distinct(byHost[h]) && forall e :: e in byHost[h] ==> e.host == h
    ensures AllInRouteOrder(m.routes, byHost)
  {
    var t := Table(map[], {});
    assert AllEntries(m.routes[..0], ls) == iset{};
    for k := 0 to |m.routes|
      invariant Holds(t, AllEntries(m.routes[..k], ls)) && AllInRouteOrder(m.routes, t.byHost)
    {
      NextRoute(m.routes, ls, k);
      RouteIsCurrent(m.routes, ls, k);
      t := AddRoute(m, t, m.routes[k], ls, AllEntries(m.routes[..k], ls));
    }
    assert m.routes[..|m.routes|] == m.routes;
    assert forall e :: IsEntry(m, ls, e) <==> e in AllEntries(m.routes, ls);
    byHost := t.byHost;
  }
}
