/** The route configuration of an HTTP or HTTPS port. */
module RouteConfig {
  import opened Text
  import opened Sorting
  import opened Hostnames
  import opened GatewayModel
  import opened Attachment
  import opened Backends
  import opened Paths
  import opened RouteActions
  import opened Entries
  import opened Owners
  import E = Envoy

  /** The listeners of one port, all of a protocol that has hostnames. */
  ghost predicate Hostful(m: Model, ls: seq<nat>) {
    forall i :: i in ls ==> i < |m.listeners| && HasHostnames(m.listeners[i].spec.protocol)
  }

  ghost predicate ListedModel(m: Model, dir: map<string, Cluster>) {
    forall r, k :: r in m.routes && 0 <= k < |r.backends| ==> Listed(r.backends[k], dir)
  }

  // ---- one virtual host ----

  datatype RuleKey = RuleKey(key: RouteKey, rule: nat, match_: nat)

  function RuleKeyOf(e: Entry): RuleKey {
    RuleKey(e.route.route.key, e.rule, e.match_)
  }

  function RuleKeys(s: seq<Entry>): set<RuleKey> {
    set e | e in s :: RuleKeyOf(e)
  }

  ghost function Emitted(e: Entry): E.Route {
    if InRoute(e.route, e.rule, e.match_) then EnvoyRouteOf(e.route, e.rule, e.match_)
    else E.Route("", RouteMatchOf(MatchOf(e)), E.DirectResponse(500), NO_EDITS, NO_EDITS)
  }

  /** The routes of a virtual host: each match of each rule once, where it first appears. */
  ghost function RoutesOf(s: seq<Entry>): seq<E.Route> {
    FirstOfEach(s, Emitted)
  }

  ghost function FirstOfEach(s: seq<Entry>, emit: Entry -> E.Route): seq<E.Route> {
    if s == [] then []
    else
      var n := |s| - 1;
      FirstOfEach(s[..n], emit) + if RuleKeyOf(s[n]) in RuleKeys(s[..n]) then [] else [emit(s[n])]
  }

  /** The entries a virtual host carries: those of its owner on every host that covers its own. */
  ghost predicate Carried(m: Model, ls: seq<nat>, owner: nat, host: string, e: Entry) {
    IsEntry(m, ls, e) && e.listener == owner && HostCovers(e.host, host)
  }

  /** What a virtual host carries, in an order precedence allows. */
  ghost predicate Arranged(m: Model, ls: seq<nat>, owner: nat, host: string, s: seq<Entry>) {
    Ordered(s, EntryLeq) && Distinct(s) && forall e :: e in s <==> Carried(m, ls, owner, host, e)
  }

  /** Entries that tie come in the order their routes are listed in. */
  ghost predicate TiesInRouteOrder(routes: seq<AttachedRoute>, s: seq<Entry>) {
    forall i, j :: 0 <= i < j < |s| && EntryLeq(s[j], s[i]) ==> Place(routes, s[i].route) <= Place(routes, s[j].route)
  }

  /** An entry comes before another, or is tied with it and its route listed no later. */
  predicate ComesFirst(routes: seq<AttachedRoute>, e: Entry, f: Entry) {
    EntryLeq(e, f) && (EntryLeq(f, e) ==> Place(routes, e.route) <= Place(routes, f.route))
  }

  /** What a virtual host carries, in the one order the sort leaves it in. */
  ghost predicate InPrecedence(m: Model, ls: seq<nat>, owner: nat, host: string, s: seq<Entry>) {
    Arranged(m, ls, owner, host, s) && TiesInRouteOrder(m.routes, s)
  }

  ghost predicate IsVirtualHost(m: Model, ls: seq<nat>, vh: E.VirtualHost) {
    exists owner, s :: Owns(m, ls, vh.domain, owner) && InPrecedence(m, ls, owner, vh.domain, s) && vh.routes == RoutesOf(s)
  }

  ghost function RoutesClusters(routes: seq<E.Route>): set<string> {
    set r, n | r in routes && n in ActionClusters(r.action) :: n
  }

  ghost predicate ByHost(m: Model, ls: seq<nat>, byHost: map<string, seq<Entry>>) {
    (forall e :: IsEntry(m, ls, e) <==> e.host in byHost && e in byHost[e.host]) &&
    (forall h :: h in byHost ==> byHost[h] != [] && Distinct(byHost[h]) && forall e :: e in byHost[h] ==> e.host == h) &&
    AllInRouteOrder(m.routes, byHost)
  }

  /** On each host the entries come in the order of their routes. */
  ghost predicate HostwiseInOrder(routes: seq<AttachedRoute>, s: seq<Entry>) {
    forall i, j :: 0 <= i < j < |s| && s[i].host == s[j].host ==> Place(routes, s[i].route) <= Place(routes, s[j].route)
  }

  /** The part of a host's entries that belongs to the owner. */
  method AppendOwned(entries: seq<Entry>, more: seq<Entry>, owner: Option<nat>, ghost routes: seq<AttachedRoute>) returns (out: seq<Entry>)
    requires Distinct(entries) && Distinct(more) && HostwiseInOrder(routes, entries) && InRouteOrder(routes, more)
    requires forall e, f :: e in entries && f in more ==> e.host != f.host
    ensures Distinct(out) && HostwiseInOrder(routes, out)
    ensures forall e :: e in out <==> e in entries || (e in more && Some(e.listener) == owner)
  {
    out := entries;
    for j := 0 to |more|
      invariant Distinct(out) && HostwiseInOrder(routes, out)
      invariant forall e :: e in out <==> e in entries || (e in more[..j] && Some(e.listener) == owner)
    {
      assert more[..j + 1] == more[..j] + [more[j]];
      if Some(more[j].listener) == owner {
        AppendHostwise(routes, entries, more, j, out);
        out := out + [more[j]];
      }
    }
    assert more[..|more|] == more;
  }

  lemma AppendHostwise(routes: seq<AttachedRoute>, entries: seq<Entry>, more: seq<Entry>, j: nat, out: seq<Entry>)
    requires Distinct(more) && InRouteOrder(routes, more) && Distinct(out) && HostwiseInOrder(routes, out) && j < |more|
    requires forall e, f :: e in entries && f in more ==> e.host != f.host
    requires forall e :: e in out ==> e in entries || e in more[..j]
    ensures Distinct(out + [more[j]]) && HostwiseInOrder(routes, out + [more[j]])
  {
    assert more[j] in more;
    forall i | 0 <= i < |out|
      ensures out[i] != more[j] && (out[i].host == more[j].host ==> Place(routes, out[i].route) <= Place(routes, more[j].route))
    {
      assert out[i] in out;
      if out[i] in more[..j] {
        var k :| 0 <= k < j && more[..j][k] == out[i];
        assert more[k] == out[i];
      }
    }
  }

  method CarriedEntries(m: Model, ls: seq<nat>, hosts: seq<string>, byHost: map<string, seq<Entry>>, host: string, owner: Option<nat>)
    returns (entries: seq<Entry>)
    requires ByHost(m, ls, byHost) && Distinct(hosts) && forall h :: h in hosts <==> h in byHost
    ensures Distinct(entries) && HostwiseInOrder(m.routes, entries)
    ensures owner.Some? ==> forall e :: e in entries <==> Carried(m, ls, owner.value, host, e)
  {
    entries := [];
    for k := 0 to |hosts|
      invariant Distinct(entries) && HostwiseInOrder(m.routes, entries)
      invariant forall e :: e in entries <==>
        e.host in hosts[..k] && HostCovers(e.host, host) && e in byHost[e.host] && Some(e.listener) == owner
    {
      assert hosts[..k + 1] == hosts[..k] + [hosts[k]];
      if !HostCovers(hosts[k], host) {
        continue;
      }
      assert hosts[k] !in hosts[..k] && hosts[k] in hosts;
      entries := AppendOwned(entries, byHost[hosts[k]], owner, m.routes);
    }
    assert hosts[..|hosts|] == hosts;
  }

  /** Carried entries that tie are on one hostname. */
  lemma TiedOnOneHost(m: Model, ls: seq<nat>, owner: nat, host: string, a: Entry, b: Entry)
    requires WellAttached(m) && Hostful(m, ls)
    requires Carried(m, ls, owner, host, a) && Carried(m, ls, owner, host, b) && EntryLeq(a, b) && EntryLeq(b, a)
    ensures a.host == b.host
  {
    EntryWithin(m, ls, a);
    EntryWithin(m, ls, b);
    SpecificityDecides(a.host, b.host, host);
    TiesAlike(a, b);
  }

  /** Sorting leaves entries that tie in the order of their routes. */
  lemma SortedInRouteOrder(m: Model, ls: seq<nat>, owner: nat, host: string, entries: seq<Entry>, sorted: seq<Entry>)
    requires WellAttached(m) && Hostful(m, ls) && Distinct(entries) && HostwiseInOrder(m.routes, entries)
    requires Arranged(m, ls, owner, host, sorted) && Stable(entries, sorted, EntryLeq)
    ensures InPrecedence(m, ls, owner, host, sorted)
  {
    EntryLeqIsTotalPreorder();
    forall i, j | 0 <= i < j < |sorted| && EntryLeq(sorted[j], sorted[i])
      ensures Place(m.routes, sorted[i].route) <= Place(m.routes, sorted[j].route)
    {
      assert sorted[i] in sorted && sorted[j] in sorted;
      TiedOnOneHost(m, ls, owner, host, sorted[i], sorted[j]);
      StableBefore(entries, sorted, EntryLeq, i, j);
    }
  }

  method VirtualHostFor(m: Model, ls: seq<nat>, hosts: seq<string>, byHost: map<string, seq<Entry>>, host: string,
                        clusters: map<string, Cluster>, ghost dir: map<string, Cluster>)
    returns (vh: E.VirtualHost, out: map<string, Cluster>)
    requires WellAttached(m) && Hostful(m, ls)
    requires Directory(dir) && ListedModel(m, dir) && Gathered(clusters, dir)
    requires ByHost(m, ls, byHost) && Distinct(hosts) && forall h :: h in hosts <==> h in byHost
    requires host in hosts
    ensures vh.domain == host && IsVirtualHost(m, ls, vh)
    ensures Gathered(out, dir) && out.Keys == clusters.Keys + RoutesClusters(vh.routes)
  {
    var owner := OwningListener(m, ls, host);
    HostIsOwned(m, ls, byHost, host);
    var entries := CarriedEntries(m, ls, hosts, byHost, host, owner);
    EntryLeqIsTotalPreorder();
    var sorted := SortStable(entries, EntryLeq);
    PermutationFacts(entries, sorted);

    var routes: seq<E.Route>;
    routes, out := EmitRoutes(m, ls, sorted, clusters, dir);
    vh := E.VirtualHost(host, routes);
    SortedInRouteOrder(m, ls, owner.value, host, entries, sorted);
  }

  lemma HostIsOwned(m: Model, ls: seq<nat>, byHost: map<string, seq<Entry>>, host: string)
    requires WellAttached(m) && Hostful(m, ls) && ByHost(m, ls, byHost) && host in byHost
    ensures exists i :: i in ls && HostCovers(OwnHost(m, i), host)
  {
    var e := byHost[host][0];
    assert e in byHost[host];
    EntryWithin(m, ls, e);
  }

  /** Every entry's host is a pattern covered by its listener's. */
  lemma EntryWithin(m: Model, ls: seq<nat>, e: Entry)
    requires WellAttached(m) && Hostful(m, ls) && IsEntry(m, ls, e)
    ensures Pattern(e.host) && HostCovers(OwnHost(m, e.listener), e.host)
    ensures InRoute(e.route, e.rule, e.match_)
  {
    assert RouteWithin(e.route, m.listeners);
    var p :| p in e.route.parents && HostAt(p, e.listener, e.host);
    assert ParentWithin(p, m.listeners);
  }

  lemma NextEntry(s: seq<Entry>, k: nat)
    requires k < |s|
    ensures RoutesOf(s[..k + 1]) == RoutesOf(s[..k]) + if RuleKeyOf(s[k]) in RuleKeys(s[..k]) then [] else [Emitted(s[k])]
    ensures RuleKeys(s[..k + 1]) == RuleKeys(s[..k]) + {RuleKeyOf(s[k])}
  {
    assert s[..k + 1] == s[..k] + [s[k]] && s[..k + 1][..k] == s[..k];
  }

  method EmitEntry(m: Model, ls: seq<nat>, e: Entry, clusters: map<string, Cluster>, ghost dir: map<string, Cluster>)
    returns (route: E.Route, out: map<string, Cluster>)
    requires WellAttached(m) && Hostful(m, ls) && IsEntry(m, ls, e)
    requires Directory(dir) && ListedModel(m, dir) && Gathered(clusters, dir)
    ensures route == Emitted(e)
    ensures Gathered(out, dir) && out.Keys == clusters.Keys + ActionClusters(route.action)
  {
    EntryWithin(m, ls, e);
    route, out := EnvoyRouteFor(e.route, e.rule, e.match_, clusters, dir);
  }

  /** One entry: emitted, unless a rule's match it repeats came before it. So a
      route on two hostnames, one covering the other, is emitted under the more specific. */
  method EmitNext(m: Model, ls: seq<nat>, e: Entry, routes: seq<E.Route>, added: set<RuleKey>,
                  clusters: map<string, Cluster>, ghost dir: map<string, Cluster>)
    returns (routes': seq<E.Route>, added': set<RuleKey>, out: map<string, Cluster>)
    requires WellAttached(m) && Hostful(m, ls) && IsEntry(m, ls, e)
    requires Directory(dir) && ListedModel(m, dir) && Gathered(clusters, dir)
    ensures routes' == routes + if RuleKeyOf(e) in added then [] else [Emitted(e)]
    ensures added' == added + {RuleKeyOf(e)}
    ensures Gathered(out, dir) && out.Keys + RoutesClusters(routes) == clusters.Keys + RoutesClusters(routes')
    ensures clusters.Keys <= out.Keys
  {
    routes', added', out := routes, added, clusters;
    if RuleKeyOf(e) !in added {
      added' := added + {RuleKeyOf(e)};
      var route;
      route, out := EmitEntry(m, ls, e, clusters, dir);
      ClustersGrow(routes, route);
      routes' := routes + [route];
    }
  }

  method EmitRoutes(m: Model, ls: seq<nat>, sorted: seq<Entry>, clusters: map<string, Cluster>, ghost dir: map<string, Cluster>)
    returns (routes: seq<E.Route>, out: map<string, Cluster>)
    requires WellAttached(m) && Hostful(m, ls) && forall e :: e in sorted ==> IsEntry(m, ls, e)
    requires Directory(dir) && ListedModel(m, dir) && Gathered(clusters, dir)
    ensures routes == RoutesOf(sorted)
    ensures Gathered(out, dir) && out.Keys == clusters.Keys + RoutesClusters(routes)
  {
    routes, out := [], clusters;
    var added: set<RuleKey> := {};
    for k := 0 to |sorted|
      invariant routes == RoutesOf(sorted[..k]) && added == RuleKeys(sorted[..k])
      invariant Gathered(out, dir)
      invariant out.Keys == clusters.Keys + RoutesClusters(routes)
    {
      assert sorted[k] in sorted;
      NextEntry(sorted, k);
      routes, added, out := EmitNext(m, ls, sorted[k], routes, added, out, dir);
    }
    assert sorted[..|sorted|] == sorted;
  }

  lemma ClustersGrow(routes: seq<E.Route>, route: E.Route)
    ensures RoutesClusters(routes + [route]) == RoutesClusters(routes) + ActionClusters(route.action)
  {
    forall n | n in RoutesClusters(routes) + ActionClusters(route.action) ensures n in RoutesClusters(routes + [route]) {
      if n in RoutesClusters(routes) {
        var r :| r in routes && n in ActionClusters(r.action);
        assert r in routes + [route];
      } else {
        assert route in routes + [route];
      }
    }
  }

  // ---- the whole configuration ----

  ghost function ConfigClusters(vhs: seq<E.VirtualHost>): set<string> {
    set vh, n | vh in vhs && n in RoutesClusters(vh.routes) :: n
  }

  /** A virtual host for each host some entry is on, in order, each with the
      entries it has to carry in their order of precedence. */
  ghost predicate IsRouteConfiguration(m: Model, ls: seq<nat>, config: E.RouteConfiguration) {
    var domains := E.Domains(config.virtualHosts);
    Ordered(domains, StringLeq) && Distinct(domains) &&
    (forall d :: d in domains <==> exists e :: IsEntry(m, ls, e) && e.host == d) &&
    (forall vh :: vh in config.virtualHosts ==> IsVirtualHost(m, ls, vh))
  }

  method RouteConfigurationFor(name: string, m: Model, ls: seq<nat>, clusters: map<string, Cluster>, ghost dir: map<string, Cluster>)
    returns (config: E.RouteConfiguration, out: map<string, Cluster>)
    requires WellAttached(m) && Hostful(m, ls)
    requires Directory(dir) && ListedModel(m, dir) && Gathered(clusters, dir)
    ensures config.name == name && IsRouteConfiguration(m, ls, config)
    ensures Gathered(out, dir) && out.Keys == clusters.Keys + ConfigClusters(config.virtualHosts)
  {
    var byHost := GatherEntries(m, ls);
    var keys := Collect(byHost.Keys);
    StringLeqIsTotalOrder();
    var hosts := SortStable(keys, StringLeq);
    PermutationFacts(keys, hosts);

    var vhs: seq<E.VirtualHost> := [];
    out := clusters;
    for k := 0 to |hosts|
      invariant |vhs| == k && forall j :: 0 <= j < k ==> vhs[j].domain == hosts[j] && IsVirtualHost(m, ls, vhs[j])
      invariant Gathered(out, dir) && out.Keys == clusters.Keys + ConfigClusters(vhs)
    {
      var vh;
      vh, out := VirtualHostFor(m, ls, hosts, byHost, hosts[k], out, dir);
      ConfigGrows(vhs, vh);
      vhs := vhs + [vh];
    }
    config := E.RouteConfiguration(name, vhs);
    assert E.Domains(vhs) == hosts;
    forall d ensures d in hosts <==> exists e :: IsEntry(m, ls, e) && e.host == d {
      if d in hosts {
        assert byHost[d][0] in byHost[d];
      }
    }
  }

  lemma ConfigGrows(vhs: seq<E.VirtualHost>, vh: E.VirtualHost)
    ensures ConfigClusters(vhs + [vh]) == ConfigClusters(vhs) + RoutesClusters(vh.routes)
  {
    forall n | n in ConfigClusters(vhs) + RoutesClusters(vh.routes) ensures n in ConfigClusters(vhs + [vh]) {
      if n in ConfigClusters(vhs) {
        var v :| v in vhs && n in RoutesClusters(v.routes);
        assert v in vhs + [vh];
      } else {
        assert vh in vhs + [vh];
      }
    }
  }
}
