/** The Envoy route emitted for one match of one rule. */
module RouteActions {
  import opened Text
  import opened GatewayModel
  import opened Backends
  import opened Paths
  import opened Rewrites
  import E = Envoy

  // ---- clusters ----

  /** The one cluster each name stands for; no cluster has the invalid name. */
  ghost predicate Directory(dir: map<string, Cluster>) {
    INVALID_CLUSTER !in dir && forall n :: n in dir ==> dir[n].name == n
  }

  ghost predicate Listed(backends: seq<Backend>, dir: map<string, Cluster>) {
    forall b :: b in backends && b.cluster.Some? ==> b.cluster.value.name in dir && dir[b.cluster.value.name] == b.cluster.value
  }

  /** The clusters gathered so far are those of the directory. */
  ghost predicate Gathered(clusters: map<string, Cluster>, dir: map<string, Cluster>) {
    forall n :: n in clusters ==> n in dir && clusters[n] == dir[n]
  }

  function TargetName(b: Backend): string {
    if b.cluster.Some? then b.cluster.value.name else INVALID_CLUSTER
  }

  function TargetsOf(backends: seq<Backend>): seq<E.WeightedTarget> {
    if backends == [] then []
    else
      var b := backends[|backends| - 1];
      TargetsOf(backends[..|backends| - 1]) + if b.weight > 0 then [E.WeightedTarget(TargetName(b), b.weight)] else []
  }

  /** How a rule's traffic is split, or none where nothing can take it. */
  function SpecifierOf(backends: seq<Backend>): Option<E.ClusterSpecifier> {
    var targets := TargetsOf(backends);
    if targets == [] || (|targets| == 1 && targets[0].name == INVALID_CLUSTER) then None
    else if |targets| == 1 then Some(E.SingleCluster(targets[0].name))
    else Some(E.WeightedClusters(targets))
  }

  function TargetNames(targets: seq<E.WeightedTarget>): set<string> {
    set t | t in targets :: t.name
  }

  function SpecifierNames(s: E.ClusterSpecifier): set<string> {
    match s
    case SingleCluster(n) => {n}
    case WeightedClusters(targets) => TargetNames(targets)
  }

  /** The clusters an action refers to that have to exist. */
  function ActionClusters(a: E.Action): set<string> {
    match a
    case Forward(s, _, _) => SpecifierNames(s) - {INVALID_CLUSTER}
    case _ => {}
  }

  method GatherTargets(backends: seq<Backend>, clusters: map<string, Cluster>, ghost dir: map<string, Cluster>)
    returns (targets: seq<E.WeightedTarget>, out: map<string, Cluster>)
    requires Directory(dir) && Listed(backends, dir) && Gathered(clusters, dir)
    ensures targets == TargetsOf(backends)
    ensures Gathered(out, dir) && out.Keys == clusters.Keys + (TargetNames(targets) - {INVALID_CLUSTER})
  {
    targets, out := [], clusters;
    for i := 0 to |backends|
      invariant targets == TargetsOf(backends[..i])
      invariant Gathered(out, dir) && out.Keys == clusters.Keys + (TargetNames(targets) - {INVALID_CLUSTER})
    {
      var b := backends[i];
      assert backends[..i + 1][..i] == backends[..i];
      assert b in backends;
      if b.weight <= 0 {
        continue;
      }
      var name := INVALID_CLUSTER;
      if b.cluster.Some? {
        name := b.cluster.value.name;
        out := out[name := b.cluster.value];
      }
      ghost var before := targets;
      targets := targets + [E.WeightedTarget(name, b.weight)];
      assert TargetNames(targets) == TargetNames(before) + {name};
    }
    assert backends[..|backends|] == backends;
  }

  method RouteActionFor(backends: seq<Backend>, clusters: map<string, Cluster>, ghost dir: map<string, Cluster>)
    returns (s: Option<E.ClusterSpecifier>, out: map<string, Cluster>)
    requires Directory(dir) && Listed(backends, dir) && Gathered(clusters, dir)
    ensures s == SpecifierOf(backends)
    ensures Gathered(out, dir)
    ensures out.Keys == clusters.Keys + if s.Some? then SpecifierNames(s.value) - {INVALID_CLUSTER} else {}
  {
    var targets;
    targets, out := GatherTargets(backends, clusters, dir);
    if |targets| == 0 {
      s := None;
    } else if |targets| == 1 && targets[0].name == INVALID_CLUSTER {
      assert TargetNames(targets) == {INVALID_CLUSTER};
      s := None;
    } else if |targets| == 1 {
      assert TargetNames(targets) == {targets[0].name};
      s := Some(E.SingleCluster(targets[0].name));
    } else {
      s := Some(E.WeightedClusters(targets));
    }
  }

  // ---- every backend keeps its share ----

  /** Where traffic ends up: a cluster, or a 500. */
  type Outcome = Option<string>

  function OutcomeOf(name: string): Outcome {
    if name == INVALID_CLUSTER then None else Some(name)
  }

  function WeightTo(backends: seq<Backend>, o: Outcome): int {
    if backends == [] then 0
    else
      var b := backends[|backends| - 1];
      WeightTo(backends[..|backends| - 1], o) + WeightOf(b, o)
  }

  function TotalWeight(backends: seq<Backend>): int {
    if backends == [] then 0
    else
      var b := backends[|backends| - 1];
      TotalWeight(backends[..|backends| - 1]) + if b.weight > 0 then b.weight else 0
  }

  function TargetWeight(targets: seq<E.WeightedTarget>, o: Outcome): int {
    if targets == [] then 0
    else
      TargetWeight(targets[..|targets| - 1], o) +
      if OutcomeOf(targets[|targets| - 1].name) == o then targets[|targets| - 1].weight else 0
  }

  function TargetTotal(targets: seq<E.WeightedTarget>): int {
    if targets == [] then 0 else TargetTotal(targets[..|targets| - 1]) + targets[|targets| - 1].weight
  }

  /** The share of an outcome under what was emitted, out of ShareTotal. */
  function ShareTo(s: Option<E.ClusterSpecifier>, o: Outcome): int {
    match s
    case None => if o.None? then 1 else 0
    case Some(SingleCluster(n)) => if OutcomeOf(n) == o then 1 else 0
    case Some(WeightedClusters(targets)) => TargetWeight(targets, o)
  }

  function ShareTotal(s: Option<E.ClusterSpecifier>): int {
    match s
    case Some(WeightedClusters(targets)) => TargetTotal(targets)
    case _ => 1
  }

  /** What one backend weighs for an outcome. */
  function WeightOf(b: Backend, o: Outcome): int {
    if b.weight > 0 && o == (if b.cluster.Some? then Some(b.cluster.value.name) else None) then b.weight else 0
  }

  lemma TargetOutcome(b: Backend, o: Outcome)
    requires b.cluster.Some? ==> b.cluster.value.name != INVALID_CLUSTER
    ensures WeightOf(b, o) == if b.weight > 0 && OutcomeOf(TargetName(b)) == o then b.weight else 0
  {
  }

  lemma WeightSnoc(backends: seq<Backend>, b: Backend, o: Outcome)
    ensures WeightTo(backends + [b], o) == WeightTo(backends, o) + WeightOf(b, o)
    ensures TotalWeight(backends + [b]) == TotalWeight(backends) + if b.weight > 0 then b.weight else 0
    ensures TargetsOf(backends + [b]) == TargetsOf(backends) + if b.weight > 0 then [E.WeightedTarget(TargetName(b), b.weight)] else []
  {
    assert (backends + [b])[..|backends|] == backends;
  }

  lemma {:induction false} TargetsKeepWeight(backends: seq<Backend>, o: Outcome)
    requires forall b :: b in backends && b.cluster.Some? ==> b.cluster.value.name != INVALID_CLUSTER
    ensures TargetWeight(TargetsOf(backends), o) == WeightTo(backends, o)
    ensures TargetTotal(TargetsOf(backends)) == TotalWeight(backends)
  {
    if backends != [] {
      var before, b := backends[..|backends| - 1], backends[|backends| - 1];
      assert b in backends;
      TargetsKeepWeight(before, o);
      TargetOutcome(b, o);
      LastTarget(before, b, o);
      assert backends == before + [b];
    }
  }

  lemma LastTarget(before: seq<Backend>, b: Backend, o: Outcome)
    requires WeightOf(b, o) == if b.weight > 0 && OutcomeOf(TargetName(b)) == o then b.weight else 0
    requires TargetWeight(TargetsOf(before), o) == WeightTo(before, o) && TargetTotal(TargetsOf(before)) == TotalWeight(before)
    ensures TargetWeight(TargetsOf(before + [b]), o) == WeightTo(before + [b], o)
    ensures TargetTotal(TargetsOf(before + [b])) == TotalWeight(before + [b])
  {
    WeightSnoc(before, b, o);
    TargetSnoc(TargetsOf(before), E.WeightedTarget(TargetName(b), b.weight), o);
    assert TargetsOf(before) + [] == TargetsOf(before);
  }

  /** Something can take traffic just when the weights do not add up to nothing. */
  lemma {:induction false} TargetsPositive(backends: seq<Backend>)
    ensures TotalWeight(backends) >= 0
    ensures TargetsOf(backends) == [] <==> TotalWeight(backends) == 0
  {
    if backends != [] {
      TargetsPositive(backends[..|backends| - 1]);
    }
  }

  lemma TargetSnoc(targets: seq<E.WeightedTarget>, t: E.WeightedTarget, o: Outcome)
    ensures TargetWeight(targets + [t], o) == TargetWeight(targets, o) + if OutcomeOf(t.name) == o then t.weight else 0
    ensures TargetTotal(targets + [t]) == TargetTotal(targets) + t.weight
  {
    assert (targets + [t])[..|targets|] == targets;
  }

  /** Shares are proportional to weights, that of the unresolved backends going to
      500s; and with no weight at all every request gets a 500. */
  lemma SharesPreserved(backends: seq<Backend>, o: Outcome)
    requires forall b :: b in backends && b.cluster.Some? ==> b.cluster.value.name != INVALID_CLUSTER
    ensures TotalWeight(backends) > 0 ==>
              ShareTo(SpecifierOf(backends), o) * TotalWeight(backends) == WeightTo(backends, o) * ShareTotal(SpecifierOf(backends))
    ensures TotalWeight(backends) == 0 ==> SpecifierOf(backends).None?
    ensures ShareTotal(SpecifierOf(backends)) > 0
  {
    TargetsKeepWeight(backends, o);
    TargetsPositive(backends);
    var targets := TargetsOf(backends);
    if |targets| == 1 {
      assert targets[..0] == [];
      assert TargetTotal(targets) == targets[0].weight;
      assert TargetWeight(targets, o) == if OutcomeOf(targets[0].name) == o then targets[0].weight else 0;
    }
  }

  // ---- the route ----

  function LastRedirect(filters: seq<Filter>): Option<Filter> {
    if filters == [] then None
    else if filters[|filters| - 1].RequestRedirect? then Some(filters[|filters| - 1])
    else LastRedirect(filters[..|filters| - 1])
  }

  function LastRewrite(filters: seq<Filter>): Option<Filter> {
    if filters == [] then None
    else if filters[|filters| - 1].UrlRewrite? then Some(filters[|filters| - 1])
    else LastRewrite(filters[..|filters| - 1])
  }

  lemma {:induction false} LastKinds(filters: seq<Filter>)
    ensures LastRedirect(filters).Some? ==> LastRedirect(filters).value.RequestRedirect?
    ensures LastRewrite(filters).Some? ==> LastRewrite(filters).value.UrlRewrite?
  {
    if filters != [] { LastKinds(filters[..|filters| - 1]); }
  }

  function PathRewriteOf(p: Option<PathModifier>, m: Match): Option<E.PathRewrite> {
    match p
    case None => None
    case Some(ReplaceFullPath(path)) => Some(E.ReplaceAll(path))
    case Some(ReplacePrefixMatch(prefix)) => Some(PrefixRewriteOf(m, prefix))
  }

  function RedirectCode(status: nat): nat {
    if status in {301, 303, 307, 308} then status else 302
  }

  function ActionOf(rule: Rule, m: Match, backends: seq<Backend>): E.Action {
    if Unsupported in rule.filters then E.DirectResponse(500)
    else match LastRedirect(rule.filters)
      case Some(RequestRedirect(scheme, host, port, path, status)) => E.Redirect(scheme, host, port, PathRewriteOf(path, m), RedirectCode(status))
      case _ =>
        var s := SpecifierOf(backends);
        if s.None? then E.DirectResponse(500)
        else match LastRewrite(rule.filters)
          case Some(UrlRewrite(host, path)) => E.Forward(s.value, host, PathRewriteOf(path, m))
          case _ => E.Forward(s.value, None, None)
  }

  // ---- headers ----

  const NO_EDITS := E.HeaderEdits([], [])

  /** The headers a modifier sets replace those of their name, the ones it adds join them. */
  function OptionsOf(modifier: HeaderModifier): seq<E.HeaderOption> {
    seq(|modifier.set_| + |modifier.add|, k requires 0 <= k < |modifier.set_| + |modifier.add| =>
      if k < |modifier.set_| then E.HeaderOption(modifier.set_[k].name, modifier.set_[k].value, false)
      else E.HeaderOption(modifier.add[k - |modifier.set_|].name, modifier.add[k - |modifier.set_|].value, true))
  }

  method HeaderModifierFor(modifier: HeaderModifier) returns (add: seq<E.HeaderOption>, remove: seq<string>)
    ensures add == OptionsOf(modifier) && remove == modifier.remove
  {
    add := [];
    for k := 0 to |modifier.set_|
      invariant add == OptionsOf(modifier)[..k]
    {
      add := add + [E.HeaderOption(modifier.set_[k].name, modifier.set_[k].value, false)];
    }
    for k := 0 to |modifier.add|
      invariant add == OptionsOf(modifier)[..|modifier.set_| + k]
    {
      add := add + [E.HeaderOption(modifier.add[k].name, modifier.add[k].value, true)];
    }
    remove := modifier.remove;
  }

  function Edited(edits: E.HeaderEdits, modifier: HeaderModifier): E.HeaderEdits {
    E.HeaderEdits(edits.add + OptionsOf(modifier), edits.remove + modifier.remove)
  }

  function RequestEdits(filters: seq<Filter>): E.HeaderEdits {
    if filters == [] then NO_EDITS
    else match filters[|filters| - 1]
      case RequestHeaders(modifier) => Edited(RequestEdits(filters[..|filters| - 1]), modifier)
      case _ => RequestEdits(filters[..|filters| - 1])
  }

  function ResponseEdits(filters: seq<Filter>): E.HeaderEdits {
    if filters == [] then NO_EDITS
    else match filters[|filters| - 1]
      case ResponseHeaders(modifier) => Edited(ResponseEdits(filters[..|filters| - 1]), modifier)
      case _ => ResponseEdits(filters[..|filters| - 1])
  }

  /** The filters that are looked at: those before the first unsupported one. */
  function Heeded(filters: seq<Filter>): seq<Filter> {
    if filters == [] || filters[0] == Unsupported then [] else [filters[0]] + Heeded(filters[1..])
  }

  lemma {:induction false} HeededUpTo(filters: seq<Filter>, i: nat)
    requires i <= |filters| && Unsupported !in filters[..i] && (i < |filters| ==> filters[i] == Unsupported)
    ensures Heeded(filters) == filters[..i]
  {
    if i > 0 {
      assert filters[..i][0] == filters[0] && filters[1..][..i - 1] == filters[..i][1..];
      HeededUpTo(filters[1..], i - 1);
    }
  }

  function RouteName(key: RouteKey, rule: nat, m: nat): string {
    key.kind + "/" + key.ns + "/" + key.name + "/" + Decimal(rule) + "/" + Decimal(m)
  }

  ghost predicate InRoute(a: AttachedRoute, rule: nat, m: nat) {
    rule < |a.route.rules| && m < |a.route.rules[rule].matches| && |a.backends| == |a.route.rules|
  }

  ghost function EnvoyRouteOf(a: AttachedRoute, rule: nat, m: nat): E.Route
    requires InRoute(a, rule, m)
  {
    var r := a.route.rules[rule];
    var filters := Heeded(r.filters);
    E.Route(RouteName(a.route.key, rule, m), RouteMatchOf(r.matches[m]), ActionOf(r, r.matches[m], a.backends[rule]),
            RequestEdits(filters), ResponseEdits(filters))
  }

  /** What the filters of a rule come to, as far as they are supported. */
  method GatherFilters(filters: seq<Filter>)
    returns (supported: bool, redirect: Option<Filter>, rewrite: Option<Filter>, request: E.HeaderEdits, response: E.HeaderEdits)
    ensures supported <==> Unsupported !in filters
    ensures supported ==> redirect == LastRedirect(filters) && rewrite == LastRewrite(filters)
    ensures request == RequestEdits(Heeded(filters)) && response == ResponseEdits(Heeded(filters))
  {
    redirect, rewrite, request, response := None, None, NO_EDITS, NO_EDITS;
    for i := 0 to |filters|
      invariant Unsupported !in filters[..i]
      invariant redirect == LastRedirect(filters[..i]) && rewrite == LastRewrite(filters[..i])
      invariant request == RequestEdits(filters[..i]) && response == ResponseEdits(filters[..i])
    {
      assert filters[..i + 1][..i] == filters[..i];
      match filters[i] {
        case RequestHeaders(modifier) =>
          var add, remove := HeaderModifierFor(modifier);
          request := E.HeaderEdits(request.add + add, request.remove + remove);
        case ResponseHeaders(modifier) =>
          var add, remove := HeaderModifierFor(modifier);
          response := E.HeaderEdits(response.add + add, response.remove + remove);
        case RequestRedirect(_, _, _, _, _) => redirect := Some(filters[i]);
        case UrlRewrite(_, _) => rewrite := Some(filters[i]);
        case Unsupported =>
          // The first such filter decides, whatever follows it.
          HeededUpTo(filters, i);
          supported := false;
          return;
      }
    }
    assert filters[..|filters|] == filters;
    HeededUpTo(filters, |filters|);
    supported := true;
  }

  method EnvoyRouteFor(a: AttachedRoute, rule: nat, m: nat, clusters: map<string, Cluster>, ghost dir: map<string, Cluster>)
    returns (route: E.Route, out: map<string, Cluster>)
    requires InRoute(a, rule, m)
    requires Directory(dir) && Listed(a.backends[rule], dir) && Gathered(clusters, dir)
    ensures route == EnvoyRouteOf(a, rule, m)
    ensures Gathered(out, dir) && out.Keys == clusters.Keys + ActionClusters(route.action)
  {
    var r := a.route.rules[rule];
    var match_ := r.matches[m];
    var emitted := RouteMatchFor(match_);
    var name := RouteName(a.route.key, rule, m);
    out := clusters;

    var supported, redirect, rewrite, request, response := GatherFilters(r.filters);
    if !supported {
      return E.Route(name, emitted, E.DirectResponse(500), request, response), clusters;
    }
    LastKinds(r.filters);

    if redirect.Some? {
      var f := redirect.value;
      return E.Route(name, emitted, E.Redirect(f.scheme, f.rhostname, f.rport, PathRewriteOf(f.rpath, match_), RedirectCode(f.status)),
                     request, response), clusters;
    }

    var s;
    s, out := RouteActionFor(a.backends[rule], clusters, dir);
    if s.None? {
      return E.Route(name, emitted, E.DirectResponse(500), request, response), out;
    }
    if rewrite.Some? {
      var f := rewrite.value;
      route := E.Route(name, emitted, E.Forward(s.value, f.hostname, PathRewriteOf(f.path, match_)), request, response);
    } else {
      route := E.Route(name, emitted, E.Forward(s.value, None, None), request, response);
    }
  }
}
