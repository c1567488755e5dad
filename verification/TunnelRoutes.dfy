/** A tunnel's private network routes, converged on spec.routes against the routes
    the account holds. */
module TunnelRoutes {
  import opened Text
  import opened Sorting
  import opened Networks

  type Id = nat

  /** A route in the account: Cloudflare files every route in a virtual network. */
  datatype Teamnet = Teamnet(network: Network, vnet: string, tunnel: string)

  /** What tells two routes of one tunnel apart. */
  datatype Key = Key(network: Network, vnet: string)

  /** How the API answers one call: it serves it, refuses it for good, forbids it,
      fails it before or after it took effect. */
  datatype Answer = Served | Rejected | Forbidden | Broken | Lost

  datatype Problem = NotCidr(text: string) | NotPermitted | ListedTwice(key: Key) | Refused(key: Key)

  datatype Result = Routes(ready: nat, problems: seq<Problem>) | Error

  /** Some route of the account has the key. */
  ghost predicate Routed(routes: map<Id, Teamnet>, k: Key) {
    exists x :: x in routes && KeyOf(routes[x]) == k
  }

  function KeyOf(t: Teamnet): Key {
    Key(Canonical(t.network), t.vnet)
  }

  /** Where Cloudflare files a route that names no virtual network. */
  function Filed(default: Option<string>, k: Key): Key {
    if k.vnet == "" && default.Some? then k.(vnet := default.value) else k
  }

  // ---- what spec.routes asks for ----

  function Wanted(spec: seq<Key>): seq<Key> {
    if spec == [] then []
    else (if spec[0].network.Block? then [Key(Canonical(spec[0].network), spec[0].vnet)] else []) + Wanted(spec[1..])
  }

  function Unreadable(spec: seq<Key>): seq<Problem> {
    if spec == [] then []
    else (if spec[0].network.Block? then [] else [NotCidr(spec[0].network.text)]) + Unreadable(spec[1..])
  }

  lemma {:induction false} WantedSnoc(spec: seq<Key>, k: Key)
    ensures Wanted(spec + [k]) == Wanted(spec) + if k.network.Block? then [Key(Canonical(k.network), k.vnet)] else []
  {
    if spec == [] {
      assert [] + [k] == [k];
    } else {
      var longer, rest := spec + [k], Wanted(spec[1..]);
      assert longer[0] == spec[0] && longer[1..] == spec[1..] + [k];
      WantedSnoc(spec[1..], k);
      var head := if spec[0].network.Block? then [Key(Canonical(spec[0].network), spec[0].vnet)] else [];
      assert Wanted(longer) == head + Wanted(longer[1..]) && Wanted(spec) == head + rest;
    }
  }

  lemma {:induction false} UnreadableSnoc(spec: seq<Key>, k: Key)
    ensures Unreadable(spec + [k]) == Unreadable(spec) + if k.network.Block? then [] else [NotCidr(k.network.text)]
  {
    if spec == [] {
      assert [] + [k] == [k];
    } else {
      var longer, rest := spec + [k], Unreadable(spec[1..]);
      assert longer[0] == spec[0] && longer[1..] == spec[1..] + [k];
      UnreadableSnoc(spec[1..], k);
      var head := if spec[0].network.Block? then [] else [NotCidr(spec[0].network.text)];
      assert Unreadable(longer) == head + Unreadable(longer[1..]) && Unreadable(spec) == head + rest;
    }
  }

  lemma {:induction false} UnreadableOnly(spec: seq<Key>)
    ensures forall p :: p in Unreadable(spec) ==> p.NotCidr?
  {
    if spec != [] { UnreadableOnly(spec[1..]); }
  }

  method ParseRoutes(spec: seq<Key>) returns (desired: seq<Key>, problems: seq<Problem>)
    ensures desired == Wanted(spec) && problems == Unreadable(spec)
    ensures |desired| + |problems| == |spec|
  {
    desired, problems := [], [];
    for i := 0 to |spec|
      invariant desired == Wanted(spec[..i]) && problems == Unreadable(spec[..i])
      invariant |desired| + |problems| == i
    {
      assert spec[..i + 1] == spec[..i] + [spec[i]];
      WantedSnoc(spec[..i], spec[i]);
      UnreadableSnoc(spec[..i], spec[i]);
      if spec[i].network.Block? {
        desired := desired + [Key(Canonical(spec[i].network), spec[i].vnet)];
      } else {
        problems := problems + [NotCidr(spec[i].network.text)];
      }
    }
    assert spec[..|spec|] == spec;
  }

  /** Keeps the first entry of every key. */
  method Dedupe(desired: seq<Key>) returns (unique: seq<Key>, problems: seq<Problem>)
    ensures Distinct(unique) && Elements(unique) == Elements(desired)
    ensures |unique| + |problems| == |desired|
    ensures forall p :: p in problems ==> p.ListedTwice? && multiset(desired)[p.key] > 1
  {
    unique, problems := [], [];
    var seen: set<Key> := {};
    for i := 0 to |desired|
      invariant Distinct(unique) && seen == Elements(unique) == Elements(desired[..i])
      invariant |unique| + |problems| == i
      invariant forall p :: p in problems ==> p.ListedTwice? && multiset(desired[..i])[p.key] > 1
    {
      assert desired[..i + 1] == desired[..i] + [desired[i]];
      if desired[i] in seen {
        assert desired[i] in multiset(desired[..i]);
        problems := problems + [ListedTwice(desired[i])];
      } else {
        seen := seen + {desired[i]};
        unique := unique + [desired[i]];
      }
    }
    assert desired[..|desired|] == desired;
  }

  // ---- the account ----

  /** The routes that point at the tunnel. */
  ghost function Owned(routes: map<Id, Teamnet>, tunnel: string): set<Id> {
    set x | x in routes && routes[x].tunnel == tunnel
  }

  ghost function Others(routes: map<Id, Teamnet>, tunnel: string): map<Id, Teamnet> {
    map x | x in routes && routes[x].tunnel != tunnel :: routes[x]
  }

  class Account {
    var routes: map<Id, Teamnet>
    var nextId: Id
    var calls: nat
    /** How many calls asked for a change. */
    var writes: nat
    const default: Option<string>
    const answer: nat -> Answer

    ghost predicate Valid()
      reads this
    {
      (forall x :: x in routes ==> x < nextId) && (default.Some? ==> default.value != "")
    }

    /** Every call is served. */
    ghost predicate Smooth() {
      forall n :: answer(n).Served?
    }

    constructor (routes: map<Id, Teamnet>, nextId: Id, default: Option<string>, answer: nat -> Answer)
      requires (forall x :: x in routes ==> x < nextId) && (default.Some? ==> default.value != "")
      ensures Valid() && this.routes == routes && this.default == default && this.answer == answer
    {
      this.routes, this.nextId, this.default, this.answer := routes, nextId, default, answer;
      this.calls, this.writes := 0, 0;
    }

    method Ask() returns (a: Answer)
      requires Valid()
      modifies this`calls
      ensures Valid() && a == answer(old(calls))
    {
      a := answer(calls);
      calls := calls + 1;
    }

    method ListRoutes(tunnel: string) returns (a: Answer, existing: seq<Id>)
      requires Valid()
      modifies this`calls
      ensures Valid()
      ensures Smooth() ==> a.Served?
      ensures a.Served? ==> Distinct(existing) && Elements(existing) == Owned(routes, tunnel)
    {
      a := Ask();
      existing := Collect(set x | x in routes && routes[x].tunnel == tunnel);
    }

    method DeleteRoute(id: Id) returns (ok: bool)
      requires Valid()
      modifies this`routes, this`calls, this`writes
      ensures Valid() && writes == old(writes) + 1
      ensures routes == old(routes) || routes == old(routes) - {id}
      ensures ok ==> id !in routes
      ensures Smooth() ==> ok
    {
      writes := writes + 1;
      var a := Ask();
      if a.Served? || a.Lost? { routes := routes - {id}; }
      return a.Served?;
    }

    /** Cloudflare refuses a network it already routes in the virtual network. */
    method CreateRoute(k: Key, tunnel: string) returns (a: Answer, id: Id)
      requires Valid() && k.network == Canonical(k.network)
      modifies this`routes, this`nextId, this`calls, this`writes
      ensures Valid() && writes == old(writes) + 1 && id == old(nextId)
      ensures a.Served? || a.Lost? ==> routes == old(routes)[id := Teamnet(k.network, Filed(default, k).vnet, tunnel)]
      ensures a.Served? || a.Lost? ==> forall x :: x in old(routes) ==> KeyOf(old(routes)[x]) != Filed(default, k)
      ensures !a.Served? && !a.Lost? ==> routes == old(routes)
      ensures id !in old(routes)
      ensures Smooth() ==> a.Served? || (a.Rejected? && Routed(old(routes), Filed(default, k)))
    {
      writes := writes + 1;
      id := nextId;
      a := Ask();
      if exists x :: x in routes && KeyOf(routes[x]) == Filed(default, k) { return Rejected, nextId; }
      if a.Served? || a.Lost? {
        routes := routes[nextId := Teamnet(k.network, Filed(default, k).vnet, tunnel)];
        nextId := nextId + 1;
      }
    }
  }

  // ---- the pieces of a reconcile ----

  function Fill(default: Option<string>, desired: seq<Key>): seq<Key> {
    seq(|desired|, i requires 0 <= i < |desired| => Filed(default, desired[i]))
  }

  /** Names the account's default virtual network in the entries without one, unless
      there is no route to hold them against. */
  method ResolveVirtualNetworks(api: Account, desired: seq<Key>, existing: seq<Id>) returns (ok: bool, resolved: seq<Key>)
    requires api.Valid()
    modifies api`calls
    ensures api.Valid() && (api.Smooth() ==> ok)
    ensures ok && existing == [] ==> resolved == desired
    ensures ok && existing != [] ==> resolved == Fill(api.default, desired)
  {
    if existing == [] { return true, desired; }
    if forall i :: 0 <= i < |desired| ==> desired[i].vnet != "" {
      assert desired == Fill(api.default, desired);
      return true, desired;
    }
    var a := api.Ask();
    if !a.Served? { return false, []; }
    resolved := desired;
    if api.default.Some? {
      for i := 0 to |desired|
        invariant |resolved| == |desired|
        invariant forall j :: 0 <= j < |desired| ==> resolved[j] == if j < i then Filed(api.default, desired[j]) else desired[j]
      {
        if resolved[i].vnet == "" { resolved := resolved[i := resolved[i].(vnet := api.default.value)]; }
      }
    }
    assert resolved == Fill(api.default, desired);
    return true, resolved;
  }

  /** The unmatched entry whose network and virtual network are those of the route. */
  method MatchRoute(desired: seq<Key>, matched: seq<bool>, route: Teamnet) returns (i: int)
    requires |matched| == |desired|
    ensures i == -1 ==> forall j :: 0 <= j < |desired| && desired[j] == KeyOf(route) ==> matched[j]
    ensures i != -1 ==> 0 <= i < |desired| && !matched[i] && desired[i] == KeyOf(route)
  {
    for j := 0 to |desired|
      invariant forall l :: 0 <= l < j && desired[l] == KeyOf(route) ==> matched[l]
    {
      if !matched[j] && desired[j] == KeyOf(route) { return j; }
    }
    return -1;
  }

  ghost predicate DistinctKeys(routes: map<Id, Teamnet>, tunnel: string) {
    forall x, y :: x in Owned(routes, tunnel) && y in Owned(routes, tunnel) && x != y ==> KeyOf(routes[x]) != KeyOf(routes[y])
  }

  /** Each held entry has its route, under its key. */
  ghost predicate Holds(routes: map<Id, Teamnet>, keys: seq<Key>, holder: map<nat, Id>) {
    forall i :: i in holder ==> i < |keys| && holder[i] in routes && KeyOf(routes[holder[i]]) == keys[i]
  }

  /** Every route of the tunnel is among the entries, each entry at most once. */
  ghost predicate NothingToPrune(routes: map<Id, Teamnet>, tunnel: string, desired: seq<Key>) {
    DistinctKeys(routes, tunnel) && forall x :: x in Owned(routes, tunnel) ==> KeyOf(routes[x]) in desired
  }

  /** After the routes before some point: what is left of the tunnel's routes is
      what is held and what lies ahead. */
  ghost predicate Pruned(was: map<Id, Teamnet>, routes: map<Id, Teamnet>, tunnel: string, desired: seq<Key>,
                         done: seq<Id>, ahead: seq<Id>, holder: map<nat, Id>)
  {
    && Others(routes, tunnel) == Others(was, tunnel)
    && (forall x :: x in routes ==> x in was && routes[x] == was[x])
    && Owned(routes, tunnel) == holder.Values + Elements(ahead)
    && holder.Values <= Elements(done)
    && Holds(routes, desired, holder)
  }

  /** The routes and holders at such a point. */
  ghost function Prunes(was: map<Id, Teamnet>, tunnel: string, desired: seq<Key>, done: seq<Id>, ahead: seq<Id>):
    iset<(map<Id, Teamnet>, map<nat, Id>)>
  {
    iset s: (map<Id, Teamnet>, map<nat, Id>) | Pruned(was, s.0, tunnel, desired, done, ahead, s.1)
  }

  lemma PrunesHold(was: map<Id, Teamnet>, routes: map<Id, Teamnet>, tunnel: string, desired: seq<Key>,
                   done: seq<Id>, ahead: seq<Id>, holder: map<nat, Id>)
    ensures (routes, holder) in Prunes(was, tunnel, desired, done, ahead) <==>
            Pruned(was, routes, tunnel, desired, done, ahead, holder)
  {
  }

  lemma MatchPrunes(was: map<Id, Teamnet>, routes: map<Id, Teamnet>, tunnel: string, desired: seq<Key>,
                    done: seq<Id>, ahead: seq<Id>, holder: map<nat, Id>, next: map<nat, Id>, i: nat)
    requires ahead != [] && (routes, holder) in Prunes(was, tunnel, desired, done, ahead)
    requires ahead[0] in routes && i !in holder && i < |desired| && desired[i] == KeyOf(routes[ahead[0]])
    requires next == holder[i := ahead[0]]
    ensures (routes, next) in Prunes(was, tunnel, desired, done + [ahead[0]], ahead[1..])
    ensures Others(routes, tunnel) == Others(was, tunnel)
  {
    PrunesHold(was, routes, tunnel, desired, done, ahead, holder);
    PrunesHold(was, routes, tunnel, desired, done + [ahead[0]], ahead[1..], next);
    MatchStep(was, routes, tunnel, desired, done, ahead, holder, i);
  }

  lemma DropPrunes(was: map<Id, Teamnet>, routes: map<Id, Teamnet>, after: map<Id, Teamnet>, tunnel: string, desired: seq<Key>,
                   done: seq<Id>, ahead: seq<Id>, holder: map<nat, Id>)
    requires ahead != [] && (routes, holder) in Prunes(was, tunnel, desired, done, ahead) && Distinct(done + ahead)
    requires ahead[0] in Owned(routes, tunnel) && after == routes - {ahead[0]}
    ensures (after, holder) in Prunes(was, tunnel, desired, done + [ahead[0]], ahead[1..])
    ensures Others(after, tunnel) == Others(routes, tunnel) == Others(was, tunnel)
  {
    PrunesHold(was, routes, tunnel, desired, done, ahead, holder);
    PrunesHold(was, after, tunnel, desired, done + [ahead[0]], ahead[1..], holder);
    DropStep(was, routes, tunnel, desired, done, ahead, holder);
  }

  lemma MatchStep(was: map<Id, Teamnet>, routes: map<Id, Teamnet>, tunnel: string, desired: seq<Key>,
                  done: seq<Id>, ahead: seq<Id>, holder: map<nat, Id>, i: nat)
    requires ahead != [] && Pruned(was, routes, tunnel, desired, done, ahead, holder)
    requires ahead[0] in routes && i !in holder && i < |desired| && desired[i] == KeyOf(routes[ahead[0]])
    ensures Pruned(was, routes, tunnel, desired, done + [ahead[0]], ahead[1..], holder[i := ahead[0]])
  {
    var x, next := ahead[0], holder[i := ahead[0]];
    ValuesGrow(holder, i, x);
    assert Elements(ahead) == {x} + Elements(ahead[1..]) by { ElementsSplit(ahead); }
    assert Elements(done + [x]) == Elements(done) + {x} by { ElementsSnoc(done, x); }
    HoldsMore(routes, desired, holder, i, x);
  }

  lemma HoldsMore(routes: map<Id, Teamnet>, keys: seq<Key>, holder: map<nat, Id>, i: nat, x: Id)
    requires Holds(routes, keys, holder) && i < |keys| && x in routes && KeyOf(routes[x]) == keys[i]
    ensures Holds(routes, keys, holder[i := x])
  {
  }

  lemma ElementsSnoc<T>(s: seq<T>, x: T)
    ensures Elements(s + [x]) == Elements(s) + {x}
  {
    forall y ensures y in Elements(s + [x]) <==> y in Elements(s) + {x} {
      assert y in s + [x] <==> y in s || y == x;
    }
  }

  lemma ElementsSplit<T>(s: seq<T>)
    requires s != []
    ensures Elements(s) == {s[0]} + Elements(s[1..])
  {
    assert s == [s[0]] + s[1..];
  }

  lemma DropStep(was: map<Id, Teamnet>, routes: map<Id, Teamnet>, tunnel: string, desired: seq<Key>,
                 done: seq<Id>, ahead: seq<Id>, holder: map<nat, Id>)
    requires ahead != [] && Pruned(was, routes, tunnel, desired, done, ahead, holder) && Distinct(done + ahead)
    requires ahead[0] in Owned(routes, tunnel)
    ensures Pruned(was, routes - {ahead[0]}, tunnel, desired, done + [ahead[0]], ahead[1..], holder)
  {
    var x, next := ahead[0], routes - {ahead[0]};
    assert forall j :: 0 <= j < |done| ==> (done + ahead)[j] == done[j] && (done + ahead)[|done|] == x;
    assert x !in holder.Values;
    assert forall i :: i in holder ==> holder[i] in holder.Values;
    assert ahead == [x] + ahead[1..];
    assert forall j :: 0 <= j < |ahead| - 1 ==> ahead[1..][j] == (done + ahead)[|done| + 1 + j];
    assert Owned(next, tunnel) == Owned(routes, tunnel) - {x};
    assert Elements(ahead) == {x} + Elements(ahead[1..]);
    assert Others(next, tunnel) == Others(routes, tunnel);
  }

  /** A route that no unmatched entry wants is unwanted or a second of its kind. */
  lemma Spare(was: map<Id, Teamnet>, routes: map<Id, Teamnet>, tunnel: string, desired: seq<Key>,
              done: seq<Id>, ahead: seq<Id>, holder: map<nat, Id>)
    requires ahead != [] && (routes, holder) in Prunes(was, tunnel, desired, done, ahead) && Distinct(done + ahead)
    requires ahead[0] in Owned(routes, tunnel)
    requires forall j :: 0 <= j < |desired| && desired[j] == KeyOf(routes[ahead[0]]) ==> j in holder
    ensures !NothingToPrune(routes, tunnel, desired)
  {
    PrunesHold(was, routes, tunnel, desired, done, ahead, holder);
    var x := ahead[0];
    assert forall j :: 0 <= j < |done| ==> (done + ahead)[j] == done[j] && (done + ahead)[|done|] == x;
    if KeyOf(routes[x]) in desired {
      var j :| 0 <= j < |desired| && desired[j] == KeyOf(routes[x]);
      var y := holder[j];
      assert y in holder.Values && y in Owned(routes, tunnel) && y != x;
    }
  }

  lemma KeysGrow(m: map<nat, Id>, i: nat, x: Id)
    requires i !in m
    ensures m[i := x].Keys == m.Keys + {i} && |m[i := x]| == |m| + 1
  {
    assert m[i := x].Keys == m.Keys + {i};
  }

  lemma ValuesGrow(m: map<nat, Id>, i: nat, x: Id)
    requires i !in m
    ensures m[i := x].Values == m.Values + {x}
  {
    var n := m[i := x];
    assert n[i] == x;
    forall y | y in m.Values ensures y in n.Values {
      var j :| j in m && m[j] == y;
      assert n[j] == y;
    }
  }

  /** An existing route no unmatched entry wants: deleting it goes one route further. */
  lemma Unwanted(was: map<Id, Teamnet>, routes: map<Id, Teamnet>, tunnel: string, desired: seq<Key>,
                 done: seq<Id>, ahead: seq<Id>, holder: map<nat, Id>)
    requires ahead != [] && (routes, holder) in Prunes(was, tunnel, desired, done, ahead) && Distinct(done + ahead)
    requires ahead[0] in Owned(routes, tunnel)
    requires forall j :: 0 <= j < |desired| && desired[j] == KeyOf(routes[ahead[0]]) ==> j in holder
    ensures (routes - {ahead[0]}, holder) in Prunes(was, tunnel, desired, done + [ahead[0]], ahead[1..])
    ensures Others(routes - {ahead[0]}, tunnel) == Others(routes, tunnel) == Others(was, tunnel)
    ensures !NothingToPrune(routes, tunnel, desired)
  {
    Spare(was, routes, tunnel, desired, done, ahead, holder);
    DropPrunes(was, routes, routes - {ahead[0]}, tunnel, desired, done, ahead, holder);
  }

  lemma SliceStep<T>(s: seq<T>, k: nat)
    requires k < |s|
    ensures s[..k] + s[k..] == s && s[..k] + [s[k]] == s[..k + 1] && s[k..] != [] && s[k..][0] == s[k] && s[k..][1..] == s[k + 1..]
    ensures s[k] in Elements(s[k..])
  {
    assert s[..k] + s[k..] == s;
    assert s[k..][0] == s[k];
  }

  /** The marked entries are the held ones. */
  ghost predicate Marks(matched: seq<bool>, holder: map<nat, Id>) {
    forall i: nat :: i in holder <==> i < |matched| && matched[i]
  }

  lemma MarkStep(matched: seq<bool>, holder: map<nat, Id>, i: nat, x: Id)
    requires Marks(matched, holder) && i < |matched| && !matched[i]
    ensures Marks(matched[i := true], holder[i := x]) && i !in holder && |holder[i := x]| == |holder| + 1
  {
    KeysGrow(holder, i, x);
  }

  /** Deletes a route that nothing wants. */
  method Discard(api: Account, tunnel: string, desired: seq<Key>, x: Id,
                 ghost was: map<Id, Teamnet>, ghost done: seq<Id>, ghost ahead: seq<Id>, ghost holder: map<nat, Id>)
    returns (ok: bool)
    requires api.Valid() && ahead != [] && x == ahead[0] && x in Owned(api.routes, tunnel)
    requires Distinct(done + ahead) && (api.routes, holder) in Prunes(was, tunnel, desired, done, ahead)
    requires forall j :: 0 <= j < |desired| && desired[j] == KeyOf(api.routes[x]) ==> j in holder
    modifies api`routes, api`calls, api`writes
    ensures api.Valid() && Others(api.routes, tunnel) == Others(was, tunnel)
    ensures ok ==> (api.routes, holder) in Prunes(was, tunnel, desired, done + [x], ahead[1..])
    ensures !NothingToPrune(old(api.routes), tunnel, desired) && (api.Smooth() ==> ok)
  {
    ghost var before := api.routes;
    Unwanted(was, before, tunnel, desired, done, ahead, holder);
    ok := api.DeleteRoute(x);
    assert ok ==> api.routes == before - {x};
  }

  /** Matches the existing routes against the entries and deletes the rest. */
  method Prune(api: Account, tunnel: string, desired: seq<Key>, existing: seq<Id>)
    returns (ok: bool, ready: nat, matched: seq<bool>, ghost holder: map<nat, Id>)
    requires api.Valid() && Distinct(existing) && Elements(existing) == Owned(api.routes, tunnel)
    modifies api`routes, api`calls, api`writes
    ensures api.Valid() && Others(api.routes, tunnel) == Others(old(api.routes), tunnel)
    ensures api.Smooth() ==> ok
    ensures ok ==> (api.routes, holder) in Prunes(old(api.routes), tunnel, desired, existing, [])
    ensures ok ==> ready == |holder| && |matched| == |desired| && Marks(matched, holder)
    ensures NothingToPrune(old(api.routes), tunnel, desired) ==> ok && api.routes == old(api.routes) && api.writes == old(api.writes)
  {
    ready, matched, holder := 0, seq(|desired|, i => false), map[];
    ghost var was := api.routes;
    StartPrunes(was, tunnel, desired, existing);
    for k := 0 to |existing|
      invariant api.Valid() && ready == |holder| && |matched| == |desired| && Marks(matched, holder)
      invariant (api.routes, holder) in Prunes(was, tunnel, desired, existing[..k], existing[k..])
      invariant NothingToPrune(was, tunnel, desired) ==> api.routes == was && api.writes == old(api.writes)
    {
      ghost var done, ahead := existing[..k], existing[k..];
      NextRoute(was, api.routes, tunnel, desired, existing, k, holder);
      var i := MatchRoute(desired, matched, api.routes[existing[k]]);
      if i == -1 {
        ok := Discard(api, tunnel, desired, existing[k], was, done, ahead, holder);
        if !ok { return; }
      } else {
        MarkStep(matched, holder, i, existing[k]);
        MatchPrunes(was, api.routes, tunnel, desired, done, ahead, holder, holder[i := existing[k]], i);
        matched := matched[i := true];
        ready := ready + 1;
        holder := holder[i := existing[k]];
      }
    }
    ok := true;
    assert existing[..|existing|] == existing && existing[|existing|..] == [];
    PrunesOthers(was, api.routes, tunnel, desired, existing, [], holder);
  }

  lemma StartPrunes(was: map<Id, Teamnet>, tunnel: string, desired: seq<Key>, existing: seq<Id>)
    requires Elements(existing) == Owned(was, tunnel)
    ensures (was, map[]) in Prunes(was, tunnel, desired, existing[..0], existing[0..])
  {
    assert existing[..0] == [] && existing[0..] == existing;
    PrunesHold(was, was, tunnel, desired, [], existing, map[]);
  }

  lemma NextRoute(was: map<Id, Teamnet>, routes: map<Id, Teamnet>, tunnel: string, desired: seq<Key>, existing: seq<Id>, k: nat, holder: map<nat, Id>)
    requires k < |existing| && Distinct(existing) && (routes, holder) in Prunes(was, tunnel, desired, existing[..k], existing[k..])
    ensures existing[k] in Owned(routes, tunnel) && Distinct(existing[..k] + existing[k..])
    ensures existing[k..] != [] && existing[k..][0] == existing[k] && existing[k..][1..] == existing[k + 1..]
    ensures existing[..k] + [existing[k]] == existing[..k + 1]
  {
    SliceStep(existing, k);
    PrunesHold(was, routes, tunnel, desired, existing[..k], existing[k..], holder);
  }

  lemma PrunesOthers(was: map<Id, Teamnet>, routes: map<Id, Teamnet>, tunnel: string, desired: seq<Key>,
                     done: seq<Id>, ahead: seq<Id>, holder: map<nat, Id>)
    requires (routes, holder) in Prunes(was, tunnel, desired, done, ahead)
    ensures Others(routes, tunnel) == Others(was, tunnel)
  {
    PrunesHold(was, routes, tunnel, desired, done, ahead, holder);
  }

  // ---- creating what is missing ----

  /** The tunnel's routes are the held ones, each under its key, no two alike. */
  ghost predicate Stocked(was: map<Id, Teamnet>, routes: map<Id, Teamnet>, tunnel: string, keys: seq<Key>, holder: map<nat, Id>) {
    && Others(routes, tunnel) == Others(was, tunnel)
    && Owned(routes, tunnel) == holder.Values
    && Holds(routes, keys, holder)
    && DistinctKeys(routes, tunnel)
  }

  lemma PrunedIsStocked(was: map<Id, Teamnet>, routes: map<Id, Teamnet>, tunnel: string, desired: seq<Key>,
                        done: seq<Id>, holder: map<nat, Id>)
    requires Pruned(was, routes, tunnel, desired, done, [], holder) && Distinct(desired)
    ensures Stocked(was, routes, tunnel, desired, holder)
  {
    assert Elements<Id>([]) == {};
    forall x, y | x in holder.Values && y in holder.Values && x != y ensures KeyOf(routes[x]) != KeyOf(routes[y]) {
      var i :| i in holder && holder[i] == x;
      var j :| j in holder && holder[j] == y;
      assert i != j;
    }
  }

  lemma AddStep(was: map<Id, Teamnet>, routes: map<Id, Teamnet>, tunnel: string, keys: seq<Key>, holder: map<nat, Id>, i: nat, id: Id, t: Teamnet)
    requires Stocked(was, routes, tunnel, keys, holder) && i !in holder && i < |keys| && id !in routes
    requires t.tunnel == tunnel && KeyOf(t) == keys[i]
    requires forall x :: x in routes ==> KeyOf(routes[x]) != keys[i]
    ensures Stocked(was, routes[id := t], tunnel, keys, holder[i := id])
  {
    AddedRoutes(routes, tunnel, id, t);
    ValuesGrow(holder, i, id);
    AddedHolds(routes, keys, holder, i, id, t);
  }

  lemma AddedRoutes(routes: map<Id, Teamnet>, tunnel: string, id: Id, t: Teamnet)
    requires id !in routes && t.tunnel == tunnel
    ensures Owned(routes[id := t], tunnel) == Owned(routes, tunnel) + {id}
    ensures Others(routes[id := t], tunnel) == Others(routes, tunnel)
    ensures DistinctKeys(routes, tunnel) && (forall x :: x in routes ==> KeyOf(routes[x]) != KeyOf(t)) ==>
              DistinctKeys(routes[id := t], tunnel)
  {
  }

  lemma AddedHolds(routes: map<Id, Teamnet>, keys: seq<Key>, holder: map<nat, Id>, i: nat, id: Id, t: Teamnet)
    requires Holds(routes, keys, holder) && i < |keys| && id !in routes && KeyOf(t) == keys[i]
    ensures Holds(routes[id := t], keys, holder[i := id])
  {
    assert forall j :: j in holder ==> holder[j] in routes && holder[j] != id;
  }

  /** Which entries are done, before entry i: held ones and refused ones. */
  ghost predicate Progress(n: nat, i: nat, holder: map<nat, Id>, refused: set<nat>, first: map<nat, Id>) {
    && i <= n
    && (forall j :: j in holder ==> j < n)
    && (forall j :: j in refused ==> j < i && j !in holder)
    && (forall j: nat :: j < i ==> j in holder || j in refused)
    && (forall j: nat :: i <= j ==> (j in holder <==> j in first))
  }

  ghost predicate HasAll(holder: map<nat, Id>, n: nat) {
    forall i: nat :: i < n ==> i in holder
  }

  ghost function Below(n: nat): (s: set<nat>)
    ensures |s| == n && forall j: nat :: j in s <==> j < n
  {
    if n == 0 then {} else Below(n - 1) + {n - 1}
  }

  /** Every entry is held or refused, and none is both. */
  lemma AllAccountedFor(n: nat, holder: map<nat, Id>, refused: set<nat>, first: map<nat, Id>)
    requires Progress(n, n, holder, refused, first)
    ensures |holder| + |refused| == n
    ensures refused == {} ==> HasAll(holder, n)
  {
    assert holder.Keys + refused == Below(n);
    assert holder.Keys * refused == {};
    assert |holder.Keys| == |holder|;
  }

  lemma ProgressHeld(n: nat, i: nat, holder: map<nat, Id>, next: map<nat, Id>, refused: set<nat>, first: map<nat, Id>)
    requires Progress(n, i, holder, refused, first) && i < n && next.Keys == holder.Keys + {i}
    ensures Progress(n, i + 1, next, refused, first)
  {
    assert forall j :: j in next <==> j in holder || j == i;
  }

  lemma ProgressPassed(n: nat, i: nat, holder: map<nat, Id>, refused: set<nat>, first: map<nat, Id>)
    requires Progress(n, i, holder, refused, first) && i < n && i in first
    ensures Progress(n, i + 1, holder, refused, first)
  {
  }

  lemma ProgressRefused(n: nat, i: nat, holder: map<nat, Id>, refused: set<nat>, first: map<nat, Id>)
    requires Progress(n, i, holder, refused, first) && i < n && i !in holder
    ensures Progress(n, i + 1, holder, refused + {i}, first)
    ensures |refused + {i}| == |refused| + 1
  {
    assert i !in refused;
  }

  /** The routes and holders that are stocked. */
  ghost function Stocks(was: map<Id, Teamnet>, tunnel: string, keys: seq<Key>): iset<(map<Id, Teamnet>, map<nat, Id>)> {
    iset s: (map<Id, Teamnet>, map<nat, Id>) | Stocked(was, s.0, tunnel, keys, s.1)
  }

  lemma StocksOthers(was: map<Id, Teamnet>, routes: map<Id, Teamnet>, tunnel: string, keys: seq<Key>, holder: map<nat, Id>)
    requires (routes, holder) in Stocks(was, tunnel, keys)
    ensures Others(routes, tunnel) == Others(was, tunnel)
  {
  }

  lemma StocksHold(was: map<Id, Teamnet>, routes: map<Id, Teamnet>, tunnel: string, keys: seq<Key>, holder: map<nat, Id>)
    ensures (routes, holder) in Stocks(was, tunnel, keys) <==> Stocked(was, routes, tunnel, keys, holder)
  {
  }

  lemma AddStocks(was: map<Id, Teamnet>, routes: map<Id, Teamnet>, after: map<Id, Teamnet>, tunnel: string, keys: seq<Key>,
                  holder: map<nat, Id>, next: map<nat, Id>, i: nat, id: Id, t: Teamnet)
    requires (routes, holder) in Stocks(was, tunnel, keys) && i !in holder && i < |keys| && id !in routes
    requires t.tunnel == tunnel && KeyOf(t) == keys[i]
    requires forall x :: x in routes ==> KeyOf(routes[x]) != keys[i]
    requires after == routes[id := t] && next == holder[i := id]
    ensures (after, next) in Stocks(was, tunnel, keys)
  {
    StocksHold(was, routes, tunnel, keys, holder);
    StocksHold(was, after, tunnel, keys, next);
    AddStep(was, routes, tunnel, keys, holder, i, id, t);
  }

  /** One missing entry: its route is created, or refused. */
  method CreateOne(api: Account, tunnel: string, k: Key, ghost i: nat, ghost was: map<Id, Teamnet>, ghost keys: seq<Key>, ghost holder: map<nat, Id>)
    returns (a: Answer, ghost next: map<nat, Id>)
    requires api.Valid() && k.network == Canonical(k.network) && i < |keys| && keys[i] == Filed(api.default, k) && i !in holder
    requires (api.routes, holder) in Stocks(was, tunnel, keys)
    modifies api`routes, api`nextId, api`calls, api`writes
    ensures api.Valid()
    ensures (api.routes, next) in Stocks(was, tunnel, keys)
    ensures a.Served? ==> next.Keys == holder.Keys + {i} && |next| == |holder| + 1
    ensures !a.Served? && !a.Lost? ==> next == holder
    ensures forall x :: x in old(api.routes) ==> x in api.routes && api.routes[x] == old(api.routes)[x]
    ensures api.Smooth() ==> a.Served? || (a.Rejected? && Routed(api.routes, Filed(api.default, k)))
  {
    var id: Id;
    ghost var routes := api.routes;
    a, id := api.CreateRoute(k, tunnel);
    if !a.Served? && !a.Lost? { return a, holder; }
    next := holder[i := id];
    KeysGrow(holder, i, id);
    AddStocks(was, routes, api.routes, tunnel, keys, holder, next, i, id, Teamnet(k.network, Filed(api.default, k).vnet, tunnel));
  }

  /** The network of every refused entry is routed already. */
  ghost predicate AllRouted(routes: map<Id, Teamnet>, default: Option<string>, problems: seq<Problem>) {
    forall p :: p in problems && p.Refused? ==> Routed(routes, Filed(default, p.key))
  }

  lemma StillRouted(before: map<Id, Teamnet>, after: map<Id, Teamnet>, default: Option<string>, problems: seq<Problem>)
    requires forall x :: x in before ==> x in after && after[x] == before[x]
    ensures AllRouted(before, default, problems) ==> AllRouted(after, default, problems)
  {
    forall k | Routed(before, k) ensures Routed(after, k) {
      var x :| x in before && KeyOf(before[x]) == k;
      assert x in after && KeyOf(after[x]) == k;
    }
  }

  /** The refused entries so far, each of the entries and routed in a run that is all served. */
  ghost predicate RefusalsFit(routes: map<Id, Teamnet>, default: Option<string>, desired: seq<Key>, problems: seq<Problem>, smooth: bool) {
    (forall p :: p in problems ==> p.Refused? && p.key in desired) && (smooth ==> AllRouted(routes, default, problems))
  }

  lemma RefusalStep(before: map<Id, Teamnet>, after: map<Id, Teamnet>, default: Option<string>, desired: seq<Key>,
                    problems: seq<Problem>, smooth: bool, k: Key, served: bool)
    requires RefusalsFit(before, default, desired, problems, smooth) && k in desired
    requires forall x :: x in before ==> x in after && after[x] == before[x]
    requires smooth && !served ==> Routed(after, Filed(default, k))
    ensures RefusalsFit(after, default, desired, if served then problems else problems + [Refused(k)], smooth)
  {
    StillRouted(before, after, default, problems);
  }

  /** Creates the routes no existing one stands for. */
  method CreateMissing(api: Account, tunnel: string, desired: seq<Key>, matched: seq<bool>, held: nat,
                       ghost was: map<Id, Teamnet>, ghost first: map<nat, Id>)
    returns (ok: bool, ready: nat, problems: seq<Problem>, ghost holder: map<nat, Id>)
    requires api.Valid() && (forall k :: k in desired ==> k.network == Canonical(k.network))
    requires |matched| == |desired| && Marks(matched, first) && held == |first|
    requires (api.routes, first) in Stocks(was, tunnel, Fill(api.default, desired))
    modifies api`routes, api`nextId, api`calls, api`writes
    ensures api.Valid() && Others(api.routes, tunnel) == Others(was, tunnel)
    ensures ok ==> (api.routes, holder) in Stocks(was, tunnel, Fill(api.default, desired)) && ready + |problems| == |desired|
    ensures ok && problems == [] ==> HasAll(holder, |desired|)
    ensures api.Smooth() ==> ok
    ensures forall p :: p in problems ==> p.Refused? && p.key in desired
    ensures api.Smooth() ==> AllRouted(api.routes, api.default, problems)
    ensures HasAll(first, |desired|) ==>
              ok && problems == [] && api.routes == old(api.routes) && api.writes == old(api.writes)
  {
    ready, problems, holder := held, [], first;
    ghost var refused: set<nat> := {};
    ghost var keys := Fill(api.default, desired);
    for i := 0 to |desired|
      invariant api.Valid() && (api.routes, holder) in Stocks(was, tunnel, keys)
      invariant ready == |holder| && |problems| == |refused| && Progress(|desired|, i, holder, refused, first)
      invariant RefusalsFit(api.routes, api.default, desired, problems, api.Smooth())
      invariant HasAll(first, |desired|) ==> api.routes == old(api.routes) && api.writes == old(api.writes) && problems == []
    {
      if matched[i] {
        ProgressPassed(|desired|, i, holder, refused, first);
      } else {
        var a: Answer;
        ghost var before, were := holder, api.routes;
        a, holder := CreateOne(api, tunnel, desired[i], i, was, keys, holder);
        if a.Broken? || a.Lost? {
          StocksOthers(was, api.routes, tunnel, keys, holder);
          return false, ready, problems, holder;
        }
        RefusalStep(were, api.routes, api.default, desired, problems, api.Smooth(), desired[i], a.Served?);
        if a.Served? {
          ProgressHeld(|desired|, i, before, holder, refused, first);
          ready := ready + 1;
        } else {
          ProgressRefused(|desired|, i, holder, refused, first);
          problems := problems + [Refused(desired[i])];
          refused := refused + {i};
        }
      }
    }
    AllAccountedFor(|desired|, holder, refused, first);
    StocksOthers(was, api.routes, tunnel, keys, holder);
    ok := true;
  }

  // ---- a whole reconcile ----

  /** The keys spec.routes asks for, as Cloudflare files them. */
  ghost function FiledKeys(default: Option<string>, wanted: seq<Key>): set<Key> {
    set k | k in wanted :: Filed(default, k)
  }

  /** The tunnel's routes are exactly one per asked-for key. */
  ghost predicate Converged(routes: map<Id, Teamnet>, default: Option<string>, tunnel: string, spec: seq<Key>) {
    && DistinctKeys(routes, tunnel)
    && (set x | x in Owned(routes, tunnel) :: KeyOf(routes[x])) == FiledKeys(default, Wanted(spec))
  }

  lemma {:induction false} WantedCanonical(spec: seq<Key>)
    ensures forall k :: k in Wanted(spec) ==> k.network == Canonical(k.network)
  {
    if spec != [] {
      if spec[0].network.Block? { MaskKeepsBlock(spec[0].network.cidr); }
      WantedCanonical(spec[1..]);
    }
  }

  lemma FillKeeps(default: Option<string>, desired: seq<Key>)
    requires default.Some? ==> default.value != ""
    ensures FiledKeys(default, Fill(default, desired)) == FiledKeys(default, desired)
    ensures Elements(Fill(default, desired)) == FiledKeys(default, desired)
    ensures Fill(default, Fill(default, desired)) == Fill(default, desired)
  {
    var filled := Fill(default, desired);
    forall k | k in desired ensures Filed(default, k) in filled {
      var i :| 0 <= i < |desired| && desired[i] == k;
      assert filled[i] == Filed(default, k);
    }
    assert forall k :: k in filled ==> Filed(default, k) == k;
  }

  /** The entries reconciling works with: the wanted ones, with the default network
      filled in when there is a route to compare them with, each key once. */
  ghost predicate Prepared(default: Option<string>, wanted: seq<Key>, existing: seq<Id>, desired: seq<Key>) {
    && Distinct(desired)
    && Elements(desired) == Elements(if existing == [] then wanted else Fill(default, wanted))
  }

  lemma PreparedFacts(default: Option<string>, spec: seq<Key>, existing: seq<Id>, desired: seq<Key>)
    requires Prepared(default, Wanted(spec), existing, desired) && (default.Some? ==> default.value != "")
    ensures FiledKeys(default, desired) == FiledKeys(default, Wanted(spec))
    ensures forall k :: k in desired ==> k.network == Canonical(k.network)
    ensures existing != [] ==> Fill(default, desired) == desired
  {
    var wanted := Wanted(spec);
    WantedCanonical(spec);
    FillKeeps(default, wanted);
    if existing == [] {
      SameElements(default, desired, wanted);
    } else {
      SameElements(default, desired, Fill(default, wanted));
      FilledAgain(default, wanted, desired);
    }
  }

  lemma SameElements(default: Option<string>, a: seq<Key>, b: seq<Key>)
    requires Elements(a) == Elements(b)
    ensures FiledKeys(default, a) == FiledKeys(default, b)
    ensures forall k :: k in a ==> k in b
  {
    forall k ensures k in a <==> k in b {
      assert k in Elements(a) <==> k in Elements(b);
    }
  }

  /** Filling in the default network a second time changes nothing. */
  lemma FilledAgain(default: Option<string>, wanted: seq<Key>, desired: seq<Key>)
    requires Elements(desired) == Elements(Fill(default, wanted)) && (default.Some? ==> default.value != "")
    ensures Fill(default, desired) == desired
    ensures forall k :: k in desired ==> exists w :: w in wanted && k == Filed(default, w)
  {
    SameElements(default, desired, Fill(default, wanted));
    forall i | 0 <= i < |desired| ensures Filed(default, desired[i]) == desired[i] {
      assert desired[i] in Fill(default, wanted);
    }
  }

  /** A converged tunnel has nothing to delete. */
  lemma ConvergedKeeps(routes: map<Id, Teamnet>, default: Option<string>, tunnel: string, spec: seq<Key>, existing: seq<Id>, desired: seq<Key>)
    requires Prepared(default, Wanted(spec), existing, desired) && (default.Some? ==> default.value != "")
    requires Elements(existing) == Owned(routes, tunnel)
    requires Converged(routes, default, tunnel, spec)
    ensures NothingToPrune(routes, tunnel, desired)
  {
    FillKeeps(default, Wanted(spec));
    forall x | x in Owned(routes, tunnel) ensures KeyOf(routes[x]) in desired {
      assert x in Elements(existing);
      assert KeyOf(routes[x]) in Elements(desired);
    }
  }

  /** A converged tunnel has nothing to create either. */
  lemma ConvergedHasAll(routes: map<Id, Teamnet>, default: Option<string>, tunnel: string, spec: seq<Key>,
                        existing: seq<Id>, desired: seq<Key>, holder: map<nat, Id>)
    requires Prepared(default, Wanted(spec), existing, desired) && (default.Some? ==> default.value != "")
    requires Elements(existing) == Owned(routes, tunnel) && Converged(routes, default, tunnel, spec)
    requires Stocked(routes, routes, tunnel, desired, holder)
    ensures HasAll(holder, |desired|)
  {
    PreparedFacts(default, spec, existing, desired);
    forall i: nat | i < |desired| ensures i in holder {
      assert Filed(default, desired[i]) in FiledKeys(default, desired);
      var x :| x in Owned(routes, tunnel) && KeyOf(routes[x]) == Filed(default, desired[i]);
      assert x in Elements(existing);
      assert Fill(default, desired)[i] == desired[i];
      HeldOnce(routes, tunnel, desired, holder, i, x);
    }
  }

  /** A route of the tunnel under an entry's key is the one that holds the entry. */
  lemma HeldOnce(routes: map<Id, Teamnet>, tunnel: string, desired: seq<Key>, holder: map<nat, Id>, i: nat, x: Id)
    requires Stocked(routes, routes, tunnel, desired, holder) && Distinct(desired)
    requires i < |desired| && x in Owned(routes, tunnel) && KeyOf(routes[x]) == desired[i]
    ensures i in holder
  {
    assert x in holder.Values;
    var j :| j in holder && holder[j] == x;
    assert desired[j] == desired[i];
  }

  lemma StockedConverges(was: map<Id, Teamnet>, routes: map<Id, Teamnet>, default: Option<string>, tunnel: string, spec: seq<Key>,
                         existing: seq<Id>, desired: seq<Key>, holder: map<nat, Id>)
    requires Prepared(default, Wanted(spec), existing, desired) && (default.Some? ==> default.value != "")
    requires Stocked(was, routes, tunnel, Fill(default, desired), holder)
    requires HasAll(holder, |desired|)
    ensures Converged(routes, default, tunnel, spec)
  {
    PreparedFacts(default, spec, existing, desired);
    var keys := Fill(default, desired);
    FillKeeps(default, desired);
    HoldersKeys(was, routes, tunnel, keys, holder);
  }

  /** The keys of the routes are those of the entries, when each entry is held. */
  lemma HoldersKeys(was: map<Id, Teamnet>, routes: map<Id, Teamnet>, tunnel: string, keys: seq<Key>, holder: map<nat, Id>)
    requires Stocked(was, routes, tunnel, keys, holder) && HasAll(holder, |keys|)
    ensures (set x | x in Owned(routes, tunnel) :: KeyOf(routes[x])) == Elements(keys)
  {
    forall x | x in Owned(routes, tunnel) ensures KeyOf(routes[x]) in Elements(keys) {
      var i :| i in holder && holder[i] == x;
      assert keys[i] in Elements(keys);
    }
    forall k | k in Elements(keys) ensures exists x :: x in Owned(routes, tunnel) && KeyOf(routes[x]) == k {
      var i: nat :| i < |keys| && keys[i] == k;
      assert holder[i] in holder.Values;
    }
  }

  /** What Prune leaves is what CreateMissing starts from. */
  lemma PrunedStocks(was: map<Id, Teamnet>, routes: map<Id, Teamnet>, default: Option<string>, tunnel: string, desired: seq<Key>,
                     existing: seq<Id>, holder: map<nat, Id>)
    requires (routes, holder) in Prunes(was, tunnel, desired, existing, []) && Distinct(desired)
    requires existing != [] ==> Fill(default, desired) == desired
    ensures (routes, holder) in Stocks(was, tunnel, Fill(default, desired))
    ensures Stocked(was, routes, tunnel, desired, holder)
  {
    PrunesHold(was, routes, tunnel, desired, existing, [], holder);
    PrunedIsStocked(was, routes, tunnel, desired, existing, holder);
    StocksHold(was, routes, tunnel, Fill(default, desired), holder);
    assert forall i :: i in holder ==> holder[i] in holder.Values;
    assert existing == [] ==> holder.Values == {};
  }

  /** The entries one reconcile works with. */
  method Prepare(api: Account, wanted: seq<Key>, existing: seq<Id>) returns (ok: bool, desired: seq<Key>, problems: seq<Problem>)
    requires api.Valid()
    modifies api`calls
    ensures api.Valid() && (api.Smooth() ==> ok)
    ensures ok ==> Prepared(api.default, wanted, existing, desired) && |desired| + |problems| == |wanted|
    ensures ok ==> forall p :: p in problems ==> p.ListedTwice?
  {
    var resolved: seq<Key>;
    problems := [];
    ok, resolved := ResolveVirtualNetworks(api, wanted, existing);
    if !ok { return false, [], []; }
    desired, problems := Dedupe(resolved);
  }

  /** Everything after the routes have been listed. */
  method Converge(api: Account, tunnel: string, ghost spec: seq<Key>, wanted: seq<Key>, existing: seq<Id>, noted: seq<Problem>)
    returns (result: Result)
    requires api.Valid() && wanted == Wanted(spec) && noted == Unreadable(spec) && |wanted| + |noted| == |spec|
    requires Distinct(existing) && Elements(existing) == Owned(api.routes, tunnel)
    modifies api
    ensures api.Valid() && Others(api.routes, tunnel) == Others(old(api.routes), tunnel)
    ensures api.Smooth() ==> result.Routes? && AllRouted(api.routes, api.default, result.problems)
    ensures result.Routes? ==> result.ready + |result.problems| == |spec|
    ensures result.Routes? && (forall p :: p in result.problems ==> !p.Refused?) ==> Converged(api.routes, api.default, tunnel, spec)
    ensures Converged(old(api.routes), api.default, tunnel, spec) ==> api.routes == old(api.routes) && api.writes == old(api.writes)
  {
    ghost var was := api.routes;
    var ok, desired, twice := Prepare(api, wanted, existing);
    if !ok { return Error; }
    PreparedFacts(api.default, spec, existing, desired);
    ghost var settled := Converged(was, api.default, tunnel, spec);
    if settled { ConvergedKeeps(was, api.default, tunnel, spec, existing, desired); }
    var held: nat, matched: seq<bool>;
    ghost var first: map<nat, Id>, holder: map<nat, Id>;
    ok, held, matched, first := Prune(api, tunnel, desired, existing);
    if !ok { return Error; }
    PrunedStocks(was, api.routes, api.default, tunnel, desired, existing, first);
    if settled { ConvergedHasAll(was, api.default, tunnel, spec, existing, desired, first); }
    var ready: nat, refused: seq<Problem>;
    ok, ready, refused, holder := CreateMissing(api, tunnel, desired, matched, held, was, first);
    if !ok { return Error; }
    result := Routes(ready, noted + twice + refused);
    UnreadableOnly(spec);
    assert forall p :: p in result.problems && p.Refused? ==> p in refused;
    if refused == [] {
      StocksHold(was, api.routes, tunnel, Fill(api.default, desired), holder);
      StockedConverges(was, api.routes, api.default, tunnel, spec, existing, desired, holder);
    } else {
      assert refused[0] in result.problems;
    }
  }

  /** Converges the account's routes for the tunnel on spec.routes. In every run that
      does not end in an error and may manage routes, each entry is ready or one
      problem; where none was refused, the tunnel's routes are exactly one per
      network and virtual network; a run that starts there creates and deletes
      nothing; and no run touches the route of another tunnel. */
  method ReconcileRoutes(api: Account, tunnel: string, spec: seq<Key>) returns (result: Result, ghost listed: bool)
    requires api.Valid()
    modifies api
    ensures api.Valid() && Others(api.routes, tunnel) == Others(old(api.routes), tunnel)
    ensures api.Smooth() ==> result.Routes? && listed && AllRouted(api.routes, api.default, result.problems)
    ensures result.Routes? && listed ==> result.ready + |result.problems| == |spec|
    ensures result.Routes? && !listed ==> result.ready == 0 && (spec == [] || NotPermitted in result.problems)
    ensures result.Routes? && listed && (forall p :: p in result.problems ==> !p.Refused?) ==>
              Converged(api.routes, api.default, tunnel, spec)
    ensures !listed || Converged(old(api.routes), api.default, tunnel, spec) ==>
              api.routes == old(api.routes) && api.writes == old(api.writes)
  {
    var wanted, problems := ParseRoutes(spec);
    var a, existing := api.ListRoutes(tunnel);
    listed := a.Served?;
    if a.Forbidden? && spec == [] { return Routes(0, []), false; }
    if a.Forbidden? { return Routes(0, problems + [NotPermitted]), false; }
    if !a.Served? { return Error, false; }
    result := Converge(api, tunnel, spec, wanted, existing, problems);
  }

  /** Deletes every route of the tunnel, and none of another's. */
  method DeleteRoutes(api: Account, tunnel: string) returns (ok: bool, ghost listed: bool)
    requires api.Valid()
    modifies api
    ensures api.Valid() && Others(api.routes, tunnel) == Others(old(api.routes), tunnel)
    ensures api.Smooth() ==> ok && listed
    ensures ok && listed ==> Owned(api.routes, tunnel) == {}
    ensures !listed ==> api.routes == old(api.routes)
  {
    var a, existing := api.ListRoutes(tunnel);
    listed := a.Served?;
    if a.Forbidden? { return true, false; }
    if !a.Served? { return false, false; }
    ghost var was := api.routes;
    for k := 0 to |existing|
      invariant api.Valid() && Others(api.routes, tunnel) == Others(was, tunnel)
      invariant Owned(api.routes, tunnel) == Elements(existing[k..])
    {
      SliceStep(existing, k);
      ghost var before := api.routes;
      ok := api.DeleteRoute(existing[k]);
      DropOne(before, tunnel, existing, k);
      if !ok { return; }
      assert api.routes == before - {existing[k]};
    }
    ok := true;
    assert existing[|existing|..] == [];
  }

  lemma DropOne(routes: map<Id, Teamnet>, tunnel: string, existing: seq<Id>, k: nat)
    requires k < |existing| && Distinct(existing) && Owned(routes, tunnel) == Elements(existing[k..])
    ensures Owned(routes - {existing[k]}, tunnel) == Elements(existing[k + 1..])
    ensures Others(routes - {existing[k]}, tunnel) == Others(routes, tunnel)
  {
    SliceStep(existing, k);
    ElementsSplit(existing[k..]);
    assert existing[k] !in existing[k + 1..];
    assert existing[k] !in Elements(existing[k + 1..]);
    assert Owned(routes - {existing[k]}, tunnel) == Owned(routes, tunnel) - {existing[k]};
  }
}
