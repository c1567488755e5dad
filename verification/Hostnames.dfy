/** The hostname patterns of Gateway API: exact names, wildcards `*.suffix`, and
    `*` for any host. Covering is a partial order whose down-sets towards a
    common host are chains, which is what lets "the most specific" be unique. */
module Hostnames {
  import opened Text
  import opened Sorting

  /** A hostname the API server admits, or the `*` that stands for none: never
      empty, and a star only alone or as a whole first label. */
  predicate Pattern(p: string) {
    p != "" && (p == "*" || HasPrefix(p, "*.") || p[0] != '*')
  }

  predicate IsWildcard(p: string) {
    HasPrefix(p, "*.")
  }

  predicate MatchesHost(pattern: string, host: string) {
    pattern == host ||
    (HasPrefix(pattern, "*.") && HasSuffix(host, pattern[1..]) && |host| > |pattern[1..]|)
  }

  predicate HostCovers(pattern: string, host: string) {
    pattern == "*" || MatchesHost(pattern, host)
  }

  function ExactChars(host: string): nat {
    |TrimPrefix(host, "*")|
  }

  /** Go's three-way comparison behind moreSpecific and behind the first two keys
      of compareEntries. */
  function CompareSpecificity(a: string, b: string): int {
    Or(CompareInt(ExactChars(a), ExactChars(b)), CompareInt(|a|, |b|))
  }

  predicate MoreSpecific(a: string, b: string) {
    CompareSpecificity(a, b) > 0
  }

  // ---- covering is a partial order ----

  lemma CoversTransitive(p: string, q: string, h: string)
    requires HostCovers(p, q) && HostCovers(q, h)
    ensures HostCovers(p, h)
  {
    if p != "*" && p != q && q != h {
      assert q != "*" by { assert |q| > |p[1..]|; }
      assert HasSuffix(q[1..], p[1..]) by { SuffixesNest(p[1..], q[1..], q); }
      SuffixTransitive(p[1..], q[1..], h);
    }
  }

  lemma SameLengthSameWildcard(p: string, q: string)
    requires IsWildcard(p) && HasPrefix(q, "*") && HasSuffix(q, p[1..]) && |p| == |q|
    ensures p == q
  {
    assert p == [p[0]] + p[1..] && q == [q[0]] + q[1..];
  }

  lemma CoversAntisymmetric(p: string, q: string)
    requires HostCovers(p, q) && HostCovers(q, p)
    ensures p == q
  {
    if IsWildcard(p) && IsWildcard(q) {
      SameLengthSameWildcard(p, q);
    }
  }

  /** Two patterns covering a common host are comparable. */
  lemma CoversComparable(p: string, q: string, h: string)
    requires HostCovers(p, h) && HostCovers(q, h)
    ensures HostCovers(p, q) || HostCovers(q, p)
  {
    if p != "*" && q != "*" && p != h && q != h {
      if |p| <= |q| {
        SuffixesNest(p[1..], q[1..], h);
        SuffixTransitive(p[1..], q[1..], q);
      } else {
        SuffixesNest(q[1..], p[1..], h);
        SuffixTransitive(q[1..], p[1..], p);
      }
    }
  }

  /** The order of specificity refines covering: whatever is strictly covered is
      strictly more specific. */
  lemma CoveredIsMoreSpecific(p: string, q: string)
    requires HostCovers(p, q) && p != q && q != ""
    ensures MoreSpecific(q, p) && !MoreSpecific(p, q)
  {
    if p != "*" {
      assert |q| >= |p| && ExactChars(p) == |p| - 1;
      if HasPrefix(q, "*") {
        assert ExactChars(q) == |q| - 1;
        assert |q| != |p| by {
          if |q| == |p| { SameLengthSameWildcard(p, q); }
        }
      }
    }
  }

  /** Among patterns covering one host, specificity decides covering. */
  lemma SpecificityDecides(p: string, q: string, h: string)
    requires HostCovers(p, h) && HostCovers(q, h) && p != "" && q != ""
    ensures HostCovers(p, q) <==> !MoreSpecific(p, q)
    ensures MoreSpecific(p, q) <==> HostCovers(q, p) && p != q
    ensures CompareSpecificity(p, q) == 0 <==> p == q
  {
    CoversComparable(p, q, h);
    if p != q {
      if HostCovers(p, q) {
        CoveredIsMoreSpecific(p, q);
        if HostCovers(q, p) { CoversAntisymmetric(p, q); }
      } else {
        CoveredIsMoreSpecific(q, p);
      }
    }
  }

  // ---- intersection ----

  /** The hostname a listener without one stands for. */
  function ListenerHost(listener: Option<string>): string {
    if listener.Some? && listener.value != "" then listener.value else "*"
  }

  /** What a route serves on a listener, taken one route hostname at a time. */
  function Meet(lh: string, rh: string): Option<string> {
    if lh == "*" || MatchesHost(lh, rh) then Some(rh)
    else if MatchesHost(rh, lh) then Some(lh)
    else None
  }

  /** A meet covers exactly the hosts both patterns cover. */
  lemma MeetIsExact(lh: string, rh: string, h: string)
    requires rh != "*"
    ensures HostCovers(lh, h) && HostCovers(rh, h) <==>
            Meet(lh, rh).Some? && HostCovers(Meet(lh, rh).value, h)
  {
    if HostCovers(lh, h) && HostCovers(rh, h) {
      CoversComparable(lh, rh, h);
    }
    var m := Meet(lh, rh);
    if m.Some? && HostCovers(m.value, h) {
      if m.value == rh { CoversTransitive(lh, rh, h); }
      else { CoversTransitive(rh, lh, h); }
    }
  }

  ghost predicate Served(lh: string, route: seq<string>, h: string) {
    HostCovers(lh, h) && (route == [] || exists r :: r in route && HostCovers(r, h))
  }

  ghost predicate SomeCovers(hosts: seq<string>, h: string) {
    exists p :: p in hosts && HostCovers(p, h)
  }

  /** What Intersect returns covers a host exactly when the listener's hostname
      covers it and, if the route has hostnames, one of them does too. A route hostname is never a bare `*`. */
  method Intersect(listener: Option<string>, route: seq<string>) returns (out: seq<string>)
    requires "*" !in route
    ensures forall h :: SomeCovers(out, h) <==> Served(ListenerHost(listener), route, h)
    ensures forall p :: p in out ==> HostCovers(ListenerHost(listener), p)
    ensures forall p :: p in out ==> p == ListenerHost(listener) || p in route
    ensures Distinct(out)
    ensures forall p :: p in out <==> p in IntersectSet(listener, route)
    ensures out == IntersectSeq(listener, route)
  {
    var lh := ListenerHost(listener);
    if route == [] {
      out := [lh];
      assert lh in out;
      return;
    }

    out := [];
    var seen: set<string> := {};
    for i := 0 to |route|
      invariant seen == Elements(out)
      invariant Distinct(out)
      invariant forall p :: p in out <==> exists j :: 0 <= j < i && Meet(lh, route[j]) == Some(p)
      invariant out == Meets(lh, route[..i])
    {
      assert route[..i + 1][..i] == route[..i];
      var rh := route[i];
      var host;
      if lh == "*" {
        host := rh;
      } else if MatchesHost(lh, rh) {
        host := rh;
      } else if MatchesHost(rh, lh) {
        host := lh;
      } else {
        continue;
      }
      assert Meet(lh, rh) == Some(host);
      if host !in seen {
        seen := seen + {host};
        out := out + [host];
      }
    }

    assert route[..|route|] == route;
    forall h ensures SomeCovers(out, h) <==> Served(lh, route, h) {
      MeetsServe(lh, route, out, h);
    }
  }

  /** The meets of the route's hostnames, in their order and each once. */
  ghost function Meets(lh: string, route: seq<string>): seq<string> {
    if route == [] then []
    else
      var before := Meets(lh, route[..|route| - 1]);
      match Meet(lh, route[|route| - 1])
      case None => before
      case Some(h) => if h in before then before else before + [h]
  }

  ghost function IntersectSeq(listener: Option<string>, route: seq<string>): seq<string> {
    if route == [] then [ListenerHost(listener)] else Meets(ListenerHost(listener), route)
  }

  lemma {:induction false} MeetsDistinct(lh: string, route: seq<string>)
    ensures Distinct(Meets(lh, route))
    ensures forall p :: p in Meets(lh, route) <==> exists r :: r in route && Meet(lh, r) == Some(p)
  {
    if route != [] {
      var n := |route| - 1;
      var before := Meets(lh, route[..n]);
      MeetsDistinct(lh, route[..n]);
      assert forall r :: r in route <==> r in route[..n] || r == route[n] by { assert route == route[..n] + [route[n]]; }
      assert forall j :: 0 <= j < |before| ==> before[j] in before;
    }
  }

  lemma IntersectSeqIsSet(listener: Option<string>, route: seq<string>)
    ensures Distinct(IntersectSeq(listener, route)) && Elements(IntersectSeq(listener, route)) == IntersectSet(listener, route)
  {
    MeetsDistinct(ListenerHost(listener), route);
  }

  /** The same hostnames as a set. */
  ghost function IntersectSet(listener: Option<string>, route: seq<string>): set<string> {
    var lh := ListenerHost(listener);
    if route == [] then {lh}
    else set r | r in route && Meet(lh, r).Some? :: Meet(lh, r).value
  }

  lemma MeetsServe(lh: string, route: seq<string>, out: seq<string>, h: string)
    requires route != [] && "*" !in route
    requires forall p :: p in out <==> exists j :: 0 <= j < |route| && Meet(lh, route[j]) == Some(p)
    ensures SomeCovers(out, h) <==> Served(lh, route, h)
  {
    if SomeCovers(out, h) {
      var p :| p in out && HostCovers(p, h);
      var j :| 0 <= j < |route| && Meet(lh, route[j]) == Some(p);
      MeetIsExact(lh, route[j], h);
      assert route[j] in route;
    }
    if Served(lh, route, h) {
      var r :| r in route && HostCovers(r, h);
      var j :| 0 <= j < |route| && route[j] == r;
      MeetIsExact(lh, r, h);
      assert Meet(lh, route[j]).value in out;
    }
  }
}
