/** Path matching, method paths and prefix rewriting. */
module Paths {
  import opened Text
  import opened GatewayModel
  import E = Envoy

  // ---- what Gateway API says a match means ----

  /** The labels of a path, split at every slash. */
  function Split(s: string): (parts: seq<string>)
    ensures parts != []
  {
    if s == [] then [""]
    else
      var rest := Split(s[1..]);
      if s[0] == '/' then [""] + rest else [[s[0]] + rest[0]] + rest[1..]
  }

  function PathOf(m: Match): (PathType, string) {
    match m.path
    case None => (PathPrefix, "/")
    case Some(p) =>
      (if p.ptype.Some? then p.ptype.value else PathPrefix, if p.value.Some? then p.value.value else "/")
  }

  /** A prefix matches element by element, and a trailing slash in it is ignored. */
  predicate PathAccepted(m: Match, path: string, re: E.Matches) {
    var (t, v) := PathOf(m);
    match t
    case Exact => path == v
    case RegularExpression => re(v, path)
    case PathPrefix => Split(TrimSuffix(v, "/")) <= Split(path)
  }

  predicate ValueAccepted(m: ValueMatch, values: map<string, string>, re: E.Matches) {
    m.name in values && (if m.regex then re(m.value, values[m.name]) else values[m.name] == m.value)
  }

  /** Every part of a match has to hold. */
  predicate Accepts(m: Match, req: E.Request, re: E.Matches) {
    PathAccepted(m, req.path, re) &&
    (m.method_.Some? ==> req.verb == m.method_.value) &&
    (forall h :: h in m.headers ==> ValueAccepted(h, req.headers, re)) &&
    (forall q :: q in m.query ==> ValueAccepted(q, req.query, re))
  }

  /** What the API server admits: header names hold no colon. */
  predicate ValidMatch(m: Match) {
    forall h :: h in m.headers ==> ':' !in h.name
  }

  /** What HTTP admits: a path starts with a slash. */
  predicate ValidRequest(req: E.Request) {
    HasPrefix(req.path, "/")
  }

  // ---- the match emitted for it ----

  function StringMatch(m: ValueMatch): E.NamedMatcher {
    E.NamedMatcher(m.name, if m.regex then E.SafeRegex(m.value) else E.ExactValue(m.value))
  }

  function StringMatches(ms: seq<ValueMatch>): seq<E.NamedMatcher> {
    seq(|ms|, k requires 0 <= k < |ms| => StringMatch(ms[k]))
  }

  function PathSpecifierOf(m: Match): E.PathSpecifier {
    var (t, v) := PathOf(m);
    match t
    case Exact => E.Path(v)
    case RegularExpression => E.PathRegex(v)
    case PathPrefix =>
      var prefix := TrimSuffix(v, "/");
      if prefix == "" then E.Prefix("/") else E.PathSeparatedPrefix(prefix)
  }

  method RouteMatchFor(m: Match) returns (out: E.RouteMatch)
    ensures out == RouteMatchOf(m)
  {
    var headers := [];
    for i := 0 to |m.headers|
      invariant headers == StringMatches(m.headers[..i])
    {
      headers := headers + [StringMatch(m.headers[i])];
      assert m.headers[..i + 1][..i] == m.headers[..i];
    }
    assert m.headers[..|m.headers|] == m.headers;
    if m.method_.Some? {
      headers := headers + [E.NamedMatcher(":method", E.ExactValue(m.method_.value))];
    }
    var query := [];
    for i := 0 to |m.query|
      invariant query == StringMatches(m.query[..i])
    {
      query := query + [StringMatch(m.query[i])];
      assert m.query[..i + 1][..i] == m.query[..i];
    }
    assert m.query[..|m.query|] == m.query;
    out := E.RouteMatch(PathSpecifierOf(m), headers, query);
  }

  function RouteMatchOf(m: Match): E.RouteMatch {
    var method_ := if m.method_.Some? then [E.NamedMatcher(":method", E.ExactValue(m.method_.value))] else [];
    E.RouteMatch(PathSpecifierOf(m), StringMatches(m.headers) + method_, StringMatches(m.query))
  }

  lemma ConsPrefix<T>(x: T, xs: seq<T>, y: T, ys: seq<T>)
    ensures [x] + xs <= [y] + ys <==> x == y && xs <= ys
    ensures [x] + xs == [y] + ys <==> x == y && xs == ys
  {
    var a, b := [x] + xs, [y] + ys;
    assert a[0] == x && b[0] == y && a[1..] == xs && b[1..] == ys;
    if a <= b {
      assert b[..|a|][1..] == ys[..|xs|];
    }
    if x == y && xs <= ys {
      assert b[..|a|] == [y] + ys[..|xs|];
    }
  }

  /** Matching element by element is matching up to a slash. */
  lemma {:induction false} SplitPrefix(p: string, s: string)
    ensures Split(p) <= Split(s) <==> s == p || HasPrefix(s, p + "/")
  {
    if p == [] {
      assert p + "/" == "/" && Split(p) == [""];
      assert s != [] ==> (s[..1] == "/" <==> s[0] == '/');
      assert Split(s)[0] == "" <==> s == [] || s[0] == '/';
      assert [""] <= Split(s) <==> Split(s)[0] == "";
    } else if s != [] {
      SplitPrefix(p[1..], s[1..]);
      var a, b := Split(p[1..]), Split(s[1..]);
      assert p == [p[0]] + p[1..] && s == [s[0]] + s[1..];
      ConsPrefix(p[0], p[1..], s[0], s[1..]);
      assert p + "/" == [p[0]] + (p[1..] + "/");
      ConsPrefix(p[0], p[1..] + "/", s[0], s[1..]);
      assert HasPrefix(s, p + "/") <==> p + "/" <= s;
      assert HasPrefix(s[1..], p[1..] + "/") <==> p[1..] + "/" <= s[1..];
      ConsPrefix("", a, "", b);
      ConsPrefix("", a, [s[0]] + b[0], b[1..]);
      ConsPrefix([p[0]] + a[0], a[1..], "", b);
      assert a == [a[0]] + a[1..] && b == [b[0]] + b[1..];
      ConsPrefix(a[0], a[1..], b[0], b[1..]);
      ConsPrefix([p[0]] + a[0], a[1..], [s[0]] + b[0], b[1..]);
      ConsPrefix(p[0], a[0], s[0], b[0]);
    } else {
      assert Split(s) == [""];
      assert Split(p)[0] == "" ==> |Split(p)| >= 2;
    }
  }

  /** The emitted match accepts exactly the requests the Gateway's match does. */
  lemma MatchPreserved(m: Match, req: E.Request, re: E.Matches)
    requires ValidMatch(m) && ValidRequest(req)
    ensures E.RouteMatches(RouteMatchOf(m), req, re) <==> Accepts(m, req, re)
  {
    var (t, v) := PathOf(m);
    var prefix := TrimSuffix(v, "/");
    SplitPrefix(prefix, req.path);
    assert "" + "/" == "/";
    assert E.PathMatches(PathSpecifierOf(m), req.path, re) <==> PathAccepted(m, req.path, re);
    HeadersPreserved(m, req, re);
    QueryPreserved(m.query, req, re);
  }

  lemma HeadersPreserved(m: Match, req: E.Request, re: E.Matches)
    requires ValidMatch(m)
    ensures (forall h :: h in RouteMatchOf(m).headers ==> E.ValueMatches(h.matcher, E.HeaderValue(req, h.name), re)) <==>
            (m.method_.Some? ==> req.verb == m.method_.value) &&
            (forall h :: h in m.headers ==> ValueAccepted(h, req.headers, re))
  {
    var out := RouteMatchOf(m).headers;
    var method_ := E.NamedMatcher(":method", E.ExactValue(if m.method_.Some? then m.method_.value else ""));
    forall k | 0 <= k < |m.headers|
      ensures out[k] == StringMatch(m.headers[k])
      ensures E.ValueMatches(out[k].matcher, E.HeaderValue(req, out[k].name), re) <==> ValueAccepted(m.headers[k], req.headers, re)
    {
      assert ':' !in m.headers[k].name;
      assert ":method"[0] == ':';
    }
    assert forall h :: h in out <==> (exists k :: 0 <= k < |m.headers| && h == out[k]) || (m.method_.Some? && h == method_);
    forall h | h in m.headers ensures StringMatch(h) in out {
      var k :| 0 <= k < |m.headers| && m.headers[k] == h;
      assert out[k] == StringMatch(h);
    }
  }

  lemma QueryPreserved(ms: seq<ValueMatch>, req: E.Request, re: E.Matches)
    ensures (forall q :: q in StringMatches(ms) ==> E.ValueMatches(q.matcher, E.QueryValue(req, q.name), re)) <==>
            (forall q :: q in ms ==> ValueAccepted(q, req.query, re))
  {
    var out := StringMatches(ms);
    forall q | q in ms ensures StringMatch(q) in out {
      var k :| 0 <= k < |ms| && ms[k] == q;
      assert out[k] == StringMatch(q);
    }
    forall k | 0 <= k < |ms|
      ensures E.ValueMatches(out[k].matcher, E.QueryValue(req, out[k].name), re) <==> ValueAccepted(ms[k], req.query, re)
    {
    }
    assert forall q :: q in out ==> exists k :: 0 <= k < |ms| && q == out[k];
  }
}
