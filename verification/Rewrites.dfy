/** Rewriting the matched prefix of a path, and the paths gRPC calls travel on. */
module Rewrites {
  import opened Text
  import opened GatewayModel
  import opened Paths
  import E = Envoy

  // ---- prefix rewriting ----

  function PrefixRewriteOf(m: Match, replacement: string): E.PathRewrite {
    var prefix := TrimSuffix(PathOf(m).1, "/");
    var trimmed := TrimSuffix(replacement, "/");
    if trimmed == "" then E.StripPrefix(prefix) else E.SubstitutePrefix(prefix, trimmed)
  }

  function TrimSlashes(s: string): (t: string)
    ensures t == "" || t[0] != '/'
    ensures |t| <= |s| && s[|s| - |t|..] == t
    ensures forall i :: 0 <= i < |s| - |t| ==> s[i] == '/'
  {
    if s != "" && s[0] == '/' then TrimSlashes(s[1..]) else s
  }

  /** What Envoy makes of a path; a pattern that does not match leaves it alone. */
  function Rewrite(rw: E.PathRewrite, path: string): string {
    match rw
    case ReplaceAll(s) => s
    case StripPrefix(p) => if HasPrefix(path, p) then "/" + TrimSlashes(path[|p|..]) else path
    case SubstitutePrefix(p, s) =>
      if path == p || HasPrefix(path, p + "/") then s + path[|p|..] else path
  }

  predicate PrefixMatch(m: Match) {
    PathOf(m).0 == PathPrefix
  }

  function PrefixOf(m: Match): string {
    TrimSuffix(PathOf(m).1, "/")
  }

  /** The remainder of an accepted path is empty or starts a new element. */
  lemma AcceptedRemainder(m: Match, path: string, re: E.Matches)
    requires PrefixMatch(m) && PathAccepted(m, path, re)
    ensures HasPrefix(path, PrefixOf(m))
    ensures var rest := path[|PrefixOf(m)|..];
            path == PrefixOf(m) + rest && (rest == "" || rest[0] == '/') &&
            (path == PrefixOf(m) || HasPrefix(path, PrefixOf(m) + "/"))
  {
    var prefix := PrefixOf(m);
    SplitPrefix(prefix, path);
    if path == prefix {
      assert path[..|prefix|] == prefix;
    } else {
      assert path[..|prefix|] == (prefix + "/")[..|prefix|] == prefix;
      assert path[..|prefix| + 1][|prefix|] == '/';
    }
  }

  lemma {:induction false} SplitConcat(p: string, t: string)
    ensures Split(p + "/" + t) == Split(p) + Split(t)
  {
    var s := p + "/" + t;
    if p == "" {
      assert s == "/" + t && s[1..] == t;
    } else {
      assert s[1..] == p[1..] + "/" + t && s[0] == p[0];
      SplitConcat(p[1..], t);
    }
  }

  /** Element by element, the elements the prefix matched become those of the
      replacement and the others stay as they are. */
  lemma RewriteReplacesElements(m: Match, replacement: string, path: string, re: E.Matches)
    requires PrefixMatch(m) && PathAccepted(m, path, re)
    requires TrimSuffix(replacement, "/") != ""
    ensures Split(Rewrite(PrefixRewriteOf(m, replacement), path)) ==
            Split(TrimSuffix(replacement, "/")) + Split(path)[|Split(PrefixOf(m))|..]
  {
    AcceptedRemainder(m, path, re);
    var prefix, trimmed := PrefixOf(m), TrimSuffix(replacement, "/");
    var rest := path[|prefix|..];
    assert Rewrite(PrefixRewriteOf(m, replacement), path) == trimmed + rest;
    if rest == "" {
      assert trimmed + rest == trimmed && path == prefix;
    } else {
      assert rest == "/" + rest[1..];
      assert trimmed + rest == trimmed + "/" + rest[1..] && path == prefix + "/" + rest[1..];
      SplitConcat(trimmed, rest[1..]);
      SplitConcat(prefix, rest[1..]);
    }
  }

  /** One slash, then what is left of the path once the prefix and the slashes
      after it are gone. */
  predicate OneSlashThenRest(out: string, prefix: string, path: string) {
    out != "" && out[0] == '/' && (|out| > 1 ==> out[1] != '/') &&
    HasSuffix(path, out[1..]) && |prefix| + |out| - 1 <= |path| &&
    forall i :: |prefix| <= i < |path| - |out| + 1 ==> path[i] == '/'
  }

  /** An empty replacement, or "/", removes the prefix and leaves one slash. */
  lemma RewriteRemovesPrefix(m: Match, replacement: string, path: string, re: E.Matches)
    requires PrefixMatch(m) && PathAccepted(m, path, re)
    requires TrimSuffix(replacement, "/") == ""
    ensures OneSlashThenRest(Rewrite(PrefixRewriteOf(m, replacement), path), PrefixOf(m), path)
  {
    AcceptedRemainder(m, path, re);
    var prefix := PrefixOf(m);
    var rest := path[|prefix|..];
    var out := Rewrite(PrefixRewriteOf(m, replacement), path);
    assert out == "/" + TrimSlashes(rest) && out[1..] == TrimSlashes(rest);
    SuffixTransitive(TrimSlashes(rest), rest, path);
    forall i | |prefix| <= i < |path| - |TrimSlashes(rest)| ensures path[i] == '/' {
      assert path[i] == rest[i - |prefix|];
    }
  }

  /** One trailing slash, in the match or in the replacement, changes nothing. */
  lemma TrailingSlashIgnored(m: Match, v: string, replacement: string)
    requires m.path == Some(PathMatch(Some(PathPrefix), Some(v))) && !HasSuffix(v, "/") && !HasSuffix(replacement, "/")
    ensures var slashed := m.(path := Some(PathMatch(Some(PathPrefix), Some(v + "/"))));
            PrefixRewriteOf(slashed, replacement) == PrefixRewriteOf(m, replacement) == PrefixRewriteOf(m, replacement + "/") &&
            PathSpecifierOf(slashed) == PathSpecifierOf(m)
  {
    assert TrimSuffix(v + "/", "/") == v && TrimSuffix(replacement + "/", "/") == replacement;
  }

  /** Rewriting a to b and then b to a is the identity on the paths a accepts. */
  lemma RewriteInverts(a: Match, b: Match, path: string, re: E.Matches)
    requires PrefixMatch(a) && PrefixMatch(b) && PrefixOf(a) != "" && PrefixOf(b) != ""
    requires PathAccepted(a, path, re)
    ensures var there := Rewrite(PrefixRewriteOf(a, PathOf(b).1), path);
            PathAccepted(b, there, re) && Rewrite(PrefixRewriteOf(b, PathOf(a).1), there) == path
  {
    AcceptedRemainder(a, path, re);
    var pa, pb := PrefixOf(a), PrefixOf(b);
    var rest := path[|pa|..];
    var there := Rewrite(PrefixRewriteOf(a, PathOf(b).1), path);
    assert there == pb + rest && there[|pb|..] == rest;
    if rest != "" {
      assert there[..|pb| + 1] == pb + "/";
    }
    SplitPrefix(pb, there);
  }

  // ---- gRPC ----

  datatype GrpcMethodMatch = GrpcMethodMatch(regex: bool, service: Option<string>, method_: Option<string>)

  const SEGMENT := "[^/]+"

  function OrEmpty(s: Option<string>): string {
    if s.Some? then s.value else ""
  }

  /** The path match a method match compiles to. `quote` escapes what is special
      in a regular expression. */
  function GrpcPath(m: GrpcMethodMatch, quote: string -> string): Option<PathMatch> {
    var service, method_ := OrEmpty(m.service), OrEmpty(m.method_);
    if m.regex then
      Some(PathMatch(Some(RegularExpression),
        Some("/" + (if service == "" then SEGMENT else service) + "/" + (if method_ == "" then SEGMENT else method_))))
    else if service != "" && method_ != "" then Some(PathMatch(Some(Exact), Some("/" + service + "/" + method_)))
    else if service != "" then Some(PathMatch(Some(PathPrefix), Some("/" + service)))
    else if method_ != "" then Some(PathMatch(Some(RegularExpression), Some("/" + SEGMENT + "/" + quote(method_))))
    else None
  }

  /** What the one regular expression GrpcPath writes for a bare method matches:
      any one service, and the method. */
  ghost predicate HonoursSegments(re: E.Matches, quote: string -> string) {
    forall method_, path ::
      re("/" + SEGMENT + "/" + quote(method_), path) <==>
      exists s :: s != "" && '/' !in s && path == "/" + s + "/" + method_
  }

  predicate IsName(s: string) {
    s != "" && '/' !in s
  }

  lemma CallPathInjective(s: string, m: string, s': string, m': string)
    requires '/' !in s && '/' !in s'
    requires "/" + s + "/" + m == "/" + s' + "/" + m'
    ensures s == s' && m == m'
  {
    assert "/" + s + "/" + m == "/" + (s + ['/'] + m) && "/" + s' + "/" + m' == "/" + (s' + ['/'] + m');
    assert ("/" + s + "/" + m)[1..] == s + ['/'] + m && ("/" + s' + "/" + m')[1..] == s' + ['/'] + m';
    SeparatorSplits('/', s, m, s', m');
  }

  lemma {:induction false} SplitName(s: string)
    requires '/' !in s
    ensures Split(s) == [s]
  {
    if s != "" {
      SplitName(s[1..]);
      assert s == [s[0]] + s[1..];
    }
  }

  /** A call of method mt of service s is accepted exactly when the constraints
      of an exact method match hold. */
  lemma GrpcPathMeans(m: GrpcMethodMatch, quote: string -> string, rest: Match, s: string, mt: string, re: E.Matches)
    requires !m.regex && HonoursSegments(re, quote)
    requires '/' !in OrEmpty(m.service) && '/' !in OrEmpty(m.method_)
    requires IsName(s) && IsName(mt)
    ensures PathAccepted(rest.(path := GrpcPath(m, quote)), "/" + s + "/" + mt, re) <==>
            (OrEmpty(m.service) == "" || OrEmpty(m.service) == s) && (OrEmpty(m.method_) == "" || OrEmpty(m.method_) == mt)
  {
    var service, method_ := OrEmpty(m.service), OrEmpty(m.method_);
    var path := "/" + s + "/" + mt;
    CallElements(s, mt);
    if service != "" && method_ != "" {
      if path == "/" + service + "/" + method_ { CallPathInjective(s, mt, service, method_); }
    } else if service != "" {
      ServiceElements(service);
      ConsPrefix("", [service], "", [s, mt]);
      ConsPrefix(service, [], s, [mt]);
      assert ["", service] == [""] + [service] && ["", s, mt] == [""] + [s, mt];
      assert [service] == [service] + [] && [s, mt] == [s] + [mt];
      assert TrimSuffix("/" + service, "/") == "/" + service by {
        assert ("/" + service)[|service|] == service[|service| - 1];
      }
    } else if method_ != "" {
      if mt == method_ {
        assert re("/" + SEGMENT + "/" + quote(method_), path);
      }
      forall t | t != "" && '/' !in t && path == "/" + t + "/" + method_ ensures mt == method_ {
        CallPathInjective(s, mt, t, method_);
      }
    } else {
      assert TrimSuffix("/", "/") == "";
      assert [""] <= ["", s, mt];
    }
  }

  lemma ServiceElements(service: string)
    requires '/' !in service
    ensures Split("/" + service) == ["", service]
  {
    assert ("/" + service)[1..] == service;
    SplitName(service);
  }

  lemma CallElements(s: string, mt: string)
    requires '/' !in s && '/' !in mt
    ensures Split("/" + s + "/" + mt) == ["", s, mt]
  {
    SplitConcat("/" + s, mt);
    ServiceElements(s);
    SplitName(mt);
  }
}
