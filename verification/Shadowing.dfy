/** Whether the rules before it leave a tunnel rule anything: a name that DNS can carry
    and that the rule is the first to match. */
module Shadowing {
  import opened Text
  import opened Sorting
  import opened Hostnames
  import opened GatewayModel
  import opened Tunnel
  import opened TunnelMeaning
  import E = Envoy

  // ---- names DNS can carry ----

  predicate Alnum(c: char) {
    'a' <= c <= 'z' || '0' <= c <= '9'
  }

  /** Labels of 1 to 63 letters, digits and inner hyphens, 253 characters in all. */
  ghost predicate DnsHost(h: string) {
    && 0 < |h| <= 253 && (forall c :: c in h ==> Alnum(c) || c == '-' || c == '.')
    && Alnum(h[0]) && Alnum(h[|h| - 1])
    && (forall i :: 0 < i < |h| - 1 && h[i] == '.' ==> Alnum(h[i - 1]) && Alnum(h[i + 1]))
    && (forall i: nat :: DotWithin(h, i))
  }

  /** No label is longer than 63 characters from here. */
  predicate DotWithin(h: string, i: nat) {
    i + 64 <= |h| ==> '.' in h[i..i + 64]
  }

  /** What follows a dot of a name is a name. */
  lemma {:induction false} SuffixIsHost(h: string, x: string)
    requires DnsHost(h) && HasSuffix(h, "." + x) && |h| > |x| + 1
    ensures DnsHost(x)
  {
    var n := |h| - |x|;
    assert h[n - 1..] == "." + x && h[n..] == x;
    assert h[n - 1] == '.';
    assert x != [] by { assert h[|h| - 1] != '.'; }
    assert forall i :: 0 <= i < |x| ==> x[i] == h[n + i];
    forall i: nat ensures DotWithin(x, i) {
      assert DotWithin(h, n + i);
      if i + 64 <= |x| { assert x[i..i + 64] == h[n + i..n + i + 64]; }
    }
  }

  /** A label before a name makes a name, when it fits. */
  lemma {:induction false} LabelBeforeHost(l: string, x: string)
    requires DnsHost(x) && 0 < |l| <= 63 && (forall c :: c in l ==> Alnum(c)) && |l| + 1 + |x| <= 253
    ensures DnsHost(l + ("." + x))
  {
    var h := l + ("." + x);
    var n := |l|;
    assert h[n] == '.' && forall i :: n < i < |h| ==> h[i] == x[i - n - 1];
    assert forall i :: 0 <= i < n ==> h[i] == l[i] && l[i] in l;
    forall i: nat ensures DotWithin(h, i) {
      if i + 64 <= |h| {
        if i <= n {
          assert h[i..i + 64][n - i] == '.';
        } else {
          assert DotWithin(x, i - n - 1);
          assert h[i..i + 64] == x[i - n - 1..i - n - 1 + 64];
        }
      }
    }
  }

  // ---- what comes before a rule ----

  /** Of the patterns that cover a label and a suffix, for a label without dots, none
      is narrower than the wildcard of the suffix but the name itself. */
  lemma {:induction false} NarrowestWildcard(name: string, p: string, q: string)
    requires IsWildcard(p) && name != "" && '.' !in name && '*' !in name && IsWildcard(q)
    requires HostCovers(q, name + p[1..])
    ensures |q| <= |p|
  {
    var host := name + p[1..];
    assert host[0] == name[0] && name[0] in name;
    assert q != host && q[1..][0] == '.';
    assert host[|host| - |q[1..]|] == '.';
    assert forall i :: 0 <= i < |name| ==> host[i] == name[i] && name[i] in name;
  }

  ghost predicate WellFormed(gen: seq<IngressRule>) {
    Distinct(HostsOf(gen)) && forall r :: r in gen ==> Pattern(r.hostname) && r.hostname != "*" && r.path == ""
  }

  lemma GeneratedIsWellFormed(exact: seq<IngressRule>, wildcard: seq<IngressRule>, ls: seq<Listener>, tcp: map<string, string>, envoy: string)
    requires Generated(exact, wildcard, ls, tcp, envoy) && ValidClaims(ls, tcp)
    ensures WellFormed(exact + wildcard)
  {
    var gen := exact + wildcard;
    forall r | r in gen ensures Pattern(r.hostname) && r.hostname != "*" && r.path == "" { ClaimedRule(gen, r); }
  }

  /** The rule of an exact name is the first to match it. */
  lemma {:induction false} ExactIsFirst(exact: seq<IngressRule>, wildcard: seq<IngressRule>, k: nat, path: string, re: E.Matches)
    requires WellOrdered(exact, wildcard) && WellFormed(exact + wildcard) && k < |exact|
    ensures FirstRule(exact + wildcard, exact[k].hostname, path, re) == Some(k)
  {
    var gen, host := exact + wildcard, exact[k].hostname;
    assert gen[k] == exact[k] && gen[k] in gen;
    forall j | 0 <= j < k ensures !RuleMatches(gen[j], host, path, re) {
      assert gen[j] == exact[j] && exact[j] in exact && gen[j] in gen;
      assert HostsOf(gen)[j] != HostsOf(gen)[k];
    }
    FirstIs(gen, k, host, path, re);
  }

  /** A wildcard's rule is the first to match a label before its suffix exactly when that
      name has no rule of its own. */
  lemma {:induction false} LabelIsFirst(exact: seq<IngressRule>, wildcard: seq<IngressRule>, k: nat, l: string, path: string, re: E.Matches)
    requires WellOrdered(exact, wildcard) && WellFormed(exact + wildcard) && |exact| <= k < |exact + wildcard|
    requires l != "" && '.' !in l && '*' !in l
    ensures var gen := exact + wildcard; var host := l + gen[k].hostname[1..];
            FirstRule(gen, host, path, re) == Some(k) <==> host !in HostsOf(exact)
  {
    var gen := exact + wildcard;
    var g := gen[k].hostname;
    var host := l + g[1..];
    assert gen[k] == wildcard[k - |exact|] && gen[k] in wildcard && gen[k] in gen;
    assert host[|l|..] == g[1..] && HasSuffix(host, g[1..]) && HostCovers(g, host);
    if host in HostsOf(exact) {
      var j := RuleFor(exact, host);
      assert gen[j] == exact[j] && gen[j] in gen && RuleMatches(gen[j], host, path, re);
    } else {
      forall j | 0 <= j < k ensures !RuleMatches(gen[j], host, path, re) {
        EarlierMisses(exact, wildcard, j, k, l, host);
        assert gen[j] in gen;
      }
      FirstIs(gen, k, host, path, re);
    }
  }

  lemma {:induction false} EarlierMisses(exact: seq<IngressRule>, wildcard: seq<IngressRule>, j: nat, k: nat, l: string, host: string)
    requires WellOrdered(exact, wildcard) && WellFormed(exact + wildcard) && |exact| <= k < |exact + wildcard| && j < k
    requires l != "" && '.' !in l && '*' !in l && host == l + (exact + wildcard)[k].hostname[1..] && host !in HostsOf(exact)
    ensures !HostCovers((exact + wildcard)[j].hostname, host)
  {
    var gen := exact + wildcard;
    var c, g := gen[j].hostname, gen[k].hostname;
    assert gen[j] in gen && gen[k] in gen && gen[k] == wildcard[k - |exact|] && gen[k] in wildcard;
    assert HostsOf(gen)[j] != HostsOf(gen)[k];
    if j < |exact| {
      assert gen[j] == exact[j] && exact[j] in exact && HostsOf(exact)[j] == c;
    } else {
      assert gen[j] == wildcard[j - |exact|] && gen[j] in wildcard && LongerFirst(gen[j], gen[k]);
      assert host[|l|..] == g[1..] && HasSuffix(host, g[1..]) && HostCovers(g, host);
      if HostCovers(c, host) {
        NarrowestWildcard(l, g, c);
        CoversComparable(c, g, host);
        if HostCovers(c, g) { SameLengthSameWildcard(c, g); } else { SameLengthSameWildcard(g, c); }
      }
    }
  }

  // ---- a label is free ----

  /** More numbers below m than m are not all different. */
  lemma {:induction false} Pigeons(s: seq<nat>, m: nat)
    requires |s| > m && forall i :: 0 <= i < |s| ==> s[i] < m
    ensures exists i, j :: 0 <= i < j < |s| && s[i] == s[j]
  {
    assert s[0] < m;
    if Distinct(s) {
      if k :| 0 <= k < |s| && s[k] == m - 1 {
        var t := s[..k] + s[k + 1..];
        forall i | 0 <= i < |t| ensures t[i] == s[if i < k then i else i + 1] && t[i] < m - 1 {
        }
        Pigeons(t, m - 1);
        var i, j :| 0 <= i < j < |t| && t[i] == t[j];
        assert s[if i < k then i else i + 1] == s[if j < k then j else j + 1];
      } else {
        Pigeons(s, m - 1);
      }
    }
  }

  /** A hundred labels of two characters. */
  function Label(n: nat): string
    requires n < 100
  {
    [Digit(n / 10), Digit(n % 10)]
  }

  lemma {:induction false} LabelsDiffer(m: nat, n: nat)
    requires m < 100 && n < 100 && Label(m) == Label(n)
    ensures m == n
  {
    assert Label(m)[0] == Label(n)[0] && Label(m)[1] == Label(n)[1];
    assert m == 10 * (m / 10) + m % 10 && n == 10 * (n / 10) + n % 10;
  }

  predicate ClaimedBy(l: Listener, tcp: map<string, string>, h: string) {
    HttpClaim(l, h) || StreamClaim(l, tcp, h)
  }

  ghost function Claimant(ls: seq<Listener>, tcp: map<string, string>, h: string): (k: nat)
    requires Claimed(ls, tcp, h)
    ensures k < |ls| && ClaimedBy(ls[k], tcp, h)
  {
    var l :| l in ls && (HttpClaim(l, h) || StreamClaim(l, tcp, h));
    var k :| 0 <= k < |ls| && ls[k] == l;
    k
  }

  lemma OneClaimEach(l: Listener, tcp: map<string, string>, m: nat, n: nat, suffix: string)
    requires m < 100 && n < 100 && ClaimedBy(l, tcp, Label(m) + suffix) && ClaimedBy(l, tcp, Label(n) + suffix)
    ensures m == n
  {
    assert (Label(m) + suffix)[..2] == Label(m) && (Label(n) + suffix)[..2] == Label(n);
    LabelsDiffer(m, n);
  }

  lemma {:induction false} AllLabelsTaken(ls: seq<Listener>, tcp: map<string, string>, suffix: string)
    requires forall i: nat :: i < 100 ==> Claimed(ls, tcp, Label(i) + suffix)
    ensures |ls| >= 100
  {
    var owners := seq(100, i requires 0 <= i < 100 => Claimant(ls, tcp, Label(i) + suffix));
    if |ls| < 100 {
      Pigeons(owners, |ls|);
      var i, j :| 0 <= i < j < 100 && owners[i] == owners[j];
      OneClaimEach(ls[owners[i]], tcp, i, j, suffix);
    }
  }

  /** Fewer than a hundred listeners leave one of the labels under a suffix unclaimed. */
  lemma {:induction false} SomeLabelFree(ls: seq<Listener>, tcp: map<string, string>, suffix: string) returns (n: nat)
    requires |ls| < 100
    ensures n < 100 && !Claimed(ls, tcp, Label(n) + suffix)
  {
    if forall i: nat :: i < 100 ==> Claimed(ls, tcp, Label(i) + suffix) { AllLabelsTaken(ls, tcp, suffix); }
    n :| n < 100 && !Claimed(ls, tcp, Label(n) + suffix);
  }

  // ---- no rule is shadowed ----

  /** Every name of one character before the suffix is claimed. */
  ghost predicate OneLetterNamesTaken(ls: seq<Listener>, tcp: map<string, string>, suffix: string) {
    forall c :: Alnum(c) ==> Claimed(ls, tcp, [c] + suffix)
  }

  /** What DNS can carry of a claimed hostname: the name, or names under the wildcard. */
  ghost predicate Carriable(g: string) {
    if IsWildcard(g) then DnsHost(g[2..]) && |g| <= 253 else DnsHost(g)
  }

  /** No generated rule is shadowed, but in one extreme: each is the first to match some name
      that DNS can carry, if and only if DNS can carry its hostname at all and it is no
      wildcard of the full 253 characters all whose one-letter names are claimed. A
      Gateway has no more than 64 listeners. */
  lemma {:induction false} NoneShadowed(exact: seq<IngressRule>, wildcard: seq<IngressRule>, ls: seq<Listener>, tcp: map<string, string>,
                                        envoy: string, k: nat, path: string, re: E.Matches)
    requires Generated(exact, wildcard, ls, tcp, envoy) && ValidClaims(ls, tcp) && |ls| <= 64 && k < |exact + wildcard|
    ensures var g := (exact + wildcard)[k].hostname;
            (exists host :: DnsHost(host) && FirstRule(exact + wildcard, host, path, re) == Some(k)) <==>
            Carriable(g) && !(IsWildcard(g) && |g| == 253 && OneLetterNamesTaken(ls, tcp, g[1..]))
  {
    GeneratedIsWellFormed(exact, wildcard, ls, tcp, envoy);
    if k < |exact| {
      ExactReached(exact, wildcard, k, path, re);
    } else {
      WildcardReached(exact, wildcard, ls, tcp, envoy, k, path, re);
    }
  }

  lemma {:induction false} ExactReached(exact: seq<IngressRule>, wildcard: seq<IngressRule>, k: nat, path: string, re: E.Matches)
    requires WellOrdered(exact, wildcard) && WellFormed(exact + wildcard) && k < |exact|
    ensures var g := (exact + wildcard)[k].hostname;
            !IsWildcard(g) && ((exists host :: DnsHost(host) && FirstRule(exact + wildcard, host, path, re) == Some(k)) <==> DnsHost(g))
  {
    var gen := exact + wildcard;
    assert gen[k] == exact[k] && exact[k] in exact && gen[k] in gen;
    ExactIsFirst(exact, wildcard, k, path, re);
  }

  /** A label that reaches a wildcard's rule. */
  ghost predicate Reaches(ls: seq<Listener>, tcp: map<string, string>, g: string, l: string) {
    IsWildcard(g) && 0 < |l| <= 63 && (forall c :: c in l ==> Alnum(c)) && |l| + |g[1..]| <= 253 && !Claimed(ls, tcp, l + g[1..])
  }

  lemma {:induction false} WildcardReached(exact: seq<IngressRule>, wildcard: seq<IngressRule>, ls: seq<Listener>, tcp: map<string, string>,
                                           envoy: string, k: nat, path: string, re: E.Matches)
    requires Generated(exact, wildcard, ls, tcp, envoy) && WellFormed(exact + wildcard) && |ls| <= 64 && |exact| <= k < |exact + wildcard|
    ensures var g := (exact + wildcard)[k].hostname;
            IsWildcard(g) &&
            ((exists host :: DnsHost(host) && FirstRule(exact + wildcard, host, path, re) == Some(k)) <==>
             DnsHost(g[2..]) && |g| <= 253 && !(|g| == 253 && OneLetterNamesTaken(ls, tcp, g[1..])))
  {
    var gen := exact + wildcard;
    var g := gen[k].hostname;
    assert gen[k] == wildcard[k - |exact|] && gen[k] in wildcard && gen[k] in gen;
    assert g[1..] == "." + g[2..];
    if host :| DnsHost(host) && FirstRule(gen, host, path, re) == Some(k) {
      FirstIsCarriable(exact, wildcard, ls, tcp, envoy, k, host, path, re);
    }
    if DnsHost(g[2..]) && |g| <= 253 && !(|g| == 253 && OneLetterNamesTaken(ls, tcp, g[1..])) {
      var l := ReachingLabel(ls, tcp, g);
      LabelBeforeHost(l, g[2..]);
      ExactAreClaimed(exact, wildcard, ls, tcp, envoy);
      LabelIsFirst(exact, wildcard, k, l, path, re);
    }
  }

  lemma {:induction false} ReachingLabel(ls: seq<Listener>, tcp: map<string, string>, g: string) returns (l: string)
    requires IsWildcard(g) && DnsHost(g[2..]) && |g| <= 253 && |ls| <= 64 && !(|g| == 253 && OneLetterNamesTaken(ls, tcp, g[1..]))
    ensures Reaches(ls, tcp, g, l) && '.' !in l && '*' !in l
  {
    if |g| == 253 {
      var c :| Alnum(c) && !Claimed(ls, tcp, [c] + g[1..]);
      l := [c];
    } else {
      var n := SomeLabelFree(ls, tcp, g[1..]);
      l := Label(n);
      assert forall c :: c in l ==> '0' <= c <= '9';
    }
  }

  lemma {:induction false} ExactAreClaimed(exact: seq<IngressRule>, wildcard: seq<IngressRule>, ls: seq<Listener>, tcp: map<string, string>, envoy: string)
    requires Generated(exact, wildcard, ls, tcp, envoy)
    ensures forall h :: h in HostsOf(exact) ==> Claimed(ls, tcp, h)
  {
    forall h | h in HostsOf(exact) ensures Claimed(ls, tcp, h) {
      var j :| 0 <= j < |HostsOf(exact)| && HostsOf(exact)[j] == h;
      assert HostsOf(exact + wildcard)[j] == h;
    }
  }

  /** A claimed name that is no wildcard has its rule among the exact ones. */
  lemma {:induction false} ClaimIsExact(exact: seq<IngressRule>, wildcard: seq<IngressRule>, ls: seq<Listener>, tcp: map<string, string>,
                                        envoy: string, host: string) returns (j: nat)
    requires Generated(exact, wildcard, ls, tcp, envoy) && Claimed(ls, tcp, host) && !IsWildcard(host)
    ensures j < |exact| && exact[j].hostname == host
  {
    var gen := exact + wildcard;
    assert forall i :: |exact| <= i < |gen| ==> gen[i] == wildcard[i - |exact|] && gen[i] in wildcard && IsWildcard(gen[i].hostname);
    j := RuleFor(gen, host);
  }

  /** A name a wildcard's rule is the first to match is one DNS can carry under it, and in
      the extreme it is a one-letter name nobody claims. */
  lemma {:induction false} FirstIsCarriable(exact: seq<IngressRule>, wildcard: seq<IngressRule>, ls: seq<Listener>, tcp: map<string, string>,
                                            envoy: string, k: nat, host: string, path: string, re: E.Matches)
    requires Generated(exact, wildcard, ls, tcp, envoy) && WellFormed(exact + wildcard) && |exact| <= k < |exact + wildcard|
    requires DnsHost(host) && FirstRule(exact + wildcard, host, path, re) == Some(k)
    ensures var g := (exact + wildcard)[k].hostname;
            DnsHost(g[2..]) && |g| <= 253 && !(|g| == 253 && OneLetterNamesTaken(ls, tcp, g[1..]))
  {
    WildcardRule(exact, wildcard, k, host, path, re);
    assert !IsWildcard(host) by { assert host[0] != '*'; }
    NotClaimedBefore(exact, wildcard, ls, tcp, envoy, k, host, path, re);
    CarriableUnder(ls, tcp, (exact + wildcard)[k].hostname, host);
  }

  lemma {:induction false} WildcardRule(exact: seq<IngressRule>, wildcard: seq<IngressRule>, k: nat, host: string, path: string, re: E.Matches)
    requires WellOrdered(exact, wildcard) && |exact| <= k < |exact + wildcard|
    requires RuleMatches((exact + wildcard)[k], host, path, re)
    ensures IsWildcard((exact + wildcard)[k].hostname) && HostCovers((exact + wildcard)[k].hostname, host)
  {
    assert (exact + wildcard)[k] == wildcard[k - |exact|] && wildcard[k - |exact|] in wildcard;
  }

  lemma {:induction false} CarriableUnder(ls: seq<Listener>, tcp: map<string, string>, g: string, host: string)
    requires IsWildcard(g) && HostCovers(g, host) && DnsHost(host) && !Claimed(ls, tcp, host)
    ensures DnsHost(g[2..]) && |g| <= 253 && !(|g| == 253 && OneLetterNamesTaken(ls, tcp, g[1..]))
  {
    WildcardCovers(g, host);
    SuffixIsHost(host, g[2..]);
    assert |host| == |g| ==> Alnum(host[0]) && !Claimed(ls, tcp, [host[0]] + g[1..]);
  }

  lemma {:induction false} WildcardCovers(g: string, host: string)
    requires IsWildcard(g) && HostCovers(g, host) && DnsHost(host)
    ensures HasSuffix(host, "." + g[2..]) && |host| > |g[2..]| + 1 && (|host| == |g| ==> host == [host[0]] + g[1..])
  {
    assert g[1..] == "." + g[2..];
    assert host[0] != '*' && host[|host| - |g[1..]|..] == g[1..];
    if |host| == |g| { assert host == [host[0]] + host[1..]; }
  }

  lemma {:induction false} NotClaimedBefore(exact: seq<IngressRule>, wildcard: seq<IngressRule>, ls: seq<Listener>, tcp: map<string, string>,
                                            envoy: string, k: nat, host: string, path: string, re: E.Matches)
    requires Generated(exact, wildcard, ls, tcp, envoy) && WellFormed(exact + wildcard) && |exact| <= k < |exact + wildcard|
    requires !IsWildcard(host) && FirstRule(exact + wildcard, host, path, re) == Some(k)
    ensures !Claimed(ls, tcp, host)
  {
    if Claimed(ls, tcp, host) {
      var j := ClaimIsExact(exact, wildcard, ls, tcp, envoy, host);
      ExactIsFirst(exact, wildcard, j, path, re);
    }
  }
}
