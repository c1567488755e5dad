/** A Gateway one of whose tunnel rules takes no request DNS can carry: a wildcard of 253
    characters, and a listener for every name of one letter or digit under it. */
module ShadowExample {
  import opened Text
  import opened Sorting
  import opened Hostnames
  import opened GatewayModel
  import opened Ports
  import opened Validation
  import opened Tunnel
  import opened TunnelMeaning
  import opened Shadowing
  import opened Pipeline
  import opened Examples
  import E = Envoy

  /** Labels of one letter. */
  function Dotted(n: nat): string {
    if n == 0 then "a" else "a" + ("." + Dotted(n - 1))
  }

  lemma {:induction false} DottedIsHost(n: nat)
    requires n <= 126
    ensures |Dotted(n)| == 2 * n + 1 && DnsHost(Dotted(n))
  {
    if n == 0 {
      assert forall i: nat :: DotWithin("a", i);
    } else {
      DottedIsHost(n - 1);
      LabelBeforeHost("a", Dotted(n - 1));
    }
  }

  const DEPTH: nat := 125

  function Suffix(): string {
    "." + Dotted(DEPTH)
  }

  function Wild(): string {
    "*" + Suffix()
  }

  function Letter(i: nat): char
    requires i < 36
  {
    if i < 26 then 'a' + i as char else '0' + (i - 26) as char
  }

  lemma LettersAreAll(c: char) returns (i: nat)
    requires Alnum(c)
    ensures i < 36 && Letter(i) == c
  {
    i := if 'a' <= c <= 'z' then c as nat - 'a' as nat else c as nat - '0' as nat + 26;
  }

  function Named(i: nat, suffix: string): ListenerSpec
    requires i < 36
  {
    ListenerOf([Letter(i)], 80, HTTP, Some([Letter(i)] + suffix))
  }

  function TheListeners(suffix: string): seq<ListenerSpec> {
    [ListenerOf("wild", 80, HTTP, Some("*" + suffix))] + seq(36, i requires 0 <= i < 36 => Named(i, suffix))
  }

  lemma HostsDiffer(suffix: string, i: nat, j: nat)
    requires i < j < 37 == |TheListeners(suffix)|
    ensures !Conflicts(TheListeners(suffix)[i], TheListeners(suffix)[j]) && !Conflicts(TheListeners(suffix)[j], TheListeners(suffix)[i])
  {
    var specs := TheListeners(suffix);
    assert specs[j] == Named(j - 1, suffix) && (i > 0 ==> specs[i] == Named(i - 1, suffix));
    assert HostnameOf(specs[j])[0] == Letter(j - 1);
    assert HostnameOf(specs[i])[0] == if i == 0 then '*' else Letter(i - 1);
  }

  lemma AllAreValid(suffix: string, i: nat)
    requires i < 37
    ensures |TheListeners(suffix)| == 37 && Programmable("infra", TheListeners(suffix), i, ReferencesOf(map[]))
  {
    var specs := TheListeners(suffix);
    assert forall j :: 0 < j < 37 ==> specs[j] == Named(j - 1, suffix);
    forall j | 0 <= j < 37 && j != i ensures !Conflicts(specs[i], specs[j]) {
      if i < j { HostsDiffer(suffix, i, j); } else { HostsDiffer(suffix, j, i); }
    }
    assert forall l :: l in specs ==> l.port == 80;
  }

  lemma TheInputIsAdmitted(suffix: string)
    requires suffix != "" && suffix[0] == '.'
    ensures Admitted(GatewayOf(TheListeners(suffix)), [], ReferencesOf(map[]))
  {
    var specs := TheListeners(suffix);
    assert forall j :: 0 < j < 37 ==> specs[j] == Named(j - 1, suffix);
    forall i, j | 0 <= i < j < |specs| ensures specs[i].name != specs[j].name {
      assert specs[j].name == [Letter(j - 1)];
      assert i > 0 ==> specs[i].name == [Letter(i - 1)] && Letter(i - 1) != Letter(j - 1);
      assert i == 0 ==> |specs[i].name| == 4;
    }
    forall l | l in specs ensures Pattern(ListenerHost(l.hostname)) && l.hostname != Some("*") && l.hostname != Some("") {
      var j :| 0 <= j < |specs| && specs[j] == l;
      assert j > 0 ==> Alnum(Letter(j - 1));
    }
  }

  ghost predicate AreTheListeners(ls: seq<Listener>, suffix: string) {
    |ls| == 37 && forall i :: 0 <= i < 37 ==> ls[i].valid && ls[i].spec == TheListeners(suffix)[i]
  }

  lemma OneLetterIsTaken(ls: seq<Listener>, suffix: string)
    requires AreTheListeners(ls, suffix)
    ensures OneLetterNamesTaken(ls, map[], suffix) && Claimed(ls, map[], "*" + suffix)
  {
    assert ls[0] in ls && HttpClaim(ls[0], "*" + suffix);
    forall c | Alnum(c) ensures Claimed(ls, map[], [c] + suffix) {
      var i := LettersAreAll(c);
      assert ls[i + 1] in ls && TheListeners(suffix)[i + 1] == Named(i, suffix);
      assert HttpClaim(ls[i + 1], [c] + suffix);
    }
  }

  lemma ClaimsAreValid(ls: seq<Listener>, suffix: string)
    requires AreTheListeners(ls, suffix) && suffix != "" && suffix[0] == '.'
    ensures ValidClaims(ls, map[])
  {
    forall h | Claimed(ls, map[], h) ensures Pattern(h) && h != "*" {
      var l :| l in ls && (HttpClaim(l, h) || StreamClaim(l, map[], h));
      var i :| 0 <= i < |ls| && ls[i] == l;
      assert i > 0 ==> TheListeners(suffix)[i] == Named(i - 1, suffix);
    }
  }

  method RulesOf(gw: Gateway, refs: References)
    returns (rules: seq<IngressRule>, ghost exact: seq<IngressRule>, ghost wildcard: seq<IngressRule>, ghost service: string)
    ensures IsTunnelIngress(rules, [], ListenersFor(gw, refs), map[], "envoy", exact, wildcard, service)
  {
    var listeners := Listeners(gw, refs);
    rules, exact, wildcard, service := TunnelIngress([], listeners[..], map[], "envoy");
  }

  /** The rule generated for the wildcard is the first to match no name DNS can carry. */
  method ShadowedWildcard(gw: Gateway, refs: References, path: string, re: E.Matches)
    returns (rules: seq<IngressRule>, ghost gen: seq<IngressRule>, ghost k: nat)
    requires gw == GatewayOf(TheListeners(Suffix())) && refs == ReferencesOf(map[])
    ensures Admitted(gw, [], refs)
    ensures rules == gen + [IngressRule("", "", NOT_FOUND)] && k < |gen| && gen[k].hostname == Wild()
    ensures forall host :: DnsHost(host) ==> FirstRule(gen, host, path, re) != Some(k)
  {
    ghost var exact, wildcard, service;
    rules, exact, wildcard, service := RulesOf(gw, refs);
    gen, k := TheRuleIsShadowed(gw, refs, Suffix(), rules, exact, wildcard, service, path, re);
  }

  lemma TheRuleIsShadowed(gw: Gateway, refs: References, suffix: string, rules: seq<IngressRule>, exact: seq<IngressRule>,
                          wildcard: seq<IngressRule>, service: string, path: string, re: E.Matches)
    returns (gen: seq<IngressRule>, k: nat)
    requires gw == GatewayOf(TheListeners(suffix)) && refs == ReferencesOf(map[]) && suffix == Suffix()
    requires IsTunnelIngress(rules, [], ListenersFor(gw, refs), map[], "envoy", exact, wildcard, service)
    ensures Admitted(gw, [], refs)
    ensures rules == gen + [IngressRule("", "", NOT_FOUND)] && k < |gen| && gen[k].hostname == "*" + suffix
    ensures forall host :: DnsHost(host) ==> FirstRule(gen, host, path, re) != Some(k)
  {
    DottedIsHost(DEPTH);
    TheInputIsAdmitted(suffix);
    TheyAreListed(suffix);
    gen := exact + wildcard;
    k := WildIsShadowed(ListenersFor(gw, refs), suffix, exact, wildcard, rules, service, path, re);
    assert Kept([]) + gen == gen;
  }

  lemma TheyAreListed(suffix: string)
    ensures AreTheListeners(ListenersFor(GatewayOf(TheListeners(suffix)), ReferencesOf(map[])), suffix)
  {
    forall i: nat | i < 37 ensures |TheListeners(suffix)| == 37 && Programmable("infra", TheListeners(suffix), i, ReferencesOf(map[])) {
      AllAreValid(suffix, i);
    }
  }

  lemma NothingCatchesAll(ls: seq<Listener>, suffix: string, service: string)
    requires AreTheListeners(ls, suffix) && CatchAllService(ls, "envoy", service)
    ensures service == NOT_FOUND
  {
    forall l | l in ls ensures !Hostless(l) {
      var i :| 0 <= i < |ls| && ls[i] == l;
      assert i > 0 ==> TheListeners(suffix)[i] == Named(i - 1, suffix);
    }
  }

  lemma WildIsShadowed(ls: seq<Listener>, suffix: string, exact: seq<IngressRule>, wildcard: seq<IngressRule>, rules: seq<IngressRule>,
                       service: string, path: string, re: E.Matches) returns (k: nat)
    requires AreTheListeners(ls, suffix) && |suffix| == 252 && suffix[0] == '.'
    requires IsTunnelIngress(rules, [], ls, map[], "envoy", exact, wildcard, service)
    ensures k < |exact + wildcard| && (exact + wildcard)[k].hostname == "*" + suffix && service == NOT_FOUND
    ensures forall host :: DnsHost(host) ==> FirstRule(exact + wildcard, host, path, re) != Some(k)
  {
    NothingCatchesAll(ls, suffix, service);
    OneLetterIsTaken(ls, suffix);
    ClaimsAreValid(ls, suffix);
    k := RuleFor(exact + wildcard, "*" + suffix);
    assert ("*" + suffix)[1..] == suffix;
    NoneShadowed(exact, wildcard, ls, map[], "envoy", k, path, re);
  }
}
