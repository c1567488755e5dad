/** The DNS settings a tunnel's ingress entries ask for, one per hostname. */
module DnsSettings {
  import opened Text
  import opened Sorting

  /** DNS settings on a tunnel or on one ingress entry; every field may be unset. */
  datatype Level = Level(zoneId: string, proxied: Option<bool>, ttl: Option<int>)

  datatype Settings = Settings(zoneId: string, proxied: bool, ttl: int)

  datatype Entry = Entry(hostname: string, dns: Option<Level>)

  const TTL_AUTOMATIC := 1
  const PROXIED_DEFAULT := true

  /** The value of a field: the entry's where it is set, else the tunnel's, else the default. */
  function Choose<T>(entry: Option<T>, tunnel: Option<T>, default: T): T {
    if entry.Some? then entry.value else if tunnel.Some? then tunnel.value else default
  }

  function ZoneOf(level: Option<Level>): Option<string> {
    if level.Some? && level.value.zoneId != "" then Some(level.value.zoneId) else None
  }

  function ProxiedOf(level: Option<Level>): Option<bool> {
    if level.Some? then level.value.proxied else None
  }

  function TtlOf(level: Option<Level>): Option<int> {
    if level.Some? then level.value.ttl else None
  }

  function Merged(tunnel: Option<Level>, entry: Option<Level>): Settings {
    Settings(
      Choose(ZoneOf(entry), ZoneOf(tunnel), ""),
      Choose(ProxiedOf(entry), ProxiedOf(tunnel), PROXIED_DEFAULT),
      Choose(TtlOf(entry), TtlOf(tunnel), TTL_AUTOMATIC))
  }

  /** Overwrites the defaults with the tunnel's fields, then with the entry's. */
  method ResolveDns(tunnel: Option<Level>, entry: Option<Level>) returns (resolved: Settings, ok: bool)
    ensures resolved == Merged(tunnel, entry)
    ensures ok <==> ZoneOf(tunnel).Some? || ZoneOf(entry).Some?
  {
    resolved := Settings("", PROXIED_DEFAULT, TTL_AUTOMATIC);
    var levels := [tunnel, entry];
    for i := 0 to 2
      invariant resolved == Merged(if i > 0 then tunnel else None, if i > 1 then entry else None)
    {
      if levels[i].Some? {
        var level := levels[i].value;
        if level.zoneId != "" { resolved := resolved.(zoneId := level.zoneId); }
        if level.proxied.Some? { resolved := resolved.(proxied := level.proxied.value); }
        if level.ttl.Some? { resolved := resolved.(ttl := level.ttl.value); }
      }
    }
    ok := resolved.zoneId != "";
  }

  function LowerChar(c: char): char {
    if 'A' <= c <= 'Z' then c - 'A' + 'a' else c
  }

  function ToLower(s: string): string {
    seq(|s|, i requires 0 <= i < |s| => LowerChar(s[i]))
  }

  // ---- what the entries ask for ----

  /** An entry that asks something about the host, which is in lower case. */
  predicate Names(e: Entry, host: string) {
    e.hostname != "" && ToLower(e.hostname) == host
  }

  /** Some entry of the host resolves to s. */
  ghost predicate Asks(tunnel: Option<Level>, entries: seq<Entry>, host: string, s: Settings) {
    exists e :: e in entries && Names(e, host) && Merged(tunnel, e.dns) == s
  }

  /** Two entries of the host resolve differently. */
  ghost predicate Conflicts(tunnel: Option<Level>, entries: seq<Entry>, host: string) {
    exists s, t :: Asks(tunnel, entries, host, s) && Asks(tunnel, entries, host, t) && s != t
  }

  /** The outcome of grouping the entries: a host is reported when its entries
      resolve differently, and is desired when they agree on a zone. */
  ghost predicate Grouped(tunnel: Option<Level>, entries: seq<Entry>, desired: map<string, Settings>, problems: seq<string>) {
    && Distinct(problems)
    && (forall h :: h in problems <==> Conflicts(tunnel, entries, h))
    && (forall h :: h in desired ==> !Conflicts(tunnel, entries, h) && Asks(tunnel, entries, h, desired[h]) && desired[h].zoneId != "")
    && (forall h, s :: Asks(tunnel, entries, h, s) && !Conflicts(tunnel, entries, h) && s.zoneId != "" ==> h in desired)
  }

  method DesiredDns(tunnel: Option<Level>, entries: seq<Entry>) returns (desired: map<string, Settings>, problems: seq<string>)
    ensures Grouped(tunnel, entries, desired, problems)
    ensures desired.Keys !! Elements(problems)
  {
    var settings: map<string, seq<Settings>>, order: seq<string>;
    settings, order := GroupByHost(tunnel, entries);
    desired, problems := map[], [];
    for i := 0 to |order|
      invariant Distinct(problems) && forall h :: h in problems <==> h in order[..i] && Conflicts(tunnel, entries, h)
      invariant forall h :: h in desired <==> h in order[..i] && !Conflicts(tunnel, entries, h) && settings[h][0].zoneId != ""
      invariant forall h :: h in desired ==> desired[h] == settings[h][0]
    {
      var host := order[i];
      assert order[..i + 1] == order[..i] + [host] && host !in order[..i];
      var first := settings[host][0];
      ConflictShows(tunnel, entries, host, settings[host]);
      if exists k :: 1 <= k < |settings[host]| && settings[host][k] != first {
        problems := problems + [host];
      } else if first.zoneId != "" {
        desired := desired[host := first];
      }
    }
    assert order[..|order|] == order;
    forall h | h in settings ensures Asks(tunnel, entries, h, settings[h][0]) {
      assert settings[h][0] in settings[h];
    }
    forall h, s | Asks(tunnel, entries, h, s) && !Conflicts(tunnel, entries, h) ensures settings[h][0] == s {
    }
  }

  /** The entries of a host disagree just when some setting is not the first. */
  lemma ConflictShows(tunnel: Option<Level>, entries: seq<Entry>, host: string, all: seq<Settings>)
    requires all != [] && forall s :: Asks(tunnel, entries, host, s) <==> s in all
    ensures Conflicts(tunnel, entries, host) <==> exists k :: 1 <= k < |all| && all[k] != all[0]
  {
    if k :| 1 <= k < |all| && all[k] != all[0] {
      assert Asks(tunnel, entries, host, all[k]) && Asks(tunnel, entries, host, all[0]);
    }
  }

  /** Collects the settings of every host, and the hosts in the order they appear. */
  method GroupByHost(tunnel: Option<Level>, entries: seq<Entry>) returns (settings: map<string, seq<Settings>>, order: seq<string>)
    ensures Distinct(order) && forall h :: h in settings <==> h in order
    ensures forall h :: h in settings ==> settings[h] != []
    ensures forall h, s :: Asks(tunnel, entries, h, s) <==> h in settings && s in settings[h]
  {
    settings, order := map[], [];
    for i := 0 to |entries|
      invariant Distinct(order) && forall h :: h in settings <==> h in order
      invariant forall h :: h in settings ==> settings[h] != []
      invariant forall h, s :: Asks(tunnel, entries[..i], h, s) <==> h in settings && s in settings[h]
    {
      var e := entries[i];
      assert entries[..i + 1] == entries[..i] + [e];
      ghost var before := settings;
      var resolved, _ := ResolveDns(tunnel, e.dns);
      if e.hostname != "" {
        var host := ToLower(e.hostname);
        if host !in settings {
          order := order + [host];
          settings := settings[host := []];
        }
        settings := settings[host := settings[host] + [resolved]];
      }
      AsksSnoc(tunnel, entries[..i], e);
    }
    assert entries[..|entries|] == entries;
  }

  lemma AsksSnoc(tunnel: Option<Level>, entries: seq<Entry>, e: Entry)
    ensures forall h, s :: Asks(tunnel, entries + [e], h, s) <==> Asks(tunnel, entries, h, s) || (Names(e, h) && Merged(tunnel, e.dns) == s)
  {
    assert forall d :: d in entries + [e] <==> d in entries || d == e;
  }

  /** The settings do not depend on the order of the entries, nor on how often one is
      repeated: only the set of entries counts. */
  lemma OrderDoesNotMatter(tunnel: Option<Level>, entries: seq<Entry>, others: seq<Entry>,
                           desired: map<string, Settings>, problems: seq<string>,
                           desired': map<string, Settings>, problems': seq<string>)
    requires Elements(entries) == Elements(others)
    requires Grouped(tunnel, entries, desired, problems) && Grouped(tunnel, others, desired', problems')
    ensures desired == desired' && Elements(problems) == Elements(problems')
  {
    assert forall e :: e in entries <==> e in Elements(entries);
    assert forall e :: e in others <==> e in Elements(others);
    forall h, s ensures Asks(tunnel, entries, h, s) <==> Asks(tunnel, others, h, s) {
    }
    forall h ensures h in desired <==> h in desired' {
    }
    forall h | h in desired ensures desired[h] == desired'[h] {
    }
  }
}
