/** The DnsRecords a tunnel owns, converged on one per hostname it routes. */
module TunnelDns {
  import opened Text
  import opened Sorting
  import opened DnsSettings

  type Uid = nat

  /** The part of a DnsRecord the tunnel writes. */
  datatype Spec = Spec(zoneId: string, host: string, tunnelRef: string, proxied: bool, ttl: int)

  /** A DnsRecord: who controls it, its spec, its observed id and content, whether the
      DnsRecord controller's finalizer holds it, and whether it is being deleted. */
  datatype Record = Record(
    controller: Option<Uid>, spec: Spec, id: Option<string>, content: Option<string>, finalizer: bool, deleting: bool)

  /** What reading a zone answers: its name, that it does not exist, that the token
      may not read it, or an error. */
  datatype ZoneReply = Zone(name: string) | NoZone | NotPermitted | Unread

  datatype Tunnel = Tunnel(uid: Uid, name: string, id: string, dns: Option<Level>, ingress: seq<Entry>)

  datatype Problem = Disagree(host: string) | ZoneMissing(host: string) | OutsideZone(host: string) | NotOwned(host: string)

  datatype Result = Done(desired: nat, ready: nat, problems: seq<Problem>) | Error

  // ---- names ----

  function TrimRight(s: string): (r: string)
    ensures |r| <= |s|
  {
    if s != [] && (s[|s| - 1] == '.' || s[|s| - 1] == '-') then TrimRight(s[..|s| - 1]) else s
  }

  /** The hexadecimal digest of a host: twenty characters. */
  ghost predicate IsDigest(digest: string -> string) {
    forall h :: |digest(h)| == 20
  }

  /** The digest tells the hosts apart. */
  ghost predicate Injective(digest: string -> string, hosts: set<string>) {
    forall g, h :: g in hosts && h in hosts && digest(g) == digest(h) ==> g == h
  }

  /** The hosts an ingress names. */
  ghost function HostsOf(ingress: seq<Entry>): set<string> {
    set e | e in ingress && e.hostname != "" :: ToLower(e.hostname)
  }

  function RecordName(tunnel: string, digest: string -> string, host: string): string {
    var suffix := "-" + digest(host);
    var limit := 253 - |suffix|;
    (if limit >= 0 && |tunnel| > limit then TrimRight(tunnel[..limit]) else tunnel) + suffix
  }

  /** The name fits an object name, and two hosts of one tunnel share one exactly when
      they share a digest. */
  lemma NameIdentifiesHost(tunnel: string, digest: string -> string, g: string, h: string)
    requires IsDigest(digest)
    ensures |RecordName(tunnel, digest, h)| <= 253
    ensures RecordName(tunnel, digest, g) == RecordName(tunnel, digest, h) <==> digest(g) == digest(h)
  {
    var a, b := RecordName(tunnel, digest, g), RecordName(tunnel, digest, h);
    assert a[|a| - 20..] == digest(g) && b[|b| - 20..] == digest(h);
  }

  // ---- zones ----

  predicate InZone(host: string, zone: string) {
    host == ToLower(zone) || HasSuffix(host, "." + ToLower(zone))
  }

  datatype Verdict = Fine | Missing | Outside

  /** What the zone's reply says about a host that names it. */
  function Judge(reply: ZoneReply, host: string): Verdict {
    match reply
    case Zone(name) => if name == "" then Missing else if InZone(host, name) then Fine else Outside
    case NoZone => Missing
    case _ => Fine
  }

  // ---- the namespace ----

  class Namespace {
    var records: map<string, Record>
    var calls: nat
    const answered: nat -> bool
    const zones: string -> ZoneReply

    constructor (records: map<string, Record>, answered: nat -> bool, zones: string -> ZoneReply)
      ensures this.records == records && this.answered == answered && this.zones == zones
    {
      this.records, this.answered, this.zones, this.calls := records, answered, zones, 0;
    }

    /** Every call to the API server is answered and every zone read is. */
    ghost predicate Smooth() {
      (forall n :: answered(n)) && forall z :: !zones(z).Unread?
    }

    method Ask() returns (ok: bool)
      modifies this`calls
      ensures Smooth() ==> ok
    {
      ok := answered(calls);
      calls := calls + 1;
    }

    method List(uid: Uid) returns (ok: bool, owned: seq<string>)
      modifies this`calls
      ensures Smooth() ==> ok
      ensures ok ==> Distinct(owned) && Elements(owned) == OwnedNames(records, uid)
    {
      ok := Ask();
      owned := Collect(set n | n in records && records[n].controller == Some(uid));
    }

    /** Creates the record or overwrites its spec, unless something else controls it. */
    method CreateOrUpdate(name: string, uid: Uid, spec: Spec) returns (ok: bool, mine: bool)
      modifies this`calls, this`records
      ensures Smooth() ==> ok
      ensures mine <==> !Foreign(old(records), name, uid)
      ensures records == if ok && mine then old(records)[name := Applied(old(records), name, uid, spec)] else old(records)
    {
      ok := Ask();
      mine := name !in records || records[name].controller == Some(uid);
      if ok && mine {
        records := records[name := if name in records then records[name].(spec := spec) else Record(Some(uid), spec, None, None, false, false)];
      }
    }

    /** Deletes a record at once, or marks it where a finalizer holds it. */
    method Delete(name: string) returns (ok: bool)
      modifies this`calls, this`records
      ensures Smooth() ==> ok
      ensures records == if ok then Left(old(records), {name}) else old(records)
    {
      ok := Ask();
      if !ok { return; }
      LeftOne(records, name);
      if name in records && records[name].finalizer {
        records := records[name := records[name].(deleting := true)];
      } else {
        records := records - {name};
      }
    }
  }

  /** What deleting some records leaves: those a finalizer holds are still there, marked. */
  ghost function Left(records: map<string, Record>, stale: set<string>): map<string, Record> {
    map n | n in records && (n in stale ==> records[n].finalizer) ::
      if n in stale then records[n].(deleting := true) else records[n]
  }

  lemma LeftOne(records: map<string, Record>, name: string)
    ensures Left(records, {name}) ==
            if name in records && records[name].finalizer then records[name := records[name].(deleting := true)] else records - {name}
  {
  }

  lemma LeftMore(records: map<string, Record>, stale: set<string>, name: string)
    ensures Left(Left(records, stale), {name}) == Left(records, stale + {name})
    ensures Left(records, {}) == records
  {
  }

  ghost function OwnedNames(records: map<string, Record>, uid: Uid): set<string> {
    set n | n in records && records[n].controller == Some(uid)
  }

  /** The name is taken by a record the tunnel does not control. */
  predicate Foreign(records: map<string, Record>, name: string, uid: Uid) {
    name in records && records[name].controller != Some(uid)
  }

  /** The record as the tunnel leaves it: its own spec, the status as it was. */
  function Applied(records: map<string, Record>, name: string, uid: Uid, spec: Spec): Record {
    if name in records then records[name].(spec := spec) else Record(Some(uid), spec, None, None, false, false)
  }

  function SpecFor(t: Tunnel, host: string, s: Settings): Spec {
    Spec(s.zoneId, host, t.name, s.proxied, s.ttl)
  }

  predicate Ready(r: Record, tunnelId: string) {
    r.id.Some? && r.content == Some(tunnelId + ".cfargotunnel.com")
  }

  ghost function NamesOf(nameOf: string -> string, hosts: set<string>): set<string> {
    set h | h in hosts :: nameOf(h)
  }

  // ---- judging the hosts ----

  /** What a host's zone says about it, for the hosts that are desired. */
  function Verdicts(zones: string -> ZoneReply, desired: map<string, Settings>): string -> Verdict {
    h => if h in desired then Judge(zones(desired[h].zoneId), h) else Fine
  }

  ghost function Judged(judge: string -> Verdict, hosts: set<string>, v: Verdict): set<string> {
    set h | h in hosts && judge(h) == v
  }

  /** The keys of a map in order, as the loops of a reconcile visit them. */
  method SortedKeys(keys: set<string>) returns (out: seq<string>)
    ensures Distinct(out) && Elements(out) == keys && Ordered(out, StringLeq)
  {
    var unsorted := Collect(keys);
    StringLeqIsTotalOrder();
    out := SortStable(unsorted, StringLeq);
    PermutationFacts(unsorted, out);
  }

  /** Reads every zone the hosts name. */
  method ReadZones(api: Namespace, desired: map<string, Settings>) returns (ok: bool, replies: map<string, ZoneReply>)
    ensures api.Smooth() ==> ok
    ensures ok ==> forall h :: h in desired ==> desired[h].zoneId in replies && replies[desired[h].zoneId] == api.zones(desired[h].zoneId)
  {
    var ids := SortedKeys(set h | h in desired :: desired[h].zoneId);
    replies := map[];
    for i := 0 to |ids|
      invariant forall z :: z in ids[..i] ==> z in replies && replies[z] == api.zones(z)
    {
      var reply := api.zones(ids[i]);
      if reply.Unread? { return false, map[]; }
      replies := replies[ids[i] := reply];
    }
    ok := true;
    forall h | h in desired ensures desired[h].zoneId in ids[..|ids|] {
      assert desired[h].zoneId in Elements(ids);
    }
  }

  ghost predicate Remaining(judge: string -> Verdict, desired: map<string, Settings>, seen: set<string>, fine: map<string, Settings>) {
    && (forall h :: h in fine <==> h in desired && (h in seen ==> judge(h) == Fine))
    && (forall h :: h in fine ==> fine[h] == desired[h])
  }

  lemma RemainingStep(judge: string -> Verdict, desired: map<string, Settings>, seen: set<string>, fine: map<string, Settings>, host: string)
    requires Remaining(judge, desired, seen, fine) && host in desired && host !in seen
    ensures Remaining(judge, desired, seen + {host}, if judge(host) == Fine then fine else fine - {host})
    ensures |fine - {host}| == |fine| - 1
  {
    assert (fine - {host}).Keys == fine.Keys - {host};
  }

  /** After judging some hosts: the others are still in, and the names to keep are noted. */
  ghost predicate Checked(judge: string -> Verdict, desired: map<string, Settings>, nameOf: string -> string,
                          seen: set<string>, fine: map<string, Settings>, keep: set<string>)
  {
    && Remaining(judge, desired, seen, fine)
    && keep == NamesOf(nameOf, Judged(judge, seen, Missing))
  }

  lemma CheckStep(judge: string -> Verdict, desired: map<string, Settings>, nameOf: string -> string,
                  seen: set<string>, fine: map<string, Settings>, keep: set<string>, host: string)
    requires Checked(judge, desired, nameOf, seen, fine, keep) && host in desired && host !in seen
    ensures judge(host) == Fine ==> Checked(judge, desired, nameOf, seen + {host}, fine, keep)
    ensures judge(host) == Outside ==> Checked(judge, desired, nameOf, seen + {host}, fine - {host}, keep)
    ensures judge(host) == Missing ==> Checked(judge, desired, nameOf, seen + {host}, fine - {host}, keep + {nameOf(host)})
    ensures |fine - {host}| == |fine| - 1
  {
    RemainingStep(judge, desired, seen, fine, host);
    NamesGrow(nameOf, Judged(judge, seen, Missing), host);
    assert Judged(judge, seen + {host}, Missing) == Judged(judge, seen, Missing) + if judge(host) == Missing then {host} else {};
  }

  lemma NamesGrow(nameOf: string -> string, hosts: set<string>, host: string)
    ensures NamesOf(nameOf, hosts + {host}) == NamesOf(nameOf, hosts) + {nameOf(host)}
  {
  }

  /** The problems are exactly one kind for the hosts of missing zones, another for
      those outside theirs. */
  ghost predicate ProblemsFit(judge: string -> Verdict, hosts: set<string>, problems: seq<Problem>) {
    forall p :: p in problems <==> ZoneProblem(judge, hosts, p)
  }

  ghost predicate ZoneProblem(judge: string -> Verdict, hosts: set<string>, p: Problem) {
    (p.ZoneMissing? && p.host in Judged(judge, hosts, Missing)) || (p.OutsideZone? && p.host in Judged(judge, hosts, Outside))
  }

  lemma ProblemStep(judge: string -> Verdict, seen: set<string>, problems: seq<Problem>, host: string)
    requires ProblemsFit(judge, seen, problems)
    ensures judge(host) == Fine ==> ProblemsFit(judge, seen + {host}, problems)
    ensures judge(host) == Missing ==> ProblemsFit(judge, seen + {host}, problems + [ZoneMissing(host)])
    ensures judge(host) == Outside ==> ProblemsFit(judge, seen + {host}, problems + [OutsideZone(host)])
  {
    forall p ensures ZoneProblem(judge, seen + {host}, p) <==>
                     ZoneProblem(judge, seen, p) || (judge(host) == Missing && p == ZoneMissing(host)) || (judge(host) == Outside && p == OutsideZone(host))
    {
    }
  }

  lemma SeenStep(hosts: seq<string>, i: nat)
    requires i < |hosts| && Distinct(hosts)
    ensures Elements(hosts[..i + 1]) == Elements(hosts[..i]) + {hosts[i]} && hosts[i] !in Elements(hosts[..i])
    ensures hosts[i] in Elements(hosts)
  {
    assert hosts[..i + 1] == hosts[..i] + [hosts[i]];
  }

  /** Leaves out the hosts whose zone does not hold them, and keeps the records of
      those whose zone reads as missing. */
  method CheckZones(desired: map<string, Settings>, judge: string -> Verdict, nameOf: string -> string)
    returns (fine: map<string, Settings>, keep: set<string>, problems: seq<Problem>)
    ensures fine.Keys == Judged(judge, desired.Keys, Fine) && forall h :: h in fine ==> fine[h] == desired[h]
    ensures keep == NamesOf(nameOf, Judged(judge, desired.Keys, Missing))
    ensures |fine| + |problems| == |desired| && ProblemsFit(judge, desired.Keys, problems)
  {
    var hosts := SortedKeys(desired.Keys);
    fine, keep, problems := desired, {}, [];
    for i := 0 to |hosts|
      invariant Checked(judge, desired, nameOf, Elements(hosts[..i]), fine, keep)
      invariant |fine| + |problems| == |desired| && ProblemsFit(judge, Elements(hosts[..i]), problems)
    {
      var host := hosts[i];
      SeenStep(hosts, i);
      fine, keep, problems := CheckHost(desired, judge, nameOf, Elements(hosts[..i]), host, fine, keep, problems);
    }
    assert hosts[..|hosts|] == hosts;
  }

  method CheckHost(ghost desired: map<string, Settings>, judge: string -> Verdict, nameOf: string -> string, ghost seen: set<string>, host: string,
                   before: map<string, Settings>, kept: set<string>, noted: seq<Problem>)
    returns (fine: map<string, Settings>, keep: set<string>, problems: seq<Problem>)
    requires Checked(judge, desired, nameOf, seen, before, kept) && host in desired && host !in seen
    requires ProblemsFit(judge, seen, noted)
    ensures Checked(judge, desired, nameOf, seen + {host}, fine, keep)
    ensures ProblemsFit(judge, seen + {host}, problems) && |fine| + |problems| == |before| + |noted|
  {
    fine, keep, problems := before, kept, noted;
    CheckStep(judge, desired, nameOf, seen, fine, keep, host);
    ProblemStep(judge, seen, problems, host);
    match judge(host) {
      case Fine =>
      case Missing =>
        problems := problems + [ZoneMissing(host)];
        keep := keep + {nameOf(host)};
        fine := fine - {host};
      case Outside =>
        problems := problems + [OutsideZone(host)];
        fine := fine - {host};
    }
  }

  // ---- applying and deleting ----

  /** After applying some of the fine hosts. */
  ghost predicate AppliedTo(was: map<string, Record>, now: map<string, Record>, t: Tunnel, nameOf: string -> string,
                            fine: map<string, Settings>, done: set<string>)
    requires done <= fine.Keys
  {
    && now.Keys == was.Keys + NamesOf(nameOf, done)
    && (forall n :: n in was && (Foreign(was, n, t.uid) || n !in NamesOf(nameOf, done)) ==> now[n] == was[n])
    && (forall h :: h in done && !Foreign(was, nameOf(h), t.uid) ==>
          now[nameOf(h)] == Applied(was, nameOf(h), t.uid, SpecFor(t, h, fine[h])))
  }

  /** The fine hosts whose name nothing else has taken. */
  ghost function Own(was: map<string, Record>, uid: Uid, nameOf: string -> string, hosts: set<string>): set<string> {
    set h | h in hosts && !Foreign(was, nameOf(h), uid)
  }

  /** Each of the hosts has a name of its own. */
  ghost predicate OneToOne(nameOf: string -> string, hosts: set<string>) {
    forall g, h :: g in hosts && h in hosts && nameOf(g) == nameOf(h) ==> g == h
  }

  lemma ForeignStep(was: map<string, Record>, now: map<string, Record>, t: Tunnel, nameOf: string -> string,
                    fine: map<string, Settings>, done: set<string>, host: string)
    requires done <= fine.Keys && AppliedTo(was, now, t, nameOf, fine, done) && host in fine
    requires Foreign(was, nameOf(host), t.uid)
    ensures AppliedTo(was, now, t, nameOf, fine, done + {host})
  {
    NamesGrow(nameOf, done, host);
  }

  lemma ApplyStep(was: map<string, Record>, now: map<string, Record>, next: map<string, Record>, t: Tunnel, nameOf: string -> string,
                  fine: map<string, Settings>, done: set<string>, host: string, name: string)
    requires OneToOne(nameOf, fine.Keys) && done <= fine.Keys && AppliedTo(was, now, t, nameOf, fine, done) && host in fine && host !in done
    requires name == nameOf(host) && !Foreign(was, name, t.uid)
    requires next == now[name := Applied(was, name, t.uid, SpecFor(t, host, fine[host]))]
    ensures AppliedTo(was, next, t, nameOf, fine, done + {host})
  {
    NamesGrow(nameOf, done, host);
    assert forall h :: h in done ==> nameOf(h) != name;
  }

  lemma StillThere(was: map<string, Record>, now: map<string, Record>, t: Tunnel, nameOf: string -> string,
                   fine: map<string, Settings>, done: set<string>, host: string)
    requires OneToOne(nameOf, fine.Keys) && done <= fine.Keys && AppliedTo(was, now, t, nameOf, fine, done) && host in fine && host !in done
    ensures nameOf(host) in now <==> nameOf(host) in was
    ensures nameOf(host) in was ==> now[nameOf(host)] == was[nameOf(host)]
  {
    assert nameOf(host) !in NamesOf(nameOf, done);
  }

  /** The hosts whose record Cloudflare already holds pointing at the tunnel. */
  ghost function ReadyHosts(was: map<string, Record>, t: Tunnel, nameOf: string -> string, hosts: set<string>): set<string> {
    set h | h in hosts && nameOf(h) in was && was[nameOf(h)].controller == Some(t.uid) && Ready(was[nameOf(h)], t.id)
  }

  lemma OwnGrows(was: map<string, Record>, t: Tunnel, nameOf: string -> string, hosts: set<string>, host: string)
    requires host !in hosts
    ensures Own(was, t.uid, nameOf, hosts + {host}) ==
            Own(was, t.uid, nameOf, hosts) + if Foreign(was, nameOf(host), t.uid) then {} else {host}
    ensures ReadyHosts(was, t, nameOf, hosts + {host}) ==
            ReadyHosts(was, t, nameOf, hosts) +
            if nameOf(host) in was && was[nameOf(host)].controller == Some(t.uid) && Ready(was[nameOf(host)], t.id) then {host} else {}
  {
  }

  /** The names and counts after applying some of the fine hosts. */
  ghost predicate Tallied(was: map<string, Record>, t: Tunnel, nameOf: string -> string, done: set<string>,
                          kept: set<string>, desired: nat, ready: nat, problems: seq<Problem>)
  {
    && kept == NamesOf(nameOf, Own(was, t.uid, nameOf, done))
    && desired == |Own(was, t.uid, nameOf, done)|
    && ready == |ReadyHosts(was, t, nameOf, done)|
    && (forall p :: p in problems <==> p.NotOwned? && p.host in done && Foreign(was, nameOf(p.host), t.uid))
  }

  lemma TallyStep(was: map<string, Record>, t: Tunnel, nameOf: string -> string, done: set<string>,
                  kept: set<string>, desired: nat, ready: nat, problems: seq<Problem>, host: string)
    requires Tallied(was, t, nameOf, done, kept, desired, ready, problems) && host !in done
    ensures Foreign(was, nameOf(host), t.uid) ==>
              Tallied(was, t, nameOf, done + {host}, kept, desired, ready, problems + [NotOwned(host)])
    ensures !Foreign(was, nameOf(host), t.uid) ==>
              Tallied(was, t, nameOf, done + {host}, kept + {nameOf(host)}, desired + 1,
                      ready + if nameOf(host) in was && Ready(was[nameOf(host)], t.id) then 1 else 0, problems)
  {
    OwnGrows(was, t, nameOf, done, host);
    NamesGrow(nameOf, Own(was, t.uid, nameOf, done), host);
  }

  /** Creates or updates the record of every fine host. */
  method ApplyAll(api: Namespace, t: Tunnel, nameOf: string -> string, fine: map<string, Settings>)
    returns (ok: bool, kept: set<string>, desired: nat, ready: nat, problems: seq<Problem>)
    requires OneToOne(nameOf, fine.Keys)
    modifies api`calls, api`records
    ensures api.Smooth() ==> ok
    ensures exists done :: done <= fine.Keys && AppliedTo(old(api.records), api.records, t, nameOf, fine, done)
    ensures ok ==> AppliedTo(old(api.records), api.records, t, nameOf, fine, fine.Keys)
    ensures ok ==> Tallied(old(api.records), t, nameOf, fine.Keys, kept, desired, ready, problems) && desired + |problems| == |fine|
  {
    ghost var was := api.records;
    var hosts := SortedKeys(fine.Keys);
    kept, desired, ready, problems := {}, 0, 0, [];
    assert |hosts| == |fine.Keys| by { DistinctCount(hosts); }
    for i := 0 to |hosts|
      invariant Elements(hosts[..i]) <= fine.Keys && AppliedTo(was, api.records, t, nameOf, fine, Elements(hosts[..i]))
      invariant Tallied(was, t, nameOf, Elements(hosts[..i]), kept, desired, ready, problems) && desired + |problems| == i
    {
      var host := hosts[i];
      var name := nameOf(host);
      ghost var done, now := Elements(hosts[..i]), api.records;
      SeenStep(hosts, i);
      StillThere(was, now, t, nameOf, fine, done, host);
      TallyStep(was, t, nameOf, done, kept, desired, ready, problems, host);
      var mine: bool;
      ok, mine := api.CreateOrUpdate(name, t.uid, SpecFor(t, host, fine[host]));
      if !mine {
        ForeignStep(was, now, t, nameOf, fine, done, host);
      } else if ok {
        ApplyStep(was, now, api.records, t, nameOf, fine, done, host, name);
      }
      if !ok { return; }
      if mine {
        kept, desired := kept + {name}, desired + 1;
        if Ready(api.records[name], t.id) { ready := ready + 1; }
      } else {
        problems := problems + [NotOwned(host)];
      }
    }
    ok := true;
    assert hosts[..|hosts|] == hosts;
  }

  lemma {:induction false} DistinctCount<T>(s: seq<T>)
    requires Distinct(s)
    ensures |Elements(s)| == |s|
  {
    if s != [] {
      var n := |s| - 1;
      DistinctCount(s[..n]);
      assert s == s[..n] + [s[n]];
      assert Elements(s) == Elements(s[..n]) + {s[n]};
    } else {
      assert Elements(s) == {};
    }
  }

  /** Deletes the owned records that nothing keeps. */
  method DeleteStale(api: Namespace, owned: seq<string>, keep: set<string>) returns (ok: bool)
    modifies api`calls, api`records
    ensures api.Smooth() ==> ok
    ensures ok ==> api.records == Left(old(api.records), Elements(owned) - keep)
    ensures forall n :: n in old(api.records) && n !in owned ==> n in api.records && api.records[n] == old(api.records)[n]
  {
    ghost var was := api.records;
    LeftMore(was, {}, "");
    for i := 0 to |owned|
      invariant api.records == Left(was, Elements(owned[..i]) - keep)
    {
      assert owned[..i + 1] == owned[..i] + [owned[i]];
      assert Elements(owned[..i + 1]) == Elements(owned[..i]) + {owned[i]};
      if owned[i] !in keep {
        LeftMore(was, Elements(owned[..i]) - keep, owned[i]);
        ok := api.Delete(owned[i]);
        if !ok { return; }
        assert Elements(owned[..i]) - keep + {owned[i]} == Elements(owned[..i + 1]) - keep;
      } else {
        assert Elements(owned[..i]) - keep == Elements(owned[..i + 1]) - keep;
      }
    }
    ok := true;
    assert owned[..|owned|] == owned;
  }

  // ---- a whole reconcile ----

  /** The records that go: owned ones of hosts that are neither desired nor of a zone
      that reads as missing. */
  ghost function Stale(was: map<string, Record>, uid: Uid, keep: set<string>): set<string> {
    OwnedNames(was, uid) - keep
  }

  ghost function KeptNames(was: map<string, Record>, t: Tunnel, nameOf: string -> string, desired: map<string, Settings>, judge: string -> Verdict):
    set<string>
  {
    NamesOf(nameOf, Judged(judge, desired.Keys, Missing)) + NamesOf(nameOf, Own(was, t.uid, nameOf, Judged(judge, desired.Keys, Fine)))
  }

  /** What the namespace holds after a reconcile without errors: the tunnel's records
      are those of the fine hosts whose name was not taken, with their spec and the status
      and deletion mark they had, as they were those of hosts whose zone reads as missing, and, marked as being deleted, those of other hosts
      that a finalizer still holds; no other record has changed. */
  ghost predicate Settled(was: map<string, Record>, now: map<string, Record>, t: Tunnel, nameOf: string -> string,
                          desired: map<string, Settings>, judge: string -> Verdict)
  {
    var fine := Judged(judge, desired.Keys, Fine);
    var missing := Judged(judge, desired.Keys, Missing);
    var stale := Stale(was, t.uid, KeptNames(was, t, nameOf, desired, judge));
    && OwnedNames(now, t.uid) ==
         NamesOf(nameOf, Own(was, t.uid, nameOf, fine)) + NamesOf(nameOf, missing) * OwnedNames(was, t.uid) +
         (set n | n in stale && was[n].finalizer)
    && (forall n :: n in was && Foreign(was, n, t.uid) ==> n in now && now[n] == was[n])
    && (forall n :: n in now && Foreign(now, n, t.uid) ==> n in was)
    && (forall h :: h in Own(was, t.uid, nameOf, fine) ==>
          nameOf(h) in now && now[nameOf(h)] == Applied(was, nameOf(h), t.uid, SpecFor(t, h, desired[h])))
    && (forall h :: h in missing && nameOf(h) in OwnedNames(was, t.uid) ==> nameOf(h) in now && now[nameOf(h)] == was[nameOf(h)])
    && (forall n :: n in stale && was[n].finalizer ==> n in now && now[n] == was[n].(deleting := true))
  }

  lemma OthersLeft(was: map<string, Record>, mid: map<string, Record>, t: Tunnel, nameOf: string -> string,
                   fine: map<string, Settings>, stale: set<string>)
    requires AppliedTo(was, mid, t, nameOf, fine, fine.Keys) && stale <= OwnedNames(was, t.uid)
    ensures forall n :: n in was && Foreign(was, n, t.uid) ==> n in Left(mid, stale) && Left(mid, stale)[n] == was[n]
    ensures forall n :: n in Left(mid, stale) && Foreign(Left(mid, stale), n, t.uid) ==> n in was
  {
    var now := Left(mid, stale);
    forall n | n in now && n !in was ensures now[n].controller == Some(t.uid) {
      assert n in NamesOf(nameOf, fine.Keys);
      var h :| h in fine && nameOf(h) == n;
      assert mid[nameOf(h)] == Applied(was, nameOf(h), t.uid, SpecFor(t, h, fine[h]));
    }
  }

  lemma FineLeft(was: map<string, Record>, mid: map<string, Record>, t: Tunnel, nameOf: string -> string,
                 fine: map<string, Settings>, stale: set<string>, h: string)
    requires AppliedTo(was, mid, t, nameOf, fine, fine.Keys) && nameOf(h) !in stale
    requires h in Own(was, t.uid, nameOf, fine.Keys)
    ensures nameOf(h) in Left(mid, stale)
    ensures Left(mid, stale)[nameOf(h)] == Applied(was, nameOf(h), t.uid, SpecFor(t, h, fine[h]))
  {
    assert nameOf(h) in NamesOf(nameOf, fine.Keys);
  }

  /** A record that no fine host names is as it was, or goes. */
  lemma RestLeft(was: map<string, Record>, mid: map<string, Record>, t: Tunnel, nameOf: string -> string,
                 fine: map<string, Settings>, stale: set<string>, n: string)
    requires AppliedTo(was, mid, t, nameOf, fine, fine.Keys)
    requires n in OwnedNames(was, t.uid) && n !in NamesOf(nameOf, fine.Keys)
    ensures n !in stale ==> n in Left(mid, stale) && Left(mid, stale)[n] == was[n]
    ensures n in stale ==> (n in Left(mid, stale) <==> was[n].finalizer)
    ensures n in stale && was[n].finalizer ==> Left(mid, stale)[n] == was[n].(deleting := true)
  {
  }

  /** What the tunnel controls in the end it created, or controlled before. */
  lemma OwnedLeft(was: map<string, Record>, mid: map<string, Record>, t: Tunnel, nameOf: string -> string,
                  fine: map<string, Settings>, stale: set<string>, n: string)
    requires AppliedTo(was, mid, t, nameOf, fine, fine.Keys) && n in OwnedNames(Left(mid, stale), t.uid)
    ensures n in NamesOf(nameOf, Own(was, t.uid, nameOf, fine.Keys)) || (n in OwnedNames(was, t.uid) && n !in NamesOf(nameOf, fine.Keys))
  {
    assert forall m :: m in was && Foreign(was, m, t.uid) ==> m in mid && mid[m] == was[m];
    assert mid[n].controller == Some(t.uid);
    if n in NamesOf(nameOf, fine.Keys) {
      var h :| h in fine && nameOf(h) == n;
      assert h in Own(was, t.uid, nameOf, fine.Keys);
    }
  }

  lemma SettledHolds(was: map<string, Record>, mid: map<string, Record>, t: Tunnel, nameOf: string -> string,
                     desired: map<string, Settings>, judge: string -> Verdict, fine: map<string, Settings>, keep: set<string>)
    requires OneToOne(nameOf, desired.Keys)
    requires fine.Keys == Judged(judge, desired.Keys, Fine) && forall h :: h in fine ==> fine[h] == desired[h]
    requires AppliedTo(was, mid, t, nameOf, fine, fine.Keys)
    requires keep == KeptNames(was, t, nameOf, desired, judge)
    ensures Settled(was, Left(mid, Stale(was, t.uid, keep)), t, nameOf, desired, judge)
  {
    var stale := Stale(was, t.uid, keep);
    var now := Left(mid, stale);
    var missing, own := Judged(judge, desired.Keys, Missing), Own(was, t.uid, nameOf, fine.Keys);
    OthersLeft(was, mid, t, nameOf, fine, stale);
    forall h | h in own
      ensures nameOf(h) in OwnedNames(now, t.uid) && now[nameOf(h)] == Applied(was, nameOf(h), t.uid, SpecFor(t, h, desired[h]))
    {
      assert nameOf(h) in NamesOf(nameOf, own);
      FineLeft(was, mid, t, nameOf, fine, stale, h);
    }
    forall h | h in missing && nameOf(h) in OwnedNames(was, t.uid)
      ensures nameOf(h) in OwnedNames(now, t.uid) && now[nameOf(h)] == was[nameOf(h)]
    {
      MissingUnnamed(nameOf, desired, judge, h);
      assert nameOf(h) in NamesOf(nameOf, missing);
      RestLeft(was, mid, t, nameOf, fine, stale, nameOf(h));
    }
    forall n | n in stale
      ensures was[n].finalizer ==> n in OwnedNames(now, t.uid) && now[n] == was[n].(deleting := true)
      ensures !was[n].finalizer ==> n !in now
    {
      StaleUnnamed(was, t, nameOf, fine.Keys, keep, n);
      RestLeft(was, mid, t, nameOf, fine, stale, n);
    }
    forall n | n in OwnedNames(now, t.uid)
      ensures n in NamesOf(nameOf, own) + NamesOf(nameOf, missing) * OwnedNames(was, t.uid) + (set k | k in stale && was[k].finalizer)
    {
      OwnedLeft(was, mid, t, nameOf, fine, stale, n);
    }
  }

  lemma MissingUnnamed(nameOf: string -> string, desired: map<string, Settings>, judge: string -> Verdict, h: string)
    requires OneToOne(nameOf, desired.Keys) && h in Judged(judge, desired.Keys, Missing)
    ensures nameOf(h) !in NamesOf(nameOf, Judged(judge, desired.Keys, Fine))
  {
  }

  /** A fine host's name is kept or another's, so no stale record has it. */
  lemma StaleUnnamed(was: map<string, Record>, t: Tunnel, nameOf: string -> string, fine: set<string>, keep: set<string>, n: string)
    requires NamesOf(nameOf, Own(was, t.uid, nameOf, fine)) <= keep && n in Stale(was, t.uid, keep)
    ensures n !in NamesOf(nameOf, fine)
  {
    forall h | h in fine && !Foreign(was, nameOf(h), t.uid) ensures nameOf(h) in keep {
      assert h in Own(was, t.uid, nameOf, fine);
      assert nameOf(h) in NamesOf(nameOf, Own(was, t.uid, nameOf, fine));
    }
  }

  /** The verdicts the replies give, as the reconcile reads them. */
  function VerdictsRead(replies: map<string, ZoneReply>, desired: map<string, Settings>): string -> Verdict {
    h => if h in desired && desired[h].zoneId in replies then Judge(replies[desired[h].zoneId], h) else Fine
  }

  lemma SameVerdicts(zones: string -> ZoneReply, replies: map<string, ZoneReply>, desired: map<string, Settings>, v: Verdict)
    requires forall h :: h in desired ==> desired[h].zoneId in replies && replies[desired[h].zoneId] == zones(desired[h].zoneId)
    ensures Judged(VerdictsRead(replies, desired), desired.Keys, v) == Judged(Verdicts(zones, desired), desired.Keys, v)
  {
  }

  /** Reads the zones and judges the hosts that name them. */
  method JudgeHosts(api: Namespace, desired: map<string, Settings>, nameOf: string -> string)
    returns (ok: bool, fine: map<string, Settings>, keep: set<string>, problems: seq<Problem>)
    ensures api.Smooth() ==> ok
    ensures ok ==> fine.Keys == Judged(Verdicts(api.zones, desired), desired.Keys, Fine) && forall h :: h in fine ==> fine[h] == desired[h]
    ensures ok ==> keep == NamesOf(nameOf, Judged(Verdicts(api.zones, desired), desired.Keys, Missing))
    ensures ok ==> |fine| + |problems| == |desired| && ProblemsFit(Verdicts(api.zones, desired), desired.Keys, problems)
  {
    var replies: map<string, ZoneReply>;
    fine, keep, problems := map[], {}, [];
    ok, replies := ReadZones(api, desired);
    if !ok { return; }
    fine, keep, problems := CheckZones(desired, VerdictsRead(replies, desired), nameOf);
    SameVerdicts(api.zones, replies, desired, Fine);
    SameVerdicts(api.zones, replies, desired, Missing);
    SameVerdicts(api.zones, replies, desired, Outside);
  }

  /** Everything once the hosts have been judged. */
  method Converge(api: Namespace, t: Tunnel, nameOf: string -> string, ghost desired: map<string, Settings>, ghost judge: string -> Verdict,
                  fine: map<string, Settings>, missing: set<string>)
    returns (ok: bool, count: nat, ready: nat, problems: seq<Problem>)
    requires OneToOne(nameOf, desired.Keys)
    requires fine.Keys == Judged(judge, desired.Keys, Fine) && forall h :: h in fine ==> fine[h] == desired[h]
    requires missing == NamesOf(nameOf, Judged(judge, desired.Keys, Missing))
    modifies api
    ensures api.Smooth() ==> ok
    ensures forall n :: n in old(api.records) && Foreign(old(api.records), n, t.uid) ==> n in api.records && api.records[n] == old(api.records)[n]
    ensures ok ==> Settled(old(api.records), api.records, t, nameOf, desired, judge)
    ensures ok ==> count + |problems| == |fine| && count == |Own(old(api.records), t.uid, nameOf, fine.Keys)|
    ensures ok ==> ready == |ReadyHosts(old(api.records), t, nameOf, fine.Keys)|
    ensures ok ==> forall p :: p in problems <==> p.NotOwned? && p.host in fine && Foreign(old(api.records), nameOf(p.host), t.uid)
  {
    ghost var was := api.records;
    var owned: seq<string>, kept: set<string>;
    count, ready, problems := 0, 0, [];
    ok, owned := api.List(t.uid);
    if !ok { return; }
    ok, kept, count, ready, problems := ApplyAll(api, t, nameOf, fine);
    if !ok { return; }
    ghost var mid := api.records;
    ok := DeleteStale(api, owned, missing + kept);
    assert forall n :: n in was && Foreign(was, n, t.uid) ==> n !in Elements(owned);
    if ok {
      SettledWhen(was, mid, api.records, t, nameOf, desired, judge, fine, missing + kept, Elements(owned));
    }
  }

  lemma SettledWhen(was: map<string, Record>, mid: map<string, Record>, now: map<string, Record>, t: Tunnel, nameOf: string -> string,
                    desired: map<string, Settings>, judge: string -> Verdict, fine: map<string, Settings>, keep: set<string>, owned: set<string>)
    requires OneToOne(nameOf, desired.Keys)
    requires fine.Keys == Judged(judge, desired.Keys, Fine) && forall h :: h in fine ==> fine[h] == desired[h]
    requires AppliedTo(was, mid, t, nameOf, fine, fine.Keys)
    requires keep == NamesOf(nameOf, Judged(judge, desired.Keys, Missing)) + NamesOf(nameOf, Own(was, t.uid, nameOf, fine.Keys))
    requires owned == OwnedNames(was, t.uid) && now == Left(mid, owned - keep)
    ensures Settled(was, now, t, nameOf, desired, judge)
  {
    SettledHolds(was, mid, t, nameOf, desired, judge, fine, keep);
  }

  /** What is reported of a host: its entries disagree, its zone is missing or does not
      hold it, or its record's name is taken. */
  ghost predicate Reported(was: map<string, Record>, t: Tunnel, nameOf: string -> string, desired: map<string, Settings>,
                           judge: string -> Verdict, conflicts: seq<string>, p: Problem)
  {
    match p
    case Disagree(h) => h in conflicts
    case ZoneMissing(h) => h in Judged(judge, desired.Keys, Missing)
    case OutsideZone(h) => h in Judged(judge, desired.Keys, Outside)
    case NotOwned(h) => h in Judged(judge, desired.Keys, Fine) && Foreign(was, nameOf(h), t.uid)
  }

  function Disagreements(hosts: seq<string>): seq<Problem> {
    seq(|hosts|, i requires 0 <= i < |hosts| => Disagree(hosts[i]))
  }

  lemma ReportedExactly(was: map<string, Record>, t: Tunnel, nameOf: string -> string, desired: map<string, Settings>,
                        judge: string -> Verdict, conflicts: seq<string>, zone: seq<Problem>, taken: seq<Problem>, p: Problem)
    requires ProblemsFit(judge, desired.Keys, zone)
    requires forall q :: q in taken <==> q.NotOwned? && q.host in Judged(judge, desired.Keys, Fine) && Foreign(was, nameOf(q.host), t.uid)
    ensures p in Disagreements(conflicts) + zone + taken <==> Reported(was, t, nameOf, desired, judge, conflicts, p)
  {
    assert p in zone <==> ZoneProblem(judge, desired.Keys, p);
    var d := Disagreements(conflicts);
    assert p in d <==> p.Disagree? && p.host in conflicts by {
      if p.Disagree? && p.host in conflicts {
        var i :| 0 <= i < |conflicts| && conflicts[i] == p.host;
        assert d[i] == p;
      }
    }
  }

  /** The whole pass over a tunnel's DnsRecords. Whatever happens, no
      record the tunnel does not control changes; a run without errors leaves the
      namespace settled, and accounts for every host: it is desired or a problem. */
  method ReconcileDns(api: Namespace, t: Tunnel, digest: string -> string)
    returns (result: Result, ghost desired: map<string, Settings>, ghost conflicts: seq<string>)
    requires IsDigest(digest) && Injective(digest, HostsOf(t.ingress))
    modifies api
    ensures api.Smooth() ==> result.Done?
    ensures forall n :: n in old(api.records) && Foreign(old(api.records), n, t.uid) ==> n in api.records && api.records[n] == old(api.records)[n]
    ensures Grouped(t.dns, t.ingress, desired, conflicts)
    ensures var nameOf := h => RecordName(t.name, digest, h);
            result.Done? ==>
              && Settled(old(api.records), api.records, t, nameOf, desired, Verdicts(api.zones, desired))
              && result.desired + |result.problems| == |conflicts| + |desired|
              && (forall p :: p in result.problems <==>
                    Reported(old(api.records), t, nameOf, desired, Verdicts(api.zones, desired), conflicts, p))
              && result.desired == |Own(old(api.records), t.uid, nameOf, Judged(Verdicts(api.zones, desired), desired.Keys, Fine))|
              && result.ready == |ReadyHosts(old(api.records), t, nameOf, Judged(Verdicts(api.zones, desired), desired.Keys, Fine))|
  {
    var wanted: map<string, Settings>, clashes: seq<string>;
    wanted, clashes := DesiredDns(t.dns, t.ingress);
    desired, conflicts := wanted, clashes;
    var nameOf := h => RecordName(t.name, digest, h);
    NamesApart(t, digest, wanted, clashes);
    var ok, fine, missing, problems := JudgeHosts(api, wanted, nameOf);
    if !ok { return Error, desired, conflicts; }
    var count: nat, ready: nat, taken: seq<Problem>;
    ghost var was := api.records;
    ok, count, ready, taken := Converge(api, t, nameOf, desired, Verdicts(api.zones, desired), fine, missing);
    if !ok { return Error, desired, conflicts; }
    result := Done(count, ready, Disagreements(clashes) + problems + taken);
    forall p ensures p in result.problems <==> Reported(was, t, nameOf, desired, Verdicts(api.zones, desired), conflicts, p) {
      ReportedExactly(was, t, nameOf, desired, Verdicts(api.zones, desired), conflicts, problems, taken, p);
    }
  }

  /** Where the digest tells the ingress's hosts apart, the names tell the desired ones apart. */
  lemma NamesApart(t: Tunnel, digest: string -> string, desired: map<string, Settings>, conflicts: seq<string>)
    requires IsDigest(digest) && Injective(digest, HostsOf(t.ingress)) && Grouped(t.dns, t.ingress, desired, conflicts)
    ensures OneToOne(h => RecordName(t.name, digest, h), desired.Keys)
  {
    forall h | h in desired ensures h in HostsOf(t.ingress) {
      var e :| e in t.ingress && Names(e, h) && Merged(t.dns, e.dns) == desired[h];
      assert ToLower(e.hostname) in HostsOf(t.ingress);
    }
    forall g, h | g in desired && h in desired && RecordName(t.name, digest, g) == RecordName(t.name, digest, h) ensures g == h {
      NameIdentifiesHost(t.name, digest, g, h);
    }
  }

  /** Such digests exist: one for an ingress of two hosts. */
  lemma DigestExists() returns (digest: string -> string)
    ensures IsDigest(digest) && Injective(digest, HostsOf([Entry("a.example", None), Entry("b.example", None)]))
  {
    digest := h => seq(20, i => if h == "a.example" then '0' else '1');
    var entries := [Entry("a.example", None), Entry("b.example", None)];
    assert ToLower("a.example") == "a.example" && ToLower("b.example") == "b.example";
    forall g | g in HostsOf(entries) ensures g == "a.example" || g == "b.example" {
      var e :| e in entries && ToLower(e.hostname) == g;
    }
    assert digest("a.example")[0] != digest("b.example")[0];
  }
}
