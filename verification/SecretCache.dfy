/** The per-namespace caches of TLS Secrets. Every operation runs under one mutex, so
    a run is a sequence of whole operations; what completes late is the goroutine
    that waits for a cache to sync, which may come at any time, even after its cache
    has been stopped and another one watches the namespace. */
module SecretCache {
  import opened Sorting

  /** A cache's identity, as a pointer to it. */
  type Handle = nat

  datatype Cache = Cache(ns: string, cancelled: bool, synced: bool)

  datatype State = State(
    watched: map<string, Handle>, caches: map<Handle, Cache>, next: Handle, notices: seq<string>)

  datatype Action =
    | Set(want: set<string>, ok: bool)
    | Complete(handle: Handle)
    | SecretEvent(ns: string)

  datatype Answer = NotWatching | Waiting | Read(handle: Handle)

  // ---- what the operations do ----

  /** Every watched namespace has its own live cache, and every other cache is stopped. */
  ghost predicate Sound(s: State) {
    && (forall h :: h in s.caches ==> h < s.next)
    && (forall ns :: ns in s.watched ==> s.watched[ns] in s.caches && s.caches[s.watched[ns]].ns == ns)
    && (forall h :: h in s.caches ==> (!s.caches[h].cancelled <==> Watches(s, h)))
  }

  /** The cache is the one its namespace has. */
  predicate Watches(s: State, h: Handle)
    requires h in s.caches
  {
    s.caches[h].ns in s.watched && s.watched[s.caches[h].ns] == h
  }

  /** The Secrets of the namespace can be read. */
  predicate Readable(s: State, ns: string) {
    ns in s.watched && s.watched[ns] in s.caches && s.caches[s.watched[ns]].synced
  }

  ghost function Dropped(s: State, want: set<string>): set<string> {
    s.watched.Keys - want
  }

  /** What becomes of a cache once the wanted namespaces are set. */
  function After(s: State, want: set<string>, h: Handle): Cache
    requires h in s.caches
  {
    if Watches(s, h) && s.caches[h].ns !in want then s.caches[h].(cancelled := true) else s.caches[h]
  }

  /** The unwanted caches are stopped, the wanted ones are as they were, and some
      wanted namespaces that had none have a new one. */
  ghost predicate Growing(s: State, t: State, want: set<string>) {
    && t.watched.Keys <= want && s.next <= t.next
    && (forall ns :: ns in s.watched && ns in want ==> ns in t.watched && t.watched[ns] == s.watched[ns])
    && (forall ns :: ns in t.watched && ns !in s.watched ==> IsNew(s, t, ns))
    && (forall h :: h in s.caches ==> h in t.caches && t.caches[h] == After(s, want, h))
    && (forall h :: h in t.caches && h !in s.caches ==> t.caches[h].ns !in s.watched && Watches(t, h))
  }

  ghost predicate IsNew(s: State, t: State, ns: string) {
    ns in t.watched && s.next <= t.watched[ns] < t.next && t.watched[ns] in t.caches && t.caches[t.watched[ns]] == Cache(ns, false, false)
  }

  /** What SetNamespaces may do. When it succeeds every wanted namespace has a cache
      and there is notice of every stopped one. */
  ghost predicate SetStep(s: State, want: set<string>, ok: bool, t: State) {
    && Growing(s, t, want)
    && (ok ==> t.watched.Keys == want && exists told :: Tells(s, want, told) && t.notices == s.notices + told)
    && (!ok ==> t.notices == s.notices)
  }

  ghost predicate Tells(s: State, want: set<string>, told: seq<string>) {
    Distinct(told) && Elements(told) == Dropped(s, want)
  }

  function Completed(s: State, h: Handle): State {
    if h in s.caches && Watches(s, h)
    then s.(caches := s.caches[h := s.caches[h].(synced := true)], notices := s.notices + [s.caches[h].ns])
    else s
  }

  ghost predicate Step(s: State, a: Action, t: State) {
    match a
    case Set(want, ok) => SetStep(s, want, ok, t)
    case Complete(h) => t == Completed(s, h)
    case SecretEvent(ns) => t == s.(notices := s.notices + [ns])
  }

  // ---- the operations ----

  class Access {
    var watched: map<string, Handle>
    var caches: map<Handle, Cache>
    var next: Handle
    var notices: seq<string>
    var started: bool
    /** Whether starting the cache with a given handle works. */
    const starts: nat -> bool
    var attempts: nat

    ghost function Now(): State
      reads this
    {
      State(watched, caches, next, notices)
    }

    ghost predicate Valid()
      reads this
    {
      Sound(Now())
    }

    constructor (starts: nat -> bool)
      ensures Valid() && watched == map[] && caches == map[] && notices == [] && this.starts == starts
    {
      this.starts, watched, caches, next, notices, started, attempts := starts, map[], map[], 0, [], false, 0;
    }

    method Start()
      modifies this`started
      ensures started && Now() == old(Now())
    {
      started := true;
    }

    method Namespaces() returns (out: set<string>)
      ensures out == watched.Keys
    {
      out := watched.Keys;
    }

    /** Makes the watched namespaces the wanted ones; a cache that cannot be started
        ends the call before anyone is told of the caches it stopped. */
    method SetNamespaces(want: set<string>) returns (ok: bool)
      requires Valid()
      modifies this
      ensures Valid()
      ensures started == old(started) && (!started ==> !ok && Now() == old(Now()))
      ensures started ==> Step(old(Now()), Set(want, ok), Now())
      ensures started && (forall n :: starts(n)) ==> ok
    {
      if !started { return false; }
      ghost var s := Now();
      var changed := StopUnwanted(want);
      ok := StartWanted(want, s);
      GrownIsSetStep(s, Now(), want, changed);
      if !ok { return; }
      notices := notices + changed;
    }

    /** Stops the caches of the namespaces that are not wanted, and names those. */
    method StopUnwanted(want: set<string>) returns (changed: seq<string>)
      requires Valid()
      modifies this`watched, this`caches
      ensures Now() in Grown(old(Now()), want)
      ensures Tells(old(Now()), want, changed)
    {
      ghost var s := Now();
      var all := Collect(watched.Keys);
      changed := [];
      StopStart(s, want);
      for i := 0 to |all|
        invariant Now() in Stopping(s, want, Elements(all[..i]))
        invariant Told(changed, Elements(all[..i]), want)
      {
        var ns := all[i];
        VisitStep(all, i);
        ghost var t := Now();
        StopStep(s, t, want, Elements(all[..i]), ns);
        ToldStep(changed, Elements(all[..i]), want, ns);
        if ns !in want {
          var h := watched[ns];
          caches := caches[h := caches[h].(cancelled := true)];
          watched := watched - {ns};
          changed := changed + [ns];
        }
      }
      assert all[..|all|] == all;
      StopEnd(s, Now(), want);
    }

    /** The second half of SetNamespaces. */
    method StartWanted(want: set<string>, ghost s: State) returns (ok: bool)
      requires Now() in Grown(s, want)
      modifies this`watched, this`caches, this`next, this`attempts
      ensures Now() in Grown(s, want)
      ensures ok ==> want <= watched.Keys
      ensures (forall n :: starts(n)) ==> ok
    {
      var todo := Collect(want);
      for i := 0 to |todo|
        invariant Now() in Grown(s, want)
        invariant forall ns :: ns in todo[..i] ==> ns in watched
      {
        assert todo[i] in want && todo[..i + 1] == todo[..i] + [todo[i]];
        if todo[i] !in watched {
          ok := Watch(todo[i], want, s);
          if !ok { return; }
        }
      }
      ok := true;
      assert todo[..|todo|] == todo;
    }

    /** Starts a cache in the namespace. */
    method Watch(ns: string, ghost want: set<string>, ghost s: State) returns (ok: bool)
      requires ns in want && ns !in watched && Now() in Grown(s, want)
      modifies this`watched, this`caches, this`next, this`attempts
      ensures Now() in Grown(s, want)
      ensures watched.Keys == old(watched).Keys + if ok then {ns} else {}
      ensures (forall n :: starts(n)) ==> ok
    {
      ok := starts(attempts);
      attempts := attempts + 1;
      if !ok { return; }
      Started(ns, want, s);
    }

    method Started(ns: string, ghost want: set<string>, ghost s: State)
      requires ns in want && ns !in watched && Now() in Grown(s, want)
      modifies this`watched, this`caches, this`next
      ensures Now() in Grown(s, want)
      ensures watched == old(watched)[ns := old(next)]
    {
      WatchStep(s, Now(), want, ns);
      caches := caches[next := Cache(ns, false, false)];
      watched := watched[ns := next];
      next := next + 1;
    }

    /** The goroutine that waited for a cache to sync. */
    method CompleteSync(h: Handle)
      requires Valid() && h in caches
      modifies this`caches, this`notices
      ensures Valid() && Step(old(Now()), Complete(h), Now())
    {
      var ns := caches[h].ns;
      if ns !in watched || watched[ns] != h { return; }
      caches := caches[h := caches[h].(synced := true)];
      notices := notices + [ns];
    }

    method Get(ns: string) returns (answer: Answer)
      requires Valid()
      ensures answer.Read? <==> Readable(Now(), ns)
      ensures answer.Read? ==> answer.handle == watched[ns] && !caches[answer.handle].cancelled
      ensures answer.NotWatching? <==> ns !in watched
    {
      if ns !in watched { return NotWatching; }
      if !caches[watched[ns]].synced { return Waiting; }
      return Read(watched[ns]);
    }
  }

  // ---- how the loops get there ----

  /** Sound states that the loops of SetNamespaces may reach. */
  ghost function Grown(s: State, want: set<string>): iset<State> {
    iset t: State | Sound(s) && Sound(t) && Growing(s, t, want) && t.notices == s.notices
  }

  /** States where the unwanted caches of the visited namespaces are stopped. */
  ghost function Stopping(s: State, want: set<string>, visited: set<string>): iset<State> {
    iset t: State | Stopped(s, t, want, visited)
  }

  ghost predicate Stopped(s: State, t: State, want: set<string>, visited: set<string>) {
    && Sound(s) && t.next == s.next && t.notices == s.notices
    && t.watched == s.watched - (visited - want)
    && t.caches.Keys == s.caches.Keys
    && (forall h :: h in s.caches ==>
          t.caches[h] == if s.caches[h].ns in visited then After(s, want, h) else s.caches[h])
  }

  ghost predicate Told(changed: seq<string>, visited: set<string>, want: set<string>) {
    Distinct(changed) && Elements(changed) == visited - want
  }

  lemma ToldStep(changed: seq<string>, visited: set<string>, want: set<string>, ns: string)
    requires Told(changed, visited, want) && ns !in visited
    ensures Told(if ns in want then changed else changed + [ns], visited + {ns}, want)
  {
    if ns !in want {
      assert ns !in Elements(changed);
      assert Elements(changed + [ns]) == Elements(changed) + {ns};
    }
  }

  lemma StopStart(s: State, want: set<string>)
    requires Sound(s)
    ensures s in Stopping(s, want, {})
  {
    assert s.watched - ({} - want) == s.watched;
  }

  lemma VisitStep(all: seq<string>, i: nat)
    requires i < |all| && Distinct(all)
    ensures Elements(all[..i + 1]) == Elements(all[..i]) + {all[i]} && all[i] !in Elements(all[..i]) && all[i] in Elements(all)
  {
    assert all[..i + 1] == all[..i] + [all[i]];
  }

  lemma StopStep(s: State, t: State, want: set<string>, visited: set<string>, ns: string)
    requires t in Stopping(s, want, visited) && ns in s.watched && ns !in visited
    ensures ns in t.watched && t.watched[ns] in t.caches
    ensures ns in want ==> t in Stopping(s, want, visited + {ns})
    ensures ns !in want ==>
              t.(watched := t.watched - {ns}, caches := t.caches[t.watched[ns] := t.caches[t.watched[ns]].(cancelled := true)])
              in Stopping(s, want, visited + {ns})
  {
    assert Stopped(s, t, want, visited);
    if ns in want {
      assert visited + {ns} - want == visited - want;
      assert Stopped(s, t, want, visited + {ns});
    } else {
      var h := t.watched[ns];
      var u := t.(watched := t.watched - {ns}, caches := t.caches[h := t.caches[h].(cancelled := true)]);
      assert s.watched - (visited - want) - {ns} == s.watched - (visited + {ns} - want);
      assert Stopped(s, u, want, visited + {ns});
    }
  }

  lemma StopEnd(s: State, t: State, want: set<string>)
    requires t in Stopping(s, want, s.watched.Keys)
    ensures t in Grown(s, want)
  {
    assert Stopped(s, t, want, s.watched.Keys);
    assert forall h :: h in s.caches ==> t.caches[h] == After(s, want, h);
    forall h | h in t.caches ensures !t.caches[h].cancelled <==> Watches(t, h) {
    }
  }

  lemma WatchStep(s: State, t: State, want: set<string>, ns: string)
    requires t in Grown(s, want) && ns in want && ns !in t.watched
    ensures t.(watched := t.watched[ns := t.next], caches := t.caches[t.next := Cache(ns, false, false)], next := t.next + 1) in Grown(s, want)
  {
    var u := t.(watched := t.watched[ns := t.next], caches := t.caches[t.next := Cache(ns, false, false)], next := t.next + 1);
    assert ns !in s.watched;
    forall h | h in u.caches ensures !u.caches[h].cancelled <==> Watches(u, h) {
      assert h != t.next ==> u.caches[h] == t.caches[h];
    }
    assert Sound(u);
    WatchGrows(s, t, u, want, ns);
  }

  lemma WatchGrows(s: State, t: State, u: State, want: set<string>, ns: string)
    requires t in Grown(s, want) && ns in want && ns !in t.watched
    requires u == t.(watched := t.watched[ns := t.next], caches := t.caches[t.next := Cache(ns, false, false)], next := t.next + 1)
    ensures Growing(s, u, want)
  {
    forall n | n in u.watched && n !in s.watched ensures IsNew(s, u, n) {
      assert n != ns ==> IsNew(s, t, n);
    }
    forall h | h in u.caches && h !in s.caches ensures u.caches[h].ns !in s.watched && Watches(u, h) {
      assert h != t.next ==> Watches(t, h);
    }
  }

  lemma GrownIsSetStep(s: State, t: State, want: set<string>, told: seq<string>)
    requires t in Grown(s, want) && Tells(s, want, told)
    ensures Sound(t) && SetStep(s, want, false, t)
    ensures want <= t.watched.Keys ==> Sound(t.(notices := t.notices + told)) && SetStep(s, want, true, t.(notices := t.notices + told))
  {
  }

  // ---- whole runs ----

  ghost predicate Run(ws: seq<State>, acts: seq<Action>) {
    |ws| == |acts| + 1 && ws[0] == State(map[], map[], 0, []) &&
    forall k :: 0 <= k < |acts| ==> Step(ws[k], acts[k], ws[k + 1])
  }

  lemma {:induction false} SoundAlways(ws: seq<State>, acts: seq<Action>, k: nat)
    requires Run(ws, acts) && k < |ws|
    ensures Sound(ws[k])
  {
    if k > 0 {
      SoundAlways(ws, acts, k - 1);
      assert Step(ws[k - 1], acts[k - 1], ws[k]);
      if acts[k - 1].Set? { SetKeepsSound(ws[k - 1], acts[k - 1].want, acts[k - 1].ok, ws[k]); }
    }
  }

  lemma SetKeepsSound(s: State, want: set<string>, ok: bool, t: State)
    requires Sound(s) && SetStep(s, want, ok, t)
    ensures Sound(t)
  {
    forall h | h in t.caches
      ensures h < t.next && (!t.caches[h].cancelled <==> Watches(t, h))
    {
      if h in s.caches {
        assert t.caches[h] == After(s, want, h);
      } else {
        assert Watches(t, h);
        assert IsNew(s, t, t.caches[h].ns);
      }
    }
    forall ns | ns in t.watched ensures t.watched[ns] in t.caches && t.caches[t.watched[ns]].ns == ns {
      assert ns !in s.watched ==> IsNew(s, t, ns);
    }
  }

  /** A successful call leaves the watched namespaces equal to the wanted ones, and
      the caches of namespaces that stay wanted as they were, synced or not. */
  lemma SetWatchesWanted(ws: seq<State>, acts: seq<Action>, k: nat)
    requires Run(ws, acts) && k < |acts| && acts[k].Set? && acts[k].ok
    ensures ws[k + 1].watched.Keys == acts[k].want
    ensures forall ns :: ns in ws[k].watched && ns in acts[k].want ==>
              ws[k + 1].watched[ns] == ws[k].watched[ns] && (Readable(ws[k + 1], ns) <==> Readable(ws[k], ns))
  {
    SoundAlways(ws, acts, k);
    assert Step(ws[k], acts[k], ws[k + 1]);
  }

  /** The late completion of a stopped cache changes nothing, also when its namespace
      is watched again by another cache. */
  lemma StaleCompletionIsVoid(ws: seq<State>, acts: seq<Action>, k: nat, h: Handle)
    requires Run(ws, acts) && k < |acts| && acts[k] == Complete(h)
    requires h in ws[k].caches && ws[k].caches[h].cancelled
    ensures ws[k + 1] == ws[k]
  {
    SoundAlways(ws, acts, k);
    assert Step(ws[k], acts[k], ws[k + 1]);
  }

  /** A namespace is read only from a cache that has synced: the completion of this
      very cache lies behind, and since then it has watched the namespace without a break. */
  lemma {:induction false} ReadsOnlySynced(ws: seq<State>, acts: seq<Action>, k: nat, ns: string) returns (j: nat)
    requires Run(ws, acts) && k < |ws| && Readable(ws[k], ns)
    ensures j < k && acts[j] == Complete(ws[k].watched[ns])
    ensures forall i :: j <= i <= k ==> ns in ws[i].watched && ws[i].watched[ns] == ws[k].watched[ns]
  {
    SoundAlways(ws, acts, k);
    assert k > 0;
    SoundAlways(ws, acts, k - 1);
    var s, a, t := ws[k - 1], acts[k - 1], ws[k];
    assert Step(s, a, t);
    if a == Complete(t.watched[ns]) && ns in s.watched && s.watched[ns] == t.watched[ns] {
      j := k - 1;
    } else {
      StaysReadable(s, a, t, ns);
      j := ReadsOnlySynced(ws, acts, k - 1, ns);
    }
  }

  /** Only its completion makes a namespace readable. */
  lemma StaysReadable(s: State, a: Action, t: State, ns: string)
    requires Sound(s) && Step(s, a, t) && Readable(t, ns)
    ensures (ns in s.watched && s.watched[ns] == t.watched[ns]) && (a == Complete(t.watched[ns]) || Readable(s, ns))
  {
    assert a.Set? ==> forall n :: n in t.watched && n !in s.watched ==> IsNew(s, t, n);
  }

  /** The notices a step gives. */
  ghost predicate Announces(s: State, t: State, ns: string) {
    |s.notices| <= |t.notices| && ns in t.notices[|s.notices|..]
  }

  /** Subscribers hear of every change in what can be read, except of a namespace that
      a failing call stopped: a step makes a namespace readable or unreadable without
      notice exactly when it is a failing SetNamespaces that drops a readable one. */
  lemma ChangesAreAnnounced(ws: seq<State>, acts: seq<Action>, k: nat, ns: string)
    requires Run(ws, acts) && k < |acts|
    ensures (Readable(ws[k], ns) != Readable(ws[k + 1], ns) && !Announces(ws[k], ws[k + 1], ns)) <==>
            (acts[k].Set? && !acts[k].ok && Readable(ws[k], ns) && ns !in acts[k].want)
  {
    SoundAlways(ws, acts, k);
    SoundAlways(ws, acts, k + 1);
    var s, a, t := ws[k], acts[k], ws[k + 1];
    assert Step(s, a, t);
    if Readable(t, ns) { StaysReadable(s, a, t, ns); }
    match a {
      case Set(want, ok) =>
        SetAnnounces(s, want, ok, t, ns);
      case Complete(h) =>
        CompleteAnnounces(s, h, ns);
      case SecretEvent(_) =>
    }
  }

  lemma SetAnnounces(s: State, want: set<string>, ok: bool, t: State, ns: string)
    requires Sound(s) && SetStep(s, want, ok, t)
    ensures Readable(t, ns) <==> Readable(s, ns) && ns in want
    ensures ok ==> (Announces(s, t, ns) <==> ns in s.watched && ns !in want)
    ensures !ok ==> !Announces(s, t, ns)
  {
    assert ns in t.watched && ns !in s.watched ==> IsNew(s, t, ns);
    if ok {
      var told :| Tells(s, want, told) && t.notices == s.notices + told;
      assert t.notices[|s.notices|..] == told;
      assert ns in told <==> ns in Elements(told);
    }
  }

  lemma CompleteAnnounces(s: State, h: Handle, ns: string)
    requires Sound(s)
    ensures Readable(s, ns) != Readable(Completed(s, h), ns) ==> Announces(s, Completed(s, h), ns)
  {
    var t := Completed(s, h);
    if h in s.caches && Watches(s, h) {
      assert t.notices[|s.notices|..] == [s.caches[h].ns];
    }
  }

  /** The notice a failing call withholds is not made up for: until some call wants the
      namespace again it stays unwatched, and no later call, whether it fails or
      succeeds, and no late completion tells of it. */
  lemma {:induction false} NoticeIsLost(ws: seq<State>, acts: seq<Action>, k: nat, j: nat, ns: string)
    requires Run(ws, acts) && k < j <= |acts|
    requires acts[k].Set? && !acts[k].ok && Readable(ws[k], ns) && ns !in acts[k].want
    requires forall i :: k < i < j && acts[i].Set? ==> ns !in acts[i].want
    ensures ns !in ws[j].watched && !Readable(ws[j], ns)
    ensures forall i :: k <= i < j && acts[i] != SecretEvent(ns) ==> !Announces(ws[i], ws[i + 1], ns)
  {
    SoundAlways(ws, acts, j - 1);
    if j > k + 1 { NoticeIsLost(ws, acts, k, j - 1, ns); }
    StaysLost(ws[j - 1], acts[j - 1], ws[j], ns);
  }

  lemma StaysLost(s: State, a: Action, t: State, ns: string)
    requires Sound(s) && Step(s, a, t) && (a.Set? ==> ns !in a.want) && (ns in s.watched ==> a.Set? && !a.ok)
    ensures ns !in t.watched && (a != SecretEvent(ns) ==> !Announces(s, t, ns))
  {
    match a {
      case Set(want, ok) => SetAnnounces(s, want, ok, t, ns);
      case Complete(h) => CompletedNotices(s, h);
      case SecretEvent(n) => assert t.notices[|s.notices|..] == [n];
    }
  }

  lemma CompletedNotices(s: State, h: Handle)
    ensures Completed(s, h).notices[|s.notices|..] == if h in s.caches && Watches(s, h) then [s.caches[h].ns] else []
  {
  }

  /** A namespace that is watched alone and synced. */
  function WatchesOne(ns: string): State {
    State(map[ns := 0], map[0 := Cache(ns, false, true)], 1, [ns])
  }

  lemma FirstWatch(ns: string)
    ensures Step(State(map[], map[], 0, []), Set({ns}, true), State(map[ns := 0], map[0 := Cache(ns, false, false)], 1, []))
  {
    var s, t := State(map[], map[], 0, []), State(map[ns := 0], map[0 := Cache(ns, false, false)], 1, []);
    assert Dropped(s, {ns}) == {};
    assert Tells(s, {ns}, []) && t.notices == s.notices + [];
    assert IsNew(s, t, ns) && Watches(t, 0);
  }

  lemma DroppedByFailure(ns: string, other: string)
    requires ns != other
    ensures Step(WatchesOne(ns), Set({other}, false), State(map[], map[0 := Cache(ns, true, true)], 1, [ns]))
  {
    var s, t := WatchesOne(ns), State(map[], map[0 := Cache(ns, true, true)], 1, [ns]);
    assert Watches(s, 0) && t.caches[0] == After(s, {other}, 0);
    assert Growing(s, t, {other});
  }

  /** Such a run exists: a namespace is watched and synced, then dropped by a call that
      fails to watch another. */
  lemma NoticeCanBeLost() returns (ws: seq<State>, acts: seq<Action>)
    ensures Run(ws, acts) && |acts| == 3 && acts[2] == Set({"b"}, false)
    ensures Readable(ws[2], "a") && !Readable(ws[3], "a") && !Announces(ws[2], ws[3], "a")
  {
    var s0 := State(map[], map[], 0, []);
    var s1 := State(map["a" := 0], map[0 := Cache("a", false, false)], 1, []);
    var s2 := WatchesOne("a");
    var s3 := State(map[], map[0 := Cache("a", true, true)], 1, ["a"]);
    FirstWatch("a");
    assert Step(s1, Complete(0), s2) by { assert Watches(s1, 0) && s2 == Completed(s1, 0); }
    DroppedByFailure("a", "b");
    ws, acts := [s0, s1, s2, s3], [Set({"a"}, true), Complete(0), Set({"b"}, false)];
    RunOfThree(ws, acts);
    assert s3.notices[|s2.notices|..] == [];
  }

  lemma RunOfThree(ws: seq<State>, acts: seq<Action>)
    requires |ws| == 4 && |acts| == 3 && ws[0] == State(map[], map[], 0, [])
    requires Step(ws[0], acts[0], ws[1]) && Step(ws[1], acts[1], ws[2]) && Step(ws[2], acts[2], ws[3])
    ensures Run(ws, acts)
  {
  }
}
