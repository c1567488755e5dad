/** Where a DnsRecord ends up when its reconciles succeed and nobody else acts: the
    whole reconcile as one function, and after three of them a fourth that writes
    nothing, exactly when Cloudflare stores what diff compares. */
module DnsConvergence {
  import opened Text
  import opened DnsProtocol
  import opened DnsReconcile

  /** A live object whose record resolves, with no reconcile in flight. */
  ghost predicate Live(w: World, uid: Uid, r: Record) {
    w.run == Idle && uid in w.objs && !w.objs[uid].deleting && Resolve(w, w.objs[uid].record) == Some(r)
  }

  ghost function Started(w: World, uid: Uid): World {
    w.(run := Begun(w, uid))
  }

  /** How many calls of the rest of the reconcile write to the zone. */
  ghost function Writes(w: World): nat
    decreases Rank(w.run)
  {
    if w.run == Idle then 0
    else (if w.run.Creating? || w.run.Updating? || w.run.DeletingRemote? then 1 else 0) + Writes(Advance(w))
  }

  function Held(w: World, uid: Uid): World
    requires uid in w.objs
  {
    w.(objs := w.objs[uid := w.objs[uid].(finalizer := true)])
  }

  lemma FinalizerFirst(w: World, uid: Uid, r: Record)
    requires Live(w, uid, r)
    ensures var h := Held(w, uid).(run := Resolving(uid, Held(w, uid).objs[uid]));
            Reconciled(w, uid) == Completed(h) && Writes(Started(w, uid)) == Writes(h)
  {
    if w.objs[uid].finalizer {
      assert w.objs[uid := w.objs[uid].(finalizer := true)] == w.objs;
    }
  }

  /** What a reconcile of an object that tracks nothing does. */
  lemma AcquireStep(w: World, uid: Uid, r: Record)
    requires Live(w, uid, r) && w.objs[uid].status.id.None?
    ensures var h := Held(w, uid);
            var f := w.objs[uid].record.fields;
            var found := Matching(w, w.objs[uid].zone, f);
            && (found == {} ==>
                  && Reconciled(w, uid) ==
                       Track(h.(remote := w.remote[w.nextId := Remote(w.objs[uid].zone, w.stored(r))], nextId := w.nextId + 1),
                             uid, w.nextId, w.stored(r))
                  && Writes(Started(w, uid)) == 1)
            && (|found| == 1 ==> forall x :: x in found ==>
                  Reconciled(w, uid) == Track(h, uid, x, w.remote[x].fields) && Writes(Started(w, uid)) == 0)
            && (|found| > 1 ==> Reconciled(w, uid) == h && Writes(Started(w, uid)) == 0)
  {
    FinalizerFirst(w, uid, r);
    var h := Held(w, uid);
    var obj := h.objs[uid];
    var listing := h.(run := Listing(uid, obj, r));
    assert Completed(h.(run := Resolving(uid, obj))) == Completed(listing);
    assert Writes(h.(run := Resolving(uid, obj))) == Writes(listing);
    var found := Matching(w, obj.zone, obj.record.fields);
    assert Matching(listing, obj.zone, obj.record.fields) == found;
    ListingStep(listing, uid, obj, r, found);
  }

  lemma ListingStep(w: World, uid: Uid, obj: Obj, r: Record, found: set<Id>)
    requires w.run == Listing(uid, obj, r) && found == Matching(w, obj.zone, obj.record.fields)
    ensures found == {} ==>
              && Completed(w) == Track(w.(remote := w.remote[w.nextId := Remote(obj.zone, w.stored(r))], nextId := w.nextId + 1),
                                       uid, w.nextId, w.stored(r)).(run := Idle)
              && Writes(w) == 1
    ensures |found| == 1 ==> forall x :: x in found ==>
              Completed(w) == Track(w, uid, x, w.remote[x].fields).(run := Idle) && Writes(w) == 0
    ensures |found| > 1 ==> Completed(w) == w.(run := Idle) && Writes(w) == 0
  {
    if found == {} {
      var creating := w.(run := Creating(uid, obj, r));
      assert Advance(w) == creating;
      var recording := Advance(creating);
      assert Completed(creating) == Completed(recording) && Writes(creating) == 1 + Writes(recording);
      assert Completed(recording) == Advance(recording) && Writes(recording) == 0;
    } else if |found| == 1 {
      forall x | x in found
        ensures Completed(w) == Track(w, uid, x, w.remote[x].fields).(run := Idle) && Writes(w) == 0
      {
        OnlyOne(found, x);
        var recording := w.(run := Recording(uid, obj, x, w.remote[x].fields));
        assert Advance(w) == recording;
        assert Completed(recording) == Advance(recording) && Writes(recording) == 0;
      }
    }
  }

  /** What a reconcile of an object that tracks a record does: forget it when it is
      gone, else write it just when it differs. */
  lemma RefreshStep(w: World, uid: Uid, r: Record, id: Id)
    requires Live(w, uid, r) && w.objs[uid].status.id == Some(id)
    ensures !HasRemote(w, id, w.objs[uid].zone) ==>
              && Reconciled(w, uid).remote == w.remote && Reconciled(w, uid).nextId == w.nextId
              && Reconciled(w, uid).objs == Held(w, uid).objs[uid := Held(w, uid).objs[uid].(status := w.objs[uid].status.(id := None))]
              && Reconciled(w, uid) == Held(w, uid).(objs := Reconciled(w, uid).objs)
              && Writes(Started(w, uid)) == 0
    ensures HasRemote(w, id, w.objs[uid].zone) && w.remote[id].fields == r.fields ==>
              Reconciled(w, uid) == Track(Held(w, uid), uid, id, r.fields) && Writes(Started(w, uid)) == 0
    ensures HasRemote(w, id, w.objs[uid].zone) && w.remote[id].fields != r.fields ==>
              && Reconciled(w, uid) ==
                   Track(Held(w, uid).(remote := w.remote[id := Remote(w.objs[uid].zone, w.stored(r))]), uid, id, w.stored(r))
              && Writes(Started(w, uid)) == 1
  {
    FinalizerFirst(w, uid, r);
    var h := Held(w, uid);
    var obj := h.objs[uid];
    var resolving := h.(run := Resolving(uid, obj));
    var refreshing := h.(run := Refreshing(uid, obj, r));
    assert Completed(resolving) == Completed(refreshing) && Writes(resolving) == Writes(refreshing);
    RefreshingStep(refreshing, uid, obj, r, id);
  }

  lemma RefreshingStep(w: World, uid: Uid, obj: Obj, r: Record, id: Id)
    requires w.run == Refreshing(uid, obj, r) && obj.status.id == Some(id) && uid in w.objs
    ensures !HasRemote(w, id, obj.zone) ==>
              && Completed(w) == w.(objs := w.objs[uid := w.objs[uid].(status := w.objs[uid].status.(id := None))], run := Idle)
              && Writes(w) == 0
    ensures HasRemote(w, id, obj.zone) && w.remote[id].fields == r.fields ==>
              Completed(w) == Track(w, uid, id, r.fields).(run := Idle) && Writes(w) == 0
    ensures HasRemote(w, id, obj.zone) && w.remote[id].fields != r.fields ==>
              && Completed(w) ==
                   Track(w.(remote := w.remote[id := Remote(obj.zone, w.stored(r))]), uid, id, w.stored(r)).(run := Idle)
              && Writes(w) == 1
  {
    var next := Advance(w);
    assert Completed(w) == Completed(next) && Writes(w) == Writes(next);
    var after := Advance(next);
    assert Completed(next) == Completed(after) && Writes(next) == Writes(after);
    if after.run.Updating? {
      var recording := Advance(after);
      assert Completed(after) == Completed(recording) && Writes(after) == 1 + Writes(recording);
      var last := Advance(recording);
      assert Completed(recording) == last && Writes(recording) == 0;
      assert last.objs == Track(w, uid, id, w.stored(r)).objs;
    }
  }

  // ---- reaching a reconcile that writes nothing ----

  ghost function Again(w: World, uid: Uid, n: nat): World
    decreases n
  {
    if n == 0 then w else Again(Reconciled(w, uid), uid, n - 1)
  }

  /** The fields of the record that will be tracked, when there already is one. */
  ghost function Offered(w: World, uid: Uid): Option<Fields>
    requires uid in w.objs
  {
    var obj := w.objs[uid];
    var found := Matching(w, obj.zone, obj.record.fields);
    if obj.status.id.Some? && HasRemote(w, obj.status.id.value, obj.zone) then Some(w.remote[obj.status.id.value].fields)
    else if |found| == 1 then var x :| x in found; Some(w.remote[x].fields)
    else None
  }

  /** At most one record could be tracked. */
  ghost predicate Unambiguous(w: World, uid: Uid)
    requires uid in w.objs
  {
    var obj := w.objs[uid];
    (obj.status.id.Some? && HasRemote(w, obj.status.id.value, obj.zone)) || |Matching(w, obj.zone, obj.record.fields)| <= 1
  }

  /** The object tracks an existing record that holds f. */
  ghost predicate Tracks(w: World, uid: Uid, r: Record, f: Fields) {
    Live(w, uid, r) && w.objs[uid].status.id.Some? &&
    HasRemote(w, w.objs[uid].status.id.value, w.objs[uid].zone) && w.remote[w.objs[uid].status.id.value].fields == f
  }

  ghost predicate Landed(w: World, uid: Uid, r: Record, f: Fields) {
    Tracks(w, uid, r, f) && w.objs[uid].finalizer && w.objs[uid].status.seen == Some(f) && (f == r.fields || f == w.stored(r))
  }

  /** Once what is stored is what was written or what was asked for, reconciling
      changes nothing more, and writes just when those two differ. */
  lemma LandedStays(w: World, uid: Uid, r: Record, f: Fields)
    requires Landed(w, uid, r, f)
    ensures Reconciled(w, uid) == w && (Writes(Started(w, uid)) == 0 <==> f == r.fields)
  {
    var id := w.objs[uid].status.id.value;
    RefreshStep(w, uid, r, id);
    assert w.objs[uid := w.objs[uid]] == w.objs;
    assert w.remote[id := w.remote[id]] == w.remote;
  }

  lemma TrackedLands(w: World, uid: Uid, r: Record, f: Fields)
    requires Tracks(w, uid, r, f)
    ensures Landed(Reconciled(w, uid), uid, r, if f == r.fields then f else w.stored(r))
    ensures Reconciled(w, uid).stored == w.stored
  {
    RefreshStep(w, uid, r, w.objs[uid].status.id.value);
  }

  lemma UntrackedTracks(w: World, uid: Uid, r: Record)
    requires Live(w, uid, r) && w.objs[uid].status.id.None? && Unambiguous(w, uid)
    ensures Tracks(Reconciled(w, uid), uid, r, match Offered(w, uid) case Some(f) => f case None => w.stored(r))
    ensures Reconciled(w, uid).stored == w.stored
  {
    AcquireStep(w, uid, r);
    var found := Matching(w, w.objs[uid].zone, w.objs[uid].record.fields);
    if found != {} {
      var x :| x in found;
      OnlyOne(found, x);
    }
  }

  lemma StaleForgets(w: World, uid: Uid, r: Record, id: Id)
    requires Live(w, uid, r) && w.objs[uid].status.id == Some(id) && !HasRemote(w, id, w.objs[uid].zone) && Unambiguous(w, uid)
    ensures var v := Reconciled(w, uid);
            Live(v, uid, r) && v.objs[uid].status.id.None? && Unambiguous(v, uid) && Offered(v, uid) == Offered(w, uid) && v.stored == w.stored
  {
    RefreshStep(w, uid, r, id);
    var v := Reconciled(w, uid);
    assert Matching(v, v.objs[uid].zone, v.objs[uid].record.fields) == Matching(w, w.objs[uid].zone, w.objs[uid].record.fields);
  }

  /** Whatever its status says, three reconciles later the object tracks a record and
      reconciling it again changes nothing; and the fourth reconcile writes nothing
      exactly when a record with the asked-for fields was there to begin with or
      Cloudflare stores what was asked for. */
  lemma ConvergesInThree(w: World, uid: Uid, r: Record)
    requires Live(w, uid, r) && Unambiguous(w, uid)
    ensures var v := Again(w, uid, 3);
            && Reconciled(v, uid) == v
            && uid in v.objs && v.objs[uid].status.id.Some?
            && (Writes(Started(v, uid)) == 0 <==> Offered(w, uid) == Some(r.fields) || w.stored(r) == r.fields)
            && v.stored == w.stored && Live(v, uid, r)
  {
    var one := Reconciled(w, uid);
    var two := Reconciled(one, uid);
    var three := Reconciled(two, uid);
    assert Again(w, uid, 3) == three by {
      assert Again(two, uid, 1) == three && Again(one, uid, 2) == Again(two, uid, 1);
    }
    var g := match Offered(w, uid) case Some(f) => f case None => w.stored(r);
    var h := if g == r.fields then g else w.stored(r);
    if w.objs[uid].status.id.None? {
      UntrackedTracks(w, uid, r);
      TrackedLands(one, uid, r, g);
      LandedStays(two, uid, r, h);
    } else if HasRemote(w, w.objs[uid].status.id.value, w.objs[uid].zone) {
      TrackedLands(w, uid, r, g);
      LandedStays(one, uid, r, h);
    } else {
      StaleForgets(w, uid, r, w.objs[uid].status.id.value);
      UntrackedTracks(one, uid, r);
      TrackedLands(two, uid, r, g);
    }
    LandedStays(three, uid, r, h);
  }

  /** A record that is stored as anything else is written by every reconcile from the
      fourth on, for ever. */
  lemma NeverSettles(w: World, uid: Uid, r: Record, n: nat)
    requires Live(w, uid, r) && Unambiguous(w, uid) && Offered(w, uid) != Some(r.fields) && w.stored(r) != r.fields
    ensures n >= 3 ==> Writes(Started(Again(w, uid, n), uid)) == 1
  {
    ConvergesInThree(w, uid, r);
    if n >= 3 {
      AgainStays(w, uid, 3, n);
      WritesOnce(Again(w, uid, 3), uid, r);
    }
  }

  lemma {:induction false} AgainAfter(w: World, uid: Uid, n: nat)
    ensures Again(w, uid, n + 1) == Reconciled(Again(w, uid, n), uid)
    decreases n
  {
    if n > 0 { AgainAfter(Reconciled(w, uid), uid, n - 1); }
  }

  lemma {:induction false} AgainStays(w: World, uid: Uid, k: nat, n: nat)
    requires k <= n && Reconciled(Again(w, uid, k), uid) == Again(w, uid, k)
    ensures Again(w, uid, n) == Again(w, uid, k)
    decreases n
  {
    if k < n {
      AgainStays(w, uid, k, n - 1);
      AgainAfter(w, uid, n - 1);
    }
  }

  /** A reconcile of a live object that tracks something writes once at most. */
  lemma WritesOnce(w: World, uid: Uid, r: Record)
    requires Live(w, uid, r) && w.objs[uid].status.id.Some?
    ensures Writes(Started(w, uid)) <= 1
  {
    RefreshStep(w, uid, r, w.objs[uid].status.id.value);
  }

  /** The content of a CAA record is made up from its data. */
  function CaaSpelled(r: Record): Fields {
    if r.caaData.Some? then r.fields.(content := r.caaData.value) else r.fields
  }

  /** A zone with nothing in it and one live object that tracks nothing. */
  function Fresh(zone: string, r: Record, stored: Record -> Fields): World {
    World(map[], 0, map[0 := Obj(zone, r, false, true, Status(None, None))], 1, map[], stored, Idle)
  }

  lemma FreshNeverSettles(zone: string, r: Record, stored: Record -> Fields, n: nat)
    requires r.tunnelRef.None? && stored(r) != r.fields
    ensures n >= 3 ==> Writes(Started(Again(Fresh(zone, r, stored), 0, n), 0)) == 1
  {
    var w := Fresh(zone, r, stored);
    assert Matching(w, zone, r.fields) == {};
    NeverSettles(w, 0, r, n);
  }

  /** A CAA record given by its data and a record at the apex are such records. */
  lemma CaaAndApexNeverSettle(n: nat)
    requires n >= 3
    ensures var caa := Record(Fields("", "", "example.com", "CAA"), Some("0 issue ca.example.net"), None);
            Writes(Started(Again(Fresh("example.com", caa, CaaSpelled), 0, n), 0)) == 1
    ensures var apex := Record(Fields("", "192.0.2.1", "@", "A"), None, None);
            Writes(Started(Again(Fresh("example.com", apex, ApexSpelled("example.com")), 0, n), 0)) == 1
  {
    var caa := Record(Fields("", "", "example.com", "CAA"), Some("0 issue ca.example.net"), None);
    var apex := Record(Fields("", "192.0.2.1", "@", "A"), None, None);
    FreshNeverSettles("example.com", caa, CaaSpelled, n);
    assert ApexSpelled("example.com")(apex).name != apex.fields.name;
    FreshNeverSettles("example.com", apex, ApexSpelled("example.com"), n);
  }

  /** With two candidates and nothing tracked no reconcile ever takes one. */
  lemma AmbiguousNeverTracks(w: World, uid: Uid, r: Record, n: nat)
    requires Live(w, uid, r) && w.objs[uid].status.id.None? && !Unambiguous(w, uid)
    ensures Again(w, uid, n).remote == w.remote
    ensures uid in Again(w, uid, n).objs && Again(w, uid, n).objs[uid].status == w.objs[uid].status
    decreases n
  {
    if n > 0 {
      AcquireStep(w, uid, r);
      var v := Reconciled(w, uid);
      assert Matching(v, v.objs[uid].zone, v.objs[uid].record.fields) == Matching(w, w.objs[uid].zone, w.objs[uid].record.fields);
      AmbiguousNeverTracks(v, uid, r, n - 1);
    }
  }
}
