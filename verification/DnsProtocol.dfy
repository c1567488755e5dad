/** The DnsRecord controller against Cloudflare and the API server, as a state
    machine over its calls. One reconcile is in flight at a time, and between any
    two of its calls users may act, a call may fail, or the operator may crash:
    whatever was written stays, and what was not is lost. */
module DnsProtocol {
  import opened Text

  type Id = nat
  type Uid = nat

  /** The four fields a status mirrors and diff compares. */
  datatype Fields = Fields(comment: string, content: string, name: string, typ: string)

  /** The one record a DnsRecord asks for. A CAA record is written from its data
      rather than its content; a CNAME may take its content from a tunnel. */
  datatype Record = Record(fields: Fields, caaData: Option<string>, tunnelRef: Option<string>)

  datatype Status = Status(id: Option<Id>, seen: Option<Fields>)

  /** A DnsRecord in the API server. */
  datatype Obj = Obj(zone: string, record: Record, deleting: bool, finalizer: bool, status: Status)

  /** A record in Cloudflare. */
  datatype Remote = Remote(zone: string, fields: Fields)

  /** Where the reconcile in flight is, with the copy of the object it read. */
  datatype Phase =
    | Idle
    | CheckingAdopter(uid: Uid, obj: Obj)
    | DeletingRemote(uid: Uid, obj: Obj)
    | Releasing(uid: Uid)
    | AddingFinalizer(uid: Uid, obj: Obj)
    | Resolving(uid: Uid, obj: Obj)
    | Listing(uid: Uid, obj: Obj, record: Record)
    | Creating(uid: Uid, obj: Obj, record: Record)
    | Refreshing(uid: Uid, obj: Obj, record: Record)
    | Forgetting(uid: Uid)
    | Noting(uid: Uid, obj: Obj, record: Record, id: Id, fields: Fields)
    | Updating(uid: Uid, obj: Obj, record: Record, id: Id)
    | Recording(uid: Uid, obj: Obj, id: Id, fields: Fields)

  /** What Cloudflare makes of a record that is written, stored, may be anything: it may
      spell a name out, or make the content up from the data. */
  datatype World = World(
    remote: map<Id, Remote>, nextId: Id,
    objs: map<Uid, Obj>, nextUid: Uid,
    tunnels: map<string, string>, stored: Record -> Fields, run: Phase)

  // ---- what the calls do ----

  function TunnelTarget(id: string): string {
    id + ".cfargotunnel.com"
  }

  /** The record to write, its content taken from the tunnel it refers to, if any. */
  function Resolve(w: World, r: Record): Option<Record> {
    match r.tunnelRef
    case None => Some(r)
    case Some(t) => if t in w.tunnels then Some(r.(fields := r.fields.(content := TunnelTarget(w.tunnels[t])))) else None
  }

  /** Whether the fields last read are other than those asked for. */
  predicate Differs(r: Record, seen: Option<Fields>) {
    seen != Some(r.fields)
  }

  predicate SameKey(zone: string, f: Fields, r: Remote) {
    r.zone == zone && r.fields.name == f.name && r.fields.typ == f.typ
  }

  /** What a list by zone, name and type returns. */
  function Matching(w: World, zone: string, f: Fields): set<Id> {
    set x | x in w.remote && SameKey(zone, f, w.remote[x])
  }

  /** Another live DnsRecord of the zone that tracks the record. */
  predicate Adopts(w: World, u: Uid, uid: Uid, obj: Obj) {
    u in w.objs && u != uid && !w.objs[u].deleting && w.objs[u].zone == obj.zone && w.objs[u].status.id == obj.status.id
  }

  predicate Adopted(w: World, uid: Uid, obj: Obj) {
    exists u :: u in w.objs && Adopts(w, u, uid, obj)
  }

  function HasRemote(w: World, id: Id, zone: string): bool {
    id in w.remote && w.remote[id].zone == zone
  }

  function Track(w: World, uid: Uid, id: Id, f: Fields): World {
    if uid in w.objs then w.(objs := w.objs[uid := w.objs[uid].(status := Status(Some(id), Some(f)))]) else w
  }

  // ---- steps of the operator ----

  function Begun(w: World, uid: Uid): Phase {
    if uid !in w.objs then Idle
    else
      var obj := w.objs[uid];
      if obj.deleting then (if obj.status.id.None? then Releasing(uid) else CheckingAdopter(uid, obj))
      else if !obj.finalizer then AddingFinalizer(uid, obj)
      else Resolving(uid, obj)
  }

  /** The next call of the reconcile in flight, when it succeeds. */
  ghost function Advance(w: World): World {
    match w.run
    case Idle => w
    case CheckingAdopter(uid, obj) => w.(run := if Adopted(w, uid, obj) then Releasing(uid) else DeletingRemote(uid, obj))
    case DeletingRemote(uid, obj) =>
      var gone := if obj.status.id.Some? && HasRemote(w, obj.status.id.value, obj.zone) then {obj.status.id.value} else {};
      w.(remote := w.remote - gone, run := Releasing(uid))
    case Releasing(uid) => w.(objs := w.objs - {uid}, run := Idle)
    case AddingFinalizer(uid, obj) =>
      if uid in w.objs && !w.objs[uid].deleting
      then var held := w.objs[uid].(finalizer := true); w.(objs := w.objs[uid := held], run := Resolving(uid, held))
      else w.(run := Idle)
    case Resolving(uid, obj) =>
      var r := Resolve(w, obj.record);
      w.(run := if r.None? then Idle
                else if obj.status.id.None? then Listing(uid, obj, r.value)
                else Refreshing(uid, obj, r.value))
    case Listing(uid, obj, r) =>
      var found := Matching(w, obj.zone, obj.record.fields);
      w.(run := if found == {} then Creating(uid, obj, r)
                else if |found| == 1 then var x: Id :| x in found; Recording(uid, obj, x, w.remote[x].fields)
                else Idle)
    case Creating(uid, obj, r) =>
      w.(remote := w.remote[w.nextId := Remote(obj.zone, w.stored(r))], nextId := w.nextId + 1,
         run := Recording(uid, obj, w.nextId, w.stored(r)))
    case Refreshing(uid, obj, r) =>
      w.(run := if obj.status.id.Some? && HasRemote(w, obj.status.id.value, obj.zone)
                then Noting(uid, obj, r, obj.status.id.value, w.remote[obj.status.id.value].fields)
                else Forgetting(uid))
    case Forgetting(uid) =>
      (if uid in w.objs then w.(objs := w.objs[uid := w.objs[uid].(status := w.objs[uid].status.(id := None))]) else w).(run := Idle)
    case Noting(uid, obj, r, id, f) =>
      Track(w, uid, id, f).(run := if uid in w.objs && Differs(r, Some(f)) then Updating(uid, obj, r, id) else Idle)
    case Updating(uid, obj, r, id) =>
      if HasRemote(w, id, obj.zone)
      then w.(remote := w.remote[id := Remote(obj.zone, w.stored(r))], run := Recording(uid, obj, id, w.stored(r)))
      else w.(run := Idle)
    case Recording(uid, obj, id, f) => Track(w, uid, id, f).(run := Idle)
  }

  // ---- steps of everyone ----

  datatype Action =
    | Begin(uid: Uid)
    | Call
    | Crash
    | UserCreate(zone: string, record: Record)
    | UserDelete(uid: Uid)
    | UserEdit(uid: Uid, record: Record)
    | TunnelsChange(tunnels: map<string, string>)
    | Foreign(remote: map<Id, Remote>, nextId: Id)

  ghost predicate Enabled(w: World, a: Action) {
    match a
    case Begin(_) => w.run == Idle
    case Call => w.run != Idle
    case UserDelete(uid) => uid in w.objs
    case UserEdit(uid, _) => uid in w.objs
    case Foreign(remote, nextId) => nextId >= w.nextId && forall x :: x in remote ==> x in w.remote || w.nextId <= x < nextId
    case _ => true
  }

  ghost function Effect(w: World, a: Action): World {
    match a
    case Begin(uid) => w.(run := Begun(w, uid))
    case Call => Advance(w)
    case Crash => w.(run := Idle)
    case UserCreate(zone, r) =>
      w.(objs := w.objs[w.nextUid := Obj(zone, r, false, false, Status(None, None))], nextUid := w.nextUid + 1)
    case UserDelete(uid) =>
      if uid !in w.objs then w
      else if w.objs[uid].finalizer then w.(objs := w.objs[uid := w.objs[uid].(deleting := true)])
      else w.(objs := w.objs - {uid})
    case UserEdit(uid, r) => if uid in w.objs then w.(objs := w.objs[uid := w.objs[uid].(record := r)]) else w
    case TunnelsChange(t) => w.(tunnels := t)
    case Foreign(remote, nextId) => w.(remote := remote, nextId := nextId)
  }

  ghost predicate Run(ws: seq<World>, acts: seq<Action>) {
    Path(ws, acts) && Start(ws[0])
  }

  ghost predicate Path(ws: seq<World>, acts: seq<Action>) {
    |ws| == |acts| + 1 && forall k :: 0 <= k < |acts| ==> Enabled(ws[k], acts[k]) && ws[k + 1] == Effect(ws[k], acts[k])
  }

  ghost predicate Start(w: World) {
    w.objs == map[] && w.run == Idle && forall x :: x in w.remote ==> x < w.nextId
  }

  // ---- deleting is safe ----

  /** A live DnsRecord of the zone that tracks the record. */
  ghost predicate TrackedLive(w: World, zone: string, id: Id) {
    exists u :: u in w.objs && !w.objs[u].deleting && w.objs[u].zone == zone && w.objs[u].status.id == Some(id)
  }

  /** While a deletion is in flight its object is going away, and past the check
      nobody else has the record. */
  ghost predicate DeleteGuarded(w: World) {
    (forall u :: u in w.objs ==> u < w.nextUid && (w.objs[u].deleting ==> w.objs[u].finalizer)) &&
    match w.run
    case CheckingAdopter(uid, obj) => uid < w.nextUid && obj.status.id.Some? && (uid in w.objs ==> w.objs[uid].deleting)
    case DeletingRemote(uid, obj) =>
      uid < w.nextUid && obj.status.id.Some? && (uid in w.objs ==> w.objs[uid].deleting) &&
      !TrackedLive(w, obj.zone, obj.status.id.value)
    case Releasing(uid) => uid < w.nextUid && (uid in w.objs ==> w.objs[uid].deleting)
    case Idle => true
    case Forgetting(uid) => uid < w.nextUid
    case AddingFinalizer(uid, _) => uid < w.nextUid
    case Resolving(uid, _) => uid < w.nextUid
    case Listing(uid, _, _) => uid < w.nextUid
    case Creating(uid, _, _) => uid < w.nextUid
    case Refreshing(uid, _, _) => uid < w.nextUid
    case Noting(uid, _, _, _, _) => uid < w.nextUid
    case Updating(uid, _, _, _) => uid < w.nextUid
    case Recording(uid, _, _, _) => uid < w.nextUid
  }

  lemma GuardHolds(w: World, a: Action)
    requires DeleteGuarded(w) && Enabled(w, a)
    ensures DeleteGuarded(Effect(w, a))
  {
    match a {
      case Call => CallGuards(w);
      case Begin(_) =>
      case Crash =>
      case _ => OutsideGuards(w, a);
    }
  }

  /** Nothing but a reconcile makes an object track a record, so the check stays good. */
  lemma OutsideGuards(w: World, a: Action)
    requires DeleteGuarded(w) && !a.Call? && !a.Begin? && !a.Crash?
    ensures DeleteGuarded(Effect(w, a))
  {
    var v := Effect(w, a);
    if w.run.DeletingRemote? {
      forall u | u in v.objs && !v.objs[u].deleting && v.objs[u].status.id.Some?
        ensures u in w.objs && !w.objs[u].deleting && w.objs[u].zone == v.objs[u].zone && w.objs[u].status == v.objs[u].status
      {
      }
    }
  }

  lemma CallGuards(w: World)
    requires DeleteGuarded(w) && w.run != Idle
    ensures DeleteGuarded(Advance(w))
  {
    if w.run.CheckingAdopter? {
      var uid, obj := w.run.uid, w.run.obj;
      assert forall u :: u in w.objs && !w.objs[u].deleting && w.objs[u].zone == obj.zone && w.objs[u].status.id == obj.status.id ==>
        Adopts(w, u, uid, obj);
    }
  }

  lemma {:induction false} GuardAlways(ws: seq<World>, acts: seq<Action>, k: nat)
    requires Run(ws, acts) && k < |ws|
    ensures DeleteGuarded(ws[k])
  {
    if k > 0 {
      GuardAlways(ws, acts, k - 1);
      GuardHolds(ws[k - 1], acts[k - 1]);
    }
  }

  /** Delete safety over whole runs: whatever users, foreign writers and crashes
      do in between, a call of the operator never removes a remote record that a
      live DnsRecord of its zone tracks. */
  lemma DeleteSafety(ws: seq<World>, acts: seq<Action>, k: nat, id: Id)
    requires Run(ws, acts) && k < |acts| && acts[k] == Call
    requires id in ws[k].remote && id !in ws[k + 1].remote
    ensures !TrackedLive(ws[k], ws[k].remote[id].zone, id)
  {
    GuardAlways(ws, acts, k);
    assert ws[k].run.DeletingRemote?;
  }

  // ---- no duplicates ----

  /** Only the operator writes to the zones, and users keep the name and type of
      a record when they edit it. */
  ghost predicate Undisturbed(w: World, a: Action) {
    !a.Foreign? &&
    (a.UserEdit? && a.uid in w.objs ==>
       a.record.fields.name == w.objs[a.uid].record.fields.name && a.record.fields.typ == w.objs[a.uid].record.fields.typ)
  }

  /** The record as it is written for some id of its tunnel. */
  ghost predicate ResolvesTo(r: Record, s: Record) {
    if r.tunnelRef.None? then s == r else exists id: string :: s == r.(fields := r.fields.(content := TunnelTarget(id)))
  }

  predicate KeepsKey(stored: Record -> Fields, r: Record) {
    stored(r).name == r.fields.name && stored(r).typ == r.fields.typ
  }

  /** Cloudflare stores the record under the name and type it is asked for. */
  ghost predicate KeyKept(stored: Record -> Fields, r: Record) {
    forall s :: ResolvesTo(r, s) ==> KeepsKey(stored, s)
  }

  /** Users ask for records only that are stored under the name and type asked for. */
  ghost predicate AsksKept(w: World, a: Action) {
    a.UserCreate? || a.UserEdit? ==> KeyKept(w.stored, a.record)
  }

  ghost predicate NoDuplicates(w: World) {
    forall x, y :: x in w.remote && y in w.remote && x != y ==> !SameKey(w.remote[x].zone, w.remote[x].fields, w.remote[y])
  }

  /** The object a copy was made of, if it is still there, has its zone and key. */
  ghost predicate CopyFits(w: World, uid: Uid, obj: Obj) {
    uid < w.nextUid &&
    (uid in w.objs ==> w.objs[uid].zone == obj.zone && w.objs[uid].record.fields.name == obj.record.fields.name &&
                       w.objs[uid].record.fields.typ == obj.record.fields.typ)
  }

  ghost predicate RecordFits(w: World, obj: Obj, r: Record) {
    r.fields.name == obj.record.fields.name && r.fields.typ == obj.record.fields.typ && KeepsKey(w.stored, r)
  }

  /** A tracked id was given out, and what it names has the tracker's zone and key. */
  ghost predicate TracksOwn(w: World, obj: Obj, id: Id) {
    id < w.nextId && (id in w.remote ==> SameKey(obj.zone, obj.record.fields, w.remote[id]))
  }

  ghost predicate StatusFits(w: World, obj: Obj) {
    obj.status.id.Some? ==> TracksOwn(w, obj, obj.status.id.value)
  }

  ghost predicate PhaseFits(w: World) {
    match w.run
    case AddingFinalizer(uid, obj) => CopyFits(w, uid, obj) && StatusFits(w, obj)
    case Resolving(uid, obj) => CopyFits(w, uid, obj) && StatusFits(w, obj) && KeyKept(w.stored, obj.record)
    case Listing(uid, obj, r) => CopyFits(w, uid, obj) && RecordFits(w, obj, r)
    case Creating(uid, obj, r) => CopyFits(w, uid, obj) && RecordFits(w, obj, r) && Matching(w, obj.zone, obj.record.fields) == {}
    case Refreshing(uid, obj, r) => CopyFits(w, uid, obj) && RecordFits(w, obj, r) && StatusFits(w, obj)
    case Noting(uid, obj, r, id, _) => CopyFits(w, uid, obj) && RecordFits(w, obj, r) && TracksOwn(w, obj, id)
    case Updating(uid, obj, r, id) => CopyFits(w, uid, obj) && RecordFits(w, obj, r) && TracksOwn(w, obj, id)
    case Recording(uid, obj, id, _) => CopyFits(w, uid, obj) && TracksOwn(w, obj, id)
    case _ => true
  }

  ghost predicate Tidy(w: World) {
    NoDuplicates(w) && (forall x :: x in w.remote ==> x < w.nextId) &&
    (forall u :: u in w.objs ==> u < w.nextUid && StatusFits(w, w.objs[u]) && KeyKept(w.stored, w.objs[u].record)) && PhaseFits(w)
  }

  lemma TidyHolds(w: World, a: Action)
    requires Tidy(w) && Enabled(w, a) && Undisturbed(w, a) && AsksKept(w, a)
    ensures Tidy(Effect(w, a))
  {
    match a {
      case Call => CallKeepsTidy(w);
      case Begin(_) =>
      case Crash =>
      case _ => OutsideKeepsTidy(w, a);
    }
  }

  lemma OutsideKeepsTidy(w: World, a: Action)
    requires Tidy(w) && Undisturbed(w, a) && AsksKept(w, a) && !a.Call? && !a.Begin? && !a.Crash?
    ensures Tidy(Effect(w, a))
  {
    var v := Effect(w, a);
    assert forall uid, obj: Obj :: CopyFits(w, uid, obj) ==> CopyFits(v, uid, obj);
    OutsideKeepsPhase(w, v);
    assert forall u :: u in v.objs ==> StatusFits(w, v.objs[u]);
  }

  lemma OutsideKeepsPhase(w: World, v: World)
    requires PhaseFits(w) && v.remote == w.remote && v.nextId == w.nextId && v.run == w.run && v.stored == w.stored
    requires forall uid, obj: Obj :: CopyFits(w, uid, obj) ==> CopyFits(v, uid, obj)
    ensures PhaseFits(v)
  {
  }

  lemma CallKeepsTidy(w: World)
    requires Tidy(w) && w.run != Idle
    ensures Tidy(Advance(w))
  {
    match w.run {
      case Creating(_, _, _) => CreatingKeepsTidy(w);
      case Updating(_, _, _, _) => UpdatingKeepsTidy(w);
      case Listing(_, _, _) => ListingKeepsTidy(w);
      case DeletingRemote(_, _) => DeletingKeepsTidy(w);
      case AddingFinalizer(_, _) => AddingKeepsTidy(w);
      case Refreshing(_, _, _) => RefreshingKeepsTidy(w);
      case Noting(_, _, _, _, _) => NotingKeepsTidy(w);
      case Recording(uid, obj, id, f) => TrackKeepsTidy(w, uid, obj, id, f);
      case Forgetting(_) =>
      case _ =>
    }
  }

  lemma DeletingKeepsTidy(w: World)
    requires Tidy(w) && w.run.DeletingRemote?
    ensures Tidy(Advance(w))
  {
  }

  lemma AddingKeepsTidy(w: World)
    requires Tidy(w) && w.run.AddingFinalizer?
    ensures Tidy(Advance(w))
  {
  }

  lemma RefreshingKeepsTidy(w: World)
    requires Tidy(w) && w.run.Refreshing?
    ensures Tidy(Advance(w))
  {
  }

  lemma NotingKeepsTidy(w: World)
    requires Tidy(w) && w.run.Noting?
    ensures Tidy(Advance(w))
  {
    TrackKeepsTidy(w, w.run.uid, w.run.obj, w.run.id, w.run.fields);
  }

  lemma CreatingKeepsTidy(w: World)
    requires Tidy(w) && w.run.Creating?
    ensures Tidy(Advance(w))
  {
    var obj, r := w.run.obj, w.run.record;
    forall x | x in w.remote ensures !SameKey(obj.zone, w.stored(r), w.remote[x]) {
      assert x !in Matching(w, obj.zone, obj.record.fields);
    }
  }

  lemma UpdatingKeepsTidy(w: World)
    requires Tidy(w) && w.run.Updating?
    ensures Tidy(Advance(w))
  {
    var id, written := w.run.id, Remote(w.run.obj.zone, w.stored(w.run.record));
    if id in w.remote {
      RewriteKeepsOwn(w, id, written);
    }
  }

  /** Writing a record again under its zone and key changes nobody's key. */
  lemma RewriteKeepsOwn(w: World, id: Id, r: Remote)
    requires id in w.remote && SameKey(w.remote[id].zone, w.remote[id].fields, r)
    ensures NoDuplicates(w) ==> NoDuplicates(w.(remote := w.remote[id := r]))
    ensures forall obj: Obj, x :: TracksOwn(w, obj, x) ==> TracksOwn(w.(remote := w.remote[id := r]), obj, x)
  {
  }

  lemma ListingKeepsTidy(w: World)
    requires Tidy(w) && w.run.Listing?
    ensures Tidy(Advance(w))
  {
    var v := Advance(w);
    var found := Matching(w, w.run.obj.zone, w.run.obj.record.fields);
    assert v.run.Recording? ==> v.run.id in found;
    assert Matching(v, w.run.obj.zone, w.run.obj.record.fields) == found;
  }

  lemma TrackKeepsTidy(w: World, uid: Uid, obj: Obj, id: Id, f: Fields)
    requires Tidy(w) && CopyFits(w, uid, obj) && TracksOwn(w, obj, id)
    ensures Tidy(Track(w, uid, id, f).(run := Idle))
    ensures CopyFits(Track(w, uid, id, f), uid, obj)
  {
  }

  lemma {:induction false} TidyAlways(ws: seq<World>, acts: seq<Action>, k: nat)
    requires Run(ws, acts) && k < |ws| && NoDuplicates(ws[0])
    requires forall j :: 0 <= j < |acts| ==> Undisturbed(ws[j], acts[j]) && AsksKept(ws[j], acts[j])
    ensures Tidy(ws[k])
  {
    if k > 0 {
      TidyAlways(ws, acts, k - 1);
      TidyHolds(ws[k - 1], acts[k - 1]);
    }
  }

  /** No duplicates over whole runs: from zones without any, every reachable state
      has at most one remote record of a zone, name and type, even when a status
      patch is lost after a create, as long as every record asked for is stored
      under its own name and type. */
  lemma NeverDuplicates(ws: seq<World>, acts: seq<Action>, k: nat)
    requires Run(ws, acts) && k < |ws| && NoDuplicates(ws[0])
    requires forall j :: 0 <= j < |acts| ==> Undisturbed(ws[j], acts[j]) && AsksKept(ws[j], acts[j])
    ensures NoDuplicates(ws[k])
  {
    TidyAlways(ws, acts, k);
  }

  // ---- what happens to a record stored under another name ----

  /** One DnsRecord is made, and its reconcile is begun, answered or cut short. */
  predicate OfOneRecord(a: Action, zone: string, r: Record) {
    a == UserCreate(zone, r) || a == Begin(0) || a == Call || a == Crash
  }

  ghost predicate Loses(ws: seq<World>, acts: seq<Action>, stored: Record -> Fields, zone: string, r: Record) {
    && Run(ws, acts) && ws[0].stored == stored && NoDuplicates(ws[0])
    && (forall j :: 0 <= j < |acts| ==> OfOneRecord(acts[j], zone, r))
    && !NoDuplicates(ws[|acts|])
  }

  /** The reconcile of a record of its own that Cloudflare does not list by the key asked for. */
  ghost predicate Unlisted(w: World, zone: string, r: Record, s: Record) {
    && w.run == Idle && 0 in w.objs && !KeepsKey(w.stored, s) && Resolve(w, r) == Some(s)
    && w.objs[0].zone == zone && w.objs[0].record == r && !w.objs[0].deleting && w.objs[0].status == Status(None, None)
    && forall x :: x in w.remote ==> x < w.nextId && w.remote[x] == Remote(zone, w.stored(s))
  }

  lemma PathsJoin(vs: seq<World>, bs: seq<Action>, us: seq<World>, cs: seq<Action>)
    requires Path(vs, bs) && Path(us, cs) && us[0] == vs[|bs|]
    ensures Path(vs + us[1..], bs + cs)
  {
    var ws, acts := vs + us[1..], bs + cs;
    forall k | 0 <= k < |acts| ensures Enabled(ws[k], acts[k]) && ws[k + 1] == Effect(ws[k], acts[k]) {
      if k < |bs| {
        assert ws[k] == vs[k] && ws[k + 1] == vs[k + 1] && acts[k] == bs[k];
      } else {
        var j := k - |bs|;
        assert ws[k] == us[j] && ws[k + 1] == us[j + 1] && acts[k] == cs[j];
      }
    }
  }

  /** From the look-up of its tunnel on the record is created, and the status patch is lost. */
  lemma CreatesFromResolving(w: World, obj: Obj, s: Record) returns (ws: seq<World>, acts: seq<Action>)
    requires w.run == Resolving(0, obj) && obj.status.id.None? && Resolve(w, obj.record) == Some(s)
    requires forall x :: x in w.remote ==> !SameKey(obj.zone, obj.record.fields, w.remote[x])
    ensures Path(ws, acts) && ws[0] == w && forall j :: 0 <= j < |acts| ==> acts[j] == Call || acts[j] == Crash
    ensures ws[|acts|] == w.(remote := w.remote[w.nextId := Remote(obj.zone, w.stored(s))], nextId := w.nextId + 1, run := Idle)
  {
    var v3 := Effect(w, Call);
    assert Matching(v3, obj.zone, obj.record.fields) == {};
    var v4 := Effect(v3, Call);
    var v5 := Effect(v4, Call);
    var v6 := Effect(v5, Crash);
    ws, acts := [w, v3, v4, v5, v6], [Call, Call, Call, Crash];
  }

  /** One reconcile creates the record once more. */
  lemma CreatesOnceMore(w: World, zone: string, r: Record, s: Record) returns (ws: seq<World>, acts: seq<Action>)
    requires Unlisted(w, zone, r, s)
    ensures Path(ws, acts) && ws[0] == w && forall j :: 0 <= j < |acts| ==> OfOneRecord(acts[j], zone, r)
    ensures var v := ws[|acts|];
            && Unlisted(v, zone, r, s) && v.stored == w.stored
            && v.remote == w.remote[w.nextId := Remote(zone, w.stored(s))] && v.nextId == w.nextId + 1
  {
    var v1 := Effect(w, Begin(0));
    var v2 := if w.objs[0].finalizer then v1 else Effect(v1, Call);
    var us, cs := if w.objs[0].finalizer then [w, v1] else [w, v1, v2], if w.objs[0].finalizer then [Begin(0)] else [Begin(0), Call];
    var vs, bs := CreatesFromResolving(v2, v2.run.obj, s);
    PathsJoin(us, cs, vs, bs);
    ws, acts := us + vs[1..], cs + bs;
    assert ws[|acts|] == vs[|bs|];
  }

  /** A record that is stored under another name or type, the zone apex asked for as @
      for one, is created again and again by a reconcile whose status patch is lost: a
      run of this one DnsRecord alone leaves duplicates. */
  lemma LostKeyDuplicates(stored: Record -> Fields, zone: string, r: Record) returns (ws: seq<World>, acts: seq<Action>)
    requires !KeyKept(stored, r)
    ensures Loses(ws, acts, stored, zone, r)
  {
    var s :| ResolvesTo(r, s) && !KeepsKey(stored, s);
    var id: string :| r.tunnelRef.Some? ==> s == r.(fields := r.fields.(content := TunnelTarget(id)));
    var tunnels := if r.tunnelRef.Some? then map[r.tunnelRef.value := id] else map[];
    var w0 := World(map[], 0, map[], 0, tunnels, stored, Idle);
    var w1 := Effect(w0, UserCreate(zone, r));
    var vs, bs := CreatesOnceMore(w1, zone, r, s);
    var us, cs := CreatesOnceMore(vs[|bs|], zone, r, s);
    PathsJoin([w0, w1], [UserCreate(zone, r)], vs, bs);
    var once, begun := [w0, w1] + vs[1..], [UserCreate(zone, r)] + bs;
    PathsJoin(once, begun, us, cs);
    ws, acts := once + us[1..], begun + cs;
    assert ws[|acts|] == us[|cs|];
    TwiceStored(ws[|acts|], 0, 1);
  }

  lemma TwiceStored(w: World, x: Id, y: Id)
    requires x in w.remote && y in w.remote && x != y && w.remote[x] == w.remote[y]
    ensures !NoDuplicates(w)
  {
    assert SameKey(w.remote[x].zone, w.remote[x].fields, w.remote[y]);
  }

  /** Exactly the records stored under their own name and type are safe from duplicates
      of their own making. */
  lemma DuplicatesExactly(stored: Record -> Fields, zone: string, r: Record)
    ensures KeyKept(stored, r) <==> !exists ws, acts :: Loses(ws, acts, stored, zone, r)
  {
    if !KeyKept(stored, r) {
      var ws, acts := LostKeyDuplicates(stored, zone, r);
    } else if ws, acts :| Loses(ws, acts, stored, zone, r) {
      forall j | 0 <= j < |acts| ensures Undisturbed(ws[j], acts[j]) && AsksKept(ws[j], acts[j]) {
        SameStore(ws, acts, j);
      }
      NeverDuplicates(ws, acts, |acts|);
    }
  }

  lemma {:induction false} SameStore(ws: seq<World>, acts: seq<Action>, k: nat)
    requires Run(ws, acts) && k < |ws|
    ensures ws[k].stored == ws[0].stored
  {
    if k > 0 { SameStore(ws, acts, k - 1); }
  }

  /** Cloudflare spells the apex out. */
  function ApexSpelled(apex: string): Record -> Fields {
    (r: Record) => if r.fields.name == "@" then r.fields.(name := apex) else r.fields
  }

  lemma ApexDuplicates() returns (ws: seq<World>, acts: seq<Action>)
    ensures Loses(ws, acts, ApexSpelled("example.com"), "example.com", Record(Fields("", "192.0.2.1", "@", "A"), None, None))
  {
    var r := Record(Fields("", "192.0.2.1", "@", "A"), None, None);
    assert ResolvesTo(r, r) && !KeepsKey(ApexSpelled("example.com"), r);
    ws, acts := LostKeyDuplicates(ApexSpelled("example.com"), "example.com", r);
  }

  // ---- nothing live is left without its record ----

  /** Every live DnsRecord that tracks a record tracks one that exists. */
  ghost predicate LiveBacked(w: World) {
    (forall u :: u in w.objs && !w.objs[u].deleting && w.objs[u].status.id.Some? ==>
       HasRemote(w, w.objs[u].status.id.value, w.objs[u].zone)) &&
    match w.run
    case Recording(uid, obj, id, _) => HasRemote(w, id, obj.zone) && SameZone(w, uid, obj)
    case Noting(uid, obj, _, id, _) => HasRemote(w, id, obj.zone) && SameZone(w, uid, obj)
    case AddingFinalizer(uid, obj) => SameZone(w, uid, obj)
    case Resolving(uid, obj) => SameZone(w, uid, obj)
    case Listing(uid, obj, _) => SameZone(w, uid, obj)
    case Creating(uid, obj, _) => SameZone(w, uid, obj)
    case Refreshing(uid, obj, _) => SameZone(w, uid, obj)
    case Updating(uid, obj, _, _) => SameZone(w, uid, obj)
    case _ => true
  }

  ghost predicate SameZone(w: World, uid: Uid, obj: Obj) {
    uid in w.objs ==> w.objs[uid].zone == obj.zone
  }

  ghost predicate IdsGiven(w: World) {
    forall x :: x in w.remote ==> x < w.nextId
  }

  lemma IdsStayGiven(w: World, a: Action)
    requires IdsGiven(w) && Enabled(w, a)
    ensures IdsGiven(Effect(w, a))
  {
  }

  lemma BackedHolds(w: World, a: Action)
    requires IdsGiven(w) && DeleteGuarded(w) && LiveBacked(w) && Enabled(w, a) && !a.Foreign?
    ensures LiveBacked(Effect(w, a))
  {
    match a {
      case Call => CallKeepsBacked(w);
      case Begin(uid) =>
      case UserDelete(uid) =>
      case UserEdit(uid, r) =>
      case _ =>
    }
  }

  lemma CallKeepsBacked(w: World)
    requires IdsGiven(w) && DeleteGuarded(w) && LiveBacked(w) && w.run != Idle
    ensures LiveBacked(Advance(w))
  {
    match w.run {
      case Listing(_, obj, _) =>
        assert Advance(w).run.Recording? ==> Advance(w).run.id in Matching(w, obj.zone, obj.record.fields);
      case DeletingRemote(_, _) => DeletingKeepsBacked(w);
      case Creating(_, _, _) =>
      case Updating(_, _, _, _) =>
      case Noting(_, _, _, _, _) =>
      case Recording(_, _, _, _) =>
      case _ =>
    }
  }

  lemma DeletingKeepsBacked(w: World)
    requires DeleteGuarded(w) && LiveBacked(w) && w.run.DeletingRemote?
    ensures LiveBacked(Advance(w))
  {
    var v := Advance(w);
    forall u | u in v.objs && !v.objs[u].deleting && v.objs[u].status.id.Some?
      ensures HasRemote(v, v.objs[u].status.id.value, v.objs[u].zone)
    {
      assert HasRemote(w, w.objs[u].status.id.value, w.objs[u].zone);
    }
  }

  lemma {:induction false} IdsAlwaysGiven(ws: seq<World>, acts: seq<Action>, k: nat)
    requires Run(ws, acts) && k < |ws|
    ensures IdsGiven(ws[k])
  {
    if k > 0 {
      IdsAlwaysGiven(ws, acts, k - 1);
      IdsStayGiven(ws[k - 1], acts[k - 1]);
    }
  }

  /** Where only the operator writes, no live DnsRecord ever tracks a record that is
      gone, whatever is stored: neither its own reconcile nor another's deletion takes
      it away. */
  lemma {:induction false} LiveAlwaysBacked(ws: seq<World>, acts: seq<Action>, k: nat)
    requires Run(ws, acts) && k < |ws|
    requires forall j :: 0 <= j < |acts| ==> !acts[j].Foreign?
    ensures LiveBacked(ws[k])
  {
    if k > 0 {
      LiveAlwaysBacked(ws, acts, k - 1);
      IdsAlwaysGiven(ws, acts, k - 1);
      GuardAlways(ws, acts, k - 1);
      BackedHolds(ws[k - 1], acts[k - 1]);
    }
  }
}
