/** The reconcile method itself, call by call, against the stores it writes to. An
    object of Controller records the run it makes, so the method is held to the
    state machine of DnsProtocol: whatever the calls answer and whatever others do
    in between, what it does is a run of that machine. */
module DnsReconcile {
  import opened Text
  import opened DnsProtocol

  datatype Outcome = Done | Waiting | Requeued | Failed

  /** Actions of anyone but the operator. */
  predicate Outsider(a: Action) {
    a.UserCreate? || a.UserDelete? || a.UserEdit? || a.TunnelsChange? || a.Foreign?
  }

  ghost predicate Crashed(acts: seq<Action>, since: nat) {
    exists j :: since <= j < |acts| && acts[j] == Crash
  }

  lemma RunExtends(ws: seq<World>, acts: seq<Action>, a: Action)
    requires Run(ws, acts) && Enabled(ws[|acts|], a)
    ensures Run(ws + [Effect(ws[|acts|], a)], acts + [a])
  {
    var vs, bs := ws + [Effect(ws[|acts|], a)], acts + [a];
    forall k | 0 <= k < |bs| ensures Enabled(vs[k], bs[k]) && vs[k + 1] == Effect(vs[k], bs[k]) {
      assert k < |acts| ==> vs[k] == ws[k] && vs[k + 1] == ws[k + 1] && bs[k] == acts[k];
    }
  }

  class Controller {
    var remote: map<Id, Remote>
    var nextId: Id
    var objs: map<Uid, Obj>
    var nextUid: Uid
    var tunnels: map<string, string>

    /** What Cloudflare stores of a record that is written. */
    const stored: Record -> Fields

    /** Whether call n is answered, and what others do just before it. */
    const up: nat -> bool
    const outside: nat -> seq<Action>
    var calls: nat

    ghost var pc: Phase
    ghost var ws: seq<World>
    ghost var acts: seq<Action>

    ghost function Now(): World
      reads this
    {
      World(remote, nextId, objs, nextUid, tunnels, stored, pc)
    }

    ghost predicate Valid()
      reads this
    {
      Run(ws, acts) && ws[|acts|] == Now()
    }

    ghost predicate Answered() {
      forall n :: up(n)
    }

    ghost predicate Calm() {
      forall n :: up(n) && outside(n) == []
    }

    /** The run so far is kept, and only an unanswered call cuts a reconcile short. */
    twostate predicate Continues()
      reads this
    {
      Valid() && old(acts) <= acts && (Answered() ==> !Crashed(acts, |old(acts)|))
    }

    constructor (remote: map<Id, Remote>, nextId: Id, tunnels: map<string, string>, stored: Record -> Fields,
                 up: nat -> bool, outside: nat -> seq<Action>)
      requires forall x :: x in remote ==> x < nextId
      ensures Valid() && pc == Idle && acts == [] && this.remote == remote
      ensures this.stored == stored && this.up == up && this.outside == outside
    {
      this.remote, this.nextId, this.objs, this.nextUid, this.tunnels := remote, nextId, map[], 0, tunnels;
      this.stored, this.up, this.outside, this.calls := stored, up, outside, 0;
      pc, acts := Idle, [];
      ws := [World(remote, nextId, map[], 0, tunnels, stored, Idle)];
    }

    /** Records a step that the stores have just taken. */
    ghost method Note(a: Action)
      requires Run(ws, acts) && Enabled(ws[|acts|], a) && Now() == Effect(ws[|acts|], a)
      modifies this`ws, this`acts
      ensures Valid() && acts == old(acts) + [a]
    {
      RunExtends(ws, acts, a);
      ws, acts := ws + [Now()], acts + [a];
    }

    method Apply(a: Action)
      requires Valid() && Outsider(a)
      modifies this`remote, this`nextId, this`objs, this`nextUid, this`tunnels, this`ws, this`acts
      ensures Valid() && old(acts) <= acts && !Crashed(acts, |old(acts)|)
    {
      match a {
        case UserCreate(zone, r) =>
          objs := objs[nextUid := Obj(zone, r, false, false, Status(None, None))];
          nextUid := nextUid + 1;
        case UserDelete(uid) =>
          if uid !in objs { return; }
          if objs[uid].finalizer { objs := objs[uid := objs[uid].(deleting := true)]; } else { objs := objs - {uid}; }
        case UserEdit(uid, r) =>
          if uid !in objs { return; }
          objs := objs[uid := objs[uid].(record := r)];
        case TunnelsChange(t) => tunnels := t;
        case Foreign(zones, next) =>
          if next < nextId || exists x :: x in zones && x !in remote && !(nextId <= x < next) { return; }
          remote, nextId := zones, next;
      }
      Note(a);
    }

    /** The moment before a call: others act, and the call is answered or not. */
    method Reach() returns (ok: bool)
      requires Valid() && pc != Idle
      modifies this
      ensures Continues()
      ensures pc == if ok then old(pc) else Idle
      ensures Calm() ==> ok && Now() == old(Now())
    {
      var todo := outside(calls);
      for i := 0 to |todo|
        invariant Valid() && pc == old(pc) && calls == old(calls) && old(acts) <= acts && !Crashed(acts, |old(acts)|)
        invariant Calm() ==> Now() == old(Now())
      {
        if Outsider(todo[i]) { Apply(todo[i]); }
      }
      ok := up(calls);
      calls := calls + 1;
      if !ok {
        pc := Idle;
        Note(Crash);
      }
    }

    /** Looks for an object that Adopts, in whatever order the map is walked. */
    method Adopter(uid: Uid, obj: Obj) returns (adopter: Option<Uid>)
      requires Valid()
      ensures adopter.Some? <==> Adopted(Now(), uid, obj)
      ensures adopter.Some? ==> Adopts(Now(), adopter.value, uid, obj)
    {
      var rest := objs.Keys;
      while rest != {}
        invariant rest <= objs.Keys
        invariant forall u :: u in objs && u !in rest ==> !Adopts(Now(), u, uid, obj)
      {
        var u :| u in rest;
        var other := objs[u];
        if u != uid && !other.deleting && other.zone == obj.zone && other.status.id == obj.status.id {
          assert Adopts(Now(), u, uid, obj);
          return Some(u);
        }
        rest := rest - {u};
      }
      return None;
    }

    /** Drops the finalizer, upon which the API server removes the object. */
    method Release(uid: Uid) returns (result: Outcome)
      requires Valid() && pc == Releasing(uid)
      modifies this
      ensures Continues() && pc == Idle
      ensures Calm() ==> Now() == Completed(old(Now()))
    {
      var ok := Reach();
      if !ok { return Failed; }
      objs := objs - {uid};
      pc := Idle;
      Note(Call);
      return Done;
    }

    /** Asks who else tracks the record of an object that is going away. */
    method CheckAdopter(uid: Uid, obj: Obj) returns (ok: bool, adopter: Option<Uid>)
      requires Valid() && pc == CheckingAdopter(uid, obj)
      modifies this
      ensures Continues()
      ensures pc == if !ok then Idle else if adopter.Some? then Releasing(uid) else DeletingRemote(uid, obj)
      ensures Calm() ==> ok && Completed(Now()) == Completed(old(Now()))
    {
      ok := Reach();
      if !ok { return false, None; }
      adopter := Adopter(uid, obj);
      pc := if adopter.Some? then Releasing(uid) else DeletingRemote(uid, obj);
      Note(Call);
    }

    /** A record that is gone already counts as deleted. */
    method DeleteRemote(uid: Uid, obj: Obj, id: Id) returns (ok: bool)
      requires Valid() && pc == DeletingRemote(uid, obj) && obj.status.id == Some(id)
      modifies this
      ensures Continues()
      ensures pc == if ok then Releasing(uid) else Idle
      ensures Calm() ==> ok && Completed(Now()) == Completed(old(Now()))
    {
      ok := Reach();
      if !ok { return false; }
      if id in remote && remote[id].zone == obj.zone { remote := remote - {id}; }
      pc := Releasing(uid);
      Note(Call);
    }

    method Deletion(uid: Uid, obj: Obj) returns (result: Outcome)
      requires Valid()
      requires pc == if obj.status.id.None? then Releasing(uid) else CheckingAdopter(uid, obj)
      modifies this
      ensures Continues() && pc == Idle
      ensures Calm() ==> Now() == Completed(old(Now()))
    {
      if obj.status.id.Some? {
        var ok, adopter := CheckAdopter(uid, obj);
        if !ok { return Failed; }
        if adopter.None? {
          ok := DeleteRemote(uid, obj, obj.status.id.value);
          if !ok { return Failed; }
        }
      }
      result := Release(uid);
    }

    /** Patches the status with the record Cloudflare returned. */
    method PatchStatus(uid: Uid, id: Id, f: Fields)
      modifies this`objs
      ensures Now() == Track(old(Now()), uid, id, f)
    {
      if uid in objs { objs := objs[uid := objs[uid].(status := Status(Some(id), Some(f)))]; }
    }

    /** The last patch of a reconcile. */
    method RecordStatus(uid: Uid, obj: Obj, id: Id, f: Fields) returns (ok: bool)
      requires Valid() && pc == Recording(uid, obj, id, f)
      modifies this
      ensures Continues() && pc == Idle
      ensures Calm() ==> ok && Completed(Now()) == Completed(old(Now()))
    {
      ok := Reach();
      if !ok { return false; }
      PatchStatus(uid, id, f);
      pc := Idle;
      Note(Call);
    }

    /** Lists the records of the object's zone, name and type: how many there are,
        and the one when there is one. */
    method ListRemote(uid: Uid, obj: Obj, r: Record) returns (ok: bool, count: nat, id: Id, f: Fields)
      requires Valid() && pc == Listing(uid, obj, r)
      modifies this
      ensures Continues()
      ensures pc == if !ok || count > 1 then Idle else if count == 0 then Creating(uid, obj, r) else Recording(uid, obj, id, f)
      ensures Calm() ==> ok && Completed(Now()) == Completed(old(Now()))
    {
      count, id, f := 0, 0, obj.record.fields;
      ok := Reach();
      if !ok { return; }
      var found := set x | x in remote && SameKey(obj.zone, obj.record.fields, remote[x]);
      count := |found|;
      if count == 1 {
        id :| id in found;
        f := remote[id].fields;
      }
      ListingAdvances(Now(), uid, obj, r, found, id);
      pc := if count == 0 then Creating(uid, obj, r) else if count == 1 then Recording(uid, obj, id, f) else Idle;
      Note(Call);
    }

    method CreateRemote(uid: Uid, obj: Obj, r: Record) returns (ok: bool, id: Id)
      requires Valid() && pc == Creating(uid, obj, r)
      modifies this
      ensures Continues()
      ensures pc == if ok then Recording(uid, obj, id, stored(r)) else Idle
      ensures Calm() ==> ok && Completed(Now()) == Completed(old(Now()))
    {
      ok := Reach();
      id := nextId;
      if !ok { return; }
      remote, nextId := remote[id := Remote(obj.zone, stored(r))], nextId + 1;
      pc := Recording(uid, obj, id, stored(r));
      Note(Call);
    }

    /** No record is tracked yet: adopt the one that is there, or create it. */
    method Acquire(uid: Uid, obj: Obj, r: Record) returns (result: Outcome)
      requires Valid() && pc == Listing(uid, obj, r)
      modifies this
      ensures Continues() && pc == Idle
      ensures Calm() ==> Now() == Completed(old(Now()))
    {
      var ok, count, id, f := ListRemote(uid, obj, r);
      if !ok || count > 1 { return Failed; }
      if count == 0 {
        f := stored(r);
        ok, id := CreateRemote(uid, obj, r);
        if !ok { return Failed; }
      }
      ok := RecordStatus(uid, obj, id, f);
      return if ok then Requeued else Failed;
    }

    /** Reads the tracked record. */
    method GetRemote(uid: Uid, obj: Obj, r: Record, id: Id) returns (ok: bool, res: Option<Remote>)
      requires Valid() && pc == Refreshing(uid, obj, r) && obj.status.id == Some(id)
      modifies this
      ensures Continues()
      ensures pc == if !ok then Idle else if res.Some? then Noting(uid, obj, r, id, res.value.fields) else Forgetting(uid)
      ensures Calm() ==> ok && Completed(Now()) == Completed(old(Now()))
    {
      ok := Reach();
      if !ok { return false, None; }
      res := if id in remote && remote[id].zone == obj.zone then Some(remote[id]) else None;
      pc := if res.Some? then Noting(uid, obj, r, id, res.value.fields) else Forgetting(uid);
      Note(Call);
    }

    /** Drops an id that Cloudflare no longer knows. */
    method ForgetId(uid: Uid)
      requires Valid() && pc == Forgetting(uid)
      modifies this
      ensures Continues() && pc == Idle
      ensures Calm() ==> Completed(Now()) == Completed(old(Now()))
    {
      var ok := Reach();
      if !ok { return; }
      if uid in objs { objs := objs[uid := objs[uid].(status := objs[uid].status.(id := None))]; }
      pc := Idle;
      Note(Call);
    }

    /** Notes what was read and tells whether the record must be written. */
    method NoteStatus(uid: Uid, obj: Obj, r: Record, id: Id, f: Fields) returns (ok: bool)
      requires Valid() && pc == Noting(uid, obj, r, id, f)
      modifies this
      ensures Continues()
      ensures pc == if ok && Differs(r, Some(f)) then Updating(uid, obj, r, id) else Idle
      ensures Calm() ==> Completed(Now()) == Completed(old(Now()))
    {
      ok := Reach();
      if !ok { return false; }
      ok := uid in objs;
      PatchStatus(uid, id, f);
      pc := if ok && Differs(r, Some(f)) then Updating(uid, obj, r, id) else Idle;
      Note(Call);
    }

    method UpdateRemote(uid: Uid, obj: Obj, r: Record, id: Id) returns (ok: bool)
      requires Valid() && pc == Updating(uid, obj, r, id)
      modifies this
      ensures Continues()
      ensures pc == if ok then Recording(uid, obj, id, stored(r)) else Idle
      ensures Calm() ==> Completed(Now()) == Completed(old(Now()))
    {
      ok := Reach();
      if !ok { return false; }
      ok := id in remote && remote[id].zone == obj.zone;
      if ok { remote := remote[id := Remote(obj.zone, stored(r))]; }
      pc := if ok then Recording(uid, obj, id, stored(r)) else Idle;
      Note(Call);
    }

    /** A record is tracked: read it, note what it holds, and write it when it differs. */
    method Refresh(uid: Uid, obj: Obj, r: Record, id: Id) returns (result: Outcome)
      requires Valid() && pc == Refreshing(uid, obj, r) && obj.status.id == Some(id)
      modifies this
      ensures Continues() && pc == Idle
      ensures Calm() ==> Now() == Completed(old(Now()))
    {
      var ok, res := GetRemote(uid, obj, r, id);
      if !ok { return Failed; }
      if res.None? {
        ForgetId(uid);
        return Failed;
      }
      ok := NoteStatus(uid, obj, r, id, res.value.fields);
      if !ok { return Failed; }
      if !Differs(r, Some(res.value.fields)) { return Done; }
      ok := UpdateRemote(uid, obj, r, id);
      if !ok { return Failed; }
      ok := RecordStatus(uid, obj, id, stored(r));
      return if ok then Done else Failed;
    }

    /** Looks up the tunnel a record refers to. */
    method ResolveRecord(uid: Uid, obj: Obj) returns (ok: bool, r: Option<Record>)
      requires Valid() && pc == Resolving(uid, obj)
      modifies this
      ensures Continues()
      ensures !ok || r.None? ==> pc == Idle
      ensures ok && r.Some? && obj.status.id.None? ==> pc == Listing(uid, obj, r.value)
      ensures ok && r.Some? && obj.status.id.Some? ==> pc == Refreshing(uid, obj, r.value)
      ensures Calm() ==> ok && Completed(Now()) == Completed(old(Now()))
    {
      ok := Reach();
      if !ok { return false, None; }
      r := Some(obj.record);
      if obj.record.tunnelRef.Some? {
        var t := obj.record.tunnelRef.value;
        r := if t in tunnels then Some(obj.record.(fields := obj.record.fields.(content := TunnelTarget(tunnels[t])))) else None;
      }
      pc := if r.None? then Idle else if obj.status.id.None? then Listing(uid, obj, r.value) else Refreshing(uid, obj, r.value);
      Note(Call);
    }

    method AddFinalizer(uid: Uid, obj: Obj) returns (ok: bool, held: Obj)
      requires Valid() && pc == AddingFinalizer(uid, obj)
      modifies this
      ensures Continues()
      ensures pc == if ok then Resolving(uid, held) else Idle
      ensures Calm() ==> Completed(Now()) == Completed(old(Now()))
    {
      held := obj;
      ok := Reach();
      if !ok { return; }
      ok := uid in objs && !objs[uid].deleting;
      if ok {
        held := objs[uid].(finalizer := true);
        objs := objs[uid := held];
      }
      pc := if ok then Resolving(uid, held) else Idle;
      Note(Call);
    }

    /** A live object with its finalizer in place. */
    method Settle(uid: Uid, obj: Obj) returns (result: Outcome)
      requires Valid() && pc == Resolving(uid, obj)
      modifies this
      ensures Continues() && pc == Idle
      ensures Calm() ==> Now() == Completed(old(Now()))
    {
      var ok, r := ResolveRecord(uid, obj);
      if !ok { return Failed; }
      if r.None? { return Waiting; }
      if obj.status.id.None? {
        result := Acquire(uid, obj, r.value);
      } else {
        result := Refresh(uid, obj, r.value, obj.status.id.value);
      }
    }

    /** Reads the object a reconcile is about. */
    method Get(uid: Uid) returns (res: Option<Obj>)
      requires Valid() && pc == Idle
      modifies this`pc, this`ws, this`acts
      ensures Valid() && acts == old(acts) + [Begin(uid)] && Now() == old(Now()).(run := Begun(old(Now()), uid))
      ensures res == if uid in objs then Some(objs[uid]) else None
    {
      pc := Begun(Now(), uid);
      Note(Begin(uid));
      res := if uid in objs then Some(objs[uid]) else None;
    }

    /** One reconcile: a stretch of a run of the machine, cut short only where a call
        is not answered; with every call answered and nobody else acting it is the
        complete reconcile of the object. */
    method Reconcile(uid: Uid) returns (result: Outcome)
      requires Valid() && pc == Idle
      modifies this
      ensures Continues() && pc == Idle
      ensures |acts| > |old(acts)| && acts[|old(acts)|] == Begin(uid)
      ensures Calm() ==> Now() == Reconciled(old(Now()), uid)
    {
      var res := Get(uid);
      if res.None? { return Done; }
      var obj := res.value;
      if obj.deleting {
        result := Deletion(uid, obj);
        return;
      }
      if !obj.finalizer {
        var ok, held := AddFinalizer(uid, obj);
        if !ok { return Failed; }
        obj := held;
      }
      result := Settle(uid, obj);
    }
  }

  lemma ListingAdvances(w: World, uid: Uid, obj: Obj, r: Record, found: set<Id>, id: Id)
    requires w.run == Listing(uid, obj, r)
    requires found == set x | x in w.remote && SameKey(obj.zone, obj.record.fields, w.remote[x])
    requires |found| == 1 ==> id in found
    ensures Advance(w) == w.(run := if |found| == 0 then Creating(uid, obj, r)
                                    else if |found| == 1 then Recording(uid, obj, id, w.remote[id].fields)
                                    else Idle)
  {
    assert found == Matching(w, obj.zone, obj.record.fields);
    if |found| == 1 { OnlyOne(found, id); }
  }

  lemma OnlyOne(s: set<Id>, x: Id)
    requires |s| == 1 && x in s
    ensures s == {x}
  {
    assert |s - {x}| == 0;
  }

  // ---- whole reconciles ----

  function Rank(p: Phase): nat {
    match p
    case Idle => 0
    case Releasing(_) => 1
    case DeletingRemote(_, _) => 2
    case CheckingAdopter(_, _) => 3
    case Recording(_, _, _, _) => 1
    case Forgetting(_) => 1
    case Updating(_, _, _, _) => 2
    case Creating(_, _, _) => 2
    case Noting(_, _, _, _, _) => 3
    case Listing(_, _, _) => 3
    case Refreshing(_, _, _) => 4
    case Resolving(_, _) => 5
    case AddingFinalizer(_, _) => 6
  }

  /** Every call answered in turn, until the reconcile is over. */
  ghost function Completed(w: World): World
    decreases Rank(w.run)
  {
    if w.run == Idle then w else Completed(Advance(w))
  }

  ghost function Reconciled(w: World, uid: Uid): World {
    Completed(w.(run := Begun(w, uid)))
  }
}
