/** The RoleBindings that grant the operator read access to Secrets, converged on the
    namespaces Gateways take certificates from. */
module RoleBindings {
  import opened Sorting

  /** A namespace and a name. */
  type Key = (string, string)

  datatype RoleRef = RoleRef(kind: string, name: string)

  datatype Binding = Binding(labels: map<string, string>, owner: string, roleRef: RoleRef, subjects: seq<string>)

  /** The ClusterRole that is bound, and the identity it is bound to. */
  datatype Grantor = Grantor(role: string, uid: string, subject: string)

  const SECRET_ACCESS_LABEL := "cloudflare.unmango.dev/gateway-tls-secrets"

  predicate Labelled(b: Binding, g: Grantor) {
    SECRET_ACCESS_LABEL in b.labels && b.labels[SECRET_ACCESS_LABEL] == g.role
  }

  ghost function LabelledKeys(bindings: map<Key, Binding>, g: Grantor): set<Key> {
    set k | k in bindings && Labelled(bindings[k], g)
  }

  /** The key of the one binding a namespace gets. */
  function KeyFor(g: Grantor, ns: string): Key {
    (ns, g.role)
  }

  /** The binding grants the role to the subject, and goes when the role does. */
  predicate Grants(b: Binding, g: Grantor) {
    Labelled(b, g) && b.owner == g.uid && b.roleRef == RoleRef("ClusterRole", g.role) && b.subjects == [g.subject]
  }

  ghost predicate IsFor(g: Grantor, namespaces: set<string>, k: Key) {
    k.0 in namespaces && k == KeyFor(g, k.0)
  }

  class ApiServer {
    var bindings: map<Key, Binding>
    var calls: nat
    const answered: nat -> bool

    constructor (bindings: map<Key, Binding>, answered: nat -> bool)
      ensures this.bindings == bindings && this.answered == answered
    {
      this.bindings, this.answered, this.calls := bindings, answered, 0;
    }

    ghost predicate Smooth() {
      forall n :: answered(n)
    }

    method Ask() returns (ok: bool)
      modifies this`calls
      ensures Smooth() ==> ok
    {
      ok := answered(calls);
      calls := calls + 1;
    }

    method ListLabelled(g: Grantor) returns (ok: bool, keys: seq<Key>)
      modifies this`calls
      ensures Smooth() ==> ok
      ensures Distinct(keys) && Elements(keys) == LabelledKeys(bindings, g)
    {
      ok := Ask();
      keys := Collect(set k | k in bindings && Labelled(bindings[k], g));
    }

    method Delete(k: Key) returns (ok: bool)
      modifies this`calls, this`bindings
      ensures Smooth() ==> ok
      ensures bindings == if ok then old(bindings) - {k} else old(bindings)
    {
      ok := Ask();
      if ok { bindings := bindings - {k}; }
    }

    method Put(k: Key, b: Binding) returns (ok: bool)
      modifies this`calls, this`bindings
      ensures Smooth() ==> ok
      ensures bindings == if ok then old(bindings)[k := b] else old(bindings)
    {
      ok := Ask();
      if ok { bindings := bindings[k := b]; }
    }

    /** Creates or overwrites the binding of a namespace. One whose roleRef is not the
        grantor's is deleted first, a roleRef being immutable. */
    method Bind(g: Grantor, ns: string) returns (ok: bool)
      modifies this`calls, this`bindings
      ensures Smooth() ==> ok
      ensures forall k :: k != KeyFor(g, ns) ==> (k in bindings <==> k in old(bindings)) && (k in bindings ==> bindings[k] == old(bindings)[k])
      ensures ok ==> KeyFor(g, ns) in bindings && Grants(bindings[KeyFor(g, ns)], g)
      ensures KeyFor(g, ns) in old(bindings) && Grants(old(bindings)[KeyFor(g, ns)], g) ==> bindings == old(bindings)
    {
      var key := KeyFor(g, ns);
      ok := Ask();
      if !ok { return; }
      var labels: map<string, string> := map[];
      if key in bindings {
        if bindings[key].roleRef != RoleRef("ClusterRole", g.role) {
          ok := Delete(key);
          if !ok { return; }
        } else {
          labels := bindings[key].labels;
        }
      }
      ok := Put(key, Binding(labels[SECRET_ACCESS_LABEL := g.role], g.uid, RoleRef("ClusterRole", g.role), [g.subject]));
      assert labels == labels[SECRET_ACCESS_LABEL := g.role] || !(key in old(bindings) && Grants(old(bindings)[key], g));
    }

    /** Grants access in the wanted namespaces and revokes it everywhere else. After a
        run without errors the labelled bindings are exactly one per wanted namespace,
        each granting the role; a run that starts there changes nothing; and no run
        touches a binding that neither carries the label nor stands in the way. */
    method Reconcile(g: Grantor, namespaces: set<string>) returns (ok: bool)
      modifies this
      ensures Smooth() ==> ok
      ensures ok ==> Converged(bindings, g, namespaces)
      ensures Converged(old(bindings), g, namespaces) ==> bindings == old(bindings)
      ensures Untouched(old(bindings), bindings, g, namespaces)
    {
      var keys: seq<Key>;
      ghost var was := bindings;
      ok, keys := ListLabelled(g);
      if !ok { return; }
      ok := Revoke(g, namespaces, keys);
      if !ok { return; }
      ghost var mid := bindings;
      var order := Collect(namespaces);
      for i := 0 to |order|
        invariant Untouched(mid, bindings, g, namespaces)
        invariant forall k :: k in LabelledKeys(bindings, g) ==> IsFor(g, namespaces, k)
        invariant forall ns :: ns in order[..i] ==> KeyFor(g, ns) in bindings && Grants(bindings[KeyFor(g, ns)], g)
        invariant Converged(was, g, namespaces) ==> bindings == was
      {
        ghost var before := bindings;
        ok := Bind(g, order[i]);
        BindStep(mid, before, bindings, g, namespaces, order[i]);
        if !ok { return; }
      }
      ok := true;
      assert order[..|order|] == order;
    }

    /** Deletes the labelled bindings that no wanted namespace asks for. */
    method Revoke(g: Grantor, namespaces: set<string>, keys: seq<Key>) returns (ok: bool)
      requires Elements(keys) == LabelledKeys(bindings, g)
      modifies this`calls, this`bindings
      ensures Smooth() ==> ok
      ensures Untouched(old(bindings), bindings, g, namespaces)
      ensures ok ==> forall k :: k in LabelledKeys(bindings, g) ==> IsFor(g, namespaces, k)
      ensures Converged(old(bindings), g, namespaces) ==> bindings == old(bindings)
    {
      ghost var was := bindings;
      for i := 0 to |keys|
        invariant forall k :: k in bindings <==> k in was && (k in keys[..i] ==> IsFor(g, namespaces, k))
        invariant forall k :: k in bindings ==> bindings[k] == was[k]
      {
        var k := keys[i];
        assert keys[..i + 1] == keys[..i] + [k];
        assert k in Elements(keys);
        if !(k.0 in namespaces && k == KeyFor(g, k.0)) {
          ok := Delete(k);
          if !ok { return; }
        }
      }
      ok := true;
      assert keys[..|keys|] == keys;
      assert forall k :: k in keys <==> k in Elements(keys);
    }
  }

  /** The labelled bindings are exactly one per wanted namespace, each granting the role. */
  ghost predicate Converged(bindings: map<Key, Binding>, g: Grantor, namespaces: set<string>) {
    && (forall k :: k in LabelledKeys(bindings, g) <==> IsFor(g, namespaces, k))
    && (forall k :: k in LabelledKeys(bindings, g) ==> Grants(bindings[k], g))
  }

  /** Bindings that are not labelled, nor the one of a wanted namespace, are as they were. */
  ghost predicate Untouched(was: map<Key, Binding>, now: map<Key, Binding>, g: Grantor, namespaces: set<string>) {
    && (forall k :: k in was && k !in LabelledKeys(was, g) && !IsFor(g, namespaces, k) ==> k in now && now[k] == was[k])
    && (forall k :: k in now && k !in was ==> IsFor(g, namespaces, k))
  }

  lemma BindStep(mid: map<Key, Binding>, before: map<Key, Binding>, after: map<Key, Binding>, g: Grantor, namespaces: set<string>, ns: string)
    requires ns in namespaces && Untouched(mid, before, g, namespaces)
    requires forall k :: k != KeyFor(g, ns) ==> (k in after <==> k in before) && (k in after ==> after[k] == before[k])
    requires forall k :: k in LabelledKeys(before, g) ==> IsFor(g, namespaces, k)
    ensures Untouched(mid, after, g, namespaces)
    ensures forall k :: k in LabelledKeys(after, g) ==> IsFor(g, namespaces, k)
  {
  }
}
