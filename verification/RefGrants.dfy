/** References across namespaces, and the grants that permit them. */
module RefGrants {
  import opened Text
  import opened GatewayModel

  const GATEWAY_GROUP := "gateway.networking.k8s.io"
  const CORE_GROUP := ""

  function GroupOf(ref: ObjectRef, default_: string): string {
    if ref.group.Some? then ref.group.value else default_
  }

  function KindOf(ref: ObjectRef, default_: string): string {
    if ref.kind.Some? then ref.kind.value else default_
  }

  function NamespaceOf(ns: Option<string>, default_: string): string {
    if ns.None? || ns.value == "" then default_ else ns.value
  }

  /** What a ReferenceGrant promises: some grant in the target namespace lists
      the referring kind and namespace, and the target kind with its name or any. */
  ghost predicate PermittedSpec(refs: References, fromGroup: string, fromKind: string, fromNs: string,
                                toGroup: string, toKind: string, toNs: string, name: string) {
    fromNs == toNs ||
    exists g, t :: g in refs.grants && t in g.to &&
      g.ns == toNs && GrantFrom(fromGroup, fromKind, fromNs) in g.from &&
      t.group == toGroup && t.kind == toKind && (t.name.None? || t.name == Some(name))
  }

  method Permitted(refs: References, fromGroup: string, fromKind: string, fromNs: string,
                   toGroup: string, toKind: string, toNs: string, name: string) returns (ok: bool)
    ensures ok <==> PermittedSpec(refs, fromGroup, fromKind, fromNs, toGroup, toKind, toNs, name)
  {
    if fromNs == toNs {
      return true;
    }
    for i := 0 to |refs.grants|
      invariant forall k, t :: 0 <= k < i && t in refs.grants[k].to ==>
        !(refs.grants[k].ns == toNs && GrantFrom(fromGroup, fromKind, fromNs) in refs.grants[k].from &&
          t.group == toGroup && t.kind == toKind && (t.name.None? || t.name == Some(name)))
    {
      var grant := refs.grants[i];
      if grant.ns != toNs {
        continue;
      }
      var fromMatches := false;
      for j := 0 to |grant.from|
        invariant !fromMatches ==> forall k :: 0 <= k < j ==> grant.from[k] != GrantFrom(fromGroup, fromKind, fromNs)
        invariant fromMatches ==> GrantFrom(fromGroup, fromKind, fromNs) in grant.from
      {
        if grant.from[j] == GrantFrom(fromGroup, fromKind, fromNs) {
          fromMatches := true;
          break;
        }
      }
      if !fromMatches {
        continue;
      }
      for j := 0 to |grant.to|
        invariant forall k :: 0 <= k < j ==> !(grant.to[k].group == toGroup && grant.to[k].kind == toKind &&
                                               (grant.to[k].name.None? || grant.to[k].name == Some(name)))
      {
        var t := grant.to[j];
        if t.group != toGroup || t.kind != toKind {
          continue;
        }
        if t.name.None? || t.name.value == name {
          assert grant in refs.grants && t in grant.to;
          return true;
        }
      }
    }
    return false;
  }
}
