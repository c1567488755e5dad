/** Which listener of a port a host belongs to. */
module Owners {
  import opened Text
  import opened Sorting
  import opened Hostnames
  import opened GatewayModel

  /** The hostname listener i stands for. */
  function OwnHost(m: Model, i: nat): string {
    ListenerHost(if i < |m.listeners| then m.listeners[i].spec.hostname else None)
  }

  predicate Indexes(m: Model, ls: seq<nat>) {
    forall i :: i in ls ==> i < |m.listeners|
  }

  /** What validation leaves on one port: no two listeners stand for one hostname. */
  ghost predicate DistinctHosts(m: Model, ls: seq<nat>) {
    forall i, j :: i in ls && j in ls && OwnHost(m, i) == OwnHost(m, j) ==> i == j
  }

  /** The most specific listener covering the host, the first of several alike. */
  ghost predicate Owns(m: Model, ls: seq<nat>, host: string, owner: nat) {
    owner in ls && HostCovers(OwnHost(m, owner), host) &&
    forall i :: i in ls && HostCovers(OwnHost(m, i), host) ==> HostCovers(OwnHost(m, i), OwnHost(m, owner))
  }

  method OwningListener(m: Model, ls: seq<nat>, host: string) returns (owner: Option<nat>)
    requires Indexes(m, ls)
    ensures owner.None? <==> forall i :: i in ls ==> !HostCovers(OwnHost(m, i), host)
    ensures owner.Some? ==> Owns(m, ls, host, owner.value)
  {
    owner := None;
    var best := "";
    for k := 0 to |ls|
      invariant owner.None? ==> forall i :: i in ls[..k] ==> !HostCovers(OwnHost(m, i), host)
      invariant owner.Some? ==> owner.value in ls[..k] && best == OwnHost(m, owner.value) && HostCovers(best, host)
      invariant owner.Some? ==> forall i :: i in ls[..k] && HostCovers(OwnHost(m, i), host) ==> HostCovers(OwnHost(m, i), best)
    {
      assert ls[..k + 1] == ls[..k] + [ls[k]];
      var i := ls[k];
      var h := OwnHost(m, i);
      if !HostCovers(h, host) {
        continue;
      }
      if owner.Some? { SpecificityDecides(h, best, host); }
      if owner.None? || MoreSpecific(h, best) {
        if owner.Some? {
          forall j | j in ls[..k] && HostCovers(OwnHost(m, j), host) ensures HostCovers(OwnHost(m, j), h) {
            CoversTransitive(OwnHost(m, j), best, h);
          }
        }
        owner, best := Some(i), h;
      }
    }
    assert ls[..|ls|] == ls;
  }

  lemma OwnerUnique(m: Model, ls: seq<nat>, host: string, i: nat, j: nat)
    requires DistinctHosts(m, ls)
    requires Owns(m, ls, host, i) && Owns(m, ls, host, j)
    ensures i == j
  {
    CoversAntisymmetric(OwnHost(m, i), OwnHost(m, j));
  }

  /** The owner of a host owns every narrower host its listener covers that
      still covers the host. */
  lemma OwnerOfNarrower(m: Model, ls: seq<nat>, host: string, d: string, i: nat)
    requires Owns(m, ls, host, i)
    requires HostCovers(OwnHost(m, i), d) && HostCovers(d, host)
    ensures Owns(m, ls, d, i)
  {
    forall j | j in ls && HostCovers(OwnHost(m, j), d) ensures HostCovers(OwnHost(m, j), OwnHost(m, i)) {
      CoversTransitive(OwnHost(m, j), d, host);
    }
  }
}
