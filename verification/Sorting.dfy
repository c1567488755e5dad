/** Sorting as the Go standard library specifies it: slices.SortStableFunc returns the
    one permutation in order that leaves ties as they were; where nothing ties that is
    what slices.Sort returns. */
module Sorting {

  ghost predicate TotalPreorder<T(!new)>(leq: (T, T) -> bool) {
    (forall a, b :: leq(a, b) || leq(b, a)) &&
    (forall a, b, c :: leq(a, b) && leq(b, c) ==> leq(a, c))
  }

  ghost predicate Ordered<T>(s: seq<T>, leq: (T, T) -> bool) {
    forall i, j :: 0 <= i < j < |s| ==> leq(s[i], s[j])
  }

  ghost predicate Distinct<T>(s: seq<T>) {
    forall i, j :: 0 <= i < j < |s| ==> s[i] != s[j]
  }

  ghost function Elements<T>(s: seq<T>): set<T> {
    set x | x in s
  }

  // ---- places in a sequence ----

  /** The first index of an element, or the length where it is absent. */
  function Place<T(==)>(s: seq<T>, x: T): nat {
    if s == [] || s[0] == x then 0 else 1 + Place(s[1..], x)
  }

  lemma {:induction false} PlaceFinds<T>(s: seq<T>, x: T)
    ensures Place(s, x) <= |s|
    ensures Place(s, x) < |s| <==> x in s
    ensures x in s ==> s[Place(s, x)] == x
    ensures forall k :: 0 <= k < |s| && s[k] == x ==> Place(s, x) <= k
  {
    if s != [] && s[0] != x {
      PlaceFinds(s[1..], x);
      assert x in s <==> x in s[1..];
      forall k | 0 <= k < |s| && s[k] == x ensures Place(s, x) <= k {
        assert s[1..][k - 1] == x;
      }
    }
  }

  lemma PlaceInjective<T>(s: seq<T>, x: T, y: T)
    requires x in s && y in s && Place(s, x) == Place(s, y)
    ensures x == y
  {
    PlaceFinds(s, x);
    PlaceFinds(s, y);
  }

  ghost predicate Before<T(!new)>(s: seq<T>, x: T, y: T) {
    exists i, j :: 0 <= i < j < |s| && s[i] == x && s[j] == y
  }

  lemma BeforeSnoc<T(!new)>(s: seq<T>, e: T, x: T, y: T)
    ensures Before(s + [e], x, y) <==> Before(s, x, y) || (x in s && y == e)
  {
    var t := s + [e];
    if i, j :| 0 <= i < j < |t| && t[i] == x && t[j] == y {
      assert s[i] == x && (j < |s| ==> s[j] == y);
    }
    if i, j :| 0 <= i < j < |s| && s[i] == x && s[j] == y { assert t[i] == x && t[j] == y; }
    if x in s && y == e {
      var i :| 0 <= i < |s| && s[i] == x;
      assert t[i] == x && t[|s|] == y;
    }
  }

  // ---- ties ----

  predicate Ties<T>(leq: (T, T) -> bool, x: T, y: T) {
    leq(x, y) && leq(y, x)
  }

  /** The elements that tie with x, in their order. */
  function Tied<T>(s: seq<T>, x: T, leq: (T, T) -> bool): seq<T> {
    if s == [] then []
    else Tied(s[..|s| - 1], x, leq) + if Ties(leq, s[|s| - 1], x) then [s[|s| - 1]] else []
  }

  lemma {:induction false} TiedConcat<T>(s: seq<T>, t: seq<T>, x: T, leq: (T, T) -> bool)
    ensures Tied(s + t, x, leq) == Tied(s, x, leq) + Tied(t, x, leq)
  {
    if t == [] {
      assert s + t == s;
    } else {
      var n := |t| - 1;
      assert (s + t)[..|s + t| - 1] == s + t[..n];
      TiedConcat(s, t[..n], x, leq);
    }
  }

  lemma {:induction false} NoneTied<T>(s: seq<T>, x: T, leq: (T, T) -> bool)
    requires forall y :: y in s ==> !Ties(leq, y, x)
    ensures Tied(s, x, leq) == []
  {
    if s != [] {
      NoneTied(s[..|s| - 1], x, leq);
    }
  }

  lemma {:induction false} TiedBefore<T(!new)>(s: seq<T>, x: T, leq: (T, T) -> bool, a: T, b: T)
    requires Ties(leq, a, x) && Ties(leq, b, x)
    ensures Before(Tied(s, x, leq), a, b) <==> Before(s, a, b)
    ensures a in Tied(s, x, leq) <==> a in s
  {
    if s != [] {
      var t, e := s[..|s| - 1], s[|s| - 1];
      TiedBefore(t, x, leq, a, b);
      assert s == t + [e];
      BeforeSnoc(t, e, a, b);
      BeforeSnoc(Tied(t, x, leq), e, a, b);
      assert Tied(t, x, leq) + [] == Tied(t, x, leq);
    }
  }

  /** A stable sort leaves ties as they were. */
  ghost predicate Stable<T(!new)>(s: seq<T>, out: seq<T>, leq: (T, T) -> bool) {
    forall x :: Tied(out, x, leq) == Tied(s, x, leq)
  }

  lemma StableBefore<T(!new)>(s: seq<T>, out: seq<T>, leq: (T, T) -> bool, i: nat, j: nat)
    requires TotalPreorder(leq) && Stable(s, out, leq) && i < j < |out| && Ties(leq, out[j], out[i])
    ensures Before(s, out[i], out[j])
  {
    var x := out[i];
    assert Ties(leq, x, x) && Before(out, x, out[j]);
    TiedBefore(out, x, leq, x, out[j]);
    TiedBefore(s, x, leq, x, out[j]);
  }

  /** Insertion after every element that is not strictly greater, so equal
      elements keep their order. */
  method Insert<T(!new)>(s: seq<T>, x: T, leq: (T, T) -> bool) returns (out: seq<T>)
    requires TotalPreorder(leq) && Ordered(s, leq)
    ensures Ordered(out, leq)
    ensures multiset(out) == multiset(s) + multiset{x}
    ensures Stable(s + [x], out, leq)
  {
    var k := |s|;
    while k > 0 && !leq(s[k - 1], x)
      invariant 0 <= k <= |s|
      invariant forall i :: k <= i < |s| ==> leq(x, s[i]) && !leq(s[i], x)
    {
      k := k - 1;
    }
    out := s[..k] + [x] + s[k..];
    assert s == s[..k] + s[k..];
    InsertOrdered(s, x, k, leq);
    InsertStable(s, x, k, leq);
  }

  lemma InsertStable<T(!new)>(s: seq<T>, x: T, k: nat, leq: (T, T) -> bool)
    requires TotalPreorder(leq) && k <= |s|
    requires forall i :: k <= i < |s| ==> !leq(s[i], x)
    ensures Stable(s + [x], s[..k] + [x] + s[k..], leq)
  {
    var a, b := s[..k], s[k..];
    assert s + [x] == a + (b + [x]) && a + [x] + b == a + ([x] + b);
    forall y ensures Tied(a + [x] + b, y, leq) == Tied(s + [x], y, leq) {
      TiedConcat(a, b + [x], y, leq);
      TiedConcat(b, [x], y, leq);
      TiedConcat(a, [x] + b, y, leq);
      TiedConcat([x], b, y, leq);
      if Ties(leq, x, y) {
        forall z | z in b ensures !Ties(leq, z, y) {
        }
        NoneTied(b, y, leq);
      } else {
        NoneTied([x], y, leq);
      }
    }
  }

  lemma StableSnoc<T(!new)>(s: seq<T>, mid: seq<T>, x: T, out: seq<T>, leq: (T, T) -> bool)
    requires Stable(s, mid, leq) && Stable(mid + [x], out, leq)
    ensures Stable(s + [x], out, leq)
  {
    forall y ensures Tied(out, y, leq) == Tied(s + [x], y, leq) {
      TiedConcat(mid, [x], y, leq);
      TiedConcat(s, [x], y, leq);
      assert Tied(mid, y, leq) == Tied(s, y, leq);
    }
  }

  lemma InsertOrdered<T(!new)>(s: seq<T>, x: T, k: nat, leq: (T, T) -> bool)
    requires TotalPreorder(leq) && Ordered(s, leq) && k <= |s|
    requires k > 0 ==> leq(s[k - 1], x)
    requires forall i :: k <= i < |s| ==> leq(x, s[i])
    ensures Ordered(s[..k] + [x] + s[k..], leq)
  {
    var out := s[..k] + [x] + s[k..];
    forall i | 0 <= i < k ensures leq(s[i], x) {
      assert i < k - 1 ==> leq(s[i], s[k - 1]);
    }
    forall i, j | 0 <= i < j < |out| ensures leq(out[i], out[j]) {
      var a, b := if i <= k then i else i - 1, if j <= k then j else j - 1;
      assert i != k ==> out[i] == s[a];
      assert j != k ==> out[j] == s[b];
    }
  }

  method SortStable<T(!new)>(s: seq<T>, leq: (T, T) -> bool) returns (out: seq<T>)
    requires TotalPreorder(leq)
    ensures Ordered(out, leq)
    ensures multiset(out) == multiset(s)
    ensures Stable(s, out, leq)
  {
    out := [];
    for i := 0 to |s|
      invariant Ordered(out, leq)
      invariant multiset(out) == multiset(s[..i])
      invariant Stable(s[..i], out, leq)
    {
      ghost var mid := out;
      out := Insert(out, s[i], leq);
      assert s[..i + 1] == s[..i] + [s[i]];
      StableSnoc(s[..i], mid, s[i], out, leq);
    }
    assert s[..|s|] == s;
  }

  /** A permutation has the same length and the same elements. */
  lemma PermutationFacts<T>(s: seq<T>, t: seq<T>)
    requires multiset(s) == multiset(t)
    ensures |s| == |t|
    ensures forall x :: x in s <==> x in t
    ensures Distinct(s) ==> Distinct(t)
  {
    assert |s| == |multiset(s)| == |multiset(t)| == |t|;
    forall x ensures x in s <==> x in t {
      assert x in s <==> x in multiset(s);
      assert x in t <==> x in multiset(t);
    }
    if Distinct(s) {
      DistinctByCount(s);
      CountDistinct(t);
    }
  }

  lemma {:induction false} DistinctByCount<T>(s: seq<T>)
    requires Distinct(s)
    ensures forall x :: multiset(s)[x] <= 1
  {
    if s != [] {
      var n := |s| - 1;
      assert s == s[..n] + [s[n]];
      DistinctByCount(s[..n]);
      forall x ensures multiset(s)[x] <= 1 {
        if x == s[n] {
          assert x !in s[..n];
          assert multiset(s[..n])[x] == 0;
        }
      }
    }
  }

  lemma {:induction false} CountDistinct<T>(s: seq<T>)
    requires forall x :: multiset(s)[x] <= 1
    ensures Distinct(s)
  {
    if s != [] {
      var n := |s| - 1;
      assert s == s[..n] + [s[n]];
      assert multiset(s)[s[n]] == multiset(s[..n])[s[n]] + 1;
      assert s[n] !in multiset(s[..n]);
      forall x ensures multiset(s[..n])[x] <= 1 {
        assert multiset(s)[x] >= multiset(s[..n])[x];
      }
      CountDistinct(s[..n]);
      forall i, j | 0 <= i < j < |s| ensures s[i] != s[j] {
        assert s[i] == s[..n][i];
        assert j < n ==> s[j] == s[..n][j];
        assert s[..n][i] in multiset(s[..n]);
      }
    }
  }

  /** Two distinct sequences with the same elements, both in an order that tells
      those elements apart, are equal. */
  lemma {:induction false} OrderedUnique<T(!new)>(s: seq<T>, t: seq<T>, leq: (T, T) -> bool)
    requires Ordered(s, leq) && Ordered(t, leq)
    requires Distinct(s) && Distinct(t)
    requires forall x :: x in s <==> x in t
    requires forall x, y :: x in s && y in s && leq(x, y) && leq(y, x) ==> x == y
    ensures s == t
  {
    assert (s != [] ==> s[0] in t) && (t != [] ==> t[0] in s);
    if s != [] {
      SameFirst(s, t, leq);
      var s', t' := s[1..], t[1..];
      forall x ensures x in s' <==> x in t' {
        assert x in s' <==> x in s && x != s[0];
        assert x in t' <==> x in t && x != t[0];
      }
      OrderedUnique(s', t', leq);
      assert s == [s[0]] + s' && t == [t[0]] + t';
    }
  }

  lemma SameFirst<T(!new)>(s: seq<T>, t: seq<T>, leq: (T, T) -> bool)
    requires Ordered(s, leq) && Ordered(t, leq)
    requires s != [] && t != []
    requires forall x :: x in s <==> x in t
    requires forall x, y :: x in s && y in s && leq(x, y) && leq(y, x) ==> x == y
    ensures s[0] == t[0]
  {
    assert s[0] in s && t[0] in t;
    assert s[0] in t && t[0] in s;
    var i :| 0 <= i < |s| && s[i] == t[0];
    var j :| 0 <= j < |t| && t[j] == s[0];
    assert i == 0 || leq(s[0], s[i]);
    assert j == 0 || leq(t[0], t[j]);
  }

  /** The keys of a Go map, in the unspecified order a range over it yields. */
  method Collect<T>(keys: set<T>) returns (out: seq<T>)
    ensures Distinct(out)
    ensures forall x :: x in out <==> x in keys
  {
    out := [];
    var rest := keys;
    while rest != {}
      invariant Distinct(out)
      invariant rest <= keys
      invariant forall x :: x in out <==> x in keys && x !in rest
    {
      var x :| x in rest;
      rest := rest - {x};
      out := out + [x];
    }
  }
}
