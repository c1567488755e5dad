/** Strings, three-way comparisons and decimal numbers, as the Go code uses them.
    Every string here is the byte string the source works on. */
module Text {

  datatype Option<+T> = None | Some(value: T)

  predicate HasPrefix(s: string, prefix: string) {
    |prefix| <= |s| && s[..|prefix|] == prefix
  }

  predicate HasSuffix(s: string, suffix: string) {
    |suffix| <= |s| && s[|s| - |suffix|..] == suffix
  }

  function TrimPrefix(s: string, prefix: string): string {
    if HasPrefix(s, prefix) then s[|prefix|..] else s
  }

  function TrimSuffix(s: string, suffix: string): string {
    if HasSuffix(s, suffix) then s[..|s| - |suffix|] else s
  }

  /** A suffix of a suffix is a suffix. */
  lemma SuffixTransitive(a: string, b: string, c: string)
    requires HasSuffix(b, a) && HasSuffix(c, b)
    ensures HasSuffix(c, a)
  {
    assert c[|c| - |a|..] == c[|c| - |b|..][|b| - |a|..];
  }

  /** Of two suffixes of one string, the shorter is a suffix of the longer. */
  lemma SuffixesNest(a: string, b: string, c: string)
    requires HasSuffix(c, a) && HasSuffix(c, b) && |a| <= |b|
    ensures HasSuffix(b, a)
  {
    assert c[|c| - |b|..][|b| - |a|..] == c[|c| - |a|..];
  }

  /** Go's cmp.Compare on integers. */
  function CompareInt(a: int, b: int): int {
    if a < b then -1 else if a > b then 1 else 0
  }

  /** Go's cmp.Or on two comparisons: the first that is not zero. */
  function Or(a: int, b: int): int {
    if a != 0 then a else b
  }

  /** Go's cmp.Compare on strings: byte by byte, a proper prefix first. */
  function CompareString(a: string, b: string): int {
    if a == [] then (if b == [] then 0 else -1)
    else if b == [] then 1
    else if a[0] != b[0] then (if a[0] < b[0] then -1 else 1)
    else CompareString(a[1..], b[1..])
  }

  lemma {:induction false} CompareStringEqual(a: string, b: string)
    ensures CompareString(a, b) == 0 <==> a == b
  {
    if a != [] && b != [] && a[0] == b[0] {
      CompareStringEqual(a[1..], b[1..]);
      assert a == [a[0]] + a[1..] && b == [b[0]] + b[1..];
    }
  }

  lemma {:induction false} CompareStringAntisymmetric(a: string, b: string)
    ensures CompareString(a, b) == -CompareString(b, a)
    ensures -1 <= CompareString(a, b) <= 1
  {
    if a != [] && b != [] && a[0] == b[0] {
      CompareStringAntisymmetric(a[1..], b[1..]);
    }
  }

  lemma {:induction false} CompareStringTransitive(a: string, b: string, c: string)
    requires CompareString(a, b) <= 0 && CompareString(b, c) <= 0
    ensures CompareString(a, c) <= 0
  {
    if a != [] && b != [] && c != [] && a[0] == b[0] == c[0] {
      CompareStringTransitive(a[1..], b[1..], c[1..]);
    }
  }

  /** The order slices.Sort puts strings in. */
  predicate StringLeq(a: string, b: string) {
    CompareString(a, b) <= 0
  }

  lemma StringLeqIsTotalOrder()
    ensures forall a, b :: StringLeq(a, b) || StringLeq(b, a)
    ensures forall a, b, c :: StringLeq(a, b) && StringLeq(b, c) ==> StringLeq(a, c)
    ensures forall a, b :: StringLeq(a, b) && StringLeq(b, a) ==> a == b
  {
    forall a, b ensures StringLeq(a, b) || StringLeq(b, a) {
      CompareStringAntisymmetric(a, b);
    }
    forall a, b, c | StringLeq(a, b) && StringLeq(b, c) ensures StringLeq(a, c) {
      CompareStringTransitive(a, b, c);
    }
    forall a, b | StringLeq(a, b) && StringLeq(b, a) ensures a == b {
      CompareStringAntisymmetric(a, b);
      CompareStringEqual(a, b);
    }
  }

  /** A non-negative number as fmt's %d prints it. */
  function Decimal(n: nat): (s: string)
    ensures s != [] && forall c :: c in s ==> '0' <= c <= '9'
  {
    if n < 10 then [Digit(n)] else Decimal(n / 10) + [Digit(n % 10)]
  }

  function Digit(n: nat): char
    requires n < 10
  {
    '0' + (n as char)
  }

  lemma {:induction false} DecimalInjective(m: nat, n: nat)
    requires Decimal(m) == Decimal(n)
    ensures m == n
  {
    var a, b := Decimal(m), Decimal(n);
    assert (m >= 10 ==> |a| >= 2) && (n >= 10 ==> |b| >= 2);
    assert a[|a| - 1] == Digit(m % 10) && b[|b| - 1] == Digit(n % 10);
    if m >= 10 {
      assert a[..|a| - 1] == Decimal(m / 10) && b[..|b| - 1] == Decimal(n / 10);
      DecimalInjective(m / 10, n / 10);
    }
  }

  /** Where a separator that occurs in neither left part comes first, the two
      sides of the separator can be told apart. */
  lemma SeparatorSplits(sep: char, a: string, b: string, c: string, d: string)
    requires sep !in a && sep !in c
    requires a + [sep] + b == c + [sep] + d
    ensures a == c && b == d
  {
    var x, y := a + [sep] + b, c + [sep] + d;
    assert x[|a|] == sep && y[|c|] == sep;
    assert forall i :: 0 <= i < |c| ==> y[i] != sep;
    assert forall i :: 0 <= i < |a| ==> x[i] != sep;
    assert x[..|a|] == a && y[..|c|] == c;
    assert x[|a| + 1..] == b && y[|c| + 1..] == d;
  }
}
