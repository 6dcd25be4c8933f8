/**
 * The string order used to sort branches: lexicographic order on code points.
 * For strings of Unicode scalar values this coincides with the byte-wise order
 * of their UTF-8 encodings.
 */
module Lex {

  /** `a` sorts no later than `b`. */
  predicate Le(a: string, b: string) {
    |a| == 0 || (|b| > 0 && (a[0] < b[0] || (a[0] == b[0] && Le(a[1..], b[1..]))))
  }

  lemma {:induction false} LeReflexive(a: string)
    ensures Le(a, a)
  {
    if |a| > 0 {
      LeReflexive(a[1..]);
    }
  }

  lemma {:induction false} LeTotal(a: string, b: string)
    ensures Le(a, b) || Le(b, a)
  {
    if |a| > 0 && |b| > 0 && a[0] == b[0] {
      LeTotal(a[1..], b[1..]);
    }
  }

  lemma {:induction false} LeAntisymmetric(a: string, b: string)
    requires Le(a, b) && Le(b, a)
    ensures a == b
  {
    if |a| > 0 {
      LeAntisymmetric(a[1..], b[1..]);
      assert a == [a[0]] + a[1..] && b == [b[0]] + b[1..];
    }
  }

  lemma {:induction false} LeTransitive(a: string, b: string, c: string)
    requires Le(a, b) && Le(b, c)
    ensures Le(a, c)
  {
    if |a| > 0 && a[0] == b[0] && b[0] == c[0] {
      LeTransitive(a[1..], b[1..], c[1..]);
    }
  }

  /** At the first position where two strings differ, the smaller character puts its string first. */
  lemma {:induction false} FirstDifferenceDecides(a: string, b: string, n: nat)
    requires n < |a| && n < |b| && a[..n] == b[..n] && a[n] < b[n]
    ensures Le(a, b) && !Le(b, a)
    decreases n
  {
    if n > 0 {
      assert a[0] == a[..n][0] == b[..n][0] == b[0];
      assert a[1..][..n - 1] == a[..n][1..] == b[..n][1..] == b[1..][..n - 1];
      FirstDifferenceDecides(a[1..], b[1..], n - 1);
    }
  }

  /** A proper prefix sorts before the string it begins. */
  lemma {:induction false} PrefixFirst(a: string, b: string)
    requires |a| < |b| && b[..|a|] == a
    ensures Le(a, b) && !Le(b, a)
    decreases |a|
  {
    if |a| > 0 {
      assert a[0] == b[..|a|][0] == b[0];
      assert b[1..][..|a| - 1] == b[..|a|][1..] == a[1..];
      PrefixFirst(a[1..], b[1..]);
    }
  }
}
