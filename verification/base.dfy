/** Small shared vocabulary: optional values and duplicate-free sequences. */
module Base {

  datatype Option<+T> = None | Some(value: T)

  /** True when no element of `s` occurs twice. */
  predicate NoDup<T(==)>(s: seq<T>) {
    forall i, j :: 0 <= i < j < |s| ==> s[i] != s[j]
  }

  /** The elements of `s` without repeats, each kept at its first occurrence. */
  function Dedup<T(==)>(s: seq<T>): (r: seq<T>)
    ensures NoDup(r)
    ensures forall i :: 0 <= i < |s| ==> s[i] in r
    ensures forall i :: 0 <= i < |r| ==> r[i] in s
    decreases |s|
  {
    if |s| == 0 then []
    else
      var d := Dedup(s[..|s| - 1]);
      assert forall i :: 0 <= i < |s| - 1 ==> s[i] == s[..|s| - 1][i];
      if s[|s| - 1] in d then d else d + [s[|s| - 1]]
  }

  /** Index of the first occurrence of `x` in `s`. */
  function IndexOf<T(==)>(s: seq<T>, x: T): (i: nat)
    requires x in s
    ensures i < |s| && s[i] == x
    ensures forall j :: 0 <= j < i ==> s[j] != x
  {
    if s[0] == x then 0 else 1 + IndexOf(s[1..], x)
  }

  /** Dedup lists the elements in the order of their first occurrence in `s`. */
  lemma {:induction false} DedupKeepsFirstSeenOrder<T>(s: seq<T>, x: T, y: T)
    requires x in s && y in s
    ensures IndexOf(Dedup(s), x) <= IndexOf(Dedup(s), y) <==> IndexOf(s, x) <= IndexOf(s, y)
    decreases |s|
  {
    var n := |s| - 1;
    var p := s[..n];
    var d := Dedup(p);
    assert s == p + [s[n]];
    if x in p && y in p {
      DedupKeepsFirstSeenOrder(p, x, y);
      IndexOfPrefix(p, s, x);
      IndexOfPrefix(p, s, y);
      if s[n] in d {
      } else {
        IndexOfPrefix(d, d + [s[n]], x);
        IndexOfPrefix(d, d + [s[n]], y);
      }
    } else if x in p {
      // y occurs first at the last position, and so comes last in Dedup(s)
      assert y == s[n];
      IndexOfPrefix(p, s, x);
      IndexOfLast(p, y);
      assert y !in d;
      IndexOfPrefix(d, d + [y], x);
      IndexOfLast(d, y);
    } else if y in p {
      assert x == s[n];
      IndexOfPrefix(p, s, y);
      IndexOfLast(p, x);
      assert x !in d;
      IndexOfPrefix(d, d + [x], y);
      IndexOfLast(d, x);
    } else {
      assert x == s[n] && y == s[n];
    }
  }

  lemma {:induction false} IndexOfPrefix<T>(p: seq<T>, s: seq<T>, x: T)
    requires x in p && p <= s
    ensures x in s && IndexOf(s, x) == IndexOf(p, x)
  {
    var i := IndexOf(p, x);
    assert s[i] == x;
  }

  lemma {:induction false} IndexOfLast<T>(p: seq<T>, x: T)
    requires x !in p
    ensures x in p + [x] && IndexOf(p + [x], x) == |p|
  {
    var s := p + [x];
    assert s[|p|] == x;
  }

  /** All values of `xs` when every one is present, and `None` otherwise. */
  function AllSome<T>(xs: seq<Option<T>>): Option<seq<T>> {
    if |xs| == 0 then Some([])
    else match (xs[0], AllSome(xs[1..]))
      case (Some(x), Some(r)) => Some([x] + r)
      case _ => None
  }

  lemma {:induction false} AllSomeOf<T>(xs: seq<Option<T>>, ys: seq<T>)
    requires |xs| == |ys| && forall i :: 0 <= i < |xs| ==> xs[i] == Some(ys[i])
    ensures AllSome(xs) == Some(ys)
  {
    if |xs| > 0 {
      AllSomeOf(xs[1..], ys[1..]);
      assert ys == [ys[0]] + ys[1..];
    }
  }

  /** The first present value of `xs`, or `None` when every entry is absent. */
  function FirstSome<T(==)>(xs: seq<Option<T>>): (r: Option<T>)
    ensures r.None? <==> forall i :: 0 <= i < |xs| ==> xs[i].None?
    ensures r.Some? ==> exists i :: 0 <= i < |xs| && xs[i] == r && forall j :: 0 <= j < i ==> xs[j].None?
  {
    if |xs| == 0 then None
    else if xs[0].Some? then xs[0]
    else
      var r := FirstSome(xs[1..]);
      if r.Some? then
        var i :| 0 <= i < |xs[1..]| && xs[1..][i] == r && forall j :: 0 <= j < i ==> xs[1..][j].None?;
        assert xs[i + 1] == r;
        r
      else r
  }
}
