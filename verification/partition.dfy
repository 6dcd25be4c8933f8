/**
 * The equivalence partitioner: for one output field, the (key, value) entries of
 * all toolchains are grouped into classes of equal values, and the classes are
 * ordered by a sort key computed from the value.
 */
module Partitioner {
  import opened Base
  import Lex
  import opened Records

  /** The value one toolchain (identified by its key) has for the field at hand. */
  datatype Entry<V> = Entry(key: Key, value: V)

  /** One equivalence class: a value and the keys of the toolchains that have it, in input order. */
  datatype Class<V> = Class(value: V, members: seq<Key>)

  predicate DistinctKeys<V>(es: seq<Entry<V>>) {
    forall i, j :: 0 <= i < j < |es| ==> es[i].key != es[j].key
  }

  function Keys<V>(es: seq<Entry<V>>): seq<Key> {
    seq(|es|, i requires 0 <= i < |es| => es[i].key)
  }

  function Values<V>(es: seq<Entry<V>>): seq<V> {
    seq(|es|, i requires 0 <= i < |es| => es[i].value)
  }

  function ClassValues<V>(cs: seq<Class<V>>): seq<V> {
    seq(|cs|, i requires 0 <= i < |cs| => cs[i].value)
  }

  /** `vs` is ordered by the sort key `rank`, ties allowed. */
  predicate SortedBy<V>(vs: seq<V>, rank: V -> string) {
    forall i, j :: 0 <= i < j < |vs| ==> Lex.Le(rank(vs[i]), rank(vs[j]))
  }

  /** Inserts `x` into sorted `vs` after every element whose key is not greater. */
  function InsertByRank<V(==)>(x: V, vs: seq<V>, rank: V -> string): (r: seq<V>)
    requires SortedBy(vs, rank)
    ensures SortedBy(r, rank)
    ensures multiset(r) == multiset(vs) + multiset{x}
    ensures forall j :: 0 <= j < |r| ==> r[j] == x || r[j] in vs
    ensures NoDup(vs) && x !in vs ==> NoDup(r)
  {
    if |vs| == 0 then [x]
    else if Lex.Le(rank(vs[0]), rank(x)) then
      var rest := InsertByRank(x, vs[1..], rank);
      InsertAfterHead(x, vs, rest, rank);
      [vs[0]] + rest
    else
      InsertBeforeHead(x, vs, rank);
      [x] + vs
  }

  /** An element whose key is below the head's may precede the whole sequence. */
  lemma {:induction false} InsertBeforeHead<V>(x: V, vs: seq<V>, rank: V -> string)
    requires |vs| > 0 && SortedBy(vs, rank) && !Lex.Le(rank(vs[0]), rank(x))
    ensures SortedBy([x] + vs, rank)
    ensures multiset([x] + vs) == multiset(vs) + multiset{x}
    ensures forall j :: 0 <= j < |[x] + vs| ==> ([x] + vs)[j] == x || ([x] + vs)[j] in vs
    ensures NoDup(vs) && x !in vs ==> NoDup([x] + vs)
  {
    var r := [x] + vs;
    Lex.LeTotal(rank(x), rank(vs[0]));
    forall j | 0 <= j < |vs|
      ensures Lex.Le(rank(x), rank(vs[j]))
    {
      if j > 0 {
        Lex.LeTransitive(rank(x), rank(vs[0]), rank(vs[j]));
      }
    }
    assert forall i :: 0 < i < |r| ==> r[i] == vs[i - 1];
  }

  /** The head of `vs` may precede the insertion into its tail. */
  lemma {:induction false} InsertAfterHead<V>(x: V, vs: seq<V>, rest: seq<V>, rank: V -> string)
    requires |vs| > 0 && SortedBy(vs, rank) && Lex.Le(rank(vs[0]), rank(x))
    requires SortedBy(rest, rank)
    requires forall j :: 0 <= j < |rest| ==> rest[j] == x || rest[j] in vs[1..]
    requires multiset(rest) == multiset(vs[1..]) + multiset{x}
    ensures SortedBy([vs[0]] + rest, rank)
    ensures multiset([vs[0]] + rest) == multiset(vs) + multiset{x}
    ensures forall j :: 0 <= j < |[vs[0]] + rest| ==> ([vs[0]] + rest)[j] == x || ([vs[0]] + rest)[j] in vs
    ensures NoDup(vs) && x !in vs && NoDup(rest) ==> NoDup([vs[0]] + rest)
  {
    HeadBelowRest(x, vs, rest, rank);
    var r := [vs[0]] + rest;
    assert vs == [vs[0]] + vs[1..];
    assert forall i :: 0 < i < |r| ==> r[i] == rest[i - 1];
  }

  lemma {:induction false} HeadBelowRest<V>(x: V, vs: seq<V>, rest: seq<V>, rank: V -> string)
    requires |vs| > 0 && SortedBy(vs, rank) && Lex.Le(rank(vs[0]), rank(x))
    requires forall j :: 0 <= j < |rest| ==> rest[j] == x || rest[j] in vs[1..]
    ensures forall j :: 0 <= j < |rest| ==> Lex.Le(rank(vs[0]), rank(rest[j]))
    ensures NoDup(vs) && x !in vs ==> vs[0] !in rest
  {
    forall j | 0 <= j < |rest|
      ensures Lex.Le(rank(vs[0]), rank(rest[j]))
      ensures NoDup(vs) && x !in vs ==> rest[j] != vs[0]
    {
      if rest[j] != x {
        var k :| 0 <= k < |vs[1..]| && vs[1..][k] == rest[j];
        assert vs[k + 1] == rest[j];
      }
    }
  }

  /** Stable insertion sort by `rank`. */
  function SortByRank<V(==)>(vs: seq<V>, rank: V -> string): (r: seq<V>)
    ensures SortedBy(r, rank)
    ensures multiset(r) == multiset(vs)
    ensures NoDup(vs) ==> NoDup(r)
    decreases |vs|
  {
    if |vs| == 0 then []
    else
      var n := |vs| - 1;
      var p := vs[..n];
      var sp := SortByRank(p, rank);
      assert vs == p + [vs[n]];
      assert NoDup(vs) ==> NoDup(p) && vs[n] !in sp by {
        if NoDup(vs) {
          assert vs[n] !in p;
          assert vs[n] !in multiset(p);
        }
      }
      InsertByRank(vs[n], sp, rank)
  }

  /** The distinct values of the entries, ordered by `rank` (first-seen order among equal keys). */
  function SortedValues<V(==)>(es: seq<Entry<V>>, rank: V -> string): (r: seq<V>)
    ensures NoDup(r)
    ensures SortedBy(r, rank)
    ensures forall j :: 0 <= j < |es| ==> es[j].value in r
    ensures forall i :: 0 <= i < |r| ==> r[i] in Values(es)
  {
    var d := Dedup(Values(es));
    var r := SortByRank(d, rank);
    assert forall j :: 0 <= j < |es| ==> es[j].value in r by {
      forall j | 0 <= j < |es|
        ensures es[j].value in r
      {
        assert Values(es)[j] == es[j].value;
        assert es[j].value in multiset(d);
      }
    }
    assert forall i :: 0 <= i < |r| ==> r[i] in Values(es) by {
      forall i | 0 <= i < |r|
        ensures r[i] in Values(es)
      {
        assert r[i] in multiset(r);
        assert r[i] in d;
      }
    }
    r
  }

  /** The keys of the entries whose value is `v`, in input order. */
  function KeysWith<V(==)>(es: seq<Entry<V>>, v: V): (r: seq<Key>)
    ensures forall m :: 0 <= m < |r| ==> r[m] in Keys(es)
    ensures forall j :: 0 <= j < |es| && es[j].value == v ==> es[j].key in r
    ensures DistinctKeys(es) ==> forall j :: 0 <= j < |es| && es[j].key in r ==> es[j].value == v
    ensures DistinctKeys(es) ==> NoDup(r)
  {
    if |es| == 0 then []
    else
      var rest := KeysWith(es[1..], v);
      assert forall m :: 0 <= m < |rest| ==> rest[m] in Keys(es) by {
        forall m | 0 <= m < |rest|
          ensures rest[m] in Keys(es)
        {
          var q :| 0 <= q < |es[1..]| && Keys(es[1..])[q] == rest[m];
          assert Keys(es)[q + 1] == rest[m];
        }
      }
      assert Keys(es)[0] == es[0].key;
      assert forall j :: 1 <= j < |es| ==> es[j] == es[1..][j - 1];
      (if es[0].value == v then [es[0].key] else []) + rest
  }

  /** Groups the entries into classes of equal values, ordered by the classes' sort keys. */
  function Partition<V(==)>(es: seq<Entry<V>>, rank: V -> string): (cs: seq<Class<V>>)
    ensures |cs| == 0 <==> |es| == 0
    ensures NoDup(ClassValues(cs))
    ensures SortedBy(ClassValues(cs), rank)
    ensures forall i :: 0 <= i < |cs| ==> |cs[i].members| > 0
    ensures forall j :: 0 <= j < |es| ==> es[j].value in ClassValues(cs)
    ensures forall i :: 0 <= i < |cs| ==> cs[i].value in Values(es)
    ensures DistinctKeys(es) ==>
      forall i, j :: 0 <= i < |cs| && 0 <= j < |es| ==> (es[j].key in cs[i].members <==> cs[i].value == es[j].value)
    ensures forall i, m :: 0 <= i < |cs| && 0 <= m < |cs[i].members| ==> cs[i].members[m] in Keys(es)
    ensures DistinctKeys(es) ==> forall i :: 0 <= i < |cs| ==> NoDup(cs[i].members)
  {
    var vs := SortedValues(es, rank);
    var cs := seq(|vs|, i requires 0 <= i < |vs| => Class(vs[i], KeysWith(es, vs[i])));
    PartitionFacts(es, rank, vs, cs);
    cs
  }

  /** The facts `Partition` promises, from those of its sorted values and its classes. */
  lemma {:induction false} PartitionFacts<V>(es: seq<Entry<V>>, rank: V -> string, vs: seq<V>, cs: seq<Class<V>>)
    requires NoDup(vs) && SortedBy(vs, rank)
    requires forall j :: 0 <= j < |es| ==> es[j].value in vs
    requires forall i :: 0 <= i < |vs| ==> vs[i] in Values(es)
    requires |cs| == |vs| && forall i :: 0 <= i < |cs| ==> cs[i] == Class(vs[i], KeysWith(es, vs[i]))
    ensures |cs| == 0 <==> |es| == 0
    ensures NoDup(ClassValues(cs))
    ensures SortedBy(ClassValues(cs), rank)
    ensures forall i :: 0 <= i < |cs| ==> |cs[i].members| > 0
    ensures forall j :: 0 <= j < |es| ==> es[j].value in ClassValues(cs)
    ensures forall i :: 0 <= i < |cs| ==> cs[i].value in Values(es)
    ensures DistinctKeys(es) ==>
      forall i, j :: 0 <= i < |cs| && 0 <= j < |es| ==> (es[j].key in cs[i].members <==> cs[i].value == es[j].value)
    ensures forall i, m :: 0 <= i < |cs| && 0 <= m < |cs[i].members| ==> cs[i].members[m] in Keys(es)
    ensures DistinctKeys(es) ==> forall i :: 0 <= i < |cs| ==> NoDup(cs[i].members)
  {
    assert ClassValues(cs) == vs;
    SameEmptiness(es, vs);
    ClassesFromEntries(es, cs);
  }

  /** Values drawn from the entries, covering all of them, are empty exactly when the entries are. */
  lemma {:induction false} SameEmptiness<V>(es: seq<Entry<V>>, vs: seq<V>)
    requires forall j :: 0 <= j < |es| ==> es[j].value in vs
    requires forall i :: 0 <= i < |vs| ==> vs[i] in Values(es)
    ensures |vs| == 0 <==> |es| == 0
  {
    if |es| != 0 {
      assert es[0].value in vs;
    }
    if |vs| != 0 {
      assert |Values(es)| != 0 by {
        assert vs[0] in Values(es);
      }
    }
  }

  /**
   * Classes whose members are the keys carrying their values, for values
   * drawn from the entries, are inhabited, and with distinct keys a key is a
   * member exactly when its entry has the class's value.
   */
  lemma {:induction false} ClassesFromEntries<V>(es: seq<Entry<V>>, cs: seq<Class<V>>)
    requires forall i :: 0 <= i < |cs| ==> cs[i].members == KeysWith(es, cs[i].value) && cs[i].value in Values(es)
    ensures forall i :: 0 <= i < |cs| ==> |cs[i].members| > 0
    ensures DistinctKeys(es) ==>
      forall i, j :: 0 <= i < |cs| && 0 <= j < |es| ==> (es[j].key in cs[i].members <==> cs[i].value == es[j].value)
    ensures forall i, m :: 0 <= i < |cs| && 0 <= m < |cs[i].members| ==> cs[i].members[m] in Keys(es)
    ensures DistinctKeys(es) ==> forall i :: 0 <= i < |cs| ==> NoDup(cs[i].members)
  {
    forall i | 0 <= i < |cs|
      ensures |cs[i].members| > 0
    {
      var j :| 0 <= j < |Values(es)| && Values(es)[j] == cs[i].value;
      assert es[j].key in cs[i].members;
    }
  }

}
