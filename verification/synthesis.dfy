/**
 * The condition synthesizer: from the classes of one field it builds either an
 * unconditional assignment or an `if`/`elif` chain, optionally closed by
 * `else: fail("Unreachable")`, and it gives that structure its meaning at a key.
 */
module Synthesis {
  import opened Base
  import Lex
  import opened Records
  import opened Partitioner
  import opened Conditions

  /** One `if`/`elif` branch: `<field> = <value>` under `cond`. */
  datatype Arm<V> = Arm(cond: Condition, value: V)

  datatype Chain<V> =
    | Omitted                                   // nothing is emitted (no entries at all)
    | Assign(value: V)                          // `<field> = <value>` with no condition
    | IfChain(arms: seq<Arm<V>>, failElse: bool) // if/elif ..., with `else: fail("Unreachable")` iff failElse

  /** What running the generated statement does at a given (cpu, compiler). */
  datatype Outcome<V> = Assigned(value: V) | Unreachable | Unassigned

  function EvalArms<V>(arms: seq<Arm<V>>, failElse: bool, k: Key): Outcome<V> {
    if |arms| == 0 then (if failElse then Unreachable else Unassigned)
    else if Holds(arms[0].cond, k) then Assigned(arms[0].value)
    else EvalArms(arms[1..], failElse, k)
  }

  function Eval<V>(c: Chain<V>, k: Key): Outcome<V> {
    match c
    case Omitted => Unassigned
    case Assign(v) => Assigned(v)
    case IfChain(arms, failElse) => EvalArms(arms, failElse, k)
  }

  function ArmValues<V>(arms: seq<Arm<V>>): seq<V> {
    seq(|arms|, i requires 0 <= i < |arms| => arms[i].value)
  }

  function Arms<V>(cs: seq<Class<V>>, universe: seq<Key>): seq<Arm<V>> {
    seq(|cs|, i requires 0 <= i < |cs| => Arm(ClassCondition(cs[i].members, universe), cs[i].value))
  }

  /**
   * The statement for one field over the given entries. `failElse` is true for
   * top-level fields and false for the partial-presence merge of a hoisted
   * declaration.
   */
  function Synthesize<V(==)>(es: seq<Entry<V>>, rank: V -> string, failElse: bool): (c: Chain<V>)
    ensures c.Omitted? <==> |es| == 0
    ensures c.Assign? <==> |es| > 0 && forall j :: 0 <= j < |es| ==> es[j].value == es[0].value
    ensures c.Assign? ==> c.value == es[0].value
    ensures c.IfChain? ==> c.failElse == failElse && |c.arms| >= 2
    ensures c.IfChain? ==> c.arms == Arms(Partition(es, rank), Keys(es))
    ensures c.IfChain? ==> SortedBy(ArmValues(c.arms), rank) && NoDup(ArmValues(c.arms))
  {
    var cs := Partition(es, rank);
    OneClassIffUniform(es, rank);
    if |cs| == 0 then Omitted
    else if |cs| == 1 then Assign(cs[0].value)
    else
      var arms := Arms(cs, Keys(es));
      assert ArmValues(arms) == ClassValues(cs);
      IfChain(arms, failElse)
  }

  /** There is a single class exactly when all entries carry the same value, which is then the class's value. */
  lemma {:induction false} OneClassIffUniform<V>(es: seq<Entry<V>>, rank: V -> string)
    ensures |Partition(es, rank)| == 1 <==> |es| > 0 && forall j :: 0 <= j < |es| ==> es[j].value == es[0].value
    ensures |Partition(es, rank)| == 1 ==> Partition(es, rank)[0].value == es[0].value
  {
    var cs := Partition(es, rank);
    if |cs| == 1 {
      forall j | 0 <= j < |es|
        ensures es[j].value == cs[0].value
      {
        assert es[j].value in ClassValues(cs);
      }
    }
    if |es| > 0 && forall j :: 0 <= j < |es| ==> es[j].value == es[0].value {
      if |cs| >= 2 {
        assert ClassValues(cs)[0] != ClassValues(cs)[1];
        assert cs[0].value in Values(es) && cs[1].value in Values(es);
      }
    }
  }

  /** Evaluation takes the first arm whose condition holds. */
  lemma {:induction false} FirstHoldingArm<V>(arms: seq<Arm<V>>, failElse: bool, k: Key, p: nat)
    requires p < |arms| && Holds(arms[p].cond, k)
    requires forall i :: 0 <= i < p ==> !Holds(arms[i].cond, k)
    ensures EvalArms(arms, failElse, k) == Assigned(arms[p].value)
  {
    if p > 0 {
      FirstHoldingArm(arms[1..], failElse, k, p - 1);
    }
  }

  /**
   * The condition of a class's branch holds at an entry's key exactly when
   * the class's value is that entry's value, for a class whose members are
   * exactly the keys of the entries with its value.
   */
  lemma {:induction false} ArmsExact<V>(es: seq<Entry<V>>, cs: seq<Class<V>>, i: nat, j: nat)
    requires i < |cs| && j < |es|
    requires forall m :: 0 <= m < |es| ==> (es[m].key in cs[i].members <==> cs[i].value == es[m].value)
    ensures Holds(Arms(cs, Keys(es))[i].cond, es[j].key) <==> cs[i].value == es[j].value
  {
    var arm := Arms(cs, Keys(es))[i];
    assert arm == Arm(ClassCondition(cs[i].members, Keys(es)), cs[i].value);
    assert es[j].key == Keys(es)[j];
    assert Holds(arm.cond, es[j].key) <==> es[j].key in cs[i].members;
  }

  /**
   * The central correctness theorem: evaluating the synthesized statement at
   * any entry's key assigns exactly that entry's value.
   */
  lemma {:induction false} ChainCorrect<V>(es: seq<Entry<V>>, rank: V -> string, failElse: bool, j: nat)
    requires DistinctKeys(es)
    requires j < |es|
    ensures Eval(Synthesize(es, rank, failElse), es[j].key) == Assigned(es[j].value)
  {
    var c := Synthesize(es, rank, failElse);
    if c.IfChain? {
      var cs := Partition(es, rank);
      assert es[j].value in ClassValues(cs);
      var p :| 0 <= p < |cs| && ClassValues(cs)[p] == es[j].value;
      assert ArmValues(c.arms)[p] == es[j].value;
      forall i | 0 <= i < |c.arms|
        ensures Holds(c.arms[i].cond, es[j].key) <==> c.arms[i].value == es[j].value
      {
        ArmsExact(es, cs, i, j);
      }
      ExactArmsEval(c.arms, failElse, es[j].key, es[j].value);
    }
  }

  /**
   * An if/elif chain one of whose branches assigns `v`, and whose conditions
   * hold at `k` exactly for the branches assigning `v`, assigns `v` at `k`.
   */
  lemma {:induction false} ExactArmsEval<V>(arms: seq<Arm<V>>, failElse: bool, k: Key, v: V)
    requires v in ArmValues(arms)
    requires forall i :: 0 <= i < |arms| ==> (Holds(arms[i].cond, k) <==> arms[i].value == v)
    ensures EvalArms(arms, failElse, k) == Assigned(v)
    decreases |arms|
  {
    if !Holds(arms[0].cond, k) {
      assert arms[0].value != v;
      var p :| 0 <= p < |arms| && ArmValues(arms)[p] == v;
      assert ArmValues(arms[1..])[p - 1] == v;
      ExactArmsEval(arms[1..], failElse, k, v);
    }
  }

  /** `rank` separates the distinct values of the entries (as the rendered text does). */
  predicate RankInjective<V(==)>(es: seq<Entry<V>>, rank: V -> string) {
    forall i, j :: 0 <= i < |es| && 0 <= j < |es| && rank(es[i].value) == rank(es[j].value) ==> es[i].value == es[j].value
  }

  /**
   * Branch order is a function of the set of values, not of the input order:
   * two entry sequences with the same values yield the same branch values in
   * the same order.
   */
  lemma {:induction false} BranchOrderIndependentOfInputOrder<V>(es1: seq<Entry<V>>, es2: seq<Entry<V>>, rank: V -> string)
    requires RankInjective(es1, rank)
    requires forall i :: 0 <= i < |es1| ==> es1[i].value in Values(es2)
    requires forall i :: 0 <= i < |es2| ==> es2[i].value in Values(es1)
    ensures ClassValues(Partition(es1, rank)) == ClassValues(Partition(es2, rank))
  {
    var a := ClassValues(Partition(es1, rank));
    var b := ClassValues(Partition(es2, rank));
    ClassValuesIncluded(es1, es2, rank);
    ClassValuesIncluded(es2, es1, rank);
    RankSeparatesClasses(es1, rank);
    SortedUnique(a, b, rank);
  }

  /**
   * The statement is fixed by the entries' distinct values listed in sort-key
   * order: one arm per value, in that order, each guarded by the condition of
   * the keys that carry its value.
   */
  lemma {:induction false} ChainFromSortedValues<V>(es: seq<Entry<V>>, rank: V -> string, failElse: bool, vs: seq<V>)
    requires |vs| >= 2 && NoDup(vs) && SortedBy(vs, rank)
    requires forall i, j :: 0 <= i < |vs| && 0 <= j < |vs| && rank(vs[i]) == rank(vs[j]) ==> vs[i] == vs[j]
    requires forall j :: 0 <= j < |es| ==> es[j].value in vs
    requires forall i :: 0 <= i < |vs| ==> vs[i] in Values(es)
    ensures Synthesize(es, rank, failElse) ==
      IfChain(seq(|vs|, i requires 0 <= i < |vs| => Arm(ClassCondition(KeysWith(es, vs[i]), Keys(es)), vs[i])), failElse)
  {
    TwoValuesNotUniform(es, vs);
    ValuesFixSortedValues(es, rank, vs);
    var cs := Partition(es, rank);
    assert |cs| == |vs| && forall i :: 0 <= i < |vs| ==> cs[i] == Class(vs[i], KeysWith(es, vs[i]));
    ArmsOfClasses(es, vs, cs);
  }

  /** The arms of classes listed value by value are the arms of those values' keys. */
  lemma {:induction false} ArmsOfClasses<V>(es: seq<Entry<V>>, vs: seq<V>, cs: seq<Class<V>>)
    requires |cs| == |vs| && forall i :: 0 <= i < |vs| ==> cs[i] == Class(vs[i], KeysWith(es, vs[i]))
    ensures Arms(cs, Keys(es)) ==
      seq(|vs|, i requires 0 <= i < |vs| => Arm(ClassCondition(KeysWith(es, vs[i]), Keys(es)), vs[i]))
  {
    var arms := seq(|vs|, i requires 0 <= i < |vs| => Arm(ClassCondition(KeysWith(es, vs[i]), Keys(es)), vs[i]));
    forall i | 0 <= i < |vs|
      ensures Arms(cs, Keys(es))[i] == arms[i]
    {
      assert cs[i] == Class(vs[i], KeysWith(es, vs[i]));
    }
  }

  /** Entries carrying two distinct values do not all agree. */
  lemma {:induction false} TwoValuesNotUniform<V>(es: seq<Entry<V>>, vs: seq<V>)
    requires |vs| >= 2 && NoDup(vs)
    requires forall i :: 0 <= i < |vs| ==> vs[i] in Values(es)
    ensures |es| > 0 && exists j :: 0 <= j < |es| && es[j].value != es[0].value
  {
    assert vs[0] in Values(es) && vs[1] in Values(es) && |Values(es)| == |es|;
    var p :| 0 <= p < |es| && Values(es)[p] == vs[0];
    var q :| 0 <= q < |es| && Values(es)[q] == vs[1];
    assert vs[0] != vs[1];
    if es[p].value == es[0].value {
      assert es[q].value != es[0].value;
    }
  }

  /** The sorted distinct values of the entries are the given duplicate-free, sorted list of exactly those values. */
  lemma {:induction false} ValuesFixSortedValues<V>(es: seq<Entry<V>>, rank: V -> string, vs: seq<V>)
    requires NoDup(vs) && SortedBy(vs, rank)
    requires forall i, j :: 0 <= i < |vs| && 0 <= j < |vs| && rank(vs[i]) == rank(vs[j]) ==> vs[i] == vs[j]
    requires forall j :: 0 <= j < |es| ==> es[j].value in vs
    requires forall i :: 0 <= i < |vs| ==> vs[i] in Values(es)
    ensures SortedValues(es, rank) == vs
  {
    var r := SortedValues(es, rank);
    forall i | 0 <= i < |vs|
      ensures vs[i] in r
    {
      var j :| 0 <= j < |es| && Values(es)[j] == vs[i];
      assert es[j].value in r;
    }
    forall i | 0 <= i < |r|
      ensures r[i] in vs
    {
      var j :| 0 <= j < |es| && Values(es)[j] == r[i];
      assert es[j].value in vs;
    }
    SortedUnique(vs, r, rank);
  }

  lemma {:induction false} RankSeparatesClasses<V>(es: seq<Entry<V>>, rank: V -> string)
    requires RankInjective(es, rank)
    ensures forall i, j ::
      (0 <= i < |Partition(es, rank)| && 0 <= j < |Partition(es, rank)| &&
       rank(ClassValues(Partition(es, rank))[i]) == rank(ClassValues(Partition(es, rank))[j])) ==>
        ClassValues(Partition(es, rank))[i] == ClassValues(Partition(es, rank))[j]
  {
    var cs := Partition(es, rank);
    var a := ClassValues(cs);
    forall i, j | 0 <= i < |a| && 0 <= j < |a| && rank(a[i]) == rank(a[j])
      ensures a[i] == a[j]
    {
      assert cs[i].value in Values(es) && cs[j].value in Values(es);
      var p :| 0 <= p < |es| && Values(es)[p] == a[i];
      var q :| 0 <= q < |es| && Values(es)[q] == a[j];
      assert rank(es[p].value) == rank(es[q].value);
    }
  }

  lemma {:induction false} ClassValuesIncluded<V>(es1: seq<Entry<V>>, es2: seq<Entry<V>>, rank: V -> string)
    requires forall i :: 0 <= i < |es1| ==> es1[i].value in Values(es2)
    ensures forall i :: 0 <= i < |Partition(es1, rank)| ==>
      ClassValues(Partition(es1, rank))[i] in ClassValues(Partition(es2, rank))
  {
    var a := ClassValues(Partition(es1, rank));
    var b := ClassValues(Partition(es2, rank));
    forall i | 0 <= i < |a|
      ensures a[i] in b
    {
      assert Partition(es1, rank)[i].value in Values(es1);
      var p :| 0 <= p < |es1| && Values(es1)[p] == a[i];
      assert es1[p].value in Values(es2);
      var q :| 0 <= q < |es2| && Values(es2)[q] == a[i];
      assert es2[q].value in b;
    }
  }

  /** Two duplicate-free sequences sorted by a key that separates their elements, with the same elements, are equal. */
  lemma {:induction false} SortedUnique<V>(a: seq<V>, b: seq<V>, rank: V -> string)
    requires NoDup(a) && NoDup(b) && SortedBy(a, rank) && SortedBy(b, rank)
    requires forall i :: 0 <= i < |a| ==> a[i] in b
    requires forall i :: 0 <= i < |b| ==> b[i] in a
    requires forall i, j :: 0 <= i < |a| && 0 <= j < |a| && rank(a[i]) == rank(a[j]) ==> a[i] == a[j]
    ensures a == b
    decreases |a|
  {
    if |a| > 0 {
      assert |b| > 0 by {
        assert a[0] in b;
      }
      assert a[0] == b[0] by {
        HeadsEqual(a, b, rank);
      }
      assert a[1..] == b[1..] by {
        TailsSameElements(a, b);
        TailKeepsOrder(a, rank);
        TailKeepsOrder(b, rank);
        SortedUnique(a[1..], b[1..], rank);
      }
      assert a == [a[0]] + a[1..] && b == [b[0]] + b[1..];
    } else {
      CoveredByEmpty(a, b);
    }
  }

  /** A sequence whose elements all occur in an empty one is empty. */
  lemma {:induction false} CoveredByEmpty<V>(a: seq<V>, b: seq<V>)
    requires forall i :: 0 <= i < |b| ==> b[i] in a
    ensures |a| == 0 ==> |b| == 0
  {
    if |b| > 0 {
      assert b[0] in a;
    }
  }

  /** Dropping the head keeps a sequence duplicate-free, sorted and separated by its key. */
  lemma {:induction false} TailKeepsOrder<V>(a: seq<V>, rank: V -> string)
    requires |a| > 0 && NoDup(a) && SortedBy(a, rank)
    requires forall i, j :: 0 <= i < |a| && 0 <= j < |a| && rank(a[i]) == rank(a[j]) ==> a[i] == a[j]
    ensures NoDup(a[1..]) && SortedBy(a[1..], rank)
    ensures forall i, j :: 0 <= i < |a[1..]| && 0 <= j < |a[1..]| && rank(a[1..][i]) == rank(a[1..][j]) ==> a[1..][i] == a[1..][j]
  {
    var t := a[1..];
    assert forall i :: 0 <= i < |t| ==> t[i] == a[i + 1];
  }

  lemma {:induction false} HeadsEqual<V>(a: seq<V>, b: seq<V>, rank: V -> string)
    requires |a| > 0 && |b| > 0 && SortedBy(a, rank) && SortedBy(b, rank)
    requires a[0] in b && b[0] in a
    requires forall i, j :: 0 <= i < |a| && 0 <= j < |a| && rank(a[i]) == rank(a[j]) ==> a[i] == a[j]
    ensures a[0] == b[0]
  {
    var k :| 0 <= k < |b| && b[k] == a[0];
    var m :| 0 <= m < |a| && a[m] == b[0];
    var ra, rb := rank(a[0]), rank(b[0]);
    assert Lex.Le(ra, rb) by {
      if m > 0 {
        assert Lex.Le(rank(a[0]), rank(a[m]));
      } else {
        Lex.LeReflexive(ra);
      }
    }
    assert Lex.Le(rb, ra) by {
      if k > 0 {
        assert Lex.Le(rank(b[0]), rank(b[k]));
      } else {
        Lex.LeReflexive(rb);
      }
    }
    Lex.LeAntisymmetric(ra, rb);
    assert rank(a[0]) == rank(a[m]);
  }

  lemma {:induction false} TailsSameElements<V>(a: seq<V>, b: seq<V>)
    requires |a| > 0 && |b| > 0 && a[0] == b[0] && NoDup(a) && NoDup(b)
    requires forall i :: 0 <= i < |a| ==> a[i] in b
    requires forall i :: 0 <= i < |b| ==> b[i] in a
    ensures forall i :: 0 <= i < |a[1..]| ==> a[1..][i] in b[1..]
    ensures forall i :: 0 <= i < |b[1..]| ==> b[1..][i] in a[1..]
  {
    forall i | 0 <= i < |a[1..]|
      ensures a[1..][i] in b[1..]
    {
      assert a[i + 1] in b;
      var q :| 0 <= q < |b| && b[q] == a[i + 1];
      assert q != 0;
      assert b[1..][q - 1] == a[i + 1];
    }
    forall i | 0 <= i < |b[1..]|
      ensures b[1..][i] in a[1..]
    {
      assert b[i + 1] in a;
      var q :| 0 <= q < |a| && a[q] == b[i + 1];
      assert q != 0;
      assert a[1..][q - 1] == b[i + 1];
    }
  }
}
