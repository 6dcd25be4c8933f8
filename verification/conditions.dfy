/**
 * Branch conditions over `ctx.attr.cpu` and `ctx.attr.compiler`. A condition is
 * an or-joined list of terms; each term tests the cpu alone or the cpu and the
 * compiler together.
 */
module Conditions {
  import opened Base
  import opened Records

  datatype Term =
    | CpuIs(cpu: string)                          // ctx.attr.cpu == "<cpu>"
    | CpuAndCompiler(cpu: string, compiler: string) // ctx.attr.cpu == "<cpu>" and ctx.attr.compiler == "<compiler>"

  /** The terms of one branch condition, joined with `or`. */
  type Condition = seq<Term>

  predicate TermHolds(t: Term, k: Key) {
    match t
    case CpuIs(c) => k.cpu == c
    case CpuAndCompiler(c, d) => k.cpu == c && k.compiler == d
  }

  predicate Holds(c: Condition, k: Key) {
    exists i :: 0 <= i < |c| && TermHolds(c[i], k)
  }

  /** Every key of `universe` with this cpu is a member: the cpu alone picks out the class. */
  predicate CpuSettled(cpu: string, members: seq<Key>, universe: seq<Key>) {
    forall u :: u in universe && u.cpu == cpu ==> u in members
  }

  /** The term for one member key: the compiler test is dropped when the cpu is settled. */
  function TermFor(m: Key, members: seq<Key>, universe: seq<Key>): Term {
    if CpuSettled(m.cpu, members, universe) then CpuIs(m.cpu) else CpuAndCompiler(m.cpu, m.compiler)
  }

  function MemberTerms(members: seq<Key>, universe: seq<Key>): seq<Term> {
    seq(|members|, i requires 0 <= i < |members| => TermFor(members[i], members, universe))
  }

  /**
   * The condition of one class: one term per member, in member order, with
   * repeated terms written once. Within the universe it holds exactly at the
   * class's members.
   */
  function ClassCondition(members: seq<Key>, universe: seq<Key>): (c: Condition)
    ensures NoDup(c)
    ensures forall k :: k in universe ==> (Holds(c, k) <==> k in members)
  {
    var ts := MemberTerms(members, universe);
    forall k | k in universe
      ensures Holds(Dedup(ts), k) <==> k in members
    {
      TermsHoldAtMembers(members, universe, k);
    }
    Dedup(ts)
  }

  /** Each member key satisfies the condition built from the member terms. */
  lemma {:induction false} TermsHoldAtMembers(members: seq<Key>, universe: seq<Key>, k: Key)
    requires k in universe
    ensures Holds(Dedup(MemberTerms(members, universe)), k) <==> k in members
  {
    if k in members {
      MemberSatisfies(members, universe, k);
    }
    if Holds(Dedup(MemberTerms(members, universe)), k) {
      SatisfierIsMember(members, universe, k);
    }
  }

  lemma {:induction false} MemberSatisfies(members: seq<Key>, universe: seq<Key>, k: Key)
    requires k in members
    ensures Holds(Dedup(MemberTerms(members, universe)), k)
  {
    var ts := MemberTerms(members, universe);
    var c := Dedup(ts);
    var i :| 0 <= i < |members| && members[i] == k;
    assert TermHolds(ts[i], k);
    var p :| 0 <= p < |c| && c[p] == ts[i];
  }

  lemma {:induction false} SatisfierIsMember(members: seq<Key>, universe: seq<Key>, k: Key)
    requires k in universe && Holds(Dedup(MemberTerms(members, universe)), k)
    ensures k in members
  {
    var ts := MemberTerms(members, universe);
    var c := Dedup(ts);
    var p :| 0 <= p < |c| && TermHolds(c[p], k);
    var i :| 0 <= i < |ts| && ts[i] == c[p];
    assert members[i].cpu == k.cpu;
    if CpuSettled(members[i].cpu, members, universe) {
      assert k in members;
    } else {
      assert ts[i] == CpuAndCompiler(members[i].cpu, members[i].compiler);
      assert k == members[i];
    }
  }

  /**
   * The compiler-qualifier rule: a class's condition has the bare term for a cpu
   * iff some member has that cpu and no universe key with that cpu lies outside
   * the class; otherwise it tests cpu and compiler for each member.
   */
  lemma {:induction false} QualifierRule(members: seq<Key>, universe: seq<Key>, cpu: string, compiler: string)
    ensures CpuIs(cpu) in ClassCondition(members, universe) <==>
      (exists i :: 0 <= i < |members| && members[i].cpu == cpu) && CpuSettled(cpu, members, universe)
    ensures CpuAndCompiler(cpu, compiler) in ClassCondition(members, universe) <==>
      Key(cpu, compiler) in members && !CpuSettled(cpu, members, universe)
  {
    var ts := MemberTerms(members, universe);
    var c := ClassCondition(members, universe);
    if CpuIs(cpu) in c {
      var i :| 0 <= i < |ts| && ts[i] == CpuIs(cpu);
      assert members[i].cpu == cpu;
    }
    if (exists i :: 0 <= i < |members| && members[i].cpu == cpu) && CpuSettled(cpu, members, universe) {
      var i :| 0 <= i < |members| && members[i].cpu == cpu;
      assert ts[i] == CpuIs(cpu);
    }
    if CpuAndCompiler(cpu, compiler) in c {
      var i :| 0 <= i < |ts| && ts[i] == CpuAndCompiler(cpu, compiler);
      assert members[i] == Key(cpu, compiler);
    }
    if Key(cpu, compiler) in members && !CpuSettled(cpu, members, universe) {
      var i :| 0 <= i < |members| && members[i] == Key(cpu, compiler);
      assert ts[i] == CpuAndCompiler(cpu, compiler);
    }
  }
}
