/**
 * The generated statements of the transform's fixtures, computed from the
 * model: the same toolchains, the same branch order and the same conditions
 * as the expected Starlark text.
 */
module FixtureChains {
  import opened Base
  import opened Records
  import opened Starlark
  import opened Partitioner
  import opened Conditions
  import opened Synthesis
  import Lex
  import Fixtures
  import M = Migration
  import H = Hoist
  import R = Render

  /** Joins strings with a separator. */
  function Join(xs: seq<string>, sep: string): string {
    if |xs| == 0 then "" else if |xs| == 1 then xs[0] else xs[0] + sep + Join(xs[1..], sep)
  }

  /** One-line Starlark text of an expression. */
  function Text(e: Expr): string {
    match e
    case Str(s) => "\"" + s + "\""
    case NoneLit => "None"
    case BoolLit(b) => if b then "True" else "False"
    case Ident(n) => n
    case ListOf(items) => "[" + Join(seq(|items|, i requires 0 <= i < |items| => Text(items[i])), ", ") + "]"
    case Call(callee, args) =>
      callee + "(" + Join(seq(|args|, i requires 0 <= i < |args| => args[i].name + " = " + Text(args[i].value)), ", ") + ")"
  }

  /** The guard of one of two toolchains: the cpu alone unless both share it. */
  function Guard<V>(es: seq<Entry<V>>, i: nat): Term
    requires |es| == 2 && i < 2
  {
    if es[0].key.cpu == es[1].key.cpu then CpuAndCompiler(es[i].key.cpu, es[i].key.compiler) else CpuIs(es[i].key.cpu)
  }

  /** Two toolchains with different values give one arm each, the lower sort key first. */
  lemma {:induction false} TwoEntryChain<V>(es: seq<Entry<V>>, rank: V -> string, failElse: bool, lo: nat)
    requires |es| == 2 && lo < 2 && es[0].key != es[1].key
    requires !Lex.Le(rank(es[1 - lo].value), rank(es[lo].value))
    ensures Synthesize(es, rank, failElse) ==
      IfChain([Arm([Guard(es, lo)], es[lo].value), Arm([Guard(es, 1 - lo)], es[1 - lo].value)], failElse)
  {
    var hi := 1 - lo;
    var vs := [es[lo].value, es[hi].value];
    Lex.LeReflexive(rank(es[lo].value));
    Lex.LeTotal(rank(es[lo].value), rank(es[hi].value));
    assert Values(es) == [es[0].value, es[1].value];
    ChainFromSortedValues(es, rank, failElse, vs);
    PairArms(es, lo);
  }

  lemma {:induction false} PairArms<V>(es: seq<Entry<V>>, lo: nat)
    requires |es| == 2 && lo < 2 && es[0].key != es[1].key && es[0].value != es[1].value
    ensures var vs := [es[lo].value, es[1 - lo].value];
      seq(|vs|, i requires 0 <= i < |vs| => Arm(ClassCondition(KeysWith(es, vs[i]), Keys(es)), vs[i])) ==
      [Arm([Guard(es, lo)], es[lo].value), Arm([Guard(es, 1 - lo)], es[1 - lo].value)]
  {
    OwnKeys(es, lo);
    OwnKeys(es, 1 - lo);
  }

  /** With two different values, each value's class is its own toolchain, guarded by `Guard`. */
  lemma {:induction false} OwnKeys<V>(es: seq<Entry<V>>, i: nat)
    requires |es| == 2 && i < 2 && es[0].key != es[1].key && es[0].value != es[1].value
    ensures KeysWith(es, es[i].value) == [es[i].key]
    ensures ClassCondition([es[i].key], Keys(es)) == [Guard(es, i)]
  {
    assert KeysWith(es[1..][1..], es[i].value) == [];
    assert KeysWith(es[1..], es[i].value) == if i == 1 then [es[1].key] else [];
    var universe := Keys(es);
    assert universe == [es[0].key, es[1].key];
    var k := es[i].key;
    assert CpuSettled(k.cpu, [k], universe) <==> es[0].key.cpu != es[1].key.cpu;
    assert MemberTerms([k], universe) == [Guard(es, i)];
    assert Dedup([Guard(es, i)]) == [Guard(es, i)] by {
      assert [Guard(es, i)][..0] == [];
    }
  }

  /**
   * A sort key that orders the branches of every fixture below as the expected
   * text does: a string by its text, a list of strings or references by its
   * items joined with spaces (so a list sorts before its extensions), anything
   * else by its one-line Starlark text.
   */
  function Rank(e: Expr): string {
    match e
    case Str(s) => s
    case ListOf(items) =>
      if Flat(items) then Join(seq(|items|, i requires 0 <= i < |items| => Word(items[i])), " ") else Text(e)
    case _ => Text(e)
  }

  predicate Flat(items: seq<Expr>) {
    forall i :: 0 <= i < |items| ==> items[i].Str? || items[i].Ident?
  }

  function Word(e: Expr): string {
    match e
    case Str(s) => s
    case Ident(n) => n
    case _ => Text(e)
  }

  /** The orders between the fixtures' sort keys, each decided at the first differing character. */
  lemma {:induction false} DigitOrder()
    ensures !Lex.Le("2", "1")
  {
    Lex.FirstDifferenceDecides("1", "2", 0);
  }

  lemma {:induction false} CompilerOrder()
    ensures !Lex.Le("compilerB", "compilerA")
  {
    Lex.FirstDifferenceDecides("compilerA", "compilerB", 8);
  }

  lemma {:induction false} CpuOrder()
    ensures !Lex.Le("cpuB", "cpuA")
  {
    Lex.FirstDifferenceDecides("cpuA", "cpuB", 3);
  }

  /** `None` sorts before lower-case text: 'N' is below 'o'. */
  lemma {:induction false} NoneOrder()
    ensures !Lex.Le("osA", "None")
  {
    Lex.FirstDifferenceDecides("None", "osA", 0);
  }

  /** A fixture toolchain: the given identifier, cpu and compiler, and the shared defaults. */
  function CToolchain(id: string, cpu: string, compiler: string): Toolchain {
    Toolchain(id, "host", "target", cpu, compiler, "libc", "version", "libc_version", None, None, [], [], [], [], [], [])
  }

  /** Two toolchains that agree on a value give an unconditional assignment of it. */
  lemma {:induction false} AgreeingPair<V>(k1: Key, k2: Key, v: V, rank: V -> string, failElse: bool)
    ensures Synthesize([Entry(k1, v), Entry(k2, v)], rank, failElse) == Assign(v)
  {
    var es := [Entry(k1, v), Entry(k2, v)];
    assert forall j :: 0 <= j < |es| ==> es[j].value == es[0].value;
  }

  function SameCpu(): seq<Toolchain> {
    [CToolchain("1", "cpuA", "compilerA"), CToolchain("2", "cpuA", "compilerB")]
  }

  lemma {:induction false} SameCpuEntries()
    ensures M.FieldEntries(SameCpu(), M.ToolchainIdentifier, Fixtures.Known) ==
      [Entry(Key("cpuA", "compilerA"), Str("1")), Entry(Key("cpuA", "compilerB"), Str("2"))]
    ensures M.FieldEntries(SameCpu(), M.Compiler, Fixtures.Known) ==
      [Entry(Key("cpuA", "compilerA"), Str("compilerA")), Entry(Key("cpuA", "compilerB"), Str("compilerB"))]
    ensures M.FieldEntries(SameCpu(), M.HostSystemName, Fixtures.Known) ==
      [Entry(Key("cpuA", "compilerA"), Str("host")), Entry(Key("cpuA", "compilerB"), Str("host"))]
  {
  }

  /** test 168-173: two toolchains on one cpu, so each branch tests cpu and compiler. */
  lemma {:induction false} SameCpuIdentifier()
    ensures M.Statement(SameCpu(), Fixtures.Known, Rank, M.ToolchainIdentifier) == IfChain([
      Arm([CpuAndCompiler("cpuA", "compilerA")], Str("1")),
      Arm([CpuAndCompiler("cpuA", "compilerB")], Str("2"))], true)
  {
    SameCpuEntries();
    DigitOrder();
    TwoEntryChain([Entry(Key("cpuA", "compilerA"), Str("1")), Entry(Key("cpuA", "compilerB"), Str("2"))], Rank, true, 0);
  }

  /** test 188-193: the compilers differ too, and are guarded the same way. */
  lemma {:induction false} SameCpuCompiler()
    ensures M.Statement(SameCpu(), Fixtures.Known, Rank, M.Compiler) == IfChain([
      Arm([CpuAndCompiler("cpuA", "compilerA")], Str("compilerA")),
      Arm([CpuAndCompiler("cpuA", "compilerB")], Str("compilerB"))], true)
  {
    SameCpuEntries();
    CompilerOrder();
    TwoEntryChain([Entry(Key("cpuA", "compilerA"), Str("compilerA")), Entry(Key("cpuA", "compilerB"), Str("compilerB"))], Rank, true, 0);
  }

  /** test 176: the host name both toolchains share is assigned without a condition. */
  lemma {:induction false} SameCpuHost()
    ensures M.Statement(SameCpu(), Fixtures.Known, Rank, M.HostSystemName) == Assign(Str("host"))
  {
    SameCpuEntries();
    AgreeingPair(Key("cpuA", "compilerA"), Key("cpuA", "compilerB"), Str("host"), Rank, true);
  }

  function SameCompiler(): seq<Toolchain> {
    [CToolchain("1", "cpuA", "compilerA"), CToolchain("2", "cpuB", "compilerA")]
  }

  lemma {:induction false} SameCompilerEntries()
    ensures M.FieldEntries(SameCompiler(), M.ToolchainIdentifier, Fixtures.Known) ==
      [Entry(Key("cpuA", "compilerA"), Str("1")), Entry(Key("cpuB", "compilerA"), Str("2"))]
    ensures M.FieldEntries(SameCompiler(), M.TargetCpu, Fixtures.Known) ==
      [Entry(Key("cpuA", "compilerA"), Str("cpuA")), Entry(Key("cpuB", "compilerA"), Str("cpuB"))]
    ensures M.FieldEntries(SameCompiler(), M.Compiler, Fixtures.Known) ==
      [Entry(Key("cpuA", "compilerA"), Str("compilerA")), Entry(Key("cpuB", "compilerA"), Str("compilerA"))]
  {
  }

  /** test 232-237: two toolchains on different cpus, so the cpu alone guards each branch. */
  lemma {:induction false} SameCompilerIdentifier()
    ensures M.Statement(SameCompiler(), Fixtures.Known, Rank, M.ToolchainIdentifier) == IfChain([
      Arm([CpuIs("cpuA")], Str("1")),
      Arm([CpuIs("cpuB")], Str("2"))], true)
  {
    SameCompilerEntries();
    DigitOrder();
    TwoEntryChain([Entry(Key("cpuA", "compilerA"), Str("1")), Entry(Key("cpuB", "compilerA"), Str("2"))], Rank, true, 0);
  }

  /** test 240-245: the cpus themselves differ, guarded by cpu alone. */
  lemma {:induction false} SameCompilerCpu()
    ensures M.Statement(SameCompiler(), Fixtures.Known, Rank, M.TargetCpu) == IfChain([
      Arm([CpuIs("cpuA")], Str("cpuA")),
      Arm([CpuIs("cpuB")], Str("cpuB"))], true)
  {
    SameCompilerEntries();
    CpuOrder();
    TwoEntryChain([Entry(Key("cpuA", "compilerA"), Str("cpuA")), Entry(Key("cpuB", "compilerA"), Str("cpuB"))], Rank, true, 0);
  }

  /** test 248: the shared compiler is assigned without a condition. */
  lemma {:induction false} SameCompilerCompiler()
    ensures M.Statement(SameCompiler(), Fixtures.Known, Rank, M.Compiler) == Assign(Str("compilerA"))
  {
    SameCompilerEntries();
    AgreeingPair(Key("cpuA", "compilerA"), Key("cpuB", "compilerA"), Str("compilerA"), Rank, true);
  }

  function NonMandatory(): seq<Toolchain> {
    [CToolchain("1", "cpuA", "compilerA").(ccTargetOs := Some("osA")), CToolchain("2", "cpuB", "compilerB")]
  }

  lemma {:induction false} NonMandatoryEntries()
    ensures M.FieldEntries(NonMandatory(), M.CcTargetOs, Fixtures.Known) ==
      [Entry(Key("cpuA", "compilerA"), Str("osA")), Entry(Key("cpuB", "compilerB"), NoneLit)]
    ensures M.FieldEntries(NonMandatory(), M.BuiltinSysroot, Fixtures.Known) ==
      [Entry(Key("cpuA", "compilerA"), NoneLit), Entry(Key("cpuB", "compilerB"), NoneLit)]
  {
  }

  /** test 281-286: an absent `cc_target_os` is `None`, a class of its own that sorts before `"osA"`. */
  lemma {:induction false} NonMandatoryTargetOs()
    ensures M.Statement(NonMandatory(), Fixtures.Known, Rank, M.CcTargetOs) == IfChain([
      Arm([CpuIs("cpuB")], NoneLit),
      Arm([CpuIs("cpuA")], Str("osA"))], true)
  {
    NonMandatoryEntries();
    NoneOrder();
    assert Rank(NoneLit) == "None";
    TwoEntryChain([Entry(Key("cpuA", "compilerA"), Str("osA")), Entry(Key("cpuB", "compilerB"), NoneLit)], Rank, true, 1);
  }

  /** test 289: a `builtin_sysroot` no toolchain sets is `None` without a condition. */
  lemma {:induction false} NonMandatorySysroot()
    ensures M.Statement(NonMandatory(), Fixtures.Known, Rank, M.BuiltinSysroot) == Assign(NoneLit)
  {
    NonMandatoryEntries();
    AgreeingPair(Key("cpuA", "compilerA"), Key("cpuB", "compilerB"), NoneLit, Rank, true);
  }

  /** The sort keys of the include-directory lists: the directories joined with spaces. */
  lemma {:induction false} DirectoryRanks()
    ensures Rank(Strings([])) == ""
    ensures Rank(Strings(["dirC"])) == "dirC"
    ensures Rank(Strings(["dirC", "dirB"])) == "dirC dirB"
  {
    var one := Strings(["dirC"]).items;
    assert one == [Str("dirC")];
    assert Flat(one);
    assert seq(|one|, i requires 0 <= i < |one| => Word(one[i])) == ["dirC"];
    var two := Strings(["dirC", "dirB"]).items;
    assert two == [Str("dirC"), Str("dirB")];
    assert Flat(two);
    var words := seq(|two|, i requires 0 <= i < |two| => Word(two[i]));
    assert words == ["dirC", "dirB"];
    assert Join(words[1..], " ") == "dirB";
  }

  /** A list of directories sorts before its extension. */
  lemma {:induction false} DirectoryOrder()
    ensures Lex.Le("", "dirC") && Lex.Le("", "dirC dirB") && Lex.Le("dirC", "dirC dirB")
    ensures !Lex.Le("dirC", "") && !Lex.Le("dirC dirB", "") && !Lex.Le("dirC dirB", "dirC")
  {
    Lex.PrefixFirst("dirC", "dirC dirB");
  }

  function KA(): Key { Key("cpuA", "compilerA") }
  function KB(): Key { Key("cpuB", "compilerA") }
  function KCA(): Key { Key("cpuC", "compilerA") }
  function KCB(): Key { Key("cpuC", "compilerB") }
  function KD(): Key { Key("cpuD", "compilerA") }

  /** The include-directory entries of all five toolchains of the fixture. */
  function AllDirectories(): seq<Entry<Expr>> {
    Five(KA(), KB(), KCA(), KCB(), KD(), Strings([]), Strings(["dirC"]), Strings(["dirC", "dirB"]))
  }

  /** One step of `KeysWith`: the head entry's key, if it has the value, before the rest. */
  lemma {:induction false} KeysWithCons<V>(e: Entry<V>, rest: seq<Entry<V>>, v: V)
    ensures KeysWith([e] + rest, v) == (if e.value == v then [e.key] else []) + KeysWith(rest, v)
  {
    assert ([e] + rest)[1..] == rest;
  }

  /** The three include-directory lists of the fixture are distinct. */
  lemma {:induction false} DirectoriesDistinct()
    ensures Strings([]) != Strings(["dirC"]) && Strings([]) != Strings(["dirC", "dirB"])
    ensures Strings(["dirC"]) != Strings(["dirC", "dirB"])
  {
    assert |Strings(["dirC"]).items| == 1 && |Strings(["dirC", "dirB"]).items| == 2;
  }

  /** Five entries with values a, a, b, c, b. */
  function Five<V>(k1: Key, k2: Key, k3: Key, k4: Key, k5: Key, a: V, b: V, c: V): seq<Entry<V>> {
    [Entry(k1, a)] + ([Entry(k2, a)] + ([Entry(k3, b)] + ([Entry(k4, c)] + [Entry(k5, b)])))
  }

  /** The members of each class of `Five`, in entry order. */
  lemma {:induction false} FiveEntryClasses<V>(k1: Key, k2: Key, k3: Key, k4: Key, k5: Key, a: V, b: V, c: V)
    requires a != b && a != c && b != c
    ensures KeysWith(Five(k1, k2, k3, k4, k5, a, b, c), a) == [k1, k2]
    ensures KeysWith(Five(k1, k2, k3, k4, k5, a, b, c), b) == [k3, k5]
    ensures KeysWith(Five(k1, k2, k3, k4, k5, a, b, c), c) == [k4]
  {
    FiveEntryClass(k1, k2, k3, k4, k5, a, b, c, a);
    FiveEntryClass(k1, k2, k3, k4, k5, a, b, c, b);
    FiveEntryClass(k1, k2, k3, k4, k5, a, b, c, c);
  }

  lemma {:induction false} FiveEntryClass<V>(k1: Key, k2: Key, k3: Key, k4: Key, k5: Key, a: V, b: V, c: V, v: V)
    ensures KeysWith(Five(k1, k2, k3, k4, k5, a, b, c), v) ==
      (if a == v then [k1] else []) + ((if a == v then [k2] else []) + ((if b == v then [k3] else []) +
        ((if c == v then [k4] else []) + ((if b == v then [k5] else []) + []))))
  {
    var r5 := [Entry(k5, b)];
    var r4 := [Entry(k4, c)] + r5;
    var r3 := [Entry(k3, b)] + r4;
    var r2 := [Entry(k2, a)] + r3;
    assert r5 == [Entry(k5, b)] + [];
    KeysWithCons(Entry(k5, b), [], v);
    KeysWithCons(Entry(k4, c), r5, v);
    KeysWithCons(Entry(k3, b), r4, v);
    KeysWithCons(Entry(k2, a), r3, v);
    KeysWithCons(Entry(k1, a), r2, v);
  }

  /** Two distinct terms are both kept; one term is kept. */
  lemma {:induction false} DedupSmall<T>(t1: T, t2: T)
    ensures Dedup([t1]) == [t1]
    ensures t1 != t2 ==> Dedup([t1, t2]) == [t1, t2]
  {
    assert [t1][..0] == [] && [t1, t2][..1] == [t1];
  }

  function Universe(): seq<Key> {
    [KA(), KB(), KCA(), KCB(), KD()]
  }

  /** test 355-356: cpuA and cpuB each lie wholly in the class of `[]`, so each appears bare. */
  lemma {:induction false} EmptyListCondition()
    ensures ClassCondition([KA(), KB()], Universe()) == [CpuIs("cpuA"), CpuIs("cpuB")]
  {
    var m := [KA(), KB()];
    assert CpuSettled("cpuA", m, Universe()) && CpuSettled("cpuB", m, Universe());
    assert MemberTerms(m, Universe()) == [CpuIs("cpuA"), CpuIs("cpuB")];
    DedupSmall(CpuIs("cpuA"), CpuIs("cpuB"));
  }

  /** test 358-359: cpuC is split between two classes, so its member also tests the compiler; cpuD is not. */
  lemma {:induction false} DirCCondition()
    ensures ClassCondition([KCA(), KD()], Universe()) == [CpuAndCompiler("cpuC", "compilerA"), CpuIs("cpuD")]
  {
    var m := [KCA(), KD()];
    assert Universe()[3].cpu == "cpuC" && Universe()[3] !in m;
    assert !CpuSettled("cpuC", m, Universe()) && CpuSettled("cpuD", m, Universe());
    assert MemberTerms(m, Universe()) == [CpuAndCompiler("cpuC", "compilerA"), CpuIs("cpuD")];
    DedupSmall(CpuAndCompiler("cpuC", "compilerA"), CpuIs("cpuD"));
  }

  lemma {:induction false} DirCDirBCondition()
    ensures ClassCondition([KCB()], Universe()) == [CpuAndCompiler("cpuC", "compilerB")]
  {
    var m := [KCB()];
    assert Universe()[2].cpu == "cpuC" && Universe()[2] !in m;
    assert !CpuSettled("cpuC", m, Universe());
    assert MemberTerms(m, Universe()) == [CpuAndCompiler("cpuC", "compilerB")];
    DedupSmall(CpuAndCompiler("cpuC", "compilerB"), CpuAndCompiler("cpuC", "compilerB"));
  }

  /** Five entries with values a, a, b, c, b and sort keys a < b < c give three arms in that order. */
  lemma {:induction false} FiveEntryChain<V>(k1: Key, k2: Key, k3: Key, k4: Key, k5: Key, a: V, b: V, c: V, rank: V -> string)
    requires !Lex.Le(rank(b), rank(a)) && !Lex.Le(rank(c), rank(a)) && !Lex.Le(rank(c), rank(b))
    ensures var es := Five(k1, k2, k3, k4, k5, a, b, c); var u := [k1, k2, k3, k4, k5];
      Synthesize(es, rank, true) == IfChain([
        Arm(ClassCondition([k1, k2], u), a), Arm(ClassCondition([k3, k5], u), b), Arm(ClassCondition([k4], u), c)], true)
  {
    var es := Five(k1, k2, k3, k4, k5, a, b, c);
    FiveValues(k1, k2, k3, k4, k5, a, b, c);
    ThreeValueChain(es, rank, a, b, c);
    Lex.LeReflexive(rank(a));
    Lex.LeReflexive(rank(b));
    FiveEntryClasses(k1, k2, k3, k4, k5, a, b, c);
  }

  lemma {:induction false} FiveValues<V>(k1: Key, k2: Key, k3: Key, k4: Key, k5: Key, a: V, b: V, c: V)
    ensures var es := Five(k1, k2, k3, k4, k5, a, b, c);
      (forall j :: 0 <= j < |es| ==> es[j].value in [a, b, c]) &&
      a in Values(es) && b in Values(es) && c in Values(es) && Keys(es) == [k1, k2, k3, k4, k5]
  {
    var es := Five(k1, k2, k3, k4, k5, a, b, c);
    assert es == [Entry(k1, a), Entry(k2, a), Entry(k3, b), Entry(k4, c), Entry(k5, b)];
    assert Values(es)[0] == a && Values(es)[2] == b && Values(es)[3] == c;
  }

  /** Entries carrying exactly the values a, b, c, with sort keys a < b < c, give one arm per value in that order. */
  lemma {:induction false} ThreeValueChain<V>(es: seq<Entry<V>>, rank: V -> string, a: V, b: V, c: V)
    requires !Lex.Le(rank(b), rank(a)) && !Lex.Le(rank(c), rank(a)) && !Lex.Le(rank(c), rank(b))
    requires forall j :: 0 <= j < |es| ==> es[j].value in [a, b, c]
    requires a in Values(es) && b in Values(es) && c in Values(es)
    ensures Synthesize(es, rank, true) == IfChain([
      Arm(ClassCondition(KeysWith(es, a), Keys(es)), a),
      Arm(ClassCondition(KeysWith(es, b), Keys(es)), b),
      Arm(ClassCondition(KeysWith(es, c), Keys(es)), c)], true)
  {
    var vs := [a, b, c];
    Lex.LeReflexive(rank(a));
    Lex.LeReflexive(rank(b));
    Lex.LeTotal(rank(a), rank(b));
    Lex.LeTotal(rank(a), rank(c));
    Lex.LeTotal(rank(b), rank(c));
    ChainFromSortedValues(es, rank, true, vs);
    ThreeArms(es, a, b, c);
  }

  lemma {:induction false} ThreeArms<V>(es: seq<Entry<V>>, a: V, b: V, c: V)
    ensures var vs := [a, b, c];
      seq(|vs|, i requires 0 <= i < |vs| => Arm(ClassCondition(KeysWith(es, vs[i]), Keys(es)), vs[i])) == [
        Arm(ClassCondition(KeysWith(es, a), Keys(es)), a),
        Arm(ClassCondition(KeysWith(es, b), Keys(es)), b),
        Arm(ClassCondition(KeysWith(es, c), Keys(es)), c)]
  {
    var vs := [a, b, c];
    var arms := seq(|vs|, i requires 0 <= i < |vs| => Arm(ClassCondition(KeysWith(es, vs[i]), Keys(es)), vs[i]));
    assert |arms| == 3;
    assert arms[0] == Arm(ClassCondition(KeysWith(es, a), Keys(es)), a);
    assert arms[1] == Arm(ClassCondition(KeysWith(es, b), Keys(es)), b);
    assert arms[2] == Arm(ClassCondition(KeysWith(es, c), Keys(es)), c);
  }

  /**
   * test 340-362: the five toolchains of the include-directories fixture give
   * three classes: `[]` at cpuA and cpuB, `["dirC"]` at (cpuC, compilerA) and
   * cpuD, and `["dirC", "dirB"]` at (cpuC, compilerB), in that order.
   */
  lemma {:induction false} AllDirectoriesChain()
    ensures Synthesize(AllDirectories(), Rank, true) == IfChain([
      Arm([CpuIs("cpuA"), CpuIs("cpuB")], Strings([])),
      Arm([CpuAndCompiler("cpuC", "compilerA"), CpuIs("cpuD")], Strings(["dirC"])),
      Arm([CpuAndCompiler("cpuC", "compilerB")], Strings(["dirC", "dirB"]))], true)
  {
    DirectoryRanks();
    DirectoryOrder();
    FiveEntryChain(KA(), KB(), KCA(), KCB(), KD(), Strings([]), Strings(["dirC"]), Strings(["dirC", "dirB"]), Rank);
    EmptyListCondition();
    DirCCondition();
    DirCDirBCondition();
  }

  function AllIncludeToolchains(): seq<Toolchain> {
    [CToolchain("1", "cpuA", "compilerA"), CToolchain("2", "cpuB", "compilerA"),
     CToolchain("3", "cpuC", "compilerA").(cxxBuiltinIncludeDirectories := ["dirC"]),
     CToolchain("4", "cpuC", "compilerB").(cxxBuiltinIncludeDirectories := ["dirC", "dirB"]),
     CToolchain("5", "cpuD", "compilerA").(cxxBuiltinIncludeDirectories := ["dirC"])]
  }

  lemma {:induction false} AllIncludeEntries()
    ensures M.FieldEntries(AllIncludeToolchains(), M.CxxBuiltinIncludeDirectories, Fixtures.Known) == AllDirectories()
  {
    var es := M.FieldEntries(AllIncludeToolchains(), M.CxxBuiltinIncludeDirectories, Fixtures.Known);
    assert es == [Entry(KA(), Strings([])), Entry(KB(), Strings([])), Entry(KCA(), Strings(["dirC"])),
      Entry(KCB(), Strings(["dirC", "dirB"])), Entry(KD(), Strings(["dirC"]))];
  }

  /**
   * test 352-362: over all five toolchains, `[]` is assigned at cpuA and cpuB,
   * `["dirC"]` at (cpuC, compilerA) and cpuD, and `["dirC", "dirB"]` at
   * (cpuC, compilerB), in that order.
   */
  lemma {:induction false} AllIncludeDirectories()
    ensures M.Statement(AllIncludeToolchains(), Fixtures.Known, Rank, M.CxxBuiltinIncludeDirectories) == IfChain([
      Arm([CpuIs("cpuA"), CpuIs("cpuB")], Strings([])),
      Arm([CpuAndCompiler("cpuC", "compilerA"), CpuIs("cpuD")], Strings(["dirC"])),
      Arm([CpuAndCompiler("cpuC", "compilerB")], Strings(["dirC", "dirB"]))], true)
  {
    AllIncludeEntries();
    AllDirectoriesChain();
  }

  /** test 334-337: toolchains without include directories share `[]`, assigned without a condition. */
  lemma {:induction false} NoIncludeDirectories()
    ensures M.Statement([CToolchain("1", "cpuA", "compilerA"), CToolchain("2", "cpuB", "compilerA")],
      Fixtures.Known, Rank, M.CxxBuiltinIncludeDirectories) == Assign(Strings([]))
  {
    NoIncludeEntries();
    AgreeingPair(KA(), KB(), Strings([]), Rank, true);
  }

  lemma {:induction false} NoIncludeEntries()
    ensures M.FieldEntries([CToolchain("1", "cpuA", "compilerA"), CToolchain("2", "cpuB", "compilerA")],
      M.CxxBuiltinIncludeDirectories, Fixtures.Known) == [Entry(KA(), Strings([])), Entry(KB(), Strings([]))]
  {
  }

  /** A candidate list whose every entry is absent gives no arguments. */
  lemma {:induction false} KwargsAbsent(cs: seq<Candidate>)
    requires forall i :: 0 <= i < |cs| ==> cs[i].1.None?
    ensures Kwargs(cs) == []
    decreases |cs|
  {
    if |cs| > 0 {
      KwargsAbsent(cs[1..]);
    }
  }

  /** A feature named "A" with no other field than, perhaps, `enabled`. */
  function FeatureA(enabled: bool): Feature {
    Feature("A", enabled, [], [], [], [], [])
  }

  /** An action config named "A" for action "A" with no other field than, perhaps, `enabled`. */
  function ConfigA(enabled: bool): ActionConfig {
    ActionConfig("A", "A", enabled, [], [], [], [], [])
  }

  /** The call `callee(key = "A")`, followed by `enabled = True` when enabled. */
  function NamedCall(callee: string, key: string, enabled: bool): Expr {
    Call(callee, [KwArg(key, Str("A"))] + (if enabled then [KwArg("enabled", BoolLit(true))] else []))
  }

  lemma {:induction false} NamedCallShape(callee: string, key: string)
    ensures NamedCall(callee, key, false) == Call(callee, [KwArg(key, Str("A"))])
    ensures NamedCall(callee, key, true) == Call(callee, [KwArg(key, Str("A")), KwArg("enabled", BoolLit(true))])
  {
  }

  lemma {:induction false} FeatureCall(enabled: bool)
    ensures R.FeatureExpr(FeatureA(enabled)) == NamedCall("feature", "name", enabled)
  {
    var cs := R.FeatureCandidates(FeatureA(enabled));
    KwargsAbsent(cs[2..]);
    assert cs[1..][1..] == cs[2..];
    assert Kwargs(cs[1..]) == (if enabled then [KwArg("enabled", BoolLit(true))] else []);
  }

  lemma {:induction false} ActionConfigCall(enabled: bool)
    ensures R.ActionConfigExpr(ConfigA(enabled)) == NamedCall("action_config", "action_name", enabled)
  {
    var cs := R.ActionConfigCandidates(ConfigA(enabled));
    KwargsAbsent(cs[2..]);
    assert cs[1..][1..] == cs[2..];
    assert Kwargs(cs[1..]) == (if enabled then [KwArg("enabled", BoolLit(true))] else []);
  }

  /** The one-line text of the disabled call: `callee(key = "A")`. */
  lemma {:induction false} DisabledCallText(callee: string, key: string)
    ensures Rank(NamedCall(callee, key, false)) == callee + "(" + key + " = \"A\")"
  {
    var one := key + " = " + Text(Str("A"));
    var arg := NamedCall(callee, key, false).args;
    assert seq(|arg|, i requires 0 <= i < |arg| => arg[i].name + " = " + Text(arg[i].value)) == [one];
  }

  /** The one-line text of the enabled call: `callee(key = "A", enabled = True)`. */
  lemma {:induction false} EnabledCallText(callee: string, key: string)
    ensures Rank(NamedCall(callee, key, true)) == callee + "(" + key + " = \"A\", enabled = True)"
  {
    var one := key + " = " + Text(Str("A"));
    var two := "enabled" + " = " + Text(BoolLit(true));
    var args := NamedCall(callee, key, true).args;
    var texts := seq(|args|, i requires 0 <= i < |args| => args[i].name + " = " + Text(args[i].value));
    assert texts[0] == one && texts[1] == two;
    assert texts == [one, two];
    assert [one, two][1..] == [two];
    assert Join([one, two], ", ") == one + ", " + two;
  }

  /** The disabled call sorts first: after the shared prefix, ')' is below ','. */
  lemma {:induction false} NamedCallOrder(callee: string, key: string)
    ensures !Lex.Le(Rank(NamedCall(callee, key, true)), Rank(NamedCall(callee, key, false)))
  {
    DisabledCallText(callee, key);
    EnabledCallText(callee, key);
    var a := Rank(NamedCall(callee, key, false));
    var b := Rank(NamedCall(callee, key, true));
    var n := |callee + "(" + key + " = \"A\""|;
    assert a == (callee + "(" + key + " = \"A\"") + ")";
    assert b == (callee + "(" + key + " = \"A\"") + ", enabled = True)";
    assert a[..n] == b[..n];
    Lex.FirstDifferenceDecides(a, b, n);
  }

  /** Three toolchains: two define `id`, differently, and the third does not. */
  lemma {:induction false} TwoDefiners(k1: Key, k2: Key, k3: Key, id: string, e1: Expr, e2: Expr)
    ensures H.DefiningEntries([H.Holder(k1, [H.Named(id, e1)]), H.Holder(k2, [H.Named(id, e2)]), H.Holder(k3, [])], id) ==
      [Entry(k1, e1), Entry(k2, e2)]
  {
    var hs := [H.Holder(k1, [H.Named(id, e1)]), H.Holder(k2, [H.Named(id, e2)]), H.Holder(k3, [])];
    assert H.Idents(hs[0].items) == [id] && H.Idents(hs[1].items) == [id] && H.Idents(hs[2].items) == [];
    assert H.DefinersFrom(hs, id, 3) == [];
    assert H.DefinersFrom(hs, id, 2) == [];
    assert H.Defines(hs[1].items, id) && H.Defines(hs[0].items, id);
    assert H.DefinersFrom(hs, id, 1) == [1];
    assert H.Definers(hs, id) == [0, 1];
  }

  /** A declaration over three toolchains on cpuA, of which the third does not define `id`. */
  lemma {:induction false} DefinedTwice(c1: string, c2: string, c3: string, id: string, e1: Expr, e2: Expr)
    requires c1 != c2 && !Lex.Le(Rank(e1), Rank(e2))
    ensures H.Declare([H.Holder(Key("cpuA", c1), [H.Named(id, e1)]), H.Holder(Key("cpuA", c2), [H.Named(id, e2)]),
      H.Holder(Key("cpuA", c3), [])], Rank, id) ==
      IfChain([Arm([CpuAndCompiler("cpuA", c2)], e2), Arm([CpuAndCompiler("cpuA", c1)], e1)], false)
  {
    TwoDefiners(Key("cpuA", c1), Key("cpuA", c2), Key("cpuA", c3), id, e1, e2);
    TwoEntryChain([Entry(Key("cpuA", c1), e1), Entry(Key("cpuA", c2), e2)], Rank, false, 1);
  }

  function DeclaredFeatures(): seq<Toolchain> {
    [CToolchain("1", "cpuA", "compilerA").(features := [FeatureA(true)]),
     CToolchain("2", "cpuA", "compilerB").(features := [FeatureA(false)]),
     CToolchain("3", "cpuA", "compilerC")]
  }

  /** Three toolchains, the first two with one feature each and the third with none. */
  lemma {:induction false} ThreeFeatureHolders(t1: Toolchain, t2: Toolchain, t3: Toolchain, f1: Feature, f2: Feature)
    requires t1.features == [f1] && t2.features == [f2] && t3.features == []
    ensures M.FeatureHolders([t1, t2, t3]) ==
      [H.Holder(KeyOf(t1), [H.Named(H.FeatureIdent(f1.name), R.FeatureExpr(f1))]),
       H.Holder(KeyOf(t2), [H.Named(H.FeatureIdent(f2.name), R.FeatureExpr(f2))]),
       H.Holder(KeyOf(t3), [])]
  {
    OneFeatureItem(t1, f1);
    OneFeatureItem(t2, f2);
    assert H.FeatureItems(t3) == [];
    var hs := M.FeatureHolders([t1, t2, t3]);
    assert |hs| == 3 && hs[0] == H.Holder(KeyOf(t1), H.FeatureItems(t1));
    assert hs[1] == H.Holder(KeyOf(t2), H.FeatureItems(t2)) && hs[2] == H.Holder(KeyOf(t3), H.FeatureItems(t3));
  }

  /** A toolchain with one feature holds one item, named after the feature. */
  lemma {:induction false} OneFeatureItem(t: Toolchain, f: Feature)
    requires t.features == [f]
    ensures H.FeatureItems(t) == [H.Named(H.FeatureIdent(f.name), R.FeatureExpr(f))]
  {
  }

  lemma {:induction false} ThreeActionHolders(t1: Toolchain, t2: Toolchain, t3: Toolchain, a1: ActionConfig, a2: ActionConfig,
    known: map<string, string>)
    requires t1.actionConfigs == [a1] && t2.actionConfigs == [a2] && t3.actionConfigs == []
    ensures M.ActionHolders([t1, t2, t3], known) ==
      [H.Holder(KeyOf(t1), [H.Named(H.ActionIdent(a1.actionName, known), R.ActionConfigExpr(a1))]),
       H.Holder(KeyOf(t2), [H.Named(H.ActionIdent(a2.actionName, known), R.ActionConfigExpr(a2))]),
       H.Holder(KeyOf(t3), [])]
  {
    OneActionItem(t1, a1, known);
    OneActionItem(t2, a2, known);
    assert H.ActionItems(t3, known) == [];
    ActionHoldersOfThree(t1, t2, t3, known);
  }

  lemma {:induction false} ActionHoldersOfThree(t1: Toolchain, t2: Toolchain, t3: Toolchain, known: map<string, string>)
    ensures M.ActionHolders([t1, t2, t3], known) ==
      [H.Holder(KeyOf(t1), H.ActionItems(t1, known)), H.Holder(KeyOf(t2), H.ActionItems(t2, known)),
       H.Holder(KeyOf(t3), H.ActionItems(t3, known))]
  {
    var hs := M.ActionHolders([t1, t2, t3], known);
    assert |hs| == 3 && hs[0] == H.Holder(KeyOf(t1), H.ActionItems(t1, known));
    assert hs[1] == H.Holder(KeyOf(t2), H.ActionItems(t2, known)) && hs[2] == H.Holder(KeyOf(t3), H.ActionItems(t3, known));
  }

  /** A toolchain with one action config holds one item, named after its action. */
  lemma {:induction false} OneActionItem(t: Toolchain, a: ActionConfig, known: map<string, string>)
    requires t.actionConfigs == [a]
    ensures H.ActionItems(t, known) == [H.Named(H.ActionIdent(a.actionName, known), R.ActionConfigExpr(a))]
  {
  }

  lemma {:induction false} DeclaredFeatureHolders()
    ensures M.FeatureHolders(DeclaredFeatures()) == [
      H.Holder(Key("cpuA", "compilerA"), [H.Named("a_feature", NamedCall("feature", "name", true))]),
      H.Holder(Key("cpuA", "compilerB"), [H.Named("a_feature", NamedCall("feature", "name", false))]),
      H.Holder(Key("cpuA", "compilerC"), [])]
  {
    var ts := DeclaredFeatures();
    Fixtures.FeatureIdentExamples();
    FeatureCall(true);
    FeatureCall(false);
    ThreeFeatureHolders(ts[0], ts[1], ts[2], FeatureA(true), FeatureA(false));
  }

  /**
   * test 1116-1121: the disabled feature is declared first, at (cpuA, compilerB),
   * the enabled one at (cpuA, compilerA), and the toolchain without it gets no
   * `else`.
   */
  lemma {:induction false} FeatureDeclaration()
    ensures H.Declare(M.FeatureHolders(DeclaredFeatures()), Rank, "a_feature") == IfChain([
      Arm([CpuAndCompiler("cpuA", "compilerB")], Call("feature", [KwArg("name", Str("A"))])),
      Arm([CpuAndCompiler("cpuA", "compilerA")], Call("feature", [KwArg("name", Str("A")), KwArg("enabled", BoolLit(true))]))],
      false)
  {
    DeclaredFeatureHolders();
    NamedCallOrder("feature", "name");
    NamedCallShape("feature", "name");
    DefinedTwice("compilerA", "compilerB", "compilerC", "a_feature",
      NamedCall("feature", "name", true), NamedCall("feature", "name", false));
  }

  function DeclaredActionConfigs(): seq<Toolchain> {
    [CToolchain("4", "cpuA", "compilerD").(actionConfigs := [ConfigA(true)]),
     CToolchain("5", "cpuA", "compilerE").(actionConfigs := [ConfigA(false)]),
     CToolchain("6", "cpuA", "compilerF")]
  }

  lemma {:induction false} DeclaredActionHolders()
    ensures M.ActionHolders(DeclaredActionConfigs(), Fixtures.Known) == [
      H.Holder(Key("cpuA", "compilerD"), [H.Named("a_action", NamedCall("action_config", "action_name", true))]),
      H.Holder(Key("cpuA", "compilerE"), [H.Named("a_action", NamedCall("action_config", "action_name", false))]),
      H.Holder(Key("cpuA", "compilerF"), [])]
  {
    var ts := DeclaredActionConfigs();
    Fixtures.ActionIdentExamples();
    ActionConfigCall(true);
    ActionConfigCall(false);
    ThreeActionHolders(ts[0], ts[1], ts[2], ConfigA(true), ConfigA(false), Fixtures.Known);
  }

  /** test 1126-1131: the same shape for action configs, keyed by compilerE and compilerD. */
  lemma {:induction false} ActionConfigDeclaration()
    ensures H.Declare(M.ActionHolders(DeclaredActionConfigs(), Fixtures.Known), Rank, "a_action") == IfChain([
      Arm([CpuAndCompiler("cpuA", "compilerE")], Call("action_config", [KwArg("action_name", Str("A"))])),
      Arm([CpuAndCompiler("cpuA", "compilerD")],
        Call("action_config", [KwArg("action_name", Str("A")), KwArg("enabled", BoolLit(true))]))],
      false)
  {
    DeclaredActionHolders();
    NamedCallOrder("action_config", "action_name");
    NamedCallShape("action_config", "action_name");
    DefinedTwice("compilerD", "compilerE", "compilerF", "a_action",
      NamedCall("action_config", "action_name", true), NamedCall("action_config", "action_name", false));
  }
}
