/**
 * Concrete instances of the model that match the expected outputs of the
 * transform's test fixtures.
 */
module Fixtures {
  import opened Base
  import opened Records
  import opened Starlark
  import opened Partitioner
  import opened Conditions
  import opened Synthesis
  import opened Hoist
  import opened Validation

  /** The one entry of the standard action-name table the fixtures rely on. */
  const Known: map<string, string> := map["c++-executable" := "cpp_executable"]

  /** Feature identifiers of the fixtures: one lower-cased letter and the suffix. */
  lemma {:induction false} FeatureIdentExamples()
    ensures FeatureIdent("A") == "a_feature"
    ensures FeatureIdent("B") == "b_feature"
  {
    assert Sanitize("A")[0] == 'a';
    assert Sanitize("A") == "a";
    assert Sanitize("B")[0] == 'b';
    assert Sanitize("B") == "b";
  }

  /** Action identifiers of the fixtures whose names are not in the table. */
  lemma {:induction false} ActionIdentExamples()
    ensures ActionIdent("A", Known) == "a_action"
    ensures ActionIdent("A-B.C", Known) == "a_b_c_action"
    ensures ActionIdent("action-complex", Known) == "action_complex_action"
  {
    assert Sanitize("A")[0] == 'a';
    assert Sanitize("A") == "a";
    var s := Sanitize("A-B.C");
    assert s[0] == 'a' && s[1] == '_' && s[2] == 'b' && s[3] == '_' && s[4] == 'c';
    assert s == "a_b_c";
    var t := Sanitize("action-complex");
    assert t[6] == '_';
    assert t == "action_complex";
  }

  /** A known action name takes its stem from the table, not from sanitizing. */
  lemma {:induction false} KnownActionIdentExample()
    ensures ActionIdent("c++-executable", Known) == "cpp_executable_action"
  {
  }

  function Group(all: seq<string>, none: seq<string>): FlagGroup {
    FlagGroup(["f"], [], None, all, none, None, None, None)
  }

  /** The offending flag groups of the validator fixtures are reported with the right field. */
  lemma {:induction false} ViolationExamples()
    ensures Violation(Group(["e1", "e2"], [])) == Some(AllAvailable)
    ensures Violation(Group([], ["e1", "e2"])) == Some(NoneAvailable)
    ensures Violation(Group(["d"], ["e"])) == None
  {
  }

  /**
   * The compiler-qualifier rule on the include-directories fixture: cpuC is
   * split between two classes, so its members are qualified by compiler, while
   * cpuD is not.
   */
  lemma {:induction false} QualifierExample()
    ensures CpuAndCompiler("cpuC", "compilerA") in ClassCondition(
      [Key("cpuC", "compilerA"), Key("cpuD", "compilerA")],
      [Key("cpuA", "compilerA"), Key("cpuB", "compilerA"), Key("cpuC", "compilerA"), Key("cpuC", "compilerB"), Key("cpuD", "compilerA")])
    ensures CpuIs("cpuD") in ClassCondition(
      [Key("cpuC", "compilerA"), Key("cpuD", "compilerA")],
      [Key("cpuA", "compilerA"), Key("cpuB", "compilerA"), Key("cpuC", "compilerA"), Key("cpuC", "compilerB"), Key("cpuD", "compilerA")])
    ensures CpuIs("cpuC") !in ClassCondition(
      [Key("cpuC", "compilerA"), Key("cpuD", "compilerA")],
      [Key("cpuA", "compilerA"), Key("cpuB", "compilerA"), Key("cpuC", "compilerA"), Key("cpuC", "compilerB"), Key("cpuD", "compilerA")])
  {
    var members := [Key("cpuC", "compilerA"), Key("cpuD", "compilerA")];
    var universe := [Key("cpuA", "compilerA"), Key("cpuB", "compilerA"), Key("cpuC", "compilerA"), Key("cpuC", "compilerB"), Key("cpuD", "compilerA")];
    assert universe[3].cpu == "cpuC" && universe[3] !in members;
    assert !CpuSettled("cpuC", members, universe);
    assert CpuSettled("cpuD", members, universe);
    QualifierRule(members, universe, "cpuC", "compilerA");
    QualifierRule(members, universe, "cpuD", "compilerA");
  }
}
