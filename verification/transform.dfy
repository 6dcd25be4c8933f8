/**
 * The whole transform: validate every toolchain, then emit one hoisted
 * declaration per feature and action config and one statement per toolchain
 * field, each statement reproducing every toolchain's value at its
 * (cpu, compiler).
 */
module Migration {
  import opened Base
  import opened Records
  import opened Starlark
  import opened Partitioner
  import opened Synthesis
  import Render
  import opened Hoist
  import opened Validation

  /** The toolchain fields that become statements of the generated rule. */
  datatype Field =
    | ToolchainIdentifier | HostSystemName | TargetSystemName | TargetCpu | TargetLibc | Compiler
    | AbiVersion | AbiLibcVersion | CcTargetOs | BuiltinSysroot | CxxBuiltinIncludeDirectories
    | MakeVariables | ToolPaths | ArtifactNamePatterns | Features | ActionConfigs

  const FieldOrder: seq<Field> := [
    ToolchainIdentifier, HostSystemName, TargetSystemName, TargetCpu, TargetLibc, Compiler,
    AbiVersion, AbiLibcVersion, CcTargetOs, BuiltinSysroot, CxxBuiltinIncludeDirectories,
    MakeVariables, ToolPaths, ArtifactNamePatterns, Features, ActionConfigs]

  /** The Starlark variable each field is assigned to. */
  function VariableName(f: Field): string {
    match f
    case ToolchainIdentifier => "toolchain_identifier"
    case HostSystemName => "host_system_name"
    case TargetSystemName => "target_system_name"
    case TargetCpu => "target_cpu"
    case TargetLibc => "target_libc"
    case Compiler => "compiler"
    case AbiVersion => "abi_version"
    case AbiLibcVersion => "abi_libc_version"
    case CcTargetOs => "cc_target_os"
    case BuiltinSysroot => "builtin_sysroot"
    case CxxBuiltinIncludeDirectories => "cxx_builtin_include_directories"
    case MakeVariables => "make_variables"
    case ToolPaths => "tool_paths"
    case ArtifactNamePatterns => "artifact_name_patterns"
    case Features => "features"
    case ActionConfigs => "action_configs"
  }

  /** The fields written as lists, always, even when empty. */
  predicate IsListField(f: Field) {
    f in {CxxBuiltinIncludeDirectories, MakeVariables, ToolPaths, ArtifactNamePatterns, Features, ActionConfigs}
  }

  function OptionalStr(x: Option<string>): Expr {
    match x
    case Some(s) => Str(s)
    case None => NoneLit
  }

  /**
   * The value one toolchain gives a field: strings as literals, an absent
   * optional string as `None`, lists always written (empty as `[]`), and the
   * feature and action-config lists as references to hoisted declarations.
   */
  function FieldValue(f: Field, t: Toolchain, known: map<string, string>): (r: Expr)
    ensures r.ListOf? <==> IsListField(f)
    ensures r == NoneLit <==> (f == CcTargetOs && t.ccTargetOs.None?) || (f == BuiltinSysroot && t.builtinSysroot.None?)
    ensures f == Features ==> (|r.items| == |t.features| &&
      forall p :: 0 <= p < |t.features| ==> r.items[p] == Ident(FeatureIdent(t.features[p].name)))
    ensures f == ActionConfigs ==> (|r.items| == |t.actionConfigs| &&
      forall p :: 0 <= p < |t.actionConfigs| ==> r.items[p] == Ident(ActionIdent(t.actionConfigs[p].actionName, known)))
  {
    match f
    case ToolchainIdentifier => Str(t.toolchainIdentifier)
    case HostSystemName => Str(t.hostSystemName)
    case TargetSystemName => Str(t.targetSystemName)
    case TargetCpu => Str(t.targetCpu)
    case TargetLibc => Str(t.targetLibc)
    case Compiler => Str(t.compiler)
    case AbiVersion => Str(t.abiVersion)
    case AbiLibcVersion => Str(t.abiLibcVersion)
    case CcTargetOs => OptionalStr(t.ccTargetOs)
    case BuiltinSysroot => OptionalStr(t.builtinSysroot)
    case CxxBuiltinIncludeDirectories => Strings(t.cxxBuiltinIncludeDirectories)
    case MakeVariables => Render.MakeVariablesExpr(t.makeVariables)
    case ToolPaths => Render.ToolPathsExpr(t.toolPaths)
    case ArtifactNamePatterns => Render.ArtifactNamePatternsExpr(t.artifactNamePatterns)
    case Features => References(FeatureItems(t))
    case ActionConfigs => References(ActionItems(t, known))
  }

  // ---- reading a toolchain back from its field values ----

  function DecodeOptionalStr(e: Expr): Option<Option<string>> {
    match e
    case Str(s) => Some(Some(s))
    case NoneLit => Some(None)
    case _ => None
  }

  /** The string fields are read back from their literals. */
  lemma {:induction false} StringFieldsDecode(t: Toolchain, known: map<string, string>)
    ensures DecodeStr(FieldValue(ToolchainIdentifier, t, known)) == Some(t.toolchainIdentifier)
    ensures DecodeStr(FieldValue(HostSystemName, t, known)) == Some(t.hostSystemName)
    ensures DecodeStr(FieldValue(TargetSystemName, t, known)) == Some(t.targetSystemName)
    ensures DecodeStr(FieldValue(TargetCpu, t, known)) == Some(t.targetCpu)
    ensures DecodeStr(FieldValue(TargetLibc, t, known)) == Some(t.targetLibc)
    ensures DecodeStr(FieldValue(Compiler, t, known)) == Some(t.compiler)
    ensures DecodeStr(FieldValue(AbiVersion, t, known)) == Some(t.abiVersion)
    ensures DecodeStr(FieldValue(AbiLibcVersion, t, known)) == Some(t.abiLibcVersion)
  {
  }

  /** An optional string is read back as present or, from `None`, as absent. */
  lemma {:induction false} OptionalFieldsDecode(t: Toolchain, known: map<string, string>)
    ensures DecodeOptionalStr(FieldValue(CcTargetOs, t, known)) == Some(t.ccTargetOs)
    ensures DecodeOptionalStr(FieldValue(BuiltinSysroot, t, known)) == Some(t.builtinSysroot)
  {
  }

  /** The include directories are read back element by element, in their original order. */
  lemma {:induction false} IncludeDirectoriesDecode(t: Toolchain, known: map<string, string>)
    ensures DecodeStrings(FieldValue(CxxBuiltinIncludeDirectories, t, known)) == Some(t.cxxBuiltinIncludeDirectories)
  {
    StringsDecode(t.cxxBuiltinIncludeDirectories);
  }

  /** The constructor-list fields are read back element by element, in their original order. */
  lemma {:induction false} ConstructorListFieldsDecode(t: Toolchain, known: map<string, string>)
    ensures DecodeList(FieldValue(MakeVariables, t, known), Render.DecodeMakeVariable) == Some(t.makeVariables)
    ensures DecodeList(FieldValue(ToolPaths, t, known), Render.DecodeToolPath) == Some(t.toolPaths)
    ensures DecodeList(FieldValue(ArtifactNamePatterns, t, known), Render.DecodeArtifactNamePattern) ==
      Some(t.artifactNamePatterns)
  {
  }

  // ---- the generated rule ----

  datatype Assignment = Assignment(field: Field, chain: Chain<Expr>)

  /** Hoisted feature declarations, hoisted action-config declarations, then one statement per field. */
  datatype Rule = Rule(featureDecls: seq<Decl>, actionDecls: seq<Decl>, assignments: seq<Assignment>)

  datatype Result = Ok(rule: Rule) | Err(error: ValidationError)

  function FieldEntries(ts: seq<Toolchain>, f: Field, known: map<string, string>): seq<Entry<Expr>> {
    seq(|ts|, i requires 0 <= i < |ts| => Entry(KeyOf(ts[i]), FieldValue(f, ts[i], known)))
  }

  function FeatureHolders(ts: seq<Toolchain>): seq<Holder> {
    seq(|ts|, i requires 0 <= i < |ts| => Holder(KeyOf(ts[i]), FeatureItems(ts[i])))
  }

  function ActionHolders(ts: seq<Toolchain>, known: map<string, string>): seq<Holder> {
    seq(|ts|, i requires 0 <= i < |ts| => Holder(KeyOf(ts[i]), ActionItems(ts[i], known)))
  }

  /** The statement for one field: an if/elif chain over all toolchains, closed by a failing `else`. */
  function Statement(ts: seq<Toolchain>, known: map<string, string>, rank: Expr -> string, f: Field): Chain<Expr> {
    Synthesize(FieldEntries(ts, f, known), rank, true)
  }

  function BuildRule(ts: seq<Toolchain>, known: map<string, string>, rank: Expr -> string): Rule {
    Rule(
      Declarations(FeatureHolders(ts), rank),
      Declarations(ActionHolders(ts, known), rank),
      seq(|FieldOrder|, i requires 0 <= i < |FieldOrder| => Assignment(FieldOrder[i], Statement(ts, known, rank, FieldOrder[i]))))
  }

  /** Every flag group, in every flag set of every feature and action config, is well-formed. */
  predicate Accepted(ts: seq<Toolchain>) {
    (forall k, i :: 0 <= k < |ts| && 0 <= i < |ts[k].features| ==> SetsWellFormed(ts[k].features[i].flagSets)) &&
    (forall k, i :: 0 <= k < |ts| && 0 <= i < |ts[k].actionConfigs| ==> SetsWellFormed(ts[k].actionConfigs[i].flagSets))
  }

  /** `e` names a feature or action config (by action name) some toolchain has, and one its flag groups break. */
  predicate Offender(ts: seq<Toolchain>, e: ValidationError) {
    match e.kind
    case FeatureOwner =>
      exists k, i :: 0 <= k < |ts| && 0 <= i < |ts[k].features| && ts[k].features[i].name == e.owner &&
        SetsViolation(ts[k].features[i].flagSets) == Some(e.directive)
    case ActionConfigOwner =>
      exists k, i :: 0 <= k < |ts| && 0 <= i < |ts[k].actionConfigs| && ts[k].actionConfigs[i].actionName == e.owner &&
        SetsViolation(ts[k].actionConfigs[i].flagSets) == Some(e.directive)
  }

  /**
   * What the generated rule means: one statement per field in field order,
   * each assigning, at every toolchain's (cpu, compiler), that toolchain's own
   * value, and each if/elif chain closed by a failing `else`; and hoisted
   * declarations that resolve, at each toolchain, to its own features and
   * action configs.
   */
  predicate RuleCorrect(ts: seq<Toolchain>, known: map<string, string>, rule: Rule) {
    |rule.assignments| == |FieldOrder| &&
    (forall i :: 0 <= i < |FieldOrder| ==> rule.assignments[i].field == FieldOrder[i]) &&
    (forall i, k :: 0 <= i < |FieldOrder| && 0 <= k < |ts| ==>
      Eval(rule.assignments[i].chain, KeyOf(ts[k])) == Assigned(FieldValue(FieldOrder[i], ts[k], known))) &&
    (forall i :: 0 <= i < |rule.assignments| && rule.assignments[i].chain.IfChain? ==> rule.assignments[i].chain.failElse) &&
    DeclsResolve(rule.featureDecls, FeatureHolders(ts)) &&
    DeclsResolve(rule.actionDecls, ActionHolders(ts, known))
  }

  /**
   * The transform. `known` is the table of standard action names and their
   * identifier stems; `rank` is the text by which branches are ordered.
   * It is refused exactly when some flag group repeats a guarded field, with
   * an error naming a real offender, the first in validation order; otherwise
   * the rule reproduces every toolchain.
   */
  function Transform(ts: seq<Toolchain>, known: map<string, string>, rank: Expr -> string): (r: Result)
    requires UniqueKeys(ts)
    ensures r.Err? <==> !Accepted(ts)
    ensures r.Err? ==> Some(r.error) == Validate(ts) && Offender(ts, r.error)
    ensures r.Ok? ==> RuleCorrect(ts, known, r.rule)
  {
    ValidIff(ts);
    match Validate(ts)
    case Some(e) =>
      ErrorNamesOffender(ts);
      Err(e)
    case None =>
      BuildRuleCorrect(ts, known, rank);
      Ok(BuildRule(ts, known, rank))
  }

  lemma {:induction false} ErrorNamesOffender(ts: seq<Toolchain>)
    requires Validate(ts).Some?
    ensures Offender(ts, Validate(ts).value)
  {
    var e := Validate(ts).value;
    var o :| o in Owners(ts) && o.kind == e.kind && o.name == e.owner && SetsViolation(o.flagSets) == Some(e.directive);
    FeatureOwnersCover(ts);
    ActionConfigOwnersCover(ts);
    if o in FeatureOwners(ts) {
      var k, i :| 0 <= k < |ts| && 0 <= i < |ts[k].features| && o.name == ts[k].features[i].name && o.flagSets == ts[k].features[i].flagSets;
    } else {
      assert o in ActionConfigOwners(ts);
      var k, i :| 0 <= k < |ts| && 0 <= i < |ts[k].actionConfigs| && o.name == ts[k].actionConfigs[i].actionName && o.flagSets == ts[k].actionConfigs[i].flagSets;
    }
  }

  lemma {:induction false} BuildRuleCorrect(ts: seq<Toolchain>, known: map<string, string>, rank: Expr -> string)
    requires UniqueKeys(ts)
    ensures RuleCorrect(ts, known, BuildRule(ts, known, rank))
  {
    AssignmentsCorrect(ts, known, rank);
    HoldersDistinct(ts, known);
    DeclarationsCorrect(FeatureHolders(ts), rank);
    DeclarationsCorrect(ActionHolders(ts, known), rank);
  }

  lemma {:induction false} AssignmentsCorrect(ts: seq<Toolchain>, known: map<string, string>, rank: Expr -> string)
    requires UniqueKeys(ts)
    ensures forall i, k :: 0 <= i < |FieldOrder| && 0 <= k < |ts| ==>
      Eval(BuildRule(ts, known, rank).assignments[i].chain, KeyOf(ts[k])) == Assigned(FieldValue(FieldOrder[i], ts[k], known))
    ensures forall i :: 0 <= i < |FieldOrder| && BuildRule(ts, known, rank).assignments[i].chain.IfChain? ==>
      BuildRule(ts, known, rank).assignments[i].chain.failElse
  {
    var rule := BuildRule(ts, known, rank);
    forall i, k | 0 <= i < |FieldOrder| && 0 <= k < |ts|
      ensures Eval(rule.assignments[i].chain, KeyOf(ts[k])) == Assigned(FieldValue(FieldOrder[i], ts[k], known))
    {
      FieldCorrect(ts, known, rank, FieldOrder[i], k);
    }
    forall i | 0 <= i < |FieldOrder| && rule.assignments[i].chain.IfChain?
      ensures rule.assignments[i].chain.failElse
    {
      StatementShape(ts, known, rank, FieldOrder[i]);
    }
  }

  /** The text of a refused transform: the validation error's message. */
  function ErrorText(r: Result): (m: Option<string>)
    ensures m.Some? <==> r.Err?
    ensures r.Err? ==> m == Some(Message(r.error))
  {
    if r.Err? then Some(Message(r.error)) else None
  }

  /**
   * What a caller of the transform sees: an error text exactly when some flag
   * group repeats a guarded field, and then the message of an owner that
   * really repeats the field it names, the first such in validation order.
   */
  lemma {:induction false} TransformErrorText(ts: seq<Toolchain>, known: map<string, string>, rank: Expr -> string)
    requires UniqueKeys(ts)
    ensures ErrorText(Transform(ts, known, rank)).Some? <==> !Accepted(ts)
    ensures ErrorText(Transform(ts, known, rank)).Some? ==>
      Validate(ts).Some? && Offender(ts, Validate(ts).value) &&
      ErrorText(Transform(ts, known, rank)).value == Message(Validate(ts).value)
  {
    var r := Transform(ts, known, rank);
    assert ErrorText(r).Some? <==> r.Err?;
  }

  lemma {:induction false} FieldEntriesDistinct(ts: seq<Toolchain>, f: Field, known: map<string, string>)
    requires UniqueKeys(ts)
    ensures DistinctKeys(FieldEntries(ts, f, known))
  {
  }

  lemma {:induction false} HoldersDistinct(ts: seq<Toolchain>, known: map<string, string>)
    requires UniqueKeys(ts)
    ensures DistinctHolderKeys(FeatureHolders(ts)) && DistinctHolderKeys(ActionHolders(ts, known))
  {
  }

  /**
   * Field correctness: a field's statement, evaluated at any toolchain's
   * (cpu, compiler), assigns that toolchain's own value.
   */
  lemma {:induction false} FieldCorrect(ts: seq<Toolchain>, known: map<string, string>, rank: Expr -> string, f: Field, k: nat)
    requires UniqueKeys(ts) && k < |ts|
    ensures Eval(Statement(ts, known, rank, f), KeyOf(ts[k])) == Assigned(FieldValue(f, ts[k], known))
  {
    var es := FieldEntries(ts, f, known);
    FieldEntriesDistinct(ts, f, known);
    assert es[k] == Entry(KeyOf(ts[k]), FieldValue(f, ts[k], known));
    ChainCorrect(es, rank, true, k);
  }

  /** A field's statement is never a chain without the failing `else`, and is omitted only for no toolchains. */
  lemma {:induction false} StatementShape(ts: seq<Toolchain>, known: map<string, string>, rank: Expr -> string, f: Field)
    ensures Statement(ts, known, rank, f).IfChain? ==> Statement(ts, known, rank, f).failElse
    ensures Statement(ts, known, rank, f).Omitted? <==> |ts| == 0
  {
  }

  /** When every toolchain agrees on a field, its statement is a bare assignment of that value. */
  lemma {:induction false} AgreementIsUnconditional(ts: seq<Toolchain>, known: map<string, string>, rank: Expr -> string, f: Field)
    requires |ts| > 0
    requires forall k :: 0 <= k < |ts| ==> FieldValue(f, ts[k], known) == FieldValue(f, ts[0], known)
    ensures Statement(ts, known, rank, f) == Assign(FieldValue(f, ts[0], known))
  {
    var es := FieldEntries(ts, f, known);
    forall j | 0 <= j < |es|
      ensures es[j].value == es[0].value
    {
      assert es[j].value == FieldValue(f, ts[j], known);
    }
  }

  /** When two toolchains disagree on a field, its statement is an if/elif chain closed by a failing `else`. */
  lemma {:induction false} DisagreementIsGuarded(ts: seq<Toolchain>, known: map<string, string>, rank: Expr -> string, f: Field, k: nat)
    requires 0 < k < |ts|
    requires FieldValue(f, ts[k], known) != FieldValue(f, ts[0], known)
    ensures Statement(ts, known, rank, f).IfChain? && Statement(ts, known, rank, f).failElse
  {
    var es := FieldEntries(ts, f, known);
    assert es[k].value != es[0].value;
  }

  /**
   * Feature references resolve: position `p` of a toolchain's `features`
   * value names a hoisted feature declaration, and that declaration evaluated
   * at the toolchain's key is the toolchain's own definition of it.
   */
  lemma {:induction false} FeatureReferenceResolves(ts: seq<Toolchain>, rank: Expr -> string, k: nat, p: nat)
    requires UniqueKeys(ts)
    requires k < |ts| && p < |ts[k].features|
    ensures References(FeatureItems(ts[k])).items[p] == Ident(FeatureIdent(ts[k].features[p].name))
    ensures Defines(FeatureItems(ts[k]), FeatureIdent(ts[k].features[p].name))
    ensures FeatureIdent(ts[k].features[p].name) in HoistedIdents(FeatureHolders(ts))
    ensures Eval(Declare(FeatureHolders(ts), rank, FeatureIdent(ts[k].features[p].name)), KeyOf(ts[k])) ==
      Assigned(Definition(FeatureItems(ts[k]), FeatureIdent(ts[k].features[p].name)))
  {
    var hs := FeatureHolders(ts);
    HoldersDistinct(ts, map[]);
    assert hs[k].items == FeatureItems(ts[k]);
    ReferencesResolve(hs, rank, k, p, FeatureIdent(ts[k].features[p].name));
  }

  /** The same for action-config references. */
  lemma {:induction false} ActionReferenceResolves(ts: seq<Toolchain>, known: map<string, string>, rank: Expr -> string, k: nat, p: nat)
    requires UniqueKeys(ts)
    requires k < |ts| && p < |ts[k].actionConfigs|
    ensures References(ActionItems(ts[k], known)).items[p] == Ident(ActionIdent(ts[k].actionConfigs[p].actionName, known))
    ensures Defines(ActionItems(ts[k], known), ActionIdent(ts[k].actionConfigs[p].actionName, known))
    ensures ActionIdent(ts[k].actionConfigs[p].actionName, known) in HoistedIdents(ActionHolders(ts, known))
    ensures Eval(Declare(ActionHolders(ts, known), rank, ActionIdent(ts[k].actionConfigs[p].actionName, known)), KeyOf(ts[k])) ==
      Assigned(Definition(ActionItems(ts[k], known), ActionIdent(ts[k].actionConfigs[p].actionName, known)))
  {
    var hs := ActionHolders(ts, known);
    HoldersDistinct(ts, known);
    assert hs[k].items == ActionItems(ts[k], known);
    ReferencesResolve(hs, rank, k, p, ActionIdent(ts[k].actionConfigs[p].actionName, known));
  }

  /**
   * With no two features of a toolchain sharing an identifier, the definition
   * a reference resolves to is exactly the referenced feature, rendered.
   */
  lemma {:induction false} FeatureDefinitionIsOwnFeature(t: Toolchain, p: nat)
    requires p < |t.features| && NoDup(Idents(FeatureItems(t)))
    ensures Defines(FeatureItems(t), FeatureIdent(t.features[p].name))
    ensures Definition(FeatureItems(t), FeatureIdent(t.features[p].name)) == Render.FeatureExpr(t.features[p])
  {
    var items := FeatureItems(t);
    assert items[p] == Named(FeatureIdent(t.features[p].name), Render.FeatureExpr(t.features[p]));
    DefinitionAt(items, p);
  }

  /** The same for action configs. */
  lemma {:induction false} ActionDefinitionIsOwnActionConfig(t: Toolchain, known: map<string, string>, p: nat)
    requires p < |t.actionConfigs| && NoDup(Idents(ActionItems(t, known)))
    ensures Defines(ActionItems(t, known), ActionIdent(t.actionConfigs[p].actionName, known))
    ensures Definition(ActionItems(t, known), ActionIdent(t.actionConfigs[p].actionName, known)) ==
      Render.ActionConfigExpr(t.actionConfigs[p])
  {
    var items := ActionItems(t, known);
    assert items[p] == Named(ActionIdent(t.actionConfigs[p].actionName, known), Render.ActionConfigExpr(t.actionConfigs[p]));
    DefinitionAt(items, p);
  }
}
