/**
 * The typed CROSSTOOL input: one `Toolchain` per (cpu, compiler) pair, with the
 * nested structures that features and action configs carry. Parsing the text
 * format into these values is not part of this model.
 */
module Records {
  import opened Base

  /** The pair of attributes the generated code branches on. */
  datatype Key = Key(cpu: string, compiler: string)

  datatype MakeVariable = MakeVariable(name: string, value: string)

  datatype ToolPath = ToolPath(name: string, path: string)

  datatype ArtifactNamePattern = ArtifactNamePattern(categoryName: string, prefix: string, extension: string)

  datatype WithFeatureSet = WithFeatureSet(features: seq<string>, notFeatures: seq<string>)

  datatype VariableWithValue = VariableWithValue(variable: string, value: string)

  /**
   * A flag group. `expandIfAllAvailable` and `expandIfNoneAvailable` are
   * repeated in the input format; the validator rejects more than one of each.
   */
  datatype FlagGroup = FlagGroup(
    flags: seq<string>,
    flagGroups: seq<FlagGroup>,
    iterateOver: Option<string>,
    expandIfAllAvailable: seq<string>,
    expandIfNoneAvailable: seq<string>,
    expandIfTrue: Option<string>,
    expandIfFalse: Option<string>,
    expandIfEqual: Option<VariableWithValue>)

  datatype FlagSet = FlagSet(actions: seq<string>, flagGroups: seq<FlagGroup>, withFeatures: seq<WithFeatureSet>)

  datatype EnvEntry = EnvEntry(key: string, value: string)

  datatype EnvSet = EnvSet(actions: seq<string>, envEntries: seq<EnvEntry>, withFeatures: seq<WithFeatureSet>)

  /** One `requires { feature: ... }` block. */
  datatype FeatureSet = FeatureSet(features: seq<string>)

  datatype Feature = Feature(
    name: string,
    enabled: bool,
    flagSets: seq<FlagSet>,
    envSets: seq<EnvSet>,
    requiredSets: seq<FeatureSet>,
    implies: seq<string>,
    providedFeatures: seq<string>)

  datatype Tool = Tool(path: string, withFeatures: seq<WithFeatureSet>, executionRequirements: seq<string>)

  datatype ActionConfig = ActionConfig(
    configName: string,
    actionName: string,
    enabled: bool,
    tools: seq<Tool>,
    flagSets: seq<FlagSet>,
    envSets: seq<EnvSet>,
    requiredSets: seq<FeatureSet>,
    implies: seq<string>)

  datatype Toolchain = Toolchain(
    toolchainIdentifier: string,
    hostSystemName: string,
    targetSystemName: string,
    targetCpu: string,
    compiler: string,
    targetLibc: string,
    abiVersion: string,
    abiLibcVersion: string,
    ccTargetOs: Option<string>,
    builtinSysroot: Option<string>,
    cxxBuiltinIncludeDirectories: seq<string>,
    makeVariables: seq<MakeVariable>,
    toolPaths: seq<ToolPath>,
    artifactNamePatterns: seq<ArtifactNamePattern>,
    features: seq<Feature>,
    actionConfigs: seq<ActionConfig>)

  function KeyOf(t: Toolchain): Key {
    Key(t.targetCpu, t.compiler)
  }

  /** No two toolchains share a (cpu, compiler) pair; the transform assumes this. */
  predicate UniqueKeys(ts: seq<Toolchain>) {
    forall i, j :: 0 <= i < j < |ts| ==> KeyOf(ts[i]) != KeyOf(ts[j])
  }
}
