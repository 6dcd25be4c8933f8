# CROSSTOOL-to-Starlark transform, modelled in Dafny

This project models the core of the CROSSTOOL migration tool of `rules_cc`:
the `Transform` function. It turns a CROSSTOOL release, a list of C++
toolchains each identified by its `(cpu, compiler)` pair, into the body of a
Starlark `cc_toolchain_config` rule. Its behaviour is pinned down by the
expected outputs in `tools/migration/crosstool_to_starlark_lib_test.go`, and
the model rebuilds the algorithm those outputs fix.

The model has these parts:

- **Validation** (`validate.dfy`). Before any output is produced, every flag
  group, at every nesting depth, in every flag set of every feature and
  action config, is checked. A group with more than one
  `expand_if_all_available` or more than one `expand_if_none_available`
  entry makes the transform fail, with a message that names the feature or
  action config.
- **Partition** (`partition.dfy`). For one output field, the toolchains'
  values are grouped into classes of equal values. Lists compare element by
  element and in order, and an absent optional string is a value of its own.
  The classes are ordered by a sort key computed from the value, not by
  input position.
- **Conditions** (`conditions.dfy`). Each class gets an `or`-joined
  condition over `ctx.attr.cpu` and `ctx.attr.compiler`. The compiler test
  is dropped for a cpu exactly when every toolchain with that cpu lies in
  the class.
- **Synthesis** (`synthesis.dfy`). One class gives an unconditional
  assignment. Several classes give an `if`/`elif` chain, which ends in
  `else: fail("Unreachable")` for top-level fields. `Eval` gives a chain its
  meaning at a `(cpu, compiler)` pair.
- **Rendering** (`starlark.dfy`, `render.dfy`). Values are rendered into a
  Starlark expression tree, not into text. Constructor calls pass only the
  arguments with content, in each constructor's declared keyword order.
- **Hoisting** (`hoist.dfy`). Every feature and action config becomes a
  named declaration. Its identifier is the lower-cased name with `-` and `.`
  turned into `_`, followed by `_feature` or `_action`; known action names
  take their stem from a table. The `features` and `action_configs` fields
  become lists of references. Each declaration is a partial-presence merge
  over only the toolchains that define it. That merge has no failing `else`,
  and a single definer gives an unconditional declaration.
- **Transform** (`transform.dfy`). It validates first. Then it builds the
  hoisted declarations and one statement per toolchain field, in field
  order.
- **Sort order** (`lex.dfy`). Strings are compared by code point, which for
  Unicode text is the byte order of their UTF-8 encodings.
- **Fixtures** (`fixtures.dfy`, `fixture_chains.dfy`, `fixture_errors.dfy`,
  `message_text.dfy`). They instantiate the model on the toolchains of the
  expected outputs. `fixtures.dfy` covers identifiers, single flag groups and
  one condition. `fixture_chains.dfy` works out whole statements and
  declarations of the same-cpu, same-compiler, optional-string,
  include-directory and declaration fixtures, under one sort key `Rank`.
  `fixture_errors.dfy` shows the four rejected toolchains failing with their
  exact messages. `message_text.dfy` assembles those message literals piece
  by piece.

The central theorem is `Synthesis.ChainCorrect`. `Migration.FieldCorrect`
lifts it to every field, and `Hoist.DeclarationCorrect` states it for the
declarations. Evaluating the generated statement at any toolchain's
`(cpu, compiler)` assigns exactly that toolchain's value.

## Model

| member | source | states |
|---|---|---|
| Migration.Transform | tools/migration/crosstool_to_starlark_lib_test.go:62-145 | The transform fails exactly when some flag group of some feature or action config repeats `expand_if_all_available` or `expand_if_none_available`. The error is validation's first finding and names an owner that really has that repeated field. An accepted transform's rule has one statement per field, in field order. Each statement, evaluated at any toolchain's (cpu, compiler), assigns that toolchain's own value, and each `if`/`elif` chain ends in the failing `else`. The feature and action-config declarations resolve as `Hoist.DeclarationsCorrect` states. |
| Migration.FieldCorrect | tools/migration/crosstool_to_starlark_lib_test.go:62-135 | Each field's statement, evaluated at any toolchain's (cpu, compiler), assigns that toolchain's own value for the field. |
| Migration.StatementShape | tools/migration/crosstool_to_starlark_lib_test.go:74-79 | A field's `if`/`elif` chain always ends in `else: fail("Unreachable")`, and a statement is omitted only when there are no toolchains. |
| Migration.AgreementIsUnconditional | tools/migration/crosstool_to_starlark_lib_test.go:175-199 | When all toolchains agree on a field, its statement is a bare assignment of the shared value, with no condition. |
| Migration.DisagreementIsGuarded | tools/migration/crosstool_to_starlark_lib_test.go:156-173 | When two toolchains differ on a field, its statement is an `if`/`elif` chain ending in the failing `else`. |
| Migration.StringFieldsDecode | tools/migration/crosstool_to_starlark_lib_test.go:72-135 | Every string field is written as a string literal of the toolchain's own text. |
| Migration.OptionalFieldsDecode | tools/migration/crosstool_to_starlark_lib_test.go:280-289 | An optional string is written as its literal when present and as `None` when absent. The two are told apart, so an absent value forms its own class. |
| Migration.IncludeDirectoriesDecode | tools/migration/crosstool_to_starlark_lib_test.go:334-362 | The include directories are written as a list literal from which the directories are recovered in their original order, with `[]` for none. |
| Migration.ConstructorListFieldsDecode | tools/migration/crosstool_to_starlark_lib_test.go:414-467 | `make_variables`, `tool_paths` and `artifact_name_patterns` are lists of constructor calls from which the original entries are recovered in order. A different order therefore gives a different class. |
| Migration.FeatureReferenceResolves | tools/migration/crosstool_to_starlark_lib_test.go:785-868 | Position `p` of a toolchain's `features` list is a reference to the identifier of its `p`-th feature. That identifier is hoisted, and its declaration evaluated at the toolchain's key is the toolchain's own definition. |
| Migration.ActionReferenceResolves | tools/migration/crosstool_to_starlark_lib_test.go:891-978 | The same for `action_configs` and the action-config declarations. |
| Migration.FeatureDefinitionIsOwnFeature | tools/migration/crosstool_to_starlark_lib_test.go:1116-1121 | When a toolchain's feature identifiers are distinct, the definition a feature reference resolves to is that feature, rendered. |
| Migration.ActionDefinitionIsOwnActionConfig | tools/migration/crosstool_to_starlark_lib_test.go:1126-1131 | The same for action configs. |
| Migration.TransformErrorText | tools/migration/crosstool_to_starlark_lib_test.go:1074-1080 | The transform's error text is present exactly when some flag group repeats a guarded field. It is then the message of validation's first finding, and that finding names an owner that really repeats the field. |
| Migration.FieldValue | tools/migration/crosstool_to_starlark_lib_test.go:280-289 | The value is a list exactly for the list fields. It is `None` exactly for an absent `cc_target_os` or `builtin_sysroot`. The `features` and `action_configs` values hold one reference per feature or action config of the toolchain, in its own order, to that item's identifier. |
| Synthesis.Synthesize | tools/migration/crosstool_to_starlark_lib_test.go:175-199 | No entries give no statement. Entries that all carry one value give an unconditional assignment of it. Otherwise the result is an `if`/`elif` chain of at least two arms, one per class, with sorted and distinct arm values. |
| Synthesis.OneClassIffUniform | tools/migration/crosstool_to_starlark_lib_test.go:334-351 | There is exactly one class iff there are entries and they all carry the same value, which is then the class's value. |
| Synthesis.ArmsExact | tools/migration/crosstool_to_starlark_lib_test.go:355-362 | For a class whose members are exactly the keys of the entries with its value, the branch condition built for it holds at an entry's key exactly when the class's value is that entry's value. |
| Synthesis.FirstHoldingArm | tools/migration/crosstool_to_starlark_lib_test.go:74-79 | An `if`/`elif` chain takes the first arm whose condition holds. |
| Synthesis.ExactArmsEval | tools/migration/crosstool_to_starlark_lib_test.go:168-173 | An `if`/`elif` chain whose conditions hold at a key exactly for the branch assigning value `v` assigns `v` there, whether or not it ends in a failing `else`. |
| Synthesis.ChainCorrect | tools/migration/crosstool_to_starlark_lib_test.go:450-467 | Evaluating the synthesized statement at any entry's key assigns exactly that entry's value, whether or not the chain has a failing `else`. |
| Synthesis.ChainFromSortedValues | tools/migration/crosstool_to_starlark_lib_test.go:352-362 | When the values are not all equal, the statement is fixed by the distinct values in sort order: one arm per value, in that order, each guarded by the condition of the keys that carry the value. |
| Synthesis.BranchOrderIndependentOfInputOrder | tools/migration/crosstool_to_starlark_lib_test.go:280-286 | When the sort key separates distinct values, two inputs with the same set of values give the same branch values in the same order, whatever the order of the toolchains. |
| Partitioner.Partition | tools/migration/crosstool_to_starlark_lib_test.go:435-467 | There are classes iff there are entries. The classes have distinct values, sorted by the sort key, and none is empty. Every entry's value is a class value and every class value comes from an entry. Every member is a key of some entry. With distinct keys, a key is in a class exactly when its entry has the class's value, and no class repeats a member. |
| Partitioner.SortByRank | tools/migration/crosstool_to_starlark_lib_test.go:449-467 | The result is sorted by the sort key, is a permutation of the input and keeps it duplicate-free. |
| Partitioner.InsertByRank | tools/migration/crosstool_to_starlark_lib_test.go:449-467 | Inserting into a sorted sequence keeps it sorted and adds exactly the inserted element. |
| Partitioner.SortedValues | tools/migration/crosstool_to_starlark_lib_test.go:280-286 | The class values are each value of the input exactly once, sorted by the sort key. |
| Partitioner.KeysWith | tools/migration/crosstool_to_starlark_lib_test.go:463-466 | A class's members are exactly the keys of the entries with its value, without repeats when keys are distinct. |
| Conditions.ClassCondition | tools/migration/crosstool_to_starlark_lib_test.go:341-347 | A class's condition has no repeated term. Within the toolchains it holds exactly at the class's members. |
| Conditions.QualifierRule | tools/migration/crosstool_to_starlark_lib_test.go:355-361 | The bare `cpu == X` term appears iff some member has cpu X and no toolchain with cpu X lies outside the class. A `cpu == X and compiler == Y` term appears iff (X, Y) is a member and cpu X is split. |
| Hoist.Sanitize | tools/migration/crosstool_to_starlark_lib_test.go:1154-1156 | Same length. ASCII upper-case letters become lower case, `-` and `.` become `_`, and every other character is kept. |
| Hoist.SanitizeIdempotent | tools/migration/crosstool_to_starlark_lib_test.go:1254-1256 | Sanitizing an already sanitized identifier changes nothing. |
| Hoist.FeatureIdentsEqualIff | tools/migration/crosstool_to_starlark_lib_test.go:838-851 | Two features share a declaration exactly when their names agree after sanitizing, that is, up to ASCII case and up to `-`, `.` and `_`. |
| Hoist.ActionIdentsEqualIff | tools/migration/crosstool_to_starlark_lib_test.go:1254-1266 | Two unknown action names share a declaration exactly when they agree after sanitizing. A known name shares one with an unknown name exactly when its table stem is the other's sanitized name, and with another known name exactly when their stems agree. |
| Hoist.HoistedIdents | tools/migration/crosstool_to_starlark_lib_test.go:1083-1132 | Every identifier any toolchain defines is declared exactly once, and nothing else is declared. |
| Hoist.DeclarationOrderIsFirstSeen | tools/migration/crosstool_to_starlark_lib_test.go:1083-1132 | Declarations come out in the order in which their identifiers first appear across the toolchains. |
| Hoist.Declare | tools/migration/crosstool_to_starlark_lib_test.go:1116-1122 | A declaration's chain never has the failing `else`, and it is empty only for an identifier no toolchain defines. |
| Hoist.Declarations | tools/migration/crosstool_to_starlark_lib_test.go:1116-1132 | One non-empty declaration per hoisted identifier, in declaration order. |
| Hoist.DeclarationCorrect | tools/migration/crosstool_to_starlark_lib_test.go:1116-1121 | A declaration evaluated at a defining toolchain's key assigns that toolchain's definition. |
| Hoist.DeclarationsCorrect | tools/migration/crosstool_to_starlark_lib_test.go:1116-1132 | The declarations are one per identifier any toolchain defines, in first-seen order. None is empty and none ends in a failing `else`. Each, evaluated at a defining toolchain's key, yields that toolchain's own definition. |
| Hoist.SingleDefinerUnconditional | tools/migration/crosstool_to_starlark_lib_test.go:1254-1256 | An identifier defined by a single toolchain is declared unconditionally, with that toolchain's definition. |
| Hoist.HoistedIsDefined | tools/migration/crosstool_to_starlark_lib_test.go:1083-1132 | Every hoisted identifier has at least one defining toolchain. |
| Hoist.ReferencesDecode | tools/migration/crosstool_to_starlark_lib_test.go:849-851 | A rewritten list field reads back as the identifiers of the toolchain's items, in its own order. |
| Hoist.ReferencesEqualIff | tools/migration/crosstool_to_starlark_lib_test.go:849-852 | Two reference lists are equal iff they name the same identifiers in the same order, so `[a_feature, b_feature]` and `[b_feature, a_feature]` are different classes. |
| Hoist.ReferencesResolve | tools/migration/crosstool_to_starlark_lib_test.go:838-868 | Every reference names a hoisted identifier whose declaration, evaluated at the referring toolchain, is that toolchain's own definition. |
| Validation.Violation | tools/migration/crosstool_to_starlark_lib_test.go:996-1047 | A flag group has no violation exactly when it is well-formed at every depth, and a reported field really is repeated in some group at or under it. The group's own all-available entries are checked first, then its own none-available entries, then its nested groups in order, and a nested finding comes from the first ill-formed nested group. |
| Validation.SetsViolationIffIllFormed | tools/migration/crosstool_to_starlark_lib_test.go:995-1048 | A list of flag sets yields no violation iff all their flag groups are well-formed. |
| Validation.Validate | tools/migration/crosstool_to_starlark_lib_test.go:1055-1080 | Validation passes iff every feature and action config has well-formed flag sets. A reported error names an owner of the right kind whose flag sets have that violation. |
| Validation.ValidIff | tools/migration/crosstool_to_starlark_lib_test.go:995-1080 | The transform is refused iff some flag group of some feature or action config of some toolchain repeats a guarded field. |
| Validation.MessageInjective | tools/migration/crosstool_to_starlark_lib_test.go:1055-1072 | Two error messages are equal iff they name the same kind of owner, the same owner name and the same field. |
| Validation.Message | tools/migration/crosstool_to_starlark_lib_test.go:1055-1072 | The message starts with `Error in `, quotes the owner name verbatim after the kind prefix, and ends with the quoted field name and ` field`. |
| Render.MakeVariablesExpr | tools/migration/crosstool_to_starlark_lib_test.go:414-446 | The `make_variables` list decodes back to the variables, in order. |
| Render.ToolPathsExpr | tools/migration/crosstool_to_starlark_lib_test.go:518-572 | The `tool_paths` list decodes back to the tool paths, in order. |
| Render.ArtifactNamePatternsExpr | tools/migration/crosstool_to_starlark_lib_test.go:595-762 | The `artifact_name_patterns` list decodes back to the patterns, in order. |
| Render.FlagGroupExpr | tools/migration/crosstool_to_starlark_lib_test.go:1276-1285 | A flag group passes only declared keywords, in declared order. Its single all-available and none-available entries become `expand_if_available` and `expand_if_not_available`. A well-formed flag group, nested groups included, decodes back to itself. |
| Render.FlagSetExpr | tools/migration/crosstool_to_starlark_lib_test.go:1273-1295 | A flag set passes only declared keywords, in declared order, and decodes back to itself when its flag groups are well-formed. |
| Render.ToolExpr | tools/migration/crosstool_to_starlark_lib_test.go:1299-1310 | A tool always passes its path, with an empty path written as `"NOT_USED"`. It decodes back to the tool with its path, feature sets and execution requirements, the empty path read as the placeholder. |
| Render.FeatureExpr | tools/migration/crosstool_to_starlark_lib_test.go:1116-1121 | A feature always passes its name, and passes `enabled = True` only when enabled. When its flag groups are well-formed it decodes back to the whole feature: flag sets, env sets, `requires`, `implies` and `provides`. |
| Render.ActionConfigExpr | tools/migration/crosstool_to_starlark_lib_test.go:1254-1312 | An action config always passes its action name, and passes `enabled = True` only when enabled. When its flag groups are well-formed it decodes back to its action name, `enabled`, flag sets, `implies` and tools, with empty tool paths as the placeholder. |
| Render.ActionConfigIgnoresUnwrittenFields | tools/migration/crosstool_to_starlark_lib_test.go:1225-1312 | Action configs that differ only in config name, env sets or `requires` render alike. |
| Render.EmptyToolPathIsPlaceholder | tools/migration/crosstool_to_starlark_lib_test.go:1194-1196 | A tool with an empty path renders exactly like one whose path is `NOT_USED`. |
| Starlark.Kwargs | tools/migration/crosstool_to_starlark_lib_test.go:1128-1130 | Arguments are passed in declared keyword order, and each declared keyword carries its value or is left out when it has none. |
| Starlark.StringsInjective | tools/migration/crosstool_to_starlark_lib_test.go:340-362 | Two string-list literals are equal iff the lists are equal element by element and in order. |
| Lex.FirstDifferenceDecides | tools/migration/crosstool_to_starlark_lib_test.go:168-173 | At the first position where two strings differ, the smaller character puts its string strictly first. |
| Lex.PrefixFirst | tools/migration/crosstool_to_starlark_lib_test.go:355-362 | A proper prefix sorts strictly before the string it begins. |
| Fixtures.FeatureIdentExamples | tools/migration/crosstool_to_starlark_lib_test.go:838-851 | `A` and `B` become `a_feature` and `b_feature`. |
| Fixtures.ActionIdentExamples | tools/migration/crosstool_to_starlark_lib_test.go:1254-1275 | `A`, `A-B.C` and `action-complex` become `a_action`, `a_b_c_action` and `action_complex_action`. |
| Fixtures.KnownActionIdentExample | tools/migration/crosstool_to_starlark_lib_test.go:1258-1266 | `c++-executable` becomes `cpp_executable_action` through the table of known names. |
| Fixtures.ViolationExamples | tools/migration/crosstool_to_starlark_lib_test.go:996-1047 | Two all-available entries are reported as `expand_if_all_available` and two none-available entries as `expand_if_none_available`. One of each is accepted. |
| Fixtures.QualifierExample | tools/migration/crosstool_to_starlark_lib_test.go:355-360 | In the include-directories fixture, cpuC is split between classes, so its member is qualified by compiler. cpuD is not split and appears bare. |
| FixtureChains.SameCpuIdentifier | tools/migration/crosstool_to_starlark_lib_test.go:168-173 | Two toolchains on cpuA with compilers A and B: the identifier is an `if`/`elif` chain guarded by cpu and compiler, `"1"` first, ending in the failing `else`. |
| FixtureChains.SameCpuHost | tools/migration/crosstool_to_starlark_lib_test.go:176 | The host name both share is assigned without a condition. |
| FixtureChains.SameCpuCompiler | tools/migration/crosstool_to_starlark_lib_test.go:188-193 | The compiler field is guarded by cpu and compiler, compilerA first. |
| FixtureChains.SameCompilerIdentifier | tools/migration/crosstool_to_starlark_lib_test.go:232-237 | Two toolchains on cpuA and cpuB with one compiler: the identifier is guarded by cpu alone. |
| FixtureChains.SameCompilerCpu | tools/migration/crosstool_to_starlark_lib_test.go:240-245 | The cpu field is guarded by cpu alone, cpuA first. |
| FixtureChains.SameCompilerCompiler | tools/migration/crosstool_to_starlark_lib_test.go:248 | The shared compiler is assigned without a condition. |
| FixtureChains.NonMandatoryTargetOs | tools/migration/crosstool_to_starlark_lib_test.go:281-286 | An absent `cc_target_os` is `None` and sorts before `"osA"`, guarded by cpu. |
| FixtureChains.NonMandatorySysroot | tools/migration/crosstool_to_starlark_lib_test.go:289 | A `builtin_sysroot` no toolchain sets is `None`, assigned without a condition. |
| FixtureChains.NoIncludeDirectories | tools/migration/crosstool_to_starlark_lib_test.go:334-337 | Toolchains without include directories give `[]` without a condition. |
| FixtureChains.AllIncludeDirectories | tools/migration/crosstool_to_starlark_lib_test.go:352-362 | Over the five include-directory toolchains: `[]` at cpuA or cpuB, then `["dirC"]` at cpuC with compilerA or at cpuD, then `["dirC", "dirB"]` at cpuC with compilerB, ending in the failing `else`. |
| FixtureChains.FeatureDeclaration | tools/migration/crosstool_to_starlark_lib_test.go:1116-1121 | Feature A, enabled on compilerA, disabled on compilerB and absent on compilerC, is declared disabled first at (cpuA, compilerB), then enabled at (cpuA, compilerA), with no `else`. |
| FixtureChains.ActionConfigDeclaration | tools/migration/crosstool_to_starlark_lib_test.go:1126-1131 | The same shape for action config A: compilerE first with the bare call, then compilerD with `enabled = True`, with no `else`. |
| FixtureErrors.FeatureRejected | tools/migration/crosstool_to_starlark_lib_test.go:996-1021 | A feature A whose flag group repeats `expand_if_all_available`, or `expand_if_none_available`, is reported against feature A with that field. |
| FixtureErrors.ActionConfigRejected | tools/migration/crosstool_to_starlark_lib_test.go:1022-1049 | The same for an action config with action name A. |
| FixtureErrors.FeatureAllMessage | tools/migration/crosstool_to_starlark_lib_test.go:1056-1059 | The feature's all-available message is, character for character, the expected text. |
| FixtureErrors.FeatureNoneMessage | tools/migration/crosstool_to_starlark_lib_test.go:1060-1063 | The feature's none-available message is the expected text. |
| FixtureErrors.ActionConfigAllMessage | tools/migration/crosstool_to_starlark_lib_test.go:1064-1067 | The action config's all-available message is the expected text. |
| FixtureErrors.ActionConfigNoneMessage | tools/migration/crosstool_to_starlark_lib_test.go:1068-1071 | The action config's none-available message is the expected text. |
| FixtureErrors.FeatureTransformFails | tools/migration/crosstool_to_starlark_lib_test.go:1074-1080 | The transform of the rejected feature toolchain fails, and its error text is that feature's message. |
| FixtureErrors.ActionConfigTransformFails | tools/migration/crosstool_to_starlark_lib_test.go:1074-1080 | The transform of the rejected action-config toolchain fails, and its error text is that action config's message. |

## Left out

- Parsing of the text-format CROSSTOOL protobuf and error reporting through the logger. Toolchains are given as already typed records.
- Text layout. This covers indentation, line breaking of constructor calls and of `or`-joined terms, and the `def`/`return` scaffolding around the statements. The model produces a structured expression tree and statement list instead of text.
- The generated text is matched by substring in the fixtures, so only each statement's content is modelled, not what surrounds it.
- The full table of standard action names. It is a parameter `known`, and the fixtures instantiate only `c++-executable`.
- The exact sort key used to order branches. It is a parameter `rank` from values to strings, compared by code point (`Lex.Le`), with ties kept in first-seen order. `FixtureChains.Rank` is one key that reproduces the orders worked out in `fixture_chains.dfy`: test 168-193, 232-245, 281-286, 352-362, 1116-1121 and 1126-1131. It takes a string's text, a list of strings or references as its items joined with spaces, and anything else as its one-line text. Under it `[]` sorts before `["dirC"]`, which sorts before `["dirC", "dirB"]`, and `feature(name = "A")` sorts before `feature(name = "A", enabled = True)`.
- FixtureChains.Rank: does not reproduce the orders of constructor values at test 449-467, 555-572, 667-678, 723-762 and 1260-1266. There a list of calls written over several lines comes before `[]` and before a one-line list, and the multi-line `action_config(...)` at 1261-1264 comes before the one-line call at 1266. These orders follow the line layout of the generated text, which the model leaves out, so no key over one-line text gives them.
- Duplicate `(cpu, compiler)` pairs. No fixture exercises them, and they are a precondition (`UniqueKeys`) of `Migration.Transform`.
- Hoist.Sanitize: only `-`, `.` and ASCII capitals are rewritten, and every other character is kept. The identifiers at test 1154-1156, 1256 and 1270-1271 exercise nothing else.
- Hoist.Definition: when one toolchain defines the same identifier twice, its first definition is used. The fixtures never do this.
- Validation.Validate: the order in which owners are checked is features of all toolchains first, then action configs, and within a flag group its own fields before nested groups. The fixtures have one offender each, so they do not fix this order.
- Validation.Validate: an action config is named in its error by its action name, not its config name. The fixtures at 1024-1025 give both as `A`, so they do not tell the two apart.
- Render.ActionConfigExpr: an action config's config name, env sets and `requires` are not written, as the fixture at 1225-1312 shows. It therefore decodes back only to those fields it writes.
- Render.FlagGroupExpr, Render.FlagSetExpr, Render.FeatureExpr and Render.ActionConfigExpr: the decode round trip is promised only for well-formed flag groups. Only the first `expand_if_all_available` and `expand_if_none_available` entry is written, and validation refuses every group with more.
- Line-number and position information of errors, which the fixtures do not show.
