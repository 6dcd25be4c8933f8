/**
 * Rendering of record values into Starlark constructor calls. Only arguments
 * with non-default content are passed, always in the constructor's declared
 * order. Line layout (one line or one argument per line) is not modelled.
 *
 * Every renderer comes with a decoder that reads the record back from the
 * call; the round trips say that rendering loses nothing except what the
 * output format deliberately drops.
 */
module Render {
  import opened Base
  import opened Records
  import opened Starlark
  import Validation

  /** The placeholder written for a tool whose path is empty. */
  const NotUsedPath := "NOT_USED"

  const FlagGroupArgs := ["flags", "flag_groups", "iterate_over", "expand_if_available",
                          "expand_if_not_available", "expand_if_true", "expand_if_false", "expand_if_equal"]
  const FlagSetArgs := ["actions", "flag_groups", "with_features"]
  const EnvSetArgs := ["actions", "env_entries", "with_features"]
  const WithFeatureSetArgs := ["features", "not_features"]
  const ToolArgs := ["path", "with_features", "execution_requirements"]
  const FeatureArgs := ["name", "enabled", "flag_sets", "env_sets", "requires", "implies", "provides"]
  const ActionConfigArgs := ["action_name", "enabled", "flag_sets", "implies", "tools"]

  /** No constructor declares a keyword twice. */
  lemma {:induction false} FlagGroupArgsDistinct()
    ensures NoDup(FlagGroupArgs)
  {
  }

  lemma {:induction false} FlagSetArgsDistinct()
    ensures NoDup(FlagSetArgs) && NoDup(EnvSetArgs) && NoDup(WithFeatureSetArgs) && NoDup(ToolArgs)
  {
  }

  lemma {:induction false} FeatureArgsDistinct()
    ensures NoDup(FeatureArgs)
  {
  }

  lemma {:induction false} ActionConfigArgsDistinct()
    ensures NoDup(ActionConfigArgs)
  {
  }

  // ---- simple constructors, each with its decoder ----

  function DecodePair(e: Expr, callee: string, first: string, second: string): Option<(string, string)> {
    if e.Call? && e.callee == callee && |e.args| == 2
      && e.args[0].name == first && e.args[0].value.Str?
      && e.args[1].name == second && e.args[1].value.Str?
    then Some((e.args[0].value.s, e.args[1].value.s))
    else None
  }

  function DecodeMakeVariable(e: Expr): Option<MakeVariable> {
    match DecodePair(e, "make_variable", "name", "value")
    case Some(p) => Some(MakeVariable(p.0, p.1))
    case None => None
  }

  function DecodeToolPath(e: Expr): Option<ToolPath> {
    match DecodePair(e, "tool_path", "name", "path")
    case Some(p) => Some(ToolPath(p.0, p.1))
    case None => None
  }

  function DecodeArtifactNamePattern(e: Expr): Option<ArtifactNamePattern> {
    if e.Call? && e.callee == "artifact_name_pattern" && |e.args| == 3
      && e.args[0].name == "category_name" && e.args[0].value.Str?
      && e.args[1].name == "prefix" && e.args[1].value.Str?
      && e.args[2].name == "extension" && e.args[2].value.Str?
    then Some(ArtifactNamePattern(e.args[0].value.s, e.args[1].value.s, e.args[2].value.s))
    else None
  }

  function DecodeVariableWithValue(e: Expr): Option<VariableWithValue> {
    match DecodePair(e, "variable_with_value", "name", "value")
    case Some(p) => Some(VariableWithValue(p.0, p.1))
    case None => None
  }

  function DecodeEnvEntry(e: Expr): Option<EnvEntry> {
    match DecodePair(e, "env_entry", "key", "value")
    case Some(p) => Some(EnvEntry(p.0, p.1))
    case None => None
  }

  /** `make_variable(name = ..., value = ...)`. */
  function MakeVariableExpr(m: MakeVariable): (e: Expr)
    ensures DecodeMakeVariable(e) == Some(m)
  {
    Call("make_variable", [KwArg("name", Str(m.name)), KwArg("value", Str(m.value))])
  }

  /** `tool_path(name = ..., path = ...)`. */
  function ToolPathExpr(t: ToolPath): (e: Expr)
    ensures DecodeToolPath(e) == Some(t)
  {
    Call("tool_path", [KwArg("name", Str(t.name)), KwArg("path", Str(t.path))])
  }

  /** `artifact_name_pattern(category_name = ..., prefix = ..., extension = ...)`. */
  function ArtifactNamePatternExpr(p: ArtifactNamePattern): (e: Expr)
    ensures DecodeArtifactNamePattern(e) == Some(p)
  {
    Call("artifact_name_pattern",
      [KwArg("category_name", Str(p.categoryName)), KwArg("prefix", Str(p.prefix)), KwArg("extension", Str(p.extension))])
  }

  /** `variable_with_value(name = ..., value = ...)`. */
  function VariableWithValueExpr(v: VariableWithValue): (e: Expr)
    ensures DecodeVariableWithValue(e) == Some(v)
  {
    Call("variable_with_value", [KwArg("name", Str(v.variable)), KwArg("value", Str(v.value))])
  }

  /** `env_entry(key = ..., value = ...)`. */
  function EnvEntryExpr(x: EnvEntry): (e: Expr)
    ensures DecodeEnvEntry(e) == Some(x)
  {
    Call("env_entry", [KwArg("key", Str(x.key)), KwArg("value", Str(x.value))])
  }

  /** The `make_variables` list; decoding it gives back the variables in order. */
  function MakeVariablesExpr(ms: seq<MakeVariable>): (e: Expr)
    ensures DecodeList(e, DecodeMakeVariable) == Some(ms)
  {
    var items := seq(|ms|, i requires 0 <= i < |ms| => MakeVariableExpr(ms[i]));
    DecodeAllOf(items, DecodeMakeVariable, ms);
    ListOf(items)
  }

  /** The `tool_paths` list; decoding it gives back the tool paths in order. */
  function ToolPathsExpr(ts: seq<ToolPath>): (e: Expr)
    ensures DecodeList(e, DecodeToolPath) == Some(ts)
  {
    var items := seq(|ts|, i requires 0 <= i < |ts| => ToolPathExpr(ts[i]));
    DecodeAllOf(items, DecodeToolPath, ts);
    ListOf(items)
  }

  /** The `artifact_name_patterns` list; decoding it gives back the patterns in order. */
  function ArtifactNamePatternsExpr(ps: seq<ArtifactNamePattern>): (e: Expr)
    ensures DecodeList(e, DecodeArtifactNamePattern) == Some(ps)
  {
    var items := seq(|ps|, i requires 0 <= i < |ps| => ArtifactNamePatternExpr(ps[i]));
    DecodeAllOf(items, DecodeArtifactNamePattern, ps);
    ListOf(items)
  }

  // ---- reading back arguments that may be left out ----

  /** A list argument; a left-out one is the empty list. */
  function DecodeListArg<T>(a: Option<Expr>, decode: Expr -> Option<T>): Option<seq<T>> {
    match a
    case None => Some([])
    case Some(e) => DecodeList(e, decode)
  }

  /** An optional argument; a left-out one is absent. */
  function DecodeOptionalArg<T>(a: Option<Expr>, decode: Expr -> Option<T>): Option<Option<T>> {
    match a
    case None => Some(None)
    case Some(e) => match decode(e) case Some(x) => Some(Some(x)) case None => None
  }

  /** `expand_if_available` / `expand_if_not_available`: one variable name, none when left out. */
  function DecodeSingleArg(a: Option<Expr>): Option<seq<string>> {
    match a
    case None => Some([])
    case Some(e) => if e.Str? then Some([e.s]) else None
  }

  /** `enabled`: written only as `True`, false when left out. */
  function DecodeEnabledArg(a: Option<Expr>): Option<bool> {
    match a
    case None => Some(false)
    case Some(e) => if e.BoolLit? then Some(e.b) else None
  }

  /** A list argument built from items that each decode back decodes to the whole sequence. */
  lemma {:induction false} ListArgDecodes<T>(name: string, items: seq<Expr>, decode: Expr -> Option<T>, xs: seq<T>)
    requires |items| == |xs| && forall i :: 0 <= i < |xs| ==> decode(items[i]) == Some(xs[i])
    ensures DecodeListArg(ListArg(name, items).1, decode) == Some(xs)
  {
    DecodeAllOf(items, decode, xs);
  }

  lemma {:induction false} StringsArgDecodes(name: string, xs: seq<string>)
    ensures DecodeListArg(StringsArg(name, xs).1, DecodeStr) == Some(xs)
  {
    StringsDecode(xs);
  }

  // ---- nested structures of features and action configs ----

  function First(xs: seq<string>): Option<string> {
    if |xs| == 0 then None else Some(xs[0])
  }

  function DecodeWithFeatureSet(e: Expr): Option<WithFeatureSet> {
    if e.Call? && e.callee == "with_feature_set" then
      match (DecodeListArg(Arg(e.args, "features"), DecodeStr), DecodeListArg(Arg(e.args, "not_features"), DecodeStr))
      case (Some(f), Some(n)) => Some(WithFeatureSet(f, n))
      case _ => None
    else None
  }

  /** `with_feature_set(...)`; decoding it gives back both lists. */
  function WithFeatureSetExpr(w: WithFeatureSet): (e: Expr)
    ensures e.Call? && e.callee == "with_feature_set" && SubsequenceOf(ArgNames(e.args), WithFeatureSetArgs)
    ensures DecodeWithFeatureSet(e) == Some(w)
  {
    var cands := [StringsArg("features", w.features), StringsArg("not_features", w.notFeatures)];
    assert CandidateNames(cands) == WithFeatureSetArgs;
    FlagSetArgsDistinct();
    var args := Kwargs(cands);
    assert Arg(args, cands[0].0) == cands[0].1 && Arg(args, cands[1].0) == cands[1].1;
    StringsArgDecodes("features", w.features);
    StringsArgDecodes("not_features", w.notFeatures);
    Call("with_feature_set", args)
  }

  function WithFeatureSetsArg(ws: seq<WithFeatureSet>): Candidate {
    ListArg("with_features", seq(|ws|, i requires 0 <= i < |ws| => WithFeatureSetExpr(ws[i])))
  }

  lemma {:induction false} WithFeatureSetsArgDecodes(ws: seq<WithFeatureSet>)
    ensures DecodeListArg(WithFeatureSetsArg(ws).1, DecodeWithFeatureSet) == Some(ws)
  {
    var items := seq(|ws|, i requires 0 <= i < |ws| => WithFeatureSetExpr(ws[i]));
    ListArgDecodes("with_features", items, DecodeWithFeatureSet, ws);
  }

  /**
   * A flag group call read back: the flags, the nested groups, the optional
   * strings, and the single `expand_if_available` / `expand_if_not_available`
   * as one-element `expand_if_all_available` / `expand_if_none_available`.
   */
  function DecodeFlagGroup(e: Expr): Option<FlagGroup>
    decreases e
  {
    if !(e.Call? && e.callee == "flag_group") then None
    else
      var nested: Option<seq<FlagGroup>> :=
        match Arg(e.args, "flag_groups")
        case None => Some([])
        case Some(kids) =>
          if !kids.ListOf? then None
          else
            assert forall i :: 0 <= i < |kids.items| ==> kids.items[i] < e by {
              var j :| 0 <= j < |e.args| && e.args[j] == KwArg("flag_groups", kids);
              assert e.args[j] < e;
            }
            AllSome(seq(|kids.items|, i requires 0 <= i < |kids.items| => DecodeFlagGroup(kids.items[i])));
      if nested.Some? then DecodeGroupFields(e.args, nested.value) else None
  }

  /** Everything of a flag group call except its nested groups, which are given. */
  function DecodeGroupFields(args: seq<KwArg>, nested: seq<FlagGroup>): Option<FlagGroup> {
    var flags := DecodeListArg(Arg(args, "flags"), DecodeStr);
    var over := DecodeOptionalArg(Arg(args, "iterate_over"), DecodeStr);
    var all := DecodeSingleArg(Arg(args, "expand_if_available"));
    var none := DecodeSingleArg(Arg(args, "expand_if_not_available"));
    var yes := DecodeOptionalArg(Arg(args, "expand_if_true"), DecodeStr);
    var no := DecodeOptionalArg(Arg(args, "expand_if_false"), DecodeStr);
    var equal := DecodeOptionalArg(Arg(args, "expand_if_equal"), DecodeVariableWithValue);
    if flags.Some? && over.Some? && all.Some? && none.Some? && yes.Some? && no.Some? && equal.Some?
    then Some(FlagGroup(flags.value, nested, over.value, all.value, none.value, yes.value, no.value, equal.value))
    else None
  }

  function FlagGroupCandidates(g: FlagGroup, kids: seq<Expr>): seq<Candidate> {
    [
      StringsArg("flags", g.flags),
      ListArg("flag_groups", kids),
      OptionalStrArg("iterate_over", g.iterateOver),
      OptionalStrArg("expand_if_available", First(g.expandIfAllAvailable)),
      OptionalStrArg("expand_if_not_available", First(g.expandIfNoneAvailable)),
      OptionalStrArg("expand_if_true", g.expandIfTrue),
      OptionalStrArg("expand_if_false", g.expandIfFalse),
      ("expand_if_equal", match g.expandIfEqual case Some(v) => Some(VariableWithValueExpr(v)) case None => None)
    ]
  }

  /**
   * A flag group; the single `expand_if_all_available` / `expand_if_none_available`
   * become `expand_if_available` / `expand_if_not_available`. For a group the
   * validator accepts, decoding the call gives back the whole group.
   */
  function FlagGroupExpr(g: FlagGroup): (e: Expr)
    ensures e.Call? && e.callee == "flag_group" && SubsequenceOf(ArgNames(e.args), FlagGroupArgs)
    ensures Arg(e.args, "expand_if_available") == (if |g.expandIfAllAvailable| == 0 then None else Some(Str(g.expandIfAllAvailable[0])))
    ensures Arg(e.args, "expand_if_not_available") == (if |g.expandIfNoneAvailable| == 0 then None else Some(Str(g.expandIfNoneAvailable[0])))
    ensures Validation.WellFormed(g) ==> DecodeFlagGroup(e) == Some(g)
    decreases g
  {
    var kids := seq(|g.flagGroups|, i requires 0 <= i < |g.flagGroups| => FlagGroupExpr(g.flagGroups[i]));
    var cands := FlagGroupCandidates(g, kids);
    assert CandidateNames(cands) == FlagGroupArgs;
    FlagGroupArgsDistinct();
    var args := Kwargs(cands);
    assert Arg(args, "flags") == cands[0].1;
    assert Arg(args, "flag_groups") == cands[1].1;
    assert Arg(args, "iterate_over") == cands[2].1;
    assert Arg(args, "expand_if_available") == cands[3].1;
    assert Arg(args, "expand_if_not_available") == cands[4].1;
    assert Arg(args, "expand_if_true") == cands[5].1;
    assert Arg(args, "expand_if_false") == cands[6].1;
    assert Arg(args, "expand_if_equal") == cands[7].1;
    assert Validation.WellFormed(g) ==> DecodeFlagGroup(Call("flag_group", args)) == Some(g) by {
      if Validation.WellFormed(g) {
        NestedGroupsDecode(g, kids);
        FlagGroupCallDecodes(g, kids, args);
      }
    }
    Call("flag_group", args)
  }

  /** Nested calls that each decode back decode, together, to the nested groups. */
  lemma {:induction false} NestedGroupsDecode(g: FlagGroup, kids: seq<Expr>)
    requires Validation.WellFormed(g) && |kids| == |g.flagGroups|
    requires forall i :: 0 <= i < |kids| ==> Validation.WellFormed(g.flagGroups[i]) ==> DecodeFlagGroup(kids[i]) == Some(g.flagGroups[i])
    ensures AllSome(seq(|kids|, i requires 0 <= i < |kids| => DecodeFlagGroup(kids[i]))) == Some(g.flagGroups)
  {
    AllSomeOf(seq(|kids|, i requires 0 <= i < |kids| => DecodeFlagGroup(kids[i])), g.flagGroups);
  }

  /** The decoding half of `FlagGroupExpr`: the nested groups, then the group's own arguments. */
  lemma {:induction false} FlagGroupCallDecodes(g: FlagGroup, kids: seq<Expr>, args: seq<KwArg>)
    requires Validation.WellFormed(g)
    requires |kids| == |g.flagGroups| && AllSome(seq(|kids|, i requires 0 <= i < |kids| => DecodeFlagGroup(kids[i]))) == Some(g.flagGroups)
    requires Arg(args, "flags") == StringsArg("flags", g.flags).1
    requires Arg(args, "flag_groups") == ListArg("flag_groups", kids).1
    requires Arg(args, "iterate_over") == OptionalStrArg("iterate_over", g.iterateOver).1
    requires Arg(args, "expand_if_available") == OptionalStrArg("expand_if_available", First(g.expandIfAllAvailable)).1
    requires Arg(args, "expand_if_not_available") == OptionalStrArg("expand_if_not_available", First(g.expandIfNoneAvailable)).1
    requires Arg(args, "expand_if_true") == OptionalStrArg("expand_if_true", g.expandIfTrue).1
    requires Arg(args, "expand_if_false") == OptionalStrArg("expand_if_false", g.expandIfFalse).1
    requires Arg(args, "expand_if_equal") == (match g.expandIfEqual case Some(v) => Some(VariableWithValueExpr(v)) case None => None)
    ensures DecodeFlagGroup(Call("flag_group", args)) == Some(g)
  {
    GroupFieldsDecode(g, args);
    if |kids| == 0 {
      assert g.flagGroups == [];
    }
  }

  lemma {:induction false} GroupFieldsDecode(g: FlagGroup, args: seq<KwArg>)
    requires |g.expandIfAllAvailable| <= 1 && |g.expandIfNoneAvailable| <= 1
    requires Arg(args, "flags") == StringsArg("flags", g.flags).1
    requires Arg(args, "iterate_over") == OptionalStrArg("iterate_over", g.iterateOver).1
    requires Arg(args, "expand_if_available") == OptionalStrArg("expand_if_available", First(g.expandIfAllAvailable)).1
    requires Arg(args, "expand_if_not_available") == OptionalStrArg("expand_if_not_available", First(g.expandIfNoneAvailable)).1
    requires Arg(args, "expand_if_true") == OptionalStrArg("expand_if_true", g.expandIfTrue).1
    requires Arg(args, "expand_if_false") == OptionalStrArg("expand_if_false", g.expandIfFalse).1
    requires Arg(args, "expand_if_equal") == (match g.expandIfEqual case Some(v) => Some(VariableWithValueExpr(v)) case None => None)
    ensures DecodeGroupFields(args, g.flagGroups) == Some(g)
  {
    StringsArgDecodes("flags", g.flags);
    OptionalStrArgDecodes("iterate_over", g.iterateOver);
    AtMostOne(g.expandIfAllAvailable);
    AtMostOne(g.expandIfNoneAvailable);
    OptionalStrArgDecodes("expand_if_true", g.expandIfTrue);
    OptionalStrArgDecodes("expand_if_false", g.expandIfFalse);
    var equal := match g.expandIfEqual case Some(v) => Some(VariableWithValueExpr(v)) case None => None;
    assert DecodeOptionalArg(equal, DecodeVariableWithValue) == Some(g.expandIfEqual);
  }

  lemma OptionalStrArgDecodes(name: string, x: Option<string>)
    ensures DecodeOptionalArg(OptionalStrArg(name, x).1, DecodeStr) == Some(x)
  {
  }

  /** A list of at most one entry is the entry its first element names, or nothing. */
  lemma AtMostOne(xs: seq<string>)
    requires |xs| <= 1
    ensures DecodeSingleArg(OptionalStrArg("", First(xs)).1) == Some(xs)
  {
    if |xs| == 1 {
      assert xs == [xs[0]];
    }
  }

  function DecodeFlagSet(e: Expr): Option<FlagSet> {
    if e.Call? && e.callee == "flag_set" then
      match (DecodeListArg(Arg(e.args, "actions"), DecodeStr),
             DecodeListArg(Arg(e.args, "flag_groups"), DecodeFlagGroup),
             DecodeListArg(Arg(e.args, "with_features"), DecodeWithFeatureSet))
      case (Some(a), Some(gs), Some(ws)) => Some(FlagSet(a, gs, ws))
      case _ => None
    else None
  }

  /** Every flag group of the set is one the validator accepts. */
  predicate GroupsWellFormed(s: FlagSet) {
    forall i :: 0 <= i < |s.flagGroups| ==> Validation.WellFormed(s.flagGroups[i])
  }

  /** `flag_set(...)`; for groups the validator accepts, decoding it gives back the set. */
  function FlagSetExpr(s: FlagSet): (e: Expr)
    ensures e.Call? && e.callee == "flag_set" && SubsequenceOf(ArgNames(e.args), FlagSetArgs)
    ensures GroupsWellFormed(s) ==> DecodeFlagSet(e) == Some(s)
  {
    var groups := seq(|s.flagGroups|, i requires 0 <= i < |s.flagGroups| => FlagGroupExpr(s.flagGroups[i]));
    var cands := [
      StringsArg("actions", s.actions),
      ListArg("flag_groups", groups),
      WithFeatureSetsArg(s.withFeatures)
    ];
    assert CandidateNames(cands) == FlagSetArgs;
    FlagSetArgsDistinct();
    var args := Kwargs(cands);
    assert Arg(args, cands[0].0) == cands[0].1 && Arg(args, cands[1].0) == cands[1].1 && Arg(args, cands[2].0) == cands[2].1;
    assert GroupsWellFormed(s) ==> DecodeFlagSet(Call("flag_set", args)) == Some(s) by {
      if GroupsWellFormed(s) {
        StringsArgDecodes("actions", s.actions);
        ListArgDecodes("flag_groups", groups, DecodeFlagGroup, s.flagGroups);
        WithFeatureSetsArgDecodes(s.withFeatures);
      }
    }
    Call("flag_set", args)
  }

  function FlagSetsArg(ss: seq<FlagSet>): Candidate {
    ListArg("flag_sets", seq(|ss|, i requires 0 <= i < |ss| => FlagSetExpr(ss[i])))
  }

  lemma {:induction false} FlagSetsArgDecodes(ss: seq<FlagSet>)
    requires Validation.SetsWellFormed(ss)
    ensures DecodeListArg(FlagSetsArg(ss).1, DecodeFlagSet) == Some(ss)
  {
    var items := seq(|ss|, i requires 0 <= i < |ss| => FlagSetExpr(ss[i]));
    forall i | 0 <= i < |ss|
      ensures DecodeFlagSet(items[i]) == Some(ss[i])
    {
      assert GroupsWellFormed(ss[i]);
    }
    ListArgDecodes("flag_sets", items, DecodeFlagSet, ss);
  }

  function DecodeEnvSet(e: Expr): Option<EnvSet> {
    if e.Call? && e.callee == "env_set" then
      match (DecodeListArg(Arg(e.args, "actions"), DecodeStr),
             DecodeListArg(Arg(e.args, "env_entries"), DecodeEnvEntry),
             DecodeListArg(Arg(e.args, "with_features"), DecodeWithFeatureSet))
      case (Some(a), Some(xs), Some(ws)) => Some(EnvSet(a, xs, ws))
      case _ => None
    else None
  }

  /** `env_set(...)`; decoding it gives back the set. */
  function EnvSetExpr(s: EnvSet): (e: Expr)
    ensures e.Call? && e.callee == "env_set" && SubsequenceOf(ArgNames(e.args), EnvSetArgs)
    ensures DecodeEnvSet(e) == Some(s)
  {
    var entries := seq(|s.envEntries|, i requires 0 <= i < |s.envEntries| => EnvEntryExpr(s.envEntries[i]));
    var cands := [
      StringsArg("actions", s.actions),
      ListArg("env_entries", entries),
      WithFeatureSetsArg(s.withFeatures)
    ];
    assert CandidateNames(cands) == EnvSetArgs;
    FlagSetArgsDistinct();
    var args := Kwargs(cands);
    assert Arg(args, cands[0].0) == cands[0].1 && Arg(args, cands[1].0) == cands[1].1 && Arg(args, cands[2].0) == cands[2].1;
    StringsArgDecodes("actions", s.actions);
    ListArgDecodes("env_entries", entries, DecodeEnvEntry, s.envEntries);
    WithFeatureSetsArgDecodes(s.withFeatures);
    Call("env_set", args)
  }

  function DecodeFeatureSet(e: Expr): Option<FeatureSet> {
    if e.Call? && e.callee == "feature_set" then
      match DecodeListArg(Arg(e.args, "features"), DecodeStr)
      case Some(fs) => Some(FeatureSet(fs))
      case None => None
    else None
  }

  /** `feature_set(features = [...])`, one `requires` block; decoding it gives back the block. */
  function FeatureSetExpr(s: FeatureSet): (e: Expr)
    ensures DecodeFeatureSet(e) == Some(s)
  {
    var cands := [StringsArg("features", s.features)];
    var args := Kwargs(cands);
    assert NoDup(CandidateNames(cands));
    assert Arg(args, cands[0].0) == cands[0].1;
    StringsArgDecodes("features", s.features);
    Call("feature_set", args)
  }

  /** The path a tool is written with: the placeholder when empty. */
  function WrittenPath(path: string): string {
    if path == "" then NotUsedPath else path
  }

  /** A tool as its call reads back: an empty path comes back as the placeholder. */
  function WrittenTool(t: Tool): Tool {
    t.(path := WrittenPath(t.path))
  }

  function DecodeTool(e: Expr): Option<Tool> {
    if e.Call? && e.callee == "tool" then
      match (Arg(e.args, "path"),
             DecodeListArg(Arg(e.args, "with_features"), DecodeWithFeatureSet),
             DecodeListArg(Arg(e.args, "execution_requirements"), DecodeStr))
      case (Some(Str(p)), Some(ws), Some(rs)) => Some(Tool(p, ws, rs))
      case _ => None
    else None
  }

  /**
   * A tool; an empty path is written as the placeholder path. Decoding the
   * call gives back the tool, with the placeholder for an empty path.
   */
  function ToolExpr(t: Tool): (e: Expr)
    ensures e.Call? && e.callee == "tool" && SubsequenceOf(ArgNames(e.args), ToolArgs)
    ensures Arg(e.args, "path") == Some(Str(WrittenPath(t.path)))
    ensures DecodeTool(e) == Some(WrittenTool(t))
  {
    var cands := [
      StrArg("path", WrittenPath(t.path)),
      WithFeatureSetsArg(t.withFeatures),
      StringsArg("execution_requirements", t.executionRequirements)
    ];
    assert CandidateNames(cands) == ToolArgs;
    FlagSetArgsDistinct();
    var args := Kwargs(cands);
    assert Arg(args, cands[0].0) == cands[0].1 && Arg(args, cands[1].0) == cands[1].1 && Arg(args, cands[2].0) == cands[2].1;
    WithFeatureSetsArgDecodes(t.withFeatures);
    StringsArgDecodes("execution_requirements", t.executionRequirements);
    Call("tool", args)
  }

  function DecodeFeature(e: Expr): Option<Feature> {
    if e.Call? && e.callee == "feature" then
      match (Arg(e.args, "name"), DecodeEnabledArg(Arg(e.args, "enabled")),
             DecodeListArg(Arg(e.args, "flag_sets"), DecodeFlagSet),
             DecodeListArg(Arg(e.args, "env_sets"), DecodeEnvSet),
             DecodeListArg(Arg(e.args, "requires"), DecodeFeatureSet),
             DecodeListArg(Arg(e.args, "implies"), DecodeStr),
             DecodeListArg(Arg(e.args, "provides"), DecodeStr))
      case (Some(Str(n)), Some(en), Some(fs), Some(es), Some(rs), Some(im), Some(pr)) => Some(Feature(n, en, fs, es, rs, im, pr))
      case _ => None
    else None
  }

  function FeatureCandidates(f: Feature): seq<Candidate> {
    [
      StrArg("name", f.name),
      ("enabled", if f.enabled then Some(BoolLit(true)) else None),
      FlagSetsArg(f.flagSets),
      ListArg("env_sets", seq(|f.envSets|, i requires 0 <= i < |f.envSets| => EnvSetExpr(f.envSets[i]))),
      ListArg("requires", seq(|f.requiredSets|, i requires 0 <= i < |f.requiredSets| => FeatureSetExpr(f.requiredSets[i]))),
      StringsArg("implies", f.implies),
      StringsArg("provides", f.providedFeatures)
    ]
  }

  /**
   * `feature(...)`: the name always, `enabled = True` only when enabled. For a
   * feature the validator accepts, decoding the call gives back the feature.
   */
  function FeatureExpr(f: Feature): (e: Expr)
    ensures e.Call? && e.callee == "feature" && SubsequenceOf(ArgNames(e.args), FeatureArgs)
    ensures Arg(e.args, "name") == Some(Str(f.name))
    ensures Arg(e.args, "enabled") == (if f.enabled then Some(BoolLit(true)) else None)
    ensures Validation.SetsWellFormed(f.flagSets) ==> DecodeFeature(e) == Some(f)
  {
    var cands := FeatureCandidates(f);
    assert CandidateNames(cands) == FeatureArgs;
    FeatureArgsDistinct();
    var args := Kwargs(cands);
    assert Arg(args, "name") == cands[0].1;
    assert Arg(args, "enabled") == cands[1].1;
    assert Arg(args, "flag_sets") == cands[2].1;
    assert Arg(args, "env_sets") == cands[3].1;
    assert Arg(args, "requires") == cands[4].1;
    assert Arg(args, "implies") == cands[5].1;
    assert Arg(args, "provides") == cands[6].1;
    assert Validation.SetsWellFormed(f.flagSets) ==> DecodeFeature(Call("feature", args)) == Some(f) by {
      if Validation.SetsWellFormed(f.flagSets) {
        FeatureCallDecodes(f, args);
      }
    }
    Call("feature", args)
  }

  /** The decoding half of `FeatureExpr`, argument by argument. */
  lemma {:induction false} FeatureCallDecodes(f: Feature, args: seq<KwArg>)
    requires Validation.SetsWellFormed(f.flagSets)
    requires Arg(args, "name") == Some(Str(f.name))
    requires Arg(args, "enabled") == (if f.enabled then Some(BoolLit(true)) else None)
    requires Arg(args, "flag_sets") == FlagSetsArg(f.flagSets).1
    requires Arg(args, "env_sets") == FeatureCandidates(f)[3].1
    requires Arg(args, "requires") == FeatureCandidates(f)[4].1
    requires Arg(args, "implies") == StringsArg("implies", f.implies).1
    requires Arg(args, "provides") == StringsArg("provides", f.providedFeatures).1
    ensures DecodeFeature(Call("feature", args)) == Some(f)
  {
    var envs := seq(|f.envSets|, i requires 0 <= i < |f.envSets| => EnvSetExpr(f.envSets[i]));
    var reqs := seq(|f.requiredSets|, i requires 0 <= i < |f.requiredSets| => FeatureSetExpr(f.requiredSets[i]));
    assert DecodeListArg(Arg(args, "flag_sets"), DecodeFlagSet) == Some(f.flagSets) by {
      FlagSetsArgDecodes(f.flagSets);
    }
    assert DecodeListArg(Arg(args, "env_sets"), DecodeEnvSet) == Some(f.envSets) by {
      assert FeatureCandidates(f)[3] == ListArg("env_sets", envs);
      ListArgDecodes("env_sets", envs, DecodeEnvSet, f.envSets);
    }
    assert DecodeListArg(Arg(args, "requires"), DecodeFeatureSet) == Some(f.requiredSets) by {
      assert FeatureCandidates(f)[4] == ListArg("requires", reqs);
      ListArgDecodes("requires", reqs, DecodeFeatureSet, f.requiredSets);
    }
    assert DecodeListArg(Arg(args, "implies"), DecodeStr) == Some(f.implies) by {
      StringsArgDecodes("implies", f.implies);
    }
    assert DecodeListArg(Arg(args, "provides"), DecodeStr) == Some(f.providedFeatures) by {
      StringsArgDecodes("provides", f.providedFeatures);
    }
    assert DecodeEnabledArg(Arg(args, "enabled")) == Some(f.enabled);
    FeatureFromParts(f, args);
  }

  /** A feature call whose every argument decodes to the feature's field decodes to the feature. */
  lemma {:induction false} FeatureFromParts(f: Feature, args: seq<KwArg>)
    requires Arg(args, "name") == Some(Str(f.name))
    requires DecodeEnabledArg(Arg(args, "enabled")) == Some(f.enabled)
    requires DecodeListArg(Arg(args, "flag_sets"), DecodeFlagSet) == Some(f.flagSets)
    requires DecodeListArg(Arg(args, "env_sets"), DecodeEnvSet) == Some(f.envSets)
    requires DecodeListArg(Arg(args, "requires"), DecodeFeatureSet) == Some(f.requiredSets)
    requires DecodeListArg(Arg(args, "implies"), DecodeStr) == Some(f.implies)
    requires DecodeListArg(Arg(args, "provides"), DecodeStr) == Some(f.providedFeatures)
    ensures DecodeFeature(Call("feature", args)) == Some(f)
  {
  }

  /**
   * An action config as its call reads back: the config name is the action
   * name, env sets and requires blocks are gone, and empty tool paths come back
   * as the placeholder.
   */
  function WrittenActionConfig(a: ActionConfig): ActionConfig {
    ActionConfig(a.actionName, a.actionName, a.enabled,
      seq(|a.tools|, i requires 0 <= i < |a.tools| => WrittenTool(a.tools[i])), a.flagSets, [], [], a.implies)
  }

  function DecodeActionConfig(e: Expr): Option<ActionConfig> {
    if e.Call? && e.callee == "action_config" then
      match (Arg(e.args, "action_name"), DecodeEnabledArg(Arg(e.args, "enabled")),
             DecodeListArg(Arg(e.args, "flag_sets"), DecodeFlagSet),
             DecodeListArg(Arg(e.args, "implies"), DecodeStr),
             DecodeListArg(Arg(e.args, "tools"), DecodeTool))
      case (Some(Str(n)), Some(en), Some(fs), Some(im), Some(ts)) => Some(ActionConfig(n, n, en, ts, fs, [], [], im))
      case _ => None
    else None
  }

  function ActionConfigCandidates(a: ActionConfig): seq<Candidate> {
    [
      StrArg("action_name", a.actionName),
      ("enabled", if a.enabled then Some(BoolLit(true)) else None),
      FlagSetsArg(a.flagSets),
      StringsArg("implies", a.implies),
      ListArg("tools", seq(|a.tools|, i requires 0 <= i < |a.tools| => ToolExpr(a.tools[i])))
    ]
  }

  /**
   * `action_config(...)`: the action name always, `enabled = True` only when
   * enabled; the config name, env sets and requires blocks are not written. For
   * an action config the validator accepts, decoding the call gives back
   * everything else.
   */
  function ActionConfigExpr(a: ActionConfig): (e: Expr)
    ensures e.Call? && e.callee == "action_config" && SubsequenceOf(ArgNames(e.args), ActionConfigArgs)
    ensures Arg(e.args, "action_name") == Some(Str(a.actionName))
    ensures Arg(e.args, "enabled") == (if a.enabled then Some(BoolLit(true)) else None)
    ensures Validation.SetsWellFormed(a.flagSets) ==> DecodeActionConfig(e) == Some(WrittenActionConfig(a))
  {
    var cands := ActionConfigCandidates(a);
    assert CandidateNames(cands) == ActionConfigArgs;
    ActionConfigArgsDistinct();
    var args := Kwargs(cands);
    assert Arg(args, "action_name") == cands[0].1;
    assert Arg(args, "enabled") == cands[1].1;
    assert Arg(args, "flag_sets") == cands[2].1;
    assert Arg(args, "implies") == cands[3].1;
    assert Arg(args, "tools") == cands[4].1;
    assert Validation.SetsWellFormed(a.flagSets) ==> DecodeActionConfig(Call("action_config", args)) == Some(WrittenActionConfig(a)) by {
      if Validation.SetsWellFormed(a.flagSets) {
        ActionConfigCallDecodes(a, args);
      }
    }
    Call("action_config", args)
  }

  /** The decoding half of `ActionConfigExpr`, argument by argument. */
  lemma {:induction false} ActionConfigCallDecodes(a: ActionConfig, args: seq<KwArg>)
    requires Validation.SetsWellFormed(a.flagSets)
    requires Arg(args, "action_name") == Some(Str(a.actionName))
    requires Arg(args, "enabled") == (if a.enabled then Some(BoolLit(true)) else None)
    requires Arg(args, "flag_sets") == FlagSetsArg(a.flagSets).1
    requires Arg(args, "implies") == StringsArg("implies", a.implies).1
    requires Arg(args, "tools") == ActionConfigCandidates(a)[4].1
    ensures DecodeActionConfig(Call("action_config", args)) == Some(WrittenActionConfig(a))
  {
    FlagSetsArgDecodes(a.flagSets);
    StringsArgDecodes("implies", a.implies);
    ListArgDecodes("tools", seq(|a.tools|, i requires 0 <= i < |a.tools| => ToolExpr(a.tools[i])), DecodeTool,
      WrittenActionConfig(a).tools);
  }

  /** Action configs that differ only in config name, env sets or requires blocks render alike. */
  lemma {:induction false} ActionConfigIgnoresUnwrittenFields(a: ActionConfig, b: ActionConfig)
    requires a.actionName == b.actionName && a.enabled == b.enabled && a.tools == b.tools
    requires a.flagSets == b.flagSets && a.implies == b.implies
    ensures ActionConfigExpr(a) == ActionConfigExpr(b)
  {
  }

  /**
   * A tool with an empty path renders like one whose path is the placeholder;
   * with nothing else set it is exactly `tool(path = "NOT_USED")`.
   */
  lemma {:induction false} EmptyToolPathIsPlaceholder(t: Tool)
    requires t.path == ""
    ensures ToolExpr(t) == ToolExpr(t.(path := NotUsedPath))
    ensures t.withFeatures == [] && t.executionRequirements == [] ==> ToolExpr(t) == Call("tool", [KwArg("path", Str(NotUsedPath))])
  {
  }
}
