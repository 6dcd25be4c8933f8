/**
 * The four rejected toolchains of the flag-group test, worked through to the
 * error text the transform reports: a feature or action config named "A" with
 * one flag group that lists two all-available, or two none-available, entries.
 */
module FixtureErrors {
  import opened Base
  import opened Records
  import opened Validation
  import Starlark
  import FixtureChains
  import M = Migration
  import MessageText

  /** The offending flag group: flag "f" with entries "e1" and "e2" under the directive `d`. */
  function Doubled(d: Directive): FlagGroup {
    FlagGroup(["f"], [], None,
      if d == AllAvailable then ["e1", "e2"] else [],
      if d == NoneAvailable then ["e1", "e2"] else [],
      None, None, None)
  }

  function DoubledSet(d: Directive): FlagSet {
    FlagSet(["A"], [Doubled(d)], [])
  }

  /** Toolchain "1" on (cpu, compiler) whose only feature "A" has the doubled flag set. */
  function FeatureToolchain(d: Directive): Toolchain {
    FixtureChains.CToolchain("1", "cpu", "compiler").(features := [Feature("A", false, [DoubledSet(d)], [], [], [], [])])
  }

  /** Toolchain "1" whose only action config, for action "A", has the doubled flag set. */
  function ActionConfigToolchain(d: Directive): Toolchain {
    FixtureChains.CToolchain("1", "cpu", "compiler").(actionConfigs := [ActionConfig("A", "A", false, [], [DoubledSet(d)], [], [], [])])
  }

  lemma {:induction false} DoubledSetViolation(d: Directive)
    ensures SetsViolation([DoubledSet(d)]) == Some(d)
  {
    assert Violation(Doubled(d)) == Some(d);
    var gs := [Doubled(d)];
    assert seq(|gs|, i requires 0 <= i < |gs| => Violation(gs[i])) == [Some(d)];
    assert GroupsViolation(gs) == Some(d);
    var sets := [DoubledSet(d)];
    assert seq(|sets|, s requires 0 <= s < |sets| => GroupsViolation(sets[s].flagGroups)) == [Some(d)];
  }

  /** One owner with the doubled flag set is reported, by kind and name. */
  lemma {:induction false} SingleOwnerError(o: Owner, d: Directive)
    requires o.flagSets == [DoubledSet(d)]
    ensures FirstSome(Checks([o])) == Some(ValidationError(o.kind, o.name, d))
  {
    DoubledSetViolation(d);
    assert Checks([o]) == [OwnerCheck(o)];
  }

  lemma {:induction false} FeatureOwnersOfOne(d: Directive)
    ensures Owners([FeatureToolchain(d)]) == [Owner(FeatureOwner, "A", [DoubledSet(d)])]
  {
    var ts := [FeatureToolchain(d)];
    assert ts[1..] == [];
    assert FeatureOwners(ts) == [Owner(FeatureOwner, "A", [DoubledSet(d)])];
    assert ActionConfigOwners(ts) == [];
  }

  lemma {:induction false} ActionConfigOwnersOfOne(d: Directive)
    ensures Owners([ActionConfigToolchain(d)]) == [Owner(ActionConfigOwner, "A", [DoubledSet(d)])]
  {
    var ts := [ActionConfigToolchain(d)];
    assert ts[1..] == [];
    assert FeatureOwners(ts) == [];
    assert ActionConfigOwners(ts) == [Owner(ActionConfigOwner, "A", [DoubledSet(d)])];
  }

  /** test 996-1021: the feature's doubled field is reported against feature "A". */
  lemma {:induction false} FeatureRejected(d: Directive)
    ensures Validate([FeatureToolchain(d)]) == Some(ValidationError(FeatureOwner, "A", d))
  {
    FeatureOwnersOfOne(d);
    SingleOwnerError(Owner(FeatureOwner, "A", [DoubledSet(d)]), d);
  }

  /** test 1022-1049: the action config's doubled field is reported against its action name "A". */
  lemma {:induction false} ActionConfigRejected(d: Directive)
    ensures Validate([ActionConfigToolchain(d)]) == Some(ValidationError(ActionConfigOwner, "A", d))
  {
    ActionConfigOwnersOfOne(d);
    SingleOwnerError(Owner(ActionConfigOwner, "A", [DoubledSet(d)]), d);
  }

  /** A message, cut at the points where its literal pieces meet. */
  lemma {:induction false} MessagePieces(e: ValidationError)
    ensures Message(e) ==
      KindPrefix(e.kind) + e.owner + "': Flag group must not " + "have more than one '" + FieldName(e.directive) + "' field"
  {
    MessageText.SplitReason();
    MessageText.Regroup(KindPrefix(e.kind), e.owner, "': Flag group must not ", "have more than one '", FieldName(e.directive), "' field");
  }

  /** test 1055-1072: the four expected messages, character for character. */
  lemma {:induction false} FeatureAllMessage()
    ensures Message(ValidationError(FeatureOwner, "A", AllAvailable)) ==
      "Error in feature 'A': Flag group must not have more than one 'expand_if_all_available' field"
  {
    MessagePieces(ValidationError(FeatureOwner, "A", AllAvailable));
    MessageText.FeatureLead();
    MessageText.FeatureAll();
  }

  lemma {:induction false} FeatureNoneMessage()
    ensures Message(ValidationError(FeatureOwner, "A", NoneAvailable)) ==
      "Error in feature 'A': Flag group must not have more than one 'expand_if_none_available' field"
  {
    MessagePieces(ValidationError(FeatureOwner, "A", NoneAvailable));
    MessageText.FeatureLead();
    MessageText.FeatureNone();
  }

  lemma {:induction false} ActionConfigAllMessage()
    ensures Message(ValidationError(ActionConfigOwner, "A", AllAvailable)) ==
      "Error in action_config 'A': Flag group must not have more than one 'expand_if_all_available' field"
  {
    MessagePieces(ValidationError(ActionConfigOwner, "A", AllAvailable));
    MessageText.ActionConfigLead();
    MessageText.ActionConfigAll();
  }

  lemma {:induction false} ActionConfigNoneMessage()
    ensures Message(ValidationError(ActionConfigOwner, "A", NoneAvailable)) ==
      "Error in action_config 'A': Flag group must not have more than one 'expand_if_none_available' field"
  {
    MessagePieces(ValidationError(ActionConfigOwner, "A", NoneAvailable));
    MessageText.ActionConfigLead();
    MessageText.ActionConfigNone();
  }

  /** test 1074-1080: the transform of the feature fixture fails with the feature's message. */
  lemma {:induction false} FeatureTransformFails(d: Directive, known: map<string, string>, rank: Starlark.Expr -> string)
    ensures M.ErrorText(M.Transform([FeatureToolchain(d)], known, rank)) == Some(Message(ValidationError(FeatureOwner, "A", d)))
  {
    FeatureRejected(d);
  }

  /** test 1074-1080: the transform of the action-config fixture fails with the action config's message. */
  lemma {:induction false} ActionConfigTransformFails(d: Directive, known: map<string, string>, rank: Starlark.Expr -> string)
    ensures M.ErrorText(M.Transform([ActionConfigToolchain(d)], known, rank)) ==
      Some(Message(ValidationError(ActionConfigOwner, "A", d)))
  {
    ActionConfigRejected(d);
  }
}
