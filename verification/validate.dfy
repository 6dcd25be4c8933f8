/**
 * The validator that runs before any output is produced: a flag group may
 * carry at most one `expand_if_all_available` and at most one
 * `expand_if_none_available` entry, at every nesting depth, in every flag set
 * of every feature and action config.
 */
module Validation {
  import opened Base
  import opened Records

  /** The two guarded list fields of a flag group. */
  datatype Directive = AllAvailable | NoneAvailable

  function FieldName(d: Directive): string {
    match d
    case AllAvailable => "expand_if_all_available"
    case NoneAvailable => "expand_if_none_available"
  }

  function Entries(g: FlagGroup, d: Directive): seq<string> {
    match d
    case AllAvailable => g.expandIfAllAvailable
    case NoneAvailable => g.expandIfNoneAvailable
  }

  /** No flag group at any depth under `g` repeats a guarded field. */
  predicate WellFormed(g: FlagGroup)
    decreases g
  {
    |g.expandIfAllAvailable| <= 1 && |g.expandIfNoneAvailable| <= 1 &&
    forall i :: 0 <= i < |g.flagGroups| ==> WellFormed(g.flagGroups[i])
  }

  /** Some flag group at or under `g` has more than one `d` entry. */
  predicate Excess(g: FlagGroup, d: Directive)
    decreases g
  {
    |Entries(g, d)| > 1 || exists i :: 0 <= i < |g.flagGroups| && Excess(g.flagGroups[i], d)
  }

  /** Every group before position `i` is well-formed. */
  predicate WellFormedBefore(gs: seq<FlagGroup>, i: nat) {
    forall j :: 0 <= j < i && j < |gs| ==> WellFormed(gs[j])
  }

  /**
   * The first violation found in `g`: its own all-available entries, then
   * its own none-available entries, then its nested groups in order. It finds
   * nothing exactly when the group is well-formed, and what it reports is a
   * field that really is repeated somewhere under `g`.
   */
  function Violation(g: FlagGroup): (r: Option<Directive>)
    ensures r.None? <==> WellFormed(g)
    ensures r.Some? ==> Excess(g, r.value)
    ensures |g.expandIfAllAvailable| > 1 ==> r == Some(AllAvailable)
    ensures |g.expandIfAllAvailable| <= 1 && |g.expandIfNoneAvailable| > 1 ==> r == Some(NoneAvailable)
    ensures |g.expandIfAllAvailable| <= 1 && |g.expandIfNoneAvailable| <= 1 && r.Some? ==>
      exists i :: 0 <= i < |g.flagGroups| && Excess(g.flagGroups[i], r.value) && WellFormedBefore(g.flagGroups, i)
    decreases g
  {
    if |g.expandIfAllAvailable| > 1 then Some(AllAvailable)
    else if |g.expandIfNoneAvailable| > 1 then Some(NoneAvailable)
    else
      var vs := seq(|g.flagGroups|, i requires 0 <= i < |g.flagGroups| => Violation(g.flagGroups[i]));
      assert forall i :: 0 <= i < |vs| ==> (vs[i].None? <==> WellFormed(g.flagGroups[i]));
      var r := FirstSome(vs);
      assert r.Some? ==> exists i :: 0 <= i < |g.flagGroups| && Excess(g.flagGroups[i], r.value) && WellFormedBefore(g.flagGroups, i) by {
        if r.Some? {
          var i :| 0 <= i < |vs| && vs[i] == r && forall j :: 0 <= j < i ==> vs[j].None?;
          assert Excess(g.flagGroups[i], r.value);
        }
      }
      r
  }

  /** The first violation in a sequence of flag sets, set by set and group by group. */
  function SetsViolation(sets: seq<FlagSet>): Option<Directive> {
    FirstSome(seq(|sets|, s requires 0 <= s < |sets| => GroupsViolation(sets[s].flagGroups)))
  }

  function GroupsViolation(gs: seq<FlagGroup>): Option<Directive> {
    FirstSome(seq(|gs|, i requires 0 <= i < |gs| => Violation(gs[i])))
  }

  predicate SetsWellFormed(sets: seq<FlagSet>) {
    forall s, i :: 0 <= s < |sets| && 0 <= i < |sets[s].flagGroups| ==> WellFormed(sets[s].flagGroups[i])
  }

  lemma {:induction false} SetsViolationIffIllFormed(sets: seq<FlagSet>)
    ensures SetsViolation(sets).None? <==> SetsWellFormed(sets)
  {
    var vs := seq(|sets|, s requires 0 <= s < |sets| => GroupsViolation(sets[s].flagGroups));
    forall s | 0 <= s < |sets|
      ensures vs[s].None? <==> forall i :: 0 <= i < |sets[s].flagGroups| ==> WellFormed(sets[s].flagGroups[i])
    {
      GroupsViolationIffIllFormed(sets[s].flagGroups);
    }
    assert FirstSome(vs).None? <==> forall s :: 0 <= s < |vs| ==> vs[s].None?;
  }

  lemma {:induction false} GroupsViolationIffIllFormed(gs: seq<FlagGroup>)
    ensures GroupsViolation(gs).None? <==> forall i :: 0 <= i < |gs| ==> WellFormed(gs[i])
  {
    var vs := seq(|gs|, i requires 0 <= i < |gs| => Violation(gs[i]));
    assert forall i :: 0 <= i < |gs| ==> (vs[i].None? <==> WellFormed(gs[i]));
    assert FirstSome(vs).None? <==> forall i :: 0 <= i < |vs| ==> vs[i].None?;
  }

  datatype OwnerKind = FeatureOwner | ActionConfigOwner

  /** A feature or action config, as far as validation is concerned. */
  datatype Owner = Owner(kind: OwnerKind, name: string, flagSets: seq<FlagSet>)

  function FeatureOwners(ts: seq<Toolchain>): seq<Owner> {
    if |ts| == 0 then []
    else
      seq(|ts[0].features|, i requires 0 <= i < |ts[0].features| =>
        Owner(FeatureOwner, ts[0].features[i].name, ts[0].features[i].flagSets))
      + FeatureOwners(ts[1..])
  }

  /** Action configs are named in messages by their action name. */
  function ActionConfigOwners(ts: seq<Toolchain>): seq<Owner> {
    if |ts| == 0 then []
    else
      seq(|ts[0].actionConfigs|, i requires 0 <= i < |ts[0].actionConfigs| =>
        Owner(ActionConfigOwner, ts[0].actionConfigs[i].actionName, ts[0].actionConfigs[i].flagSets))
      + ActionConfigOwners(ts[1..])
  }

  /** Validation order: every feature of every toolchain, then every action config. */
  function Owners(ts: seq<Toolchain>): seq<Owner> {
    FeatureOwners(ts) + ActionConfigOwners(ts)
  }

  lemma {:induction false} OwnersCover(ts: seq<Toolchain>)
    ensures forall k, i :: 0 <= k < |ts| && 0 <= i < |ts[k].features| ==>
      Owner(FeatureOwner, ts[k].features[i].name, ts[k].features[i].flagSets) in Owners(ts)
    ensures forall k, i :: 0 <= k < |ts| && 0 <= i < |ts[k].actionConfigs| ==>
      Owner(ActionConfigOwner, ts[k].actionConfigs[i].actionName, ts[k].actionConfigs[i].flagSets) in Owners(ts)
  {
    FeatureOwnersCover(ts);
    ActionConfigOwnersCover(ts);
  }

  lemma {:induction false} FeatureOwnersCover(ts: seq<Toolchain>)
    ensures forall k, i :: 0 <= k < |ts| && 0 <= i < |ts[k].features| ==>
      Owner(FeatureOwner, ts[k].features[i].name, ts[k].features[i].flagSets) in FeatureOwners(ts)
    ensures forall o :: o in FeatureOwners(ts) ==> (o.kind == FeatureOwner &&
      exists k, i :: 0 <= k < |ts| && 0 <= i < |ts[k].features| && o.name == ts[k].features[i].name && o.flagSets == ts[k].features[i].flagSets)
  {
    if |ts| > 0 {
      FeatureOwnersCover(ts[1..]);
      var here := seq(|ts[0].features|, i requires 0 <= i < |ts[0].features| =>
        Owner(FeatureOwner, ts[0].features[i].name, ts[0].features[i].flagSets));
      assert FeatureOwners(ts) == here + FeatureOwners(ts[1..]);
      forall k, i | 0 <= k < |ts| && 0 <= i < |ts[k].features|
        ensures Owner(FeatureOwner, ts[k].features[i].name, ts[k].features[i].flagSets) in FeatureOwners(ts)
      {
        if k == 0 {
          assert here[i] == Owner(FeatureOwner, ts[k].features[i].name, ts[k].features[i].flagSets);
        } else {
          assert ts[k] == ts[1..][k - 1];
        }
      }
      forall o | o in FeatureOwners(ts)
        ensures o.kind == FeatureOwner &&
          exists k, i :: 0 <= k < |ts| && 0 <= i < |ts[k].features| && o.name == ts[k].features[i].name && o.flagSets == ts[k].features[i].flagSets
      {
        if o in here {
          var i :| 0 <= i < |here| && here[i] == o;
          assert o.name == ts[0].features[i].name;
        } else {
          assert o in FeatureOwners(ts[1..]);
          var k, i :| 0 <= k < |ts[1..]| && 0 <= i < |ts[1..][k].features| && o.name == ts[1..][k].features[i].name && o.flagSets == ts[1..][k].features[i].flagSets;
          assert ts[1..][k] == ts[k + 1];
        }
      }
    }
  }

  lemma {:induction false} ActionConfigOwnersCover(ts: seq<Toolchain>)
    ensures forall k, i :: 0 <= k < |ts| && 0 <= i < |ts[k].actionConfigs| ==>
      Owner(ActionConfigOwner, ts[k].actionConfigs[i].actionName, ts[k].actionConfigs[i].flagSets) in ActionConfigOwners(ts)
    ensures forall o :: o in ActionConfigOwners(ts) ==> (o.kind == ActionConfigOwner &&
      exists k, i :: 0 <= k < |ts| && 0 <= i < |ts[k].actionConfigs| && o.name == ts[k].actionConfigs[i].actionName && o.flagSets == ts[k].actionConfigs[i].flagSets)
  {
    if |ts| > 0 {
      ActionConfigOwnersCover(ts[1..]);
      var here := seq(|ts[0].actionConfigs|, i requires 0 <= i < |ts[0].actionConfigs| =>
        Owner(ActionConfigOwner, ts[0].actionConfigs[i].actionName, ts[0].actionConfigs[i].flagSets));
      assert ActionConfigOwners(ts) == here + ActionConfigOwners(ts[1..]);
      forall k, i | 0 <= k < |ts| && 0 <= i < |ts[k].actionConfigs|
        ensures Owner(ActionConfigOwner, ts[k].actionConfigs[i].actionName, ts[k].actionConfigs[i].flagSets) in ActionConfigOwners(ts)
      {
        if k == 0 {
          assert here[i] == Owner(ActionConfigOwner, ts[k].actionConfigs[i].actionName, ts[k].actionConfigs[i].flagSets);
        } else {
          assert ts[k] == ts[1..][k - 1];
        }
      }
      forall o | o in ActionConfigOwners(ts)
        ensures o.kind == ActionConfigOwner &&
          exists k, i :: 0 <= k < |ts| && 0 <= i < |ts[k].actionConfigs| && o.name == ts[k].actionConfigs[i].actionName && o.flagSets == ts[k].actionConfigs[i].flagSets
      {
        if o in here {
          var i :| 0 <= i < |here| && here[i] == o;
          assert o.name == ts[0].actionConfigs[i].actionName;
        } else {
          assert o in ActionConfigOwners(ts[1..]);
          var k, i :| 0 <= k < |ts[1..]| && 0 <= i < |ts[1..][k].actionConfigs| && o.name == ts[1..][k].actionConfigs[i].actionName && o.flagSets == ts[1..][k].actionConfigs[i].flagSets;
          assert ts[1..][k] == ts[k + 1];
        }
      }
    }
  }

  /** The error the transform aborts with. */
  datatype ValidationError = ValidationError(kind: OwnerKind, owner: string, directive: Directive)

  function OwnerCheck(o: Owner): Option<ValidationError> {
    match SetsViolation(o.flagSets)
    case Some(d) => Some(ValidationError(o.kind, o.name, d))
    case None => None
  }

  function Checks(os: seq<Owner>): seq<Option<ValidationError>> {
    seq(|os|, i requires 0 <= i < |os| => OwnerCheck(os[i]))
  }

  lemma {:induction false} ChecksFindIllFormed(os: seq<Owner>)
    ensures FirstSome(Checks(os)).None? <==> forall o :: o in os ==> SetsWellFormed(o.flagSets)
  {
    var checks := Checks(os);
    if FirstSome(checks).None? {
      forall o | o in os
        ensures SetsWellFormed(o.flagSets)
      {
        var i :| 0 <= i < |os| && os[i] == o;
        assert checks[i].None?;
        SetsViolationIffIllFormed(o.flagSets);
      }
    } else {
      var i :| 0 <= i < |checks| && checks[i] == FirstSome(checks);
      SetsViolationIffIllFormed(os[i].flagSets);
      assert os[i] in os;
    }
  }

  lemma {:induction false} ChecksNameOwner(os: seq<Owner>)
    requires FirstSome(Checks(os)).Some?
    ensures exists o :: (o in os && o.kind == FirstSome(Checks(os)).value.kind && o.name == FirstSome(Checks(os)).value.owner &&
      SetsViolation(o.flagSets) == Some(FirstSome(Checks(os)).value.directive))
  {
    var checks := Checks(os);
    var i :| 0 <= i < |checks| && checks[i] == FirstSome(checks);
    assert os[i] in os;
  }

  /**
   * The first error over all owners in validation order, or `None` when every
   * flag group of every feature and action config is well-formed.
   */
  function Validate(ts: seq<Toolchain>): (r: Option<ValidationError>)
    ensures r.None? <==> forall o :: o in Owners(ts) ==> SetsWellFormed(o.flagSets)
    ensures r.Some? ==> exists o :: (o in Owners(ts) && o.kind == r.value.kind && o.name == r.value.owner &&
      SetsViolation(o.flagSets) == Some(r.value.directive))
  {
    var os := Owners(ts);
    ChecksFindIllFormed(os);
    if FirstSome(Checks(os)).Some? then
      ChecksNameOwner(os);
      FirstSome(Checks(os))
    else
      None
  }

  /**
   * The transform is refused exactly when some flag group, in some flag set of
   * some feature or action config of some toolchain, repeats a guarded field.
   */
  lemma {:induction false} ValidIff(ts: seq<Toolchain>)
    ensures Validate(ts).None? <==>
      (forall k, i :: 0 <= k < |ts| && 0 <= i < |ts[k].features| ==> SetsWellFormed(ts[k].features[i].flagSets)) &&
      (forall k, i :: 0 <= k < |ts| && 0 <= i < |ts[k].actionConfigs| ==> SetsWellFormed(ts[k].actionConfigs[i].flagSets))
  {
    OwnersCover(ts);
    FeatureOwnersCover(ts);
    ActionConfigOwnersCover(ts);
    if Validate(ts).Some? {
      assert exists o :: o in Owners(ts) && !SetsWellFormed(o.flagSets);
      var o :| o in Owners(ts) && !SetsWellFormed(o.flagSets);
      if o in FeatureOwners(ts) {
        var k, i :| 0 <= k < |ts| && 0 <= i < |ts[k].features| && o.name == ts[k].features[i].name && o.flagSets == ts[k].features[i].flagSets;
      } else {
        assert o in ActionConfigOwners(ts);
        var k, i :| 0 <= k < |ts| && 0 <= i < |ts[k].actionConfigs| && o.name == ts[k].actionConfigs[i].actionName && o.flagSets == ts[k].actionConfigs[i].flagSets;
      }
    }
  }

  function KindPrefix(k: OwnerKind): string {
    match k
    case FeatureOwner => "Error in feature '"
    case ActionConfigOwner => "Error in action_config '"
  }

  /** The text closing every message: the repeated field, by its input-format name. */
  function FieldSuffix(d: Directive): string {
    FieldName(d) + "' field"
  }

  function Reason(d: Directive): string {
    "': Flag group must not have more than one '" + FieldSuffix(d)
  }

  /**
   * The reported error text: "Error in feature '…'" or "Error in
   * action_config '…'", with the owner name verbatim between the quotes,
   * and the repeated field named at the end.
   */
  function Message(e: ValidationError): (r: string)
    ensures |r| > |KindPrefix(e.kind)| + |e.owner| + |FieldSuffix(e.directive)|
    ensures r[..9] == "Error in "
    ensures r[|KindPrefix(e.kind)|..|KindPrefix(e.kind)| + |e.owner|] == e.owner
    ensures r[|r| - |FieldSuffix(e.directive)|..] == FieldSuffix(e.directive)
  {
    KindPrefixStarts(e.kind);
    Parts(KindPrefix(e.kind), e.owner, "': Flag group must not have more than one '", FieldSuffix(e.directive));
    KindPrefix(e.kind) + (e.owner + Reason(e.directive))
  }

  lemma KindPrefixStarts(k: OwnerKind)
    ensures |KindPrefix(k)| > 9 && KindPrefix(k)[..9] == "Error in "
  {
  }

  /** Where the pieces of a four-part text sit. */
  lemma Parts(p: string, o: string, lead: string, x: string)
    ensures |p + (o + (lead + x))| == |p| + |o| + |lead| + |x|
    ensures (p + (o + (lead + x)))[..|p|] == p
    ensures (p + (o + (lead + x)))[|p|..|p| + |o|] == o
    ensures (p + (o + (lead + x)))[|p| + |o| + |lead|..] == x
  {
    var r := p + (o + (lead + x));
    assert r[|p|..] == o + (lead + x);
    assert r[|p| + |o|..] == lead + x;
  }

  /**
   * The text identifies the error: two messages are equal exactly when they
   * report the same kind of owner, the same owner name and the same field,
   * whatever characters the owner name holds.
   */
  lemma {:induction false} MessageInjective(e1: ValidationError, e2: ValidationError)
    ensures Message(e1) == Message(e2) <==> e1 == e2
  {
    if Message(e1) == Message(e2) {
      var p1, p2 := KindPrefix(e1.kind), KindPrefix(e2.kind);
      var r1, r2 := Reason(e1.directive), Reason(e2.directive);
      var t1, t2 := e1.owner + r1, e2.owner + r2;
      KindDecides(e1.kind, t1, e2.kind, t2);
      CancelLeft(p1, t1, p2, t2);
      ReasonDecides(e1.owner, e1.directive, e2.owner, e2.directive);
      CancelRight(e1.owner, r1, e2.owner, r2);
    }
  }

  lemma {:induction false} CancelLeft(a1: string, b1: string, a2: string, b2: string)
    requires a1 + b1 == a2 + b2 && |a1| == |a2|
    ensures b1 == b2
  {
    assert b1 == (a1 + b1)[|a1|..];
    assert b2 == (a2 + b2)[|a2|..];
  }

  lemma {:induction false} CancelRight(a1: string, b1: string, a2: string, b2: string)
    requires a1 + b1 == a2 + b2 && b1 == b2
    ensures a1 == a2
  {
    assert a1 == (a1 + b1)[..|a1|];
    assert a2 == (a2 + b2)[..|a2|];
  }

  /** The kind of owner is read off the start of the text. */
  lemma {:induction false} KindDecides(k1: OwnerKind, t1: string, k2: OwnerKind, t2: string)
    requires KindPrefix(k1) + t1 == KindPrefix(k2) + t2
    ensures k1 == k2
  {
    assert (KindPrefix(k1) + t1)[9] == KindPrefix(k1)[9];
    assert (KindPrefix(k2) + t2)[9] == KindPrefix(k2)[9];
  }

  /** The field is read off the end of the text. */
  lemma {:induction false} ReasonDecides(o1: string, d1: Directive, o2: string, d2: Directive)
    requires o1 + Reason(d1) == o2 + Reason(d2)
    ensures d1 == d2
  {
    var t1, t2 := o1 + Reason(d1), o2 + Reason(d2);
    var n := |t1|;
    // 18 characters from the end: the last letter of "all" or of "none".
    assert t1[n - 18] == Reason(d1)[|Reason(d1)| - 18];
    assert t2[n - 18] == Reason(d2)[|Reason(d2)| - 18];
  }
}
