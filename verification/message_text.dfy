/**
 * Literal string facts behind the fixture error messages. A long literal is
 * assembled from short pieces one piece at a time, each step appending a
 * short literal to a longer one, so that no single step compares long texts.
 */
module MessageText {
  lemma {:induction false} Regroup(k: string, o: string, p: string, q: string, f: string, t: string)
    ensures k + (o + ((p + q) + (f + t))) == k + o + p + q + f + t
  {
  }

  lemma {:induction false} SplitReason()
    ensures "': Flag group must not have more than one '" == "': Flag group must not " + "have more than one '"
  {
  }

  lemma {:induction false} FeatureLeadStep1()
    ensures "Error in feature '" + "A" ==
      "Error in feature 'A"
  {
  }

  lemma {:induction false} FeatureLeadStep2()
    ensures "Error in feature 'A" + "': Flag group must not " ==
      "Error in feature 'A': Flag group must not "
  {
  }

  lemma {:induction false} FeatureLeadStep3()
    ensures "Error in feature 'A': Flag group must not " + "have more than one '" ==
      "Error in feature 'A': Flag group must not have more than one '"
  {
  }

  /** The feature message about "A" up to the field name. */
  lemma {:induction false} FeatureLead()
    ensures "Error in feature '" + "A" + "': Flag group must not " + "have more than one '" ==
      "Error in feature 'A': Flag group must not have more than one '"
  {
    FeatureLeadStep1();
    FeatureLeadStep2();
    FeatureLeadStep3();
  }

  lemma {:induction false} ActionConfigLeadStep1()
    ensures "Error in action_config '" + "A" ==
      "Error in action_config 'A"
  {
  }

  lemma {:induction false} ActionConfigLeadStep2()
    ensures "Error in action_config 'A" + "': Flag group must not " ==
      "Error in action_config 'A': Flag group must not "
  {
  }

  lemma {:induction false} ActionConfigLeadStep3()
    ensures "Error in action_config 'A': Flag group must not " + "have more than one '" ==
      "Error in action_config 'A': Flag group must not have more than one '"
  {
  }

  /** The action-config message about "A" up to the field name. */
  lemma {:induction false} ActionConfigLead()
    ensures "Error in action_config '" + "A" + "': Flag group must not " + "have more than one '" ==
      "Error in action_config 'A': Flag group must not have more than one '"
  {
    ActionConfigLeadStep1();
    ActionConfigLeadStep2();
    ActionConfigLeadStep3();
  }

  lemma {:induction false} FeatureAllStep1()
    ensures "Error in feature 'A': Flag group must not have more than one '" + "expand_if_all_available" ==
      "Error in feature 'A': Flag group must not have more than one 'expand_if_all_available"
  {
  }

  lemma {:induction false} FeatureAllStep2()
    ensures "Error in feature 'A': Flag group must not have more than one 'expand_if_all_available" + "' field" ==
      "Error in feature 'A': Flag group must not have more than one 'expand_if_all_available' field"
  {
  }

  /** The whole feature message about "A" and expand_if_all_available. */
  lemma {:induction false} FeatureAll()
    ensures "Error in feature 'A': Flag group must not have more than one '" + "expand_if_all_available" + "' field" ==
      "Error in feature 'A': Flag group must not have more than one 'expand_if_all_available' field"
  {
    FeatureAllStep1();
    FeatureAllStep2();
  }

  lemma {:induction false} FeatureNoneStep1()
    ensures "Error in feature 'A': Flag group must not have more than one '" + "expand_if_none_available" ==
      "Error in feature 'A': Flag group must not have more than one 'expand_if_none_available"
  {
  }

  lemma {:induction false} FeatureNoneStep2()
    ensures "Error in feature 'A': Flag group must not have more than one 'expand_if_none_available" + "' field" ==
      "Error in feature 'A': Flag group must not have more than one 'expand_if_none_available' field"
  {
  }

  /** The whole feature message about "A" and expand_if_none_available. */
  lemma {:induction false} FeatureNone()
    ensures "Error in feature 'A': Flag group must not have more than one '" + "expand_if_none_available" + "' field" ==
      "Error in feature 'A': Flag group must not have more than one 'expand_if_none_available' field"
  {
    FeatureNoneStep1();
    FeatureNoneStep2();
  }

  lemma {:induction false} ActionConfigAllStep1()
    ensures "Error in action_config 'A': Flag group must not have more than one '" + "expand_if_all_available" ==
      "Error in action_config 'A': Flag group must not have more than one 'expand_if_all_available"
  {
  }

  lemma {:induction false} ActionConfigAllStep2()
    ensures "Error in action_config 'A': Flag group must not have more than one 'expand_if_all_available" + "' field" ==
      "Error in action_config 'A': Flag group must not have more than one 'expand_if_all_available' field"
  {
  }

  /** The whole action-config message about "A" and expand_if_all_available. */
  lemma {:induction false} ActionConfigAll()
    ensures "Error in action_config 'A': Flag group must not have more than one '" + "expand_if_all_available" + "' field" ==
      "Error in action_config 'A': Flag group must not have more than one 'expand_if_all_available' field"
  {
    ActionConfigAllStep1();
    ActionConfigAllStep2();
  }

  lemma {:induction false} ActionConfigNoneStep1()
    ensures "Error in action_config 'A': Flag group must not have more than one '" + "expand_if_none_available" ==
      "Error in action_config 'A': Flag group must not have more than one 'expand_if_none_available"
  {
  }

  lemma {:induction false} ActionConfigNoneStep2()
    ensures "Error in action_config 'A': Flag group must not have more than one 'expand_if_none_available" + "' field" ==
      "Error in action_config 'A': Flag group must not have more than one 'expand_if_none_available' field"
  {
  }

  /** The whole action-config message about "A" and expand_if_none_available. */
  lemma {:induction false} ActionConfigNone()
    ensures "Error in action_config 'A': Flag group must not have more than one '" + "expand_if_none_available" + "' field" ==
      "Error in action_config 'A': Flag group must not have more than one 'expand_if_none_available' field"
  {
    ActionConfigNoneStep1();
    ActionConfigNoneStep2();
  }
}
