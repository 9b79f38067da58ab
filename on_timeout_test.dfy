/**
 The checks the on-timeout tests make of the report handed to the timeout
 callback, stated as predicates on `TimeoutInfo`, with lemmas saying for which
 reports each check passes. The checks on the measured evaluation duration
 depend on wall-clock time and are not part of this model.
 */
module OnTimeoutTest {
  import opened Core

  /** The alias every test run is given. */
  const TestAlias: string := "This is a test"

  /** The fields every captured report must carry: the test alias, and a message. */
  predicate CommonFieldsSet(context: TimeoutInfo) {
    context.GetAlias() == TestAlias
  }

  /** The check made of a report expected to say the condition was met too early. */
  predicate IsConditionMetTooEarlyTimeout(context: TimeoutInfo) {
    && !context.IsLateTimeout()
    && context.IsEarlyTimeout()
    && context.GetTimeoutReason() == ConditionMetTooEarly
  }

  /** The check made of a report expected to say the condition was never met. */
  predicate IsConditionNotMetTimeout(context: TimeoutInfo) {
    && context.IsLateTimeout()
    && !context.IsEarlyTimeout()
    && context.GetTimeoutReason() == ConditionNotMet
  }

  /** The check made of a report expected to say the condition was not held. */
  predicate IsConditionNotHeldTimeout(context: TimeoutInfo) {
    && context.IsLateTimeout()
    && !context.IsEarlyTimeout()
    && context.GetTimeoutReason() == ConditionNotHeld
  }

  /** A report built with the test alias passes the common-field check, whatever else it holds. */
  lemma CommonFieldsSetForTestAlias(message: string, duration: nat, reason: TimeoutReason)
    ensures CommonFieldsSet(TimeoutInfo(TestAlias, message, duration, reason))
    ensures !CommonFieldsSet(TimeoutInfo("", message, duration, reason))
  {
  }

  /** The met-too-early check passes exactly for reports whose reason is `ConditionMetTooEarly`. */
  lemma ConditionMetTooEarlyCheckPassesExactly(context: TimeoutInfo)
    ensures IsConditionMetTooEarlyTimeout(context) <==> context.GetTimeoutReason() == ConditionMetTooEarly
  {
  }

  /** The not-met check passes exactly for reports whose reason is `ConditionNotMet`. */
  lemma ConditionNotMetCheckPassesExactly(context: TimeoutInfo)
    ensures IsConditionNotMetTimeout(context) <==> context.GetTimeoutReason() == ConditionNotMet
  {
  }

  /** The not-held check passes exactly for reports whose reason is `ConditionNotHeld`. */
  lemma ConditionNotHeldCheckPassesExactly(context: TimeoutInfo)
    ensures IsConditionNotHeldTimeout(context) <==> context.GetTimeoutReason() == ConditionNotHeld
  {
  }

  /** No report passes two of the three reason checks. */
  lemma ReasonChecksAreExclusive(context: TimeoutInfo)
    ensures !(IsConditionMetTooEarlyTimeout(context) && IsConditionNotMetTimeout(context))
    ensures !(IsConditionMetTooEarlyTimeout(context) && IsConditionNotHeldTimeout(context))
    ensures !(IsConditionNotMetTimeout(context) && IsConditionNotHeldTimeout(context))
    ensures IsConditionMetTooEarlyTimeout(context) || IsConditionNotMetTimeout(context) || IsConditionNotHeldTimeout(context)
  {
  }
}
