/**
 The timeout report of the awaitility poller (package org.awaitility.core).

 When a wait ends without success the poller builds one `TimeoutInfo`: the
 alias of the wait, the message it fails with, how long the condition was
 evaluated, and the reason for the timeout. The report is a value: it is
 built once and only read afterwards. Its reason is either "early" (the
 condition was met before the at-least bound) or "late" (the at-most bound
 passed first), and which of the two is decided by membership in a fixed set
 of late reasons.
 */
module Core {

  /** The three reasons a wait can time out with. */
  datatype TimeoutReason =
    | ConditionMetTooEarly  // the condition held before the at-least bound elapsed
    | ConditionNotMet       // the condition was never met before the at-most bound
    | ConditionNotHeld      // the condition was met but not held for the whole during window

  /** Every reason there is. */
  const AllTimeoutReasons: set<TimeoutReason> := {ConditionMetTooEarly, ConditionNotMet, ConditionNotHeld}

  /** The set of the elements of a list, as a hash set built from that list holds them. */
  function SetOfList<T(!new)>(xs: seq<T>): (s: set<T>)
    ensures forall x :: x in s <==> x in xs
    ensures |s| <= |xs|
  {
    if xs == [] then {} else {xs[0]} + SetOfList(xs[1..])
  }

  /** The reasons the report classifies as late, in the order they are listed. */
  const LateTimeoutReasonList: seq<TimeoutReason> := [ConditionNotMet, ConditionNotHeld]

  /** The fixed set of late reasons, built from `LateTimeoutReasonList`. */
  const LateTimeoutReasonSet: set<TimeoutReason> := SetOfList(LateTimeoutReasonList)

  /** The late set holds exactly `ConditionNotMet` and `ConditionNotHeld`, and nothing else. */
  lemma LateSetContents()
    ensures LateTimeoutReasonSet == {ConditionNotMet, ConditionNotHeld}
    ensures ConditionMetTooEarly !in LateTimeoutReasonSet
    ensures |LateTimeoutReasonSet| == 2
  {
  }

  /**
   A timeout report. The evaluation duration is a count of nanoseconds; the
   report only stores it and hands it back.
   */
  datatype TimeoutInfo = TimeoutInfo(
    alias: string,
    timeoutMessage: string,
    evaluationDuration: nat,
    timeoutReason: TimeoutReason)
  {
    function GetAlias(): string { alias }

    function GetTimeoutMessage(): string { timeoutMessage }

    function GetEvaluationDuration(): nat { evaluationDuration }

    function GetTimeoutReason(): TimeoutReason { timeoutReason }

    /** Early: the reason is not in the late set. */
    predicate IsEarlyTimeout()
      ensures IsEarlyTimeout() <==> timeoutReason == ConditionMetTooEarly
    {
      LateSetContents();
      assert timeoutReason.ConditionMetTooEarly? || timeoutReason.ConditionNotMet? || timeoutReason.ConditionNotHeld?;
      timeoutReason !in LateTimeoutReasonSet
    }

    /** Late: the reason is in the late set. */
    predicate IsLateTimeout()
      ensures IsLateTimeout() <==> timeoutReason == ConditionNotMet || timeoutReason == ConditionNotHeld
    {
      LateSetContents();
      timeoutReason in LateTimeoutReasonSet
    }
  }

  /** Each getter hands back exactly the argument given to the constructor for its field. */
  lemma GettersReturnConstructorArguments(alias: string, message: string, duration: nat, reason: TimeoutReason)
    ensures TimeoutInfo(alias, message, duration, reason).GetAlias() == alias
    ensures TimeoutInfo(alias, message, duration, reason).GetTimeoutMessage() == message
    ensures TimeoutInfo(alias, message, duration, reason).GetEvaluationDuration() == duration
    ensures TimeoutInfo(alias, message, duration, reason).GetTimeoutReason() == reason
  {
  }

  /** A report is early exactly when it is not late: for every report exactly one of the two holds. */
  lemma EarlyIsComplementOfLate(info: TimeoutInfo)
    ensures info.IsEarlyTimeout() <==> !info.IsLateTimeout()
    ensures info.IsEarlyTimeout() || info.IsLateTimeout()
    ensures !(info.IsEarlyTimeout() && info.IsLateTimeout())
  {
  }

  /** The late set and the one early reason split the reasons into two disjoint parts. */
  lemma ReasonsPartition()
    ensures LateTimeoutReasonSet + {ConditionMetTooEarly} == AllTimeoutReasons
    ensures LateTimeoutReasonSet * {ConditionMetTooEarly} == {}
    ensures forall r: TimeoutReason :: r in AllTimeoutReasons
  {
    LateSetContents();
    forall r: TimeoutReason
      ensures r in AllTimeoutReasons
    {
      assert r.ConditionMetTooEarly? || r.ConditionNotMet? || r.ConditionNotHeld?;
    }
  }

  /** Being early or late depends on the reason alone, not on alias, message or duration. */
  lemma ClassificationDependsOnlyOnReason(a: TimeoutInfo, b: TimeoutInfo)
    requires a.GetTimeoutReason() == b.GetTimeoutReason()
    ensures a.IsEarlyTimeout() == b.IsEarlyTimeout()
    ensures a.IsLateTimeout() == b.IsLateTimeout()
  {
  }
}
