# Awaitility timeout report

Awaitility is a Java library that lets a test wait for an asynchronous condition:
it polls a predicate until it holds, within an optional at-least bound, an at-most
bound and a during (hold) window. When the wait ends without success, the poller
builds a `TimeoutInfo` report and hands it to the user's `onTimeout` callback.

This project models that report (package `org.awaitility.core`):

- `Core.TimeoutReason` — the three timeout reasons: `ConditionMetTooEarly`,
  `ConditionNotMet`, `ConditionNotHeld`.
- `Core.TimeoutInfo` — an immutable value of four fields, set once by the
  constructor: alias, timeout message, evaluation duration, timeout reason, with
  the four getters.
- The fixed late set, built like the source's `new HashSet<>(Arrays.asList(...))`
  from the list `[ConditionNotMet, ConditionNotHeld]` (`Core.SetOfList`), and the
  two classifications: `IsLateTimeout` is membership in that set, `IsEarlyTimeout`
  is non-membership.
- `OnTimeoutTest` — the checks the on-timeout tests make of a captured report,
  as predicates, with lemmas saying exactly which reports pass each check.

The report is a Dafny `datatype`, so it cannot be changed after it is built.
That matches the source, where all four fields are `final` and there are no
setters; reading a field twice gives the same value by construction.

## Model

| member | source | states |
|---|---|---|
| `Core.SetOfList` | awaitility/src/main/java/org/awaitility/core/TimeoutInfo.java:26-29 | the set built from a list contains a value exactly when the list does, and has at most as many elements as the list |
| `Core.LateSetContents` | awaitility/src/main/java/org/awaitility/core/TimeoutInfo.java:26-29 | the late set is exactly `{ConditionNotMet, ConditionNotHeld}`: two elements, and `ConditionMetTooEarly` is not among them |
| `Core.TimeoutInfo.IsEarlyTimeout` | awaitility/src/main/java/org/awaitility/core/TimeoutInfo.java:59-61 | a report is early exactly when its reason is `ConditionMetTooEarly` |
| `Core.TimeoutInfo.IsLateTimeout` | awaitility/src/main/java/org/awaitility/core/TimeoutInfo.java:63-65 | a report is late exactly when its reason is `ConditionNotMet` or `ConditionNotHeld` |
| `Core.GettersReturnConstructorArguments` | awaitility/src/main/java/org/awaitility/core/TimeoutInfo.java:36-57 | each of the four getters returns exactly the argument the constructor was given for that field |
| `Core.EarlyIsComplementOfLate` | awaitility/src/main/java/org/awaitility/core/TimeoutInfo.java:59-65 | early is the negation of late; for every report exactly one of the two holds |
| `Core.ReasonsPartition` | awaitility/src/main/java/org/awaitility/core/TimeoutInfo.java:26-29 | the late set and `{ConditionMetTooEarly}` are disjoint and together make up every reason |
| `Core.ClassificationDependsOnlyOnReason` | awaitility/src/main/java/org/awaitility/core/TimeoutInfo.java:59-65 | two reports with the same reason are classified alike, whatever their alias, message and duration |
| `OnTimeoutTest.CommonFieldsSetForTestAlias` | awaitility/src/test/java/org/awaitility/OnTimeoutTest.java:132-135 | a report built with the test alias passes the alias check, and one built with the empty alias fails it |
| `OnTimeoutTest.ConditionMetTooEarlyCheckPassesExactly` | awaitility/src/test/java/org/awaitility/OnTimeoutTest.java:137-144 | the met-too-early check (not late, early, reason `ConditionMetTooEarly`) passes exactly for reports with that reason |
| `OnTimeoutTest.ConditionNotMetCheckPassesExactly` | awaitility/src/test/java/org/awaitility/OnTimeoutTest.java:146-153 | the not-met check (late, not early, reason `ConditionNotMet`) passes exactly for reports with that reason |
| `OnTimeoutTest.ConditionNotHeldCheckPassesExactly` | awaitility/src/test/java/org/awaitility/OnTimeoutTest.java:155-162 | the not-held check (late, not early, reason `ConditionNotHeld`) passes exactly for reports with that reason |
| `OnTimeoutTest.ReasonChecksAreExclusive` | awaitility/src/test/java/org/awaitility/OnTimeoutTest.java:137-162 | every report passes exactly one of the three reason checks |

## Left out

- The poll loop, the poll-interval strategies and the logic that picks a timeout reason: their sources are not part of this model, so the model takes the reason as given.
- `TimeoutReason.java` is not part of this model; its three constants are the ones `TimeoutInfo.java` and `OnTimeoutTest.java` use.
- The `await()` builder, the `onTimeout` callback wiring, `ignoreExceptionsInstanceOf` and the asynchronous test fixtures: concurrency, exceptions and builder plumbing whose sources are not part of this model.
- OnTimeoutTest.CommonFieldsSetForTestAlias: the test's check that the message is not null has no counterpart, because a Dafny string cannot be null.
- The tests' bounds on the measured evaluation duration (for example between 200 ms and 200 ms plus the poll interval plus a 10 ms margin): they depend on the wall clock and thread scheduling.
- `java.time.Duration`: the evaluation duration is a natural number of nanoseconds. The report only stores and returns it, so its seconds-and-nanoseconds layout, its arithmetic and negative durations play no part.
- Java `null`: a report built with a `null` reason would be early in the source, since `null` is not in the late set; the model's reason is always one of the three constants.
- `HashSet` mechanics (hashing, buckets): the late set is a mathematical set built from the list of late reasons.
- Object identity: `TimeoutInfo` does not override `equals`, so two Java reports with the same fields are distinct objects; the Dafny values are compared by content. Nothing in the model relies on comparing reports.
