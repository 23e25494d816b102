# List-expression evaluator of the DMN runtime, in Dafny

This project models the list-expression evaluator node of a DMN (Decision
Model and Notation) runtime, `DMNListEvaluator`. A list node owns an ordered
sequence of child evaluators. Its evaluation does four things:

- It saves the result accumulator's current context and installs a clone of it.
- It calls the children strictly left to right and collects each successful
  child's value.
- At the first child that returns FAILURE or throws an exception, it appends
  one ERROR diagnostic naming the 1-based position and the list, and returns
  FAILURE with the values collected so far.
- On every exit path it puts the saved context back.

Files and modules:

- `dmn_core.dfy`, module `DmnCore`: the values, diagnostics (`Message`) and
  evaluator results the node works with. A child evaluator is a
  `ChildEvaluator` value that says what one call of it does: the bindings it
  writes into the current context, the messages it appends, and whether it
  returns a result or throws (`Outcome`). The module also holds two classes:
  the evaluation context `DmnContext` and the result accumulator `DmnResult`.
  The accumulator holds the current context, an append-only message list and
  a ghost log of the evaluators called against it.
- `decimal.dfy`, module `Decimal`: how Java's string concatenation writes the
  `int` position into the diagnostic, with a parse-back round trip.
- `list_semantics.dfy`, module `ListSemantics`: the meaning of one evaluation
  of a list, stated on values. `EvaluateFrom` is the element-by-element
  reference semantics.
  The lemmas state the node's promises about it: ordering, fail-fast, partial
  results, the single ERROR message and its contents, and that a throw is
  handled like FAILURE.
- `list_evaluator.dfy`, module `ListEvaluator`: the class `DmnListEvaluator`
  with `AddElement`, `GetElements` and the imperative `Evaluate`.
  - `Evaluate` clones the context, installs the clone, runs the loop
    (`EvaluateElements`) and restores the saved context.
  - Each element's try/catch is `EvaluateElement`.
  - `Evaluate` is proved against `EvaluateFrom`. It also proves that the
    caller's context object comes back, with its bindings untouched.
  - `Invoke` appends each child it calls to the accumulator's call log.
    `Evaluate` proves that the log grows by exactly the first `k` elements in
    element order, where `k` is the number of children the run invoked.

Java's try/finally has no Dafny counterpart. The failing element leaves the
loop by `break`, and the single restore after the loop lies on every path out
of `Evaluate`. A thrown exception is the `Throws` outcome of a child, so
`Evaluate` always returns.

A FAILURE result carries the values collected before the failing element
(DMNListEvaluator.java lines 79 and 89); the model returns them too.

## Model

| member | source | states |
|---|---|---|
| `DmnCore.DmnContext.Clone` | kie-dmn-core/src/main/java/org/kie/dmn/core/ast/DMNListEvaluator.java:62 | the clone is a fresh object with the same bindings, so bindings made on it are not seen in the original |
| `DmnCore.DmnResult.SetContext` | kie-dmn-core/src/main/java/org/kie/dmn/core/ast/DMNListEvaluator.java:63 | installs the given context as current and leaves the messages as they were |
| `DmnCore.DmnResult.AddMessage` | kie-dmn-core/src/main/java/org/kie/dmn/core/ast/DMNListEvaluator.java:75-78 | appends exactly one message (severity, text, node id, optional exception) at the end; earlier messages and the context are unchanged |
| `Decimal.NatToString` | kie-dmn-core/src/main/java/org/kie/dmn/core/ast/DMNListEvaluator.java:73 | the position is written as a non-empty string of decimal digits with no leading zero, and "0" only for 0 |
| `Decimal.NatToStringRoundTrip` | kie-dmn-core/src/main/java/org/kie/dmn/core/ast/DMNListEvaluator.java:73 | reading the written position back gives the number that was written |
| `Decimal.NatToStringInjective` | kie-dmn-core/src/main/java/org/kie/dmn/core/ast/DMNListEvaluator.java:82 | different positions are written differently |
| `ListSemantics.FirstNonSuccess` | kie-dmn-core/src/main/java/org/kie/dmn/core/ast/DMNListEvaluator.java:67-72 | the index of the first child whose call does not return SUCCESS, or the length if all do: every child before it succeeded and the child at it did not |
| `ListSemantics.Values` | kie-dmn-core/src/main/java/org/kie/dmn/core/ast/DMNListEvaluator.java:71 | one collected value per child |
| `ListSemantics.ValuesAt` | kie-dmn-core/src/main/java/org/kie/dmn/core/ast/DMNListEvaluator.java:71 | the value at position i is the value child i returned |
| `ListSemantics.ValuesAppend` | kie-dmn-core/src/main/java/org/kie/dmn/core/ast/DMNListEvaluator.java:71 | collecting over two runs of children gives the first run's values followed by the second's |
| `ListSemantics.EmittedAppend` | kie-dmn-core/src/main/java/org/kie/dmn/core/ast/DMNListEvaluator.java:69 | the messages children append over two runs are the first run's followed by the second's |
| `ListSemantics.ErrorText` | kie-dmn-core/src/main/java/org/kie/dmn/core/ast/DMNListEvaluator.java:73 | the diagnostic text opens with `Error evaluating list element on `, continues with `position '<n>'`, and ends with `list '<name>'` |
| `ListSemantics.ErrorMessage` | kie-dmn-core/src/main/java/org/kie/dmn/core/ast/DMNListEvaluator.java:75-78 | the node's diagnostic for 0-based index i: severity ERROR, the list's node id, exactly the given cause (none for a FAILURE return, the exception for a throw as at lines 84-88), and the text for 1-based position i + 1 |
| `ListSemantics.SecondOfListLText` | kie-dmn-core/src/main/java/org/kie/dmn/core/ast/DMNListEvaluator.java:73 | the text for position 2 of list `L` is exactly `Error evaluating list element on position '2' on list 'L'` |
| `ListSemantics.ErrorTextNamesPositionAndList` | kie-dmn-core/src/main/java/org/kie/dmn/core/ast/DMNListEvaluator.java:73 | the diagnostic text contains `position '<n>'` and `list '<name>'` |
| `ListSemantics.ErrorTextDeterminesPosition` | kie-dmn-core/src/main/java/org/kie/dmn/core/ast/DMNListEvaluator.java:82 | two diagnostics of the same list are equal only if they name the same position |
| `ListSemantics.EvaluateFrom` | kie-dmn-core/src/main/java/org/kie/dmn/core/ast/DMNListEvaluator.java:65-97 | never more children are invoked than there are, and a SUCCESS run has invoked every child |
| `ListSemantics.RunWhenAllSucceed` | kie-dmn-core/src/main/java/org/kie/dmn/core/ast/DMNListEvaluator.java:67-71 | when every child succeeds the run is SUCCESS, with all values in order, only the children's own messages, and every child invoked |
| `ListSemantics.RunWhenFailingAt` | kie-dmn-core/src/main/java/org/kie/dmn/core/ast/DMNListEvaluator.java:72-89 | when child k is the first not to succeed, the run is FAILURE with the values of children 0..k-1 and the messages of children 0..k followed by one ERROR for position k+1, and k+1 children invoked |
| `ListSemantics.SucceedsIffAllSucceed` | kie-dmn-core/src/main/java/org/kie/dmn/core/ast/DMNListEvaluator.java:70-97 | the list's result is SUCCESS if and only if every child's call returns SUCCESS |
| `ListSemantics.AllSucceededCollectsEveryValue` | kie-dmn-core/src/main/java/org/kie/dmn/core/ast/DMNListEvaluator.java:67-71 | all children succeed: SUCCESS, exactly one value per child in element order (none for an empty list), every child invoked, and no message added by the node itself |
| `ListSemantics.FailFastWithPartialResults` | kie-dmn-core/src/main/java/org/kie/dmn/core/ast/DMNListEvaluator.java:72-79 | child k is the first not to succeed: FAILURE, exactly children 0..k invoked, and the partial results are the values of children 0..k-1 in order |
| `ListSemantics.FailureIgnoresLaterElements` | kie-dmn-core/src/main/java/org/kie/dmn/core/ast/DMNListEvaluator.java:81-89 | the run does not depend on anything after the first failing child |
| `ListSemantics.FailureAppendsOneError` | kie-dmn-core/src/main/java/org/kie/dmn/core/ast/DMNListEvaluator.java:73-88 | on failure the node adds exactly one message after the invoked children's messages: severity ERROR, the list's node id, text naming position k+1 and the list, with the exception as cause exactly when the child threw |
| `ListSemantics.ThrowHandledLikeFailure` | kie-dmn-core/src/main/java/org/kie/dmn/core/ast/DMNListEvaluator.java:81-89 | a child that throws gives the same result type, values, invocations and messages as one returning FAILURE, except that the last message carries the exception |
| `ListSemantics.SecondOfThreeFails` | kie-dmn-core/src/main/java/org/kie/dmn/core/ast/DMNListEvaluator.java:67-79 | list "L" on node "n7" whose second child fails: FAILURE after two calls, the first value kept, and the one message `Error evaluating list element on position '2' on list 'L'` |
| `ListEvaluator.Invoke` | kie-dmn-core/src/main/java/org/kie/dmn/core/ast/DMNListEvaluator.java:69 | a child's call writes its bindings into the current context, appends its messages and returns or throws as the child does, leaving the same context installed, and records the child in the call log |
| `ListEvaluator.DmnListEvaluator.constructor` | kie-dmn-core/src/main/java/org/kie/dmn/core/ast/DMNListEvaluator.java:43-47 | a new list node has its name and node id and no elements |
| `ListEvaluator.DmnListEvaluator.AddElement` | kie-dmn-core/src/main/java/org/kie/dmn/core/ast/DMNListEvaluator.java:49-51 | the child is appended at the end and the existing elements keep their order |
| `ListEvaluator.DmnListEvaluator.GetElements` | kie-dmn-core/src/main/java/org/kie/dmn/core/ast/DMNListEvaluator.java:53-55 | returns the node's elements |
| `ListEvaluator.DmnListEvaluator.Evaluate` | kie-dmn-core/src/main/java/org/kie/dmn/core/ast/DMNListEvaluator.java:58-98 | the caller's context object is current again on return with its bindings untouched; the result is the list of collected values with the run's result type; messages are only appended, and exactly the run's messages; the call log grows by exactly the first k elements in element order, where k is the run's number of invocations, so no element after the first failing one is called |
| `ListEvaluator.DmnListEvaluator.EvaluateElements` | kie-dmn-core/src/main/java/org/kie/dmn/core/ast/DMNListEvaluator.java:65-93 | the loop over the elements in the cloned scope computes exactly the reference run: values, result type, appended messages and the children called |
| `ListEvaluator.DmnListEvaluator.EvaluateElement` | kie-dmn-core/src/main/java/org/kie/dmn/core/ast/DMNListEvaluator.java:68-92 | one element: the child is called once and logged; a value exactly when the child returns SUCCESS; otherwise the child's messages are followed by the node's ERROR for this position, with the exception when the child threw and none when it returned FAILURE |

## Left out

- The event manager parameter and `DMNRuntimeEventListener`: the list node only passes the event manager on to its children and never fires an event, and the listener interface has no logic.
- The `logger.error` calls (lines 74 and 83): logging has no effect on the outcome.
- The `listDef` field: the FEEL list definition is stored but never read by `evaluate`.
- The casts to `DMNResultImpl` and `DMNContextImpl` (lines 59 and 62): the model takes a `DmnResult` directly, so a `ClassCastException` cannot arise.
- A child that throws a `java.lang.Error` rather than an `Exception`: `catch (Exception e)` lets it escape `evaluate` after the outer `finally` restores the context. The `Throws` outcome stands for an `Exception` only.
- A child that returns null: the call `er.getResultType()` on line 70 then throws inside the `try`, and the catch handles it. The model writes this as the `Throws` outcome.
- The child evaluators' own logic: each child is a fixed description of its effects (bindings, messages, outcome). The model does not capture a child whose result depends on the bindings it reads.
- `DmnCore.DmnContext.Clone`: the clone's internals are not part of this model. It is modelled as a fresh context with equal bindings.
- `DmnCore.DmnResult`: only the current context and the message list are modelled. The decision-results map is not used by the list node.
- `ListEvaluator.Invoke`: a child is assumed to leave the current context installed when it returns. A Java child receives the whole result and may call `setContext` without restoring it. Later siblings would then run in that other context, and the model does not capture that.
- `ListEvaluator.DmnListEvaluator.Evaluate`: the current context is never null in the model. In Java a null context makes `previousContext.clone()` on line 62 throw (a null dereference). That call is outside the `try`, so the exception escapes `evaluate`.
- `ListEvaluator.DmnListEvaluator.constructor`: the list name is never null in the model. Java would write `list 'null'` into the diagnostic text on line 73.
- `ListEvaluator.DmnListEvaluator.GetElements`: Java returns the live `ArrayList`, so a caller can change the node's elements through it. The model returns the sequence as a value and does not capture that aliasing.
- `ListSemantics.ErrorMessage`: the exception is modelled by its description (`Fault`), not as a Java `Throwable` object.
- `Decimal.NatToString`: positions are unbounded `nat`s. Java's `int` index cannot overflow here, because a list holds at most `Integer.MAX_VALUE` elements.
- `DmnCore.Value`: FEEL numbers are decimals. Here they are integers, because the list node only carries values and never computes with them.
