/** What evaluating a list expression means, element by element, stated on
    values: which children run, which values are collected, which messages
    are appended and whether the list succeeds. */
module ListSemantics {
  import opened DmnCore
  import Decimal

  predicate Succeeded(o: Outcome) {
    o.Returns? && o.er.resultType == Success
  }

  predicate AllSucceeded(elems: seq<ChildEvaluator>) {
    forall i :: 0 <= i < |elems| ==> Succeeded(elems[i].outcome)
  }

  /** The exception a failing call carries into the diagnostic. */
  function CauseOf(o: Outcome): Option<Fault> {
    if o.Throws? then Some(o.fault) else None
  }

  /** The index of the first child that does not succeed, or |elems| if all do. */
  function FirstNonSuccess(elems: seq<ChildEvaluator>): (k: nat)
    ensures k <= |elems|
    ensures forall i :: 0 <= i < k ==> Succeeded(elems[i].outcome)
    ensures k < |elems| ==> !Succeeded(elems[k].outcome)
  {
    if elems == [] || !Succeeded(elems[0].outcome) then 0 else 1 + FirstNonSuccess(elems[1..])
  }

  /** The value a call returned (Null for a call that threw). */
  function ValueOf(o: Outcome): Value {
    if o.Returns? then o.er.result else Null
  }

  /** The values the children returned, in element order. */
  function Values(elems: seq<ChildEvaluator>): (vs: seq<Value>)
    ensures |vs| == |elems|
  {
    if elems == [] then [] else [ValueOf(elems[0].outcome)] + Values(elems[1..])
  }

  /** Values holds each child's value at the child's own index. */
  lemma {:induction false} ValuesAt(elems: seq<ChildEvaluator>)
    ensures forall i :: 0 <= i < |elems| ==> Values(elems)[i] == ValueOf(elems[i].outcome)
  {
    if elems != [] {
      ValuesAt(elems[1..]);
    }
  }

  lemma {:induction false} ValuesAppend(a: seq<ChildEvaluator>, b: seq<ChildEvaluator>)
    ensures Values(a + b) == Values(a) + Values(b)
  {
    if a == [] {
      assert a + b == b;
    } else {
      assert (a + b)[1..] == a[1..] + b;
      ValuesAppend(a[1..], b);
    }
  }

  /** The messages the children themselves append, in element order. */
  function Emitted(elems: seq<ChildEvaluator>): seq<Message> {
    if elems == [] then [] else elems[0].emits + Emitted(elems[1..])
  }

  lemma {:induction false} EmittedAppend(a: seq<ChildEvaluator>, b: seq<ChildEvaluator>)
    ensures Emitted(a + b) == Emitted(a) + Emitted(b)
  {
    if a == [] {
      assert a + b == b;
    } else {
      assert (a + b)[1..] == a[1..] + b;
      EmittedAppend(a[1..], b);
    }
  }

  lemma EmittedSnoc(elems: seq<ChildEvaluator>, i: nat)
    requires i < |elems|
    ensures Emitted(elems[..i + 1]) == Emitted(elems[..i]) + elems[i].emits
  {
    assert elems[..i + 1] == elems[..i] + [elems[i]];
    EmittedAppend(elems[..i], [elems[i]]);
    assert [elems[i]][1..] == [];
  }

  /** The part of a diagnostic that names a 1-based position. */
  function PositionPart(position: nat): string {
    "position '" + Decimal.NatToString(position) + "'"
  }

  /** The part of a diagnostic that names a list. */
  function ListPart(name: string): string {
    "list '" + name + "'"
  }

  ghost predicate Contains(s: string, part: string) {
    exists i :: 0 <= i <= |s| && part <= s[i..]
  }

  lemma ContainsMiddle(a: string, b: string, c: string)
    ensures Contains(a + b + c, b)
  {
    assert (a + b + c)[|a|..] == b + c;
  }

  /** The words that open every diagnostic of a failing list element. */
  const ErrorLead: string := "Error evaluating list element on "

  /** The text of the diagnostic for the element at 1-based `position` of
      list `name`: the position part follows the opening words, and the
      list part ends the text. */
  function ErrorText(position: nat, name: string): (t: string)
    ensures ErrorLead <= t && |ErrorLead| + |PositionPart(position)| <= |t|
    ensures t[|ErrorLead|..|ErrorLead| + |PositionPart(position)|] == PositionPart(position)
    ensures |t| >= |ListPart(name)| && t[|t| - |ListPart(name)|..] == ListPart(name)
  {
    ErrorLead + PositionPart(position) + " on " + ListPart(name)
  }

  /** The diagnostic names the position and the list. */
  lemma ErrorTextNamesPositionAndList(position: nat, name: string)
    ensures Contains(ErrorText(position, name), PositionPart(position))
    ensures Contains(ErrorText(position, name), ListPart(name))
  {
    var t, p, l := ErrorText(position, name), PositionPart(position), ListPart(name);
    assert p <= t[|ErrorLead|..];
    assert l <= t[|t| - |l|..];
  }

  /** The diagnostic the list node appends when its element at 0-based
      `index` fails: an ERROR from the list's node for 1-based position
      index + 1, carrying the cause when there is one. */
  function ErrorMessage(index: nat, name: string, nodeId: string, cause: Option<Fault>): (m: Message)
    ensures m.severity == Error && m.sourceId == nodeId && m.exception == cause
    ensures m.text == ErrorText(index + 1, name)
  {
    Message(Error, ErrorText(index + 1, name), nodeId, cause)
  }

  /** Two diagnostics of one list are equal only for the same position. */
  lemma ErrorTextDeterminesPosition(p: nat, q: nat, name: string)
    ensures ErrorText(p, name) == ErrorText(q, name) ==> p == q
  {
    if ErrorText(p, name) == ErrorText(q, name) {
      var lead := ErrorLead + "position '";
      var tail := "'" + " on " + ListPart(name);
      var dp, dq := Decimal.NatToString(p), Decimal.NatToString(q);
      assert ErrorText(p, name) == lead + dp + tail;
      assert ErrorText(q, name) == lead + dq + tail;
      assert |dp| == |dq|;
      assert dp == (lead + dp + tail)[|lead|..|lead| + |dp|];
      assert dq == (lead + dq + tail)[|lead|..|lead| + |dq|];
      Decimal.NatToStringInjective(p, q);
    }
  }

  /** One evaluation of a list node: its result type, the values collected,
      the messages appended (the children's and its own) and how many
      children were invoked. */
  datatype Run = Run(status: ResultType, values: seq<Value>, emitted: seq<Message>, invoked: nat)

  /** The list node's evaluation, element by element: `start` is the 0-based
      index of elems[0] in the whole list. */
  function EvaluateFrom(elems: seq<ChildEvaluator>, start: nat, name: string, nodeId: string): (run: Run)
    ensures run.invoked <= |elems|
    ensures run.status == Success ==> run.invoked == |elems|
  {
    if elems == [] then
      Run(Success, [], [], 0)
    else
      var c := elems[0];
      if Succeeded(c.outcome) then
        var rest := EvaluateFrom(elems[1..], start + 1, name, nodeId);
        Run(rest.status, [c.outcome.er.result] + rest.values, c.emits + rest.emitted, 1 + rest.invoked)
      else
        Run(Failure, [], c.emits + [ErrorMessage(start, name, nodeId, CauseOf(c.outcome))], 1)
  }

  /** The run of a list whose children all succeed. */
  lemma {:induction false} RunWhenAllSucceed(elems: seq<ChildEvaluator>, start: nat, name: string, nodeId: string)
    requires AllSucceeded(elems)
    ensures EvaluateFrom(elems, start, name, nodeId) == Run(Success, Values(elems), Emitted(elems), |elems|)
  {
    if elems != [] {
      assert forall i :: 0 <= i < |elems| - 1 ==> elems[1..][i] == elems[i + 1];
      RunWhenAllSucceed(elems[1..], start + 1, name, nodeId);
    }
  }

  /** The run of a list whose first child not to succeed is element k. */
  lemma {:induction false} RunWhenFailingAt(elems: seq<ChildEvaluator>, k: nat, start: nat, name: string, nodeId: string)
    requires k < |elems|
    requires AllSucceeded(elems[..k])
    requires !Succeeded(elems[k].outcome)
    ensures EvaluateFrom(elems, start, name, nodeId)
            == Run(Failure, Values(elems[..k]), Emitted(elems[..k + 1]) + [ErrorMessage(start + k, name, nodeId, CauseOf(elems[k].outcome))], k + 1)
  {
    if k == 0 {
      assert elems[..1] == [elems[0]];
      assert elems[..1][1..] == [];
    } else {
      var rest := elems[1..];
      assert elems[..k][0] == elems[0];
      assert rest[..k - 1] == elems[..k][1..];
      RunWhenFailingAt(rest, k - 1, start + 1, name, nodeId);
      assert elems[..k + 1][1..] == rest[..k];
    }
  }

  /** One more succeeding child extends the collected values by its value. */
  lemma SuccessStep(elems: seq<ChildEvaluator>, i: nat)
    requires i < |elems|
    requires AllSucceeded(elems[..i])
    requires Succeeded(elems[i].outcome)
    ensures elems[..i + 1] == elems[..i] + [elems[i]]
    ensures AllSucceeded(elems[..i + 1])
    ensures Values(elems[..i + 1]) == Values(elems[..i]) + [ValueOf(elems[i].outcome)]
    ensures Emitted(elems[..i + 1]) == Emitted(elems[..i]) + elems[i].emits
  {
    assert elems[..i + 1] == elems[..i] + [elems[i]];
    ValuesAppend(elems[..i], [elems[i]]);
    assert [elems[i]][1..] == [];
    EmittedSnoc(elems, i);
  }

  /** The child at i is the first not to succeed: the run ends here, after
      the children's messages and the node's own diagnostic. */
  lemma FailureStep(elems: seq<ChildEvaluator>, i: nat, name: string, nodeId: string)
    requires i < |elems|
    requires AllSucceeded(elems[..i])
    requires !Succeeded(elems[i].outcome)
    ensures var run := EvaluateFrom(elems, 0, name, nodeId);
            && run.status == Failure
            && run.values == Values(elems[..i])
            && run.invoked == i + 1
            && elems[..run.invoked] == elems[..i] + [elems[i]]
            && run.emitted == Emitted(elems[..i]) + elems[i].emits + [ErrorMessage(i, name, nodeId, CauseOf(elems[i].outcome))]
  {
    RunWhenFailingAt(elems, i, 0, name, nodeId);
    EmittedSnoc(elems, i);
  }

  /** The list succeeds exactly when every element succeeds. */
  lemma SucceedsIffAllSucceed(elems: seq<ChildEvaluator>, name: string, nodeId: string)
    ensures EvaluateFrom(elems, 0, name, nodeId).status == Success <==> AllSucceeded(elems)
  {
    var k := FirstNonSuccess(elems);
    if k < |elems| {
      assert forall j :: 0 <= j < k ==> elems[..k][j] == elems[j];
      RunWhenFailingAt(elems, k, 0, name, nodeId);
    } else {
      RunWhenAllSucceed(elems, 0, name, nodeId);
    }
  }

  /** All elements succeed: one value per element, in element order, every
      child invoked, and no message beyond the children's own. */
  lemma AllSucceededCollectsEveryValue(elems: seq<ChildEvaluator>, name: string, nodeId: string)
    requires AllSucceeded(elems)
    ensures var run := EvaluateFrom(elems, 0, name, nodeId);
            && run.status == Success
            && |run.values| == |elems|
            && (forall i :: 0 <= i < |elems| ==> run.values[i] == elems[i].outcome.er.result)
            && run.invoked == |elems|
            && run.emitted == Emitted(elems)
  {
    RunWhenAllSucceed(elems, 0, name, nodeId);
    ValuesAt(elems);
  }

  /** Fail-fast: when element k is the first not to succeed, the list fails,
      exactly elements 0..k are invoked, and the partial results are the
      values of elements 0..k-1, in order. */
  lemma FailFastWithPartialResults(elems: seq<ChildEvaluator>, k: nat, name: string, nodeId: string)
    requires k < |elems|
    requires AllSucceeded(elems[..k])
    requires !Succeeded(elems[k].outcome)
    ensures var run := EvaluateFrom(elems, 0, name, nodeId);
            && run.status == Failure
            && run.invoked == k + 1
            && |run.values| == k
            && (forall i :: 0 <= i < k ==> Succeeded(elems[i].outcome) && run.values[i] == elems[i].outcome.er.result)
  {
    RunWhenFailingAt(elems, k, 0, name, nodeId);
    ValuesAt(elems[..k]);
    assert forall i :: 0 <= i < k ==> elems[..k][i] == elems[i];
  }

  /** Whatever follows the first failing element is never looked at. */
  lemma FailureIgnoresLaterElements(elems: seq<ChildEvaluator>, k: nat, later: seq<ChildEvaluator>, name: string, nodeId: string)
    requires k < |elems|
    requires AllSucceeded(elems[..k])
    requires !Succeeded(elems[k].outcome)
    ensures EvaluateFrom(elems[..k + 1] + later, 0, name, nodeId) == EvaluateFrom(elems, 0, name, nodeId)
  {
    var other := elems[..k + 1] + later;
    assert other[..k] == elems[..k];
    assert other[..k + 1] == elems[..k + 1];
    RunWhenFailingAt(elems, k, 0, name, nodeId);
    RunWhenFailingAt(other, k, 0, name, nodeId);
  }

  /** On failure the list node appends exactly one message of its own, after
      the messages of the children it invoked: an ERROR from the list's node,
      naming the 1-based position and the list, carrying the exception when
      the child threw and none when it returned FAILURE. */
  lemma FailureAppendsOneError(elems: seq<ChildEvaluator>, k: nat, name: string, nodeId: string)
    requires k < |elems|
    requires AllSucceeded(elems[..k])
    requires !Succeeded(elems[k].outcome)
    ensures var run := EvaluateFrom(elems, 0, name, nodeId);
            && |run.emitted| == |Emitted(elems[..k + 1])| + 1
            && run.emitted[..|run.emitted| - 1] == Emitted(elems[..k + 1])
            && var m := run.emitted[|run.emitted| - 1];
            && m.severity == Error
            && m.sourceId == nodeId
            && Contains(m.text, PositionPart(k + 1))
            && Contains(m.text, ListPart(name))
            && (elems[k].outcome.Throws? ==> m.exception == Some(elems[k].outcome.fault))
            && (elems[k].outcome.Returns? ==> m.exception == None)
  {
    RunWhenFailingAt(elems, k, 0, name, nodeId);
    ErrorTextNamesPositionAndList(k + 1, name);
  }

  /** A child that throws is handled as one that returns FAILURE, except that
      the list's message carries the exception. */
  lemma ThrowHandledLikeFailure(elems: seq<ChildEvaluator>, k: nat, failed: EvaluatorResult, name: string, nodeId: string)
    requires k < |elems|
    requires AllSucceeded(elems[..k])
    requires elems[k].outcome.Throws?
    requires failed.resultType == Failure
    ensures var thrown := EvaluateFrom(elems, 0, name, nodeId);
            var returned := EvaluateFrom(elems[k := elems[k].(outcome := Returns(failed))], 0, name, nodeId);
            && thrown.status == returned.status
            && thrown.values == returned.values
            && thrown.invoked == returned.invoked
            && |thrown.emitted| == |returned.emitted| > 0
            && thrown.emitted[..|thrown.emitted| - 1] == returned.emitted[..|returned.emitted| - 1]
            && thrown.emitted[|thrown.emitted| - 1]
               == returned.emitted[|returned.emitted| - 1].(exception := Some(elems[k].outcome.fault))
  {
    var other := elems[k := elems[k].(outcome := Returns(failed))];
    assert other[..k] == elems[..k];
    EmittedSnoc(elems, k);
    EmittedSnoc(other, k);
    RunWhenFailingAt(elems, k, 0, name, nodeId);
    RunWhenFailingAt(other, k, 0, name, nodeId);
  }

  /** The diagnostic text for position 2 of list "L". */
  lemma SecondOfListLText()
    ensures ErrorText(2, "L") == "Error evaluating list element on position '2' on list 'L'"
  {
    assert Decimal.NatToString(2) == "2";
    assert PositionPart(2) == "position '2'";
    assert ErrorLead + "position '2'" + " on " + "list 'L'" == "Error evaluating list element on position '2' on list 'L'";
  }

  /** A list "L" on node "n7" of three elements whose second returns FAILURE:
      the list fails after two calls, keeps the first value, and appends one
      ERROR for position 2 of list L. */
  lemma SecondOfThreeFails(first: ChildEvaluator, second: ChildEvaluator, third: ChildEvaluator)
    requires Succeeded(first.outcome) && first.emits == []
    requires second.outcome == Returns(EvaluatorResult(Null, Failure)) && second.emits == []
    ensures var run := EvaluateFrom([first, second, third], 0, "L", "n7");
            && run.status == Failure
            && run.invoked == 2
            && run.values == [first.outcome.er.result]
            && run.emitted == [Message(Error, "Error evaluating list element on position '2' on list 'L'", "n7", None)]
  {
    var elems := [first, second, third];
    assert elems[..1] == [first];
    assert elems[..2] == [first, second];
    RunWhenFailingAt(elems, 1, 0, "L", "n7");
    assert [first, second][1..] == [second] && [second][1..] == [];
    assert Emitted([second]) == [];
    assert Emitted([first, second]) == [];
    SecondOfListLText();
  }
}
