/** The list-expression evaluator node: an ordered sequence of child
    evaluators, evaluated left to right against the shared result
    accumulator in a scope of its own. */
module ListEvaluator {
  import opened DmnCore
  import opened ListSemantics

  /** One call of a child evaluator against the accumulator: it writes its
      bindings into the current context, appends its messages, and returns
      or throws. The call is recorded in the accumulator's call log. */
  method Invoke(child: ChildEvaluator, result: DmnResult) returns (outcome: Outcome)
    modifies result, result.context
    ensures result.context == old(result.context)
    ensures result.context.entries == old(result.context.entries) + child.binds
    ensures result.messages == old(result.messages) + child.emits
    ensures result.calls == old(result.calls) + [child]
    ensures outcome == child.outcome
  {
    result.calls := result.calls + [child];
    result.context.entries := result.context.entries + child.binds;
    result.messages := result.messages + child.emits;
    outcome := child.outcome;
  }

  class DmnListEvaluator {
    const name: string
    const nodeId: string
    var elements: seq<ChildEvaluator>

    constructor(name: string, nodeId: string)
      ensures this.name == name && this.nodeId == nodeId
      ensures elements == []
    {
      this.name := name;
      this.nodeId := nodeId;
      elements := [];
    }

    /** Appends a child at the end, keeping the children already there. */
    method AddElement(evaluator: ChildEvaluator)
      modifies this
      ensures elements == old(elements) + [evaluator]
    {
      elements := elements + [evaluator];
    }

    method GetElements() returns (es: seq<ChildEvaluator>)
      ensures es == elements
    {
      es := elements;
    }

    /** Evaluates the children in order in a clone of the current context,
        stops at the first one that fails or throws, and restores the
        caller's context on every exit. The children called are the first
        run.invoked elements, in element order, and no others. */
    method Evaluate(result: DmnResult) returns (er: EvaluatorResult)
      modifies result
      ensures result.context == old(result.context)
      ensures result.context.entries == old(result.context.entries)
      ensures var run := EvaluateFrom(elements, 0, name, nodeId);
              && er == EvaluatorResult(Items(run.values), run.status)
              && result.messages == old(result.messages) + run.emitted
              && result.calls == old(result.calls) + elements[..run.invoked]
    {
      var previousContext := result.context;
      var dmnContext := previousContext.Clone();
      result.SetContext(dmnContext);
      er := EvaluateElements(result);
      result.SetContext(previousContext);
    }

    /** The body of Evaluate that runs inside the cloned scope: the children
        are called left to right and the first one that does not succeed
        ends the loop. */
    method EvaluateElements(result: DmnResult) returns (er: EvaluatorResult)
      modifies result, result.context
      ensures result.context == old(result.context)
      ensures var run := EvaluateFrom(elements, 0, name, nodeId);
              && er == EvaluatorResult(Items(run.values), run.status)
              && result.messages == old(result.messages) + run.emitted
              && result.calls == old(result.calls) + elements[..run.invoked]
    {
      var elems := elements;
      ghost var prior := result.messages;
      ghost var priorCalls := result.calls;
      ghost var run := EvaluateFrom(elems, 0, name, nodeId);
      var results: seq<Value> := [];
      var status := Success;
      var index := 0;
      while index < |elems|
        invariant index <= |elems|
        invariant status == Success
        invariant result.context == old(result.context)
        invariant AllSucceeded(elems[..index])
        invariant results == Values(elems[..index])
        invariant result.messages == prior + Emitted(elems[..index])
        invariant result.calls == priorCalls + elems[..index]
      {
        var value := EvaluateElement(elems[index], index, result);
        if value.None? {
          status := Failure;
          FailureStep(elems, index, name, nodeId);
          assert result.messages == prior + run.emitted;
          assert result.calls == priorCalls + elems[..run.invoked];
          assert results == run.values;
          break;
        }
        results := results + [value.value];
        SuccessStep(elems, index);
        index := index + 1;
      }
      if status == Success {
        assert elems[..index] == elems;
        RunWhenAllSucceed(elems, 0, name, nodeId);
        assert result.messages == prior + run.emitted;
        assert result.calls == priorCalls + elems[..run.invoked];
      }
      er := EvaluatorResult(Items(results), status);
    }

    /** One element: calls the child and collects its value when it
        succeeds; when it returns FAILURE or throws, appends this node's
        ERROR diagnostic for the 1-based position, with the exception as
        cause when there is one. */
    method EvaluateElement(child: ChildEvaluator, index: nat, result: DmnResult) returns (value: Option<Value>)
      modifies result, result.context
      ensures result.context == old(result.context)
      ensures result.context.entries == old(result.context.entries) + child.binds
      ensures result.calls == old(result.calls) + [child]
      ensures value.Some? <==> Succeeded(child.outcome)
      ensures value.Some? ==> value.value == child.outcome.er.result
      ensures result.messages
              == old(result.messages) + child.emits
                 + (if value.Some? then [] else [ErrorMessage(index, name, nodeId, CauseOf(child.outcome))])
    {
      var outcome := Invoke(child, result);
      match outcome {
        case Returns(childResult) =>
          if childResult.resultType == Success {
            value := Some(childResult.result);
          } else {
            result.AddMessage(Error, ErrorText(index + 1, name), nodeId, None);
            value := None;
          }
        case Throws(e) =>
          result.AddMessage(Error, ErrorText(index + 1, name), nodeId, Some(e));
          value := None;
      }
    }
  }
}
