/** Values, diagnostics and the result accumulator that every evaluator node of
    the decision-model runtime shares. */
module DmnCore {

  datatype Option<+T> = None | Some(value: T)

  /** A dynamically typed value as held by a context or produced by an evaluator.
      Only carried around by the list evaluator, never computed with. */
  datatype Value =
    | Null
    | Bool(b: bool)
    | Number(n: int)
    | Text(s: string)
    | Items(items: seq<Value>)

  datatype Severity = Info | Warn | Error

  /** An exception raised while an evaluator ran, known by its description. */
  datatype Fault = Fault(description: string)

  /** A diagnostic: severity, free text, the node it comes from and the
      exception that caused it, if any. */
  datatype Message = Message(severity: Severity, text: string, sourceId: string, exception: Option<Fault>)

  datatype ResultType = Success | Failure

  /** What an evaluator returns: a value and whether it may be used. */
  datatype EvaluatorResult = EvaluatorResult(result: Value, resultType: ResultType)

  /** How a child evaluator's call ends: it returns a result, or it throws. */
  datatype Outcome = Returns(er: EvaluatorResult) | Throws(fault: Fault)

  /** A child evaluator, known by what one call of it does to the accumulator:
      the bindings it writes into the current context, the messages it
      appends, and how the call ends. */
  datatype ChildEvaluator = ChildEvaluator(binds: map<string, Value>, emits: seq<Message>, outcome: Outcome)

  /** An evaluation context: a mapping from variable name to value. */
  class DmnContext {
    var entries: map<string, Value>

    constructor(entries: map<string, Value>)
      ensures this.entries == entries
    {
      this.entries := entries;
    }

    /** A fresh, independent copy: bindings made on the copy are not seen here. */
    method Clone() returns (c: DmnContext)
      ensures fresh(c)
      ensures c.entries == entries
    {
      c := new DmnContext(entries);
    }
  }

  /** The result accumulator: the current context and the messages so far.
      `calls` records, for the proofs only, every evaluator called against
      this accumulator, in call order. */
  class DmnResult {
    var context: DmnContext
    var messages: seq<Message>
    ghost var calls: seq<ChildEvaluator>

    constructor(context: DmnContext)
      ensures this.context == context && messages == [] && calls == []
    {
      this.context := context;
      messages := [];
      calls := [];
    }

    method SetContext(context: DmnContext)
      modifies this
      ensures this.context == context
      ensures messages == old(messages) && calls == old(calls)
    {
      this.context := context;
    }

    /** Appends one diagnostic; messages are never removed. */
    method AddMessage(severity: Severity, text: string, sourceId: string, exception: Option<Fault>)
      modifies this
      ensures context == old(context) && calls == old(calls)
      ensures messages == old(messages) + [Message(severity, text, sourceId, exception)]
    {
      messages := messages + [Message(severity, text, sourceId, exception)];
    }
  }
}
