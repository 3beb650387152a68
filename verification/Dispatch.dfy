/** All-or-nothing dispatch: authorize the whole batch, then run the frozen callbacks in order. */
module Dispatch {
  import opened Wrappers
  import opened JsonValues
  import opened Engine
  import opened Runtime
  import opened Gate

  datatype Invocation = Invocation(toolName: string, arguments: Json)

  /** The callbacks' side effects as a log; what a callback returns, if it does not raise, depends on the log. */
  class Tools {
    const answers: seq<Invocation> -> Option<Json>
    var invoked: seq<Invocation>

    constructor (answers: seq<Invocation> -> Option<Json>)
      ensures invoked == [] && this.answers == answers
    {
      this.answers := answers;
      invoked := [];
    }

    method Invoke(invocation: Invocation) returns (answer: Option<Json>)
      modifies this
      ensures invoked == old(invoked) + [invocation]
      ensures answer == answers(invoked)
    {
      invoked := invoked + [invocation];
      answer := answers(invoked);
    }
  }

  datatype ExecutionResult = ExecutionResult(decision: Decision, value: Json)

  datatype DispatchError = InvalidBindings | NotAuthorized(error: GateError) | CallbackFailed(at: nat)

  /** The call that a context asks for. */
  function InvocationIn(context: ToolContext): Invocation
  {
    Invocation(OperationOf(context), ArgumentsOf(context))
  }

  function InvocationOf(item: BatchItem): Invocation
    requires item.Prepared?
  {
    Invocation(item.call.ToolName(), item.call.Arguments())
  }

  function Invocations(items: seq<BatchItem>): (invocations: seq<Invocation>)
    requires AllPrepared(items)
    ensures |invocations| == |items|
  {
    seq(|items|, i requires 0 <= i < |items| => InvocationOf(items[i]))
  }

  class ToolDispatcher {
    const gate: ToolGate
    const tools: Tools
    /** The catalog: the capabilities bound to each registered name. */
    const bindings: map<string, seq<string>>

    constructor (gate: ToolGate, tools: Tools, bindings: map<string, seq<string>>)
      ensures this.gate == gate && this.tools == tools && this.bindings == bindings
    {
      this.gate := gate;
      this.tools := tools;
      this.bindings := bindings;
    }

    predicate Bound(item: BatchItem)
    {
      item.Prepared? && item.call.ToolName() in bindings && item.call.Capabilities() == bindings[item.call.ToolName()]
    }

    predicate ValidBindings(items: seq<BatchItem>)
    {
      |items| <= MAX_TOOL_BATCH_ITEMS && forall i | 0 <= i < |items| :: Bound(items[i])
    }

    /** `_materialize_batch` and `_validate_batch_bindings`. */
    method ValidateBindings(items: seq<BatchItem>) returns (accepted: bool)
      ensures accepted <==> ValidBindings(items)
    {
      if |items| > MAX_TOOL_BATCH_ITEMS {
        return false;
      }
      for index := 0 to |items|
        invariant forall i | 0 <= i < index :: Bound(items[i])
      {
        if !Bound(items[index]) {
          return false;
        }
      }
      return true;
    }

    /** The answer of the `i`-th callback of a batch that begins after `before`. */
    function AnswerTo(before: seq<Invocation>, invocations: seq<Invocation>, i: nat): Option<Json>
      requires i < |invocations|
    {
      tools.answers(before + invocations[..i + 1])
    }

    predicate AllAnswer(before: seq<Invocation>, invocations: seq<Invocation>, count: nat)
      requires count <= |invocations|
    {
      forall i | 0 <= i < count :: AnswerTo(before, invocations, i).Some?
    }

    /** The batch was authorized: every call allowed, every record delivered. */
    predicate Authorized(config: Configuration, items: seq<BatchItem>, delivered: seq<Decision>,
                         deliveredAfter: seq<Decision>, decisions: seq<Decision>)
    {
      ValidBindings(items) && gate.Enforced(config, items, delivered, deliveredAfter, Ok(decisions))
    }

    /** What `execute_many` may answer, given what the sink took and the callbacks did before and after. */
    ghost predicate Executed(config: Configuration, items: seq<BatchItem>,
                             delivered: seq<Decision>, deliveredAfter: seq<Decision>,
                             invoked: seq<Invocation>, invokedAfter: seq<Invocation>,
                             r: Result<seq<ExecutionResult>, DispatchError>)
    {
      match r
      case Err(InvalidBindings) => !ValidBindings(items) && deliveredAfter == delivered && invokedAfter == invoked
      case Err(NotAuthorized(error)) =>
        && ValidBindings(items)
        && gate.Enforced(config, items, delivered, deliveredAfter, Err(error)) && invokedAfter == invoked
      case Err(CallbackFailed(at)) =>
        && (exists decisions :: Authorized(config, items, delivered, deliveredAfter, decisions))
        && AllPrepared(items) && at < |items|
        && invokedAfter == invoked + Invocations(items)[..at + 1]
        && AllAnswer(invoked, Invocations(items), at) && AnswerTo(invoked, Invocations(items), at).None?
      case Ok(results) =>
        && Authorized(config, items, delivered, deliveredAfter, DecisionsOf(results))
        && AllPrepared(items) && |results| == |items|
        && invokedAfter == invoked + Invocations(items)
        && forall i | 0 <= i < |items| :: AnswerTo(invoked, Invocations(items), i) == Some(results[i].value)
    }

    method ExecuteMany(items: seq<BatchItem>) returns (r: Result<seq<ExecutionResult>, DispatchError>)
      requires gate.runtime.Valid()
      modifies gate.SinkObjects(), tools
      ensures gate.runtime.Valid()
      ensures Executed(gate.runtime.engine, items, old(gate.Delivered()), gate.Delivered(), old(tools.invoked), tools.invoked, r)
    {
      var accepted := ValidateBindings(items);
      if !accepted {
        return Err(InvalidBindings);
      }
      var decisions := gate.EnforceMany(items);
      if decisions.Err? {
        return Err(NotAuthorized(decisions.error));
      }
      assert Authorized(gate.runtime.engine, items, old(gate.Delivered()), gate.Delivered(), decisions.value);
      var results := RunCallbacks(items, decisions.value);
      match results
      case Err(at) => return Err(CallbackFailed(at));
      case Ok(values) => return Ok(values);
    }

    /** The loop over the callbacks, in order; the first that raises ends it. */
    method RunCallbacks(items: seq<BatchItem>, decisions: seq<Decision>) returns (r: Result<seq<ExecutionResult>, nat>)
      requires AllPrepared(items) && |decisions| == |items|
      modifies tools
      ensures r.Err? ==>
                && r.error < |items| && tools.invoked == old(tools.invoked) + Invocations(items)[..r.error + 1]
                && AllAnswer(old(tools.invoked), Invocations(items), r.error)
                && AnswerTo(old(tools.invoked), Invocations(items), r.error).None?
      ensures r.Ok? ==>
                && tools.invoked == old(tools.invoked) + Invocations(items)
                && |r.value| == |items| && DecisionsOf(r.value) == decisions
                && forall i | 0 <= i < |items| :: AnswerTo(old(tools.invoked), Invocations(items), i) == Some(r.value[i].value)
    {
      var results: seq<ExecutionResult> := [];
      ghost var before, invocations := tools.invoked, Invocations(items);
      for index := 0 to |items|
        invariant tools.invoked == before + invocations[..index]
        invariant |results| == index && DecisionsOf(results) == decisions[..index]
        invariant forall i | 0 <= i < index :: AnswerTo(before, invocations, i) == Some(results[i].value)
      {
        var answer := tools.Invoke(InvocationOf(items[index]));
        assert tools.invoked == before + invocations[..index + 1];
        assert answer == AnswerTo(before, invocations, index);
        if answer.None? {
          return Err(index);
        }
        results := results + [ExecutionResult(decisions[index], answer.value)];
      }
      assert decisions[..|items|] == decisions && invocations[..|items|] == invocations;
      return Ok(results);
    }
  }

  function DecisionsOf(results: seq<ExecutionResult>): seq<Decision>
  {
    seq(|results|, i requires 0 <= i < |results| => results[i].decision)
  }

  predicate DecidedToAllow(config: Configuration, context: Json)
  {
    && Evaluation(config.policy, config.contract, context).Ok?
    && Evaluation(config.policy, config.contract, context).value.outcome.OutcomeAllow?
  }

  /**
   If any callback ran, then every call of the batch was allowed, every record was delivered first, and
   what ran is an initial part of the batch, each call once and in order.
   */
  lemma AllOrNothing(dispatcher: ToolDispatcher, config: Configuration, items: seq<BatchItem>,
                     delivered: seq<Decision>, deliveredAfter: seq<Decision>,
                     invoked: seq<Invocation>, invokedAfter: seq<Invocation>,
                     r: Result<seq<ExecutionResult>, DispatchError>)
    requires dispatcher.Executed(config, items, delivered, deliveredAfter, invoked, invokedAfter, r)
    requires invokedAfter != invoked
    ensures AllPrepared(items) && invoked <= invokedAfter <= invoked + Invocations(items)
    ensures exists decisions ::
              && dispatcher.gate.Evaluated(config, items, delivered, deliveredAfter, Ok(decisions))
              && AllAllowed(decisions) && |decisions| == |items|
              && deliveredAfter == dispatcher.gate.After(delivered, decisions)
  {
    if r.Ok? {
      assert dispatcher.gate.Enforced(config, items, delivered, deliveredAfter, Ok(DecisionsOf(r.value)));
    } else {
      var decisions :| dispatcher.Authorized(config, items, delivered, deliveredAfter, decisions);
      assert dispatcher.gate.Enforced(config, items, delivered, deliveredAfter, Ok(decisions));
    }
  }

  lemma AllowedMeans(gate: ToolGate, config: Configuration, items: seq<BatchItem>, delivered: seq<Decision>,
                     deliveredAfter: seq<Decision>, decisions: seq<Decision>, i: nat)
    requires gate.Evaluated(config, items, delivered, deliveredAfter, Ok(decisions)) && AllAllowed(decisions)
    requires i < |items| && items[i].Prepared?
    ensures DecidedToAllow(config, items[i].call.context)
  {
    hide IsToolContext;
    assert Contexts(items)[i] == items[i].call.context;
    assert Evaluation(config.policy, config.contract, Contexts(items)[i]) == Ok(decisions[i]);
  }

  lemma InvocationAt(items: seq<BatchItem>, invoked: seq<Invocation>, invokedAfter: seq<Invocation>, n: nat)
    requires AllPrepared(items) && invoked <= invokedAfter <= invoked + Invocations(items)
    requires |invoked| <= n < |invokedAfter|
    ensures n - |invoked| < |items| && invokedAfter[n] == InvocationIn(items[n - |invoked|].call.context)
  {
    hide OperationOf, ArgumentsOf;
    assert invokedAfter[n] == (invoked + Invocations(items))[n] == Invocations(items)[n - |invoked|];
  }

  /** What runs is what was authorized: every callback gets the operation and arguments of a context that was allowed. */
  lemma OnlyAllowedCallsRun(dispatcher: ToolDispatcher, config: Configuration, items: seq<BatchItem>,
                            delivered: seq<Decision>, deliveredAfter: seq<Decision>,
                            invoked: seq<Invocation>, invokedAfter: seq<Invocation>,
                            r: Result<seq<ExecutionResult>, DispatchError>, n: nat)
    requires dispatcher.Executed(config, items, delivered, deliveredAfter, invoked, invokedAfter, r)
    requires |invoked| <= n < |invokedAfter|
    ensures n - |invoked| < |items| && items[n - |invoked|].Prepared?
    ensures invokedAfter[n] == InvocationIn(items[n - |invoked|].call.context)
    ensures DecidedToAllow(config, items[n - |invoked|].call.context)
  {
    hide *;
    AllOrNothing(dispatcher, config, items, delivered, deliveredAfter, invoked, invokedAfter, r);
    InvocationAt(items, invoked, invokedAfter, n);
    var decisions :| dispatcher.gate.Evaluated(config, items, delivered, deliveredAfter, Ok(decisions))
                     && AllAllowed(decisions) && |decisions| == |items|
                     && deliveredAfter == dispatcher.gate.After(delivered, decisions);
    PreparedAt(items, n - |invoked|);
    AllowedMeans(dispatcher.gate, config, items, delivered, deliveredAfter, decisions, n - |invoked|);
  }

  lemma PreparedAt(items: seq<BatchItem>, i: nat)
    requires AllPrepared(items) && i < |items|
    ensures items[i].Prepared?
  {
  }

  /** One call that is denied or sent to review keeps every call of the batch from running. */
  lemma OneBlockStopsAll(dispatcher: ToolDispatcher, config: Configuration, items: seq<BatchItem>,
                         delivered: seq<Decision>, deliveredAfter: seq<Decision>,
                         invoked: seq<Invocation>, invokedAfter: seq<Invocation>,
                         r: Result<seq<ExecutionResult>, DispatchError>, i: nat, decision: Decision)
    requires dispatcher.Executed(config, items, delivered, deliveredAfter, invoked, invokedAfter, r)
    requires AllPrepared(items) && i < |items|
    requires Evaluation(config.policy, config.contract, items[i].call.context) == Ok(decision) && !decision.outcome.OutcomeAllow?
    ensures invokedAfter == invoked && r.Err?
  {
    assert Contexts(items)[i] == items[i].call.context;
    if invokedAfter != invoked {
      AllOrNothing(dispatcher, config, items, delivered, deliveredAfter, invoked, invokedAfter, r);
    }
  }
}
