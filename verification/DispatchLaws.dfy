/** Exactly when a dispatched batch runs, in terms of its calls, the catalog, the policy, the sink and the callbacks. */
module DispatchLaws {
  import opened Wrappers
  import opened JsonValues
  import opened Engine
  import opened Runtime
  import opened Gate
  import opened Dispatch

  // ----- What a context asks for

  /** The context names the operation, labels and arguments. */
  predicate Asks(context: ToolContext, name: string, labels: seq<string>, arguments: Json)
  {
    var action := context.fields["action"].fields;
    && action["operation"] == Str(name)
    && action["capabilities"] == Arr(seq(|labels|, i requires 0 <= i < |labels| => Str(labels[i])))
    && action["arguments"] == arguments
  }

  /** The context carries the approval for this call id. */
  predicate CarriesApproval(context: ToolContext, id: string)
  {
    var facts := context.fields["context"].fields;
    "approval" in facts && facts["approval"].fields["tool_call_id"] == Str(id)
  }

  /** What is read from a context is what it asks for. */
  lemma ContextIsRead(context: ToolContext)
    ensures Asks(context, OperationOf(context), CapabilitiesOf(context), ArgumentsOf(context))
    ensures forall name, labels, arguments | Asks(context, name, labels, arguments) ::
              name == OperationOf(context) && labels == CapabilitiesOf(context) && arguments == ArgumentsOf(context)
    ensures forall id :: CarriesApproval(context, id) <==> ApprovalCallIdOf(context) == Some(id)
  {
    forall name, labels, arguments | Asks(context, name, labels, arguments) ensures labels == CapabilitiesOf(context) {
      var items := context.fields["action"].fields["capabilities"].items;
      forall i | 0 <= i < |labels| ensures CapabilitiesOf(context)[i] == labels[i] {
        assert items[i] == Str(labels[i]);
      }
    }
  }

  // ----- When a batch runs

  /** The call was prepared by this dispatcher's gate, and asks for a cataloged name with the capabilities bound to it. */
  predicate IsOurs(dispatcher: ToolDispatcher, item: BatchItem)
  {
    && item.Prepared? && item.call.gate == dispatcher.gate
    && exists name | name in dispatcher.bindings ::
         Asks(item.call.context, name, dispatcher.bindings[name], item.call.context.fields["action"].fields["arguments"])
  }

  /** Two items are different calls, and no approval serves both. */
  ghost predicate Independent(a: BatchItem, b: BatchItem)
    requires a.Prepared? && b.Prepared?
  {
    a.call != b.call && !exists id :: CarriesApproval(a.call.context, id) && CarriesApproval(b.call.context, id)
  }

  lemma OursIsBound(dispatcher: ToolDispatcher, item: BatchItem)
    ensures IsOurs(dispatcher, item) <==> dispatcher.Bound(item) && item.call.gate == dispatcher.gate
  {
    if item.Prepared? {
      hide Asks, IsToolContext;
      ContextIsRead(item.call.context);
    }
  }

  lemma IndependentMeans(a: BatchItem, b: BatchItem)
    requires a.Prepared? && b.Prepared?
    ensures Independent(a, b)
            <==> a.call != b.call && (a.call.ApprovalCallId().Some? ==> a.call.ApprovalCallId() != b.call.ApprovalCallId())
  {
    ContextIsRead(a.call.context);
    ContextIsRead(b.call.context);
    hide CarriesApproval, ApprovalCallIdOf, IsToolContext;
    if a.call.ApprovalCallId().Some? && a.call.ApprovalCallId() == b.call.ApprovalCallId() {
      assert CarriesApproval(a.call.context, a.call.ApprovalCallId().value);
    }
  }

  function Verdict(config: Configuration, item: BatchItem): Decision
    requires item.Prepared? && DecidedToAllow(config, item.call.context)
  {
    Evaluation(config.policy, config.contract, item.call.context).value
  }

  /** The decision about each call. */
  function Verdicts(config: Configuration, items: seq<BatchItem>): seq<Decision>
    requires forall i | 0 <= i < |items| :: items[i].Prepared? && DecidedToAllow(config, items[i].call.context)
  {
    seq(|items|, i requires 0 <= i < |items| => Verdict(config, items[i]))
  }

  /** The whole batch is in order: its calls are ours, independent and within the limit, each is allowed, and each record is taken. */
  ghost predicate InOrder(dispatcher: ToolDispatcher, config: Configuration, items: seq<BatchItem>, delivered: seq<Decision>)
  {
    && |items| <= 1_000
    && (forall i | 0 <= i < |items| :: IsOurs(dispatcher, items[i]))
    && (forall i, j | 0 <= i < j < |items| :: Independent(items[i], items[j]))
    && (forall i | 0 <= i < |items| :: DecidedToAllow(config, items[i].call.context))
    && (dispatcher.gate.sink != null ==>
          forall i | 0 <= i < |items| ::
            dispatcher.gate.sink.accepts(delivered + Verdicts(config, items)[..i], Verdicts(config, items)[i]))
  }

  predicate PassedGate(r: Result<seq<ExecutionResult>, DispatchError>)
  {
    r.Ok? || r.error.CallbackFailed?
  }

  lemma ItemsAreOurs(dispatcher: ToolDispatcher, items: seq<BatchItem>)
    ensures dispatcher.ValidBindings(items) && dispatcher.gate.ValidBatch(items)
            <==> && |items| <= 1_000
                 && (forall i | 0 <= i < |items| :: IsOurs(dispatcher, items[i]))
                 && (forall i, j | 0 <= i < j < |items| :: Independent(items[i], items[j]))
  {
    hide IsOurs, Independent, ApprovalCallIdOf, OperationOf, CapabilitiesOf, IsToolContext;
    forall i | 0 <= i < |items| ensures IsOurs(dispatcher, items[i]) <==> dispatcher.Bound(items[i]) && items[i].call.gate == dispatcher.gate {
      OursIsBound(dispatcher, items[i]);
    }
    forall i, j | 0 <= i < j < |items| && items[i].Prepared? && items[j].Prepared?
      ensures Independent(items[i], items[j])
              <==> && items[i].call != items[j].call
                   && (items[i].call.ApprovalCallId().Some? ==> items[i].call.ApprovalCallId() != items[j].call.ApprovalCallId())
    {
      IndependentMeans(items[i], items[j]);
    }
  }

  /** A batch with an answer for every context has no failure. */
  lemma DecidedHasNoFailure(config: Configuration, contexts: seq<Json>, failure: BatchFailure)
    requires |contexts| <= MAX_BATCH_ITEMS
    requires forall i | 0 <= i < |contexts| :: Evaluation(config.policy, config.contract, contexts[i]).Ok?
    ensures !DecidesBatch(config.policy, config.contract, contexts, Err(failure))
  {
    hide Evaluation;
  }

  lemma VerdictsAreDecisions(config: Configuration, items: seq<BatchItem>, decisions: seq<Decision>)
    requires AllPrepared(items) && DecidesBatch(config.policy, config.contract, Contexts(items), Ok(decisions))
    ensures AllAllowed(decisions) <==> forall i | 0 <= i < |items| :: DecidedToAllow(config, items[i].call.context)
    ensures AllAllowed(decisions) ==> decisions == Verdicts(config, items)
  {
    hide IsToolContext, Evaluation;
    forall i | 0 <= i < |items|
      ensures Evaluation(config.policy, config.contract, items[i].call.context) == Ok(decisions[i])
    {
      assert Contexts(items)[i] == items[i].call.context;
    }
  }

  /** An authorized batch is in order. */
  lemma AuthorizedIsInOrder(dispatcher: ToolDispatcher, config: Configuration, items: seq<BatchItem>,
                            delivered: seq<Decision>, after: seq<Decision>, decisions: seq<Decision>)
    requires dispatcher.Authorized(config, items, delivered, after, decisions)
    ensures InOrder(dispatcher, config, items, delivered)
    ensures decisions == Verdicts(config, items) && after == dispatcher.gate.After(delivered, decisions)
  {
    hide IsToolContext, Evaluation, IsOurs, Independent;
    ItemsAreOurs(dispatcher, items);
    VerdictsAreDecisions(config, items, decisions);
  }

  /** A batch that the gate refuses is not in order. */
  lemma RefusedIsOutOfOrder(dispatcher: ToolDispatcher, config: Configuration, items: seq<BatchItem>,
                            delivered: seq<Decision>, after: seq<Decision>, error: GateError)
    requires dispatcher.gate.Enforced(config, items, delivered, after, Err(error))
    ensures !InOrder(dispatcher, config, items, delivered)
  {
    hide IsToolContext, Evaluation, IsOurs, Independent;
    ItemsAreOurs(dispatcher, items);
    match error
    case EngineFailed(failure) =>
      if forall i | 0 <= i < |items| :: DecidedToAllow(config, items[i].call.context) {
        forall i | 0 <= i < |items| ensures Evaluation(config.policy, config.contract, Contexts(items)[i]).Ok? {
          assert DecidedToAllow(config, items[i].call.context);
        }
        DecidedHasNoFailure(config, Contexts(items), failure);
      }
    case AuditFailed(decisions, at) => VerdictsAreDecisions(config, items, decisions);
    case Blocked(decisions, index, denied) => VerdictsAreDecisions(config, items, decisions);
    case InvalidBatch =>
  }

  /**
   Exactly when anything runs: the batch is in order. Then the callbacks run one after the other up to the first
   that raises, if one does, every record having been delivered; otherwise nothing runs.
   */
  lemma RunsExactly(dispatcher: ToolDispatcher, config: Configuration, items: seq<BatchItem>,
                    delivered: seq<Decision>, deliveredAfter: seq<Decision>,
                    invoked: seq<Invocation>, invokedAfter: seq<Invocation>, r: Result<seq<ExecutionResult>, DispatchError>)
    requires dispatcher.Executed(config, items, delivered, deliveredAfter, invoked, invokedAfter, r)
    ensures PassedGate(r) <==> InOrder(dispatcher, config, items, delivered)
    ensures invokedAfter != invoked <==> items != [] && InOrder(dispatcher, config, items, delivered)
    ensures InOrder(dispatcher, config, items, delivered) ==>
              && deliveredAfter == dispatcher.gate.After(delivered, Verdicts(config, items))
              && (r.Ok? <==> forall i | 0 <= i < |items| :: dispatcher.AnswerTo(invoked, Invocations(items), i).Some?)
              && (r.Ok? ==> DecisionsOf(r.value) == Verdicts(config, items))
    ensures r.Err? && r.error.CallbackFailed? ==>
              && AllPrepared(items) && r.error.at < |items|
              && dispatcher.AnswerTo(invoked, Invocations(items), r.error.at).None?
              && (forall i | 0 <= i < r.error.at :: dispatcher.AnswerTo(invoked, Invocations(items), i).Some?)
              && |invokedAfter| == |invoked| + r.error.at + 1
  {
    hide InOrder, Verdicts;
    match r
    case Ok(results) =>
      AuthorizedIsInOrder(dispatcher, config, items, delivered, deliveredAfter, DecisionsOf(results));
    case Err(CallbackFailed(at)) =>
      var decisions :| dispatcher.Authorized(config, items, delivered, deliveredAfter, decisions);
      AuthorizedIsInOrder(dispatcher, config, items, delivered, deliveredAfter, decisions);
    case Err(NotAuthorized(error)) =>
      RefusedIsOutOfOrder(dispatcher, config, items, delivered, deliveredAfter, error);
    case Err(InvalidBindings) => NotBoundIsOutOfOrder(dispatcher, config, items, delivered);
  }

  lemma NotBoundIsOutOfOrder(dispatcher: ToolDispatcher, config: Configuration, items: seq<BatchItem>, delivered: seq<Decision>)
    requires !dispatcher.ValidBindings(items)
    ensures !InOrder(dispatcher, config, items, delivered)
  {
    ItemsAreOurs(dispatcher, items);
  }

  /** Every callback is run with the name and arguments that its context, which was decided to allow, asks for. */
  lemma RunsWhatIsAsked(dispatcher: ToolDispatcher, config: Configuration, items: seq<BatchItem>,
                        delivered: seq<Decision>, deliveredAfter: seq<Decision>,
                        invoked: seq<Invocation>, invokedAfter: seq<Invocation>,
                        r: Result<seq<ExecutionResult>, DispatchError>, n: nat)
    requires dispatcher.Executed(config, items, delivered, deliveredAfter, invoked, invokedAfter, r)
    requires |invoked| <= n < |invokedAfter|
    ensures n - |invoked| < |items| && items[n - |invoked|].Prepared?
    ensures var context := items[n - |invoked|].call.context;
            && DecidedToAllow(config, context)
            && exists labels :: Asks(context, invokedAfter[n].toolName, labels, invokedAfter[n].arguments)
  {
    OnlyAllowedCallsRun(dispatcher, config, items, delivered, deliveredAfter, invoked, invokedAfter, r, n);
    hide *;
    var context := items[n - |invoked|].call.context;
    InvocationIsAsked(context, invokedAfter[n]);
  }

  lemma InvocationIsAsked(context: ToolContext, invocation: Invocation)
    requires invocation == InvocationIn(context)
    ensures exists labels :: Asks(context, invocation.toolName, labels, invocation.arguments)
  {
    ContextIsRead(context);
  }
}
