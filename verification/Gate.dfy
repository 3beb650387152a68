/** Batch enforcement: prepared calls, one captured policy generation, ordered audit delivery. */
module Gate {
  import opened Wrappers
  import opened JsonValues
  import opened Models
  import opened Engine
  import opened Runtime

  const MAX_TOOL_BATCH_ITEMS := MAX_BATCH_ITEMS

  /** An audit sink refuses or takes a record depending on what it took before. */
  class AuditSink {
    const accepts: (seq<Decision>, Decision) -> bool
    var delivered: seq<Decision>

    constructor (accepts: (seq<Decision>, Decision) -> bool)
      ensures delivered == [] && this.accepts == accepts
    {
      this.accepts := accepts;
      delivered := [];
    }

    method Deliver(decision: Decision) returns (taken: bool)
      modifies this
      ensures taken == accepts(old(delivered), decision)
      ensures delivered == old(delivered) + if taken then [decision] else []
    {
      taken := accepts(delivered, decision);
      if taken {
        delivered := delivered + [decision];
      }
    }
  }

  /** The part of a tool-call context that says what is to run. */
  predicate IsAction(j: Json)
  {
    && j.Obj?
    && "operation" in j.fields && j.fields["operation"].Str?
    && "capabilities" in j.fields && j.fields["capabilities"].Arr?
    && (forall i | 0 <= i < |j.fields["capabilities"].items| :: j.fields["capabilities"].items[i].Str?)
    && "arguments" in j.fields && j.fields["arguments"].Obj?
  }

  predicate IsApproval(j: Json)
  {
    j.Obj? && "tool_call_id" in j.fields && j.fields["tool_call_id"].Str?
  }

  /** What `build_tool_context` builds: an action, and application facts that may hold an approval. */
  predicate IsToolContext(j: Json)
  {
    && j.Obj?
    && "action" in j.fields && IsAction(j.fields["action"])
    && "context" in j.fields && j.fields["context"].Obj?
    && ("approval" in j.fields["context"].fields ==> IsApproval(j.fields["context"].fields["approval"]))
  }

  const NO_FACTS: map<string, Json> := map[]

  const SAMPLE_ACTION := Obj(map["operation" := Str("none"), "capabilities" := Arr([]), "arguments" := Obj(NO_FACTS)])

  type ToolContext = j: Json | IsToolContext(j) witness Obj(map["action" := SAMPLE_ACTION, "context" := Obj(NO_FACTS)])

  function OperationOf(context: ToolContext): string
  {
    context.fields["action"].fields["operation"].text
  }

  function CapabilitiesOf(context: ToolContext): seq<string>
  {
    var labels := context.fields["action"].fields["capabilities"].items;
    seq(|labels|, i requires 0 <= i < |labels| => labels[i].text)
  }

  function ArgumentsOf(context: ToolContext): Json
  {
    context.fields["action"].fields["arguments"]
  }

  function ApprovalCallIdOf(context: ToolContext): Option<string>
  {
    var facts := context.fields["context"].fields;
    if "approval" in facts then Some(facts["approval"].fields["tool_call_id"].text) else None
  }

  /**
   A frozen call: everything about it is read from the one context that is evaluated. Two calls are the same
   only when they are the same object.
   */
  class PreparedToolCall {
    const gate: ToolGate
    const context: ToolContext

    constructor (gate: ToolGate, context: ToolContext)
      ensures this.gate == gate && this.context == context
    {
      this.gate := gate;
      this.context := context;
    }

    function ToolName(): string
    {
      OperationOf(context)
    }

    function Capabilities(): seq<string>
    {
      CapabilitiesOf(context)
    }

    function Arguments(): Json
    {
      ArgumentsOf(context)
    }

    function ApprovalCallId(): Option<string>
    {
      ApprovalCallIdOf(context)
    }
  }

  datatype BatchItem = NotPrepared | Prepared(call: PreparedToolCall)

  datatype GateError =
    | InvalidBatch
    | EngineFailed(failure: BatchFailure)
    | AuditFailed(decisions: seq<Decision>, at: nat)
    | Blocked(decisions: seq<Decision>, index: nat, denied: bool)

  predicate AllPrepared(items: seq<BatchItem>)
  {
    forall i | 0 <= i < |items| :: items[i].Prepared?
  }

  predicate DistinctCalls(items: seq<BatchItem>)
    requires AllPrepared(items)
  {
    forall i, j | 0 <= i < j < |items| :: items[i].call != items[j].call
  }

  predicate DistinctApprovals(items: seq<BatchItem>)
    requires AllPrepared(items)
  {
    forall i, j | 0 <= i < j < |items| ::
      items[i].call.ApprovalCallId().Some? ==> items[i].call.ApprovalCallId() != items[j].call.ApprovalCallId()
  }

  function Contexts(items: seq<BatchItem>): (contexts: seq<Json>)
    requires AllPrepared(items)
    ensures |contexts| == |items|
  {
    seq(|items|, i requires 0 <= i < |items| => items[i].call.context)
  }

  predicate Allowed(decisions: seq<Decision>, count: nat)
    requires count <= |decisions|
  {
    forall i | 0 <= i < count :: decisions[i].outcome.OutcomeAllow?
  }

  predicate AllAllowed(decisions: seq<Decision>)
  {
    Allowed(decisions, |decisions|)
  }

  class ToolGate {
    const runtime: PolicyRuntime
    const sink: AuditSink?

    constructor (runtime: PolicyRuntime, sink: AuditSink?)
      ensures this.runtime == runtime && this.sink == sink
    {
      this.runtime := runtime;
      this.sink := sink;
    }

    ghost function SinkObjects(): set<object>
    {
      if sink == null then {} else {sink}
    }

    /** Everything delivered so far; nothing without a sink. */
    ghost function Delivered(): seq<Decision>
      reads SinkObjects()
    {
      if sink == null then [] else sink.delivered
    }

    /** At most the limit, all prepared here, no object and no approval twice. */
    predicate ValidBatch(items: seq<BatchItem>)
    {
      && |items| <= MAX_TOOL_BATCH_ITEMS
      && AllPrepared(items)
      && (forall i | 0 <= i < |items| :: items[i].call.gate == this)
      && DistinctCalls(items) && DistinctApprovals(items)
    }

    /** The first loop of `evaluate_many`, with the sets of calls and approvals already seen. */
    method CheckBatch(items: seq<BatchItem>) returns (accepted: bool)
      ensures accepted <==> ValidBatch(items)
    {
      hide ApprovalCallIdOf, IsToolContext;
      var seenCalls: set<PreparedToolCall> := {};
      var seenApprovals: set<string> := {};
      for index := 0 to |items|
        invariant ValidBatch(items[..index])
        invariant forall call :: call in seenCalls <==> exists i :: 0 <= i < index && items[i] == Prepared(call)
        invariant forall id :: id in seenApprovals <==>
                    exists i :: 0 <= i < index && items[i].Prepared? && items[i].call.ApprovalCallId() == Some(id)
      {
        if index >= MAX_TOOL_BATCH_ITEMS {
          return false;
        }
        if items[index].NotPrepared? || items[index].call.gate != this {
          return false;
        }
        var call := items[index].call;
        if call in seenCalls {
          return false;
        }
        seenCalls := seenCalls + {call};
        if call.ApprovalCallId().Some? {
          if call.ApprovalCallId().value in seenApprovals {
            return false;
          }
          seenApprovals := seenApprovals + {call.ApprovalCallId().value};
        }
      }
      assert items[..|items|] == items;
      return true;
    }

    /** Records go out in order; the first one refused ends the delivery. */
    method DeliverAll(decisions: seq<Decision>) returns (count: nat)
      modifies SinkObjects()
      ensures count <= |decisions|
      ensures sink != null ==> sink.delivered == old(sink.delivered) + decisions[..count]
      ensures count < |decisions| ==> sink != null && !sink.accepts(old(sink.delivered) + decisions[..count], decisions[count])
      ensures sink != null ==>
                forall i | 0 <= i < count :: sink.accepts(old(sink.delivered) + decisions[..i], decisions[i])
    {
      if sink == null {
        return |decisions|;
      }
      ghost var before := sink.delivered;
      for index := 0 to |decisions|
        invariant sink.delivered == before + decisions[..index]
        invariant forall i | 0 <= i < index :: sink.accepts(before + decisions[..i], decisions[i])
      {
        var taken := sink.Deliver(decisions[index]);
        assert before + decisions[..index] + [decisions[index]] == before + decisions[..index + 1];
        if !taken {
          return index;
        }
      }
      return |decisions|;
    }

    /** The sink takes every one of the first `count` records in turn. */
    predicate Takes(before: seq<Decision>, decisions: seq<Decision>, count: nat)
      requires count <= |decisions|
    {
      sink != null ==> forall i | 0 <= i < count :: sink.accepts(before + decisions[..i], decisions[i])
    }

    function After(before: seq<Decision>, decisions: seq<Decision>): seq<Decision>
    {
      if sink == null then before else before + decisions
    }

    /**
     What `evaluate_many` may answer when the engine holds `config` and the sink has taken `before`,
     and what the sink has taken afterwards.
     */
    predicate Evaluated(config: Configuration, items: seq<BatchItem>, before: seq<Decision>, after: seq<Decision>,
                        r: Result<seq<Decision>, GateError>)
    {
      match r
      case Ok(decisions) =>
        && ValidBatch(items) && DecidesBatch(config.policy, config.contract, Contexts(items), Ok(decisions))
        && Takes(before, decisions, |decisions|) && after == After(before, decisions)
      case Err(InvalidBatch) => !ValidBatch(items) && after == before
      case Err(EngineFailed(failure)) =>
        && ValidBatch(items) && DecidesBatch(config.policy, config.contract, Contexts(items), Err(failure))
        && after == before
      case Err(AuditFailed(decisions, at)) =>
        && ValidBatch(items) && DecidesBatch(config.policy, config.contract, Contexts(items), Ok(decisions))
        && at < |decisions| && Takes(before, decisions, at)
        && sink != null && !sink.accepts(before + decisions[..at], decisions[at])
        && after == before + decisions[..at]
      case Err(Blocked(_, _, _)) => false
    }

    method EvaluateMany(items: seq<BatchItem>) returns (r: Result<seq<Decision>, GateError>)
      requires runtime.Valid()
      modifies SinkObjects()
      ensures runtime.Valid()
      ensures Evaluated(runtime.engine, items, old(Delivered()), Delivered(), r)
    {
      var accepted := CheckBatch(items);
      if !accepted {
        return Err(InvalidBatch);
      }
      var answer := runtime.EvaluateBatch(Contexts(items));
      if answer.Err? {
        return Err(EngineFailed(answer.error));
      }
      var count := DeliverAll(answer.value);
      assert answer.value[..|answer.value|] == answer.value;
      if count < |answer.value| {
        return Err(AuditFailed(answer.value, count));
      }
      return Ok(answer.value);
    }

    /** What `enforce_many` may answer: all decisions when all allow, or all decisions and the first that does not. */
    predicate Enforced(config: Configuration, items: seq<BatchItem>, before: seq<Decision>, after: seq<Decision>,
                       r: Result<seq<Decision>, GateError>)
    {
      match r
      case Ok(decisions) => Evaluated(config, items, before, after, r) && AllAllowed(decisions)
      case Err(Blocked(decisions, index, denied)) =>
        && Evaluated(config, items, before, after, Ok(decisions))
        && BlocksFirst(decisions, index, denied)
      case Err(_) => Evaluated(config, items, before, after, r)
    }

    method EnforceMany(items: seq<BatchItem>) returns (r: Result<seq<Decision>, GateError>)
      requires runtime.Valid()
      modifies SinkObjects()
      ensures runtime.Valid()
      ensures Enforced(runtime.engine, items, old(Delivered()), Delivered(), r)
    {
      r := EvaluateMany(items);
      if r.Ok? {
        var block := FirstBlock(r.value);
        if block.Some? {
          r := Err(Blocked(r.value, block.value.0, block.value.1));
        }
      }
    }
  }

  /** The decision at `index` blocks, and none before it does. */
  predicate BlocksFirst(decisions: seq<Decision>, index: nat, denied: bool)
  {
    && index < |decisions| && Allowed(decisions, index)
    && if denied then decisions[index].outcome.OutcomeDeny? else decisions[index].outcome.OutcomeReview?
  }

  /** `_require_allow` over a batch: the least index that does not allow, and whether it denies. */
  method FirstBlock(decisions: seq<Decision>) returns (r: Option<(nat, bool)>)
    ensures r.None? <==> AllAllowed(decisions)
    ensures r.Some? ==> BlocksFirst(decisions, r.value.0, r.value.1)
  {
    for index := 0 to |decisions|
      invariant Allowed(decisions, index)
    {
      if decisions[index].outcome.OutcomeDeny? {
        return Some((index, true));
      }
      if decisions[index].outcome.OutcomeReview? {
        return Some((index, false));
      }
    }
    return None;
  }

  lemma FirstBlockIsUnique(decisions: seq<Decision>, i: nat, iDenied: bool, j: nat, jDenied: bool)
    requires BlocksFirst(decisions, i, iDenied) && BlocksFirst(decisions, j, jDenied)
    ensures i == j && iDenied == jDenied
    ensures !AllAllowed(decisions)
  {
  }

  lemma BatchFailureIsUnique(config: Configuration, contexts: seq<Json>, a: BatchFailure, b: BatchFailure)
    requires DecidesBatch(config.policy, config.contract, contexts, Err(a))
    requires DecidesBatch(config.policy, config.contract, contexts, Err(b))
    ensures a == b
  {
    if a.ItemFailed? && b.ItemFailed? {
      assert a.index == b.index;
    }
  }

  lemma NotBoth(config: Configuration, contexts: seq<Json>, decisions: seq<Decision>, failure: BatchFailure)
    requires DecidesBatch(config.policy, config.contract, contexts, Ok(decisions))
    ensures !DecidesBatch(config.policy, config.contract, contexts, Err(failure))
  {
    if failure.ItemFailed? && failure.index < |contexts| {
      assert Evaluation(config.policy, config.contract, contexts[failure.index]).Ok?;
    }
  }

  /** A batch has one answer. */
  lemma BatchAnswerIsUnique(config: Configuration, contexts: seq<Json>,
                            a: Result<seq<Decision>, BatchFailure>, b: Result<seq<Decision>, BatchFailure>)
    requires DecidesBatch(config.policy, config.contract, contexts, a)
    requires DecidesBatch(config.policy, config.contract, contexts, b)
    ensures a == b
  {
    if a.Ok? && b.Ok? {
      forall i | 0 <= i < |contexts| ensures a.value[i] == b.value[i] {
        assert Evaluation(config.policy, config.contract, contexts[i]) == Ok(a.value[i]);
      }
      assert a.value == b.value;
    } else if a.Err? && b.Err? {
      BatchFailureIsUnique(config, contexts, a.error, b.error);
    } else if a.Ok? {
      NotBoth(config, contexts, a.value, b.error);
    } else {
      NotBoth(config, contexts, b.value, a.error);
    }
  }

  /** The engine's answer behind a gate's answer. */
  function AnswerOf(r: Result<seq<Decision>, GateError>): Result<seq<Decision>, BatchFailure>
  {
    match r
    case Ok(decisions) => Ok(decisions)
    case Err(EngineFailed(failure)) => Err(failure)
    case Err(AuditFailed(decisions, _)) => Ok(decisions)
    case Err(Blocked(decisions, _, _)) => Ok(decisions)
    case Err(InvalidBatch) => Err(TooManyItems)
  }

  lemma EvaluationIsDetermined(gate: ToolGate, config: Configuration, items: seq<BatchItem>, before: seq<Decision>,
                               after1: seq<Decision>, r1: Result<seq<Decision>, GateError>,
                               after2: seq<Decision>, r2: Result<seq<Decision>, GateError>)
    requires gate.Evaluated(config, items, before, after1, r1) && gate.Evaluated(config, items, before, after2, r2)
    ensures r1 == r2 && after1 == after2
  {
    if gate.ValidBatch(items) {
      BatchAnswerIsUnique(config, Contexts(items), AnswerOf(r1), AnswerOf(r2));
    }
  }

  /** Enforcement is determined by the configuration, the batch and the sink: same answer, same deliveries. */
  lemma EnforcementIsDetermined(gate: ToolGate, config: Configuration, items: seq<BatchItem>, before: seq<Decision>,
                                after1: seq<Decision>, r1: Result<seq<Decision>, GateError>,
                                after2: seq<Decision>, r2: Result<seq<Decision>, GateError>)
    requires gate.Enforced(config, items, before, after1, r1) && gate.Enforced(config, items, before, after2, r2)
    ensures r1 == r2 && after1 == after2
  {
    EvaluationIsDetermined(gate, config, items, before, after1, Unblocked(r1), after2, Unblocked(r2));
    if r1.Err? && r1.error.Blocked? {
      FirstBlockIsUnique(r1.error.decisions, r1.error.index, r1.error.denied, r1.error.index, r1.error.denied);
    }
    if r2.Err? && r2.error.Blocked? {
      FirstBlockIsUnique(r2.error.decisions, r2.error.index, r2.error.denied, r2.error.index, r2.error.denied);
      if r1.Err? && r1.error.Blocked? {
        FirstBlockIsUnique(r1.error.decisions, r1.error.index, r1.error.denied, r2.error.index, r2.error.denied);
      }
    }
  }

  /** The answer of `evaluate_many` behind an answer of `enforce_many`. */
  function Unblocked(r: Result<seq<Decision>, GateError>): Result<seq<Decision>, GateError>
  {
    if r.Err? && r.error.Blocked? then Ok(r.error.decisions) else r
  }

  /** Decisions reach the caller only after every one of them was delivered, in order and once. */
  lemma NothingIsDecidedUnrecorded(gate: ToolGate, config: Configuration, items: seq<BatchItem>, before: seq<Decision>,
                                   after: seq<Decision>, r: Result<seq<Decision>, GateError>)
    requires gate.Enforced(config, items, before, after, r) && gate.sink != null
    ensures r.Ok? ==> after == before + r.value && |r.value| == |items|
    ensures before <= after && |after| <= |before| + |items|
  {
  }
}
