/** Activation of policy generations by compare-and-swap, and the calls that are served meanwhile. */
module Runtime {
  import opened Wrappers
  import opened JsonValues
  import opened Models
  import opened Contracts
  import opened Engine

  /** A lock names one exact policy and contract; fingerprints are taken to identify content. */
  datatype DeploymentLock = DeploymentLock(policy: Policy, contract: Option<Contract>)

  datatype Configuration = Configuration(policy: Policy, contract: Option<Contract>, lock: Option<DeploymentLock>)

  /** When `PolicyEngine` can be constructed: the policy fits the contract, and the lock names exactly both. */
  predicate Constructible(c: Configuration)
  {
    && (c.contract.Some? ==> ValidContract(c.contract.value) && PolicyWellTyped(c.policy, c.contract.value))
    && (c.lock.Some? ==> c.lock.value == DeploymentLock(c.policy, c.contract))
  }

  datatype Status = Status(
    generation: nat, policyId: string, policyVersion: string, contractId: Option<string>,
    contractVersion: Option<string>, lockVerified: bool)

  /** `_status`. */
  function StatusFor(c: Configuration, generation: nat): Status
  {
    Status(generation, c.policy.id, c.policy.version,
           if c.contract.None? then None else Some(c.contract.value.id),
           if c.contract.None? then None else Some(c.contract.value.version),
           c.lock.Some?)
  }

  /** The two fields behind the lock. */
  datatype Live = Live(engine: Configuration, status: Status)

  datatype ActivationError = BadExpectation | InvalidCandidate | Conflict

  /** What `activate` answers when it finds the given live state under the lock. */
  function ActivationResult(live: Live, candidate: Configuration,
                            expected: Option<int>): Result<Status, ActivationError>
  {
    if expected.Some? && expected.value < 1 then Err(BadExpectation)
    else if !Constructible(candidate) then Err(InvalidCandidate)
    else if expected.Some? && expected.value != live.status.generation then Err(Conflict)
    else Ok(StatusFor(candidate, live.status.generation + 1))
  }

  /** The live state afterwards: replaced as a whole, or untouched. */
  function AfterActivation(live: Live, candidate: Configuration, expected: Option<int>): Live
  {
    match ActivationResult(live, candidate, expected)
    case Ok(status) => Live(candidate, status)
    case Err(_) => live
  }

  /** One caller at a time: the fields of the source's class, whose lock makes each method atomic. */
  class PolicyRuntime {
    var engine: Configuration
    var status: Status

    ghost predicate Valid()
      reads this
    {
      Constructible(engine) && status.generation >= 1 && status == StatusFor(engine, status.generation)
    }

    ghost function State(): Live
      reads this
    {
      Live(engine, status)
    }

    constructor (initial: Configuration)
      requires Constructible(initial)
      ensures Valid() && State() == Live(initial, StatusFor(initial, 1))
    {
      engine := initial;
      status := StatusFor(initial, 1);
    }

    method Capture() returns (captured: Configuration, described: Status)
      requires Valid()
      ensures Live(captured, described) == State()
    {
      return engine, status;
    }

    method EvaluateOne(context: Json) returns (r: Result<Decision, Failure>)
      requires Valid()
      ensures r == Evaluation(engine.policy, engine.contract, context)
    {
      var captured, _ := Capture();
      r := Evaluate(captured.policy, captured.contract, context);
    }

    method EvaluateBatch(contexts: seq<Json>) returns (r: Result<seq<Decision>, BatchFailure>)
      requires Valid()
      ensures DecidesBatch(engine.policy, engine.contract, contexts, r)
    {
      var captured, _ := Capture();
      r := EvaluateMany(captured.policy, captured.contract, contexts);
    }

    method Activate(candidate: Configuration, expected: Option<int>) returns (r: Result<Status, ActivationError>)
      requires Valid()
      modifies this
      ensures Valid()
      ensures r == ActivationResult(old(State()), candidate, expected)
      ensures State() == AfterActivation(old(State()), candidate, expected)
    {
      if expected.Some? && expected.value < 1 {
        return Err(BadExpectation);
      }
      if !Constructible(candidate) {
        return Err(InvalidCandidate);
      }
      var currentGeneration := status.generation;
      if expected.Some? && expected.value != currentGeneration {
        return Err(Conflict);
      }
      var nextStatus := StatusFor(candidate, currentGeneration + 1);
      engine := candidate;
      status := nextStatus;
      return Ok(nextStatus);
    }
  }

  // ----- Any number of callers, one field access at a time

  datatype Request =
    | Batch(contexts: seq<Json>)
    | Activation(candidate: Configuration, expected: Option<int>)

  /** How far a call has come. From ReadsEngine to ReadsStatus and from Checks to Wrote it holds the lock. */
  datatype Phase =
    | Waiting
    | ReadsEngine
    | ReadsStatus(engine: Configuration)
    | Captured(engine: Configuration, status: Status)
    | Decided(engine: Configuration, status: Status, answer: Result<seq<Decision>, BatchFailure>, endedAt: nat)
    | Built
    | Checks
    | Writes(next: Status)
    | Wrote(next: Status)
    | Activated(status: Status)
    | Refused(error: ActivationError)

  /** `startedAt` and `endedAt` record the generation that was active when the call began and ended. */
  datatype Call = Call(request: Request, startedAt: nat, phase: Phase)

  /** The history that the proofs keep: which configuration became each generation, and by which call. */
  datatype Generation = Generation(engine: Configuration, owner: Option<nat>)

  datatype System = System(
    engine: Configuration, status: Status, holder: Option<nat>, calls: map<nat, Call>, history: seq<Generation>)

  datatype Action = Begin(id: nat, request: Request) | Advance(id: nat) | Answer(id: nat, r: Result<seq<Decision>, BatchFailure>)

  function Initial(c: Configuration): System
  {
    System(c, StatusFor(c, 1), None, map[], [Generation(c, None)])
  }

  function With(s: System, id: nat, phase: Phase): System
    requires id in s.calls
  {
    s.(calls := s.calls[id := s.calls[id].(phase := phase)])
  }

  predicate Holding(phase: Phase)
  {
    phase.ReadsEngine? || phase.ReadsStatus? || phase.Checks? || phase.Writes? || phase.Wrote?
  }

  /** The next atomic step of a call; a call that waits for the lock stays where it is while another holds it. */
  function Next(s: System, id: nat): System
    requires id in s.calls
  {
    var call := s.calls[id];
    match call.phase
    case Waiting =>
      if call.request.Batch? then
        if s.holder.Some? then s else With(s, id, ReadsEngine).(holder := Some(id))
      else if call.request.expected.Some? && call.request.expected.value < 1 then With(s, id, Refused(BadExpectation))
      else if !Constructible(call.request.candidate) then With(s, id, Refused(InvalidCandidate))
      else With(s, id, Built)
    case ReadsEngine => With(s, id, ReadsStatus(s.engine))
    case ReadsStatus(engine) => With(s, id, Captured(engine, s.status)).(holder := None)
    case Built => if s.holder.Some? then s else With(s, id, Checks).(holder := Some(id))
    case Checks =>
      if call.request.Batch? then s
      else if call.request.expected.Some? && call.request.expected.value != s.status.generation then
        With(s, id, Refused(Conflict)).(holder := None)
      else With(s, id, Writes(StatusFor(call.request.candidate, s.status.generation + 1)))
    case Writes(next) => if call.request.Batch? then s else With(s, id, Wrote(next)).(engine := call.request.candidate)
    case Wrote(next) =>
      if call.request.Batch? then s
      else
        With(s, id, Activated(next)).(
          status := next, holder := None, history := s.history + [Generation(call.request.candidate, Some(id))])
    case _ => s
  }

  function Step(s: System, action: Action): System
  {
    match action
    case Begin(id, request) =>
      if id in s.calls then s else s.(calls := s.calls[id := Call(request, s.status.generation, Waiting)])
    case Advance(id) => if id in s.calls then Next(s, id) else s
    case Answer(id, r) =>
      if id !in s.calls || !s.calls[id].phase.Captured? || !s.calls[id].request.Batch? then s
      else
        var engine := s.calls[id].phase.engine;
        if !DecidesBatch(engine.policy, engine.contract, s.calls[id].request.contexts, r) then s
        else With(s, id, Decided(engine, s.calls[id].phase.status, r, s.status.generation))
  }

  function Run(s: System, actions: seq<Action>): System
  {
    if actions == [] then s else Step(Run(s, actions[..|actions| - 1]), actions[|actions| - 1])
  }

  // ----- The invariant

  function Newest(s: System): Configuration
    requires s.history != []
  {
    s.history[|s.history| - 1].engine
  }

  /** What a reader of both fields saw: one generation, not older than the call. */
  predicate SawOneGeneration(s: System, startedAt: nat, engine: Configuration, status: Status)
  {
    && 1 <= startedAt <= status.generation <= |s.history|
    && engine == s.history[status.generation - 1].engine
    && status == StatusFor(engine, status.generation)
  }

  predicate BatchOk(s: System, call: Call)
    requires s.history != [] && call.request.Batch?
  {
    match call.phase
    case Waiting => true
    case ReadsEngine => true
    case ReadsStatus(engine) => engine == Newest(s)
    case Captured(engine, status) => SawOneGeneration(s, call.startedAt, engine, status)
    case Decided(engine, status, answer, endedAt) =>
      && SawOneGeneration(s, call.startedAt, engine, status)
      && status.generation <= endedAt <= |s.history|
      && DecidesBatch(engine.policy, engine.contract, call.request.contexts, answer)
    case _ => false
  }

  predicate Acceptable(request: Request)
    requires request.Activation?
  {
    Constructible(request.candidate) && (request.expected.Some? ==> request.expected.value >= 1)
  }

  /** The error names its cause; a conflict means that some other generation than the expected one was active during the call. */
  predicate RefusedFor(s: System, call: Call, error: ActivationError)
    requires call.request.Activation?
  {
    var expected := call.request.expected;
    match error
    case BadExpectation => expected.Some? && expected.value < 1
    case InvalidCandidate => (expected.Some? ==> expected.value >= 1) && !Constructible(call.request.candidate)
    case Conflict =>
      && Acceptable(call.request) && expected.Some?
      && (call.startedAt != expected.value || |s.history| != expected.value)
  }

  predicate ActivationOk(s: System, id: nat, call: Call)
    requires s.history != [] && call.request.Activation?
  {
    match call.phase
    case Waiting => true
    case Built => Acceptable(call.request)
    case Checks => Acceptable(call.request)
    case Writes(next) => Acceptable(call.request) && Replaces(s, call.request, next, |s.history| + 1)
    case Wrote(next) => Acceptable(call.request) && Replaces(s, call.request, next, |s.history| + 1)
    case Activated(status) =>
      && Acceptable(call.request) && call.startedAt < status.generation <= |s.history|
      && Replaces(s, call.request, status, status.generation)
      && s.history[status.generation - 1] == Generation(call.request.candidate, Some(id))
    case Refused(error) => RefusedFor(s, call, error)
    case _ => false
  }

  predicate Replaces(s: System, request: Request, status: Status, generation: nat)
    requires request.Activation?
  {
    && status == StatusFor(request.candidate, generation)
    && (request.expected.Some? ==> request.expected.value == generation - 1)
  }

  predicate CallOk(s: System, id: nat, call: Call)
    requires s.history != []
  {
    && 1 <= call.startedAt <= |s.history|
    && (Holding(call.phase) <==> s.holder == Some(id))
    && if call.request.Batch? then BatchOk(s, call) else ActivationOk(s, id, call)
  }

  predicate WritingEngine(s: System)
  {
    s.holder.Some? && s.holder.value in s.calls
    && s.calls[s.holder.value].phase.Wrote? && s.calls[s.holder.value].request.Activation?
  }

  /** The two fields name the newest generation, but for the moment between the two writes of a swap. */
  predicate FieldsOk(s: System)
    requires s.history != []
  {
    && s.status == StatusFor(Newest(s), |s.history|)
    && s.engine == (if WritingEngine(s) then s.calls[s.holder.value].request.candidate else Newest(s))
  }

  predicate HistoryOk(s: System)
  {
    && (forall i | 0 <= i < |s.history| :: Constructible(s.history[i].engine))
    && forall i | 1 <= i < |s.history| :: CreatedBy(s, i)
  }

  /** Generation `i + 1` was created by a call that reported exactly this. */
  predicate CreatedBy(s: System, i: nat)
    requires i < |s.history|
  {
    && s.history[i].owner.Some? && s.history[i].owner.value in s.calls
    && s.calls[s.history[i].owner.value].phase == Activated(StatusFor(s.history[i].engine, i + 1))
  }

  function Successes(s: System): set<nat>
  {
    set id | id in s.calls && s.calls[id].phase.Activated?
  }

  predicate Coherent(s: System)
  {
    && s.history != []
    && FieldsOk(s)
    && HistoryOk(s)
    && (s.holder.Some? ==> s.holder.value in s.calls)
    && (forall id | id in s.calls :: CallOk(s, id, s.calls[id]))
    && |s.history| == 1 + |Successes(s)|
  }

  // ----- Every step keeps it

  /** A record about the history stays true when the history grows. */
  lemma SawStays(s: System, t: System, startedAt: nat, engine: Configuration, status: Status)
    requires SawOneGeneration(s, startedAt, engine, status) && s.history <= t.history
    ensures SawOneGeneration(t, startedAt, engine, status)
  {
  }

  /** What a call that does not move relies on, when another call moves. */
  predicate Undisturbed(s: System, t: System, call: Call)
  {
    && s.history <= t.history
    && (Holding(call.phase) ==> t.history == s.history)
  }

  lemma OtherCallStaysOk(s: System, t: System, id: nat, call: Call)
    requires s.history != [] && CallOk(s, id, call) && Undisturbed(s, t, call)
    requires Holding(call.phase) <==> t.holder == Some(id)
    ensures CallOk(t, id, call)
  {
    if call.phase.Captured? {
      SawStays(s, t, call.startedAt, call.phase.engine, call.phase.status);
    }
    if call.phase.Decided? {
      SawStays(s, t, call.startedAt, call.phase.engine, call.phase.status);
    }
  }

  lemma BatchMoverStaysOk(s: System, id: nat)
    requires Coherent(s) && id in s.calls && s.calls[id].request.Batch?
    ensures id in Next(s, id).calls && CallOk(Next(s, id), id, Next(s, id).calls[id])
  {
    hide Constructible, DecidesBatch, HistoryOk;
    assert CallOk(s, id, s.calls[id]);
  }

  lemma ActivationMoverStaysOk(s: System, id: nat)
    requires Coherent(s) && id in s.calls && s.calls[id].request.Activation?
    ensures id in Next(s, id).calls && CallOk(Next(s, id), id, Next(s, id).calls[id])
  {
    hide Constructible, DecidesBatch, HistoryOk, Successes;
    assert CallOk(s, id, s.calls[id]);
  }

  lemma FieldsStayOk(s: System, id: nat)
    requires Coherent(s) && id in s.calls
    ensures FieldsOk(Next(s, id))
  {
    hide Constructible, DecidesBatch, HistoryOk, Successes, StatusFor;
    assert CallOk(s, id, s.calls[id]);
    if s.holder.Some? {
      assert CallOk(s, s.holder.value, s.calls[s.holder.value]);
    }
  }

  /** A step of one call leaves every other call as it is, and what it relies on. */
  lemma OthersAreUndisturbed(s: System, id: nat, other: nat)
    requires Coherent(s) && id in s.calls && other in s.calls && other != id
    ensures var t := Next(s, id);
      && other in t.calls && t.calls[other] == s.calls[other] && Undisturbed(s, t, s.calls[other])
      && (Holding(s.calls[other].phase) <==> t.holder == Some(other))
  {
    assert CallOk(s, id, s.calls[id]) && CallOk(s, other, s.calls[other]);
  }

  /** Only the last write of a swap adds a generation; every other step leaves history and successes alone. */
  lemma NothingElseAdds(s: System, id: nat)
    requires id in s.calls && !s.calls[id].phase.Wrote?
    ensures Next(s, id).history == s.history
    ensures Successes(Next(s, id)) == Successes(s)
  {
    hide Constructible, StatusFor;
  }

  lemma HistoryStaysOk(s: System, id: nat)
    requires Coherent(s) && id in s.calls
    ensures HistoryOk(Next(s, id))
  {
    hide Constructible, DecidesBatch, Successes, StatusFor;
    var t := Next(s, id);
    assert CallOk(s, id, s.calls[id]);
    if !s.calls[id].phase.Wrote? {
      NothingElseAdds(s, id);
    }
    forall i | 1 <= i < |t.history| ensures CreatedBy(t, i) {
      if i < |s.history| {
        assert CreatedBy(s, i);
      }
    }
  }

  lemma CountStaysOk(s: System, id: nat)
    requires Coherent(s) && id in s.calls
    ensures |Next(s, id).history| == 1 + |Successes(Next(s, id))|
  {
    if s.calls[id].phase.Wrote? {
      assert CallOk(s, id, s.calls[id]);
      assert Successes(Next(s, id)) == Successes(s) + {id} && id !in Successes(s);
    } else {
      NothingElseAdds(s, id);
    }
  }

  lemma CallsStayOk(s: System, id: nat)
    requires Coherent(s) && id in s.calls
    ensures forall other | other in Next(s, id).calls :: CallOk(Next(s, id), other, Next(s, id).calls[other])
  {
    hide Constructible, DecidesBatch, Successes, StatusFor, HistoryOk, FieldsOk, CallOk;
    var t := Next(s, id);
    if s.calls[id].request.Batch? {
      BatchMoverStaysOk(s, id);
    } else {
      ActivationMoverStaysOk(s, id);
    }
    assert t.calls.Keys == s.calls.Keys;
    forall other | other in t.calls ensures CallOk(t, other, t.calls[other]) {
      if other != id {
        OthersAreUndisturbed(s, id, other);
        OtherCallStaysOk(s, t, other, s.calls[other]);
      }
    }
  }

  lemma NextKeepsCoherent(s: System, id: nat)
    requires Coherent(s) && id in s.calls
    ensures Coherent(Next(s, id))
  {
    hide Constructible, DecidesBatch, StatusFor, Successes, CallOk, HistoryOk, FieldsOk;
    FieldsStayOk(s, id);
    HistoryStaysOk(s, id);
    CountStaysOk(s, id);
    CallsStayOk(s, id);
  }

  lemma BeginKeepsCoherent(s: System, id: nat, request: Request)
    requires Coherent(s)
    ensures Coherent(Step(s, Begin(id, request)))
  {
    hide Constructible, DecidesBatch;
    var t := Step(s, Begin(id, request));
    assert Successes(t) == Successes(s);
    forall other | other in t.calls ensures CallOk(t, other, t.calls[other]) {
      if other in s.calls {
        OtherCallStaysOk(s, t, other, s.calls[other]);
      }
    }
    forall i | 1 <= i < |t.history| ensures CreatedBy(t, i) {
      assert CreatedBy(s, i);
    }
  }

  lemma AnswerKeepsCoherent(s: System, id: nat, r: Result<seq<Decision>, BatchFailure>)
    requires Coherent(s)
    ensures Coherent(Step(s, Answer(id, r)))
  {
    hide Constructible;
    var t := Step(s, Answer(id, r));
    if t != s {
      assert CallOk(s, id, s.calls[id]);
      assert Successes(t) == Successes(s);
      forall other | other in t.calls ensures CallOk(t, other, t.calls[other]) {
        if other != id {
          OtherCallStaysOk(s, t, other, s.calls[other]);
        }
      }
      forall i | 1 <= i < |t.history| ensures CreatedBy(t, i) {
        assert CreatedBy(s, i);
      }
    }
  }

  lemma StepKeepsCoherent(s: System, action: Action)
    requires Coherent(s)
    ensures Coherent(Step(s, action))
  {
    match action
    case Begin(id, request) => BeginKeepsCoherent(s, id, request);
    case Advance(id) =>
      if id in s.calls {
        NextKeepsCoherent(s, id);
      }
    case Answer(id, r) => AnswerKeepsCoherent(s, id, r);
  }

  /** In every interleaving of captures and activations the two fields, the history and all calls agree. */
  lemma {:induction false} RunIsCoherent(c: Configuration, actions: seq<Action>)
    requires Constructible(c)
    ensures Coherent(Run(Initial(c), actions))
  {
    if actions == [] {
      assert Successes(Initial(c)) == {};
    } else {
      RunIsCoherent(c, actions[..|actions| - 1]);
      StepKeepsCoherent(Run(Initial(c), actions[..|actions| - 1]), actions[|actions| - 1]);
    }
  }

  // ----- What this means for callers

  /** `s` is a state of some run from a first generation. */
  ghost predicate Reached(c: Configuration, actions: seq<Action>, s: System)
  {
    Constructible(c) && s == Run(Initial(c), actions)
  }

  /** What an atomic step changes: the pair of fields as the methods of the class see it. */
  function Abstract(s: System): Live
    requires s.history != []
  {
    Live(Newest(s), s.status)
  }

  lemma CoherentStepIsAtomic(s: System, id: nat)
    requires Coherent(s) && id in s.calls
    ensures IsAtomic(s, id)
  {
    hide DecidesBatch, Successes, HistoryOk;
    assert CallOk(s, id, s.calls[id]);
  }

  /** The next step of the call is invisible or a whole operation, and its answer is that operation's. */
  predicate IsAtomic(s: System, id: nat)
    requires id in s.calls && s.history != []
  {
    var t := Next(s, id);
    var request, before, after := s.calls[id].request, s.calls[id].phase, t.calls[id].phase;
    && t.history != []
    && (Abstract(t) != Abstract(s) ==> request.Activation? && after.Activated? && !before.Activated?)
    && (after != before && after.Activated? ==>
          && request.Activation?
          && Abstract(t) == AfterActivation(Abstract(s), request.candidate, request.expected)
          && ActivationResult(Abstract(s), request.candidate, request.expected) == Ok(after.status))
    && (after != before && after.Refused? ==>
          && request.Activation?
          && ActivationResult(Abstract(s), request.candidate, request.expected) == Err(after.error))
    && (after != before && after.Captured? ==> Live(after.engine, after.status) == Abstract(s))
  }

  /**
   Linearizability: in every reachable state each step is either invisible or the whole of one successful
   `activate`, and every answer given is the one the atomic operation gives at that moment.
   */
  lemma StepIsAtomic(c: Configuration, actions: seq<Action>, s: System, id: nat)
    requires Reached(c, actions, s) && id in s.calls
    ensures s.history != [] && IsAtomic(s, id)
  {
    RunIsCoherent(c, actions);
    CoherentStepIsAtomic(s, id);
  }

  lemma SuccessesDiffer(s: System, a: nat, b: nat)
    requires Coherent(s) && a in s.calls && b in s.calls
    requires s.calls[a].phase.Activated? && s.calls[b].phase.Activated?
    requires s.calls[a].phase.status.generation == s.calls[b].phase.status.generation
    ensures a == b
  {
    assert CallOk(s, a, s.calls[a]) && CallOk(s, b, s.calls[b]);
  }

  predicate SucceedsExpecting(s: System, id: nat, expected: int)
  {
    && id in s.calls && s.calls[id].phase.Activated? && s.calls[id].request.Activation?
    && s.calls[id].request.expected == Some(expected)
  }

  /** At most one activation succeeds for each expected generation. */
  lemma AtMostOnePerExpectation(c: Configuration, actions: seq<Action>, s: System, expected: int, a: nat, b: nat)
    requires Reached(c, actions, s) && SucceedsExpecting(s, a, expected) && SucceedsExpecting(s, b, expected)
    ensures a == b
  {
    RunIsCoherent(c, actions);
    assert CallOk(s, a, s.calls[a]) && CallOk(s, b, s.calls[b]);
    SuccessesDiffer(s, a, b);
  }

  /** The generation is one more than the number of activations that succeeded, and each success made its own. */
  lemma GenerationCountsSuccesses(c: Configuration, actions: seq<Action>, s: System)
    requires Reached(c, actions, s)
    ensures s.status.generation == 1 + |Successes(s)|
    ensures forall a, b | a in Successes(s) && b in Successes(s) && a != b ::
              s.calls[a].phase.status.generation != s.calls[b].phase.status.generation
  {
    RunIsCoherent(c, actions);
    forall a, b | a in Successes(s) && b in Successes(s) && a != b
      ensures s.calls[a].phase.status.generation != s.calls[b].phase.status.generation
    {
      if s.calls[a].phase.status.generation == s.calls[b].phase.status.generation {
        SuccessesDiffer(s, a, b);
      }
    }
  }

  /** A refused activation is the origin of no generation. */
  lemma RefusedChangesNothing(c: Configuration, actions: seq<Action>, s: System, id: nat)
    requires Reached(c, actions, s) && id in s.calls && s.calls[id].phase.Refused?
    ensures forall i | 0 <= i < |s.history| :: s.history[i].owner != Some(id)
  {
    RunIsCoherent(c, actions);
    FirstHasNoOwner(c, actions);
    forall i | 1 <= i < |s.history| ensures s.history[i].owner != Some(id) {
      assert CreatedBy(s, i);
    }
  }

  lemma {:induction false} FirstHasNoOwner(c: Configuration, actions: seq<Action>)
    requires Constructible(c)
    ensures Run(Initial(c), actions).history != [] && Run(Initial(c), actions).history[0] == Generation(c, None)
  {
    if actions != [] {
      var before, last := Run(Initial(c), actions[..|actions| - 1]), actions[|actions| - 1];
      FirstHasNoOwner(c, actions[..|actions| - 1]);
      RunIsCoherent(c, actions[..|actions| - 1]);
      OneStepIsKept(before, last, 0);
    }
  }

  /** Captures of one generation captured one configuration, described by its own status. */
  lemma CapturesAgree(c: Configuration, actions: seq<Action>, s: System, a: nat, b: nat)
    requires Reached(c, actions, s) && a in s.calls && b in s.calls
    requires s.calls[a].phase.Captured? && s.calls[b].phase.Captured?
    requires s.calls[a].phase.status.generation == s.calls[b].phase.status.generation
    ensures s.calls[a].phase == s.calls[b].phase
    ensures s.calls[a].phase.status == StatusFor(s.calls[a].phase.engine, s.calls[a].phase.status.generation)
  {
    RunIsCoherent(c, actions);
    assert CallOk(s, a, s.calls[a]) && CallOk(s, b, s.calls[b]);
  }

  /** The batch's answer is that of one generation, active at some moment between the call's begin and end. */
  predicate DecidedByOne(s: System, call: Call)
    requires call.phase.Decided?
  {
    var generation := call.phase.status.generation;
    && call.request.Batch?
    && 1 <= call.startedAt <= generation <= call.phase.endedAt <= |s.history|
    && DecidesBatch(s.history[generation - 1].engine.policy, s.history[generation - 1].engine.contract,
                    call.request.contexts, call.phase.answer)
  }

  lemma DecidedMeans(s: System, id: nat)
    requires Coherent(s) && id in s.calls && s.calls[id].phase.Decided?
    ensures DecidedByOne(s, s.calls[id])
  {
    var call := s.calls[id];
    assert CallOk(s, id, call);
    assert SawOneGeneration(s, call.startedAt, call.phase.engine, call.phase.status);
  }

  /** A finished batch was decided, item for item, by one generation that was active during the call. */
  lemma BatchHasOneGeneration(c: Configuration, actions: seq<Action>, s: System, id: nat)
    requires Reached(c, actions, s) && id in s.calls && s.calls[id].phase.Decided?
    ensures DecidedByOne(s, s.calls[id])
  {
    RunIsCoherent(c, actions);
    DecidedMeans(s, id);
  }

  /** Generations are never forgotten or rewritten, and a call that begins later starts from them. */
  lemma {:induction false} HistoryIsKept(s: System, actions: seq<Action>, id: nat)
    requires Coherent(s)
    ensures Coherent(Run(s, actions))
    ensures s.history <= Run(s, actions).history
    ensures id in Run(s, actions).calls && id !in s.calls ==> |s.history| <= Run(s, actions).calls[id].startedAt
  {
    if actions != [] {
      var before, last := Run(s, actions[..|actions| - 1]), actions[|actions| - 1];
      HistoryIsKept(s, actions[..|actions| - 1], id);
      StepKeepsCoherent(before, last);
      OneStepIsKept(before, last, id);
    }
  }

  lemma OneStepIsKept(s: System, action: Action, id: nat)
    requires Coherent(s)
    ensures s.history <= Step(s, action).history
    ensures id in s.calls ==> id in Step(s, action).calls && Step(s, action).calls[id].startedAt == s.calls[id].startedAt
    ensures id !in s.calls && id in Step(s, action).calls ==> Step(s, action).calls[id].startedAt == |s.history|
  {
    match action
    case Begin(_, _) =>
    case Advance(mover) =>
      if mover in s.calls {
        NextIsKept(s, mover, id);
      }
    case Answer(_, _) =>
  }

  lemma NextIsKept(s: System, mover: nat, id: nat)
    requires mover in s.calls
    ensures s.history <= Next(s, mover).history
    ensures id in Next(s, mover).calls <==> id in s.calls
    ensures id in s.calls ==> Next(s, mover).calls[id].startedAt == s.calls[id].startedAt
  {
  }

  /** Decisions never go back in time: a batch that begins after another ended is decided by no older generation. */
  lemma GenerationsNeverGoBack(c: Configuration, actions: seq<Action>, s: System, more: seq<Action>, earlier: nat,
                               later: nat)
    requires Reached(c, actions, s) && earlier in s.calls && s.calls[earlier].phase.Decided?
    requires later !in s.calls && later in Run(s, more).calls && Run(s, more).calls[later].phase.Decided?
    ensures s.calls[earlier].phase.status.generation <= Run(s, more).calls[later].phase.status.generation
  {
    RunIsCoherent(c, actions);
    HistoryIsKept(s, more, later);
    DecidedMeans(s, earlier);
    DecidedMeans(Run(s, more), later);
  }
}
