/** What an active generation is worth, when an activation succeeds, and what a caller can rely on meanwhile. */
module RuntimeLaws {
  import opened Wrappers
  import opened JsonValues
  import opened Models
  import opened Contracts
  import opened Engine
  import opened EngineLaws
  import opened TypeSoundness
  import opened ContractExactness
  import opened Runtime

  // ----- What an active generation is

  /** The policy makes sense under the contract, and a lock names exactly both. */
  ghost predicate Trusted(c: Configuration)
  {
    && (c.contract.Some? ==>
          && ValidContract(c.contract.value)
          && forall r, k | r in c.policy.rules && k in r.conditions :: MakesSense(k, c.contract.value))
    && (c.lock.Some? ==> c.lock.value.policy == c.policy && c.lock.value.contract == c.contract)
  }

  lemma ConstructibleMeansTrusted(c: Configuration)
    ensures Constructible(c) <==> Trusted(c)
  {
    hide MakesSense, PolicyWellTyped;
    if c.contract.Some? {
      PolicyCheckIsExact(c.policy, c.contract.value);
    }
  }

  /**
   In every run each generation that ever was active is trusted, so that its policy fails, on inputs that its
   contract accepts, only where a reference declared optional is missing.
   */
  lemma GenerationsAreTrusted(c: Configuration, actions: seq<Action>, s: System, i: nat)
    requires Reached(c, actions, s) && i < |s.history|
    ensures Trusted(s.history[i].engine)
    ensures var engine := s.history[i].engine;
            engine.contract.Some? && ValidPolicy(engine.policy) ==>
              forall context | ContextAccepted(context, engine.contract.value) ::
                Evaluation(engine.policy, engine.contract, context).Err?
                <==> exists r :: r in engine.policy.rules && ReachesMissing(context, r.conditions)
  {
    hide Evaluation, ReachesMissing;
    RunIsCoherent(c, actions);
    var engine := s.history[i].engine;
    ConstructibleMeansTrusted(engine);
    if engine.contract.Some? && ValidPolicy(engine.policy) {
      forall context | ContextAccepted(context, engine.contract.value)
        ensures Evaluation(engine.policy, engine.contract, context).Err?
                <==> exists r :: r in engine.policy.rules && ReachesMissing(context, r.conditions)
      {
        PolicyIsSound(engine.policy, engine.contract.value, context);
      }
    }
  }

  /** A status names its engine: the policy, the contract if there is one, and whether a lock was checked. */
  predicate Names(status: Status, engine: Configuration)
  {
    && status.policyId == engine.policy.id && status.policyVersion == engine.policy.version
    && (status.contractId.Some? <==> engine.contract.Some?) && (status.contractVersion.Some? <==> engine.contract.Some?)
    && (engine.contract.Some? ==>
          && status.contractId.value == engine.contract.value.id
          && status.contractVersion.value == engine.contract.value.version)
    && (status.lockVerified <==> engine.lock.Some?)
  }

  /** Every status that is shown, captured or returned names the engine of its generation. */
  lemma StatusesAreTrue(c: Configuration, actions: seq<Action>, s: System)
    requires Reached(c, actions, s)
    ensures s.history != [] && s.status.generation == |s.history| && Names(s.status, s.history[|s.history| - 1].engine)
    ensures forall id | id in s.calls && s.calls[id].phase.Captured? ::
              Names(s.calls[id].phase.status, s.calls[id].phase.engine)
    ensures forall id | id in s.calls && s.calls[id].phase.Activated? ::
              s.calls[id].request.Activation? && Names(s.calls[id].phase.status, s.calls[id].request.candidate)
  {
    hide Constructible, DecidesBatch;
    RunIsCoherent(c, actions);
    forall id | id in s.calls ensures CallOk(s, id, s.calls[id]) {}
  }

  // ----- When an activation succeeds

  /**
   What one activation answers, and what it leaves: refused for an expectation below 1, for a candidate that is not
   to be trusted, or for a generation other than the expected one, in this order; otherwise the candidate is
   the next generation, described by its own status.
   */
  lemma ActivationIsExact(live: Live, candidate: Configuration, expected: Option<int>)
    ensures var r, after := ActivationResult(live, candidate, expected), AfterActivation(live, candidate, expected);
            && (r == Err(BadExpectation) <==> expected.Some? && expected.value < 1)
            && (r == Err(InvalidCandidate) <==> r != Err(BadExpectation) && !Trusted(candidate))
            && (r.Ok? <==> && Trusted(candidate)
                           && (expected.Some? ==> expected.value >= 1 && expected.value == live.status.generation))
            && (r.Ok? ==>
                  && after.engine == candidate && after.status == r.value
                  && r.value.generation == live.status.generation + 1 && Names(r.value, candidate))
            && (r.Err? ==> after == live)
  {
    ConstructibleMeansTrusted(candidate);
  }

  /** A call is refused for a conflict only if another generation than the expected one was active while it ran. */
  lemma RefusedForCause(c: Configuration, actions: seq<Action>, s: System, id: nat)
    requires Reached(c, actions, s) && id in s.calls && s.calls[id].phase.Refused?
    ensures s.calls[id].request.Activation?
    ensures var request, error := s.calls[id].request, s.calls[id].phase.error;
            && (error.BadExpectation? <==> request.expected.Some? && request.expected.value < 1)
            && (error.InvalidCandidate? ==> !Trusted(request.candidate))
            && (error.Conflict? ==>
                  && request.expected.Some? && Trusted(request.candidate)
                  && !(s.calls[id].startedAt == request.expected.value == |s.history|))
  {
    RunIsCoherent(c, actions);
    var call := s.calls[id];
    assert CallOk(s, id, call);
    ConstructibleMeansTrusted(call.request.candidate);
  }

  /** Some steps of one call, and nothing else. */
  function Steps(id: nat, count: nat): (actions: seq<Action>)
    ensures |actions| == count
  {
    seq(count, _ => Advance(id))
  }

  lemma OneMoreStep(s: System, id: nat, count: nat)
    ensures Run(s, Steps(id, count + 1)) == Step(Run(s, Steps(id, count)), Advance(id))
    ensures Run(s, Steps(id, 0)) == s
  {
    assert Steps(id, count + 1)[..count] == Steps(id, count);
  }

  /** The lock is free and the call has not begun its work. */
  predicate Ready(s: System, id: nat)
  {
    s.holder.None? && id in s.calls && s.calls[id].phase.Waiting?
  }

  /** The candidate can be activated as things are. */
  predicate MayActivate(s: System, id: nat)
  {
    && Ready(s, id) && s.calls[id].request.Activation? && s.status.generation >= 1
    && Constructible(s.calls[id].request.candidate)
    && (s.calls[id].request.expected.Some? ==> s.calls[id].request.expected.value == s.status.generation)
  }

  lemma FirstSteps(s: System, id: nat)
    requires MayActivate(s, id)
    ensures var checks := With(s, id, Checks).(holder := Some(id));
            && Next(s, id) == With(s, id, Built) && id in Next(s, id).calls
            && Next(Next(s, id), id) == checks && id in checks.calls
            && Next(checks, id)
               == With(s, id, Writes(StatusFor(s.calls[id].request.candidate, s.status.generation + 1))).(holder := Some(id))
  {
    hide Constructible, StatusFor;
  }

  /** The steps up to the first write. */
  lemma ReachesWrites(s: System, id: nat)
    requires MayActivate(s, id)
    ensures var next := StatusFor(s.calls[id].request.candidate, s.status.generation + 1);
            Run(s, Steps(id, 3)) == With(s, id, Writes(next)).(holder := Some(id))
  {
    FirstSteps(s, id);
    hide Run, Next, StatusFor, MayActivate;
    OneMoreStep(s, id, 0);
    OneMoreStep(s, id, 1);
    OneMoreStep(s, id, 2);
  }

  /** An activation that is left alone, of a trusted candidate that expects the active generation or none, succeeds. */
  lemma UndisturbedActivation(c: Configuration, actions: seq<Action>, s: System, id: nat)
    requires Reached(c, actions, s) && Ready(s, id) && s.calls[id].request.Activation?
    requires var request := s.calls[id].request;
             Trusted(request.candidate) && (request.expected.Some? ==> request.expected.value == s.status.generation)
    ensures var t, request := Run(s, Steps(id, 5)), s.calls[id].request;
            && id in t.calls && t.calls[id].phase.Activated? && t.holder.None?
            && t.calls[id].phase.status == t.status && t.engine == request.candidate
            && t.status.generation == s.status.generation + 1 && Names(t.status, request.candidate)
  {
    hide Constructible, DecidesBatch, Run, CallOk, HistoryOk;
    RunIsCoherent(c, actions);
    ConstructibleMeansTrusted(s.calls[id].request.candidate);
    ReachesWrites(s, id);
    var next := StatusFor(s.calls[id].request.candidate, s.status.generation + 1);
    LastSteps(s, With(s, id, Writes(next)).(holder := Some(id)), id, next);
    OneMoreStep(s, id, 3);
    OneMoreStep(s, id, 4);
  }

  /** The two writes. */
  lemma LastSteps(s: System, writes: System, id: nat, next: Status)
    requires id in s.calls && s.calls[id].request.Activation? && writes == With(s, id, Writes(next)).(holder := Some(id))
    ensures id in Next(writes, id).calls
    ensures var t := Next(Next(writes, id), id);
            && id in t.calls && t.calls[id].phase == Activated(next) && t.holder.None?
            && t.status == next && t.engine == s.calls[id].request.candidate
  {
  }

  /** A batch that is left alone is decided by the active generation. */
  lemma UndisturbedBatch(c: Configuration, actions: seq<Action>, s: System, id: nat, r: Result<seq<Decision>, BatchFailure>)
    requires Reached(c, actions, s) && Ready(s, id) && s.calls[id].request.Batch?
    requires DecidesBatch(s.engine.policy, s.engine.contract, s.calls[id].request.contexts, r)
    ensures var t := Run(s, Steps(id, 3) + [Answer(id, r)]);
            && id in t.calls && t.calls[id].phase.Decided? && t.calls[id].phase.answer == r && t.holder.None?
            && t.calls[id].phase.engine == s.engine && t.calls[id].phase.status == s.status
  {
    hide DecidesBatch, Constructible;
    RunIsCoherent(c, actions);
    OneMoreStep(s, id, 0);
    OneMoreStep(s, id, 1);
    OneMoreStep(s, id, 2);
    assert (Steps(id, 3) + [Answer(id, r)])[..3] == Steps(id, 3);
    assert Run(s, Steps(id, 3) + [Answer(id, r)]) == Step(Run(s, Steps(id, 3)), Answer(id, r));
    hide Run;
  }
}
