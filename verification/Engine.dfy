/** The evaluator: conditions, rules, precedence, and the decision a policy gives. */
module Engine {
  import opened Wrappers
  import opened Strings
  import opened JsonValues
  import opened JsonBounds
  import opened Models
  import opened Contracts

  const MAX_BATCH_ITEMS := 1_000

  datatype EvalError =
    | MissingReference(path: string)
    | NeedsArray
    | NeedsStrings
    | NoBooleans
    | NotComparable

  predicate AnyEqual(wanted: Json, items: seq<Json>)
  {
    exists i | 0 <= i < |items| :: JsonEqual(wanted, items[i])
  }

  predicate AllWithin(items: seq<Json>, allowed: seq<Json>)
  {
    forall i | 0 <= i < |items| :: AnyEqual(items[i], allowed)
  }

  /** `_resolved_expected`. */
  function ResolvedExpected(context: Json, c: Condition): Result<Json, EvalError>
  {
    if IsReference(c.value) then
      match At(context, ReferencePath(c.value))
      case None => Err(MissingReference(ReferencePath(c.value)))
      case Some(referenced) => Ok(referenced)
    else Ok(c.value)
  }

  predicate StartsWith(text: string, prefix: string)
  {
    prefix <= text
  }

  predicate EndsWith(text: string, suffix: string)
  {
    |suffix| <= |text| && text[|text| - |suffix|..] == suffix
  }

  predicate Ordered(operator: Operator, less: bool, equal: bool)
  {
    match operator
    case OpGt => !less && !equal
    case OpGte => !less
    case OpLt => less
    case _ => less || equal
  }

  function CompareOrdered(operator: Operator, actual: Json, expected: Json): Result<bool, EvalError>
  {
    if actual.Bool? || expected.Bool? then Err(NoBooleans)
    else if IsNumber(actual) && IsNumber(expected) then
      Ok(Ordered(operator, NumberOf(actual) < NumberOf(expected), NumberOf(actual) == NumberOf(expected)))
    else if actual.Str? && expected.Str? then
      Ok(Ordered(operator, Less(actual.text, expected.text), actual.text == expected.text))
    else Err(NotComparable)
  }

  /** One operator applied to a present field and a resolved operand. */
  function ApplyOperator(operator: Operator, actual: Json, expected: Json): Result<bool, EvalError>
  {
    match operator
    case OpEq => Ok(JsonEqual(actual, expected))
    case OpNeq => Ok(!JsonEqual(actual, expected))
    case OpIn => if !expected.Arr? then Err(NeedsArray) else Ok(AnyEqual(actual, expected.items))
    case OpNotIn => if !expected.Arr? then Err(NeedsArray) else Ok(!AnyEqual(actual, expected.items))
    case OpContains => if !actual.Arr? then Err(NeedsArray) else Ok(AnyEqual(expected, actual.items))
    case OpNotContains => if !actual.Arr? then Err(NeedsArray) else Ok(!AnyEqual(expected, actual.items))
    case OpSubsetOf =>
      if !actual.Arr? || !expected.Arr? then Err(NeedsArray)
      else Ok(AllWithin(actual.items, expected.items))
    case OpStartsWith =>
      if !actual.Str? || !expected.Str? then Err(NeedsStrings) else Ok(StartsWith(actual.text, expected.text))
    case OpEndsWith =>
      if !actual.Str? || !expected.Str? then Err(NeedsStrings) else Ok(EndsWith(actual.text, expected.text))
    case OpExists => Ok(true)
    case OpNotExists => Ok(false)
    case _ => CompareOrdered(operator, actual, expected)
  }

  /** `_evaluate_condition`: an absent field decides before the operand is looked up. */
  function EvaluateCondition(context: Json, c: Condition): Result<bool, EvalError>
  {
    var actual := At(context, c.field);
    if c.operator.OpExists? then Ok(actual.Some?)
    else if c.operator.OpNotExists? then Ok(actual.None?)
    else if actual.None? then Ok(false)
    else
      match ResolvedExpected(context, c)
      case Err(e) => Err(e)
      case Ok(expected) => ApplyOperator(c.operator, actual.value, expected)
  }

  /** All conditions in order, stopping at the first that is false or fails. */
  function RuleResult(context: Json, conditions: seq<Condition>): Result<bool, EvalError>
  {
    if conditions == [] then Ok(true)
    else
      match EvaluateCondition(context, conditions[0])
      case Err(e) => Err(e)
      case Ok(matched) => if matched then RuleResult(context, conditions[1..]) else Ok(false)
  }

  /** The rule applies exactly when every condition is true. */
  lemma {:induction false} RuleApplies(context: Json, conditions: seq<Condition>)
    ensures RuleResult(context, conditions) == Ok(true)
       <==> forall i | 0 <= i < |conditions| :: EvaluateCondition(context, conditions[i]) == Ok(true)
  {
    if conditions != [] {
      RuleApplies(context, conditions[1..]);
      assert forall i | 1 <= i < |conditions| :: conditions[i] == conditions[1..][i - 1];
      if EvaluateCondition(context, conditions[0]) == Ok(true)
         && forall i | 0 <= i < |conditions[1..]| :: EvaluateCondition(context, conditions[1..][i]) == Ok(true)
      {
        forall i | 0 <= i < |conditions| ensures EvaluateCondition(context, conditions[i]) == Ok(true) {
          assert i > 0 ==> conditions[i] == conditions[1..][i - 1];
        }
      }
    }
  }

  /** The first condition that is not simply true settles the rule. */
  lemma {:induction false} RuleSettled(context: Json, conditions: seq<Condition>, n: nat)
    requires n < |conditions|
    requires forall i | 0 <= i < n :: EvaluateCondition(context, conditions[i]) == Ok(true)
    requires EvaluateCondition(context, conditions[n]) != Ok(true)
    ensures RuleResult(context, conditions) == EvaluateCondition(context, conditions[n])
  {
    if n > 0 {
      assert conditions[1..][n - 1] == conditions[n];
      forall i | 0 <= i < n - 1 ensures EvaluateCondition(context, conditions[1..][i]) == Ok(true) {
        assert conditions[1..][i] == conditions[i + 1];
      }
      RuleSettled(context, conditions[1..], n - 1);
    }
  }

  datatype MatchedRule = MatchedRule(priority: int, id: string, effect: Effect, message: string)

  function MatchOf(r: Rule): MatchedRule
  {
    MatchedRule(r.priority, r.id, r.effect, r.message)
  }

  /** The rules that apply, in policy order. */
  function Matches(context: Json, rules: seq<Rule>): seq<MatchedRule>
  {
    if rules == [] then []
    else
      (if RuleResult(context, rules[0].conditions) == Ok(true) then [MatchOf(rules[0])] else [])
      + Matches(context, rules[1..])
  }

  datatype RuleFailure = RuleFailure(ruleId: string, error: EvalError)

  /** The error the evaluation raises: that of the first failing rule in policy order. */
  function FirstFailure(context: Json, rules: seq<Rule>): Option<RuleFailure>
  {
    if rules == [] then None
    else
      match RuleResult(context, rules[0].conditions)
      case Err(e) => Some(RuleFailure(rules[0].id, e))
      case Ok(_) => FirstFailure(context, rules[1..])
  }

  /** The sort key `(priority, id)`. */
  predicate KeyLess(a: MatchedRule, b: MatchedRule)
  {
    a.priority < b.priority || (a.priority == b.priority && Less(a.id, b.id))
  }

  function Insert(m: MatchedRule, sorted: seq<MatchedRule>): seq<MatchedRule>
  {
    if sorted == [] then [m]
    else if KeyLess(sorted[0], m) then [sorted[0]] + Insert(m, sorted[1..])
    else [m] + sorted
  }

  /** `matched.sort(key=...)`. */
  function SortByKey(matched: seq<MatchedRule>): seq<MatchedRule>
  {
    if matched == [] then [] else Insert(matched[0], SortByKey(matched[1..]))
  }

  datatype ConditionStatus = Matched | NotMatched | NotEvaluated

  /** `_outcome`: deny over review over allow over the default. */
  function OutcomeFor(matched: seq<MatchedRule>, default: Outcome): Outcome
  {
    if exists i | 0 <= i < |matched| :: matched[i].effect.EffectDeny? then OutcomeDeny
    else if exists i | 0 <= i < |matched| :: matched[i].effect.EffectReview? then OutcomeReview
    else if exists i | 0 <= i < |matched| :: matched[i].effect.EffectAllow? then OutcomeAllow
    else default
  }

  function DecidingEffect(outcome: Outcome): Effect
  {
    match outcome
    case OutcomeAllow => EffectAllow
    case OutcomeDeny => EffectDeny
    case OutcomeReview => EffectReview
  }

  /** A message written by the policy author, or the generated one. */
  datatype Reason =
    | Given(text: string)
    | RuleMatched(id: string, effect: Effect)
    | WarningMatched(id: string)
    | DefaultApplied(outcome: Outcome)

  function MatchedWith(matched: seq<MatchedRule>, effect: Effect): seq<MatchedRule>
  {
    if matched == [] then []
    else (if matched[0].effect == effect then [matched[0]] else []) + MatchedWith(matched[1..], effect)
  }

  function IdsOf(matched: seq<MatchedRule>): seq<string>
  {
    seq(|matched|, i requires 0 <= i < |matched| => matched[i].id)
  }

  function ReasonsFor(matched: seq<MatchedRule>, outcome: Outcome): seq<Reason>
  {
    var deciding := MatchedWith(matched, DecidingEffect(outcome));
    if deciding == [] then [DefaultApplied(outcome)]
    else
      seq(|deciding|, i requires 0 <= i < |deciding| =>
        if deciding[i].message != "" then Given(deciding[i].message)
        else RuleMatched(deciding[i].id, deciding[i].effect))
  }

  function WarningsFor(matched: seq<MatchedRule>): seq<Reason>
  {
    var warning := MatchedWith(matched, EffectWarn);
    seq(|warning|, i requires 0 <= i < |warning| =>
      if warning[i].message != "" then Given(warning[i].message) else WarningMatched(warning[i].id))
  }

  /** A decision without its random id, time stamp and fingerprint. */
  datatype Decision = Decision(
    policyId: string, policyVersion: string, outcome: Outcome, allowed: bool, matchedRules: seq<string>,
    warnings: seq<Reason>, reasons: seq<Reason>, evaluatedRules: nat)

  function DecisionFor(policy: Policy, matched: seq<MatchedRule>): Decision
  {
    var outcome := OutcomeFor(matched, policy.defaultEffect);
    Decision(policy.id, policy.version, outcome, outcome.OutcomeAllow?, IdsOf(matched),
             WarningsFor(matched), ReasonsFor(matched, outcome), |policy.rules|)
  }

  datatype Failure = InvalidInput | Failed(ruleFailure: RuleFailure)

  /** What a policy decides for a context that passed the input boundary. */
  function Decide(policy: Policy, context: Json): Result<Decision, Failure>
  {
    match FirstFailure(context, policy.rules)
    case Some(failure) => Err(Failed(failure))
    case None => Ok(DecisionFor(policy, SortByKey(Matches(context, policy.rules))))
  }

  /** The status every condition of a rule is given, when the rule does not fail. */
  function Trace(context: Json, conditions: seq<Condition>): seq<ConditionStatus>
  {
    if conditions == [] then []
    else if EvaluateCondition(context, conditions[0]) == Ok(true) then [Matched] + Trace(context, conditions[1..])
    else [NotMatched] + seq(|conditions| - 1, _ => NotEvaluated)
  }

  function Traces(context: Json, rules: seq<Rule>): (traces: seq<seq<ConditionStatus>>)
    ensures |traces| == |rules|
    ensures forall i | 0 <= i < |rules| :: traces[i] == Trace(context, rules[i].conditions)
  {
    if rules == [] then [] else [Trace(context, rules[0].conditions)] + Traces(context, rules[1..])
  }

  /** The inner loop over one rule's conditions, flipping `applies` at the first false one. */
  method EvaluateRule(context: Json, conditions: seq<Condition>, explain: bool)
    returns (result: Result<bool, EvalError>, trace: seq<ConditionStatus>)
    ensures result == RuleResult(context, conditions)
    ensures result.Ok? ==> trace == if explain then Trace(context, conditions) else []
  {
    var applies := true;
    trace := [];
    for index := 0 to |conditions|
      invariant applies ==> RuleResult(context, conditions) == RuleResult(context, conditions[index..])
      invariant !applies ==> RuleResult(context, conditions) == Ok(false)
      invariant !explain ==> trace == []
      invariant explain && applies ==> Trace(context, conditions) == trace + Trace(context, conditions[index..])
      invariant explain && !applies ==> Trace(context, conditions) == trace + seq(|conditions| - index, _ => NotEvaluated)
    {
      if !applies {
        if explain {
          ghost var before := trace;
          trace := trace + [NotEvaluated];
          assert seq(|conditions| - index, _ => NotEvaluated)
              == [NotEvaluated] + seq(|conditions| - (index + 1), _ => NotEvaluated);
          assert before + ([NotEvaluated] + seq(|conditions| - (index + 1), _ => NotEvaluated))
              == trace + seq(|conditions| - (index + 1), _ => NotEvaluated);
        }
        continue;
      }
      assert conditions[index..][0] == conditions[index] && conditions[index..][1..] == conditions[index + 1..];
      var matched := EvaluateCondition(context, conditions[index]);
      if matched.Err? {
        return Err(matched.error), trace;
      }
      if explain {
        ghost var before := trace;
        trace := trace + [if matched.value then Matched else NotMatched];
        assert before + ([Matched] + Trace(context, conditions[index + 1..]))
            == (before + [Matched]) + Trace(context, conditions[index + 1..]);
        assert before + ([NotMatched] + seq(|conditions| - index - 1, _ => NotEvaluated))
            == (before + [NotMatched]) + seq(|conditions| - index - 1, _ => NotEvaluated);
      }
      if !matched.value {
        applies := false;
      }
    }
    result := Ok(applies);
  }

  /** `_evaluate_rules`: matches accumulate in policy order and are sorted at the end. */
  method EvaluateRules(context: Json, rules: seq<Rule>, explain: bool)
    returns (result: Result<seq<MatchedRule>, RuleFailure>, traces: seq<seq<ConditionStatus>>)
    ensures result == match FirstFailure(context, rules)
                      case Some(failure) => Err(failure)
                      case None => Ok(SortByKey(Matches(context, rules)))
    ensures result.Ok? ==> traces == if explain then Traces(context, rules) else []
  {
    var matched: seq<MatchedRule> := [];
    traces := [];
    for n := 0 to |rules|
      invariant FirstFailure(context, rules) == FirstFailure(context, rules[n..])
      invariant Matches(context, rules) == matched + Matches(context, rules[n..])
      invariant explain ==> Traces(context, rules) == traces + Traces(context, rules[n..])
      invariant !explain ==> traces == []
    {
      var rule := rules[n];
      Unfold(context, rules[n..]);
      assert rules[n..][1..] == rules[n + 1..];
      var applies, trace := EvaluateRule(context, rule.conditions, explain);
      if applies.Err? {
        return Err(RuleFailure(rule.id, applies.error)), traces;
      }
      if explain {
        AppendAssociates(traces, [trace], Traces(context, rules[n + 1..]));
        traces := traces + [trace];
      }
      if applies.value {
        AppendAssociates(matched, [MatchOf(rule)], Matches(context, rules[n + 1..]));
        matched := matched + [MatchOf(rule)];
      }
    }
    assert matched + [] == matched && traces + [] == traces;
    result := Ok(SortByKey(matched));
  }

  lemma AppendAssociates<T>(a: seq<T>, b: seq<T>, c: seq<T>)
    ensures a + (b + c) == (a + b) + c
  {
  }

  /** How the accumulated values of a non-empty rule list split at its first rule. */
  lemma Unfold(context: Json, rules: seq<Rule>)
    requires rules != []
    ensures FirstFailure(context, rules) ==
            match RuleResult(context, rules[0].conditions)
            case Err(e) => Some(RuleFailure(rules[0].id, e))
            case Ok(_) => FirstFailure(context, rules[1..])
    ensures Matches(context, rules) ==
            if RuleResult(context, rules[0].conditions) == Ok(true)
            then [MatchOf(rules[0])] + Matches(context, rules[1..]) else Matches(context, rules[1..])
    ensures Traces(context, rules) == [Trace(context, rules[0].conditions)] + Traces(context, rules[1..])
  {
  }

  /** `_validated_context`: the generic bounds, or the contract's boundary when there is one. */
  predicate InputAccepted(contract: Option<Contract>, context: Json)
  {
    match contract
    case None => context.Obj? && ShapeOk(context)
    case Some(declared) => ContextAccepted(context, declared)
  }

  /** `PolicyEngine.evaluate`, as a value. */
  function Evaluation(policy: Policy, contract: Option<Contract>, context: Json): Result<Decision, Failure>
  {
    if InputAccepted(contract, context) then Decide(policy, context) else Err(InvalidInput)
  }

  method Evaluate(policy: Policy, contract: Option<Contract>, context: Json) returns (r: Result<Decision, Failure>)
    requires contract.Some? ==> ValidContract(contract.value)
    ensures r == Evaluation(policy, contract, context)
  {
    var accepted: bool;
    if contract.None? {
      accepted := context.Obj? && ShapeOk(context);
    } else {
      accepted := ValidateContextAgainstContract(context, contract.value);
    }
    if !accepted {
      return Err(InvalidInput);
    }
    var matched, _ := EvaluateRules(context, policy.rules, false);
    if matched.Err? {
      return Err(Failed(matched.error));
    }
    return Ok(DecisionFor(policy, matched.value));
  }

  datatype BatchFailure = TooManyItems | ItemFailed(index: nat, failure: Failure)

  /** What `evaluate_many` yields: decisions in input order, or the first item that fails within the limit. */
  predicate DecidesBatch(policy: Policy, contract: Option<Contract>, contexts: seq<Json>,
                         r: Result<seq<Decision>, BatchFailure>)
  {
    match r
    case Ok(decisions) =>
      && |contexts| <= MAX_BATCH_ITEMS && |decisions| == |contexts|
      && forall i | 0 <= i < |contexts| :: Evaluation(policy, contract, contexts[i]) == Ok(decisions[i])
    case Err(TooManyItems) =>
      && |contexts| > MAX_BATCH_ITEMS
      && forall i | 0 <= i < MAX_BATCH_ITEMS :: Evaluation(policy, contract, contexts[i]).Ok?
    case Err(ItemFailed(index, failure)) =>
      && index < |contexts| && index < MAX_BATCH_ITEMS
      && Evaluation(policy, contract, contexts[index]) == Err(failure)
      && forall i | 0 <= i < index :: Evaluation(policy, contract, contexts[i]).Ok?
  }

  /** `evaluate_many`. */
  method EvaluateMany(policy: Policy, contract: Option<Contract>, contexts: seq<Json>)
    returns (r: Result<seq<Decision>, BatchFailure>)
    requires contract.Some? ==> ValidContract(contract.value)
    ensures DecidesBatch(policy, contract, contexts, r)
  {
    var decisions: seq<Decision> := [];
    for index := 0 to |contexts|
      invariant index <= MAX_BATCH_ITEMS && |decisions| == index
      invariant forall i | 0 <= i < index :: Evaluation(policy, contract, contexts[i]) == Ok(decisions[i])
    {
      if index >= MAX_BATCH_ITEMS {
        return Err(TooManyItems);
      }
      var decision := Evaluate(policy, contract, contexts[index]);
      if decision.Err? {
        return Err(ItemFailed(index, decision.error));
      }
      decisions := decisions + [decision.value];
    }
    return Ok(decisions);
  }

  datatype RuleExplanation = RuleExplanation(
    ruleId: string, effect: Effect, priority: int, matched: bool, decisive: bool, conditions: seq<ConditionStatus>)

  datatype Explanation = Explanation(
    outcome: Outcome, defaultApplied: bool, matchedRuleIds: seq<string>, decisiveRuleIds: seq<string>,
    rules: seq<RuleExplanation>)

  /** `PolicyEngine.explain`. */
  method Explain(policy: Policy, contract: Option<Contract>, context: Json) returns (r: Result<Explanation, Failure>)
    requires contract.Some? ==> ValidContract(contract.value)
    ensures r == Explained(policy, contract, context)
  {
    var accepted: bool;
    if contract.None? {
      accepted := context.Obj? && ShapeOk(context);
    } else {
      accepted := ValidateContextAgainstContract(context, contract.value);
    }
    if !accepted {
      return Err(InvalidInput);
    }
    var matched, traces := EvaluateRules(context, policy.rules, true);
    if matched.Err? {
      return Err(Failed(matched.error));
    }
    return Ok(ExplanationFor(policy, matched.value, traces));
  }

  function ExplanationFor(policy: Policy, matched: seq<MatchedRule>, traces: seq<seq<ConditionStatus>>): Explanation
    requires |traces| == |policy.rules|
  {
    var outcome := OutcomeFor(matched, policy.defaultEffect);
    var matchedIds := IdsOf(matched);
    var decisiveIds := IdsOf(MatchedWith(matched, DecidingEffect(outcome)));
    Explanation(
      outcome, decisiveIds == [], matchedIds, decisiveIds,
      seq(|policy.rules|, i requires 0 <= i < |policy.rules| =>
        var rule := policy.rules[i];
        RuleExplanation(rule.id, rule.effect, rule.priority, rule.id in matchedIds, rule.id in decisiveIds, traces[i])))
  }

  function Explained(policy: Policy, contract: Option<Contract>, context: Json): Result<Explanation, Failure>
  {
    if !InputAccepted(contract, context) then Err(InvalidInput)
    else
      match FirstFailure(context, policy.rules)
      case Some(failure) => Err(Failed(failure))
      case None => Ok(ExplanationFor(policy, SortByKey(Matches(context, policy.rules)), Traces(context, policy.rules)))
  }
}
