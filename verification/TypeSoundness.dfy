/** Well-typed policies do not go wrong: the static check against the evaluator. */
module TypeSoundness {
  import opened Wrappers
  import opened JsonValues
  import opened Models
  import opened Contracts
  import opened Engine
  import opened EngineLaws

  /** The condition's field is present but the optional field its operand refers to is not. */
  predicate ReferenceIsMissing(context: Json, c: Condition)
  {
    && !TakesNoValue(c.operator)
    && At(context, c.field).Some?
    && IsReference(c.value) && At(context, ReferencePath(c.value)).None?
  }

  /** The input check and the static check read types alike: every value has one type, and an integer is also a number. */
  lemma ValuesHaveOneType(v: Json, fieldType: FieldType)
    ensures MatchesType(v, fieldType) <==> ValueType(v) == fieldType || (ValueType(v).TypeInteger? && fieldType.TypeNumber?)
  {
  }

  ghost predicate HaveCommonValue(left: FieldType, right: FieldType)
  {
    exists v :: MatchesType(v, left) && MatchesType(v, right)
  }

  /** Two declared types are compatible exactly when some value has both. */
  lemma CompatibleMeansCommonValue(left: FieldType, right: FieldType)
    ensures TypesCompatible(left, right) <==> HaveCommonValue(left, right)
  {
    if TypesCompatible(left, right) {
      var v := SampleOf(if left.TypeInteger? || right.TypeInteger? then TypeInteger else left);
      assert MatchesType(v, left) && MatchesType(v, right);
    }
    if v :| MatchesType(v, left) && MatchesType(v, right) {
      ValuesHaveOneType(v, left);
      ValuesHaveOneType(v, right);
    }
  }

  function SampleOf(fieldType: FieldType): (v: Json)
    ensures MatchesType(v, fieldType)
  {
    match fieldType
    case TypeNull => Null
    case TypeBoolean => Bool(true)
    case TypeInteger => Int(0)
    case TypeNumber => Float(0.5)
    case TypeString => Str("")
    case TypeArray => Arr([])
    case TypeObject => Obj(map[])
  }

  /** A value's own type is compatible with any declared type it matches. */
  lemma DeclaredTypeFits(v: Json, declared: FieldType, wanted: FieldType)
    requires MatchesType(v, declared) && TypesCompatible(declared, wanted)
    ensures wanted in {TypeInteger, TypeNumber} <==> IsNumber(v)
    ensures wanted.TypeString? <==> v.Str?
    ensures wanted.TypeArray? <==> v.Arr?
  {
  }

  /** The operand of a well-typed condition has the type the check assigned to it. */
  lemma OperandType(context: Json, c: Condition, contract: Contract) returns (operandType: FieldType)
    requires ValidCondition(c) && WellTyped(c, contract) && ContextAccepted(context, contract)
    requires !TakesNoValue(c.operator) && ResolvedExpected(context, c).Ok?
    ensures operandType == if IsReference(c.value) then contract.fields[ReferencePath(c.value)].fieldType else ValueType(c.value)
    ensures MatchesType(ResolvedExpected(context, c).value, operandType)
  {
    if IsReference(c.value) {
      operandType := contract.fields[ReferencePath(c.value)].fieldType;
      assert FieldAccepted(context, ReferencePath(c.value), contract.fields[ReferencePath(c.value)]);
    } else {
      operandType := ValueType(c.value);
    }
  }

  /**
   A well-typed condition on an accepted context fails exactly when its reference is missing, and
   then the missing path is declared optional.
   */
  lemma ConditionIsSound(context: Json, c: Condition, contract: Contract)
    requires ValidCondition(c) && WellTyped(c, contract) && ContextAccepted(context, contract)
    ensures EvaluateCondition(context, c).Err? <==> ReferenceIsMissing(context, c)
    ensures EvaluateCondition(context, c).Err? ==>
              && EvaluateCondition(context, c) == Err(MissingReference(ReferencePath(c.value)))
              && ReferencePath(c.value) in contract.fields
              && !contract.fields[ReferencePath(c.value)].required
  {
    var actual := contract.fields[c.field];
    assert FieldAccepted(context, c.field, actual);
    if !TakesNoValue(c.operator) && At(context, c.field).Some? {
      var found := At(context, c.field).value;
      if ResolvedExpected(context, c).Err? {
        assert FieldAccepted(context, ReferencePath(c.value), contract.fields[ReferencePath(c.value)]);
      } else {
        var operandType := OperandType(context, c, contract);
        var operand := ResolvedExpected(context, c).value;
        OperatorIsSound(c, contract, found, operand, operandType);
      }
    }
  }

  lemma OperatorIsSound(c: Condition, contract: Contract, actual: Json, operand: Json, operandType: FieldType)
    requires WellTyped(c, contract) && !TakesNoValue(c.operator)
    requires operandType == if IsReference(c.value) then contract.fields[ReferencePath(c.value)].fieldType else ValueType(c.value)
    requires MatchesType(actual, contract.fields[c.field].fieldType) && MatchesType(operand, operandType)
    ensures ApplyOperator(c.operator, actual, operand).Ok?
  {
    match c.operator
    case OpGt | OpGte | OpLt | OpLte =>
      DeclaredTypeFits(actual, contract.fields[c.field].fieldType, operandType);
      DeclaredTypeFits(operand, operandType, operandType);
    case _ =>
  }

  /** Evaluation gets, through conditions that all hold, to one whose reference is missing. */
  predicate ReachesMissing(context: Json, conditions: seq<Condition>)
  {
    exists n :: && 0 <= n < |conditions| && ReferenceIsMissing(context, conditions[n])
                && forall i | 0 <= i < n :: EvaluateCondition(context, conditions[i]) == Ok(true)
  }

  /** A failing rule fails at a condition whose reference is missing, after conditions that all hold. */
  lemma {:induction false} RuleIsSound(context: Json, conditions: seq<Condition>, contract: Contract)
    requires forall i | 0 <= i < |conditions| :: ValidCondition(conditions[i]) && WellTyped(conditions[i], contract)
    requires ContextAccepted(context, contract)
    ensures RuleResult(context, conditions).Err? <==> ReachesMissing(context, conditions)
    ensures RuleResult(context, conditions).Err? ==>
              exists n :: && 0 <= n < |conditions| && IsReference(conditions[n].value)
                          && ReferencePath(conditions[n].value) in contract.fields
                          && !contract.fields[ReferencePath(conditions[n].value)].required
                          && RuleResult(context, conditions).error == MissingReference(ReferencePath(conditions[n].value))
  {
    var stop := FirstNotTrue(context, conditions);
    if stop < |conditions| {
      ConditionIsSound(context, conditions[stop], contract);
      RuleSettled(context, conditions, stop);
    } else {
      RuleApplies(context, conditions);
    }
    forall n | 0 <= n < |conditions| && ReferenceIsMissing(context, conditions[n])
               && forall i | 0 <= i < n :: EvaluateCondition(context, conditions[i]) == Ok(true)
      ensures n == stop
    {
      ConditionIsSound(context, conditions[n], contract);
    }
  }

  /** The position of the first condition that is not simply true, or the number of conditions. */
  lemma {:induction false} FirstNotTrue(context: Json, conditions: seq<Condition>) returns (stop: nat)
    ensures stop <= |conditions|
    ensures forall i | 0 <= i < stop :: EvaluateCondition(context, conditions[i]) == Ok(true)
    ensures stop < |conditions| ==> EvaluateCondition(context, conditions[stop]) != Ok(true)
  {
    stop := 0;
    while stop < |conditions| && EvaluateCondition(context, conditions[stop]) == Ok(true)
      invariant stop <= |conditions|
      invariant forall i | 0 <= i < stop :: EvaluateCondition(context, conditions[i]) == Ok(true)
    {
      stop := stop + 1;
    }
  }

  /** Every field that the policy's operands refer to is declared required. */
  predicate ReferencesRequired(policy: Policy, contract: Contract)
  {
    forall r, i | 0 <= r < |policy.rules| && 0 <= i < |policy.rules[r].conditions| ::
      RequiredReference(policy.rules[r].conditions[i], contract)
  }

  predicate RequiredReference(c: Condition, contract: Contract)
  {
    IsReference(c.value) && ReferencePath(c.value) in contract.fields ==>
      contract.fields[ReferencePath(c.value)].required
  }

  lemma RulesOfValidPolicy(policy: Policy, contract: Contract, r: Rule)
    requires ValidPolicy(policy) && PolicyWellTyped(policy, contract) && r in policy.rules
    ensures forall i | 0 <= i < |r.conditions| :: ValidCondition(r.conditions[i]) && WellTyped(r.conditions[i], contract)
    ensures ReferencesRequired(policy, contract) ==>
              forall i | 0 <= i < |r.conditions| :: RequiredReference(r.conditions[i], contract)
  {
    var k :| 0 <= k < |policy.rules| && policy.rules[k] == r;
    assert ValidRule(policy.rules[k]);
  }

  /**
   A policy that passes the contract check decides every context the contract admits unless some
   rule reaches a missing reference. The failure then names a path declared optional, so a policy
   whose references are all required never fails.
   */
  lemma PolicyIsSound(policy: Policy, contract: Contract, context: Json)
    requires ValidPolicy(policy) && PolicyWellTyped(policy, contract) && ContextAccepted(context, contract)
    ensures Evaluation(policy, Some(contract), context).Err?
       <==> exists r :: r in policy.rules && ReachesMissing(context, r.conditions)
    ensures Evaluation(policy, Some(contract), context).Err? ==>
              && Evaluation(policy, Some(contract), context).error.Failed?
              && var error := Evaluation(policy, Some(contract), context).error.ruleFailure.error;
                 error.MissingReference? && error.path in contract.fields && !contract.fields[error.path].required
    ensures ReferencesRequired(policy, contract) ==> Evaluation(policy, Some(contract), context).Ok?
  {
    forall r | r in policy.rules ensures RuleResult(context, r.conditions).Err? <==> ReachesMissing(context, r.conditions) {
      RulesOfValidPolicy(policy, contract, r);
      RuleIsSound(context, r.conditions, contract);
    }
    FailureMeans(context, policy.rules);
    if FirstFailure(context, policy.rules).Some? {
      var k := FirstFailureIsARule(context, policy.rules);
      var r := policy.rules[k];
      RulesOfValidPolicy(policy, contract, r);
      RuleIsSound(context, r.conditions, contract);
      var n :| && 0 <= n < |r.conditions| && IsReference(r.conditions[n].value)
               && ReferencePath(r.conditions[n].value) in contract.fields
               && !contract.fields[ReferencePath(r.conditions[n].value)].required
               && RuleResult(context, r.conditions).error == MissingReference(ReferencePath(r.conditions[n].value));
      assert !RequiredReference(r.conditions[n], contract);
    }
  }

  lemma {:induction false} FirstFailureIsARule(context: Json, rules: seq<Rule>) returns (r: nat)
    requires FirstFailure(context, rules).Some?
    ensures r < |rules| && RuleResult(context, rules[r].conditions).Err?
    ensures FirstFailure(context, rules).value ==
            RuleFailure(rules[r].id, RuleResult(context, rules[r].conditions).error)
  {
    if RuleResult(context, rules[0].conditions).Err? {
      r := 0;
    } else {
      var rest := FirstFailureIsARule(context, rules[1..]);
      r := rest + 1;
    }
  }
}
