/** Exactly which conditions the static contract check accepts, in terms of the evaluator's own operators. */
module ContractExactness {
  import opened Wrappers
  import opened JsonValues
  import opened Models
  import opened Contracts
  import opened Engine
  import opened TypeSoundness

  /** The condition's field, and the field its operand refers to, are declared. */
  predicate PathsDeclared(c: Condition, contract: Contract)
  {
    c.field in contract.fields && (IsReference(c.value) ==> ReferencePath(c.value) in contract.fields)
  }

  /** The declared type of a referenced operand, or the type of a literal one. */
  function TypeOfOperand(c: Condition, contract: Contract): FieldType
    requires PathsDeclared(c, contract)
  {
    if IsReference(c.value) then contract.fields[ReferencePath(c.value)].fieldType else ValueType(c.value)
  }

  /** The operator raises no error, whatever values of these types it meets. */
  ghost predicate NeverFails(operator: Operator, fieldType: FieldType, operandType: FieldType)
  {
    forall actual, operand | MatchesType(actual, fieldType) && MatchesType(operand, operandType) ::
      ApplyOperator(operator, actual, operand).Ok?
  }

  /** The elements of the operand have this type: as declared, or one of the literal's elements does. */
  predicate OperandHolds(c: Condition, contract: Contract, itemType: FieldType)
    requires PathsDeclared(c, contract)
  {
    if IsReference(c.value) then contract.fields[ReferencePath(c.value)].items == Some(itemType)
    else c.value.Arr? && exists i | 0 <= i < |c.value.items| :: ValueType(c.value.items[i]) == itemType
  }

  /** The operator compares a value of the first type, in the field, with one of the second, in the operand. */
  predicate Compares(c: Condition, contract: Contract, left: FieldType, right: FieldType)
    requires PathsDeclared(c, contract)
  {
    var field := contract.fields[c.field];
    match c.operator
    case OpEq | OpNeq =>
      || (left == field.fieldType && right == TypeOfOperand(c, contract))
      || (field.fieldType.TypeArray? && field.items == Some(left) && OperandHolds(c, contract, right))
    case OpIn | OpNotIn => left == field.fieldType && OperandHolds(c, contract, right)
    case OpContains | OpNotContains => field.items == Some(left) && right == TypeOfOperand(c, contract)
    case OpSubsetOf => field.items == Some(left) && OperandHolds(c, contract, right)
    case _ => false
  }

  /**
   What the contract check stands for. A presence test needs a declared field. Any other condition needs declared
   paths, an operator that cannot fail on values of the declared types, and for the operators that test equality,
   that any two types they compare have a value in common.
   */
  ghost predicate MakesSense(c: Condition, contract: Contract)
  {
    if TakesNoValue(c.operator) then c.field in contract.fields
    else
      && PathsDeclared(c, contract)
      && NeverFails(c.operator, contract.fields[c.field].fieldType, TypeOfOperand(c, contract))
      && forall left, right | Compares(c, contract, left, right) :: HaveCommonValue(left, right)
  }

  /** Order operators cannot fail exactly on two numeric types or two strings. */
  lemma OrderNeverFails(operator: Operator, left: FieldType, right: FieldType)
    requires operator in {OpGt, OpGte, OpLt, OpLte}
    ensures NeverFails(operator, left, right)
            <==> TypesCompatible(left, right) && left in {TypeInteger, TypeNumber, TypeString}
  {
    if NeverFails(operator, left, right) {
      assert ApplyOperator(operator, SampleOf(left), SampleOf(right)).Ok?;
    }
  }

  lemma AffixNeverFails(operator: Operator, left: FieldType, right: FieldType)
    requires operator in {OpStartsWith, OpEndsWith}
    ensures NeverFails(operator, left, right) <==> left.TypeString? && right.TypeString?
  {
    if NeverFails(operator, left, right) {
      assert ApplyOperator(operator, SampleOf(left), SampleOf(right)).Ok?;
    }
  }

  /** Membership operators cannot fail exactly on the arrays they need. */
  lemma MembershipNeverFails(operator: Operator, left: FieldType, right: FieldType)
    requires operator in {OpEq, OpNeq, OpIn, OpNotIn, OpContains, OpNotContains, OpSubsetOf}
    ensures NeverFails(operator, left, right)
            <==> && (operator in {OpIn, OpNotIn, OpSubsetOf} ==> right.TypeArray?)
                 && (operator in {OpContains, OpNotContains, OpSubsetOf} ==> left.TypeArray?)
  {
    if NeverFails(operator, left, right) {
      assert ApplyOperator(operator, SampleOf(left), SampleOf(right)).Ok?;
    }
  }

  ghost predicate SharesWithAll(c: Condition, contract: Contract, fieldType: FieldType)
    requires PathsDeclared(c, contract)
  {
    forall right | OperandHolds(c, contract, right) :: HaveCommonValue(fieldType, right)
  }

  /** The list of element types that the check reads holds exactly the types of the operand's elements. */
  lemma ItemTypesAre(c: Condition, contract: Contract, fieldType: FieldType)
    requires PathsDeclared(c, contract) && TypeOfOperand(c, contract).TypeArray?
    ensures var referenced := if IsReference(c.value) then Some(contract.fields[ReferencePath(c.value)]) else None;
            var types := OperandItemTypes(referenced, c.value);
            && types.Some?
            && (AllCompatible(fieldType, types.value) <==> SharesWithAll(c, contract, fieldType))
  {
    var referenced := if IsReference(c.value) then Some(contract.fields[ReferencePath(c.value)]) else None;
    var types := OperandItemTypes(referenced, c.value).value;
    forall right ensures OperandHolds(c, contract, right) <==> right in types {
      if !IsReference(c.value) && right in types {
        var i :| 0 <= i < |types| && types[i] == right;
        assert ValueType(c.value.items[i]) == right;
      }
      if !IsReference(c.value) && OperandHolds(c, contract, right) {
        var i :| 0 <= i < |c.value.items| && ValueType(c.value.items[i]) == right;
        assert types[i] == right;
      }
    }
    forall right ensures TypesCompatible(fieldType, right) <==> HaveCommonValue(fieldType, right) {
      CompatibleMeansCommonValue(fieldType, right);
    }
    if SharesWithAll(c, contract, fieldType) {
      forall i | 0 <= i < |types| ensures TypesCompatible(fieldType, types[i]) {
        assert OperandHolds(c, contract, types[i]);
      }
    }
  }

  /** The check accepts exactly the conditions that make sense. */
  lemma CheckIsExact(c: Condition, contract: Contract)
    ensures WellTyped(c, contract) <==> MakesSense(c, contract)
  {
    if PathsDeclared(c, contract) && !TakesNoValue(c.operator) {
      var field, right := contract.fields[c.field], TypeOfOperand(c, contract);
      match c.operator
      case OpGt | OpGte | OpLt | OpLte => OrderNeverFails(c.operator, field.fieldType, right);
      case OpStartsWith | OpEndsWith => AffixNeverFails(c.operator, field.fieldType, right);
      case _ => MembershipIsExact(c, contract);
    }
  }

  /** What the operators that test equality compare, operator by operator. */
  lemma ComparedShare(c: Condition, contract: Contract)
    requires PathsDeclared(c, contract)
    ensures var field, operandType := contract.fields[c.field], TypeOfOperand(c, contract);
            (forall left, right | Compares(c, contract, left, right) :: HaveCommonValue(left, right))
            <==> && (c.operator in {OpEq, OpNeq} ==>
                       && HaveCommonValue(field.fieldType, operandType)
                       && (field.fieldType.TypeArray? && field.items.Some? ==> SharesWithAll(c, contract, field.items.value)))
                 && (c.operator in {OpIn, OpNotIn} ==> SharesWithAll(c, contract, field.fieldType))
                 && (c.operator in {OpContains, OpNotContains} && field.items.Some? ==>
                       HaveCommonValue(field.items.value, operandType))
                 && (c.operator.OpSubsetOf? && field.items.Some? ==> SharesWithAll(c, contract, field.items.value))
  {
    hide HaveCommonValue, OperandHolds;
    var field, operandType := contract.fields[c.field], TypeOfOperand(c, contract);
    if forall left, right | Compares(c, contract, left, right) :: HaveCommonValue(left, right) {
      if c.operator in {OpEq, OpNeq} {
        assert Compares(c, contract, field.fieldType, operandType);
      }
      if c.operator in {OpContains, OpNotContains} && field.items.Some? {
        assert Compares(c, contract, field.items.value, operandType);
      }
      forall right | OperandHolds(c, contract, right)
        ensures c.operator in {OpIn, OpNotIn} ==> HaveCommonValue(field.fieldType, right)
        ensures (c.operator.OpSubsetOf? || (c.operator in {OpEq, OpNeq} && field.fieldType.TypeArray?)) && field.items.Some? ==>
                  HaveCommonValue(field.items.value, right)
      {
        assert c.operator in {OpIn, OpNotIn} ==> Compares(c, contract, field.fieldType, right);
        assert (c.operator.OpSubsetOf? || (c.operator in {OpEq, OpNeq} && field.fieldType.TypeArray?)) && field.items.Some? ==>
                 Compares(c, contract, field.items.value, right);
      }
    }
  }

  lemma MembershipIsExact(c: Condition, contract: Contract)
    requires PathsDeclared(c, contract)
    requires c.operator in {OpEq, OpNeq, OpIn, OpNotIn, OpContains, OpNotContains, OpSubsetOf}
    ensures WellTyped(c, contract) <==> MakesSense(c, contract)
  {
    hide HaveCommonValue, NeverFails, AllCompatible, OperandHolds, IsReference, Compares, SharesWithAll;
    var field, right := contract.fields[c.field], TypeOfOperand(c, contract);
    MembershipNeverFails(c.operator, field.fieldType, right);
    ComparedShare(c, contract);
    CompatibleMeansCommonValue(field.fieldType, right);
    if field.items.Some? {
      CompatibleMeansCommonValue(field.items.value, right);
    }
    if right.TypeArray? {
      ItemTypesAre(c, contract, field.fieldType);
      if field.items.Some? {
        ItemTypesAre(c, contract, field.items.value);
      }
    }
  }

  /** A policy passes the contract check exactly when each condition of each rule makes sense. */
  lemma PolicyCheckIsExact(policy: Policy, contract: Contract)
    ensures PolicyWellTyped(policy, contract)
            <==> forall r, c | r in policy.rules && c in r.conditions :: MakesSense(c, contract)
  {
    hide MakesSense, WellTyped;
    forall r, c | r in policy.rules && c in r.conditions ensures WellTyped(c, contract) <==> MakesSense(c, contract) {
      var k :| 0 <= k < |policy.rules| && policy.rules[k] == r;
      var i :| 0 <= i < |r.conditions| && r.conditions[i] == c;
      CheckIsExact(c, contract);
    }
    if PolicyWellTyped(policy, contract) {
      forall r, c | r in policy.rules && c in r.conditions ensures WellTyped(c, contract) {
        var k :| 0 <= k < |policy.rules| && policy.rules[k] == r;
        var i :| 0 <= i < |r.conditions| && r.conditions[i] == c;
      }
    }
  }
}
