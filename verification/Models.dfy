/** The policy language's abstract syntax, its JSON parser and its printer. */
module Models {
  import opened Wrappers
  import opened Strings
  import opened JsonValues
  import opened JsonBounds

  const MAX_POLICY_RULES := 1_000
  const MAX_RULE_CONDITIONS := 32
  const MAX_PATH_LENGTH := 256
  const DEFAULT_PRIORITY := 100

  datatype Effect = EffectAllow | EffectDeny | EffectReview | EffectWarn | EffectAudit

  datatype Outcome = OutcomeAllow | OutcomeDeny | OutcomeReview

  datatype Operator =
    | OpContains | OpEndsWith | OpEq | OpExists | OpGt | OpGte | OpIn | OpLt | OpLte | OpNeq
    | OpNotContains | OpNotExists | OpNotIn | OpStartsWith | OpSubsetOf

  datatype Condition = Condition(field: string, operator: Operator, value: Json)

  datatype Rule = Rule(id: string, effect: Effect, conditions: seq<Condition>, message: string, priority: int)

  datatype Policy = Policy(id: string, version: string, description: string, defaultEffect: Outcome, rules: seq<Rule>)

  function EffectName(effect: Effect): string
  {
    match effect
    case EffectAllow => "allow"
    case EffectDeny => "deny"
    case EffectReview => "review"
    case EffectWarn => "warn"
    case EffectAudit => "audit"
  }

  function EffectOf(name: string): Option<Effect>
  {
    if name == "allow" then Some(EffectAllow)
    else if name == "deny" then Some(EffectDeny)
    else if name == "review" then Some(EffectReview)
    else if name == "warn" then Some(EffectWarn)
    else if name == "audit" then Some(EffectAudit)
    else None
  }

  function OutcomeName(outcome: Outcome): string
  {
    match outcome
    case OutcomeAllow => "allow"
    case OutcomeDeny => "deny"
    case OutcomeReview => "review"
  }

  function OutcomeOf(name: string): Option<Outcome>
  {
    if name == "allow" then Some(OutcomeAllow)
    else if name == "deny" then Some(OutcomeDeny)
    else if name == "review" then Some(OutcomeReview)
    else None
  }

  function OperatorName(operator: Operator): string
  {
    match operator
    case OpContains => "contains"
    case OpEndsWith => "ends_with"
    case OpEq => "eq"
    case OpExists => "exists"
    case OpGt => "gt"
    case OpGte => "gte"
    case OpIn => "in"
    case OpLt => "lt"
    case OpLte => "lte"
    case OpNeq => "neq"
    case OpNotContains => "not_contains"
    case OpNotExists => "not_exists"
    case OpNotIn => "not_in"
    case OpStartsWith => "starts_with"
    case OpSubsetOf => "subset_of"
  }

  function OperatorOf(name: string): Option<Operator>
  {
    if name == "contains" then Some(OpContains)
    else if name == "ends_with" then Some(OpEndsWith)
    else if name == "eq" then Some(OpEq)
    else if name == "exists" then Some(OpExists)
    else if name == "gt" then Some(OpGt)
    else if name == "gte" then Some(OpGte)
    else if name == "in" then Some(OpIn)
    else if name == "lt" then Some(OpLt)
    else if name == "lte" then Some(OpLte)
    else if name == "neq" then Some(OpNeq)
    else if name == "not_contains" then Some(OpNotContains)
    else if name == "not_exists" then Some(OpNotExists)
    else if name == "not_in" then Some(OpNotIn)
    else if name == "starts_with" then Some(OpStartsWith)
    else if name == "subset_of" then Some(OpSubsetOf)
    else None
  }

  /** Names determine what they name. */
  lemma NamesRoundTrip(operator: Operator, effect: Effect, outcome: Outcome)
    ensures OperatorOf(OperatorName(operator)) == Some(operator)
    ensures EffectOf(EffectName(effect)) == Some(effect)
    ensures OutcomeOf(OutcomeName(outcome)) == Some(outcome)
  {
  }

  lemma NamesParseBack(name: string)
    ensures OperatorOf(name).Some? ==> OperatorName(OperatorOf(name).value) == name
    ensures EffectOf(name).Some? ==> EffectName(EffectOf(name).value) == name
    ensures OutcomeOf(name).Some? ==> OutcomeName(OutcomeOf(name).value) == name
  {
  }

  predicate IsAlphanumeric(c: char)
  {
    'a' <= c <= 'z' || 'A' <= c <= 'Z' || '0' <= c <= '9'
  }

  /** The identifier pattern: 1 to 128 letters, digits, '.', '_', ':' or '-', not starting with a mark. */
  predicate IsIdentifier(text: string)
  {
    && 1 <= |text| <= 128
    && IsAlphanumeric(text[0])
    && forall i | 0 <= i < |text| :: IsAlphanumeric(text[i]) || text[i] in {'.', '_', ':', '-'}
  }

  predicate IsSegment(part: string)
  {
    part != [] && forall i | 0 <= i < |part| :: IsAlphanumeric(part[i]) || part[i] in {'_', '-'}
  }

  /** The dotted field path pattern, at most 256 characters. */
  predicate IsFieldPath(path: string)
  {
    |path| <= MAX_PATH_LENGTH && forall i | 0 <= i < |Split(path)| :: IsSegment(Split(path)[i])
  }

  /** A value that is looked up in the context instead of being compared literally. */
  predicate IsReference(value: Json)
  {
    value.Obj? && value.fields.Keys == {"$ref"} && value.fields["$ref"].Str?
  }

  function ReferencePath(value: Json): string
    requires IsReference(value)
  {
    value.fields["$ref"].text
  }

  predicate TakesNoValue(operator: Operator)
  {
    operator.OpExists? || operator.OpNotExists?
  }

  predicate TakesArray(operator: Operator)
  {
    operator.OpIn? || operator.OpNotIn? || operator.OpSubsetOf?
  }

  /** What parsing guarantees of every condition. */
  predicate ValidCondition(c: Condition)
  {
    && IsFieldPath(c.field)
    && (TakesNoValue(c.operator) ==> c.value == Null)
    && (c.value.Obj? ==> IsReference(c.value) && IsFieldPath(ReferencePath(c.value)))
    && (TakesArray(c.operator) ==> c.value.Arr? || c.value.Obj?)
  }

  predicate ValidRule(r: Rule)
  {
    && IsIdentifier(r.id)
    && |r.conditions| <= MAX_RULE_CONDITIONS
    && (forall i | 0 <= i < |r.conditions| :: ValidCondition(r.conditions[i]))
    && |r.message| <= 500
    && -10_000 <= r.priority <= 10_000
  }

  predicate UniqueIds(rules: seq<Rule>)
  {
    forall i, j | 0 <= i < j < |rules| :: rules[i].id != rules[j].id
  }

  predicate ValidPolicy(p: Policy)
  {
    && IsIdentifier(p.id) && IsIdentifier(p.version)
    && |p.description| <= 1_000
    && |p.rules| <= MAX_POLICY_RULES
    && (forall i | 0 <= i < |p.rules| :: ValidRule(p.rules[i]))
    && UniqueIds(p.rules)
  }

  predicate KeysBetween(fields: map<string, Json>, required: set<string>, allowed: set<string>)
  {
    required <= fields.Keys && fields.Keys <= allowed
  }

  /** `PolicyCondition.from_dict`; None is PolicyValidationError. */
  function ConditionFromJson(j: Json): Option<Condition>
  {
    if !ShapeOk(j) || !j.Obj? then None
    else if !KeysBetween(j.fields, {"field", "operator"}, {"field", "operator", "value"}) then None
    else if !j.fields["field"].Str? || !IsFieldPath(j.fields["field"].text) then None
    else if !j.fields["operator"].Str? || OperatorOf(j.fields["operator"].text).None? then None
    else
      var operator := OperatorOf(j.fields["operator"].text).value;
      if TakesNoValue(operator) && "value" in j.fields then None
      else if !TakesNoValue(operator) && "value" !in j.fields then None
      else
        var value := if "value" in j.fields then j.fields["value"] else Null;
        if value.Obj? && !(IsReference(value) && IsFieldPath(ReferencePath(value))) then None
        else if TakesArray(operator) && !value.Arr? && !value.Obj? then None
        else Some(Condition(j.fields["field"].text, operator, value))
  }

  /** `PolicyCondition.to_dict`. */
  function ConditionToJson(c: Condition): Json
  {
    if TakesNoValue(c.operator)
    then Obj(map["field" := Str(c.field), "operator" := Str(OperatorName(c.operator))])
    else Obj(map["field" := Str(c.field), "operator" := Str(OperatorName(c.operator)), "value" := c.value])
  }

  /** Parse each element, failing if any fails. */
  function ConditionsFromJson(items: seq<Json>): Option<seq<Condition>>
  {
    if items == [] then Some([])
    else
      var first, rest := ConditionFromJson(items[0]), ConditionsFromJson(items[1..]);
      if first.None? || rest.None? then None else Some([first.value] + rest.value)
  }

  function ConditionsToJson(conditions: seq<Condition>): seq<Json>
  {
    if conditions == [] then []
    else [ConditionToJson(conditions[0])] + ConditionsToJson(conditions[1..])
  }

  function MessageOf(fields: map<string, Json>): Json
  {
    if "message" in fields then fields["message"] else Str("")
  }

  function PriorityOf(fields: map<string, Json>): Json
  {
    if "priority" in fields then fields["priority"] else Int(DEFAULT_PRIORITY)
  }

  const RULE_KEYS: set<string> := {"id", "effect", "conditions"}

  /** The checks on a rule object that do not look inside its conditions. */
  predicate RuleHead(j: Json)
  {
    && ShapeOk(j) && j.Obj?
    && KeysBetween(j.fields, RULE_KEYS, RULE_KEYS + {"message", "priority"})
    && j.fields["id"].Str? && IsIdentifier(j.fields["id"].text)
    && j.fields["effect"].Str? && EffectOf(j.fields["effect"].text).Some?
    && j.fields["conditions"].Arr? && |j.fields["conditions"].items| <= MAX_RULE_CONDITIONS
    && MessageOf(j.fields).Str? && |MessageOf(j.fields).text| <= 500
    && PriorityOf(j.fields).Int? && -10_000 <= PriorityOf(j.fields).number <= 10_000
  }

  /** `PolicyRule.from_dict`. */
  function RuleFromJson(j: Json): Option<Rule>
  {
    if !RuleHead(j) then None
    else
      var conditions := ConditionsFromJson(j.fields["conditions"].items);
      if conditions.None? then None
      else
        Some(Rule(j.fields["id"].text, EffectOf(j.fields["effect"].text).value, conditions.value,
                  MessageOf(j.fields).text, PriorityOf(j.fields).number))
  }

  /** `PolicyRule.to_dict`: message and priority are always written out. */
  function RuleToJson(r: Rule): Json
  {
    Obj(map["id" := Str(r.id),
            "effect" := Str(EffectName(r.effect)),
            "conditions" := Arr(ConditionsToJson(r.conditions)),
            "message" := Str(r.message),
            "priority" := Int(r.priority)])
  }

  function RulesFromJson(items: seq<Json>): Option<seq<Rule>>
  {
    if items == [] then Some([])
    else
      var first, rest := RuleFromJson(items[0]), RulesFromJson(items[1..]);
      if first.None? || rest.None? then None else Some([first.value] + rest.value)
  }

  function RulesToJson(rules: seq<Rule>): seq<Json>
  {
    if rules == [] then [] else [RuleToJson(rules[0])] + RulesToJson(rules[1..])
  }

  const POLICY_KEYS: set<string> := {"schema_version", "id", "version", "default_effect", "rules"}

  function DescriptionOf(fields: map<string, Json>): Json
  {
    if "description" in fields then fields["description"] else Str("")
  }

  /** The checks on a policy document that do not look inside its rules. */
  predicate PolicyHead(j: Json)
  {
    && j.Obj? && KeysBetween(j.fields, POLICY_KEYS, POLICY_KEYS + {"description"})
    && IsNumber(j.fields["schema_version"]) && NumberOf(j.fields["schema_version"]) == 1.0
    && j.fields["id"].Str? && IsIdentifier(j.fields["id"].text)
    && j.fields["version"].Str? && IsIdentifier(j.fields["version"].text)
    && DescriptionOf(j.fields).Str? && |DescriptionOf(j.fields).text| <= 1_000
    && j.fields["default_effect"].Str? && OutcomeOf(j.fields["default_effect"].text).Some?
    && j.fields["rules"].Arr? && |j.fields["rules"].items| <= MAX_POLICY_RULES
  }

  /** `Policy.from_dict`. */
  function PolicyFromJson(j: Json): Option<Policy>
  {
    if !PolicyHead(j) then None
    else
      var rules := RulesFromJson(j.fields["rules"].items);
      if rules.None? || !UniqueIds(rules.value) then None
      else
        Some(Policy(j.fields["id"].text, j.fields["version"].text, DescriptionOf(j.fields).text,
                    OutcomeOf(j.fields["default_effect"].text).value, rules.value))
  }

  /** `Policy.to_dict`. */
  function PolicyToJson(p: Policy): Json
  {
    Obj(map["schema_version" := Int(1),
            "id" := Str(p.id),
            "version" := Str(p.version),
            "description" := Str(p.description),
            "default_effect" := Str(OutcomeName(p.defaultEffect)),
            "rules" := Arr(RulesToJson(p.rules))])
  }
}
