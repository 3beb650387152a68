/** Parsing what was printed, and printing what was parsed. */
module ModelsRoundTrip {
  import opened Wrappers
  import opened JsonValues
  import opened JsonBounds
  import opened Models

  /** A parsed condition is valid and prints as the very object it came from. */
  lemma ParsedCondition(j: Json)
    requires ConditionFromJson(j).Some?
    ensures ValidCondition(ConditionFromJson(j).value)
    ensures ConditionToJson(ConditionFromJson(j).value) == j
  {
    NamesParseBack(j.fields["operator"].text);
    assert ConditionToJson(ConditionFromJson(j).value).fields == j.fields;
  }

  lemma PrintedCondition(c: Condition)
    requires ValidCondition(c) && ShapeOk(ConditionToJson(c))
    ensures ConditionFromJson(ConditionToJson(c)) == Some(c)
  {
    NamesRoundTrip(c.operator, EffectAllow, OutcomeAllow);
  }

  lemma {:induction false} ParsedConditions(items: seq<Json>)
    requires ConditionsFromJson(items).Some?
    ensures ConditionsToJson(ConditionsFromJson(items).value) == items
    ensures |ConditionsFromJson(items).value| == |items|
    ensures forall i | 0 <= i < |items| :: ValidCondition(ConditionsFromJson(items).value[i])
  {
    if items != [] {
      ParsedCondition(items[0]);
      ParsedConditions(items[1..]);
    }
  }

  predicate AllShapeOk(items: seq<Json>)
  {
    forall i | 0 <= i < |items| :: ShapeOk(items[i])
  }

  lemma RestShapeOk(items: seq<Json>)
    requires items != [] && AllShapeOk(items)
    ensures ShapeOk(items[0]) && AllShapeOk(items[1..])
  {
    forall i | 0 <= i < |items[1..]| ensures ShapeOk(items[1..][i]) {
      assert items[1..][i] == items[i + 1];
    }
  }

  lemma ConsConditions(items: seq<Json>, first: Condition, rest: seq<Condition>)
    requires items != [] && ConditionFromJson(items[0]) == Some(first) && ConditionsFromJson(items[1..]) == Some(rest)
    ensures ConditionsFromJson(items) == Some([first] + rest)
  {
  }

  lemma {:induction false} PrintedConditions(conditions: seq<Condition>)
    requires forall i | 0 <= i < |conditions| :: ValidCondition(conditions[i])
    requires AllShapeOk(ConditionsToJson(conditions))
    ensures ConditionsFromJson(ConditionsToJson(conditions)) == Some(conditions)
  {
    hide ValidCondition, ConditionFromJson, ShapeOk;
    if conditions != [] {
      var printed, rest := ConditionsToJson(conditions), conditions[1..];
      assert printed[0] == ConditionToJson(conditions[0]) && printed[1..] == ConditionsToJson(rest);
      RestShapeOk(printed);
      PrintedCondition(conditions[0]);
      PrintedConditions(rest);
      ConsConditions(printed, conditions[0], rest);
      assert [conditions[0]] + rest == conditions;
    }
  }

  lemma {:induction false} PrintedConditionCount(conditions: seq<Condition>)
    ensures |ConditionsToJson(conditions)| == |conditions|
  {
    if conditions != [] {
      PrintedConditionCount(conditions[1..]);
    }
  }

  /** A rule object with the optional keys filled in. */
  function WithDefaults(fields: map<string, Json>): map<string, Json>
  {
    var named := if "message" in fields then fields else fields["message" := Str("")];
    if "priority" in fields then named else named["priority" := Int(DEFAULT_PRIORITY)]
  }

  function DefaultedKeys(fields: map<string, Json>): nat
  {
    (if "message" in fields then 0 else 1) + (if "priority" in fields then 0 else 1)
  }

  /** A parsed rule is valid and prints as its source with only the defaults added. */
  lemma ParsedRule(j: Json)
    requires RuleFromJson(j).Some?
    ensures ValidRule(RuleFromJson(j).value)
    ensures RuleToJson(RuleFromJson(j).value) == Obj(WithDefaults(j.fields))
  {
    ParsedConditions(j.fields["conditions"].items);
    PrintedFields(j, RuleFromJson(j).value);
  }

  lemma PrintedFields(j: Json, r: Rule)
    requires RuleHead(j)
    requires j.fields["id"] == Str(r.id) && EffectOf(j.fields["effect"].text) == Some(r.effect)
    requires j.fields["conditions"] == Arr(ConditionsToJson(r.conditions))
    requires MessageOf(j.fields) == Str(r.message) && PriorityOf(j.fields) == Int(r.priority)
    ensures RuleToJson(r) == Obj(WithDefaults(j.fields))
  {
    NamesParseBack(j.fields["effect"].text);
    assert RuleToJson(r).fields.Keys == WithDefaults(j.fields).Keys;
    assert RuleToJson(r).fields == WithDefaults(j.fields);
  }

  lemma ElementsOfField(fields: map<string, Json>, key: string)
    requires key in fields && fields[key].Arr? && ShapeOk(Obj(fields))
    ensures AllShapeOk(fields[key].items)
  {
    ShapeOfParts(Obj(fields));
    ShapeOfParts(fields[key]);
  }

  /** Conditions inside an acceptable rule object parse back. */
  lemma PrintedConditionsOf(fields: map<string, Json>, conditions: seq<Condition>)
    requires forall i | 0 <= i < |conditions| :: ValidCondition(conditions[i])
    requires "conditions" in fields && fields["conditions"] == Arr(ConditionsToJson(conditions))
    requires ShapeOk(Obj(fields))
    ensures ConditionsFromJson(fields["conditions"].items) == Some(conditions)
    ensures |fields["conditions"].items| == |conditions|
  {
    ElementsOfField(fields, "conditions");
    PrintedConditions(conditions);
    PrintedConditionCount(conditions);
  }

  /** A valid rule parses back from its printed form exactly when that form meets the JSON bounds. */
  lemma PrintedRule(r: Rule)
    requires ValidRule(r)
    ensures RuleFromJson(RuleToJson(r)) == if ShapeOk(RuleToJson(r)) then Some(r) else None
  {
    if ShapeOk(RuleToJson(r)) {
      PrintedConditionsOf(RuleToJson(r).fields, r.conditions);
      PrintedRuleHead(r);
    }
  }

  lemma PrintedRuleHead(r: Rule)
    requires ValidRule(r) && ShapeOk(RuleToJson(r))
    ensures RuleHead(RuleToJson(r))
    ensures EffectOf(EffectName(r.effect)) == Some(r.effect)
  {
    NamesRoundTrip(OpEq, r.effect, OutcomeAllow);
    PrintedConditionCount(r.conditions);
  }

  /** A rule object that leaves message and priority to their defaults. */
  function BareRule(id: string, effect: Effect, conditions: seq<Condition>): Json
  {
    Obj(map["id" := Str(id), "effect" := Str(EffectName(effect)), "conditions" := Arr(ConditionsToJson(conditions))])
  }

  lemma BareRuleParses(id: string, effect: Effect, conditions: seq<Condition>)
    requires ValidRule(Rule(id, effect, conditions, "", DEFAULT_PRIORITY)) && ShapeOk(BareRule(id, effect, conditions))
    ensures RuleFromJson(BareRule(id, effect, conditions)) == Some(Rule(id, effect, conditions, "", DEFAULT_PRIORITY))
  {
    PrintedConditionsOf(BareRule(id, effect, conditions).fields, conditions);
    BareRuleHead(id, effect, conditions);
  }

  lemma BareRuleHead(id: string, effect: Effect, conditions: seq<Condition>)
    requires ValidRule(Rule(id, effect, conditions, "", DEFAULT_PRIORITY)) && ShapeOk(BareRule(id, effect, conditions))
    ensures RuleHead(BareRule(id, effect, conditions))
    ensures MessageOf(BareRule(id, effect, conditions).fields) == Str("")
    ensures PriorityOf(BareRule(id, effect, conditions).fields) == Int(DEFAULT_PRIORITY)
    ensures EffectOf(EffectName(effect)) == Some(effect)
  {
    NamesRoundTrip(OpEq, effect, OutcomeAllow);
    PrintedConditionCount(conditions);
  }

  lemma ItemsWithDefaults(fields: map<string, Json>)
    ensures ContainerItems(Obj(WithDefaults(fields))) == ContainerItems(Obj(fields)) + DefaultedKeys(fields)
  {
    var named := if "message" in fields then fields else fields["message" := Str("")];
    if "message" !in fields {
      ItemsOfExtension(fields, "message", Str(""));
    }
    if "priority" !in fields {
      ItemsOfExtension(named, "priority", Int(DEFAULT_PRIORITY));
    }
  }

  /**
   Printing a parsed rule and parsing it again gives the rule back if and only if the original
   object leaves room for the keys it had left to their defaults; otherwise parsing fails.
   */
  lemma ReparsedRule(j: Json)
    requires RuleFromJson(j).Some?
    ensures RuleFromJson(RuleToJson(RuleFromJson(j).value)) ==
            if ContainerItems(j) + DefaultedKeys(j.fields) <= MAX_CONTAINER_ITEMS then RuleFromJson(j) else None
  {
    ParsedRule(j);
    PrintedRule(RuleFromJson(j).value);
    ItemsWithDefaults(j.fields);
    assert Bounded(Obj(WithDefaults(j.fields)), 1);
  }

  lemma ItemsOfThree(a: string, x: Json, b: string, y: Json, c: string, z: Json)
    requires a != b && b != c && c != a
    ensures ContainerItems(Obj(map[a := x, b := y, c := z])) == 3 + ContainerItems(x) + ContainerItems(y) + ContainerItems(z)
  {
    var one, two, three := map[a := x], map[a := x, b := y], map[a := x, b := y, c := z];
    assert one == map[][a := x] && two == one[b := y] && three == two[c := z];
    ItemsOfObject(map[]);
    ItemsOfExtension(map[], a, x);
    ItemsOfExtension(one, b, y);
    ItemsOfExtension(two, c, z);
  }

  lemma BoundedThree(a: string, x: Json, b: string, y: Json, c: string, z: Json, depth: int)
    requires Bounded(x, depth + 1) && Bounded(y, depth + 1) && Bounded(z, depth + 1) && depth <= MAX_JSON_DEPTH
    ensures Bounded(Obj(map[a := x, b := y, c := z]), depth)
  {
    var fields := map[a := x, b := y, c := z];
    forall k | k in fields ensures Bounded(fields[k], depth + 1) {
      assert fields[k] == x || fields[k] == y || fields[k] == z;
    }
  }

  /** A membership test against `n` nulls. */
  function WideCondition(n: nat): Condition
  {
    Condition("a", OpIn, Arr(seq(n, _ => Null)))
  }

  lemma ShapeOfOne(item: Json, depth: int)
    ensures ContainerItems(Arr([item])) == 1 + ContainerItems(item)
    ensures Bounded(item, depth + 1) && depth <= MAX_JSON_DEPTH ==> Bounded(Arr([item]), depth)
  {
    var items := [item];
    var counts := seq(|items|, i requires 0 <= i < |items| => ContainerItems(items[i]));
    assert counts == [ContainerItems(item)];
    assert SumSeq(counts) == counts[0] + SumSeq(counts[1..]) && counts[1..] == [];
  }

  lemma ConditionShape(field: string, operator: string, value: Json, depth: int)
    requires |field| <= MAX_STRING_LENGTH && |operator| <= MAX_STRING_LENGTH
    requires Bounded(value, depth + 1) && depth < MAX_JSON_DEPTH
    ensures var c := Obj(map["field" := Str(field), "operator" := Str(operator), "value" := value]);
            ContainerItems(c) == 3 + ContainerItems(value) && Bounded(c, depth)
  {
    assert Bounded(Str(field), depth + 1) && Bounded(Str(operator), depth + 1);
    assert ContainerItems(Str(field)) == ContainerItems(Str(operator)) == 0;
    ItemsOfThree("field", Str(field), "operator", Str(operator), "value", value);
    BoundedThree("field", Str(field), "operator", Str(operator), "value", value, depth);
  }

  lemma BoundedNulls(items: seq<Json>, depth: int)
    requires depth < MAX_JSON_DEPTH && forall i | 0 <= i < |items| :: items[i] == Null
    ensures Bounded(Arr(items), depth)
  {
  }

  lemma WideConditionPrints(n: nat) returns (field: string, operator: string)
    ensures ConditionToJson(WideCondition(n)) ==
            Obj(map["field" := Str(field), "operator" := Str(operator), "value" := WideCondition(n).value])
    ensures |field| == 1 && |operator| == 2
  {
    field, operator := "a", "in";
  }

  lemma WideConditionShape(n: nat, depth: int)
    requires depth + 2 <= MAX_JSON_DEPTH
    ensures ContainerItems(ConditionToJson(WideCondition(n))) == n + 3
    ensures Bounded(ConditionToJson(WideCondition(n)), depth)
  {
    var items := WideCondition(n).value.items;
    ItemsOfNulls(items);
    BoundedNulls(items, depth + 1);
    var field, operator := WideConditionPrints(n);
    ConditionShape(field, operator, Arr(items), depth);
  }

  lemma WideConditionIsValid(n: nat)
    ensures ValidCondition(WideCondition(n))
  {
    Strings.SplitJoin(["a"]);
    assert Strings.Split("a") == ["a"];
    assert IsSegment("a");
  }

  lemma OneConditionToJson(conditions: seq<Condition>)
    requires |conditions| == 1
    ensures ConditionsToJson(conditions) == [ConditionToJson(conditions[0])]
  {
    assert ConditionsToJson(conditions) == [ConditionToJson(conditions[0])] + ConditionsToJson(conditions[1..]);
  }

  lemma ShapeOfBareRule(id: string, effect: Effect, c: Condition, depth: int)
    requires depth == 1 && Bounded(ConditionToJson(c), depth + 2) && IsIdentifier(id)
    ensures Bounded(BareRule(id, effect, [c]), depth)
    ensures ContainerItems(BareRule(id, effect, [c])) == 4 + ContainerItems(ConditionToJson(c))
  {
    OneConditionToJson([c]);
    var conditions := Arr(ConditionsToJson([c]));
    ShapeOfOne(ConditionToJson(c), depth + 1);
    assert Bounded(Str(id), depth + 1) && Bounded(Str(EffectName(effect)), depth + 1);
    ItemsOfThree("id", Str(id), "effect", Str(EffectName(effect)), "conditions", conditions);
    BoundedThree("id", Str(id), "effect", Str(EffectName(effect)), "conditions", conditions, depth);
  }

  /**
   The room can be missing: a rule that tests membership in `n` nulls and leaves message and
   priority out parses up to n = 9,993, but survives being printed only up to n = 9,991.
   */
  lemma WideRuleIsLost(n: nat, id: string, effect: Effect)
    requires IsIdentifier(id)
    ensures RuleFromJson(BareRule(id, effect, [WideCondition(n)])).Some? <==> n <= 9_993
    ensures n <= 9_993 ==>
              (RuleFromJson(RuleToJson(RuleFromJson(BareRule(id, effect, [WideCondition(n)])).value)).Some? <==> n <= 9_991)
  {
    WideConditionIsValid(n);
    WideConditionShape(n, 3);
    ShapeOfBareRule(id, effect, WideCondition(n), 1);
    if n <= 9_993 {
      BareRuleParses(id, effect, [WideCondition(n)]);
      BareRuleDefaults(id, effect, [WideCondition(n)]);
      ReparsedRule(BareRule(id, effect, [WideCondition(n)]));
    }
  }

  lemma BareRuleDefaults(id: string, effect: Effect, conditions: seq<Condition>)
    ensures DefaultedKeys(BareRule(id, effect, conditions).fields) == 2
  {
  }

  lemma {:induction false} ItemsOfNulls(items: seq<Json>)
    requires forall i | 0 <= i < |items| :: items[i] == Null
    ensures ContainerItems(Arr(items)) == |items|
  {
    var counts := seq(|items|, i requires 0 <= i < |items| => ContainerItems(items[i]));
    SumOfZeros(counts);
  }

  lemma {:induction false} SumOfZeros(counts: seq<nat>)
    requires forall i | 0 <= i < |counts| :: counts[i] == 0
    ensures SumSeq(counts) == 0
  {
    if counts != [] {
      SumOfZeros(counts[1..]);
    }
  }

  lemma {:induction false} ParsedRules(items: seq<Json>)
    requires RulesFromJson(items).Some?
    ensures |RulesFromJson(items).value| == |items|
    ensures forall i | 0 <= i < |items| :: ValidRule(RulesFromJson(items).value[i])
  {
    if items != [] {
      ParsedRule(items[0]);
      ParsedRules(items[1..]);
    }
  }

  /** Every policy that parses is valid: bounded, well formed, with unique rule ids. */
  lemma ParsedPolicy(j: Json)
    requires PolicyFromJson(j).Some?
    ensures ValidPolicy(PolicyFromJson(j).value)
  {
    ParsedRules(j.fields["rules"].items);
  }

  /** Every printed rule meets the JSON bounds. */
  predicate PrintsWithinBounds(rules: seq<Rule>)
  {
    forall i | 0 <= i < |rules| :: ShapeOk(RuleToJson(rules[i]))
  }

  lemma {:induction false} PrintedRules(rules: seq<Rule>)
    requires forall i | 0 <= i < |rules| :: ValidRule(rules[i])
    ensures |RulesToJson(rules)| == |rules|
    ensures RulesFromJson(RulesToJson(rules)) == if PrintsWithinBounds(rules) then Some(rules) else None
  {
    if rules != [] {
      var printed, rest := RulesToJson(rules), rules[1..];
      assert printed[0] == RuleToJson(rules[0]) && printed[1..] == RulesToJson(rest);
      PrintedRule(rules[0]);
      PrintedRules(rest);
      BoundsOfRest(rules);
      assert [rules[0]] + rest == rules;
      ConsRules(printed);
    }
  }

  lemma ConsRules(items: seq<Json>)
    requires items != []
    ensures RulesFromJson(items) ==
            if RuleFromJson(items[0]).None? || RulesFromJson(items[1..]).None? then None
            else Some([RuleFromJson(items[0]).value] + RulesFromJson(items[1..]).value)
  {
  }

  lemma BoundsOfRest(rules: seq<Rule>)
    requires rules != []
    ensures PrintsWithinBounds(rules) <==> ShapeOk(RuleToJson(rules[0])) && PrintsWithinBounds(rules[1..])
  {
    if PrintsWithinBounds(rules) {
      forall i | 0 <= i < |rules[1..]| ensures ShapeOk(RuleToJson(rules[1..][i])) {
        assert rules[1..][i] == rules[i + 1];
      }
    }
    if ShapeOk(RuleToJson(rules[0])) && PrintsWithinBounds(rules[1..]) {
      forall i | 0 <= i < |rules| ensures ShapeOk(RuleToJson(rules[i])) {
        if i > 0 {
          assert rules[i] == rules[1..][i - 1];
        }
      }
    }
  }

  /** A valid policy parses back from its printed form exactly when every printed rule fits the bounds. */
  lemma PrintedPolicy(p: Policy)
    requires ValidPolicy(p)
    ensures PolicyFromJson(PolicyToJson(p)) == if PrintsWithinBounds(p.rules) then Some(p) else None
  {
    PrintedRules(p.rules);
    PrintedPolicyHead(p);
  }

  lemma PrintedPolicyHead(p: Policy)
    requires ValidPolicy(p) && |RulesToJson(p.rules)| == |p.rules|
    ensures PolicyHead(PolicyToJson(p))
    ensures OutcomeOf(OutcomeName(p.defaultEffect)) == Some(p.defaultEffect)
  {
    NamesRoundTrip(OpEq, EffectAllow, p.defaultEffect);
  }
}
