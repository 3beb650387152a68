/** Laws of the evaluator: order of rules, equality of inputs, and explanations. */
module EngineLaws {
  import opened Wrappers
  import opened Strings
  import opened JsonValues
  import opened Models
  import opened Engine

  // ----- The match list: which rules are in it, and in what order

  predicate StrictlySorted(matched: seq<MatchedRule>)
  {
    forall i, j | 0 <= i < j < |matched| :: KeyLess(matched[i], matched[j])
  }

  predicate DistinctIds(matched: seq<MatchedRule>)
  {
    forall i, j | 0 <= i < j < |matched| :: matched[i].id != matched[j].id
  }

  predicate SameElements<T(==)>(a: seq<T>, b: seq<T>)
  {
    (forall x | x in a :: x in b) && (forall x | x in b :: x in a)
  }

  lemma KeyLessIsStrict(a: MatchedRule, b: MatchedRule)
    ensures !(KeyLess(a, b) && KeyLess(b, a))
    ensures a.id != b.id ==> KeyLess(a, b) || KeyLess(b, a)
  {
    LessIsStrict(a.id, b.id);
  }

  lemma KeyLessIsTransitive(a: MatchedRule, b: MatchedRule, c: MatchedRule)
    requires KeyLess(a, b) && KeyLess(b, c)
    ensures KeyLess(a, c)
  {
    if a.priority == b.priority == c.priority {
      LessIsTransitive(a.id, b.id, c.id);
    }
  }

  lemma {:induction false} InsertKeepsOrder(m: MatchedRule, sorted: seq<MatchedRule>)
    requires StrictlySorted(sorted)
    requires forall i | 0 <= i < |sorted| :: sorted[i].id != m.id
    ensures StrictlySorted(Insert(m, sorted))
    ensures forall x :: x in Insert(m, sorted) <==> x == m || x in sorted
  {
    if sorted != [] {
      if KeyLess(sorted[0], m) {
        InsertKeepsOrder(m, sorted[1..]);
        var rest := Insert(m, sorted[1..]);
        forall i | 0 <= i < |rest| ensures KeyLess(sorted[0], rest[i]) {
          assert rest[i] in rest;
          if rest[i] != m {
            assert rest[i] in sorted[1..];
          }
        }
      } else {
        KeyLessIsStrict(m, sorted[0]);
        forall i | 1 <= i < |sorted| ensures KeyLess(m, sorted[i]) {
          KeyLessIsTransitive(m, sorted[0], sorted[i]);
        }
      }
    }
  }

  /** Sorting rules with distinct ids yields the same rules in strictly increasing key order. */
  lemma {:induction false} SortingSorts(matched: seq<MatchedRule>)
    requires DistinctIds(matched)
    ensures StrictlySorted(SortByKey(matched))
    ensures SameElements(SortByKey(matched), matched)
  {
    if matched != [] {
      SortingSorts(matched[1..]);
      var sorted := SortByKey(matched[1..]);
      forall i | 0 <= i < |sorted| ensures sorted[i].id != matched[0].id {
        assert sorted[i] in sorted;
        assert sorted[i] in matched[1..];
      }
      InsertKeepsOrder(matched[0], sorted);
      assert matched == [matched[0]] + matched[1..];
    }
  }

  /** There is only one strictly sorted sequence of a given set of rules. */
  lemma {:induction false} SortedIsUnique(a: seq<MatchedRule>, b: seq<MatchedRule>)
    requires StrictlySorted(a) && StrictlySorted(b) && SameElements(a, b)
    ensures a == b
  {
    HeadIsIn(a);
    HeadIsIn(b);
    if a == [] {
    } else {
      if a[0] != b[0] {
        var i :| 0 <= i < |b| && b[i] == a[0];
        var j :| 0 <= j < |a| && a[j] == b[0];
        KeyLessIsStrict(a[0], b[0]);
      }
      assert a == [a[0]] + a[1..] && b == [b[0]] + b[1..];
      HeadIsNotInTail(a);
      HeadIsNotInTail(b);
      assert forall x :: x in a <==> x == a[0] || x in a[1..];
      assert forall x :: x in b <==> x == b[0] || x in b[1..];
      SortedIsUnique(a[1..], b[1..]);
    }
  }

  lemma HeadIsIn(a: seq<MatchedRule>)
    ensures a != [] ==> a[0] in a
  {
  }

  lemma HeadIsNotInTail(a: seq<MatchedRule>)
    requires StrictlySorted(a) && a != []
    ensures a[0] !in a[1..]
  {
    if a[0] in a[1..] {
      var i :| 0 <= i < |a[1..]| && a[1..][i] == a[0];
      assert KeyLess(a[0], a[i + 1]);
      KeyLessIsStrict(a[0], a[0]);
    }
  }

  predicate Applies(context: Json, r: Rule)
  {
    RuleResult(context, r.conditions) == Ok(true)
  }

  /** Some applying rule is listed as `m`. */
  predicate MatchedBy(context: Json, rules: seq<Rule>, m: MatchedRule)
  {
    exists r :: r in rules && Applies(context, r) && MatchOf(r) == m
  }

  /** The match list holds exactly the applying rules. */
  lemma {:induction false} MatchesAre(context: Json, rules: seq<Rule>, m: MatchedRule)
    ensures m in Matches(context, rules) <==> MatchedBy(context, rules, m)
  {
    if rules != [] {
      MatchesAre(context, rules[1..], m);
      Unfold(context, rules);
      MatchedByHeadOrTail(context, rules, m);
    }
  }

  lemma MatchedByHeadOrTail(context: Json, rules: seq<Rule>, m: MatchedRule)
    requires rules != []
    ensures MatchedBy(context, rules, m)
       <==> (Applies(context, rules[0]) && MatchOf(rules[0]) == m) || MatchedBy(context, rules[1..], m)
  {
    assert rules == [rules[0]] + rules[1..];
    assert rules[0] in rules;
  }

  lemma {:induction false} MatchedIdsAreDistinct(context: Json, rules: seq<Rule>)
    requires UniqueIds(rules)
    ensures DistinctIds(Matches(context, rules))
  {
    if rules != [] {
      MatchedIdsAreDistinct(context, rules[1..]);
      Unfold(context, rules);
      forall m | m in Matches(context, rules[1..]) ensures m.id != rules[0].id {
        MatchesAre(context, rules[1..], m);
        var r :| r in rules[1..] && Applies(context, r) && MatchOf(r) == m;
        var i :| 0 <= i < |rules[1..]| && rules[1..][i] == r;
        assert rules[i + 1] == r;
      }
    }
  }

  lemma {:induction false} FailureMeans(context: Json, rules: seq<Rule>)
    ensures FirstFailure(context, rules).Some? <==> exists r :: r in rules && RuleResult(context, r.conditions).Err?
  {
    if rules != [] {
      FailureMeans(context, rules[1..]);
      assert rules == [rules[0]] + rules[1..];
      if RuleResult(context, rules[0].conditions).Err? {
        assert rules[0] in rules;
      }
    }
  }

  /** The sorted match list of a policy: its rules that apply, in strict key order. */
  lemma MatchListMeans(context: Json, rules: seq<Rule>)
    requires UniqueIds(rules)
    ensures var matched := SortByKey(Matches(context, rules));
            && StrictlySorted(matched)
            && forall m :: m in matched <==> MatchedBy(context, rules, m)
  {
    MatchedIdsAreDistinct(context, rules);
    SortingSorts(Matches(context, rules));
    forall m ensures m in Matches(context, rules) <==> MatchedBy(context, rules, m) {
      MatchesAre(context, rules, m);
    }
  }

  /** Policies over the same set of rules decide from the same match list. */
  lemma SameRulesSameMatches(context: Json, a: seq<Rule>, b: seq<Rule>)
    requires UniqueIds(a) && UniqueIds(b)
    requires forall r | Applies(context, r) :: r in a <==> r in b
    ensures SortByKey(Matches(context, a)) == SortByKey(Matches(context, b))
  {
    MatchListMeans(context, a);
    MatchListMeans(context, b);
    SortedIsUnique(SortByKey(Matches(context, a)), SortByKey(Matches(context, b)));
  }

  /**
   Permuting the rules changes neither whether evaluation fails nor any part of a decision.
   (Which failing rule is named does depend on the order.)
   */
  lemma RuleOrderIsIrrelevant(context: Json, p: Policy, q: Policy)
    requires UniqueIds(p.rules)
    requires q == p.(rules := q.rules) && multiset(p.rules) == multiset(q.rules)
    ensures UniqueIds(q.rules)
    ensures Decide(p, context).Ok? <==> Decide(q, context).Ok?
    ensures Decide(p, context).Ok? ==> Decide(p, context) == Decide(q, context)
  {
    PermutationKeepsUniqueIds(p.rules, q.rules);
    assert forall r :: r in p.rules <==> r in multiset(p.rules);
    assert forall r :: r in q.rules <==> r in multiset(q.rules);
    FailureMeans(context, p.rules);
    FailureMeans(context, q.rules);
    SameRulesSameMatches(context, p.rules, q.rules);
    assert |p.rules| == |multiset(p.rules)| == |multiset(q.rules)| == |q.rules|;
  }

  lemma PermutationKeepsUniqueIds(a: seq<Rule>, b: seq<Rule>)
    requires UniqueIds(a) && multiset(a) == multiset(b)
    ensures UniqueIds(b)
  {
    forall i, j | 0 <= i < j < |b| ensures b[i].id != b[j].id {
      assert b[i] in multiset(b) && b[j] in multiset(b);
      var x :| 0 <= x < |a| && a[x] == b[i];
      var y :| 0 <= y < |a| && a[y] == b[j];
      if b[i] == b[j] {
        OccursTwice(b, i, j);
        OccursOnce(a, x);
      }
    }
  }

  lemma OccursTwice(s: seq<Rule>, i: nat, j: nat)
    requires i < j < |s| && s[i] == s[j]
    ensures multiset(s)[s[i]] >= 2
  {
    assert s == s[..i] + [s[i]] + s[i + 1..j] + [s[j]] + s[j + 1..];
  }

  lemma OccursOnce(s: seq<Rule>, i: nat)
    requires i < |s| && UniqueIds(s)
    ensures multiset(s)[s[i]] == 1
  {
    assert s == s[..i] + [s[i]] + s[i + 1..];
    assert s[i] !in s[..i] && s[i] !in s[i + 1..];
  }

  // ----- Evaluation sees values only up to JSON equality

  predicate ConditionEqual(a: Condition, b: Condition)
  {
    a.field == b.field && a.operator == b.operator && JsonEqual(a.value, b.value)
  }

  lemma AnyEqualRespects(x: Json, x': Json, items: seq<Json>, items': seq<Json>)
    requires JsonEqual(x, x') && |items| == |items'|
    requires forall i | 0 <= i < |items| :: JsonEqual(items[i], items'[i])
    ensures AnyEqual(x, items) == AnyEqual(x', items')
  {
    forall i | 0 <= i < |items| ensures JsonEqual(x, items[i]) == JsonEqual(x', items'[i]) {
      EqualIsCongruent(x, x', items[i], items'[i]);
    }
  }

  /** Equal values have the same shape: what the operators ask of an operand before comparing it. */
  lemma EqualShapes(a: Json, b: Json)
    requires JsonEqual(a, b)
    ensures a.Arr? == b.Arr? && a.Bool? == b.Bool? && IsNumber(a) == IsNumber(b)
    ensures a.Str? == b.Str? && (a.Str? ==> a.text == b.text)
    ensures IsNumber(a) ==> NumberOf(a) == NumberOf(b)
  {
  }

  lemma MembershipRespects(member: Json, member': Json, items: Json, items': Json)
    requires JsonEqual(member, member') && JsonEqual(items, items') && items.Arr?
    ensures items'.Arr? && AnyEqual(member, items.items) == AnyEqual(member', items'.items)
  {
    AnyEqualRespects(member, member', items.items, items'.items);
  }

  lemma SubsetRespects(items: Json, items': Json, allowed: Json, allowed': Json)
    requires JsonEqual(items, items') && JsonEqual(allowed, allowed') && items.Arr? && allowed.Arr?
    ensures items'.Arr? && allowed'.Arr? && AllWithin(items.items, allowed.items) == AllWithin(items'.items, allowed'.items)
  {
    AllWithinRespects(items.items, items'.items, allowed.items, allowed'.items);
  }

  lemma ScalarsRespect(operator: Operator, actual: Json, actual': Json, expected: Json, expected': Json)
    requires actual.Str? == actual'.Str? && actual.Bool? == actual'.Bool? && IsNumber(actual) == IsNumber(actual')
    requires expected.Str? == expected'.Str? && expected.Bool? == expected'.Bool? && IsNumber(expected) == IsNumber(expected')
    requires actual.Str? ==> actual.text == actual'.text
    requires expected.Str? ==> expected.text == expected'.text
    requires IsNumber(actual) ==> NumberOf(actual) == NumberOf(actual')
    requires IsNumber(expected) ==> NumberOf(expected) == NumberOf(expected')
    requires operator in {OpStartsWith, OpEndsWith, OpGt, OpGte, OpLt, OpLte}
    ensures ApplyOperator(operator, actual, expected) == ApplyOperator(operator, actual', expected')
  {
  }

  lemma ApplyRespects(operator: Operator, actual: Json, actual': Json, expected: Json, expected': Json)
    requires JsonEqual(actual, actual') && JsonEqual(expected, expected')
    ensures ApplyOperator(operator, actual, expected) == ApplyOperator(operator, actual', expected')
  {
    if operator in {OpStartsWith, OpEndsWith, OpGt, OpGte, OpLt, OpLte} {
      EqualShapes(actual, actual');
      EqualShapes(expected, expected');
      ScalarsRespect(operator, actual, actual', expected, expected');
    } else if operator in {OpEq, OpNeq} {
      EqualIsCongruent(actual, actual', expected, expected');
    } else if operator in {OpIn, OpNotIn} {
      EqualShapes(expected, expected');
      if expected.Arr? { MembershipRespects(actual, actual', expected, expected'); }
    } else if operator in {OpContains, OpNotContains} {
      EqualShapes(actual, actual');
      if actual.Arr? { MembershipRespects(expected, expected', actual, actual'); }
    } else if operator.OpSubsetOf? {
      EqualShapes(actual, actual');
      EqualShapes(expected, expected');
      if actual.Arr? && expected.Arr? { SubsetRespects(actual, actual', expected, expected'); }
    }
  }

  lemma AllWithinRespects(items: seq<Json>, items': seq<Json>, allowed: seq<Json>, allowed': seq<Json>)
    requires |items| == |items'| && forall i | 0 <= i < |items| :: JsonEqual(items[i], items'[i])
    requires |allowed| == |allowed'| && forall i | 0 <= i < |allowed| :: JsonEqual(allowed[i], allowed'[i])
    ensures AllWithin(items, allowed) == AllWithin(items', allowed')
  {
    forall i | 0 <= i < |items| ensures AnyEqual(items[i], allowed) == AnyEqual(items'[i], allowed') {
      AnyEqualRespects(items[i], items'[i], allowed, allowed');
    }
  }

  lemma EqualReferences(a: Json, b: Json)
    requires JsonEqual(a, b)
    ensures IsReference(a) <==> IsReference(b)
    ensures IsReference(a) ==> ReferencePath(a) == ReferencePath(b)
  {
    if IsReference(a) {
      assert "$ref" in a.fields && JsonEqual(a.fields["$ref"], b.fields["$ref"]);
    }
    if IsReference(b) {
      assert "$ref" in a.fields && JsonEqual(a.fields["$ref"], b.fields["$ref"]);
    }
  }

  /** Equal conditions on equal contexts give the same result, and the same error when they fail. */
  lemma EvaluationRespectsEqual(context: Json, context': Json, c: Condition, c': Condition)
    requires JsonEqual(context, context') && ConditionEqual(c, c')
    ensures EvaluateCondition(context, c) == EvaluateCondition(context', c')
  {
    LookupRespectsEqual(context, context', Split(c.field));
    EqualReferences(c.value, c'.value);
    if IsReference(c.value) {
      LookupRespectsEqual(context, context', Split(ReferencePath(c.value)));
    }
    var expected, expected' := ResolvedExpected(context, c), ResolvedExpected(context', c');
    if At(context, c.field).Some? && expected.Ok? {
      ApplyRespects(c.operator, At(context, c.field).value, At(context', c.field).value, expected.value, expected'.value);
    }
  }

  lemma {:induction false} RuleRespectsEqual(context: Json, context': Json, conditions: seq<Condition>)
    requires JsonEqual(context, context')
    ensures RuleResult(context, conditions) == RuleResult(context', conditions)
  {
    if conditions != [] {
      EqualIsReflexive(conditions[0].value);
      EvaluationRespectsEqual(context, context', conditions[0], conditions[0]);
      RuleRespectsEqual(context, context', conditions[1..]);
    }
  }

  lemma {:induction false} MatchesRespectEqual(context: Json, context': Json, rules: seq<Rule>)
    requires JsonEqual(context, context')
    ensures Matches(context, rules) == Matches(context', rules)
    ensures FirstFailure(context, rules) == FirstFailure(context', rules)
  {
    if rules != [] {
      RuleRespectsEqual(context, context', rules[0].conditions);
      MatchesRespectEqual(context, context', rules[1..]);
    }
  }

  /** No policy tells apart two contexts that are equal as JSON, whether it decides or fails. */
  lemma DecisionRespectsEqual(context: Json, context': Json, policy: Policy)
    requires JsonEqual(context, context')
    ensures Decide(policy, context) == Decide(policy, context')
  {
    MatchesRespectEqual(context, context', policy.rules);
  }

  // ----- Explanations

  /** MATCHED strictly before `stop`, NOT_MATCHED at it, NOT_EVALUATED strictly after it. */
  predicate StopsAt(trace: seq<ConditionStatus>, stop: nat)
  {
    && stop <= |trace|
    && (forall i | 0 <= i < stop :: trace[i] == Matched)
    && (stop < |trace| ==> trace[stop] == NotMatched)
    && forall i | stop < i < |trace| :: trace[i] == NotEvaluated
  }

  /** The trace of a rule that does not fail stops at its first false condition. */
  lemma {:induction false} TraceShape(context: Json, conditions: seq<Condition>) returns (stop: nat)
    requires RuleResult(context, conditions).Ok?
    ensures |Trace(context, conditions)| == |conditions|
    ensures StopsAt(Trace(context, conditions), stop)
    ensures stop == |conditions| <==> RuleResult(context, conditions) == Ok(true)
    ensures forall i | 0 <= i < stop :: EvaluateCondition(context, conditions[i]) == Ok(true)
    ensures stop < |conditions| ==> EvaluateCondition(context, conditions[stop]) == Ok(false)
  {
    if conditions == [] {
      stop := 0;
    } else if EvaluateCondition(context, conditions[0]) == Ok(true) {
      var rest := TraceShape(context, conditions[1..]);
      stop := rest + 1;
      assert forall i | 1 <= i < |conditions| :: conditions[i] == conditions[1..][i - 1];
      var trace := Trace(context, conditions);
      assert forall i | 1 <= i < |trace| :: trace[i] == Trace(context, conditions[1..])[i - 1];
    } else {
      stop := 0;
    }
  }

  /** One rule of an explanation agrees with how the engine evaluates that rule. */
  predicate ExplainsRule(context: Json, r: Rule, e: RuleExplanation)
  {
    && e.ruleId == r.id && e.effect == r.effect && e.priority == r.priority
    && (e.matched <==> Applies(context, r))
    && |e.conditions| == |r.conditions|
    && (e.matched ==> forall i | 0 <= i < |e.conditions| :: e.conditions[i] == Matched)
    && (!e.matched ==> exists stop :: 0 <= stop < |e.conditions| && StopsAt(e.conditions, stop))
  }

  lemma NoFailure(context: Json, rules: seq<Rule>, i: nat)
    requires FirstFailure(context, rules).None? && i < |rules|
    ensures RuleResult(context, rules[i].conditions).Ok?
  {
    FailureMeans(context, rules);
    assert rules[i] in rules;
  }

  lemma IdIsListed(matched: seq<MatchedRule>, id: string)
    ensures id in IdsOf(matched) <==> exists m :: m in matched && m.id == id
  {
    if id in IdsOf(matched) {
      var i :| 0 <= i < |matched| && IdsOf(matched)[i] == id;
      assert matched[i] in matched;
    }
    if exists m :: m in matched && m.id == id {
      var m :| m in matched && m.id == id;
      var i :| 0 <= i < |matched| && matched[i] == m;
      assert IdsOf(matched)[i] == id;
    }
  }

  /** A rule's id is in the match list exactly when that rule applies. */
  lemma ListedMeansApplies(context: Json, rules: seq<Rule>, i: nat)
    requires UniqueIds(rules) && i < |rules|
    ensures rules[i].id in IdsOf(SortByKey(Matches(context, rules))) <==> Applies(context, rules[i])
  {
    var matched := SortByKey(Matches(context, rules));
    MatchListMeans(context, rules);
    IdIsListed(matched, rules[i].id);
    if rules[i].id in IdsOf(matched) {
      var m :| m in matched && m.id == rules[i].id;
      var r :| r in rules && Applies(context, r) && MatchOf(r) == m;
      var j :| 0 <= j < |rules| && rules[j] == r;
      assert j == i;
    }
    if Applies(context, rules[i]) {
      assert rules[i] in rules;
      assert MatchOf(rules[i]) in matched;
    }
  }

  /** `explain` refines `evaluate`: same failures, same outcome and matches, and truthful traces. */
  lemma ExplainRefinesEvaluate(policy: Policy, contract: Option<Contracts.Contract>, context: Json)
    requires UniqueIds(policy.rules)
    ensures Explained(policy, contract, context).Err? <==> Evaluation(policy, contract, context).Err?
    ensures Explained(policy, contract, context).Err? ==>
              Explained(policy, contract, context).error == Evaluation(policy, contract, context).error
    ensures Explained(policy, contract, context).Ok? ==>
              var e, d := Explained(policy, contract, context).value, Evaluation(policy, contract, context).value;
              && e.outcome == d.outcome && e.matchedRuleIds == d.matchedRules
              && |e.rules| == |policy.rules|
              && forall i | 0 <= i < |e.rules| :: ExplainsRule(context, policy.rules[i], e.rules[i])
  {
    if Explained(policy, contract, context).Ok? {
      var e := Explained(policy, contract, context).value;
      forall i | 0 <= i < |e.rules| ensures ExplainsRule(context, policy.rules[i], e.rules[i]) {
        NoFailure(context, policy.rules, i);
        var stop := TraceShape(context, policy.rules[i].conditions);
        ListedMeansApplies(context, policy.rules, i);
      }
    }
  }
}
