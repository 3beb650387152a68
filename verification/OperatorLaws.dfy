/** What the operators mean, independently of how the evaluator branches, and what a decision reports. */
module OperatorLaws {
  import opened Wrappers
  import opened Strings
  import opened JsonValues
  import opened Models
  import opened Engine

  function Opposite(operator: Operator): Operator
  {
    match operator
    case OpEq => OpNeq
    case OpNeq => OpEq
    case OpIn => OpNotIn
    case OpNotIn => OpIn
    case OpContains => OpNotContains
    case OpNotContains => OpContains
    case OpGt => OpLte
    case OpLte => OpGt
    case OpLt => OpGte
    case OpGte => OpLt
    case OpExists => OpNotExists
    case OpNotExists => OpExists
    case other => other
  }

  predicate HasOpposite(operator: Operator)
  {
    Opposite(operator) != operator
  }

  /** On a present field, opposite operators fail on the same operands with the same error and otherwise disagree. */
  lemma OppositesDisagree(operator: Operator, actual: Json, expected: Json)
    requires HasOpposite(operator)
    ensures match (ApplyOperator(operator, actual, expected), ApplyOperator(Opposite(operator), actual, expected))
            case (Ok(a), Ok(b)) => a == !b
            case (Err(a), Err(b)) => a == b
            case (_, _) => false
  {
    if actual.Str? && expected.Str? {
      LessIsStrict(actual.text, expected.text);
    }
  }

  /** On an absent field only `not_exists` holds, and nothing fails, whatever the operand refers to. */
  lemma AbsentFieldDecides(context: Json, c: Condition)
    requires At(context, c.field).None?
    ensures EvaluateCondition(context, c) == Ok(c.operator.OpNotExists?)
  {
  }

  predicate Comparable(a: Json, b: Json)
  {
    (IsNumber(a) && IsNumber(b)) || (a.Str? && b.Str?)
  }

  /** The comparisons are one strict total order on numbers, and one on strings; nothing else compares. */
  lemma ComparisonsAreAnOrder(a: Json, b: Json, c: Json)
    ensures ApplyOperator(OpLt, a, b).Ok? <==> Comparable(a, b)
    ensures ApplyOperator(OpGt, a, b) == ApplyOperator(OpLt, b, a)
    ensures ApplyOperator(OpGte, a, b) == ApplyOperator(OpLte, b, a)
    ensures Comparable(a, b) ==> (ApplyOperator(OpLte, a, b) == Ok(true) <==> ApplyOperator(OpLt, a, b) == Ok(true) || JsonEqual(a, b))
    ensures Comparable(a, b) ==> ApplyOperator(OpLt, a, b) == Ok(true) || JsonEqual(a, b) || ApplyOperator(OpLt, b, a) == Ok(true)
    ensures !(ApplyOperator(OpLt, a, b) == Ok(true) && ApplyOperator(OpLt, b, a) == Ok(true))
    ensures ApplyOperator(OpLt, a, b) == Ok(true) && ApplyOperator(OpLt, b, c) == Ok(true) ==> ApplyOperator(OpLt, a, c) == Ok(true)
    ensures IsNumber(a) && IsNumber(b) ==> ApplyOperator(OpLt, a, b) == Ok(NumberOf(a) < NumberOf(b))
  {
    if a.Str? && b.Str? {
      LessIsStrict(a.text, b.text);
      if c.Str? && Less(a.text, b.text) && Less(b.text, c.text) {
        LessIsTransitive(a.text, b.text, c.text);
      }
    }
  }

  /** `contains` is `in` read the other way round. */
  lemma ContainsIsInReversed(a: Json, b: Json)
    ensures ApplyOperator(OpContains, a, b) == ApplyOperator(OpIn, b, a)
    ensures ApplyOperator(OpNotContains, a, b) == ApplyOperator(OpNotIn, b, a)
  {
  }

  /** `subset_of` is inclusion: whatever the smaller array contains, up to equality, the larger contains. */
  lemma SubsetIsInclusion(a: Json, b: Json)
    requires a.Arr? && b.Arr?
    ensures ApplyOperator(OpSubsetOf, a, b) == Ok(true)
       <==> forall v :: ApplyOperator(OpIn, v, a) == Ok(true) ==> ApplyOperator(OpIn, v, b) == Ok(true)
  {
    if AllWithin(a.items, b.items) {
      forall v | AnyEqual(v, a.items) ensures AnyEqual(v, b.items) {
        var i :| 0 <= i < |a.items| && JsonEqual(v, a.items[i]);
        var j :| 0 <= j < |b.items| && JsonEqual(a.items[i], b.items[j]);
        EqualIsTransitive(v, a.items[i], b.items[j]);
      }
      assert forall v :: ApplyOperator(OpIn, v, a) == Ok(true) ==> AnyEqual(v, a.items);
    } else {
      var i :| 0 <= i < |a.items| && !AnyEqual(a.items[i], b.items);
      EqualIsReflexive(a.items[i]);
      assert AnyEqual(a.items[i], a.items);
      assert ApplyOperator(OpIn, a.items[i], a) == Ok(true);
    }
  }

  /** `starts_with` and `ends_with` say that the rest of the text exists. */
  lemma AffixesSplitTheText(a: Json, b: Json)
    requires a.Str? && b.Str?
    ensures ApplyOperator(OpStartsWith, a, b) == Ok(true) <==> exists rest :: a.text == b.text + rest
    ensures ApplyOperator(OpEndsWith, a, b) == Ok(true) <==> exists rest :: a.text == rest + b.text
  {
    if b.text <= a.text {
      assert a.text == b.text + a.text[|b.text|..];
    }
    if EndsWith(a.text, b.text) {
      assert a.text == a.text[..|a.text| - |b.text|] + b.text;
    }
    if rest :| a.text == rest + b.text {
      assert a.text[|a.text| - |b.text|..] == b.text;
    }
  }

  lemma {:induction false} MatchedWithMeans(matched: seq<MatchedRule>, effect: Effect, m: MatchedRule)
    ensures m in MatchedWith(matched, effect) <==> m in matched && m.effect == effect
  {
    if matched != [] {
      MatchedWithMeans(matched[1..], effect, m);
      assert matched == [matched[0]] + matched[1..];
    }
  }

  predicate Matching(matched: seq<MatchedRule>, effect: Effect)
  {
    exists m :: m in matched && m.effect == effect
  }

  lemma DecidingIsMatching(matched: seq<MatchedRule>, effect: Effect)
    ensures MatchedWith(matched, effect) != [] <==> Matching(matched, effect)
  {
    var found := MatchedWith(matched, effect);
    if found != [] {
      MatchedWithMeans(matched, effect, found[0]);
      assert found[0] in found;
    }
    if m :| m in matched && m.effect == effect {
      MatchedWithMeans(matched, effect, m);
    }
  }

  /** Deny beats review, review beats allow, and any of them beats the default. */
  lemma Precedence(matched: seq<MatchedRule>, default: Outcome)
    ensures Matching(matched, EffectDeny) ==> OutcomeFor(matched, default).OutcomeDeny?
    ensures !Matching(matched, EffectDeny) && Matching(matched, EffectReview) ==> OutcomeFor(matched, default).OutcomeReview?
    ensures !Matching(matched, EffectDeny) && !Matching(matched, EffectReview) ==>
              OutcomeFor(matched, default) == if Matching(matched, EffectAllow) then OutcomeAllow else default
  {
    hide Matching;
    IndexedMatching(matched, EffectDeny);
    IndexedMatching(matched, EffectReview);
    IndexedMatching(matched, EffectAllow);
  }

  lemma IndexedMatching(matched: seq<MatchedRule>, effect: Effect)
    ensures Matching(matched, effect) <==> exists i | 0 <= i < |matched| :: matched[i].effect == effect
  {
    if i :| 0 <= i < |matched| && matched[i].effect == effect {
      assert matched[i] in matched;
    }
  }

  /** The default is reported exactly when no decisive rule matched; otherwise every reason is a deciding rule's. */
  lemma OutcomeIsExplained(matched: seq<MatchedRule>, default: Outcome)
    ensures var outcome := OutcomeFor(matched, default);
            var decisive := Matching(matched, EffectDeny) || Matching(matched, EffectReview) || Matching(matched, EffectAllow);
            && (decisive ==> Matching(matched, DecidingEffect(outcome)))
            && (decisive ==> forall r | r in ReasonsFor(matched, outcome) :: !r.DefaultApplied?)
            && (!decisive ==> outcome == default && ReasonsFor(matched, outcome) == [DefaultApplied(default)])
  {
    hide Matching, OutcomeFor;
    Precedence(matched, default);
    DecidingIsMatching(matched, DecidingEffect(OutcomeFor(matched, default)));
  }

  /** The author's message, or failing that a text naming the rule. */
  function ReasonOf(m: MatchedRule): Reason
  {
    if m.message != "" then Given(m.message)
    else if m.effect.EffectWarn? then WarningMatched(m.id)
    else RuleMatched(m.id, m.effect)
  }

  predicate ReasonGiven(matched: seq<MatchedRule>, effect: Effect, r: Reason)
  {
    exists m :: m in matched && m.effect == effect && ReasonOf(m) == r
  }

  predicate ReasonAmong(found: seq<MatchedRule>, r: Reason)
  {
    exists i | 0 <= i < |found| :: ReasonOf(found[i]) == r
  }

  lemma ReasonOfSome(matched: seq<MatchedRule>, effect: Effect, r: Reason)
    ensures ReasonAmong(MatchedWith(matched, effect), r) <==> ReasonGiven(matched, effect, r)
  {
    hide ReasonOf;
    var found := MatchedWith(matched, effect);
    if ReasonAmong(found, r) {
      var i :| 0 <= i < |found| && ReasonOf(found[i]) == r;
      MatchedWithMeans(matched, effect, found[i]);
      assert found[i] in found;
    }
    if ReasonGiven(matched, effect, r) {
      var m :| m in matched && m.effect == effect && ReasonOf(m) == r;
      MatchedWithMeans(matched, effect, m);
      var i :| 0 <= i < |found| && found[i] == m;
      assert ReasonOf(found[i]) == r;
    }
  }

  /** The warnings are those of the matching warn rules, whatever the outcome. */
  lemma WarningsAreOfWarnRules(matched: seq<MatchedRule>, r: Reason)
    ensures r in WarningsFor(matched) <==> ReasonGiven(matched, EffectWarn, r)
  {
    ReasonOfSome(matched, EffectWarn, r);
    var found, warnings := MatchedWith(matched, EffectWarn), WarningsFor(matched);
    forall i | 0 <= i < |found| ensures warnings[i] == ReasonOf(found[i]) {
      MatchedWithMeans(matched, EffectWarn, found[i]);
      assert found[i] in found;
    }
    assert |warnings| == |found|;
  }

  /** When a decisive rule matched, the reasons are those of the matching rules with the winning effect. */
  lemma ReasonsAreOfDecidingRules(matched: seq<MatchedRule>, outcome: Outcome, r: Reason)
    requires Matching(matched, DecidingEffect(outcome))
    ensures r in ReasonsFor(matched, outcome) <==> ReasonGiven(matched, DecidingEffect(outcome), r)
  {
    var effect := DecidingEffect(outcome);
    DecidingIsMatching(matched, effect);
    ReasonOfSome(matched, effect, r);
    var found, reasons := MatchedWith(matched, effect), ReasonsFor(matched, outcome);
    forall i | 0 <= i < |found| ensures reasons[i] == ReasonOf(found[i]) {
      MatchedWithMeans(matched, effect, found[i]);
      assert found[i] in found;
    }
    assert |reasons| == |found|;
  }
}
