/** What a decision and an explanation say about the policy's own rules, whatever is computed on the way. */
module DecisionLaws {
  import opened Wrappers
  import opened Strings
  import opened JsonValues
  import opened JsonBounds
  import opened Models
  import opened Contracts
  import opened Engine
  import opened EngineLaws
  import opened OperatorLaws

  predicate SomeApplies(context: Json, rules: seq<Rule>, effect: Effect)
  {
    exists r :: r in rules && r.effect == effect && Applies(context, r)
  }

  /** The effects of the match list are those of the applying rules. */
  lemma MatchingIsApplying(context: Json, rules: seq<Rule>, effect: Effect)
    requires UniqueIds(rules)
    ensures Matching(SortByKey(Matches(context, rules)), effect) <==> SomeApplies(context, rules, effect)
  {
    MatchListMeans(context, rules);
    var matched := SortByKey(Matches(context, rules));
    if SomeApplies(context, rules, effect) {
      var r :| r in rules && r.effect == effect && Applies(context, r);
      assert MatchedBy(context, rules, MatchOf(r));
    }
  }

  /** What the rules that apply demand: deny before review before allow before the default. */
  predicate Demands(context: Json, policy: Policy, outcome: Outcome)
  {
    var deny := SomeApplies(context, policy.rules, EffectDeny);
    var review := SomeApplies(context, policy.rules, EffectReview);
    var allow := SomeApplies(context, policy.rules, EffectAllow);
    var undecided := !deny && !review && !allow;
    match outcome
    case OutcomeDeny => deny || (undecided && policy.defaultEffect.OutcomeDeny?)
    case OutcomeReview => !deny && (review || (undecided && policy.defaultEffect.OutcomeReview?))
    case OutcomeAllow => !deny && !review && (allow || policy.defaultEffect.OutcomeAllow?)
  }

  /**
   A decision names its policy, carries the outcome that the applying rules demand, and allows exactly when
   no deny or review rule applies and an allow rule does, or none and the default allows.
   */
  lemma DecisionIsOfRules(policy: Policy, contract: Option<Contract>, context: Json, d: Decision)
    requires UniqueIds(policy.rules) && Evaluation(policy, contract, context) == Ok(d)
    ensures d.policyId == policy.id && d.policyVersion == policy.version && d.evaluatedRules == |policy.rules|
    ensures forall outcome :: d.outcome == outcome <==> Demands(context, policy, outcome)
    ensures d.allowed <==>
              && !SomeApplies(context, policy.rules, EffectDeny) && !SomeApplies(context, policy.rules, EffectReview)
              && (SomeApplies(context, policy.rules, EffectAllow) || policy.defaultEffect.OutcomeAllow?)
  {
    MatchingIsApplying(context, policy.rules, EffectDeny);
    MatchingIsApplying(context, policy.rules, EffectReview);
    MatchingIsApplying(context, policy.rules, EffectAllow);
    Precedence(SortByKey(Matches(context, policy.rules)), policy.defaultEffect);
    hide Matching, OutcomeFor, SomeApplies, FirstFailure, SortByKey, Matches;
  }

  /**
   The input boundary comes first, for decisions and explanations alike: without a contract the bounded JSON objects
   pass, and with one those of them that have every declared fact as declared.
   */
  lemma InputBoundary(policy: Policy, contract: Option<Contract>, context: Json)
    ensures Evaluation(policy, contract, context) == Err(InvalidInput)
            <==> !(context.Obj? && ShapeOk(context) && (contract.Some? ==> AsDeclared(contract.value, context)))
    ensures Explained(policy, contract, context) == Err(InvalidInput)
            <==> Evaluation(policy, contract, context) == Err(InvalidInput)
  {
    hide ShapeOk, FirstFailure, Matches, SortByKey, Traces, FieldAccepted, FactAsDeclared;
    if contract.Some? {
      forall path | path in contract.value.fields
        ensures FieldAccepted(context, path, contract.value.fields[path])
                <==> FactAsDeclared(context, path, contract.value.fields[path])
      {
        FactIsAccepted(context, path, contract.value.fields[path]);
      }
    }
  }

  predicate AsDeclared(contract: Contract, context: Json)
  {
    forall path | path in contract.fields :: FactAsDeclared(context, path, contract.fields[path])
  }

  /** A required fact is there; a fact that is there, and each of its items, has the declared type. */
  predicate FactAsDeclared(context: Json, path: string, field: ContextField)
  {
    var found := At(context, path);
    && (field.required ==> found.Some?)
    && (found.Some? ==> HasType(found.value, field.fieldType))
    && (found.Some? && field.items.Some? ==>
          found.value.Arr? && forall item | item in found.value.items :: HasType(item, field.items.value))
  }

  lemma FactIsAccepted(context: Json, path: string, field: ContextField)
    ensures FieldAccepted(context, path, field) <==> FactAsDeclared(context, path, field)
  {
    if At(context, path).Some? && At(context, path).value.Arr? && field.items.Some? {
      var items := At(context, path).value.items;
      forall i | 0 <= i < |items|
        ensures MatchesType(items[i], field.items.value) <==> HasType(items[i], field.items.value)
        ensures items[i] in items
      {
      }
    }
  }

  /** The value's own type is the wanted one, or an integer is wanted as a number. */
  predicate HasType(v: Json, wanted: FieldType)
  {
    ValueType(v) == wanted || (ValueType(v).TypeInteger? && wanted.TypeNumber?)
  }

  // ----- Which rules are listed, and in which order

  /** Code points decide at the first difference, and a text comes before its continuations. */
  predicate TextBefore(a: string, b: string)
  {
    exists n | 0 <= n < |b| ::
      n <= |a| && a[..n] == b[..n] && (n == |a| || a[n] < b[n])
  }

  lemma {:induction false} LessIsTextBefore(a: string, b: string)
    ensures Less(a, b) <==> TextBefore(a, b)
    decreases |a|
  {
    if a != [] && b != [] {
      if a[0] == b[0] {
        LessIsTextBefore(a[1..], b[1..]);
        SameHead(a, b);
      } else {
        BeforeByHead(a, b);
      }
    } else if b != [] {
      assert a[..0] == b[..0];
    }
  }

  lemma SameHead(a: string, b: string)
    requires a != [] && b != [] && a[0] == b[0]
    ensures TextBefore(a, b) <==> TextBefore(a[1..], b[1..])
  {
    hide TextBefore;
    if TextBefore(a[1..], b[1..]) {
      BeforeByTail(a, b);
    }
    if TextBefore(a, b) {
      BeforeInTail(a, b);
    }
  }

  lemma BeforeByTail(a: string, b: string)
    requires a != [] && b != [] && a[0] == b[0] && TextBefore(a[1..], b[1..])
    ensures TextBefore(a, b)
  {
    var n :| 0 <= n < |b[1..]| && n <= |a[1..]| && a[1..][..n] == b[1..][..n] && (n == |a[1..]| || a[1..][n] < b[1..][n]);
    assert a[..n + 1] == [a[0]] + a[1..][..n] && b[..n + 1] == [b[0]] + b[1..][..n];
  }

  lemma BeforeInTail(a: string, b: string)
    requires a != [] && b != [] && a[0] == b[0] && TextBefore(a, b)
    ensures TextBefore(a[1..], b[1..])
  {
    var n :| 0 <= n < |b| && n <= |a| && a[..n] == b[..n] && (n == |a| || a[n] < b[n]);
    assert n > 0;
    assert a[1..][..n - 1] == a[..n][1..] == b[..n][1..] == b[1..][..n - 1];
  }

  lemma BeforeByHead(a: string, b: string)
    requires a != [] && b != [] && a[0] != b[0]
    ensures TextBefore(a, b) <==> a[0] < b[0]
  {
    assert a[..0] == b[..0];
    if n :| 0 <= n < |b| && n <= |a| && a[..n] == b[..n] && (n == |a| || a[n] < b[n]) {
      FirstOfPrefix(a, b, n);
    }
  }

  lemma FirstOfPrefix(a: string, b: string, n: nat)
    requires n <= |a| && n <= |b| && a[..n] == b[..n]
    ensures n > 0 ==> a[0] == b[0]
  {
    if n > 0 {
      assert a[..n][0] == b[..n][0];
    }
  }

  /** A lower priority number comes first; among equals, the smaller id. */
  predicate RuleBefore(r: Rule, s: Rule)
  {
    r.priority < s.priority || (r.priority == s.priority && TextBefore(r.id, s.id))
  }

  /** Exactly the wanted rules that apply, each once, by priority and then by id. */
  ghost predicate Lists(context: Json, rules: seq<Rule>, wanted: set<Effect>, listed: seq<Rule>)
  {
    && (forall r :: r in listed <==> r in rules && r.effect in wanted && Applies(context, r))
    && forall i, j | 0 <= i < j < |listed| :: RuleBefore(listed[i], listed[j])
  }

  const ALL_EFFECTS := {EffectAllow, EffectDeny, EffectReview, EffectWarn, EffectAudit}

  lemma EveryEffect(effect: Effect)
    ensures effect in ALL_EFFECTS
  {
  }

  /** The effect that a decision with this outcome is due to. */
  function WinningEffect(outcome: Outcome): (effect: Effect)
    ensures effect == DecidingEffect(outcome)
  {
    if outcome.OutcomeAllow? then EffectAllow else if outcome.OutcomeDeny? then EffectDeny else EffectReview
  }

  /** The text a rule contributes: its message, or failing that one that names it. */
  function ReasonOfRule(r: Rule): Reason
  {
    if r.message != "" then Given(r.message)
    else if r.effect.EffectWarn? then WarningMatched(r.id)
    else RuleMatched(r.id, r.effect)
  }

  function Ids(listed: seq<Rule>): seq<string>
  {
    seq(|listed|, i requires 0 <= i < |listed| => listed[i].id)
  }

  function Texts(listed: seq<Rule>): seq<Reason>
  {
    seq(|listed|, i requires 0 <= i < |listed| => ReasonOfRule(listed[i]))
  }

  /** The rules behind a sorted list of matches. */
  lemma {:induction false} RulesBehind(context: Json, rules: seq<Rule>, found: seq<MatchedRule>) returns (listed: seq<Rule>)
    requires forall m | m in found :: MatchedBy(context, rules, m)
    ensures |listed| == |found|
    ensures forall i | 0 <= i < |found| :: listed[i] in rules && Applies(context, listed[i]) && MatchOf(listed[i]) == found[i]
  {
    hide Applies;
    listed := [];
    for n := 0 to |found|
      invariant |listed| == n
      invariant forall i | 0 <= i < n :: listed[i] in rules && Applies(context, listed[i]) && MatchOf(listed[i]) == found[i]
    {
      assert found[n] in found;
      var r :| r in rules && Applies(context, r) && MatchOf(r) == found[n];
      listed := listed + [r];
    }
  }

  lemma SameMatchSameRule(rules: seq<Rule>, r: Rule, s: Rule)
    requires UniqueIds(rules) && r in rules && s in rules && MatchOf(r) == MatchOf(s)
    ensures r == s
  {
    var x :| 0 <= x < |rules| && rules[x] == r;
    var y :| 0 <= y < |rules| && rules[y] == s;
  }

  /** A sorted list of exactly the matches of some wanted rules lists those rules. */
  lemma ListsFound(context: Json, rules: seq<Rule>, wanted: set<Effect>, found: seq<MatchedRule>) returns (listed: seq<Rule>)
    requires UniqueIds(rules) && StrictlySorted(found)
    requires forall m :: m in found <==> MatchedBy(context, rules, m) && m.effect in wanted
    ensures Lists(context, rules, wanted, listed)
    ensures IdsOf(found) == Ids(listed) && |listed| == |found|
    ensures forall i | 0 <= i < |found| :: MatchOf(listed[i]) == found[i]
  {
    hide Applies, UniqueIds;
    listed := RulesBehind(context, rules, found);
    forall r | r in rules && r.effect in wanted && Applies(context, r) ensures r in listed {
      assert MatchedBy(context, rules, MatchOf(r));
      assert MatchOf(r) in found;
      var i :| 0 <= i < |found| && found[i] == MatchOf(r);
      SameMatchSameRule(rules, r, listed[i]);
    }
    forall r | r in listed ensures r.effect in wanted {
      var i :| 0 <= i < |listed| && listed[i] == r;
      assert found[i] in found;
    }
    forall i, j | 0 <= i < j < |listed| ensures RuleBefore(listed[i], listed[j]) {
      assert KeyLess(found[i], found[j]);
      LessIsTextBefore(listed[i].id, listed[j].id);
    }
  }

  lemma {:induction false} MatchedWithSorted(matched: seq<MatchedRule>, effect: Effect)
    requires StrictlySorted(matched)
    ensures StrictlySorted(MatchedWith(matched, effect))
  {
    if matched != [] {
      var rest := MatchedWith(matched[1..], effect);
      MatchedWithSorted(matched[1..], effect);
      forall i | 0 <= i < |rest| ensures KeyLess(matched[0], rest[i]) {
        MatchedWithMeans(matched[1..], effect, rest[i]);
        var k :| 0 <= k < |matched[1..]| && matched[1..][k] == rest[i];
        assert matched[k + 1] == rest[i];
      }
    }
  }

  lemma ListsMatched(context: Json, rules: seq<Rule>) returns (listed: seq<Rule>)
    requires UniqueIds(rules)
    ensures Lists(context, rules, ALL_EFFECTS, listed) && IdsOf(SortByKey(Matches(context, rules))) == Ids(listed)
  {
    MatchListMeans(context, rules);
    hide Lists, SortByKey, Matches, Ids;
    forall m: MatchedRule ensures m.effect in ALL_EFFECTS {
      EveryEffect(m.effect);
    }
    listed := ListsFound(context, rules, ALL_EFFECTS, SortByKey(Matches(context, rules)));
  }

  lemma ListsMatchedWith(context: Json, rules: seq<Rule>, effect: Effect) returns (listed: seq<Rule>)
    requires UniqueIds(rules)
    ensures var found := MatchedWith(SortByKey(Matches(context, rules)), effect);
            && Lists(context, rules, {effect}, listed) && IdsOf(found) == Ids(listed) && |listed| == |found|
            && forall i | 0 <= i < |found| :: MatchOf(listed[i]) == found[i]
  {
    var matched := SortByKey(Matches(context, rules));
    MatchListMeans(context, rules);
    MatchedWithSorted(matched, effect);
    hide Lists, SortByKey, Matches, Ids, MatchedWith, StrictlySorted;
    forall m ensures m in MatchedWith(matched, effect) <==> MatchedBy(context, rules, m) && m.effect in {effect} {
      MatchedWithMeans(matched, effect, m);
    }
    listed := ListsFound(context, rules, {effect}, MatchedWith(matched, effect));
  }

  /**
   The matched ids are those of the applying rules; the warnings are the texts of the warn rules among them; the reasons
   are the texts of those with the winning effect, or the default if there are none: each in order, each once.
   */
  lemma DecisionListsRules(policy: Policy, contract: Option<Contract>, context: Json, d: Decision)
    returns (matched: seq<Rule>, warning: seq<Rule>, deciding: seq<Rule>)
    requires UniqueIds(policy.rules) && Evaluation(policy, contract, context) == Ok(d)
    ensures Lists(context, policy.rules, ALL_EFFECTS, matched) && d.matchedRules == Ids(matched)
    ensures Lists(context, policy.rules, {EffectWarn}, warning) && d.warnings == Texts(warning)
    ensures Lists(context, policy.rules, {WinningEffect(d.outcome)}, deciding)
    ensures d.reasons == if deciding == [] then [DefaultApplied(d.outcome)] else Texts(deciding)
  {
    hide Lists, Ids;
    matched := ListsMatched(context, policy.rules);
    warning := ListsMatchedWith(context, policy.rules, EffectWarn);
    deciding := ListsMatchedWith(context, policy.rules, WinningEffect(d.outcome));
    ListsWithEffect(context, policy.rules, EffectWarn, warning);
    ListsWithEffect(context, policy.rules, WinningEffect(d.outcome), deciding);
    hide SortByKey, Matches, MatchedWith, FirstFailure;
    assert d.warnings == Texts(warning);
    if deciding != [] {
      assert d.reasons == Texts(deciding);
    }
  }

  lemma ListsWithEffect(context: Json, rules: seq<Rule>, effect: Effect, listed: seq<Rule>)
    requires Lists(context, rules, {effect}, listed)
    ensures forall i | 0 <= i < |listed| :: listed[i].effect == effect
  {
    forall i | 0 <= i < |listed| ensures listed[i].effect == effect {
      assert listed[i] in listed;
    }
  }

  /** A rule list is determined: there is one in order. */
  lemma {:induction false} OneListing(context: Json, rules: seq<Rule>, wanted: set<Effect>, a: seq<Rule>, b: seq<Rule>)
    requires Lists(context, rules, wanted, a) && Lists(context, rules, wanted, b)
    ensures a == b
  {
    SortedSame(a, b);
  }

  lemma RuleBeforeIsStrict(r: Rule, s: Rule)
    ensures !(RuleBefore(r, s) && RuleBefore(s, r))
  {
    LessIsTextBefore(r.id, s.id);
    LessIsTextBefore(s.id, r.id);
    LessIsStrict(r.id, s.id);
  }

  lemma {:induction false} SortedSame(a: seq<Rule>, b: seq<Rule>)
    requires forall r :: r in a <==> r in b
    requires forall i, j | 0 <= i < j < |a| :: RuleBefore(a[i], a[j])
    requires forall i, j | 0 <= i < j < |b| :: RuleBefore(b[i], b[j])
    ensures a == b
    decreases |a|
  {
    hide RuleBefore;
    BothOrNone(a, b);
    if a != [] && b != [] {
      assert a[0] in b && b[0] in a;
      var i :| 0 <= i < |a| && a[i] == b[0];
      var j :| 0 <= j < |b| && b[j] == a[0];
      RuleBeforeIsStrict(a[0], b[0]);
      assert a[0] == b[0];
      forall r ensures r in a[1..] <==> r in b[1..] {
        TailOfSorted(a, r);
        TailOfSorted(b, r);
      }
      SortedSame(a[1..], b[1..]);
      assert a == [a[0]] + a[1..] && b == [b[0]] + b[1..];
    }
  }

  lemma BothOrNone(a: seq<Rule>, b: seq<Rule>)
    requires forall r :: r in a <==> r in b
    ensures a == [] <==> b == []
  {
    if a != [] {
      assert a[0] in b;
    }
    if b != [] {
      assert b[0] in a;
    }
  }

  lemma TailOfSorted(a: seq<Rule>, r: Rule)
    requires a != [] && forall i, j | 0 <= i < j < |a| :: RuleBefore(a[i], a[j])
    ensures r in a[1..] <==> r in a && r != a[0]
  {
    RuleBeforeIsStrict(a[0], a[0]);
    hide RuleBefore;
    assert a == [a[0]] + a[1..];
    forall k | 0 <= k < |a[1..]| ensures a[1..][k] != a[0] {
      assert a[1..][k] == a[k + 1];
    }
  }

  // ----- Explanations

  /**
   An explanation lists the ids of the applying rules, and of those with the winning effect as decisive, each in order; the
   default was applied exactly when there are none. Rule by rule it says which apply and which are decisive.
   */
  lemma ExplanationListsRules(policy: Policy, contract: Option<Contract>, context: Json, e: Explanation)
    returns (matched: seq<Rule>, deciding: seq<Rule>)
    requires UniqueIds(policy.rules) && Explained(policy, contract, context) == Ok(e)
    ensures Lists(context, policy.rules, ALL_EFFECTS, matched) && e.matchedRuleIds == Ids(matched)
    ensures Lists(context, policy.rules, {WinningEffect(e.outcome)}, deciding) && e.decisiveRuleIds == Ids(deciding)
    ensures e.defaultApplied <==> deciding == []
    ensures |e.rules| == |policy.rules|
    ensures forall i | 0 <= i < |policy.rules| ::
              && e.rules[i].ruleId == policy.rules[i].id && e.rules[i].effect == policy.rules[i].effect
              && e.rules[i].priority == policy.rules[i].priority
              && (e.rules[i].matched <==> Applies(context, policy.rules[i]))
              && (e.rules[i].decisive <==> Applies(context, policy.rules[i]) && policy.rules[i].effect == WinningEffect(e.outcome))
  {
    hide Lists, Ids, Applies, SortByKey, Matches, MatchedWith, FirstFailure, ALL_EFFECTS;
    matched := ListsMatched(context, policy.rules);
    deciding := ListsMatchedWith(context, policy.rules, WinningEffect(e.outcome));
    forall i | 0 <= i < |policy.rules|
      ensures policy.rules[i].id in Ids(matched) <==> Applies(context, policy.rules[i])
      ensures policy.rules[i].id in Ids(deciding)
              <==> Applies(context, policy.rules[i]) && policy.rules[i].effect == WinningEffect(e.outcome)
    {
      EveryEffect(policy.rules[i].effect);
      IdInListing(context, policy.rules, ALL_EFFECTS, matched, i);
      IdInListing(context, policy.rules, {WinningEffect(e.outcome)}, deciding, i);
    }
  }

  lemma IdInListing(context: Json, rules: seq<Rule>, wanted: set<Effect>, listed: seq<Rule>, i: nat)
    requires UniqueIds(rules) && Lists(context, rules, wanted, listed) && i < |rules|
    ensures rules[i].id in Ids(listed) <==> Applies(context, rules[i]) && rules[i].effect in wanted
  {
    hide Applies;
    assert rules[i] in rules;
    if rules[i].id in Ids(listed) {
      var k :| 0 <= k < |listed| && Ids(listed)[k] == rules[i].id;
      assert listed[k] in listed;
      var x :| 0 <= x < |rules| && rules[x] == listed[k];
    }
    if Applies(context, rules[i]) && rules[i].effect in wanted {
      var k :| 0 <= k < |listed| && listed[k] == rules[i];
      assert Ids(listed)[k] == rules[i].id;
    }
  }
}
