/** What a lint report and a coverage report say, finding by finding and rule by rule. */
module LintingLaws {
  import opened Wrappers
  import opened JsonValues
  import opened Models
  import opened Contracts
  import opened Engine
  import opened EngineLaws
  import opened Diagnostics
  import opened Contradictions
  import opened Linting

  // ----- Which findings a report has

  /** The rule deserves the finding. */
  predicate Deserves(r: Rule, f: Finding)
  {
    && f.ruleId == Some(r.id)
    && match f.code
       case DefaultAllow => false
       case UnconditionalAllow =>
         f.severity.SecurityWarning? && f.indices == [] && r.effect.EffectAllow? && |r.conditions| == 0
       case UnreachableRule => f.severity.Warning? && f.indices == ImpossibleIndices(r.conditions) && f.indices != []
       case DuplicateCondition => f.severity.Suggestion? && |f.indices| > 1 && IsClass(r.conditions, f.indices)
       case MissingMessage =>
         && f.severity.Suggestion? && f.indices == [] && |r.message| == 0
         && r.effect in {EffectAllow, EffectDeny, EffectReview, EffectWarn}
  }

  predicate SomeRuleDeserves(rules: seq<Rule>, f: Finding)
  {
    exists r :: r in rules && Deserves(r, f)
  }

  lemma {:induction false} DuplicateFindingsAre(r: Rule, groups: seq<seq<nat>>, f: Finding)
    ensures f in DuplicateFindings(r, groups)
            <==> f == Finding(DuplicateCondition, Suggestion, Some(r.id), f.indices) && f.indices in groups
  {
    if groups != [] {
      var last := |groups| - 1;
      DuplicateFindingsAre(r, groups[..last], f);
      assert groups == groups[..last] + [groups[last]];
    }
  }

  /** The groups are the classes with more than one member. */
  lemma GroupsAreClasses(conditions: seq<Condition>, groups: seq<seq<nat>>, group: seq<nat>)
    requires GroupsOf(conditions, groups)
    ensures group in groups <==> |group| > 1 && IsClass(conditions, group)
  {
    if |group| > 1 && IsClass(conditions, group) {
      var h := group[0];
      assert group[1] in group;
      assert GroupedTogether(groups, h, group[1]);
      var g :| g in groups && h in g && group[1] in g;
      assert IsClass(conditions, g);
      ClassesThatMeet(conditions, g, group);
    }
  }

  lemma ClassesThatMeet(conditions: seq<Condition>, a: seq<nat>, b: seq<nat>)
    requires IsClass(conditions, a) && IsClass(conditions, b) && b[0] in a
    ensures a == b
  {
    hide ConditionEqual;
    forall i: nat ensures i in a <==> i in b {
      if i < |conditions| {
        SameClass(conditions[a[0]], conditions[b[0]], conditions[i]);
      }
    }
    IncreasingIsUnique(a, b);
  }

  lemma SameClass(a: Condition, b: Condition, c: Condition)
    requires ConditionEqual(a, b)
    ensures ConditionEqual(a, c) <==> ConditionEqual(b, c)
  {
    ConditionEqualIsEquivalence(a, b, c);
    ConditionEqualIsEquivalence(b, a, c);
  }

  lemma OwnFindingsAre(r: Rule, groups: seq<seq<nat>>, f: Finding)
    requires GroupsOf(r.conditions, groups)
    ensures f in FindingsOf(r, groups) <==> Deserves(r, f)
  {
    hide IsClass, ImpossibleIndices, DuplicateFindings;
    DuplicateFindingsAre(r, groups, f);
    GroupsAreClasses(r.conditions, groups, f.indices);
  }

  lemma {:induction false} RuleFindingsAre(rules: seq<Rule>, groups: seq<seq<seq<nat>>>, f: Finding)
    requires AllGroups(rules, groups)
    ensures f in RuleFindings(rules, groups) <==> SomeRuleDeserves(rules, f)
  {
    hide Deserves, FindingsOf, GroupsOf;
    if rules != [] {
      var last := |rules| - 1;
      RuleFindingsAre(rules[..last], groups[..last], f);
      OwnFindingsAre(rules[last], groups[last], f);
      assert rules == rules[..last] + [rules[last]];
    }
  }

  /** A report has the finding about the default exactly when it allows, and otherwise what some rule deserves. */
  lemma FindingsAreDeserved(policy: Policy, findings: seq<Finding>, f: Finding)
    requires LintsAs(policy, findings)
    ensures f in findings <==>
              || (policy.defaultEffect.OutcomeAllow? && f == Finding(DefaultAllow, SecurityWarning, None, []))
              || SomeRuleDeserves(policy.rules, f)
  {
    hide Deserves, GroupsOf;
    var groups :| AllGroups(policy.rules, groups) && findings == DefaultFindings(policy) + RuleFindings(policy.rules, groups);
    RuleFindingsAre(policy.rules, groups, f);
  }

  // ----- In which order

  function CodeRank(code: Code): nat
  {
    match code
    case DefaultAllow => 0
    case UnconditionalAllow => 1
    case UnreachableRule => 2
    case DuplicateCondition => 3
    case MissingMessage => 4
  }

  /** Within a rule findings come by code, and duplicates by their first condition. */
  predicate Earlier(f: Finding, g: Finding)
  {
    || CodeRank(f.code) < CodeRank(g.code)
    || (f.code == g.code == DuplicateCondition && f.indices != [] && g.indices != [] && f.indices[0] < g.indices[0])
  }

  predicate IsAbout(rules: seq<Rule>, f: Finding, n: int)
  {
    0 <= n < |rules| && f.ruleId == Some(rules[n].id)
  }

  /** The finding about the default first, then rule by rule in policy order. */
  predicate Precedes(rules: seq<Rule>, f: Finding, g: Finding)
  {
    || (f.code.DefaultAllow? && !g.code.DefaultAllow?)
    || exists m, n | 0 <= m <= n < |rules| :: IsAbout(rules, f, m) && IsAbout(rules, g, n) && (m < n || Earlier(f, g))
  }

  predicate InOrder(rules: seq<Rule>, findings: seq<Finding>)
  {
    forall i, j | 0 <= i < j < |findings| :: Precedes(rules, findings[i], findings[j])
  }

  lemma {:induction false} DuplicatesInOrder(r: Rule, groups: seq<seq<nat>>)
    requires forall a | 0 <= a < |groups| :: groups[a] != []
    requires forall a, b | 0 <= a < b < |groups| :: groups[a][0] < groups[b][0]
    ensures |DuplicateFindings(r, groups)| == |groups|
    ensures forall a | 0 <= a < |groups| ::
              DuplicateFindings(r, groups)[a] == Finding(DuplicateCondition, Suggestion, Some(r.id), groups[a])
  {
    if groups != [] {
      DuplicatesInOrder(r, groups[..|groups| - 1]);
    }
  }

  predicate EachEarlier(findings: seq<Finding>)
  {
    forall i, j | 0 <= i < j < |findings| :: Earlier(findings[i], findings[j])
  }

  predicate RanksWithin(findings: seq<Finding>, id: string, low: nat, high: nat)
  {
    forall i | 0 <= i < |findings| :: low <= CodeRank(findings[i].code) < high && findings[i].ruleId == Some(id)
  }

  lemma ByRank(a: seq<Finding>, b: seq<Finding>, id: string, low: nat, middle: nat, high: nat)
    requires low <= middle <= high
    requires EachEarlier(a) && EachEarlier(b) && RanksWithin(a, id, low, middle) && RanksWithin(b, id, middle, high)
    ensures EachEarlier(a + b) && RanksWithin(a + b, id, low, high)
  {
    hide CodeRank;
  }

  lemma DuplicatesRank(r: Rule, groups: seq<seq<nat>>)
    requires GroupsOf(r.conditions, groups)
    ensures EachEarlier(DuplicateFindings(r, groups)) && RanksWithin(DuplicateFindings(r, groups), r.id, 3, 4)
  {
    hide DuplicateFindings, IsClass;
    forall a | 0 <= a < |groups| ensures groups[a] != [] {
      GroupsAreClasses(r.conditions, groups, groups[a]);
    }
    DuplicatesInOrder(r, groups);
  }

  lemma OwnInOrder(r: Rule, groups: seq<seq<nat>>)
    requires GroupsOf(r.conditions, groups)
    ensures EachEarlier(FindingsOf(r, groups)) && RanksWithin(FindingsOf(r, groups), r.id, 1, 5)
  {
    hide ImpossibleIndices, DuplicateFindings;
    DuplicatesRank(r, groups);
    var unconditional, unreachable := UnconditionalFindings(r), UnreachableFindings(r);
    ByRank(unconditional, unreachable, r.id, 1, 2, 3);
    ByRank(unconditional + unreachable, DuplicateFindings(r, groups), r.id, 1, 3, 4);
    ByRank(unconditional + unreachable + DuplicateFindings(r, groups), MessageFindings(r), r.id, 1, 4, 5);
  }

  lemma {:induction false} RulesInOrder(rules: seq<Rule>, groups: seq<seq<seq<nat>>>)
    requires AllGroups(rules, groups)
    ensures InOrder(rules, RuleFindings(rules, groups))
    ensures forall f | f in RuleFindings(rules, groups) :: exists n :: IsAbout(rules, f, n)
  {
    hide FindingsOf, GroupsOf, Earlier;
    if rules != [] {
      var last := |rules| - 1;
      var before, own := RuleFindings(rules[..last], groups[..last]), FindingsOf(rules[last], groups[last]);
      RulesInOrder(rules[..last], groups[..last]);
      OwnInOrder(rules[last], groups[last]);
      var all := before + own;
      forall f | f in before ensures exists n :: n < last && IsAbout(rules, f, n) {
        var n :| IsAbout(rules[..last], f, n);
        assert IsAbout(rules, f, n);
      }
      forall i | 0 <= i < |own| ensures IsAbout(rules, own[i], last) {}
      forall i, j | 0 <= i < j < |all| ensures Precedes(rules, all[i], all[j]) {
        if j < |before| {
          EarlierPrecedes(rules[..last], rules, before[i], before[j]);
        } else if i < |before| {
          assert before[i] in before;
        }
      }
    }
  }

  lemma EarlierPrecedes(rules: seq<Rule>, more: seq<Rule>, f: Finding, g: Finding)
    requires rules <= more && Precedes(rules, f, g)
    ensures Precedes(more, f, g)
  {
    if !(f.code.DefaultAllow? && !g.code.DefaultAllow?) {
      var m, n :| 0 <= m <= n < |rules| && IsAbout(rules, f, m) && IsAbout(rules, g, n) && (m < n || Earlier(f, g));
      assert IsAbout(more, f, m) && IsAbout(more, g, n);
    }
  }

  /** A report lists the finding about the default first and then follows the rules; with FindingsAreDeserved, it is determined. */
  lemma FindingsAreInOrder(policy: Policy, findings: seq<Finding>)
    requires LintsAs(policy, findings)
    ensures InOrder(policy.rules, findings)
  {
    hide GroupsOf;
    var groups :| AllGroups(policy.rules, groups) && findings == DefaultFindings(policy) + RuleFindings(policy.rules, groups);
    RulesInOrder(policy.rules, groups);
    var about := RuleFindings(policy.rules, groups);
    forall i | 0 <= i < |about| ensures !about[i].code.DefaultAllow? {
      RuleFindingsAre(policy.rules, groups, about[i]);
    }
  }

  // ----- Coverage

  /** The positions of the cases that are decided with the outcome. */
  function Positions(policy: Policy, contract: Option<Contract>, cases: seq<Case>, outcome: Outcome): set<nat>
  {
    set i | 0 <= i < |cases| && IsDecided(policy, contract, cases[i].input, outcome)
  }

  predicate IsDecided(policy: Policy, contract: Option<Contract>, input: Json, outcome: Outcome)
  {
    && Evaluation(policy, contract, input).Ok?
    && Evaluation(policy, contract, input).value.outcome == outcome
  }

  /** A count is the number of cases decided so. */
  lemma {:induction false} CountsAreOfCases(policy: Policy, contract: Option<Contract>, cases: seq<Case>, outcome: Outcome)
    ensures CasesWith(policy, contract, cases, outcome) == |Positions(policy, contract, cases, outcome)|
  {
    hide Evaluation;
    if cases != [] {
      var last := |cases| - 1;
      CountsAreOfCases(policy, contract, cases[..last], outcome);
      var before, all := Positions(policy, contract, cases[..last], outcome), Positions(policy, contract, cases, outcome);
      forall i ensures i in all <==> i in before || (i == last && IsDecided(policy, contract, cases[last].input, outcome)) {
        assert 0 <= i < last ==> cases[..last][i] == cases[i];
      }
      assert all == before + if IsDecided(policy, contract, cases[last].input, outcome) then {last} else {};
    }
  }

  /** The listed names are those of the failing cases. */
  lemma {:induction false} FailuresAreOfCases(policy: Policy, contract: Option<Contract>, cases: seq<Case>, name: string)
    ensures name in FailingCases(policy, contract, cases)
            <==> exists i :: 0 <= i < |cases| && cases[i].name == name && Evaluation(policy, contract, cases[i].input).Err?
  {
    hide Evaluation;
    if cases != [] {
      var last := |cases| - 1;
      FailuresAreOfCases(policy, contract, cases[..last], name);
      if i :| 0 <= i < last && cases[i].name == name && Evaluation(policy, contract, cases[i].input).Err? {
        assert cases[..last][i] == cases[i];
      }
    }
  }
}
