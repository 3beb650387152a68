/** `lint_policy` and rule coverage, and what a report of an unreachable rule is worth. */
module Linting {
  import opened Wrappers
  import opened JsonValues
  import opened Models
  import opened Contracts
  import opened Engine
  import opened EngineLaws
  import opened Diagnostics
  import opened Contradictions

  datatype Code = DefaultAllow | UnconditionalAllow | UnreachableRule | DuplicateCondition | MissingMessage

  datatype Severity = SecurityWarning | Warning | Suggestion

  datatype Finding = Finding(code: Code, severity: Severity, ruleId: Option<string>, indices: seq<nat>)

  // ----- The reported groups are determined by the conditions

  function Heads(groups: seq<seq<nat>>): seq<nat>
  {
    seq(|groups|, a requires 0 <= a < |groups| => if groups[a] == [] then 0 else groups[a][0])
  }

  /** The first of a class with more than one member. */
  predicate StartsClass(conditions: seq<Condition>, h: nat)
  {
    && h < |conditions|
    && (exists j :: h < j < |conditions| && ConditionEqual(conditions[h], conditions[j]))
    && forall i | 0 <= i < h :: !ConditionEqual(conditions[h], conditions[i])
  }

  lemma HeadsStartClasses(conditions: seq<Condition>, groups: seq<seq<nat>>, h: nat)
    requires GroupsOf(conditions, groups)
    ensures h in Heads(groups) <==> StartsClass(conditions, h)
  {
    if h in Heads(groups) {
      var a :| 0 <= a < |groups| && Heads(groups)[a] == h;
      var g := groups[a];
      assert g in groups && g[1] in g;
      forall i | 0 <= i < h ensures !ConditionEqual(conditions[h], conditions[i]) {
        assert i !in g;
      }
    }
    if StartsClass(conditions, h) {
      var j :| h < j < |conditions| && ConditionEqual(conditions[h], conditions[j]);
      assert GroupedTogether(groups, h, j);
      var g :| g in groups && h in g && j in g;
      var a :| 0 <= a < |groups| && groups[a] == g;
      ConditionEqualIsEquivalence(conditions[g[0]], conditions[h], conditions[h]);
      assert Heads(groups)[a] == g[0] == h;
    }
  }

  lemma ClassesWithOneHead(conditions: seq<Condition>, g: seq<nat>, g': seq<nat>)
    requires IsClass(conditions, g) && IsClass(conditions, g') && g[0] == g'[0]
    ensures g == g'
  {
    forall i ensures i in g <==> i in g' {
      if i in g || i in g' {
        assert i < |conditions|;
      }
    }
    IncreasingIsUnique(g, g');
  }

  /** There is one way to report the duplicate groups of a rule. */
  lemma GroupsAreUnique(conditions: seq<Condition>, a: seq<seq<nat>>, b: seq<seq<nat>>)
    requires GroupsOf(conditions, a) && GroupsOf(conditions, b)
    ensures a == b
  {
    forall h ensures h in Heads(a) <==> h in Heads(b) {
      HeadsStartClasses(conditions, a, h);
      HeadsStartClasses(conditions, b, h);
    }
    forall g | g in a ensures g != [] {}
    forall g | g in b ensures g != [] {}
    IncreasingIsUnique(Heads(a), Heads(b));
    forall k | 0 <= k < |a| ensures a[k] == b[k] {
      assert a[k] in a && b[k] in b;
      assert Heads(a)[k] == Heads(b)[k];
      ClassesWithOneHead(conditions, a[k], b[k]);
    }
    assert |Heads(a)| == |a| && |Heads(b)| == |b|;
  }

  // ----- The findings of one policy

  function DefaultFindings(policy: Policy): seq<Finding>
  {
    if policy.defaultEffect.OutcomeAllow? then [Finding(DefaultAllow, SecurityWarning, None, [])] else []
  }

  function UnconditionalFindings(r: Rule): seq<Finding>
  {
    if r.effect.EffectAllow? && r.conditions == []
    then [Finding(UnconditionalAllow, SecurityWarning, Some(r.id), [])] else []
  }

  function UnreachableFindings(r: Rule): seq<Finding>
  {
    if ImpossibleIndices(r.conditions) != []
    then [Finding(UnreachableRule, Warning, Some(r.id), ImpossibleIndices(r.conditions))] else []
  }

  function DuplicateFindings(r: Rule, groups: seq<seq<nat>>): seq<Finding>
  {
    if groups == [] then []
    else DuplicateFindings(r, groups[..|groups| - 1])
         + [Finding(DuplicateCondition, Suggestion, Some(r.id), groups[|groups| - 1])]
  }

  function MessageFindings(r: Rule): seq<Finding>
  {
    if !r.effect.EffectAudit? && r.message == "" then [Finding(MissingMessage, Suggestion, Some(r.id), [])] else []
  }

  /** The findings about one rule, given its duplicate groups. */
  function FindingsOf(r: Rule, groups: seq<seq<nat>>): seq<Finding>
  {
    UnconditionalFindings(r) + UnreachableFindings(r) + DuplicateFindings(r, groups) + MessageFindings(r)
  }

  /** The findings about every rule in policy order. */
  function RuleFindings(rules: seq<Rule>, groups: seq<seq<seq<nat>>>): seq<Finding>
    requires |groups| == |rules|
  {
    if rules == [] then []
    else
      var last := |rules| - 1;
      RuleFindings(rules[..last], groups[..last]) + FindingsOf(rules[last], groups[last])
  }

  predicate AllGroups(rules: seq<Rule>, groups: seq<seq<seq<nat>>>)
  {
    |groups| == |rules| && forall i | 0 <= i < |rules| :: GroupsOf(rules[i].conditions, groups[i])
  }

  /** A complete report: the policy-level finding, then every rule's findings in policy order. */
  ghost predicate LintsAs(policy: Policy, findings: seq<Finding>)
  {
    exists groups :: AllGroups(policy.rules, groups) && findings == DefaultFindings(policy) + RuleFindings(policy.rules, groups)
  }

  /** A policy has one report. */
  lemma ReportIsUnique(policy: Policy, a: seq<Finding>, b: seq<Finding>)
    requires LintsAs(policy, a) && LintsAs(policy, b)
    ensures a == b
  {
    var ga :| AllGroups(policy.rules, ga) && a == DefaultFindings(policy) + RuleFindings(policy.rules, ga);
    var gb :| AllGroups(policy.rules, gb) && b == DefaultFindings(policy) + RuleFindings(policy.rules, gb);
    forall i | 0 <= i < |ga| ensures ga[i] == gb[i] {
      GroupsAreUnique(policy.rules[i].conditions, ga[i], gb[i]);
    }
    assert ga == gb;
  }

  /** One finding for every duplicate group. */
  method ReportDuplicates(rule: Rule, duplicates: seq<seq<nat>>) returns (own: seq<Finding>)
    ensures own == DuplicateFindings(rule, duplicates)
  {
    own := [];
    for a := 0 to |duplicates|
      invariant own == DuplicateFindings(rule, duplicates[..a])
    {
      own := own + [Finding(DuplicateCondition, Suggestion, Some(rule.id), duplicates[a])];
      assert duplicates[..a + 1][..a] == duplicates[..a];
    }
    assert duplicates[..|duplicates|] == duplicates;
  }

  /** The body of the loop over rules: everything found about one rule. */
  method LintRule(rule: Rule) returns (own: seq<Finding>, ghost groups: seq<seq<nat>>)
    requires ValidRule(rule)
    ensures GroupsOf(rule.conditions, groups) && own == FindingsOf(rule, groups)
  {
    own := UnconditionalFindings(rule);
    var impossible := ImpossibleConditionIndices(rule.conditions);
    if impossible != [] {
      own := own + [Finding(UnreachableRule, Warning, Some(rule.id), impossible)];
    }
    var duplicates := DuplicateConditionGroups(rule.conditions);
    var repeated := ReportDuplicates(rule, duplicates);
    own := own + repeated + MessageFindings(rule);
    groups := duplicates;
  }

  /** `lint_policy`. */
  method LintPolicy(policy: Policy) returns (findings: seq<Finding>)
    requires ValidPolicy(policy)
    ensures LintsAs(policy, findings)
  {
    findings := DefaultFindings(policy);
    ghost var groups: seq<seq<seq<nat>>> := [];
    for n := 0 to |policy.rules|
      invariant AllGroups(policy.rules[..n], groups)
      invariant findings == DefaultFindings(policy) + RuleFindings(policy.rules[..n], groups)
    {
      var own, ownGroups := LintRule(policy.rules[n]);
      MoreFindings(policy.rules, n, groups, ownGroups);
      AppendAssociates(DefaultFindings(policy), RuleFindings(policy.rules[..n], groups), own);
      findings := findings + own;
      groups := groups + [ownGroups];
    }
    assert policy.rules[..|policy.rules|] == policy.rules;
  }

  lemma MoreFindings(rules: seq<Rule>, n: nat, groups: seq<seq<seq<nat>>>, duplicates: seq<seq<nat>>)
    requires n < |rules| && AllGroups(rules[..n], groups) && GroupsOf(rules[n].conditions, duplicates)
    ensures AllGroups(rules[..n + 1], groups + [duplicates])
    ensures RuleFindings(rules[..n + 1], groups + [duplicates])
         == RuleFindings(rules[..n], groups) + FindingsOf(rules[n], duplicates)
  {
    assert rules[..n + 1][..n] == rules[..n] && (groups + [duplicates])[..n] == groups;
  }

  /** The rule is reported as unreachable. */
  predicate ReportedUnreachable(findings: seq<Finding>, id: string)
  {
    exists f :: f in findings && f.code.UnreachableRule? && f.ruleId == Some(id)
  }

  /** A rule with this id has contradictory conditions. */
  predicate HasImpossible(rules: seq<Rule>, id: string)
  {
    rules != []
    && var last := rules[|rules| - 1];
       HasImpossible(rules[..|rules| - 1], id) || (last.id == id && ImpossibleIndices(last.conditions) != [])
  }

  lemma {:induction false} HasImpossibleMeans(rules: seq<Rule>, id: string)
    ensures HasImpossible(rules, id) <==> exists r :: r in rules && r.id == id && ImpossibleIndices(r.conditions) != []
  {
    hide ImpossibleIndices;
    if rules != [] {
      var last := |rules| - 1;
      HasImpossibleMeans(rules[..last], id);
      assert rules == rules[..last] + [rules[last]];
      assert forall r :: r in rules <==> r in rules[..last] || r == rules[last];
    }
  }

  lemma {:induction false} ReportedAmongRules(rules: seq<Rule>, groups: seq<seq<seq<nat>>>, id: string)
    requires |groups| == |rules|
    ensures ReportedUnreachable(RuleFindings(rules, groups), id) <==> HasImpossible(rules, id)
  {
    if rules != [] {
      var last := |rules| - 1;
      ReportedAmongRules(rules[..last], groups[..last], id);
      OwnReport(rules[last], groups[last], id);
      ReportedInEither(RuleFindings(rules[..last], groups[..last]), FindingsOf(rules[last], groups[last]), id);
    }
  }

  lemma ReportedInEither(a: seq<Finding>, b: seq<Finding>, id: string)
    ensures ReportedUnreachable(a + b, id) <==> ReportedUnreachable(a, id) || ReportedUnreachable(b, id)
  {
    assert forall f :: f in a + b <==> f in a || f in b;
  }

  lemma {:induction false} DuplicatesReportNothing(r: Rule, groups: seq<seq<nat>>, id: string)
    ensures !ReportedUnreachable(DuplicateFindings(r, groups), id)
  {
    if groups != [] {
      var last := |groups| - 1;
      DuplicatesReportNothing(r, groups[..last], id);
      ReportedInEither(DuplicateFindings(r, groups[..last]), [Finding(DuplicateCondition, Suggestion, Some(r.id), groups[last])], id);
    }
  }

  lemma OwnReport(r: Rule, groups: seq<seq<nat>>, id: string)
    ensures ReportedUnreachable(FindingsOf(r, groups), id) <==> r.id == id && ImpossibleIndices(r.conditions) != []
  {
    var unconditional, unreachable, duplicate := UnconditionalFindings(r), UnreachableFindings(r), DuplicateFindings(r, groups);
    ReportedInEither(unconditional, unreachable, id);
    ReportedInEither(unconditional + unreachable, duplicate, id);
    ReportedInEither(unconditional + unreachable + duplicate, MessageFindings(r), id);
    DuplicatesReportNothing(r, groups, id);
    if ImpossibleIndices(r.conditions) != [] {
      assert unreachable[0] in unreachable;
    }
  }

  /** In a complete report, a rule is reported as unreachable exactly when its conditions contradict each other. */
  lemma ReportedMeansImpossible(policy: Policy, findings: seq<Finding>, r: Rule)
    requires ValidPolicy(policy) && LintsAs(policy, findings) && r in policy.rules
    ensures ReportedUnreachable(findings, r.id) <==> ImpossibleIndices(r.conditions) != []
  {
    var groups :| AllGroups(policy.rules, groups) && findings == DefaultFindings(policy) + RuleFindings(policy.rules, groups);
    ReportedAmongRules(policy.rules, groups, r.id);
    HasImpossibleMeans(policy.rules, r.id);
    ReportedInEither(DefaultFindings(policy), RuleFindings(policy.rules, groups), r.id);
    if ReportedUnreachable(findings, r.id) {
      var other :| other in policy.rules && other.id == r.id && ImpossibleIndices(other.conditions) != [];
      SameIdSameRule(policy.rules, r, other);
    }
  }

  lemma SameIdSameRule(rules: seq<Rule>, a: Rule, b: Rule)
    requires UniqueIds(rules) && a in rules && b in rules && a.id == b.id
    ensures a == b
  {
    var i :| 0 <= i < |rules| && rules[i] == a;
    var j :| 0 <= j < |rules| && rules[j] == b;
  }

  // ----- Removing unreachable rules

  function WithoutReported(rules: seq<Rule>, findings: seq<Finding>): seq<Rule>
  {
    if rules == [] then []
    else (if ReportedUnreachable(findings, rules[0].id) then [] else [rules[0]]) + WithoutReported(rules[1..], findings)
  }

  lemma {:induction false} WithoutReportedKeeps(rules: seq<Rule>, findings: seq<Finding>)
    ensures forall r :: r in WithoutReported(rules, findings) <==> r in rules && !ReportedUnreachable(findings, r.id)
    ensures UniqueIds(rules) ==> UniqueIds(WithoutReported(rules, findings))
  {
    if rules != [] {
      var rest := WithoutReported(rules[1..], findings);
      WithoutReportedKeeps(rules[1..], findings);
      assert rules == [rules[0]] + rules[1..];
      if UniqueIds(rules) {
        forall i | 0 <= i < |rest| ensures rest[i].id != rules[0].id {
          assert rest[i] in rest;
          var j :| 0 <= j < |rules[1..]| && rules[1..][j] == rest[i];
          assert rules[j + 1] == rest[i];
        }
      }
    }
  }

  /** A rule reported as unreachable applies to no context. */
  lemma ReportedNeverApplies(context: Json, policy: Policy, findings: seq<Finding>, r: Rule)
    requires ValidPolicy(policy) && LintsAs(policy, findings) && r in policy.rules
    requires ReportedUnreachable(findings, r.id)
    ensures !Applies(context, r)
  {
    ReportedMeansImpossible(policy, findings, r);
    var i :| 0 <= i < |policy.rules| && policy.rules[i] == r;
    assert ValidRule(policy.rules[i]);
    LinterIsSound(context, r.conditions);
  }

  /**
   Deleting every rule reported as unreachable keeps the outcome, matches, reasons and warnings of
   every successful evaluation, and no evaluation that succeeded fails.
   */
  lemma DeadRulesCanGo(context: Json, policy: Policy, findings: seq<Finding>)
    requires ValidPolicy(policy) && LintsAs(policy, findings)
    requires Decide(policy, context).Ok?
    ensures var kept := policy.(rules := WithoutReported(policy.rules, findings));
            && Decide(kept, context).Ok?
            && Decide(kept, context).value.(evaluatedRules := |policy.rules|) == Decide(policy, context).value
  {
    var kept := WithoutReported(policy.rules, findings);
    WithoutReportedKeeps(policy.rules, findings);
    FailureMeans(context, policy.rules);
    FailureMeans(context, kept);
    forall r | Applies(context, r) ensures r in policy.rules <==> r in kept {
      if r in policy.rules && ReportedUnreachable(findings, r.id) {
        ReportedNeverApplies(context, policy, findings, r);
      }
    }
    SameRulesSameMatches(context, policy.rules, kept);
  }

  // ----- Removing repeated conditions

  /** The rules with every repetition the linter reports dropped from their conditions. */
  function Deduplicated(rules: seq<Rule>, groups: seq<seq<seq<nat>>>): seq<Rule>
    requires |groups| == |rules|
  {
    if rules == [] then []
    else
      var own := rules[0].(conditions := DropRepetitions(rules[0].conditions, groups[0], |rules[0].conditions|));
      [own] + Deduplicated(rules[1..], groups[1..])
  }

  lemma {:induction false} DeduplicatedMatches(context: Json, rules: seq<Rule>, groups: seq<seq<seq<nat>>>)
    requires AllGroups(rules, groups)
    ensures |Deduplicated(rules, groups)| == |rules|
    ensures Matches(context, Deduplicated(rules, groups)) == Matches(context, rules)
    ensures FirstFailure(context, Deduplicated(rules, groups)) == FirstFailure(context, rules)
  {
    if rules != [] {
      forall i | 0 <= i < |rules[1..]| ensures GroupsOf(rules[1..][i].conditions, groups[1..][i]) {
        assert rules[1..][i] == rules[i + 1] && groups[1..][i] == groups[i + 1];
      }
      DeduplicatedMatches(context, rules[1..], groups[1..]);
      DroppingRepetitionsKeepsResult(context, rules[0].conditions, groups[0]);
      Unfold(context, rules);
      Unfold(context, Deduplicated(rules, groups));
      assert Deduplicated(rules, groups)[1..] == Deduplicated(rules[1..], groups[1..]);
    }
  }

  /** Dropping every repetition the linter reports, in every rule, changes no decision and no failure. */
  lemma RepetitionsCanGo(context: Json, policy: Policy, groups: seq<seq<seq<nat>>>)
    requires AllGroups(policy.rules, groups)
    ensures Decide(policy.(rules := Deduplicated(policy.rules, groups)), context) == Decide(policy, context)
  {
    DeduplicatedMatches(context, policy.rules, groups);
  }

  // ----- Coverage

  datatype Case = Case(name: string, input: Json)

  datatype Coverage = Coverage(
    covered: seq<string>, uncovered: seq<string>,
    allowCases: nat, denyCases: nat, reviewCases: nat, errorCases: seq<string>)

  /** The input is evaluated successfully with the rule among the matches. */
  predicate MatchesCase(policy: Policy, contract: Option<Contract>, input: Json, id: string)
  {
    Evaluation(policy, contract, input).Ok? && id in Evaluation(policy, contract, input).value.matchedRules
  }

  predicate Covers(policy: Policy, contract: Option<Contract>, cases: seq<Case>, id: string)
  {
    exists i :: 0 <= i < |cases| && MatchesCase(policy, contract, cases[i].input, id)
  }

  function CasesWith(policy: Policy, contract: Option<Contract>, cases: seq<Case>, outcome: Outcome): nat
  {
    if cases == [] then 0
    else
      var last := Evaluation(policy, contract, cases[|cases| - 1].input);
      CasesWith(policy, contract, cases[..|cases| - 1], outcome) + if last.Ok? && last.value.outcome == outcome then 1 else 0
  }

  function FailingCases(policy: Policy, contract: Option<Contract>, cases: seq<Case>): seq<string>
  {
    if cases == [] then []
    else
      var last := cases[|cases| - 1];
      FailingCases(policy, contract, cases[..|cases| - 1])
      + if Evaluation(policy, contract, last.input).Err? then [last.name] else []
  }

  /** The ids of the rules, in policy order, that are or are not in the set. */
  function IdsWhere(rules: seq<Rule>, ids: set<string>, inside: bool): seq<string>
  {
    if rules == [] then []
    else (if (rules[0].id in ids) == inside then [rules[0].id] else []) + IdsWhere(rules[1..], ids, inside)
  }

  predicate IsDeclared(rules: seq<Rule>, id: string)
  {
    exists r :: r in rules && r.id == id
  }

  lemma {:induction false} ListedWhere(rules: seq<Rule>, ids: set<string>, inside: bool, id: string)
    ensures id in IdsWhere(rules, ids, inside) <==> IsDeclared(rules, id) && (id in ids) == inside
  {
    if rules != [] {
      ListedWhere(rules[1..], ids, inside, id);
      assert rules == [rules[0]] + rules[1..];
    }
  }

  predicate InRuleOrder(rules: seq<Rule>, ids: seq<string>)
  {
    forall i, j | 0 <= i < j < |ids| :: ComesBefore(rules, ids[i], ids[j])
  }

  predicate ComesBefore(rules: seq<Rule>, a: string, b: string)
  {
    exists m, n :: 0 <= m < n < |rules| && rules[m].id == a && rules[n].id == b
  }

  lemma {:induction false} ListedInOrder(rules: seq<Rule>, ids: set<string>, inside: bool)
    ensures InRuleOrder(rules, IdsWhere(rules, ids, inside))
  {
    if rules != [] {
      var listed, rest := IdsWhere(rules, ids, inside), IdsWhere(rules[1..], ids, inside);
      ListedInOrder(rules[1..], ids, inside);
      forall i, j | 0 <= i < j < |listed| ensures ComesBefore(rules, listed[i], listed[j]) {
        var first := |listed| - |rest|;
        if i < first {
          ListedWhere(rules[1..], ids, inside, listed[j]);
          assert listed[j] in rest;
          var r :| r in rules[1..] && r.id == listed[j];
          var n :| 0 <= n < |rules[1..]| && rules[1..][n] == r;
          assert rules[n + 1].id == listed[j];
        } else {
          assert ComesBefore(rules[1..], rest[i - first], rest[j - first]);
          var m, n :| 0 <= m < n < |rules[1..]| && rules[1..][m].id == listed[i] && rules[1..][n].id == listed[j];
          assert rules[m + 1].id == listed[i] && rules[n + 1].id == listed[j];
        }
      }
    }
  }

  lemma CoverageLists(policy: Policy, contract: Option<Contract>, cases: seq<Case>, matched: set<string>)
    requires forall id :: id in matched <==> Covers(policy, contract, cases, id)
    ensures var covered, uncovered := IdsWhere(policy.rules, matched, true), IdsWhere(policy.rules, matched, false);
            && (forall id ::
                  && (id in covered <==> IsDeclared(policy.rules, id) && Covers(policy, contract, cases, id))
                  && (id in uncovered <==> IsDeclared(policy.rules, id) && !Covers(policy, contract, cases, id)))
            && InRuleOrder(policy.rules, covered) && InRuleOrder(policy.rules, uncovered)
  {
    hide Covers, IsDeclared, IdsWhere, InRuleOrder;
    ListedInOrder(policy.rules, matched, true);
    ListedInOrder(policy.rules, matched, false);
    forall id
      ensures id in IdsWhere(policy.rules, matched, true) <==> IsDeclared(policy.rules, id) && Covers(policy, contract, cases, id)
      ensures id in IdsWhere(policy.rules, matched, false) <==> IsDeclared(policy.rules, id) && !Covers(policy, contract, cases, id)
    {
      ListedWhere(policy.rules, matched, true, id);
      ListedWhere(policy.rules, matched, false, id);
    }
  }

  /** `measure_policy_coverage`; None is the error of a policy that does not fit the contract. */
  method MeasureCoverage(policy: Policy, contract: Option<Contract>, cases: seq<Case>) returns (r: Option<Coverage>)
    requires contract.Some? ==> ValidContract(contract.value)
    ensures r.None? <==> contract.Some? && !PolicyWellTyped(policy, contract.value)
    ensures r.Some? ==>
              exists matched: set<string> ::
                && (forall id :: id in matched <==> Covers(policy, contract, cases, id))
                && r.value.covered == IdsWhere(policy.rules, matched, true)
                && r.value.uncovered == IdsWhere(policy.rules, matched, false)
    ensures r.Some? ==>
              forall id ::
                && (id in r.value.covered <==> IsDeclared(policy.rules, id) && Covers(policy, contract, cases, id))
                && (id in r.value.uncovered <==> IsDeclared(policy.rules, id) && !Covers(policy, contract, cases, id))
    ensures r.Some? ==> InRuleOrder(policy.rules, r.value.covered) && InRuleOrder(policy.rules, r.value.uncovered)
    ensures r.Some? ==>
              && r.value.allowCases == CasesWith(policy, contract, cases, OutcomeAllow)
              && r.value.denyCases == CasesWith(policy, contract, cases, OutcomeDeny)
              && r.value.reviewCases == CasesWith(policy, contract, cases, OutcomeReview)
              && r.value.errorCases == FailingCases(policy, contract, cases)
  {
    hide IdsWhere, IsDeclared, InRuleOrder, Evaluation;
    if contract.Some? {
      var accepted := ValidatePolicyContextContract(policy, contract.value);
      if !accepted {
        return None;
      }
    }
    var matched: set<string> := {};
    var allow, deny, review := 0, 0, 0;
    var errors: seq<string> := [];
    for n := 0 to |cases|
      invariant forall id :: id in matched <==> Covers(policy, contract, cases[..n], id)
      invariant allow == CasesWith(policy, contract, cases[..n], OutcomeAllow)
      invariant deny == CasesWith(policy, contract, cases[..n], OutcomeDeny)
      invariant review == CasesWith(policy, contract, cases[..n], OutcomeReview)
      invariant errors == FailingCases(policy, contract, cases[..n])
    {
      var decision := Evaluate(policy, contract, cases[n].input);
      forall id { MoreCases(policy, contract, cases, n, id); }
      CountOneMore(policy, contract, cases, n);
      if decision.Err? {
        errors := errors + [cases[n].name];
        continue;
      }
      matched := matched + set id | id in decision.value.matchedRules;
      match decision.value.outcome
      case OutcomeAllow => allow := allow + 1;
      case OutcomeDeny => deny := deny + 1;
      case OutcomeReview => review := review + 1;
    }
    assert cases[..|cases|] == cases;
    CoverageLists(policy, contract, cases, matched);
    return Some(Coverage(IdsWhere(policy.rules, matched, true), IdsWhere(policy.rules, matched, false),
                         allow, deny, review, errors));
  }

  lemma MoreCases(policy: Policy, contract: Option<Contract>, cases: seq<Case>, n: nat, id: string)
    requires n < |cases|
    ensures Covers(policy, contract, cases[..n + 1], id)
       <==> Covers(policy, contract, cases[..n], id) || MatchesCase(policy, contract, cases[n].input, id)
  {
    var more, less := cases[..n + 1], cases[..n];
    assert more == less + [cases[n]];
    if Covers(policy, contract, less, id) {
      var i :| 0 <= i < n && MatchesCase(policy, contract, less[i].input, id);
      assert more[i] == less[i];
    }
    if MatchesCase(policy, contract, cases[n].input, id) {
      assert more[n] == cases[n];
    }
  }

  lemma CountOneMore(policy: Policy, contract: Option<Contract>, cases: seq<Case>, n: nat)
    requires n < |cases|
    ensures forall outcome ::
              CasesWith(policy, contract, cases[..n + 1], outcome) == CasesWith(policy, contract, cases[..n], outcome)
              + if Evaluation(policy, contract, cases[n].input).Ok? && Evaluation(policy, contract, cases[n].input).value.outcome == outcome
                then 1 else 0
    ensures FailingCases(policy, contract, cases[..n + 1]) == FailingCases(policy, contract, cases[..n])
            + if Evaluation(policy, contract, cases[n].input).Err? then [cases[n].name] else []
  {
    assert cases[..n + 1][..n] == cases[..n];
  }

  /** Every case is counted once: by its outcome or as an error. */
  lemma {:induction false} CasesAddUp(policy: Policy, contract: Option<Contract>, cases: seq<Case>)
    ensures |cases| == CasesWith(policy, contract, cases, OutcomeAllow) + CasesWith(policy, contract, cases, OutcomeDeny)
                       + CasesWith(policy, contract, cases, OutcomeReview) + |FailingCases(policy, contract, cases)|
  {
    if cases != [] {
      CasesAddUp(policy, contract, cases[..|cases| - 1]);
    }
  }

  /** No suite covers a rule that the linter reports as unreachable. */
  lemma ReportedNeverCovered(policy: Policy, contract: Option<Contract>, cases: seq<Case>, findings: seq<Finding>,
                             r: Rule)
    requires ValidPolicy(policy) && LintsAs(policy, findings) && r in policy.rules
    requires ReportedUnreachable(findings, r.id)
    ensures !Covers(policy, contract, cases, r.id)
  {
    var k :| 0 <= k < |policy.rules| && policy.rules[k] == r;
    forall i | 0 <= i < |cases| ensures !MatchesCase(policy, contract, cases[i].input, r.id) {
      ReportedNeverApplies(cases[i].input, policy, findings, r);
      NeverMatchesCase(policy, contract, cases[i].input, k);
    }
  }

  lemma NeverMatchesCase(policy: Policy, contract: Option<Contract>, input: Json, k: nat)
    requires UniqueIds(policy.rules) && k < |policy.rules| && !Applies(input, policy.rules[k])
    ensures !MatchesCase(policy, contract, input, policy.rules[k].id)
  {
    ListedMeansApplies(input, policy.rules, k);
  }
}
