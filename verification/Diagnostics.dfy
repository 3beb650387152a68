/** The policy linter: duplicate conditions, contradictory conditions, and the findings of one policy. */
module Diagnostics {
  import opened Wrappers
  import opened JsonValues
  import opened Models
  import opened Engine
  import opened EngineLaws

  /** The linter's own copy of `_json_equal`, without the engine's fast path for strings. */
  predicate LintEqual(left: Json, right: Json)
    ensures LintEqual(left, right) == JsonEqual(left, right)
    decreases left
  {
    if left.Bool? || right.Bool? then left.Bool? && right.Bool? && left.flag == right.flag
    else if IsNumber(left) && IsNumber(right) then NumberOf(left) == NumberOf(right)
    else if left.Arr? || right.Arr? then
      left.Arr? && right.Arr? && |left.items| == |right.items|
      && forall i | 0 <= i < |left.items| :: LintEqual(left.items[i], right.items[i])
    else if left.Obj? || right.Obj? then
      left.Obj? && right.Obj? && left.fields.Keys == right.fields.Keys
      && forall k | k in left.fields :: LintEqual(left.fields[k], right.fields[k])
    else left == right
  }

  /** `_condition_equal`. */
  predicate LintConditionEqual(left: Condition, right: Condition)
    ensures LintConditionEqual(left, right) == ConditionEqual(left, right)
  {
    left.field == right.field && left.operator == right.operator && LintEqual(left.value, right.value)
  }

  // ----- Duplicate conditions

  predicate Increasing(indices: seq<nat>)
  {
    forall i, j | 0 <= i < j < |indices| :: indices[i] < indices[j]
  }

  /** `group` lists, in increasing order, every condition equal to its first. */
  predicate IsClass(conditions: seq<Condition>, group: seq<nat>)
  {
    && group != [] && Increasing(group)
    && (forall i | 0 <= i < |group| :: group[i] < |conditions|)
    && forall j | 0 <= j < |conditions| :: j in group <==> ConditionEqual(conditions[group[0]], conditions[j])
  }

  predicate GroupedTogether(groups: seq<seq<nat>>, i: nat, j: nat)
  {
    exists g :: g in groups && i in g && j in g
  }

  lemma ConditionEqualIsEquivalence(a: Condition, b: Condition, c: Condition)
    ensures ConditionEqual(a, a)
    ensures ConditionEqual(a, b) ==> ConditionEqual(b, a)
    ensures ConditionEqual(a, b) && ConditionEqual(b, c) ==> ConditionEqual(a, c)
  {
    EqualIsReflexive(a.value);
    if ConditionEqual(a, b) {
      EqualIsSymmetric(a.value, b.value);
      if ConditionEqual(b, c) {
        EqualIsTransitive(a.value, b.value, c.value);
      }
    }
  }

  /** The indices from `index` on whose conditions equal the one at `index`. */
  method Duplicates(conditions: seq<Condition>, index: nat) returns (duplicates: seq<nat>)
    requires index < |conditions|
    ensures duplicates != [] && duplicates[0] == index && Increasing(duplicates)
    ensures forall i | 0 <= i < |duplicates| :: duplicates[i] < |conditions|
    ensures forall j | 0 <= j < |conditions| ::
              j in duplicates <==> index <= j && ConditionEqual(conditions[index], conditions[j])
  {
    duplicates := [];
    ConditionEqualIsEquivalence(conditions[index], conditions[index], conditions[index]);
    for candidate := index to |conditions|
      invariant Increasing(duplicates)
      invariant candidate == index ==> duplicates == []
      invariant candidate > index ==> duplicates != [] && duplicates[0] == index
      invariant forall i | 0 <= i < |duplicates| :: duplicates[i] < candidate
      invariant forall j | 0 <= j < |conditions| ::
        j in duplicates <==> index <= j < candidate && ConditionEqual(conditions[index], conditions[j])
    {
      if LintConditionEqual(conditions[index], conditions[candidate]) {
        duplicates := duplicates + [candidate];
      }
    }
  }

  /** Every group is a class with more than one member, and starts before `n`. */
  predicate ProperClasses(conditions: seq<Condition>, groups: seq<seq<nat>>, n: nat)
  {
    forall g | g in groups :: IsClass(conditions, g) && |g| > 1 && g[0] < n
  }

  /** Every pair of equal conditions that starts before `n` shares a group. */
  predicate PairsGrouped(conditions: seq<Condition>, groups: seq<seq<nat>>, n: nat)
  {
    forall i, j | 0 <= i < j < |conditions| && i < n && ConditionEqual(conditions[i], conditions[j]) ::
      GroupedTogether(groups, i, j)
  }

  /** Groups as the linter reports them: exactly the classes with more than one member, by first member. */
  predicate GroupsOf(conditions: seq<Condition>, groups: seq<seq<nat>>)
  {
    && ProperClasses(conditions, groups, |conditions|)
    && (forall a, b | 0 <= a < b < |groups| :: groups[a][0] < groups[b][0])
    && forall i, j | 0 <= i < j < |conditions| :: GroupedTogether(groups, i, j) <==> ConditionEqual(conditions[i], conditions[j])
  }

  /** `_duplicate_condition_groups`. */
  method DuplicateConditionGroups(conditions: seq<Condition>) returns (groups: seq<seq<nat>>)
    ensures GroupsOf(conditions, groups)
  {
    groups := [];
    var consumed: set<nat> := {};
    for index := 0 to |conditions|
      invariant ProperClasses(conditions, groups, index)
      invariant forall a, b | 0 <= a < b < |groups| :: groups[a][0] < groups[b][0]
      invariant forall i :: i in consumed <==> exists g :: g in groups && i in g
      invariant PairsGrouped(conditions, groups, index)
    {
      if index in consumed {
        GroupOfConsumed(conditions, groups, index);
        continue;
      }
      NothingEarlierIsEqual(conditions, groups, index);
      var duplicates := Duplicates(conditions, index);
      AddClass(conditions, groups, index, duplicates);
      if |duplicates| > 1 {
        groups := groups + [duplicates];
        consumed := consumed + set i | i in duplicates;
      }
    }
    GroupedAreEqual(conditions, groups);
  }

  lemma GroupOfConsumed(conditions: seq<Condition>, groups: seq<seq<nat>>, index: nat)
    requires ProperClasses(conditions, groups, index) && PairsGrouped(conditions, groups, index)
    requires index < |conditions| && exists g :: g in groups && index in g
    ensures PairsGrouped(conditions, groups, index + 1)
  {
    var g :| g in groups && index in g;
    forall i, j | 0 <= i < j < |conditions| && i < index + 1 && ConditionEqual(conditions[i], conditions[j])
      ensures GroupedTogether(groups, i, j)
    {
      if i == index {
        ClassIsClosed(conditions, g, index, j);
      }
    }
  }

  lemma ClassIsClosed(conditions: seq<Condition>, g: seq<nat>, i: nat, j: nat)
    requires IsClass(conditions, g) && i in g
    requires i < |conditions| && j < |conditions| && ConditionEqual(conditions[i], conditions[j])
    ensures j in g
  {
    ConditionEqualIsEquivalence(conditions[g[0]], conditions[i], conditions[j]);
  }

  lemma NothingEarlierIsEqual(conditions: seq<Condition>, groups: seq<seq<nat>>, index: nat)
    requires PairsGrouped(conditions, groups, index)
    requires index < |conditions| && !exists g :: g in groups && index in g
    ensures forall j | 0 <= j < index :: !ConditionEqual(conditions[index], conditions[j])
  {
    forall j | 0 <= j < index ensures !ConditionEqual(conditions[index], conditions[j]) {
      assert !GroupedTogether(groups, j, index);
      ConditionEqualIsEquivalence(conditions[index], conditions[j], conditions[j]);
    }
  }

  /** Adding the class that starts at `index`, when it is not a singleton, groups every pair starting there. */
  lemma AddClass(conditions: seq<Condition>, groups: seq<seq<nat>>, index: nat, duplicates: seq<nat>)
    requires ProperClasses(conditions, groups, index) && PairsGrouped(conditions, groups, index)
    requires index < |conditions| && duplicates != [] && duplicates[0] == index && IsClass(conditions, duplicates)
    ensures |duplicates| == 1 ==> PairsGrouped(conditions, groups, index + 1)
    ensures |duplicates| > 1 ==>
              && ProperClasses(conditions, groups + [duplicates], index + 1)
              && PairsGrouped(conditions, groups + [duplicates], index + 1)
  {
    var more := groups + [duplicates];
    assert duplicates in more;
    forall i, j | 0 <= i < j < |conditions| && i < index + 1 && ConditionEqual(conditions[i], conditions[j])
      ensures GroupedTogether(more, i, j) && (|duplicates| == 1 ==> GroupedTogether(groups, i, j))
    {
      if i < index {
        var g :| g in groups && i in g && j in g;
        assert g in more;
      } else {
        assert i in duplicates && j in duplicates;
      }
    }
  }

  lemma GroupedAreEqual(conditions: seq<Condition>, groups: seq<seq<nat>>)
    requires ProperClasses(conditions, groups, |conditions|) && PairsGrouped(conditions, groups, |conditions|)
    ensures forall i, j | 0 <= i < j < |conditions| ::
              GroupedTogether(groups, i, j) <==> ConditionEqual(conditions[i], conditions[j])
  {
    forall i, j | 0 <= i < j < |conditions| && GroupedTogether(groups, i, j)
      ensures ConditionEqual(conditions[i], conditions[j])
    {
      var g :| g in groups && i in g && j in g;
      ConditionEqualIsEquivalence(conditions[g[0]], conditions[i], conditions[j]);
      ConditionEqualIsEquivalence(conditions[i], conditions[g[0]], conditions[j]);
    }
  }

  /** The condition is a repetition: some group holds it after its first member. */
  predicate Repeats(groups: seq<seq<nat>>, index: nat)
  {
    exists g :: g in groups && g != [] && index in g && g[0] != index
  }

  /** The repetitions are exactly the conditions that equal an earlier one. */
  lemma RepetitionsAreLater(conditions: seq<Condition>, groups: seq<seq<nat>>, index: nat)
    requires GroupsOf(conditions, groups) && index < |conditions|
    ensures Repeats(groups, index) <==> exists first :: 0 <= first < index && ConditionEqual(conditions[first], conditions[index])
  {
    if Repeats(groups, index) {
      var first := RepetitionHasEarlierCopy(conditions, groups, index);
    }
    if first: nat :| first < index && ConditionEqual(conditions[first], conditions[index]) {
      assert GroupedTogether(groups, first, index);
      var g :| g in groups && first in g && index in g;
      var k :| 0 <= k < |g| && g[k] == first;
      assert g[0] <= g[k];
    }
  }

  /** The first `n` conditions without those that some group marks as repetitions. */
  function DropRepetitions(conditions: seq<Condition>, groups: seq<seq<nat>>, n: nat): seq<Condition>
    requires n <= |conditions|
  {
    if n == 0 then []
    else
      var before := DropRepetitions(conditions, groups, n - 1);
      if Repeats(groups, n - 1) then before else before + [conditions[n - 1]]
  }

  lemma {:induction false} RuleResultOfMore(context: Json, conditions: seq<Condition>, last: Condition)
    ensures RuleResult(context, conditions + [last]) ==
            if RuleResult(context, conditions) == Ok(true) then EvaluateCondition(context, last) else RuleResult(context, conditions)
  {
    if conditions == [] {
      assert conditions + [last] == [last];
      assert RuleResult(context, [last]) ==
             match EvaluateCondition(context, last)
             case Err(e) => Err(e)
             case Ok(matched) => if matched then RuleResult(context, [last][1..]) else Ok(false);
    } else {
      RuleResultOfMore(context, conditions[1..], last);
      assert (conditions + [last])[1..] == conditions[1..] + [last];
    }
  }

  lemma RepetitionHasEarlierCopy(conditions: seq<Condition>, groups: seq<seq<nat>>, index: nat) returns (first: nat)
    requires GroupsOf(conditions, groups) && index < |conditions| && Repeats(groups, index)
    ensures first < index && ConditionEqual(conditions[first], conditions[index])
  {
    var g :| g in groups && g != [] && index in g && g[0] != index;
    first := g[0];
    var k :| 0 <= k < |g| && g[k] == index;
    assert g[0] < g[k];
  }

  /** A repetition adds nothing to the result of the conditions before it. */
  lemma RepetitionIsSettled(context: Json, conditions: seq<Condition>, groups: seq<seq<nat>>, index: nat)
    requires GroupsOf(conditions, groups) && index < |conditions| && Repeats(groups, index)
    requires RuleResult(context, conditions[..index]) == Ok(true)
    ensures EvaluateCondition(context, conditions[index]) == Ok(true)
  {
    var first := RepetitionHasEarlierCopy(conditions, groups, index);
    EqualIsReflexive(context);
    EvaluationRespectsEqual(context, context, conditions[first], conditions[index]);
    RuleApplies(context, conditions[..index]);
    assert conditions[..index][first] == conditions[first];
  }

  lemma {:induction false} DroppingKeepsPrefix(context: Json, conditions: seq<Condition>, groups: seq<seq<nat>>, n: nat)
    requires GroupsOf(conditions, groups) && n <= |conditions|
    ensures RuleResult(context, DropRepetitions(conditions, groups, n)) == RuleResult(context, conditions[..n])
  {
    hide GroupsOf, RuleResult, EvaluateCondition, Repeats;
    if n > 0 {
      DroppingKeepsPrefix(context, conditions, groups, n - 1);
      var last := conditions[n - 1];
      assert conditions[..n] == conditions[..n - 1] + [last];
      RuleResultOfMore(context, conditions[..n - 1], last);
      if Repeats(groups, n - 1) {
        if RuleResult(context, conditions[..n - 1]) == Ok(true) {
          RepetitionIsSettled(context, conditions, groups, n - 1);
        }
      } else {
        RuleResultOfMore(context, DropRepetitions(conditions, groups, n - 1), last);
      }
    }
  }

  /** Dropping every repetition the linter reports changes neither the rule's result nor its error. */
  lemma DroppingRepetitionsKeepsResult(context: Json, conditions: seq<Condition>, groups: seq<seq<nat>>)
    requires GroupsOf(conditions, groups)
    ensures RuleResult(context, DropRepetitions(conditions, groups, |conditions|)) == RuleResult(context, conditions)
  {
    DroppingKeepsPrefix(context, conditions, groups, |conditions|);
    assert conditions[..|conditions|] == conditions;
  }
}
