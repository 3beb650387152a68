/** When a rule that the linter does not report applies to some input the engine accepts. */
module LinterInputs {
  import opened Wrappers
  import opened Strings
  import opened JsonValues
  import opened JsonBounds
  import opened Models
  import opened Engine
  import opened EngineLaws
  import opened Contradictions
  import opened Placement
  import opened LinterExactness
  import ContractCoherence

  function ItemCounts(items: seq<Json>): seq<nat>
  {
    seq(|items|, i requires 0 <= i < |items| => ContainerItems(items[i]))
  }

  /** At most what a field adds to the witness: the segments, one key more, and the items of any listed option. */
  function FieldCost(conditions: seq<Condition>, field: string): nat
  {
    |Split(field)| + 1 + if Listed(conditions, field) then SumSeq(ItemCounts(Options(conditions, field))) else 0
  }

  function Cost(conditions: seq<Condition>, fields: seq<string>): nat
  {
    if fields == [] then 0 else FieldCost(conditions, fields[0]) + Cost(conditions, fields[1..])
  }

  /** The field and the values listed for it fit the depth limit. */
  predicate FieldFits(conditions: seq<Condition>, field: string)
  {
    && |Split(field)| + 2 <= MAX_JSON_DEPTH
    && (Listed(conditions, field) ==>
          forall k | 0 <= k < |Options(conditions, field)| :: Bounded(Options(conditions, field)[k], |Split(field)| + 1))
  }

  /** The fields that must be present, with the values listed for them, fit the bounds on inputs. */
  predicate FitsInput(conditions: seq<Condition>)
  {
    && (forall i | 0 <= i < |conditions| && !MustBeAbsent(conditions, conditions[i].field) ::
          FieldFits(conditions, conditions[i].field))
    && Cost(conditions, FieldsOf(conditions, |conditions|)) <= MAX_CONTAINER_ITEMS
  }

  ghost predicate AcceptsInput(conditions: seq<Condition>)
  {
    exists context :: InputAccepted(None, context) && RuleResult(context, conditions) == Ok(true)
  }

  lemma {:induction false} SetAddsAtMost(value: Json, parts: seq<string>, leaf: Json)
    ensures ContainerItems(SetPath(value, parts, leaf)) <= ContainerItems(value) + |parts| + ContainerItems(leaf)
    decreases |parts|
  {
    if parts != [] {
      var fields := if value.Obj? then value.fields else map[];
      var key := parts[0];
      var child := if key in fields then fields[key] else Obj(map[]);
      SetAddsAtMost(child, parts[1..], leaf);
      var placed := SetPath(child, parts[1..], leaf);
      EmptyHasNone(map[]);
      if key in fields {
        ItemsOfUpdate(fields, key, placed);
      } else {
        ItemsOfExtension(fields, key, placed);
      }
    }
  }

  lemma EmptyHasNone(fields: map<string, Json>)
    requires fields == map[]
    ensures ContainerItems(Obj(fields)) == 0
  {
    ItemsOfObject(fields);
    assert FieldCounts(fields) == map[];
  }

  function PlanItems(plan: seq<Placed>): nat
  {
    if plan == [] then 0 else |plan[0].path| + ContainerItems(plan[0].value) + PlanItems(plan[1..])
  }

  lemma {:induction false} PlacedFits(plan: seq<Placed>)
    requires forall i | 0 <= i < |plan| :: Bounded(plan[i].value, 1 + |plan[i].path|)
    ensures Bounded(PlaceAll(plan), 1) && ContainerItems(PlaceAll(plan)) <= PlanItems(plan)
  {
    if plan == [] {
      EmptyHasNone(map[]);
    } else {
      assert forall k | 0 <= k < |plan[1..]| :: plan[1..][k] == plan[k + 1];
      PlacedFits(plan[1..]);
      ContractCoherence.SetIsBounded(PlaceAll(plan[1..]), plan[0].path, plan[0].value, 1);
      SetAddsAtMost(PlaceAll(plan[1..]), plan[0].path, plan[0].value);
    }
  }

  /** What is placed for a field fits the depth limit and stays within its cost. */
  lemma PlacementFits(conditions: seq<Condition>, field: string)
    requires FieldFits(conditions, field) && (Listed(conditions, field) ==> SomeOptionAgrees(conditions, field))
    ensures var placed := PlacementOf(conditions, field);
            && Bounded(placed.value, 1 + |placed.path|)
            && |placed.path| + ContainerItems(placed.value) <= FieldCost(conditions, field)
  {
    hide AgreesBelow;
    if Listed(conditions, field) {
      var options, v := Options(conditions, field), Chosen(conditions, field);
      var k :| 0 <= k < |options| && options[k] == v;
      SumSeqAtLeast(ItemCounts(options), k);
    }
  }

  lemma {:induction false} PlanCost(conditions: seq<Condition>, fields: seq<string>)
    requires Choosable(conditions, RootsOf(conditions, fields))
    requires forall i | 0 <= i < |fields| && IsRoot(conditions, fields[i]) :: FieldFits(conditions, fields[i])
    ensures PlanItems(PlanOf(conditions, RootsOf(conditions, fields))) <= Cost(conditions, fields)
  {
    hide IsRoot, FieldFits, PlacementOf, FieldCost, SomeOptionAgrees, Listed;
    if fields != [] {
      var roots, rest := RootsOf(conditions, fields), RootsOf(conditions, fields[1..]);
      assert forall i | 0 <= i < |fields[1..]| :: fields[1..][i] == fields[i + 1];
      if IsRoot(conditions, fields[0]) {
        assert roots[0] == fields[0] && roots[1..] == rest;
        assert forall i | 0 <= i < |rest| :: rest[i] == roots[i + 1];
        PlanCost(conditions, fields[1..]);
        PlacementFits(conditions, fields[0]);
        assert PlanOf(conditions, roots)[1..] == PlanOf(conditions, rest);
      } else {
        assert roots == rest;
        PlanCost(conditions, fields[1..]);
      }
    }
  }

  lemma RootFits(conditions: seq<Condition>, field: string)
    requires FitsInput(conditions) && IsRoot(conditions, field)
    ensures FieldFits(conditions, field)
  {
    hide FieldFits, FieldsOf, Listed;
    RootIsUsed(conditions, field);
    var i :| 0 <= i < |conditions| && conditions[i].field == field;
  }

  lemma PlanFits(conditions: seq<Condition>, roots: seq<string>, i: nat)
    requires FitsInput(conditions) && Choosable(conditions, roots) && i < |roots|
    ensures Bounded(PlanOf(conditions, roots)[i].value, 1 + |PlanOf(conditions, roots)[i].path|)
  {
    hide FitsInput, FieldFits, IsRoot, Listed, PlacementOf, SomeOptionAgrees;
    RootFits(conditions, roots[i]);
    PlacementFits(conditions, roots[i]);
  }

  lemma {:induction false} WitnessIsAccepted(conditions: seq<Condition>, roots: seq<string>)
    requires FitsInput(conditions) && IsPlan(conditions, roots)
    requires roots == RootsOf(conditions, FieldsOf(conditions, |conditions|))
    ensures InputAccepted(None, PlaceAll(PlanOf(conditions, roots)))
  {
    hide FieldsOf, RootsOf, FieldFits, IsRoot, Choosable, PlaceAll, PlanItems, Bounded;
    var fields, plan := FieldsOf(conditions, |conditions|), PlanOf(conditions, roots);
    forall i | 0 <= i < |plan| ensures Bounded(plan[i].value, 1 + |plan[i].path|) {
      PlanFits(conditions, roots, i);
    }
    PlacedFits(plan);
    forall i | 0 <= i < |fields| && IsRoot(conditions, fields[i]) ensures FieldFits(conditions, fields[i]) {
      RootFits(conditions, fields[i]);
    }
    PlanCost(conditions, fields);
    PlanIsApart(conditions, roots);
    PlaceAllIsObject(plan);
  }

  /**
   Exactness over accepted inputs: when the fields that must be present fit the bounds on inputs, an
   unreported rule of the fragment applies to some input the engine accepts, or to nothing at all.
   */
  lemma UnreportedAppliesToInput(conditions: seq<Condition>)
    requires AllInFragment(conditions) && ImpossibleIndices(conditions) == [] && FitsInput(conditions)
    ensures AcceptsInput(conditions) <==> NestingAgrees(conditions)
  {
    UnreportedApplies(conditions);
    if NestingAgrees(conditions) {
      var roots := PlanExists(conditions);
      hide AllInFragment, ImpossibleIndices, FitsInput, NestingAgrees, IsPlan, PlaceAll;
      WitnessEverywhere(conditions, roots);
      AppliesWhereAgreeing(conditions, PlaceAll(PlanOf(conditions, roots)));
      WitnessIsAccepted(conditions, roots);
    }
  }

  /** A bound is needed: an input that satisfies the rule has every field that must be present within its depth. */
  lemma InputsReachFields(conditions: seq<Condition>, context: Json, i: nat)
    requires AllInFragment(conditions) && i < |conditions|
    requires InputAccepted(None, context) && RuleResult(context, conditions) == Ok(true)
    requires !MustBeAbsent(conditions, conditions[i].field)
    ensures |Split(conditions[i].field)| + 1 <= MAX_JSON_DEPTH
  {
    RuleApplies(context, conditions);
    HoldingAgrees(conditions, context, i);
    ContractCoherence.FoundIsBounded(context, Split(conditions[i].field), 1);
  }
}
