/**
 Completeness of the contradiction check on presence tests and literal (in)equality and membership: when
 it reports nothing, exactly how the fields of a rule may lie below one another for the rule to apply at all.
 */
module LinterExactness {
  import opened Wrappers
  import opened Strings
  import opened JsonValues
  import opened Models
  import opened Engine
  import opened EngineLaws
  import opened Diagnostics
  import opened Contradictions
  import opened Placement

  /** A presence test, or a literal eq, neq, in or not_in. */
  predicate InFragment(c: Condition)
  {
    ValidCondition(c) && (TakesNoValue(c.operator) || Relevant(c))
  }

  predicate AllInFragment(conditions: seq<Condition>)
  {
    forall i | 0 <= i < |conditions| :: InFragment(conditions[i])
  }

  predicate UsedField(conditions: seq<Condition>, field: string)
  {
    exists i :: 0 <= i < |conditions| && conditions[i].field == field
  }

  function OwnIndices(conditions: seq<Condition>, field: string): (indices: seq<nat>)
    ensures InRange(conditions, indices)
  {
    IndicesOf(conditions, field, |conditions|)
  }

  predicate MustBeAbsent(conditions: seq<Condition>, field: string)
  {
    HasOperator(conditions, OwnIndices(conditions, field), true)
  }

  predicate NothingReported(conditions: seq<Condition>, fields: seq<string>)
  {
    forall i | 0 <= i < |fields| :: FieldReport(conditions, OwnIndices(conditions, fields[i])) == []
  }

  lemma {:induction false} NoFirstReport(conditions: seq<Condition>, fields: seq<string>)
    ensures FirstReport(conditions, fields) == [] <==> NothingReported(conditions, fields)
  {
    if fields != [] {
      NoFirstReport(conditions, fields[1..]);
      assert forall i | 0 <= i < |fields[1..]| :: fields[1..][i] == fields[i + 1];
      if NothingReported(conditions, fields[1..]) && FieldReport(conditions, OwnIndices(conditions, fields[0])) == [] {
        forall i | 0 <= i < |fields| ensures FieldReport(conditions, OwnIndices(conditions, fields[i])) == [] {
          assert i == 0 || fields[i] == fields[1..][i - 1];
        }
      }
    }
  }

  lemma NothingReportedOn(conditions: seq<Condition>, field: string)
    requires ImpossibleIndices(conditions) == [] && UsedField(conditions, field)
    ensures FieldReport(conditions, OwnIndices(conditions, field)) == []
  {
    hide FieldsOf, FieldReport, FirstReport;
    var fields := FieldsOf(conditions, |conditions|);
    NoFirstReport(conditions, fields);
    UsedIsAmongFields(conditions, field);
    var k :| 0 <= k < |fields| && fields[k] == field;
  }

  lemma UsedIsAmongFields(conditions: seq<Condition>, field: string)
    ensures field in FieldsOf(conditions, |conditions|) <==> UsedField(conditions, field)
  {
    hide FieldsOf;
  }

  // ----- The condition on nested fields

  /** What is found at a field is what its conditions ask for. */
  predicate AgreesAt(conditions: seq<Condition>, field: string, found: Option<Json>)
  {
    if MustBeAbsent(conditions, field) then found.None?
    else found.Some? && MeetsAll(conditions, OwnIndices(conditions, field), found.value)
  }

  /** The literal conditions on the field list the values it may have. */
  predicate Listed(conditions: seq<Condition>, field: string)
  {
    Allowed(conditions, OwnIndices(conditions, field)).Some?
  }

  /** The listed values that no other condition on the field excludes. */
  function Options(conditions: seq<Condition>, field: string): seq<Json>
    requires Listed(conditions, field)
  {
    Remaining(Allowed(conditions, OwnIndices(conditions, field)).value, Excluded(conditions, OwnIndices(conditions, field)))
  }

  function Below(outer: string, inner: string): seq<string>
    requires Split(outer) <= Split(inner)
  {
    Split(inner)[|Split(outer)|..]
  }

  /** With `v` at the field, every field below it is found as its own conditions ask. */
  predicate AgreesBelow(conditions: seq<Condition>, field: string, v: Json)
  {
    forall i | 0 <= i < |conditions| && Split(field) < Split(conditions[i].field) ::
      AgreesAt(conditions, conditions[i].field, Lookup(v, Below(field, conditions[i].field)))
  }

  predicate SomeOptionAgrees(conditions: seq<Condition>, field: string)
    requires Listed(conditions, field)
  {
    exists k | 0 <= k < |Options(conditions, field)| :: AgreesBelow(conditions, field, Options(conditions, field)[k])
  }

  /** No field that must be absent lies above one that must be present. */
  predicate NothingBelowAbsent(conditions: seq<Condition>)
  {
    forall i, j | 0 <= i < |conditions| && 0 <= j < |conditions| && Split(conditions[i].field) < Split(conditions[j].field) ::
      MustBeAbsent(conditions, conditions[i].field) ==> MustBeAbsent(conditions, conditions[j].field)
  }

  /** Every field with a list of values has one left that agrees with the conditions on the fields below it. */
  predicate ListsAgreeBelow(conditions: seq<Condition>)
  {
    forall i | 0 <= i < |conditions| && !MustBeAbsent(conditions, conditions[i].field) && Listed(conditions, conditions[i].field) ::
      SomeOptionAgrees(conditions, conditions[i].field)
  }

  predicate NestingAgrees(conditions: seq<Condition>)
  {
    NothingBelowAbsent(conditions) && ListsAgreeBelow(conditions)
  }

  // ----- Contexts that satisfy a rule

  /** Every field of the rule is found as its conditions ask. */
  predicate AgreesEverywhere(conditions: seq<Condition>, context: Json)
  {
    forall i | 0 <= i < |conditions| :: AgreesAt(conditions, conditions[i].field, At(context, conditions[i].field))
  }

  /** A condition holds where its field is found as asked. */
  lemma AgreeingHolds(conditions: seq<Condition>, context: Json, i: nat)
    requires AllInFragment(conditions) && i < |conditions|
    requires FieldReport(conditions, OwnIndices(conditions, conditions[i].field)) == []
    requires AgreesAt(conditions, conditions[i].field, At(context, conditions[i].field))
    ensures EvaluateCondition(context, conditions[i]) == Ok(true)
  {
    var c, indices := conditions[i], OwnIndices(conditions, conditions[i].field);
    assert i in indices;
    var k :| 0 <= k < |indices| && indices[k] == i;
    assert InFragment(c);
    if Relevant(c) && At(context, c.field).Some? {
      RelevantMeansMeets(context, c);
    }
  }

  lemma HoldingAgrees(conditions: seq<Condition>, context: Json, i: nat)
    requires AllInFragment(conditions) && i < |conditions|
    requires forall k | 0 <= k < |conditions| :: EvaluateCondition(context, conditions[k]) == Ok(true)
    ensures AgreesAt(conditions, conditions[i].field, At(context, conditions[i].field))
  {
    var field := conditions[i].field;
    var indices := OwnIndices(conditions, field);
    IndicesAreOnField(conditions, field);
    if MustBeAbsent(conditions, field) {
      var k :| 0 <= k < |indices| && conditions[indices[k]].operator.OpNotExists?;
      HoldsNeedsPresence(context, conditions[indices[k]]);
    } else {
      assert i in indices;
      HoldsNeedsPresence(context, conditions[i]);
      forall k | 0 <= k < |indices| && Relevant(conditions[indices[k]])
        ensures Meets(At(context, field).value, conditions[indices[k]])
      {
        assert InFragment(conditions[indices[k]]);
        RelevantMeansMeets(context, conditions[indices[k]]);
      }
    }
  }

  /** Without a report, a rule of the fragment applies exactly where all its fields agree. */
  lemma AppliesWhereAgreeing(conditions: seq<Condition>, context: Json)
    requires AllInFragment(conditions) && ImpossibleIndices(conditions) == []
    ensures RuleResult(context, conditions) == Ok(true) <==> AgreesEverywhere(conditions, context)
  {
    RuleApplies(context, conditions);
    if AgreesEverywhere(conditions, context) {
      forall i | 0 <= i < |conditions| ensures EvaluateCondition(context, conditions[i]) == Ok(true) {
        NothingReportedOn(conditions, conditions[i].field);
        AgreeingHolds(conditions, context, i);
      }
    }
    if RuleResult(context, conditions) == Ok(true) {
      forall i | 0 <= i < |conditions|
        ensures AgreesAt(conditions, conditions[i].field, At(context, conditions[i].field))
      {
        HoldingAgrees(conditions, context, i);
      }
    }
  }

  // ----- The condition is necessary

  lemma AbsentAboveAgrees(conditions: seq<Condition>, context: Json, i: nat, j: nat)
    requires AgreesEverywhere(conditions, context) && i < |conditions| && j < |conditions|
    requires Split(conditions[i].field) < Split(conditions[j].field) && MustBeAbsent(conditions, conditions[i].field)
    ensures MustBeAbsent(conditions, conditions[j].field)
  {
    var outer, inner := Split(conditions[i].field), Split(conditions[j].field);
    PrefixSplits(outer, inner);
    LookupGoesOn(context, outer, inner[|outer|..]);
    assert AgreesAt(conditions, conditions[i].field, At(context, conditions[i].field));
    assert AgreesAt(conditions, conditions[j].field, At(context, conditions[j].field));
  }

  /** What agrees at a field still does when it is replaced by an equal value. */
  lemma AgreesAtEqual(conditions: seq<Condition>, field: string, found: Option<Json>, other: Option<Json>)
    requires AgreesAt(conditions, field, found)
    requires found.None? == other.None? && (found.Some? ==> JsonEqual(found.value, other.value))
    ensures AgreesAt(conditions, field, other)
  {
    if found.Some? {
      var indices := OwnIndices(conditions, field);
      forall k | 0 <= k < |indices| && Relevant(conditions[indices[k]]) ensures Meets(other.value, conditions[indices[k]]) {
        var c := conditions[indices[k]];
        assert Meets(found.value, c);
        AnyEqualOfEqual(found.value, other.value, Exclusions(c));
        if Candidates(c).Some? {
          AnyEqualOfEqual(found.value, other.value, Candidates(c).value);
        }
      }
    }
  }

  /** The value found at a listed field is equal to an option, which therefore agrees below. */
  lemma FoundOptionAgrees(conditions: seq<Condition>, context: Json, i: nat)
    requires AgreesEverywhere(conditions, context) && i < |conditions|
    requires !MustBeAbsent(conditions, conditions[i].field) && Listed(conditions, conditions[i].field)
    ensures SomeOptionAgrees(conditions, conditions[i].field)
  {
    var field := conditions[i].field;
    var indices := OwnIndices(conditions, field);
    assert AgreesAt(conditions, field, At(context, field));
    var found := At(context, field).value;
    ListsMeanConditions(conditions, indices, found);
    RemainingMeans(found, Allowed(conditions, indices).value, Excluded(conditions, indices));
    var options := Options(conditions, field);
    var k :| 0 <= k < |options| && JsonEqual(found, options[k]);
    forall j | 0 <= j < |conditions| && Split(field) < Split(conditions[j].field)
      ensures AgreesAt(conditions, conditions[j].field, Lookup(options[k], Below(field, conditions[j].field)))
    {
      var rest := Below(field, conditions[j].field);
      assert AgreesAt(conditions, conditions[j].field, At(context, conditions[j].field));
      PrefixSplits(Split(field), Split(conditions[j].field));
      LookupGoesOn(context, Split(field), rest);
      LookupRespectsEqual(found, options[k], rest);
      AgreesAtEqual(conditions, conditions[j].field, Lookup(found, rest), Lookup(options[k], rest));
    }
    assert AgreesBelow(conditions, field, options[k]);
  }

  lemma AgreementNeedsNesting(conditions: seq<Condition>, context: Json)
    requires AgreesEverywhere(conditions, context)
    ensures NestingAgrees(conditions)
  {
    forall i, j | 0 <= i < |conditions| && 0 <= j < |conditions| && Split(conditions[i].field) < Split(conditions[j].field)
      ensures MustBeAbsent(conditions, conditions[i].field) ==> MustBeAbsent(conditions, conditions[j].field)
    {
      if MustBeAbsent(conditions, conditions[i].field) {
        AbsentAboveAgrees(conditions, context, i, j);
      }
    }
    forall i | 0 <= i < |conditions| && !MustBeAbsent(conditions, conditions[i].field) && Listed(conditions, conditions[i].field)
      ensures SomeOptionAgrees(conditions, conditions[i].field)
    {
      FoundOptionAgrees(conditions, context, i);
    }
  }

  // ----- The condition is sufficient

  /** A key that none of the given strings is. */
  lemma {:induction false} LongerThanAll(texts: set<string>) returns (bound: nat)
    ensures forall t | t in texts :: |t| < bound
  {
    bound := 0;
    if texts != {} {
      var some :| some in texts;
      var rest := LongerThanAll(texts - {some});
      bound := if rest > |some| then rest else |some| + 1;
    }
  }

  lemma FreshExists(texts: set<string>)
    ensures exists unused: string :: unused !in texts
  {
    var bound := LongerThanAll(texts);
    var unused := seq(bound, _ => 'a');
    assert |unused| == bound;
    assert unused !in texts;
  }

  /** The segments of all fields, and the keys of all objects that some condition excludes. */
  function Reserved(conditions: seq<Condition>): set<string>
  {
    (set i, k | 0 <= i < |conditions| && 0 <= k < |Split(conditions[i].field)| :: Split(conditions[i].field)[k])
    + (set i, j, key | 0 <= i < |conditions| && 0 <= j < |ExcludedOn(conditions, conditions[i].field)|
                       && ExcludedOn(conditions, conditions[i].field)[j].Obj?
                       && key in ExcludedOn(conditions, conditions[i].field)[j].fields :: key)
  }

  function ExcludedOn(conditions: seq<Condition>, field: string): seq<Json>
  {
    Excluded(conditions, OwnIndices(conditions, field))
  }

  ghost function FreshKeyFor(conditions: seq<Condition>): (unused: string)
    ensures unused !in Reserved(conditions)
  {
    FreshExists(Reserved(conditions));
    var unused: string :| unused !in Reserved(conditions);
    unused
  }

  lemma FreshIsNoSegment(conditions: seq<Condition>, field: string)
    requires UsedField(conditions, field)
    ensures FreshKeyFor(conditions) !in Split(field)
  {
    var i :| 0 <= i < |conditions| && conditions[i].field == field;
    forall k | 0 <= k < |Split(field)| ensures Split(field)[k] != FreshKeyFor(conditions) {
      assert Split(conditions[i].field)[k] in Reserved(conditions);
    }
  }

  lemma ExcludedKeysAreReserved(conditions: seq<Condition>, i: nat, j: nat)
    requires i < |conditions| && j < |ExcludedOn(conditions, conditions[i].field)|
    requires ExcludedOn(conditions, conditions[i].field)[j].Obj?
    ensures ExcludedOn(conditions, conditions[i].field)[j].fields.Keys <= Reserved(conditions)
  {
    hide ExcludedOn;
  }

  /** An object with the unused key equals no excluded value. */
  lemma FreshObjectAgrees(conditions: seq<Condition>, field: string, v: Json)
    requires UsedField(conditions, field) && !Listed(conditions, field)
    requires v.Obj? && FreshKeyFor(conditions) in v.fields
    ensures MeetsAll(conditions, OwnIndices(conditions, field), v)
  {
    ListsMeanConditions(conditions, OwnIndices(conditions, field), v);
    hide Reserved, Excluded, MeetsAll, JsonEqual;
    var i :| 0 <= i < |conditions| && conditions[i].field == field;
    var excluded := ExcludedOn(conditions, field);
    forall j | 0 <= j < |excluded| ensures !JsonEqual(v, excluded[j]) {
      if excluded[j].Obj? {
        ExcludedKeysAreReserved(conditions, i, j);
      }
      DifferentKeys(v, excluded[j], FreshKeyFor(conditions));
    }
  }

  lemma DifferentKeys(v: Json, other: Json, key: string)
    requires v.Obj? && key in v.fields && (other.Obj? ==> key !in other.fields)
    ensures !JsonEqual(v, other)
  {
  }

  /** The field lies below one whose value is chosen from a list. */
  predicate Covered(conditions: seq<Condition>, field: string)
  {
    exists j | 0 <= j < |conditions| :: Covers(conditions, conditions[j].field, field)
  }

  predicate Covers(conditions: seq<Condition>, outer: string, field: string)
  {
    Split(outer) < Split(field) && !MustBeAbsent(conditions, outer) && Listed(conditions, outer)
  }

  lemma {:induction false} OutermostCover(conditions: seq<Condition>, field: string) returns (outer: string)
    requires Covered(conditions, field)
    ensures UsedField(conditions, outer) && Covers(conditions, outer, field) && !Covered(conditions, outer)
    decreases |Split(field)|
  {
    hide MustBeAbsent, Listed;
    var j :| 0 <= j < |conditions| && Covers(conditions, conditions[j].field, field);
    outer := conditions[j].field;
    if Covered(conditions, outer) {
      outer := OutermostCover(conditions, outer);
    }
  }

  /** The fields at which the witness is built: present, and below no listed one. */
  predicate IsRoot(conditions: seq<Condition>, field: string)
  {
    UsedField(conditions, field) && !MustBeAbsent(conditions, field) && !Covered(conditions, field)
  }

  ghost function Chosen(conditions: seq<Condition>, field: string): (v: Json)
    requires Listed(conditions, field) && SomeOptionAgrees(conditions, field)
    ensures v in Options(conditions, field) && AgreesBelow(conditions, field, v)
  {
    var k :| 0 <= k < |Options(conditions, field)| && AgreesBelow(conditions, field, Options(conditions, field)[k]);
    Options(conditions, field)[k]
  }

  /** A listed root gets its chosen value; any other root becomes an object with an unused key. */
  ghost function PlacementOf(conditions: seq<Condition>, field: string): Placed
    requires Listed(conditions, field) ==> SomeOptionAgrees(conditions, field)
  {
    if Listed(conditions, field) then Placed(Split(field), Chosen(conditions, field))
    else Placed(Split(field) + [FreshKeyFor(conditions)], Null)
  }

  predicate Choosable(conditions: seq<Condition>, fields: seq<string>)
  {
    forall i | 0 <= i < |fields| ::
      IsRoot(conditions, fields[i]) && (Listed(conditions, fields[i]) ==> SomeOptionAgrees(conditions, fields[i]))
  }

  ghost function PlanOf(conditions: seq<Condition>, roots: seq<string>): (plan: seq<Placed>)
    requires Choosable(conditions, roots)
    ensures |plan| == |roots|
    ensures forall i | 0 <= i < |roots| :: plan[i] == PlacementOf(conditions, roots[i])
  {
    seq(|roots|, i requires 0 <= i < |roots| => PlacementOf(conditions, roots[i]))
  }

  function RootsOf(conditions: seq<Condition>, fields: seq<string>): seq<string>
  {
    if fields == [] then []
    else (if IsRoot(conditions, fields[0]) then [fields[0]] else []) + RootsOf(conditions, fields[1..])
  }

  lemma {:induction false} RootsAre(conditions: seq<Condition>, fields: seq<string>)
    requires forall i, j | 0 <= i < j < |fields| :: fields[i] != fields[j]
    ensures forall f :: f in RootsOf(conditions, fields) <==> f in fields && IsRoot(conditions, f)
    ensures forall i, j | 0 <= i < j < |RootsOf(conditions, fields)| ::
              RootsOf(conditions, fields)[i] != RootsOf(conditions, fields)[j]
  {
    hide IsRoot;
    if fields != [] {
      RootsAre(conditions, fields[1..]);
      assert fields == [fields[0]] + fields[1..];
      assert fields[0] !in fields[1..];
    }
  }

  lemma RootsAreApart(conditions: seq<Condition>, f: string, g: string)
    requires IsRoot(conditions, f) && IsRoot(conditions, g) && f != g
    requires Listed(conditions, f) ==> SomeOptionAgrees(conditions, f)
    requires Listed(conditions, g) ==> SomeOptionAgrees(conditions, g)
    ensures Independent(PlacementOf(conditions, f).path, PlacementOf(conditions, g).path)
  {
    NotBelow(conditions, f, g);
    NotBelow(conditions, g, f);
  }

  /** A path without the unused key that leads to that key leads through what is before it. */
  lemma WithoutKey(p: seq<string>, q: seq<string>, key: string)
    requires p <= q + [key] && key !in p
    ensures p <= q
  {
    assert forall k | 0 <= k < |p| :: p[k] == (q + [key])[k] && p[k] != key;
    assert (q + [key])[|q|] == key;
  }

  lemma WithKey(p: seq<string>, q: seq<string>, key: string)
    requires p + [key] <= q + [key] && key !in q
    ensures p == q
  {
    assert (q + [key])[|p|] == (p + [key])[|p|];
    assert p == (p + [key])[..|p|] == (q + [key])[..|p|];
  }

  lemma KeyIsBeyond(p: seq<string>, q: seq<string>, key: string)
    requires key !in q
    ensures !(p + [key] <= q)
  {
    assert (p + [key])[|p|] == key;
  }

  lemma SplitIsInjective(f: string, g: string)
    requires Split(f) == Split(g)
    ensures f == g
  {
    JoinSplit(f);
    JoinSplit(g);
  }

  /** The place of one root is not at or above that of another. */
  lemma NotBelow(conditions: seq<Condition>, f: string, g: string)
    requires IsRoot(conditions, f) && IsRoot(conditions, g) && f != g
    requires Listed(conditions, f) ==> SomeOptionAgrees(conditions, f)
    requires Listed(conditions, g) ==> SomeOptionAgrees(conditions, g)
    ensures !(PlacementOf(conditions, f).path <= PlacementOf(conditions, g).path)
  {
    hide MustBeAbsent, Listed, SomeOptionAgrees, Reserved, IsRoot;
    var p, q, unused := Split(f), Split(g), FreshKeyFor(conditions);
    RootIsUsed(conditions, f);
    RootIsUsed(conditions, g);
    FreshIsNoSegment(conditions, f);
    FreshIsNoSegment(conditions, g);
    if PlacementOf(conditions, f).path <= PlacementOf(conditions, g).path {
      if Listed(conditions, f) {
        if !Listed(conditions, g) {
          WithoutKey(p, q, unused);
        }
        ListedIsNotAbove(conditions, f, g);
      } else if Listed(conditions, g) {
        KeyIsBeyond(p, q, unused);
      } else {
        WithKey(p, q, unused);
        SplitIsInjective(f, g);
      }
    }
  }

  lemma RootIsUsed(conditions: seq<Condition>, field: string)
    requires IsRoot(conditions, field)
    ensures UsedField(conditions, field) && !MustBeAbsent(conditions, field)
  {
  }

  lemma ListedIsNotAbove(conditions: seq<Condition>, f: string, g: string)
    requires IsRoot(conditions, f) && IsRoot(conditions, g) && f != g && Listed(conditions, f)
    ensures !(Split(f) <= Split(g))
  {
    hide MustBeAbsent, Listed;
    var i :| 0 <= i < |conditions| && conditions[i].field == f;
    if Split(f) == Split(g) {
      SplitIsInjective(f, g);
    } else {
      assert Covers(conditions, conditions[i].field, g) <==> Split(f) < Split(g);
    }
  }

  lemma PlanIsApart(conditions: seq<Condition>, roots: seq<string>)
    requires Choosable(conditions, roots) && forall i, j | 0 <= i < j < |roots| :: roots[i] != roots[j]
    ensures Apart(PlanOf(conditions, roots))
    ensures forall i | 0 <= i < |roots| :: PlanOf(conditions, roots)[i].path != []
  {
    hide IsRoot, Listed, SomeOptionAgrees, PlacementOf;
    forall i, j | 0 <= i < j < |roots|
      ensures Independent(PlanOf(conditions, roots)[i].path, PlanOf(conditions, roots)[j].path)
    {
      RootsAreApart(conditions, roots[i], roots[j]);
    }
    forall i | 0 <= i < |roots| ensures PlanOf(conditions, roots)[i].path != [] {
      PlaceIsNotEmpty(conditions, roots[i]);
    }
  }

  lemma PlaceIsNotEmpty(conditions: seq<Condition>, field: string)
    requires Listed(conditions, field) ==> SomeOptionAgrees(conditions, field)
    ensures PlacementOf(conditions, field).path != []
  {
  }

  /** Every field to choose for, in order of first use. */
  ghost predicate IsPlan(conditions: seq<Condition>, roots: seq<string>)
  {
    && Choosable(conditions, roots)
    && (forall f :: f in roots <==> IsRoot(conditions, f))
    && forall i, j | 0 <= i < j < |roots| :: roots[i] != roots[j]
  }

  /** A listed root holds its chosen value, and everything below it is as that value has it. */
  lemma ListedRootAgrees(conditions: seq<Condition>, roots: seq<string>, root: string, i: nat)
    requires IsPlan(conditions, roots) && IsRoot(conditions, root) && Listed(conditions, root)
    requires i < |conditions| && Split(root) <= Split(conditions[i].field)
    ensures AgreesAt(conditions, conditions[i].field,
                     At(PlaceAll(PlanOf(conditions, roots)), conditions[i].field))
  {
    hide PlaceAll, Apart;
    var plan, field := PlanOf(conditions, roots), conditions[i].field;
    var n :| 0 <= n < |roots| && roots[n] == root;
    PlanIsApart(conditions, roots);
    PrefixSplits(Split(root), Split(field));
    PlacedIsFound(plan, n, Below(root, field));
    if Split(root) == Split(field) {
      SplitIsInjective(root, field);
      OptionMeetsAll(conditions, field, Chosen(conditions, field));
      assert Below(root, field) == [];
    }
  }

  lemma OptionMeetsAll(conditions: seq<Condition>, field: string, v: Json)
    requires Listed(conditions, field) && v in Options(conditions, field)
    ensures MeetsAll(conditions, OwnIndices(conditions, field), v)
  {
    var indices, options := OwnIndices(conditions, field), Options(conditions, field);
    hide OwnIndices;
    EqualIsReflexive(v);
    var k :| 0 <= k < |options| && options[k] == v;
    assert AnyEqual(v, options);
    RemainingMeans(v, Allowed(conditions, indices).value, Excluded(conditions, indices));
    ListsMeanConditions(conditions, indices, v);
  }

  /** An unlisted root is an object with the unused key. */
  lemma UnlistedRootAgrees(conditions: seq<Condition>, roots: seq<string>, root: string)
    requires IsPlan(conditions, roots) && IsRoot(conditions, root) && !Listed(conditions, root)
    ensures AgreesAt(conditions, root, At(PlaceAll(PlanOf(conditions, roots)), root))
  {
    hide PlaceAll, Apart, Listed;
    var plan, context, key := PlanOf(conditions, roots), PlaceAll(PlanOf(conditions, roots)), FreshKeyFor(conditions);
    var n :| 0 <= n < |roots| && roots[n] == root;
    PlanIsApart(conditions, roots);
    PlacedIsFound(plan, n, []);
    assert plan[n].path + [] == Split(root) + [key];
    LookupGoesOn(context, Split(root), [key]);
    FreshObjectAgrees(conditions, root, At(context, root).value);
  }

  /** A field that must be absent and lies below no listed one is beside everything placed. */
  lemma AbsentFieldAgrees(conditions: seq<Condition>, roots: seq<string>, i: nat)
    requires NestingAgrees(conditions) && IsPlan(conditions, roots) && i < |conditions|
    requires MustBeAbsent(conditions, conditions[i].field) && !Covered(conditions, conditions[i].field)
    ensures At(PlaceAll(PlanOf(conditions, roots)), conditions[i].field).None?
  {
    hide PlaceAll;
    var plan, field := PlanOf(conditions, roots), conditions[i].field;
    forall n | 0 <= n < |plan| ensures Independent(plan[n].path, Split(field)) {
      assert roots[n] in roots;
      AbsentIsBeside(conditions, roots[n], i);
    }
    NothingBeside(plan, Split(field));
  }

  lemma AbsentIsBeside(conditions: seq<Condition>, root: string, i: nat)
    requires NothingBelowAbsent(conditions) && IsRoot(conditions, root) && i < |conditions|
    requires Listed(conditions, root) ==> SomeOptionAgrees(conditions, root)
    requires MustBeAbsent(conditions, conditions[i].field) && !Covered(conditions, conditions[i].field)
    ensures Independent(PlacementOf(conditions, root).path, Split(conditions[i].field))
  {
    hide MustBeAbsent, Listed, SomeOptionAgrees, Reserved;
    var p, q, key := Split(root), Split(conditions[i].field), FreshKeyFor(conditions);
    var r :| 0 <= r < |conditions| && conditions[r].field == root;
    FreshIsNoSegment(conditions, root);
    FreshIsNoSegment(conditions, conditions[i].field);
    assert p != q by {
      if p == q {
        SplitIsInjective(root, conditions[i].field);
      }
    }
    if Listed(conditions, root) {
      assert Covers(conditions, conditions[r].field, conditions[i].field) <==> p < q;
    } else {
      KeyIsBeyond(p, q, key);
      if q <= p + [key] {
        WithoutKey(q, p, key);
      }
    }
  }

  /** The witness built at the roots agrees with every condition of the rule. */
  lemma WitnessAgrees(conditions: seq<Condition>, roots: seq<string>, i: nat)
    requires NestingAgrees(conditions) && IsPlan(conditions, roots) && i < |conditions|
    ensures AgreesAt(conditions, conditions[i].field, At(PlaceAll(PlanOf(conditions, roots)), conditions[i].field))
  {
    hide PlaceAll, Listed, MustBeAbsent, NestingAgrees, PlanOf;
    var field := conditions[i].field;
    if Covered(conditions, field) {
      var root := OutermostCover(conditions, field);
      ListedRootAgrees(conditions, roots, root, i);
    } else if MustBeAbsent(conditions, field) {
      AbsentFieldAgrees(conditions, roots, i);
    } else {
      assert IsRoot(conditions, field);
      if Listed(conditions, field) {
        ListedRootAgrees(conditions, roots, field, i);
      } else {
        UnlistedRootAgrees(conditions, roots, field);
      }
    }
  }

  lemma PlanExists(conditions: seq<Condition>) returns (roots: seq<string>)
    requires ListsAgreeBelow(conditions)
    ensures IsPlan(conditions, roots) && roots == RootsOf(conditions, FieldsOf(conditions, |conditions|))
  {
    var fields := FieldsOf(conditions, |conditions|);
    RootsAre(conditions, fields);
    roots := RootsOf(conditions, fields);
    hide FieldsOf, RootsOf, Listed, MustBeAbsent, IsRoot, SomeOptionAgrees;
    forall f ensures f in roots <==> IsRoot(conditions, f) {
      UsedIsAmongFields(conditions, f);
      if IsRoot(conditions, f) {
        RootIsUsed(conditions, f);
      }
    }
    forall i | 0 <= i < |roots| && Listed(conditions, roots[i]) ensures SomeOptionAgrees(conditions, roots[i]) {
      assert roots[i] in roots;
      RootIsUsed(conditions, roots[i]);
      var k :| 0 <= k < |conditions| && conditions[k].field == roots[i];
    }
  }

  ghost predicate Satisfiable(conditions: seq<Condition>)
  {
    exists context: Json :: context.Obj? && RuleResult(context, conditions) == Ok(true)
  }

  /**
   What the report leaves open: a rule of the fragment on which nothing is reported applies to some context
   if and only if its fields agree where they lie below one another.
   */
  lemma UnreportedApplies(conditions: seq<Condition>)
    requires AllInFragment(conditions) && ImpossibleIndices(conditions) == []
    ensures Satisfiable(conditions) <==> NestingAgrees(conditions)
  {
    hide AllInFragment, ImpossibleIndices, AgreesEverywhere, NothingBelowAbsent, ListsAgreeBelow;
    if NestingAgrees(conditions) {
      var roots := PlanExists(conditions);
      var context := PlaceAll(PlanOf(conditions, roots));
      WitnessEverywhere(conditions, roots);
      AppliesWhereAgreeing(conditions, context);
      PlanIsApart(conditions, roots);
      PlaceAllIsObject(PlanOf(conditions, roots));
    }
    if Satisfiable(conditions) {
      var context: Json :| context.Obj? && RuleResult(context, conditions) == Ok(true);
      AppliesWhereAgreeing(conditions, context);
      AgreementNeedsNesting(conditions, context);
    }
  }

  lemma WitnessEverywhere(conditions: seq<Condition>, roots: seq<string>)
    requires NestingAgrees(conditions) && IsPlan(conditions, roots)
    ensures AgreesEverywhere(conditions, PlaceAll(PlanOf(conditions, roots)))
  {
    hide PlaceAll, PlanOf, NestingAgrees, AgreesAt, IsRoot, Listed;
    forall i | 0 <= i < |conditions|
      ensures AgreesAt(conditions, conditions[i].field, At(PlaceAll(PlanOf(conditions, roots)), conditions[i].field))
    {
      WitnessAgrees(conditions, roots, i);
    }
  }

  /**
   Exactness: a rule of presence tests and literal equality and membership conditions applies to some context
   if and only if nothing is reported and its nested fields agree. So the rules that the linter misses are
   exactly the unreported ones whose nested fields do not agree.
   */
  lemma LinterIsExact(conditions: seq<Condition>)
    requires AllInFragment(conditions)
    ensures Satisfiable(conditions) <==> ImpossibleIndices(conditions) == [] && NestingAgrees(conditions)
  {
    hide NestingAgrees;
    if ImpossibleIndices(conditions) == [] {
      UnreportedApplies(conditions);
    } else {
      forall context: Json ensures RuleResult(context, conditions) != Ok(true) {
        LinterIsSound(context, conditions);
      }
    }
  }

  /** No field of the rule leads through another field of the rule. */
  predicate PrefixFree(conditions: seq<Condition>)
  {
    forall i, j | 0 <= i < |conditions| && 0 <= j < |conditions| && Split(conditions[i].field) <= Split(conditions[j].field) ::
      conditions[i].field == conditions[j].field
  }

  /** Where no field leads through another, there is nothing to agree on, and the report alone is exact. */
  lemma PrefixFreeIsExact(conditions: seq<Condition>)
    requires AllInFragment(conditions) && PrefixFree(conditions)
    ensures Satisfiable(conditions) <==> ImpossibleIndices(conditions) == []
  {
    hide AllInFragment, ImpossibleIndices;
    LinterIsExact(conditions);
    if ImpossibleIndices(conditions) == [] {
      forall i | 0 <= i < |conditions| && !MustBeAbsent(conditions, conditions[i].field) && Listed(conditions, conditions[i].field)
        ensures SomeOptionAgrees(conditions, conditions[i].field)
      {
        NothingReportedOn(conditions, conditions[i].field);
        SomeOptionIsLeft(conditions, conditions[i].field);
        assert AgreesBelow(conditions, conditions[i].field, Options(conditions, conditions[i].field)[0]);
      }
    }
  }

  lemma SomeOptionIsLeft(conditions: seq<Condition>, field: string)
    requires FieldReport(conditions, OwnIndices(conditions, field)) == [] && !MustBeAbsent(conditions, field)
    requires Listed(conditions, field)
    ensures Options(conditions, field) != []
  {
    SomeRelevant(conditions, OwnIndices(conditions, field));
  }

  /** Conditions on one field never lead through one another, so the report is exact for them. */
  lemma OneFieldIsExact(conditions: seq<Condition>, field: string)
    requires AllInFragment(conditions) && forall i | 0 <= i < |conditions| :: conditions[i].field == field
    ensures Satisfiable(conditions) <==> ImpossibleIndices(conditions) == []
  {
    PrefixFreeIsExact(conditions);
  }

  /**
   Rules are indeed missed: a literal that is no object at one field and a presence test below it contradict
   each other on every context, and the linter reports nothing.
   */
  lemma NestedFieldsAreMissed(rule: seq<Condition>)
    requires |rule| == 2 && Split(rule[0].field) < Split(rule[1].field)
    requires rule[0].operator.OpEq? && !rule[0].value.Obj? && rule[1].operator.OpExists?
    ensures ImpossibleIndices(rule) == []
    ensures forall context: Json :: RuleResult(context, rule) != Ok(true)
  {
    forall context: Json ensures RuleResult(context, rule) != Ok(true) {
      NothingBelowLiteral(context, rule[0], rule[1]);
      RuleApplies(context, rule);
    }
    TwoFields(rule);
    OneLiteralIsMet(rule, rule[0].value);
    OnePresenceIsMet(rule);
    NoFirstReport(rule, FieldsOf(rule, |rule|));
  }

  lemma TwoFields(rule: seq<Condition>)
    requires |rule| == 2 && rule[0].field != rule[1].field
    ensures FieldsOf(rule, |rule|) == [rule[0].field, rule[1].field]
    ensures OwnIndices(rule, rule[0].field) == [0] && OwnIndices(rule, rule[1].field) == [1]
  {
    NextField(rule, 0);
    NextField(rule, 1);
    OnlyIndex(rule, 0);
    OnlyIndex(rule, 1);
  }

  lemma NextField(conditions: seq<Condition>, n: nat)
    requires n < |conditions| && forall i | 0 <= i < n :: conditions[i].field != conditions[n].field
    ensures FieldsOf(conditions, n + 1) == FieldsOf(conditions, n) + [conditions[n].field]
  {
  }

  lemma OnlyIndex(conditions: seq<Condition>, n: nat)
    requires n < |conditions| && forall i | 0 <= i < |conditions| && i != n :: conditions[i].field != conditions[n].field
    ensures OwnIndices(conditions, conditions[n].field) == [n]
  {
    var own := OwnIndices(conditions, conditions[n].field);
    forall i ensures i in own <==> i in [n] {
      if i in own {
        var k :| 0 <= k < |own| && own[k] == i;
      }
    }
    IncreasingIsUnique(own, [n]);
  }

  lemma OneLiteralIsMet(rule: seq<Condition>, v: Json)
    requires |rule| > 0 && rule[0].operator.OpEq? && rule[0].value == v
    ensures FieldReport(rule, [0]) == []
  {
    EqualIsReflexive(v);
    if Relevant(rule[0]) {
      AnyEqualOne(v, v);
      assert Meets(v, rule[0]);
    }
    assert MeetsAll(rule, [0], v);
    ValueReportIsExact(rule, [0]);
  }

  lemma OnePresenceIsMet(rule: seq<Condition>)
    requires |rule| > 1 && rule[1].operator.OpExists?
    ensures FieldReport(rule, [1]) == []
  {
    assert MeetsAll(rule, [1], Null);
    ValueReportIsExact(rule, [1]);
  }

  lemma NothingBelowLiteral(context: Json, outer: Condition, inner: Condition)
    requires Split(outer.field) < Split(inner.field)
    requires outer.operator.OpEq? && !outer.value.Obj? && inner.operator.OpExists?
    ensures EvaluateCondition(context, outer) == Ok(true) ==> EvaluateCondition(context, inner) == Ok(false)
  {
    var above, path := Split(outer.field), Split(inner.field);
    PrefixSplits(above, path);
    LookupGoesOn(context, above, path[|above|..]);
  }
}
