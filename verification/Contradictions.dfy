/** The linter's constraint solver: which conditions of a rule can never hold together. */
module Contradictions {
  import opened Wrappers
  import opened Strings
  import opened JsonValues
  import opened Models
  import opened Engine
  import opened EngineLaws
  import opened Diagnostics

  /** The values one literal condition leaves open, when it lists them. */
  function Candidates(c: Condition): Option<seq<Json>>
  {
    if c.value.Obj? then None
    else
      match c.operator
      case OpEq => Some([c.value])
      case OpIn => Some(if c.value.Arr? then c.value.items else [])
      case _ => None
  }

  /** The values one literal condition rules out. */
  function Exclusions(c: Condition): seq<Json>
  {
    if c.value.Obj? then []
    else
      match c.operator
      case OpNeq => [c.value]
      case OpNotIn => if c.value.Arr? then c.value.items else []
      case _ => []
  }

  predicate Relevant(c: Condition)
  {
    !c.value.Obj? && c.operator in {OpEq, OpIn, OpNeq, OpNotIn}
  }

  function IntersectValues(left: seq<Json>, right: seq<Json>): seq<Json>
  {
    if left == [] then []
    else (if exists i | 0 <= i < |right| :: LintEqual(left[0], right[i]) then [left[0]] else [])
         + IntersectValues(left[1..], right)
  }

  /** The allowed values not excluded. */
  function Remaining(allowed: seq<Json>, excluded: seq<Json>): seq<Json>
  {
    if allowed == [] then []
    else (if exists i | 0 <= i < |excluded| :: LintEqual(allowed[0], excluded[i]) then [] else [allowed[0]])
         + Remaining(allowed[1..], excluded)
  }

  predicate InRange(conditions: seq<Condition>, indices: seq<nat>)
  {
    forall k | 0 <= k < |indices| :: indices[k] < |conditions|
  }

  /** What `allowed` holds after the loop visited `indices`. */
  function Allowed(conditions: seq<Condition>, indices: seq<nat>): Option<seq<Json>>
    requires InRange(conditions, indices)
  {
    if indices == [] then None
    else
      var before := Allowed(conditions, indices[..|indices| - 1]);
      var candidates := Candidates(conditions[indices[|indices| - 1]]);
      if candidates.None? then before
      else if before.None? then candidates
      else Some(IntersectValues(before.value, candidates.value))
  }

  function Excluded(conditions: seq<Condition>, indices: seq<nat>): seq<Json>
    requires InRange(conditions, indices)
  {
    if indices == [] then []
    else Excluded(conditions, indices[..|indices| - 1]) + Exclusions(conditions[indices[|indices| - 1]])
  }

  function RelevantIndices(conditions: seq<Condition>, indices: seq<nat>): seq<nat>
    requires InRange(conditions, indices)
  {
    if indices == [] then []
    else
      var last := indices[|indices| - 1];
      RelevantIndices(conditions, indices[..|indices| - 1]) + if Relevant(conditions[last]) then [last] else []
  }

  /** The indices, among the first `n`, of the conditions on `field`. */
  function IndicesOf(conditions: seq<Condition>, field: string, n: nat): (indices: seq<nat>)
    requires n <= |conditions|
    ensures InRange(conditions, indices)
    ensures Increasing(indices) && forall k | 0 <= k < |indices| :: indices[k] < n
    ensures forall i | 0 <= i < n :: i in indices <==> conditions[i].field == field
  {
    if n == 0 then []
    else IndicesOf(conditions, field, n - 1) + if conditions[n - 1].field == field then [n - 1] else []
  }

  predicate HasOperator(conditions: seq<Condition>, indices: seq<nat>, absent: bool)
    requires InRange(conditions, indices)
  {
    exists k | 0 <= k < |indices| :: conditions[indices[k]].operator.OpNotExists? == absent
  }

  /** What the candidate and exclusion lists of one field's conditions report. */
  function ValueReport(conditions: seq<Condition>, indices: seq<nat>): seq<nat>
    requires InRange(conditions, indices)
  {
    var allowed := Allowed(conditions, indices);
    if allowed.Some? && Remaining(allowed.value, Excluded(conditions, indices)) == []
    then RelevantIndices(conditions, indices)
    else []
  }

  /** What the linter reports for the conditions on one field; empty when it finds no contradiction. */
  function FieldReport(conditions: seq<Condition>, indices: seq<nat>): seq<nat>
    requires InRange(conditions, indices)
  {
    if HasOperator(conditions, indices, true) && HasOperator(conditions, indices, false) then indices
    else ValueReport(conditions, indices)
  }

  /** The fields of the first `n` conditions in order of first use. */
  function FieldsOf(conditions: seq<Condition>, n: nat): (fields: seq<string>)
    requires n <= |conditions|
    ensures forall f :: f in fields <==> exists i :: 0 <= i < n && conditions[i].field == f
    ensures forall i, j | 0 <= i < j < |fields| :: fields[i] != fields[j]
  {
    if n == 0 then []
    else
      var before := FieldsOf(conditions, n - 1);
      if conditions[n - 1].field in before then before
      else
        assert forall i | 0 <= i < n - 1 :: conditions[i].field != conditions[n - 1].field;
        before + [conditions[n - 1].field]
  }

  /** The report for the first field, in the given order, that has one. */
  function FirstReport(conditions: seq<Condition>, fields: seq<string>): seq<nat>
  {
    if fields == [] then []
    else
      var report := FieldReport(conditions, IndicesOf(conditions, fields[0], |conditions|));
      if report != [] then report else FirstReport(conditions, fields[1..])
  }

  /** What `_impossible_condition_indices` returns. */
  function ImpossibleIndices(conditions: seq<Condition>): seq<nat>
  {
    FirstReport(conditions, FieldsOf(conditions, |conditions|))
  }

  predicate AllValid(conditions: seq<Condition>)
  {
    forall i | 0 <= i < |conditions| :: ValidCondition(conditions[i])
  }

  /** `by_field`: the indices of every field's conditions, keyed in order of first use. */
  method GroupByField(conditions: seq<Condition>) returns (order: seq<string>, byField: map<string, seq<nat>>)
    ensures order == FieldsOf(conditions, |conditions|)
    ensures forall f :: f in byField <==> f in order
    ensures forall f | f in byField :: byField[f] == IndicesOf(conditions, f, |conditions|)
  {
    hide InRange, Increasing, FieldsOf, IndicesOf;
    order, byField := [], map[];
    NoFieldsYet(conditions);
    for index := 0 to |conditions|
      invariant order == FieldsOf(conditions, index)
      invariant forall f :: f in byField <==> f in order
      invariant forall f | f in byField :: byField[f] == IndicesOf(conditions, f, index)
    {
      var field := conditions[index].field;
      OneMoreIndex(conditions, index);
      if field in byField {
        byField := byField[field := byField[field] + [index]];
      } else {
        NoIndicesYet(conditions, field, index);
        order := order + [field];
        byField := byField[field := [index]];
      }
    }
  }

  lemma NoFieldsYet(conditions: seq<Condition>)
    ensures FieldsOf(conditions, 0) == []
  {
  }

  /** What the condition at `n` adds to the fields and to the indices of each field. */
  lemma OneMoreIndex(conditions: seq<Condition>, n: nat)
    requires n < |conditions|
    ensures FieldsOf(conditions, n + 1) ==
            FieldsOf(conditions, n) + if conditions[n].field in FieldsOf(conditions, n) then [] else [conditions[n].field]
    ensures IndicesOf(conditions, conditions[n].field, n + 1) == IndicesOf(conditions, conditions[n].field, n) + [n]
    ensures forall f | f != conditions[n].field :: IndicesOf(conditions, f, n + 1) == IndicesOf(conditions, f, n)
  {
  }

  lemma NoIndicesYet(conditions: seq<Condition>, field: string, n: nat)
    requires n <= |conditions| && field !in FieldsOf(conditions, n)
    ensures IndicesOf(conditions, field, n) == []
  {
    var indices := IndicesOf(conditions, field, n);
    LastIsIn(indices);
  }

  /** The sorted union of two index lists below `n`. */
  method SortedUnion(a: seq<nat>, b: seq<nat>, n: nat) returns (union: seq<nat>)
    ensures Increasing(union)
    ensures forall i :: i in union <==> i < n && (i in a || i in b)
  {
    union := [];
    for i := 0 to n
      invariant Increasing(union) && forall k | 0 <= k < |union| :: union[k] < i
      invariant forall j :: j in union <==> j < i && (j in a || j in b)
    {
      if i in a || i in b {
        union := union + [i];
      }
    }
  }

  lemma {:induction false} IncreasingIsUnique(a: seq<nat>, b: seq<nat>)
    requires Increasing(a) && Increasing(b) && forall i :: i in a <==> i in b
    ensures a == b
  {
    LastIsIn(a);
    LastIsIn(b);
    if a != [] && b != [] {
      var m, n := |a| - 1, |b| - 1;
      var x :| 0 <= x <= n && b[x] == a[m];
      var y :| 0 <= y <= m && a[y] == b[n];
      assert a[m] == b[n];
      var a', b' := a[..m], b[..n];
      forall i ensures i in a' <==> i in b' {
        assert i in a <==> i in a' || i == a[m];
        assert i in b <==> i in b' || i == b[n];
      }
      IncreasingIsUnique(a', b');
      assert a == a[..m] + [a[m]] && b == b[..n] + [b[n]];
    }
  }

  lemma LastIsIn(a: seq<nat>)
    requires Increasing(a)
    ensures a != [] ==> a[|a| - 1] in a && a[|a| - 1] !in a[..|a| - 1]
    ensures a != [] ==> forall i :: i in a <==> i in a[..|a| - 1] || i == a[|a| - 1]
  {
  }

  /** The split of one field's conditions into `not_exists` and the rest, and the report when both occur. */
  method PresenceReport(conditions: seq<Condition>, indices: seq<nat>) returns (report: seq<nat>)
    requires InRange(conditions, indices) && Increasing(indices)
    ensures report == if HasOperator(conditions, indices, true) && HasOperator(conditions, indices, false) then indices else []
  {
    var notExists, requiresValue: seq<nat> := [], [];
    for k := 0 to |indices|
      invariant forall i :: i in notExists <==> i in indices[..k] && conditions[i].operator.OpNotExists?
      invariant forall i :: i in requiresValue <==> i in indices[..k] && !conditions[i].operator.OpNotExists?
    {
      assert indices[..k + 1] == indices[..k] + [indices[k]];
      if conditions[indices[k]].operator.OpNotExists? {
        notExists := notExists + [indices[k]];
      } else {
        requiresValue := requiresValue + [indices[k]];
      }
    }
    assert indices[..|indices|] == indices;
    SplitMeans(conditions, indices, notExists, requiresValue);
    if notExists != [] && requiresValue != [] {
      report := SortedUnion(notExists, requiresValue, |conditions|);
      IncreasingIsUnique(report, indices);
    } else {
      report := [];
    }
  }

  lemma SplitMeans(conditions: seq<Condition>, indices: seq<nat>, notExists: seq<nat>, requiresValue: seq<nat>)
    requires InRange(conditions, indices)
    requires forall i :: i in notExists <==> i in indices && conditions[i].operator.OpNotExists?
    requires forall i :: i in requiresValue <==> i in indices && !conditions[i].operator.OpNotExists?
    ensures notExists != [] <==> HasOperator(conditions, indices, true)
    ensures requiresValue != [] <==> HasOperator(conditions, indices, false)
  {
    if notExists != [] {
      assert notExists[0] in notExists;
      var k :| 0 <= k < |indices| && indices[k] == notExists[0];
    }
    if requiresValue != [] {
      assert requiresValue[0] in requiresValue;
      var k :| 0 <= k < |indices| && indices[k] == requiresValue[0];
    }
    forall k | 0 <= k < |indices|
      ensures conditions[indices[k]].operator.OpNotExists? ==> notExists != []
      ensures !conditions[indices[k]].operator.OpNotExists? ==> requiresValue != []
    {
      assert indices[k] in indices;
      assert indices[k] in notExists || indices[k] in requiresValue;
    }
  }

  /** The loop narrowing `allowed` and collecting `excluded` over one field's conditions. */
  method NarrowValues(conditions: seq<Condition>, indices: seq<nat>) returns (report: seq<nat>)
    requires InRange(conditions, indices)
    ensures report == ValueReport(conditions, indices)
  {
    var allowed: Option<seq<Json>> := None;
    var excluded: seq<Json> := [];
    var relevant: seq<nat> := [];
    for k := 0 to |indices|
      invariant allowed == Allowed(conditions, indices[..k])
      invariant excluded == Excluded(conditions, indices[..k])
      invariant relevant == RelevantIndices(conditions, indices[..k])
    {
      var index := indices[k];
      var condition := conditions[index];
      assert indices[..k + 1][..k] == indices[..k];
      if condition.value.Obj? {
        continue;
      }
      if condition.operator in {OpEq, OpIn} {
        var candidates := Candidates(condition).value;
        allowed := if allowed.None? then Some(candidates) else Some(IntersectValues(allowed.value, candidates));
      } else if condition.operator !in {OpNeq, OpNotIn} {
        continue;
      }
      relevant := relevant + [index];
      excluded := excluded + Exclusions(condition);
    }
    assert indices[..|indices|] == indices;
    if allowed.Some? && Remaining(allowed.value, excluded) == [] {
      return relevant;
    }
    return [];
  }

  /** `_impossible_condition_indices`. */
  method ImpossibleConditionIndices(conditions: seq<Condition>) returns (report: seq<nat>)
    requires AllValid(conditions)
    ensures report == ImpossibleIndices(conditions)
  {
    var order, byField := GroupByField(conditions);
    for f := 0 to |order|
      invariant ImpossibleIndices(conditions) == FirstReport(conditions, order[f..])
    {
      assert order[f] in byField && order[f..][1..] == order[f + 1..];
      var indices := byField[order[f]];
      report := PresenceReport(conditions, indices);
      if report != [] {
        return;
      }
      report := NarrowValues(conditions, indices);
      if report != [] {
        return;
      }
    }
    return [];
  }

  lemma {:induction false} SomeRelevant(conditions: seq<Condition>, indices: seq<nat>)
    requires InRange(conditions, indices) && Allowed(conditions, indices).Some?
    ensures RelevantIndices(conditions, indices) != []
  {
    if Candidates(conditions[indices[|indices| - 1]]).None? {
      SomeRelevant(conditions, indices[..|indices| - 1]);
    }
  }

  // ----- What the lists mean for the value of a field

  /** A present value meets a relevant condition. */
  predicate Meets(v: Json, c: Condition)
  {
    && (Candidates(c).Some? ==> AnyEqual(v, Candidates(c).value))
    && !AnyEqual(v, Exclusions(c))
  }

  /** For a present field, a relevant condition is true exactly when the value meets it. */
  lemma RelevantMeansMeets(context: Json, c: Condition)
    requires ValidCondition(c) && Relevant(c) && At(context, c.field).Some?
    ensures EvaluateCondition(context, c) == Ok(Meets(At(context, c.field).value, c))
  {
    var v := At(context, c.field).value;
    if c.operator in {OpEq, OpNeq} {
      AnyEqualOne(v, c.value);
    }
  }

  lemma AnyEqualOne(v: Json, w: Json)
    ensures AnyEqual(v, [w]) <==> JsonEqual(v, w)
  {
    assert [w][0] == w;
  }

  lemma {:induction false} AnyEqualSplits(v: Json, a: seq<Json>, b: seq<Json>)
    ensures AnyEqual(v, a + b) <==> AnyEqual(v, a) || AnyEqual(v, b)
  {
    if AnyEqual(v, a) {
      var i :| 0 <= i < |a| && JsonEqual(v, a[i]);
      assert (a + b)[i] == a[i];
    }
    if AnyEqual(v, b) {
      var i :| 0 <= i < |b| && JsonEqual(v, b[i]);
      assert (a + b)[|a| + i] == b[i];
    }
    if AnyEqual(v, a + b) {
      var i :| 0 <= i < |a + b| && JsonEqual(v, (a + b)[i]);
      assert (a + b)[i] == if i < |a| then a[i] else b[i - |a|];
    }
  }

  /** Equal values are equal to the same list members. */
  lemma AnyEqualOfEqual(v: Json, w: Json, items: seq<Json>)
    requires JsonEqual(v, w)
    ensures AnyEqual(v, items) == AnyEqual(w, items)
  {
    forall i | 0 <= i < |items| ensures JsonEqual(v, items[i]) == JsonEqual(w, items[i]) {
      EqualIsReflexive(items[i]);
      EqualIsCongruent(v, w, items[i], items[i]);
    }
  }

  lemma LintMembership(v: Json, items: seq<Json>)
    ensures (exists i | 0 <= i < |items| :: LintEqual(v, items[i])) <==> AnyEqual(v, items)
  {
  }

  lemma {:induction false} IntersectionMeans(v: Json, left: seq<Json>, right: seq<Json>)
    ensures AnyEqual(v, IntersectValues(left, right)) <==> AnyEqual(v, left) && AnyEqual(v, right)
  {
    if left != [] {
      var head, tail := left[0], left[1..];
      IntersectionMeans(v, tail, right);
      LintMembership(head, right);
      AnyEqualOne(v, head);
      assert left == [head] + tail;
      AnyEqualSplits(v, [head], tail);
      AnyEqualSplits(v, if AnyEqual(head, right) then [head] else [], IntersectValues(tail, right));
      if JsonEqual(v, head) {
        AnyEqualOfEqual(v, head, right);
      }
    }
  }

  lemma {:induction false} RemainingMeans(v: Json, allowed: seq<Json>, excluded: seq<Json>)
    ensures AnyEqual(v, Remaining(allowed, excluded)) <==> AnyEqual(v, allowed) && !AnyEqual(v, excluded)
  {
    if allowed != [] {
      var head, tail := allowed[0], allowed[1..];
      RemainingMeans(v, tail, excluded);
      LintMembership(head, excluded);
      AnyEqualOne(v, head);
      assert allowed == [head] + tail;
      AnyEqualSplits(v, [head], tail);
      AnyEqualSplits(v, if AnyEqual(head, excluded) then [] else [head], Remaining(tail, excluded));
      if JsonEqual(v, head) {
        AnyEqualOfEqual(v, head, excluded);
      }
    }
  }

  /** The value meets every relevant condition among `indices`. */
  predicate MeetsAll(conditions: seq<Condition>, indices: seq<nat>, v: Json)
    requires InRange(conditions, indices)
  {
    forall k | 0 <= k < |indices| && Relevant(conditions[indices[k]]) :: Meets(v, conditions[indices[k]])
  }

  lemma IrrelevantListsNothing(c: Condition)
    requires !Relevant(c)
    ensures Candidates(c).None? && Exclusions(c) == []
  {
  }

  lemma MeetsAllOfMore(conditions: seq<Condition>, indices: seq<nat>, v: Json)
    requires InRange(conditions, indices) && indices != []
    ensures var before, last := indices[..|indices| - 1], conditions[indices[|indices| - 1]];
            MeetsAll(conditions, indices, v) <==> MeetsAll(conditions, before, v) && (Relevant(last) ==> Meets(v, last))
  {
    assert forall k | 0 <= k < |indices| - 1 :: indices[..|indices| - 1][k] == indices[k];
  }

  /** One more condition narrows the candidates and adds to the exclusions just as it constrains the value. */
  lemma ListsOfMore(conditions: seq<Condition>, indices: seq<nat>, v: Json)
    requires InRange(conditions, indices) && indices != []
    ensures var before, last := indices[..|indices| - 1], conditions[indices[|indices| - 1]];
            && (AnyEqual(v, Excluded(conditions, indices)) <==> AnyEqual(v, Excluded(conditions, before)) || AnyEqual(v, Exclusions(last)))
            && (ListAllows(conditions, indices, v) <==> ListAllows(conditions, before, v) && (Candidates(last).Some? ==> AnyEqual(v, Candidates(last).value)))
  {
    var before, last := indices[..|indices| - 1], conditions[indices[|indices| - 1]];
    AnyEqualSplits(v, Excluded(conditions, before), Exclusions(last));
    if Candidates(last).Some? && Allowed(conditions, before).Some? {
      IntersectionMeans(v, Allowed(conditions, before).value, Candidates(last).value);
    }
  }

  predicate ListAllows(conditions: seq<Condition>, indices: seq<nat>, v: Json)
    requires InRange(conditions, indices)
  {
    Allowed(conditions, indices).Some? ==> AnyEqual(v, Allowed(conditions, indices).value)
  }

  /** The two lists carry exactly the relevant conditions. */
  lemma {:induction false} ListsMeanConditions(conditions: seq<Condition>, indices: seq<nat>, v: Json)
    requires InRange(conditions, indices)
    ensures MeetsAll(conditions, indices, v)
       <==> ListAllows(conditions, indices, v) && !AnyEqual(v, Excluded(conditions, indices))
  {
    if indices != [] {
      var last := conditions[indices[|indices| - 1]];
      ListsMeanConditions(conditions, indices[..|indices| - 1], v);
      MeetsAllOfMore(conditions, indices, v);
      ListsOfMore(conditions, indices, v);
      if !Relevant(last) {
        IrrelevantListsNothing(last);
      }
    }
  }

  /** A number larger than every number listed. */
  function FreshNumber(excluded: seq<Json>): (n: int)
    ensures forall i | 0 <= i < |excluded| && IsNumber(excluded[i]) :: NumberOf(excluded[i]) < n as real
  {
    if excluded == [] then 0
    else
      var rest := FreshNumber(excluded[1..]);
      var bound := if IsNumber(excluded[0]) then NumberOf(excluded[0]).Floor + 1 else 0;
      assert forall i | 1 <= i < |excluded| :: excluded[i] == excluded[1..][i - 1];
      if bound > rest then bound else rest
  }

  lemma FreshIsFresh(excluded: seq<Json>)
    ensures !AnyEqual(Int(FreshNumber(excluded)), excluded)
  {
  }

  /**
   The value check is exact: it reports a field's conditions if and only if no value at all meets
   the relevant ones.
   */
  lemma ValueReportIsExact(conditions: seq<Condition>, indices: seq<nat>)
    requires InRange(conditions, indices)
    ensures ValueReport(conditions, indices) == [] <==> exists v :: MeetsAll(conditions, indices, v)
  {
    var allowed, excluded := Allowed(conditions, indices), Excluded(conditions, indices);
    if allowed.None? {
      FreshIsFresh(excluded);
      ListsMeanConditions(conditions, indices, Int(FreshNumber(excluded)));
    } else {
      SomeRelevant(conditions, indices);
      var possible := Remaining(allowed.value, excluded);
      forall v | MeetsAll(conditions, indices, v) ensures possible != [] {
        ListsMeanConditions(conditions, indices, v);
        RemainingMeans(v, allowed.value, excluded);
      }
      if possible != [] {
        EqualIsReflexive(possible[0]);
        assert AnyEqual(possible[0], possible);
        RemainingMeans(possible[0], allowed.value, excluded);
        ListsMeanConditions(conditions, indices, possible[0]);
      }
    }
  }

  lemma {:induction false} RelevantIndicesAre(conditions: seq<Condition>, indices: seq<nat>, i: nat)
    requires InRange(conditions, indices)
    ensures i in RelevantIndices(conditions, indices) <==> i in indices && Relevant(conditions[i])
  {
    if indices != [] {
      var before, last := indices[..|indices| - 1], indices[|indices| - 1];
      RelevantIndicesAre(conditions, before, i);
      assert indices == before + [last];
    }
  }

  // ----- Soundness

  /** Every condition at the given indices evaluates to true. */
  predicate AllHold(context: Json, conditions: seq<Condition>, indices: seq<nat>)
    requires InRange(conditions, indices)
  {
    forall k | 0 <= k < |indices| :: EvaluateCondition(context, conditions[indices[k]]) == Ok(true)
  }

  predicate OnField(conditions: seq<Condition>, indices: seq<nat>, field: string)
    requires InRange(conditions, indices)
  {
    forall k | 0 <= k < |indices| :: conditions[indices[k]].field == field
  }

  lemma HoldsNeedsPresence(context: Json, c: Condition)
    requires EvaluateCondition(context, c) == Ok(true)
    ensures At(context, c.field).Some? <==> !c.operator.OpNotExists?
  {
  }

  lemma {:induction false} RelevantInRange(conditions: seq<Condition>, indices: seq<nat>)
    requires InRange(conditions, indices)
    ensures InRange(conditions, RelevantIndices(conditions, indices))
  {
    if indices != [] {
      RelevantInRange(conditions, indices[..|indices| - 1]);
    }
  }

  lemma HoldingMeets(context: Json, conditions: seq<Condition>, indices: seq<nat>, field: string)
    requires AllValid(conditions) && InRange(conditions, indices) && OnField(conditions, indices, field)
    requires InRange(conditions, RelevantIndices(conditions, indices))
    requires AllHold(context, conditions, RelevantIndices(conditions, indices))
    requires At(context, field).Some?
    ensures MeetsAll(conditions, indices, At(context, field).value)
  {
    forall k | 0 <= k < |indices| && Relevant(conditions[indices[k]])
      ensures Meets(At(context, field).value, conditions[indices[k]])
    {
      RelevantIndicesAre(conditions, indices, indices[k]);
      var m :| 0 <= m < |RelevantIndices(conditions, indices)| && RelevantIndices(conditions, indices)[m] == indices[k];
      RelevantMeansMeets(context, conditions[indices[k]]);
    }
  }

  /** On no context do the conditions reported for one field all hold. */
  lemma FieldReportIsSound(context: Json, conditions: seq<Condition>, indices: seq<nat>, field: string)
    requires AllValid(conditions) && InRange(conditions, indices) && OnField(conditions, indices, field)
    requires FieldReport(conditions, indices) != []
    ensures InRange(conditions, FieldReport(conditions, indices))
    ensures !AllHold(context, conditions, FieldReport(conditions, indices))
  {
    RelevantInRange(conditions, indices);
    var report := FieldReport(conditions, indices);
    if AllHold(context, conditions, report) {
      if HasOperator(conditions, indices, true) && HasOperator(conditions, indices, false) {
        var a :| 0 <= a < |indices| && conditions[indices[a]].operator.OpNotExists?;
        var b :| 0 <= b < |indices| && !conditions[indices[b]].operator.OpNotExists?;
        HoldsNeedsPresence(context, conditions[indices[a]]);
        HoldsNeedsPresence(context, conditions[indices[b]]);
      } else {
        RelevantIndicesAre(conditions, indices, report[0]);
        assert report[0] in report;
        HoldsNeedsPresence(context, conditions[report[0]]);
        var k :| 0 <= k < |indices| && indices[k] == report[0];
        HoldingMeets(context, conditions, indices, field);
        ValueReportIsExact(conditions, indices);
      }
    }
  }

  lemma {:induction false} FirstReportIsAReport(conditions: seq<Condition>, fields: seq<string>) returns (field: string)
    requires FirstReport(conditions, fields) != []
    ensures field in fields
    ensures FirstReport(conditions, fields) == FieldReport(conditions, IndicesOf(conditions, field, |conditions|))
  {
    field := fields[0];
    if FieldReport(conditions, IndicesOf(conditions, field, |conditions|)) == [] {
      field := FirstReportIsAReport(conditions, fields[1..]);
    }
  }

  lemma IndicesAreOnField(conditions: seq<Condition>, field: string)
    ensures OnField(conditions, IndicesOf(conditions, field, |conditions|), field)
  {
    var indices := IndicesOf(conditions, field, |conditions|);
    forall k | 0 <= k < |indices| ensures conditions[indices[k]].field == field {
      assert indices[k] in indices;
    }
  }

  /**
   Soundness: whenever the linter returns indices, the conditions at just those indices do not all
   hold on any context, so the rule never applies.
   */
  lemma LinterIsSound(context: Json, conditions: seq<Condition>)
    requires AllValid(conditions) && ImpossibleIndices(conditions) != []
    ensures InRange(conditions, ImpossibleIndices(conditions))
    ensures !AllHold(context, conditions, ImpossibleIndices(conditions))
    ensures RuleResult(context, conditions) != Ok(true)
  {
    var field := FirstReportIsAReport(conditions, FieldsOf(conditions, |conditions|));
    IndicesAreOnField(conditions, field);
    FieldReportIsSound(context, conditions, IndicesOf(conditions, field, |conditions|), field);
    RuleApplies(context, conditions);
  }
}
