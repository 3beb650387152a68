/** Composing policies into one, and what the composed policy decides. */
module Composition {
  import opened Wrappers
  import opened JsonValues
  import opened JsonBounds
  import opened Models
  import opened ModelsRoundTrip
  import opened Engine
  import opened EngineLaws

  const MAX_COMPOSED_POLICIES := 32

  datatype Source = Source(policyId: string, policyVersion: string, ruleCount: nat)

  datatype Composed = Composed(policy: Policy, sources: seq<Source>)

  datatype CompositionError =
    | TooManySources | NoSources | DuplicateSources | MismatchedDefaults | DuplicateRules | TooManyRules
    | InvalidMetadata | TooLarge

  function AllRules(sources: seq<Policy>): seq<Rule>
  {
    if sources == [] then [] else AllRules(sources[..|sources| - 1]) + sources[|sources| - 1].rules
  }

  predicate DistinctSources(sources: seq<Policy>)
  {
    forall i, j | 0 <= i < j < |sources| :: sources[i].id != sources[j].id
  }

  predicate SharedDefault(sources: seq<Policy>)
  {
    forall i | 0 <= i < |sources| :: sources[i].defaultEffect == sources[0].defaultEffect
  }

  /** The checks on the sources themselves. */
  predicate Composable(sources: seq<Policy>)
  {
    && 1 <= |sources| <= MAX_COMPOSED_POLICIES
    && DistinctSources(sources) && SharedDefault(sources)
    && UniqueIds(AllRules(sources)) && |AllRules(sources)| <= MAX_POLICY_RULES
  }

  predicate ValidMetadata(id: string, version: string, description: string)
  {
    IsIdentifier(id) && IsIdentifier(version) && |description| <= 1_000
  }

  /** The sources' rules in declaration order under new metadata and the shared default. */
  function Whole(sources: seq<Policy>, id: string, version: string, description: string): Policy
    requires sources != []
  {
    Policy(id, version, description, sources[0].defaultEffect, AllRules(sources))
  }

  function Occurrences(rules: seq<Rule>, id: string): nat
  {
    if rules == [] then 0
    else Occurrences(rules[..|rules| - 1], id) + if rules[|rules| - 1].id == id then 1 else 0
  }

  datatype Owned = Owned(rule: Rule, owner: string)

  function OwnedBy(p: Policy): seq<Owned>
  {
    seq(|p.rules|, i requires 0 <= i < |p.rules| => Owned(p.rules[i], p.id))
  }

  /** Every rule of every source with the id of its source, in order. */
  function AllOwned(sources: seq<Policy>): seq<Owned>
  {
    if sources == [] then [] else AllOwned(sources[..|sources| - 1]) + OwnedBy(sources[|sources| - 1])
  }

  function RulesOf(owned: seq<Owned>): seq<Rule>
  {
    seq(|owned|, i requires 0 <= i < |owned| => owned[i].rule)
  }

  /** The sources that declare a rule id, one for each declaration, in order. */
  function OwnersOf(owned: seq<Owned>, id: string): seq<string>
  {
    if owned == [] then []
    else OwnersOf(owned[..|owned| - 1], id) + if owned[|owned| - 1].rule.id == id then [owned[|owned| - 1].owner] else []
  }

  lemma {:induction false} AllOwnedRules(sources: seq<Policy>)
    ensures RulesOf(AllOwned(sources)) == AllRules(sources)
  {
    if sources != [] {
      var last := |sources| - 1;
      AllOwnedRules(sources[..last]);
      assert RulesOf(OwnedBy(sources[last])) == sources[last].rules;
      assert RulesOf(AllOwned(sources)) == RulesOf(AllOwned(sources[..last])) + RulesOf(OwnedBy(sources[last]));
    }
  }

  lemma {:induction false} OwnersAreCounted(owned: seq<Owned>, id: string)
    ensures |OwnersOf(owned, id)| == Occurrences(RulesOf(owned), id)
  {
    if owned != [] {
      OwnersAreCounted(owned[..|owned| - 1], id);
      assert RulesOf(owned)[..|owned| - 1] == RulesOf(owned[..|owned| - 1]);
    }
  }

  /** `rule_owners`: under each declared id exactly the sources that declare it. */
  predicate Owns(owners: map<string, seq<string>>, owned: seq<Owned>)
  {
    && (forall id | id in owners :: owners[id] == OwnersOf(owned, id) && owners[id] != [])
    && forall i | 0 <= i < |owned| :: owned[i].rule.id in owners
  }

  lemma OwnsMore(owners: map<string, seq<string>>, owned: seq<Owned>, more: Owned)
    requires Owns(owners, owned)
    ensures var id := more.rule.id;
            Owns(owners[id := (if id in owners then owners[id] else []) + [more.owner]], owned + [more])
  {
    assert (owned + [more])[..|owned|] == owned;
    if more.rule.id !in owners {
      NotOwned(owned, more.rule.id);
    }
  }

  lemma {:induction false} NotOwned(owned: seq<Owned>, id: string)
    requires forall i | 0 <= i < |owned| :: owned[i].rule.id != id
    ensures OwnersOf(owned, id) == []
  {
    if owned != [] {
      NotOwned(owned[..|owned| - 1], id);
    }
  }

  lemma {:induction false} NoOccurrence(rules: seq<Rule>, id: string)
    ensures Occurrences(rules, id) == 0 <==> forall i | 0 <= i < |rules| :: rules[i].id != id
  {
    if rules != [] {
      NoOccurrence(rules[..|rules| - 1], id);
    }
  }

  lemma {:induction false} UniqueMeansOnce(rules: seq<Rule>)
    ensures UniqueIds(rules) <==> forall i | 0 <= i < |rules| :: Occurrences(rules, rules[i].id) <= 1
  {
    if rules != [] {
      var last := |rules| - 1;
      UniqueMeansOnce(rules[..last]);
      NoOccurrence(rules[..last], rules[last].id);
      if UniqueIds(rules) {
        forall i | 0 <= i < |rules| ensures Occurrences(rules, rules[i].id) <= 1 {
          assert i < last ==> rules[..last][i] == rules[i];
        }
      } else {
        var i, j :| 0 <= i < j < |rules| && rules[i].id == rules[j].id;
        if j == last {
          assert rules[..last][i].id == rules[last].id;
          assert Occurrences(rules, rules[last].id) > 1;
        } else {
          assert rules[..last][i].id == rules[..last][j].id;
          var k :| 0 <= k < last && Occurrences(rules[..last], rules[..last][k].id) > 1;
          assert Occurrences(rules, rules[k].id) > 1;
        }
      }
    }
  }

  /** The nested loops that fill `rule_owners`. */
  method RuleOwners(sources: seq<Policy>) returns (owners: map<string, seq<string>>)
    ensures Owns(owners, AllOwned(sources))
  {
    owners := map[];
    for s := 0 to |sources|
      invariant Owns(owners, AllOwned(sources[..s]))
    {
      var rules := sources[s].rules;
      ghost var before, own := AllOwned(sources[..s]), OwnedBy(sources[s]);
      assert before + own[..0] == before;
      for k := 0 to |rules|
        invariant Owns(owners, before + own[..k])
      {
        OwnsMore(owners, before + own[..k], own[k]);
        assert before + own[..k] + [own[k]] == before + own[..k + 1];
        owners := owners[rules[k].id := (if rules[k].id in owners then owners[rules[k].id] else []) + [sources[s].id]];
      }
      assert own[..|rules|] == own;
      assert sources[..s + 1][..s] == sources[..s];
    }
    assert sources[..|sources|] == sources;
  }

  lemma OwnersTellUnique(owners: map<string, seq<string>>, owned: seq<Owned>)
    requires Owns(owners, owned)
    ensures UniqueIds(RulesOf(owned)) <==> forall id | id in owners :: |owners[id]| <= 1
  {
    var rules := RulesOf(owned);
    UniqueMeansOnce(rules);
    forall id | id in owners ensures |owners[id]| == Occurrences(rules, id) {
      OwnersAreCounted(owned, id);
    }
    forall i | 0 <= i < |rules| ensures rules[i].id in owners {
      assert owned[i].rule == rules[i];
    }
    forall id | id in owners && |owners[id]| > 1 ensures exists i :: 0 <= i < |rules| && rules[i].id == id {
      NoOccurrence(rules, id);
    }
  }

  /** What each error says about the sources, when every check before it passed. */
  predicate Blames(sources: seq<Policy>, error: CompositionError)
  {
    match error
    case TooManySources => |sources| > MAX_COMPOSED_POLICIES
    case NoSources => |sources| == 0
    case DuplicateSources =>
      && 1 <= |sources| <= MAX_COMPOSED_POLICIES
      && exists i, j | 0 <= i < j < |sources| :: sources[i].id == sources[j].id
    case MismatchedDefaults =>
      && 1 <= |sources| <= MAX_COMPOSED_POLICIES
      && (forall i, j | 0 <= i < j < |sources| :: sources[i].id != sources[j].id)
      && exists i, j | 0 <= i < j < |sources| :: sources[i].defaultEffect != sources[j].defaultEffect
    case DuplicateRules =>
      && WellMatched(sources)
      && exists i, j | 0 <= i < j < |AllRules(sources)| :: AllRules(sources)[i].id == AllRules(sources)[j].id
    case TooManyRules => WellMatched(sources) && UniqueIds(AllRules(sources)) && |AllRules(sources)| > MAX_POLICY_RULES
    case _ => false
  }

  predicate WellMatched(sources: seq<Policy>)
  {
    && 1 <= |sources| <= MAX_COMPOSED_POLICIES
    && forall i, j | 0 <= i < j < |sources| ::
         sources[i].id != sources[j].id && sources[i].defaultEffect == sources[j].defaultEffect
  }

  /** The checks on the sources, in order, before anything is printed. */
  method CheckSources(sources: seq<Policy>) returns (error: Option<CompositionError>)
    ensures error.None? <==> Composable(sources)
    ensures error.Some? ==> Blames(sources, error.value)
  {
    if |sources| > MAX_COMPOSED_POLICIES {
      return Some(TooManySources);
    }
    if sources == [] {
      return Some(NoSources);
    }
    if !DistinctSources(sources) {
      return Some(DuplicateSources);
    }
    if !SharedDefault(sources) {
      return Some(MismatchedDefaults);
    }
    var owners := RuleOwners(sources);
    AllOwnedRules(sources);
    OwnersTellUnique(owners, AllOwned(sources));
    if exists ruleId | ruleId in owners :: |owners[ruleId]| > 1 {
      return Some(DuplicateRules);
    }
    if |AllRules(sources)| > MAX_POLICY_RULES {
      return Some(TooManyRules);
    }
    return None;
  }

  function Provenance(sources: seq<Policy>): seq<Source>
  {
    seq(|sources|, s requires 0 <= s < |sources| => Source(sources[s].id, sources[s].version, |sources[s].rules|))
  }

  /**
   `compose_policies`. `fits` says whether a printed policy stays within the serialized byte limit.
   */
  method ComposePolicies(sources: seq<Policy>, id: string, version: string, description: string, fits: Json -> bool)
    returns (r: Result<Composed, CompositionError>)
    requires forall s | 0 <= s < |sources| :: ValidPolicy(sources[s])
    ensures r.Ok? <==> && Composable(sources) && ValidMetadata(id, version, description)
                       && ShapeOk(PolicyToJson(Whole(sources, id, version, description)))
                       && fits(PolicyToJson(Whole(sources, id, version, description)))
    ensures r.Ok? ==>
              && r.value.policy == Whole(sources, id, version, description) && ValidPolicy(r.value.policy)
              && r.value.sources == Provenance(sources)
    ensures r.Ok? ==>
              && WellMatched(sources)
              && r.value.policy.id == id && r.value.policy.version == version && r.value.policy.description == description
              && (forall s | 0 <= s < |sources| :: r.value.policy.defaultEffect == sources[s].defaultEffect)
              && |r.value.sources| == |sources|
              && forall s | 0 <= s < |sources| ::
                   && r.value.sources[s].policyId == sources[s].id && r.value.sources[s].policyVersion == sources[s].version
                   && r.value.sources[s].ruleCount == |sources[s].rules|
    ensures r.Err? ==>
              match r.error
              case InvalidMetadata =>
                Composable(sources) && !(ValidMetadata(id, version, description) && ShapeOk(PolicyToJson(Whole(sources, id, version, description))))
              case TooLarge =>
                && Composable(sources) && ValidMetadata(id, version, description)
                && var document := PolicyToJson(Whole(sources, id, version, description));
                   !ShapeOk(document) || !fits(document)
              case _ => Blames(sources, r.error)
  {
    var error := CheckSources(sources);
    if error.Some? {
      return Err(error.value);
    }
    var document := PolicyToJson(Whole(sources, id, version, description));
    var policy := PolicyFromJson(document);
    ParsedWhole(sources, id, version, description);
    if policy.None? {
      return Err(InvalidMetadata);
    }
    if !ShapeOk(PolicyToJson(policy.value)) || !fits(PolicyToJson(policy.value)) {
      return Err(TooLarge);
    }
    return Ok(Composed(policy.value, Provenance(sources)));
  }

  lemma {:induction false} AllRulesAreValid(sources: seq<Policy>)
    requires forall s | 0 <= s < |sources| :: ValidPolicy(sources[s])
    ensures forall i | 0 <= i < |AllRules(sources)| :: ValidRule(AllRules(sources)[i])
  {
    if sources != [] {
      AllRulesAreValid(sources[..|sources| - 1]);
    }
  }

  /** Every source's rules stand together and in its own order, after those of the sources before it. */
  lemma {:induction false} RulesKeepOrder(sources: seq<Policy>, s: nat)
    requires s < |sources|
    ensures AllRules(sources) == AllRules(sources[..s]) + sources[s].rules + AllRules(sources[s + 1..])
  {
    var upTo := sources[..s + 1];
    assert upTo[..s] == sources[..s] && AllRules(upTo) == AllRules(sources[..s]) + sources[s].rules;
    hide AllRules;
    AllRulesOfConcat(upTo, sources[s + 1..]);
    assert sources == upTo + sources[s + 1..];
  }

  /** Printing the whole and parsing it back gives the whole or fails, and never fails when it is small enough. */
  lemma ParsedWhole(sources: seq<Policy>, id: string, version: string, description: string)
    requires Composable(sources) && forall s | 0 <= s < |sources| :: ValidPolicy(sources[s])
    ensures var whole := Whole(sources, id, version, description);
            && (!ValidMetadata(id, version, description) ==> PolicyFromJson(PolicyToJson(whole)).None?)
            && (PolicyFromJson(PolicyToJson(whole)).Some? ==> PolicyFromJson(PolicyToJson(whole)).value == whole && ValidPolicy(whole))
            && (ValidMetadata(id, version, description) && ShapeOk(PolicyToJson(whole)) ==> PolicyFromJson(PolicyToJson(whole)).Some?)
  {
    var whole := Whole(sources, id, version, description);
    AllRulesAreValid(sources);
    if ValidMetadata(id, version, description) {
      PrintedPolicy(whole);
      if ShapeOk(PolicyToJson(whole)) {
        WholeWithinBounds(whole);
      }
    } else {
      MetadataIsChecked(whole);
    }
  }

  lemma MetadataIsChecked(p: Policy)
    requires !ValidMetadata(p.id, p.version, p.description)
    ensures PolicyFromJson(PolicyToJson(p)).None?
  {
  }

  lemma {:induction false} PrintedRuleAt(rules: seq<Rule>, i: nat)
    requires i < |rules|
    ensures i < |RulesToJson(rules)| && RulesToJson(rules)[i] == RuleToJson(rules[i])
  {
    if i > 0 {
      PrintedRuleAt(rules[1..], i - 1);
    }
  }

  lemma WholeWithinBounds(p: Policy)
    requires ShapeOk(PolicyToJson(p))
    ensures PrintsWithinBounds(p.rules)
  {
    var printed := PolicyToJson(p);
    assert printed.fields["rules"] == Arr(RulesToJson(p.rules));
    ElementsOfField(printed.fields, "rules");
    forall i | 0 <= i < |p.rules| ensures ShapeOk(RuleToJson(p.rules[i])) {
      PrintedRuleAt(p.rules, i);
    }
  }

  // ----- What the composed policy decides

  lemma {:induction false} InAllRules(sources: seq<Policy>, r: Rule)
    ensures r in AllRules(sources) <==> exists s :: 0 <= s < |sources| && r in sources[s].rules
  {
    if sources != [] {
      var last := |sources| - 1;
      InAllRules(sources[..last], r);
      if r in AllRules(sources[..last]) {
        var s :| 0 <= s < last && r in sources[..last][s].rules;
        assert r in sources[s].rules;
      }
      if exists s :: 0 <= s < |sources| && r in sources[s].rules {
        var s :| 0 <= s < |sources| && r in sources[s].rules;
        assert s < last ==> sources[..last][s] == sources[s];
      }
    }
  }

  /** Evaluating the composed rules fails exactly when evaluating some source fails. */
  lemma FailsLikeSources(context: Json, sources: seq<Policy>)
    ensures FirstFailure(context, AllRules(sources)).Some?
       <==> exists s :: 0 <= s < |sources| && FirstFailure(context, sources[s].rules).Some?
  {
    FailureMeans(context, AllRules(sources));
    if FirstFailure(context, AllRules(sources)).Some? {
      var r :| r in AllRules(sources) && RuleResult(context, r.conditions).Err?;
      InAllRules(sources, r);
      var s :| 0 <= s < |sources| && r in sources[s].rules;
      FailureMeans(context, sources[s].rules);
    }
    forall s | 0 <= s < |sources| && FirstFailure(context, sources[s].rules).Some?
      ensures FirstFailure(context, AllRules(sources)).Some?
    {
      FailureMeans(context, sources[s].rules);
      var r :| r in sources[s].rules && RuleResult(context, r.conditions).Err?;
      InAllRules(sources, r);
    }
  }

  function MatchList(context: Json, rules: seq<Rule>): seq<MatchedRule>
  {
    SortByKey(Matches(context, rules))
  }

  lemma {:induction false} SourceIdsAreUnique(sources: seq<Policy>, s: nat)
    requires UniqueIds(AllRules(sources)) && s < |sources|
    ensures UniqueIds(sources[s].rules)
  {
    var last := |sources| - 1;
    var before, rules := AllRules(sources[..last]), sources[last].rules;
    assert AllRules(sources) == before + rules;
    if s == last {
      forall i, j | 0 <= i < j < |rules| ensures rules[i].id != rules[j].id {
        assert (before + rules)[|before| + i] == rules[i] && (before + rules)[|before| + j] == rules[j];
      }
    } else {
      assert forall i | 0 <= i < |before| :: (before + rules)[i] == before[i];
      SourceIdsAreUnique(sources[..last], s);
      assert sources[..last][s] == sources[s];
    }
  }

  /** The composed match list is the strictly ordered merge of the sources' match lists. */
  lemma MatchesAreMerged(context: Json, sources: seq<Policy>)
    requires UniqueIds(AllRules(sources))
    ensures StrictlySorted(MatchList(context, AllRules(sources)))
    ensures forall m :: m in MatchList(context, AllRules(sources))
                   <==> exists s :: 0 <= s < |sources| && m in MatchList(context, sources[s].rules)
  {
    MatchListMeans(context, AllRules(sources));
    forall m
      ensures m in MatchList(context, AllRules(sources))
         <==> exists s :: 0 <= s < |sources| && m in MatchList(context, sources[s].rules)
    {
      MergedMember(context, sources, m);
    }
  }

  lemma MergedMember(context: Json, sources: seq<Policy>, m: MatchedRule)
    requires UniqueIds(AllRules(sources))
    ensures EngineLaws.MatchedBy(context, AllRules(sources), m)
       <==> exists s :: 0 <= s < |sources| && m in MatchList(context, sources[s].rules)
  {
    if EngineLaws.MatchedBy(context, AllRules(sources), m) {
      var r :| r in AllRules(sources) && Applies(context, r) && MatchOf(r) == m;
      InAllRules(sources, r);
      var s :| 0 <= s < |sources| && r in sources[s].rules;
      SourceIdsAreUnique(sources, s);
      MatchListMeans(context, sources[s].rules);
    }
    forall s | 0 <= s < |sources| && m in MatchList(context, sources[s].rules)
      ensures EngineLaws.MatchedBy(context, AllRules(sources), m)
    {
      SourceIdsAreUnique(sources, s);
      MatchListMeans(context, sources[s].rules);
      var r :| r in sources[s].rules && Applies(context, r) && MatchOf(r) == m;
      InAllRules(sources, r);
    }
  }

  /** How strong an effect is in deciding: deny over review over allow over none. */
  function Strength(effect: Effect): nat
  {
    match effect
    case EffectDeny => 3
    case EffectReview => 2
    case EffectAllow => 1
    case _ => 0
  }

  /** `strength` is the greatest strength among the matches. */
  predicate IsStrongest(matched: seq<MatchedRule>, strength: nat)
  {
    && (forall m | m in matched :: Strength(m.effect) <= strength)
    && (strength > 0 ==> exists m :: m in matched && Strength(m.effect) == strength)
  }

  function OutcomeOfStrength(strength: nat, default: Outcome): Outcome
  {
    if strength == 3 then OutcomeDeny else if strength == 2 then OutcomeReview
    else if strength == 1 then OutcomeAllow else default
  }

  /** The outcome is the one of the strongest match, or the default when no match is decisive. */
  lemma OutcomeIsStrongest(matched: seq<MatchedRule>, default: Outcome, strength: nat)
    requires IsStrongest(matched, strength)
    ensures OutcomeFor(matched, default) == OutcomeOfStrength(strength, default)
  {
    if strength > 0 {
      var m :| m in matched && Strength(m.effect) == strength;
      var i :| 0 <= i < |matched| && matched[i] == m;
    }
    assert forall i | 0 <= i < |matched| :: matched[i] in matched;
  }

  function StrengthOf(matched: seq<MatchedRule>): (strength: nat)
    ensures IsStrongest(matched, strength)
  {
    if matched == [] then 0
    else
      var rest, own := StrengthOf(matched[1..]), Strength(matched[0].effect);
      assert matched == [matched[0]] + matched[1..];
      if own > rest then own else rest
  }

  function Greatest(strengths: seq<nat>): (greatest: nat)
    ensures forall i | 0 <= i < |strengths| :: strengths[i] <= greatest
    ensures greatest > 0 ==> exists i :: 0 <= i < |strengths| && strengths[i] == greatest
  {
    if strengths == [] then 0
    else
      var before, last := Greatest(strengths[..|strengths| - 1]), strengths[|strengths| - 1];
      assert forall i | 0 <= i < |strengths| - 1 :: strengths[..|strengths| - 1][i] == strengths[i];
      if last > before then last else before
  }

  /** The greatest strength any source reaches on its own. */
  function StrongestSource(context: Json, sources: seq<Policy>): nat
  {
    Greatest(SourceStrengths(context, sources))
  }

  function SourceStrengths(context: Json, sources: seq<Policy>): seq<nat>
  {
    seq(|sources|, s requires 0 <= s < |sources| => StrengthOf(MatchList(context, sources[s].rules)))
  }

  /**
   When the composed policy decides, its outcome is that of the highest decisive effect reached by
   any source on its own, and the shared default when none is reached.
   */
  lemma OutcomeIsHighestOfSources(context: Json, sources: seq<Policy>, whole: Policy)
    requires Composable(sources) && whole.rules == AllRules(sources) && whole.defaultEffect == sources[0].defaultEffect
    ensures Decide(whole, context).Ok? <==> forall s | 0 <= s < |sources| :: Decide(sources[s], context).Ok?
    ensures Decide(whole, context).Ok? ==>
              Decide(whole, context).value.outcome
              == OutcomeOfStrength(StrongestSource(context, sources), sources[0].defaultEffect)
  {
    FailsLikeSources(context, sources);
    StrongestOfMerged(context, sources);
    OutcomeIsStrongest(MatchList(context, whole.rules), whole.defaultEffect, StrongestSource(context, sources));
  }

  lemma StrongestOfMerged(context: Json, sources: seq<Policy>)
    requires UniqueIds(AllRules(sources))
    ensures IsStrongest(MatchList(context, AllRules(sources)), StrongestSource(context, sources))
  {
    MatchesAreMerged(context, sources);
    var matched, strengths := MatchList(context, AllRules(sources)), SourceStrengths(context, sources);
    var strength := Greatest(strengths);
    forall m | m in matched ensures Strength(m.effect) <= strength {
      var s :| 0 <= s < |sources| && m in MatchList(context, sources[s].rules);
      assert strengths[s] <= strength;
    }
    if strength > 0 {
      var s :| 0 <= s < |strengths| && strengths[s] == strength;
      var m :| m in MatchList(context, sources[s].rules) && Strength(m.effect) == strength;
      assert m in matched;
    }
  }

  function Flatten(groups: seq<seq<Policy>>): seq<Policy>
  {
    if groups == [] then [] else Flatten(groups[..|groups| - 1]) + groups[|groups| - 1]
  }

  lemma {:induction false} AllRulesOfConcat(a: seq<Policy>, b: seq<Policy>)
    ensures AllRules(a + b) == AllRules(a) + AllRules(b)
  {
    if b == [] {
      assert a + b == a;
    } else {
      var last := |b| - 1;
      AllRulesOfConcat(a, b[..last]);
      assert (a + b)[..|a + b| - 1] == a + b[..last] && (a + b)[|a + b| - 1] == b[last];
      assert AllRules(a) + (AllRules(b[..last]) + b[last].rules) == (AllRules(a) + AllRules(b[..last])) + b[last].rules;
    }
  }

  /** Composing in stages, group by group, gives the rules of composing everything at once. */
  lemma {:induction false} StagedRules(groups: seq<seq<Policy>>, stages: seq<Policy>)
    requires |stages| == |groups| && forall g | 0 <= g < |groups| :: stages[g].rules == AllRules(groups[g])
    ensures AllRules(stages) == AllRules(Flatten(groups))
  {
    if groups != [] {
      var last := |groups| - 1;
      StagedRules(groups[..last], stages[..last]);
      AllRulesOfConcat(Flatten(groups[..last]), groups[last]);
    }
  }

  /** Staged composition decides exactly as composition in one step under the same metadata. */
  lemma StagedDecidesAlike(context: Json, groups: seq<seq<Policy>>, stages: seq<Policy>, id: string, version: string,
                           description: string)
    requires |stages| == |groups| && groups != [] && forall g | 0 <= g < |groups| :: groups[g] != []
    requires forall g | 0 <= g < |groups| :: stages[g].rules == AllRules(groups[g])
    requires forall g | 0 <= g < |groups| :: stages[g].defaultEffect == groups[g][0].defaultEffect
    ensures Flatten(groups) != []
    ensures Whole(stages, id, version, description) == Whole(Flatten(groups), id, version, description)
    ensures Decide(Whole(stages, id, version, description), context)
         == Decide(Whole(Flatten(groups), id, version, description), context)
  {
    StagedRules(groups, stages);
    FlattenStart(groups);
  }

  lemma {:induction false} FlattenStart(groups: seq<seq<Policy>>)
    requires groups != [] && forall g | 0 <= g < |groups| :: groups[g] != []
    ensures Flatten(groups) != [] && Flatten(groups)[0] == groups[0][0]
  {
    var last := |groups| - 1;
    if last > 0 {
      FlattenStart(groups[..last]);
    } else {
      assert Flatten(groups[..last]) == [];
    }
  }

  /** The limits on sources, without the one that there is a source. */
  predicate WithinLimits(sources: seq<Policy>)
  {
    && |sources| <= MAX_COMPOSED_POLICIES
    && DistinctSources(sources) && SharedDefault(sources)
    && UniqueIds(AllRules(sources)) && |AllRules(sources)| <= MAX_POLICY_RULES
  }

  lemma PartsAreWithinLimits(a: seq<Policy>, b: seq<Policy>)
    requires WithinLimits(a + b)
    ensures WithinLimits(a) && WithinLimits(b)
  {
    AllRulesOfConcat(a, b);
    hide AllRules;
    assert forall i | 0 <= i < |a| :: a[i] == (a + b)[i];
    assert forall i | 0 <= i < |b| :: b[i] == (a + b)[|a| + i];
    PartsAreUnique(AllRules(a), AllRules(b));
  }

  lemma PartsAreUnique(a: seq<Rule>, b: seq<Rule>)
    requires UniqueIds(a + b)
    ensures UniqueIds(a) && UniqueIds(b)
  {
    assert forall i | 0 <= i < |a| :: a[i] == (a + b)[i];
    assert forall i | 0 <= i < |b| :: b[i] == (a + b)[|a| + i];
  }

  lemma {:induction false} GroupsAreWithinLimits(groups: seq<seq<Policy>>, g: nat)
    requires WithinLimits(Flatten(groups)) && g < |groups|
    ensures WithinLimits(groups[g])
  {
    var last := |groups| - 1;
    PartsAreWithinLimits(Flatten(groups[..last]), groups[last]);
    if g < last {
      GroupsAreWithinLimits(groups[..last], g);
    }
  }

  lemma {:induction false} FlattenIsNoShorter(groups: seq<seq<Policy>>)
    requires forall g | 0 <= g < |groups| :: groups[g] != []
    ensures |groups| <= |Flatten(groups)|
  {
    if groups != [] {
      FlattenIsNoShorter(groups[..|groups| - 1]);
    }
  }

  lemma {:induction false} GroupStartsInside(groups: seq<seq<Policy>>, g: nat)
    requires (forall k | 0 <= k < |groups| :: groups[k] != []) && g < |groups|
    ensures groups[g][0] in Flatten(groups)
  {
    var last := |groups| - 1;
    if g < last {
      GroupStartsInside(groups[..last], g);
    }
  }

  /** Where everything can be composed at once, so can every group, and then the stages if their new ids differ. */
  lemma StagesCompose(groups: seq<seq<Policy>>, stages: seq<Policy>)
    requires |stages| == |groups| && groups != [] && forall g | 0 <= g < |groups| :: groups[g] != []
    requires forall g | 0 <= g < |groups| :: stages[g].rules == AllRules(groups[g])
    requires forall g | 0 <= g < |groups| :: stages[g].defaultEffect == groups[g][0].defaultEffect
    requires Composable(Flatten(groups))
    ensures forall g | 0 <= g < |groups| :: Composable(groups[g])
    ensures Composable(stages) <==> DistinctSources(stages)
  {
    forall g | 0 <= g < |groups| ensures Composable(groups[g]) {
      GroupsAreWithinLimits(groups, g);
    }
    StagedRules(groups, stages);
    FlattenIsNoShorter(groups);
    forall g | 0 <= g < |groups| ensures stages[g].defaultEffect == Flatten(groups)[0].defaultEffect {
      GroupStartsInside(groups, g);
    }
  }

  predicate NeverAllows(p: Policy)
  {
    forall i | 0 <= i < |p.rules| :: !p.rules[i].effect.EffectAllow?
  }

  /**
   Adding, anywhere in the order, a source that has no allow rules only restricts: whatever the
   larger composition allows, the smaller one allowed as well.
   */
  lemma AddingSourceOnlyRestricts(context: Json, sources: seq<Policy>, extra: Policy, k: nat, whole: Policy,
                                  larger: Policy)
    requires k <= |sources| && NeverAllows(extra)
    requires UniqueIds(AllRules(sources[..k] + [extra] + sources[k..])) && UniqueIds(AllRules(sources))
    requires whole.rules == AllRules(sources) && larger.rules == AllRules(sources[..k] + [extra] + sources[k..])
    requires whole.defaultEffect == larger.defaultEffect
    requires Decide(larger, context).Ok? && Decide(larger, context).value.outcome.OutcomeAllow?
    ensures Decide(whole, context).Ok? && Decide(whole, context).value.outcome.OutcomeAllow?
  {
    forall r ensures r in larger.rules <==> r in whole.rules || r in extra.rules {
      RulesWithExtra(sources, extra, k, r);
    }
    FailureMeans(context, larger.rules);
    FailureMeans(context, whole.rules);
    MoreRulesMoreMatches(context, whole.rules, larger.rules, extra);
    FewerDenialsAllow(MatchList(context, whole.rules), MatchList(context, larger.rules), whole.defaultEffect);
  }

  /** The larger list has every match of the smaller one and no allow match besides. */
  predicate ExtendsWithoutAllow(smaller: seq<MatchedRule>, larger: seq<MatchedRule>)
  {
    && (forall m | m in smaller :: m in larger)
    && forall m | m in larger && m.effect.EffectAllow? :: m in smaller
  }

  lemma MoreRulesMoreMatches(context: Json, smaller: seq<Rule>, larger: seq<Rule>, extra: Policy)
    requires UniqueIds(smaller) && UniqueIds(larger) && NeverAllows(extra)
    requires forall r :: r in larger <==> r in smaller || r in extra.rules
    ensures ExtendsWithoutAllow(MatchList(context, smaller), MatchList(context, larger))
  {
    MatchListMeans(context, larger);
    MatchListMeans(context, smaller);
    forall m | m in MatchList(context, smaller) ensures m in MatchList(context, larger) {
      var r :| r in smaller && Applies(context, r) && MatchOf(r) == m;
      assert EngineLaws.MatchedBy(context, larger, m);
    }
    forall m | m in MatchList(context, larger) && m.effect.EffectAllow? ensures m in MatchList(context, smaller) {
      var r :| r in larger && Applies(context, r) && MatchOf(r) == m;
      assert r !in extra.rules;
      assert EngineLaws.MatchedBy(context, smaller, m);
    }
  }

  lemma FewerDenialsAllow(smaller: seq<MatchedRule>, larger: seq<MatchedRule>, default: Outcome)
    requires ExtendsWithoutAllow(smaller, larger) && OutcomeFor(larger, default).OutcomeAllow?
    ensures OutcomeFor(smaller, default).OutcomeAllow?
  {
    OutcomeIsStrongest(smaller, default, StrengthOf(smaller));
    OutcomeIsStrongest(larger, default, StrengthOf(larger));
  }

  lemma RulesWithExtra(sources: seq<Policy>, extra: Policy, k: nat, r: Rule)
    requires k <= |sources|
    ensures r in AllRules(sources[..k] + [extra] + sources[k..]) <==> r in AllRules(sources) || r in extra.rules
  {
    AllRulesOfConcat(sources[..k] + [extra], sources[k..]);
    AllRulesOfConcat(sources[..k], [extra]);
    AllRulesOfConcat(sources[..k], sources[k..]);
    assert sources[..k] + sources[k..] == sources;
    OneSource(extra);
  }

  lemma OneSource(p: Policy)
    ensures AllRules([p]) == p.rules
  {
    assert [p][..0] == [];
    assert AllRules([p]) == AllRules([]) + p.rules;
  }
}
