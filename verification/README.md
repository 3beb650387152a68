# Verification model of samsarix_ethics

This project models the policy language of `samsarix_ethics` and the fail-closed state machines around
it, and proves properties of that model with Dafny 4.11. `dafny verify dfyconfig.toml` checks everything.

## The policy language

A policy is a list of rules; a rule applies when all its conditions hold of a JSON context. Four modules
give the language its meaning: `JsonValues` (values, the engine's equality, dotted paths), `JsonBounds`
and `Validation` (the bounds every input meets and the explicit-stack checker that enforces them),
`Models` (the abstract syntax and its parsers and printers) and `Engine` (conditions, rules, precedence,
decisions, explanations). Loops of the source are methods with loops here, each proved against a
function; what the source promises is then proved about the functions.

* `OperatorLaws`: what the 15 operators and the precedence mean, independently of the evaluator's branches.
* `DecisionLaws`: what every field of a decision or explanation says about the policy's own rules.
* `EngineLaws`: equality is a congruence for evaluation, the matched list is the one strictly sorted list
  of the applying rules, rule order is irrelevant, `explain` refines `evaluate`.
* `Contracts`, `ContractExactness`, `TypeSoundness`, `ContractCoherence`, `ContractLimits`: the static checker. It accepts exactly
  the conditions whose operator cannot fail and whose compared types share a value; well-typed policies fail on an
  accepted context exactly where an optional reference is missing; every accepted contract whose required
  paths fit the depth limit can be met, and optional fields can always be left out.
* `Diagnostics`, `Contradictions`, `LinterExactness`, `Linting`, `LintingLaws`: the linter. Its duplicate groups are the
  equivalence classes, its contradiction reports are sound, it is known exactly what they miss, and both
  kinds of report license the deletion they suggest. `Placement` and `LinterInputs` build the contexts and
  inputs that show a rule can apply.
* `Composition`: the linker. The composed policy fails, matches and decides as its sources do together.
* `ModelsRoundTrip`, `ContractRoundTrip`: printing and parsing. Contracts always survive; for rules and
  policies the exact bound is given beyond which what was printed is refused.

## The state machines

* `AuditChain`, `AuditChainLaws`, `AuditChainExactness`: the keyed audit chain as a class over an append-only file, and all
  interleavings of any number of sinks with short writes, failed syncs and foreign appends. The MAC is an
  uninterpreted function; where a statement needs it to be collision free, the collision is a disjunct.
  `CanonicalInjective` and `AuditCodec` show that the canonical encoding meets what the laws ask of it.
* `Publication`, `AtomicWrite`: publication of a file, as a step machine over names and inodes for all
  interleavings and crashes, and as the method one publisher runs while others move between its calls.
* `Runtime`, `RuntimeLaws`: policy activation by compare-and-swap, as a class, and as a machine whose callers take single
  field accesses under a lock, shown to be linearizable.
* `Gate`, `Dispatch`, `DispatchLaws`: batch authorization with ordered audit delivery, then all-or-nothing dispatch.
* `CanonicalJson`, `Discovery`, `DiscoveryLaws`: the canonical encoding with concrete lengths, and discovery's incremental
  byte and item totals, shown equal to recomputing them over the whole registry, and what is pinned by page and position.

Where the code says less than one might hope, the model keeps the code and gives both the input that shows it
and the condition under which the hope is met, in both directions:

* the linter misses contradictions between nested fields (`LinterExactness.NestedFieldsAreMissed`), and
  `LinterExactness.LinterIsExact` says exactly which rules it misses among presence and literal conditions;
* a rule can be refused once printed (`ModelsRoundTrip.WideRuleIsLost`), exactly when
  `ModelsRoundTrip.ReparsedRule` says so;
* a contract can be accepted that no context meets (`ContractLimits.SomeContractIsMetByNothing`), exactly when
  `ContractCoherence.ContractIsSatisfiable` says so.

## Model

| member | source | states |
|---|---|---|
| JsonValues.EqualIsReflexive | src/samsarix_ethics/engine.py:63-90 | every JSON value equals itself |
| JsonValues.EqualIsSymmetric | src/samsarix_ethics/engine.py:63-90 | equality is symmetric although its branches test the left operand first |
| JsonValues.EqualIsTransitive | src/samsarix_ethics/engine.py:63-90 | equality is transitive across ints, floats, arrays and objects |
| JsonValues.EqualMeansSameNormal | src/samsarix_ethics/engine.py:63-90 | two values are equal exactly when they become identical once every int is read as a float; so 1 equals 1.0 at any depth and True equals neither |
| JsonValues.FieldValue | src/samsarix_ethics/engine.py:35-42 | the loop over the segments finds what the recursive lookup of the dotted path finds |
| JsonValues.LookupRespectsEqual | src/samsarix_ethics/engine.py:35-42 | equal contexts have equal values, or none, at every path |
| Validation.ValidateJsonShape | src/samsarix_ethics/validation.py:40-74 | the stack loop terminates and accepts exactly the JSON values within depth 32, 10000 container items and the string bound, whatever the pop order of a mapping's values |
| Validation.AcceptableMeans | src/samsarix_ethics/validation.py:40-74 | the checker's own criterion on Python values is the bound on the JSON value they stand for |
| Validation.ThawFreeze | src/samsarix_ethics/validation.py:20-37 | thawing a frozen value gives it back if and only if it was built of dicts and lists |
| Validation.FreezeKeepsMeaning | src/samsarix_ethics/validation.py:20-27 | the frozen copy stands for the same JSON value, whatever mix of mutable and frozen parts it is made from |
| Validation.FreezeIsImmutable | src/samsarix_ethics/validation.py:20-27 | the frozen copy is immutable throughout if and only if every tuple inside, which is left as it is, was so already |
| Models.NamesParseBack | src/samsarix_ethics/models.py:22-37 | operator, effect and outcome names are parsed only from the text they print as |
| ModelsRoundTrip.ParsedCondition | src/samsarix_ethics/models.py:102-144 | a parsed condition is valid and prints as the document it came from |
| ModelsRoundTrip.PrintedCondition | src/samsarix_ethics/models.py:102-144 | a valid condition prints to a document that parses back to it |
| ModelsRoundTrip.ParsedRule | src/samsarix_ethics/models.py:156-212 | a parsed rule is valid and prints as its document with the defaults written out |
| ModelsRoundTrip.PrintedRule | src/samsarix_ethics/models.py:156-212 | a printed rule parses back to itself exactly when the printed document is within bounds |
| ModelsRoundTrip.ReparsedRule | src/samsarix_ethics/models.py:183-212 | parse, print, parse is the identity if and only if the document's items plus the defaults it omits stay within the limit |
| ModelsRoundTrip.WideRuleIsLost | src/samsarix_ethics/models.py:183-212 | the family of accepted rules, given by size, whose printed form is refused |
| ModelsRoundTrip.ParsedPolicy | src/samsarix_ethics/models.py:226-271 | a parsed policy has valid rules with unique ids |
| ModelsRoundTrip.PrintedPolicy | src/samsarix_ethics/models.py:226-282 | a printed policy parses back to itself exactly when each printed rule and the whole stay within bounds |
| Contracts.ReadFields | src/samsarix_ethics/contracts.py:143-151 | the loop succeeds exactly when every entry parses and then holds every parsed entry |
| Contracts.CheckParents | src/samsarix_ethics/contracts.py:152-169 | the nested prefix loops accept exactly the field maps whose every proper prefix is a declared object, required when the field is |
| Contracts.ContractFromJson | src/samsarix_ethics/contracts.py:110-176 | a document is accepted exactly when it declares a valid contract, and yields that contract |
| Contracts.ValidateContextAgainstContract | src/samsarix_ethics/contracts.py:213-240 | the loop accepts exactly the bounded objects with every declared fact as declared |
| Contracts.ValidatePolicyContextContract | src/samsarix_ethics/contracts.py:371-384 | the loop accepts exactly the policies whose every condition is well typed |
| ContractExactness.OrderNeverFails | src/samsarix_ethics/contracts.py:315-327 | on values of two types an order operator never fails exactly when both are numeric or both are strings |
| ContractExactness.AffixNeverFails | src/samsarix_ethics/contracts.py:304-313 | an affix operator never fails exactly on two strings |
| ContractExactness.MembershipNeverFails | src/samsarix_ethics/contracts.py:329-368 | equality never fails, and membership operators never fail exactly on the arrays they need |
| ContractExactness.CheckIsExact | src/samsarix_ethics/contracts.py:294-368 | a condition is accepted exactly when its paths are declared, its operator cannot fail on values of the declared types, and any two types that an equality or membership operator compares have a value in common; a presence test when its field is declared |
| ContractExactness.PolicyCheckIsExact | src/samsarix_ethics/contracts.py:371-384 | a policy is accepted exactly when that holds of each condition of each rule |
| ContractRoundTrip.PrintedField | src/samsarix_ethics/contracts.py:73-98 | a declared field parses back from its printed form |
| ContractRoundTrip.PrintedContractIsBounded | src/samsarix_ethics/contracts.py:178-185 | a printed contract is within the JSON bounds, however many fields it declares |
| ContractRoundTrip.PrintedContract | src/samsarix_ethics/contracts.py:110-185 | every valid contract prints to a document that is accepted and declares exactly that contract |
| ContractRoundTrip.DeclaredContractIsUnique | src/samsarix_ethics/contracts.py:110-176 | a document declares at most one contract, so print and parse is the identity |
| ContractRoundTrip.ParsedField | src/samsarix_ethics/contracts.py:73-98 | a field document parses to a field exactly when, with its defaults written out, it is what the field prints as |
| ContractRoundTrip.ParsedContract | src/samsarix_ethics/contracts.py:110-185 | an accepted document holds the members of the printed contract and no others, but for the defaults it omits |
| TypeSoundness.ValuesHaveOneType | src/samsarix_ethics/contracts.py:197-256 | the input check and the static check agree on types: a value matches a type exactly when that is its type, or it is an integer and the type is number |
| TypeSoundness.CompatibleMeansCommonValue | src/samsarix_ethics/contracts.py:259-263 | two types are compatible exactly when some value has both |
| TypeSoundness.OperandType | src/samsarix_ethics/contracts.py:285-368 | the operand found at run time, literal or referenced, has the type the static check gave it |
| TypeSoundness.ConditionIsSound | src/samsarix_ethics/contracts.py:294-368 | a well-typed condition fails on an accepted context if and only if its field is present and its reference names an absent field, which is then optional |
| TypeSoundness.RuleIsSound | src/samsarix_ethics/engine.py:271-321 | a well-typed rule fails exactly when evaluation reaches such a condition before a false one |
| TypeSoundness.PolicyIsSound | src/samsarix_ethics/contracts.py:371-384 | a checked policy fails on an accepted context only by a missing optional reference, and never when all references are required |
| ContractCoherence.EverySelectionIsMet | src/samsarix_ethics/contracts.py:152-169 | for every parent-closed choice of declared fields that has the required ones and fits the depth limit, some accepted context holds exactly those fields |
| ContractCoherence.ContractIsSatisfiable | src/samsarix_ethics/contracts.py:213-240 | a contract has an accepted context if and only if its required paths have at most 31 segments |
| ContractLimits.DeepContractLimit | src/samsarix_ethics/contracts.py:110-176 | the document that requires objects along a path of n segments, for n up to 128, is accepted, and some context meets the contract it declares if and only if n is at most 31 |
| ContractLimits.SomeContractIsMetByNothing | src/samsarix_ethics/contracts.py:110-176 | an accepted document whose contract no context meets: a required path of 32 segments |
| ContractCoherence.OptionalFieldCanGo | src/samsarix_ethics/contracts.py:213-240 | removing an optional declared field and everything below it leaves the context accepted |
| Engine.EvaluateRule | src/samsarix_ethics/engine.py:279-321 | the flag-flipping loop gives the short-circuit conjunction, and the status of every condition when explaining |
| Engine.EvaluateRules | src/samsarix_ethics/engine.py:271-321 | the accumulating loop gives the first failure, or the sorted matches and all traces |
| Engine.Evaluate | src/samsarix_ethics/engine.py:194-226 | input boundary, then failure or decision |
| Engine.EvaluateMany | src/samsarix_ethics/engine.py:323-343 | decisions in input order for at most 1000 items, or the first failing item, or the limit when every item before it passed |
| Engine.Explain | src/samsarix_ethics/engine.py:228-260 | the explanation built from the traces and the same sorted matches |
| Engine.RuleApplies | src/samsarix_ethics/engine.py:279-321 | a rule applies exactly when each of its conditions is true on its own |
| Engine.RuleSettled | src/samsarix_ethics/engine.py:279-321 | the first condition that is false or fails settles the rule |
| DecisionLaws.DecisionIsOfRules | src/samsarix_ethics/engine.py:194-226 | a decision names its policy, version and rule count, its outcome is what the policy's own applying rules demand, and it allows exactly when no deny or review rule applies and either an allow rule does or the default allows |
| DecisionLaws.LessIsTextBefore | src/samsarix_ethics/engine.py:320 | ids compare by the first code point that differs, a text before its continuations |
| DecisionLaws.DecisionListsRules | src/samsarix_ethics/engine.py:194-226 | the matched ids are those of exactly the applying rules, the warnings the texts of the warn rules among them, the reasons the texts of those with the winning effect or the default if there are none, each list by ascending priority number and then by id |
| DecisionLaws.OneListing | src/samsarix_ethics/engine.py:320 | there is one such list of the wanted rules that apply |
| DecisionLaws.ExplanationListsRules | src/samsarix_ethics/engine.py:228-260 | an explanation lists the applying rules, and as decisive exactly those with the winning effect, in the same order; the default was applied exactly when there are none; rule by rule it gives id, effect, priority, and whether it applies and is decisive |
| DecisionLaws.InputBoundary | src/samsarix_ethics/engine.py:262-269 | decisions and explanations refuse as invalid input exactly what is no bounded JSON object or, under a contract, lacks a required fact or holds a declared one or one of its items with another type |
| OperatorLaws.OppositesDisagree | src/samsarix_ethics/engine.py:93-144 | each operator and its opposite fail alike and otherwise give opposite results on a present field |
| OperatorLaws.AbsentFieldDecides | src/samsarix_ethics/engine.py:93-101 | on an absent field only not_exists holds, and the operand is never looked up |
| OperatorLaws.ComparisonsAreAnOrder | src/samsarix_ethics/engine.py:130-143 | the four comparisons are one strict total order on numbers and one on strings, agree with equality, and fail on everything else |
| OperatorLaws.ContainsIsInReversed | src/samsarix_ethics/engine.py:108-115 | contains and not_contains are in and not_in read the other way round |
| OperatorLaws.SubsetIsInclusion | src/samsarix_ethics/engine.py:116-123 | subset_of holds exactly when every value in the one array, up to equality, is in the other |
| OperatorLaws.AffixesSplitTheText | src/samsarix_ethics/engine.py:124-129 | the prefix and suffix operators hold exactly when the rest of the text exists |
| OperatorLaws.OutcomeIsExplained | src/samsarix_ethics/engine.py:194-226 | the default is reported exactly when no decisive rule matched; otherwise every reason is a deciding rule's |
| OperatorLaws.WarningsAreOfWarnRules | src/samsarix_ethics/engine.py:194-226 | the warnings are the messages, written or generated, of exactly the matching warn rules |
| OperatorLaws.ReasonsAreOfDecidingRules | src/samsarix_ethics/engine.py:194-226 | after a decisive match the reasons are the messages of exactly the matching rules with the winning effect |
| EngineLaws.SortingSorts | src/samsarix_ethics/engine.py:271-321 | the sort by priority and id yields a strictly increasing list of the same rules |
| EngineLaws.SortedIsUnique | src/samsarix_ethics/engine.py:271-321 | there is one strictly sorted list of a set of matches |
| EngineLaws.FailureMeans | src/samsarix_ethics/engine.py:271-321 | evaluation fails exactly when some rule fails, matched or not |
| EngineLaws.MatchListMeans | src/samsarix_ethics/engine.py:271-321 | the match list holds exactly the applying rules, strictly sorted |
| EngineLaws.SameRulesSameMatches | src/samsarix_ethics/engine.py:271-321 | policies with the same applying rules have the same match list |
| EngineLaws.RuleOrderIsIrrelevant | src/samsarix_ethics/engine.py:194-226 | permuting the rules changes neither whether evaluation fails nor anything in a decision |
| EngineLaws.EvaluationRespectsEqual | src/samsarix_ethics/engine.py:93-144 | equal conditions on equal contexts give the same result or the same error, for all 15 operators |
| EngineLaws.DecisionRespectsEqual | src/samsarix_ethics/engine.py:194-226 | equal contexts are decided alike |
| EngineLaws.TraceShape | src/samsarix_ethics/engine.py:279-321 | in a trace one NOT_MATCHED has only MATCHED before it and only NOT_EVALUATED after it, and is absent exactly when the rule applies |
| EngineLaws.ExplainRefinesEvaluate | src/samsarix_ethics/engine.py:228-260 | both fail on the same contexts with the same error, agree on outcome and matched ids, and a rule is marked matched exactly when it applies |
| Diagnostics.LintEqual | src/samsarix_ethics/diagnostics.py:117-139 | the linter's copy of equality agrees with the engine's |
| Diagnostics.ConditionEqualIsEquivalence | src/samsarix_ethics/diagnostics.py:142-147 | condition equality is an equivalence relation |
| Diagnostics.DuplicateConditionGroups | src/samsarix_ethics/diagnostics.py:150-164 | the reported groups are exactly the equivalence classes with more than one member, in order |
| Diagnostics.GroupedAreEqual | src/samsarix_ethics/diagnostics.py:150-164 | two conditions share a group if and only if they are equal |
| Diagnostics.RepetitionsAreLater | src/samsarix_ethics/diagnostics.py:150-164 | the repetitions are exactly the conditions that equal an earlier one |
| Diagnostics.DroppingRepetitionsKeepsResult | src/samsarix_ethics/diagnostics.py:150-164 | keeping only the first of each group leaves a rule's result and error unchanged on every context |
| Contradictions.ImpossibleConditionIndices | src/samsarix_ethics/diagnostics.py:171-218 | the loops over fields, candidates and exclusions compute the report specified per field |
| Contradictions.IntersectionMeans | src/samsarix_ethics/diagnostics.py:167-168 | a value is allowed by the intersection exactly when both lists allow it |
| Contradictions.ValueReportIsExact | src/samsarix_ethics/diagnostics.py:186-217 | the candidate lists report nothing if and only if some value meets all the literal conditions, including when only exclusions are present |
| Contradictions.FieldReportIsSound | src/samsarix_ethics/diagnostics.py:186-217 | on no context are all conditions reported for one field true |
| Contradictions.LinterIsSound | src/samsarix_ethics/diagnostics.py:171-218 | reported conditions are true together on no context, so the rule never applies |
| LinterExactness.UnreportedApplies | src/samsarix_ethics/diagnostics.py:171-218 | a rule of presence and literal conditions on which nothing is reported applies to some context if and only if no forbidden field lies above a demanded one and every listed field has a value left that agrees with the conditions below it |
| LinterExactness.LinterIsExact | src/samsarix_ethics/diagnostics.py:171-218 | such a rule can apply at all if and only if nothing is reported and its nested fields agree in that sense, so the rules missed are exactly the unreported ones whose nested fields do not |
| LinterExactness.PrefixFreeIsExact | src/samsarix_ethics/diagnostics.py:171-218 | where no field lies below another, nothing is reported if and only if some context satisfies the rule |
| LinterExactness.OneFieldIsExact | src/samsarix_ethics/diagnostics.py:186-217 | for conditions on a single field the report alone is exact |
| LinterExactness.NestedFieldsAreMissed | src/samsarix_ethics/diagnostics.py:171-218 | rules are missed: a literal on a path and presence below it contradict each other and are not reported |
| LinterInputs.UnreportedAppliesToInput | src/samsarix_ethics/diagnostics.py:171-218 | with demanded fields and listed values within the input bounds, an unreported rule applies to an input the engine accepts if and only if its nested fields agree |
| LinterInputs.InputsReachFields | src/samsarix_ethics/engine.py:271-321 | an accepted input that satisfies a rule has every demanded field within 31 segments |
| Linting.LintPolicy | src/samsarix_ethics/diagnostics.py:221-296 | the findings are the specified ones, rule by rule, with the duplicate groups as found |
| Linting.GroupsAreUnique | src/samsarix_ethics/diagnostics.py:150-164 | the group specification has one answer |
| Linting.ReportIsUnique | src/samsarix_ethics/diagnostics.py:221-296 | the report specification has one answer |
| LintingLaws.FindingsAreDeserved | src/samsarix_ethics/diagnostics.py:221-296 | a report has each of the five findings, with its severity and indices, exactly for the default or the rules that deserve it |
| LintingLaws.FindingsAreInOrder | src/samsarix_ethics/diagnostics.py:221-296 | the finding about the default comes first, then rule by rule in policy order, by code, and duplicates by their first condition; no finding comes twice |
| Linting.ReportedMeansImpossible | src/samsarix_ethics/diagnostics.py:254-264 | a rule is reported as SAE101 exactly when its conditions have an impossible group |
| Linting.ReportedNeverApplies | src/samsarix_ethics/diagnostics.py:254-264 | a rule reported as SAE101 applies to no context |
| Linting.DeadRulesCanGo | src/samsarix_ethics/diagnostics.py:254-264 | deleting every reported rule leaves outcome, matched rules, reasons and warnings of every successful evaluation unchanged |
| Linting.RepetitionsCanGo | src/samsarix_ethics/diagnostics.py:266-275 | deleting the reported repetitions of all rules leaves every decision and every error unchanged |
| Linting.MeasureCoverage | src/samsarix_ethics/coverage.py:114-158 | the covered and uncovered ids are those of the rules that some, or no, successful case matches, in policy order, and the cases are tallied by result |
| Linting.CasesAddUp | src/samsarix_ethics/coverage.py:114-158 | every case is counted once, as an outcome or an error |
| LintingLaws.CountsAreOfCases | src/samsarix_ethics/coverage.py:114-158 | each tally is the number of cases decided with that outcome |
| LintingLaws.FailuresAreOfCases | src/samsarix_ethics/coverage.py:114-158 | the listed names are those of the cases whose evaluation fails |
| Linting.ReportedNeverCovered | src/samsarix_ethics/coverage.py:130-144 | no suite covers a rule reported as SAE101 |
| Composition.RuleOwners | src/samsarix_ethics/composition.py:121-125 | under each rule id exactly the ids of the sources that declare it, once for each declaration and in order |
| Composition.CheckSources | src/samsarix_ethics/composition.py:96-139 | the checks pass exactly for composable sources, and each error blames what it names, the earlier checks having passed |
| Composition.ComposePolicies | src/samsarix_ethics/composition.py:84-165 | success condition with the cause of every error, the concatenated rules under the shared default, and the id, version and rule count of each source as provenance |
| Composition.RulesKeepOrder | src/samsarix_ethics/composition.py:142-156 | each source's rules stand together, in its own order and after those of the sources before it |
| Composition.FailsLikeSources | src/samsarix_ethics/composition.py:138-148 | the composed policy fails on a context if and only if some source fails |
| Composition.MatchesAreMerged | src/samsarix_ethics/composition.py:138-148 | its match list is the sorted merge of the sources' match lists |
| Composition.OutcomeIsStrongest | src/samsarix_ethics/engine.py:147-157 | the outcome is that of the strongest matching effect, or the default |
| Composition.OutcomeIsHighestOfSources | src/samsarix_ethics/engine.py:147-157 | the composed outcome is the strongest decisive effect over all sources, or the shared default |
| Composition.StagedRules | src/samsarix_ethics/composition.py:138-148 | composing groups and then the results gives the rules of composing everything at once |
| Composition.StagesCompose | src/samsarix_ethics/composition.py:88-136 | sources that can be composed at once can be composed group by group, and the results then compose if and only if their new ids differ |
| Composition.StagedDecidesAlike | src/samsarix_ethics/composition.py:66-166 | staged composition gives the same policy, hence the same decisions |
| Composition.AddingSourceOnlyRestricts | src/samsarix_ethics/engine.py:147-157 | inserting a source without allow rules anywhere never turns a non-allow into allow |
| CanonicalInjective.EncodingIsPrefixFree | src/samsarix_ethics/audit_chain.py:77-89 | a value without floats can be read off the front of any text it begins: no other value's text begins alike |
| CanonicalInjective.EncodingIsInjective | src/samsarix_ethics/audit_chain.py:77-89 | the canonical text determines the value |
| CanonicalInjective.EncodingIsPrintable | src/samsarix_ethics/audit_chain.py:77-89 | the canonical text is one line of printable characters |
| AuditCodec.UnsignedTextIsInjective | src/samsarix_ethics/audit_chain.py:92-111 | different authenticated fields are given to the HMAC as different texts |
| AuditCodec.CanonicalCodecIsLawful | src/samsarix_ethics/audit_chain.py:200-217 | the source's own encoding of entries over any HMAC meets every hypothesis that the laws of the chain make |
| AuditCodec.LawfulCodecExists | src/samsarix_ethics/audit_chain.py:77-111 | so those hypotheses can be met |
| AuditCodec.CollisionIsOfTexts | src/samsarix_ethics/audit_chain.py:92-94 | a collision of the chain's MAC is a collision of the HMAC on two different texts |
| AuditChain.ReadEntry | src/samsarix_ethics/audit_chain.py:322-371 | the checks of one line, from the running count, stream and previous MAC, are those of the specification over all entries read |
| AuditChain.ReadChain | src/samsarix_ethics/audit_chain.py:308-371 | the read loop computes count, stream and head of the chain it reads, or fails where the specification does |
| AuditChain.VerifyAuditChain | src/samsarix_ethics/audit_chain.py:283-390 | the verifier's result for a file's content, key and external checkpoint |
| AuditChain.HmacAuditChainSink.Open | src/samsarix_ethics/audit_chain.py:416-478 | a sink opens exactly when key, stream and head have their formats and the file is empty and no head is expected, or the file verifies for the stream and the head; it then has the count and head that verification found, and a given head is its head |
| AuditChain.HmacAuditChainSink.Call | src/samsarix_ethics/audit_chain.py:480-566 | the file and the sink's fields after a call, for every way the write can end |
| AuditChainLaws.VerifiedMeansChain | src/samsarix_ethics/audit_chain.py:348-383 | an accepted file holds a chain of correctly authenticated, linked, consecutively numbered entries of one stream |
| AuditChainLaws.HeadBindsChain | src/samsarix_ethics/audit_chain.py:348-383 | two chains under one key with the same head are the same entries in the same order, or exhibit a MAC collision |
| AuditChainLaws.CheckpointBindsFile | src/samsarix_ethics/audit_chain.py:380-383 | two files accepted with one external head hold the same entries, or exhibit a MAC collision |
| AuditChainLaws.RollbackIsDetected | src/samsarix_ethics/audit_chain.py:380-383 | without a collision, a file with other entries, so any rollback, deletion or reorder, is refused under the old head |
| AuditChainLaws.TornNeverVerifies | src/samsarix_ethics/audit_chain.py:341-344 | a file that ends in a partial line is refused |
| AuditChainLaws.CompleteWriteVerifies | src/samsarix_ethics/audit_chain.py:494-521 | what the sink's own bounds let it write is never what the verifier refuses |
| AuditChainLaws.SuccessExtendsChain | src/samsarix_ethics/audit_chain.py:480-566 | a successful call appends exactly one entry and leaves a file accepted with the sink's new count and head |
| AuditChainLaws.StepKeepsSystemOk | src/samsarix_ethics/audit_chain.py:480-566 | every atomic call of every sink, and every foreign append, keeps each sink up to date with the file or behind it for good |
| AuditChainLaws.RunKeepsSystemOk | src/samsarix_ethics/audit_chain.py:480-566 | that holds in every interleaving from any starting file |
| AuditChainLaws.CallsAreSafe | src/samsarix_ethics/audit_chain.py:480-566 | at every point of every run, a call that succeeds extends the chain by its entry, and a stale sink changes nothing |
| AuditChainLaws.TornStaysTorn | src/samsarix_ethics/audit_chain.py:483-493 | after a partial line no sink writes again |
| AuditChainLaws.StaleStaysStale | src/samsarix_ethics/audit_chain.py:483-493 | a sink that missed a write never recovers |
| AuditChainLaws.NothingIsLost | src/samsarix_ethics/audit_chain.py:480-566 | from an absent file, the file is always exactly the lines of the completely written entries of the run in order, which verify, followed by nothing or by a proper part of the line whose write tore it |
| AuditChainExactness.VerifierIsExact | src/samsarix_ethics/audit_chain.py:283-390 | the verifier accepts exactly the files that are the lines of a non-empty authenticated chain within the byte, line and entry limits, of the expected stream and head, and reports stream, length and head of that chain |
| AuditChainExactness.ExpectationsNarrow | src/samsarix_ethics/audit_chain.py:353-383 | an expected head or stream refuses exactly the accepted files with another head or stream |
| AuditChainExactness.OpenedSinkKnowsFile | src/samsarix_ethics/audit_chain.py:459-478 | exactly when a sink opens; given an external head it starts from that head after at least one entry, and the file verifies under the head with the sink's count, so never on a deleted, cut back or replaced file |
| AuditChainExactness.OpenedSinkContinues | src/samsarix_ethics/audit_chain.py:459-478 | a sink opened under a head continues the entries of any other file accepted under it, or there is a MAC collision |
| AuditChainExactness.CallSucceedsExactly | src/samsarix_ethics/audit_chain.py:480-566 | a call succeeds exactly when the directory exists, the file is the one last seen, the record is valid, the write goes through and the verifier accepts what the file becomes; the entry carries the given record |
| AuditChainExactness.OpensInRun | src/samsarix_ethics/audit_chain.py:416-478 | at any point of any run, what opening a sink does |
| AuditChainExactness.CallsInRun | src/samsarix_ethics/audit_chain.py:480-566 | at any point of any run, a call by an up-to-date sink whose write goes through extends file and sink by its entry exactly when the verifier accepts the extended file |
| Publication.RunKeepsOk | src/samsarix_ethics/io.py:436-459 | the inductive invariant of staging files, inodes and target over every interleaving and crash |
| Publication.TargetIsNeverTorn | src/samsarix_ethics/io.py:436-459 | at every point the target reads as at the start or as one publisher's complete, synced payload |
| Publication.PublishingShowsPayload | src/samsarix_ethics/io.py:445-452 | the step that publishes puts exactly the publisher's payload at the target |
| Publication.FirstLinkIsKept | src/samsarix_ethics/io.py:447-452 | among exclusive publishers an existing target is never overwritten |
| Publication.AtMostOneSucceeds | src/samsarix_ethics/io.py:447-453 | among exclusive publishers at most one returns success, on a target absent at the start that then reads as its payload |
| Publication.SuccessLeavesNoStaging | src/samsarix_ethics/io.py:445-453 | the step to success leaves no staging name of that publisher |
| AtomicWrite.OthersLeaveMine | src/samsarix_ethics/io.py:436-459 | whatever other publishers do, a publisher's progress and staging file stay as they were |
| AtomicWrite.OnlyTargetBars | src/samsarix_ethics/io.py:432-453 | a call that nobody disturbs, with a new staging name, is barred only by an existing target it must not overwrite |
| AtomicWrite.WriteAtomicPayload | src/samsarix_ethics/io.py:417-460 | run among other publishers and refused calls, it returns exactly when no call was refused, the staging name and inode were new when taken, and it is forced or the target was absent at the check and at the link; undisturbed, exactly when forced or the target is absent, changing no other name; a return means the payload is synced and published and no staging name is left; an error means nothing was published unless the link succeeded and the unlink was refused, and a staging name is left exactly when the cleanup was refused too |
| Discovery.CountContainerItems | src/samsarix_ethics/mcp_client.py:73-85 | the mutable stack counts what the recursive specification counts, whatever the order of a mapping's values |
| Discovery.CountChunks | src/samsarix_ethics/mcp_client.py:53-63 | chunk by chunk counting refuses exactly the texts that pass the limit on top of the initial size |
| CanonicalJson.MembersLength | src/samsarix_ethics/mcp_client.py:53-63 | the length of an object's members does not depend on their order |
| CanonicalJson.LengthOfExtension | src/samsarix_ethics/mcp_client.py:217-222 | a new member lengthens the sorted-key encoding by its own text and a comma unless it is the first |
| Discovery.DocumentLength | src/samsarix_ethics/mcp_client.py:185 | the registry document is as long as its tools plus the fixed part discovery starts from |
| Discovery.AddedIsAccounted | src/samsarix_ethics/mcp_client.py:198-224 | one accounting step keeps byte and item totals equal to recomputing them |
| Discovery.TotalsStayExact | src/samsarix_ethics/mcp_client.py:198-224 | after every accepted tool the totals are those of the whole registry so far |
| Discovery.FreshNamesMeans | src/samsarix_ethics/mcp_client.py:199-206 | the checks made tool by tool amount to at most 256 tools with distinct string names |
| Discovery.StreamingIsExact | src/samsarix_ethics/mcp_client.py:198-224 | streaming accepts exactly the registries whose one-shot shape check and encoding fit |
| Discovery.AddOneTool | src/samsarix_ethics/mcp_client.py:198-224 | the body of the inner loop |
| Discovery.ReadPages | src/samsarix_ethics/mcp_client.py:189-236 | the nested loops collect what the pages hold, with pages, cursors and totals checked as they come |
| Discovery.Digest | src/samsarix_ethics/mcp_client.py:66-70 | the closing digest, called only on what discovery accepted, never meets its byte limit |
| Discovery.Discover | src/samsarix_ethics/mcp_client.py:182-236 | the pinned registry, or an error |
| Discovery.DiscoveryIsExact | src/samsarix_ethics/mcp_client.py:182-236 | discovery yields exactly the complete, freshly named registries that match the catalog and fit when checked at once |
| DiscoveryLaws.CollectedEnds | src/samsarix_ethics/mcp_client.py:189-236 | paging that succeeds ends at a page without a cursor, after pages with distinct cursors of 1 to 4096 characters, with the tools of all of them |
| DiscoveryLaws.EndingIsCollected | src/samsarix_ethics/mcp_client.py:189-236 | answers that end so are all collected |
| DiscoveryLaws.DiscoveryPinsPages | src/samsarix_ethics/mcp_client.py:182-236 | stated by page and position: a registry is pinned exactly when the pages end so, every tool on them has a name of its own, and the map of all of them, each with its own dump, is within the tool, byte and item limits and names exactly the catalog; that map is what is pinned |
| Runtime.PolicyRuntime.constructor | src/samsarix_ethics/runtime.py:90-104 | generation 1 of a constructible engine |
| Runtime.PolicyRuntime.Capture | src/samsarix_ethics/runtime.py:118-120 | engine and status of one generation |
| Runtime.PolicyRuntime.EvaluateBatch | src/samsarix_ethics/runtime.py:164-168 | a batch is decided by the captured engine |
| Runtime.PolicyRuntime.Activate | src/samsarix_ethics/runtime.py:176-212 | compare-and-swap: both fields replaced together, or an error and nothing changed |
| Runtime.StepKeepsCoherent | src/samsarix_ethics/runtime.py:118-212 | every field access of every caller keeps engine, status, lock and history in agreement |
| Runtime.RunIsCoherent | src/samsarix_ethics/runtime.py:118-212 | that holds in every interleaving of captures, activations and answers |
| Runtime.StepIsAtomic | src/samsarix_ethics/runtime.py:197-212 | each step is invisible or the whole of one successful activation, and every answer is the atomic operation's answer at that moment |
| Runtime.AtMostOnePerExpectation | src/samsarix_ethics/runtime.py:202-208 | at most one activation succeeds for each expected generation |
| Runtime.GenerationCountsSuccesses | src/samsarix_ethics/runtime.py:209-212 | the generation is one more than the number of successes, each with its own |
| Runtime.RefusedChangesNothing | src/samsarix_ethics/runtime.py:190-208 | a refused activation is the origin of no generation |
| Runtime.CapturesAgree | src/samsarix_ethics/runtime.py:118-120 | captures of one generation captured the same engine, described by its own status |
| Runtime.BatchHasOneGeneration | src/samsarix_ethics/runtime.py:164-168 | every finished batch was decided item for item by one generation active during the call |
| Runtime.GenerationsNeverGoBack | src/samsarix_ethics/runtime.py:158-168 | a batch that begins after another ended is decided by no older generation |
| RuntimeLaws.GenerationsAreTrusted | src/samsarix_ethics/runtime.py:186-212 | every generation of every run has a lock that names exactly its policy and contract, and conditions that make sense under the contract, so its policy fails on accepted inputs only where an optional reference is missing |
| RuntimeLaws.StatusesAreTrue | src/samsarix_ethics/runtime.py:66-78 | every status shown, captured or returned names its engine's policy, contract and lock |
| RuntimeLaws.ActivationIsExact | src/samsarix_ethics/runtime.py:176-212 | when an activation succeeds, with which of the three errors it is refused, and what is active afterwards |
| RuntimeLaws.RefusedForCause | src/samsarix_ethics/runtime.py:186-208 | in every run a refusal names its cause: a conflict only if another generation than the expected one was active during the call |
| RuntimeLaws.UndisturbedActivation | src/samsarix_ethics/runtime.py:186-212 | an activation left alone succeeds if its candidate can be trusted and it expects the active generation or none |
| RuntimeLaws.UndisturbedBatch | src/samsarix_ethics/runtime.py:164-168 | a batch left alone is decided by the active generation |
| Gate.ToolGate.CheckBatch | src/samsarix_ethics/gate.py:472-501 | the loop with its two sets accepts exactly the bounded batches of own, distinct calls with distinct approvals |
| Gate.ToolGate.DeliverAll | src/samsarix_ethics/gate.py:504-506 | if the sink refuses record k, exactly the first k records were delivered, in order |
| Gate.ToolGate.EvaluateMany | src/samsarix_ethics/gate.py:464-507 | all calls are evaluated by one generation before any record is delivered; every way it can end |
| Gate.FirstBlock | src/samsarix_ethics/gate.py:418-437 | the least index that does not allow, and whether it denies or asks for review |
| Gate.ToolGate.EnforceMany | src/samsarix_ethics/gate.py:558-568 | all decisions when all allow; otherwise a block with all decisions and the least blocking index |
| Gate.BatchAnswerIsUnique | src/samsarix_ethics/engine.py:323-343 | a batch has one answer |
| Gate.EnforcementIsDetermined | src/samsarix_ethics/gate.py:558-568 | configuration, batch and sink determine the answer and the deliveries |
| Dispatch.ToolDispatcher.ValidateBindings | src/samsarix_ethics/dispatch.py:319-348 | the checks accept exactly bounded batches of registered calls with the catalog's capabilities |
| Dispatch.ToolDispatcher.RunCallbacks | src/samsarix_ethics/dispatch.py:359-368 | callbacks run once each in order and stop at the first that raises |
| Dispatch.ToolDispatcher.ExecuteMany | src/samsarix_ethics/dispatch.py:350-368 | bindings, then enforcement, then callbacks on what the evaluated contexts hold; every way it can end |
| Dispatch.AllOrNothing | src/samsarix_ethics/dispatch.py:350-368 | if any callback ran, every call was allowed and every record delivered, and what ran is an initial part of the batch |
| Dispatch.OnlyAllowedCallsRun | src/samsarix_ethics/gate.py:183-231 | what runs is what was authorized: each callback gets the operation and arguments of a context that was decided to allow |
| Dispatch.OneBlockStopsAll | src/samsarix_ethics/dispatch.py:350-368 | one call that is denied or sent to review keeps every callback of the batch from running |
| DispatchLaws.RunsExactly | src/samsarix_ethics/dispatch.py:319-368 | any callback runs exactly when the batch is within the limit, every call was prepared by this gate for a cataloged name with its capabilities, no call and no approval appears twice, every call is allowed and every record is taken; the batch succeeds exactly when also no callback raises |
| DispatchLaws.ContextIsRead | src/samsarix_ethics/gate.py:183-231 | name, capabilities, arguments and approval of a call are what the evaluated context itself holds |
| DispatchLaws.RunsWhatIsAsked | src/samsarix_ethics/gate.py:183-231 | every callback is run with the name and arguments that its context, which was decided to allow, asks for |

## Left out

- Error text, and which of a parser's checks failed: parsers and validators answer with an option, evaluation keeps the kind of error.
- Decision ids, time stamps and fingerprints; a deployment lock is modelled as naming the exact policy and contract it was made from.
- Regular expressions, Unicode, JSON text parsing, SHA-256, HMAC and clocks: identifier patterns are predicates on characters, and the audit chain's MAC, entry text and line parser are a `Codec` with stated hypotheses, which the canonical encoding is shown to meet.
- AuditChain.HmacAuditChainSink.Open: file identity and modification time are reduced to the size of an append-only file; the formats of record ids, time stamps and fingerprints are not checked.
- Lone surrogates in Python strings, which Dafny's characters exclude.
- CanonicalJson.Encode: the text of a float is a parameter, and how the encoder cuts its text into chunks is any cutting that joins back to the text.
- Composition.ComposePolicies: the serialized byte limit is a parameter predicate on the composed document.
- Contradictions.ImpossibleConditionIndices: conditions are those that parsing can produce; conditions built directly with an invalid operand are not covered.
- LinterExactness.LinterIsExact: only for presence tests and literal equality and membership conditions; the ordered, affix, subset and containment operators, object literals and references are never looked at by the contradiction check.
- LinterInputs.UnreportedAppliesToInput: under an explicit bound on depth and items that suffices; a rule over that bound may still apply to an accepted input.
- EngineLaws.RuleOrderIsIrrelevant: says nothing about which rule's error is raised when several fail, because that does depend on the order.
- AuditChain.VerifyAuditChain: a call sees one content, so the checks that the file changed during verification do not appear; file identity and modification time are reduced to the size of an append-only file.
- AuditChain.HmacAuditChainSink.Call: calls are atomic, as the sink's lock and single-writer design make them; the failures of write, fsync, close and directory fsync are one flag and a byte count.
- AtomicWrite.WriteAtomicPayload: the existence check of the parent directory counts as a refused creation, and a staging name that is taken fails instead of being tried again.
- Gate.ToolGate.EvaluateMany: the gate holds a runtime; a gate over a fixed engine is one whose runtime is never activated.
- Dispatch.ToolDispatcher.ExecuteMany: callbacks act only through their log; the asynchronous variant and the single-call paths are not modelled, being the same steps.
- The construction of tool contexts and approvals, deployment locks' own documents, envelopes and approval stores: straight-line comparisons.
- The request and review half of the MCP client, SDK adapters, CLI, JSON Schemas, report rendering, shadow evaluation and comparison reports: presentation, or behaviour of libraries that are not part of this model.
