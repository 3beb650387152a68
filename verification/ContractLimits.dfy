/** Contracts that are accepted although no context can meet them: required fields below the depth limit. */
module ContractLimits {
  import opened Wrappers
  import opened Strings
  import opened JsonValues
  import opened JsonBounds
  import opened Models
  import opened Contracts
  import opened ContractCoherence
  import opened ContractRoundTrip

  /** The path `a.a. … .a` of `n` segments. */
  function DeepParts(n: nat): seq<string>
  {
    seq(n, _ => "a")
  }

  function DeepName(n: nat): string
  {
    Join(DeepParts(n))
  }

  /** Every path up to `n` segments, declared as a required object. */
  function DeepFields(n: nat): map<string, ContextField>
  {
    if n == 0 then map[] else DeepFields(n - 1)[DeepName(n) := ContextField(TypeObject, true, None)]
  }

  function DeepContract(n: nat): Contract
  {
    Contract("deep", "v1", "", DeepFields(n))
  }

  lemma {:induction false} DeepNameLength(n: nat)
    requires n > 0
    ensures |DeepName(n)| == 2 * n - 1
  {
    if n > 1 {
      assert DeepParts(n)[1..] == DeepParts(n - 1);
      DeepNameLength(n - 1);
    }
  }

  lemma DeepNameSplits(n: nat)
    requires n > 0
    ensures Split(DeepName(n)) == DeepParts(n)
  {
    SplitJoin(DeepParts(n));
  }

  lemma {:induction false} DeepFieldsAre(n: nat)
    ensures forall path | path in DeepFields(n) ::
              DeepFields(n)[path] == ContextField(TypeObject, true, None)
              && exists k :: 1 <= k <= n && path == DeepName(k)
    ensures forall k | 1 <= k <= n :: DeepName(k) in DeepFields(n)
    ensures |DeepFields(n)| <= n
  {
    hide DeepName;
    if n > 0 {
      DeepFieldsAre(n - 1);
    }
  }

  lemma DeepNameIsPath(n: nat)
    requires 1 <= n <= 128
    ensures IsFieldPath(DeepName(n))
  {
    DeepNameLength(n);
    DeepNameSplits(n);
    assert IsSegment("a");
    forall i | 0 <= i < n ensures IsSegment(Split(DeepName(n))[i]) {
      assert DeepParts(n)[i] == "a";
    }
  }

  lemma DeepParents(n: nat, k: nat)
    requires 1 <= k <= n
    ensures DeepName(k) in DeepFields(n) && ParentsDeclared(DeepFields(n), DeepName(k))
  {
    DeepFieldsAre(n);
    DeepNameSplits(k);
    forall m | 1 <= m < |Split(DeepName(k))|
      ensures ParentDeclared(DeepFields(n), DeepName(k), Join(Split(DeepName(k))[..m]))
    {
      assert Split(DeepName(k))[..m] == DeepParts(m);
      assert DeepName(m) in DeepFields(n);
    }
  }

  lemma DeepFieldsAreValid(n: nat)
    requires n <= 128
    ensures ValidFields(DeepFields(n))
  {
    hide DeepFields, DeepName, IsFieldPath, ParentsDeclared;
    DeepFieldsAre(n);
    forall path | path in DeepFields(n) ensures IsFieldPath(path) && ParentsDeclared(DeepFields(n), path) {
      var k :| 1 <= k <= n && path == DeepName(k);
      DeepNameIsPath(k);
      DeepParents(n, k);
    }
  }

  lemma DeepContractIsValid(n: nat)
    requires n <= 128
    ensures ValidContract(DeepContract(n))
  {
    DeepFieldsAreValid(n);
    assert IsIdentifier("deep") && IsIdentifier("v1");
  }

  lemma DeepRequirement(n: nat)
    ensures AtMost(RequiredPaths(DeepContract(n)), MAX_JSON_DEPTH - 1) <==> n <= MAX_JSON_DEPTH - 1
  {
    hide DeepFields, DeepName, Split;
    DeepFieldsAre(n);
    var paths := RequiredPaths(DeepContract(n));
    forall path | path in paths ensures exists k :: 1 <= k <= n && path == DeepName(k) && |Split(path)| == k {
      var k :| 1 <= k <= n && path == DeepName(k);
      DeepNameSplits(k);
    }
    if n > 0 {
      DeepNameSplits(n);
      assert DeepName(n) in paths;
    }
  }

  /**
   A document declaring required objects along a path of up to 128 segments is accepted and declares just this
   contract, and some context meets it if and only if the path has at most 31 segments.
   */
  lemma DeepContractLimit(n: nat)
    requires n <= 128
    ensures ValidContract(DeepContract(n))
    ensures ContractHead(ContractToJson(DeepContract(n))) && Declares(ContractToJson(DeepContract(n)), DeepContract(n))
    ensures (exists context: Json :: ContextAccepted(context, DeepContract(n))) <==> n <= MAX_JSON_DEPTH - 1
  {
    hide ValidContract, ContractHead, Declares, DeepContract, AtMost, RequiredPaths, ContextAccepted;
    DeepContractIsValid(n);
    PrintedContract(DeepContract(n));
    ContractIsSatisfiable(DeepContract(n));
    DeepRequirement(n);
  }

  /** So accepted contracts without any context exist: one with 32 segments is the smallest of these. */
  lemma SomeContractIsMetByNothing(n: nat) returns (document: Json, contract: Contract)
    requires n == MAX_JSON_DEPTH
    ensures ValidContract(contract) && ContractHead(document) && Declares(document, contract)
    ensures !exists context: Json :: ContextAccepted(context, contract)
  {
    DeepContractLimit(n);
    hide *;
    document, contract := ContractToJson(DeepContract(n)), DeepContract(n);
  }
}
