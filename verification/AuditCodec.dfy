/** The audit chain's own encoding, built on the canonical JSON text, meets every hypothesis of the chain's laws. */
module AuditCodec {
  import opened Wrappers
  import opened JsonValues
  import opened Models
  import opened CanonicalJson
  import opened CanonicalInjective
  import opened AuditChain

  function TextsToJson(texts: seq<string>): seq<Json>
  {
    seq(|texts|, i requires 0 <= i < |texts| => Str(texts[i]))
  }

  /** `AuditRecord.to_dict`. */
  function RecordToJson(r: AuditRecord): Json
  {
    Obj(map["audit_record_version" := Int(1), "decision_id" := Str(r.decisionId), "evaluated_at" := Str(r.evaluatedAt),
            "policy_id" := Str(r.policyId), "policy_version" := Str(r.policyVersion),
            "policy_fingerprint" := Str(r.policyFingerprint), "outcome" := Str(OutcomeName(r.outcome)),
            "matched_rules" := Arr(TextsToJson(r.matchedRules)), "warning_count" := Int(r.warningCount)])
  }

  /** `_unsigned_fields`. */
  function UnsignedFields(u: Unsigned): map<string, Json>
  {
    map["audit_chain_version" := Int(1), "algorithm" := Str("hmac-sha256"), "stream_id" := Str(u.streamId),
        "sequence" := Int(u.sequence),
        "previous_mac" := if u.previousMac.None? then Null else Str(u.previousMac.value),
        "record" := RecordToJson(u.record)]
  }

  /** `AuditChainEntry.to_dict`. */
  function EntryToJson(e: Entry): Json
  {
    Obj(UnsignedFields(e.unsigned)["mac" := Str(e.mac)])
  }

  lemma TextsAreInjective(a: seq<string>, b: seq<string>)
    requires TextsToJson(a) == TextsToJson(b)
    ensures a == b
  {
    forall i | 0 <= i < |a| ensures i < |b| && a[i] == b[i] {
      assert TextsToJson(a)[i] == TextsToJson(b)[i];
    }
    assert |a| == |TextsToJson(a)| == |TextsToJson(b)| == |b|;
  }

  lemma OutcomeNamesDiffer(a: Outcome, b: Outcome)
    requires OutcomeName(a) == OutcomeName(b)
    ensures a == b
  {
    NamesRoundTrip(OpEq, EffectAllow, a);
    NamesRoundTrip(OpEq, EffectAllow, b);
  }

  lemma RecordToJsonIsInjective(a: AuditRecord, b: AuditRecord)
    requires RecordToJson(a) == RecordToJson(b)
    ensures a == b
  {
    hide OutcomeName, TextsToJson;
    var x, y := RecordToJson(a).fields, RecordToJson(b).fields;
    assert x["decision_id"] == y["decision_id"] && x["evaluated_at"] == y["evaluated_at"];
    assert x["policy_id"] == y["policy_id"] && x["policy_version"] == y["policy_version"];
    assert x["policy_fingerprint"] == y["policy_fingerprint"] && x["outcome"] == y["outcome"];
    assert x["matched_rules"] == y["matched_rules"] && x["warning_count"] == y["warning_count"];
    TextsAreInjective(a.matchedRules, b.matchedRules);
    OutcomeNamesDiffer(a.outcome, b.outcome);
  }

  lemma UnsignedFieldsAreInjective(a: Unsigned, b: Unsigned)
    requires UnsignedFields(a) == UnsignedFields(b)
    ensures a == b
  {
    hide RecordToJson;
    var x, y := UnsignedFields(a), UnsignedFields(b);
    assert x["stream_id"] == y["stream_id"] && x["sequence"] == y["sequence"];
    assert x["previous_mac"] == y["previous_mac"] && x["record"] == y["record"];
    RecordToJsonIsInjective(a.record, b.record);
  }

  lemma EntryToJsonIsInjective(a: Entry, b: Entry)
    requires EntryToJson(a) == EntryToJson(b)
    ensures a == b
  {
    MacIsApart(a.unsigned);
    MacIsApart(b.unsigned);
    hide UnsignedFields;
    var x, y := EntryToJson(a).fields, EntryToJson(b).fields;
    assert x["mac"] == y["mac"];
    assert x - {"mac"} == UnsignedFields(a.unsigned) && y - {"mac"} == UnsignedFields(b.unsigned);
    UnsignedFieldsAreInjective(a.unsigned, b.unsigned);
  }

  lemma MacIsApart(u: Unsigned)
    ensures "mac" !in UnsignedFields(u)
  {
    hide RecordToJson;
  }

  lemma TextsHaveNoFloats(texts: seq<string>)
    ensures NoFloats(Arr(TextsToJson(texts)))
  {
  }

  lemma RecordHasNoFloats(r: AuditRecord)
    ensures NoFloats(RecordToJson(r))
  {
    TextsHaveNoFloats(r.matchedRules);
    hide TextsToJson, OutcomeName;
  }

  lemma UnsignedHasNoFloats(u: Unsigned)
    ensures NoFloats(Obj(UnsignedFields(u)))
  {
    RecordHasNoFloats(u.record);
    hide RecordToJson;
  }

  lemma EntryHasNoFloats(e: Entry)
    ensures NoFloats(EntryToJson(e))
  {
    UnsignedHasNoFloats(e.unsigned);
    hide UnsignedFields;
  }

  /** No float occurs in an entry, so the text of floats does not matter. */
  const NO_FLOAT_TEXT: real -> string := _ => "0.0"

  /** `_canonical_bytes` of the authenticated fields and of the whole entry. */
  function UnsignedText(u: Unsigned): string
  {
    Encode(Obj(UnsignedFields(u)), NO_FLOAT_TEXT)
  }

  function EntryText(e: Entry): string
  {
    Encode(EntryToJson(e), NO_FLOAT_TEXT)
  }

  /** Different authenticated fields have different canonical texts, so the MAC binds the fields it is computed from. */
  lemma UnsignedTextIsInjective(a: Unsigned, b: Unsigned)
    requires UnsignedText(a) == UnsignedText(b)
    ensures a == b
  {
    UnsignedHasNoFloats(a);
    UnsignedHasNoFloats(b);
    hide Encode, UnsignedFields;
    EncodingIsInjective(Obj(UnsignedFields(a)), Obj(UnsignedFields(b)), NO_FLOAT_TEXT);
    UnsignedFieldsAreInjective(a, b);
  }

  lemma EntryTextIsInjective(a: Entry, b: Entry)
    requires EntryText(a) == EntryText(b)
    ensures a == b
  {
    hide Encode, EntryToJson;
    EntryHasNoFloats(a);
    EntryHasNoFloats(b);
    EncodingIsInjective(EntryToJson(a), EntryToJson(b), NO_FLOAT_TEXT);
    EntryToJsonIsInjective(a, b);
  }

  lemma EntryTextIsOneLine(e: Entry)
    ensures |EntryText(e)| >= 2 && '\n' !in EntryText(e)
  {
    EntryHasNoFloats(e);
    EncodingIsPrintable(EntryToJson(e), NO_FLOAT_TEXT);
    ObjectText(EntryToJson(e).fields, NO_FLOAT_TEXT);
    hide Encode, EntryToJson, JoinWithCommas, Members, Encoded;
  }

  /** A parser of lines: the valid entry that is written so, if there is one. */
  ghost function ParseLine(isMac: string -> bool, line: string): (r: Option<Entry>)
    ensures r.Some? ==> EntryFits(isMac, r.value) && EntryText(r.value) + "\n" == line
    ensures r.None? ==> forall e | EntryFits(isMac, e) :: EntryText(e) + "\n" != line
  {
    if e :| EntryFits(isMac, e) && EntryText(e) + "\n" == line then Some(e) else None
  }

  /** The source's codec over any HMAC: the MAC of the canonical fields, and the canonical line. */
  ghost function CanonicalCodec(hmac: (string, string) -> string, isMac: string -> bool): Codec
  {
    Codec((key, u) => hmac(key, UnsignedText(u)), isMac, e => EntryText(e), line => ParseLine(isMac, line))
  }

  /** The hypothesis of the chain's laws is met by the source's encoding, whatever the HMAC, if its values have the MAC format. */
  lemma CanonicalCodecIsLawful(hmac: (string, string) -> string, isMac: string -> bool)
    requires forall key, text :: isMac(hmac(key, text))
    ensures Lawful(CanonicalCodec(hmac, isMac))
  {
    hide EntryText, UnsignedText;
    var c := CanonicalCodec(hmac, isMac);
    forall e ensures |c.render(e)| >= 2 && '\n' !in c.render(e) {
      EntryTextIsOneLine(e);
    }
    forall e | EntryValid(c, e) ensures c.parse(c.render(e) + "\n") == Some(e) {
      var line := EntryText(e) + "\n";
      var parsed := ParseLine(isMac, line);
      assert EntryText(parsed.value) == line[..|line| - 1] == EntryText(e);
      EntryTextIsInjective(parsed.value, e);
    }
    forall key, u ensures c.isMac(c.mac(key, u)) {
      assert c.mac(key, u) == hmac(key, UnsignedText(u));
    }
    forall line | c.parse(line).Some? ensures EntryValid(c, c.parse(line).value) {
      assert c.parse(line) == ParseLine(isMac, line);
    }
  }

  /** So the hypothesis can be met. */
  lemma LawfulCodecExists()
    ensures exists c: Codec :: Lawful(c)
  {
    var hmac: (string, string) -> string := (key, text) => "v1:hmac-sha256:";
    CanonicalCodecIsLawful(hmac, mac => mac == "v1:hmac-sha256:");
  }

  /** A collision of the chain's MAC is a collision of the HMAC on two different texts. */
  lemma CollisionIsOfTexts(hmac: (string, string) -> string, isMac: string -> bool, key: string, a: Unsigned, b: Unsigned)
    requires a != b && CanonicalCodec(hmac, isMac).mac(key, a) == CanonicalCodec(hmac, isMac).mac(key, b)
    ensures UnsignedText(a) != UnsignedText(b) && hmac(key, UnsignedText(a)) == hmac(key, UnsignedText(b))
  {
    hide UnsignedText;
    if UnsignedText(a) == UnsignedText(b) {
      UnsignedTextIsInjective(a, b);
    }
  }
}
