/** Context contracts: parsing, the check of an input, and the static check of a policy. */
module Contracts {
  import opened Wrappers
  import opened Strings
  import opened JsonValues
  import opened JsonBounds
  import opened Models

  const MAX_CONTEXT_CONTRACT_FIELDS := 1_000

  datatype FieldType = TypeArray | TypeBoolean | TypeInteger | TypeNull | TypeNumber | TypeObject | TypeString

  /** `items` is the declared element type of an array field. */
  datatype ContextField = ContextField(fieldType: FieldType, required: bool, items: Option<FieldType>)

  datatype Contract = Contract(id: string, version: string, description: string, fields: map<string, ContextField>)

  function FieldTypeOf(name: string): Option<FieldType>
  {
    if name == "array" then Some(TypeArray)
    else if name == "boolean" then Some(TypeBoolean)
    else if name == "integer" then Some(TypeInteger)
    else if name == "null" then Some(TypeNull)
    else if name == "number" then Some(TypeNumber)
    else if name == "object" then Some(TypeObject)
    else if name == "string" then Some(TypeString)
    else None
  }

  function FieldTypeFromJson(j: Json): Option<FieldType>
  {
    if j.Str? then FieldTypeOf(j.text) else None
  }

  /** `ContextField.from_dict`. */
  function FieldFromJson(j: Json): (r: Option<ContextField>)
    ensures r.Some? && r.value.items.Some? ==> r.value.fieldType.TypeArray?
  {
    if !j.Obj? || !KeysBetween(j.fields, {"type"}, {"type", "required", "items"}) then None
    else
      var fieldType := FieldTypeFromJson(j.fields["type"]);
      var required := if "required" in j.fields then j.fields["required"] else Bool(true);
      if fieldType.None? || !required.Bool? then None
      else if !fieldType.value.TypeArray? then
        if "items" in j.fields then None else Some(ContextField(fieldType.value, required.flag, None))
      else if "items" !in j.fields || j.fields["items"].Null? then
        Some(ContextField(TypeArray, required.flag, None))
      else
        var items := FieldTypeFromJson(j.fields["items"]);
        if items.None? then None else Some(ContextField(TypeArray, required.flag, items))
  }

  /** The parent declared for every proper prefix of a path is an object, and required if the field is. */
  predicate ParentsDeclared(fields: map<string, ContextField>, path: string)
    requires path in fields
  {
    forall n | 1 <= n < |Split(path)| :: ParentDeclared(fields, path, Join(Split(path)[..n]))
  }

  predicate ParentDeclared(fields: map<string, ContextField>, path: string, parent: string)
    requires path in fields
  {
    && parent in fields
    && fields[parent].fieldType.TypeObject?
    && (fields[path].required ==> fields[parent].required)
  }

  predicate AllParentsDeclared(fields: map<string, ContextField>)
  {
    forall path | path in fields :: ParentsDeclared(fields, path)
  }

  predicate EachFieldValid(fields: map<string, ContextField>)
  {
    && |fields| <= MAX_CONTEXT_CONTRACT_FIELDS
    && (forall path | path in fields :: IsFieldPath(path))
    && forall path | path in fields :: fields[path].items.Some? ==> fields[path].fieldType.TypeArray?
  }

  /** What `ContextContract.from_dict` guarantees of the declared fields. */
  predicate ValidFields(fields: map<string, ContextField>)
  {
    EachFieldValid(fields) && AllParentsDeclared(fields)
  }

  predicate ValidContract(contract: Contract)
  {
    && IsIdentifier(contract.id) && IsIdentifier(contract.version)
    && |contract.description| <= 1_000
    && ValidFields(contract.fields)
  }

  const CONTRACT_KEYS: set<string> := {"context_contract_version", "id", "version", "fields"}

  /** The checks on a contract document that do not look inside its fields. */
  predicate ContractHead(j: Json)
  {
    && ShapeOk(j) && j.Obj?
    && KeysBetween(j.fields, CONTRACT_KEYS, CONTRACT_KEYS + {"description"})
    && IsNumber(j.fields["context_contract_version"]) && NumberOf(j.fields["context_contract_version"]) == 1.0
    && j.fields["id"].Str? && IsIdentifier(j.fields["id"].text)
    && j.fields["version"].Str? && IsIdentifier(j.fields["version"].text)
    && ("description" in j.fields ==> j.fields["description"].Str? && |j.fields["description"].text| <= 1_000)
    && j.fields["fields"].Obj? && |j.fields["fields"].fields| <= MAX_CONTEXT_CONTRACT_FIELDS
  }

  /** `contract` is what the document declares: each field parsed from the entry of the same name. */
  predicate Declares(j: Json, contract: Contract)
    requires ContractHead(j)
  {
    var entries := j.fields["fields"].fields;
    && contract.id == j.fields["id"].text
    && contract.version == j.fields["version"].text
    && contract.description == (if "description" in j.fields then j.fields["description"].text else "")
    && contract.fields.Keys == entries.Keys
    && forall path | path in entries :: FieldFromJson(entries[path]) == Some(contract.fields[path])
  }

  /** Whether every entry has a field path for a key and a parsable field for a value. */
  predicate EntriesParse(entries: map<string, Json>)
  {
    forall path | path in entries :: IsFieldPath(path) && FieldFromJson(entries[path]).Some?
  }

  function ParsedEntries(entries: map<string, Json>): map<string, ContextField>
    requires EntriesParse(entries)
  {
    map path | path in entries :: FieldFromJson(entries[path]).value
  }

  /** The loop that fills the dict of fields, one entry at a time. */
  method ReadFields(entries: map<string, Json>) returns (r: Option<map<string, ContextField>>)
    ensures r.Some? <==> EntriesParse(entries)
    ensures r.Some? ==> r.value == ParsedEntries(entries)
  {
    var fields: map<string, ContextField> := map[];
    var unread := entries.Keys;
    while unread != {}
      invariant unread <= entries.Keys && fields.Keys == entries.Keys - unread
      invariant forall path | path in fields :: IsFieldPath(path) && FieldFromJson(entries[path]) == Some(fields[path])
      decreases |unread|
    {
      var path :| path in unread;
      var field := FieldFromJson(entries[path]);
      if !IsFieldPath(path) || field.None? {
        return None;
      }
      fields := fields[path := field.value];
      unread := unread - {path};
    }
    return Some(fields);
  }

  /** The nested loops over every field and every proper prefix of its path. */
  method CheckParents(fields: map<string, ContextField>) returns (accepted: bool)
    ensures accepted <==> AllParentsDeclared(fields)
  {
    var unchecked := fields.Keys;
    while unchecked != {}
      invariant unchecked <= fields.Keys
      invariant forall path | path in fields && path !in unchecked :: ParentsDeclared(fields, path)
      decreases |unchecked|
    {
      var path :| path in unchecked;
      unchecked := unchecked - {path};
      var parts := Split(path);
      for n := 1 to |parts|
        invariant forall k | 1 <= k < n :: ParentDeclared(fields, path, Join(parts[..k]))
      {
        var parent := Join(parts[..n]);
        if parent !in fields || !fields[parent].fieldType.TypeObject? || (fields[path].required && !fields[parent].required) {
          assert !ParentDeclared(fields, path, parent);
          return false;
        }
      }
    }
    return true;
  }

  /** `ContextContract.from_dict`: the document is accepted exactly when it declares a valid contract. */
  method ContractFromJson(j: Json) returns (r: Option<Contract>)
    ensures r.Some? ==> ContractHead(j) && Declares(j, r.value) && ValidContract(r.value)
    ensures r.None? ==> !ContractHead(j) || !exists contract :: Declares(j, contract) && ValidContract(contract)
  {
    if !ContractHead(j) {
      return None;
    }
    var entries := j.fields["fields"].fields;
    var fields := ReadFields(entries);
    if fields.None? {
      return None;
    }
    var accepted := CheckParents(fields.value);
    EntriesAreValid(entries);
    DeclaredFields(j);
    if !accepted {
      return None;
    }
    var description := if "description" in j.fields then j.fields["description"].text else "";
    return Some(Contract(j.fields["id"].text, j.fields["version"].text, description, fields.value));
  }

  lemma EntriesAreValid(entries: map<string, Json>)
    requires EntriesParse(entries) && |entries| <= MAX_CONTEXT_CONTRACT_FIELDS
    ensures EachFieldValid(ParsedEntries(entries))
  {
    var fields := ParsedEntries(entries);
    assert fields.Keys == entries.Keys;
    assert |fields| == |fields.Keys| == |entries.Keys| == |entries|;
    forall path | path in fields
      ensures IsFieldPath(path)
      ensures fields[path].items.Some? ==> fields[path].fieldType.TypeArray?
    {
      assert fields[path] == FieldFromJson(entries[path]).value;
    }
  }

  lemma DeclaredFields(j: Json)
    requires ContractHead(j) && EntriesParse(j.fields["fields"].fields)
    ensures forall contract | Declares(j, contract) :: contract.fields == ParsedEntries(j.fields["fields"].fields)
  {
    forall contract | Declares(j, contract)
      ensures contract.fields == ParsedEntries(j.fields["fields"].fields)
    {
    }
  }

  predicate MatchesType(v: Json, fieldType: FieldType)
  {
    match fieldType
    case TypeNull => v.Null?
    case TypeBoolean => v.Bool?
    case TypeInteger => v.Int?
    case TypeNumber => v.Int? || v.Float?
    case TypeString => v.Str?
    case TypeArray => v.Arr?
    case TypeObject => v.Obj?
  }

  predicate FieldAccepted(context: Json, path: string, field: ContextField)
  {
    match At(context, path)
    case None => !field.required
    case Some(actual) =>
      && MatchesType(actual, field.fieldType)
      && (field.items.Some? ==>
            actual.Arr? && forall i | 0 <= i < |actual.items| :: MatchesType(actual.items[i], field.items.value))
  }

  /** An input the contract admits: a bounded JSON object with every declared fact as declared. */
  predicate ContextAccepted(context: Json, contract: Contract)
  {
    && context.Obj? && ShapeOk(context)
    && forall path | path in contract.fields :: FieldAccepted(context, path, contract.fields[path])
  }

  /** `validate_context_against_contract`, visiting the declared fields in any order. */
  method ValidateContextAgainstContract(context: Json, contract: Contract) returns (accepted: bool)
    requires ValidContract(contract)
    ensures accepted <==> ContextAccepted(context, contract)
  {
    if !context.Obj? || !ShapeOk(context) {
      return false;
    }
    var rest := contract.fields.Keys;
    while rest != {}
      invariant rest <= contract.fields.Keys
      invariant forall path | path in contract.fields && path !in rest :: FieldAccepted(context, path, contract.fields[path])
      decreases |rest|
    {
      var path :| path in rest;
      rest := rest - {path};
      var field := contract.fields[path];
      var actual := FieldValue(context, path);
      if actual.None? {
        if field.required {
          return false;
        }
        continue;
      }
      if !MatchesType(actual.value, field.fieldType) {
        return false;
      }
      if field.items.Some? {
        var items := actual.value.items;
        for i := 0 to |items|
          invariant forall k | 0 <= k < i :: MatchesType(items[k], field.items.value)
        {
          if !MatchesType(items[i], field.items.value) {
            return false;
          }
        }
      }
    }
    return true;
  }

  function ValueType(v: Json): FieldType
  {
    match v
    case Null => TypeNull
    case Bool(_) => TypeBoolean
    case Int(_) => TypeInteger
    case Float(_) => TypeNumber
    case Str(_) => TypeString
    case Obj(_) => TypeObject
    case Arr(_) => TypeArray
  }

  predicate TypesCompatible(left: FieldType, right: FieldType)
  {
    left == right || (left in {TypeInteger, TypeNumber} && right in {TypeInteger, TypeNumber})
  }

  /** The element types of a literal array; None is the error that it is no array. */
  function LiteralItemTypes(v: Json): Option<seq<FieldType>>
  {
    if v.Arr? then Some(seq(|v.items|, i requires 0 <= i < |v.items| => ValueType(v.items[i]))) else None
  }

  /** The element types of an array operand, declared when it is a reference and read off when literal. */
  function OperandItemTypes(referenced: Option<ContextField>, literal: Json): Option<seq<FieldType>>
  {
    match referenced
    case None => LiteralItemTypes(literal)
    case Some(field) =>
      if !field.fieldType.TypeArray? then None
      else Some(if field.items.None? then [] else [field.items.value])
  }

  predicate AllCompatible(fieldType: FieldType, types: seq<FieldType>)
  {
    forall i | 0 <= i < |types| :: TypesCompatible(fieldType, types[i])
  }

  /** `_validate_condition`: true when it returns without raising. */
  predicate WellTyped(c: Condition, contract: Contract)
  {
    if c.field !in contract.fields then false
    else if TakesNoValue(c.operator) then true
    else if IsReference(c.value) && ReferencePath(c.value) !in contract.fields then false
    else
      var actual := contract.fields[c.field];
      var referenced := if IsReference(c.value) then Some(contract.fields[ReferencePath(c.value)]) else None;
      var expectedType := if referenced.Some? then referenced.value.fieldType else ValueType(c.value);
      match c.operator
      case OpStartsWith | OpEndsWith => actual.fieldType.TypeString? && expectedType.TypeString?
      case OpGt | OpGte | OpLt | OpLte =>
        actual.fieldType in {TypeInteger, TypeNumber, TypeString} && TypesCompatible(actual.fieldType, expectedType)
      case OpSubsetOf =>
        var types := OperandItemTypes(referenced, c.value);
        && actual.fieldType.TypeArray? && types.Some?
        && (actual.items.Some? ==> AllCompatible(actual.items.value, types.value))
      case OpContains | OpNotContains =>
        actual.fieldType.TypeArray? && (actual.items.Some? ==> TypesCompatible(actual.items.value, expectedType))
      case OpIn | OpNotIn =>
        var types := OperandItemTypes(referenced, c.value);
        types.Some? && AllCompatible(actual.fieldType, types.value)
      case OpEq | OpNeq =>
        && TypesCompatible(actual.fieldType, expectedType)
        && (actual.fieldType.TypeArray? && actual.items.Some? ==>
              var types := OperandItemTypes(referenced, c.value);
              types.Some? && AllCompatible(actual.items.value, types.value))
  }

  predicate PolicyWellTyped(policy: Policy, contract: Contract)
  {
    forall r, i | 0 <= r < |policy.rules| && 0 <= i < |policy.rules[r].conditions| ::
      WellTyped(policy.rules[r].conditions[i], contract)
  }

  /** `validate_policy_context_contract`: true when it returns without raising. */
  method ValidatePolicyContextContract(policy: Policy, contract: Contract) returns (accepted: bool)
    ensures accepted <==> PolicyWellTyped(policy, contract)
  {
    for r := 0 to |policy.rules|
      invariant forall q, i | 0 <= q < r && 0 <= i < |policy.rules[q].conditions| ::
        WellTyped(policy.rules[q].conditions[i], contract)
    {
      var conditions := policy.rules[r].conditions;
      for i := 0 to |conditions|
        invariant forall k | 0 <= k < i :: WellTyped(conditions[k], contract)
      {
        if !WellTyped(conditions[i], contract) {
          return false;
        }
      }
    }
    return true;
  }
}
