/** Printing contracts: unlike rules, every valid contract survives being printed and parsed again. */
module ContractRoundTrip {
  import opened Wrappers
  import opened Strings
  import opened JsonValues
  import opened JsonBounds
  import opened Models
  import opened Contracts

  function FieldTypeName(fieldType: FieldType): string
  {
    match fieldType
    case TypeArray => "array"
    case TypeBoolean => "boolean"
    case TypeInteger => "integer"
    case TypeNull => "null"
    case TypeNumber => "number"
    case TypeObject => "object"
    case TypeString => "string"
  }

  function TypeToJson(fieldType: FieldType): Json
  {
    Str(FieldTypeName(fieldType))
  }

  /** `ContextField.to_dict`. */
  function FieldToJson(f: ContextField): Json
  {
    var value := map["type" := TypeToJson(f.fieldType), "required" := Bool(f.required)];
    Obj(if f.items.Some? then value["items" := TypeToJson(f.items.value)] else value)
  }

  function FieldsToJson(fields: map<string, ContextField>): map<string, Json>
  {
    map path | path in fields :: FieldToJson(fields[path])
  }

  /** `ContextContract.to_dict`. */
  function ContractToJson(c: Contract): Json
  {
    Obj(map["context_contract_version" := Int(1), "id" := Str(c.id), "version" := Str(c.version),
            "description" := Str(c.description), "fields" := Obj(FieldsToJson(c.fields))])
  }

  lemma TypeNamesParseBack(fieldType: FieldType)
    ensures FieldTypeFromJson(TypeToJson(fieldType)) == Some(fieldType)
    ensures |FieldTypeName(fieldType)| <= MAX_STRING_LENGTH
  {
  }

  /** A field that declares items only for an array parses back from its printed form. */
  lemma PrintedField(f: ContextField)
    requires f.items.Some? ==> f.fieldType.TypeArray?
    ensures FieldFromJson(FieldToJson(f)) == Some(f)
  {
    hide FieldTypeFromJson, TypeToJson;
    TypeNamesParseBack(f.fieldType);
    assert TypeToJson(f.fieldType).Str? by { PrintedTypeIsText(f.fieldType); }
    if f.items.Some? {
      TypeNamesParseBack(f.items.value);
      PrintedTypeIsText(f.items.value);
    }
  }

  lemma PrintedTypeIsText(fieldType: FieldType)
    ensures TypeToJson(fieldType).Str?
    ensures ContainerItems(TypeToJson(fieldType)) == 0
    ensures forall depth | depth <= MAX_JSON_DEPTH :: Bounded(TypeToJson(fieldType), depth)
  {
    TypeNamesParseBack(fieldType);
  }

  // ----- The printed contract is within bounds

  /** How a member changes an object's shape. */
  lemma ShapeOfMore(fields: map<string, Json>, key: string, value: Json, depth: int)
    requires key !in fields && Bounded(Obj(fields), depth) && Bounded(value, depth + 1)
    ensures Bounded(Obj(fields[key := value]), depth)
    ensures ContainerItems(Obj(fields[key := value])) == ContainerItems(Obj(fields)) + 1 + ContainerItems(value)
  {
    ItemsOfExtension(fields, key, value);
    var larger := fields[key := value];
    forall k | k in larger ensures Bounded(larger[k], depth + 1) {
      assert k != key ==> k in fields;
    }
  }

  lemma ShapeOfNone(fields: map<string, Json>, depth: int)
    requires fields == map[] && depth <= MAX_JSON_DEPTH
    ensures Bounded(Obj(fields), depth) && ContainerItems(Obj(fields)) == 0
  {
    ItemsOfObject(fields);
    assert FieldCounts(fields) == map[];
  }

  lemma ShapeOfTwo(a: string, x: Json, b: string, y: Json, depth: int)
    requires a != b && depth <= MAX_JSON_DEPTH && Bounded(x, depth + 1) && Bounded(y, depth + 1)
    ensures Bounded(Obj(map[a := x, b := y]), depth)
    ensures ContainerItems(Obj(map[a := x, b := y])) == 2 + ContainerItems(x) + ContainerItems(y)
  {
    hide Bounded, ContainerItems;
    var empty: map<string, Json> := map[];
    ShapeOfNone(empty, depth);
    ShapeOfMore(empty, a, x, depth);
    ShapeOfMore(empty[a := x], b, y, depth);
    assert empty[a := x][b := y] == map[a := x, b := y];
  }

  lemma FieldShape(f: ContextField, depth: int)
    requires depth < MAX_JSON_DEPTH
    ensures Bounded(FieldToJson(f), depth) && ContainerItems(FieldToJson(f)) <= 3
  {
    hide TypeToJson;
    PrintedTypeIsText(f.fieldType);
    MemberShape("type", TypeToJson(f.fieldType), "required", Bool(f.required), "items", f.items, depth);
  }

  lemma MemberShape(a: string, x: Json, b: string, y: Json, c: string, items: Option<FieldType>, depth: int)
    requires a != b && b != c && c != a && depth < MAX_JSON_DEPTH
    requires Bounded(x, depth + 1) && ContainerItems(x) == 0 && y.Bool?
    ensures var two := map[a := x, b := y];
            var fields := if items.Some? then two[c := TypeToJson(items.value)] else two;
            Bounded(Obj(fields), depth) && ContainerItems(Obj(fields)) <= 3
  {
    assert Bounded(y, depth + 1) && ContainerItems(y) == 0;
    hide TypeToJson, Bounded, ContainerItems;
    ShapeOfTwo(a, x, b, y, depth);
    if items.Some? {
      PrintedTypeIsText(items.value);
      ShapeOfMore(map[a := x, b := y], c, TypeToJson(items.value), depth);
    }
  }

  lemma {:induction false} SumOfThrees(m: map<string, nat>)
    requires forall k | k in m :: m[k] <= 3
    ensures Sum(m) <= 3 * |m|
    decreases |m|
  {
    if m != map[] {
      SumOfThrees(m - {FirstKey(m)});
    }
  }

  lemma FieldsShape(fields: map<string, ContextField>, depth: int)
    requires depth + 1 < MAX_JSON_DEPTH
    ensures |FieldsToJson(fields)| == |fields|
    ensures Bounded(Obj(FieldsToJson(fields)), depth) && ContainerItems(Obj(FieldsToJson(fields))) <= 4 * |fields|
  {
    hide FieldToJson, ContainerItems;
    var printed := FieldsToJson(fields);
    assert printed.Keys == fields.Keys;
    assert |printed| == |printed.Keys| == |fields.Keys| == |fields|;
    forall path | path in printed ensures Bounded(printed[path], depth + 1) && ContainerItems(printed[path]) <= 3 {
      FieldShape(fields[path], depth + 1);
    }
    var counts := FieldCounts(printed);
    assert counts.Keys == printed.Keys;
    assert |counts| == |counts.Keys| == |printed.Keys| == |printed|;
    SumOfThrees(counts);
    ItemsOfObject(printed);
  }

  /** The five members of a printed contract, whatever they are called. */
  lemma ContractShape(a: string, b: string, c: string, d: string, e: string, v: Json, w: Json, x: Json, y: Json,
                      z: Json, depth: int)
    requires a != b && c !in {a, b} && d !in {a, b, c} && e !in {a, b, c, d} && depth < MAX_JSON_DEPTH
    requires Bounded(v, depth + 1) && Bounded(w, depth + 1) && Bounded(x, depth + 1)
    requires Bounded(y, depth + 1) && Bounded(z, depth + 1)
    ensures var j := Obj(map[a := v, b := w, c := x, d := y, e := z]);
            && Bounded(j, depth)
            && ContainerItems(j) == 5 + ContainerItems(v) + ContainerItems(w) + ContainerItems(x)
                                    + ContainerItems(y) + ContainerItems(z)
  {
    hide Bounded, ContainerItems;
    var two := map[a := v, b := w];
    ShapeOfTwo(a, v, b, w, depth);
    ShapeOfMore(two, c, x, depth);
    ShapeOfMore(two[c := x], d, y, depth);
    ShapeOfMore(two[c := x][d := y], e, z, depth);
    assert two[c := x][d := y][e := z] == map[a := v, b := w, c := x, d := y, e := z];
  }

  lemma PrintedContractIsBounded(contract: Contract)
    requires ValidContract(contract)
    ensures ShapeOk(ContractToJson(contract))
  {
    var fields, depth := contract.fields, 1;
    FieldsShape(fields, depth + 1);
    assert Bounded(Int(1), depth + 1) && ContainerItems(Int(1)) == 0;
    TextShape(contract.id, depth + 1);
    TextShape(contract.version, depth + 1);
    TextShape(contract.description, depth + 1);
    hide Bounded, ContainerItems, FieldsToJson;
    ContractShape("context_contract_version", "id", "version", "description", "fields",
                  Int(1), Str(contract.id), Str(contract.version), Str(contract.description), Obj(FieldsToJson(fields)), depth);
  }

  lemma TextShape(text: string, depth: int)
    requires |text| <= MAX_STRING_LENGTH && depth <= MAX_JSON_DEPTH
    ensures Bounded(Str(text), depth) && ContainerItems(Str(text)) == 0
  {
  }

  lemma PrintedEntries(contract: Contract)
    requires ValidContract(contract)
    ensures FieldsToJson(contract.fields).Keys == contract.fields.Keys && |FieldsToJson(contract.fields)| == |contract.fields|
    ensures forall path | path in contract.fields ::
              FieldFromJson(FieldsToJson(contract.fields)[path]) == Some(contract.fields[path])
  {
    hide FieldToJson, ParentsDeclared;
    var printed := FieldsToJson(contract.fields);
    assert printed.Keys == contract.fields.Keys;
    assert |printed| == |printed.Keys| == |contract.fields.Keys| == |contract.fields|;
    forall path | path in contract.fields ensures FieldFromJson(printed[path]) == Some(contract.fields[path]) {
      PrintedField(contract.fields[path]);
    }
  }

  /** Every valid contract prints to a document that is accepted and declares exactly this contract. */
  lemma PrintedContract(contract: Contract)
    requires ValidContract(contract)
    ensures ContractHead(ContractToJson(contract)) && Declares(ContractToJson(contract), contract)
  {
    PrintedContractIsBounded(contract);
    PrintedEntries(contract);
    hide ShapeOk, FieldsToJson, FieldFromJson, AllParentsDeclared;
  }

  /** A document declares at most one contract, so parsing the printed contract gives it back. */
  lemma DeclaredContractIsUnique(j: Json, a: Contract, b: Contract)
    requires ContractHead(j) && Declares(j, a) && Declares(j, b)
    ensures a == b
  {
    assert a.fields == b.fields;
  }

  // ----- What a parsed document held

  /** The document with what may be left out: a missing `required` is true, and array items that are null are none. */
  function WithFieldDefaults(members: map<string, Json>): map<string, Json>
  {
    var whole := if "required" in members then members else members["required" := Bool(true)];
    if "items" in members && members["items"].Null? && "type" in members && members["type"] == TypeToJson(TypeArray)
    then whole - {"items"} else whole
  }

  lemma TypeNamesAreParsed(j: Json, fieldType: FieldType)
    ensures FieldTypeFromJson(j) == Some(fieldType) <==> j == TypeToJson(fieldType)
  {
    TypeNamesParseBack(fieldType);
  }

  /** A field document parses to a field exactly when, its defaults written out, it is what the field prints as. */
  lemma ParsedField(members: map<string, Json>, f: ContextField)
    requires f.items.Some? ==> f.fieldType.TypeArray?
    ensures FieldFromJson(Obj(members)) == Some(f) <==> Obj(WithFieldDefaults(members)) == FieldToJson(f)
  {
    hide FieldTypeFromJson, TypeToJson;
    var printed := FieldToJson(f).fields;
    TypeNamesAreParsed(if "type" in members then members["type"] else Null, f.fieldType);
    TypeNamesAreParsed(if "type" in members then members["type"] else Null, TypeArray);
    if f.items.Some? {
      TypeNamesAreParsed(if "items" in members then members["items"] else Null, f.items.value);
    }
    PrintedTypeIsText(f.fieldType);
    if FieldFromJson(Obj(members)) == Some(f) {
      assert WithFieldDefaults(members) == printed;
    }
    if WithFieldDefaults(members) == printed {
      assert "type" in printed && "required" in printed && members.Keys <= printed.Keys + {"items"};
    }
  }

  /** Three of five members replaced, whatever the members are called. */
  lemma MembersReplaced(members: map<string, Json>, a: string, b: string, c: string, d: string, e: string,
                        v: Json, w: Json, x: Json, y: Json, z: Json)
    requires a != b && c !in {a, b} && d !in {a, b, c} && e !in {a, b, c, d}
    requires {a, b, c, e} <= members.Keys <= {a, b, c, d, e} && members[b] == w && members[c] == x
    ensures members[a := v][d := y][e := z] == map[a := v, b := w, c := x, d := y, e := z]
  {
  }

  /** A document declares a contract whose printed form it has: the same members, the description and field defaults written out. */
  lemma ParsedContract(j: Json, contract: Contract)
    requires ContractHead(j) && Declares(j, contract)
    ensures j.fields["context_contract_version" := Int(1)]["description" := Str(contract.description)]
                    ["fields" := Obj(FieldsToJson(contract.fields))] == ContractToJson(contract).fields
    ensures var entries := j.fields["fields"].fields;
            && entries.Keys == contract.fields.Keys
            && forall path | path in entries ::
                 entries[path].Obj? && Obj(WithFieldDefaults(entries[path].fields)) == FieldToJson(contract.fields[path])
    ensures JsonEqual(j.fields["context_contract_version"], Int(1))
    ensures "description" !in j.fields ==> contract.description == ""
    ensures "description" in j.fields ==> j.fields["description"] == Str(contract.description)
  {
    var entries := j.fields["fields"].fields;
    forall path | path in entries
      ensures entries[path].Obj? && Obj(WithFieldDefaults(entries[path].fields)) == FieldToJson(contract.fields[path])
    {
      ParsedField(entries[path].fields, contract.fields[path]);
    }
    hide FieldFromJson, WithFieldDefaults, FieldToJson, FieldsToJson, ShapeOk;
    MembersReplaced(j.fields, "context_contract_version", "id", "version", "description", "fields",
                    Int(1), Str(contract.id), Str(contract.version), Str(contract.description), Obj(FieldsToJson(contract.fields)));
  }
}
