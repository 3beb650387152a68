/** Contracts can be met: which contracts admit an input, and what may be left out of one. */
module ContractCoherence {
  import opened Wrappers
  import opened Strings
  import opened JsonValues
  import opened JsonBounds
  import opened Models
  import opened Contracts

  // ----- Shape of a value after setting or removing a path

  lemma {:induction false} FoundIsBounded(value: Json, parts: seq<string>, depth: int)
    requires Bounded(value, depth) && Lookup(value, parts).Some?
    ensures Bounded(Lookup(value, parts).value, depth + |parts|)
    decreases |parts|
  {
    if parts != [] {
      FoundIsBounded(value.fields[parts[0]], parts[1..], depth + 1);
    }
  }

  lemma {:induction false} SetIsBounded(value: Json, parts: seq<string>, leaf: Json, depth: int)
    requires Bounded(value, depth) && Bounded(leaf, depth + |parts|)
    ensures Bounded(SetPath(value, parts, leaf), depth)
    decreases |parts|
  {
    if parts != [] {
      var fields := if value.Obj? then value.fields else map[];
      var child := if parts[0] in fields then fields[parts[0]] else Obj(map[]);
      BoundedHigherUp(leaf, depth + |parts|, depth + 1);
      assert Bounded(child, depth + 1);
      SetIsBounded(child, parts[1..], leaf, depth + 1);
    }
  }

  /** Placing a value without contents under an existing object adds exactly one container item. */
  lemma {:induction false} SetAddsOneItem(value: Json, parts: seq<string>, leaf: Json)
    requires parts != [] && ContainerItems(leaf) == 0
    requires Lookup(value, parts).None?
    requires Lookup(value, parts[..|parts| - 1]).Some? && Lookup(value, parts[..|parts| - 1]).value.Obj?
    ensures ContainerItems(SetPath(value, parts, leaf)) == ContainerItems(value) + 1
    decreases |parts|
  {
    if |parts| == 1 {
      ItemsOfExtension(value.fields, parts[0], leaf);
    } else {
      assert parts[..|parts| - 1][1..] == parts[1..][..|parts| - 2];
      var child := value.fields[parts[0]];
      SetAddsOneItem(child, parts[1..], leaf);
      ItemsOfUpdate(value.fields, parts[0], SetPath(child, parts[1..], leaf));
    }
  }

  lemma {:induction false} RemoveKeepsBounds(value: Json, parts: seq<string>, depth: int)
    requires parts != [] && Bounded(value, depth)
    ensures Bounded(RemovePath(value, parts), depth)
    decreases |parts|
  {
    if value.Obj? && parts[0] in value.fields && |parts| > 1 {
      RemoveKeepsBounds(value.fields[parts[0]], parts[1..], depth + 1);
    }
  }

  lemma {:induction false} RemoveAddsNoItems(value: Json, parts: seq<string>)
    requires parts != []
    ensures ContainerItems(RemovePath(value, parts)) <= ContainerItems(value)
    decreases |parts|
  {
    if value.Obj? && parts[0] in value.fields {
      var child := value.fields[parts[0]];
      if |parts| == 1 {
        var rest := value.fields - {parts[0]};
        ItemsOfExtension(rest, parts[0], child);
        assert rest[parts[0] := child] == value.fields;
      } else {
        RemoveAddsNoItems(child, parts[1..]);
        ItemsOfUpdate(value.fields, parts[0], RemovePath(child, parts[1..]));
      }
    }
  }

  // ----- How declared paths relate

  lemma DistinctPathsSplitApart(p: string, q: string)
    requires p != q
    ensures Split(p) != Split(q)
  {
    JoinSplit(p);
    JoinSplit(q);
  }

  /** A declared path that leads through another declares that one an object, required if it is itself. */
  lemma PrefixIsParent(fields: map<string, ContextField>, path: string, parent: string)
    requires ValidFields(fields) && path in fields && Split(parent) < Split(path)
    ensures ParentDeclared(fields, path, parent)
  {
    JoinSplit(parent);
    assert ParentsDeclared(fields, path);
    assert Split(path)[..|Split(parent)|] == Split(parent);
    assert ParentDeclared(fields, path, Join(Split(path)[..|Split(parent)|]));
  }

  // ----- A context for every coherent selection of fields

  function DefaultValue(fieldType: FieldType): (v: Json)
    ensures MatchesType(v, fieldType) && ContainerItems(v) == 0
  {
    match fieldType
    case TypeArray => EmptyArrayHasNoItems(); Arr([])
    case TypeBoolean => Bool(false)
    case TypeInteger => Int(0)
    case TypeNull => Null
    case TypeNumber => Int(0)
    case TypeObject => EmptyObjectHasNoItems(); Obj(map[])
    case TypeString => Str("")
  }

  lemma EmptyArrayHasNoItems()
    ensures ContainerItems(Arr([])) == 0
  {
    var empty: seq<Json> := [];
    assert seq(|empty|, i requires 0 <= i < |empty| => ContainerItems(empty[i])) == [];
  }

  lemma EmptyObjectHasNoItems()
    ensures ContainerItems(Obj(map[])) == 0
  {
    ItemsOfObject(map[]);
  }

  /** Declared fields that could be present together: every parent of a selected field is selected. */
  predicate Selectable(fields: map<string, ContextField>, selection: set<string>)
  {
    && selection <= fields.Keys
    && forall p, q | p in selection && q in fields && Split(q) < Split(p) :: q in selection
  }

  predicate IsDeepest(selection: set<string>, path: string)
  {
    path in selection && forall q | q in selection :: |Split(q)| <= |Split(path)|
  }

  lemma {:induction false} DeepestExists(selection: set<string>)
    requires selection != {}
    ensures exists path :: IsDeepest(selection, path)
  {
    var some :| some in selection;
    var rest := selection - {some};
    if rest == {} {
      assert selection == {some};
      assert IsDeepest(selection, some);
    } else {
      DeepestExists(rest);
      var deepest :| IsDeepest(rest, deepest);
      assert IsDeepest(selection, if |Split(some)| > |Split(deepest)| then some else deepest);
    }
  }

  /** A context holding a default value at every selected path, built parents first. */
  ghost function ContextWith(fields: map<string, ContextField>, selection: set<string>): Json
    requires selection <= fields.Keys
    decreases |selection|
  {
    if selection == {} then Obj(map[])
    else
      DeepestExists(selection);
      var path :| IsDeepest(selection, path);
      SetPath(ContextWith(fields, selection - {path}), Split(path), DefaultValue(fields[path].fieldType))
  }

  /** What the built context holds at a declared path. */
  predicate HoldsSelection(fields: map<string, ContextField>, selection: set<string>, context: Json, path: string)
    requires path in fields
  {
    if path in selection
    then At(context, path).Some? && (if fields[path].fieldType.TypeObject? then At(context, path).value.Obj?
                                     else At(context, path).value == DefaultValue(fields[path].fieldType))
    else At(context, path).None?
  }

  predicate HoldsExactly(fields: map<string, ContextField>, selection: set<string>, context: Json)
  {
    context.Obj? && forall path | path in fields :: HoldsSelection(fields, selection, context, path)
  }

  lemma WithoutDeepest(fields: map<string, ContextField>, selection: set<string>, path: string)
    requires Selectable(fields, selection) && IsDeepest(selection, path)
    ensures Selectable(fields, selection - {path})
  {
  }

  /** Placing the deepest selected path completes the selection. */
  lemma PlaceDeepest(fields: map<string, ContextField>, selection: set<string>, path: string, before: Json,
                     other: string)
    requires ValidFields(fields) && Selectable(fields, selection) && IsDeepest(selection, path)
    requires HoldsExactly(fields, selection - {path}, before) && other in fields
    ensures HoldsSelection(fields, selection, SetPath(before, Split(path), DefaultValue(fields[path].fieldType)), other)
  {
    hide ValidFields, DefaultValue;
    var parts, leaf := Split(path), DefaultValue(fields[path].fieldType);
    var others := Split(other);
    assert HoldsSelection(fields, selection - {path}, before, other);
    if other == path {
      LookupAfterSet(before, parts, leaf, []);
      assert parts + [] == parts;
    } else {
      DistinctPathsSplitApart(path, other);
      if others < parts {
        PrefixIsParent(fields, path, other);
        LookupAboveSet(before, parts, leaf, others);
      } else if parts < others {
        LookupAfterSet(before, parts, leaf, others[|parts|..]);
        assert parts + others[|parts|..] == others;
      } else {
        LookupBesideSet(before, parts, leaf, others);
      }
    }
  }

  lemma ParentIsThere(fields: map<string, ContextField>, selection: set<string>, path: string, before: Json)
    requires ValidFields(fields) && Selectable(fields, selection) && path in selection
    requires HoldsExactly(fields, selection - {path}, before)
    ensures var above := Split(path)[..|Split(path)| - 1];
            Lookup(before, above).Some? && Lookup(before, above).value.Obj?
  {
    hide ValidFields, DefaultValue;
    var above := Split(path)[..|Split(path)| - 1];
    if above != [] {
      JoinSplit(path);
      SplitJoin(above);
      var parent := Join(above);
      PrefixIsParent(fields, path, parent);
      assert HoldsSelection(fields, selection - {path}, before, parent);
    }
  }

  predicate AtMost(selection: set<string>, segments: nat)
  {
    forall path | path in selection :: |Split(path)| <= segments
  }

  lemma {:induction false} ContextWithMeans(fields: map<string, ContextField>, selection: set<string>)
    requires ValidFields(fields) && Selectable(fields, selection) && AtMost(selection, MAX_JSON_DEPTH - 1)
    ensures HoldsExactly(fields, selection, ContextWith(fields, selection))
    ensures ContainerItems(ContextWith(fields, selection)) == |selection|
    ensures Bounded(ContextWith(fields, selection), 1)
    decreases |selection|
  {
    if selection == {} {
      EmptyObjectHasNoItems();
    } else {
      DeepestExists(selection);
      var path :| IsDeepest(selection, path)
        && ContextWith(fields, selection)
        == SetPath(ContextWith(fields, selection - {path}), Split(path), DefaultValue(fields[path].fieldType));
      WithoutDeepest(fields, selection, path);
      ContextWithMeans(fields, selection - {path});
      AfterPlacing(fields, selection, path, ContextWith(fields, selection - {path}));
    }
  }

  /** Placing the deepest selected path adds one item and stays within the depth limit. */
  lemma AfterPlacing(fields: map<string, ContextField>, selection: set<string>, path: string, before: Json)
    requires ValidFields(fields) && Selectable(fields, selection) && IsDeepest(selection, path)
    requires |Split(path)| < MAX_JSON_DEPTH
    requires HoldsExactly(fields, selection - {path}, before) && Bounded(before, 1)
    ensures var after := SetPath(before, Split(path), DefaultValue(fields[path].fieldType));
            && HoldsExactly(fields, selection, after)
            && ContainerItems(after) == ContainerItems(before) + 1
            && Bounded(after, 1)
  {
    var leaf := DefaultValue(fields[path].fieldType);
    var after := SetPath(before, Split(path), leaf);
    forall other | other in fields ensures HoldsSelection(fields, selection, after, other) {
      PlaceDeepest(fields, selection, path, before, other);
    }
    PlacingKeepsShape(fields, selection, path, before);
    assert after.Obj?;
  }

  lemma PlacingKeepsShape(fields: map<string, ContextField>, selection: set<string>, path: string, before: Json)
    requires ValidFields(fields) && Selectable(fields, selection) && path in selection
    requires |Split(path)| < MAX_JSON_DEPTH
    requires HoldsExactly(fields, selection - {path}, before) && Bounded(before, 1)
    ensures var after := SetPath(before, Split(path), DefaultValue(fields[path].fieldType));
            ContainerItems(after) == ContainerItems(before) + 1 && Bounded(after, 1)
  {
    var leaf := DefaultValue(fields[path].fieldType);
    ParentIsThere(fields, selection, path, before);
    assert HoldsSelection(fields, selection - {path}, before, path);
    SetAddsOneItem(before, Split(path), leaf);
    DefaultIsBounded(fields[path].fieldType, 1 + |Split(path)|);
    SetIsBounded(before, Split(path), leaf, 1);
  }

  lemma DefaultIsBounded(fieldType: FieldType, depth: int)
    requires depth <= MAX_JSON_DEPTH
    ensures Bounded(DefaultValue(fieldType), depth)
  {
  }

  function RequiredPaths(contract: Contract): set<string>
  {
    set path | path in contract.fields && contract.fields[path].required
  }

  /** Exactly the selected fields are present. */
  predicate PresentExactly(contract: Contract, context: Json, selection: set<string>)
  {
    forall path | path in contract.fields :: At(context, path).Some? <==> path in selection
  }

  /**
   Every selection of declared fields that includes the required ones, is closed under parents and
   stays within 31 segments is met by some accepted context in which exactly those fields are present.
   */
  lemma EverySelectionIsMet(contract: Contract, selection: set<string>) returns (context: Json)
    requires ValidContract(contract) && Selectable(contract.fields, selection)
    requires RequiredPaths(contract) <= selection && AtMost(selection, MAX_JSON_DEPTH - 1)
    ensures ContextAccepted(context, contract) && PresentExactly(contract, context, selection)
  {
    context := ContextWith(contract.fields, selection);
    ContextWithMeans(contract.fields, selection);
    SelectionIsSmall(contract.fields, selection);
    forall path | path in contract.fields
      ensures FieldAccepted(context, path, contract.fields[path]) && (At(context, path).Some? <==> path in selection)
    {
      assert HoldsSelection(contract.fields, selection, context, path);
    }
  }

  lemma SelectionIsSmall(fields: map<string, ContextField>, selection: set<string>)
    requires ValidFields(fields) && selection <= fields.Keys
    ensures |selection| <= MAX_CONTEXT_CONTRACT_FIELDS
  {
    var rest := fields.Keys - selection;
    assert selection + rest == fields.Keys && |fields.Keys| == |fields|;
  }

  /** A contract admits some context if and only if no required path has more than 31 segments. */
  lemma ContractIsSatisfiable(contract: Contract)
    requires ValidContract(contract)
    ensures (exists context: Json :: ContextAccepted(context, contract)) <==> AtMost(RequiredPaths(contract), MAX_JSON_DEPTH - 1)
  {
    forall context: Json | ContextAccepted(context, contract)
      ensures AtMost(RequiredPaths(contract), MAX_JSON_DEPTH - 1)
    {
      forall path | path in RequiredPaths(contract) ensures |Split(path)| <= MAX_JSON_DEPTH - 1 {
        assert FieldAccepted(context, path, contract.fields[path]);
        FoundIsBounded(context, Split(path), 1);
      }
    }
    if AtMost(RequiredPaths(contract), MAX_JSON_DEPTH - 1) {
      RequiredIsSelectable(contract);
      var context := EverySelectionIsMet(contract, RequiredPaths(contract));
    }
  }

  lemma RequiredIsSelectable(contract: Contract)
    requires ValidContract(contract)
    ensures Selectable(contract.fields, RequiredPaths(contract))
  {
    forall p, q | p in RequiredPaths(contract) && q in contract.fields && Split(q) < Split(p)
      ensures q in RequiredPaths(contract)
    {
      PrefixIsParent(contract.fields, p, q);
    }
  }

  // ----- Leaving an optional field out

  /** What removing a path leaves at a declared path. */
  lemma FieldAfterRemoval(contract: Contract, context: Json, path: string, other: string)
    requires ValidContract(contract) && ContextAccepted(context, contract)
    requires path in contract.fields && !contract.fields[path].required && other in contract.fields
    ensures FieldAccepted(RemovePath(context, Split(path)), other, contract.fields[other])
  {
    var parts, others := Split(path), Split(other);
    assert FieldAccepted(context, other, contract.fields[other]);
    if parts <= others {
      LookupAfterRemove(context, parts, others);
      if other != path {
        DistinctPathsSplitApart(path, other);
        PrefixIsParent(contract.fields, other, path);
      }
    } else if others <= parts {
      PrefixIsParent(contract.fields, path, other);
      LookupAboveRemove(context, parts, others);
    } else {
      LookupBesideRemove(context, parts, others);
    }
  }

  /** Removing an optional field, with everything below it, from an accepted context leaves it accepted. */
  lemma OptionalFieldCanGo(contract: Contract, context: Json, path: string)
    requires ValidContract(contract) && ContextAccepted(context, contract)
    requires path in contract.fields && !contract.fields[path].required
    ensures ContextAccepted(RemovePath(context, Split(path)), contract)
    ensures forall other | other in contract.fields && Split(path) <= Split(other) ::
              At(RemovePath(context, Split(path)), other).None?
  {
    var removed := RemovePath(context, Split(path));
    RemoveKeepsBounds(context, Split(path), 1);
    RemoveAddsNoItems(context, Split(path));
    forall other | other in contract.fields
      ensures FieldAccepted(removed, other, contract.fields[other])
      ensures Split(path) <= Split(other) ==> At(removed, other).None?
    {
      FieldAfterRemoval(contract, context, path, other);
      if Split(path) <= Split(other) {
        LookupAfterRemove(context, Split(path), Split(other));
      }
    }
  }
}
