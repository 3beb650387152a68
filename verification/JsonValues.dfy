/** JSON values (RFC 8259, section 3), the engine's equality on them, and dotted-path access. */
module JsonValues {
  import opened Wrappers
  import opened Strings

  datatype Json =
    | Null
    | Bool(flag: bool)
    | Int(number: int)
    | Float(approx: real)
    | Str(text: string)
    | Arr(items: seq<Json>)
    | Obj(fields: map<string, Json>)

  predicate IsNumber(j: Json)
  {
    j.Int? || j.Float?
  }

  /** The exact value Python compares when an int meets a float. */
  function NumberOf(j: Json): real
    requires IsNumber(j)
  {
    if j.Int? then j.number as real else j.approx
  }

  /** The engine's `_json_equal`, branch by branch: 1 equals 1.0, but True does not equal 1. */
  predicate JsonEqual(left: Json, right: Json)
    decreases left
  {
    if left.Str? && right.Str? then left.text == right.text
    else if left.Bool? || right.Bool? then left.Bool? && right.Bool? && left.flag == right.flag
    else if IsNumber(left) && IsNumber(right) then NumberOf(left) == NumberOf(right)
    else if left.Arr? || right.Arr? then
      left.Arr? && right.Arr? && |left.items| == |right.items|
      && forall i | 0 <= i < |left.items| :: JsonEqual(left.items[i], right.items[i])
    else if left.Obj? || right.Obj? then
      left.Obj? && right.Obj? && left.fields.Keys == right.fields.Keys
      && forall k | k in left.fields :: JsonEqual(left.fields[k], right.fields[k])
    else left == right
  }

  lemma {:induction false} EqualIsReflexive(a: Json)
    ensures JsonEqual(a, a)
  {
    match a
    case Arr(items) =>
      forall i | 0 <= i < |items| ensures JsonEqual(items[i], items[i]) { EqualIsReflexive(items[i]); }
    case Obj(fields) =>
      forall k | k in fields ensures JsonEqual(fields[k], fields[k]) { EqualIsReflexive(fields[k]); }
    case _ =>
  }

  lemma {:induction false} EqualIsSymmetric(a: Json, b: Json)
    requires JsonEqual(a, b)
    ensures JsonEqual(b, a)
    decreases a
  {
    match a
    case Arr(items) =>
      forall i | 0 <= i < |items| ensures JsonEqual(b.items[i], items[i]) { EqualIsSymmetric(items[i], b.items[i]); }
    case Obj(fields) =>
      forall k | k in b.fields ensures JsonEqual(b.fields[k], fields[k]) { EqualIsSymmetric(fields[k], b.fields[k]); }
    case _ =>
  }

  lemma {:induction false} EqualIsTransitive(a: Json, b: Json, c: Json)
    requires JsonEqual(a, b) && JsonEqual(b, c)
    ensures JsonEqual(a, c)
    decreases a
  {
    match a
    case Arr(items) =>
      forall i | 0 <= i < |items| ensures JsonEqual(items[i], c.items[i]) {
        EqualIsTransitive(items[i], b.items[i], c.items[i]);
      }
    case Obj(fields) =>
      forall k | k in fields ensures JsonEqual(fields[k], c.fields[k]) {
        EqualIsTransitive(fields[k], b.fields[k], c.fields[k]);
      }
    case _ =>
  }

  /** Equality with a common value: replacing either side by an equal value changes nothing. */
  lemma EqualIsCongruent(a: Json, a': Json, b: Json, b': Json)
    requires JsonEqual(a, a') && JsonEqual(b, b')
    ensures JsonEqual(a, b) == JsonEqual(a', b')
  {
    EqualIsSymmetric(a, a');
    EqualIsSymmetric(b, b');
    if JsonEqual(a, b) {
      EqualIsTransitive(a', a, b);
      EqualIsTransitive(a', b, b');
    }
    if JsonEqual(a', b') {
      EqualIsTransitive(a, a', b');
      EqualIsTransitive(a, b', b);
    }
  }

  /** The value with every int read as the number it is. */
  function Normal(j: Json): Json
  {
    match j
    case Int(number) => Float(number as real)
    case Arr(items) => Arr(seq(|items|, i requires 0 <= i < |items| => Normal(items[i])))
    case Obj(fields) => Obj(map k | k in fields :: Normal(fields[k]))
    case _ => j
  }

  /** The engine identifies exactly the values that differ only in writing a whole number as int or float. */
  lemma {:induction false} EqualMeansSameNormal(a: Json, b: Json)
    ensures JsonEqual(a, b) <==> Normal(a) == Normal(b)
    decreases a
  {
    if a.Arr? && b.Arr? && |a.items| == |b.items| {
      forall i | 0 <= i < |a.items| ensures JsonEqual(a.items[i], b.items[i]) <==> Normal(a.items[i]) == Normal(b.items[i]) {
        EqualMeansSameNormal(a.items[i], b.items[i]);
      }
      SameItems(a.items, b.items);
    } else if a.Obj? && b.Obj? && a.fields.Keys == b.fields.Keys {
      forall k | k in a.fields ensures JsonEqual(a.fields[k], b.fields[k]) <==> Normal(a.fields[k]) == Normal(b.fields[k]) {
        EqualMeansSameNormal(a.fields[k], b.fields[k]);
      }
      SameFields(a.fields, b.fields);
    } else if a.Arr? && b.Arr? {
      assert |Normal(a).items| != |Normal(b).items|;
    } else if a.Obj? && b.Obj? {
      assert Normal(a).fields.Keys == a.fields.Keys && Normal(b).fields.Keys == b.fields.Keys;
    }
  }

  lemma SameItems(a: seq<Json>, b: seq<Json>)
    requires |a| == |b|
    ensures Normal(Arr(a)) == Normal(Arr(b)) <==> forall i | 0 <= i < |a| :: Normal(a[i]) == Normal(b[i])
  {
    var left, right := Normal(Arr(a)).items, Normal(Arr(b)).items;
    assert forall i | 0 <= i < |a| :: left[i] == Normal(a[i]) && right[i] == Normal(b[i]);
    assert left == right <==> forall i | 0 <= i < |a| :: left[i] == right[i];
  }

  lemma SameFields(a: map<string, Json>, b: map<string, Json>)
    requires a.Keys == b.Keys
    ensures Normal(Obj(a)) == Normal(Obj(b)) <==> forall k | k in a :: Normal(a[k]) == Normal(b[k])
  {
    var left, right := Normal(Obj(a)).fields, Normal(Obj(b)).fields;
    assert left.Keys == a.Keys && right.Keys == b.Keys;
    assert forall k | k in a :: left[k] == Normal(a[k]) && right[k] == Normal(b[k]);
    assert left == right <==> forall k | k in a :: left[k] == right[k];
  }

  /** What the walk of `_field_value` finds below `value`; None is the missing sentinel. */
  function Lookup(value: Json, parts: seq<string>): Option<Json>
    decreases |parts|
  {
    if parts == [] then Some(value)
    else if !value.Obj? || parts[0] !in value.fields then None
    else Lookup(value.fields[parts[0]], parts[1..])
  }

  function At(context: Json, path: string): Option<Json>
  {
    Lookup(context, Split(path))
  }

  /** `_field_value`: the loop follows one segment at a time and stops at the first gap. */
  method FieldValue(context: Json, path: string) returns (found: Option<Json>)
    ensures found == At(context, path)
  {
    var parts := Split(path);
    var value := context;
    for i := 0 to |parts|
      invariant Lookup(context, parts) == Lookup(value, parts[i..])
    {
      if !value.Obj? || parts[i] !in value.fields {
        return None;
      }
      value := value.fields[parts[i]];
      assert parts[i..][1..] == parts[i + 1..];
    }
    return Some(value);
  }

  /** Looking up equal contexts finds nothing in both or equal values in both. */
  lemma {:induction false} LookupRespectsEqual(a: Json, b: Json, parts: seq<string>)
    requires JsonEqual(a, b)
    ensures Lookup(a, parts).None? <==> Lookup(b, parts).None?
    ensures Lookup(a, parts).Some? ==> JsonEqual(Lookup(a, parts).value, Lookup(b, parts).value)
    decreases |parts|
  {
    if parts != [] && a.Obj? && parts[0] in a.fields {
      LookupRespectsEqual(a.fields[parts[0]], b.fields[parts[0]], parts[1..]);
    }
  }

  /** Neither path is the other or leads through the other. */
  predicate Independent(p: seq<string>, q: seq<string>)
  {
    !(p <= q) && !(q <= p)
  }

  /** The value with `leaf` placed at `parts`, creating the objects on the way. */
  function SetPath(value: Json, parts: seq<string>, leaf: Json): Json
    decreases |parts|
  {
    if parts == [] then leaf
    else
      var fields := if value.Obj? then value.fields else map[];
      var child := if parts[0] in fields then fields[parts[0]] else Obj(map[]);
      Obj(fields[parts[0] := SetPath(child, parts[1..], leaf)])
  }

  /** The value with the entry at `parts` deleted; unchanged when there is none. */
  function RemovePath(value: Json, parts: seq<string>): Json
    requires parts != []
    decreases |parts|
  {
    if !value.Obj? || parts[0] !in value.fields then value
    else if |parts| == 1 then Obj(value.fields - {parts[0]})
    else Obj(value.fields[parts[0] := RemovePath(value.fields[parts[0]], parts[1..])])
  }

  lemma PrefixTail(p: seq<string>, q: seq<string>)
    requires p != [] && q != []
    ensures p <= q <==> p[0] == q[0] && p[1..] <= q[1..]
  {
    if p[0] == q[0] && p[1..] <= q[1..] {
      assert forall i | 0 <= i < |p| :: p[i] == q[i] by {
        forall i | 1 <= i < |p| ensures p[i] == q[i] { assert p[1..][i - 1] == q[1..][i - 1]; }
      }
    }
  }

  lemma {:induction false} LookupAfterSet(value: Json, parts: seq<string>, leaf: Json, below: seq<string>)
    ensures Lookup(SetPath(value, parts, leaf), parts + below) == Lookup(leaf, below)
    decreases |parts|
  {
    if parts == [] {
      assert parts + below == below;
    } else {
      var fields := if value.Obj? then value.fields else map[];
      var child := if parts[0] in fields then fields[parts[0]] else Obj(map[]);
      LookupAfterSet(child, parts[1..], leaf, below);
      assert (parts + below)[1..] == parts[1..] + below;
    }
  }

  lemma {:induction false} LookupBesideSet(value: Json, parts: seq<string>, leaf: Json, other: seq<string>)
    requires Independent(parts, other)
    ensures Lookup(SetPath(value, parts, leaf), other) == Lookup(value, other)
    decreases |parts|
  {
    var fields := if value.Obj? then value.fields else map[];
    var child := if parts[0] in fields then fields[parts[0]] else Obj(map[]);
    PrefixTail(parts, other);
    PrefixTail(other, parts);
    if parts[0] == other[0] {
      LookupBesideSet(child, parts[1..], leaf, other[1..]);
    }
  }

  lemma {:induction false} LookupAboveSet(value: Json, parts: seq<string>, leaf: Json, above: seq<string>)
    requires above < parts
    ensures Lookup(SetPath(value, parts, leaf), above).Some?
    ensures Lookup(SetPath(value, parts, leaf), above).value.Obj?
    decreases |parts|
  {
    if above != [] {
      var fields := if value.Obj? then value.fields else map[];
      var child := if parts[0] in fields then fields[parts[0]] else Obj(map[]);
      PrefixTail(above, parts);
      LookupAboveSet(child, parts[1..], leaf, above[1..]);
    }
  }

  lemma {:induction false} LookupAfterRemove(value: Json, parts: seq<string>, below: seq<string>)
    requires parts != [] && parts <= below
    ensures Lookup(RemovePath(value, parts), below).None?
    decreases |parts|
  {
    PrefixTail(parts, below);
    if value.Obj? && parts[0] in value.fields && |parts| > 1 {
      LookupAfterRemove(value.fields[parts[0]], parts[1..], below[1..]);
    }
  }

  lemma {:induction false} LookupBesideRemove(value: Json, parts: seq<string>, other: seq<string>)
    requires parts != [] && Independent(parts, other)
    ensures Lookup(RemovePath(value, parts), other) == Lookup(value, other)
    decreases |parts|
  {
    PrefixTail(parts, other);
    PrefixTail(other, parts);
    if value.Obj? && parts[0] in value.fields && |parts| > 1 && parts[0] == other[0] {
      LookupBesideRemove(value.fields[parts[0]], parts[1..], other[1..]);
    }
  }

  lemma {:induction false} LookupAboveRemove(value: Json, parts: seq<string>, above: seq<string>)
    requires above < parts
    ensures Lookup(RemovePath(value, parts), above).Some? <==> Lookup(value, above).Some?
    ensures Lookup(value, above).Some? ==>
              (Lookup(RemovePath(value, parts), above).value.Obj? <==> Lookup(value, above).value.Obj?)
    decreases |parts|
  {
    if above != [] && value.Obj? && parts[0] in value.fields {
      PrefixTail(above, parts);
      LookupAboveRemove(value.fields[parts[0]], parts[1..], above[1..]);
    }
  }
}
