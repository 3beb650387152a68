/** The bounds every JSON input meets, and the explicit-stack checker that enforces them. */
module JsonBounds {
  import opened JsonValues
  import opened Strings

  const MAX_JSON_DEPTH := 32
  const MAX_CONTAINER_ITEMS := 10_000
  const MAX_STRING_LENGTH := 65_536

  predicate IsLeast(first: string, keys: set<string>)
  {
    first in keys && forall k | k in keys :: k == first || Less(first, k)
  }

  /** The least key of a non-empty object, where `sort_keys` starts. */
  function FirstKey<T>(m: map<string, T>): (first: string)
    requires m != map[]
    ensures IsLeast(first, m.Keys)
  {
    LeastExists(m.Keys);
    LeastIsUnique(m.Keys);
    var first :| first in m.Keys && IsLeast(first, m.Keys);
    first
  }

  lemma LeastIsUnique(keys: set<string>)
    ensures forall a, b | IsLeast(a, keys) && IsLeast(b, keys) :: a == b
  {
    forall a, b | IsLeast(a, keys) && IsLeast(b, keys) ensures a == b {
      LessIsStrict(a, b);
    }
  }

  lemma {:induction false} LeastExists(keys: set<string>)
    requires keys != {}
    ensures exists first :: IsLeast(first, keys)
  {
    var some :| some in keys;
    var rest := keys - {some};
    if rest == {} {
      assert keys == {some};
      assert IsLeast(some, keys);
    } else {
      LeastExists(rest);
      var least :| IsLeast(least, rest);
      LessIsStrict(some, least);
      var first := if Less(some, least) then some else least;
      forall k | k in keys ensures k == first || Less(first, k) {
        if k != some && k != least && first == some {
          LessIsTransitive(some, least, k);
        }
      }
      assert IsLeast(first, keys);
    }
  }

  /** The sum of a map's values. */
  function Sum(m: map<string, nat>): nat
    decreases |m|
  {
    if m == map[] then 0
    else var first := FirstKey(m); m[first] + Sum(m - {first})
  }

  /** A sum does not depend on which entry is taken out first. */
  lemma {:induction false} SumSplits(m: map<string, nat>, key: string)
    requires key in m
    ensures Sum(m) == m[key] + Sum(m - {key})
    decreases |m|
  {
    var first := FirstKey(m);
    if key != first {
      SumSplits(m - {first}, key);
      assert first in m - {key};
      SumSplits(m - {key}, first);
      assert m - {first} - {key} == m - {key} - {first};
    }
  }

  lemma SumExtends(m: map<string, nat>, key: string, value: nat)
    requires key !in m
    ensures Sum(m[key := value]) == Sum(m) + value
  {
    SumSplits(m[key := value], key);
    assert m[key := value] - {key} == m;
  }

  function SumSeq(s: seq<nat>): nat
  {
    if s == [] then 0 else s[0] + SumSeq(s[1..])
  }

  lemma {:induction false} SumSeqConcat(a: seq<nat>, b: seq<nat>)
    ensures SumSeq(a + b) == SumSeq(a) + SumSeq(b)
  {
    if a == [] {
      assert a + b == b;
    } else {
      SumSeqConcat(a[1..], b);
      assert (a + b)[1..] == a[1..] + b;
    }
  }

  lemma {:induction false} SumSeqAtLeast(s: seq<nat>, i: nat)
    requires i < |s|
    ensures s[i] <= SumSeq(s)
  {
    if i > 0 {
      SumSeqAtLeast(s[1..], i - 1);
    }
  }

  /** Array elements plus object entries, counted through every level. */
  function ContainerItems(j: Json): nat
  {
    match j
    case Arr(items) =>
      |items| + SumSeq(seq(|items|, i requires 0 <= i < |items| => ContainerItems(items[i])))
    case Obj(fields) => |fields| + Sum(map k | k in fields :: ContainerItems(fields[k]))
    case _ => 0
  }

  /** Every value lies within the depth limit when `j` itself sits at `depth`, and every string is bounded. */
  predicate Bounded(j: Json, depth: int)
    decreases j
  {
    && depth <= MAX_JSON_DEPTH
    && match j
       case Str(text) => |text| <= MAX_STRING_LENGTH
       case Arr(items) => forall i | 0 <= i < |items| :: Bounded(items[i], depth + 1)
       case Obj(fields) => forall k | k in fields :: Bounded(fields[k], depth + 1)
       case _ => true
  }

  /** What `validate_json_shape` accepts. */
  predicate ShapeOk(j: Json)
  {
    Bounded(j, 1) && ContainerItems(j) <= MAX_CONTAINER_ITEMS
  }

  lemma {:induction false} BoundedHigherUp(j: Json, depth: int, higher: int)
    requires Bounded(j, depth) && higher <= depth
    ensures Bounded(j, higher)
    decreases j
  {
    match j
    case Arr(items) =>
      forall i | 0 <= i < |items| ensures Bounded(items[i], higher + 1) { BoundedHigherUp(items[i], depth + 1, higher + 1); }
    case Obj(fields) =>
      forall k | k in fields ensures Bounded(fields[k], higher + 1) { BoundedHigherUp(fields[k], depth + 1, higher + 1); }
    case _ =>
  }

  lemma FieldHasFewerItems(fields: map<string, Json>, key: string)
    requires key in fields
    ensures ContainerItems(fields[key]) <= ContainerItems(Obj(fields))
  {
    SumSplits(map k | k in fields :: ContainerItems(fields[k]), key);
  }

  lemma ItemHasFewerItems(items: seq<Json>, i: nat)
    requires i < |items|
    ensures ContainerItems(items[i]) <= ContainerItems(Arr(items))
  {
    SumSeqAtLeast(seq(|items|, j requires 0 <= j < |items| => ContainerItems(items[j])), i);
  }

  /** Parts of an acceptable value are acceptable. */
  lemma ShapeOfParts(j: Json)
    requires ShapeOk(j)
    ensures j.Obj? ==> forall k | k in j.fields :: ShapeOk(j.fields[k])
    ensures j.Arr? ==> forall i | 0 <= i < |j.items| :: ShapeOk(j.items[i])
  {
    if j.Obj? {
      forall k | k in j.fields ensures ShapeOk(j.fields[k]) {
        BoundedHigherUp(j.fields[k], 2, 1);
        FieldHasFewerItems(j.fields, k);
      }
    }
    if j.Arr? {
      forall i | 0 <= i < |j.items| ensures ShapeOk(j.items[i]) {
        BoundedHigherUp(j.items[i], 2, 1);
        ItemHasFewerItems(j.items, i);
      }
    }
  }

  function FieldCounts(fields: map<string, Json>): map<string, nat>
  {
    map k | k in fields :: ContainerItems(fields[k])
  }

  lemma ItemsOfObject(fields: map<string, Json>)
    ensures ContainerItems(Obj(fields)) == |fields| + Sum(FieldCounts(fields))
  {
    assert FieldCounts(fields) == map k | k in fields :: ContainerItems(fields[k]);
  }

  /** Adding one entry adds one item plus whatever the new value contains. */
  lemma ItemsOfExtension(fields: map<string, Json>, key: string, value: Json)
    requires key !in fields
    ensures ContainerItems(Obj(fields[key := value])) == ContainerItems(Obj(fields)) + 1 + ContainerItems(value)
  {
    var larger := fields[key := value];
    assert FieldCounts(larger) == FieldCounts(fields)[key := ContainerItems(value)];
    SumExtends(FieldCounts(fields), key, ContainerItems(value));
    ItemsOfObject(fields);
    ItemsOfObject(larger);
    assert |larger| == |fields| + 1;
  }

  /** Replacing one entry changes the count by the difference of the two values. */
  lemma ItemsOfUpdate(fields: map<string, Json>, key: string, value: Json)
    requires key in fields
    ensures ContainerItems(Obj(fields[key := value])) + ContainerItems(fields[key])
         == ContainerItems(Obj(fields)) + ContainerItems(value)
  {
    var without := fields - {key};
    assert without[key := value] == fields[key := value];
    assert without[key := fields[key]] == fields;
    ItemsOfExtension(without, key, value);
    ItemsOfExtension(without, key, fields[key]);
  }
}
