/** Python values as the validator meets them: JSON or not, mutable or frozen. */
module Validation {
  import opened JsonValues
  import opened JsonBounds

  datatype Approx = Finite(value: real) | Infinite | NaN

  /** `others` holds the values found under keys that are not strings; Foreign is any other object. */
  datatype Value =
    | PyNone
    | PyBool(flag: bool)
    | PyInt(number: int)
    | PyFloat(approx: Approx)
    | PyStr(text: string)
    | List(items: seq<Value>)
    | Tuple(items: seq<Value>)
    | Mapping(frozen: bool, entries: map<string, Value>, others: seq<Value>)
    | Foreign

  /** A JSON value in mutable or frozen form, whatever its size. */
  predicate JsonLike(v: Value)
  {
    match v
    case PyFloat(approx) => approx.Finite?
    case List(items) => forall i | 0 <= i < |items| :: JsonLike(items[i])
    case Tuple(items) => forall i | 0 <= i < |items| :: JsonLike(items[i])
    case Mapping(_, entries, others) => others == [] && forall k | k in entries :: JsonLike(entries[k])
    case Foreign => false
    case _ => true
  }

  /** The JSON value that a Python value stands for; lists and tuples both stand for arrays. */
  function Meaning(v: Value): Json
    requires JsonLike(v)
  {
    match v
    case PyNone => Null
    case PyBool(flag) => Bool(flag)
    case PyInt(number) => Int(number)
    case PyFloat(approx) => Float(approx.value)
    case PyStr(text) => Str(text)
    case List(items) => Arr(seq(|items|, i requires 0 <= i < |items| => Meaning(items[i])))
    case Tuple(items) => Arr(seq(|items|, i requires 0 <= i < |items| => Meaning(items[i])))
    case Mapping(_, entries, _) => Obj(map k | k in entries :: Meaning(entries[k]))
  }

  /** Built from dicts and lists only. */
  predicate Plain(v: Value)
  {
    match v
    case List(items) => forall i | 0 <= i < |items| :: Plain(items[i])
    case Tuple(_) => false
    case Mapping(frozen, entries, others) =>
      && !frozen
      && (forall k | k in entries :: Plain(entries[k]))
      && forall i | 0 <= i < |others| :: Plain(others[i])
    case _ => true
  }

  /** Nothing inside can be changed in place. */
  predicate Immutable(v: Value)
  {
    match v
    case List(_) => false
    case Tuple(items) => forall i | 0 <= i < |items| :: Immutable(items[i])
    case Mapping(frozen, entries, others) =>
      && frozen
      && (forall k | k in entries :: Immutable(entries[k]))
      && forall i | 0 <= i < |others| :: Immutable(others[i])
    case _ => true
  }

  function Freeze(v: Value): Value
  {
    match v
    case Mapping(_, entries, others) =>
      Mapping(true,
              map k | k in entries :: Freeze(entries[k]),
              seq(|others|, i requires 0 <= i < |others| => Freeze(others[i])))
    case List(items) => Tuple(seq(|items|, i requires 0 <= i < |items| => Freeze(items[i])))
    case _ => v
  }

  function Thaw(v: Value): Value
  {
    match v
    case Mapping(_, entries, others) =>
      Mapping(false,
              map k | k in entries :: Thaw(entries[k]),
              seq(|others|, i requires 0 <= i < |others| => Thaw(others[i])))
    case List(items) => List(seq(|items|, i requires 0 <= i < |items| => Thaw(items[i])))
    case Tuple(items) => List(seq(|items|, i requires 0 <= i < |items| => Thaw(items[i])))
    case _ => v
  }

  /** Thawing a frozen value gives the value back exactly when it was built from dicts and lists. */
  lemma {:induction false} ThawFreeze(v: Value)
    ensures Thaw(Freeze(v)) == v <==> Plain(v)
  {
    match v
    case List(items) =>
      forall i | 0 <= i < |items| ensures Thaw(Freeze(items[i])) == items[i] <==> Plain(items[i]) { ThawFreeze(items[i]); }
      ListRoundTrip(items);
    case Mapping(_, entries, others) =>
      forall k | k in entries ensures Thaw(Freeze(entries[k])) == entries[k] <==> Plain(entries[k]) { ThawFreeze(entries[k]); }
      forall i | 0 <= i < |others| ensures Thaw(Freeze(others[i])) == others[i] <==> Plain(others[i]) { ThawFreeze(others[i]); }
      var back := Thaw(Freeze(v));
      assert back.entries == entries <==> forall k | k in entries :: Thaw(Freeze(entries[k])) == entries[k];
      assert |back.others| == |others| && forall i | 0 <= i < |others| :: back.others[i] == Thaw(Freeze(others[i]));
      assert back.others == others <==> forall i | 0 <= i < |others| :: Thaw(Freeze(others[i])) == others[i];
    case _ =>
  }

  lemma ListRoundTrip(items: seq<Value>)
    ensures Thaw(Freeze(List(items))) == List(items) <==> forall i | 0 <= i < |items| :: Thaw(Freeze(items[i])) == items[i]
  {
    var back := Thaw(Freeze(List(items)));
    assert |back.items| == |items| && forall i | 0 <= i < |items| :: back.items[i] == Thaw(Freeze(items[i]));
  }

  /** Every tuple inside, which freezing leaves as it is, is immutable already. */
  predicate TuplesAreFrozen(v: Value)
  {
    match v
    case List(items) => forall i | 0 <= i < |items| :: TuplesAreFrozen(items[i])
    case Tuple(_) => Immutable(v)
    case Mapping(_, entries, others) =>
      && (forall k | k in entries :: TuplesAreFrozen(entries[k]))
      && forall i | 0 <= i < |others| :: TuplesAreFrozen(others[i])
    case _ => true
  }

  /** Freezing keeps the JSON value meant. */
  lemma {:induction false} FreezeKeepsMeaning(v: Value)
    requires JsonLike(v)
    ensures JsonLike(Freeze(v)) && Meaning(Freeze(v)) == Meaning(v)
  {
    match v
    case List(items) =>
      forall i | 0 <= i < |items| ensures JsonLike(Freeze(items[i])) && Meaning(Freeze(items[i])) == Meaning(items[i]) {
        FreezeKeepsMeaning(items[i]);
      }
    case Mapping(_, entries, _) =>
      forall k | k in entries ensures JsonLike(Freeze(entries[k])) && Meaning(Freeze(entries[k])) == Meaning(entries[k]) {
        FreezeKeepsMeaning(entries[k]);
      }
      assert Meaning(Freeze(v)).fields == Meaning(v).fields;
    case _ =>
  }

  /** Freezing leaves nothing mutable, unless a tuple already held it. */
  lemma {:induction false} FreezeIsImmutable(v: Value)
    ensures Immutable(Freeze(v)) <==> TuplesAreFrozen(v)
  {
    match v
    case List(items) =>
      forall i | 0 <= i < |items| ensures Immutable(Freeze(items[i])) <==> TuplesAreFrozen(items[i]) {
        FreezeIsImmutable(items[i]);
      }
      assert forall i | 0 <= i < |items| :: Freeze(v).items[i] == Freeze(items[i]);
    case Mapping(_, entries, others) =>
      forall k | k in entries ensures Immutable(Freeze(entries[k])) <==> TuplesAreFrozen(entries[k]) {
        FreezeIsImmutable(entries[k]);
      }
      forall i | 0 <= i < |others| ensures Immutable(Freeze(others[i])) <==> TuplesAreFrozen(others[i]) {
        FreezeIsImmutable(others[i]);
      }
      assert forall k | k in entries :: Freeze(v).entries[k] == Freeze(entries[k]);
      assert forall i | 0 <= i < |others| :: Freeze(v).others[i] == Freeze(others[i]);
    case _ =>
  }

  /** What the checker demands of a value at a depth, stated without a stack. */
  predicate Conforms(v: Value, depth: int)
    decreases v
  {
    && depth <= MAX_JSON_DEPTH
    && match v
       case PyFloat(approx) => approx.Finite?
       case PyStr(text) => |text| <= MAX_STRING_LENGTH
       case List(items) => forall i | 0 <= i < |items| :: Conforms(items[i], depth + 1)
       case Mapping(_, entries, others) => others == [] && forall k | k in entries :: Conforms(entries[k], depth + 1)
       case Tuple(_) => false
       case Foreign => false
       case _ => true
  }

  function ValueItems(v: Value): nat
  {
    match v
    case List(items) => |items| + SumSeq(seq(|items|, i requires 0 <= i < |items| => ValueItems(items[i])))
    case Mapping(_, entries, _) => |entries| + Sum(map k | k in entries :: ValueItems(entries[k]))
    case _ => 0
  }

  /** The recursive specification: lists for arrays, text keys, and the bounds on the JSON value meant. */
  predicate Acceptable(v: Value)
  {
    JsonLike(v) && !HasTuple(v) && ShapeOk(Meaning(v))
  }

  predicate HasTuple(v: Value)
  {
    match v
    case Tuple(_) => true
    case List(items) => exists i | 0 <= i < |items| :: HasTuple(items[i])
    case Mapping(_, entries, _) => exists k | k in entries :: HasTuple(entries[k])
    case _ => false
  }

  lemma {:induction false} ConformsMeans(v: Value, depth: int)
    ensures Conforms(v, depth) <==> JsonLike(v) && !HasTuple(v) && Bounded(Meaning(v), depth)
    decreases v
  {
    match v
    case List(items) =>
      forall i | 0 <= i < |items|
        ensures Conforms(items[i], depth + 1) <==>
                JsonLike(items[i]) && !HasTuple(items[i]) && Bounded(Meaning(items[i]), depth + 1)
      {
        ConformsMeans(items[i], depth + 1);
      }
      if JsonLike(v) {
        assert forall i | 0 <= i < |items| :: Meaning(v).items[i] == Meaning(items[i]);
      }
    case Mapping(_, entries, _) =>
      forall k | k in entries
        ensures Conforms(entries[k], depth + 1) <==>
                JsonLike(entries[k]) && !HasTuple(entries[k]) && Bounded(Meaning(entries[k]), depth + 1)
      {
        ConformsMeans(entries[k], depth + 1);
      }
      if JsonLike(v) {
        assert forall k | k in entries :: Meaning(v).fields[k] == Meaning(entries[k]);
      }
    case _ =>
  }

  lemma {:induction false} ItemsMean(v: Value)
    requires JsonLike(v) && !HasTuple(v)
    ensures ValueItems(v) == ContainerItems(Meaning(v))
  {
    match v
    case List(items) =>
      forall i | 0 <= i < |items| ensures ValueItems(items[i]) == ContainerItems(Meaning(items[i])) { ItemsMean(items[i]); }
      var meant := Meaning(v).items;
      assert seq(|items|, i requires 0 <= i < |items| => ValueItems(items[i]))
          == seq(|meant|, i requires 0 <= i < |meant| => ContainerItems(meant[i]));
    case Mapping(_, entries, _) =>
      forall k | k in entries ensures ValueItems(entries[k]) == ContainerItems(Meaning(entries[k])) { ItemsMean(entries[k]); }
      var meant := Meaning(v).fields;
      assert meant.Keys == entries.Keys;
      assert (map k | k in entries :: ValueItems(entries[k])) == FieldCounts(meant);
      ItemsOfObject(meant);
      assert |meant| == |entries| by { assert |meant.Keys| == |meant| && |entries.Keys| == |entries|; }
    case _ =>
  }

  lemma AcceptableMeans(v: Value)
    ensures Acceptable(v) <==> Conforms(v, 1) && ValueItems(v) <= MAX_CONTAINER_ITEMS
  {
    ConformsMeans(v, 1);
    if JsonLike(v) && !HasTuple(v) {
      ItemsMean(v);
    }
  }

  /** The stack of `validate_json_shape`: values still to visit, each with its depth. */
  type Stack = seq<(Value, int)>

  predicate AllConform(stack: Stack)
  {
    forall i | 0 <= i < |stack| :: Conforms(stack[i].0, stack[i].1)
  }

  function StackItems(stack: Stack): nat
  {
    if stack == [] then 0
    else ValueItems(stack[|stack| - 1].0) + StackItems(stack[..|stack| - 1])
  }

  /** How many visits a value takes: one for itself and one for everything inside. */
  function Visits(v: Value): nat
  {
    match v
    case List(items) => 1 + SumSeq(seq(|items|, i requires 0 <= i < |items| => Visits(items[i])))
    case Mapping(_, entries, _) => 1 + Sum(map k | k in entries :: Visits(entries[k]))
    case _ => 1
  }

  function StackVisits(stack: Stack): nat
  {
    if stack == [] then 0
    else Visits(stack[|stack| - 1].0) + StackVisits(stack[..|stack| - 1])
  }

  lemma Push(stack: Stack, top: (Value, int))
    ensures AllConform(stack + [top]) <==> AllConform(stack) && Conforms(top.0, top.1)
    ensures StackItems(stack + [top]) == StackItems(stack) + ValueItems(top.0)
    ensures StackVisits(stack + [top]) == StackVisits(stack) + Visits(top.0)
  {
    var pushed := stack + [top];
    assert pushed[..|pushed| - 1] == stack;
    if AllConform(pushed) {
      forall i | 0 <= i < |stack| ensures Conforms(stack[i].0, stack[i].1) {
        assert pushed[i] == stack[i];
      }
      assert pushed[|stack|] == top;
    }
  }

  function ItemCounts(items: seq<Value>): seq<nat>
  {
    seq(|items|, i requires 0 <= i < |items| => ValueItems(items[i]))
  }

  function ItemVisits(items: seq<Value>): seq<nat>
  {
    seq(|items|, i requires 0 <= i < |items| => Visits(items[i]))
  }

  function EntryCounts(entries: map<string, Value>): map<string, nat>
  {
    map k | k in entries :: ValueItems(entries[k])
  }

  function EntryVisits(entries: map<string, Value>): map<string, nat>
  {
    map k | k in entries :: Visits(entries[k])
  }

  predicate ItemsConform(items: seq<Value>, depth: int)
  {
    forall i | 0 <= i < |items| :: Conforms(items[i], depth)
  }

  predicate EntriesConform(entries: map<string, Value>, depth: int)
  {
    forall k | k in entries :: Conforms(entries[k], depth)
  }

  /** `stack.extend` over a list: every element goes on the stack at the given depth. */
  method ExtendWithItems(stack: Stack, items: seq<Value>, depth: int) returns (pushed: Stack)
    ensures AllConform(pushed) <==> AllConform(stack) && ItemsConform(items, depth)
    ensures StackItems(pushed) == StackItems(stack) + SumSeq(ItemCounts(items))
    ensures StackVisits(pushed) == StackVisits(stack) + SumSeq(ItemVisits(items))
  {
    pushed := stack;
    for n := 0 to |items|
      invariant AllConform(pushed) <==> AllConform(stack) && ItemsConform(items[..n], depth)
      invariant StackItems(pushed) == StackItems(stack) + SumSeq(ItemCounts(items[..n]))
      invariant StackVisits(pushed) == StackVisits(stack) + SumSeq(ItemVisits(items[..n]))
    {
      Push(pushed, (items[n], depth));
      pushed := pushed + [(items[n], depth)];
      OneMoreItem(items, n, depth);
    }
    assert items[..|items|] == items;
  }

  lemma OneMoreItem(items: seq<Value>, n: nat, depth: int)
    requires n < |items|
    ensures ItemsConform(items[..n + 1], depth) <==> ItemsConform(items[..n], depth) && Conforms(items[n], depth)
    ensures SumSeq(ItemCounts(items[..n + 1])) == SumSeq(ItemCounts(items[..n])) + ValueItems(items[n])
    ensures SumSeq(ItemVisits(items[..n + 1])) == SumSeq(ItemVisits(items[..n])) + Visits(items[n])
  {
    hide Conforms, ValueItems, Visits;
    assert forall i | 0 <= i < n :: items[..n + 1][i] == items[..n][i];
    assert ItemCounts(items[..n + 1]) == ItemCounts(items[..n]) + [ValueItems(items[n])];
    assert ItemVisits(items[..n + 1]) == ItemVisits(items[..n]) + [Visits(items[n])];
    SumSeqConcat(ItemCounts(items[..n]), [ValueItems(items[n])]);
    SumSeqConcat(ItemVisits(items[..n]), [Visits(items[n])]);
  }

  /** `stack.extend` over a mapping's values, in whatever order the mapping yields them. */
  method ExtendWithEntries(stack: Stack, entries: map<string, Value>, depth: int) returns (pushed: Stack)
    ensures AllConform(pushed) <==> AllConform(stack) && EntriesConform(entries, depth)
    ensures StackItems(pushed) == StackItems(stack) + Sum(EntryCounts(entries))
    ensures StackVisits(pushed) == StackVisits(stack) + Sum(EntryVisits(entries))
  {
    pushed := stack;
    var rest := entries;
    while rest != map[]
      invariant EntriesConform(entries, depth) && AllConform(stack) <==> EntriesConform(rest, depth) && AllConform(pushed)
      invariant StackItems(pushed) + Sum(EntryCounts(rest)) == StackItems(stack) + Sum(EntryCounts(entries))
      invariant StackVisits(pushed) + Sum(EntryVisits(rest)) == StackVisits(stack) + Sum(EntryVisits(entries))
      decreases |rest|
    {
      var key :| key in rest;
      Push(pushed, (rest[key], depth));
      pushed := pushed + [(rest[key], depth)];
      OneLessEntry(rest, key, depth);
      rest := rest - {key};
    }
  }

  lemma OneLessEntry(entries: map<string, Value>, key: string, depth: int)
    requires key in entries
    ensures EntriesConform(entries, depth) <==> EntriesConform(entries - {key}, depth) && Conforms(entries[key], depth)
    ensures Sum(EntryCounts(entries)) == Sum(EntryCounts(entries - {key})) + ValueItems(entries[key])
    ensures Sum(EntryVisits(entries)) == Sum(EntryVisits(entries - {key})) + Visits(entries[key])
  {
    EntriesWithout(entries, key, depth);
    SumSplits(EntryCounts(entries), key);
    SumSplits(EntryVisits(entries), key);
  }

  lemma EntriesWithout(entries: map<string, Value>, key: string, depth: int)
    requires key in entries
    ensures EntriesConform(entries, depth) <==> EntriesConform(entries - {key}, depth) && Conforms(entries[key], depth)
    ensures EntryCounts(entries) - {key} == EntryCounts(entries - {key})
    ensures EntryVisits(entries) - {key} == EntryVisits(entries - {key})
  {
    var rest := entries - {key};
    assert forall k | k in entries && k != key :: k in rest && rest[k] == entries[k];
  }

  /** What visiting one value adds to the stack. */
  lemma VisitList(items: seq<Value>, depth: int)
    ensures Conforms(List(items), depth) <==> depth <= MAX_JSON_DEPTH && ItemsConform(items, depth + 1)
    ensures ValueItems(List(items)) == |items| + SumSeq(ItemCounts(items))
    ensures Visits(List(items)) == 1 + SumSeq(ItemVisits(items))
  {
    assert ItemCounts(items) == seq(|items|, i requires 0 <= i < |items| => ValueItems(items[i]));
    assert ItemVisits(items) == seq(|items|, i requires 0 <= i < |items| => Visits(items[i]));
  }

  lemma VisitMapping(frozen: bool, entries: map<string, Value>, depth: int)
    ensures Conforms(Mapping(frozen, entries, []), depth) <==> depth <= MAX_JSON_DEPTH && EntriesConform(entries, depth + 1)
    ensures ValueItems(Mapping(frozen, entries, [])) == |entries| + Sum(EntryCounts(entries))
    ensures Visits(Mapping(frozen, entries, [])) == 1 + Sum(EntryVisits(entries))
  {
    assert EntryCounts(entries) == map k | k in entries :: ValueItems(entries[k]);
    assert EntryVisits(entries) == map k | k in entries :: Visits(entries[k]);
  }

  /** One turn of the loop for a popped value: reject it, or count it and push what it contains. */
  method Visit(value: Value, depth: int, stack: Stack, seenItems: nat)
    returns (kept: bool, pushed: Stack, counted: nat)
    ensures !kept ==> !Conforms(value, depth)
    ensures kept ==> (AllConform(pushed) <==> AllConform(stack) && Conforms(value, depth))
    ensures kept ==> counted + StackItems(pushed) == seenItems + ValueItems(value) + StackItems(stack)
    ensures kept ==> StackVisits(pushed) < Visits(value) + StackVisits(stack)
  {
    kept, pushed, counted := true, stack, seenItems;
    if depth > MAX_JSON_DEPTH {
      return false, stack, seenItems;
    }
    match value
    case Mapping(_, entries, others) =>
      if others != [] {
        return false, stack, seenItems;
      }
      VisitMapping(value.frozen, entries, depth);
      counted := seenItems + |entries|;
      pushed := ExtendWithEntries(stack, entries, depth + 1);
    case List(items) =>
      VisitList(items, depth);
      counted := seenItems + |items|;
      pushed := ExtendWithItems(stack, items, depth + 1);
    case PyStr(text) => kept := |text| <= MAX_STRING_LENGTH;
    case PyFloat(approx) => kept := approx.Finite?;
    case Tuple(_) => kept := false;
    case Foreign => kept := false;
    case _ =>
  }

  /** `validate_json_shape`: accepts exactly the acceptable values, and always finishes. */
  method ValidateJsonShape(root: Value) returns (accepted: bool)
    ensures accepted <==> Acceptable(root)
  {
    AcceptableMeans(root);
    Push([], (root, 1));
    var stack: Stack := [(root, 1)];
    assert [] + stack == stack;
    var seenItems: nat := 0;
    while stack != []
      invariant Acceptable(root) <==> AllConform(stack) && seenItems + StackItems(stack) <= MAX_CONTAINER_ITEMS
      invariant seenItems <= MAX_CONTAINER_ITEMS
      decreases StackVisits(stack)
    {
      var top, below := stack[|stack| - 1], stack[..|stack| - 1];
      Push(below, top);
      assert below + [top] == stack;
      var kept;
      kept, stack, seenItems := Visit(top.0, top.1, below, seenItems);
      if !kept || seenItems > MAX_CONTAINER_ITEMS {
        return false;
      }
    }
    return true;
  }
}
