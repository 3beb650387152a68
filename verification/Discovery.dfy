/** MCP tool discovery: page by page, with byte and item totals kept incrementally. */
module Discovery {
  import opened Wrappers
  import opened JsonValues
  import opened JsonBounds
  import opened CanonicalJson

  const MAX_MCP_CLIENT_DISCOVERY_PAGES := 256
  const MAX_MCP_CLIENT_SNAPSHOT_BYTES := 1_048_576
  const MAX_TOOL_CATALOG_TOOLS := 256
  const EMPTY_REGISTRY_BYTES := 44

  /** An item of a page; a tool's name may be missing or not a string. */
  datatype ToolItem = NotATool | Tool(name: Option<string>, dump: Json)

  datatype Cursor = NoCursor | Cursor(text: string) | InvalidCursor

  datatype Page = InvalidPage | Page(tools: seq<ToolItem>, next: Cursor)

  // ----- Counting container items with a stack

  function StackItems(stack: seq<Json>): nat
  {
    if stack == [] then 0
    else ContainerItems(stack[|stack| - 1]) + StackItems(stack[..|stack| - 1])
  }

  /** One visit for a value and one for everything inside it. */
  function Visits(j: Json): nat
  {
    match j
    case Arr(items) => 1 + SumSeq(seq(|items|, i requires 0 <= i < |items| => Visits(items[i])))
    case Obj(fields) => 1 + Sum(map k | k in fields :: Visits(fields[k]))
    case _ => 1
  }

  function StackVisits(stack: seq<Json>): nat
  {
    if stack == [] then 0
    else Visits(stack[|stack| - 1]) + StackVisits(stack[..|stack| - 1])
  }

  function ItemCounts(items: seq<Json>): seq<nat>
  {
    seq(|items|, i requires 0 <= i < |items| => ContainerItems(items[i]))
  }

  function ItemVisits(items: seq<Json>): seq<nat>
  {
    seq(|items|, i requires 0 <= i < |items| => Visits(items[i]))
  }

  function FieldVisits(fields: map<string, Json>): map<string, nat>
  {
    map k | k in fields :: Visits(fields[k])
  }

  lemma StackOfMore(stack: seq<Json>, item: Json)
    ensures StackItems(stack + [item]) == StackItems(stack) + ContainerItems(item)
    ensures StackVisits(stack + [item]) == StackVisits(stack) + Visits(item)
  {
    assert (stack + [item])[..|stack|] == stack;
  }

  lemma {:induction false} StackOfConcat(stack: seq<Json>, items: seq<Json>)
    ensures StackItems(stack + items) == StackItems(stack) + SumSeq(ItemCounts(items))
    ensures StackVisits(stack + items) == StackVisits(stack) + SumSeq(ItemVisits(items))
    decreases |items|
  {
    if items == [] {
      assert stack + items == stack;
    } else {
      StackOfMore(stack, items[0]);
      StackOfConcat(stack + [items[0]], items[1..]);
      assert stack + [items[0]] + items[1..] == stack + items;
      assert ItemCounts(items)[1..] == ItemCounts(items[1..]);
      assert ItemVisits(items)[1..] == ItemVisits(items[1..]);
    }
  }

  /** The values of an object in whatever order the mapping yields them. */
  method ValuesOf(fields: map<string, Json>) returns (values: seq<Json>)
    ensures SumSeq(ItemCounts(values)) == Sum(FieldCounts(fields))
    ensures SumSeq(ItemVisits(values)) == Sum(FieldVisits(fields))
  {
    values := [];
    var rest := fields;
    while rest != map[]
      invariant SumSeq(ItemCounts(values)) + Sum(FieldCounts(rest)) == Sum(FieldCounts(fields))
      invariant SumSeq(ItemVisits(values)) + Sum(FieldVisits(rest)) == Sum(FieldVisits(fields))
      decreases |rest|
    {
      var key :| key in rest;
      TakeField(rest, key);
      OneMoreValue(values, rest[key]);
      values := values + [rest[key]];
      rest := rest - {key};
    }
  }

  lemma FieldCountsWithout(fields: map<string, Json>, key: string)
    requires key in fields
    ensures FieldCounts(fields) - {key} == FieldCounts(fields - {key})
  {
  }

  lemma FieldVisitsWithout(fields: map<string, Json>, key: string)
    requires key in fields
    ensures FieldVisits(fields) - {key} == FieldVisits(fields - {key})
  {
  }

  lemma TakeField(fields: map<string, Json>, key: string)
    requires key in fields
    ensures Sum(FieldCounts(fields)) == ContainerItems(fields[key]) + Sum(FieldCounts(fields - {key}))
    ensures Sum(FieldVisits(fields)) == Visits(fields[key]) + Sum(FieldVisits(fields - {key}))
  {
    FieldCountsWithout(fields, key);
    FieldVisitsWithout(fields, key);
    SumSplits(FieldCounts(fields), key);
    SumSplits(FieldVisits(fields), key);
  }

  lemma OneMoreValue(values: seq<Json>, value: Json)
    ensures SumSeq(ItemCounts(values + [value])) == SumSeq(ItemCounts(values)) + ContainerItems(value)
    ensures SumSeq(ItemVisits(values + [value])) == SumSeq(ItemVisits(values)) + Visits(value)
  {
    assert ItemCounts(values + [value]) == ItemCounts(values) + [ContainerItems(value)];
    assert ItemVisits(values + [value]) == ItemVisits(values) + [Visits(value)];
    SumSeqConcat(ItemCounts(values), [ContainerItems(value)]);
    SumSeqConcat(ItemVisits(values), [Visits(value)]);
  }

  lemma CountsInside(j: Json)
    ensures j.Arr? ==> ContainerItems(j) == |j.items| + SumSeq(ItemCounts(j.items)) && Visits(j) == 1 + SumSeq(ItemVisits(j.items))
    ensures j.Obj? ==> ContainerItems(j) == |j.fields| + Sum(FieldCounts(j.fields)) && Visits(j) == 1 + Sum(FieldVisits(j.fields))
  {
    if j.Arr? {
      assert ItemVisits(j.items) == seq(|j.items|, i requires 0 <= i < |j.items| => Visits(j.items[i]));
      assert ItemCounts(j.items) == seq(|j.items|, i requires 0 <= i < |j.items| => ContainerItems(j.items[i]));
    }
    if j.Obj? {
      ItemsOfObject(j.fields);
      assert FieldVisits(j.fields) == map k | k in j.fields :: Visits(j.fields[k]);
    }
  }

  /** `_container_items`: the mutable stack counts what the recursive specification counts. */
  method CountContainerItems(value: Json) returns (count: nat)
    ensures count == ContainerItems(value)
  {
    count := 0;
    var stack: seq<Json> := [value];
    StackOfConcat([], [value]);
    assert [] + [value] == stack && ItemCounts(stack) == [ContainerItems(value)];
    assert SumSeq([ContainerItems(value)]) == ContainerItems(value);
    while stack != []
      invariant count + StackItems(stack) == ContainerItems(value)
      decreases StackVisits(stack)
    {
      var item := stack[|stack| - 1];
      stack := stack[..|stack| - 1];
      CountsInside(item);
      if item.Obj? {
        count := count + |item.fields|;
        var values := ValuesOf(item.fields);
        StackOfConcat(stack, values);
        stack := stack + values;
      } else if item.Arr? {
        count := count + |item.items|;
        StackOfConcat(stack, item.items);
        stack := stack + item.items;
      }
    }
  }

  // ----- Counting bytes chunk by chunk

  function Flatten(chunks: seq<string>): string
  {
    if chunks == [] then [] else chunks[0] + Flatten(chunks[1..])
  }

  /** One chunk is itself, and the text of two runs of chunks is their texts one after the other. */
  lemma {:induction false} FlattenJoins(a: seq<string>, b: seq<string>, chunk: string)
    ensures Flatten([chunk]) == chunk && Flatten(a + b) == Flatten(a) + Flatten(b)
    decreases |a|
  {
    assert Flatten([chunk]) == chunk + [];
    if a == [] {
      assert a + b == b;
    } else {
      FlattenJoins(a[1..], b, chunk);
      assert (a + b)[1..] == a[1..] + b;
    }
  }

  /** `_canonical_chunks`: None is the byte limit; the size checked grows with every chunk. */
  method CountChunks(chunks: seq<string>, initialSize: int) returns (r: Option<int>)
    ensures r == WithinLimit(initialSize + |Flatten(chunks)|, chunks == [])
  {
    var size := initialSize;
    for i := 0 to |chunks|
      invariant size + |Flatten(chunks[i..])| == initialSize + |Flatten(chunks)|
      invariant i > 0 ==> size <= MAX_MCP_CLIENT_SNAPSHOT_BYTES
    {
      assert chunks[i..][1..] == chunks[i + 1..];
      size := size + |chunks[i]|;
      if size > MAX_MCP_CLIENT_SNAPSHOT_BYTES {
        return None;
      }
    }
    return Some(size);
  }

  /** The total, unless something was counted and the total passed the byte limit. */
  function WithinLimit(size: int, nothingCounted: bool): Option<int>
  {
    if !nothingCounted && size > MAX_MCP_CLIENT_SNAPSHOT_BYTES then None else Some(size)
  }

  /** What is kept abstract of the encoder: the text of floats and how the text is cut into chunks. */
  datatype Encoder = Encoder(floatText: real -> string, chunks: string -> seq<string>)

  ghost predicate Lawful(encoder: Encoder)
  {
    forall text :: Flatten(encoder.chunks(text)) == text && encoder.chunks(text) != []
  }

  method CountBytes(document: Json, encoder: Encoder, initialSize: int) returns (r: Option<int>)
    requires Lawful(encoder)
    ensures r == WithinLimit(initialSize + |Encode(document, encoder.floatText)|, false)
  {
    var text := Encode(document, encoder.floatText);
    r := CountChunks(encoder.chunks(text), initialSize);
  }

  // ----- The accounting

  datatype Registry = Registry(count: nat, payloads: map<string, Json>, canonicalSize: int, containerItems: int)

  const EMPTY_REGISTRY := Registry(0, map[], EMPTY_REGISTRY_BYTES, 0)

  /** The document that is fingerprinted when discovery ends. */
  function Document(payloads: map<string, Json>): Json
  {
    Obj(map["mcp_client_registry_version" := Int(1), "tools" := Obj(payloads)])
  }

  /** The totals are those of the collected map, as if recomputed from nothing. */
  predicate Accounted(registry: Registry, floatText: real -> string)
  {
    && registry.count == |registry.payloads|
    && registry.canonicalSize == |Encode(Document(registry.payloads), floatText)|
    && registry.containerItems == ContainerItems(Obj(registry.payloads))
  }

  predicate Named(item: ToolItem)
  {
    item.Tool? && item.name.Some?
  }

  /** The one-key object a tool is checked and encoded as. */
  function Entry(item: ToolItem): Json
    requires Named(item)
  {
    Obj(map[item.name.value := item.dump])
  }

  /** Only the new entry is counted: minus its braces, plus a comma after the first. */
  function SizeWith(registry: Registry, entry: Json, floatText: real -> string): int
  {
    registry.canonicalSize - 2 + (if registry.payloads == map[] then 0 else 1) + |Encode(entry, floatText)|
  }

  predicate EntryFits(registry: Registry, entry: Json, floatText: real -> string)
  {
    && ShapeOk(entry)
    && registry.containerItems + ContainerItems(entry) <= MAX_CONTAINER_ITEMS
    && SizeWith(registry, entry, floatText) <= MAX_MCP_CLIENT_SNAPSHOT_BYTES
  }

  function WithEntry(registry: Registry, item: ToolItem, entry: Json, floatText: real -> string): Registry
    requires Named(item)
  {
    Registry(registry.count + 1,
             registry.payloads[item.name.value := item.dump],
             SizeWith(registry, entry, floatText),
             registry.containerItems + ContainerItems(entry))
  }

  function Added(registry: Registry, item: ToolItem, floatText: real -> string): Registry
    requires Named(item)
  {
    WithEntry(registry, item, Entry(item), floatText)
  }

  /** Every check of the loop body, none of which looks inside the tools collected before. */
  predicate CanAdd(registry: Registry, item: ToolItem, floatText: real -> string)
  {
    && registry.count < MAX_TOOL_CATALOG_TOOLS
    && Named(item)
    && item.name.value !in registry.payloads
    && EntryFits(registry, Entry(item), floatText)
  }

  /** The accounting for one tool; None is any of its errors. */
  function AddTool(registry: Registry, item: ToolItem, floatText: real -> string): Option<Registry>
  {
    if CanAdd(registry, item, floatText) then Some(Added(registry, item, floatText)) else None
  }

  function AddTools(registry: Registry, items: seq<ToolItem>, floatText: real -> string): Option<Registry>
    decreases |items|
  {
    if items == [] then Some(registry)
    else if CanAdd(registry, items[0], floatText) then AddTools(Added(registry, items[0], floatText), items[1..], floatText)
    else None
  }

  lemma DocumentMembers(a: string, b: string, x: Json, y: Json, floatText: real -> string)
    requires a != b
    ensures |Encode(Obj(map[a := x, b := y]), floatText)|
         == 3 + MemberLength(a, x, floatText) + MemberLength(b, y, floatText)
  {
    var empty: map<string, Json> := map[];
    NoMembersLength(empty, floatText);
    LengthOfExtension(empty, a, x, floatText);
    LengthOfExtension(empty[a := x], b, y, floatText);
    assert empty[a := x][b := y] == map[a := x, b := y];
  }

  /** The fixed part of the document is as long as the constant that discovery starts from. */
  lemma FixedMembersLength(a: string, b: string, one: Json, payloads: Json, floatText: real -> string)
    requires PlainText(a) && PlainText(b) && a != b && Encode(one, floatText) == "1"
    ensures |Encode(Obj(map[a := one, b := payloads]), floatText)| == |a| + |b| + 10 + |Encode(payloads, floatText)|
  {
    DocumentMembers(a, b, one, payloads, floatText);
    PlainLength(a);
    PlainLength(b);
  }

  lemma DocumentLength(payloads: map<string, Json>, floatText: real -> string)
    ensures |Encode(Document(payloads), floatText)| == |Encode(Obj(payloads), floatText)| + EMPTY_REGISTRY_BYTES - 2
  {
    FixedMembersLength("mcp_client_registry_version", "tools", Int(1), Obj(payloads), floatText);
  }

  lemma EmptyIsAccounted(floatText: real -> string)
    ensures Accounted(EMPTY_REGISTRY, floatText)
  {
    DocumentLength(EMPTY_REGISTRY.payloads, floatText);
    NoMembersLength(EMPTY_REGISTRY.payloads, floatText);
    ItemsOfObject(EMPTY_REGISTRY.payloads);
  }

  lemma EntryMeasures(item: ToolItem, floatText: real -> string)
    requires Named(item)
    ensures |Encode(Entry(item), floatText)| == 2 + MemberLength(item.name.value, item.dump, floatText)
    ensures ContainerItems(Entry(item)) == 1 + ContainerItems(item.dump)
    ensures Bounded(Entry(item), 1) <==> Bounded(item.dump, 2)
  {
    var empty: map<string, Json> := map[];
    NoMembersLength(empty, floatText);
    LengthOfExtension(empty, item.name.value, item.dump, floatText);
    ItemsOfExtension(empty, item.name.value, item.dump);
    ItemsOfObject(empty);
    assert empty[item.name.value := item.dump] == Entry(item).fields;
    assert Entry(item).fields[item.name.value] == item.dump;
  }

  /** Adding a tool keeps the totals exact. */
  lemma AddedIsAccounted(registry: Registry, item: ToolItem, floatText: real -> string)
    requires Accounted(registry, floatText) && Named(item) && item.name.value !in registry.payloads
    ensures Accounted(Added(registry, item, floatText), floatText)
  {
    EntryMeasures(item, floatText);
    DocumentLength(registry.payloads, floatText);
    DocumentLength(registry.payloads[item.name.value := item.dump], floatText);
    LengthOfExtension(registry.payloads, item.name.value, item.dump, floatText);
    ItemsOfExtension(registry.payloads, item.name.value, item.dump);
  }

  /** At every tool the totals are those of everything collected so far. */
  lemma {:induction false} TotalsStayExact(registry: Registry, items: seq<ToolItem>, floatText: real -> string)
    requires Accounted(registry, floatText) && AddTools(registry, items, floatText).Some?
    ensures Accounted(AddTools(registry, items, floatText).value, floatText)
    decreases |items|
  {
    if items != [] {
      AddedIsAccounted(registry, items[0], floatText);
      TotalsStayExact(Added(registry, items[0], floatText), items[1..], floatText);
    }
  }

  // ----- Streaming against one-shot checking

  /** The whole registry passes the shape check and its one-shot encoding fits the byte limit. */
  predicate FitsAtOnce(payloads: map<string, Json>, floatText: real -> string)
  {
    ShapeOk(Obj(payloads)) && |Encode(Document(payloads), floatText)| <= MAX_MCP_CLIENT_SNAPSHOT_BYTES
  }

  /** The map collected from the tools. */
  function CollectInto(payloads: map<string, Json>, items: seq<ToolItem>): map<string, Json>
    decreases |items|
  {
    if items == [] then payloads
    else if Named(items[0]) then CollectInto(payloads[items[0].name.value := items[0].dump], items[1..])
    else CollectInto(payloads, items[1..])
  }

  /** Each name is new when its turn comes, and the catalog limit is not passed. */
  predicate FreshNames(payloads: map<string, Json>, items: seq<ToolItem>)
    decreases |items|
  {
    items == []
    || (&& |payloads| < MAX_TOOL_CATALOG_TOOLS
        && Named(items[0])
        && items[0].name.value !in payloads
        && FreshNames(payloads[items[0].name.value := items[0].dump], items[1..]))
  }

  predicate AllNamed(items: seq<ToolItem>)
  {
    forall i | 0 <= i < |items| :: Named(items[i])
  }

  predicate DistinctNames(items: seq<ToolItem>)
    requires AllNamed(items)
  {
    forall i, j | 0 <= i < j < |items| :: items[i].name.value != items[j].name.value
  }

  predicate NamesOutside(items: seq<ToolItem>, payloads: map<string, Json>)
    requires AllNamed(items)
  {
    forall i | 0 <= i < |items| :: items[i].name.value !in payloads
  }

  lemma {:induction false} FreshNamesMeans(payloads: map<string, Json>, items: seq<ToolItem>)
    requires |payloads| <= MAX_TOOL_CATALOG_TOOLS
    ensures FreshNames(payloads, items) <==>
              && |payloads| + |items| <= MAX_TOOL_CATALOG_TOOLS
              && AllNamed(items) && DistinctNames(items) && NamesOutside(items, payloads)
    decreases |items|
  {
    if items != [] {
      var first, rest := items[0], items[1..];
      assert AllNamed(items) <==> Named(first) && AllNamed(rest) by {
        assert forall i | 1 <= i < |items| :: items[i] == rest[i - 1];
      }
      if AllNamed(items) && first.name.value !in payloads && |payloads| < MAX_TOOL_CATALOG_TOOLS {
        var larger := payloads[first.name.value := first.dump];
        assert |larger| == |payloads| + 1;
        FreshNamesMeans(larger, rest);
        NamesOfMore(items, payloads);
      }
      if AllNamed(items) && first.name.value in payloads {
        assert !NamesOutside(items, payloads);
      }
      if FreshNames(payloads, items) {
        FreshAreNamed(payloads, items);
      }
    }
  }

  lemma {:induction false} FreshAreNamed(payloads: map<string, Json>, items: seq<ToolItem>)
    requires FreshNames(payloads, items)
    ensures AllNamed(items)
    decreases |items|
  {
    if items != [] {
      FreshAreNamed(payloads[items[0].name.value := items[0].dump], items[1..]);
      assert forall i | 1 <= i < |items| :: items[i] == items[1..][i - 1];
    }
  }

  lemma NamesOfMore(items: seq<ToolItem>, payloads: map<string, Json>)
    requires items != [] && AllNamed(items) && AllNamed(items[1..]) && items[0].name.value !in payloads
    ensures DistinctNames(items) && NamesOutside(items, payloads) <==>
              DistinctNames(items[1..]) && NamesOutside(items[1..], payloads[items[0].name.value := items[0].dump])
  {
    var rest, larger := items[1..], payloads[items[0].name.value := items[0].dump];
    if DistinctNames(items) && NamesOutside(items, payloads) {
      forall i | 0 <= i < |rest| ensures rest[i].name.value !in larger {
        assert rest[i] == items[i + 1];
      }
      forall i, j | 0 <= i < j < |rest| ensures rest[i].name.value != rest[j].name.value {
        assert rest[i] == items[i + 1] && rest[j] == items[j + 1];
      }
    }
    if DistinctNames(rest) && NamesOutside(rest, larger) {
      forall i | 0 < i < |items| ensures items[i].name.value !in larger {
        assert rest[i - 1] == items[i];
      }
      forall i, j | 0 <= i < j < |items| ensures items[i].name.value != items[j].name.value {
        assert items[j].name.value !in larger;
        if i > 0 {
          assert rest[i - 1] == items[i] && rest[j - 1] == items[j];
        }
      }
    }
  }

  lemma BoundedOfExtension(payloads: map<string, Json>, name: string, dump: Json)
    requires name !in payloads
    ensures Bounded(Obj(payloads[name := dump]), 1) <==> Bounded(Obj(payloads), 1) && Bounded(dump, 2)
  {
    var larger := payloads[name := dump];
    assert forall k | k in payloads :: k in larger && larger[k] == payloads[k];
    assert name in larger && larger[name] == dump;
  }

  /** One tool is accepted exactly when the registry with it fits, if the registry without it does. */
  lemma CanAddIsExact(registry: Registry, item: ToolItem, floatText: real -> string)
    requires Accounted(registry, floatText) && Named(item) && item.name.value !in registry.payloads
    ensures FitsAtOnce(registry.payloads[item.name.value := item.dump], floatText) ==> FitsAtOnce(registry.payloads, floatText)
    ensures registry.count < MAX_TOOL_CATALOG_TOOLS && FitsAtOnce(registry.payloads, floatText) ==>
              (CanAdd(registry, item, floatText) <==> FitsAtOnce(registry.payloads[item.name.value := item.dump], floatText))
  {
    hide Encode, ContainerItems, Bounded, Document;
    AddedIsAccounted(registry, item, floatText);
    EntryMeasures(item, floatText);
    BoundedOfExtension(registry.payloads, item.name.value, item.dump);
    ItemsOfExtension(registry.payloads, item.name.value, item.dump);
  }

  /** Only a registry that fits can grow into one that fits. */
  lemma {:induction false} SmallerFits(registry: Registry, items: seq<ToolItem>, floatText: real -> string)
    requires Accounted(registry, floatText) && FreshNames(registry.payloads, items)
    requires FitsAtOnce(CollectInto(registry.payloads, items), floatText)
    ensures FitsAtOnce(registry.payloads, floatText)
    decreases |items|
  {
    if items != [] {
      AddedIsAccounted(registry, items[0], floatText);
      SmallerFits(Added(registry, items[0], floatText), items[1..], floatText);
      CanAddIsExact(registry, items[0], floatText);
    }
  }

  /**
   Streaming accepts exactly the freshly named tools whose whole registry passes the one-shot checks,
   and then holds exactly the collected map.
   */
  lemma {:induction false} StreamingIsExact(registry: Registry, items: seq<ToolItem>, floatText: real -> string)
    requires Accounted(registry, floatText) && FitsAtOnce(registry.payloads, floatText)
    ensures AddTools(registry, items, floatText).Some?
       <==> FreshNames(registry.payloads, items) && FitsAtOnce(CollectInto(registry.payloads, items), floatText)
    ensures AddTools(registry, items, floatText).Some? ==>
              AddTools(registry, items, floatText).value.payloads == CollectInto(registry.payloads, items)
    decreases |items|
  {
    if items != [] && Named(items[0]) && items[0].name.value !in registry.payloads && registry.count < MAX_TOOL_CATALOG_TOOLS {
      var next := Added(registry, items[0], floatText);
      AddedIsAccounted(registry, items[0], floatText);
      CanAddIsExact(registry, items[0], floatText);
      if CanAdd(registry, items[0], floatText) {
        StreamingIsExact(next, items[1..], floatText);
      } else if FreshNames(next.payloads, items[1..]) && FitsAtOnce(CollectInto(next.payloads, items[1..]), floatText) {
        SmallerFits(next, items[1..], floatText);
      }
    }
  }

  /** What holds of the running totals between two pages. */
  predicate Sound(registry: Registry, floatText: real -> string)
  {
    Accounted(registry, floatText) && FitsAtOnce(registry.payloads, floatText)
  }

  lemma EmptyIsSound(floatText: real -> string)
    ensures Sound(EMPTY_REGISTRY, floatText)
  {
    EmptyIsAccounted(floatText);
  }

  lemma {:induction false} SoundStaysSound(registry: Registry, items: seq<ToolItem>, floatText: real -> string)
    requires Sound(registry, floatText) && AddTools(registry, items, floatText).Some?
    ensures Sound(AddTools(registry, items, floatText).value, floatText)
  {
    TotalsStayExact(registry, items, floatText);
    StreamingIsExact(registry, items, floatText);
  }

  // ----- Paging

  /** The tools of all the answers that are asked for; None is a malformed page, a bad cursor or too many pages. */
  function CollectPages(answers: seq<Page>, seen: set<string>): Option<seq<ToolItem>>
    decreases |answers|
  {
    if answers == [] || answers[0].InvalidPage? then None
    else if answers[0].next.NoCursor? then Some(answers[0].tools)
    else if answers[0].next.InvalidCursor? || !NewCursor(answers[0].next.text, seen) then None
    else Before(answers[0].tools, CollectPages(answers[1..], seen + {answers[0].next.text}))
  }

  predicate NewCursor(text: string, seen: set<string>)
  {
    0 < |text| <= 4096 && text !in seen
  }

  function Before(tools: seq<ToolItem>, rest: Option<seq<ToolItem>>): Option<seq<ToolItem>>
  {
    if rest.None? then None else Some(tools + rest.value)
  }

  /** The registry after the remaining pages. */
  function Resume(registry: Registry, pages: Option<seq<ToolItem>>, floatText: real -> string): Option<Registry>
  {
    if pages.None? then None else AddTools(registry, pages.value, floatText)
  }

  /** What discovery yields: the collected registry, when every check passed. */
  function Pinned(registry: Option<Registry>, catalog: set<string>): Option<map<string, Json>>
  {
    if registry.Some? && registry.value.payloads.Keys == catalog then Some(registry.value.payloads) else None
  }

  function Discovered(answers: seq<Page>, catalog: set<string>, floatText: real -> string): Option<map<string, Json>>
  {
    Pinned(Resume(EMPTY_REGISTRY, CollectPages(answers, {}), floatText), catalog)
  }

  lemma {:induction false} AddToolsOfConcat(registry: Registry, a: seq<ToolItem>, b: seq<ToolItem>,
                                            floatText: real -> string)
    ensures AddTools(registry, a + b, floatText) == ResumeWith(AddTools(registry, a, floatText), b, floatText)
    decreases |a|
  {
    if a == [] {
      assert a + b == b;
    } else {
      assert (a + b)[0] == a[0] && (a + b)[1..] == a[1..] + b;
      if CanAdd(registry, a[0], floatText) {
        AddToolsOfConcat(Added(registry, a[0], floatText), a[1..], b, floatText);
      }
    }
  }

  function ResumeWith(registry: Option<Registry>, items: seq<ToolItem>, floatText: real -> string): Option<Registry>
  {
    if registry.None? then None else AddTools(registry.value, items, floatText)
  }

  /** A page's tools come first: adding them and then the rest is adding them all; if they fail, all fails. */
  lemma ResumeAfterPage(registry: Registry, tools: seq<ToolItem>, rest: Option<seq<ToolItem>>,
                        floatText: real -> string)
    ensures AddTools(registry, tools, floatText).Some? ==>
              Resume(registry, Before(tools, rest), floatText)
              == Resume(AddTools(registry, tools, floatText).value, rest, floatText)
    ensures AddTools(registry, tools, floatText).None? ==> Resume(registry, Before(tools, rest), floatText).None?
  {
    if rest.Some? {
      AddToolsOfConcat(registry, tools, rest.value, floatText);
    }
  }

  /** The shape check and the two running totals for one entry. */
  method AddEntry(registry: Registry, item: ToolItem, entry: Json, encoder: Encoder) returns (r: Option<Registry>)
    requires Lawful(encoder) && Named(item)
    ensures r == if EntryFits(registry, entry, encoder.floatText)
                 then Some(WithEntry(registry, item, entry, encoder.floatText)) else None
  {
    hide ShapeOk, ContainerItems, Encode;
    if !ShapeOk(entry) {
      return None;
    }
    var counted := CountContainerItems(entry);
    var containerItems := registry.containerItems + counted;
    if containerItems > MAX_CONTAINER_ITEMS {
      return None;
    }
    var start := registry.canonicalSize - 2 + if registry.payloads == map[] then 0 else 1;
    var size := CountBytes(entry, encoder, start);
    if size.None? {
      return None;
    }
    return Some(Registry(registry.count + 1, registry.payloads[item.name.value := item.dump], size.value, containerItems));
  }

  /** The body of the loop over one page's tools. */
  method AddOneTool(registry: Registry, item: ToolItem, encoder: Encoder) returns (r: Option<Registry>)
    requires Lawful(encoder)
    ensures r == AddTool(registry, item, encoder.floatText)
  {
    if registry.count >= MAX_TOOL_CATALOG_TOOLS {
      return None;
    }
    if !Named(item) || item.name.value in registry.payloads {
      return None;
    }
    r := AddEntry(registry, item, Entry(item), encoder);
  }

  /** The inner loop over the tools of one page. */
  method AddPage(registry: Registry, items: seq<ToolItem>, encoder: Encoder) returns (r: Option<Registry>)
    requires Lawful(encoder)
    ensures r == AddTools(registry, items, encoder.floatText)
  {
    var current := registry;
    for i := 0 to |items|
      invariant AddTools(registry, items, encoder.floatText) == AddTools(current, items[i..], encoder.floatText)
    {
      assert items[i..][0] == items[i] && items[i..][1..] == items[i + 1..];
      var next := AddOneTool(current, items[i], encoder);
      if next.None? {
        return None;
      }
      current := next.value;
    }
    return Some(current);
  }

  /** `_digest`, called only where its byte limit cannot be met any more: how many bytes are hashed. */
  method Digest(document: Json, encoder: Encoder) returns (size: int)
    requires Lawful(encoder) && |Encode(document, encoder.floatText)| <= MAX_MCP_CLIENT_SNAPSHOT_BYTES
    ensures size == |Encode(document, encoder.floatText)|
  {
    var counted := CountBytes(document, encoder, 0);
    size := counted.value;
  }

  /** The loop over the pages of `_discover`. */
  method ReadPages(registry: Registry, answers: seq<Page>, encoder: Encoder) returns (r: Option<Registry>)
    requires Lawful(encoder) && Sound(registry, encoder.floatText)
    ensures r == Resume(registry, CollectPages(answers, {}), encoder.floatText)
    ensures r.Some? ==> Sound(r.value, encoder.floatText)
  {
    var current := registry;
    var seen: set<string> := {};
    ghost var all := Resume(registry, CollectPages(answers, seen), encoder.floatText);
    for k := 0 to |answers|
      invariant Sound(current, encoder.floatText)
      invariant all == Resume(current, CollectPages(answers[k..], seen), encoder.floatText)
    {
      var page := answers[k];
      assert answers[k..][0] == page && answers[k..][1..] == answers[k + 1..];
      if page.InvalidPage? {
        return None;
      }
      var added := AddPage(current, page.tools, encoder);
      ghost var next := if page.next.Cursor? then seen + {page.next.text} else seen;
      ResumeAfterPage(current, page.tools, CollectPages(answers[k + 1..], next), encoder.floatText);
      if added.None? {
        return None;
      }
      SoundStaysSound(current, page.tools, encoder.floatText);
      current := added.value;
      if page.next.NoCursor? {
        return Some(current);
      }
      if page.next.InvalidCursor? || !NewCursor(page.next.text, seen) {
        return None;
      }
      seen := seen + {page.next.text};
    }
    return None;
  }

  /**
   `_discover`: the pages, then the catalog check and the closing digest. `answers` are the server's
   answers to the requests that the page limit allows.
   */
  method Discover(answers: seq<Page>, catalog: set<string>, encoder: Encoder) returns (r: Option<map<string, Json>>)
    requires Lawful(encoder) && |answers| == MAX_MCP_CLIENT_DISCOVERY_PAGES
    ensures r == Discovered(answers, catalog, encoder.floatText)
  {
    EmptyIsSound(encoder.floatText);
    var registry := ReadPages(EMPTY_REGISTRY, answers, encoder);
    if registry.None? || registry.value.payloads.Keys != catalog {
      return None;
    }
    var digested := Digest(Document(registry.value.payloads), encoder);
    assert digested == registry.value.canonicalSize;
    return Some(registry.value.payloads);
  }

  /** The one-shot specification: collect everything first, then check names, shape, bytes and catalog. */
  function ExpectedRegistry(pages: Option<seq<ToolItem>>, catalog: set<string>,
                            floatText: real -> string): Option<map<string, Json>>
  {
    if pages.Some? && FreshNames(map[], pages.value) && FitsAtOnce(CollectInto(map[], pages.value), floatText)
       && CollectInto(map[], pages.value).Keys == catalog
    then Some(CollectInto(map[], pages.value))
    else None
  }

  /** Discovery yields exactly the complete, freshly named registries that match the catalog and fit when checked at once. */
  lemma DiscoveryIsExact(answers: seq<Page>, catalog: set<string>, floatText: real -> string)
    ensures Discovered(answers, catalog, floatText) == ExpectedRegistry(CollectPages(answers, {}), catalog, floatText)
  {
    EmptyIsAccounted(floatText);
    if CollectPages(answers, {}).Some? {
      StreamingIsExact(EMPTY_REGISTRY, CollectPages(answers, {}).value, floatText);
    }
  }
}
