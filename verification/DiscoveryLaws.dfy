/** Which server answers pin a registry and what is pinned, by the position of each tool in the answers. */
module DiscoveryLaws {
  import opened Wrappers
  import opened JsonValues
  import opened JsonBounds
  import opened CanonicalJson
  import opened Discovery

  // ----- Pages

  predicate Continues(page: Page)
  {
    page.Page? && page.next.Cursor? && 0 < |page.next.text| <= 4096
  }

  /** Page `n` is the last one: the pages before it are well formed and lead on by cursors that never repeat. */
  predicate EndsAt(answers: seq<Page>, n: nat)
  {
    && n < |answers|
    && answers[n].Page? && answers[n].next.NoCursor?
    && (forall i | 0 <= i < n :: Continues(answers[i]))
    && (forall i, j | 0 <= i < j < n :: answers[i].next.text != answers[j].next.text)
  }

  predicate AvoidsSeen(answers: seq<Page>, n: nat, seen: set<string>)
    requires EndsAt(answers, n)
  {
    forall i | 0 <= i < n :: answers[i].next.text !in seen
  }

  function ToolsOf(page: Page): seq<ToolItem>
  {
    if page.Page? then page.tools else []
  }

  function Flat(pages: seq<Page>): seq<ToolItem>
  {
    if pages == [] then [] else ToolsOf(pages[0]) + Flat(pages[1..])
  }

  lemma FlatOfOne(answers: seq<Page>)
    requires answers != []
    ensures Flat(answers[..1]) == ToolsOf(answers[0])
  {
    assert answers[..1][1..] == [];
    assert Flat(answers[..1]) == ToolsOf(answers[0]) + [];
  }

  /** Paging that succeeds stops at the page without a cursor and has the tools of all pages up to it. */
  lemma {:induction false} CollectedEnds(answers: seq<Page>, seen: set<string>) returns (n: nat)
    requires CollectPages(answers, seen).Some?
    ensures EndsAt(answers, n) && AvoidsSeen(answers, n, seen)
    ensures CollectPages(answers, seen).value == Flat(answers[..n + 1])
    decreases |answers|
  {
    if answers[0].next.NoCursor? {
      n := 0;
      FlatOfOne(answers);
    } else {
      var rest := answers[1..];
      var m := CollectedEnds(rest, seen + {answers[0].next.text});
      n := m + 1;
      assert answers[n] == rest[m];
      forall i | 0 <= i < n ensures Continues(answers[i]) && answers[i].next.text !in seen {
        assert i > 0 ==> answers[i] == rest[i - 1];
      }
      forall i, j | 0 <= i < j < n ensures answers[i].next.text != answers[j].next.text {
        assert answers[j] == rest[j - 1];
        assert i > 0 ==> answers[i] == rest[i - 1];
      }
      assert answers[..n + 1][1..] == rest[..m + 1];
    }
  }

  /** Answers that end are all collected. */
  lemma {:induction false} EndingIsCollected(answers: seq<Page>, seen: set<string>, n: nat)
    requires EndsAt(answers, n) && AvoidsSeen(answers, n, seen)
    ensures CollectPages(answers, seen) == Some(Flat(answers[..n + 1]))
    decreases n
  {
    if n == 0 {
      FlatOfOne(answers);
    } else {
      var rest := answers[1..];
      assert Continues(answers[0]);
      assert EndsAt(rest, n - 1) by {
        assert rest[n - 1] == answers[n];
        forall i | 0 <= i < n - 1 ensures Continues(rest[i]) {
          assert rest[i] == answers[i + 1];
        }
      }
      forall i | 0 <= i < n - 1 ensures rest[i].next.text !in seen + {answers[0].next.text} {
        assert rest[i] == answers[i + 1];
      }
      EndingIsCollected(rest, seen + {answers[0].next.text}, n - 1);
      assert answers[..n + 1][1..] == rest[..n];
    }
  }

  // ----- Positions

  /** There is a tool `i` on page `p`. */
  predicate IsAt(pages: seq<Page>, p: int, i: int)
  {
    0 <= p < |pages| && 0 <= i < |ToolsOf(pages[p])|
  }

  function ToolAt(pages: seq<Page>, p: int, i: int): ToolItem
    requires IsAt(pages, p, i)
  {
    ToolsOf(pages[p])[i]
  }

  function Offset(pages: seq<Page>, p: nat): nat
    requires p <= |pages|
  {
    if p == 0 then 0 else |ToolsOf(pages[0])| + Offset(pages[1..], p - 1)
  }

  lemma {:induction false} FlatAt(pages: seq<Page>, p: nat, i: nat)
    requires IsAt(pages, p, i)
    ensures Offset(pages, p) + i < |Flat(pages)| && Flat(pages)[Offset(pages, p) + i] == ToolAt(pages, p, i)
  {
    if p > 0 {
      FlatAt(pages[1..], p - 1, i);
    }
  }

  lemma {:induction false} PositionOf(pages: seq<Page>, k: nat) returns (p: nat, i: nat)
    requires k < |Flat(pages)|
    ensures IsAt(pages, p, i) && Offset(pages, p) + i == k
  {
    if k < |ToolsOf(pages[0])| {
      p, i := 0, k;
    } else {
      p, i := PositionOf(pages[1..], k - |ToolsOf(pages[0])|);
      p := p + 1;
    }
  }

  lemma {:induction false} LaterIsFurther(pages: seq<Page>, p: nat, i: nat, q: nat)
    requires IsAt(pages, p, i) && p < q <= |pages|
    ensures Offset(pages, p) + i < Offset(pages, q)
    decreases p
  {
    if p > 0 {
      LaterIsFurther(pages[1..], p - 1, i, q - 1);
    }
  }

  // ----- Registries

  function NameOf(item: ToolItem): Option<string>
  {
    if item.Tool? then item.name else None
  }

  predicate IsHeldIn(item: ToolItem, m: map<string, Json>)
  {
    Named(item) && item.name.value in m && m[item.name.value] == item.dump
  }

  /** Every tool is in the map, under its name. */
  ghost predicate HoldsAll(pages: seq<Page>, m: map<string, Json>)
  {
    forall p, i | IsAt(pages, p, i) :: IsHeldIn(ToolAt(pages, p, i), m)
  }

  /** Nothing else is in the map. */
  ghost predicate HoldsOnly(pages: seq<Page>, m: map<string, Json>)
  {
    forall name | name in m :: exists p, i :: IsAt(pages, p, i) && NameOf(ToolAt(pages, p, i)) == Some(name)
  }

  /** No two tools have the same name. */
  ghost predicate NamedApart(pages: seq<Page>)
  {
    forall p, i, q, j | IsAt(pages, p, i) && IsAt(pages, q, j) && (p != q || i != j) ::
      NameOf(ToolAt(pages, p, i)) != NameOf(ToolAt(pages, q, j))
  }

  /** Every tool has a name of its own, and the map holds exactly the tools under their names. */
  ghost predicate IsRegistryOf(pages: seq<Page>, m: map<string, Json>)
  {
    HoldsAll(pages, m) && HoldsOnly(pages, m) && NamedApart(pages)
  }

  // The same of the tools in one sequence.

  predicate HeldAll(items: seq<ToolItem>, m: map<string, Json>)
  {
    forall k | 0 <= k < |items| :: IsHeldIn(items[k], m)
  }

  predicate IsNamed(items: seq<ToolItem>, name: string)
  {
    exists k | 0 <= k < |items| :: NameOf(items[k]) == Some(name)
  }

  predicate HeldOnly(items: seq<ToolItem>, m: map<string, Json>)
  {
    forall name | name in m :: IsNamed(items, name)
  }

  predicate Apart(items: seq<ToolItem>)
  {
    forall k, l | 0 <= k < l < |items| :: NameOf(items[k]) != NameOf(items[l])
  }

  lemma AllByPosition(pages: seq<Page>, m: map<string, Json>)
    ensures HoldsAll(pages, m) <==> HeldAll(Flat(pages), m)
  {
    hide IsHeldIn, Flat, Offset;
    var items := Flat(pages);
    if HoldsAll(pages, m) {
      forall k | 0 <= k < |items| ensures IsHeldIn(items[k], m) {
        var p, i := PositionOf(pages, k);
        FlatAt(pages, p, i);
      }
    }
    if HeldAll(items, m) {
      forall p, i | IsAt(pages, p, i) ensures IsHeldIn(ToolAt(pages, p, i), m) {
        FlatAt(pages, p, i);
      }
    }
  }

  lemma OnlyByPosition(pages: seq<Page>, m: map<string, Json>)
    ensures HoldsOnly(pages, m) <==> HeldOnly(Flat(pages), m)
  {
    hide NameOf, Flat, Offset;
    var items := Flat(pages);
    if HoldsOnly(pages, m) {
      forall name | name in m ensures IsNamed(items, name) {
        var p, i :| IsAt(pages, p, i) && NameOf(ToolAt(pages, p, i)) == Some(name);
        FlatAt(pages, p, i);
      }
    }
    if HeldOnly(items, m) {
      forall name | name in m ensures exists p, i :: IsAt(pages, p, i) && NameOf(ToolAt(pages, p, i)) == Some(name) {
        var k :| 0 <= k < |items| && NameOf(items[k]) == Some(name);
        var p, i := PositionOf(pages, k);
        FlatAt(pages, p, i);
      }
    }
  }

  lemma ApartByPosition(pages: seq<Page>)
    ensures NamedApart(pages) <==> Apart(Flat(pages))
  {
    hide NameOf, Flat, Offset, ToolsOf;
    var items := Flat(pages);
    if NamedApart(pages) {
      forall k, l | 0 <= k < l < |items| ensures NameOf(items[k]) != NameOf(items[l]) {
        var p, i := PositionOf(pages, k);
        var q, j := PositionOf(pages, l);
        FlatAt(pages, p, i);
        FlatAt(pages, q, j);
      }
    }
    if Apart(items) {
      forall p, i, q, j | IsAt(pages, p, i) && IsAt(pages, q, j) && (p != q || i != j)
        ensures NameOf(ToolAt(pages, p, i)) != NameOf(ToolAt(pages, q, j))
      {
        FlatAt(pages, p, i);
        FlatAt(pages, q, j);
        if p < q {
          LaterIsFurther(pages, p, i, q);
        } else if q < p {
          LaterIsFurther(pages, q, j, p);
        }
      }
    }
  }

  /** What collecting adds to a map, when every tool has a new name of its own. */
  lemma {:induction false} CollectedContents(payloads: map<string, Json>, items: seq<ToolItem>)
    requires AllNamed(items) && DistinctNames(items) && NamesOutside(items, payloads)
    ensures var m := CollectInto(payloads, items);
            && |m| == |payloads| + |items|
            && (forall name | name in payloads :: name in m && m[name] == payloads[name])
            && HeldAll(items, m)
            && (forall name | name in m :: name in payloads || IsNamed(items, name))
    decreases |items|
  {
    if items != [] {
      var first, rest := items[0], items[1..];
      var larger := payloads[first.name.value := first.dump];
      assert |larger| == |payloads| + 1;
      forall k | 0 <= k < |rest| ensures Named(rest[k]) && rest[k].name.value !in larger {
        assert rest[k] == items[k + 1];
      }
      CollectedContents(larger, rest);
      var m := CollectInto(larger, rest);
      forall k | 0 <= k < |items| ensures IsHeldIn(items[k], m) {
        assert k > 0 ==> items[k] == rest[k - 1];
      }
      forall name | name in m ensures name in payloads || IsNamed(items, name) {
        if name in larger {
          assert name !in payloads ==> NameOf(items[0]) == Some(name);
        } else {
          var k :| 0 <= k < |rest| && NameOf(rest[k]) == Some(name);
          assert items[k + 1] == rest[k];
        }
      }
    }
  }

  /** A map that holds freshly named tools is the one collected from them. */
  lemma CollectedIsHeld(items: seq<ToolItem>, m: map<string, Json>)
    ensures FreshNames(map[], items) && m == CollectInto(map[], items)
            <==> HeldAll(items, m) && HeldOnly(items, m) && Apart(items) && |m| <= MAX_TOOL_CATALOG_TOOLS
  {
    FreshNamesMeans(map[], items);
    if AllNamed(items) && DistinctNames(items) {
      CollectedContents(map[], items);
      if HeldAll(items, m) && HeldOnly(items, m) {
        SameHeld(items, m, CollectInto(map[], items));
      }
    }
  }

  lemma SameHeld(items: seq<ToolItem>, a: map<string, Json>, b: map<string, Json>)
    requires HeldAll(items, a) && HeldOnly(items, a) && HeldAll(items, b) && HeldOnly(items, b)
    ensures a == b
  {
    HeldIsWithin(items, a, b);
    HeldIsWithin(items, b, a);
  }

  lemma HeldIsWithin(items: seq<ToolItem>, a: map<string, Json>, b: map<string, Json>)
    requires HeldAll(items, a) && HeldOnly(items, a) && HeldAll(items, b)
    ensures forall name | name in a :: name in b && a[name] == b[name]
  {
    forall name | name in a ensures name in b && a[name] == b[name] {
      var k :| 0 <= k < |items| && NameOf(items[k]) == Some(name);
      assert IsHeldIn(items[k], a) && IsHeldIn(items[k], b);
    }
  }

  /** What a discovery accepts: the tools of all pages up to the last, when they fit and are the catalog's. */
  ghost predicate Accepts(answers: seq<Page>, n: nat, catalog: set<string>, floatText: real -> string, m: map<string, Json>)
  {
    && EndsAt(answers, n) && IsRegistryOf(answers[..n + 1], m)
    && |m| <= MAX_TOOL_CATALOG_TOOLS && FitsAtOnce(m, floatText) && m.Keys == catalog
  }

  /**
   Discovery pins a registry exactly when the pages end, lead on by new cursors, and name every tool on them
   once; what it pins is every tool of every page up to the last, each under its name, no more than the
   catalog limit, together within the byte and item limits, and named as the reviewed catalog is.
   */
  lemma DiscoveryPinsPages(answers: seq<Page>, catalog: set<string>, floatText: real -> string, m: map<string, Json>)
    ensures Discovered(answers, catalog, floatText) == Some(m)
            <==> exists n :: Accepts(answers, n, catalog, floatText, m)
  {
    hide FitsAtOnce, CollectPages, CollectInto, FreshNames, Flat, HoldsAll, HoldsOnly, NamedApart, HeldAll, HeldOnly, Apart;
    DiscoveryIsExact(answers, catalog, floatText);
    if Discovered(answers, catalog, floatText) == Some(m) {
      var n := CollectedEnds(answers, {});
      PinnedByPosition(answers[..n + 1], m);
      assert Accepts(answers, n, catalog, floatText, m);
    }
    if n :| Accepts(answers, n, catalog, floatText, m) {
      PinnedByPosition(answers[..n + 1], m);
      EndingIsCollected(answers, {}, n);
    }
  }

  lemma PinnedByPosition(pages: seq<Page>, m: map<string, Json>)
    ensures FreshNames(map[], Flat(pages)) && m == CollectInto(map[], Flat(pages))
            <==> IsRegistryOf(pages, m) && |m| <= MAX_TOOL_CATALOG_TOOLS
  {
    hide CollectInto, FreshNames, Flat, HoldsAll, HoldsOnly, NamedApart, HeldAll, HeldOnly, Apart;
    AllByPosition(pages, m);
    OnlyByPosition(pages, m);
    ApartByPosition(pages);
    CollectedIsHeld(Flat(pages), m);
  }
}
