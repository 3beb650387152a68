/** Objects built by placing values at paths that do not lead through one another. */
module Placement {
  import opened Wrappers
  import opened JsonValues

  datatype Placed = Placed(path: seq<string>, value: Json)

  /** The object with every value at its path and nothing else but the objects on the way. */
  function PlaceAll(plan: seq<Placed>): Json
  {
    if plan == [] then Obj(map[]) else SetPath(PlaceAll(plan[1..]), plan[0].path, plan[0].value)
  }

  predicate Apart(plan: seq<Placed>)
  {
    forall i, j | 0 <= i < j < |plan| :: Independent(plan[i].path, plan[j].path)
  }

  lemma PrefixesCompare(p: seq<string>, q: seq<string>, path: seq<string>)
    requires p <= path && q <= path
    ensures p <= q || q <= p
  {
    assert p == path[..|p|] && q == path[..|q|];
  }

  lemma IndependentBelow(p: seq<string>, q: seq<string>, below: seq<string>)
    requires Independent(p, q)
    ensures Independent(p, q + below)
  {
    assert q <= q + below;
    if p <= q + below {
      PrefixesCompare(p, q, q + below);
    }
  }

  lemma {:induction false} PlacedIsFound(plan: seq<Placed>, i: nat, below: seq<string>)
    requires Apart(plan) && i < |plan|
    ensures Lookup(PlaceAll(plan), plan[i].path + below) == Lookup(plan[i].value, below)
  {
    var rest := PlaceAll(plan[1..]);
    if i == 0 {
      LookupAfterSet(rest, plan[0].path, plan[0].value, below);
    } else {
      assert forall k | 0 <= k < |plan[1..]| :: plan[1..][k] == plan[k + 1];
      PlacedIsFound(plan[1..], i - 1, below);
      IndependentBelow(plan[0].path, plan[i].path, below);
      LookupBesideSet(rest, plan[0].path, plan[0].value, plan[i].path + below);
    }
  }

  lemma {:induction false} NothingBeside(plan: seq<Placed>, path: seq<string>)
    requires path != [] && forall i | 0 <= i < |plan| :: Independent(plan[i].path, path)
    ensures Lookup(PlaceAll(plan), path).None?
  {
    if plan != [] {
      assert forall k | 0 <= k < |plan[1..]| :: plan[1..][k] == plan[k + 1];
      NothingBeside(plan[1..], path);
      LookupBesideSet(PlaceAll(plan[1..]), plan[0].path, plan[0].value, path);
    }
  }

  lemma PlaceAllIsObject(plan: seq<Placed>)
    requires forall i | 0 <= i < |plan| :: plan[i].path != []
    ensures PlaceAll(plan).Obj?
  {
  }

  /** Looking up a longer path goes on from what is found at its beginning. */
  lemma {:induction false} LookupGoesOn(value: Json, above: seq<string>, below: seq<string>)
    ensures Lookup(value, above).None? ==> Lookup(value, above + below).None?
    ensures Lookup(value, above).Some? ==> Lookup(value, above + below) == Lookup(Lookup(value, above).value, below)
    decreases |above|
  {
    if above == [] {
      assert above + below == below;
    } else {
      assert (above + below)[1..] == above[1..] + below;
      if value.Obj? && above[0] in value.fields {
        LookupGoesOn(value.fields[above[0]], above[1..], below);
      }
    }
  }

  /** Every prefix of a path splits it. */
  lemma PrefixSplits(above: seq<string>, path: seq<string>)
    requires above <= path
    ensures path == above + path[|above|..]
  {
  }
}
