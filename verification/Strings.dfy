/** Python string order and the dotted paths built by `split(".")` and `".".join`. */
module Strings {

  /** Code-point lexicographic order, the `<` of Python strings. */
  predicate Less(a: string, b: string)
    decreases |a|
  {
    if b == [] then false
    else if a == [] then true
    else if a[0] != b[0] then a[0] < b[0]
    else Less(a[1..], b[1..])
  }

  lemma {:induction false} LessIsStrict(a: string, b: string)
    ensures !(Less(a, b) && Less(b, a))
    ensures Less(a, b) || Less(b, a) || a == b
    ensures a == b ==> !Less(a, b)
    decreases |a|
  {
    if a != [] && b != [] && a[0] == b[0] {
      LessIsStrict(a[1..], b[1..]);
      assert a == [a[0]] + a[1..] && b == [b[0]] + b[1..];
    }
  }

  lemma {:induction false} LessIsTransitive(a: string, b: string, c: string)
    requires Less(a, b) && Less(b, c)
    ensures Less(a, c)
    decreases |a|
  {
    if a != [] && a[0] == b[0] && b[0] == c[0] {
      LessIsTransitive(a[1..], b[1..], c[1..]);
    }
  }

  /** `path.split(".")`. */
  function Split(path: string): (parts: seq<string>)
    ensures |parts| >= 1
  {
    if path == [] then [[]]
    else
      var rest := Split(path[1..]);
      if path[0] == '.' then [[]] + rest
      else [[path[0]] + rest[0]] + rest[1..]
  }

  /** `".".join(parts)`. */
  function Join(parts: seq<string>): string
  {
    if parts == [] then ""
    else if |parts| == 1 then parts[0]
    else parts[0] + "." + Join(parts[1..])
  }

  predicate Segments(parts: seq<string>)
  {
    forall i | 0 <= i < |parts| :: '.' !in parts[i]
  }

  lemma {:induction false} JoinSplit(path: string)
    ensures Join(Split(path)) == path
    ensures Segments(Split(path))
  {
    if path != [] {
      JoinSplit(path[1..]);
      var rest := Split(path[1..]);
      assert path == [path[0]] + path[1..];
      if path[0] == '.' {
        assert ([[]] + rest)[1..] == rest;
        assert [] + "." + Join(rest) == "." + Join(rest);
      } else {
        assert ([[path[0]] + rest[0]] + rest[1..])[1..] == rest[1..];
      }
    }
  }

  lemma {:induction false} SplitJoin(parts: seq<string>)
    requires parts != [] && Segments(parts)
    ensures Split(Join(parts)) == parts
    decreases |parts|, if parts == [] then 0 else |parts[0]|
  {
    if parts[0] == [] {
      if |parts| > 1 {
        SplitJoin(parts[1..]);
        assert Join(parts) == "." + Join(parts[1..]);
        assert Join(parts)[1..] == Join(parts[1..]);
      }
    } else {
      var shorter := [parts[0][1..]] + parts[1..];
      SplitJoin(shorter);
      assert shorter[1..] == parts[1..];
      assert Join(parts) == [parts[0][0]] + Join(shorter);
      assert Join(parts)[1..] == Join(shorter);
      assert parts[0] == [parts[0][0]] + parts[0][1..];
    }
  }
}
