/** The canonical JSON text: sorted keys, no white space, ASCII only; and how its length adds up. */
module CanonicalJson {
  import opened Strings
  import opened JsonValues
  import opened JsonBounds

  const HEX_DIGITS := "0123456789abcdef"

  function HexDigit(n: nat): char
    requires n < 16
  {
    HEX_DIGITS[n]
  }

  /** The escape `\uXXXX` of one UTF-16 unit. */
  function UnitEscape(n: nat): string
    requires n < 0x1_0000
  {
    ['\\', 'u', HexDigit(n / 0x1000), HexDigit(n / 0x100 % 16), HexDigit(n / 0x10 % 16), HexDigit(n % 16)]
  }

  /** One character of a string literal under `ensure_ascii`. */
  function EncodeChar(c: char): string
  {
    var n := c as int;
    if c == '\"' then "\\\""
    else if c == '\\' then "\\\\"
    else if c == '\n' then "\\n"
    else if c == '\r' then "\\r"
    else if c == '\t' then "\\t"
    else if n == 8 then "\\b"
    else if n == 12 then "\\f"
    else if ' ' <= c <= '~' then [c]
    else if n < 0x1_0000 then UnitEscape(n)
    else UnitEscape(0xD800 + (n - 0x1_0000) / 0x400) + UnitEscape(0xDC00 + (n - 0x1_0000) % 0x400)
  }

  function EncodeChars(text: string): string
  {
    if text == [] then [] else EncodeChar(text[0]) + EncodeChars(text[1..])
  }

  function EncodeText(text: string): string
  {
    "\"" + EncodeChars(text) + "\""
  }

  function EncodeNat(n: nat): string
  {
    if n < 10 then [HexDigit(n)] else EncodeNat(n / 10) + [HexDigit(n % 10)]
  }

  function EncodeInt(n: int): string
  {
    if n < 0 then "-" + EncodeNat(-n) else EncodeNat(n)
  }

  function JoinWithCommas(parts: seq<string>): string
  {
    if parts == [] then ""
    else if |parts| == 1 then parts[0]
    else parts[0] + "," + JoinWithCommas(parts[1..])
  }

  /** The members of an object in key order, from the encodings of its values. */
  function Members(encoded: map<string, string>): seq<string>
    decreases |encoded|
  {
    if encoded == map[] then []
    else
      var first := FirstKey(encoded);
      [EncodeText(first) + ":" + encoded[first]] + Members(encoded - {first})
  }

  /** The canonical text of a value; `floatText` is Python's text of a float. */
  function Encode(j: Json, floatText: real -> string): string
  {
    match j
    case Null => "null"
    case Bool(flag) => if flag then "true" else "false"
    case Int(number) => EncodeInt(number)
    case Float(approx) => floatText(approx)
    case Str(text) => EncodeText(text)
    case Arr(items) =>
      "[" + JoinWithCommas(seq(|items|, i requires 0 <= i < |items| => Encode(items[i], floatText))) + "]"
    case Obj(fields) =>
      "{" + JoinWithCommas(Members(map k | k in fields :: Encode(fields[k], floatText))) + "}"
  }

  // ----- Lengths

  function Lengths(parts: seq<string>): seq<nat>
  {
    seq(|parts|, i requires 0 <= i < |parts| => |parts[i]|)
  }

  function Commas(count: nat): nat
  {
    if count == 0 then 0 else count - 1
  }

  lemma {:induction false} JoinedLength(parts: seq<string>)
    ensures |JoinWithCommas(parts)| == SumSeq(Lengths(parts)) + Commas(|parts|)
  {
    if |parts| == 1 {
      assert Lengths(parts)[1..] == [];
    } else if |parts| > 1 {
      JoinedLength(parts[1..]);
      assert Lengths(parts)[1..] == Lengths(parts[1..]);
    }
  }

  /** The length of each member: its key, a colon and its value. */
  function MemberLengths(encoded: map<string, string>): map<string, nat>
  {
    map k | k in encoded :: |EncodeText(k)| + 1 + |encoded[k]|
  }

  lemma MemberLengthsWithout(encoded: map<string, string>, key: string)
    requires key in encoded
    ensures MemberLengths(encoded) - {key} == MemberLengths(encoded - {key})
  {
    var left, right := MemberLengths(encoded) - {key}, MemberLengths(encoded - {key});
    assert left.Keys == right.Keys;
    forall k | k in left ensures left[k] == right[k] {
    }
  }

  lemma LengthsOfMore(part: string, parts: seq<string>)
    ensures SumSeq(Lengths([part] + parts)) == |part| + SumSeq(Lengths(parts))
  {
    assert Lengths([part] + parts)[1..] == Lengths(parts);
  }

  lemma {:induction false} MembersLength(encoded: map<string, string>)
    ensures |Members(encoded)| == |encoded|
    ensures SumSeq(Lengths(Members(encoded))) == Sum(MemberLengths(encoded))
    decreases |encoded|
  {
    if encoded == map[] {
      assert MemberLengths(encoded) == map[];
    } else {
      var first := FirstKey(encoded);
      MembersLength(encoded - {first});
      LengthsOfMore(EncodeText(first) + ":" + encoded[first], Members(encoded - {first}));
      MemberLengthsWithout(encoded, first);
      SumSplits(MemberLengths(encoded), first);
    }
  }

  function Encoded(fields: map<string, Json>, floatText: real -> string): map<string, string>
  {
    map k | k in fields :: Encode(fields[k], floatText)
  }

  lemma ObjectText(fields: map<string, Json>, floatText: real -> string)
    ensures Encode(Obj(fields), floatText) == "{" + JoinWithCommas(Members(Encoded(fields, floatText))) + "}"
  {
    hide Members, JoinWithCommas;
    assert Encoded(fields, floatText) == map k | k in fields :: Encode(fields[k], floatText);
  }

  lemma EncodedCount(fields: map<string, Json>, floatText: real -> string)
    ensures |Encoded(fields, floatText)| == |fields|
  {
    hide Encode;
    var encoded := Encoded(fields, floatText);
    assert encoded.Keys == fields.Keys;
    assert |encoded| == |encoded.Keys| == |fields.Keys| == |fields|;
  }

  /** The length of an object does not depend on the order of its members. */
  lemma ObjectLength(fields: map<string, Json>, floatText: real -> string)
    ensures |Encode(Obj(fields), floatText)| == 2 + Sum(MemberLengths(Encoded(fields, floatText))) + Commas(|fields|)
  {
    hide Encode, Members, JoinWithCommas, Sum, Encoded;
    var encoded := Encoded(fields, floatText);
    ObjectText(fields, floatText);
    EncodedCount(fields, floatText);
    MembersLength(encoded);
    JoinedLength(Members(encoded));
  }

  function MemberLength(key: string, value: Json, floatText: real -> string): nat
  {
    |EncodeText(key)| + 1 + |Encode(value, floatText)|
  }

  lemma LengthsOfExtension(fields: map<string, Json>, key: string, value: Json, floatText: real -> string)
    requires key !in fields
    ensures MemberLengths(Encoded(fields[key := value], floatText))
         == MemberLengths(Encoded(fields, floatText))[key := MemberLength(key, value, floatText)]
  {
    var left := MemberLengths(Encoded(fields[key := value], floatText));
    var right := MemberLengths(Encoded(fields, floatText))[key := MemberLength(key, value, floatText)];
    assert left.Keys == right.Keys;
    forall k | k in left ensures left[k] == right[k] {
    }
  }

  /** A new member adds its text, and a comma unless it is the first. */
  lemma LengthOfExtension(fields: map<string, Json>, key: string, value: Json, floatText: real -> string)
    requires key !in fields
    ensures |Encode(Obj(fields[key := value]), floatText)|
         == |Encode(Obj(fields), floatText)| + (if fields == map[] then 0 else 1) + MemberLength(key, value, floatText)
  {
    ObjectLength(fields, floatText);
    ObjectLength(fields[key := value], floatText);
    LengthsOfExtension(fields, key, value, floatText);
    SumExtends(MemberLengths(Encoded(fields, floatText)), key, MemberLength(key, value, floatText));
    assert |fields[key := value]| == |fields| + 1;
  }

  lemma NoMembersLength(fields: map<string, Json>, floatText: real -> string)
    requires fields == map[]
    ensures |Encode(Obj(fields), floatText)| == 2
  {
    ObjectLength(fields, floatText);
    assert MemberLengths(Encoded(fields, floatText)) == map[];
  }

  predicate PlainText(text: string)
  {
    forall i | 0 <= i < |text| :: ' ' <= text[i] <= '~' && text[i] != '\"' && text[i] != '\\'
  }

  lemma {:induction false} PlainLength(text: string)
    requires PlainText(text)
    ensures |EncodeText(text)| == |text| + 2
  {
    PlainChars(text);
  }

  lemma {:induction false} PlainChars(text: string)
    requires PlainText(text)
    ensures EncodeChars(text) == text
  {
    if text != [] {
      PlainChars(text[1..]);
    }
  }
}
