/** The canonical text determines the value: no two values without floats have one text, even within a longer text. */
module CanonicalInjective {
  import opened Strings
  import opened JsonValues
  import opened JsonBounds
  import opened CanonicalJson

  predicate NoFloats(j: Json)
  {
    match j
    case Float(_) => false
    case Arr(items) => forall i | 0 <= i < |items| :: NoFloats(items[i])
    case Obj(fields) => forall k | k in fields :: NoFloats(fields[k])
    case _ => true
  }

  // ----- Characters and strings

  lemma HexDigitIsInjective(m: nat, n: nat)
    requires m < 16 && n < 16 && HexDigit(m) == HexDigit(n)
    ensures m == n
  {
    assert HEX_DIGITS == ['0', '1', '2', '3', '4', '5', '6', '7', '8', '9', 'a', 'b', 'c', 'd', 'e', 'f'];
  }

  lemma HexDigitsAddUp(n: nat)
    ensures n == n / 0x1000 * 0x1000 + n / 0x100 % 16 * 0x100 + n / 0x10 % 16 * 0x10 + n % 16
  {
    assert n / 0x100 / 16 == n / 0x1000;
    assert n / 0x10 / 16 == n / 0x100;
  }

  lemma UnitEscapeIsInjective(m: nat, n: nat)
    requires m < 0x1_0000 && n < 0x1_0000 && UnitEscape(m) == UnitEscape(n)
    ensures m == n
  {
    hide HexDigit;
    var a, b := UnitEscape(m), UnitEscape(n);
    assert a[2] == b[2] && a[3] == b[3] && a[4] == b[4] && a[5] == b[5];
    HexDigitIsInjective(m / 0x1000, n / 0x1000);
    HexDigitIsInjective(m / 0x100 % 16, n / 0x100 % 16);
    HexDigitIsInjective(m / 0x10 % 16, n / 0x10 % 16);
    HexDigitIsInjective(m % 16, n % 16);
    HexDigitsAddUp(m);
    HexDigitsAddUp(n);
  }

  /** The UTF-16 units of a character. */
  function Units(c: char): (units: seq<nat>)
    ensures |units| in {1, 2} && forall i | 0 <= i < |units| :: units[i] < 0x1_0000
    ensures |units| == 2 <==> 0xD800 <= units[0] < 0xE000
  {
    var n := c as int;
    if n < 0x1_0000 then [n] else [0xD800 + (n - 0x1_0000) / 0x400, 0xDC00 + (n - 0x1_0000) % 0x400]
  }

  /** Neither printable nor covered by a short escape. */
  predicate IsNumbered(c: char)
  {
    !(' ' <= c <= '~') && c !in {'\n', '\r', '\t'} && c as int != 8 && c as int != 12
  }

  lemma UnitsAreInjective(c: char, d: char)
    requires Units(c) == Units(d)
    ensures c == d
  {
    if |Units(c)| == 2 {
      assert Units(c)[0] == Units(d)[0] && Units(c)[1] == Units(d)[1];
    } else {
      assert Units(c)[0] == Units(d)[0];
    }
  }

  function NumberedText(units: seq<nat>): string
    requires |units| in {1, 2} && forall i | 0 <= i < |units| :: units[i] < 0x1_0000
  {
    UnitEscape(units[0]) + if |units| == 2 then UnitEscape(units[1]) else []
  }

  lemma NumberedForm(c: char)
    requires IsNumbered(c)
    ensures EncodeChar(c) == NumberedText(Units(c))
  {
    hide UnitEscape;
    var n := c as int;
    if n < 0x1_0000 {
      assert UnitEscape(n) + [] == UnitEscape(n);
    }
  }

  lemma UnnumberedForm(c: char)
    requires !IsNumbered(c)
    ensures EncodeChar(c) == [c] || (|EncodeChar(c)| == 2 && EncodeChar(c)[0] == '\\' && EncodeChar(c)[1] != 'u')
    ensures EncodeChar(c) == [c] ==> c != '\"' && c != '\\'
  {
    hide UnitEscape;
  }

  /** How a character is written: as itself, as a backslash and a letter, or by its numbers. */
  lemma CharForms(c: char)
    ensures EncodeChar(c) != [] && EncodeChar(c)[0] != '\"'
    ensures IsNumbered(c) ==> EncodeChar(c) == NumberedText(Units(c))
    ensures !IsNumbered(c) ==> EncodeChar(c) == [c] || (|EncodeChar(c)| == 2 && EncodeChar(c)[1] != 'u')
    ensures EncodeChar(c)[0] == '\\' <==> EncodeChar(c) != [c]
  {
    hide EncodeChar;
    if IsNumbered(c) {
      NumberedForm(c);
    } else {
      UnnumberedForm(c);
    }
  }

  lemma ShortEscapesDiffer(c: char, d: char)
    requires !IsNumbered(c) && !IsNumbered(d) && EncodeChar(c) == EncodeChar(d)
    ensures c == d
  {
  }

  lemma NumberedPrefixFree(m: seq<nat>, n: seq<nat>, x: string, y: string)
    requires |m| in {1, 2} && (forall i | 0 <= i < |m| :: m[i] < 0x1_0000) && (|m| == 2 <==> 0xD800 <= m[0] < 0xE000)
    requires |n| in {1, 2} && (forall i | 0 <= i < |n| :: n[i] < 0x1_0000) && (|n| == 2 <==> 0xD800 <= n[0] < 0xE000)
    requires NumberedText(m) + x == NumberedText(n) + y
    ensures m == n && x == y
  {
    var a, b := NumberedText(m) + x, NumberedText(n) + y;
    hide HexDigit;
    assert a[..6] == UnitEscape(m[0]) && b[..6] == UnitEscape(n[0]);
    UnitEscapeIsInjective(m[0], n[0]);
    if |m| == 2 {
      assert a[6..12] == UnitEscape(m[1]) && b[6..12] == UnitEscape(n[1]);
      UnitEscapeIsInjective(m[1], n[1]);
    }
    assert x == a[|NumberedText(m)|..] && y == b[|NumberedText(n)|..];
  }

  /** Encoded characters can be read off one by one. */
  lemma CharPrefixFree(c: char, d: char, x: string, y: string)
    requires EncodeChar(c) + x == EncodeChar(d) + y
    ensures c == d && x == y
  {
    hide EncodeChar, UnitEscape;
    CharForms(c);
    CharForms(d);
    var a, b := EncodeChar(c) + x, EncodeChar(d) + y;
    assert a[0] == EncodeChar(c)[0] && b[0] == EncodeChar(d)[0];
    assert x == a[|EncodeChar(c)|..] && y == b[|EncodeChar(d)|..];
    if a[0] == '\\' {
      SecondChar(c);
      SecondChar(d);
      assert a[1] == EncodeChar(c)[1] && b[1] == EncodeChar(d)[1];
      if IsNumbered(c) {
        NumberedPrefixFree(Units(c), Units(d), x, y);
        UnitsAreInjective(c, d);
      } else {
        assert EncodeChar(c) == a[..2] == b[..2] == EncodeChar(d);
        ShortEscapesDiffer(c, d);
      }
    }
  }

  lemma SecondChar(c: char)
    ensures EncodeChar(c)[0] == '\\' ==> |EncodeChar(c)| >= 2 && (EncodeChar(c)[1] == 'u' <==> IsNumbered(c))
  {
    CharForms(c);
  }

  /** An encoded text ends at its first bare quote. */
  lemma {:induction false} CharsPrefixFree(a: string, b: string, x: string, y: string)
    requires x != [] && x[0] == '\"' && y != [] && y[0] == '\"'
    requires EncodeChars(a) + x == EncodeChars(b) + y
    ensures a == b && x == y
    decreases |a|
  {
    hide EncodeChar;
    if a != [] {
      CharForms(a[0]);
      assert EncodeChars(a) + x == EncodeChar(a[0]) + (EncodeChars(a[1..]) + x);
    }
    if b != [] {
      CharForms(b[0]);
      assert EncodeChars(b) + y == EncodeChar(b[0]) + (EncodeChars(b[1..]) + y);
    }
    if a == [] {
      assert EncodeChars(a) + x == x;
    }
    if b == [] {
      assert EncodeChars(b) + y == y;
    }
    if a != [] && b != [] {
      CharPrefixFree(a[0], b[0], EncodeChars(a[1..]) + x, EncodeChars(b[1..]) + y);
      CharsPrefixFree(a[1..], b[1..], x, y);
      assert a == [a[0]] + a[1..] && b == [b[0]] + b[1..];
    }
  }

  lemma QuotedText(text: string, x: string)
    ensures EncodeText(text) + x == ['\"'] + (EncodeChars(text) + (['\"'] + x))
  {
    hide EncodeChars;
  }

  lemma TextPrefixFree(a: string, b: string, x: string, y: string)
    requires EncodeText(a) + x == EncodeText(b) + y
    ensures a == b && x == y
  {
    hide EncodeText, EncodeChars;
    QuotedText(a, x);
    QuotedText(b, y);
    DropFirst('\"', EncodeChars(a) + (['\"'] + x), EncodeChars(b) + (['\"'] + y));
    CharsPrefixFree(a, b, ['\"'] + x, ['\"'] + y);
    DropFirst('\"', x, y);
  }

  lemma DropFirst(c: char, x: string, y: string)
    requires [c] + x == [c] + y
    ensures x == y
  {
    assert x == ([c] + x)[1..] && y == ([c] + y)[1..];
  }

  // ----- Numbers

  predicate IsDigit(c: char)
  {
    '0' <= c <= '9'
  }

  predicate AllDigits(text: string)
  {
    forall i | 0 <= i < |text| :: IsDigit(text[i])
  }

  /** What may follow a value: nothing, or a character that does not continue a number. */
  predicate Stops(x: string)
  {
    x != [] ==> !IsDigit(x[0])
  }

  lemma {:induction false} NatIsDigits(n: nat)
    ensures EncodeNat(n) != [] && AllDigits(EncodeNat(n))
  {
    DigitOf(n % 10);
    if n >= 10 {
      NatIsDigits(n / 10);
    }
  }

  lemma DigitOf(n: nat)
    requires n < 10
    ensures HexDigit(n) == (n + 48) as char && IsDigit(HexDigit(n))
  {
    assert HEX_DIGITS[..10] == ['0', '1', '2', '3', '4', '5', '6', '7', '8', '9'];
    assert HexDigit(n) == HEX_DIGITS[..10][n];
  }

  lemma {:induction false} NatIsInjective(m: nat, n: nat)
    requires EncodeNat(m) == EncodeNat(n)
    ensures m == n
    decreases m
  {
    NatIsDigits(m / 10);
    NatIsDigits(n / 10);
    var a, b := EncodeNat(m), EncodeNat(n);
    assert a[|a| - 1] == HexDigit(m % 10) && b[|b| - 1] == HexDigit(n % 10);
    HexDigitIsInjective(m % 10, n % 10);
    if m >= 10 && n >= 10 {
      assert a[..|a| - 1] == EncodeNat(m / 10) && b[..|b| - 1] == EncodeNat(n / 10);
      NatIsInjective(m / 10, n / 10);
    }
  }

  lemma FirstOf(a: string, x: string)
    ensures a != [] ==> a + x != [] && (a + x)[0] == a[0]
    ensures a == [] ==> a + x == x
  {
  }

  /** A run of digits that stops is the longest run its text begins with. */
  lemma {:induction false} DigitsPrefixFree(a: string, b: string, x: string, y: string)
    requires AllDigits(a) && AllDigits(b) && Stops(x) && Stops(y) && a + x == b + y
    ensures a == b && x == y
    decreases |a|
  {
    FirstOf(a, x);
    FirstOf(b, y);
    if a != [] && b != [] {
      assert a + x == [a[0]] + (a[1..] + x) && b + y == [b[0]] + (b[1..] + y);
      DropFirst(a[0], a[1..] + x, b[1..] + y);
      DigitsPrefixFree(a[1..], b[1..], x, y);
      assert a == [a[0]] + a[1..] && b == [b[0]] + b[1..];
    }
  }

  function Magnitude(n: int): nat
  {
    if n < 0 then -n else n
  }

  lemma IntForm(n: int, x: string)
    ensures EncodeInt(n) != [] && (EncodeInt(n)[0] == '-' <==> n < 0)
    ensures n < 0 ==> EncodeInt(n) + x == ['-'] + (EncodeNat(Magnitude(n)) + x)
    ensures n >= 0 ==> EncodeInt(n) == EncodeNat(Magnitude(n))
  {
    hide EncodeNat;
    NatIsDigits(Magnitude(n));
  }

  lemma IntPrefixFree(m: int, n: int, x: string, y: string)
    requires Stops(x) && Stops(y) && EncodeInt(m) + x == EncodeInt(n) + y
    ensures m == n && x == y
  {
    hide EncodeNat, EncodeInt;
    var a, b := EncodeNat(Magnitude(m)), EncodeNat(Magnitude(n));
    NatIsDigits(Magnitude(m));
    NatIsDigits(Magnitude(n));
    IntForm(m, x);
    IntForm(n, y);
    FirstOf(EncodeInt(m), x);
    FirstOf(EncodeInt(n), y);
    if m < 0 {
      DropFirst('-', a + x, b + y);
    }
    DigitsPrefixFree(a, b, x, y);
    NatIsInjective(Magnitude(m), Magnitude(n));
  }

  // ----- Values

  /** The kind of a value, as its first character tells it. */
  function Opening(j: Json): set<char>
  {
    match j
    case Null => {'n'}
    case Bool(flag) => if flag then {'t'} else {'f'}
    case Int(_) => {'-', '0', '1', '2', '3', '4', '5', '6', '7', '8', '9'}
    case Float(_) => {}
    case Str(_) => {'\"'}
    case Arr(_) => {'['}
    case Obj(_) => {'{'}
  }

  lemma OpeningOf(j: Json, floatText: real -> string)
    requires !j.Float?
    ensures Encode(j, floatText) != [] && Encode(j, floatText)[0] in Opening(j)
  {
    if j.Int? {
      hide EncodeNat;
      IntForm(j.number, []);
      NatIsDigits(Magnitude(j.number));
      assert IsDigit(EncodeNat(Magnitude(j.number))[0]);
    }
  }

  predicate SameText(a: Json, x: string, b: Json, y: string, floatText: real -> string)
  {
    Encode(a, floatText) + x == Encode(b, floatText) + y
  }

  /** No other value has a text that begins alike and stops. */
  ghost predicate PrefixFreeAt(a: Json, floatText: real -> string)
  {
    forall b, x, y | NoFloats(b) && Stops(x) && Stops(y) && SameText(a, x, b, y, floatText) :: a == b && x == y
  }

  function Texts(items: seq<Json>, floatText: real -> string): seq<string>
  {
    seq(|items|, i requires 0 <= i < |items| => Encode(items[i], floatText))
  }

  function ItemsText(items: seq<Json>, tail: string, floatText: real -> string): string
  {
    JoinWithCommas(Texts(items, floatText)) + tail
  }

  function AfterItem(rest: seq<Json>, tail: string, floatText: real -> string): string
  {
    if rest == [] then tail else [','] + ItemsText(rest, tail, floatText)
  }

  lemma ItemsTextOf(items: seq<Json>, tail: string, floatText: real -> string)
    requires items != []
    ensures ItemsText(items, tail, floatText) == Encode(items[0], floatText) + AfterItem(items[1..], tail, floatText)
  {
    hide Encode;
    var texts := Texts(items, floatText);
    assert texts[1..] == Texts(items[1..], floatText);
  }

  lemma {:induction false} ItemsPrefixFree(a: seq<Json>, b: seq<Json>, x: string, y: string, floatText: real -> string)
    requires forall i | 0 <= i < |a| :: PrefixFreeAt(a[i], floatText) && NoFloats(a[i])
    requires forall i | 0 <= i < |b| :: NoFloats(b[i])
    requires ItemsText(a, [']'] + x, floatText) == ItemsText(b, [']'] + y, floatText)
    ensures a == b && x == y
    decreases |a|
  {
    hide Encode, NoFloats, Texts, JoinWithCommas, ItemsText;
    ItemsStart(a, x, floatText);
    ItemsStart(b, y, floatText);
    if a == [] || b == [] {
      DropFirst(']', x, y);
    } else {
      ItemsTextOf(a, [']'] + x, floatText);
      ItemsTextOf(b, [']'] + y, floatText);
      var p, q := AfterItem(a[1..], [']'] + x, floatText), AfterItem(b[1..], [']'] + y, floatText);
      assert SameText(a[0], p, b[0], q, floatText);
      assert a[0] == b[0] && p == q;
      if a[1..] == [] || b[1..] == [] {
        DropFirst(']', x, y);
      } else {
        DropFirst(',', ItemsText(a[1..], [']'] + x, floatText), ItemsText(b[1..], [']'] + y, floatText));
        ItemsPrefixFree(a[1..], b[1..], x, y, floatText);
      }
      assert a == [a[0]] + a[1..] && b == [b[0]] + b[1..];
    }
  }

  /** Only an empty list starts with its closing bracket. */
  lemma ItemsStart(items: seq<Json>, x: string, floatText: real -> string)
    requires forall i | 0 <= i < |items| :: NoFloats(items[i])
    ensures ItemsText(items, [']'] + x, floatText) != []
    ensures ItemsText(items, [']'] + x, floatText)[0] == ']' <==> items == []
    ensures items == [] ==> ItemsText(items, [']'] + x, floatText) == [']'] + x
  {
    if items != [] {
      hide Encode;
      ItemsTextOf(items, [']'] + x, floatText);
      OpeningOf(items[0], floatText);
    }
  }

  function MembersText(fields: map<string, Json>, tail: string, floatText: real -> string): string
  {
    JoinWithCommas(Members(Encoded(fields, floatText))) + tail
  }

  function AfterMember(rest: map<string, Json>, tail: string, floatText: real -> string): string
  {
    if rest == map[] then tail else [','] + MembersText(rest, tail, floatText)
  }

  lemma EncodedWithout(fields: map<string, Json>, key: string, floatText: real -> string)
    requires key in fields
    ensures Encoded(fields, floatText) - {key} == Encoded(fields - {key}, floatText)
    ensures key in Encoded(fields, floatText) && Encoded(fields, floatText)[key] == Encode(fields[key], floatText)
    ensures Encoded(fields, floatText) == map[] <==> fields == map[]
  {
    hide Encode;
    assert Encoded(fields, floatText).Keys == fields.Keys;
  }

  lemma EncodedKeys(fields: map<string, Json>, floatText: real -> string)
    ensures Encoded(fields, floatText).Keys == fields.Keys
    ensures Encoded(fields, floatText) == map[] <==> fields == map[]
  {
    hide Encode;
    assert Encoded(fields, floatText).Keys == fields.Keys;
  }

  function FirstMember(fields: map<string, Json>): (first: string)
    requires fields != map[]
    ensures first in fields
  {
    FirstKey(fields)
  }

  lemma MembersTextOf(fields: map<string, Json>, tail: string, floatText: real -> string)
    requires fields != map[]
    ensures var first := FirstMember(fields);
            MembersText(fields, tail, floatText)
            == EncodeText(first) + ([':'] + (Encode(fields[first], floatText) + AfterMember(fields - {first}, tail, floatText)))
  {
    hide Encode, EncodeText, Encoded;
    var first, encoded := FirstMember(fields), Encoded(fields, floatText);
    EncodedKeys(fields, floatText);
    EncodedWithout(fields, first, floatText);
    LeastIsUnique(fields.Keys);
    assert FirstKey(encoded) == first;
    EncodedKeys(fields - {first}, floatText);
    OneMemberFirst(encoded, first, tail);
  }

  /** The first member of an object's text, and what follows it. */
  lemma OneMemberFirst(encoded: map<string, string>, first: string, tail: string)
    requires encoded != map[] && first == FirstKey(encoded)
    ensures var rest := encoded - {first};
            JoinWithCommas(Members(encoded)) + tail
            == EncodeText(first) + ([':'] + (encoded[first]
               + if rest == map[] then tail else [','] + (JoinWithCommas(Members(rest)) + tail)))
  {
    hide EncodeText;
    var rest := encoded - {first};
    var member := EncodeText(first) + ":" + encoded[first];
    assert Members(encoded) == [member] + Members(rest);
    assert Members(rest) == [] <==> rest == map[];
    if rest == map[] {
      assert JoinWithCommas(Members(encoded)) == member;
    } else {
      assert ([member] + Members(rest))[1..] == Members(rest);
      assert JoinWithCommas(Members(encoded)) == member + "," + JoinWithCommas(Members(rest));
    }
  }

  predicate NoFloatFields(fields: map<string, Json>)
  {
    forall k | k in fields :: NoFloats(fields[k])
  }

  /** Only an empty object starts with its closing brace. */
  lemma MembersStart(fields: map<string, Json>, x: string, floatText: real -> string)
    ensures MembersText(fields, ['}'] + x, floatText) != []
    ensures MembersText(fields, ['}'] + x, floatText)[0] == '}' <==> fields == map[]
    ensures fields == map[] ==> MembersText(fields, ['}'] + x, floatText) == ['}'] + x
  {
    hide Encode, EncodeChars;
    EncodedKeys(fields, floatText);
    if fields != map[] {
      MembersTextOf(fields, ['}'] + x, floatText);
      assert EncodeText(FirstMember(fields))[0] == '\"';
    }
  }

  lemma {:induction false} MembersPrefixFree(a: map<string, Json>, b: map<string, Json>, x: string, y: string,
                                             floatText: real -> string)
    requires forall k | k in a :: PrefixFreeAt(a[k], floatText)
    requires NoFloatFields(b)
    requires MembersText(a, ['}'] + x, floatText) == MembersText(b, ['}'] + y, floatText)
    ensures a == b && x == y
    decreases |a|
  {
    hide Encode, NoFloats, Encoded, Members, JoinWithCommas, MembersText, EncodeText, FirstMember;
    MembersStart(a, x, floatText);
    MembersStart(b, y, floatText);
    if a == map[] || b == map[] {
      DropFirst('}', x, y);
    } else {
      MembersTextOf(a, ['}'] + x, floatText);
      MembersTextOf(b, ['}'] + y, floatText);
      var f, g := FirstMember(a), FirstMember(b);
      var p, q := AfterMember(a - {f}, ['}'] + x, floatText), AfterMember(b - {g}, ['}'] + y, floatText);
      TextPrefixFree(f, g, [':'] + (Encode(a[f], floatText) + p), [':'] + (Encode(b[g], floatText) + q));
      DropFirst(':', Encode(a[f], floatText) + p, Encode(b[g], floatText) + q);
      assert SameText(a[f], p, b[g], q, floatText);
      assert a[f] == b[g] && p == q;
      if a - {f} == map[] || b - {g} == map[] {
        DropFirst('}', x, y);
      } else {
        DropFirst(',', MembersText(a - {f}, ['}'] + x, floatText), MembersText(b - {g}, ['}'] + y, floatText));
        MembersPrefixFree(a - {f}, b - {g}, x, y, floatText);
      }
      SameWithout(a, b, f);
    }
  }

  lemma SameWithout(a: map<string, Json>, b: map<string, Json>, key: string)
    requires key in a && key in b && a[key] == b[key] && a - {key} == b - {key}
    ensures a == b
  {
    assert a == (a - {key})[key := a[key]] && b == (b - {key})[key := b[key]];
  }

  /** The first character of a text tells the kind of its value, and null, true and false entirely. */
  lemma SameKind(a: Json, b: Json, c: char)
    requires c in Opening(a) && c in Opening(b)
    ensures a.Null? == b.Null? && a.Int? == b.Int? && a.Str? == b.Str? && a.Arr? == b.Arr? && a.Obj? == b.Obj?
    ensures a.Null? || a.Bool? ==> a == b
  {
  }

  lemma ScalarText(j: Json, floatText: real -> string)
    ensures j.Int? ==> Encode(j, floatText) == EncodeInt(j.number)
    ensures j.Str? ==> Encode(j, floatText) == EncodeText(j.text)
  {
  }

  lemma SameTail(text: string, x: string, y: string)
    requires text + x == text + y
    ensures x == y
  {
    assert x == (text + x)[|text|..] && y == (text + y)[|text|..];
  }

  /** Two values whose texts begin alike are of one kind, and equal when their parts can be told apart. */
  lemma ValuePrefixFree(a: Json, b: Json, x: string, y: string, floatText: real -> string)
    requires NoFloats(a) && NoFloats(b) && Stops(x) && Stops(y) && SameText(a, x, b, y, floatText)
    requires a.Arr? ==> forall i | 0 <= i < |a.items| :: PrefixFreeAt(a.items[i], floatText)
    requires a.Obj? ==> forall k | k in a.fields :: PrefixFreeAt(a.fields[k], floatText)
    ensures a == b && x == y
  {
    hide Encode, EncodeText, EncodeInt, Opening, PrefixFreeAt;
    OpeningOf(a, floatText);
    OpeningOf(b, floatText);
    FirstOf(Encode(a, floatText), x);
    FirstOf(Encode(b, floatText), y);
    SameKind(a, b, Encode(a, floatText)[0]);
    ScalarText(a, floatText);
    ScalarText(b, floatText);
    match a
    case Int(_) => IntPrefixFree(a.number, b.number, x, y);
    case Str(_) => TextPrefixFree(a.text, b.text, x, y);
    case Arr(_) => ArrPrefixFree(a.items, b.items, x, y, floatText);
    case Obj(_) => ObjPrefixFree(a.fields, b.fields, x, y, floatText);
    case _ => SameTail(Encode(a, floatText), x, y);
  }

  lemma ArrPrefixFree(a: seq<Json>, b: seq<Json>, x: string, y: string, floatText: real -> string)
    requires NoFloats(Arr(a)) && NoFloats(Arr(b)) && SameText(Arr(a), x, Arr(b), y, floatText)
    requires forall i | 0 <= i < |a| :: PrefixFreeAt(a[i], floatText)
    ensures a == b && x == y
  {
    ArrText(a, x, floatText);
    ArrText(b, y, floatText);
    hide Encode;
    DropFirst('[', ItemsText(a, [']'] + x, floatText), ItemsText(b, [']'] + y, floatText));
    ItemsPrefixFree(a, b, x, y, floatText);
  }

  lemma ArrText(items: seq<Json>, x: string, floatText: real -> string)
    ensures Encode(Arr(items), floatText) + x == ['['] + ItemsText(items, [']'] + x, floatText)
  {
    hide JoinWithCommas;
    assert Texts(items, floatText) == seq(|items|, i requires 0 <= i < |items| => Encode(items[i], floatText));
  }

  lemma ObjPrefixFree(a: map<string, Json>, b: map<string, Json>, x: string, y: string, floatText: real -> string)
    requires NoFloats(Obj(a)) && NoFloats(Obj(b)) && SameText(Obj(a), x, Obj(b), y, floatText)
    requires forall k | k in a :: PrefixFreeAt(a[k], floatText)
    ensures a == b && x == y
  {
    ObjectText(a, floatText);
    ObjectText(b, floatText);
    hide Encode, JoinWithCommas, Members, Encoded;
    assert Encode(Obj(a), floatText) + x == ['{'] + MembersText(a, ['}'] + x, floatText);
    assert Encode(Obj(b), floatText) + y == ['{'] + MembersText(b, ['}'] + y, floatText);
    DropFirst('{', MembersText(a, ['}'] + x, floatText), MembersText(b, ['}'] + y, floatText));
    MembersPrefixFree(a, b, x, y, floatText);
  }

  /** A value without floats can be read off the front of any text it begins. */
  lemma {:induction false} EncodingIsPrefixFree(a: Json, floatText: real -> string)
    requires NoFloats(a)
    ensures PrefixFreeAt(a, floatText)
    decreases a
  {
    if a.Arr? {
      forall i | 0 <= i < |a.items| ensures PrefixFreeAt(a.items[i], floatText) {
        EncodingIsPrefixFree(a.items[i], floatText);
      }
    }
    if a.Obj? {
      forall k | k in a.fields ensures PrefixFreeAt(a.fields[k], floatText) {
        EncodingIsPrefixFree(a.fields[k], floatText);
      }
    }
    hide Encode;
    forall b, x, y | NoFloats(b) && Stops(x) && Stops(y) && SameText(a, x, b, y, floatText) ensures a == b && x == y {
      ValuePrefixFree(a, b, x, y, floatText);
    }
  }

  /** The canonical text is injective on values without floats. */
  lemma EncodingIsInjective(a: Json, b: Json, floatText: real -> string)
    requires NoFloats(a) && NoFloats(b) && Encode(a, floatText) == Encode(b, floatText)
    ensures a == b
  {
    EncodingIsPrefixFree(a, floatText);
    assert Encode(a, floatText) + [] == Encode(a, floatText) && Encode(b, floatText) + [] == Encode(b, floatText);
    assert SameText(a, [], b, [], floatText);
  }

  // ----- One printable line

  predicate Printable(text: string)
  {
    forall i | 0 <= i < |text| :: ' ' <= text[i] <= '~'
  }

  lemma CharIsPrintable(c: char)
    ensures Printable(EncodeChar(c))
  {
    if IsNumbered(c) {
      NumberedForm(c);
      forall i | 0 <= i < |Units(c)| ensures Printable(UnitEscape(Units(c)[i])) {
        EscapeIsPrintable(Units(c)[i]);
      }
    }
  }

  lemma EscapeIsPrintable(n: nat)
    requires n < 0x1_0000
    ensures Printable(UnitEscape(n))
  {
    HexIsPrintable(n / 0x1000);
    HexIsPrintable(n / 0x100 % 16);
    HexIsPrintable(n / 0x10 % 16);
    HexIsPrintable(n % 16);
    hide HexDigit;
  }

  lemma HexIsPrintable(n: nat)
    requires n < 16
    ensures ' ' <= HexDigit(n) <= '~'
  {
    assert HEX_DIGITS == ['0', '1', '2', '3', '4', '5', '6', '7', '8', '9', 'a', 'b', 'c', 'd', 'e', 'f'];
  }

  lemma {:induction false} CharsArePrintable(text: string)
    ensures Printable(EncodeChars(text))
  {
    hide EncodeChar;
    if text != [] {
      CharIsPrintable(text[0]);
      CharsArePrintable(text[1..]);
    }
  }

  lemma TextIsPrintable(text: string)
    ensures Printable(EncodeText(text))
  {
    hide EncodeChars;
    CharsArePrintable(text);
  }

  lemma {:induction false} JoinIsPrintable(parts: seq<string>)
    requires forall i | 0 <= i < |parts| :: Printable(parts[i])
    ensures Printable(JoinWithCommas(parts))
  {
    if |parts| > 1 {
      assert forall i | 0 <= i < |parts[1..]| :: parts[1..][i] == parts[i + 1];
      JoinIsPrintable(parts[1..]);
    }
  }

  lemma {:induction false} MembersArePrintable(encoded: map<string, string>)
    requires forall k | k in encoded :: Printable(encoded[k])
    ensures forall i | 0 <= i < |Members(encoded)| :: Printable(Members(encoded)[i])
    decreases |encoded|
  {
    hide EncodeText;
    if encoded != map[] {
      var first := FirstKey(encoded);
      MembersArePrintable(encoded - {first});
      TextIsPrintable(first);
      assert Printable(EncodeText(first) + ":" + encoded[first]);
    }
  }

  /** A value without floats is written on one line of printable characters. */
  lemma {:induction false} EncodingIsPrintable(j: Json, floatText: real -> string)
    requires NoFloats(j)
    ensures Printable(Encode(j, floatText))
    decreases j
  {
    hide Encode, Members, JoinWithCommas, Printable;
    match j
    case Arr(items) =>
      forall i | 0 <= i < |items| ensures Printable(Texts(items, floatText)[i]) {
        EncodingIsPrintable(items[i], floatText);
      }
      JoinIsPrintable(Texts(items, floatText));
      ArrIsPrintable(items, floatText);
    case Obj(fields) =>
      forall k | k in Encoded(fields, floatText) ensures Printable(Encoded(fields, floatText)[k]) {
        EncodingIsPrintable(fields[k], floatText);
      }
      MembersArePrintable(Encoded(fields, floatText));
      JoinIsPrintable(Members(Encoded(fields, floatText)));
      ObjIsPrintable(fields, floatText);
    case _ => ScalarIsPrintable(j, floatText);
  }

  lemma ScalarIsPrintable(j: Json, floatText: real -> string)
    requires !j.Arr? && !j.Obj? && !j.Float?
    ensures Printable(Encode(j, floatText))
  {
    hide EncodeText, EncodeInt;
    if j.Int? {
      IntIsPrintable(j.number);
    }
    if j.Str? {
      TextIsPrintable(j.text);
    }
  }

  lemma ObjIsPrintable(fields: map<string, Json>, floatText: real -> string)
    requires Printable(JoinWithCommas(Members(Encoded(fields, floatText))))
    ensures Printable(Encode(Obj(fields), floatText))
  {
    ObjectText(fields, floatText);
    hide Encode, JoinWithCommas, Members, Encoded;
  }

  lemma ArrIsPrintable(items: seq<Json>, floatText: real -> string)
    requires Printable(JoinWithCommas(Texts(items, floatText)))
    ensures Printable(Encode(Arr(items), floatText))
  {
    ArrText(items, [], floatText);
    assert Encode(Arr(items), floatText) + [] == Encode(Arr(items), floatText);
    hide Encode, JoinWithCommas;
    assert ItemsText(items, [']'] + [], floatText) == JoinWithCommas(Texts(items, floatText)) + [']'];
  }

  lemma IntIsPrintable(n: int)
    ensures Printable(EncodeInt(n))
  {
    hide EncodeNat;
    NatIsDigits(Magnitude(n));
  }
}
