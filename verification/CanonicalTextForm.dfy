/**
 What canonical text looks like, told without the printer: keys rise in the stated sense at every depth, and the text is the
 compact one of section 24.5.4 (SerializeJSONProperty, QuoteJSONString) of ECMA-262, composed from its parts.
 */
module CanonicalTextForm {
  import opened KeyedSequences
  import opened CanonicalJson
  import opened CanonicalJsonTheorems
  import opened JsonTextUnambiguous

  /******* Decimals *******/

  predicate CanonicalDecimal(t: Text) {
    && t != [] && (forall i :: 0 <= i < |t| ==> IsDigit(t[i])) && (t[0] == 0x30 ==> |t| == 1)
  }

  function Power10(n: nat): nat { if n == 0 then 1 else 10 * Power10(n - 1) }

  lemma {:induction false} ValueBelow(t: Text)
    requires forall i :: 0 <= i < |t| ==> IsDigit(t[i])
    ensures DecimalValue(t) < Power10(|t|)
  {
    if t != [] {
      var n := |t| - 1;
      assert IsDigit(t[n]);
      ValueBelow(t[..n]);
    }
  }

  lemma {:induction false} ValueAbove(t: Text)
    requires CanonicalDecimal(t) && t[0] != 0x30
    ensures DecimalValue(t) >= Power10(|t| - 1)
  {
    var n := |t| - 1;
    assert IsDigit(t[n]) && IsDigit(t[0]);
    if n > 0 { ValueAbove(t[..n]); } else { assert DecimalValue(t[..n]) == 0; }
  }

  lemma {:induction false} PowerGrows(m: nat, n: nat)
    requires m <= n
    ensures Power10(m) <= Power10(n)
    decreases n
  {
    if m < n { PowerGrows(m, n - 1); }
  }

  lemma {:induction false} CodeUnitBeforeLast(a: Text, b: Text, c: CodeUnit, d: CodeUnit)
    requires |a| == |b|
    ensures CodeUnitBefore(a + [c], b + [d]) <==> CodeUnitBefore(a, b) || (a == b && c < d)
  {
    var x, y := a + [c], b + [d];
    if a == [] {
      assert x == [c] && y == [d] && x[1..] == [] && y[1..] == [];
    } else {
      assert x[1..] == a[1..] + [c] && y[1..] == b[1..] + [d];
      assert a == [a[0]] + a[1..] && b == [b[0]] + b[1..];
      CodeUnitBeforeLast(a[1..], b[1..], c, d);
    }
  }

  lemma ByLastDigit(v: nat, w: nat, c: nat, d: nat)
    requires c < 10 && d < 10
    ensures 10 * v + c < 10 * w + d <==> v < w || (v == w && c < d)
    ensures 10 * v + c == 10 * w + d <==> v == w && c == d
  {
  }

  lemma ValueByLast(t: Text, c: CodeUnit)
    requires IsDigit(c) && forall i :: 0 <= i < |t| ==> IsDigit(t[i])
    ensures DecimalValue(t + [c]) == 10 * DecimalValue(t) + (c as int - 0x30)
  {
    assert (t + [c])[..|t|] == t;
  }

  lemma {:induction false} SameLengthByValue(a: Text, b: Text)
    requires |a| == |b|
    requires forall i :: 0 <= i < |a| ==> IsDigit(a[i]) && IsDigit(b[i])
    ensures CodeUnitBefore(a, b) <==> DecimalValue(a) < DecimalValue(b)
    ensures a == b <==> DecimalValue(a) == DecimalValue(b)
  {
    if a != [] {
      var n := |a| - 1;
      var x, y := a[..n], b[..n];
      assert a == x + [a[n]] && b == y + [b[n]];
      SameLengthByValue(x, y);
      CodeUnitBeforeLast(x, y, a[n], b[n]);
      ValueByLast(x, a[n]);
      ValueByLast(y, b[n]);
      ByLastDigit(DecimalValue(x), DecimalValue(y), a[n] as int - 0x30, b[n] as int - 0x30);
    }
  }

  /** Canonical decimals compare as the numbers they are. */
  lemma NumericBeforeExactly(a: Text, b: Text)
    requires CanonicalDecimal(a) && CanonicalDecimal(b)
    ensures NumericBefore(a, b) <==> DecimalValue(a) < DecimalValue(b)
  {
    if |a| == |b| {
      SameLengthByValue(a, b);
    } else {
      var short, long := if |a| < |b| then a else b, if |a| < |b| then b else a;
      ValueBelow(short);
      ValueAbove(long);
      PowerGrows(|short|, |long| - 1);
    }
  }

  lemma {:induction false} DecimalIsCanonical(n: nat)
    ensures CanonicalDecimal(Decimal(n)) && (Decimal(n)[0] == 0x30 <==> n == 0) && DecimalValue(Decimal(n)) == n
  {
    DecimalDigits(n);
    if n >= 10 { DecimalIsCanonical(n / 10); }
  }

  lemma DecimalStep(v: nat, digit: nat)
    requires v > 0 && digit < 10
    ensures Decimal(10 * v + digit) == Decimal(v) + [0x30 + digit]
  {
    assert (10 * v + digit) / 10 == v && (10 * v + digit) % 10 == digit;
  }

  lemma {:induction false} CanonicalIsDecimal(t: Text)
    requires CanonicalDecimal(t)
    ensures t == Decimal(DecimalValue(t))
  {
    var n := |t| - 1;
    assert IsDigit(t[n]) && t == t[..n] + [t[n]];
    if n > 0 {
      CanonicalIsDecimal(t[..n]);
      ValueAbove(t[..n]);
      PowerGrows(0, n - 1);
      DecimalStep(DecimalValue(t[..n]), t[n] as int - 0x30);
    } else {
      assert DecimalValue(t[..n]) == 0;
    }
  }

  /** An array index is the decimal text of a whole number below 4294967295, and of nothing else. */
  lemma ArrayIndexExactly(key: Text)
    ensures IsArrayIndex(key) <==> exists n: nat :: n < 4294967295 && key == Decimal(n)
  {
    if IsArrayIndex(key) { CanonicalIsDecimal(key); }
    forall n: nat | n < 4294967295 && key == Decimal(n) ensures IsArrayIndex(key) { DecimalIsCanonical(n); }
  }

  /** A whole number prints as its digits, without leading zeros, after a minus sign if it is negative. */
  lemma IntegerText(n: int)
    ensures PrintInt(n) == (if n < 0 then Lit("-") else []) + Decimal(if n < 0 then -n else n)
    ensures var digits, size := Decimal(if n < 0 then -n else n), if n < 0 then -n else n;
            CanonicalDecimal(digits) && DecimalValue(digits) == size
  {
    DecimalIsCanonical(if n < 0 then -n else n);
    assert Lit("-") == [0x2D];
    assert [] + Decimal(if n < 0 then -n else n) == Decimal(if n < 0 then -n else n);
  }

  /******* The order of keys *******/

  /** Array indices come first, by value; the other keys rise by their first difference. */
  ghost predicate Rise(a: Text, b: Text) {
    if IsArrayIndex(a) then (IsArrayIndex(b) ==> DecimalValue(a) < DecimalValue(b))
    else !IsArrayIndex(b) && exists k: nat :: PartsBelowAt(a, b, k)
  }

  ghost predicate KeysRise(v: Json) {
    match v
    case Arr(items) => forall i :: 0 <= i < |items| ==> KeysRise(items[i])
    case Obj(fields) =>
      && (forall i, j :: 0 <= i < j < |fields| ==> Rise(fields[i].key, fields[j].key))
      && (forall i :: 0 <= i < |fields| ==> KeysRise(fields[i].value))
    case _ => true
  }

  lemma KeyBeforeExactly(a: Text, b: Text)
    ensures KeyBefore(a, b) <==> Rise(a, b)
  {
    CodeUnitBeforeExactly(a, b);
    if IsArrayIndex(a) && IsArrayIndex(b) { NumericBeforeExactly(a, b); }
  }

  /** In a stabled value the keys of every object rise, at every depth. */
  lemma {:induction false} StableKeysRise(v: Json)
    requires WellFormed(v)
    ensures KeysRise(Stable(v))
    decreases v
  {
    match v
    case Arr(items) => StableItemsRise(items);
    case Obj(fields) =>
      var stabled := StableFields(fields);
      StableFieldsKeys(fields);
      ArrangedFields(stabled);
      MemberOfContents(Arranged(stabled), stabled);
      forall i | 0 <= i < |fields| ensures KeysRise(stabled[i].value) { StableKeysRise(fields[i].value); }
      forall i | 0 <= i < |Arranged(stabled)| ensures KeysRise(Arranged(stabled)[i].value) {
        assert Arranged(stabled)[i] in stabled;
      }
      forall i, j | 0 <= i < j < |Arranged(stabled)| ensures Rise(Arranged(stabled)[i].key, Arranged(stabled)[j].key) {
        KeyBeforeExactly(Arranged(stabled)[i].key, Arranged(stabled)[j].key);
      }
    case _ =>
  }

  lemma {:induction false} StableItemsRise(items: seq<Json>)
    requires forall i :: 0 <= i < |items| ==> WellFormed(items[i])
    ensures forall i :: 0 <= i < |StableItems(items)| ==> KeysRise(StableItems(items)[i])
    decreases items
  {
    if items != [] {
      StableKeysRise(items[0]);
      StableItemsRise(items[1..]);
    }
  }

  /******* The text, composed from its parts *******/

  const SHORT_ESCAPES: map<CodeUnit, Text> := map[
    0x08 := Lit("\\b"), 0x09 := Lit("\\t"), 0x0A := Lit("\\n"), 0x0C := Lit("\\f"), 0x0D := Lit("\\r"),
    0x22 := Lit("\\\""), 0x5C := Lit("\\\\")]

  const HEX_DIGITS: Text := Lit("0123456789abcdef")

  /** Half of a surrogate pair without the other half beside it. */
  predicate Alone(s: Text, i: nat)
    requires i < |s|
  {
    if 0xD800 <= s[i] <= 0xDBFF then !(i + 1 < |s| && 0xDC00 <= s[i + 1] <= 0xDFFF)
    else 0xDC00 <= s[i] <= 0xDFFF && !(i > 0 && 0xD800 <= s[i - 1] <= 0xDBFF)
  }

  function Escaped(s: Text, i: nat): Text
    requires i < |s|
  {
    if s[i] in SHORT_ESCAPES then SHORT_ESCAPES[s[i]]
    else if s[i] < 0x20 || Alone(s, i) then
      Lit("\\u") + [HEX_DIGITS[s[i] / 4096], HEX_DIGITS[s[i] / 256 % 16], HEX_DIGITS[s[i] / 16 % 16], HEX_DIGITS[s[i] % 16]]
    else [s[i]]
  }

  function EscapedFrom(s: Text, i: nat): Text
    requires i <= |s|
    decreases |s| - i
  {
    if i == |s| then [] else Escaped(s, i) + EscapedFrom(s, i + 1)
  }

  function Commas(parts: seq<Text>): Text {
    if parts == [] then [] else if |parts| == 1 then parts[0] else parts[0] + Lit(",") + Commas(parts[1..])
  }

  function TextOf(d: Doc): Text {
    match d
    case DNull => Lit("null")
    case DBool(b) => if b then Lit("true") else Lit("false")
    case DInt(n) => PrintInt(n)
    case DStr(s) => Quoted(s)
    case DArr(items) => Lit("[") + Commas(ItemTexts(items)) + Lit("]")
    case DObj(fields) => Lit("{") + Commas(FieldTexts(fields)) + Lit("}")
  }

  function Quoted(s: Text): Text { Lit("\"") + EscapedFrom(s, 0) + Lit("\"") }

  function ItemTexts(items: seq<Doc>): seq<Text> {
    if items == [] then [] else [TextOf(items[0])] + ItemTexts(items[1..])
  }

  function FieldTexts(fields: seq<Entry<Doc>>): seq<Text> {
    if fields == [] then [] else [Quoted(fields[0].key) + Lit(":") + TextOf(fields[0].value)] + FieldTexts(fields[1..])
  }

  lemma HexDigitIs(d: nat)
    requires d < 16
    ensures HEX_DIGITS[d] == HexDigit(d)
  {
  }

  lemma Hex4Is(c: CodeUnit)
    ensures Hex4(c) == [HEX_DIGITS[c / 4096], HEX_DIGITS[c / 256 % 16], HEX_DIGITS[c / 16 % 16], HEX_DIGITS[c % 16]]
  {
    assert c / 16 / 16 / 16 == c / 4096 && c / 16 / 16 % 16 == c / 256 % 16;
    HexDigitIs(c / 4096);
    HexDigitIs(c / 256 % 16);
    HexDigitIs(c / 16 % 16);
    HexDigitIs(c % 16);
  }

  lemma ShortEscapesAre()
    ensures Lit("\\u") == [BACKSLASH, 0x75]
    ensures SHORT_ESCAPES == map[
      0x08 := [BACKSLASH, 0x62], 0x09 := [BACKSLASH, 0x74], 0x0A := [BACKSLASH, 0x6E], 0x0C := [BACKSLASH, 0x66],
      0x0D := [BACKSLASH, 0x72], 0x22 := [BACKSLASH, QUOTE], 0x5C := [BACKSLASH, BACKSLASH]]
  {
    assert Lit("\\b") == [BACKSLASH, 0x62] && Lit("\\t") == [BACKSLASH, 0x74] && Lit("\\n") == [BACKSLASH, 0x6E];
    assert Lit("\\f") == [BACKSLASH, 0x66] && Lit("\\r") == [BACKSLASH, 0x72];
    assert Lit("\\\"") == [BACKSLASH, QUOTE] && Lit("\\\\") == [BACKSLASH, BACKSLASH];
  }

  lemma QuoteUnitEscapes(s: Text, i: nat, rest: Text)
    requires i < |s|
    ensures QuoteUnit(s[i], i > 0 && IsLeadSurrogate(s[i - 1]), s[i + 1..], rest) == Escaped(s, i) + rest
  {
    ShortEscapesAre();
    Hex4Is(s[i]);
    assert [BACKSLASH, 0x75] + Hex4(s[i]) + rest == (Lit("\\u") + Hex4(s[i])) + rest;
  }

  lemma {:induction false} QuoteUnitsEscape(s: Text, i: nat, rest: Text)
    requires i <= |s|
    ensures QuoteUnits(s[i..], i > 0 && IsLeadSurrogate(s[i - 1]), rest) == EscapedFrom(s, i) + [QUOTE] + rest
    decreases |s| - i
  {
    if i < |s| {
      var after := QuoteUnits(s[i + 1..], IsLeadSurrogate(s[i]), rest);
      assert s[i..][0] == s[i] && s[i..][1..] == s[i + 1..];
      QuoteUnitsEscape(s, i + 1, rest);
      QuoteUnitEscapes(s, i, after);
      assert Escaped(s, i) + (EscapedFrom(s, i + 1) + [QUOTE] + rest) == EscapedFrom(s, i) + [QUOTE] + rest;
    }
  }

  /** A string prints as its escaped units between quotes. */
  lemma QuoteIsQuoted(s: Text, rest: Text)
    ensures Quote(s, rest) == Quoted(s) + rest
  {
    assert Lit("\"") == [QUOTE] && s[0..] == s;
    QuoteUnitsEscape(s, 0, rest);
    assert [QUOTE] + (EscapedFrom(s, 0) + [QUOTE] + rest) == ([QUOTE] + EscapedFrom(s, 0) + [QUOTE]) + rest;
  }

  lemma Punctuation()
    ensures Lit("null") == [0x6E, 0x75, 0x6C, 0x6C] && Lit("true") == [0x74, 0x72, 0x75, 0x65]
    ensures Lit("false") == [0x66, 0x61, 0x6C, 0x73, 0x65]
    ensures Lit("[") == [0x5B] && Lit("]") == [0x5D] && Lit("{") == [0x7B] && Lit("}") == [0x7D]
    ensures Lit(",") == [COMMA] && Lit(":") == [COLON]
  {
  }

  /** The printer writes the text of the document in front of what follows. */
  lemma {:induction false} PrintIsText(d: Doc, rest: Text)
    ensures Print(d, rest) == TextOf(d) + rest
    decreases d
  {
    match d
    case DStr(s) => QuoteIsQuoted(s, rest);
    case DArr(items) =>
      ItemsAreTexts(items, true, rest);
      Bracketed(Lit("["), Commas(ItemTexts(items)), Lit("]"), rest);
      Punctuation();
    case DObj(fields) =>
      FieldsAreTexts(fields, true, rest);
      Bracketed(Lit("{"), Commas(FieldTexts(fields)), Lit("}"), rest);
      Punctuation();
    case _ => Punctuation();
  }

  lemma Bracketed(open: Text, inside: Text, close: Text, rest: Text)
    ensures open + (inside + (close + rest)) == (open + inside + close) + rest
  {
  }

  function Listed(parts: seq<Text>, first: bool): Text {
    if parts == [] then [] else Separator(first) + Commas(parts)
  }

  lemma ListedStep(part: Text, parts: seq<Text>, first: bool, tail: Text)
    ensures Listed([part] + parts, first) + tail == Separator(first) + (part + (Listed(parts, false) + tail))
  {
    Punctuation();
    assert ([part] + parts)[1..] == parts;
    assert Commas([part] + parts) == part + Listed(parts, false);
    Regroup(Separator(first), part, Listed(parts, false), tail);
  }

  lemma Regroup(a: Text, b: Text, c: Text, d: Text)
    ensures (a + (b + c)) + d == a + (b + (c + d))
  {
  }

  lemma {:induction false} ItemsAreTexts(items: seq<Doc>, first: bool, rest: Text)
    ensures PrintItems(items, first, rest) == Listed(ItemTexts(items), first) + (Lit("]") + rest)
    decreases items
  {
    Punctuation();
    if items != [] {
      PrintIsText(items[0], PrintItems(items[1..], false, rest));
      ItemsAreTexts(items[1..], false, rest);
      ListedStep(TextOf(items[0]), ItemTexts(items[1..]), first, Lit("]") + rest);
    }
  }

  lemma {:induction false} FieldsAreTexts(fields: seq<Entry<Doc>>, first: bool, rest: Text)
    ensures PrintFields(fields, first, rest) == Listed(FieldTexts(fields), first) + (Lit("}") + rest)
    decreases fields
  {
    Punctuation();
    if fields != [] {
      var after := PrintFields(fields[1..], false, rest);
      var key, value := Quoted(fields[0].key), TextOf(fields[0].value);
      PrintIsText(fields[0].value, after);
      FieldsAreTexts(fields[1..], false, rest);
      QuoteIsQuoted(fields[0].key, [COLON] + (value + after));
      Bracketed(key, [COLON], value, after);
      ListedStep(key + [COLON] + value, FieldTexts(fields[1..]), first, Lit("}") + rest);
    }
  }

  /** What JSON has no words for: it is left out of objects, null in arrays, and negative zero is zero. */
  lemma WithoutWords(key: Text)
    ensures TextOf(Erase(Undefined)) == TextOf(Erase(Number(NonFinite))) == TextOf(Erase(Null)) == Lit("null")
    ensures TextOf(Erase(Number(NegativeZero))) == Lit("0") && TextOf(Erase(Obj([Entry(key, Undefined)]))) == Lit("{}")
  {
    assert Lit("0") == PrintInt(0);
    assert [Entry(key, Undefined)][1..] == [] && EraseFields([Entry(key, Undefined)]) == [];
    assert Lit("{}") == Lit("{") + [] + Lit("}");
  }

  /** The canonical text is the composed text of the value with rising keys. */
  lemma CanonicalTextIsComposed(v: Json)
    requires WellFormed(v) && !v.Undefined?
    ensures KeysRise(Stable(v)) && !Stable(v).Undefined? && CanonicalText(v) == TextOf(Erase(Stable(v)))
  {
    StableKeysRise(v);
    StableKeepsMeaning(v);
    PrintIsText(Erase(Stable(v)), []);
    assert TextOf(Erase(Stable(v))) + [] == TextOf(Erase(Stable(v)));
  }
}
