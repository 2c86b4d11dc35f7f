/** The printer is unambiguous: no two documents share a text, whatever follows them inside an array or an object. */
module JsonTextUnambiguous {
  import opened KeyedSequences
  import opened CanonicalJson

  /** What may follow a value: the end of the text, a comma or a closing bracket. */
  predicate Closes(rest: Text) {
    rest == [] || rest[0] == COMMA || rest[0] == 0x5D || rest[0] == 0x7D
  }

  lemma ConsEqual(c: CodeUnit, d: CodeUnit, x: Text, y: Text)
    requires [c] + x == [d] + y
    ensures c == d && x == y
  {
    assert x == ([c] + x)[1..] && y == ([d] + y)[1..];
  }

  /** Equal texts cut at the same place have equal parts. */
  lemma CutEqual(a: Text, b: Text, r: Text, s: Text)
    requires a + r == b + s && |a| == |b|
    ensures a == b && r == s
  {
    assert a == (a + r)[..|a|] && b == (b + s)[..|b|];
    assert r == (a + r)[|a|..] && s == (b + s)[|b|..];
  }

  /******* Numbers *******/

  lemma {:induction false} DecimalDigits(n: nat)
    ensures Decimal(n) != []
    ensures forall i :: 0 <= i < |Decimal(n)| ==> IsDigit(Decimal(n)[i])
    ensures DecimalValue(Decimal(n)) == n
  {
    if n >= 10 {
      DecimalDigits(n / 10);
      assert Decimal(n)[..|Decimal(n)| - 1] == Decimal(n / 10);
    }
  }

  lemma {:induction false} DigitRunUnique(a: Text, b: Text, r: Text, s: Text)
    requires forall i :: 0 <= i < |a| ==> IsDigit(a[i])
    requires forall i :: 0 <= i < |b| ==> IsDigit(b[i])
    requires a + r == b + s && Closes(r) && Closes(s)
    ensures a == b && r == s
  {
    if a == [] || b == [] {
      assert a == [] ==> a + r == r;
      assert b == [] ==> b + s == s;
    } else {
      assert a + r == [a[0]] + (a[1..] + r) && b + s == [b[0]] + (b[1..] + s);
      ConsEqual(a[0], b[0], a[1..] + r, b[1..] + s);
      DigitRunUnique(a[1..], b[1..], r, s);
      assert a == [a[0]] + a[1..] && b == [b[0]] + b[1..];
    }
  }

  lemma PrintIntUnique(m: int, n: int, r: Text, s: Text)
    requires PrintInt(m) + r == PrintInt(n) + s && Closes(r) && Closes(s)
    ensures m == n && r == s
  {
    var a, b := Decimal(if m < 0 then -m else m), Decimal(if n < 0 then -n else n);
    DecimalDigits(if m < 0 then -m else m);
    DecimalDigits(if n < 0 then -n else n);
    PrintIntStart(m, r);
    PrintIntStart(n, s);
    if m < 0 { ConsEqual(0x2D, 0x2D, a + r, b + s); }
    DigitRunUnique(a, b, r, s);
  }

  lemma PrintIntStart(n: int, rest: Text)
    ensures n < 0 ==> PrintInt(n) + rest == [0x2D] + (Decimal(-n) + rest)
    ensures PrintInt(n) + rest != []
    ensures if n < 0 then (PrintInt(n) + rest)[0] == 0x2D else IsDigit((PrintInt(n) + rest)[0])
  {
    DecimalDigits(if n < 0 then -n else n);
  }

  /******* Strings *******/

  function HexValue(c: CodeUnit): int {
    if c < 0x3A then c - 0x30 else c - 0x61 + 10
  }

  /** Reads one code unit back from inside quotes: the unit and how much text it took. */
  function ReadUnit(text: Text): (int, nat) {
    if |text| >= 6 && text[0] == BACKSLASH && text[1] == 0x75 then
      (0x1000 * HexValue(text[2]) + 0x100 * HexValue(text[3]) + 0x10 * HexValue(text[4]) + HexValue(text[5]), 6)
    else if |text| >= 2 && text[0] == BACKSLASH then
      (if text[1] == 0x62 then 0x08 else if text[1] == 0x74 then 0x09 else if text[1] == 0x6E then 0x0A
       else if text[1] == 0x66 then 0x0C else if text[1] == 0x72 then 0x0D else text[1], 2)
    else if text != [] then (text[0], 1)
    else (0, 0)
  }

  lemma HexDigitRoundTrip(d: nat)
    requires d < 16
    ensures HexValue(HexDigit(d)) == d
  {
  }

  lemma HexRoundTrip(c: CodeUnit)
    ensures var h := Hex4(c);
            0x1000 * HexValue(h[0]) + 0x100 * HexValue(h[1]) + 0x10 * HexValue(h[2]) + HexValue(h[3]) == c
  {
    var high, middle, low := c / 16 / 16, c / 16, c;
    HexDigitRoundTrip(high / 16);
    HexDigitRoundTrip(high % 16);
    HexDigitRoundTrip(middle % 16);
    HexDigitRoundTrip(low % 16);
  }

  lemma ReadQuoteUnit(c: CodeUnit, afterLead: bool, next: Text, rest: Text)
    ensures var text := QuoteUnit(c, afterLead, next, rest);
            && text != [] && text[0] != QUOTE && ReadUnit(text).0 == c
            && ReadUnit(text).1 <= |text| && text[ReadUnit(text).1..] == rest
  {
    HexRoundTrip(c);
  }

  lemma {:induction false} QuoteUnitsUnique(s: Text, p: bool, t: Text, q: bool, r1: Text, r2: Text)
    requires QuoteUnits(s, p, r1) == QuoteUnits(t, q, r2)
    ensures s == t && r1 == r2
  {
    var left, right := QuoteUnits(s, p, r1), QuoteUnits(t, q, r2);
    if s != [] { ReadQuoteUnit(s[0], p, s[1..], QuoteUnits(s[1..], IsLeadSurrogate(s[0]), r1)); }
    if t != [] { ReadQuoteUnit(t[0], q, t[1..], QuoteUnits(t[1..], IsLeadSurrogate(t[0]), r2)); }
    if s == [] {
      ConsEqual(QUOTE, QUOTE, r1, r2);
    } else {
      QuoteUnitsUnique(s[1..], IsLeadSurrogate(s[0]), t[1..], IsLeadSurrogate(t[0]), r1, r2);
      assert s == [s[0]] + s[1..] && t == [t[0]] + t[1..];
    }
  }

  lemma QuoteUnique(s: Text, t: Text, r1: Text, r2: Text)
    requires Quote(s, r1) == Quote(t, r2)
    ensures s == t && r1 == r2
  {
    ConsEqual(QUOTE, QUOTE, QuoteUnits(s, false, r1), QuoteUnits(t, false, r2));
    QuoteUnitsUnique(s, false, t, false, r1, r2);
  }

  /******* Documents *******/

  /** What the first code unit of a value's text says about the value; 0 stands for a number. */
  function FirstUnit(d: Doc): CodeUnit {
    match d
    case DNull => 0x6E
    case DBool(true) => 0x74
    case DBool(false) => 0x66
    case DInt(n) => 0
    case DStr(s) => QUOTE
    case DArr(items) => 0x5B
    case DObj(fields) => 0x7B
  }

  function NumberStart(c: CodeUnit): CodeUnit {
    if IsDigit(c) || c == 0x2D then 0 else c
  }

  lemma PrintStart(d: Doc, rest: Text)
    ensures Print(d, rest) != [] && NumberStart(Print(d, rest)[0]) == FirstUnit(d)
  {
    if d.DInt? { PrintIntStart(d.n, rest); }
  }

  lemma {:induction false} PrintUnique(d: Doc, e: Doc, r: Text, s: Text)
    requires Print(d, r) == Print(e, s) && Closes(r) && Closes(s)
    ensures d == e && r == s
    decreases d
  {
    PrintStart(d, r);
    PrintStart(e, s);
    assert FirstUnit(d) == FirstUnit(e);
    match d
    case DNull =>
      CutEqual([0x6E, 0x75, 0x6C, 0x6C], [0x6E, 0x75, 0x6C, 0x6C], r, s);
    case DBool(true) =>
      CutEqual([0x74, 0x72, 0x75, 0x65], [0x74, 0x72, 0x75, 0x65], r, s);
    case DBool(false) =>
      CutEqual([0x66, 0x61, 0x6C, 0x73, 0x65], [0x66, 0x61, 0x6C, 0x73, 0x65], r, s);
    case DInt(n) =>
      PrintIntUnique(n, e.n, r, s);
    case DStr(t) =>
      QuoteUnique(t, e.s, r, s);
    case DArr(items) =>
      ConsEqual(0x5B, 0x5B, PrintItems(items, true, r), PrintItems(e.items, true, s));
      PrintItemsUnique(items, e.items, true, r, s);
    case DObj(fields) =>
      ConsEqual(0x7B, 0x7B, PrintFields(fields, true, r), PrintFields(e.fields, true, s));
      PrintFieldsUnique(fields, e.fields, true, r, s);
  }

  lemma PrintItemsStart(items: seq<Doc>, first: bool, rest: Text)
    ensures var text := PrintItems(items, first, rest);
            text != [] && (text[0] == 0x5D <==> items == []) && (items != [] && !first ==> text[0] == COMMA)
  {
    if items != [] { PrintStart(items[0], PrintItems(items[1..], false, rest)); }
  }

  lemma {:induction false} PrintItemsUnique(a: seq<Doc>, b: seq<Doc>, first: bool, r: Text, s: Text)
    requires PrintItems(a, first, r) == PrintItems(b, first, s)
    ensures a == b && r == s
    decreases a
  {
    PrintItemsStart(a, first, r);
    PrintItemsStart(b, first, s);
    if a == [] {
      ConsEqual(0x5D, 0x5D, r, s);
    } else {
      var x, y := PrintItems(a[1..], false, r), PrintItems(b[1..], false, s);
      CutEqual(Separator(first), Separator(first), Print(a[0], x), Print(b[0], y));
      PrintItemsStart(a[1..], false, r);
      PrintItemsStart(b[1..], false, s);
      PrintUnique(a[0], b[0], x, y);
      PrintItemsUnique(a[1..], b[1..], false, r, s);
      assert a == [a[0]] + a[1..] && b == [b[0]] + b[1..];
    }
  }

  lemma PrintFieldsStart(fields: seq<Entry<Doc>>, first: bool, rest: Text)
    ensures var text := PrintFields(fields, first, rest);
            text != [] && (text[0] == 0x7D <==> fields == []) && (fields != [] && !first ==> text[0] == COMMA)
  {
  }

  lemma {:induction false} PrintFieldsUnique(a: seq<Entry<Doc>>, b: seq<Entry<Doc>>, first: bool, r: Text, s: Text)
    requires PrintFields(a, first, r) == PrintFields(b, first, s)
    ensures a == b && r == s
    decreases a
  {
    PrintFieldsStart(a, first, r);
    PrintFieldsStart(b, first, s);
    if a == [] {
      ConsEqual(0x7D, 0x7D, r, s);
    } else {
      var x, y := PrintFields(a[1..], false, r), PrintFields(b[1..], false, s);
      var u, v := [COLON] + Print(a[0].value, x), [COLON] + Print(b[0].value, y);
      CutEqual(Separator(first), Separator(first), Quote(a[0].key, u), Quote(b[0].key, v));
      QuoteUnique(a[0].key, b[0].key, u, v);
      ConsEqual(COLON, COLON, Print(a[0].value, x), Print(b[0].value, y));
      PrintFieldsStart(a[1..], false, r);
      PrintFieldsStart(b[1..], false, s);
      PrintUnique(a[0].value, b[0].value, x, y);
      PrintFieldsUnique(a[1..], b[1..], false, r, s);
      assert a == [a[0]] + a[1..] && b == [b[0]] + b[1..];
    }
  }

  /** Distinct documents have distinct texts. */
  lemma PrintInjective(d: Doc, e: Doc)
    requires Print(d, []) == Print(e, [])
    ensures d == e
  {
    PrintUnique(d, e, [], []);
  }
}
