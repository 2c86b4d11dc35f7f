/**
 Canonical JSON text: `JSON.stringify(stable(value))`, where `stable` sorts object keys by UTF-16 code unit at every depth.
 The main result is that two values have the same canonical text exactly when they mean the same.
 */
module CanonicalJson {
  import opened KeyedSequences

  /** The numbers that occur in hashed records: whole ones, and the doubles that print like something else. */
  datatype JsNumber = Whole(n: int) | NegativeZero | NonFinite

  /** A JavaScript value as `JSON.stringify` sees it. An object lists its own properties in enumeration order. */
  datatype Json =
    | Undefined
    | Null
    | Bool(b: bool)
    | Number(n: JsNumber)
    | Str(s: Text)
    | Arr(items: seq<Json>)
    | Obj(fields: seq<Entry<Json>>)

  /** An object holds each key once. */
  predicate WellFormed(v: Json) {
    match v
    case Arr(items) => forall i :: 0 <= i < |items| ==> WellFormed(items[i])
    case Obj(fields) => DistinctKeys(fields) && forall i :: 0 <= i < |fields| ==> WellFormed(fields[i].value)
    case _ => true
  }

  /******* What a value means *******/

  /** The information in a JSON value: objects are maps, and what `JSON.stringify` drops is gone. */
  datatype Meaning =
    | MNull
    | MBool(b: bool)
    | MInt(n: int)
    | MStr(s: Text)
    | MArr(items: seq<Meaning>)
    | MObj(fields: map<Text, Meaning>)

  function MeaningOf(v: Json): Meaning {
    match v
    case Undefined => MNull
    case Null => MNull
    case Bool(b) => MBool(b)
    case Number(Whole(n)) => MInt(n)
    case Number(NegativeZero) => MInt(0)
    case Number(NonFinite) => MNull
    case Str(s) => MStr(s)
    case Arr(items) => MArr(MeaningOfItems(items))
    case Obj(fields) => MObj(ToMap(MeaningOfFields(fields)))
  }

  function MeaningOfItems(items: seq<Json>): seq<Meaning> {
    if items == [] then [] else [MeaningOf(items[0])] + MeaningOfItems(items[1..])
  }

  /** Properties whose value is undefined do not count. */
  function MeaningOfFields(fields: seq<Entry<Json>>): seq<Entry<Meaning>> {
    if fields == [] then []
    else if fields[0].value.Undefined? then MeaningOfFields(fields[1..])
    else [Entry(fields[0].key, MeaningOf(fields[0].value))] + MeaningOfFields(fields[1..])
  }

  /******* stable *******/

  predicate IsDigit(c: CodeUnit) { 0x30 <= c <= 0x39 }

  function DecimalValue(s: Text): nat
    requires forall i :: 0 <= i < |s| ==> IsDigit(s[i])
  {
    if s == [] then 0
    else
      var last := s[|s| - 1];
      assert IsDigit(last);
      10 * DecimalValue(s[..|s| - 1]) + (last as int - 0x30)
  }

  /** An array index: a canonical decimal below 2^32 - 1. Objects enumerate these keys first. */
  predicate IsArrayIndex(key: Text) {
    && key != []
    && (forall i :: 0 <= i < |key| ==> IsDigit(key[i]))
    && (key[0] == 0x30 ==> |key| == 1)
    && DecimalValue(key) < 0xFFFF_FFFF
  }

  /** Numeric order on canonical decimals: the shorter is smaller, and equal lengths compare digit by digit. */
  predicate NumericBefore(a: Text, b: Text) {
    |a| < |b| || (|a| == |b| && CodeUnitBefore(a, b))
  }

  function Only<V>(fields: seq<Entry<V>>, indexKeys: bool): seq<Entry<V>> {
    if fields == [] then []
    else if IsArrayIndex(fields[0].key) == indexKeys then [fields[0]] + Only(fields[1..], indexKeys)
    else Only(fields[1..], indexKeys)
  }

  /** `Object.fromEntries`: array indices come first in numeric order, the rest keep the order they were added in. */
  function FromEntries<V>(fields: seq<Entry<V>>): seq<Entry<V>> {
    Sort(Only(fields, true), NumericBefore) + Only(fields, false)
  }

  function Stable(v: Json): Json {
    match v
    case Arr(items) => Arr(StableItems(items))
    case Obj(fields) => Obj(FromEntries(Sort(StableFields(fields), CodeUnitBefore)))
    case _ => v
  }

  function StableItems(items: seq<Json>): seq<Json> {
    if items == [] then [] else [Stable(items[0])] + StableItems(items[1..])
  }

  function StableFields(fields: seq<Entry<Json>>): seq<Entry<Json>> {
    if fields == [] then [] else [Entry(fields[0].key, Stable(fields[0].value))] + StableFields(fields[1..])
  }

  /******* JSON.stringify *******/

  /** What is left to print once undefined is gone: array holes and non-finite numbers are null. */
  datatype Doc =
    | DNull
    | DBool(b: bool)
    | DInt(n: int)
    | DStr(s: Text)
    | DArr(items: seq<Doc>)
    | DObj(fields: seq<Entry<Doc>>)

  function Erase(v: Json): Doc {
    match v
    case Undefined => DNull
    case Null => DNull
    case Bool(b) => DBool(b)
    case Number(Whole(n)) => DInt(n)
    case Number(NegativeZero) => DInt(0)
    case Number(NonFinite) => DNull
    case Str(s) => DStr(s)
    case Arr(items) => DArr(EraseItems(items))
    case Obj(fields) => DObj(EraseFields(fields))
  }

  function EraseItems(items: seq<Json>): seq<Doc> {
    if items == [] then [] else [Erase(items[0])] + EraseItems(items[1..])
  }

  function EraseFields(fields: seq<Entry<Json>>): seq<Entry<Doc>> {
    if fields == [] then []
    else if fields[0].value.Undefined? then EraseFields(fields[1..])
    else [Entry(fields[0].key, Erase(fields[0].value))] + EraseFields(fields[1..])
  }

  const QUOTE: CodeUnit := 0x22
  const BACKSLASH: CodeUnit := 0x5C
  const COMMA: CodeUnit := 0x2C
  const COLON: CodeUnit := 0x3A

  predicate IsLeadSurrogate(c: CodeUnit) { 0xD800 <= c <= 0xDBFF }
  predicate IsTrailSurrogate(c: CodeUnit) { 0xDC00 <= c <= 0xDFFF }

  function HexDigit(d: nat): CodeUnit
    requires d < 16
  {
    if d < 10 then 0x30 + d else 0x61 + (d - 10)
  }

  function Hex4(c: CodeUnit): Text {
    [HexDigit(c / 16 / 16 / 16), HexDigit(c / 16 / 16 % 16), HexDigit(c / 16 % 16), HexDigit(c % 16)]
  }

  /** One code unit inside quotes, in front of `rest`; the neighbours tell whether a surrogate is half of a pair. */
  function QuoteUnit(c: CodeUnit, afterLead: bool, next: Text, rest: Text): Text {
    if c == QUOTE || c == BACKSLASH then [BACKSLASH, c] + rest
    else if c == 0x08 then [BACKSLASH, 0x62] + rest
    else if c == 0x09 then [BACKSLASH, 0x74] + rest
    else if c == 0x0A then [BACKSLASH, 0x6E] + rest
    else if c == 0x0C then [BACKSLASH, 0x66] + rest
    else if c == 0x0D then [BACKSLASH, 0x72] + rest
    else if c < 0x20
      || (IsLeadSurrogate(c) && !(next != [] && IsTrailSurrogate(next[0])))
      || (IsTrailSurrogate(c) && !afterLead)
    then [BACKSLASH, 0x75] + Hex4(c) + rest
    else [c] + rest
  }

  /** The units of a string and its closing quote, in front of `rest`. */
  function QuoteUnits(s: Text, afterLead: bool, rest: Text): Text {
    if s == [] then [QUOTE] + rest
    else QuoteUnit(s[0], afterLead, s[1..], QuoteUnits(s[1..], IsLeadSurrogate(s[0]), rest))
  }

  function Quote(s: Text, rest: Text): Text {
    [QUOTE] + QuoteUnits(s, false, rest)
  }

  function Decimal(n: nat): Text {
    if n < 10 then [0x30 + n] else Decimal(n / 10) + [0x30 + n % 10]
  }

  function PrintInt(n: int): Text {
    if n < 0 then [0x2D] + Decimal(-n) else Decimal(n)
  }

  /** The text of a document in front of `rest`. */
  function Print(d: Doc, rest: Text): Text {
    match d
    case DNull => [0x6E, 0x75, 0x6C, 0x6C] + rest
    case DBool(true) => [0x74, 0x72, 0x75, 0x65] + rest
    case DBool(false) => [0x66, 0x61, 0x6C, 0x73, 0x65] + rest
    case DInt(n) => PrintInt(n) + rest
    case DStr(s) => Quote(s, rest)
    case DArr(items) => [0x5B] + PrintItems(items, true, rest)
    case DObj(fields) => [0x7B] + PrintFields(fields, true, rest)
  }

  function Separator(first: bool): Text {
    if first then [] else [COMMA]
  }

  function PrintItems(items: seq<Doc>, first: bool, rest: Text): Text {
    if items == [] then [0x5D] + rest
    else Separator(first) + Print(items[0], PrintItems(items[1..], false, rest))
  }

  function PrintFields(fields: seq<Entry<Doc>>, first: bool, rest: Text): Text {
    if fields == [] then [0x7D] + rest
    else
      var value := Print(fields[0].value, PrintFields(fields[1..], false, rest));
      Separator(first) + Quote(fields[0].key, [COLON] + value)
  }

  function Stringify(v: Json): Text
    requires !v.Undefined?
  {
    Print(Erase(v), [])
  }

  /** The text that every digest in the repository hashes. */
  function CanonicalText(v: Json): Text
    requires !v.Undefined?
  {
    Stringify(Stable(v))
  }
}
