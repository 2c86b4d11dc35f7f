/** The local session's file formats and the command's outcome, told without the parser and the encoder. */
module LocalSessionRules {
  import opened Options
  import opened KeyedSequences
  import opened EnvironmentFile
  import opened EnvironmentFileTheorems
  import opened Base64
  import opened LocalSession

  /******* Base64 *******/

  /** The alphabet of table 1 in section 4 of RFC 4648; the sign that fills a short group is `=`. */
  lemma AlphabetIs(v: Sextet)
    ensures Symbol(v) == if v < 26 then 'A' as int + v
                         else if v < 52 then 'a' as int + (v - 26)
                         else if v < 62 then '0' as int + (v - 52)
                         else if v == 62 then '+' as int else '/' as int
    ensures PAD == '=' as int
  {
  }

  /** The decoder reads both alphabets, of tables 1 and 2 of RFC 4648, and nothing else. */
  lemma DecoderReads(c: CodeUnit, v: Sextet)
    ensures ValueOf(c) == v <==> c == Symbol(v) || (v == 62 && c == '-' as int) || (v == 63 && c == '_' as int)
    ensures ValueOf(c) == -1 || 0 <= ValueOf(c) < 64
  {
    SymbolRoundTrip(v);
  }

  /** The 24-bit number that four values of the alphabet make. */
  function Number(v: int, w: int, x: int, y: int): int { 0x4_0000 * v + 0x1000 * w + 0x40 * x + y }

  /** Three bytes are written as the four values that make the same number. */
  lemma WholeGroup(a: Byte, b: Byte, c: Byte, rest: seq<Byte>)
    ensures var t := Encode([a, b, c] + rest);
            && |t| >= 4 && t[4..] == Encode(rest)
            && Number(ValueOf(t[0]), ValueOf(t[1]), ValueOf(t[2]), ValueOf(t[3])) == 0x1_0000 * a + 0x100 * b + c
  {
    var bytes := [a, b, c] + rest;
    assert bytes[3..] == rest && bytes[0] == a && bytes[1] == b && bytes[2] == c;
    SymbolRoundTrip(a / 4);
    SymbolRoundTrip(a % 4 * 16 + b / 16);
    SymbolRoundTrip(b % 16 * 4 + c / 64);
    SymbolRoundTrip(c % 64);
  }

  /** A short group at the end is written as if zero bits followed, with a sign for each value that is missing. */
  lemma ShortGroups(a: Byte, b: Byte)
    ensures var t := Encode([a, b]);
            |t| == 4 && t[3] == PAD && Number(ValueOf(t[0]), ValueOf(t[1]), ValueOf(t[2]), 0) == 0x1_0000 * a + 0x100 * b
    ensures var t := Encode([a]);
            |t| == 4 && t[2] == PAD == t[3] && Number(ValueOf(t[0]), ValueOf(t[1]), 0, 0) == 0x1_0000 * a
  {
    SymbolRoundTrip(a / 4);
    SymbolRoundTrip(a % 4 * 16 + b / 16);
    SymbolRoundTrip(b % 16 * 4);
    SymbolRoundTrip(a % 4 * 16);
  }

  /** A signing key passes exactly if it is the encoding of 32 bytes. */
  lemma SigningKeyExactly(value: Text)
    ensures ValidSigningKey(value) <==> exists b: seq<Byte> :: |b| == 32 && value == Encode(b)
  {
    forall b ensures Decode(Encode(b)) == b { RoundTrip(b); }
    ValidExactlyCanonical(Decode, value);
  }

  /******* Lines *******/

  /** The lines with their ends put back. */
  function Rejoined(lines: seq<Text>, ends: seq<Text>): Text
    requires |lines| == |ends| + 1
  {
    if ends == [] then lines[0] else lines[0] + (ends[0] + Rejoined(lines[1..], ends[1..]))
  }

  /** Each line ends in a line feed, with the carriage return before it if there is one; no line holds a line feed. */
  predicate AreLineEnds(lines: seq<Text>, ends: seq<Text>)
    requires |lines| == |ends| + 1
  {
    && (forall i :: 0 <= i < |lines| ==> 0x0A !in lines[i])
    && (forall i :: 0 <= i < |ends| ==>
          ends[i] == [0x0D, 0x0A] || (ends[i] == [0x0A] && (lines[i] == [] || lines[i][|lines[i]| - 1] != 0x0D)))
  }

  /** A text is split at its line ends, and nowhere else. */
  lemma {:induction false} LinesExactly(t: Text) returns (ends: seq<Text>)
    ensures |Lines(t)| == |ends| + 1 && Rejoined(Lines(t), ends) == t && AreLineEnds(Lines(t), ends)
    decreases |t|
  {
    if t == [] {
      ends := [];
    } else if t[0] == LF || (t[0] == CR && |t| > 1 && t[1] == LF) {
      var n := if t[0] == LF then 1 else 2;
      var rest := LinesExactly(t[n..]);
      ends := [t[..n]] + rest;
      assert t[..n] == (if n == 1 then [0x0A] else [0x0D, 0x0A]);
      EmptyFirstLine(Lines(t[n..]), t[..n], rest);
      assert t[..n] + t[n..] == t;
    } else {
      ends := LinesExactly(t[1..]);
      LongerFirstLine(t, ends);
    }
  }

  lemma EmptyFirstLine(lines: seq<Text>, end: Text, ends: seq<Text>)
    requires |lines| == |ends| + 1 && AreLineEnds(lines, ends) && (end == [0x0A] || end == [0x0D, 0x0A])
    ensures Rejoined([[]] + lines, [end] + ends) == end + Rejoined(lines, ends) && AreLineEnds([[]] + lines, [end] + ends)
  {
    assert ([[]] + lines)[1..] == lines && ([end] + ends)[1..] == ends;
    assert [] + (end + Rejoined(lines, ends)) == end + Rejoined(lines, ends);
  }

  lemma RejoinLonger(c: CodeUnit, lines: seq<Text>, ends: seq<Text>)
    requires |lines| == |ends| + 1
    ensures Rejoined([[c] + lines[0]] + lines[1..], ends) == [c] + Rejoined(lines, ends)
  {
    var longer := [[c] + lines[0]] + lines[1..];
    assert longer[1..] == lines[1..];
    if ends != [] {
      var rest := ends[0] + Rejoined(lines[1..], ends[1..]);
      assert ([c] + lines[0]) + rest == [c] + (lines[0] + rest);
    }
  }

  lemma LongerFirstLine(t: Text, ends: seq<Text>)
    requires t != [] && t[0] != LF && !(t[0] == CR && |t| > 1 && t[1] == LF)
    requires |Lines(t[1..])| == |ends| + 1 && Rejoined(Lines(t[1..]), ends) == t[1..] && AreLineEnds(Lines(t[1..]), ends)
    ensures |Lines(t)| == |ends| + 1 && Rejoined(Lines(t), ends) == t && AreLineEnds(Lines(t), ends)
  {
    var rest, lines := Lines(t[1..]), Lines(t);
    RejoinLonger(t[0], rest, ends);
    assert lines == [[t[0]] + rest[0]] + rest[1..] && t == [t[0]] + t[1..];
    if ends != [] && rest[0] == [] { FirstEnd(t[1..], rest, ends); }
    EndsOfLonger(t[0], rest, ends);
  }

  lemma FirstEnd(t: Text, lines: seq<Text>, ends: seq<Text>)
    requires |lines| == |ends| + 1 && Rejoined(lines, ends) == t && ends != [] && lines[0] == [] && ends[0] != []
    ensures t != [] && t[0] == ends[0][0]
  {
    assert [] + (ends[0] + Rejoined(lines[1..], ends[1..])) == ends[0] + Rejoined(lines[1..], ends[1..]);
  }

  lemma EndsOfLonger(c: CodeUnit, lines: seq<Text>, ends: seq<Text>)
    requires |lines| == |ends| + 1 && AreLineEnds(lines, ends) && c != 0x0A
    requires ends != [] && lines[0] == [] && c == 0x0D ==> ends[0] != [0x0A]
    ensures AreLineEnds([[c] + lines[0]] + lines[1..], ends)
  {
    var longer := [[c] + lines[0]] + lines[1..];
    assert forall i :: 0 < i < |lines| ==> longer[i] == lines[i];
    forall i | 0 <= i < |ends|
      ensures ends[i] == [0x0D, 0x0A] || (ends[i] == [0x0A] && (longer[i] == [] || longer[i][|longer[i]| - 1] != 0x0D))
    {
      if i == 0 && lines[0] != [] { assert longer[0][|longer[0]| - 1] == lines[0][|lines[0]| - 1]; }
    }
  }

  /** A capital letter, then capital letters, digits and underscores. */
  predicate IsName(key: Text) {
    && key != [] && 'A' as int <= key[0] <= 'Z' as int
    && forall i :: 0 <= i < |key| ==>
         'A' as int <= key[i] <= 'Z' as int || '0' as int <= key[i] <= '9' as int || key[i] == '_' as int
  }

  predicate HasNoLineTerminator(value: Text) {
    forall i :: 0 <= i < |value| ==> value[i] != 0x0A && value[i] != 0x0D && value[i] != 0x2028 && value[i] != 0x2029
  }

  lemma KeyOfExactly(line: Text, key: Text)
    ensures KeyOf(line) == Some(key) <==> IsName(key) && exists rest: Text :: line == key + [EQUALS] + rest
  {
    if KeyOf(line) == Some(key) {
      assert line == key + [EQUALS] + line[Run(line) + 1..];
    }
    if rest: Text :| IsName(key) && line == key + [EQUALS] + rest {
      assert line == key + ([EQUALS] + rest);
      RunOfKey(key, rest);
    }
  }

  /** A line is ignored if it is empty or starts with a hash sign, and is otherwise read exactly as a name, `=` and a value. */
  lemma ReadExactly(line: Text, key: Text, value: Text)
    ensures EQUALS == '=' as int
    ensures Read(line).Ignored? <==> line == [] || line[0] == '#' as int
    ensures Read(line) == Assignment(Entry(key, value))
       <==> line == key + [EQUALS] + value && IsName(key) && HasNoLineTerminator(value)
  {
    KeyOfExactly(line, key);
    if line == key + [EQUALS] + value && IsName(key) {
      assert line == key + ([EQUALS] + value);
      RunOfKey(key, value);
      assert line[..|key|] == key && line[|key| + 1..] == value;
    }
    if Read(line) == Assignment(Entry(key, value)) {
      assert line == line[..Run(line)] + [EQUALS] + line[Run(line) + 1..];
    }
  }

  /******* The written file, line by line *******/

  function AssignmentLines(values: seq<Entry<Text>>): seq<Text> {
    if values == [] then [] else [values[0].key + [EQUALS] + values[0].value] + AssignmentLines(values[1..])
  }

  lemma {:induction false} PrintedLines(values: seq<Entry<Text>>)
    requires Writable(values)
    ensures Lines(PrintValues(values)) == AssignmentLines(values) + [[]]
  {
    if values != [] {
      PrintedLines(values[1..]);
      LineOfAssignment(values[0], PrintValues(values[1..]));
      assert PrintValues(values) == AssignmentLine(values[0]) + ([LF] + PrintValues(values[1..]));
      assert [AssignmentLine(values[0])] + (AssignmentLines(values[1..]) + [[]]) == AssignmentLines(values) + [[]];
    }
  }

  /**
   The written file: the kept lines, without empty ones at their end, an empty line, the header, one line per managed value,
   and a line feed at the end. If no line is kept, an empty one stands in their place.
   */
  lemma WrittenLines(t: Text, managed: set<Text>, header: Text, values: seq<Entry<Text>>)
    requires IsComment(header) && Writable(values)
    ensures var kept := DropTrailingEmpty(Retained(Lines(t), managed));
            Lines(NextText(t, managed, header, values))
            == StrippedAll(if kept == [] then [[]] else kept) + ([[], header] + (AssignmentLines(values) + [[]]))
  {
    var retained := Retained(Lines(t), managed);
    var kept := DropTrailingEmpty(retained);
    var first := if kept == [] then [[]] else kept;
    var rest := header + ([LF] + PrintValues(values));
    LinesAreOneLine(t);
    RetainedOneLine(Lines(t), managed);
    DroppedPrefix(retained);
    assert Join(first, [LF] + ([LF] + rest)) == NextText(t, managed, header, values) by {
      assert [LF, LF] + rest == [LF] + ([LF] + rest);
      assert [] + ([LF] + ([LF] + rest)) == [LF] + ([LF] + rest);
    }
    LinesOfJoin(first, [LF] + rest);
    TailLines(header, values);
  }

  lemma TailLines(header: Text, values: seq<Entry<Text>>)
    requires IsComment(header) && Writable(values)
    ensures Lines([LF] + (header + ([LF] + PrintValues(values)))) == [[], header] + (AssignmentLines(values) + [[]])
  {
    var rest := header + ([LF] + PrintValues(values));
    LineThenRest([], rest);
    assert [] + ([LF] + rest) == [LF] + rest;
    LineThenRest(header, PrintValues(values));
    assert Stripped(header) == header;
    PrintedLines(values);
    assert [[]] + ([header] + (AssignmentLines(values) + [[]])) == [[], header] + (AssignmentLines(values) + [[]]);
  }

  /** Of the lines, exactly those that assign no managed key are kept, in order. */
  lemma {:induction false} RetainedExactly(lines: seq<Text>, managed: set<Text>, line: Text)
    ensures line in Retained(lines, managed)
       <==> line in lines && !exists key :: key in managed && KeyOf(line) == Some(key)
  {
    if lines != [] {
      RetainedExactly(lines[1..], managed, line);
      assert lines == [lines[0]] + lines[1..];
    }
  }

  /******* What the command does *******/

  /** Some identity key is missing from the source, or empty there. */
  predicate LacksIdentity(s: Settings, source: map<Text, Text>) {
    exists i :: 0 <= i < |s.identityKeys| && (s.identityKeys[i] !in source || source[s.identityKeys[i]] == [])
  }

  /** The stored signing key is not one that could be kept. */
  predicate KeyIsBroken(s: Settings, current: map<Text, Text>) {
    s.signingKeyName in current && !ValidSigningKey(current[s.signingKeyName])
  }

  predicate MayConfigure(s: Settings, source: Text, current: Text, mode: Mode) {
    && Readable(source) && Readable(current) && !LacksIdentity(s, ValuesOf(source))
    && (KeyIsBroken(s, ValuesOf(current)) ==> mode == ApplyRotating)
  }

  /** The command fails exactly without readable files, an identity, or a stored key it can keep; it writes only if told to. */
  lemma OutcomeExactly(s: Settings, source: Text, current: Text, mode: Mode, random: seq<Byte>)
    ensures var outcome, may := Configured(s, source, current, mode, random), MayConfigure(s, source, current, mode);
            && (outcome == Failed <==> !may) && (outcome == Previewed <==> may && mode == Preview)
            && (outcome.Written? <==> may && mode != Preview)
  {
  }

  /** The key that is written: a new one if rotating or none is stored, else the stored one. */
  function KeyWritten(s: Settings, stored: map<Text, Text>, mode: Mode, random: seq<Byte>): Text {
    if mode == ApplyRotating || s.signingKeyName !in stored then Encode(random) else stored[s.signingKeyName]
  }

  /** The map holds the identity of the source, this signing key, and everything else as before. */
  predicate IsApplied(s: Settings, next: map<Text, Text>, source: map<Text, Text>, stored: map<Text, Text>, key: Text) {
    && s.signingKeyName in next && next[s.signingKeyName] == key
    && (forall i :: 0 <= i < |s.identityKeys| ==>
          s.identityKeys[i] in next && s.identityKeys[i] in source && next[s.identityKeys[i]] == source[s.identityKeys[i]])
    && (forall k :: k in next && k !in s.identityKeys && k != s.signingKeyName ==> k in stored && next[k] == stored[k])
    && (forall k :: k in stored ==> k in next || k in s.identityKeys || k == s.signingKeyName)
  }

  lemma OverlayIsApplied(s: Settings, m: map<Text, Text>, source: map<Text, Text>, stored: map<Text, Text>, key: Text)
    requires HasIdentity(s, source) && m.Keys == ManagedKeys(s) && m[s.signingKeyName] == key
    requires forall i :: 0 <= i < |s.identityKeys| ==> m[s.identityKeys[i]] == source[s.identityKeys[i]]
    ensures IsApplied(s, (stored - ManagedKeys(s)) + m, source, stored, key)
  {
  }

  /** What is written reads as the source's identity, that signing key, and everything else as it was. */
  lemma AppliedValues(s: Settings, source: Text, current: Text, mode: Mode, random: seq<Byte>, text: Text)
    requires ValidSettings(s) && |random| == 32 && Configured(s, source, current, mode, random) == Written(text)
    ensures Readable(source) && Readable(current) && Readable(text)
    ensures IsApplied(s, ValuesOf(text), ValuesOf(source), ValuesOf(current), KeyWritten(s, ValuesOf(current), mode, random))
  {
    WrittenReadsBack(s, source, current, mode, random);
    ManagedMapAt(s, source, current, mode, random);
    OverlayIsApplied(s, ManagedMap(s, source, current, mode, random), ValuesOf(source), ValuesOf(current),
                     KeyWritten(s, ValuesOf(current), mode, random));
  }
}
