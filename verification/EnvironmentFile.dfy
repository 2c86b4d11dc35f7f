/** Files of `KEY=value` lines: reading them, and replacing the managed keys while keeping every other line. */
module EnvironmentFile {
  import opened Options
  import opened KeyedSequences

  const CR: CodeUnit := 0xD
  const LF: CodeUnit := 0xA
  const HASH: CodeUnit := 0x23
  const EQUALS: CodeUnit := 0x3D

  /******* Lines *******/

  /** `text.split(/\r?\n/)`. */
  function Lines(t: Text): (lines: seq<Text>)
    ensures lines != []
    decreases |t|
  {
    if t == [] then [[]]
    else if t[0] == LF then [[]] + Lines(t[1..])
    else if t[0] == CR && |t| > 1 && t[1] == LF then [[]] + Lines(t[2..])
    else
      var rest := Lines(t[1..]);
      [[t[0]] + rest[0]] + rest[1..]
  }

  /** `lines.join("\n")`, with what follows. */
  function Join(lines: seq<Text>, rest: Text): Text {
    if lines == [] then rest
    else if |lines| == 1 then lines[0] + rest
    else lines[0] + ([LF] + Join(lines[1..], rest))
  }

  /******* One line *******/

  predicate IsUpper(c: CodeUnit) { 0x41 <= c <= 0x5A }

  predicate IsKeyChar(c: CodeUnit) { IsUpper(c) || 0x30 <= c <= 0x39 || c == 0x5F }

  /** What `.` does not match: the line terminators of JavaScript. */
  predicate IsTerminator(c: CodeUnit) { c == LF || c == CR || c == 0x2028 || c == 0x2029 }

  predicate Plain(t: Text) { forall i :: 0 <= i < |t| ==> !IsTerminator(t[i]) }

  /** The number of leading key characters. */
  function Run(line: Text): (n: nat)
    ensures n <= |line|
    ensures forall i :: 0 <= i < n ==> IsKeyChar(line[i])
    ensures n < |line| ==> !IsKeyChar(line[n])
  {
    if line == [] || !IsKeyChar(line[0]) then 0 else 1 + Run(line[1..])
  }

  /** The key that `/^([A-Z][A-Z0-9_]*)=/` finds. */
  function KeyOf(line: Text): Option<Text> {
    if line == [] || !IsUpper(line[0]) || Run(line) == |line| || line[Run(line)] != EQUALS then None
    else Some(line[..Run(line)])
  }

  datatype Line = Ignored | Assignment(entry: Entry<Text>) | Invalid

  function Read(line: Text): Line {
    if line == [] || line[0] == HASH then Ignored
    else
      var key := KeyOf(line);
      if key.None? || !Plain(line[Run(line) + 1..]) then Invalid
      else Assignment(Entry(key.value, line[Run(line) + 1..]))
  }

  /******* Reading a file *******/

  /** The assignments of a file in order, unless some line is invalid. */
  function Assignments(lines: seq<Text>): Option<seq<Entry<Text>>> {
    if lines == [] then Some([])
    else
      var line, rest := Read(lines[0]), Assignments(lines[1..]);
      if line.Invalid? || rest.None? then None
      else if line.Ignored? then rest
      else Some([line.entry] + rest.value)
  }

  /** A file that can be read: every line is valid and no key is assigned twice. */
  predicate Readable(t: Text) {
    Assignments(Lines(t)).Some? && DistinctKeys(Assignments(Lines(t)).value)
  }

  /** What all lines assign, given what was seen and what the rest assigns. */
  predicate Splits(all: Option<seq<Entry<Text>>>, seen: seq<Entry<Text>>, rest: Option<seq<Entry<Text>>>) {
    all == if rest.None? then None else Some(seen + rest.value)
  }

  lemma FirstAssignment(lines: seq<Text>, i: nat)
    requires i < |lines|
    ensures var line, rest := Read(lines[i]), Assignments(lines[i + 1..]);
            Assignments(lines[i..])
            == if line.Invalid? || rest.None? then None
               else if line.Ignored? then rest
               else Some([line.entry] + rest.value)
  {
    assert lines[i..][0] == lines[i] && lines[i..][1..] == lines[i + 1..];
  }

  lemma SplitsNext(all: Option<seq<Entry<Text>>>, seen: seq<Entry<Text>>, e: Entry<Text>, rest: Option<seq<Entry<Text>>>)
    requires Splits(all, seen, if rest.None? then None else Some([e] + rest.value))
    ensures Splits(all, seen + [e], rest)
  {
    if rest.Some? { assert seen + ([e] + rest.value) == (seen + [e]) + rest.value; }
  }

  lemma SplitsEnds(lines: seq<Text>, seen: seq<Entry<Text>>)
    ensures Splits(Assignments(lines), [], Assignments(lines[0..]))
    ensures Splits(Assignments(lines), seen, Assignments(lines[|lines|..])) ==> Assignments(lines) == Some(seen)
  {
    assert lines[0..] == lines && lines[|lines|..] == [];
    var x := Assignments(lines);
    assert x.Some? ==> [] + x.value == x.value;
    assert seen + [] == seen;
  }

  /** The parser as written: a pass over the lines that fills a map. */
  method Parse(t: Text) returns (result: Option<map<Text, Text>>)
    ensures result == if Readable(t) then Some(ToMap(Assignments(Lines(t)).value)) else None
  {
    var lines := Lines(t);
    var values: map<Text, Text> := map[];
    ghost var seen: seq<Entry<Text>> := [];
    ghost var all := Assignments(lines);
    SplitsEnds(lines, seen);
    for i := 0 to |lines|
      invariant DistinctKeys(seen) && values == ToMap(seen)
      invariant Splits(all, seen, Assignments(lines[i..]))
    {
      FirstAssignment(lines, i);
      var line := Read(lines[i]);
      if line.Ignored? { continue; }
      if line.Invalid? { return None; }
      var entry := line.entry;
      ghost var rest := Assignments(lines[i + 1..]);
      SplitsNext(all, seen, entry, rest);
      if entry.key in values {
        if rest.Some? { RepeatedKey(seen, entry, rest.value); }
        return None;
      }
      AppendDistinct(seen, entry);
      AppendMap(seen, entry);
      seen := seen + [entry];
      values := values[entry.key := entry.value];
    }
    SplitsEnds(lines, seen);
    return Some(values);
  }

  lemma RepeatedKey(seen: seq<Entry<Text>>, entry: Entry<Text>, rest: seq<Entry<Text>>)
    requires HasKey(seen, entry.key)
    ensures !DistinctKeys(seen + [entry] + rest)
  {
    var i :| 0 <= i < |seen| && seen[i].key == entry.key;
    var all := seen + [entry] + rest;
    assert all[i].key == all[|seen|].key;
  }

  /******* Writing a file *******/

  predicate Managed(line: Text, managed: set<Text>) { KeyOf(line).Some? && KeyOf(line).value in managed }

  /** The lines that assign no managed key. */
  function Retained(lines: seq<Text>, managed: set<Text>): seq<Text> {
    if lines == [] then []
    else if Managed(lines[0], managed) then Retained(lines[1..], managed)
    else [lines[0]] + Retained(lines[1..], managed)
  }

  function DropTrailingEmpty(lines: seq<Text>): seq<Text> {
    if lines != [] && lines[|lines| - 1] == [] then DropTrailingEmpty(lines[..|lines| - 1]) else lines
  }

  /** One line per managed value, and the newline that ends the file. */
  function PrintValues(values: seq<Entry<Text>>): Text {
    if values == [] then []
    else values[0].key + ([EQUALS] + (values[0].value + ([LF] + PrintValues(values[1..]))))
  }

  /** The new file: the retained lines, a blank line, a header comment, and the managed values. */
  function NextText(t: Text, managed: set<Text>, header: Text, values: seq<Entry<Text>>): Text {
    Join(DropTrailingEmpty(Retained(Lines(t), managed)), [LF, LF] + (header + ([LF] + PrintValues(values))))
  }
}
