/** What was written reads back: the unmanaged assignments in their order, then the managed values. */
module EnvironmentFileTheorems {
  import opened Options
  import opened KeyedSequences
  import opened EnvironmentFile

  /******* Lines of a joined text *******/

  predicate OneLine(line: Text) { forall i :: 0 <= i < |line| ==> line[i] != LF }

  /** Reading a line back loses one carriage return at its end. */
  function Stripped(line: Text): Text {
    if line != [] && line[|line| - 1] == CR then line[..|line| - 1] else line
  }

  lemma {:induction false} LineThenRest(line: Text, rest: Text)
    requires OneLine(line)
    ensures Lines(line + ([LF] + rest)) == [Stripped(line)] + Lines(rest)
  {
    var t := line + ([LF] + rest);
    if line == [] {
      assert t == [LF] + rest && t[1..] == rest;
    } else {
      var tail := line[1..];
      assert t[0] == line[0] && t[1..] == tail + ([LF] + rest);
      if line[0] == CR && tail == [] {
        assert t[1] == LF && t[2..] == rest;
        assert Stripped(line) == [];
      } else {
        assert tail != [] ==> t[1] == tail[0];
        LineThenRest(tail, rest);
        assert Stripped(line) == [line[0]] + Stripped(tail);
        assert ([Stripped(tail)] + Lines(rest))[1..] == Lines(rest);
      }
    }
  }

  function StrippedAll(lines: seq<Text>): seq<Text> {
    if lines == [] then [] else [Stripped(lines[0])] + StrippedAll(lines[1..])
  }

  lemma {:induction false} LinesAreOneLine(t: Text)
    ensures forall i :: 0 <= i < |Lines(t)| ==> OneLine(Lines(t)[i])
    decreases |t|
  {
    if t != [] {
      if t[0] == LF {
        LinesAreOneLine(t[1..]);
      } else if t[0] == CR && |t| > 1 && t[1] == LF {
        LinesAreOneLine(t[2..]);
      } else {
        LinesAreOneLine(t[1..]);
      }
    }
  }

  lemma {:induction false} LinesOfJoin(lines: seq<Text>, rest: Text)
    requires forall i :: 0 <= i < |lines| ==> OneLine(lines[i])
    requires lines != []
    ensures Lines(Join(lines, [LF] + rest)) == StrippedAll(lines) + Lines(rest)
    decreases lines
  {
    if |lines| == 1 {
      LineThenRest(lines[0], rest);
      assert lines[1..] == [];
      assert StrippedAll(lines) == [Stripped(lines[0])];
    } else {
      LinesOfJoin(lines[1..], rest);
      LineThenRest(lines[0], Join(lines[1..], [LF] + rest));
    }
  }

  /******* Assignments *******/

  lemma {:induction false} AssignmentsAppend(a: seq<Text>, b: seq<Text>)
    ensures Assignments(a + b)
         == if Assignments(a).None? || Assignments(b).None? then None else Some(Assignments(a).value + Assignments(b).value)
  {
    if a == [] {
      assert a + b == b;
      var y := Assignments(b);
      assert y.Some? ==> [] + y.value == y.value;
    } else {
      assert (a + b)[1..] == a[1..] + b;
      AssignmentsAppend(a[1..], b);
      var x, y := Assignments(a[1..]), Assignments(b);
      if x.Some? && y.Some? && Read(a[0]).Assignment? {
        assert [Read(a[0]).entry] + (x.value + y.value) == ([Read(a[0]).entry] + x.value) + y.value;
      }
    }
  }

  /** A valid line means the same without the carriage return at its end: only a comment can have one. */
  lemma StrippedReadsSame(line: Text)
    requires !Read(line).Invalid?
    ensures Read(Stripped(line)) == Read(line)
  {
  }

  lemma {:induction false} StrippedAssignments(lines: seq<Text>)
    requires Assignments(lines).Some?
    ensures Assignments(StrippedAll(lines)) == Assignments(lines)
  {
    if lines != [] {
      StrippedReadsSame(lines[0]);
      StrippedAssignments(lines[1..]);
    }
  }

  /** The assignments of the other keys, in order. */
  function Unmanaged(entries: seq<Entry<Text>>, managed: set<Text>): seq<Entry<Text>> {
    if entries == [] then []
    else if entries[0].key in managed then Unmanaged(entries[1..], managed)
    else [entries[0]] + Unmanaged(entries[1..], managed)
  }

  lemma {:induction false} RetainedAssignments(lines: seq<Text>, managed: set<Text>)
    requires Assignments(lines).Some?
    ensures Assignments(Retained(lines, managed)) == Some(Unmanaged(Assignments(lines).value, managed))
  {
    if lines != [] {
      RetainedAssignments(lines[1..], managed);
      ReadKey(lines[0]);
    }
  }

  lemma ReadKey(line: Text)
    ensures Read(line).Assignment? ==> KeyOf(line) == Some(Read(line).entry.key)
    ensures Read(line).Ignored? ==> KeyOf(line).None?
  {
  }

  lemma {:induction false} DroppedAssignments(lines: seq<Text>)
    ensures Assignments(DropTrailingEmpty(lines)) == Assignments(lines)
    decreases |lines|
  {
    if lines != [] && lines[|lines| - 1] == [] {
      var front := lines[..|lines| - 1];
      DroppedAssignments(front);
      AssignmentsAppend(front, [[]]);
      assert lines == front + [[]];
      assert Assignments([[]]) == Some([]);
      var x := Assignments(front);
      assert x.Some? ==> x.value + [] == x.value;
    }
  }

  lemma {:induction false} RetainedOneLine(lines: seq<Text>, managed: set<Text>)
    requires forall i :: 0 <= i < |lines| ==> OneLine(lines[i])
    ensures forall i :: 0 <= i < |Retained(lines, managed)| ==> OneLine(Retained(lines, managed)[i])
  {
    if lines != [] { RetainedOneLine(lines[1..], managed); }
  }

  lemma {:induction false} DroppedPrefix(lines: seq<Text>)
    ensures DropTrailingEmpty(lines) <= lines
    decreases |lines|
  {
    if lines != [] && lines[|lines| - 1] == [] { DroppedPrefix(lines[..|lines| - 1]); }
  }

  /******* The managed values *******/

  predicate IsKey(key: Text) {
    key != [] && IsUpper(key[0]) && forall i :: 0 <= i < |key| ==> IsKeyChar(key[i])
  }

  /** Keys and values that can be written and read back. */
  predicate Writable(values: seq<Entry<Text>>) {
    forall i :: 0 <= i < |values| ==> IsKey(values[i].key) && Plain(values[i].value)
  }

  function AssignmentLine(e: Entry<Text>): Text { e.key + [EQUALS] + e.value }

  lemma {:induction false} RunOfKey(key: Text, rest: Text)
    requires forall i :: 0 <= i < |key| ==> IsKeyChar(key[i])
    ensures Run(key + ([EQUALS] + rest)) == |key|
  {
    var line := key + ([EQUALS] + rest);
    if key != [] {
      assert line[1..] == key[1..] + ([EQUALS] + rest);
      RunOfKey(key[1..], rest);
    }
  }

  lemma ReadAssignment(e: Entry<Text>)
    requires IsKey(e.key) && Plain(e.value)
    ensures Read(AssignmentLine(e)) == Assignment(e)
  {
    var line := AssignmentLine(e);
    assert line == e.key + ([EQUALS] + e.value);
    RunOfKey(e.key, e.value);
    assert line[..|e.key|] == e.key && line[|e.key| + 1..] == e.value;
  }

  lemma LineOfAssignment(e: Entry<Text>, rest: Text)
    requires IsKey(e.key) && Plain(e.value)
    ensures Lines(AssignmentLine(e) + ([LF] + rest)) == [AssignmentLine(e)] + Lines(rest)
  {
    KeyIsPlain(e.key);
    LineThenRest(AssignmentLine(e), rest);
    assert Stripped(AssignmentLine(e)) == AssignmentLine(e);
  }

  lemma AssignmentFirst(e: Entry<Text>, lines: seq<Text>)
    requires IsKey(e.key) && Plain(e.value) && Assignments(lines).Some?
    ensures Assignments([AssignmentLine(e)] + lines) == Some([e] + Assignments(lines).value)
  {
    ReadAssignment(e);
    assert ([AssignmentLine(e)] + lines)[1..] == lines;
  }

  lemma {:induction false} PrintedValues(values: seq<Entry<Text>>)
    requires Writable(values)
    ensures Assignments(Lines(PrintValues(values))) == Some(values)
  {
    if values == [] {
      var lines := Lines([]);
      assert lines[1..] == [];
    } else {
      var e, rest := values[0], PrintValues(values[1..]);
      PrintedValues(values[1..]);
      assert PrintValues(values) == AssignmentLine(e) + ([LF] + rest);
      LineOfAssignment(e, rest);
      AssignmentFirst(e, Lines(rest));
      assert values == [e] + values[1..];
    }
  }

  lemma KeyIsPlain(key: Text)
    requires IsKey(key)
    ensures Plain(key)
  {
  }

  /******* The whole file *******/

  /** Header: a comment on one line that does not end in a carriage return. */
  predicate IsComment(header: Text) { header != [] && header[0] == HASH && Plain(header) }

  lemma TailAssignments(header: Text, values: seq<Entry<Text>>)
    requires IsComment(header) && Writable(values)
    ensures Assignments(Lines([LF] + (header + ([LF] + PrintValues(values))))) == Some(values)
  {
    var rest := header + ([LF] + PrintValues(values));
    LineThenRest([], rest);
    assert [] + ([LF] + rest) == [LF] + rest;
    LineThenRest(header, PrintValues(values));
    assert Stripped(header) == header;
    PrintedValues(values);
    assert ([header] + Lines(PrintValues(values)))[1..] == Lines(PrintValues(values));
    assert ([[]] + Lines(rest))[1..] == Lines(rest);
  }

  /** The file that is written assigns the unmanaged keys of the old file, in their order, and then the managed values. */
  lemma NextAssignments(t: Text, managed: set<Text>, header: Text, values: seq<Entry<Text>>)
    requires Assignments(Lines(t)).Some? && IsComment(header) && Writable(values)
    ensures Assignments(Lines(NextText(t, managed, header, values)))
         == Some(Unmanaged(Assignments(Lines(t)).value, managed) + values)
  {
    var retained := Retained(Lines(t), managed);
    var kept := DropTrailingEmpty(retained);
    var tail := [LF] + (header + ([LF] + PrintValues(values)));
    TailAssignments(header, values);
    RetainedAssignments(Lines(t), managed);
    DroppedAssignments(retained);
    LinesAreOneLine(t);
    RetainedOneLine(Lines(t), managed);
    DroppedPrefix(retained);
    assert [LF, LF] + (header + ([LF] + PrintValues(values))) == [LF] + tail;
    if kept == [] {
      LineThenRest([], tail);
      assert [] + ([LF] + tail) == [LF] + tail;
      AssignmentsAppend([[]], Lines(tail));
      assert Assignments([[]]) == Some([]);
    } else {
      LinesOfJoin(kept, tail);
      StrippedAssignments(kept);
      AssignmentsAppend(StrippedAll(kept), Lines(tail));
    }
  }

  /** The other lines stay in order; at most a carriage return at the end of one, and empty lines at the end, are lost. */
  lemma OtherLinesStay(t: Text, managed: set<Text>, header: Text, values: seq<Entry<Text>>)
    requires DropTrailingEmpty(Retained(Lines(t), managed)) != []
    ensures StrippedAll(DropTrailingEmpty(Retained(Lines(t), managed))) <= Lines(NextText(t, managed, header, values))
  {
    var retained := Retained(Lines(t), managed);
    var tail := [LF] + (header + ([LF] + PrintValues(values)));
    LinesAreOneLine(t);
    RetainedOneLine(Lines(t), managed);
    DroppedPrefix(retained);
    assert [LF, LF] + (header + ([LF] + PrintValues(values))) == [LF] + tail;
    LinesOfJoin(DropTrailingEmpty(retained), tail);
  }

  lemma {:induction false} UnmanagedKeys(entries: seq<Entry<Text>>, managed: set<Text>)
    ensures forall key :: HasKey(Unmanaged(entries, managed), key) <==> HasKey(entries, key) && key !in managed
  {
    if entries != [] {
      UnmanagedKeys(entries[1..], managed);
      HasKeySplit(entries);
      if entries[0].key !in managed {
        var u := Unmanaged(entries, managed);
        HasKeySplit(u);
        assert u[1..] == Unmanaged(entries[1..], managed);
      }
    }
  }

  lemma RemoveUpdated(m: map<Text, Text>, e: Entry<Text>, managed: set<Text>)
    ensures m[e.key := e.value] - managed == if e.key in managed then m - managed else (m - managed)[e.key := e.value]
  {
  }

  lemma {:induction false} UnmanagedMap(entries: seq<Entry<Text>>, managed: set<Text>)
    ensures ToMap(Unmanaged(entries, managed)) == ToMap(entries) - managed
  {
    if entries != [] {
      UnmanagedMap(entries[1..], managed);
      ConsMap(entries[0], Unmanaged(entries[1..], managed));
      RemoveUpdated(ToMap(entries[1..]), entries[0], managed);
    }
  }

  lemma {:induction false} UnmanagedDistinct(entries: seq<Entry<Text>>, managed: set<Text>)
    requires DistinctKeys(entries)
    ensures DistinctKeys(Unmanaged(entries, managed))
  {
    if entries != [] {
      UnmanagedDistinct(entries[1..], managed);
      UnmanagedKeys(entries[1..], managed);
      assert !HasKey(entries[1..], entries[0].key);
      if entries[0].key !in managed { PrependDistinct(entries[0], Unmanaged(entries[1..], managed)); }
    }
  }

  lemma PrependDistinct(e: Entry<Text>, s: seq<Entry<Text>>)
    requires DistinctKeys(s) && !HasKey(s, e.key)
    ensures DistinctKeys([e] + s)
  {
  }

  lemma JoinedDistinct(a: seq<Entry<Text>>, b: seq<Entry<Text>>)
    requires DistinctKeys(a) && DistinctKeys(b) && forall i :: 0 <= i < |a| ==> !HasKey(b, a[i].key)
    ensures DistinctKeys(a + b)
  {
    var all := a + b;
    forall i, j | 0 <= i < j < |all| ensures all[i].key != all[j].key {
      if i < |a| && |a| <= j { assert b[j - |a|].key == all[j].key; }
    }
  }

  lemma UpdateBeside(m: map<Text, Text>, n: map<Text, Text>, key: Text, value: Text)
    requires key !in n
    ensures m[key := value] + n == (m + n)[key := value]
  {
  }

  lemma {:induction false} JoinedMap(a: seq<Entry<Text>>, b: seq<Entry<Text>>)
    requires ToMap(a).Keys !! ToMap(b).Keys
    ensures ToMap(a + b) == ToMap(a) + ToMap(b)
  {
    if a == [] {
      assert a + b == b;
    } else {
      JoinedMap(a[1..], b);
      assert a + b == [a[0]] + (a[1..] + b);
      ConsMap(a[0], a[1..] + b);
      UpdateBeside(ToMap(a[1..]), ToMap(b), a[0].key, a[0].value);
    }
  }

  predicate KeysIn(values: seq<Entry<Text>>, managed: set<Text>) {
    forall i :: 0 <= i < |values| ==> values[i].key in managed
  }

  /** The merged file reads as the old assignments without the managed keys, together with the managed values. */
  lemma MergeAgrees(t: Text, managed: set<Text>, header: Text, values: seq<Entry<Text>>)
    requires Readable(t) && IsComment(header)
    requires Writable(values) && DistinctKeys(values) && KeysIn(values, managed)
    ensures var next := NextText(t, managed, header, values);
            && Readable(next)
            && ToMap(Assignments(Lines(next)).value)
               == (ToMap(Assignments(Lines(t)).value) - managed) + ToMap(values)
  {
    var entries := Assignments(Lines(t)).value;
    NextAssignments(t, managed, header, values);
    var kept := Unmanaged(entries, managed);
    UnmanagedMap(entries, managed);
    UnmanagedDistinct(entries, managed);
    UnmanagedKeys(entries, managed);
    forall i | 0 <= i < |kept| ensures !HasKey(values, kept[i].key) {
      assert HasKey(kept, kept[i].key);
    }
    JoinedDistinct(kept, values);
    JoinedMap(kept, values);
  }

  lemma {:induction false} UnmanagedTwice(entries: seq<Entry<Text>>, values: seq<Entry<Text>>, managed: set<Text>)
    requires KeysIn(values, managed)
    ensures Unmanaged(Unmanaged(entries, managed) + values, managed) == Unmanaged(entries, managed)
  {
    var u := Unmanaged(entries, managed);
    if entries == [] {
      AllManaged(values, managed);
      assert [] + values == values;
    } else {
      UnmanagedTwice(entries[1..], values, managed);
      if entries[0].key !in managed {
        assert (u + values)[1..] == Unmanaged(entries[1..], managed) + values;
      }
    }
  }

  lemma {:induction false} AllManaged(values: seq<Entry<Text>>, managed: set<Text>)
    requires KeysIn(values, managed)
    ensures Unmanaged(values, managed) == []
  {
    if values != [] { AllManaged(values[1..], managed); }
  }

  /** Writing the same managed values again changes no assignment and no order, though the text gains a header line. */
  lemma ReapplyKeepsAssignments(t: Text, managed: set<Text>, header: Text, values: seq<Entry<Text>>)
    requires Readable(t) && IsComment(header)
    requires Writable(values) && DistinctKeys(values) && KeysIn(values, managed)
    ensures var next := NextText(t, managed, header, values);
            Assignments(Lines(NextText(next, managed, header, values))) == Assignments(Lines(next))
  {
    var next := NextText(t, managed, header, values);
    MergeAgrees(t, managed, header, values);
    NextAssignments(t, managed, header, values);
    NextAssignments(next, managed, header, values);
    UnmanagedTwice(Assignments(Lines(t)).value, values, managed);
  }
}
