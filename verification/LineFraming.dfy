/**
 Newline framing of a stream that arrives in chunks: complete lines are handled in order, empty ones are skipped, until a
 handler is done. What is handled does not depend on how the stream is cut.
 */
module LineFraming {
  import opened KeyedSequences

  const LF: CodeUnit := 0xA

  /** The unconsumed text and what the handler has computed. */
  datatype Stream<S> = Stream(buffer: Text, core: S)

  /** What to do with a line, and when to stop. */
  datatype Handler<!S> = Handler(step: (S, Text) -> S, done: S -> bool)

  /** The position of the first newline; the length when there is none. */
  function IndexOf(t: Text): (n: nat)
    ensures n <= |t|
  {
    if t == [] || t[0] == LF then 0 else 1 + IndexOf(t[1..])
  }

  /** That is: up to there no line feed, and there one, unless the text ends. */
  lemma {:induction false} IndexOfExactly(t: Text)
    ensures forall i :: 0 <= i < IndexOf(t) ==> t[i] != 0x0A
    ensures IndexOf(t) < |t| ==> t[IndexOf(t)] == 0x0A
  {
    if t != [] && t[0] != LF {
      IndexOfExactly(t[1..]);
      assert forall i :: 0 < i < |t| ==> t[i] == t[1..][i - 1];
    }
  }

  /** Handles the complete lines of the buffer until the handler is done. */
  function Drain<S>(h: Handler<S>, s: Stream<S>): Stream<S>
    decreases |s.buffer|
  {
    var n := IndexOf(s.buffer);
    if h.done(s.core) || n == |s.buffer| then s
    else Drain(h, Stream(s.buffer[n + 1..], AfterLine(h, s.core, s.buffer[..n])))
  }

  function AfterLine<S>(h: Handler<S>, core: S, line: Text): S { if line == [] then core else h.step(core, line) }

  function Feed<S>(h: Handler<S>, s: Stream<S>, chunk: Text): Stream<S> { Drain(h, Stream(s.buffer + chunk, s.core)) }

  function FeedAll<S>(h: Handler<S>, s: Stream<S>, chunks: seq<Text>): Stream<S>
    decreases |chunks|
  {
    if chunks == [] then s else FeedAll(h, Feed(h, s, chunks[0]), chunks[1..])
  }

  /******* Chunks do not matter *******/

  lemma {:induction false} IndexOfAppend(a: Text, b: Text)
    requires IndexOf(a) < |a|
    ensures IndexOf(a + b) == IndexOf(a)
  {
    if a[0] != LF {
      assert (a + b)[1..] == a[1..] + b;
      IndexOfAppend(a[1..], b);
    }
  }

  /** The stream after its first line has been handled. */
  function AfterFirst<S>(h: Handler<S>, s: Stream<S>): (t: Stream<S>)
    requires IndexOf(s.buffer) < |s.buffer|
    ensures |t.buffer| < |s.buffer|
  {
    var n := IndexOf(s.buffer);
    Stream(s.buffer[n + 1..], AfterLine(h, s.core, s.buffer[..n]))
  }

  lemma FirstDrained<S>(h: Handler<S>, s: Stream<S>)
    requires !h.done(s.core) && IndexOf(s.buffer) < |s.buffer|
    ensures Drain(h, s) == Drain(h, AfterFirst(h, s))
  {
  }

  lemma FirstFed<S>(h: Handler<S>, s: Stream<S>, b: Text)
    requires !h.done(s.core) && IndexOf(s.buffer) < |s.buffer|
    ensures Feed(h, s, b) == Feed(h, AfterFirst(h, s), b)
  {
    var n := IndexOf(s.buffer);
    IndexOfAppend(s.buffer, b);
    assert (s.buffer + b)[..n] == s.buffer[..n];
    assert (s.buffer + b)[n + 1..] == s.buffer[n + 1..] + b;
    FirstDrained(h, Stream(s.buffer + b, s.core));
  }

  /** Text that arrives later is handled as if it had been there from the start. */
  lemma {:induction false} DrainAppend<S>(h: Handler<S>, s: Stream<S>, b: Text)
    ensures Feed(h, Drain(h, s), b) == Feed(h, s, b)
    decreases |s.buffer|
  {
    if !h.done(s.core) && IndexOf(s.buffer) < |s.buffer| {
      FirstDrained(h, s);
      FirstFed(h, s, b);
      DrainAppend(h, AfterFirst(h, s), b);
    }
  }

  lemma FeedTwice<S>(h: Handler<S>, s: Stream<S>, a: Text, b: Text)
    ensures Feed(h, Feed(h, s, a), b) == Feed(h, s, a + b)
  {
    DrainAppend(h, Stream(s.buffer + a, s.core), b);
    assert s.buffer + a + b == s.buffer + (a + b);
  }

  function Joined(chunks: seq<Text>): Text { if chunks == [] then [] else chunks[0] + Joined(chunks[1..]) }

  /** No complete line waits in the buffer unless the handler is done. */
  predicate Settled<S>(h: Handler<S>, s: Stream<S>) { h.done(s.core) || IndexOf(s.buffer) == |s.buffer| }

  lemma {:induction false} DrainSettles<S>(h: Handler<S>, s: Stream<S>)
    ensures Settled(h, Drain(h, s))
    decreases |s.buffer|
  {
    if !h.done(s.core) && IndexOf(s.buffer) < |s.buffer| {
      FirstDrained(h, s);
      DrainSettles(h, AfterFirst(h, s));
    }
  }

  lemma {:induction false} ChunksAsOne<S>(h: Handler<S>, s: Stream<S>, chunks: seq<Text>)
    requires Settled(h, s)
    ensures FeedAll(h, s, chunks) == Feed(h, s, Joined(chunks)) && Settled(h, FeedAll(h, s, chunks))
    decreases |chunks|
  {
    if chunks == [] {
      assert s.buffer + [] == s.buffer;
    } else {
      DrainSettles(h, Stream(s.buffer + chunks[0], s.core));
      ChunksAsOne(h, Feed(h, s, chunks[0]), chunks[1..]);
      FeedTwice(h, s, chunks[0], Joined(chunks[1..]));
    }
  }

  /** Two ways of cutting the same stream end in the same state, with the same text left over. */
  lemma ChunkInsensitive<S>(h: Handler<S>, s: Stream<S>, a: seq<Text>, b: seq<Text>)
    requires Settled(h, s) && Joined(a) == Joined(b)
    ensures FeedAll(h, s, a) == FeedAll(h, s, b)
  {
    ChunksAsOne(h, s, a);
    ChunksAsOne(h, s, b);
  }

  /******* The lines, independently of any buffer *******/

  /** The complete lines of a text that are not empty. */
  function CompleteLines(t: Text): seq<Text>
    decreases |t|
  {
    var n := IndexOf(t);
    if n == |t| then [] else Line(t[..n]) + CompleteLines(t[n + 1..])
  }

  function Line(line: Text): seq<Text> { if line == [] then [] else [line] }

  /** Handles lines in turn until the handler is done. */
  function Fold<S>(h: Handler<S>, core: S, lines: seq<Text>): S
    decreases |lines|
  {
    if lines == [] || h.done(core) then core else Fold(h, h.step(core, lines[0]), lines[1..])
  }

  lemma FoldLine<S>(h: Handler<S>, core: S, line: Text, rest: seq<Text>)
    requires !h.done(core)
    ensures Fold(h, core, Line(line) + rest) == Fold(h, AfterLine(h, core, line), rest)
  {
    if line == [] {
      assert Line(line) + rest == rest;
    } else {
      assert (Line(line) + rest)[1..] == rest;
    }
  }

  lemma FoldParts<S>(h: Handler<S>, core: S, all: seq<Text>, line: Text, rest: seq<Text>)
    requires !h.done(core) && all == Line(line) + rest
    ensures Fold(h, core, all) == Fold(h, AfterLine(h, core, line), rest)
  {
    FoldLine(h, core, line, rest);
  }

  lemma FirstFolded<S>(h: Handler<S>, s: Stream<S>)
    requires !h.done(s.core) && IndexOf(s.buffer) < |s.buffer|
    ensures var t := AfterFirst(h, s);
            Fold(h, s.core, CompleteLines(s.buffer)) == Fold(h, t.core, CompleteLines(t.buffer))
  {
    LinesSplit(s.buffer);
    FoldParts(h, s.core, CompleteLines(s.buffer), s.buffer[..IndexOf(s.buffer)], CompleteLines(AfterFirst(h, s).buffer));
  }

  lemma NothingToFold<S>(h: Handler<S>, s: Stream<S>)
    requires h.done(s.core) || IndexOf(s.buffer) == |s.buffer|
    ensures Drain(h, s) == s && Fold(h, s.core, CompleteLines(s.buffer)) == s.core
  {
  }

  lemma LinesSplit(t: Text)
    requires IndexOf(t) < |t|
    ensures CompleteLines(t) == Line(t[..IndexOf(t)]) + CompleteLines(t[IndexOf(t) + 1..])
  {
  }

  /** What the framing loop computes: the complete, non-empty lines of the stream handled in order until the handler is done. */
  lemma {:induction false} DrainHandlesLines<S>(h: Handler<S>, s: Stream<S>)
    ensures Drain(h, s).core == Fold(h, s.core, CompleteLines(s.buffer))
    decreases |s.buffer|
  {
    if h.done(s.core) || IndexOf(s.buffer) == |s.buffer| {
      NothingToFold(h, s);
    } else {
      FirstDrained(h, s);
      FirstFolded(h, s);
      DrainHandlesLines(h, AfterFirst(h, s));
    }
  }

  /** Whatever the chunks, exactly the lines of the stream so far have been handled. */
  lemma StreamIsItsLines<S>(h: Handler<S>, core: S, chunks: seq<Text>)
    ensures FeedAll(h, Stream([], core), chunks).core == Fold(h, core, CompleteLines(Joined(chunks)))
  {
    var s := Stream([], core);
    ChunksAsOne(h, s, chunks);
    assert [] + Joined(chunks) == Joined(chunks);
    DrainHandlesLines(h, Stream(Joined(chunks), core));
  }
}
