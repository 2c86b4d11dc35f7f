/** The client's result is final, and it asks its four questions in order. */
module AgentClientTheorems {
  import opened Options
  import opened KeyedSequences
  import opened LineFraming
  import opened AgentClient
  import opened Sequences

  /******* The result *******/

  /** Once there is a result it never changes and nothing more is sent, whatever arrives. */
  lemma {:induction false} ResultIsFinal(read: Text -> Message, s: Stream<State>, events: seq<Event>)
    requires s.core.result.Some?
    ensures var after := OnEvents(read, s, events).core; after == s.core.(noise := after.noise)
    decreases |events|
  {
    if events != [] { ResultIsFinal(read, OnEvent(read, s, events[0]), events[1..]); }
  }

  /******* The conversation *******/

  /** Handles messages in turn until there is a result. */
  function Converse(s: State, messages: seq<Message>): State
    decreases |messages|
  {
    if messages == [] || s.result.Some? then s else Converse(Handle(s, messages[0]), messages[1..])
  }

  function Messages(read: Text -> Message, lines: seq<Text>): seq<Message> {
    if lines == [] then [] else [read(lines[0])] + Messages(read, lines[1..])
  }

  lemma {:induction false} LinesConverse(read: Text -> Message, s: State, lines: seq<Text>)
    ensures Fold(Reader(read), s, lines) == Converse(s, Messages(read, lines))
    decreases |lines|
  {
    if lines != [] {
      LinesConverse(read, Handle(s, read(lines[0])), lines[1..]);
      assert Messages(read, lines)[1..] == Messages(read, lines[1..]);
    }
  }

  /** The request that a message answers; 0 for none. */
  function IdOf(m: Message): nat {
    match m
    case Initialized => 1
    case Registered(_) => 2
    case Listed(_, _, _, _, _, _) => 3
    case Previewed(_, _, _, _) => 4
    case _ => 0
  }

  function RequestId(r: Request): nat {
    match r
    case Initialize => 1
    case InitializedNote => 0
    case Register => 2
    case List => 3
    case Preview(_, _) => 4
  }

  function Count(sent: seq<Request>, id: nat): nat {
    if sent == [] then 0
    else Count(sent[..|sent| - 1], id) + if RequestId(sent[|sent| - 1]) == id then 1 else 0
  }

  lemma CountAppend(sent: seq<Request>, r: Request, id: nat)
    ensures Count(sent + [r], id) == Count(sent, id) + if RequestId(r) == id then 1 else 0
  {
    assert (sent + [r])[..|sent|] == sent;
  }

  /** The answer lets the client go on to the next request. */
  predicate Proceeds(m: Message) {
    match m
    case Initialized => true
    case Registered(isError) => !isError
    case Listed(isError, authorityClosed, _, _, valid, groupUnavailable) =>
      !isError && authorityClosed && valid && groupUnavailable
    case _ => false
  }

  function Answers(s: State, messages: seq<Message>, id: nat): nat
    decreases |messages|
  {
    if messages == [] || s.result.Some? then 0
    else (if IdOf(messages[0]) == id && Proceeds(messages[0]) then 1 else 0)
         + Answers(Handle(s, messages[0]), messages[1..], id)
  }

  lemma HandleCounts(s: State, m: Message, id: nat)
    requires 1 <= id <= 3
    ensures Count(Handle(s, m).sent, id + 1) == Count(s.sent, id + 1) + if IdOf(m) == id && Proceeds(m) then 1 else 0
  {
    if m.Initialized? {
      CountAppend(s.sent, InitializedNote, id + 1);
      CountAppend(s.sent + [InitializedNote], Register, id + 1);
      assert s.sent + [InitializedNote, Register] == s.sent + [InitializedNote] + [Register];
    } else if Proceeds(m) {
      CountAppend(s.sent, if m.Registered? then List else Preview(m.catalogHash, m.accountRef), id + 1);
    }
  }

  /**
   Each further request is sent exactly as often as the one before it is answered well: more than once only if the server
   answers more than once.
   */
  lemma {:induction false} SentAsOftenAsAnswered(s: State, messages: seq<Message>, id: nat)
    requires 1 <= id <= 3
    ensures Count(Converse(s, messages).sent, id + 1) == Count(s.sent, id + 1) + Answers(s, messages, id)
    decreases |messages|
  {
    if messages != [] && s.result.None? {
      HandleCounts(s, messages[0], id);
      SentAsOftenAsAnswered(Handle(s, messages[0]), messages[1..], id);
    }
  }

  predicate Asked(s: State, id: nat) { exists i :: 0 <= i < |s.sent| && RequestId(s.sent[i]) == id }

  /** The server answers only what was asked, and each request at most once. */
  predicate Disciplined(s: State, messages: seq<Message>, answered: set<nat>)
    decreases |messages|
  {
    messages == [] || s.result.Some?
    || var id := IdOf(messages[0]);
       && (id != 0 ==> Asked(s, id) && id !in answered)
       && Disciplined(Handle(s, messages[0]), messages[1..], answered + {id})
  }

  /** The requests sent by the time `stage` has been asked. */
  function Script(stage: nat, catalogHash: string, accountRef: string): seq<Request>
    requires 1 <= stage <= 4
  {
    if stage == 1 then [Initialize]
    else if stage == 2 then [Initialize, InitializedNote, Register]
    else if stage == 3 then [Initialize, InitializedNote, Register, List]
    else [Initialize, InitializedNote, Register, List, Preview(catalogHash, accountRef)]
  }

  predicate AtStage(s: State, stage: nat, answered: set<nat>) {
    && 1 <= stage <= 4 && s.sent == Script(stage, s.catalogHash, s.accountRef)
    && (s.result.None? ==> forall id :: 1 <= id < stage ==> id in answered)
  }

  lemma AskedAtStage(s: State, stage: nat, answered: set<nat>, id: nat)
    requires AtStage(s, stage, answered) && Asked(s, id) && id != 0
    ensures id <= stage
  {
  }

  lemma NextStage(s: State, stage: nat, answered: set<nat>, m: Message)
    requires AtStage(s, stage, answered) && s.result.None?
    requires IdOf(m) != 0 ==> Asked(s, IdOf(m)) && IdOf(m) !in answered
    ensures AtStage(Handle(s, m), if Proceeds(m) then stage + 1 else stage, answered + {IdOf(m)})
    ensures Handle(s, m).result.None? && stage == 4 ==> IdOf(m) == 0
  {
    if IdOf(m) != 0 {
      AskedAtStage(s, stage, answered, IdOf(m));
      assert IdOf(m) == stage;
    }
  }

  /** Against a server that answers each request once, the stages run 1, 2, 3, 4 in order and nothing is asked twice. */
  lemma {:induction false} StagesInOrder(s: State, messages: seq<Message>, stage: nat, answered: set<nat>) returns (last: nat)
    requires AtStage(s, stage, answered) && Disciplined(s, messages, answered)
    ensures stage <= last <= 4
    ensures var after := Converse(s, messages); after.sent == Script(last, after.catalogHash, after.accountRef)
    decreases |messages|
  {
    last := stage;
    if messages != [] && s.result.None? {
      var m := messages[0];
      NextStage(s, stage, answered, m);
      last := StagesInOrder(Handle(s, m), messages[1..], if Proceeds(m) then stage + 1 else stage, answered + {IdOf(m)});
    }
  }

  lemma {:induction false} DisciplinedPrefix(s: State, first: seq<Message>, rest: seq<Message>, answered: set<nat>)
    requires Disciplined(s, first + rest, answered)
    ensures Disciplined(s, first, answered)
    decreases |first|
  {
    if first != [] && s.result.None? {
      assert (first + rest)[0] == first[0] && (first + rest)[1..] == first[1..] + rest;
      DisciplinedPrefix(Handle(s, first[0]), first[1..], rest, answered + {IdOf(first[0])});
    }
  }

  /******* Error output and timeouts between the chunks *******/

  function Chunks(events: seq<Event>): seq<Text> {
    if events == [] then [] else (if events[0].Data? then [events[0].chunk] else []) + Chunks(events[1..])
  }

  function BeforeTimeout(events: seq<Event>): seq<Event> {
    if events == [] || events[0].Timeout? then [] else [events[0]] + BeforeTimeout(events[1..])
  }

  predicate SameResult(a: Option<Outcome>, b: Option<Outcome>) {
    a == b || (a.Some? && b.Some? && a.value.Finished? && b.value.Finished? && a.value.(ok := b.value.ok) == b.value)
  }

  /** Error output shows nowhere but in whether the result is good. */
  predicate SameButNoise(a: State, b: State) {
    a.sent == b.sent && a.catalogHash == b.catalogHash && a.accountRef == b.accountRef && SameResult(a.result, b.result)
  }

  lemma HandleAside(s: State, t: State, m: Message)
    requires SameButNoise(s, t)
    ensures SameButNoise(Handle(s, m), Handle(t, m))
  {
  }

  lemma FirstRead(read: Text -> Message, s: Stream<State>)
    requires IndexOf(s.buffer) < |s.buffer|
    ensures var n := IndexOf(s.buffer);
            AfterFirst(Reader(read), s)
            == Stream(s.buffer[n + 1..], if s.buffer[..n] == [] then s.core else Handle(s.core, read(s.buffer[..n])))
  {
  }

  lemma {:induction false} DrainAside(read: Text -> Message, s: Stream<State>, t: Stream<State>)
    requires s.buffer == t.buffer && SameButNoise(s.core, t.core)
    ensures var a, b := Drain(Reader(read), s), Drain(Reader(read), t); a.buffer == b.buffer && SameButNoise(a.core, b.core)
    decreases |s.buffer|
  {
    var h := Reader(read);
    if !h.done(s.core) && IndexOf(s.buffer) < |s.buffer| {
      FirstDrained(h, s);
      FirstDrained(h, t);
      FirstRead(read, s);
      FirstRead(read, t);
      HandleAside(s.core, t.core, read(s.buffer[..IndexOf(s.buffer)]));
      DrainAside(read, AfterFirst(h, s), AfterFirst(h, t));
    }
  }

  /** The events before any timeout do what their chunks do. */
  lemma {:induction false} EventsAreChunks(read: Text -> Message, s: Stream<State>, t: Stream<State>, events: seq<Event>)
    requires s.buffer == t.buffer && SameButNoise(s.core, t.core)
    ensures SameButNoise(OnEvents(read, s, BeforeTimeout(events)).core,
                         FeedAll(Reader(read), t, Chunks(BeforeTimeout(events))).core)
    decreases |events|
  {
    var all := BeforeTimeout(events);
    if all != [] {
      var h := Reader(read);
      assert all[1..] == BeforeTimeout(events[1..]);
      match events[0]
      case Data(chunk) =>
        DrainAside(read, Stream(s.buffer + chunk, s.core), Stream(t.buffer + chunk, t.core));
        assert Chunks(all) == [chunk] + Chunks(all[1..]) && Chunks(all)[1..] == Chunks(all[1..]);
        EventsAreChunks(read, Feed(h, s, chunk), Feed(h, t, chunk), events[1..]);
      case ErrorOutput =>
        assert Chunks(all) == [] + Chunks(all[1..]) == Chunks(all[1..]);
        EventsAreChunks(read, s.(core := s.core.(noise := true)), t, events[1..]);
    }
  }

  /** A timeout ends the conversation, unless it had ended before: what comes after it sends nothing. */
  lemma {:induction false} NothingAfterTimeout(read: Text -> Message, s: Stream<State>, events: seq<Event>)
    ensures var after, before := OnEvents(read, s, events).core, OnEvents(read, s, BeforeTimeout(events)).core;
            && after.sent == before.sent && after.catalogHash == before.catalogHash && after.accountRef == before.accountRef
            && after.result == if before.result.None? && Timeout in events then Some(Stopped("timeout")) else before.result
    decreases |events|
  {
    if events != [] {
      var next := OnEvent(read, s, events[0]);
      if events[0].Timeout? {
        ResultIsFinal(read, next, events[1..]);
      } else {
        NothingAfterTimeout(read, next, events[1..]);
        assert Timeout in events <==> Timeout in events[1..] by { assert events == [events[0]] + events[1..]; }
        assert BeforeTimeout(events)[1..] == BeforeTimeout(events[1..]);
      }
    }
  }

  lemma PrefixOn(first: seq<Text>, a: seq<Text>, b: seq<Text>)
    requires a <= b
    ensures first + a <= first + b
  {
  }

  lemma {:induction false} LinesPrefix(a: Text, b: Text)
    ensures CompleteLines(a) <= CompleteLines(a + b)
    decreases |a|
  {
    var n := IndexOf(a);
    if n < |a| {
      IndexOfAppend(a, b);
      var rest := a[n + 1..];
      assert (a + b)[..n] == a[..n] && (a + b)[n + 1..] == rest + b;
      LinesSplit(a);
      LinesSplit(a + b);
      LinesPrefix(rest, b);
      PrefixOn(Line(a[..n]), CompleteLines(rest), CompleteLines(rest + b));
    }
  }

  lemma {:induction false} MessagesPrefix(read: Text -> Message, a: seq<Text>, b: seq<Text>)
    requires a <= b
    ensures Messages(read, a) <= Messages(read, b)
    decreases |a|
  {
    if a != [] { MessagesPrefix(read, a[1..], b[1..]); }
  }

  lemma {:induction false} JoinedPrefix(events: seq<Event>)
    ensures Joined(Chunks(BeforeTimeout(events))) <= Joined(Chunks(events))
    decreases |events|
  {
    if events != [] && !events[0].Timeout? {
      JoinedPrefix(events[1..]);
      assert BeforeTimeout(events)[1..] == BeforeTimeout(events[1..]);
      if events[0].Data? {
        assert Chunks(events)[1..] == Chunks(events[1..]);
        assert Chunks(BeforeTimeout(events))[1..] == Chunks(BeforeTimeout(events[1..]));
      } else {
        assert Chunks(events) == Chunks(events[1..]) && Chunks(BeforeTimeout(events)) == Chunks(BeforeTimeout(events[1..]));
      }
    }
  }

  /** What the server has said on its output by the end of these events. */
  function Said(read: Text -> Message, events: seq<Event>): seq<Message> {
    Messages(read, CompleteLines(Joined(Chunks(events))))
  }

  lemma SaidPrefix(read: Text -> Message, events: seq<Event>)
    ensures Said(read, BeforeTimeout(events)) <= Said(read, events)
  {
    var a, b := Joined(Chunks(BeforeTimeout(events))), Joined(Chunks(events));
    JoinedPrefix(events);
    LinesPrefix(a, b[|a|..]);
    assert a + b[|a|..] == b;
    MessagesPrefix(read, CompleteLines(a), CompleteLines(b));
  }

  /** Until a timeout the client is where the conversation with the server's messages leads, error output aside. */
  lemma EventsConverse(read: Text -> Message, events: seq<Event>)
    ensures SameButNoise(OnEvents(read, Stream([], START), BeforeTimeout(events)).core,
                         Converse(START, Said(read, BeforeTimeout(events))))
  {
    var chunks := Chunks(BeforeTimeout(events));
    EventsAreChunks(read, Stream([], START), Stream([], START), events);
    StreamIsItsLines(Reader(read), START, chunks);
    LinesConverse(read, START, CompleteLines(Joined(chunks)));
  }

  /**
   From the start, however the stream is cut and whatever error output and timeouts come in between, the client has sent the
   first requests of the script, up to some stage.
   */
  lemma ConversationIsScripted(read: Text -> Message, events: seq<Event>) returns (stage: nat)
    requires Disciplined(START, Said(read, events), {})
    ensures var after := OnEvents(read, Stream([], START), events).core;
            1 <= stage <= 4 && after.sent == Script(stage, after.catalogHash, after.accountRef)
  {
    var all, heard := Said(read, events), Said(read, BeforeTimeout(events));
    SaidPrefix(read, events);
    assert all == heard + all[|heard|..];
    DisciplinedPrefix(START, heard, all[|heard|..], {});
    assert AtStage(START, 1, {});
    stage := StagesInOrder(START, heard, 1, {});
    EventsConverse(read, events);
    NothingAfterTimeout(read, Stream([], START), events);
  }

  /******* How a conversation ends *******/

  predicate Good(m: Message) { Proceeds(m) || (m.Previewed? && !m.isError) }

  function GoodAnswers(s: State, messages: seq<Message>): nat
    decreases |messages|
  {
    if messages == [] || s.result.Some? then 0
    else (if Good(messages[0]) then 1 else 0) + GoodAnswers(Handle(s, messages[0]), messages[1..])
  }

  predicate IsFinished(s: State) { s.result.Some? && s.result.value.Finished? }

  lemma {:induction false} GoodAnswersFinish(s: State, messages: seq<Message>, stage: nat, answered: set<nat>)
    requires AtStage(s, stage, answered) && Disciplined(s, messages, answered) && s.result.None?
    ensures GoodAnswers(s, messages) <= 5 - stage
    ensures IsFinished(Converse(s, messages)) <==> GoodAnswers(s, messages) == 5 - stage
    decreases |messages|
  {
    if messages != [] {
      var m := messages[0];
      var next := Handle(s, m);
      NextStage(s, stage, answered, m);
      if IdOf(m) != 0 { AskedAtStage(s, stage, answered, IdOf(m)); }
      if next.result.None? {
        GoodAnswersFinish(next, messages[1..], if Proceeds(m) then stage + 1 else stage, answered + {IdOf(m)});
      }
    }
  }

  /**
   Without a timeout the client finishes exactly when the server has given four good answers, and without error output the
   result is that of the conversation.
   */
  lemma FourGoodAnswersFinish(read: Text -> Message, events: seq<Event>)
    requires Disciplined(START, Said(read, events), {}) && Timeout !in events
    ensures IsFinished(OnEvents(read, Stream([], START), events).core) <==> GoodAnswers(START, Said(read, events)) == 4
    ensures ErrorOutput !in events ==>
              OnEvents(read, Stream([], START), events).core == Converse(START, Said(read, events))
  {
    NoTimeout(events);
    assert AtStage(START, 1, {});
    GoodAnswersFinish(START, Said(read, events), 1, {});
    EventsConverse(read, events);
    if ErrorOutput !in events {
      OnlyChunks(read, Stream([], START), events);
      StreamIsItsLines(Reader(read), START, Chunks(events));
      LinesConverse(read, START, CompleteLines(Joined(Chunks(events))));
    }
  }

  lemma {:induction false} NoTimeout(events: seq<Event>)
    requires Timeout !in events
    ensures BeforeTimeout(events) == events
  {
    if events != [] {
      assert events == [events[0]] + events[1..];
      NoTimeout(events[1..]);
    }
  }

  lemma {:induction false} OnlyChunks(read: Text -> Message, s: Stream<State>, events: seq<Event>)
    requires Timeout !in events && ErrorOutput !in events
    ensures OnEvents(read, s, events) == FeedAll(Reader(read), s, Chunks(events))
    decreases |events|
  {
    if events != [] {
      assert events == [events[0]] + events[1..];
      assert Chunks(events)[1..] == Chunks(events[1..]);
      OnlyChunks(read, OnEvent(read, s, events[0]), events[1..]);
    }
  }

  /** Once the server has written to its error stream, the client does not end well. */
  lemma {:induction false} NoiseIsNeverOk(read: Text -> Message, s: Stream<State>, events: seq<Event>)
    requires s.core.noise && s.core.result.None?
    ensures IsFinished(OnEvents(read, s, events).core) ==> !OnEvents(read, s, events).core.result.value.ok
    decreases |events|
  {
    if events != [] {
      var next := OnEvent(read, s, events[0]);
      if events[0].Data? { NoisyDrain(read, Stream(s.buffer + events[0].chunk, s.core)); }
      if next.core.result.Some? { ResultIsFinal(read, next, events[1..]); } else { NoiseIsNeverOk(read, next, events[1..]); }
    }
  }

  lemma {:induction false} NoisyDrain(read: Text -> Message, s: Stream<State>)
    requires s.core.noise && (IsFinished(s.core) ==> !s.core.result.value.ok)
    ensures var after := Drain(Reader(read), s).core; after.noise && (IsFinished(after) ==> !after.result.value.ok)
    decreases |s.buffer|
  {
    if s.core.result.None? && IndexOf(s.buffer) < |s.buffer| {
      FirstDrained(Reader(read), s);
      FirstRead(read, s);
      NoisyDrain(read, AfterFirst(Reader(read), s));
    }
  }

  /******* What a conversation comes to, from its messages *******/

  /** The message ends the conversation. */
  predicate Decides(m: Message) {
    match m
    case Malformed => true
    case Registered(isError) => isError
    case Listed(isError, authorityClosed, _, _, valid, groupUnavailable) =>
      isError || !authorityClosed || !valid || !groupUnavailable
    case Previewed(_, _, _, _) => true
    case _ => false
  }

  /** How it ends, given the catalogue hash that was listed before. */
  function Verdict(m: Message, listedHash: string, noise: bool): Outcome
    requires Decides(m)
  {
    match m
    case Malformed => Stopped("protocol")
    case Registered(_) => Stopped("register")
    case Listed(isError, authorityClosed, accountRef, _, _, _) =>
      Stopped(if isError then "list" else if !authorityClosed then "list_authority"
              else if accountRef == "" then "account_catalog_empty" else "scope_catalog")
    case Previewed(isError, cannotWrite, cannotAuthorize, capturedHash) =>
      var captured := capturedHash == Some(listedHash);
      if isError then Stopped("preview")
      else Finished(cannotWrite && cannotAuthorize && captured && !noise, cannotWrite, captured)
  }

  /** The hash of the last catalogue listed. */
  function ListedHash(messages: seq<Message>, start: string): string {
    if messages == [] then start
    else ListedHash(messages[1..], if messages[0].Listed? then messages[0].catalogHash else start)
  }

  /** What the messages before the deciding one are answered with. */
  function Answered(messages: seq<Message>): seq<Request> {
    if messages == [] then []
    else
      (match messages[0]
       case Initialized => [InitializedNote, Register]
       case Registered(_) => [List]
       case Listed(_, _, accountRef, catalogHash, _, _) => [Preview(catalogHash, accountRef)]
       case _ => []) + Answered(messages[1..])
  }

  lemma DecidedNow(s: State, m: Message)
    requires s.result.None? && Decides(m)
    ensures Handle(s, m).result == Some(Verdict(m, s.catalogHash, s.noise)) && Handle(s, m).sent == s.sent
  {
  }

  lemma GoesOn(s: State, m: Message)
    requires s.result.None? && !Decides(m)
    ensures var next := Handle(s, m);
            && next.result.None? && next.noise == s.noise && next.sent == s.sent + Answered([m])
            && next.catalogHash == if m.Listed? then m.catalogHash else s.catalogHash
  {
    assert [m][1..] == [];
  }

  lemma SplitFirst(messages: seq<Message>, k: nat)
    requires 0 < k <= |messages|
    ensures messages[..k] == [messages[0]] + messages[1..][..k - 1] && (k < |messages| ==> messages[k] == messages[1..][k - 1])
  {
  }

  lemma AnsweredFirst(m: Message, rest: seq<Message>, start: string)
    ensures Answered([m] + rest) == Answered([m]) + Answered(rest)
    ensures ListedHash([m] + rest, start) == ListedHash(rest, if m.Listed? then m.catalogHash else start)
  {
    assert [m][1..] == [] && ([m] + rest)[1..] == rest;
  }

  /**
   For any messages at all: the client answers those before the first deciding one, the preview with the hash and account
   just listed; and the deciding one alone says how it ends.
   */
  lemma {:induction false} ConversationComesTo(s: State, messages: seq<Message>)
    requires s.result.None?
    ensures var k, after := FirstIndex(messages, Decides), Converse(s, messages);
            && after.sent == s.sent + Answered(messages[..k])
            && after.result == if k == |messages| then None
                               else Some(Verdict(messages[k], ListedHash(messages[..k], s.catalogHash), s.noise))
    decreases |messages|
  {
    if messages != [] {
      var m, k := messages[0], FirstIndex(messages, Decides);
      if Decides(m) {
        DecidedNow(s, m);
        assert messages[..0] == [];
      } else {
        var rest := messages[1..];
        var before := rest[..k - 1];
        GoesOn(s, m);
        ConversationComesTo(Handle(s, m), rest);
        SplitFirst(messages, k);
        AnsweredFirst(m, before, s.catalogHash);
        assert s.sent + Answered([m]) + Answered(before) == s.sent + (Answered([m]) + Answered(before));
      }
    }
  }

  /** Some error output comes while there is no result yet. */
  predicate NoisyBeforeResult(read: Text -> Message, s: Stream<State>, events: seq<Event>)
    decreases |events|
  {
    && events != []
    && ((events[0] == ErrorOutput && s.core.result.None?) || NoisyBeforeResult(read, OnEvent(read, s, events[0]), events[1..]))
  }

  lemma {:induction false} QuietUntilResult(read: Text -> Message, s: Stream<State>, events: seq<Event>)
    requires Timeout !in events && !NoisyBeforeResult(read, s, events)
    ensures var after, quiet := OnEvents(read, s, events).core, FeedAll(Reader(read), s, Chunks(events)).core;
            after == quiet.(noise := after.noise)
    decreases |events|
  {
    if events != [] {
      assert events == [events[0]] + events[1..] && Timeout !in events[1..];
      if s.core.result.Some? {
        ResultIsFinal(read, s, events);
        FedAfterResult(read, s, Chunks(events));
      } else {
        assert events[0].Data? && Chunks(events)[1..] == Chunks(events[1..]);
        QuietUntilResult(read, OnEvent(read, s, events[0]), events[1..]);
      }
    }
  }

  lemma {:induction false} FedAfterResult(read: Text -> Message, s: Stream<State>, chunks: seq<Text>)
    requires s.core.result.Some?
    ensures FeedAll(Reader(read), s, chunks).core == s.core
    decreases |chunks|
  {
    if chunks != [] { FedAfterResult(read, Feed(Reader(read), s, chunks[0]), chunks[1..]); }
  }

  lemma {:induction false} NoisyIsNotOk(read: Text -> Message, s: Stream<State>, events: seq<Event>)
    requires NoisyBeforeResult(read, s, events)
    ensures var after := OnEvents(read, s, events).core; IsFinished(after) ==> !after.result.value.ok
    decreases |events|
  {
    var next := OnEvent(read, s, events[0]);
    if events[0] == ErrorOutput && s.core.result.None? {
      NoiseIsNeverOk(read, next, events[1..]);
    } else {
      NoisyIsNotOk(read, next, events[1..]);
    }
  }

  /** The message is a preview without error that can neither write nor authorize and has captured this hash. */
  predicate GoodPreview(m: Message, listedHash: string) {
    m.Previewed? && !m.isError && m.cannotWrite && m.cannotAuthorize && m.capturedHash == Some(listedHash)
  }

  lemma OkExactly(read: Text -> Message, events: seq<Event>)
    requires Timeout !in events
    ensures var quiet, after := Converse(START, Said(read, events)), OnEvents(read, Stream([], START), events).core;
            IsFinished(after) ==>
              (after.result.value.ok
               <==> IsFinished(quiet) && quiet.result.value.ok && !NoisyBeforeResult(read, Stream([], START), events))
  {
    var start := Stream([], START);
    if NoisyBeforeResult(read, start, events) {
      NoisyIsNotOk(read, start, events);
    } else {
      QuietUntilResult(read, start, events);
      StreamIsItsLines(Reader(read), START, Chunks(events));
      LinesConverse(read, START, CompleteLines(Joined(Chunks(events))));
    }
  }

  /**
   Without a timeout, however the stream is cut: the client ends as the first deciding message of the server says, and is ok
   exactly when that message is a good preview of the hash listed last and no error output came before.
   */
  lemma EndsAsDecided(read: Text -> Message, events: seq<Event>)
    requires Timeout !in events
    ensures var said := Said(read, events);
            var k, after := FirstIndex(said, Decides), OnEvents(read, Stream([], START), events).core;
            && after.sent == [Initialize] + Answered(said[..k])
            && (after.result.None? <==> k == |said|)
            && (k < |said| ==> SameResult(after.result, Some(Verdict(said[k], ListedHash(said[..k], ""), false))))
            && (k < |said| && IsFinished(after) ==>
                  (after.result.value.ok
                   <==> GoodPreview(said[k], ListedHash(said[..k], "")) && !NoisyBeforeResult(read, Stream([], START), events)))
  {
    NoTimeout(events);
    EventsConverse(read, events);
    ConversationComesTo(START, Said(read, events));
    OkExactly(read, events);
  }
}
