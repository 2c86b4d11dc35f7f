/** The acceptance client of the agent server: four requests in turn over newline-framed messages. */
module AgentClient {
  import opened Options
  import opened KeyedSequences
  import opened LineFraming

  /** What a line says, as far as the client looks. */
  datatype Message =
    | Malformed
    | Unrelated
    | Initialized
    | Registered(isError: bool)
    | Listed(isError: bool, authorityClosed: bool, accountRef: string, catalogHash: string, valid: bool, groupUnavailable: bool)
    | Previewed(isError: bool, cannotWrite: bool, cannotAuthorize: bool, capturedHash: Option<string>)

  datatype Request =
    | Initialize
    | InitializedNote
    | Register
    | List
    | Preview(catalogHash: string, accountRef: string)

  /** Authority is reported as closed when the session cannot write; `ok` also asks that it cannot authorize actions. */
  datatype Outcome =
    | Stopped(stage: string)
    | Finished(ok: bool, authorityClosed: bool, captured: bool)

  /** `noise` says that the server wrote to its error stream. */
  datatype State = State(result: Option<Outcome>, sent: seq<Request>, catalogHash: string, accountRef: string, noise: bool)

  const START: State := State(None, [Initialize], "", "", false)

  function Finish(s: State, outcome: Outcome): State { if s.result.Some? then s else s.(result := Some(outcome)) }

  function Send(s: State, requests: seq<Request>): State { s.(sent := s.sent + requests) }

  function Handle(s: State, m: Message): State {
    match m
    case Malformed => Finish(s, Stopped("protocol"))
    case Unrelated => s
    case Initialized => Send(s, [InitializedNote, Register])
    case Registered(isError) => if isError then Finish(s, Stopped("register")) else Send(s, [List])
    case Listed(isError, authorityClosed, accountRef, catalogHash, valid, groupUnavailable) =>
      if isError then Finish(s, Stopped("list"))
      else if !authorityClosed then Finish(s, Stopped("list_authority"))
      else
        var kept := s.(accountRef := accountRef, catalogHash := catalogHash);
        if !valid || !groupUnavailable
        then Finish(kept, Stopped(if accountRef != "" then "scope_catalog" else "account_catalog_empty"))
        else Send(kept, [Preview(catalogHash, accountRef)])
    case Previewed(isError, cannotWrite, cannotAuthorize, capturedHash) =>
      if isError then Finish(s, Stopped("preview"))
      else
        var captured := capturedHash == Some(s.catalogHash);
        Finish(s, Finished(cannotWrite && cannotAuthorize && captured && !s.noise, cannotWrite, captured))
  }

  /** The client as a handler of lines, given how it reads one. */
  function Reader(read: Text -> Message): Handler<State> {
    Handler((s: State, line: Text) => Handle(s, read(line)), (s: State) => s.result.Some?)
  }

  datatype Event = Data(chunk: Text) | ErrorOutput | Timeout

  function OnEvent(read: Text -> Message, s: Stream<State>, e: Event): Stream<State> {
    match e
    case Data(chunk) => Feed(Reader(read), s, chunk)
    case ErrorOutput => s.(core := s.core.(noise := true))
    case Timeout => s.(core := Finish(s.core, Stopped("timeout")))
  }

  function OnEvents(read: Text -> Message, s: Stream<State>, events: seq<Event>): Stream<State>
    decreases |events|
  {
    if events == [] then s else OnEvents(read, OnEvent(read, s, events[0]), events[1..])
  }

  /******* The client as written *******/

  class Client {
    const read: Text -> Message
    var stdout: Text
    var result: Option<Outcome>
    var sent: seq<Request>
    var catalogHash: string
    var accountRef: string
    var noise: bool

    function Core(): State
      reads this
    {
      State(result, sent, catalogHash, accountRef, noise)
    }

    function Current(): Stream<State>
      reads this
    {
      Stream(stdout, Core())
    }

    constructor Connect(read: Text -> Message)
      ensures this.read == read && Current() == Stream([], START)
    {
      this.read, stdout, result, sent, catalogHash, accountRef, noise := read, [], None, [Initialize], "", "", false;
    }

    method Conclude(outcome: Outcome)
      modifies this`result
      ensures Core() == Finish(old(Core()), outcome)
    {
      if result.Some? { return; }
      result := Some(outcome);
    }

    method Answer(m: Message)
      modifies this`result, this`sent, this`catalogHash, this`accountRef
      ensures Core() == Handle(old(Core()), m)
    {
      match m
      case Malformed => Conclude(Stopped("protocol"));
      case Unrelated =>
      case Initialized => sent := sent + [InitializedNote, Register];
      case Registered(isError) =>
        if isError { Conclude(Stopped("register")); } else { sent := sent + [List]; }
      case Listed(isError, authorityClosed, account, hash, valid, groupUnavailable) =>
        if isError { Conclude(Stopped("list")); return; }
        if !authorityClosed { Conclude(Stopped("list_authority")); return; }
        accountRef, catalogHash := account, hash;
        if !valid || !groupUnavailable {
          Conclude(Stopped(if accountRef != "" then "scope_catalog" else "account_catalog_empty"));
          return;
        }
        sent := sent + [Preview(catalogHash, accountRef)];
      case Previewed(isError, cannotWrite, cannotAuthorize, capturedHash) =>
        if isError { Conclude(Stopped("preview")); return; }
        var captured := capturedHash == Some(catalogHash);
        Conclude(Finished(cannotWrite && cannotAuthorize && captured && !noise, cannotWrite, captured));
    }

    method OnData(chunk: Text)
      modifies this`stdout, this`result, this`sent, this`catalogHash, this`accountRef
      ensures Current() == OnEvent(read, old(Current()), Data(chunk))
    {
      stdout := stdout + chunk;
      var boundary := IndexOf(stdout);
      while result.None? && boundary < |stdout|
        invariant boundary == IndexOf(stdout)
        invariant noise == old(noise)
        invariant Drain(Reader(read), Current()) == Feed(Reader(read), old(Current()), chunk)
        decreases |stdout|
      {
        var line := stdout[..boundary];
        stdout := stdout[boundary + 1..];
        boundary := IndexOf(stdout);
        if line == [] { continue; }
        Answer(read(line));
      }
    }
  }
}
