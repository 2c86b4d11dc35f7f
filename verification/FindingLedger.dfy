/**
 The data-health findings of a workspace: reports open, observe, resolve and reopen findings on append-only chains, and
 people triage them in a development log.
 */
module FindingLedger {
  import opened Options

  datatype Kind = Opened | Observed | Resolved | Reopened

  /** The hash of an event is a digest of it, so it is modelled by what it digests; a chain starts at the zero hash. */
  datatype EventHash =
    | Zero
    | Digest(fingerprint: string, sequence: nat, kind: Kind, evidence: string, previous: EventHash, at: int)

  datatype Event = Event(hash: EventHash, scope: Option<string>)

  datatype Head = Head(scope: string, sequence: nat, open: bool, evidence: string, hash: EventHash)

  datatype TriageState = Proposed | Triaged | Tasked | Deferred | Rejected | Closed

  datatype Log = Log(sequence: nat, state: TriageState)

  /** Where a finding was seen (none: the workspace itself), and the evidence for it. */
  datatype Observation = Observation(account: Option<string>, evidence: string)

  /** A report covers its accounts and the workspace. */
  datatype Report = Report(hash: string, accounts: set<string>, observations: map<string, Observation>)

  /**
   A report as it is taken. Only a reading that resolves what is absent lets the report's silence count; a report of an
   incomplete read is taken without.
   */
  datatype Reading = Reading(report: Report, at: int, resolveAbsent: bool)

  /** One report's word on one finding; each is recorded once. */
  datatype Occurrence = Occurrence(fingerprint: string, reportHash: string)

  /** Finding heads and log heads by fingerprint, and the event that each occurrence recorded. */
  datatype Ledger = Ledger(
    workspace: string, heads: map<string, Head>, logs: map<string, Log>, occurrences: map<Occurrence, EventHash>)

  /** A workspace with no findings yet. */
  function Start(workspace: string): Ledger { Ledger(workspace, map[], map[], map[]) }

  /** A report that has recorded some event. */
  predicate Recorded(ledger: Ledger, reportHash: string) {
    exists o :: o in ledger.occurrences && o.reportHash == reportHash
  }

  datatype Outcome = Inserted | Unchanged | Conflict

  function IsOpen(kind: Kind): bool { kind != Resolved }

  /******* Projecting a report onto the current heads *******/

  /** A finding that is stored for the workspace or for an account of the report. */
  predicate Covers(ledger: Ledger, report: Report, fingerprint: string) {
    && fingerprint in ledger.heads
    && (ledger.heads[fingerprint].scope == ledger.workspace || ledger.heads[fingerprint].scope in report.accounts)
  }

  /** The heads that a reading can move: those its report covers, or only the observed ones among them. */
  function Eligible(ledger: Ledger, reading: Reading, fingerprint: string): Option<Head> {
    if Covers(ledger, reading.report, fingerprint) && (reading.resolveAbsent || fingerprint in reading.report.observations)
    then Some(ledger.heads[fingerprint]) else None
  }

  function Project(previous: Option<Head>, observation: Option<Observation>, fingerprint: string, at: int): Option<Event> {
    if observation.None? && (previous.None? || !previous.value.open) then None
    else
      var kind :=
        if observation.None? then Resolved
        else if previous.None? then Opened
        else if !previous.value.open then Reopened
        else Observed;
      var sequence := (if previous.Some? then previous.value.sequence else 0) + 1;
      var evidence := if observation.Some? then observation.value.evidence else previous.value.evidence;
      var hash := if previous.Some? then previous.value.hash else Zero;
      Some(Event(Digest(fingerprint, sequence, kind, evidence, hash, at),
                 if observation.Some? then observation.value.account else None))
  }

  function ObservationOf(report: Report, fingerprint: string): Option<Observation> {
    if fingerprint in report.observations then Some(report.observations[fingerprint]) else None
  }

  function ProjectAll(ledger: Ledger, reading: Reading, fingerprints: seq<string>): seq<Event> {
    if fingerprints == [] then []
    else
      var f := fingerprints[0];
      var event := Project(Eligible(ledger, reading, f), ObservationOf(reading.report, f), f, reading.at);
      (if event.Some? then [event.value] else []) + ProjectAll(ledger, reading, fingerprints[1..])
  }

  /******* Persisting events *******/

  /** The lifecycle that the guard of the finding heads enforces. */
  predicate MayFollow(open: bool, kind: Kind) { if open then kind.Observed? || kind.Resolved? else kind.Reopened? }

  /** The event continues exactly the head that is stored for its fingerprint, or begins a new one. */
  predicate Continues(ledger: Ledger, e: Event) {
    && e.hash.Digest?
    && var f := e.hash.fingerprint;
       if f in ledger.heads
       then e.hash.previous == ledger.heads[f].hash && e.hash.sequence == ledger.heads[f].sequence + 1
         && ScopeOf(ledger, e) == ledger.heads[f].scope && MayFollow(ledger.heads[f].open, e.hash.kind)
       else e.hash.previous == Zero && e.hash.sequence == 1 && e.hash.kind.Opened?
  }

  function ScopeOf(ledger: Ledger, e: Event): string
    requires e.hash.Digest?
  {
    if e.scope.Some? then e.scope.value
    else if e.hash.fingerprint in ledger.heads then ledger.heads[e.hash.fingerprint].scope
    else ledger.workspace
  }

  function OccurrenceOf(e: Event, reportHash: string): Occurrence
    requires e.hash.Digest?
  {
    Occurrence(e.hash.fingerprint, reportHash)
  }

  /** Moves the finding and adds to its log; a log that exists keeps its triage state. */
  function Persist(ledger: Ledger, e: Event, reportHash: string): Ledger
    requires e.hash.Digest?
  {
    var f := e.hash.fingerprint;
    var head := Head(ScopeOf(ledger, e), e.hash.sequence, IsOpen(e.hash.kind), e.hash.evidence, e.hash);
    var log := if f in ledger.logs then ledger.logs[f].(sequence := ledger.logs[f].sequence + 1) else Log(1, Proposed);
    ledger.(heads := ledger.heads[f := head], logs := ledger.logs[f := log],
            occurrences := ledger.occurrences[OccurrenceOf(e, reportHash) := e.hash])
  }

  type Occurrences = map<Occurrence, EventHash>

  /** The occurrence was known before and is skipped. */
  predicate Known(known: Occurrences, e: Event, reportHash: string) {
    e.hash.Digest? && OccurrenceOf(e, reportHash) in known
  }

  /** All events or none: a known occurrence must be of the same event, a new one must continue the stored head. */
  function PersistAll(known: Occurrences, ledger: Ledger, events: seq<Event>, reportHash: string): Option<Ledger>
    decreases |events|
  {
    if events == [] then Some(ledger)
    else
      var e := events[0];
      if Known(known, e, reportHash) then
        if known[OccurrenceOf(e, reportHash)] == e.hash then PersistAll(known, ledger, events[1..], reportHash) else None
      else if !Continues(ledger, e) || Known(ledger.occurrences, e, reportHash) then None
      else PersistAll(known, Persist(ledger, e, reportHash), events[1..], reportHash)
  }

  function AppendEvents(ledger: Ledger, events: seq<Event>, reportHash: string): (Ledger, Outcome) {
    match PersistAll(ledger.occurrences, ledger, events, reportHash)
    case None => (ledger, Conflict)
    case Some(after) =>
      (after, if forall e :: e in events ==> Known(ledger.occurrences, e, reportHash) then Unchanged else Inserted)
  }

  function Materialize(ledger: Ledger, reading: Reading, fingerprints: seq<string>): (Ledger, Outcome) {
    if Recorded(ledger, reading.report.hash) then (ledger, Unchanged)
    else AppendEvents(ledger, ProjectAll(ledger, reading, fingerprints), reading.report.hash)
  }

  /** The fingerprints are taken once each, in some order: those of the eligible heads and of the report. */
  ghost predicate Enumerates(fingerprints: seq<string>, ledger: Ledger, reading: Reading) {
    && (forall i, j :: 0 <= i < j < |fingerprints| ==> fingerprints[i] != fingerprints[j])
    && (forall f :: f in fingerprints <==>
          f in reading.report.observations || (f in ledger.heads && Eligible(ledger, reading, f).Some?))
  }

  /******* Triage *******/

  /** The moves that the log's guard lets a person make. */
  predicate MayTriage(from: TriageState, to: TriageState) {
    match from
    case Proposed => !to.Proposed?
    case Triaged => to.Tasked? || to.Deferred? || to.Rejected? || to.Closed?
    case Tasked => to.Deferred? || to.Rejected? || to.Closed?
    case _ => to.Triaged?
  }

  function Triage(ledger: Ledger, fingerprint: string, state: TriageState): (Ledger, Outcome) {
    if fingerprint !in ledger.logs || !MayTriage(ledger.logs[fingerprint].state, state) then (ledger, Conflict)
    else (ledger.(logs := ledger.logs[fingerprint := Log(ledger.logs[fingerprint].sequence + 1, state)]), Inserted)
  }

  /******* Any run *******/

  datatype Request =
    | Observe(reading: Reading, fingerprints: seq<string>)
    | Append(events: seq<Event>, reportHash: string)
    | Judge(fingerprint: string, state: TriageState)

  function Handle(ledger: Ledger, r: Request): (Ledger, Outcome) {
    match r
    case Observe(reading, fingerprints) => Materialize(ledger, reading, fingerprints)
    case Append(events, reportHash) => AppendEvents(ledger, events, reportHash)
    case Judge(fingerprint, state) => Triage(ledger, fingerprint, state)
  }

  /******* The repository *******/

  class Repository {
    const workspace: string
    var heads: map<string, Head>
    var logs: map<string, Log>
    var occurrences: map<Occurrence, EventHash>

    function Current(): Ledger
      reads this
    {
      Ledger(workspace, heads, logs, occurrences)
    }

    constructor Empty(workspace: string)
      ensures this.workspace == workspace && Current() == Start(workspace)
    {
      this.workspace, heads, logs, occurrences := workspace, map[], map[], map[];
    }

    /** The loop over events, in a transaction: on a conflict everything is as before. */
    method PersistEvents(events: seq<Event>, reportHash: string) returns (outcome: Outcome)
      modifies this
      ensures (Current(), outcome) == AppendEvents(old(Current()), events, reportHash)
    {
      var before, known := Current(), occurrences;
      var replay := forall e :: e in events ==> Known(known, e, reportHash);
      for i := 0 to |events|
        invariant PersistAll(known, before, events, reportHash) == PersistAll(known, Current(), events[i..], reportHash)
      {
        var e := events[i];
        assert events[i..][0] == e && events[i..][1..] == events[i + 1..];
        var replayed := Known(known, e, reportHash);
        if replayed && known[OccurrenceOf(e, reportHash)] == e.hash { continue; }
        if replayed || !Continues(Current(), e) || Known(occurrences, e, reportHash) {
          heads, logs, occurrences := before.heads, before.logs, before.occurrences;
          return Conflict;
        }
        Advance(e, reportHash);
      }
      return if replay then Unchanged else Inserted;
    }

    /** The writes of one event: the finding head, the occurrence, and the log. */
    method Advance(e: Event, reportHash: string)
      requires Continues(Current(), e)
      modifies this
      ensures Current() == Persist(old(Current()), e, reportHash)
    {
      var f := e.hash.fingerprint;
      var scope := if e.scope.Some? then e.scope.value else if f in heads then heads[f].scope else workspace;
      heads := heads[f := Head(scope, e.hash.sequence, IsOpen(e.hash.kind), e.hash.evidence, e.hash)];
      occurrences := occurrences[Occurrence(f, reportHash) := e.hash];
      logs := logs[f := if f in logs then Log(logs[f].sequence + 1, logs[f].state) else Log(1, Proposed)];
    }

    method MaterializeReport(reading: Reading, fingerprints: seq<string>) returns (outcome: Outcome)
      modifies this
      ensures (Current(), outcome) == Materialize(old(Current()), reading, fingerprints)
    {
      if Recorded(Current(), reading.report.hash) { return Unchanged; }
      outcome := PersistEvents(ProjectAll(Current(), reading, fingerprints), reading.report.hash);
    }

    method TriageFinding(fingerprint: string, state: TriageState) returns (outcome: Outcome)
      modifies this`logs
      ensures (Current(), outcome) == Triage(old(Current()), fingerprint, state)
    {
      if fingerprint !in logs || !MayTriage(logs[fingerprint].state, state) { return Conflict; }
      logs := logs[fingerprint := Log(logs[fingerprint].sequence + 1, state)];
      return Inserted;
    }
  }
}
