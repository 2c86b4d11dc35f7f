/** Findings are the fold of their reports, stale events are refused, and observation leaves triage alone. */
module FindingLedgerTheorems {
  import opened Options
  import opened FindingLedger
  import opened Histories

  /******* Chains *******/

  function SequenceOf(h: EventHash): nat { if h.Zero? then 0 else h.sequence }

  /** A chain of events of one finding: numbered from one, opened first, and each event possible after the one before. */
  predicate ValidChain(h: EventHash) {
    h.Digest? ==>
      && ValidChain(h.previous)
      && h.sequence == SequenceOf(h.previous) + 1
      && match h.previous
         case Zero => h.kind.Opened?
         case Digest(f, _, kind, _, _, _) =>
           f == h.fingerprint && MayFollow(IsOpen(kind), h.kind)
  }

  /** A head is the last event of its chain. */
  predicate HeadOk(f: string, head: Head) {
    && head.hash.Digest? && head.hash.fingerprint == f && head.hash.sequence == head.sequence
    && head.open == IsOpen(head.hash.kind) && head.evidence == head.hash.evidence
  }

  predicate ChainsOk(ledger: Ledger) { forall f :: f in ledger.heads ==> ValidChain(ledger.heads[f].hash) }

  predicate Sound(ledger: Ledger) {
    && ChainsOk(ledger)
    && (forall f :: f in ledger.heads ==> HeadOk(f, ledger.heads[f]))
    && (forall f :: f in ledger.heads ==> f in ledger.logs && ledger.logs[f].sequence >= ledger.heads[f].sequence)
  }

  /** Findings only move forward, and only triage changes a triage state. */
  predicate Forward(before: Ledger, after: Ledger) {
    && before.workspace == after.workspace
    && (forall o :: o in before.occurrences ==> o in after.occurrences && after.occurrences[o] == before.occurrences[o])
    && (forall f :: f in before.heads ==>
          f in after.heads && before.heads[f].sequence <= after.heads[f].sequence
          && before.heads[f].scope == after.heads[f].scope)
    && (forall f :: f in before.logs ==> f in after.logs && before.logs[f].sequence <= after.logs[f].sequence)
  }

  predicate SameTriage(before: Ledger, after: Ledger) {
    && (forall f :: f in before.logs ==> f in after.logs && after.logs[f].state == before.logs[f].state)
    && (forall f :: f in after.logs && f !in before.logs ==> after.logs[f].state == Proposed)
  }

  lemma PersistKeeps(ledger: Ledger, e: Event, reportHash: string)
    requires Sound(ledger) && Continues(ledger, e) && !Known(ledger.occurrences, e, reportHash)
    ensures var after := Persist(ledger, e, reportHash);
            Sound(after) && Forward(ledger, after) && SameTriage(ledger, after)
  {
  }

  lemma {:induction false} PersistAllKeeps(known: Occurrences, ledger: Ledger, events: seq<Event>, reportHash: string)
    requires Sound(ledger) && PersistAll(known, ledger, events, reportHash).Some?
    ensures var after := PersistAll(known, ledger, events, reportHash).value;
            Sound(after) && Forward(ledger, after) && SameTriage(ledger, after)
    decreases |events|
  {
    if events != [] {
      if Known(known, events[0], reportHash) {
        PersistAllKeeps(known, ledger, events[1..], reportHash);
      } else {
        PersistKeeps(ledger, events[0], reportHash);
        PersistAllKeeps(known, Persist(ledger, events[0], reportHash), events[1..], reportHash);
      }
    }
  }

  lemma AppendKeeps(ledger: Ledger, events: seq<Event>, reportHash: string)
    requires Sound(ledger)
    ensures var after := AppendEvents(ledger, events, reportHash).0;
            Sound(after) && Forward(ledger, after) && SameTriage(ledger, after)
  {
    if PersistAll(ledger.occurrences, ledger, events, reportHash).Some? {
      PersistAllKeeps(ledger.occurrences, ledger, events, reportHash);
    }
  }

  /** Whatever is requested, findings only move forward; and unless it is triage, every triage state is kept. */
  lemma HandleKeeps(ledger: Ledger, r: Request)
    requires Sound(ledger)
    ensures var after := Handle(ledger, r).0;
            Sound(after) && Forward(ledger, after) && (!r.Judge? ==> SameTriage(ledger, after))
  {
    match r
    case Observe(reading, fingerprints) => AppendKeeps(ledger, ProjectAll(ledger, reading, fingerprints), reading.report.hash);
    case Append(events, reportHash) => AppendKeeps(ledger, events, reportHash);
    case Judge(_, _) =>
  }

  lemma {:induction false} HandleAllKeeps(ledger: Ledger, requests: seq<Request>)
    requires Sound(ledger)
    ensures var after := RunAll(Handle, ledger, requests).0; Sound(after) && Forward(ledger, after)
    ensures (forall i :: 0 <= i < |requests| ==> !requests[i].Judge?) ==> SameTriage(ledger, RunAll(Handle, ledger, requests).0)
    decreases |requests|
  {
    if requests != [] {
      HandleKeeps(ledger, requests[0]);
      HandleAllKeeps(Handle(ledger, requests[0]).0, requests[1..]);
    }
  }

  /******* Stale events *******/

  /** An event made for a finding that has moved on since is refused at any later time, and nothing changes. */
  lemma StaleEventRefused(ledger: Ledger, requests: seq<Request>, e: Event, rest: seq<Event>, reportHash: string)
    requires Sound(ledger) && e.hash.Digest? && e.hash.fingerprint in ledger.heads
    requires e.hash.sequence <= ledger.heads[e.hash.fingerprint].sequence
    requires !Known(RunAll(Handle, ledger, requests).0.occurrences, e, reportHash)
    ensures var later := RunAll(Handle, ledger, requests).0; Handle(later, Append([e] + rest, reportHash)) == (later, Conflict)
  {
    HandleAllKeeps(ledger, requests);
    assert !Continues(RunAll(Handle, ledger, requests).0, e);
    assert ([e] + rest)[0] == e;
  }

  /** The recorded events of a report. */
  predicate AllRecorded(occurrences: Occurrences, events: seq<Event>, reportHash: string) {
    forall e :: e in events ==> Known(occurrences, e, reportHash) && occurrences[OccurrenceOf(e, reportHash)] == e.hash
  }

  lemma {:induction false} RecordedEventsSkipped(known: Occurrences, ledger: Ledger, events: seq<Event>, reportHash: string)
    requires AllRecorded(known, events, reportHash)
    ensures PersistAll(known, ledger, events, reportHash) == Some(ledger)
    decreases |events|
  {
    if events != [] {
      assert events[0] in events;
      RecordedEventsSkipped(known, ledger, events[1..], reportHash);
    }
  }

  predicate Contains(occurrences: Occurrences, some: Occurrences) {
    forall o :: o in some ==> o in occurrences && occurrences[o] == some[o]
  }

  /** An event that is persisted is recorded at once, and stays so through the rest. */
  lemma FirstIsRecorded(known: Occurrences, ledger: Ledger, events: seq<Event>, reportHash: string) returns (next: Ledger)
    requires Sound(ledger) && events != [] && PersistAll(known, ledger, events, reportHash).Some?
    requires Contains(ledger.occurrences, known)
    ensures Sound(next) && Contains(next.occurrences, known)
    ensures PersistAll(known, ledger, events, reportHash) == PersistAll(known, next, events[1..], reportHash)
    ensures AllRecorded(PersistAll(known, ledger, events, reportHash).value.occurrences, [events[0]], reportHash)
  {
    var e := events[0];
    next := if Known(known, e, reportHash) then ledger else Persist(ledger, e, reportHash);
    if !Known(known, e, reportHash) { PersistKeeps(ledger, e, reportHash); }
    assert Known(next.occurrences, e, reportHash) && next.occurrences[OccurrenceOf(e, reportHash)] == e.hash;
    PersistAllKeeps(known, next, events[1..], reportHash);
  }

  lemma {:induction false} PersistedAreRecorded(known: Occurrences, ledger: Ledger, events: seq<Event>, reportHash: string)
    requires Sound(ledger) && PersistAll(known, ledger, events, reportHash).Some?
    requires Contains(ledger.occurrences, known)
    ensures AllRecorded(PersistAll(known, ledger, events, reportHash).value.occurrences, events, reportHash)
    decreases |events|
  {
    if events != [] {
      var next := FirstIsRecorded(known, ledger, events, reportHash);
      PersistedAreRecorded(known, next, events[1..], reportHash);
      assert forall e :: e in events ==> e in [events[0]] || e in events[1..];
    }
  }

  /** Appending the events of a report again, at any later time, changes nothing. */
  lemma ReappendUnchanged(ledger: Ledger, requests: seq<Request>, events: seq<Event>, reportHash: string)
    requires Sound(ledger) && !AppendEvents(ledger, events, reportHash).1.Conflict?
    ensures var later := RunAll(Handle, AppendEvents(ledger, events, reportHash).0, requests).0;
            AppendEvents(later, events, reportHash) == (later, Unchanged)
  {
    var after := AppendEvents(ledger, events, reportHash).0;
    var later := RunAll(Handle, after, requests).0;
    PersistedAreRecorded(ledger.occurrences, ledger, events, reportHash);
    AppendKeeps(ledger, events, reportHash);
    HandleAllKeeps(after, requests);
    assert AllRecorded(later.occurrences, events, reportHash);
    RecordedEventsSkipped(later.occurrences, later, events, reportHash);
  }

  /******* What a report does to one finding *******/

  lemma ProjectContinues(ledger: Ledger, reading: Reading, f: string)
    requires Sound(ledger)
    requires var e := Project(Eligible(ledger, reading, f), ObservationOf(reading.report, f), f, reading.at);
             e.Some? && Continues(ledger, e.value)
    ensures var e := Project(Eligible(ledger, reading, f), ObservationOf(reading.report, f), f, reading.at).value;
            var after := Persist(ledger, e, reading.report.hash);
            && f in after.heads && after.heads[f].open == (f in reading.report.observations)
            && (forall g :: g != f ==> SameHead(ledger, after, g))
            && after.workspace == ledger.workspace
  {
  }

  predicate SameHead(a: Ledger, b: Ledger, f: string) {
    (f in a.heads <==> f in b.heads) && (f in a.heads ==> a.heads[f] == b.heads[f])
  }

  predicate AgreeOn(a: Ledger, b: Ledger, fingerprints: seq<string>) {
    && a.workspace == b.workspace
    && forall f :: f in fingerprints ==> SameHead(a, b, f)
  }

  lemma {:induction false} ProjectAgrees(a: Ledger, b: Ledger, reading: Reading, fingerprints: seq<string>)
    requires AgreeOn(a, b, fingerprints)
    ensures ProjectAll(a, reading, fingerprints) == ProjectAll(b, reading, fingerprints)
    decreases |fingerprints|
  {
    if fingerprints != [] {
      assert fingerprints[0] in fingerprints;
      ProjectAgrees(a, b, reading, fingerprints[1..]);
    }
  }

  /** No word of the report has been recorded. */
  predicate NothingKnown(known: Occurrences, report: Report) {
    forall o :: o in known ==> o.reportHash != report.hash
  }

  predicate Distinct(s: seq<string>) { forall i, j :: 0 <= i < j < |s| ==> s[i] != s[j] }

  /** The finding is open after the report exactly when the report observes it, and gone quiet otherwise. */
  predicate Decided(after: Ledger, report: Report, f: string) {
    (f in after.heads && after.heads[f].open) <==> f in report.observations
  }

  predicate InScope(ledger: Ledger, reading: Reading, f: string) {
    f in reading.report.observations || Eligible(ledger, reading, f).Some?
  }

  lemma Untouched(ledger: Ledger, reading: Reading, f: string)
    requires Project(Eligible(ledger, reading, f), ObservationOf(reading.report, f), f, reading.at).None?
    requires InScope(ledger, reading, f)
    ensures Decided(ledger, reading.report, f)
  {
  }

  /** What holds once some findings have been decided, the others being as before. */
  ghost predicate DecidedAll(before: Ledger, after: Ledger, report: Report, fingerprints: seq<string>) {
    && (forall f :: f in fingerprints ==> Decided(after, report, f))
    && (forall g :: g !in fingerprints ==> SameHead(before, after, g))
  }

  lemma DecideFirst(before: Ledger, next: Ledger, after: Ledger, report: Report, f: string, rest: seq<string>)
    requires f !in rest && Decided(next, report, f) && DecidedAll(next, after, report, rest)
    requires forall g :: g != f ==> SameHead(before, next, g)
    ensures DecidedAll(before, after, report, [f] + rest)
  {
    assert SameHead(next, after, f);
    assert f in [f] + rest;
    forall g | g !in [f] + rest ensures SameHead(before, after, g) {
      assert g != f && g !in rest;
      assert SameHead(before, next, g) && SameHead(next, after, g);
    }
  }

  /** The report observes a finding that is stored for an account it does not cover, or for another account. */
  predicate Misplaced(ledger: Ledger, report: Report, f: string) {
    && f in report.observations && f in ledger.heads
    && (!Covers(ledger, report, f)
        || (report.observations[f].account.Some? && report.observations[f].account.value != ledger.heads[f].scope))
  }

  lemma ContinuesUnlessMisplaced(ledger: Ledger, reading: Reading, f: string)
    requires Sound(ledger)
    ensures var e := Project(Eligible(ledger, reading, f), ObservationOf(reading.report, f), f, reading.at);
            if e.Some? then Continues(ledger, e.value) <==> !Misplaced(ledger, reading.report, f)
            else !Misplaced(ledger, reading.report, f)
  {
    if f in ledger.heads { assert HeadOk(f, ledger.heads[f]); }
  }

  /** The ledger after the event that a reading projects for one finding, if it projects one that can be stored. */
  function Stepped(ledger: Ledger, reading: Reading, f: string): Ledger {
    var event := Project(Eligible(ledger, reading, f), ObservationOf(reading.report, f), f, reading.at);
    if event.None? || Misplaced(ledger, reading.report, f) then ledger else Persist(ledger, event.value, reading.report.hash)
  }

  /** The first finding of a projection is refused exactly when it is misplaced; otherwise it is decided, and the rest follows. */
  lemma ProjectionFirst(known: Occurrences, ledger: Ledger, reading: Reading, f: string, rest: seq<string>)
    returns (next: Ledger)
    requires Sound(ledger) && f !in rest && NothingKnown(known, reading.report)
    requires Occurrence(f, reading.report.hash) !in ledger.occurrences
    ensures Sound(next) && next.workspace == ledger.workspace && forall g :: g != f ==> SameHead(ledger, next, g)
    ensures !Misplaced(ledger, reading.report, f) && InScope(ledger, reading, f) ==> Decided(next, reading.report, f)
    ensures forall o :: o in next.occurrences ==> o in ledger.occurrences || o == Occurrence(f, reading.report.hash)
    ensures next == Stepped(ledger, reading, f)
    ensures PersistAll(known, ledger, ProjectAll(ledger, reading, [f] + rest), reading.report.hash)
         == if Misplaced(ledger, reading.report, f) then None
            else PersistAll(known, next, ProjectAll(next, reading, rest), reading.report.hash)
  {
    var event := Project(Eligible(ledger, reading, f), ObservationOf(reading.report, f), f, reading.at);
    var events, all := ProjectAll(ledger, reading, rest), ProjectAll(ledger, reading, [f] + rest);
    assert ([f] + rest)[1..] == rest;
    ContinuesUnlessMisplaced(ledger, reading, f);
    next := ledger;
    if event.None? {
      assert all == [] + events == events;
      if InScope(ledger, reading, f) { Untouched(ledger, reading, f); }
    } else {
      assert all == [event.value] + events && all[0] == event.value && all[1..] == events;
      assert !Known(known, event.value, reading.report.hash) && !Known(ledger.occurrences, event.value, reading.report.hash);
      if !Misplaced(ledger, reading.report, f) {
        next := Persist(ledger, event.value, reading.report.hash);
        PersistKeeps(ledger, event.value, reading.report.hash);
        ProjectContinues(ledger, reading, f);
        ProjectAgrees(ledger, next, reading, rest);
      }
    }
  }

  /** Persisting what a report projects decides each of its findings and leaves the others as they are. */
  lemma {:induction false} ProjectionDecides(
    known: Occurrences, ledger: Ledger, reading: Reading, fingerprints: seq<string>)
    requires Sound(ledger) && Distinct(fingerprints)
    requires NothingKnown(known, reading.report)
    requires PersistAll(known, ledger, ProjectAll(ledger, reading, fingerprints), reading.report.hash).Some?
    requires forall f :: f in fingerprints ==>
               InScope(ledger, reading, f) && Occurrence(f, reading.report.hash) !in ledger.occurrences
    ensures var after := PersistAll(known, ledger, ProjectAll(ledger, reading, fingerprints), reading.report.hash).value;
            DecidedAll(ledger, after, reading.report, fingerprints)
    decreases |fingerprints|
  {
    if fingerprints != [] {
      var f, rest := fingerprints[0], fingerprints[1..];
      assert fingerprints == [f] + rest;
      assert f !in rest;
      var next := ProjectionFirst(known, ledger, reading, f, rest);
      forall g | g in rest ensures InScope(next, reading, g) && Occurrence(g, reading.report.hash) !in next.occurrences {
        assert SameHead(ledger, next, g) && g in fingerprints && InScope(ledger, reading, g);
      }
      ProjectionDecides(known, next, reading, rest);
      var after := PersistAll(known, next, ProjectAll(next, reading, rest), reading.report.hash).value;
      DecideFirst(ledger, next, after, reading.report, f, rest);
    }
  }

  predicate IsOpenIn(ledger: Ledger, f: string) { f in ledger.heads && ledger.heads[f].open }

  /** The reading has a word on the finding: its report observes it, or covers it while silence counts. */
  predicate Touches(ledger: Ledger, reading: Reading, f: string) {
    f in reading.report.observations || (reading.resolveAbsent && Covers(ledger, reading.report, f))
  }

  /**
   A report that is not a replay opens what it observes. It closes the other findings that it covers exactly when absent
   findings are to be resolved; everything else is left as it is.
   */
  lemma ReportDecides(ledger: Ledger, reading: Reading, fingerprints: seq<string>, f: string)
    requires Sound(ledger) && Enumerates(fingerprints, ledger, reading)
    requires !Recorded(ledger, reading.report.hash) && !Materialize(ledger, reading, fingerprints).1.Conflict?
    ensures var after := Materialize(ledger, reading, fingerprints).0;
            if Touches(ledger, reading, f) then IsOpenIn(after, f) == (f in reading.report.observations)
            else SameHead(ledger, after, f)
  {
    ProjectionDecides(ledger.occurrences, ledger, reading, fingerprints);
    var after := Materialize(ledger, reading, fingerprints).0;
    assert f in fingerprints <==> Touches(ledger, reading, f);
    assert if f in fingerprints then Decided(after, reading.report, f) else SameHead(ledger, after, f);
  }

  /******* Replays *******/

  /**
   A report that recorded something is recognised at any later time and adds nothing, however it is taken then: also when
   it was taken without resolving and is now to resolve what is absent.
   */
  lemma RecordedReplayAddsNothing(
    ledger: Ledger, reading: Reading, fingerprints: seq<string>, requests: seq<Request>,
    again: Reading, others: seq<string>)
    requires Sound(ledger) && Materialize(ledger, reading, fingerprints).1.Inserted? && again.report.hash == reading.report.hash
    ensures var later := RunAll(Handle, Materialize(ledger, reading, fingerprints).0, requests).0;
            Materialize(later, again, others) == (later, Unchanged)
  {
    var events := ProjectAll(ledger, reading, fingerprints);
    var after := Materialize(ledger, reading, fingerprints).0;
    AppendKeeps(ledger, events, reading.report.hash);
    PersistedAreRecorded(ledger.occurrences, ledger, events, reading.report.hash);
    HandleAllKeeps(after, requests);
    assert AllRecorded(after.occurrences, events, reading.report.hash);
    var e :| e in events && !Known(ledger.occurrences, e, reading.report.hash);
    assert OccurrenceOf(e, reading.report.hash) in RunAll(Handle, after, requests).0.occurrences;
  }

  lemma {:induction false} NothingToDo(ledger: Ledger, reading: Reading, fingerprints: seq<string>)
    ensures ProjectAll(ledger, reading, fingerprints) == []
       <==> forall f :: f in fingerprints ==>
              f !in reading.report.observations
              && (Eligible(ledger, reading, f).Some? ==> !Eligible(ledger, reading, f).value.open)
    decreases |fingerprints|
  {
    if fingerprints != [] {
      assert fingerprints == [fingerprints[0]] + fingerprints[1..];
      NothingToDo(ledger, reading, fingerprints[1..]);
    }
  }

  /**
   A report adds nothing exactly when it has recorded an event before, or observes nothing while every finding it covers is
   resolved or absent. If absent findings are not to be resolved, observing nothing is enough.
   */
  lemma AddsNothingExactly(ledger: Ledger, reading: Reading, fingerprints: seq<string>)
    requires Enumerates(fingerprints, ledger, reading)
    ensures Materialize(ledger, reading, fingerprints).1.Unchanged?
       <==> Recorded(ledger, reading.report.hash)
            || (reading.report.observations == map[]
                && (reading.resolveAbsent ==>
                      forall f :: Covers(ledger, reading.report, f) ==> !IsOpenIn(ledger, f)))
  {
    NothingToDo(ledger, reading, fingerprints);
    var events, report := ProjectAll(ledger, reading, fingerprints), reading.report;
    if !Recorded(ledger, report.hash) {
      assert forall e :: e in events ==> !Known(ledger.occurrences, e, report.hash);
      if events != [] { assert events[0] in events; }
      if report.observations == map[] {
        assert forall f :: f in fingerprints <==> reading.resolveAbsent && Covers(ledger, report, f);
        assert forall f :: f in fingerprints ==> Eligible(ledger, reading, f) == Some(ledger.heads[f]);
      } else {
        var f :| f in report.observations;
        assert f in fingerprints;
      }
    }
  }

  /** Whether a report conflicts does not depend on whether its silence counts. */
  lemma ConflictsAlike(ledger: Ledger, a: Reading, b: Reading, some: seq<string>, all: seq<string>)
    requires Sound(ledger) && a.report == b.report && !Recorded(ledger, a.report.hash)
    requires Enumerates(some, ledger, a) && Enumerates(all, ledger, b)
    ensures Materialize(ledger, a, some).1.Conflict? <==> Materialize(ledger, b, all).1.Conflict?
  {
    ConflictsExactly(ledger, a, some);
    ConflictsExactly(ledger, b, all);
  }

  /**
   The same report taken in full after it was taken without resolving resolves nothing, because it is then a replay. Taken
   in full at once, it would have resolved every finding that it covers and does not observe.
   */
  lemma FullAfterPartialResolvesNothing(
    ledger: Ledger, partial: Reading, observed: seq<string>, full: Reading, all: seq<string>, later: seq<string>, f: string)
    requires Sound(ledger) && !Recorded(ledger, partial.report.hash) && partial.report.observations != map[]
    requires !partial.resolveAbsent && full.resolveAbsent && full.report == partial.report
    requires Enumerates(observed, ledger, partial) && Enumerates(all, ledger, full)
    requires !Materialize(ledger, partial, observed).1.Conflict?
    requires Covers(ledger, full.report, f) && IsOpenIn(ledger, f) && f !in full.report.observations
    ensures var after := Materialize(ledger, partial, observed).0;
            IsOpenIn(after, f) && Materialize(after, full, later) == (after, Unchanged)
    ensures !IsOpenIn(Materialize(ledger, full, all).0, f)
  {
    var (after, outcome) := Materialize(ledger, partial, observed);
    assert outcome.Inserted? by { AddsNothingExactly(ledger, partial, observed); }
    assert Materialize(after, full, later) == (after, Unchanged) by {
      assert RunAll(Handle, after, []).0 == after;
      RecordedReplayAddsNothing(ledger, partial, observed, [], full, later);
    }
    ConflictsAlike(ledger, partial, full, observed, all);
    ReportDecides(ledger, partial, observed, f);
    ReportDecides(ledger, full, all, f);
  }

  /** Over any run in which no report resolves what is absent and no events are appended, no finding is ever resolved. */
  lemma {:induction false} PartialReadingsNeverResolve(ledger: Ledger, requests: seq<Request>, f: string)
    requires Sound(ledger) && WellAsked(ledger, requests) && IsOpenIn(ledger, f)
    requires forall i :: 0 <= i < |requests| ==>
               !requests[i].Append? && (requests[i].Observe? ==> !requests[i].reading.resolveAbsent)
    ensures IsOpenIn(RunAll(Handle, ledger, requests).0, f)
    decreases |requests|
  {
    if requests != [] {
      HandleKeeps(ledger, requests[0]);
      WordIsOpen(ledger, requests[0], f);
      PartialReadingsNeverResolve(Handle(ledger, requests[0]).0, requests[1..], f);
    }
  }

  /**
   So a healthy report is not remembered: sent again after another report has opened a finding, it resolves that finding,
   although the report that opened it is the later one.
   */
  lemma HealthyReplayResolves(workspace: string, f: string, evidence: string)
    ensures var healthy := Report("healthy", {}, map[]);
            var unhealthy := Report("unhealthy", {}, map[f := Observation(None, evidence)]);
            var start := Start(workspace);
            var first := Materialize(start, Reading(healthy, 0, true), []);
            var second := Materialize(first.0, Reading(unhealthy, 1, true), [f]);
            var third := Materialize(second.0, Reading(healthy, 0, true), [f]);
            && first == (start, Unchanged) && second.1 == Inserted && f in second.0.heads && second.0.heads[f].open
            && third.1 == Inserted && f in third.0.heads && !third.0.heads[f].open
  {
    var healthy := Report("healthy", {}, map[]);
    var unhealthy := Report("unhealthy", {}, map[f := Observation(None, evidence)]);
    var start := Start(workspace);
    var opening := Event(Digest(f, 1, Opened, evidence, Zero, 1), None);
    assert ProjectAll(start, Reading(unhealthy, 1, true), [f]) == [opening];
    assert PersistAll(map[], start, [opening], unhealthy.hash)
        == PersistAll(map[], Persist(start, opening, unhealthy.hash), [], unhealthy.hash);
    var second := Materialize(start, Reading(unhealthy, 1, true), [f]).0;
    assert second.heads[f] == Head(workspace, 1, true, evidence, opening.hash);
    assert |"healthy"| != |"unhealthy"|;
    var closing := Event(Digest(f, 2, Resolved, evidence, opening.hash, 0), None);
    assert ProjectAll(second, Reading(healthy, 0, true), [f]) == [closing];
    var known := second.occurrences;
    assert known.Keys == {Occurrence(f, unhealthy.hash)};
    assert PersistAll(known, second, [closing], healthy.hash)
        == PersistAll(known, Persist(second, closing, healthy.hash), [], healthy.hash);
  }

  /******* Every run *******/

  /**
   Whatever is requested, every chain opens first, is numbered by ones, and alternates between being open and resolved as
   the lifecycle demands; and every head is the end of its chain.
   */
  lemma ChainsStayValid(workspace: string, requests: seq<Request>)
    ensures var after := RunAll(Handle, Start(workspace), requests).0;
            ChainsOk(after) && forall f :: f in after.heads ==> HeadOk(f, after.heads[f])
  {
    HandleAllKeeps(Start(workspace), requests);
  }

  /** One event is the other, or comes before it on its chain. */
  predicate LeadsTo(earlier: EventHash, later: EventHash) {
    earlier == later || (later.Digest? && LeadsTo(earlier, later.previous))
  }

  lemma {:induction false} LeadsOn(a: EventHash, b: EventHash, c: EventHash)
    requires LeadsTo(a, b) && LeadsTo(b, c)
    ensures LeadsTo(a, c)
    decreases c
  {
    if b != c { LeadsOn(a, b, c.previous); }
  }

  ghost predicate HistoriesExtend(before: Ledger, after: Ledger) {
    forall f :: f in before.heads ==> f in after.heads && LeadsTo(before.heads[f].hash, after.heads[f].hash)
  }

  lemma ExtendOn(a: Ledger, b: Ledger, c: Ledger)
    requires HistoriesExtend(a, b) && HistoriesExtend(b, c)
    ensures HistoriesExtend(a, c)
  {
    forall f | f in a.heads ensures f in c.heads && LeadsTo(a.heads[f].hash, c.heads[f].hash) {
      LeadsOn(a.heads[f].hash, b.heads[f].hash, c.heads[f].hash);
    }
  }

  lemma {:induction false} PersistAllExtends(known: Occurrences, ledger: Ledger, events: seq<Event>, reportHash: string)
    requires PersistAll(known, ledger, events, reportHash).Some?
    ensures HistoriesExtend(ledger, PersistAll(known, ledger, events, reportHash).value)
    decreases |events|
  {
    if events != [] {
      var e := events[0];
      if Known(known, e, reportHash) {
        PersistAllExtends(known, ledger, events[1..], reportHash);
      } else {
        var next := Persist(ledger, e, reportHash);
        assert LeadsTo(e.hash.previous, e.hash);
        PersistAllExtends(known, next, events[1..], reportHash);
        ExtendOn(ledger, next, PersistAll(known, ledger, events, reportHash).value);
      }
    }
  }

  lemma HandleExtends(ledger: Ledger, r: Request)
    ensures HistoriesExtend(ledger, Handle(ledger, r).0)
  {
    var events, hash :=
      if r.Observe? then ProjectAll(ledger, r.reading, r.fingerprints) else if r.Append? then r.events else [],
      if r.Observe? then r.reading.report.hash else if r.Append? then r.reportHash else "";
    if PersistAll(ledger.occurrences, ledger, events, hash).Some? {
      PersistAllExtends(ledger.occurrences, ledger, events, hash);
    }
  }

  /** Whatever is requested, no event of a finding is ever lost or replaced: later chains continue earlier ones. */
  lemma {:induction false} HistoriesOnlyExtend(ledger: Ledger, requests: seq<Request>)
    ensures HistoriesExtend(ledger, RunAll(Handle, ledger, requests).0)
    decreases |requests|
  {
    if requests != [] {
      var next := Handle(ledger, requests[0]).0;
      HandleExtends(ledger, requests[0]);
      HistoriesOnlyExtend(next, requests[1..]);
      ExtendOn(ledger, next, RunAll(Handle, next, requests[1..]).0);
    }
  }

  /******* A finding is the fold of its reports *******/

  /** What appended events say of a finding: the kind of the last one that is not a replay. */
  function EventsWord(known: Occurrences, events: seq<Event>, reportHash: string, f: string, word: bool): bool
    decreases |events|
  {
    if events == [] then word
    else
      var e := events[0];
      var next := if e.hash.Digest? && e.hash.fingerprint == f && !Known(known, e, reportHash) then IsOpen(e.hash.kind) else word;
      EventsWord(known, events[1..], reportHash, f, next)
  }

  /**
   What a request says of a finding: a report that is not a replay, does not conflict and touches the finding says whether
   it observes it; nothing else a report or a person says counts.
   */
  function Word(ledger: Ledger, r: Request, f: string, word: bool): bool {
    match r
    case Observe(reading, _) =>
      if Recorded(ledger, reading.report.hash) || Handle(ledger, r).1.Conflict? || !Touches(ledger, reading, f) then word
      else f in reading.report.observations
    case Append(events, reportHash) =>
      if Handle(ledger, r).1.Conflict? then word else EventsWord(ledger.occurrences, events, reportHash, f, word)
    case Judge(_, _) => word
  }

  function LastWord(ledger: Ledger, requests: seq<Request>, f: string, word: bool): bool
    decreases |requests|
  {
    if requests == [] then word
    else LastWord(Handle(ledger, requests[0]).0, requests[1..], f, Word(ledger, requests[0], f, word))
  }

  /** Every report is taken with the fingerprints of its scope at the time. */
  ghost predicate WellAsked(ledger: Ledger, requests: seq<Request>)
    decreases |requests|
  {
    requests == []
    || (&& (requests[0].Observe? ==> Enumerates(requests[0].fingerprints, ledger, requests[0].reading))
        && WellAsked(Handle(ledger, requests[0]).0, requests[1..]))
  }

  lemma {:induction false} EventsDecide(known: Occurrences, ledger: Ledger, events: seq<Event>, reportHash: string, f: string)
    requires PersistAll(known, ledger, events, reportHash).Some?
    ensures IsOpenIn(PersistAll(known, ledger, events, reportHash).value, f)
         == EventsWord(known, events, reportHash, f, IsOpenIn(ledger, f))
    decreases |events|
  {
    if events != [] {
      var e := events[0];
      var next := if Known(known, e, reportHash) then ledger else Persist(ledger, e, reportHash);
      EventsDecide(known, next, events[1..], reportHash, f);
    }
  }

  lemma WordIsOpen(ledger: Ledger, r: Request, f: string)
    requires Sound(ledger) && (r.Observe? ==> Enumerates(r.fingerprints, ledger, r.reading))
    ensures IsOpenIn(Handle(ledger, r).0, f) == Word(ledger, r, f, IsOpenIn(ledger, f))
  {
    match r
    case Observe(reading, fingerprints) =>
      if !Recorded(ledger, reading.report.hash) && !Handle(ledger, r).1.Conflict? {
        ReportDecides(ledger, reading, fingerprints, f);
      }
    case Append(events, reportHash) =>
      if !Handle(ledger, r).1.Conflict? { EventsDecide(ledger.occurrences, ledger, events, reportHash, f); }
    case Judge(_, _) =>
  }

  /**
   The state of a finding is the fold of its reports: over any run it is open afterwards exactly when the last report that
   was not a replay, did not conflict and touched it observed it. Triage and silence that does not count have no say.
   */
  lemma {:induction false} OpenIsLastWord(ledger: Ledger, requests: seq<Request>, f: string)
    requires Sound(ledger) && WellAsked(ledger, requests)
    ensures IsOpenIn(RunAll(Handle, ledger, requests).0, f) == LastWord(ledger, requests, f, IsOpenIn(ledger, f))
    decreases |requests|
  {
    if requests != [] {
      HandleKeeps(ledger, requests[0]);
      WordIsOpen(ledger, requests[0], f);
      OpenIsLastWord(Handle(ledger, requests[0]).0, requests[1..], f);
    }
  }

  /******* When a report conflicts *******/

  predicate SomeMisplaced(ledger: Ledger, report: Report, fingerprints: seq<string>) {
    exists f :: f in fingerprints && Misplaced(ledger, report, f)
  }

  lemma MisplacedFirst(ledger: Ledger, next: Ledger, report: Report, f: string, rest: seq<string>)
    requires next.workspace == ledger.workspace && f !in rest && forall g :: g != f ==> SameHead(ledger, next, g)
    ensures SomeMisplaced(ledger, report, [f] + rest) <==> Misplaced(ledger, report, f) || SomeMisplaced(next, report, rest)
  {
    assert forall g :: g in [f] + rest <==> g == f || g in rest;
    assert forall g :: g in rest ==> SameHead(ledger, next, g);
    assert forall g :: g in rest ==> (Misplaced(ledger, report, g) <==> Misplaced(next, report, g));
  }

  lemma {:induction false} ProjectionConflicts(
    known: Occurrences, ledger: Ledger, reading: Reading, fingerprints: seq<string>)
    requires Sound(ledger) && Distinct(fingerprints) && NothingKnown(known, reading.report)
    requires forall f :: f in fingerprints ==> Occurrence(f, reading.report.hash) !in ledger.occurrences
    ensures PersistAll(known, ledger, ProjectAll(ledger, reading, fingerprints), reading.report.hash).None?
       <==> SomeMisplaced(ledger, reading.report, fingerprints)
    decreases |fingerprints|
  {
    if fingerprints != [] {
      var f, rest := fingerprints[0], fingerprints[1..];
      assert fingerprints == [f] + rest;
      assert f !in rest && f in fingerprints;
      var next := ProjectionFirst(known, ledger, reading, f, rest);
      MisplacedFirst(ledger, next, reading.report, f, rest);
      assert forall g :: g in rest ==> g in fingerprints;
      ProjectionConflicts(known, next, reading, rest);
    }
  }

  /**
   A report that is not a replay conflicts exactly when it observes a finding stored outside its scope, or for another
   account than it says. Then it changes nothing; the findings of its scope stay undecided.
   */
  lemma ConflictsExactly(ledger: Ledger, reading: Reading, fingerprints: seq<string>)
    requires Sound(ledger) && Enumerates(fingerprints, ledger, reading) && !Recorded(ledger, reading.report.hash)
    ensures Materialize(ledger, reading, fingerprints).1.Conflict? <==> exists f :: Misplaced(ledger, reading.report, f)
  {
    ProjectionConflicts(ledger.occurrences, ledger, reading, fingerprints);
    assert forall f :: Misplaced(ledger, reading.report, f) ==> f in fingerprints;
  }
}
