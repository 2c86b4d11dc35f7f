/** What a report writes, finding by finding, and which triage is allowed, told from the stored heads and logs. */
module FindingLedgerRules {
  import opened Options
  import opened Histories
  import opened FindingLedger
  import opened FindingLedgerTheorems

  /******* What a report writes *******/

  /** Nothing about the finding has changed: its head, its log, and what this report recorded on it. */
  predicate Untold(before: Ledger, after: Ledger, hash: string, f: string) {
    && SameHead(before, after, f)
    && (f in before.logs <==> f in after.logs) && (f in before.logs ==> after.logs[f] == before.logs[f])
    && (Occurrence(f, hash) in before.occurrences <==> Occurrence(f, hash) in after.occurrences)
    && (Occurrence(f, hash) in before.occurrences ==>
          after.occurrences[Occurrence(f, hash)] == before.occurrences[Occurrence(f, hash)])
  }

  /** The finding has gained this event: its head says what the event says, its log one entry more, and it is recorded. */
  predicate Gained(before: Ledger, after: Ledger, hash: string, f: string, event: EventHash, scope: string, open: bool)
    requires event.Digest?
  {
    && f in after.heads && after.heads[f] == Head(scope, event.sequence, open, event.evidence, event)
    && f in after.logs && Occurrence(f, hash) in after.occurrences && after.occurrences[Occurrence(f, hash)] == event
    && after.logs[f] == if f in before.logs then Log(before.logs[f].sequence + 1, before.logs[f].state) else Log(1, Proposed)
  }

  /**
   What a reading does to a finding. A new one is opened where it was seen, or in the workspace; a stored one is observed
   or, if it was resolved, reopened, with the evidence of the observation. One that is open, covered and not observed is
   resolved with the evidence it had, if absent findings are to be resolved. Nothing else is written.
   */
  predicate Told(before: Ledger, after: Ledger, reading: Reading, f: string) {
    var report := reading.report;
    if f in report.observations then
      var seen := report.observations[f];
      if f !in before.heads then
        Gained(before, after, report.hash, f, Digest(f, 1, Opened, seen.evidence, Zero, reading.at),
               if seen.account.Some? then seen.account.value else before.workspace, true)
      else
        var head := before.heads[f];
        var kind := if head.open then Observed else Reopened;
        Gained(before, after, report.hash, f, Digest(f, head.sequence + 1, kind, seen.evidence, head.hash, reading.at),
               head.scope, true)
    else if reading.resolveAbsent && f in before.heads && before.heads[f].open
      && (before.heads[f].scope == before.workspace || before.heads[f].scope in report.accounts) then
      var head := before.heads[f];
      Gained(before, after, report.hash, f, Digest(f, head.sequence + 1, Resolved, head.evidence, head.hash, reading.at),
             head.scope, false)
    else Untold(before, after, report.hash, f)
  }

  lemma FirstTold(ledger: Ledger, reading: Reading, f: string)
    requires Sound(ledger) && !Misplaced(ledger, reading.report, f)
    requires Occurrence(f, reading.report.hash) !in ledger.occurrences
    ensures Told(ledger, Stepped(ledger, reading, f), reading, f)
    ensures forall g :: g != f ==> Untold(ledger, Stepped(ledger, reading, f), reading.report.hash, g)
  {
  }

  ghost predicate AllTold(before: Ledger, after: Ledger, reading: Reading, fingerprints: seq<string>) {
    && (forall f :: f in fingerprints ==> Told(before, after, reading, f))
    && (forall g :: g !in fingerprints ==> Untold(before, after, reading.report.hash, g))
  }

  lemma TellFirst(before: Ledger, next: Ledger, after: Ledger, reading: Reading, f: string, rest: seq<string>)
    requires f !in rest && before.workspace == next.workspace
    requires Told(before, next, reading, f) && forall g :: g != f ==> Untold(before, next, reading.report.hash, g)
    requires AllTold(next, after, reading, rest)
    ensures AllTold(before, after, reading, [f] + rest)
  {
    var hash := reading.report.hash;
    assert Untold(next, after, hash, f);
    forall g | g in [f] + rest ensures Told(before, after, reading, g) {
      if g == f { ToldThenUntold(before, next, after, reading, f); }
      else { assert g in rest && Untold(before, next, hash, g); UntoldThenTold(before, next, after, reading, g); }
    }
    forall g | g !in [f] + rest ensures Untold(before, after, hash, g) {
      assert g != f && g !in rest;
      assert Untold(before, next, hash, g) && Untold(next, after, hash, g);
    }
  }

  lemma ToldThenUntold(before: Ledger, next: Ledger, after: Ledger, reading: Reading, f: string)
    requires Told(before, next, reading, f) && Untold(next, after, reading.report.hash, f)
    ensures Told(before, after, reading, f)
  {
  }

  lemma UntoldThenTold(before: Ledger, next: Ledger, after: Ledger, reading: Reading, f: string)
    requires before.workspace == next.workspace
    requires Untold(before, next, reading.report.hash, f) && Told(next, after, reading, f)
    ensures Told(before, after, reading, f)
  {
  }

  lemma {:induction false} ProjectionTells(known: Occurrences, ledger: Ledger, reading: Reading, fingerprints: seq<string>)
    requires Sound(ledger) && Distinct(fingerprints) && NothingKnown(known, reading.report)
    requires PersistAll(known, ledger, ProjectAll(ledger, reading, fingerprints), reading.report.hash).Some?
    requires forall f :: f in fingerprints ==> Occurrence(f, reading.report.hash) !in ledger.occurrences
    ensures var after := PersistAll(known, ledger, ProjectAll(ledger, reading, fingerprints), reading.report.hash).value;
            AllTold(ledger, after, reading, fingerprints)
    decreases |fingerprints|
  {
    if fingerprints != [] {
      var f, rest := fingerprints[0], fingerprints[1..];
      assert fingerprints == [f] + rest && f !in rest && f in fingerprints;
      var next := ProjectionFirst(known, ledger, reading, f, rest);
      FirstTold(ledger, reading, f);
      assert forall g :: g in rest ==> g in fingerprints;
      ProjectionTells(known, next, reading, rest);
      var after := PersistAll(known, next, ProjectAll(next, reading, rest), reading.report.hash).value;
      TellFirst(ledger, next, after, reading, f, rest);
    }
  }

  /** After a report that is neither a replay nor a conflict, every finding is as the report tells, and nothing else changes. */
  lemma ReportWrites(ledger: Ledger, reading: Reading, fingerprints: seq<string>, f: string)
    requires Sound(ledger) && Enumerates(fingerprints, ledger, reading)
    requires !Recorded(ledger, reading.report.hash) && !Materialize(ledger, reading, fingerprints).1.Conflict?
    ensures Told(ledger, Materialize(ledger, reading, fingerprints).0, reading, f)
  {
    ProjectionTells(ledger.occurrences, ledger, reading, fingerprints);
    var after := Materialize(ledger, reading, fingerprints).0;
    if f !in fingerprints { assert Untold(ledger, after, reading.report.hash, f); }
  }

  function InScopeOf(ledger: Ledger, reading: Reading): set<string> {
    reading.report.observations.Keys + set f | f in ledger.heads && Eligible(ledger, reading, f).Some?
  }

  /** For every reading there is an order of the fingerprints that it concerns. */
  lemma SomeOrder(ledger: Ledger, reading: Reading) returns (fingerprints: seq<string>)
    ensures Enumerates(fingerprints, ledger, reading)
  {
    fingerprints := InSomeOrder(InScopeOf(ledger, reading));
  }

  lemma {:induction false} InSomeOrder(names: set<string>) returns (ordered: seq<string>)
    ensures forall i, j :: 0 <= i < j < |ordered| ==> ordered[i] != ordered[j]
    ensures forall f :: f in ordered <==> f in names
  {
    if names == {} {
      ordered := [];
    } else {
      var f :| f in names;
      var rest := InSomeOrder(names - {f});
      assert f !in rest;
      ordered := [f] + rest;
    }
  }

  /******* What an appended event needs *******/

  /** The event is the next of its finding: the first opens it; others name the head, follow it, and fit its state. */
  predicate IsNext(ledger: Ledger, e: Event)
    requires e.hash.Digest?
  {
    var h := e.hash;
    if h.fingerprint !in ledger.heads then h.previous == Zero && h.sequence == 1 && h.kind == Opened
    else
      var head := ledger.heads[h.fingerprint];
      && h.previous == head.hash && h.sequence == head.sequence + 1
      && (e.scope == None || e.scope == Some(head.scope))
      && if head.open then h.kind == Observed || h.kind == Resolved else h.kind == Reopened
  }

  /**
   One event is stored exactly if nothing of the report is recorded on its finding and it is the next of the finding; if the
   report has recorded this very event there, it changes nothing; and otherwise it is a conflict.
   */
  lemma OneEventExactly(ledger: Ledger, e: Event, reportHash: string)
    requires e.hash.Digest?
    ensures var o := Occurrence(e.hash.fingerprint, reportHash);
            Handle(ledger, Append([e], reportHash)).1
            == if o in ledger.occurrences then (if ledger.occurrences[o] == e.hash then Unchanged else Conflict)
               else if IsNext(ledger, e) then Inserted else Conflict
    ensures Handle(ledger, Append([e], reportHash)).1 != Inserted ==> Handle(ledger, Append([e], reportHash)).0 == ledger
    ensures Handle(ledger, Append([e], reportHash)).1 == Inserted ==>
              var f, after := e.hash.fingerprint, Handle(ledger, Append([e], reportHash)).0;
              && Gained(ledger, after, reportHash, f, e.hash,
                        if e.scope.Some? then e.scope.value
                        else if f in ledger.heads then ledger.heads[f].scope else ledger.workspace, e.hash.kind != Resolved)
              && after.workspace == ledger.workspace
              && forall g :: g != f ==> Untold(ledger, after, reportHash, g)
  {
    assert [e][0] == e && [e][1..] == [];
    assert PersistAll(ledger.occurrences, ledger, [], reportHash) == Some(ledger);
    assert PersistAll(ledger.occurrences, Persist(ledger, e, reportHash), [], reportHash)
        == Some(Persist(ledger, e, reportHash));
    assert forall d :: d in [e] <==> d == e;
  }

  /******* Triage *******/

  /** How far a triage state is: proposed, triaged, tasked, or settled. */
  function Depth(s: TriageState): nat {
    match s
    case Proposed => 0
    case Triaged => 1
    case Tasked => 2
    case Deferred => 3
    case Rejected => 3
    case Closed => 3
  }

  /** A person may move a log on, as far as wanted, and may take up a settled one again as triaged; nothing else. */
  lemma TriagesExactly(ledger: Ledger, f: string, state: TriageState)
    ensures var allowed := f in ledger.logs
              && (Depth(ledger.logs[f].state) < Depth(state) || (Depth(ledger.logs[f].state) == 3 && state == Triaged));
            Handle(ledger, Judge(f, state))
            == if allowed then (ledger.(logs := ledger.logs[f := Log(ledger.logs[f].sequence + 1, state)]), Inserted)
               else (ledger, Conflict)
  {
  }

  /** The triage state that the judgements of a run leave. */
  function LastJudged(requests: seq<Request>, replies: seq<Outcome>, f: string, start: TriageState): TriageState
    requires |requests| == |replies|
  {
    if requests == [] then start
    else
      LastJudged(requests[1..], replies[1..], f,
                 if requests[0].Judge? && requests[0].fingerprint == f && replies[0] == Inserted then requests[0].state
                 else start)
  }

  lemma StepJudged(ledger: Ledger, r: Request, f: string)
    requires Sound(ledger) && f in ledger.logs
    ensures var (after, reply) := Handle(ledger, r);
            && f in after.logs
            && after.logs[f].state
               == if r.Judge? && r.fingerprint == f && reply == Inserted then r.state else ledger.logs[f].state
  {
    HandleKeeps(ledger, r);
  }

  /** Over any run, reports and events included, a log is in the state of the last judgement that was allowed. */
  lemma {:induction false} TriageIsLastJudgement(ledger: Ledger, requests: seq<Request>, f: string)
    requires Sound(ledger) && f in ledger.logs
    ensures var (after, replies) := RunAll(Handle, ledger, requests);
            f in after.logs && after.logs[f].state == LastJudged(requests, replies, f, ledger.logs[f].state)
    decreases |requests|
  {
    if requests != [] {
      var (next, reply) := Handle(ledger, requests[0]);
      HandleKeeps(ledger, requests[0]);
      StepJudged(ledger, requests[0], f);
      TriageIsLastJudgement(next, requests[1..], f);
      assert RunAll(Handle, ledger, requests).1[1..] == RunAll(Handle, next, requests[1..]).1;
    }
  }
}
