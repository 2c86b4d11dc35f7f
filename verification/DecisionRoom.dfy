/** The decision room as its workers drive it: the run store and the schedule registry together. */
module DecisionRoom {
  import opened Options
  import opened DecisionRuns
  import opened Histories
  import opened Sequences
  import opened DecisionRunTheorems
  import Schedules = DecisionSchedules

  /** A worker's copy of a due schedule; `hash` is the stored definition hash, modelled by what it digests. */
  datatype Candidate = Candidate(definition: Schedules.Definition, hash: Schedules.Definition, revision: nat, due: int)

  /** What the calendar makes of a candidate: a slot to run, nothing to run because the slot is stale, or an error. */
  datatype Plan = Due(slot: int) | Stale | Fails

  /** A worker's turn: a candidate, its plan and the time it is next due, and what its analysis will return. */
  datatype Work = Work(
    candidate: Candidate, key: string, plan: Plan, next: Option<int>, now: int, until: int,
    analysis: Option<Completion>)

  datatype Outcome =
    | Done | DuplicateDone | StaleSkipped | RunFailed | TickConflict | StillInProgress | OverlapSuppressed
    | DefinitionMismatch | IsolatedError

  datatype Worked = Worked(rows: seq<Schedules.Row>, store: Store, outcome: Outcome)

  /** What other workers and editors do between two calls of a worker: any edits and ticks, any claims and endings. */
  datatype Gap = Gap(edits: seq<Schedules.Request>, steps: seq<Step>)

  function Edited(rows: seq<Schedules.Row>, gap: Gap): seq<Schedules.Row> { RunAll(Schedules.Handle, rows, gap.edits).0 }

  function Stepped(store: Store, gap: Gap): Store { RunAll(HandleStep, store, gap.steps).0 }

  function TargetOf(d: Schedules.Definition): Target { Target(d.account, d.campaign, d.timeframe, d.template) }

  function ClaimOf(w: Work): ClaimInput {
    var target := TargetOf(w.candidate.definition);
    ClaimInput(w.key, ScopeOf(target), Scheduled(w.candidate.definition), target, w.now, w.until)
  }

  /** The slot that a turn ticks: the one it runs, or the due time that it skips. */
  function SlotOf(w: Work): int { if w.plan.Due? then w.plan.slot else w.candidate.due }

  function TickOf(w: Work): Schedules.Request {
    Schedules.Tick(w.candidate.definition.scheduleRef, w.candidate.revision, w.candidate.hash, SlotOf(w), w.next)
  }

  /** The end of a worker's turn, once the run is known to be completed. */
  function TickAfter(rows: seq<Schedules.Row>, store: Store, w: Work, outcome: Outcome): Worked {
    var (after, reply) := Schedules.Handle(rows, TickOf(w));
    Worked(after, store, if reply.Advanced? then outcome else if reply.NotAdvanced? then TickConflict else IsolatedError)
  }

  /** The middle of a turn: the claim was granted, the analysis is over, and the run is to be ended. */
  function EndRun(rows: seq<Schedules.Row>, store: Store, w: Work, token: Token): (Store, Reply) {
    if w.analysis.None? then Handle(rows, store, Fail(w.key, token))
    else Handle(rows, store, Complete(w.key, token, w.analysis.value))
  }

  /** A turn on one candidate. A stale slot is only ticked: the one way to move the cursor without a run. */
  function Turn(rows: seq<Schedules.Row>, store: Store, w: Work, first: Gap, second: Gap): Worked {
    if w.candidate.hash != w.candidate.definition then Worked(rows, store, DefinitionMismatch)
    else
      match w.plan
      case Fails => Worked(rows, store, IsolatedError)
      case Stale => TickAfter(rows, store, w, StaleSkipped)
      case Due(_) => Execute(rows, store, w, first, second)
  }

  /**
   A worker's run of one candidate: three calls, each a transaction of its own. The first gap lies before the run is ended,
   the second before the tick.
   */
  function Execute(rows: seq<Schedules.Row>, store: Store, w: Work, first: Gap, second: Gap): Worked {
    var (claimed, reply) := Handle(rows, store, Claim(ClaimOf(w)));
    match reply
    case DuplicateCompleted(_, _, _) => TickAfter(Edited(rows, second), Stepped(claimed, second), w, DuplicateDone)
    case Claimed(_, token, _) =>
      var midRows, midStore := Edited(rows, first), Stepped(claimed, first);
      var (ended, done) := EndRun(midRows, midStore, w, token);
      if done != Updated(true) then Worked(midRows, ended, IsolatedError)
      else if w.analysis.None? then Worked(midRows, ended, RunFailed)
      else TickAfter(Edited(midRows, second), Stepped(ended, second), w, Done)
    case InProgress(_, _) => Worked(rows, claimed, StillInProgress)
    case Suppressed => Worked(rows, claimed, OverlapSuppressed)
    case _ => Worked(rows, claimed, IsolatedError)
  }

  /** Two turns for the same fire: the same revision and slot, whatever the time, the plan and the analysis. */
  predicate SameFire(a: Work, b: Work) {
    a.candidate == b.candidate.(due := a.candidate.due) && a.key == b.key && SlotOf(a) == SlotOf(b)
  }

  /** The run of a scheduled key is bound to a revision with the claimed definition. */
  predicate Traced(rows: seq<Schedules.Row>, store: Store, w: Work) {
    && w.key in store.runs
    && var run := store.runs[w.key];
       && run.origin == Scheduled(w.candidate.definition) && run.target == TargetOf(w.candidate.definition)
       && run.schedule.Some? && run.schedule.value < |rows| && rows[run.schedule.value].definition == w.candidate.definition
  }

  /** The fire has been executed. */
  predicate Executed(rows: seq<Schedules.Row>, store: Store, w: Work) {
    Traced(rows, store, w) && store.runs[w.key].state.Completed?
  }

  /** The cursor of the candidate's revision has reached the slot of the turn. */
  predicate Past(rows: seq<Schedules.Row>, w: Work) {
    Schedules.Consumed(rows, w.candidate.definition.scheduleRef, w.candidate.revision, SlotOf(w))
  }

  /** The fire has been executed and ticked. */
  predicate Over(rows: seq<Schedules.Row>, store: Store, w: Work) { Executed(rows, store, w) && Past(rows, w) }

  lemma ClaimTraces(rows: seq<Schedules.Row>, store: Store, w: Work)
    ensures var (claimed, reply) := Handle(rows, store, Claim(ClaimOf(w)));
            && (reply.Claimed? ==> Traced(rows, claimed, w))
            && (reply.DuplicateCompleted? ==> Executed(rows, claimed, w))
  {
  }

  /** A trace, and the execution of a fire, last through everything that others do. */
  lemma TraceLasts(rows: seq<Schedules.Row>, store: Store, w: Work, laterRows: seq<Schedules.Row>, laterStore: Store)
    requires Traced(rows, store, w) && Schedules.Grows(rows, laterRows) && Kept(store, laterStore)
    ensures Traced(laterRows, laterStore, w)
    ensures Executed(rows, store, w) ==> Executed(laterRows, laterStore, w)
  {
    var id := store.runs[w.key].schedule.value;
    assert RunKept(store.runs[w.key], laterStore.runs[w.key]);
    assert Schedules.RowGrows(rows[id], laterRows[id]);
  }

  lemma GapGrows(rows: seq<Schedules.Row>, store: Store, gap: Gap)
    requires Schedules.Orderly(rows)
    ensures Schedules.Orderly(Edited(rows, gap)) && Schedules.Grows(rows, Edited(rows, gap)) && Kept(store, Stepped(store, gap))
  {
    Schedules.HandleAllKeeps(rows, gap.edits);
    HandleAllKeeps(store, gap.steps);
  }

  lemma EndingExecutes(rows: seq<Schedules.Row>, store: Store, w: Work, token: Token)
    requires Traced(rows, store, w) && w.analysis.Some? && EndRun(rows, store, w, token).1 == Updated(true)
    ensures Executed(rows, EndRun(rows, store, w, token).0, w)
  {
  }

  /** A tick that advances for an executed fire leaves it over. */
  lemma TickEnds(rows: seq<Schedules.Row>, store: Store, w: Work)
    requires Schedules.Orderly(rows) && Executed(rows, store, w) && Schedules.Handle(rows, TickOf(w)).1.Advanced?
    ensures var after := Schedules.Handle(rows, TickOf(w)).0; Schedules.Orderly(after) && Over(after, store, w)
  {
    var after := Schedules.Handle(rows, TickOf(w)).0;
    Schedules.HandleKeeps(rows, TickOf(w));
    Schedules.AdvancedConsumes(rows, TickOf(w), w.candidate.definition.scheduleRef, w.candidate.revision, SlotOf(w));
    TraceLasts(rows, store, w, after, store);
  }

  /** A run that comes to a tick that advances has been executed by then. */
  lemma ExecutedBeforeTick(rows: seq<Schedules.Row>, store: Store, w: Work, first: Gap, second: Gap)
    returns (midRows: seq<Schedules.Row>, midStore: Store)
    requires Schedules.Orderly(rows) && Execute(rows, store, w, first, second).outcome in {Done, DuplicateDone}
    ensures Schedules.Orderly(midRows) && Schedules.Grows(rows, midRows) && Executed(midRows, midStore, w)
    ensures var after := Execute(rows, store, w, first, second);
            after == TickAfter(Edited(midRows, second), Stepped(midStore, second), w, after.outcome)
  {
    var (claimed, reply) := Handle(rows, store, Claim(ClaimOf(w)));
    ClaimTraces(rows, store, w);
    midRows, midStore := rows, claimed;
    if reply.Claimed? {
      GapGrows(rows, claimed, first);
      TraceLasts(rows, claimed, w, Edited(rows, first), Stepped(claimed, first));
      midRows := Edited(rows, first);
      midStore := EndRun(midRows, Stepped(claimed, first), w, reply.token).0;
      EndingExecutes(midRows, Stepped(claimed, first), w, reply.token);
    }
  }

  /** However a winning worker's calls are spaced, and whether it executed the run or found it executed, the fire is over. */
  lemma WinnerEnds(rows: seq<Schedules.Row>, store: Store, w: Work, first: Gap, second: Gap)
    requires Schedules.Orderly(rows) && Turn(rows, store, w, first, second).outcome in {Done, DuplicateDone}
    ensures var after := Turn(rows, store, w, first, second);
            Schedules.Orderly(after.rows) && Over(after.rows, after.store, w)
  {
    var midRows, midStore := ExecutedBeforeTick(rows, store, w, first, second);
    GapGrows(midRows, midStore, second);
    TraceLasts(midRows, midStore, w, Edited(midRows, second), Stepped(midStore, second));
    TickEnds(Edited(midRows, second), Stepped(midStore, second), w);
  }

  lemma OverLasts(rows: seq<Schedules.Row>, store: Store, w: Work, gap: Gap)
    requires Schedules.Orderly(rows) && Over(rows, store, w)
    ensures Schedules.Orderly(Edited(rows, gap)) && Over(Edited(rows, gap), Stepped(store, gap), w)
  {
    GapGrows(rows, store, gap);
    TraceLasts(rows, store, w, Edited(rows, gap), Stepped(store, gap));
    Schedules.ConsumedStays(rows, Edited(rows, gap), w.candidate.definition.scheduleRef, w.candidate.revision, SlotOf(w));
  }

  /**
   Once a fire is over, every single call for it changes nothing, whoever makes it and however late: a claim finds the run
   completed, no token completes or fails it, and no tick advances.
   */
  lemma CallsAfterChangeNothing(rows: seq<Schedules.Row>, store: Store, w: Work, loser: Work, token: Token)
    requires Schedules.Orderly(rows) && Over(rows, store, w) && SameFire(w, loser)
    requires loser.now < loser.until && (loser.next.Some? ==> SlotOf(loser) < loser.next.value)
    ensures var (claimed, reply) := Handle(rows, store, Claim(ClaimOf(loser))); claimed == store && reply.DuplicateCompleted?
    ensures EndRun(rows, store, loser, token) == (store, Updated(false))
    ensures Schedules.Handle(rows, TickOf(loser)) == (rows, Schedules.NotAdvanced)
  {
    var ref := w.candidate.definition.scheduleRef;
    Schedules.ConsumedNeverAdvances(rows, TickOf(loser), ref, w.candidate.revision, SlotOf(w));
  }

  /**
   A fire is executed and ticked once: after one worker is done with it, whether it executed the run or found it executed,
   any worker that still holds the same candidate changes nothing, and is told of a tick conflict unless its own planning
   fails. Any edits, ticks, claims and endings by others may lie between the two turns and between any two calls of either.
   */
  lemma LosingWorkerChangesNothing(
    rows: seq<Schedules.Row>, store: Store, winner: Work, first: Gap, second: Gap, between: Gap,
    loser: Work, loserFirst: Gap, loserSecond: Gap)
    requires Schedules.Orderly(rows) && Turn(rows, store, winner, first, second).outcome in {Done, DuplicateDone}
    requires SameFire(winner, loser) && loser.now < loser.until
    requires loser.next.Some? ==> SlotOf(loser) < loser.next.value
    ensures var won := Turn(rows, store, winner, first, second);
            var laterRows, laterStore := Edited(won.rows, between), Stepped(won.store, between);
            Turn(laterRows, laterStore, loser, loserFirst, loserSecond)
            == match loser.plan {
                 case Due(_) => Worked(Edited(laterRows, loserSecond), Stepped(laterStore, loserSecond), TickConflict)
                 case Stale => Worked(laterRows, laterStore, TickConflict)
                 case Fails => Worked(laterRows, laterStore, IsolatedError)
               }
  {
    var won := Turn(rows, store, winner, first, second);
    var laterRows, laterStore := Edited(won.rows, between), Stepped(won.store, between);
    WinnerEnds(rows, store, winner, first, second);
    OverLasts(won.rows, won.store, winner, between);
    CallsAfterChangeNothing(laterRows, laterStore, winner, loser, 0);
    OverLasts(laterRows, laterStore, winner, loserSecond);
    CallsAfterChangeNothing(Edited(laterRows, loserSecond), Stepped(laterStore, loserSecond), winner, loser, 0);
  }

  /** The turn has moved the cursor of its revision. */
  predicate Ticks(outcome: Outcome) { outcome in {Done, DuplicateDone, StaleSkipped} }

  predicate SameSlot(a: Work, b: Work) {
    && a.candidate.definition.scheduleRef == b.candidate.definition.scheduleRef
    && a.candidate.revision == b.candidate.revision && SlotOf(a) == SlotOf(b)
  }

  lemma TickAfterPasses(rows: seq<Schedules.Row>, store: Store, w: Work, outcome: Outcome)
    requires Schedules.Orderly(rows) && Ticks(TickAfter(rows, store, w, outcome).outcome)
    ensures var after := TickAfter(rows, store, w, outcome).rows; Schedules.Orderly(after) && Past(after, w) && !Past(rows, w)
  {
    var ref, revision := w.candidate.definition.scheduleRef, w.candidate.revision;
    Schedules.HandleKeeps(rows, TickOf(w));
    if Past(rows, w) { Schedules.ConsumedNeverAdvances(rows, TickOf(w), ref, revision, SlotOf(w)); }
    Schedules.AdvancedConsumes(rows, TickOf(w), ref, revision, SlotOf(w));
  }

  lemma PastStays(before: seq<Schedules.Row>, after: seq<Schedules.Row>, w: Work)
    requires Schedules.Grows(before, after) && Past(before, w)
    ensures Past(after, w)
  {
    Schedules.ConsumedStays(before, after, w.candidate.definition.scheduleRef, w.candidate.revision, SlotOf(w));
  }

  /** A turn that ticks finds the cursor before its slot and leaves it there, whatever others do in between. */
  lemma TickingTurnPasses(rows: seq<Schedules.Row>, store: Store, w: Work, first: Gap, second: Gap)
    requires Schedules.Orderly(rows) && Ticks(Turn(rows, store, w, first, second).outcome)
    ensures var after := Turn(rows, store, w, first, second).rows; Schedules.Orderly(after) && Past(after, w) && !Past(rows, w)
  {
    if w.plan.Stale? {
      TickAfterPasses(rows, store, w, StaleSkipped);
    } else {
      var midRows, midStore := ExecutedBeforeTick(rows, store, w, first, second);
      var ticked := Edited(midRows, second);
      GapGrows(midRows, midStore, second);
      Schedules.GrowsOn(rows, midRows, ticked);
      TickAfterPasses(ticked, Stepped(midStore, second), w, Turn(rows, store, w, first, second).outcome);
      if Past(rows, w) { PastStays(rows, ticked, w); }
    }
  }

  /** One slot of a revision is ticked by at most one turn, be it by a run, by finding it run, or by skipping it. */
  lemma SlotTickedByOneTurn(
    rows: seq<Schedules.Row>, store: Store, a: Work, first: Gap, second: Gap, between: Gap,
    b: Work, bFirst: Gap, bSecond: Gap)
    requires Schedules.Orderly(rows) && SameSlot(a, b) && Ticks(Turn(rows, store, a, first, second).outcome)
    ensures var ticked := Turn(rows, store, a, first, second);
            !Ticks(Turn(Edited(ticked.rows, between), Stepped(ticked.store, between), b, bFirst, bSecond).outcome)
  {
    var ticked := Turn(rows, store, a, first, second);
    var laterRows, laterStore := Edited(ticked.rows, between), Stepped(ticked.store, between);
    TickingTurnPasses(rows, store, a, first, second);
    GapGrows(ticked.rows, ticked.store, between);
    PastStays(ticked.rows, laterRows, a);
    if Ticks(Turn(laterRows, laterStore, b, bFirst, bSecond).outcome) {
      TickingTurnPasses(laterRows, laterStore, b, bFirst, bSecond);
    }
  }

  /** A stale candidate is skipped without a run: the cursor moves to its due time, and the row is next due as planned. */
  lemma StaleSkipMovesOn(rows: seq<Schedules.Row>, store: Store, i: nat, w: Work, first: Gap, second: Gap)
    requires Schedules.Orderly(rows) && i < |rows| && w.plan.Stale?
    requires rows[i].next == Some(w.candidate.due) && rows[i].revision == w.candidate.revision
    requires rows[i].definition == w.candidate.definition == w.candidate.hash
    requires w.next.Some? ==> w.candidate.due < w.next.value
    ensures Turn(rows, store, w, first, second)
         == Worked(rows[i := rows[i].(last := Some(w.candidate.due), next := w.next)], store, StaleSkipped)
  {
    Schedules.DueTickAdvances(rows, i, w.next);
  }

  /** An edit between a run and its tick: the tick, which carries the old revision, leaves the registry as it is. */
  lemma EditBeforeTick(
    rows: seq<Schedules.Row>, n: nat, edit: Schedules.Definition, next: Option<int>,
    edits: seq<Schedules.Request>, w: Work)
    requires Schedules.Orderly(rows) && n < |rows| && rows[n].live && edit.scheduleRef == rows[n].definition.scheduleRef
    requires edit != rows[n].definition
    requires w.candidate.definition == rows[n].definition && w.candidate.revision == rows[n].revision
    ensures var later := RunAll(Schedules.Handle, Schedules.Handle(rows, Schedules.Save(edit, next)).0, edits).0;
            Schedules.Handle(later, TickOf(w)).0 == later && !Schedules.Handle(later, TickOf(w)).1.Advanced?
  {
    var edited := Schedules.Handle(rows, Schedules.Save(edit, next)).0;
    Schedules.HandleKeeps(rows, Schedules.Save(edit, next));
    SavedRetires(rows, n, edit, next);
    Schedules.OldRevisionNeverTicks(edited, edits, n, TickOf(w));
  }

  lemma SavedRetires(rows: seq<Schedules.Row>, n: nat, edit: Schedules.Definition, next: Option<int>)
    requires Schedules.Orderly(rows) && n < |rows| && rows[n].live && edit.scheduleRef == rows[n].definition.scheduleRef
    requires edit != rows[n].definition
    ensures var edited := Schedules.Handle(rows, Schedules.Save(edit, next)).0;
            && n < |edited| && !edited[n].live
            && edited[n].definition == rows[n].definition && edited[n].revision == rows[n].revision
  {
    var m := FirstIndex(rows, Schedules.LiveOf(edit.scheduleRef));
    assert Schedules.LiveOf(edit.scheduleRef)(rows[n]);
    assert m <= n;
  }

  /******* The room as its repositories update it *******/

  class Room {
    var schedules: seq<Schedules.Row>
    var runs: map<string, Run>
    var issued: nat

    function Current(): Store
      reads this
    {
      Store(runs, issued)
    }

    constructor Empty()
      ensures schedules == [] && Current() == EMPTY && Schedules.Orderly(schedules)
    {
      schedules, runs, issued := [], map[], 0;
    }

    method FindRow(picks: Schedules.Row -> bool) returns (n: nat)
      ensures n == FirstIndex(schedules, picks)
    {
      n := 0;
      while n < |schedules| && !picks(schedules[n])
        invariant n <= |schedules|
        invariant FirstIndex(schedules, picks) == n + FirstIndex(schedules[n..], picks)
      {
        n := n + 1;
      }
    }

    method Save(definition: Schedules.Definition, next: Option<int>)
      requires Schedules.Orderly(schedules)
      modifies this`schedules
      ensures schedules == Schedules.Handle(old(schedules), Schedules.Save(definition, next)).0
      ensures Schedules.Orderly(schedules) && Schedules.Grows(old(schedules), schedules)
    {
      Schedules.HandleKeeps(schedules, Schedules.Save(definition, next));
      var latest := FindRow(Schedules.LiveOf(definition.scheduleRef));
      if latest < |schedules| && schedules[latest].definition == definition { return; }
      var revision := 1;
      if latest < |schedules| { revision := schedules[latest].revision + 1; }
      schedules := Schedules.Supersede(schedules, definition.scheduleRef)
        + [Schedules.Row(definition, revision, true, None, next)];
    }

    method RecordTick(w: Work) returns (reply: Schedules.Reply)
      requires Schedules.Orderly(schedules)
      modifies this`schedules
      ensures (schedules, reply) == Schedules.Handle(old(schedules), TickOf(w))
      ensures Schedules.Orderly(schedules) && Schedules.Grows(old(schedules), schedules)
    {
      Schedules.HandleKeeps(schedules, TickOf(w));
      var slot := SlotOf(w);
      if w.candidate.revision < 1 || (w.next.Some? && w.next.value <= slot) { return Schedules.InvalidInput; }
      var n := FindRow(Schedules.Ticked(w.candidate.definition.scheduleRef, w.candidate.revision, w.candidate.hash));
      if n < |schedules| && (schedules[n].last.None? || schedules[n].last.value < slot) {
        schedules := schedules[n := schedules[n].(last := Some(slot), next := w.next)];
        return Schedules.Advanced;
      }
      return Schedules.NotAdvanced;
    }

    method ClaimRun(input: ClaimInput) returns (reply: Reply)
      modifies this`runs, this`issued
      ensures (Current(), reply) == Handle(schedules, old(Current()), Claim(input))
      ensures Kept(old(Current()), Current())
    {
      HandleKeeps(schedules, Current(), Claim(input));
      var refusal := Refusal(schedules, Current(), input);
      if refusal.Some? { return refusal.value; }
      var run := Granted(schedules, Current(), input);
      var token := issued;
      runs, issued := runs[input.key := run], issued + 1;
      return Claimed(run.runRef, token, run.attempt);
    }

    method CompleteRun(key: string, token: Token, completion: Completion) returns (reply: Reply)
      modifies this`runs
      ensures (Current(), reply) == Handle(schedules, old(Current()), Complete(key, token, completion))
    {
      if key !in runs || !runs[key].state.Running? || runs[key].state.token != token { return Updated(false); }
      runs := runs[key := runs[key].(state := Completed(completion))];
      return Updated(true);
    }

    method FailRun(key: string, token: Token) returns (reply: Reply)
      modifies this`runs
      ensures (Current(), reply) == Handle(schedules, old(Current()), Fail(key, token))
    {
      if key !in runs || !runs[key].state.Running? || runs[key].state.token != token { return Updated(false); }
      runs := runs[key := runs[key].(state := Failed)];
      return Updated(true);
    }

    /** What others do in a gap. */
    method LetOthers(gap: Gap)
      requires Schedules.Orderly(schedules)
      modifies this
      ensures schedules == Edited(old(schedules), gap) && Current() == Stepped(old(Current()), gap)
      ensures Schedules.Orderly(schedules)
    {
      GapGrows(schedules, Current(), gap);
      var store := Stepped(Current(), gap);
      schedules, runs, issued := Edited(schedules, gap), store.runs, store.issued;
    }

    /** A worker's turn on one candidate, with what others do in between. */
    method TakeTurn(w: Work, first: Gap, second: Gap) returns (outcome: Outcome)
      requires Schedules.Orderly(schedules)
      modifies this
      ensures Worked(schedules, Current(), outcome) == Turn(old(schedules), old(Current()), w, first, second)
      ensures Schedules.Orderly(schedules)
    {
      if w.candidate.hash != w.candidate.definition { return DefinitionMismatch; }
      if w.plan.Fails? { return IsolatedError; }
      if w.plan.Stale? {
        outcome := TickLast(w, StaleSkipped);
        return;
      }
      var done;
      var reply := ClaimRun(ClaimOf(w));
      if reply.Claimed? {
        LetOthers(first);
        if w.analysis.None? {
          done := FailRun(w.key, reply.token);
          return if done == Updated(true) then RunFailed else IsolatedError;
        }
        done := CompleteRun(w.key, reply.token, w.analysis.value);
        if done != Updated(true) { return IsolatedError; }
      } else if !reply.DuplicateCompleted? {
        return if reply.InProgress? then StillInProgress else if reply.Suppressed? then OverlapSuppressed else IsolatedError;
      }
      LetOthers(second);
      outcome := TickLast(w, if reply.Claimed? then Done else DuplicateDone);
    }

    /** The last call of a turn. */
    method TickLast(w: Work, ticked: Outcome) returns (outcome: Outcome)
      requires Schedules.Orderly(schedules)
      modifies this`schedules
      ensures Worked(schedules, Current(), outcome) == TickAfter(old(schedules), old(Current()), w, ticked)
      ensures Schedules.Orderly(schedules)
    {
      var tick := RecordTick(w);
      return if tick.Advanced? then ticked else if tick.NotAdvanced? then TickConflict else IsolatedError;
    }
  }
}
