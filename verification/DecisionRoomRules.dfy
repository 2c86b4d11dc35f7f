/** What a worker's turn comes to when nothing stands in its way: the due fire of a schedule is run as the schedule says. */
module DecisionRoomRules {
  import opened Options
  import opened Sequences
  import opened Histories
  import opened DecisionRuns
  import opened DecisionRunRules
  import opened DecisionRunTheorems
  import opened DecisionRoom
  import Schedules = DecisionSchedules
  import ScheduleRules = DecisionScheduleRules

  const NOTHING := Gap([], [])

  /** The worker has a current, enabled revision as the registry holds it, and a slot after the last one ticked. */
  predicate IsDue(rows: seq<Schedules.Row>, i: nat, w: Work) {
    && i < |rows| && rows[i].live && rows[i].definition.enabled
    && w.candidate.definition == rows[i].definition == w.candidate.hash && w.candidate.revision == rows[i].revision
    && w.plan.Due? && (rows[i].last.Some? ==> rows[i].last.value < w.plan.slot)
    && (w.next.Some? ==> w.plan.slot < w.next.value) && w.now < w.until
  }

  /** No run of the key, and no live lease on the schedule's account and campaign. */
  predicate IsFree(store: Store, w: Work) {
    && w.key !in store.runs
    && forall k :: k in store.runs && store.runs[k].state.Running? && w.now < store.runs[k].state.until ==>
         store.runs[k].scope != Scope(w.candidate.definition.account, w.candidate.definition.campaign)
  }

  lemma QuietGap(rows: seq<Schedules.Row>, store: Store)
    ensures Edited(rows, NOTHING) == rows && Stepped(store, NOTHING) == store
  {
  }

  lemma DueClaim(rows: seq<Schedules.Row>, store: Store, i: nat, w: Work)
    requires Schedules.Orderly(rows) && IsDue(rows, i, w) && IsFree(store, w)
    ensures var (after, reply) := Handle(rows, store, Claim(ClaimOf(w)));
            && reply == Claimed("run_" + w.key, store.issued, 1)
            && after.runs.Keys == store.runs.Keys + {w.key}
            && after.runs == store.runs[w.key := after.runs[w.key]]
            && IsRunOf(rows, i, w, after.runs[w.key]) && after.runs[w.key].state == Running(store.issued, w.until)
  {
    var input := ClaimOf(w);
    assert Startable(rows[i], input);
    ClaimAnswers(rows, store, input);
    ClaimChanges(rows, store, input);
    FirstClaimNeedsLiveRevision(rows, store, input);
    var j := Handle(rows, store, Claim(input)).0.runs[w.key].schedule.value;
    ScheduleRules.CurrentIsUnique(rows, i, j, rows[i].definition.scheduleRef);
  }

  /** The run is the first of this revision's fire, with the schedule's own account, campaign, timeframe and template. */
  predicate IsRunOf(rows: seq<Schedules.Row>, i: nat, w: Work, run: Run)
    requires i < |rows|
  {
    var d := rows[i].definition;
    && run.origin == Scheduled(d) && run.schedule == Some(i) && run.attempt == 1
    && run.target == Target(d.account, d.campaign, d.timeframe, d.template)
    && run.scope == Scope(d.account, d.campaign)
  }

  /**
   A due fire that nothing stands against is run: the run is completed with the worker's analysis and the schedule's cursor
   is at the slot. If the analysis fails, the run is failed and the cursor stays. Nothing else changes.
   */
  lemma DueFireRuns(rows: seq<Schedules.Row>, store: Store, i: nat, w: Work)
    requires Schedules.Orderly(rows) && IsDue(rows, i, w) && IsFree(store, w)
    ensures var after := Turn(rows, store, w, NOTHING, NOTHING);
            && w.key in after.store.runs && IsRunOf(rows, i, w, after.store.runs[w.key])
            && after.store.runs == store.runs[w.key := after.store.runs[w.key]]
            && if w.analysis.Some? then
                 && after.outcome == Done && after.store.runs[w.key].state == Completed(w.analysis.value)
                 && after.rows == rows[i := rows[i].(last := Some(w.plan.slot), next := w.next)]
               else after.outcome == RunFailed && after.store.runs[w.key].state == Failed && after.rows == rows
  {
    var (claimed, reply) := Handle(rows, store, Claim(ClaimOf(w)));
    DueClaim(rows, store, i, w);
    QuietGap(rows, claimed);
    assert HeldBy(claimed, w.key, store.issued);
    EndingExactly(rows, claimed, w.key, store.issued, if w.analysis.Some? then w.analysis.value else Completion("", ""));
    var ended := EndRun(rows, claimed, w, store.issued).0;
    QuietGap(rows, ended);
    if w.analysis.Some? {
      assert ScheduleRules.Tickable(rows[i], TickOf(w));
      assert rows[i].revision >= 1 by { assert Schedules.RowOk(rows[i]); }
      ScheduleRules.TickExactly(rows, TickOf(w));
    }
  }

  /** What the answer to a turn's tick makes of a turn that would have ended like this. */
  function Ticked(reply: Schedules.Reply, outcome: Outcome): Outcome {
    match reply
    case Advanced => outcome
    case NotAdvanced => TickConflict
    case _ => IsolatedError
  }

  /**
   Every turn, answer by answer. A definition that is not what its hash says, and a plan that fails, end it at once; a stale
   slot is only ticked. Otherwise the run is claimed: one in progress, one suppressed and any error end the turn there; one
   that was completed before is only ticked; one that is granted is ended, and ticked if it could be completed.
   */
  lemma TurnAnswers(rows: seq<Schedules.Row>, store: Store, w: Work, first: Gap, second: Gap)
    ensures var turn := Turn(rows, store, w, first, second);
            var (claimed, claim) := Handle(rows, store, Claim(ClaimOf(w)));
            if w.candidate.hash != w.candidate.definition then turn == Worked(rows, store, DefinitionMismatch)
            else if w.plan == Fails then turn == Worked(rows, store, IsolatedError)
            else if w.plan == Stale then
              var (after, tick) := Schedules.Handle(rows, TickOf(w)); turn == Worked(after, store, Ticked(tick, StaleSkipped))
            else if claim.InProgress? then turn == Worked(rows, store, StillInProgress)
            else if claim.Suppressed? then turn == Worked(rows, store, OverlapSuppressed)
            else if claim.DuplicateCompleted? then
              var (after, tick) := Schedules.Handle(Edited(rows, second), TickOf(w));
              turn == Worked(after, Stepped(store, second), Ticked(tick, DuplicateDone))
            else if !claim.Claimed? then turn == Worked(rows, store, IsolatedError)
            else
              var mid, held := Edited(rows, first), Stepped(claimed, first);
              if !HeldBy(held, w.key, claim.token) then turn == Worked(mid, held, IsolatedError)
              else
                var end: RunState := if w.analysis.Some? then Completed(w.analysis.value) else Failed;
                var ended := held.(runs := held.runs[w.key := held.runs[w.key].(state := end)]);
                if w.analysis.None? then turn == Worked(mid, ended, RunFailed)
                else
                  var (after, tick) := Schedules.Handle(Edited(mid, second), TickOf(w));
                  turn == Worked(after, Stepped(ended, second), Ticked(tick, Done))
  {
    var (claimed, claim) := Handle(rows, store, Claim(ClaimOf(w)));
    ClaimChanges(rows, store, ClaimOf(w));
    if claim.Claimed? {
      EndingExactly(Edited(rows, first), Stepped(claimed, first), w.key, claim.token,
                    if w.analysis.Some? then w.analysis.value else Completion("", ""));
    }
  }

  /** The claim and the tick of a turn name the candidate's own schedule and revision, and what it is about. */
  lemma CallsAreForTheCandidate(w: Work)
    ensures var d := w.candidate.definition;
            && ClaimOf(w) == ClaimInput(w.key, Scope(d.account, d.campaign), Scheduled(d),
                                        Target(d.account, d.campaign, d.timeframe, d.template), w.now, w.until)
            && TickOf(w) == Schedules.Tick(d.scheduleRef, w.candidate.revision, w.candidate.hash,
                                           if w.plan.Due? then w.plan.slot else w.candidate.due, w.next)
  {
  }
}
