/** Every answer of the run store, told from the registry's rows and the stored runs as they are. */
module DecisionRunRules {
  import opened Options
  import opened Sequences
  import opened DecisionRuns
  import Schedules = DecisionSchedules

  /******* Which revision a scheduled claim needs *******/

  /** The row is a revision of the claimed definition, with the claim's account, campaign, timeframe and template. */
  predicate Describes(row: Schedules.Row, input: ClaimInput) {
    && input.origin == Scheduled(row.definition)
    && row.definition.account == input.target.account && row.definition.campaign == input.target.campaign
    && row.definition.timeframe == input.target.timeframe && row.definition.template == input.target.template
  }

  predicate Startable(row: Schedules.Row, input: ClaimInput) {
    Describes(row, input) && row.live && row.definition.enabled
  }

  predicate CanStart(rows: seq<Schedules.Row>, input: ClaimInput) {
    exists i :: 0 <= i < |rows| && Startable(rows[i], input)
  }

  /** A run that is bound to a revision needs that one; any other scheduled claim needs one that is live and enabled. */
  predicate HasRevision(rows: seq<Schedules.Row>, store: Store, input: ClaimInput) {
    if input.key in store.runs && store.runs[input.key].schedule.Some?
    then store.runs[input.key].schedule.value < |rows| && Describes(rows[store.runs[input.key].schedule.value], input)
    else CanStart(rows, input)
  }

  lemma BindingExactly(rows: seq<Schedules.Row>, store: Store, input: ClaimInput)
    requires input.origin.Scheduled?
    ensures Binding(rows, store, input).Some? <==> HasRevision(rows, store, input)
    ensures Binding(rows, store, input).Some? ==>
              var id := Binding(rows, store, input).value;
              && id < |rows| && Describes(rows[id], input)
              && if input.key in store.runs && store.runs[input.key].schedule.Some?
                 then store.runs[input.key].schedule == Some(id) else rows[id].live && rows[id].definition.enabled
  {
    var picks := Current(input.origin.definition, input.target);
    forall i | 0 <= i < |rows| ensures picks(rows[i]) <==> Startable(rows[i], input) {}
  }

  /**
   A first scheduled claim starts a run only of a live and enabled revision of its definition, with its own account,
   campaign, timeframe and template. Without one the answer is a schedule conflict, and nothing changes.
   */
  lemma FirstClaimNeedsLiveRevision(rows: seq<Schedules.Row>, store: Store, input: ClaimInput)
    requires input.origin.Scheduled? && input.key !in store.runs && input.now < input.until
    ensures !CanStart(rows, input) ==> Handle(rows, store, Claim(input)) == (store, ScheduleConflict)
    ensures CanStart(rows, input) ==>
              Handle(rows, store, Claim(input)).1.Claimed? || Handle(rows, store, Claim(input)).1.Suppressed?
    ensures Handle(rows, store, Claim(input)).1.Claimed? ==>
              var run := Handle(rows, store, Claim(input)).0.runs[input.key];
              run.schedule.Some? && run.schedule.value < |rows| && Startable(rows[run.schedule.value], input)
  {
    BindingExactly(rows, store, input);
  }

  /** A retry is bound to the revision stored with its run, which need be neither live nor enabled and stays the same. */
  lemma RetryKeepsItsRevision(rows: seq<Schedules.Row>, store: Store, input: ClaimInput)
    requires input.key in store.runs && store.runs[input.key].schedule.Some?
    requires input.origin.Scheduled? && input.now < input.until
    ensures var id, (after, reply) := store.runs[input.key].schedule.value, Handle(rows, store, Claim(input));
            && (reply.ScheduleConflict? <==> id >= |rows| || !Describes(rows[id], input))
            && input.key in after.runs && after.runs[input.key].schedule == Some(id)
  {
    BindingExactly(rows, store, input);
  }

  /******* Every answer *******/

  /** The claim is for what the stored run is about. */
  predicate Matches(run: Run, input: ClaimInput) {
    run.origin == input.origin && run.target == input.target && run.schedule.Some? == input.origin.Scheduled?
  }

  /** Another key has a run on the claimed scope whose lease ends after now. */
  predicate Blocked(store: Store, input: ClaimInput) {
    exists k :: k in store.runs && k != input.key && store.runs[k].scope == input.scope
      && store.runs[k].state.Running? && input.now < store.runs[k].state.until
  }

  /** The answer, refusal by refusal; a claim that nothing stands against is granted. */
  function Answer(rows: seq<Schedules.Row>, store: Store, input: ClaimInput): Reply {
    if input.until <= input.now then InvalidInput
    else if input.origin.Scheduled? && !HasRevision(rows, store, input) then ScheduleConflict
    else if input.key !in store.runs then
      if Blocked(store, input) then Suppressed else Claimed("run_" + input.key, store.issued, 1)
    else
      var run := store.runs[input.key];
      if !Matches(run, input) then CorruptStore
      else if run.state.Completed? then DuplicateCompleted(run.runRef, run.attempt, run.state.completion)
      else if run.state.Running? && input.now < run.state.until then InProgress(run.runRef, run.attempt)
      else if Blocked(store, input) then Suppressed
      else Claimed(run.runRef, store.issued, run.attempt + 1)
  }

  lemma ClaimAnswers(rows: seq<Schedules.Row>, store: Store, input: ClaimInput)
    ensures Handle(rows, store, Claim(input)).1 == Answer(rows, store, input)
  {
    if input.origin.Scheduled? { BindingExactly(rows, store, input); }
    assert Blocked(store, input) <==> Overlaps(store, input.key, input.scope, input.now);
  }

  /**
   A claim that is not granted changes nothing. One that is granted uses up a token and puts the key's run under a lease of
   that token to the claimed time: a stored run otherwise as it was, one attempt further; a new one as claimed.
   */
  lemma ClaimChanges(rows: seq<Schedules.Row>, store: Store, input: ClaimInput)
    ensures !Handle(rows, store, Claim(input)).1.Claimed? ==> Handle(rows, store, Claim(input)).0 == store
    ensures Handle(rows, store, Claim(input)).1.Claimed? ==>
              var (after, reply) := Handle(rows, store, Claim(input));
              && reply.token == store.issued && after.issued == store.issued + 1 && input.key in after.runs
              && after.runs == store.runs[input.key := after.runs[input.key]]
              && IsLeased(store, input, after.runs[input.key], reply)
  {
  }

  predicate IsLeased(store: Store, input: ClaimInput, run: Run, reply: Reply)
    requires reply.Claimed?
  {
    && run.state == Running(reply.token, input.until) && run.attempt == reply.attempt && run.runRef == reply.runRef
    && (input.key in store.runs ==> run == store.runs[input.key].(attempt := run.attempt, state := run.state))
    && (input.key !in store.runs ==>
          && run.origin == input.origin && run.target == input.target && run.scope == input.scope
          && (input.origin.Manual? ==> run.schedule.None?))
  }

  /** The key's run is under a lease with this token, expired or not. */
  ghost predicate HeldBy(store: Store, key: string, token: Token) {
    key in store.runs && exists until :: store.runs[key].state == Running(token, until)
  }

  /** A run is ended exactly by the token it is held by, and only its state changes, to what the call says. */
  lemma EndingExactly(rows: seq<Schedules.Row>, store: Store, key: string, token: Token, completion: Completion)
    ensures Handle(rows, store, Complete(key, token, completion))
         == if HeldBy(store, key, token)
            then (store.(runs := store.runs[key := store.runs[key].(state := Completed(completion))]), Updated(true))
            else (store, Updated(false))
    ensures Handle(rows, store, Fail(key, token))
         == if HeldBy(store, key, token)
            then (store.(runs := store.runs[key := store.runs[key].(state := Failed)]), Updated(true))
            else (store, Updated(false))
  {
    if Holds(store, key, token) { assert store.runs[key].state == Running(token, store.runs[key].state.until); }
  }
}
