/** The run store of the decision room: claims under a lease, completion and failure, one key at a time. */
module DecisionRuns {
  import opened Options
  import opened Sequences
  import Schedules = DecisionSchedules

  datatype Target = Target(account: string, campaign: string, timeframe: string, template: string)

  /** What a campaign scope key is a digest of. */
  datatype Scope = Scope(account: string, campaign: string)

  datatype Origin = Manual(requestRef: string) | Scheduled(definition: Schedules.Definition)

  datatype Completion = Completion(analysisRef: string, summaryCode: string)

  /** A lease token is a fresh UUID: tokens are numbered in the order they are issued. */
  type Token = nat

  datatype RunState =
    | Running(token: Token, until: int)
    | Completed(completion: Completion)
    | Failed

  datatype Run = Run(
    origin: Origin, schedule: Option<nat>, target: Target, scope: Scope, runRef: string, attempt: nat, state: RunState)

  /** Runs by idempotency key, and the number of tokens issued so far. */
  datatype Store = Store(runs: map<string, Run>, issued: nat)

  datatype ClaimInput = ClaimInput(key: string, scope: Scope, origin: Origin, target: Target, now: int, until: int)

  datatype Request =
    | Claim(input: ClaimInput)
    | Complete(key: string, token: Token, completion: Completion)
    | Fail(key: string, token: Token)

  datatype Reply =
    | Claimed(runRef: string, token: Token, attempt: nat)
    | DuplicateCompleted(runRef: string, attempt: nat, completion: Completion)
    | InProgress(runRef: string, attempt: nat)
    | Suppressed
    | InvalidInput
    | ScheduleConflict
    | CorruptStore
    | Updated(done: bool)

  /** The run reference is derived from the key. */
  function RunRef(key: string): string { "run_" + key }

  /******* The schedule that a claim is bound to *******/

  predicate Fits(row: Schedules.Row, definition: Schedules.Definition, target: Target) {
    && row.definition == definition
    && definition.account == target.account && definition.campaign == target.campaign
    && definition.timeframe == target.timeframe && definition.template == target.template
  }

  function Current(definition: Schedules.Definition, target: Target): Schedules.Row -> bool {
    (row: Schedules.Row) => Fits(row, definition, target) && row.live && definition.enabled
  }

  /** A first claim needs the current, enabled revision; a retry keeps the revision its run is bound to. */
  function FindSchedule(
    rows: seq<Schedules.Row>, definition: Schedules.Definition, target: Target, bound: Option<nat>): Option<nat>
  {
    match bound
    case Some(id) => if id < |rows| && Fits(rows[id], definition, target) then bound else None
    case None =>
      var n := FirstIndex(rows, Current(definition, target));
      if n < |rows| then Some(n) else None
  }

  function Binding(rows: seq<Schedules.Row>, store: Store, input: ClaimInput): Option<nat> {
    if input.origin.Manual? then None
    else
      FindSchedule(rows, input.origin.definition, input.target,
                   if input.key in store.runs then store.runs[input.key].schedule else None)
  }

  /******* Claims *******/

  predicate LiveAt(run: Run, t: int) { run.state.Running? && run.state.until > t }

  /** Another key holds a live lease on the scope. */
  predicate Overlaps(store: Store, key: string, scope: Scope, now: int) {
    exists k :: k in store.runs && k != key && store.runs[k].scope == scope && LiveAt(store.runs[k], now)
  }

  /** The answer to a claim on a stored run that its request does not match or that is not free. */
  function Busy(run: Run, input: ClaimInput, schedule: Option<nat>): Option<Reply> {
    if run.origin != input.origin || run.target != input.target || run.schedule != schedule then Some(CorruptStore)
    else if run.state.Completed? then Some(DuplicateCompleted(run.runRef, run.attempt, run.state.completion))
    else if LiveAt(run, input.now) then Some(InProgress(run.runRef, run.attempt))
    else None
  }

  /** The answer to a claim that is not granted. */
  function Refusal(rows: seq<Schedules.Row>, store: Store, input: ClaimInput): Option<Reply> {
    var schedule := Binding(rows, store, input);
    if input.until <= input.now then Some(InvalidInput)
    else if input.origin.Scheduled? && schedule.None? then Some(ScheduleConflict)
    else if input.key in store.runs && Busy(store.runs[input.key], input, schedule).Some?
    then Busy(store.runs[input.key], input, schedule)
    else if Overlaps(store, input.key, input.scope, input.now) then Some(Suppressed)
    else None
  }

  /** The run under a new lease. A stored run keeps everything but its attempt and state; its scope is not rewritten. */
  function Granted(rows: seq<Schedules.Row>, store: Store, input: ClaimInput): Run {
    var state := Running(store.issued, input.until);
    if input.key in store.runs
    then store.runs[input.key].(attempt := store.runs[input.key].attempt + 1, state := state)
    else Run(input.origin, Binding(rows, store, input), input.target, input.scope, RunRef(input.key), 1, state)
  }

  predicate Holds(store: Store, key: string, token: Token) {
    key in store.runs && store.runs[key].state.Running? && store.runs[key].state.token == token
  }

  function Finish(store: Store, key: string, token: Token, state: RunState): (Store, Reply) {
    if Holds(store, key, token)
    then (store.(runs := store.runs[key := store.runs[key].(state := state)]), Updated(true))
    else (store, Updated(false))
  }

  function Handle(rows: seq<Schedules.Row>, store: Store, request: Request): (Store, Reply) {
    match request
    case Claim(input) =>
      var refusal := Refusal(rows, store, input);
      if refusal.Some? then (store, refusal.value)
      else
        var run := Granted(rows, store, input);
        (Store(store.runs[input.key := run], store.issued + 1), Claimed(run.runRef, store.issued, run.attempt))
    case Complete(key, token, completion) => Finish(store, key, token, Completed(completion))
    case Fail(key, token) => Finish(store, key, token, Failed)
  }

  /******* Any interleaving of workers, over any state of the schedules *******/

  datatype Step = Step(rows: seq<Schedules.Row>, request: Request)

  function HandleStep(store: Store, step: Step): (Store, Reply) { Handle(step.rows, store, step.request) }

  const EMPTY: Store := Store(map[], 0)
}
