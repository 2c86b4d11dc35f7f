/**
 The read-sync schedule of one connection: automatic fires every six hours and manual fires share one lease; completing an
 automatic fire moves the schedule on.
 */
module ReadSyncSchedule {
  import opened Histories

  const MAX_ATTEMPTS := 5
  const SIX_HOURS := 21_600_000

  type Token = nat

  /** The identity of a fire: the idempotency key is a digest of it. */
  datatype Fire = Fire(automatic: bool, at: int, revision: nat)

  datatype RunState = Running(token: Token, until: int) | Completed | Failed(retryable: bool)

  datatype Run = Run(attempt: nat, state: RunState)

  /** The schedule's revision and due time, the runs by fire, and the number of lease tokens issued. */
  datatype World = World(revision: nat, nextDue: int, runs: map<Fire, Run>, issued: nat)

  datatype Request =
    | Claim(fire: Fire, now: int, until: int)
    | Complete(fire: Fire, token: Token)
    | Fail(fire: Fire, token: Token, retryable: bool)

  datatype Reply =
    | Claimed(token: Token, attempt: nat)
    | DuplicateCompleted(attempt: nat)
    | InProgress
    | InvalidInput
    | ScopeRevisionChanged
    | Done(ok: bool)

  predicate LiveAt(run: Run, t: int) { run.state.Running? && run.state.until > t }

  predicate OtherLive(w: World, fire: Fire, now: int) {
    exists f :: f in w.runs && f != fire && LiveAt(w.runs[f], now)
  }

  /** A stored run that this claim cannot take over: held, out of attempts, or failed for good. */
  predicate Taken(run: Run, now: int) {
    LiveAt(run, now) || run.attempt >= MAX_ATTEMPTS || run.state == Failed(false)
  }

  function HandleClaim(w: World, fire: Fire, now: int, until: int): (World, Reply) {
    if until <= now || fire.revision < 1 then (w, InvalidInput)
    else if fire in w.runs && w.runs[fire].state.Completed? then (w, DuplicateCompleted(w.runs[fire].attempt))
    else if w.revision != fire.revision || (if fire.automatic then w.nextDue else fire.at) > now then (w, ScopeRevisionChanged)
    else if fire in w.runs && Taken(w.runs[fire], now) then (w, InProgress)
    else if OtherLive(w, fire, now) then (w, InProgress)
    else
      var attempt := (if fire in w.runs then w.runs[fire].attempt else 0) + 1;
      (w.(runs := w.runs[fire := Run(attempt, Running(w.issued, until))], issued := w.issued + 1), Claimed(w.issued, attempt))
  }

  predicate Holds(w: World, fire: Fire, token: Token) {
    fire in w.runs && w.runs[fire].state.Running? && w.runs[fire].state.token == token
  }

  /** The schedule is still where the fire was made for. */
  predicate Current(w: World, fire: Fire) {
    w.revision == fire.revision && (w.nextDue == fire.at || !fire.automatic)
  }

  function Advanced(w: World): World { w.(revision := w.revision + 1, nextDue := w.nextDue + SIX_HOURS) }

  function SetState(w: World, fire: Fire, state: RunState): World
    requires fire in w.runs
  {
    w.(runs := w.runs[fire := w.runs[fire].(state := state)])
  }

  function HandleComplete(w: World, fire: Fire, token: Token): (World, Reply) {
    if !Holds(w, fire, token) || !Current(w, fire) then (w, Done(false))
    else (SetState(if fire.automatic then Advanced(w) else w, fire, Completed), Done(true))
  }

  predicate Terminal(run: Run, retryable: bool) { !retryable || run.attempt >= MAX_ATTEMPTS }

  function HandleFail(w: World, fire: Fire, token: Token, retryable: bool): (World, Reply) {
    if !Holds(w, fire, token) then (w, Done(false))
    else
      var moves := Terminal(w.runs[fire], retryable) && Current(w, fire) && fire.automatic;
      (SetState(if moves then Advanced(w) else w, fire, Failed(retryable)), Done(true))
  }

  function Handle(w: World, r: Request): (World, Reply) {
    match r
    case Claim(fire, now, until) => HandleClaim(w, fire, now, until)
    case Complete(fire, token) => HandleComplete(w, fire, token)
    case Fail(fire, token, retryable) => HandleFail(w, fire, token, retryable)
  }

  /******* Every run *******/

  predicate Sound(w: World) {
    forall f :: f in w.runs ==>
      w.runs[f].attempt <= MAX_ATTEMPTS && (w.runs[f].state.Running? ==> w.runs[f].state.token < w.issued)
  }

  predicate RunKept(before: Run, after: Run) {
    before.attempt <= after.attempt && (before.state.Completed? ==> after == before)
  }

  /** Runs stay, completed ones unchanged; the schedule moves by six hours with each revision. */
  predicate Kept(before: World, after: World) {
    && before.issued <= after.issued && before.revision <= after.revision
    && after.nextDue == before.nextDue + SIX_HOURS * (after.revision - before.revision)
    && forall f :: f in before.runs ==> f in after.runs && RunKept(before.runs[f], after.runs[f])
  }

  lemma HandleKeeps(w: World, r: Request)
    requires Sound(w)
    ensures var after := Handle(w, r).0; Sound(after) && Kept(w, after)
  {
  }

  lemma {:induction false} HandleAllKeeps(w: World, requests: seq<Request>)
    requires Sound(w)
    ensures var after := RunAll(Handle, w, requests).0; Sound(after) && Kept(w, after)
    decreases |requests|
  {
    if requests != [] {
      var after := Handle(w, requests[0]).0;
      HandleKeeps(w, requests[0]);
      HandleAllKeeps(after, requests[1..]);
      KeptOn(w, after, RunAll(Handle, after, requests[1..]).0);
    }
  }

  lemma KeptOn(a: World, b: World, c: World)
    requires Kept(a, b) && Kept(b, c)
    ensures Kept(a, c)
  {
    forall f | f in a.runs ensures f in c.runs && RunKept(a.runs[f], c.runs[f]) {
      assert RunKept(a.runs[f], b.runs[f]) && RunKept(b.runs[f], c.runs[f]);
    }
  }

  /** At any later time, a claim of a completed fire is told of its completion, with the attempt that completed it. */
  lemma CompletedFireReplays(w: World, requests: seq<Request>, fire: Fire, now: int, until: int)
    requires Sound(w) && fire in w.runs && w.runs[fire].state.Completed? && now < until && fire.revision >= 1
    ensures var later := RunAll(Handle, w, requests).0;
            Handle(later, Claim(fire, now, until)) == (later, DuplicateCompleted(w.runs[fire].attempt))
  {
    HandleAllKeeps(w, requests);
    assert RunKept(w.runs[fire], RunAll(Handle, w, requests).0.runs[fire]);
  }

  /******* One lease *******/

  predicate ExclusiveAt(w: World, t: int) {
    forall f, g :: f in w.runs && g in w.runs && f != g ==> !LiveAt(w.runs[f], t) || !LiveAt(w.runs[g], t)
  }

  function Max(a: int, b: int): int { if a < b then b else a }

  function Clock(requests: seq<Request>, start: int): int {
    if requests == [] then start
    else Clock(requests[1..], if requests[0].Claim? then Max(start, requests[0].now) else start)
  }

  lemma StepKeepsExclusive(w: World, r: Request, t: int)
    requires ExclusiveAt(w, t)
    ensures ExclusiveAt(Handle(w, r).0, if r.Claim? then Max(t, r.now) else t)
  {
    var after := Handle(w, r).0;
    if r.Claim? && after != w {
      assert !OtherLive(w, r.fire, r.now);
    }
  }

  /**
   Automatic and manual fires exclude each other: at the latest time that any claim has used, at most one lease is live,
   however claims, completions and failures interleave.
   */
  lemma {:induction false} OneLiveLease(w: World, requests: seq<Request>, t: int)
    requires ExclusiveAt(w, t)
    ensures ExclusiveAt(RunAll(Handle, w, requests).0, Clock(requests, t))
    decreases |requests|
  {
    if requests != [] {
      var r := requests[0];
      StepKeepsExclusive(w, r, t);
      OneLiveLease(Handle(w, r).0, requests[1..], if r.Claim? then Max(t, r.now) else t);
    }
  }

  /** A token that does not hold a fire now, though issued, never completes or fails it again. */
  lemma {:induction false} StaleTokenIsPowerless(w: World, requests: seq<Request>, fire: Fire, token: Token)
    requires token < w.issued && !Holds(w, fire, token)
    ensures !Holds(RunAll(Handle, w, requests).0, fire, token)
    decreases |requests|
  {
    if requests != [] { StaleTokenIsPowerless(Handle(w, requests[0]).0, requests[1..], fire, token); }
  }

  /******* The schedule moves exactly once per automatic fire *******/

  /** The requests that end an automatic fire: its completion, or a failure for good. */
  predicate Ends(w: World, r: Request) {
    && !r.Claim? && r.fire.automatic && Holds(w, r.fire, r.token) && Current(w, r.fire)
    && (r.Fail? ==> Terminal(w.runs[r.fire], r.retryable))
  }

  /** The schedule moves exactly when an automatic fire ends; a manual fire leaves it alone. */
  lemma MovesExactly(w: World, r: Request)
    ensures var after := Handle(w, r).0;
            if Ends(w, r) then after.revision == w.revision + 1 && after.nextDue == w.nextDue + SIX_HOURS
            else after.revision == w.revision && after.nextDue == w.nextDue
  {
  }

  function Endings(w: World, requests: seq<Request>, revision: nat): nat
    decreases |requests|
  {
    if requests == [] then 0
    else
      (if Ends(w, requests[0]) && requests[0].fire.revision == revision then 1 else 0)
      + Endings(Handle(w, requests[0]).0, requests[1..], revision)
  }

  /** Each revision that the schedule passes is passed by exactly one automatic fire, and no other revision is. */
  lemma {:induction false} OneEndingPerRevision(w: World, requests: seq<Request>, revision: nat)
    ensures var after := RunAll(Handle, w, requests).0;
            && w.revision <= after.revision
            && Endings(w, requests, revision) == if w.revision <= revision < after.revision then 1 else 0
    decreases |requests|
  {
    if requests != [] {
      MovesExactly(w, requests[0]);
      OneEndingPerRevision(Handle(w, requests[0]).0, requests[1..], revision);
    }
  }

  /** The automatic fire that the registry derives from the schedule. */
  function DueFire(w: World): Fire { Fire(true, w.nextDue, w.revision) }

  /******* When a schedule can still move *******/

  predicate Uses(r: Request, fire: Fire, token: Token) { !r.Claim? && r.fire == fire && r.token == token }

  /** The due fire has used its last attempt, under this lease. */
  predicate OnLastAttempt(w: World, token: Token) {
    && DueFire(w) in w.runs && w.runs[DueFire(w)].attempt == MAX_ATTEMPTS && Holds(w, DueFire(w), token)
  }

  lemma StuckStep(w: World, r: Request, token: Token)
    requires OnLastAttempt(w, token) && !Uses(r, DueFire(w), token)
    ensures var after := Handle(w, r).0;
            OnLastAttempt(after, token) && after.revision == w.revision && after.nextDue == w.nextDue
  {
  }

  /**
   When the worker on the last attempt is gone, the schedule waits for ever: expiry of that lease does not help, because no
   claim is granted beyond the last attempt, and only an ending moves the schedule.
   */
  lemma {:induction false} LastAttemptLostStops(w: World, requests: seq<Request>, token: Token)
    requires OnLastAttempt(w, token)
    requires forall i :: 0 <= i < |requests| ==> !Uses(requests[i], DueFire(w), token)
    ensures var after := RunAll(Handle, w, requests).0;
            OnLastAttempt(after, token) && after.revision == w.revision && after.nextDue == w.nextDue
    decreases |requests|
  {
    if requests != [] {
      StuckStep(w, requests[0], token);
      LastAttemptLostStops(Handle(w, requests[0]).0, requests[1..], token);
    }
  }

  /** The world when the connection's schedule is created. */
  function Start(nextDue: int): World { World(1, nextDue, map[], 0) }

  /** What holds of the automatic fires in every reachable world: an ended one has moved the schedule past itself. */
  predicate FireOk(w: World, f: Fire) {
    && f.revision <= w.revision
    && (f in w.runs && f.automatic ==>
          && (w.runs[f].state.Completed? ==> f.revision < w.revision)
          && (w.runs[f].state.Failed? && Terminal(w.runs[f], w.runs[f].state.retryable) ==>
                f.revision < w.revision || f.at != w.nextDue))
  }

  predicate Reachable(w: World) {
    w.revision >= 1 && Sound(w) && forall f :: f in w.runs ==> FireOk(w, f)
  }

  lemma StepReachable(w: World, r: Request)
    requires Reachable(w)
    ensures Reachable(Handle(w, r).0)
  {
    var after := Handle(w, r).0;
    HandleKeeps(w, r);
    forall f | f in after.runs ensures FireOk(after, f) {
      if f in w.runs { assert FireOk(w, f); }
    }
  }

  lemma {:induction false} RunReachable(w: World, requests: seq<Request>)
    requires Reachable(w)
    ensures Reachable(RunAll(Handle, w, requests).0)
    decreases |requests|
  {
    if requests != [] {
      StepReachable(w, requests[0]);
      RunReachable(Handle(w, requests[0]).0, requests[1..]);
    }
  }

  /** A time by which every lease has expired. */
  lemma {:induction false} AfterAllLeases(runs: map<Fire, Run>, from: int) returns (t: int)
    ensures from <= t && forall f :: f in runs ==> !LiveAt(runs[f], t)
    decreases |runs|
  {
    if runs == map[] {
      t := from;
    } else {
      var f :| f in runs;
      t := AfterAllLeases(runs - {f}, from);
      if runs[f].state.Running? { t := Max(t, runs[f].state.until); }
      forall g | g in runs ensures !LiveAt(runs[g], t) {
        if g != f { assert !LiveAt((runs - {f})[g], t); }
      }
    }
  }

  /** Claiming the due fire and completing it. */
  function ClaimAndComplete(w: World, now: int): seq<Request> {
    [Claim(DueFire(w), now, now + 1), Complete(DueFire(w), w.issued)]
  }

  /** A due fire that has attempts left and has not failed for good is claimed and completed, once no lease is live. */
  lemma DueFireCanComplete(w: World, now: int)
    requires w.revision >= 1 && w.nextDue <= now && forall f :: f in w.runs ==> !LiveAt(w.runs[f], now)
    requires DueFire(w) in w.runs ==>
               !w.runs[DueFire(w)].state.Completed? && !Taken(w.runs[DueFire(w)], now)
    ensures RunAll(Handle, w, ClaimAndComplete(w, now)).0.revision == w.revision + 1
  {
    var claimed := Handle(w, ClaimAndComplete(w, now)[0]).0;
    assert Holds(claimed, DueFire(w), w.issued);
    RunTwo(Handle, w, ClaimAndComplete(w, now)[0], ClaimAndComplete(w, now)[1]);
  }

  /** Some requests that do not use this token for the due fire move the schedule. */
  ghost predicate CanMoveWithout(w: World, token: Token) {
    exists requests :: AllAvoid(requests, DueFire(w), token) && RunAll(Handle, w, requests).0.revision > w.revision
  }

  predicate AllAvoid(requests: seq<Request>, fire: Fire, token: Token) {
    forall i :: 0 <= i < |requests| ==> !Uses(requests[i], fire, token)
  }

  lemma MovesUnlessLastAttempt(w: World, token: Token)
    requires Reachable(w) && token < w.issued && !OnLastAttempt(w, token)
    ensures CanMoveWithout(w, token)
  {
    var fire := DueFire(w);
    if fire in w.runs && w.runs[fire].attempt >= MAX_ATTEMPTS {
      assert FireOk(w, fire);
      var r := Complete(fire, w.runs[fire].state.token);
      RunOne(Handle, w, r);
      assert AllAvoid([r], fire, token) && RunAll(Handle, w, [r]).0.revision > w.revision;
    } else {
      var now := AfterAllLeases(w.runs, w.nextDue);
      if fire in w.runs { assert FireOk(w, fire); }
      DueFireCanComplete(w, now);
      assert AllAvoid(ClaimAndComplete(w, now), fire, token);
    }
  }

  /**
   The schedule can be moved without a given worker exactly when that worker does not hold the last attempt at the due
   fire: from any reachable world, some requests that do not use its token move the schedule, unless the due fire is on its
   fifth attempt under that token.
   */
  lemma StuckExactly(nextDue: int, past: seq<Request>, token: Token)
    requires token < RunAll(Handle, Start(nextDue), past).0.issued
    ensures var w := RunAll(Handle, Start(nextDue), past).0; CanMoveWithout(w, token) <==> !OnLastAttempt(w, token)
  {
    var w := RunAll(Handle, Start(nextDue), past).0;
    RunReachable(Start(nextDue), past);
    if OnLastAttempt(w, token) {
      forall requests | AllAvoid(requests, DueFire(w), token) ensures RunAll(Handle, w, requests).0.revision == w.revision {
        LastAttemptLostStops(w, requests, token);
      }
    } else {
      MovesUnlessLastAttempt(w, token);
    }
  }

  /** Claims of the due fire, each after the lease before has expired; the workers are never heard of again. */
  function LostClaims(nextDue: int, count: nat): seq<Request> {
    seq(count, i requires 0 <= i < count => Claim(Fire(true, nextDue, 1), nextDue + i, nextDue + i + 1))
  }

  lemma {:induction false} LostClaimsRun(nextDue: int, count: nat)
    requires 1 <= count <= MAX_ATTEMPTS
    ensures RunAll(Handle, Start(nextDue), LostClaims(nextDue, count)).0
         == World(1, nextDue, map[Fire(true, nextDue, 1) := Run(count, Running(count - 1, nextDue + count))], count)
  {
    var claims := LostClaims(nextDue, count);
    if count == 1 {
      assert claims == [claims[0]];
      RunOne(Handle, Start(nextDue), claims[0]);
    } else {
      var front := LostClaims(nextDue, count - 1);
      LostClaimsRun(nextDue, count - 1);
      assert claims == front + [claims[count - 1]];
      RunThen(Handle, Start(nextDue), front, claims[count - 1]);
    }
  }

  /** Such a world is reached: five workers that claim the first fire one after the other and are lost. */
  lemma FiveLostWorkersStop(nextDue: int)
    ensures OnLastAttempt(RunAll(Handle, Start(nextDue), LostClaims(nextDue, MAX_ATTEMPTS)).0, MAX_ATTEMPTS - 1)
    ensures !CanMoveWithout(RunAll(Handle, Start(nextDue), LostClaims(nextDue, MAX_ATTEMPTS)).0, MAX_ATTEMPTS - 1)
  {
    LostClaimsRun(nextDue, MAX_ATTEMPTS);
    StuckExactly(nextDue, LostClaims(nextDue, MAX_ATTEMPTS), MAX_ATTEMPTS - 1);
  }

  /******* The lease adapter *******/

  class Lease {
    var revision: nat
    var nextDue: int
    var runs: map<Fire, Run>
    var issued: nat

    function State(): World
      reads this
    {
      World(revision, nextDue, runs, issued)
    }

    constructor New(nextDue: int)
      ensures State() == Start(nextDue) && Sound(State())
    {
      this.revision, this.nextDue, runs, issued := 1, nextDue, map[], 0;
    }

    method ClaimFire(fire: Fire, now: int, until: int) returns (reply: Reply)
      requires Sound(State())
      modifies this`runs, this`issued
      ensures (State(), reply) == Handle(old(State()), Claim(fire, now, until))
      ensures Sound(State()) && Kept(old(State()), State())
    {
      HandleKeeps(State(), Claim(fire, now, until));
      if until <= now || fire.revision < 1 { return InvalidInput; }
      if fire in runs && runs[fire].state.Completed? { return DuplicateCompleted(runs[fire].attempt); }
      if revision != fire.revision { return ScopeRevisionChanged; }
      if (if fire.automatic then nextDue else fire.at) > now { return ScopeRevisionChanged; }
      if fire in runs && Taken(runs[fire], now) { return InProgress; }
      if OtherLive(State(), fire, now) { return InProgress; }
      var attempt := 1;
      if fire in runs { attempt := runs[fire].attempt + 1; }
      var token := issued;
      runs, issued := runs[fire := Run(attempt, Running(token, until))], issued + 1;
      return Claimed(token, attempt);
    }

    method CompleteFire(fire: Fire, token: Token) returns (reply: Reply)
      requires Sound(State())
      modifies this
      ensures (State(), reply) == Handle(old(State()), Complete(fire, token))
      ensures Sound(State()) && Kept(old(State()), State())
    {
      HandleKeeps(State(), Complete(fire, token));
      if fire !in runs || !runs[fire].state.Running? || runs[fire].state.token != token { return Done(false); }
      if revision != fire.revision || (fire.automatic && nextDue != fire.at) { return Done(false); }
      if fire.automatic { revision, nextDue := revision + 1, nextDue + SIX_HOURS; }
      runs := runs[fire := Run(runs[fire].attempt, Completed)];
      return Done(true);
    }

    method FailFire(fire: Fire, token: Token, retryable: bool) returns (reply: Reply)
      requires Sound(State())
      modifies this
      ensures (State(), reply) == Handle(old(State()), Fail(fire, token, retryable))
      ensures Sound(State()) && Kept(old(State()), State())
    {
      HandleKeeps(State(), Fail(fire, token, retryable));
      if fire !in runs || !runs[fire].state.Running? || runs[fire].state.token != token { return Done(false); }
      if !retryable || runs[fire].attempt >= MAX_ATTEMPTS {
        if revision == fire.revision && fire.automatic && nextDue == fire.at {
          revision, nextDue := revision + 1, nextDue + SIX_HOURS;
        }
      }
      runs := runs[fire := Run(runs[fire].attempt, Failed(retryable))];
      return Done(true);
    }
  }
}
