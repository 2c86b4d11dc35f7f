/** Safety of the decision-room run store over every interleaving of claims, completions and failures. */
module DecisionRunTheorems {
  import opened Options
  import opened DecisionRuns
  import opened Histories
  import Schedules = DecisionSchedules

  /******* What a run keeps *******/

  predicate TokensIssued(store: Store) {
    forall k :: k in store.runs && store.runs[k].state.Running? ==> store.runs[k].state.token < store.issued
  }

  /** A run keeps its reference and what it is about; once completed it does not change at all. */
  predicate RunKept(before: Run, after: Run) {
    && after.runRef == before.runRef && after.origin == before.origin && after.target == before.target
    && after.scope == before.scope && after.schedule == before.schedule
    && before.attempt <= after.attempt
    && (before.state.Completed? ==> after == before)
  }

  predicate Kept(before: Store, after: Store) {
    before.issued <= after.issued && forall k :: k in before.runs ==> k in after.runs && RunKept(before.runs[k], after.runs[k])
  }

  lemma HandleKeeps(rows: seq<Schedules.Row>, store: Store, request: Request)
    ensures var after := Handle(rows, store, request).0;
            Kept(store, after) && (TokensIssued(store) ==> TokensIssued(after))
  {
  }

  lemma {:induction false} HandleAllKeeps(store: Store, steps: seq<Step>)
    ensures var after := RunAll(HandleStep, store, steps).0;
            Kept(store, after) && (TokensIssued(store) ==> TokensIssued(after))
    decreases |steps|
  {
    if steps != [] {
      var after := Handle(steps[0].rows, store, steps[0].request).0;
      HandleKeeps(steps[0].rows, store, steps[0].request);
      HandleAllKeeps(after, steps[1..]);
      forall k | k in store.runs
        ensures k in RunAll(HandleStep, store, steps).0.runs && RunKept(store.runs[k], RunAll(HandleStep, store, steps).0.runs[k])
      {
        assert k in after.runs && RunKept(store.runs[k], after.runs[k]);
      }
    }
  }

  predicate Named(store: Store) { forall k :: k in store.runs ==> store.runs[k].runRef == RunRef(k) }

  /** The run reference in the answer to a claim, if there is one, is the one of the claimed key. */
  predicate NamesRun(request: Request, reply: Reply) {
    request.Claim? && (reply.Claimed? || reply.DuplicateCompleted? || reply.InProgress?) ==>
      reply.runRef == RunRef(request.input.key)
  }

  /** One key always names one run: every answer to every claim on it carries the same reference. */
  lemma {:induction false} KeyNamesOneRun(store: Store, steps: seq<Step>)
    requires Named(store)
    ensures forall i :: 0 <= i < |steps| ==> NamesRun(steps[i].request, RunAll(HandleStep, store, steps).1[i])
    decreases |steps|
  {
    if steps != [] {
      var (after, reply) := Handle(steps[0].rows, store, steps[0].request);
      KeyNamesOneRun(after, steps[1..]);
      assert RunAll(HandleStep, store, steps).1 == [reply] + RunAll(HandleStep, after, steps[1..]).1;
      forall i | 0 <= i < |steps| ensures NamesRun(steps[i].request, RunAll(HandleStep, store, steps).1[i]) {
        if i > 0 { assert NamesRun(steps[1..][i - 1].request, RunAll(HandleStep, after, steps[1..]).1[i - 1]); }
      }
    }
  }

  /******* Completion *******/

  predicate IsCompleted(store: Store, key: string) { key in store.runs && store.runs[key].state.Completed? }

  function Completions(steps: seq<Step>, replies: seq<Reply>, key: string): nat
    requires |steps| == |replies|
  {
    if steps == [] then 0
    else
      var r := steps[0].request;
      (if r.Complete? && r.key == key && replies[0] == Updated(true) then 1 else 0) + Completions(steps[1..], replies[1..], key)
  }

  /** A key is completed at most once, and a completed key never again. */
  lemma {:induction false} CompletedOnce(store: Store, steps: seq<Step>, key: string)
    ensures Completions(steps, RunAll(HandleStep, store, steps).1, key) <= if IsCompleted(store, key) then 0 else 1
    decreases |steps|
  {
    if steps != [] {
      var after := Handle(steps[0].rows, store, steps[0].request).0;
      HandleKeeps(steps[0].rows, store, steps[0].request);
      CompletedOnce(after, steps[1..], key);
      assert RunAll(HandleStep, store, steps).1[1..] == RunAll(HandleStep, after, steps[1..]).1;
      assert IsCompleted(store, key) ==> RunKept(store.runs[key], after.runs[key]);
    }
  }

  /** At any later time a claim on a completed key, for what the run is about, is answered with the stored completion. */
  lemma CompletedIsAbsorbing(store: Store, steps: seq<Step>, rows: seq<Schedules.Row>, input: ClaimInput)
    requires IsCompleted(store, input.key) && input.until > input.now
    requires var run := store.runs[input.key];
             input.origin == run.origin && input.target == run.target && Binding(rows, store, input) == run.schedule
    requires input.origin.Scheduled? ==> store.runs[input.key].schedule.Some?
    ensures var later, run := RunAll(HandleStep, store, steps).0, store.runs[input.key];
            Handle(rows, later, Claim(input)) == (later, DuplicateCompleted(run.runRef, run.attempt, run.state.completion))
  {
    HandleAllKeeps(store, steps);
    assert RunKept(store.runs[input.key], RunAll(HandleStep, store, steps).0.runs[input.key]);
  }

  /******* Lease tokens *******/

  /** A token that does not hold the run now, and was issued before now, never completes or fails it again. */
  lemma {:induction false} StaleTokenIsPowerless(store: Store, steps: seq<Step>, key: string, token: Token)
    requires token < store.issued && !Holds(store, key, token)
    ensures !Holds(RunAll(HandleStep, store, steps).0, key, token)
    decreases |steps|
  {
    if steps != [] {
      var after := Handle(steps[0].rows, store, steps[0].request).0;
      HandleKeeps(steps[0].rows, store, steps[0].request);
      StaleTokenIsPowerless(after, steps[1..], key, token);
    }
  }

  /** A run is completed or failed exactly by the token of its current lease. */
  lemma OnlyTheHolderFinishes(rows: seq<Schedules.Row>, store: Store, key: string, token: Token, completion: Completion)
    ensures Handle(rows, store, Complete(key, token, completion)).1 == Updated(Holds(store, key, token))
    ensures Handle(rows, store, Fail(key, token)).1 == Updated(Holds(store, key, token))
    ensures !Holds(store, key, token) ==>
              Handle(rows, store, Complete(key, token, completion)).0 == Handle(rows, store, Fail(key, token)).0 == store
    ensures Holds(store, key, token) ==>
              && !Holds(Handle(rows, store, Complete(key, token, completion)).0, key, token)
              && !Holds(Handle(rows, store, Fail(key, token)).0, key, token)
  {
  }

  /** The request ends the run of this key with this token. */
  predicate EndsWith(request: Request, key: string, token: Token) {
    match request
    case Complete(k, t, _) => k == key && t == token
    case Fail(k, t) => k == key && t == token
    case _ => false
  }

  function Endings(steps: seq<Step>, replies: seq<Reply>, key: string, token: Token): nat
    requires |steps| == |replies|
  {
    if steps == [] then 0
    else (if EndsWith(steps[0].request, key, token) && replies[0] == Updated(true) then 1 else 0)
         + Endings(steps[1..], replies[1..], key, token)
  }

  lemma EndingStep(store: Store, step: Step, key: string, token: Token)
    requires TokensIssued(store)
    ensures var (after, reply) := HandleStep(store, step);
            && (token < store.issued && !Holds(store, key, token) ==>
                  !Holds(after, key, token) && !(EndsWith(step.request, key, token) && reply == Updated(true)))
            && (EndsWith(step.request, key, token) && reply == Updated(true) ==>
                  token < after.issued && !Holds(after, key, token))
  {
    if EndsWith(step.request, key, token) {
      var completion := if step.request.Complete? then step.request.completion else Completion("", "");
      OnlyTheHolderFinishes(step.rows, store, key, token, completion);
    }
  }

  /** However a worker repeats its calls, a lease is ended at most once under its token, completed and failed together. */
  lemma {:induction false} LeaseEndsOnce(store: Store, steps: seq<Step>, key: string, token: Token)
    requires TokensIssued(store)
    ensures Endings(steps, RunAll(HandleStep, store, steps).1, key, token)
         <= if token < store.issued && !Holds(store, key, token) then 0 else 1
    decreases |steps|
  {
    if steps != [] {
      var after := HandleStep(store, steps[0]).0;
      HandleKeeps(steps[0].rows, store, steps[0].request);
      EndingStep(store, steps[0], key, token);
      LeaseEndsOnce(after, steps[1..], key, token);
      assert RunAll(HandleStep, store, steps).1[1..] == RunAll(HandleStep, after, steps[1..]).1;
    }
  }

  /******* Attempts *******/

  /** What happened to a key: leases granted, failures recorded, and leases granted over an expired one. */
  datatype Tally = Tally(grants: nat, failures: nat, takeovers: nat)

  /** What one request adds. */
  function Added(store: Store, step: Step, key: string): Tally {
    var r, reply := step.request, HandleStep(store, step).1;
    if r.Claim? && r.input.key == key && reply.Claimed? then
      Tally(1, 0, if key in store.runs && store.runs[key].state.Running? then 1 else 0)
    else if r.Fail? && r.key == key && reply == Updated(true) then Tally(0, 1, 0)
    else Tally(0, 0, 0)
  }

  function TallyOf(store: Store, steps: seq<Step>, key: string): Tally
    decreases |steps|
  {
    if steps == [] then Tally(0, 0, 0)
    else
      var one, rest := Added(store, steps[0], key), TallyOf(HandleStep(store, steps[0]).0, steps[1..], key);
      Tally(one.grants + rest.grants, one.failures + rest.failures, one.takeovers + rest.takeovers)
  }

  function AttemptOf(store: Store, key: string): nat { if key in store.runs then store.runs[key].attempt else 0 }

  /** One while a run is in progress or completed. */
  function Unfailed(store: Store, key: string): nat {
    if key in store.runs && !store.runs[key].state.Failed? then 1 else 0
  }

  lemma AttemptStep(store: Store, step: Step, key: string)
    ensures var after, one := HandleStep(store, step).0, Added(store, step, key);
            && AttemptOf(after, key) == AttemptOf(store, key) + one.grants
            && one.grants + Unfailed(store, key) == one.failures + one.takeovers + Unfailed(after, key)
  {
  }

  lemma {:induction false} AttemptsAreCounted(store: Store, steps: seq<Step>, key: string)
    ensures var after, tally := RunAll(HandleStep, store, steps).0, TallyOf(store, steps, key);
            && AttemptOf(after, key) == AttemptOf(store, key) + tally.grants
            && tally.grants + Unfailed(store, key) == tally.failures + tally.takeovers + Unfailed(after, key)
    decreases |steps|
  {
    if steps != [] {
      AttemptStep(store, steps[0], key);
      AttemptsAreCounted(HandleStep(store, steps[0]).0, steps[1..], key);
    }
  }

  /**
   The attempt of a run in progress or completed is one plus its failures exactly when no lease on it expired and was
   taken over.
   */
  lemma AttemptIsOnePlusFailures(steps: seq<Step>, key: string)
    requires Unfailed(RunAll(HandleStep, EMPTY, steps).0, key) == 1
    ensures var tally := TallyOf(EMPTY, steps, key);
            RunAll(HandleStep, EMPTY, steps).0.runs[key].attempt == 1 + tally.failures <==> tally.takeovers == 0
  {
    AttemptsAreCounted(EMPTY, steps, key);
  }

  /******* One live lease per scope *******/

  /** At time t no two runs of a scope hold a live lease. */
  predicate ExclusiveAt(store: Store, t: int) {
    forall k, l :: k in store.runs && l in store.runs && k != l && store.runs[k].scope == store.runs[l].scope ==>
      !LiveAt(store.runs[k], t) || !LiveAt(store.runs[l], t)
  }

  function Max(a: int, b: int): int { if a < b then b else a }

  /** The latest time that any claim has used. */
  function Clock(steps: seq<Step>, start: int): int {
    if steps == [] then start
    else Clock(steps[1..], if steps[0].request.Claim? then Max(start, steps[0].request.input.now) else start)
  }

  lemma ClaimKeepsExclusive(rows: seq<Schedules.Row>, store: Store, input: ClaimInput, t: int)
    requires ExclusiveAt(store, t)
    requires input.key in store.runs ==> store.runs[input.key].scope == input.scope
    ensures ExclusiveAt(Handle(rows, store, Claim(input)).0, Max(t, input.now))
  {
    var after := Handle(rows, store, Claim(input)).0;
    if after != store {
      assert !Overlaps(store, input.key, input.scope, input.now);
    }
  }

  lemma FinishKeepsExclusive(store: Store, key: string, token: Token, state: RunState, t: int)
    requires ExclusiveAt(store, t) && !state.Running?
    ensures ExclusiveAt(Finish(store, key, token, state).0, t)
  {
  }

  function ScopeOf(target: Target): Scope { Scope(target.account, target.campaign) }

  /** The executor derives the scope of a claim from its target. */
  predicate ByExecutor(request: Request) { request.Claim? ==> request.input.scope == ScopeOf(request.input.target) }

  predicate Scoped(store: Store) { forall k :: k in store.runs ==> store.runs[k].scope == ScopeOf(store.runs[k].target) }

  lemma ClaimIsScoped(rows: seq<Schedules.Row>, store: Store, input: ClaimInput)
    requires Scoped(store) && ByExecutor(Claim(input))
    ensures Scoped(Handle(rows, store, Claim(input)).0)
    ensures input.key in store.runs && Handle(rows, store, Claim(input)).1.Claimed? ==>
              store.runs[input.key].scope == input.scope
  {
  }

  lemma StepKeepsExclusive(rows: seq<Schedules.Row>, store: Store, request: Request, t: int)
    requires Scoped(store) && ExclusiveAt(store, t) && ByExecutor(request)
    ensures var after := Handle(rows, store, request).0;
            Scoped(after) && ExclusiveAt(after, if request.Claim? then Max(t, request.input.now) else t)
  {
    match request
    case Claim(input) =>
      ClaimIsScoped(rows, store, input);
      if Handle(rows, store, request).1.Claimed? { ClaimKeepsExclusive(rows, store, input, t); }
    case Complete(key, token, completion) => FinishKeepsExclusive(store, key, token, Completed(completion), t);
    case Fail(key, token) => FinishKeepsExclusive(store, key, token, Failed, t);
  }

  /**
   However the executors of any number of workers interleave, and whatever their clocks say, at the latest time any of
   them has used no two runs of one campaign hold a live lease.
   */
  lemma {:induction false} OneLiveRunPerScope(store: Store, steps: seq<Step>, t: int)
    requires Scoped(store) && ExclusiveAt(store, t)
    requires forall i :: 0 <= i < |steps| ==> ByExecutor(steps[i].request)
    ensures ExclusiveAt(RunAll(HandleStep, store, steps).0, Clock(steps, t))
    decreases |steps|
  {
    if steps != [] {
      var request := steps[0].request;
      StepKeepsExclusive(steps[0].rows, store, request, t);
      OneLiveRunPerScope(Handle(steps[0].rows, store, request).0, steps[1..],
                         if request.Claim? then Max(t, request.input.now) else t);
    }
  }

  /** A claim that the run itself does not refuse: it matches, is bound, and is not completed or held. */
  predicate Free(rows: seq<Schedules.Row>, run: Run, input: ClaimInput) {
    Refusal(rows, Store(map[input.key := run], 0), input).None?
  }

  /** In every store that holds the run and has one live run per scope when the claim comes, it has so afterwards. */
  ghost predicate ClaimIsSafe(rows: seq<Schedules.Row>, run: Run, input: ClaimInput) {
    forall store: Store :: SafeIn(rows, store, run, input)
  }

  predicate SafeIn(rows: seq<Schedules.Row>, store: Store, run: Run, input: ClaimInput) {
    input.key in store.runs && store.runs[input.key] == run && ExclusiveAt(store, input.now) ==>
      ExclusiveAt(Handle(rows, store, Claim(input)).0, input.now)
  }

  /** The run beside one that holds a live lease on its scope. */
  function Beside(run: Run, input: ClaimInput): Store {
    var other := Run(Manual(""), None, run.target, run.scope, "", 1, Running(0, input.until));
    Store(map[input.key := run, input.key + "x" := other], 1)
  }

  lemma OtherKey(key: string)
    ensures key + "x" != key
  {
    assert |key + "x"| == |key| + 1;
  }

  lemma OtherScopeIsUnsafe(rows: seq<Schedules.Row>, run: Run, input: ClaimInput)
    requires Free(rows, run, input) && run.scope != input.scope
    ensures !SafeIn(rows, Beside(run, input), run, input)
  {
    var store, l := Beside(run, input), input.key + "x";
    OtherKey(input.key);
    assert store.runs.Keys == {input.key, l};
    assert Refusal(rows, store, input).None?;
    var after := Handle(rows, store, Claim(input)).0;
    assert after.runs[l] == store.runs[l] && after.runs[input.key].scope == run.scope;
    assert LiveAt(after.runs[l], input.now) && LiveAt(after.runs[input.key], input.now);
  }

  /**
   A claim on a stored run that is free keeps the scope exclusive in every store exactly when it names the scope stored
   with the run. The store does not check this; a caller can.
   */
  lemma SafeExactlyForStoredScope(rows: seq<Schedules.Row>, run: Run, input: ClaimInput)
    requires Free(rows, run, input)
    ensures ClaimIsSafe(rows, run, input) <==> run.scope == input.scope
  {
    if run.scope == input.scope {
      forall store: Store ensures SafeIn(rows, store, run, input) {
        if input.key in store.runs && store.runs[input.key] == run && ExclusiveAt(store, input.now) {
          ClaimKeepsExclusive(rows, store, input, input.now);
        }
      }
    } else {
      OtherScopeIsUnsafe(rows, run, input);
    }
  }

  /** Every claim in a run on a key that is stored at the time names the scope stored with it. */
  predicate NamesStoredScopes(store: Store, steps: seq<Step>)
    decreases |steps|
  {
    steps == []
    || (&& (steps[0].request.Claim? && steps[0].request.input.key in store.runs ==>
              store.runs[steps[0].request.input.key].scope == steps[0].request.input.scope)
        && NamesStoredScopes(HandleStep(store, steps[0]).0, steps[1..]))
  }

  /** So over any run whose claims name the stored scopes, whoever makes them, no scope has two live runs. */
  lemma {:induction false} StoredScopesStayExclusive(store: Store, steps: seq<Step>, t: int)
    requires ExclusiveAt(store, t) && NamesStoredScopes(store, steps)
    ensures ExclusiveAt(RunAll(HandleStep, store, steps).0, Clock(steps, t))
    decreases |steps|
  {
    if steps != [] {
      var rows, request := steps[0].rows, steps[0].request;
      match request {
        case Claim(input) => ClaimKeepsExclusive(rows, store, input, t);
        case Complete(key, token, completion) => FinishKeepsExclusive(store, key, token, Completed(completion), t);
        case Fail(key, token) => FinishKeepsExclusive(store, key, token, Failed, t);
      }
      StoredScopesStayExclusive(Handle(rows, store, request).0, steps[1..], if request.Claim? then Max(t, request.input.now) else t);
    }
  }

  function ManualClaim(key: string, scope: Scope, target: Target, now: int, until: int): Request {
    Claim(ClaimInput(key, scope, Manual(key), target, now, until))
  }

  /**
   The store alone does not ensure this: it checks the scope in the claim, not the one stored with the run, so a claim
   that names another scope than before takes over an expired lease beside a live one.
   */
  lemma OtherScopeOverlaps(target: Target)
    ensures var a, b := ScopeOf(target), Scope(target.account + "x", target.campaign);
            var s1 := Handle([], EMPTY, ManualClaim("k", a, target, 0, 10)).0;
            var s2 := Handle([], s1, ManualClaim("l", a, target, 10, 20)).0;
            var s3 := Handle([], s2, ManualClaim("k", b, target, 12, 22)).0;
            ExclusiveAt(s2, 10) && !ExclusiveAt(s3, 12)
  {
    var a, b := ScopeOf(target), Scope(target.account + "x", target.campaign);
    assert |b.account| != |a.account|;
    var s1 := Handle([], EMPTY, ManualClaim("k", a, target, 0, 10)).0;
    assert s1.runs.Keys == {"k"} && s1.runs["k"].scope == a;
    var s2 := Handle([], s1, ManualClaim("l", a, target, 10, 20)).0;
    assert s2.runs.Keys == {"k", "l"} && s2.runs["l"].scope == a;
    var s3 := Handle([], s2, ManualClaim("k", b, target, 12, 22)).0;
    assert LiveAt(s3.runs["k"], 12) && LiveAt(s3.runs["l"], 12);
  }
}
