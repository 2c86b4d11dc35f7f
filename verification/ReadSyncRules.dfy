/** Every answer of the read-sync lease, told from the stored runs and the schedule as they are. */
module ReadSyncRules {
  import opened ReadSyncSchedule

  /** The fire's run is under a lease that ends after now. */
  predicate UnderLease(w: World, fire: Fire, now: int) {
    fire in w.runs && w.runs[fire].state.Running? && now < w.runs[fire].state.until
  }

  predicate AnotherUnderLease(w: World, fire: Fire, now: int) {
    exists f :: f in w.runs && f != fire && UnderLease(w, f, now)
  }

  /** The schedule has come to the fire: an automatic one when the schedule is due, a manual one at its own time. */
  predicate HasCome(w: World, fire: Fire, now: int) {
    w.revision == fire.revision && if fire.automatic then w.nextDue <= now else fire.at <= now
  }

  /** The fire has five attempts behind it, or has failed without a retry. */
  predicate Spent(w: World, fire: Fire) {
    fire in w.runs && (w.runs[fire].attempt >= 5 || w.runs[fire].state == Failed(false))
  }

  /** A claim is answered in this order; only a granted one changes anything, and then only the fire's own run. */
  lemma ClaimAnswers(w: World, fire: Fire, now: int, until: int)
    ensures var (after, reply) := Handle(w, Claim(fire, now, until));
            if until <= now || fire.revision < 1 then reply == InvalidInput && after == w
            else if fire in w.runs && w.runs[fire].state == Completed then
              reply == DuplicateCompleted(w.runs[fire].attempt) && after == w
            else if !HasCome(w, fire, now) then reply == ScopeRevisionChanged && after == w
            else if UnderLease(w, fire, now) || Spent(w, fire) || AnotherUnderLease(w, fire, now) then
              reply == InProgress && after == w
            else
              var attempt := if fire in w.runs then w.runs[fire].attempt + 1 else 1;
              && reply == Claimed(w.issued, attempt)
              && after == World(w.revision, w.nextDue, w.runs[fire := Run(attempt, Running(w.issued, until))], w.issued + 1)
  {
    assert AnotherUnderLease(w, fire, now) <==> OtherLive(w, fire, now);
  }

  /** The fire's run is under a lease with this token, expired or not. */
  ghost predicate HeldBy(w: World, fire: Fire, token: Token) {
    fire in w.runs && exists until :: w.runs[fire].state == Running(token, until)
  }

  /** The schedule is where the fire was made for; a manual fire only asks for the revision. */
  predicate StillThere(w: World, fire: Fire) { w.revision == fire.revision && (fire.automatic ==> w.nextDue == fire.at) }

  /** A completion succeeds exactly for the holder while the schedule is there; an automatic one moves it six hours on. */
  lemma CompletesExactly(w: World, fire: Fire, token: Token)
    ensures var (after, reply) := Handle(w, Complete(fire, token));
            if HeldBy(w, fire, token) && StillThere(w, fire) then
              && reply == Done(true) && after.issued == w.issued
              && after.runs == w.runs[fire := Run(w.runs[fire].attempt, Completed)]
              && after.revision == w.revision + (if fire.automatic then 1 else 0)
              && after.nextDue == w.nextDue + (if fire.automatic then 6 * 60 * 60 * 1000 else 0)
            else reply == Done(false) && after == w
  {
    if Holds(w, fire, token) { assert w.runs[fire].state == Running(token, w.runs[fire].state.until); }
  }

  /**
   A failure is recorded exactly for the holder. It moves the schedule six hours on exactly if the fire is automatic and
   will not be tried again, and the schedule is still there.
   */
  lemma FailsExactly(w: World, fire: Fire, token: Token, retryable: bool)
    ensures var (after, reply) := Handle(w, Fail(fire, token, retryable));
            if HeldBy(w, fire, token) then
              var moves := fire.automatic && StillThere(w, fire) && (!retryable || w.runs[fire].attempt >= 5);
              && reply == Done(true) && after.issued == w.issued
              && after.runs == w.runs[fire := Run(w.runs[fire].attempt, Failed(retryable))]
              && after.revision == w.revision + (if moves then 1 else 0)
              && after.nextDue == w.nextDue + (if moves then 6 * 60 * 60 * 1000 else 0)
            else reply == Done(false) && after == w
  {
    if Holds(w, fire, token) { assert w.runs[fire].state == Running(token, w.runs[fire].state.until); }
  }
}
