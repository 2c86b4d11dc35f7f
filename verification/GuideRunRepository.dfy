/** The guide-run repository: each method is one database transaction over the stored runs. */
module GuideRunRepository {
  import opened Options
  import opened GuideRuns
  import opened GuideRunTheorems

  class Repository {
    var runs: map<Identity, Run>

    constructor Empty()
      ensures runs == map[] && Consistent(runs)
    {
      runs := map[];
    }

    /** Stores a new run; a run already stored under the same identity is returned unchanged. */
    method InsertIfAbsent(run: Run) returns (reply: Reply)
      requires Consistent(runs)
      modifies this
      ensures (runs, reply) == Handle(old(runs), Insert(run))
      ensures Consistent(runs) && Extends(old(runs), runs)
      ensures reply.Found? ==> run.identity in runs && reply.run == runs[run.identity]
    {
      HandleKeeps(runs, Insert(run));
      var ok := Verify(run);
      if !ok || run.version != V12 { return Refused; }
      if run.identity in runs { return Found(runs[run.identity]); }
      if |run.events| != 1 || run.events[0].body.reason.Some? { return Refused; }
      runs := runs[run.identity := run];
      return Found(run);
    }

    /** Replaces a stored run whose head is still the expected one, by one with a single event more. */
    method CompareAndSet(run: Run, expectedHead: Hash) returns (reply: Reply)
      requires Consistent(runs)
      modifies this
      ensures (runs, reply) == Handle(old(runs), Request.CompareAndSet(run, expectedHead))
      ensures Consistent(runs) && Extends(old(runs), runs)
      ensures reply.Found? ==>
                && run.identity in old(runs) && runs == old(runs)[run.identity := run]
                && |run.events| > 0 && run.events[..|run.events| - 1] == old(runs)[run.identity].events
      ensures !reply.Found? ==> runs == old(runs)
    {
      HandleKeeps(runs, Request.CompareAndSet(run, expectedHead));
      var ok := Verify(run);
      if !ok || run.version != V12 || |run.events| < 2 { return Refused; }
      if run.identity !in runs || runs[run.identity].head != expectedHead { return NotFound; }
      if run.sequence != runs[run.identity].sequence + 1 || run.events[|run.events| - 1].body.previous != expectedHead {
        return Refused;
      }
      CompareAndSetAddsOneEvent(runs, run, expectedHead);
      runs := runs[run.identity := run];
      return Found(run);
    }

    /** Confirms a lease: changes nothing. */
    method Fence(identity: Identity, expectedHead: Hash, token: string, epoch: int, now: Instant) returns (reply: Reply)
      ensures (runs, reply) == Handle(runs, Request.Fence(identity, expectedHead, token, epoch, now))
    {
      if !ValidToken(token) || epoch < 1 { return Refused; }
      if identity !in runs { return NotFound; }
      var run := runs[identity];
      if run.head != expectedHead || run.lease.None? { return NotFound; }
      if run.lease.value.token != token || run.lease.value.epoch != epoch { return NotFound; }
      if run.lease.value.expiresAt <= now { return NotFound; }
      return Found(run);
    }
  }
}
