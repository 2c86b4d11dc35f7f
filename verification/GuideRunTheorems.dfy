/** The verifier accepts exactly the histories that creating and appending can produce, and a lease epoch has one holder. */
module GuideRunTheorems {
  import opened Options
  import opened GuideRuns
  import opened Histories

  /******* Append and the verifier agree *******/

  lemma ScanLast(v: Version, identity: Identity, events: seq<Event>, e: Event)
    ensures var c := Scan(v, identity, events);
            Scan(v, identity, events + [e])
            == if c.None? || !Accepts(v, identity, c.value, e, |events|) then None else Some(Advance(v, c.value, e))
  {
    assert (events + [e])[..|events|] == events;
  }

  lemma ScanOne(v: Version, identity: Identity, e: Event)
    ensures Scan(v, identity, [e]) == if Accepts(v, identity, START, e, 0) then Some(Advance(v, START, e)) else None
  {
    assert [e][..0] == [];
    assert Scan(v, identity, []) == Some(START);
  }

  lemma CreateVerifies(version: Version, identity: Identity, occurredAt: Instant)
    requires Create(version, identity, occurredAt).Ok?
    ensures Verified(Create(version, identity, occurredAt).run)
  {
    var run := Create(version, identity, occurredAt).run;
    var body := Body(version, identity, 1, Genesis, None, Due, occurredAt, None, None, None, None);
    ScanOne(version, identity, Event(body, Digest(body)));
    assert run.events == [Event(body, Digest(body))];
  }

  /** The instant of the last event is the cursor's instant. */
  lemma VerifiedLast(run: Run)
    requires Verified(run)
    ensures var c := Scan(run.version, run.identity, run.events).value;
            c.at == Some(run.events[|run.events| - 1].body.occurredAt) && c.state == Some(run.state)
  {
  }

  lemma ScanLeaseInRange(v: Version, identity: Identity, events: seq<Event>)
    requires Scan(v, identity, events).Some?
    ensures var c := Scan(v, identity, events).value;
            c.lease.Some? ==> && 1 <= c.lease.value.epoch <= MAX_SAFE_INTEGER && ValidToken(c.lease.value.token)
                              && ValidInstant(c.lease.value.expiresAt)
    ensures var c := Scan(v, identity, events).value;
            c.state == Some(Due) ==> c.lease.None?
  {
  }

  /** An event carries the lease fields that a transition records. */
  predicate Carries(b: Body, input: Transition, o: LeaseOutcome) {
    && b.toState == input.toState && b.occurredAt == input.occurredAt
    && o.LeaseFields? && o == LeaseFields(b.leaseToken, b.leaseUntil, b.leaseEpoch, o.lease)
  }

  predicate LeaseInRange(lease: Option<Lease>) {
    lease.Some? ==>
      && 1 <= lease.value.epoch <= MAX_SAFE_INTEGER
      && ValidToken(lease.value.token) && ValidInstant(lease.value.expiresAt)
  }

  /** The lease afterwards, as the verifier reads it off the event. */
  function LeaseAfter(run: Run, b: Body): Option<Lease> {
    if Grants(run.version, run.state, b.toState) && GrantFields(b)
    then Some(Lease(b.leaseToken.value, b.leaseUntil.value, b.leaseEpoch.value)) else run.lease
  }

  lemma LeaseStepAccepted(run: Run, input: Transition, c: Cursor, b: Body)
    requires c.state == Some(run.state) && c.lease == run.lease && LeaseInRange(run.lease)
    requires LeaseStep(run, input).LeaseFields? && Carries(b, input, LeaseStep(run, input))
    ensures LeaseAccepted(run.version, c, b) && LeaseStep(run, input).lease == LeaseAfter(run, b)
  {
  }

  /** Appending keeps a verified run verified. */
  lemma AppendVerifies(run: Run, input: Transition)
    requires Append(run, input).Ok?
    ensures Verified(Append(run, input).run)
  {
    var next := Append(run, input).run;
    var e := next.events[|run.events|];
    VerifiedLast(run);
    ScanLeaseInRange(run.version, run.identity, run.events);
    LeaseStepAccepted(run, input, Scan(run.version, run.identity, run.events).value, e.body);
    ScanLast(run.version, run.identity, run.events, e);
  }

  /** Creation followed by any number of appends. */
  function Build(version: Version, identity: Identity, occurredAt: Instant, inputs: seq<Transition>): Result {
    if inputs == [] then Create(version, identity, occurredAt)
    else
      match Build(version, identity, occurredAt, inputs[..|inputs| - 1])
      case Err(error) => Err(error)
      case Ok(run) => Append(run, inputs[|inputs| - 1])
  }

  lemma {:induction false} BuiltRunsVerify(version: Version, identity: Identity, occurredAt: Instant, inputs: seq<Transition>)
    requires Build(version, identity, occurredAt, inputs).Ok?
    ensures var run := Build(version, identity, occurredAt, inputs).run;
            && Verified(run) && CleanGenesis(run) && |run.events| == |inputs| + 1
            && run.version == version && run.identity == identity
  {
    if inputs == [] {
      CreateVerifies(version, identity, occurredAt);
    } else {
      var rest := inputs[..|inputs| - 1];
      BuiltRunsVerify(version, identity, occurredAt, rest);
      AppendVerifies(Build(version, identity, occurredAt, rest).run, inputs[|inputs| - 1]);
    }
  }

  /** What creation guarantees about the first event and the verifier does not check. */
  predicate CleanGenesis(run: Run) {
    && run.events != []
    && run.events[0].body.reason.None?
    && (run.identity.trigger.Scheduled? ==> run.identity.trigger.scheduledFor <= run.events[0].body.occurredAt)
  }

  function InputOf(e: Event): Transition {
    var b := e.body;
    Transition(b.previous, b.toState, b.occurredAt, b.leaseToken, b.leaseUntil, b.leaseEpoch, b.reason)
  }

  function InputsOf(events: seq<Event>): seq<Transition> {
    seq(|events|, i requires 0 <= i < |events| => InputOf(events[i]))
  }

  /** The run as it was before its last event. */
  function Before(run: Run): Run
    requires Verified(run) && |run.events| > 1
  {
    var n := |run.events| - 1;
    var c := Scan(run.version, run.identity, run.events[..n]).value;
    ScanState(run.version, run.identity, run.events[..n]);
    Run(run.version, run.identity, c.state.value, n, c.previous, c.lease, run.events[..n])
  }

  lemma ScanState(v: Version, identity: Identity, events: seq<Event>)
    requires events != [] && Scan(v, identity, events).Some?
    ensures Scan(v, identity, events).value.state.Some?
  {
  }

  lemma LeaseAcceptedStep(run: Run, c: Cursor, b: Body)
    requires c.state == Some(run.state) && c.lease == run.lease && LeaseInRange(run.lease)
    requires LeaseAccepted(run.version, c, b) && ValidInstant(b.occurredAt)
    ensures LeaseStep(run, InputOf(Event(b, Digest(b))))
         == LeaseFields(b.leaseToken, b.leaseUntil, b.leaseEpoch, LeaseAfter(run, b))
  {
  }

  /** Appending the last event's own data to the run before it gives the run back. */
  lemma AppendReplays(run: Run)
    requires Verified(run) && |run.events| > 1
    ensures Verified(Before(run))
    ensures Append(Before(run), InputOf(run.events[|run.events| - 1])) == Ok(run)
  {
    var n := |run.events| - 1;
    var before, e := Before(run), run.events[n];
    var c := Scan(run.version, run.identity, before.events).value;
    VerifiedLast(before);
    ScanLeaseInRange(run.version, run.identity, before.events);
    assert run.events == before.events + [e];
    assert Accepts(run.version, run.identity, c, e, n);
    assert Event(e.body, Digest(e.body)) == e;
    LeaseAcceptedStep(before, c, e.body);
  }

  lemma FirstEvent(run: Run)
    requires Verified(run) && |run.events| == 1 && CleanGenesis(run)
    ensures Create(run.version, run.identity, run.events[0].body.occurredAt) == Ok(run)
  {
    ScanOne(run.version, run.identity, run.events[0]);
    assert run.events == [run.events[0]];
  }

  lemma BuildLast(version: Version, identity: Identity, occurredAt: Instant, inputs: seq<Transition>, last: Transition)
    requires Build(version, identity, occurredAt, inputs).Ok?
    ensures Build(version, identity, occurredAt, inputs + [last])
         == Append(Build(version, identity, occurredAt, inputs).run, last)
  {
    assert (inputs + [last])[..|inputs|] == inputs;
  }

  lemma InputsSplit(events: seq<Event>)
    requires |events| > 1
    ensures var n := |events| - 1; InputsOf(events[1..]) == InputsOf(events[..n][1..]) + [InputOf(events[n])]
  {
  }

  lemma {:induction false} VerifiedRunsAreBuilt(run: Run)
    requires Verified(run) && CleanGenesis(run)
    ensures Build(run.version, run.identity, run.events[0].body.occurredAt, InputsOf(run.events[1..])) == Ok(run)
    decreases |run.events|
  {
    if |run.events| == 1 {
      FirstEvent(run);
    } else {
      var n := |run.events| - 1;
      AppendReplays(run);
      VerifiedRunsAreBuilt(Before(run));
      InputsSplit(run.events);
      BuildLast(run.version, run.identity, run.events[0].body.occurredAt, InputsOf(run.events[..n][1..]), InputOf(run.events[n]));
    }
  }

  /**
   The verifier is exact up to the first event: a run can be produced by creating and appending exactly when it verifies,
   its first event carries no reason, and a scheduled run does not start before its slot.
   */
  lemma VerifierIsExact(run: Run)
    ensures (exists occurredAt, inputs :: Build(run.version, run.identity, occurredAt, inputs) == Ok(run))
       <==> Verified(run) && CleanGenesis(run)
  {
    if Verified(run) && CleanGenesis(run) { VerifiedRunsAreBuilt(run); }
    forall occurredAt, inputs | Build(run.version, run.identity, occurredAt, inputs) == Ok(run)
      ensures Verified(run) && CleanGenesis(run)
    {
      BuiltRunsVerify(run.version, run.identity, occurredAt, inputs);
    }
  }

  /** The verifier alone is not enough: it accepts a first event with a reason code. */
  lemma VerifierAcceptsUncleanGenesis(identity: Identity)
    requires identity.trigger.Manual?
    ensures var body := Body(V12, identity, 1, Genesis, None, Due, 0, None, None, None, Some("x"));
            var run := Run(V12, identity, Due, 1, Digest(body), None, [Event(body, Digest(body))]);
            Verified(run) && !CleanGenesis(run)
  {
    var body := Body(V12, identity, 1, Genesis, None, Due, 0, None, None, None, Some("x"));
    ScanOne(V12, identity, Event(body, Digest(body)));
  }

  /** Nor does it look at the slot: any first event before its slot verifies. */
  lemma VerifierAcceptsEarlyStart(version: Version, identity: Identity, occurredAt: Instant)
    requires identity.trigger.Scheduled? && ValidInstant(identity.trigger.scheduledFor)
    requires ValidInstant(occurredAt) && occurredAt < identity.trigger.scheduledFor
    ensures var body := Body(version, identity, 1, Genesis, None, Due, occurredAt, None, None, None, None);
            var run := Run(version, identity, Due, 1, Digest(body), None, [Event(body, Digest(body))]);
            Verified(run) && !CleanGenesis(run) && Create(version, identity, occurredAt).Err?
  {
    var body := Body(version, identity, 1, Genesis, None, Due, occurredAt, None, None, None, None);
    ScanOne(version, identity, Event(body, Digest(body)));
  }

  /******* One hash, one history *******/

  lemma {:induction false} HashFixesHistory(a: Run, b: Run)
    requires Verified(a) && Verified(b) && a.head == b.head
    ensures a == b
    decreases |a.events|
  {
    var m, n := |a.events| - 1, |b.events| - 1;
    assert Accepts(a.version, a.identity, Scan(a.version, a.identity, a.events[..m]).value, a.events[m], m);
    assert Accepts(b.version, b.identity, Scan(b.version, b.identity, b.events[..n]).value, b.events[n], n);
    assert a.events[m] == b.events[n];
    if m == 0 {
      assert a.events == [a.events[0]] && b.events == [b.events[0]];
    } else {
      AppendReplays(a);
      AppendReplays(b);
      HashFixesHistory(Before(a), Before(b));
      assert a.events == a.events[..m] + [a.events[m]] && b.events == b.events[..n] + [b.events[n]];
    }
  }

  /******* Leases *******/

  /** The lease-granting events of a history, oldest first. */
  function GrantsOf(v: Version, events: seq<Event>): seq<Event> {
    if events == [] then []
    else
      var n := |events| - 1;
      var b := events[n].body;
      GrantsOf(v, events[..n]) + if b.fromState.Some? && Grants(v, b.fromState.value, b.toState) then [events[n]] else []
  }

  /** Grants are numbered by their epochs, and the cursor's lease is the last one. */
  predicate Numbered(c: Cursor, grants: seq<Event>) {
    && (forall k :: 0 <= k < |grants| ==> grants[k].body.leaseEpoch == Some(k + 1) && grants[k].body.leaseToken.Some?)
    && (c.lease.Some? ==>
          && c.lease.value.epoch == |grants| > 0
          && Some(c.lease.value.token) == grants[|grants| - 1].body.leaseToken)
    && (c.state.None? || c.state == Some(Due) ==> grants == [])
  }

  lemma NumberedStep(v: Version, identity: Identity, c: Cursor, e: Event, index: nat, grants: seq<Event>)
    requires Numbered(c, grants) && Accepts(v, identity, c, e, index) && (c.state == Some(Due) ==> c.lease.None?)
    ensures Numbered(Advance(v, c, e),
                     grants + if c.state.Some? && Grants(v, c.state.value, e.body.toState) then [e] else [])
  {
  }

  /** Every claim, renewal and reclaim raises the epoch by exactly one, and the current lease is the last one granted. */
  lemma {:induction false} EpochsCountGrants(v: Version, identity: Identity, events: seq<Event>)
    requires Scan(v, identity, events).Some?
    ensures Numbered(Scan(v, identity, events).value, GrantsOf(v, events))
  {
    if events != [] {
      var n := |events| - 1;
      EpochsCountGrants(v, identity, events[..n]);
      ScanLeaseInRange(v, identity, events[..n]);
      NumberedStep(v, identity, Scan(v, identity, events[..n]).value, events[n], n, GrantsOf(v, events[..n]));
    }
  }

  lemma {:induction false} GrantsGrow(v: Version, a: seq<Event>, b: seq<Event>)
    requires a <= b
    ensures GrantsOf(v, a) <= GrantsOf(v, b)
    decreases |b|
  {
    if |a| == |b| {
      assert a == b;
    } else {
      GrantsGrow(v, a, b[..|b| - 1]);
    }
  }

  /******* The store under any interleaving of workers *******/

  /** Stored runs by identity; the idempotency key and the run reference are digests of it. */
  type Store = map<Identity, Run>

  /** A request from some worker. Each is one database transaction, so any interleaving is a sequence of requests. */
  datatype Request =
    | Insert(run: Run)
    | CompareAndSet(run: Run, expectedHead: Hash)
    | Fence(identity: Identity, expectedHead: Hash, token: string, epoch: int, now: Instant)

  datatype Reply = Found(run: Run) | NotFound | Refused

  function Handle(store: Store, request: Request): (Store, Reply) {
    match request
    case Insert(run) =>
      if !Verified(run) || run.version != V12 then (store, Refused)
      else if run.identity in store then (store, Found(store[run.identity]))
      else if |run.events| != 1 || run.events[0].body.reason.Some? then (store, Refused)
      else (store[run.identity := run], Found(run))
    case CompareAndSet(run, expectedHead) =>
      if !Verified(run) || run.version != V12 || |run.events| < 2 then (store, Refused)
      else if run.identity !in store || store[run.identity].head != expectedHead then (store, NotFound)
      else if run.sequence != store[run.identity].sequence + 1
        || run.events[|run.events| - 1].body.previous != expectedHead then (store, Refused)
      else (store[run.identity := run], Found(run))
    case Fence(identity, expectedHead, token, epoch, now) =>
      if !ValidToken(token) || epoch < 1 then (store, Refused)
      else if identity in store && HoldsLease(store[identity], expectedHead, token, epoch, now)
      then (store, Found(store[identity]))
      else (store, NotFound)
  }

  /** The `where` clause of a fence. */
  predicate HoldsLease(run: Run, expectedHead: Hash, token: string, epoch: int, now: Instant) {
    run.head == expectedHead && run.lease.Some? && run.lease.value.token == token && run.lease.value.epoch == epoch
      && run.lease.value.expiresAt > now
  }

  predicate Consistent(store: Store) {
    forall id :: id in store ==> store[id].identity == id && store[id].version == V12 && Verified(store[id])
  }

  /** Every stored history is kept and may only get longer. */
  predicate Extends(before: Store, after: Store) {
    forall id :: id in before ==> id in after && before[id].events <= after[id].events
  }

  /** A successful compare-and-set adds exactly one event to the stored history, though it replaces the whole run. */
  lemma CompareAndSetAddsOneEvent(store: Store, run: Run, expectedHead: Hash)
    requires Consistent(store) && Handle(store, CompareAndSet(run, expectedHead)).1.Found?
    ensures run.identity in store && run.events[..|run.events| - 1] == store[run.identity].events
    ensures Append(store[run.identity], InputOf(run.events[|run.events| - 1])) == Ok(run)
  {
    var n := |run.events| - 1;
    AppendReplays(run);
    assert Accepts(V12, run.identity, Scan(V12, run.identity, run.events[..n]).value, run.events[n], n);
    HashFixesHistory(Before(run), store[run.identity]);
  }

  lemma PutKeeps(store: Store, run: Run)
    requires Consistent(store) && run.version == V12 && Verified(run)
    requires run.identity in store ==> store[run.identity].events <= run.events
    ensures var after := store[run.identity := run]; Consistent(after) && Extends(store, after)
  {
  }

  lemma InsertKeeps(store: Store, run: Run)
    requires Consistent(store)
    ensures var after := Handle(store, Insert(run)).0; Consistent(after) && Extends(store, after)
  {
    if Handle(store, Insert(run)).0 != store { PutKeeps(store, run); }
  }

  lemma CompareAndSetKeeps(store: Store, run: Run, expectedHead: Hash)
    requires Consistent(store)
    ensures var after := Handle(store, CompareAndSet(run, expectedHead)).0; Consistent(after) && Extends(store, after)
  {
    if Handle(store, CompareAndSet(run, expectedHead)).1.Found? {
      CompareAndSetAddsOneEvent(store, run, expectedHead);
      PutKeeps(store, run);
    }
  }

  lemma HandleKeeps(store: Store, request: Request)
    requires Consistent(store)
    ensures var after := Handle(store, request).0; Consistent(after) && Extends(store, after)
  {
    match request
    case Insert(run) => InsertKeeps(store, run);
    case CompareAndSet(run, expectedHead) => CompareAndSetKeeps(store, run, expectedHead);
    case Fence(_, _, _, _, _) =>
  }

  lemma {:induction false} HandleAllKeeps(store: Store, requests: seq<Request>)
    requires Consistent(store)
    ensures var after := RunAll(Handle, store, requests).0; Consistent(after) && Extends(store, after)
    decreases |requests|
  {
    if requests != [] {
      var after := Handle(store, requests[0]).0;
      HandleKeeps(store, requests[0]);
      HandleAllKeeps(after, requests[1..]);
      var last := RunAll(Handle, after, requests[1..]).0;
      forall id | id in store ensures id in last && store[id].events <= last[id].events {
        assert id in after;
      }
    }
  }

  /** A head that has been superseded: it is the hash of an event that some stored history has moved past. */
  predicate Superseded(store: Store, head: Hash) {
    exists id, k :: id in store && 0 <= k < |store[id].events| - 1 && store[id].events[k].hash == head
  }

  predicate Wins(request: Request, reply: Reply, head: Hash) {
    request.CompareAndSet? && request.expectedHead == head && reply.Found?
  }

  function Winners(requests: seq<Request>, replies: seq<Reply>, head: Hash): nat
    requires |requests| == |replies|
  {
    if requests == [] then 0
    else (if Wins(requests[0], replies[0], head) then 1 else 0) + Winners(requests[1..], replies[1..], head)
  }

  lemma {:induction false} EventPositions(v: Version, identity: Identity, events: seq<Event>)
    requires Scan(v, identity, events).Some?
    ensures forall k :: 0 <= k < |events| ==>
              events[k].hash == Digest(events[k].body) && events[k].body.sequence == k + 1 && events[k].body.run == identity
  {
    if events != [] { EventPositions(v, identity, events[..|events| - 1]); }
  }

  lemma VerifiedHead(run: Run)
    requires Verified(run)
    ensures run.head == run.events[|run.events| - 1].hash
  {
  }

  lemma SupersededNeverWins(store: Store, request: Request, head: Hash)
    requires Consistent(store) && Superseded(store, head)
    ensures !Wins(request, Handle(store, request).1, head)
  {
    var id, k :| id in store && 0 <= k < |store[id].events| - 1 && store[id].events[k].hash == head;
    EventPositions(V12, id, store[id].events);
    if request.CompareAndSet? && request.run.identity in store && store[request.run.identity].head == head {
      var other := store[request.run.identity];
      VerifiedHead(other);
      EventPositions(V12, request.run.identity, other.events);
    }
  }

  lemma SupersededStays(before: Store, after: Store, head: Hash)
    requires Extends(before, after) && Superseded(before, head)
    ensures Superseded(after, head)
  {
    var id, k :| id in before && 0 <= k < |before[id].events| - 1 && before[id].events[k].hash == head;
    assert after[id].events[k] == before[id].events[k];
  }

  lemma WinnerSupersedes(store: Store, request: Request, head: Hash)
    requires Consistent(store) && Wins(request, Handle(store, request).1, head)
    ensures Superseded(Handle(store, request).0, head)
  {
    CompareAndSetAddsOneEvent(store, request.run, head);
    var earlier, after := store[request.run.identity], Handle(store, request).0;
    VerifiedHead(earlier);
    assert after[request.run.identity].events[|earlier.events| - 1].hash == head;
  }

  /** Of all the candidates that any workers ever submit on one head, at most one wins. */
  lemma {:induction false} AtMostOneWinner(store: Store, requests: seq<Request>, head: Hash)
    requires Consistent(store)
    ensures var replies := RunAll(Handle, store, requests).1;
            Winners(requests, replies, head) <= if Superseded(store, head) then 0 else 1
    decreases |requests|
  {
    if requests != [] {
      var (after, reply) := Handle(store, requests[0]);
      HandleKeeps(store, requests[0]);
      AtMostOneWinner(after, requests[1..], head);
      assert RunAll(Handle, store, requests).1[1..] == RunAll(Handle, after, requests[1..]).1;
      if Superseded(store, head) {
        SupersededNeverWins(store, requests[0], head);
        SupersededStays(store, after, head);
      } else if Wins(requests[0], reply, head) {
        WinnerSupersedes(store, requests[0], head);
      }
    }
  }

  /******* Fencing *******/

  predicate FenceFor(request: Request, id: Identity, token: string, epoch: int) {
    request.Fence? && request.identity == id && request.token == token && request.epoch == epoch
  }

  /** Some worker's fence with this token and epoch would succeed now. */
  ghost predicate Fenced(store: Store, id: Identity, token: string, epoch: int) {
    exists request: Request :: FenceFor(request, id, token, epoch) && Handle(store, request).1.Found?
  }

  lemma FencedExactly(store: Store, id: Identity, token: string, epoch: int)
    requires Consistent(store) && id in store
    ensures Fenced(store, id, token, epoch)
       <==> store[id].lease.Some? && store[id].lease.value.token == token && store[id].lease.value.epoch == epoch
  {
    var run := store[id];
    ScanLeaseInRange(V12, id, run.events);
    if run.lease.Some? && run.lease.value.token == token && run.lease.value.epoch == epoch {
      var request := Fence(id, run.head, token, epoch, run.lease.value.expiresAt - 1);
      assert FenceFor(request, id, token, epoch) && Handle(store, request).1.Found?;
    }
  }

  /** The last of these grants was to this token, with this epoch. */
  predicate LastGranted(grants: seq<Event>, token: string, epoch: int) {
    |grants| > 0 && epoch == |grants| && grants[|grants| - 1].body.leaseToken == Some(token)
  }

  /** A fence can succeed exactly for the token and epoch of the last lease granted, while the run is not finished. */
  lemma FenceIsForTheLastGrant(store: Store, id: Identity, token: string, epoch: int)
    requires Consistent(store) && id in store
    ensures Fenced(store, id, token, epoch)
       <==> store[id].lease.Some? && LastGranted(GrantsOf(V12, store[id].events), token, epoch)
  {
    FencedExactly(store, id, token, epoch);
    EpochsCountGrants(V12, id, store[id].events);
  }

  /** Whatever the workers request, the grants of a run are kept and may only be added to. */
  lemma GrantsKept(store: Store, requests: seq<Request>, id: Identity)
    requires Consistent(store) && id in store
    ensures var after := RunAll(Handle, store, requests).0;
            Consistent(after) && id in after && GrantsOf(V12, store[id].events) <= GrantsOf(V12, after[id].events)
  {
    HandleAllKeeps(store, requests);
    GrantsGrow(V12, store[id].events, RunAll(Handle, store, requests).0[id].events);
  }

  lemma GrantPrefix(earlier: seq<Event>, later: seq<Event>, a: string, b: string, epoch: int, laterEpoch: int)
    requires earlier <= later && LastGranted(earlier, a, epoch) && LastGranted(later, b, laterEpoch)
    ensures epoch <= laterEpoch && (epoch == laterEpoch ==> a == b)
  {
  }

  /** Whatever happens between two successful fences of one epoch, they were by the same token. */
  lemma OneHolderPerEpoch(store: Store, requests: seq<Request>, id: Identity, a: string, b: string, epoch: int)
    requires Consistent(store) && id in store && Fenced(store, id, a, epoch)
    requires Fenced(RunAll(Handle, store, requests).0, id, b, epoch)
    ensures a == b
  {
    GrantsKept(store, requests, id);
    FenceIsForTheLastGrant(store, id, a, epoch);
    FenceIsForTheLastGrant(RunAll(Handle, store, requests).0, id, b, epoch);
    var earlier, later := GrantsOf(V12, store[id].events), GrantsOf(V12, RunAll(Handle, store, requests).0[id].events);
    GrantPrefix(earlier, later, a, b, epoch, epoch);
  }

  /** Once a further lease has been granted, no token fences with an earlier epoch again. */
  lemma EarlierEpochNeverFences(store: Store, requests: seq<Request>, id: Identity, token: string, epoch: int)
    requires Consistent(store) && id in store && epoch < |GrantsOf(V12, store[id].events)|
    ensures !Fenced(RunAll(Handle, store, requests).0, id, token, epoch)
  {
    GrantsKept(store, requests, id);
    FenceIsForTheLastGrant(RunAll(Handle, store, requests).0, id, token, epoch);
  }

  /**
   After another token has taken the run over, an earlier token fences again only once it is granted a lease of its own
   again: the grants have grown and the last of them is to that token.
   */
  lemma EarlierTokenNeedsANewGrant(
    store: Store, requests: seq<Request>, id: Identity, token: string, other: string, otherEpoch: int, epoch: int)
    requires Consistent(store) && id in store && token != other
    requires LastGranted(GrantsOf(V12, store[id].events), other, otherEpoch)
    requires Fenced(RunAll(Handle, store, requests).0, id, token, epoch)
    ensures otherEpoch < epoch && LastGranted(GrantsOf(V12, RunAll(Handle, store, requests).0[id].events), token, epoch)
  {
    GrantsKept(store, requests, id);
    FenceIsForTheLastGrant(RunAll(Handle, store, requests).0, id, token, epoch);
    var earlier, later := GrantsOf(V12, store[id].events), GrantsOf(V12, RunAll(Handle, store, requests).0[id].events);
    GrantPrefix(earlier, later, other, token, otherEpoch, epoch);
  }

  /** A takeover of a run in the state it is in. */
  function Takeover(run: Run, token: string, at: Instant, until: Instant): Transition {
    Transition(run.head, run.state, at, Some(token), Some(until), None, None)
  }

  lemma TakeoverSucceeds(run: Run, token: string, at: Instant, until: Instant)
    requires Verified(run) && run.lease.Some? && Grants(run.version, run.state, run.state) && run.state != Due
    requires ValidToken(token) && token != run.lease.value.token && run.lease.value.epoch < MAX_SAFE_INTEGER
    requires ValidInstant(at) && ValidInstant(until) && run.lease.value.expiresAt <= at < until
    requires run.events[|run.events| - 1].body.occurredAt <= at
    ensures Append(run, Takeover(run, token, at, until)).Ok?
    ensures var next := Append(run, Takeover(run, token, at, until)).run;
            && next.lease == Some(Lease(token, until, run.lease.value.epoch + 1))
            && next.state == run.state && next.version == run.version && next.identity == run.identity
            && next.events == run.events + [next.events[|run.events|]]
            && next.events[|run.events|].body.occurredAt == at
  {
  }

  /** An earlier token is not barred: when the token that took over expires too, the earlier one can take the run back. */
  lemma EarlierTokenCanReturn(run: Run, other: string, at: Instant, until: Instant, backAt: Instant, backUntil: Instant)
    requires Verified(run) && run.lease.Some? && Grants(run.version, run.state, run.state) && run.state != Due
    requires ValidToken(other) && other != run.lease.value.token && run.lease.value.epoch + 1 < MAX_SAFE_INTEGER
    requires ValidInstant(at) && ValidInstant(until) && run.lease.value.expiresAt <= at < until
    requires run.events[|run.events| - 1].body.occurredAt <= at
    requires ValidInstant(backAt) && ValidInstant(backUntil) && until <= backAt < backUntil
    ensures Append(run, Takeover(run, other, at, until)).Ok?
    ensures var taken := Append(run, Takeover(run, other, at, until)).run;
            var back := Append(taken, Takeover(taken, run.lease.value.token, backAt, backUntil));
            back.Ok? && back.run.lease == Some(Lease(run.lease.value.token, backUntil, run.lease.value.epoch + 2))
  {
    ScanLeaseInRange(run.version, run.identity, run.events);
    TakeoverSucceeds(run, other, at, until);
    AppendVerifies(run, Takeover(run, other, at, until));
    var taken := Append(run, Takeover(run, other, at, until)).run;
    TakeoverSucceeds(taken, run.lease.value.token, backAt, backUntil);
  }
}
