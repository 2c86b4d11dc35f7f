/**
 Guide runs: an event chain with a lease, appended by workers and checked by a verifier that replays the chain.
 The digest of an event is taken to be injective, so a hash is modelled by the body it was computed from.
 */
module GuideRuns {
  import opened Options

  datatype RunState =
    | Due | Claimed | ScopeFrozen | Analyzing | Recorded
    | Held | Staged | NoAction | Completed | Failed | Missed

  /** v1.1 runs allow a lease to be renewed in two states, v1.2 runs in every working state. */
  datatype Version = V11 | V12

  /** Milliseconds since the epoch; stored instants lie in the years 100 to 9998. */
  type Instant = int
  const EARLIEST: Instant := -59011459200000
  const LATEST: Instant := 253370764799999
  const MAX_SAFE_INTEGER := 9007199254740991

  predicate ValidInstant(t: Instant) { EARLIEST <= t <= LATEST }

  predicate IsHex(c: char) { '0' <= c <= '9' || 'a' <= c <= 'f' }

  /** A lower-case UUID. */
  predicate ValidToken(t: string) {
    && |t| == 36
    && (forall i :: 0 <= i < 36 ==> if i == 8 || i == 13 || i == 18 || i == 23 then t[i] == '-' else IsHex(t[i]))
    && '1' <= t[14] <= '8'
    && (t[19] == '8' || t[19] == '9' || t[19] == 'a' || t[19] == 'b')
  }

  predicate CodeChar(c: char) { 'a' <= c <= 'z' || '0' <= c <= '9' }

  predicate ValidReason(s: string) {
    && 1 <= |s| <= 128 && CodeChar(s[0])
    && forall i :: 0 < i < |s| ==> CodeChar(s[i]) || s[i] == '_' || s[i] == ':' || s[i] == '-'
  }

  datatype Trigger = Scheduled(scheduledFor: Instant) | Manual(requestRef: string)

  /** What a run is about. Its reference and idempotency key are digests of this. */
  datatype Identity = Identity(workspaceRef: string, guideRef: string, guideRevisionHash: string, trigger: Trigger)

  datatype Lease = Lease(token: string, expiresAt: Instant, epoch: int)

  datatype Body = Body(
    version: Version,
    run: Identity,
    sequence: nat,
    previous: Hash,
    fromState: Option<RunState>,
    toState: RunState,
    occurredAt: Instant,
    leaseToken: Option<string>,
    leaseUntil: Option<Instant>,
    leaseEpoch: Option<int>,
    reason: Option<string>)

  datatype Hash = Genesis | Digest(body: Body)

  datatype Event = Event(body: Body, hash: Hash)

  datatype Run = Run(
    version: Version,
    identity: Identity,
    state: RunState,
    sequence: nat,
    head: Hash,
    lease: Option<Lease>,
    events: seq<Event>)

  datatype Error = InvalidInput | InvalidTransition | HeadConflict | LeaseRequired | LeaseExpired | InvalidChain

  datatype Result = Ok(run: Run) | Err(error: Error)

  datatype Transition = Transition(
    expectedHead: Hash,
    toState: RunState,
    occurredAt: Instant,
    leaseToken: Option<string>,
    leaseUntil: Option<Instant>,
    leaseEpoch: Option<int>,
    reason: Option<string>)

  function Next(s: RunState): set<RunState> {
    match s
    case Due => {Claimed, Missed, Failed}
    case Claimed => {Claimed, ScopeFrozen, Failed}
    case ScopeFrozen => {ScopeFrozen, Analyzing, Failed}
    case Analyzing => {Analyzing, Recorded, Failed}
    case Recorded => {Held, Staged, NoAction, Failed}
    case Held => {Completed, Failed}
    case Staged => {Completed, Failed}
    case NoAction => {Completed, Failed}
    case _ => {}
  }

  function SelfLeaseStates(v: Version): set<RunState> {
    match v
    case V11 => {ScopeFrozen, Analyzing}
    case V12 => {ScopeFrozen, Analyzing, Recorded, Held, Staged, NoAction}
  }

  predicate Terminal(s: RunState) { s in {Completed, Failed, Missed} }

  predicate Allowed(v: Version, from: RunState, to: RunState) {
    to in Next(from) || (to == from && from in SelfLeaseStates(v))
  }

  /** A claim, a renewal or a reclaim: the transitions that hand out a lease. */
  predicate Grants(v: Version, from: RunState, to: RunState) {
    to == Claimed || (to == from && from in SelfLeaseStates(v))
  }

  /******* Creating and appending *******/

  function Create(version: Version, identity: Identity, occurredAt: Instant): Result {
    if !ValidInstant(occurredAt) then Err(InvalidInput)
    else if identity.trigger.Scheduled? && !ValidInstant(identity.trigger.scheduledFor) then Err(InvalidInput)
    else if identity.trigger.Scheduled? && occurredAt < identity.trigger.scheduledFor then Err(InvalidInput)
    else
      var body := Body(version, identity, 1, Genesis, None, Due, occurredAt, None, None, None, None);
      Ok(Run(version, identity, Due, 1, Digest(body), None, [Event(body, Digest(body))]))
  }

  /** The lease fields of the event that a transition records, and the lease afterwards. */
  datatype LeaseOutcome =
    | LeaseError(error: Error)
    | LeaseFields(token: Option<string>, until: Option<Instant>, epoch: Option<int>, lease: Option<Lease>)

  function Claim(run: Run, input: Transition): LeaseOutcome {
    if input.leaseUntil.None? then LeaseError(LeaseRequired)
    else if input.leaseToken.None? || !ValidToken(input.leaseToken.value) then LeaseError(LeaseRequired)
    else if !ValidInstant(input.leaseUntil.value) then LeaseError(InvalidInput)
    else if input.leaseUntil.value <= input.occurredAt then LeaseError(LeaseExpired)
    else
      var token, until := input.leaseToken.value, input.leaseUntil.value;
      if run.state == Due then
        if input.leaseEpoch.Some? && input.leaseEpoch.value != 1 then LeaseError(LeaseRequired)
        else LeaseFields(Some(token), Some(until), Some(1), Some(Lease(token, until, 1)))
      else if run.lease.None? then LeaseError(LeaseRequired)
      else
        var lease := run.lease.value;
        var expired := input.occurredAt >= lease.expiresAt;
        if (if expired then token == lease.token else token != lease.token) then LeaseError(LeaseRequired)
        else if !expired && until <= lease.expiresAt then LeaseError(LeaseRequired)
        else if lease.epoch == MAX_SAFE_INTEGER then LeaseError(LeaseRequired)
        else if input.leaseEpoch.Some? && input.leaseEpoch.value != lease.epoch + 1 then LeaseError(LeaseRequired)
        else LeaseFields(Some(token), Some(until), Some(lease.epoch + 1), Some(Lease(token, until, lease.epoch + 1)))
  }

  function Renew(run: Run, input: Transition): LeaseOutcome {
    if run.lease.None? || input.leaseUntil.None? then LeaseError(LeaseRequired)
    else if input.leaseToken.None? || !ValidToken(input.leaseToken.value) then LeaseError(LeaseRequired)
    else if !ValidInstant(input.leaseUntil.value) then LeaseError(InvalidInput)
    else
      var token, until, lease := input.leaseToken.value, input.leaseUntil.value, run.lease.value;
      var expired := input.occurredAt >= lease.expiresAt;
      if (if expired then token == lease.token else token != lease.token) then LeaseError(LeaseRequired)
      else if until <= input.occurredAt || (!expired && until <= lease.expiresAt) then LeaseError(LeaseExpired)
      else if lease.epoch == MAX_SAFE_INTEGER then LeaseError(LeaseRequired)
      else if input.leaseEpoch.Some? && input.leaseEpoch.value != lease.epoch + 1 then LeaseError(LeaseRequired)
      else LeaseFields(Some(token), Some(until), Some(lease.epoch + 1), Some(Lease(token, until, lease.epoch + 1)))
  }

  /** An ordinary step under a lease: the holder's token, before the lease expires. */
  function Proceed(run: Run, input: Transition): LeaseOutcome {
    if run.lease.None? || input.leaseToken.None? || !ValidToken(input.leaseToken.value)
      || input.leaseToken.value != run.lease.value.token then LeaseError(LeaseRequired)
    else
      var lease := run.lease.value;
      if input.occurredAt >= lease.expiresAt then LeaseError(LeaseExpired)
      else if input.leaseUntil.Some? && !ValidInstant(input.leaseUntil.value) then LeaseError(InvalidInput)
      else if input.leaseUntil.Some? && input.leaseUntil.value != lease.expiresAt then LeaseError(LeaseRequired)
      else if input.leaseEpoch.Some? && input.leaseEpoch.value != lease.epoch then LeaseError(LeaseRequired)
      else LeaseFields(Some(lease.token), Some(lease.expiresAt), Some(lease.epoch), run.lease)
  }

  function LeaseStep(run: Run, input: Transition): LeaseOutcome {
    if input.toState == Claimed then Claim(run, input)
    else if input.toState == run.state && run.state in SelfLeaseStates(run.version) then Renew(run, input)
    else if run.state != Due then Proceed(run, input)
    else if input.leaseToken.Some? || input.leaseUntil.Some? || input.leaseEpoch.Some? then LeaseError(LeaseRequired)
    else LeaseFields(None, None, None, run.lease)
  }

  function Append(run: Run, input: Transition): Result {
    if !Verified(run) then Err(InvalidChain)
    else if input.expectedHead != run.head then Err(HeadConflict)
    else if !Allowed(run.version, run.state, input.toState) then Err(InvalidTransition)
    else if !ValidInstant(input.occurredAt) then Err(InvalidInput)
    else if input.occurredAt < run.events[|run.events| - 1].body.occurredAt then Err(InvalidTransition)
    else
      match LeaseStep(run, input)
      case LeaseError(error) => Err(error)
      case LeaseFields(token, until, epoch, lease) =>
        if input.reason.Some? && !ValidReason(input.reason.value) then Err(InvalidInput)
        else
          var body := Body(run.version, run.identity, run.sequence + 1, run.head, Some(run.state), input.toState,
                           input.occurredAt, token, until, epoch, input.reason);
          Ok(run.(state := input.toState, sequence := run.sequence + 1, head := Digest(body),
                  lease := if Terminal(input.toState) then None else lease,
                  events := run.events + [Event(body, Digest(body))]))
  }

  /******* Verifying *******/

  /** What the verifier carries from event to event. */
  datatype Cursor = Cursor(state: Option<RunState>, previous: Hash, lease: Option<Lease>, at: Option<Instant>)

  const START := Cursor(None, Genesis, None, None)

  predicate GrantFields(b: Body) {
    && b.leaseToken.Some? && ValidToken(b.leaseToken.value)
    && b.leaseUntil.Some? && ValidInstant(b.leaseUntil.value)
    && b.leaseEpoch.Some? && 1 <= b.leaseEpoch.value <= MAX_SAFE_INTEGER
    && b.leaseUntil.value > b.occurredAt
  }

  /** A renewal keeps the token and extends a live lease; a reclaim changes the token of an expired one. */
  predicate Succeeds(b: Body, lease: Lease)
    requires GrantFields(b)
  {
    && b.leaseEpoch.value == lease.epoch + 1
    && !(b.occurredAt >= lease.expiresAt && b.leaseToken.value == lease.token)
    && !(b.occurredAt < lease.expiresAt && b.leaseToken.value != lease.token)
    && !(b.occurredAt < lease.expiresAt && b.leaseUntil.value <= lease.expiresAt)
  }

  predicate LeaseAccepted(v: Version, c: Cursor, b: Body)
    requires c.state.Some?
  {
    var from := c.state.value;
    if b.toState == Claimed then
      GrantFields(b) && (if from == Due then b.leaseEpoch.value == 1 else c.lease.Some? && Succeeds(b, c.lease.value))
    else if b.toState == from && from in SelfLeaseStates(v) then
      c.lease.Some? && GrantFields(b) && Succeeds(b, c.lease.value)
    else if from != Due then
      && c.lease.Some? && b.leaseToken == Some(c.lease.value.token) && b.leaseUntil == Some(c.lease.value.expiresAt)
      && b.leaseEpoch == Some(c.lease.value.epoch) && b.occurredAt < c.lease.value.expiresAt
    else
      b.leaseToken.None? && b.leaseUntil.None? && b.leaseEpoch.None?
  }

  predicate Accepts(v: Version, identity: Identity, c: Cursor, e: Event, index: nat) {
    var b := e.body;
    && ValidInstant(b.occurredAt) && (c.at.Some? ==> c.at.value <= b.occurredAt)
    && (b.reason.Some? ==> ValidReason(b.reason.value))
    && b.run == identity && b.version == v && b.sequence == index + 1 && b.previous == c.previous && b.fromState == c.state
    && e.hash == Digest(b)
    && if c.state.None? then b.toState == Due && b.leaseToken.None? && b.leaseUntil.None? && b.leaseEpoch.None?
       else Allowed(v, c.state.value, b.toState) && LeaseAccepted(v, c, b)
  }

  function Advance(v: Version, c: Cursor, e: Event): Cursor {
    var b := e.body;
    var lease :=
      if Terminal(b.toState) then None
      else if c.state.Some? && Grants(v, c.state.value, b.toState) && GrantFields(b)
      then Some(Lease(b.leaseToken.value, b.leaseUntil.value, b.leaseEpoch.value))
      else c.lease;
    Cursor(Some(b.toState), e.hash, lease, Some(b.occurredAt))
  }

  /** The verifier's cursor after these events, if it accepts them all. */
  function Scan(v: Version, identity: Identity, events: seq<Event>): Option<Cursor> {
    if events == [] then Some(START)
    else
      var n := |events| - 1;
      var c := Scan(v, identity, events[..n]);
      if c.None? || !Accepts(v, identity, c.value, events[n], n) then None
      else Some(Advance(v, c.value, events[n]))
  }

  predicate Verified(run: Run)
    ensures Verified(run) ==> |run.events| == run.sequence > 0
  {
    && (run.identity.trigger.Scheduled? ==> ValidInstant(run.identity.trigger.scheduledFor))
    && |run.events| == run.sequence
    && var c := Scan(run.version, run.identity, run.events);
       c.Some? && c.value.state == Some(run.state) && c.value.previous == run.head && c.value.lease == run.lease
  }

  /** The verifier as written: one pass over the events. */
  method Verify(run: Run) returns (ok: bool)
    ensures ok == Verified(run)
  {
    if |run.events| != run.sequence { return false; }
    if run.identity.trigger.Scheduled? && !ValidInstant(run.identity.trigger.scheduledFor) { return false; }
    var state: Option<RunState>, previous, lease: Option<Lease>, at: Option<Instant> := None, Genesis, None, None;
    var index := 0;
    while index < |run.events|
      invariant index <= |run.events|
      invariant Scan(run.version, run.identity, run.events[..index]) == Some(Cursor(state, previous, lease, at))
    {
      var e := run.events[index];
      assert run.events[..index + 1][..index] == run.events[..index];
      if !Accepts(run.version, run.identity, Cursor(state, previous, lease, at), e, index) {
        RejectedPrefix(run.version, run.identity, run.events, index + 1);
        return false;
      }
      if state.Some? && (e.body.toState == Claimed || (e.body.toState == state.value && state.value in SelfLeaseStates(run.version))) {
        lease := Some(Lease(e.body.leaseToken.value, e.body.leaseUntil.value, e.body.leaseEpoch.value));
      }
      state, previous, at := Some(e.body.toState), e.hash, Some(e.body.occurredAt);
      if Terminal(e.body.toState) { lease := None; }
      index := index + 1;
    }
    assert run.events[..index] == run.events;
    return state == Some(run.state) && previous == run.head && lease == run.lease;
  }

  lemma {:induction false} RejectedPrefix(v: Version, identity: Identity, events: seq<Event>, n: nat)
    requires n <= |events| && Scan(v, identity, events[..n]).None?
    ensures Scan(v, identity, events).None?
    decreases |events|
  {
    if n < |events| {
      var m := |events| - 1;
      assert events[..m][..n] == events[..n];
      RejectedPrefix(v, identity, events[..m], n);
    } else {
      assert events[..n] == events;
    }
  }
}
