/** The rules of a guide run, told without the builder's tables: its path, its lease after each step, and how it ends. */
module GuideRunRules {
  import opened Options
  import opened GuideRuns
  import opened GuideRunTheorems
  import opened Histories

  /******* Formats *******/

  /** All characters are among these. */
  predicate Among(s: string, characters: string) { forall i :: 0 <= i < |s| ==> s[i] in characters }

  const HEX := "0123456789abcdef"
  const LETTERS := "abcdefghijklmnopqrstuvwxyz"
  const DIGITS := "0123456789"

  lemma HexExactly(c: char)
    ensures IsHex(c) <==> c in HEX
  {
    if IsHex(c) {
      var i := if c <= '9' then c as int - '0' as int else c as int - 'a' as int + 10;
      assert HEX[i] == c;
    }
  }

  lemma LetterExactly(c: char)
    ensures 'a' <= c <= 'z' <==> c in LETTERS
  {
    if 'a' <= c <= 'z' { assert LETTERS[c as int - 'a' as int] == c; }
  }

  lemma DigitExactly(c: char)
    ensures '0' <= c <= '9' <==> c in DIGITS
  {
    if '0' <= c <= '9' { assert DIGITS[c as int - '0' as int] == c; }
  }

  /** The parts of a UUID between its hyphens, one after the other. */
  function Digits(t: string): string
    requires |t| == 36
  {
    t[..8] + t[9..13] + t[14..18] + t[19..23] + t[24..]
  }

  /** A token is a lower-case UUID: groups of 8, 4, 4, 4 and 12 digits between hyphens, of version 1 to 8 and this variant. */
  lemma TokenExactly(t: string)
    ensures ValidToken(t)
       <==> && |t| == 36 && t[8] == t[13] == t[18] == t[23] == '-' && Among(Digits(t), HEX)
            && t[14] in "12345678" && t[19] in "89ab"
  {
    forall c ensures IsHex(c) <==> c in HEX { HexExactly(c); }
    if |t| == 36 {
      var d := Digits(t);
      assert d[..8] == t[..8] && d[8..12] == t[9..13] && d[12..16] == t[14..18];
      assert d[16..20] == t[19..23] && d[20..] == t[24..];
      forall i | 0 <= i < 36 && i != 8 && i != 13 && i != 18 && i != 23 ensures t[i] in d {
        var k := if i < 8 then i else if i < 13 then i - 1 else if i < 18 then i - 2 else if i < 23 then i - 3 else i - 4;
        assert d[k] == t[i];
      }
    }
  }

  /** A reason is 1 to 128 letters, digits, underscores, colons and hyphens, and starts with a letter or digit. */
  lemma ReasonExactly(s: string)
    ensures ValidReason(s)
       <==> && 1 <= |s| <= 128 && (s[0] in LETTERS || s[0] in DIGITS)
            && forall i :: 0 <= i < |s| ==> s[i] in LETTERS || s[i] in DIGITS || s[i] == '_' || s[i] == ':' || s[i] == '-'
  {
    forall c: char ensures CodeChar(c) <==> c in LETTERS || c in DIGITS {
      LetterExactly(c);
      DigitExactly(c);
    }
  }

  /** Days before the first of January of a year of the Gregorian calendar. */
  function DaysBefore(year: int): int { 365 * (year - 1) + (year - 1) / 4 - (year - 1) / 100 + (year - 1) / 400 }

  /** Milliseconds between the start of 1970 and that of another year. */
  function StartOf(year: int): int { (DaysBefore(year) - DaysBefore(1970)) * 24 * 60 * 60 * 1000 }

  /** An instant can be stored exactly if it lies in one of the years 100 to 9998. */
  lemma InstantExactly(t: Instant)
    ensures ValidInstant(t) <==> StartOf(100) <= t < StartOf(9999)
  {
  }

  /******* The path *******/

  /** How far along the main path a state is; 8 is off the path, with a gap before it. */
  function Stage(s: RunState): nat {
    match s
    case Due => 0
    case Claimed => 1
    case ScopeFrozen => 2
    case Analyzing => 3
    case Recorded => 4
    case Held => 5
    case Staged => 5
    case NoAction => 5
    case Completed => 6
    case _ => 8
  }

  predicate Working(s: RunState) { 1 <= Stage(s) <= 5 }

  /**
   One stage further; a renewal in place, after the analysis only in v1.2; failing, from any state that has not ended; and
   missing a run that is due.
   */
  predicate MayStep(v: Version, a: RunState, b: RunState) {
    || Stage(b) == Stage(a) + 1
    || (a == b && Working(a) && (v == V12 || Stage(a) <= 3))
    || (b == Failed && (a == Due || Working(a)))
    || (a == Due && b == Missed)
  }

  lemma AllowedExactly(v: Version, a: RunState, b: RunState)
    ensures Allowed(v, a, b) <==> MayStep(v, a, b)
  {
  }

  /** A lease is held exactly while the run is being worked on. */
  lemma {:induction false} LeaseWhileWorking(v: Version, identity: Identity, events: seq<Event>)
    requires Scan(v, identity, events).Some?
    ensures var c := Scan(v, identity, events).value; c.lease.Some? <==> c.state.Some? && Working(c.state.value)
  {
    if events != [] {
      var n := |events| - 1;
      LeaseWhileWorking(v, identity, events[..n]);
      var c := Scan(v, identity, events[..n]).value;
      if c.state.Some? { AllowedExactly(v, c.state.value, events[n].body.toState); }
    }
  }

  lemma {:induction false} ScanFollowsPath(v: Version, identity: Identity, events: seq<Event>)
    requires Scan(v, identity, events).Some? && events != []
    ensures events[0].body.toState == Due && Scan(v, identity, events).value.state == Some(events[|events| - 1].body.toState)
    ensures forall i :: 0 < i < |events| ==> MayStep(v, events[i - 1].body.toState, events[i].body.toState)
  {
    var n := |events| - 1;
    if n > 0 {
      ScanFollowsPath(v, identity, events[..n]);
      AllowedExactly(v, events[n - 1].body.toState, events[n].body.toState);
      assert forall i :: 0 <= i < n ==> events[..n][i] == events[i];
    }
  }

  /** A verified history starts as due, makes only steps of the path, and ends in the run's state. */
  lemma HistoryFollowsPath(run: Run)
    requires Verified(run)
    ensures run.events[0].body.toState == Due && run.events[|run.events| - 1].body.toState == run.state
    ensures forall i :: 0 < i < |run.events| ==>
              MayStep(run.version, run.events[i - 1].body.toState, run.events[i].body.toState)
  {
    ScanFollowsPath(run.version, run.identity, run.events);
  }

  predicate WasAtStage(events: seq<Event>, stage: nat) {
    exists i :: 0 <= i < |events| && Stage(events[i].body.toState) == stage
  }

  lemma {:induction false} StagesPassed(v: Version, events: seq<Event>, stage: nat)
    requires events != [] && events[0].body.toState == Due
    requires forall i :: 0 < i < |events| ==> MayStep(v, events[i - 1].body.toState, events[i].body.toState)
    requires stage <= Stage(events[|events| - 1].body.toState) <= 6
    ensures WasAtStage(events, stage)
    decreases |events|
  {
    var n := |events| - 1;
    if stage == Stage(events[n].body.toState) {
      assert WasAtStage(events, stage);
    } else {
      StagesPassed(v, events[..n], stage);
      var i :| 0 <= i < n && Stage(events[..n][i].body.toState) == stage;
      assert Stage(events[i].body.toState) == stage;
    }
  }

  /** A completed run has been due, claimed, frozen, analysed, recorded, and held, staged or without action. */
  lemma CompletedPassedEveryStage(run: Run, stage: nat)
    requires Verified(run) && run.state == Completed && stage <= 6
    ensures WasAtStage(run.events, stage)
  {
    HistoryFollowsPath(run);
    StagesPassed(run.version, run.events, stage);
  }

  /******* The lease after a step *******/

  /** A claim, a renewal or a reclaim. */
  predicate AsksForLease(run: Run, input: Transition) { input.toState == Claimed || input.toState == run.state }

  function NextEpoch(lease: Option<Lease>): int { if lease.Some? then lease.value.epoch + 1 else 1 }

  lemma LeaseStepTold(run: Run, input: Transition)
    requires LeaseStep(run, input).LeaseFields? && MayStep(run.version, run.state, input.toState)
    requires run.lease.Some? <==> Working(run.state)
    ensures if AsksForLease(run, input) then
              && input.leaseToken.Some? && input.leaseUntil.Some?
              && LeaseStep(run, input).lease
                 == Some(Lease(input.leaseToken.value, input.leaseUntil.value, NextEpoch(run.lease)))
            else LeaseStep(run, input).lease == run.lease
  {
    AllowedExactly(run.version, run.state, input.toState);
  }

  /**
   An ended run has no lease. A claim, renewal or reclaim leaves exactly the lease that was asked for, with the next epoch.
   Any other step leaves the lease as it is.
   */
  lemma LeaseAfterStep(run: Run, input: Transition)
    requires Append(run, input).Ok?
    ensures var next := Append(run, input).run;
            if input.toState == Completed || input.toState == Failed || input.toState == Missed then next.lease == None
            else if AsksForLease(run, input) then
              && input.leaseToken.Some? && input.leaseUntil.Some?
              && next.lease == Some(Lease(input.leaseToken.value, input.leaseUntil.value, NextEpoch(run.lease)))
            else run.lease.Some? && next.lease == run.lease
  {
    AllowedExactly(run.version, run.state, input.toState);
    LeaseWhileWorking(run.version, run.identity, run.events);
    LeaseStepTold(run, input);
  }

  /** The one event that a step adds: what was asked for, in place, with the lease that it used or was granted. */
  lemma EventOfStep(run: Run, input: Transition)
    requires Append(run, input).Ok?
    ensures var next := Append(run, input).run;
            var e := next.events[|next.events| - 1];
            var lease := if AsksForLease(run, input) then next.lease else run.lease;
            && next.events == run.events + [e] && next.sequence == run.sequence + 1 && next.head == e.hash == Digest(e.body)
            && next.state == e.body.toState == input.toState && e.body.fromState == Some(run.state)
            && e.body.sequence == next.sequence && e.body.previous == run.head && e.body.occurredAt == input.occurredAt
            && e.body.reason == input.reason
            && e.body.run == run.identity == next.identity && e.body.version == run.version == next.version
            && (if lease.Some? then
                  && e.body.leaseToken == Some(lease.value.token) && e.body.leaseUntil == Some(lease.value.expiresAt)
                  && e.body.leaseEpoch == Some(lease.value.epoch)
                else e.body.leaseToken.None? && e.body.leaseUntil.None? && e.body.leaseEpoch.None?)
  {
    AllowedExactly(run.version, run.state, input.toState);
    LeaseWhileWorking(run.version, run.identity, run.events);
  }

  /** Left out, or this. */
  predicate Agrees<T(==)>(given: Option<T>, expected: T) { given.None? || given.value == expected }

  /** The lease asked for follows this one: the holder extends it, or another takes it over once it has expired. */
  predicate GoodGrant(lease: Option<Lease>, input: Transition) {
    && input.leaseToken.Some? && ValidToken(input.leaseToken.value)
    && input.leaseUntil.Some? && ValidInstant(input.leaseUntil.value) && input.occurredAt < input.leaseUntil.value
    && Agrees(input.leaseEpoch, NextEpoch(lease)) && NextEpoch(lease) <= 9007199254740991
    && (lease.Some? ==>
          if input.occurredAt < lease.value.expiresAt
          then input.leaseToken.value == lease.value.token && lease.value.expiresAt < input.leaseUntil.value
          else input.leaseToken.value != lease.value.token)
  }

  /** The step is made by the holder of a lease that has not expired. */
  predicate GoodUse(lease: Option<Lease>, input: Transition) {
    && lease.Some? && input.leaseToken == Some(lease.value.token) && input.occurredAt < lease.value.expiresAt
    && Agrees(input.leaseUntil, lease.value.expiresAt) && Agrees(input.leaseEpoch, lease.value.epoch)
  }

  predicate GoodLease(run: Run, input: Transition) {
    if AsksForLease(run, input) then GoodGrant(run.lease, input)
    else if run.state == Due then input.leaseToken.None? && input.leaseUntil.None? && input.leaseEpoch.None?
    else GoodUse(run.lease, input)
  }

  lemma LeaseStepExactly(run: Run, input: Transition)
    requires LeaseInRange(run.lease) && (run.lease.Some? <==> Working(run.state))
    requires MayStep(run.version, run.state, input.toState)
    ensures LeaseStep(run, input).LeaseFields? <==> GoodLease(run, input)
  {
    AllowedExactly(run.version, run.state, input.toState);
  }

  predicate MayAppend(run: Run, input: Transition) {
    && Verified(run) && input.expectedHead == run.head && MayStep(run.version, run.state, input.toState)
    && ValidInstant(input.occurredAt) && run.events[|run.events| - 1].body.occurredAt <= input.occurredAt
    && (input.reason.Some? ==> ValidReason(input.reason.value)) && GoodLease(run, input)
  }

  /** An append succeeds exactly at the head, along the path, in time, and with a good lease. */
  lemma AppendExactly(run: Run, input: Transition)
    ensures Append(run, input).Ok? <==> MayAppend(run, input)
  {
    if Verified(run) {
      AllowedExactly(run.version, run.state, input.toState);
      LeaseWhileWorking(run.version, run.identity, run.events);
      ScanLeaseInRange(run.version, run.identity, run.events);
      if MayStep(run.version, run.state, input.toState) { LeaseStepExactly(run, input); }
    }
  }

  /******* The store *******/

  /** What an append makes of a stored run can be stored on the head it was made for. */
  lemma AppendedRunWins(store: Store, id: Identity, input: Transition)
    requires Consistent(store) && id in store && Append(store[id], input).Ok?
    ensures var next := Append(store[id], input).run;
            Handle(store, CompareAndSet(next, store[id].head)) == (store[id := next], Found(next))
  {
    AppendVerifies(store[id], input);
  }

  /** A created run is stored unless there is one, and then the stored one is returned. */
  lemma CreatedRunIsStored(store: Store, id: Identity, occurredAt: Instant)
    requires Create(V12, id, occurredAt).Ok?
    ensures var run := Create(V12, id, occurredAt).run;
            Handle(store, Insert(run)) == if id in store then (store, Found(store[id])) else (store[id := run], Found(run))
  {
    CreateVerifies(V12, id, occurredAt);
  }

  predicate StartsClean(run: Run) { run.events != [] && run.events[0].body.reason.None? }

  predicate AllStartClean(store: Store) { forall id :: id in store ==> StartsClean(store[id]) }

  lemma StepStartsClean(store: Store, request: Request)
    requires Consistent(store) && AllStartClean(store)
    ensures AllStartClean(Handle(store, request).0)
  {
    if request.CompareAndSet? && Handle(store, request).1.Found? {
      CompareAndSetAddsOneEvent(store, request.run, request.expectedHead);
      var before, after := store[request.run.identity].events, request.run.events;
      assert StartsClean(store[request.run.identity]) && before[0] == after[..|after| - 1][0] == after[0];
    }
  }

  /** Every stored run was inserted as one event without a reason. */
  lemma {:induction false} StoredRunsStartClean(store: Store, requests: seq<Request>)
    requires Consistent(store) && AllStartClean(store)
    ensures AllStartClean(RunAll(Handle, store, requests).0)
    decreases |requests|
  {
    if requests != [] {
      HandleKeeps(store, requests[0]);
      StepStartsClean(store, requests[0]);
      StoredRunsStartClean(Handle(store, requests[0]).0, requests[1..]);
    }
  }

  /** A fence is answered with the run exactly for the stored head, the lease's own token and epoch, and before it expires. */
  lemma FenceAnswersExactly(store: Store, id: Identity, head: Hash, token: string, epoch: int, now: Instant)
    requires Consistent(store)
    ensures Handle(store, Fence(id, head, token, epoch, now)).0 == store
    ensures Handle(store, Fence(id, head, token, epoch, now)).1.Found?
       <==> id in store && store[id].head == head
            && exists until :: now < until && store[id].lease == Some(Lease(token, until, epoch))
  {
    if id in store {
      ScanLeaseInRange(V12, id, store[id].events);
      if store[id].lease.Some? {
        var lease := store[id].lease.value;
        assert store[id].lease == Some(Lease(lease.token, lease.expiresAt, lease.epoch));
      }
    }
  }

  lemma EndedTakesNoStep(run: Run, input: Transition)
    requires run.state == Completed || run.state == Failed || run.state == Missed
    ensures !Append(run, input).Ok?
  {
    AllowedExactly(run.version, run.state, input.toState);
  }

  lemma EndedStays(store: Store, request: Request, id: Identity)
    requires Consistent(store) && id in store
    requires store[id].state == Completed || store[id].state == Failed || store[id].state == Missed
    ensures var after := Handle(store, request).0; id in after && after[id] == store[id]
  {
    if request.CompareAndSet? && Handle(store, request).1.Found? && request.run.identity == id {
      EndedTakesNoStep(store[id], InputOf(request.run.events[|request.run.events| - 1]));
      CompareAndSetAddsOneEvent(store, request.run, request.expectedHead);
    }
  }

  /** Once a run is completed, failed or missed it never changes again and no fence on it ever succeeds. */
  lemma {:induction false} EndedRunIsFinal(store: Store, requests: seq<Request>, id: Identity, fence: Request)
    requires Consistent(store) && id in store && fence.Fence? && fence.identity == id
    requires store[id].state == Completed || store[id].state == Failed || store[id].state == Missed
    ensures var after := RunAll(Handle, store, requests).0;
            id in after && after[id] == store[id] && !Handle(after, fence).1.Found?
    decreases |requests|
  {
    if requests == [] {
      LeaseWhileWorking(V12, id, store[id].events);
    } else {
      HandleKeeps(store, requests[0]);
      EndedStays(store, requests[0], id);
      EndedRunIsFinal(Handle(store, requests[0]).0, requests[1..], id, fence);
    }
  }
}
