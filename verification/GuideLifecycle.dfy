/** The lifecycle of one guide: drafts, acceptance, activation, pause and archive under an optimistic head version. */
module GuideLifecycle {
  import opened Histories
  import opened Options

  /** A revision hash is a digest of the revision, so it is modelled by what it digests. */
  datatype Hash = Digest(number: nat, previous: Option<Hash>, content: string, interpretation: string)

  datatype Revision = Revision(number: nat, previous: Option<Hash>, content: string, interpretation: string)

  function HashOf(r: Revision): Hash { Digest(r.number, r.previous, r.content, r.interpretation) }

  datatype Stamp = Stamp(actor: string, at: int)

  /** What an activation leaves behind: its outbox row and its event. */
  datatype Activation = Activation(stamp: Stamp, previous: Option<nat>)

  /** An activation is keyed by its revision and the head version it expected. */
  datatype ActivationKey = ActivationKey(revision: nat, version: nat)

  /** Revisions are named by position; the latest is the last. */
  datatype Guide = Guide(
    revisions: seq<Revision>, active: Option<nat>, version: nat, accepted: map<nat, Stamp>,
    activations: map<ActivationKey, Activation>, archived: Option<int>)

  datatype Request =
    | Draft(expectedVersion: int, expectedLatest: nat, expectedHash: Hash, next: Revision)
    | Accept(revision: nat, interpretation: string, stamp: Stamp)
    | Activate(revision: nat, expectedVersion: int, expectedCurrent: Option<nat>, stamp: Stamp)
    | Pause(expectedVersion: int, expectedActive: nat)
    | Archive(expectedVersion: int, at: int)

  datatype Reply =
    | Drafted
    | Accepted(created: bool)
    | Activated(idempotent: bool)
    | Paused
    | Archived
    | InvalidInput
    | NotFound
    | Conflict
    | GuardRefused

  /** A guide starts with its first revision. */
  function Created(first: Revision): Guide { Guide([first], None, 0, map[], map[], None) }

  predicate ValidFirst(first: Revision) { first.number == 1 && first.previous.None? }

  function Latest(g: Guide): int { |g.revisions| - 1 }

  function HandleDraft(g: Guide, r: Request): (Guide, Reply)
    requires r.Draft?
  {
    if r.expectedVersion < 0 then (g, InvalidInput)
    else if g.version != r.expectedVersion || Latest(g) != r.expectedLatest then (g, Conflict)
    else
      var previous := g.revisions[r.expectedLatest];
      if HashOf(previous) != r.expectedHash || r.next.number != previous.number + 1
        || r.next.previous != Some(HashOf(previous)) then (g, Conflict)
      else if g.archived.Some? then (g, GuardRefused)
      else (g.(revisions := g.revisions + [r.next], version := g.version + 1), Drafted)
  }

  function HandleAccept(g: Guide, r: Request): (Guide, Reply)
    requires r.Accept?
  {
    if r.revision >= |g.revisions| then (g, NotFound)
    else if g.revisions[r.revision].interpretation != r.interpretation then (g, Conflict)
    else if r.revision !in g.accepted then (g.(accepted := g.accepted[r.revision := r.stamp]), Accepted(true))
    else if g.accepted[r.revision] != r.stamp then (g, Conflict)
    else (g, Accepted(false))
  }

  /** Another activation is recorded under this key. */
  predicate Clashes(activations: map<ActivationKey, Activation>, key: ActivationKey, activation: Activation) {
    key in activations && activations[key] != activation
  }

  function HandleActivate(g: Guide, r: Request): (Guide, Reply)
    requires r.Activate?
  {
    var activation := Activation(r.stamp, r.expectedCurrent);
    if r.expectedVersion < 0 then (g, InvalidInput)
    else
      var key := ActivationKey(r.revision, r.expectedVersion);
      if Latest(g) != r.revision || g.version != r.expectedVersion || g.active != r.expectedCurrent then
        if Latest(g) == r.revision && g.active == Some(r.revision) && g.version == r.expectedVersion + 1 then
          if key !in g.activations then (g, NotFound)
          else if g.activations[key] != activation then (g, Conflict)
          else (g, Activated(true))
        else (g, Conflict)
      else if r.revision !in g.accepted then (g, Conflict)
      else if Clashes(g.activations, key, activation) then (g, Conflict)
      else
        (g.(active := Some(r.revision), version := g.version + 1, activations := g.activations[key := activation]),
         Activated(false))
  }

  function HandlePause(g: Guide, r: Request): (Guide, Reply)
    requires r.Pause?
  {
    if r.expectedVersion < 0 then (g, InvalidInput)
    else if g.version != r.expectedVersion || g.active != Some(r.expectedActive) then (g, Conflict)
    else (g.(active := None, version := g.version + 1), Paused)
  }

  function HandleArchive(g: Guide, r: Request): (Guide, Reply)
    requires r.Archive?
  {
    if r.expectedVersion < 0 then (g, InvalidInput)
    else if g.version != r.expectedVersion || g.active.Some? || g.archived.Some? then (g, Conflict)
    else (g.(archived := Some(r.at)), Archived)
  }

  function Handle(g: Guide, r: Request): (Guide, Reply) {
    match r
    case Draft(_, _, _, _) => HandleDraft(g, r)
    case Accept(_, _, _) => HandleAccept(g, r)
    case Activate(_, _, _, _) => HandleActivate(g, r)
    case Pause(_, _) => HandlePause(g, r)
    case Archive(_, _) => HandleArchive(g, r)
  }

  /******* Every reachable guide *******/

  predicate Follows(revisions: seq<Revision>, i: nat)
    requires i < |revisions|
  {
    revisions[i].number == i + 1 && revisions[i].previous == if i == 0 then None else Some(HashOf(revisions[i - 1]))
  }

  /** Each revision follows the one before, by number and by hash. */
  predicate Chained(revisions: seq<Revision>) { forall i :: 0 <= i < |revisions| ==> Follows(revisions, i) }

  predicate Sound(g: Guide) {
    && g.revisions != [] && Chained(g.revisions)
    && (g.active.Some? ==> g.active.value < |g.revisions| && g.active.value in g.accepted)
    && (forall r :: r in g.accepted ==> r < |g.revisions|)
    && (forall key :: key in g.activations ==> key.version < g.version && key.revision < |g.revisions|)
  }

  /** Revisions, acceptances and activations are only ever added. */
  predicate Grows(before: Guide, after: Guide) {
    && before.revisions <= after.revisions && before.version <= after.version
    && (forall r :: r in before.accepted ==> r in after.accepted && after.accepted[r] == before.accepted[r])
    && (forall k :: k in before.activations ==> k in after.activations && after.activations[k] == before.activations[k])
  }

  lemma ChainedStep(revisions: seq<Revision>, r: Revision)
    requires Chained(revisions) && revisions != []
    requires r.number == |revisions| + 1 && r.previous == Some(HashOf(revisions[|revisions| - 1]))
    ensures Chained(revisions + [r])
  {
    var all := revisions + [r];
    forall i | 0 <= i < |all| ensures Follows(all, i) {
      if i < |revisions| { assert Follows(revisions, i); } else { assert Follows(revisions, i - 1); }
    }
  }

  lemma ChainedFront(revisions: seq<Revision>)
    requires Chained(revisions) && revisions != []
    ensures Chained(revisions[..|revisions| - 1])
  {
    var front := revisions[..|revisions| - 1];
    forall i | 0 <= i < |front| ensures Follows(front, i) {
      assert Follows(revisions, i);
    }
  }

  lemma HandleKeeps(g: Guide, r: Request)
    requires Sound(g)
    ensures Sound(Handle(g, r).0) && Grows(g, Handle(g, r).0)
  {
    if r.Draft? && Handle(g, r).1.Drafted? {
      assert Follows(g.revisions, |g.revisions| - 1);
      ChainedStep(g.revisions, r.next);
    }
  }

  lemma {:induction false} HandleAllKeeps(g: Guide, requests: seq<Request>)
    requires Sound(g)
    ensures Sound(RunAll(Handle, g, requests).0) && Grows(g, RunAll(Handle, g, requests).0)
    decreases |requests|
  {
    if requests != [] {
      var after := Handle(g, requests[0]).0;
      HandleKeeps(g, requests[0]);
      HandleAllKeeps(after, requests[1..]);
      GrowsOn(g, after, RunAll(Handle, after, requests[1..]).0);
    }
  }

  lemma GrowsOn(a: Guide, b: Guide, c: Guide)
    requires Grows(a, b) && Grows(b, c)
    ensures Grows(a, c)
  {
  }

  /** In every state that any requests lead to, the active revision is one of the chain and its interpretation is accepted. */
  lemma ActiveIsChainedAndAccepted(first: Revision, requests: seq<Request>)
    requires ValidFirst(first)
    ensures var g := RunAll(Handle, Created(first), requests).0;
            && Chained(g.revisions) && [first] <= g.revisions
            && (g.active.Some? ==> g.active.value < |g.revisions| && g.active.value in g.accepted)
  {
    HandleAllKeeps(Created(first), requests);
  }

  /** Two guides whose latest revisions have the same hash have the same revisions. */
  lemma {:induction false} LatestFixesRevisions(a: seq<Revision>, b: seq<Revision>)
    requires Chained(a) && Chained(b) && a != [] && b != [] && HashOf(a[|a| - 1]) == HashOf(b[|b| - 1])
    ensures a == b
  {
    var m := |a| - 1;
    assert Follows(a, m) && Follows(b, |b| - 1);
    assert a[m] == b[|b| - 1];
    if m > 0 {
      ChainedFront(a);
      ChainedFront(b);
      assert a[m].previous == Some(HashOf(a[m - 1])) && b[m].previous == Some(HashOf(b[m - 1]));
      LatestFixesRevisions(a[..m], b[..m]);
      assert a == a[..m] + [a[m]] && b == b[..m] + [b[m]];
    } else {
      assert a == [a[0]] && b == [b[0]];
    }
  }

  /******* The head version *******/

  predicate MovesHead(reply: Reply) { reply.Drafted? || reply == Activated(false) || reply.Paused? }

  predicate IsRefusal(reply: Reply) {
    reply.InvalidInput? || reply.NotFound? || reply.Conflict? || reply.GuardRefused?
  }

  function ExpectedVersion(r: Request): int { if r.Accept? then -1 else r.expectedVersion }

  /**
   The version moves by one exactly when a draft, an activation or a pause succeeds. An archive does not move it, and
   neither does a retried activation. A refused request changes nothing.
   */
  lemma VersionMovesExactly(g: Guide, r: Request)
    ensures var (after, reply) := Handle(g, r);
            && after.version == g.version + (if MovesHead(reply) then 1 else 0)
            && (MovesHead(reply) ==> ExpectedVersion(r) == g.version)
            && (IsRefusal(reply) || reply == Activated(true) || reply == Accepted(false) ==> after == g)
            && (reply.Archived? ==> after == g.(archived := after.archived))
            && (after.active != g.active ==> reply == Activated(false) || reply.Paused?)
  {
  }

  function MovesMade(replies: seq<Reply>): nat {
    if replies == [] then 0 else (if MovesHead(replies[0]) then 1 else 0) + MovesMade(replies[1..])
  }

  /**
   Over any run the version rises by exactly one for each draft, activation and pause that succeeds; acceptances, archives
   and retried activations leave it alone.
   */
  lemma {:induction false} VersionCountsMoves(g: Guide, requests: seq<Request>)
    ensures var (after, replies) := RunAll(Handle, g, requests); after.version == g.version + MovesMade(replies)
    decreases |requests|
  {
    if requests != [] {
      var after := Handle(g, requests[0]).0;
      VersionMovesExactly(g, requests[0]);
      VersionCountsMoves(after, requests[1..]);
      assert RunAll(Handle, g, requests).1[1..] == RunAll(Handle, after, requests[1..]).1;
    }
  }

  function Moves(requests: seq<Request>, replies: seq<Reply>, version: int): nat
    requires |requests| == |replies|
  {
    if requests == [] then 0
    else (if MovesHead(replies[0]) && ExpectedVersion(requests[0]) == version then 1 else 0)
         + Moves(requests[1..], replies[1..], version)
  }

  /** Of all requests that expect one version, exactly one moves the head past it, if it is passed at all. */
  lemma {:induction false} OneMovePerVersion(g: Guide, requests: seq<Request>, version: int)
    ensures var (after, replies) := RunAll(Handle, g, requests);
            && g.version <= after.version
            && Moves(requests, replies, version) == if g.version <= version < after.version then 1 else 0
    decreases |requests|
  {
    if requests != [] {
      var after := Handle(g, requests[0]).0;
      VersionMovesExactly(g, requests[0]);
      OneMovePerVersion(after, requests[1..], version);
      assert RunAll(Handle, g, requests).1[1..] == RunAll(Handle, after, requests[1..]).1;
    }
  }

  /******* Retries *******/

  lemma {:induction false} SameVersionSameHead(g: Guide, requests: seq<Request>)
    ensures var later := RunAll(Handle, g, requests).0;
            g.version <= later.version && (later.version == g.version ==> later.revisions == g.revisions && later.active == g.active)
    decreases |requests|
  {
    if requests != [] {
      VersionMovesExactly(g, requests[0]);
      SameVersionSameHead(Handle(g, requests[0]).0, requests[1..]);
    }
  }

  /**
   At any later time, an activation of the same revision and version is a no-op exactly when it is the same request and the
   head has not moved since: another time, actor or expected revision is refused. Either way nothing changes.
   */
  lemma ActivationRetryExactly(g: Guide, r: Request, requests: seq<Request>, again: Request)
    requires Sound(g) && r.Activate? && Handle(g, r).1 == Activated(false)
    requires again.Activate? && again.revision == r.revision && again.expectedVersion == r.expectedVersion
    ensures var after := Handle(g, r).0;
            var later := RunAll(Handle, after, requests).0;
            Handle(later, again)
            == (later, if again == r && later.version == after.version then Activated(true) else Conflict)
  {
    var after := Handle(g, r).0;
    HandleKeeps(g, r);
    HandleAllKeeps(after, requests);
    SameVersionSameHead(after, requests);
  }

  /** The retry of an acceptance is a no-op for the same actor and time, at any later time. */
  lemma AcceptanceRetryExactly(g: Guide, requests: seq<Request>, r: Request, again: Request)
    requires Sound(g) && r.Accept? && Handle(g, r).1 == Accepted(true)
    requires again.Accept? && again.revision == r.revision && again.interpretation == r.interpretation
    ensures var later := RunAll(Handle, Handle(g, r).0, requests).0;
            Handle(later, again) == (later, if again.stamp == r.stamp then Accepted(false) else Conflict)
  {
    var after := Handle(g, r).0;
    HandleKeeps(g, r);
    HandleAllKeeps(after, requests);
  }

  /******* Archived guides *******/

  /** An archived guide gets no further revision. */
  lemma {:induction false} ArchivedKeepsRevisions(g: Guide, requests: seq<Request>)
    requires g.archived.Some?
    ensures var after := RunAll(Handle, g, requests).0; after.revisions == g.revisions && after.archived == g.archived
    decreases |requests|
  {
    if requests != [] { ArchivedKeepsRevisions(Handle(g, requests[0]).0, requests[1..]); }
  }

  /** An activation succeeds exactly for the accepted latest revision at the current head; archiving plays no part in it. */
  lemma ActivatesExactly(g: Guide, r: Request)
    requires Sound(g) && r.Activate?
    ensures Handle(g, r).1 == Activated(false)
       <==> && r.revision == Latest(g) && r.expectedVersion == g.version && r.expectedCurrent == g.active
            && r.revision in g.accepted
  {
  }

  /** Accepting the latest revision, if that is still to be done, and activating it. */
  function Revival(g: Guide, stamp: Stamp): seq<Request>
    requires g.revisions != []
  {
    [Accept(Latest(g), g.revisions[Latest(g)].interpretation, stamp), Activate(Latest(g), g.version, None, stamp)]
  }

  /**
   So archiving is never final: every archived guide, whether or not its latest revision was accepted, can be activated
   again, and stays archived.
   */
  lemma ArchivedCanBeActivated(g: Guide, stamp: Stamp)
    requires Sound(g) && g.archived.Some? && g.active.None?
    ensures var after := RunAll(Handle, g, Revival(g, stamp)).0;
            after.active == Some(Latest(g)) && after.archived == g.archived && after.version == g.version + 1
  {
    var accept, activate := Revival(g, stamp)[0], Revival(g, stamp)[1];
    RunTwo(Handle, g, accept, activate);
    HandleKeeps(g, accept);
    ActivatesExactly(Handle(g, accept).0, activate);
  }

  /******* The guide as its repository updates it *******/

  class GuideHead {
    var revisions: seq<Revision>
    var active: Option<nat>
    var version: nat
    var accepted: map<nat, Stamp>
    var activations: map<ActivationKey, Activation>
    var archived: Option<int>

    function Current(): Guide
      reads this
    {
      Guide(revisions, active, version, accepted, activations, archived)
    }

    constructor Create(first: Revision)
      requires ValidFirst(first)
      ensures Current() == Created(first) && Sound(Current())
    {
      revisions, active, version, accepted, activations, archived := [first], None, 0, map[], map[], None;
    }

    method CreateNextDraft(r: Request) returns (reply: Reply)
      requires Sound(Current()) && r.Draft?
      modifies this
      ensures (Current(), reply) == Handle(old(Current()), r)
      ensures Sound(Current()) && Grows(old(Current()), Current())
    {
      HandleKeeps(Current(), r);
      if r.expectedVersion < 0 { return InvalidInput; }
      if version != r.expectedVersion || |revisions| - 1 != r.expectedLatest { return Conflict; }
      var previous := revisions[|revisions| - 1];
      if HashOf(previous) != r.expectedHash || r.next.number != previous.number + 1
        || r.next.previous != Some(HashOf(previous)) { return Conflict; }
      if archived.Some? { return GuardRefused; }
      revisions, version := revisions + [r.next], version + 1;
      return Drafted;
    }

    method AcceptInterpretation(r: Request) returns (reply: Reply)
      requires Sound(Current()) && r.Accept?
      modifies this`accepted
      ensures (Current(), reply) == Handle(old(Current()), r)
      ensures Sound(Current()) && Grows(old(Current()), Current())
    {
      HandleKeeps(Current(), r);
      if r.revision >= |revisions| { return NotFound; }
      if revisions[r.revision].interpretation != r.interpretation { return Conflict; }
      if r.revision in accepted {
        return if accepted[r.revision] == r.stamp then Accepted(false) else Conflict;
      }
      accepted := accepted[r.revision := r.stamp];
      return Accepted(true);
    }

    method ActivateRevision(r: Request) returns (reply: Reply)
      requires Sound(Current()) && r.Activate?
      modifies this
      ensures (Current(), reply) == Handle(old(Current()), r)
      ensures Sound(Current()) && Grows(old(Current()), Current())
    {
      HandleKeeps(Current(), r);
      if r.expectedVersion < 0 { return InvalidInput; }
      var key, activation := ActivationKey(r.revision, r.expectedVersion), Activation(r.stamp, r.expectedCurrent);
      if |revisions| - 1 != r.revision || version != r.expectedVersion || active != r.expectedCurrent {
        if |revisions| - 1 != r.revision || active != Some(r.revision) || version != r.expectedVersion + 1 { return Conflict; }
        if key !in activations { return NotFound; }
        return if activations[key] == activation then Activated(true) else Conflict;
      }
      if r.revision !in accepted { return Conflict; }
      if Clashes(activations, key, activation) { return Conflict; }
      active, version, activations := Some(r.revision), version + 1, activations[key := activation];
      return Activated(false);
    }

    method PauseGuide(r: Request) returns (reply: Reply)
      requires Sound(Current()) && r.Pause?
      modifies this
      ensures (Current(), reply) == Handle(old(Current()), r)
      ensures Sound(Current()) && Grows(old(Current()), Current())
    {
      HandleKeeps(Current(), r);
      if r.expectedVersion < 0 { return InvalidInput; }
      if version != r.expectedVersion || active != Some(r.expectedActive) { return Conflict; }
      active, version := None, version + 1;
      return Paused;
    }

    method ArchiveGuide(r: Request) returns (reply: Reply)
      requires Sound(Current()) && r.Archive?
      modifies this`archived
      ensures (Current(), reply) == Handle(old(Current()), r)
      ensures Sound(Current()) && Grows(old(Current()), Current())
    {
      HandleKeeps(Current(), r);
      if r.expectedVersion < 0 { return InvalidInput; }
      if version != r.expectedVersion || active.Some? || archived.Some? { return Conflict; }
      archived := Some(r.at);
      return Archived;
    }
  }
}
