/** The lifecycle request by request, and a guide as the fold of what succeeded. */
module GuideLifecycleRules {
  import opened Histories
  import opened Options
  import opened GuideLifecycle

  /******* When each request succeeds, and what it changes *******/

  /**
   A draft succeeds exactly at the expected version and latest revision, for a revision that follows it by number and hash,
   of a guide that is not archived. The given revision becomes the latest; the active one stays active.
   */
  lemma DraftsExactly(g: Guide, r: Request)
    requires Sound(g) && r.Draft?
    ensures var last := g.revisions[|g.revisions| - 1];
            var hash := Digest(last.number, last.previous, last.content, last.interpretation);
            var fits := r.expectedVersion == g.version && r.expectedLatest == |g.revisions| - 1 && r.expectedHash == hash
                        && r.next.number == |g.revisions| + 1 && r.next.previous == Some(hash);
            Handle(g, r)
            == if fits && g.archived.None? then (g.(revisions := g.revisions + [r.next], version := g.version + 1), Drafted)
               else (g, if r.expectedVersion < 0 then InvalidInput else if fits then GuardRefused else Conflict)
  {
    assert Follows(g.revisions, |g.revisions| - 1);
  }

  /** An interpretation is accepted exactly if it is the revision's own and no other acceptance is stored. */
  lemma AcceptsExactly(g: Guide, r: Request)
    requires Sound(g) && r.Accept?
    ensures Handle(g, r).1 == Accepted(true)
       <==> && r.revision < |g.revisions| && g.revisions[r.revision].interpretation == r.interpretation
            && r.revision !in g.accepted
    ensures Handle(g, r).1 == Accepted(true) ==> Handle(g, r).0 == g.(accepted := g.accepted[r.revision := r.stamp])
    ensures Handle(g, r).1 != Accepted(true) ==> Handle(g, r).0 == g
    ensures Handle(g, r).1 == NotFound <==> r.revision >= |g.revisions|
  {
  }

  /** A successful activation makes the latest revision the active one, and records who did it when, after which revision. */
  lemma ActivationChanges(g: Guide, r: Request)
    requires Sound(g) && r.Activate? && Handle(g, r).1 == Activated(false)
    ensures Handle(g, r).0
         == g.(active := Some(|g.revisions| - 1), version := g.version + 1,
               activations := g.activations[ActivationKey(|g.revisions| - 1, g.version) := Activation(r.stamp, g.active)])
    ensures ActivationKey(|g.revisions| - 1, g.version) !in g.activations
  {
  }

  /** An activation that is refused or repeated changes nothing, and is answered in this order. */
  lemma ActivateAnswers(g: Guide, r: Request)
    requires Sound(g) && r.Activate?
    ensures var isLatest := r.revision == |g.revisions| - 1;
            var fits := isLatest && r.expectedVersion == g.version && r.expectedCurrent == g.active;
            var repeats := isLatest && r.expectedVersion == g.version - 1 && g.active == Some(r.revision);
            Handle(g, r).1
            == if r.expectedVersion < 0 then InvalidInput
               else if fits then (if r.revision in g.accepted then Activated(false) else Conflict)
               else if !repeats then Conflict
               else if ActivationKey(r.revision, r.expectedVersion) !in g.activations then NotFound
               else if g.activations[ActivationKey(r.revision, r.expectedVersion)] != Activation(r.stamp, r.expectedCurrent)
               then Conflict
               else Activated(true)
    ensures Handle(g, r).1 != Activated(false) ==> Handle(g, r).0 == g
  {
  }

  /** A pause succeeds exactly for the active revision at the expected version, and leaves no revision active. */
  lemma PausesExactly(g: Guide, r: Request)
    requires r.Pause? && g.version >= 0
    ensures Handle(g, r) == if r.expectedVersion == g.version && g.active == Some(r.expectedActive)
                            then (g.(active := None, version := g.version + 1), Paused)
                            else (g, if r.expectedVersion < 0 then InvalidInput else Conflict)
  {
  }

  /** An archive succeeds exactly at the expected version, once, while no revision is active; it is dated as asked. */
  lemma ArchivesExactly(g: Guide, r: Request)
    requires r.Archive? && g.version >= 0
    ensures Handle(g, r) == if r.expectedVersion == g.version && g.active == None && g.archived == None
                            then (g.(archived := Some(r.at)), Archived)
                            else (g, if r.expectedVersion < 0 then InvalidInput else Conflict)
  {
  }

  /******* The guide as a fold *******/

  function DraftOf(r: Request, reply: Reply): seq<Revision> { if r.Draft? && reply == Drafted then [r.next] else [] }

  function ActiveAfter(r: Request, reply: Reply, was: Option<nat>): Option<nat> {
    if r.Activate? && reply == Activated(false) then Some(r.revision) else if r.Pause? && reply == Paused then None else was
  }

  /** The revisions drafted, in order. */
  function DraftsMade(requests: seq<Request>, replies: seq<Reply>): seq<Revision>
    requires |requests| == |replies|
  {
    if requests == [] then [] else DraftOf(requests[0], replies[0]) + DraftsMade(requests[1..], replies[1..])
  }

  /** What the last successful activation or pause leaves active. */
  function LastActive(requests: seq<Request>, replies: seq<Reply>, start: Option<nat>): Option<nat>
    requires |requests| == |replies|
  {
    if requests == [] then start
    else LastActive(requests[1..], replies[1..], ActiveAfter(requests[0], replies[0], start))
  }

  lemma StepFolds(g: Guide, r: Request)
    requires Sound(g)
    ensures var (after, reply) := Handle(g, r);
            after.revisions == g.revisions + DraftOf(r, reply) && after.active == ActiveAfter(r, reply, g.active)
  {
    if r.Draft? { DraftsExactly(g, r); }
  }

  /**
   Over any run: the revisions are those of the start and those drafted since, in order, and the active one is what the last
   successful activation or pause left.
   */
  lemma {:induction false} GuideIsFold(g: Guide, requests: seq<Request>)
    requires Sound(g)
    ensures var (after, replies) := RunAll(Handle, g, requests);
            && after.revisions == g.revisions + DraftsMade(requests, replies)
            && after.active == LastActive(requests, replies, g.active)
    decreases |requests|
  {
    if requests != [] {
      var (next, reply) := Handle(g, requests[0]);
      var (last, replies) := RunAll(Handle, next, requests[1..]);
      HandleKeeps(g, requests[0]);
      StepFolds(g, requests[0]);
      GuideIsFold(next, requests[1..]);
      assert RunAll(Handle, g, requests) == (last, [reply] + replies) && ([reply] + replies)[1..] == replies;
      var first, rest := DraftOf(requests[0], reply), DraftsMade(requests[1..], replies);
      assert (g.revisions + first) + rest == g.revisions + (first + rest);
    }
  }

  /** A guide starts at version 0 with its first revision, not active; so its state is told by what was requested of it. */
  lemma GuideFromStart(first: Revision, requests: seq<Request>)
    requires ValidFirst(first)
    ensures var (after, replies) := RunAll(Handle, Created(first), requests);
            && after.version == MovesMade(replies) && after.revisions == [first] + DraftsMade(requests, replies)
            && after.active == LastActive(requests, replies, None)
  {
    GuideIsFold(Created(first), requests);
    VersionCountsMoves(Created(first), requests);
  }
}
