/** The lookup agrees with the full log of invalidations, and invalidation is permanent and exact. */
module ContextInvalidationTheorems {
  import opened Options
  import opened ContextInvalidation
  import opened Histories

  type Log = set<Invalidation>

  /******* What the lookup finds *******/

  lemma {:induction false} InsertLatestMembers(c: Context, ordered: seq<Context>)
    ensures forall d :: d in InsertLatest(c, ordered) <==> d == c || d in ordered
  {
    if ordered != [] && ordered[0].capturedAt > c.capturedAt {
      InsertLatestMembers(c, ordered[1..]);
      assert ordered == [ordered[0]] + ordered[1..];
    }
  }

  predicate Descending(ordered: seq<Context>) {
    forall i, j :: 0 <= i < j < |ordered| ==> ordered[i].capturedAt >= ordered[j].capturedAt
  }

  lemma {:induction false} InsertLatestDescending(c: Context, ordered: seq<Context>)
    requires Descending(ordered)
    ensures Descending(InsertLatest(c, ordered))
  {
    if ordered != [] && ordered[0].capturedAt > c.capturedAt {
      var rest := InsertLatest(c, ordered[1..]);
      assert forall i :: 0 <= i < |ordered[1..]| ==> ordered[1..][i] == ordered[i + 1];
      InsertLatestDescending(c, ordered[1..]);
      InsertLatestMembers(c, ordered[1..]);
      forall i | 0 <= i < |rest| ensures ordered[0].capturedAt >= rest[i].capturedAt {
        assert rest[i] in rest;
        if rest[i] != c { BeforeAll(ordered, rest[i]); }
      }
    }
  }

  lemma BeforeAll(ordered: seq<Context>, c: Context)
    requires Descending(ordered) && ordered != [] && c in ordered[1..]
    ensures ordered[0].capturedAt >= c.capturedAt
  {
    var i :| 0 <= i < |ordered[1..]| && ordered[1..][i] == c;
    assert ordered[i + 1] == c;
  }

  lemma {:induction false} CandidatesDescending(contexts: seq<Context>, entity: Entity)
    ensures Descending(Candidates(contexts, entity))
  {
    if contexts != [] {
      var n := |contexts| - 1;
      CandidatesDescending(contexts[..n], entity);
      if contexts[n].entity == entity { InsertLatestDescending(contexts[n], Candidates(contexts[..n], entity)); }
    }
  }

  /** The better of what was found and one more context saved after it. */
  function Better(log: Log, found: Option<Context>, c: Context): Option<Context> {
    if Invalidated(log, c) || (found.Some? && found.value.capturedAt > c.capturedAt) then found else Some(c)
  }

  lemma {:induction false} FirstValidMember(log: Log, candidates: seq<Context>)
    ensures FirstValid(log, candidates).Some? ==> FirstValid(log, candidates).value in candidates
  {
    if candidates != [] {
      FirstValidMember(log, candidates[1..]);
      assert candidates == [candidates[0]] + candidates[1..];
    }
  }

  lemma {:induction false} FirstValidInsert(log: Log, c: Context, ordered: seq<Context>)
    requires Descending(ordered)
    ensures FirstValid(log, InsertLatest(c, ordered)) == Better(log, FirstValid(log, ordered), c)
  {
    if ordered == [] || ordered[0].capturedAt <= c.capturedAt {
      assert ([c] + ordered)[1..] == ordered;
      FirstValidMember(log, ordered);
      if FirstValid(log, ordered).Some? && FirstValid(log, ordered).value != ordered[0] {
        assert ordered == [ordered[0]] + ordered[1..];
        BeforeAll(ordered, FirstValid(log, ordered).value);
      }
    } else {
      assert forall i :: 0 <= i < |ordered[1..]| ==> ordered[1..][i] == ordered[i + 1];
      assert ([ordered[0]] + InsertLatest(c, ordered[1..]))[1..] == InsertLatest(c, ordered[1..]);
      FirstValidInsert(log, c, ordered[1..]);
    }
  }

  /** One pass over the contexts as they were saved, without sorting. */
  function Best(log: Log, contexts: seq<Context>, entity: Entity): Option<Context> {
    if contexts == [] then None
    else
      var n := |contexts| - 1;
      var best := Best(log, contexts[..n], entity);
      if contexts[n].entity == entity then Better(log, best, contexts[n]) else best
  }

  lemma {:induction false} LookupIsBest(log: Log, contexts: seq<Context>, entity: Entity)
    ensures FirstValid(log, Candidates(contexts, entity)) == Best(log, contexts, entity)
  {
    if contexts != [] {
      var n := |contexts| - 1;
      LookupIsBest(log, contexts[..n], entity);
      CandidatesDescending(contexts[..n], entity);
      if contexts[n].entity == entity { FirstValidInsert(log, contexts[n], Candidates(contexts[..n], entity)); }
    }
  }

  predicate ValidFor(log: Log, c: Context, entity: Entity) { c.entity == entity && !Invalidated(log, c) }

  /** A position is at least as late as every valid one: captured later, or at the same time and saved no earlier. */
  predicate IsLatest(log: Log, contexts: seq<Context>, entity: Entity, i: nat)
    requires i < |contexts|
  {
    forall j :: 0 <= j < |contexts| && ValidFor(log, contexts[j], entity) ==>
      contexts[j].capturedAt < contexts[i].capturedAt || (contexts[j].capturedAt == contexts[i].capturedAt && j <= i)
  }

  lemma {:induction false} BestIsLatest(log: Log, contexts: seq<Context>, entity: Entity) returns (i: nat)
    ensures Best(log, contexts, entity).None? ==> forall j :: 0 <= j < |contexts| ==> !ValidFor(log, contexts[j], entity)
    ensures Best(log, contexts, entity).Some? ==>
              && i < |contexts| && contexts[i] == Best(log, contexts, entity).value
              && ValidFor(log, contexts[i], entity) && IsLatest(log, contexts, entity, i)
  {
    i := 0;
    if contexts != [] {
      var n := |contexts| - 1;
      var front := contexts[..n];
      var k := BestIsLatest(log, front, entity);
      assert forall j :: 0 <= j < n ==> front[j] == contexts[j];
      i := if contexts[n].entity == entity && Better(log, Best(log, front, entity), contexts[n]) == Some(contexts[n])
           then n else k;
    }
  }

  /** The lookup finds the latest context of the entity that no invalidation in the whole log matches, if there is one. */
  lemma LatestValidIsLatest(s: Store, entity: Entity) returns (i: nat)
    ensures LatestValid(s, entity).None? ==>
              forall j :: 0 <= j < |s.contexts| ==> !ValidFor(s.invalidations, s.contexts[j], entity)
    ensures LatestValid(s, entity).Some? ==>
              && i < |s.contexts| && s.contexts[i] == LatestValid(s, entity).value
              && ValidFor(s.invalidations, s.contexts[i], entity) && IsLatest(s.invalidations, s.contexts, entity, i)
  {
    LookupIsBest(s.invalidations, s.contexts, entity);
    i := BestIsLatest(s.invalidations, s.contexts, entity);
  }

  /******* Invalidation is permanent and exact *******/

  lemma {:induction false} StoreGrows(s: Store, requests: seq<Request>)
    ensures var later := RunAll(Handle, s, requests).0; s.contexts <= later.contexts && s.invalidations <= later.invalidations
    decreases |requests|
  {
    if requests != [] { StoreGrows(Handle(s, requests[0]).0, requests[1..]); }
  }

  /** An invalid context is never found again, however many contexts and invalidations follow. */
  lemma InvalidForEver(s: Store, requests: seq<Request>, c: Context, entity: Entity)
    requires Invalidated(s.invalidations, c)
    ensures LatestValid(RunAll(Handle, s, requests).0, entity) != Some(c)
  {
    var later := RunAll(Handle, s, requests).0;
    StoreGrows(s, requests);
    assert Invalidated(later.invalidations, c);
    var i := LatestValidIsLatest(later, entity);
  }

  /** A stored context stays as it is, at its place: historical lookups by hash keep finding it. */
  lemma HistoryIsImmutable(s: Store, requests: seq<Request>, i: nat)
    requires i < |s.contexts|
    ensures i < |RunAll(Handle, s, requests).0.contexts| && RunAll(Handle, s, requests).0.contexts[i] == s.contexts[i]
  {
    StoreGrows(s, requests);
  }

  lemma {:induction false} FirstValidAfter(log: Log, i: Invalidation, candidates: seq<Context>)
    ensures var before, after := FirstValid(log, candidates), FirstValid(log + {i}, candidates);
            && (after == before <==> before.None? || !Matches(i, before.value))
            && (after.Some? ==> !Matches(i, after.value))
  {
    if candidates != [] {
      FirstValidAfter(log, i, candidates[1..]);
      InvalidatedAfter(log, i, candidates[0]);
      FirstValidIsValid(log, candidates);
      FirstValidIsValid(log + {i}, candidates);
      if FirstValid(log + {i}, candidates).Some? { InvalidatedAfter(log, i, FirstValid(log + {i}, candidates).value); }
    }
  }

  lemma {:induction false} FirstValidIsValid(log: Log, candidates: seq<Context>)
    ensures FirstValid(log, candidates).Some? ==> !Invalidated(log, FirstValid(log, candidates).value)
  {
    if candidates != [] { FirstValidIsValid(log, candidates[1..]); }
  }

  lemma InvalidatedAfter(log: Log, i: Invalidation, c: Context)
    ensures Invalidated(log + {i}, c) <==> Invalidated(log, c) || Matches(i, c)
  {
    assert i in log + {i};
    if Invalidated(log, c) {
      var j :| j in log && Matches(j, c);
      assert j in log + {i};
    }
  }

  /**
   An invalidation changes the answer for an entity exactly when it matches the context that was the answer: that component
   version is bound by it, and the invalidation is for this entity or the whole workspace.
   */
  lemma InvalidationChangesExactly(s: Store, i: Invalidation, entity: Entity)
    ensures var before, after := LatestValid(s, entity), LatestValid(Handle(s, Invalidate(i)).0, entity);
            && (after != before <==> before.Some? && Matches(i, before.value))
            && (after.Some? ==> !Matches(i, after.value))
  {
    assert Handle(s, Invalidate(i)).0.invalidations == s.invalidations + {i};
    FirstValidAfter(s.invalidations, i, Candidates(s.contexts, entity));
  }

  /** An invalidation for one entity changes no other entity's answer. */
  lemma OtherEntitiesKeepTheirs(s: Store, i: Invalidation, entity: Entity)
    requires i.entity.Some? && i.entity.value != entity
    ensures LatestValid(Handle(s, Invalidate(i)).0, entity) == LatestValid(s, entity)
  {
    InvalidationChangesExactly(s, i, entity);
    var k := LatestValidIsLatest(s, entity);
  }

  /** The same invalidation again, at any later time, adds nothing. */
  lemma InvalidationIsIdempotent(s: Store, i: Invalidation, requests: seq<Request>)
    ensures var later := RunAll(Handle, Handle(s, Invalidate(i)).0, requests).0;
            Handle(later, Invalidate(i)) == (later, Unchanged)
  {
    StoreGrows(Handle(s, Invalidate(i)).0, requests);
  }

  /**
   A saved context becomes the answer of its entity exactly when it is valid from the start and not captured before the
   answer so far; saved after an invalidation of a component version it binds, it is never the answer.
   */
  lemma SaveChangesExactly(s: Store, c: Context, entity: Entity)
    requires Handle(s, Save(c)).1 == Inserted
    ensures LatestValid(Handle(s, Save(c)).0, entity)
         == if c.entity == entity then Better(s.invalidations, LatestValid(s, entity), c) else LatestValid(s, entity)
  {
    LookupIsBest(s.invalidations, s.contexts, entity);
    LookupIsBest(s.invalidations, s.contexts + [c], entity);
    assert (s.contexts + [c])[..|s.contexts|] == s.contexts;
  }

  /** The number reported by an invalidation is zero exactly when it matches no stored context. */
  lemma {:induction false} AffectedExactly(contexts: seq<Context>, i: Invalidation)
    ensures Affected(contexts, i) == |set n | 0 <= n < |contexts| && Matches(i, contexts[n])|
  {
    if contexts != [] {
      var n := |contexts| - 1;
      var front := contexts[..n];
      AffectedExactly(front, i);
      var earlier := set m | 0 <= m < n && Matches(i, front[m]);
      var all := set m | 0 <= m < |contexts| && Matches(i, contexts[m]);
      if Matches(i, contexts[n]) {
        assert all == earlier + {n};
      } else {
        assert all == earlier;
      }
    }
  }
}
