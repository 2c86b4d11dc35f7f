/** The answers of the context store, told from the components that contexts bind and that invalidations name. */
module ContextInvalidationRules {
  import opened Options
  import opened ContextInvalidation
  import opened ContextInvalidationTheorems

  /** The invalidation names a component of the context in just this version, for everyone or for the context's entity. */
  ghost predicate Hits(i: Invalidation, c: Context) {
    && (exists k :: k in c.components
          && k.kind == i.component.kind && k.ref == i.component.ref && k.version == i.component.version)
    && (i.entity == None || (i.entity.value.kind == c.entity.kind && i.entity.value.ref == c.entity.ref))
  }

  lemma MatchesExactly(i: Invalidation, c: Context)
    ensures Matches(i, c) <==> Hits(i, c)
  {
    if Matches(i, c) { assert i.component in c.components; }
    if Hits(i, c) {
      var k :| k in c.components && k.kind == i.component.kind && k.ref == i.component.ref && k.version == i.component.version;
      assert k == i.component;
      if i.entity.Some? { assert i.entity.value == c.entity; }
    }
  }

  /** Nothing in the log hits the context. */
  ghost predicate Stands(s: Store, c: Context) { forall i :: i in s.invalidations ==> !Hits(i, c) }

  lemma StandsExactly(s: Store, c: Context, entity: Entity)
    ensures ValidFor(s.invalidations, c, entity) <==> c.entity == entity && Stands(s, c)
  {
    forall i ensures Matches(i, c) <==> Hits(i, c) { MatchesExactly(i, c); }
  }

  /** A context of the entity that still stands, and none that stands was captured later, or then and saved later. */
  ghost predicate IsAnswer(s: Store, entity: Entity, n: nat)
    requires n < |s.contexts|
  {
    && s.contexts[n].entity == entity && Stands(s, s.contexts[n])
    && forall m :: 0 <= m < |s.contexts| && s.contexts[m].entity == entity && Stands(s, s.contexts[m]) ==>
         s.contexts[m].capturedAt < s.contexts[n].capturedAt
         || (s.contexts[m].capturedAt == s.contexts[n].capturedAt && m <= n)
  }

  lemma LatestTold(s: Store, entity: Entity, n: nat)
    requires n < |s.contexts|
    ensures ValidFor(s.invalidations, s.contexts[n], entity) && IsLatest(s.invalidations, s.contexts, entity, n)
       <==> IsAnswer(s, entity, n)
  {
    forall c ensures ValidFor(s.invalidations, c, entity) <==> c.entity == entity && Stands(s, c) {
      StandsExactly(s, c, entity);
    }
  }

  /**
   The lookup answers a context exactly if it stands and is the latest captured, or then the latest saved, of the entity's
   contexts that stand; it answers none exactly if none stands.
   */
  lemma LookupExactly(s: Store, entity: Entity)
    ensures LatestValid(s, entity) == None
       <==> forall n :: 0 <= n < |s.contexts| && s.contexts[n].entity == entity ==> !Stands(s, s.contexts[n])
    ensures forall n :: 0 <= n < |s.contexts| && IsAnswer(s, entity, n) ==> LatestValid(s, entity) == Some(s.contexts[n])
    ensures LatestValid(s, entity).Some? ==>
              exists n :: 0 <= n < |s.contexts| && IsAnswer(s, entity, n) && LatestValid(s, entity).value == s.contexts[n]
  {
    var k := LatestValidIsLatest(s, entity);
    forall n | 0 <= n < |s.contexts|
      ensures ValidFor(s.invalidations, s.contexts[n], entity) <==> s.contexts[n].entity == entity && Stands(s, s.contexts[n])
    {
      StandsExactly(s, s.contexts[n], entity);
    }
    if LatestValid(s, entity).Some? { LatestTold(s, entity, k); }
    forall n | 0 <= n < |s.contexts| && IsAnswer(s, entity, n) ensures LatestValid(s, entity) == Some(s.contexts[n]) {
      assert ValidFor(s.invalidations, s.contexts[n], entity);
      assert n == k;
    }
  }

  /**
   A context is saved exactly if it binds its registries and neither it nor another of its identity is stored; what was
   stored before is unchanged, and an equal context is not stored twice.
   */
  lemma SavesExactly(s: Store, c: Context)
    ensures Handle(s, Save(c))
         == if exists n :: 0 <= n < |s.contexts| && s.contexts[n] == c then (s, Unchanged)
            else if !c.bindsRegistries then (s, InvalidInput)
            else if exists n :: 0 <= n < |s.contexts| && s.contexts[n].identity == c.identity then (s, IdentityConflict)
            else (Store(s.contexts + [c], s.invalidations), Inserted)
  {
    assert c in s.contexts <==> exists n :: 0 <= n < |s.contexts| && s.contexts[n] == c;
    assert (exists d :: d in s.contexts && d.identity == c.identity)
      <==> exists n :: 0 <= n < |s.contexts| && s.contexts[n].identity == c.identity;
  }

  /** An invalidation is logged unless the same one is there; the number it reports is that of the contexts it hits. */
  lemma InvalidatesExactly(s: Store, i: Invalidation)
    ensures Handle(s, Invalidate(i))
         == (Store(s.contexts, s.invalidations + {i}), if i in s.invalidations then Unchanged else Inserted)
    ensures Affected(s.contexts, i) == |set n | 0 <= n < |s.contexts| && Hits(i, s.contexts[n])|
  {
    AffectedExactly(s.contexts, i);
    forall c ensures Matches(i, c) <==> Hits(i, c) { MatchesExactly(i, c); }
    assert (set n | 0 <= n < |s.contexts| && Matches(i, s.contexts[n]))
        == set n | 0 <= n < |s.contexts| && Hits(i, s.contexts[n]);
    if i in s.invalidations { assert s.invalidations + {i} == s.invalidations; }
  }
}
