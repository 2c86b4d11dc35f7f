/**
 Campaign contexts and their invalidation: contexts are immutable, an invalidation names one version of one component for
 an entity or for the whole workspace, and the current context of an entity is the latest one that nothing invalidates.
 */
module ContextInvalidation {
  import opened Options

  datatype Entity = Entity(kind: string, ref: string)

  datatype Component = Component(kind: string, ref: string, version: string)

  /** A context; its hash is a digest of all of it, so contexts with one hash are one context. */
  datatype Context = Context(
    identity: string, entity: Entity, capturedAt: int, components: set<Component>, bindsRegistries: bool, content: string)

  /** Without an entity it holds for the whole workspace. */
  datatype Invalidation = Invalidation(component: Component, entity: Option<Entity>, reason: string, observedAt: int)

  /** Contexts in the order they were saved, and all invalidations. */
  datatype Store = Store(contexts: seq<Context>, invalidations: set<Invalidation>)

  datatype Request = Save(context: Context) | Invalidate(invalidation: Invalidation)

  datatype Reply = Inserted | Unchanged | InvalidInput | IdentityConflict

  predicate Matches(i: Invalidation, c: Context) {
    i.component in c.components && (i.entity.None? || i.entity.value == c.entity)
  }

  predicate Invalidated(invalidations: set<Invalidation>, c: Context) { exists i :: i in invalidations && Matches(i, c) }

  function Handle(s: Store, r: Request): (Store, Reply) {
    match r
    case Save(c) =>
      if c in s.contexts then (s, Unchanged)
      else if !c.bindsRegistries then (s, InvalidInput)
      else if exists d :: d in s.contexts && d.identity == c.identity then (s, IdentityConflict)
      else (s.(contexts := s.contexts + [c]), Inserted)
    case Invalidate(i) =>
      if i in s.invalidations then (s, Unchanged) else (s.(invalidations := s.invalidations + {i}), Inserted)
  }

  /******* Lookup *******/

  /** Puts a context before those captured no later: what was saved last comes first among equals. */
  function InsertLatest(c: Context, ordered: seq<Context>): seq<Context> {
    if ordered == [] || ordered[0].capturedAt <= c.capturedAt then [c] + ordered
    else [ordered[0]] + InsertLatest(c, ordered[1..])
  }

  /** The contexts of an entity, the latest captured first, then the last saved. */
  function Candidates(contexts: seq<Context>, entity: Entity): seq<Context> {
    if contexts == [] then []
    else
      var n := |contexts| - 1;
      var earlier := Candidates(contexts[..n], entity);
      if contexts[n].entity == entity then InsertLatest(contexts[n], earlier) else earlier
  }

  function FirstValid(invalidations: set<Invalidation>, candidates: seq<Context>): Option<Context> {
    if candidates == [] then None
    else if !Invalidated(invalidations, candidates[0]) then Some(candidates[0])
    else FirstValid(invalidations, candidates[1..])
  }

  function LatestValid(s: Store, entity: Entity): Option<Context> {
    FirstValid(s.invalidations, Candidates(s.contexts, entity))
  }

  /** How many contexts an invalidation concerns. */
  function Affected(contexts: seq<Context>, i: Invalidation): nat {
    if contexts == [] then 0
    else Affected(contexts[..|contexts| - 1], i) + if Matches(i, contexts[|contexts| - 1]) then 1 else 0
  }

  /******* The repository *******/

  class Repository {
    var contexts: seq<Context>
    var invalidations: set<Invalidation>

    function Current(): Store
      reads this
    {
      Store(contexts, invalidations)
    }

    constructor Empty()
      ensures Current() == Store([], {})
    {
      contexts, invalidations := [], {};
    }

    method SaveContext(c: Context) returns (reply: Reply)
      modifies this`contexts
      ensures (Current(), reply) == Handle(old(Current()), Save(c))
    {
      for i := 0 to |contexts|
        invariant c !in contexts[..i]
      {
        assert contexts[..i + 1] == contexts[..i] + [contexts[i]];
        if contexts[i] == c { return Unchanged; }
      }
      assert contexts[..|contexts|] == contexts;
      if !c.bindsRegistries { return InvalidInput; }
      for i := 0 to |contexts|
        invariant forall d :: d in contexts[..i] ==> d.identity != c.identity
      {
        assert contexts[..i + 1] == contexts[..i] + [contexts[i]];
        if contexts[i].identity == c.identity { return IdentityConflict; }
      }
      contexts := contexts + [c];
      return Inserted;
    }

    method InvalidateComponent(i: Invalidation) returns (reply: Reply, affected: nat)
      modifies this`invalidations
      ensures (Current(), reply) == Handle(old(Current()), Invalidate(i))
      ensures affected == Affected(contexts, i)
    {
      reply := Unchanged;
      if i !in invalidations {
        invalidations := invalidations + {i};
        reply := Inserted;
      }
      affected := 0;
      for n := 0 to |contexts|
        invariant affected == Affected(contexts[..n], i)
      {
        assert contexts[..n + 1][..n] == contexts[..n];
        if Matches(i, contexts[n]) { affected := affected + 1; }
      }
      assert contexts[..|contexts|] == contexts;
    }

    /** Goes through the candidates, latest first, to the first that nothing invalidates. */
    method LoadLatestValid(entity: Entity) returns (found: Option<Context>)
      ensures found == LatestValid(Current(), entity)
    {
      var candidates := Candidates(contexts, entity);
      for n := 0 to |candidates|
        invariant FirstValid(invalidations, candidates[n..]) == FirstValid(invalidations, candidates)
      {
        if !Invalidated(invalidations, candidates[n]) { return Some(candidates[n]); }
      }
      return None;
    }
  }
}
