/** The walk along the causes of an error, which may form a cycle. */
module CauseChain {
  import opened Options

  /** An error as the driver wraps it; a cause that is not an object is absent. */
  class Failure {
    var constraint: Option<string>
    var message: Option<string>
    var cause: Failure?

    constructor (constraint: Option<string>, message: Option<string>, cause: Failure?)
      ensures this.constraint == constraint && this.message == message && this.cause == cause
    {
      this.constraint, this.message, this.cause := constraint, message, cause;
    }
  }

  predicate StartsAt(s: string, t: string, i: nat) { i + |t| <= |s| && s[i..i + |t|] == t }

  predicate Contains(s: string, t: string) { exists i :: 0 <= i <= |s| && StartsAt(s, t, i) }

  /** The failure is about the constraint: it carries its name, or its message mentions it. */
  predicate Names(f: Failure, constraint: string)
    reads f
  {
    f.constraint == Some(constraint) || (f.message.Some? && Contains(f.message.value, constraint))
  }

  /** That is: its constraint is the one, or its message reads something, the constraint, and something more. */
  lemma NamesExactly(f: Failure, constraint: string)
    ensures Names(f, constraint)
       <==> f.constraint == Some(constraint)
            || exists before: string, after: string :: f.message == Some(before + constraint + after)
  {
    if f.message.Some? && Contains(f.message.value, constraint) {
      var s := f.message.value;
      var i :| 0 <= i <= |s| && StartsAt(s, constraint, i);
      assert s == s[..i] + constraint + s[i + |constraint|..];
    }
    if before: string, after: string :| f.message == Some(before + constraint + after) {
      var s := f.message.value;
      assert StartsAt(s, constraint, |before|) by { assert s[|before|..|before| + |constraint|] == constraint; }
    }
  }

  /** Objects that contain all their causes. */
  predicate Closed(objects: set<Failure>)
    reads objects
  {
    forall f :: f in objects && f.cause != null ==> f.cause in objects
  }

  /** The object n causes away, if the chain is that long. */
  function Nth(objects: set<Failure>, start: Failure?, n: nat): (f: Failure?)
    requires Closed(objects) && (start != null ==> start in objects)
    reads objects
    ensures f != null ==> f in objects
    decreases n
  {
    if n == 0 || start == null then start else Nth(objects, start.cause, n - 1)
  }

  /** Some object along the chain, however long, is about the constraint. */
  ghost predicate SomeCauseNames(objects: set<Failure>, start: Failure?, constraint: string)
    requires Closed(objects) && (start != null ==> start in objects)
    reads objects
  {
    exists n: nat :: Nth(objects, start, n) != null && Names(Nth(objects, start, n), constraint)
  }

  lemma {:induction false} NthStep(objects: set<Failure>, start: Failure?, n: nat)
    requires Closed(objects) && (start != null ==> start in objects)
    ensures Nth(objects, start, n + 1) == if Nth(objects, start, n) == null then null else Nth(objects, start, n).cause
    decreases n
  {
    if n > 0 && start != null { NthStep(objects, start.cause, n - 1); }
  }

  /** A chain does not leave a set that contains the causes of its members. */
  lemma {:induction false} StaysInside(objects: set<Failure>, inside: set<Failure>, start: Failure?, n: nat)
    requires Closed(objects) && Closed(inside) && inside <= objects && (start != null ==> start in inside)
    ensures Nth(objects, start, n) != null ==> Nth(objects, start, n) in inside
    decreases n
  {
    if n > 0 && start != null { StaysInside(objects, inside, start.cause, n - 1); }
  }

  /** Members of a closed set that does not name the constraint never lead to it. */
  lemma NothingInside(objects: set<Failure>, inside: set<Failure>, start: Failure?, constraint: string)
    requires Closed(objects) && Closed(inside) && inside <= objects && (start != null ==> start in inside)
    requires forall f :: f in inside ==> !Names(f, constraint)
    ensures !SomeCauseNames(objects, start, constraint)
  {
    forall n: nat ensures !(Nth(objects, start, n) != null && Names(Nth(objects, start, n), constraint)) {
      StaysInside(objects, inside, start, n);
    }
  }

  /**
   The walk with its visited set: on any finite graph of failures, cycles included, it ends, and answers true exactly when
   some object along the causes is about the constraint.
   */
  method CausedByConstraint(error: Failure?, constraint: string, ghost objects: set<Failure>) returns (found: bool)
    requires Closed(objects) && (error != null ==> error in objects)
    ensures found <==> SomeCauseNames(objects, error, constraint)
  {
    var visited: set<Failure> := {};
    var current := error;
    ghost var steps := 0;
    while current != null && current !in visited
      invariant current == Nth(objects, error, steps)
      invariant visited <= objects && forall f :: f in visited ==> !Names(f, constraint)
      invariant forall f :: f in visited && f.cause != null && f.cause != current ==> f.cause in visited
      invariant error != null ==> error in visited || error == current
      decreases objects - visited
    {
      visited := visited + {current};
      if Names(current, constraint) { return true; }
      NthStep(objects, error, steps);
      current := current.cause;
      steps := steps + 1;
    }
    NothingInside(objects, visited, error, constraint);
    return false;
  }
}
