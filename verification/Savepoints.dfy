/**
 The savepoint helpers of the acceptance scripts: each runs a step that is expected to fail inside one outer transaction.
 `Run` is what PostgreSQL does with a stack of named savepoints; `Nested` is what the scripts rely on, a transaction inside
 a transaction. The main result is that the first refines the second whenever no helper's name is used again inside it.
 */
module Savepoints {
  import opened Options

  /** Rows and `set local` settings; a savepoint captures both. */
  datatype Db = Db(rows: map<string, string>, settings: map<string, string>)

  datatype Mark = Mark(name: string, saved: Db)

  /** An open transaction: current data, its savepoints (oldest first), and whether a statement has failed. */
  datatype State = State(db: Db, marks: seq<Mark>, aborted: bool)

  /** The position after the newest savepoint with this name; 0 when there is none. */
  function Newest(marks: seq<Mark>, name: string): (n: nat)
    ensures n <= |marks|
    ensures n > 0 ==> marks[n - 1].name == name
    ensures forall i :: n <= i < |marks| ==> marks[i].name != name
  {
    if marks == [] then 0
    else if marks[|marks| - 1].name == name then |marks|
    else Newest(marks[..|marks| - 1], name)
  }

  /******* Statements; the boolean says that the driver threw *******/

  function Push(s: State, name: string): (State, bool) {
    if s.aborted then (s, true) else (s.(marks := s.marks + [Mark(name, s.db)]), false)
  }

  function RollbackTo(s: State, name: string): (State, bool) {
    var n := Newest(s.marks, name);
    if n == 0 then (s.(aborted := true), true)
    else (State(s.marks[n - 1].saved, s.marks[..n], false), false)
  }

  function Release(s: State, name: string): (State, bool) {
    var n := Newest(s.marks, name);
    if s.aborted || n == 0 then (s.(aborted := true), true)
    else (s.(marks := s.marks[..n - 1]), false)
  }

  function Query(s: State, effect: Db -> Option<Db>): (State, bool) {
    if s.aborted || effect(s.db).None? then (s.(aborted := true), true)
    else (s.(db := effect(s.db).value), false)
  }

  /** The newest savepoint of the name stands at this place: it has the name, and none after it has. */
  predicate StandsAt(marks: seq<Mark>, name: string, n: nat) {
    n < |marks| && marks[n].name == name && forall i :: n < i < |marks| ==> marks[i].name != name
  }

  /**
   The four statements. In an aborted transaction only a rollback to a savepoint that is there does not fail; a statement that
   fails changes no data and aborts the transaction. A rollback to a savepoint keeps it and drops those after it; a release
   drops it, too, and keeps the data.
   */
  lemma StatementsTold(s: State, name: string, n: nat, effect: Db -> Option<Db>)
    ensures Push(s, name) == if s.aborted then (s, true) else (State(s.db, s.marks + [Mark(name, s.db)], false), false)
    ensures StandsAt(s.marks, name, n) ==> RollbackTo(s, name) == (State(s.marks[n].saved, s.marks[..n + 1], false), false)
    ensures StandsAt(s.marks, name, n) && !s.aborted ==> Release(s, name) == (State(s.db, s.marks[..n], false), false)
    ensures (forall i :: 0 <= i < |s.marks| ==> s.marks[i].name != name) ==>
              RollbackTo(s, name) == Release(s, name) == (State(s.db, s.marks, true), true)
    ensures s.aborted ==> Release(s, name) == Query(s, effect) == (s, true)
    ensures !s.aborted ==> Query(s, effect) == match effect(s.db) {
                             case None => (State(s.db, s.marks, true), true)
                             case Some(db) => (State(db, s.marks, false), false)
                           }
  {
    var m := Newest(s.marks, name);
    if StandsAt(s.marks, name, n) { assert m == n + 1; }
  }

  /******* Programs *******/

  /** The helpers, by the script that defines them. */
  datatype Helper =
    | RejectedSql             // release on success; roll back and release on failure
    | LedgerRejected          // release on success; roll back on failure, savepoint kept
    | TemplateRejected        // roll back in both cases, savepoint kept
    | CeilingRejected         // roll back in a finally block, savepoint kept
    | ExpectedFailure         // nothing on success; roll back on failure, savepoint kept
    | RepositoryTransaction   // release on success; roll back, release and rethrow on failure
    | Probe                   // no catch around the step; roll back and release when it returns

  datatype Work =
    | Skip
    | Statement(effect: Db -> Option<Db>)
    | Raise
    | Then(first: Work, second: Work)
    | Swallow(work: Work)     // try/catch without a savepoint; reports whether the step threw
    | Guard(helper: Helper, name: string, work: Work)

  /** How a program ends: the transaction, whether an exception escapes, and the flags reported on the way. */
  datatype Outcome = Outcome(state: State, threw: bool, flags: seq<bool>)

  function Run(w: Work, s: State): Outcome {
    match w
    case Skip => Outcome(s, false, [])
    case Statement(effect) => var (s', threw) := Query(s, effect); Outcome(s', threw, [])
    case Raise => Outcome(s, true, [])
    case Then(first, second) =>
      var a := Run(first, s);
      if a.threw then a
      else var b := Run(second, a.state); Outcome(b.state, b.threw, a.flags + b.flags)
    case Swallow(work) =>
      var a := Run(work, s);
      Outcome(a.state, false, a.flags + [a.threw])
    case Guard(helper, name, work) =>
      var (s0, failed) := Push(s, name);
      if failed then Outcome(s0, true, [])
      else Finish(helper, name, Run(work, s0))
  }

  /** What a helper does once its step has ended as `a`. */
  function Finish(helper: Helper, name: string, a: Outcome): Outcome {
    match helper
    case RejectedSql =>
      var (s1, failed) := Release(a.state, name);
      if !a.threw && !failed then Outcome(s1, false, a.flags + [false])
      else RollbackAndRelease(name, if a.threw then a.state else s1, a.flags + [true])
    case LedgerRejected =>
      var (s1, failed) := Release(a.state, name);
      if !a.threw && !failed then Outcome(s1, false, a.flags + [false])
      else RollbackOnly(name, if a.threw then a.state else s1, a.flags + [true])
    case TemplateRejected =>
      RollbackOnly(name, a.state, a.flags + [a.threw])
    case CeilingRejected =>
      RollbackOnly(name, a.state, a.flags + [a.threw])
    case ExpectedFailure =>
      if !a.threw then Outcome(a.state, false, a.flags + [false])
      else RollbackOnly(name, a.state, a.flags + [true])
    case RepositoryTransaction =>
      var (s1, failed) := Release(a.state, name);
      if !a.threw && !failed then Outcome(s1, false, a.flags)
      else RollbackAndRelease(name, if a.threw then a.state else s1, a.flags).(threw := true)
    case Probe =>
      if a.threw then a else RollbackAndRelease(name, a.state, a.flags)
  }

  function RollbackOnly(name: string, s: State, flags: seq<bool>): Outcome {
    var (s1, failed) := RollbackTo(s, name);
    Outcome(s1, failed, flags)
  }

  function RollbackAndRelease(name: string, s: State, flags: seq<bool>): Outcome {
    var (s1, failed) := RollbackTo(s, name);
    if failed then Outcome(s1, true, flags)
    else var (s2, failed2) := Release(s1, name); Outcome(s2, failed2, flags)
  }

  /******* The reference: nested transactions, without any stack of names *******/

  datatype View = View(db: Db, aborted: bool, threw: bool, flags: seq<bool>)

  function Nested(w: Work, db: Db, aborted: bool): View {
    match w
    case Skip => View(db, aborted, false, [])
    case Statement(effect) =>
      if aborted || effect(db).None? then View(db, true, true, []) else View(effect(db).value, false, false, [])
    case Raise => View(db, aborted, true, [])
    case Then(first, second) =>
      var a := Nested(first, db, aborted);
      if a.threw then a
      else var b := Nested(second, a.db, a.aborted); b.(flags := a.flags + b.flags)
    case Swallow(work) =>
      var a := Nested(work, db, aborted);
      a.(threw := false, flags := a.flags + [a.threw])
    case Guard(helper, name, work) =>
      if aborted then View(db, true, true, []) else Ended(helper, db, Nested(work, db, false))
  }

  /** The end of a nested transaction whose step ended as `a`; `db` is what it goes back to when it is rolled back. */
  function Ended(helper: Helper, db: Db, a: View): View {
    var failed := a.threw || a.aborted;
    match helper
    case RejectedSql => View(if failed then db else a.db, false, false, a.flags + [failed])
    case LedgerRejected => View(if failed then db else a.db, false, false, a.flags + [failed])
    case TemplateRejected => View(db, false, false, a.flags + [a.threw])
    case CeilingRejected => View(db, false, false, a.flags + [a.threw])
    case ExpectedFailure => View(if a.threw then db else a.db, !a.threw && a.aborted, false, a.flags + [a.threw])
    case RepositoryTransaction => View(if failed then db else a.db, false, failed, a.flags)
    case Probe => if a.threw then a else View(db, false, false, a.flags)
  }

  /** The names of savepoints a program may leave on the stack. */
  function Kept(w: Work): set<string> {
    match w
    case Then(first, second) => Kept(first) + Kept(second)
    case Swallow(work) => Kept(work)
    case Guard(helper, name, work) =>
      (match helper
       case RejectedSql => {}
       case RepositoryTransaction => {}
       case LedgerRejected => {name}
       case TemplateRejected => {name}
       case CeilingRejected => {name}
       case ExpectedFailure => {name} + Kept(work)
       case Probe => {name} + Kept(work))
    case _ => {}
  }

  /** No step inside a helper may leave a savepoint with that helper's name. Using the name again afterwards is fine. */
  predicate FreshNesting(w: Work) {
    match w
    case Then(first, second) => FreshNesting(first) && FreshNesting(second)
    case Swallow(work) => FreshNesting(work)
    case Guard(_, name, work) => name !in Kept(work) && FreshNesting(work)
    case _ => true
  }

  /** Savepoints left above `base`, all named by the program. */
  predicate LeftAbove(base: seq<Mark>, marks: seq<Mark>, names: set<string>) {
    base <= marks && forall i :: |base| <= i < |marks| ==> marks[i].name in names
  }

  lemma NewestIsOwn(base: seq<Mark>, own: Mark, marks: seq<Mark>, names: set<string>)
    requires LeftAbove(base + [own], marks, names) && own.name !in names
    ensures Newest(marks, own.name) == |base| + 1
    ensures marks[..|base| + 1] == base + [own] && marks[..|base|] == base
  {
    assert marks[|base|] == own;
  }

  /** What can be seen of an outcome without its stack. */
  function ViewOf(o: Outcome): View { View(o.state.db, o.state.aborted, o.threw, o.flags) }

  /** The savepoint that a rollback to the name would go back to. */
  function Target(marks: seq<Mark>, name: string): Option<Mark> {
    var n := Newest(marks, name);
    if n == 0 then None else Some(marks[n - 1])
  }

  lemma TargetIsOwn(base: seq<Mark>, own: Mark, marks: seq<Mark>, names: set<string>)
    requires LeftAbove(base + [own], marks, names) && own.name !in names
    ensures Target(marks, own.name) == Some(own)
  {
    NewestIsOwn(base, own, marks, names);
    assert marks[|base|] == own;
  }

  /** A helper ends like a nested transaction that goes back to the newest savepoint of its name, whosever that is. */
  lemma FinishEnds(helper: Helper, name: string, a: Outcome, mark: Mark)
    requires Target(a.state.marks, name) == Some(mark)
    ensures ViewOf(Finish(helper, name, a)) == Ended(helper, mark.saved, ViewOf(a))
  {
    var n := Newest(a.state.marks, name);
    var marks := a.state.marks[..n];
    assert marks[n - 1] == mark && Newest(marks, name) == n;
  }

  /** What a helper leaves above the stack that it started on: nothing, its own savepoint, or all that its step left, too. */
  datatype Remains = Nothing | Own | All

  function RemainsOf(helper: Helper, threw: bool, aborted: bool): Remains {
    match helper
    case RejectedSql => Nothing
    case RepositoryTransaction => Nothing
    case LedgerRejected => if threw || aborted then Own else Nothing
    case TemplateRejected => Own
    case CeilingRejected => Own
    case ExpectedFailure => if threw then Own else All
    case Probe => if threw then All else Nothing
  }

  lemma FinishLeaves(helper: Helper, name: string, base: seq<Mark>, a: Outcome)
    requires Newest(a.state.marks, name) == |base| + 1 && a.state.marks[..|base|] == base
    ensures Finish(helper, name, a).state.marks
         == match RemainsOf(helper, a.threw, a.state.aborted) {
              case Nothing => base
              case Own => a.state.marks[..|base| + 1]
              case All => a.state.marks
            }
  {
    var own := a.state.marks[..|base| + 1];
    assert own[..|base|] == base;
    assert own[|base|].name == name && Newest(own, name) == |own|;
  }

  /** A helper whose own savepoint is still the newest of its name ends like a nested transaction. */
  lemma FinishRefines(helper: Helper, name: string, base: seq<Mark>, db: Db, a: Outcome, work: Work)
    requires LeftAbove(base + [Mark(name, db)], a.state.marks, Kept(work)) && name !in Kept(work)
    ensures LeftAbove(base, Finish(helper, name, a).state.marks, Kept(Guard(helper, name, work)))
    ensures ViewOf(Finish(helper, name, a)) == Ended(helper, db, ViewOf(a))
  {
    var own := Mark(name, db);
    NewestIsOwn(base, own, a.state.marks, Kept(work));
    TargetIsOwn(base, own, a.state.marks, Kept(work));
    FinishEnds(helper, name, a, own);
    FinishLeaves(helper, name, base, a);
  }

  /**
   From any usable transaction, whatever savepoints are already on its stack and whatever their names, a freshly nested
   program does exactly what nested transactions would do: the same data and settings, the same flags, the same escaping
   exception, the same usability. Every older savepoint is still there with its own snapshot.
   */
  lemma {:induction false} RunRefinesNested(w: Work, s: State)
    requires FreshNesting(w)
    ensures ViewOf(Run(w, s)) == Nested(w, s.db, s.aborted) && LeftAbove(s.marks, Run(w, s).state.marks, Kept(w))
    decreases w
  {
    match w
    case Then(first, second) =>
      RunRefinesNested(first, s);
      RunRefinesNested(second, Run(first, s).state);
    case Swallow(work) =>
      RunRefinesNested(work, s);
    case Guard(helper, name, work) =>
      if !s.aborted {
        var s0 := Push(s, name).0;
        RunRefinesNested(work, s0);
        FinishRefines(helper, name, s.marks, s.db, Run(work, s0), work);
      }
    case _ =>
  }

  /******* Consequences *******/

  /** A helper that reports a rejection leaves rows and local settings as they were on entry, and the transaction usable. */
  lemma RejectionRestores(helper: Helper, name: string, work: Work, s: State)
    requires FreshNesting(Guard(helper, name, work)) && !s.aborted
    requires !helper.Probe? && !helper.RepositoryTransaction?
    ensures var r := Run(Guard(helper, name, work), s);
            && !r.threw && r.flags != []
            && (r.flags[|r.flags| - 1] ==> r.state.db == s.db && !r.state.aborted)
  {
    RunRefinesNested(Guard(helper, name, work), s);
  }

  /** `set local session_replication_role = ...` */
  function SetReplicationRole(role: string): Db -> Option<Db> {
    (db: Db) => Some(Db(db.rows, db.settings["session_replication_role" := role]))
  }

  /** The step of a mutation probe: change a setting, apply the mutation, and see whether the service rejects. */
  function MutationStep(role: string, mutation: Db -> Option<Db>, execute: Work): Work {
    Then(Statement(SetReplicationRole(role)), Then(Statement(mutation), Swallow(execute)))
  }

  lemma MutationStepKeeps(role: string, mutation: Db -> Option<Db>, execute: Work)
    ensures Kept(MutationStep(role, mutation, execute)) == Kept(execute)
    ensures FreshNesting(MutationStep(role, mutation, execute)) == FreshNesting(execute)
  {
    var inner := Then(Statement(mutation), Swallow(execute));
    assert Kept(inner) == Kept(execute) && FreshNesting(inner) == FreshNesting(execute);
  }

  lemma MutationStepThrows(role: string, mutation: Db -> Option<Db>, execute: Work, s: State)
    requires !s.aborted
    ensures Run(MutationStep(role, mutation, execute), s).threw
       <==> mutation(SetReplicationRole(role)(s.db).value).None?
  {
    var s1 := s.(db := SetReplicationRole(role)(s.db).value);
    var rest := Then(Statement(mutation), Swallow(execute));
    assert Run(rest, s1).threw <==> mutation(s1.db).None?;
  }

  lemma NewestAfterPush(marks: seq<Mark>, own: Mark)
    ensures Newest(marks + [own], own.name) == |marks| + 1
    ensures (marks + [own])[..|marks|] == marks && (marks + [own])[..|marks| + 1] == marks + [own]
  {
    var all := marks + [own];
    assert all[|all| - 1] == own;
  }

  /** Rolling back to and releasing a helper's own savepoint undoes everything since it was pushed. */
  lemma RollbackAndReleaseOwn(name: string, s: State, after: State, names: set<string>)
    requires !s.aborted && LeftAbove(s.marks + [Mark(name, s.db)], after.marks, names) && name !in names
    ensures RollbackAndRelease(name, after, []).state == s && !RollbackAndRelease(name, after, []).threw
  {
    NewestIsOwn(s.marks, Mark(name, s.db), after.marks, names);
    NewestAfterPush(s.marks, Mark(name, s.db));
  }

  /** A mutation probe leaves no trace at all whenever it returns, and it returns whenever the mutation itself passes. */
  lemma ProbeLeavesNoTrace(name: string, role: string, mutation: Db -> Option<Db>, execute: Work, s: State)
    requires FreshNesting(execute) && name !in Kept(execute) && !s.aborted
    ensures var r := Run(Guard(Probe, name, MutationStep(role, mutation, execute)), s);
            if mutation(SetReplicationRole(role)(s.db).value).None? then r.threw else !r.threw && r.state == s
  {
    var w := MutationStep(role, mutation, execute);
    var s0 := Push(s, name).0;
    MutationStepKeeps(role, mutation, execute);
    MutationStepThrows(role, mutation, execute, s0);
    RunRefinesNested(w, s0);
    var a := Run(w, s0);
    assert Run(Guard(Probe, name, w), s) == Finish(Probe, name, a);
    if !a.threw { RollbackAndReleaseOwn(name, s, a.state, Kept(w)); }
  }

  /** An older savepoint restores the same data whether or not a program ran in between, if the program kept no namesake. */
  lemma OlderSavepointStillRestores(w: Work, s: State, name: string)
    requires FreshNesting(w) && name !in Kept(w) && Newest(s.marks, name) > 0
    ensures RollbackTo(Run(w, s).state, name) == RollbackTo(s, name)
  {
    RunRefinesNested(w, s);
    NewestBelow(s.marks, Run(w, s).state.marks, Kept(w), name);
  }

  lemma NewestBelow(base: seq<Mark>, marks: seq<Mark>, names: set<string>, name: string)
    requires LeftAbove(base, marks, names) && name !in names && Newest(base, name) > 0
    ensures var n := Newest(base, name); Newest(marks, name) == n && marks[..n] == base[..n] && marks[n - 1] == base[n - 1]
  {
    var n := Newest(base, name);
    assert marks[..|base|] == base;
    assert marks[n - 1] == base[n - 1];
    assert forall i :: 0 <= i < |base| ==> marks[i] == base[i];
  }

  /******* Reusing a name inside a helper *******/

  /** What the newest savepoint of this name that a program leaves behind holds, told from nested transactions alone. */
  function Left(w: Work, name: string, db: Db, aborted: bool): Option<Db> {
    match w
    case Then(first, second) =>
      var a := Nested(first, db, aborted);
      var early := Left(first, name, db, aborted);
      if a.threw then early else Left(second, name, a.db, a.aborted).Or(early)
    case Swallow(work) => Left(work, name, db, aborted)
    case Guard(helper, n, work) =>
      if aborted then None
      else
        var a := Nested(work, db, false);
        LeftBy(RemainsOf(helper, a.threw, a.aborted), if n == name then Some(db) else None, Left(work, name, db, false))
    case _ => None
  }

  function LeftBy(remains: Remains, own: Option<Db>, inside: Option<Db>): Option<Db> {
    match remains
    case Nothing => None
    case Own => own
    case All => inside.Or(own)
  }

  function MarkOf(name: string, left: Option<Db>): Option<Mark> {
    match left
    case None => None
    case Some(db) => Some(Mark(name, db))
  }

  lemma {:induction false} TargetOfPrefix(base: seq<Mark>, own: Mark, name: string)
    ensures Target(base + [own], name) == if own.name == name then Some(own) else Target(base, name)
  {
    var marks := base + [own];
    assert marks[|base|] == own && marks[..|base|] == base;
  }

  lemma LeftByGuard(helper: Helper, n: string, base: seq<Mark>, db: Db, a: Outcome, name: string, inside: Option<Db>)
    requires Newest(a.state.marks, n) == |base| + 1
    requires a.state.marks[..|base| + 1] == base + [Mark(n, db)] && a.state.marks[..|base|] == base
    requires Target(a.state.marks, name) == MarkOf(name, inside).Or(Target(base + [Mark(n, db)], name))
    ensures Target(Finish(helper, n, a).state.marks, name)
         == MarkOf(name, LeftBy(RemainsOf(helper, a.threw, a.state.aborted), if n == name then Some(db) else None, inside))
            .Or(Target(base, name))
  {
    FinishLeaves(helper, n, base, a);
    TargetOfPrefix(base, Mark(n, db), name);
  }

  /** A rollback after a program goes to the savepoint that the program left, if it left one of the name. */
  lemma {:induction false} LeftIsTarget(w: Work, s: State, name: string)
    requires FreshNesting(w)
    ensures Target(Run(w, s).state.marks, name) == MarkOf(name, Left(w, name, s.db, s.aborted)).Or(Target(s.marks, name))
    decreases w
  {
    match w
    case Then(first, second) =>
      LeftIsTarget(first, s, name);
      RunRefinesNested(first, s);
      LeftIsTarget(second, Run(first, s).state, name);
    case Swallow(work) =>
      LeftIsTarget(work, s, name);
    case Guard(helper, n, work) =>
      if !s.aborted {
        var s0 := Push(s, n).0;
        LeftIsTarget(work, s0, name);
        RunRefinesNested(work, s0);
        NewestIsOwn(s.marks, Mark(n, s.db), Run(work, s0).state.marks, Kept(work));
        LeftByGuard(helper, n, s.marks, s.db, Run(work, s0), name, Left(work, name, s.db, false));
      }
    case _ =>
  }

  /** The helper rolls back after a step that ended like this. */
  predicate RollsBack(helper: Helper, a: View) {
    match helper
    case TemplateRejected => true
    case CeilingRejected => true
    case ExpectedFailure => a.threw
    case Probe => !a.threw
    case _ => a.threw || a.aborted
  }

  /**
   Whatever a helper's step leaves behind, its own name included: it ends like a nested transaction, except that it goes
   back to the newest savepoint of its name that the step left. So the data differ from those of nested transactions exactly
   when the helper rolls back and the step left a savepoint of its name that was taken with other data than on entry.
   */
  lemma ReusedNameExactly(outer: Helper, name: string, step: Work, s: State)
    requires FreshNesting(step) && !s.aborted
    ensures var left, a := Left(step, name, s.db, false), Nested(step, s.db, false);
            var actual, nested := ViewOf(Run(Guard(outer, name, step), s)), Nested(Guard(outer, name, step), s.db, false);
            && actual == nested.(db := actual.db)
            && (RollsBack(outer, a) ==> actual.db == left.GetOr(s.db))
            && (actual == nested <==> RollsBack(outer, a) && left.Some? ==> left.value == s.db)
  {
    var s0 := Push(s, name).0;
    var a := Run(step, s0);
    RunRefinesNested(step, s0);
    LeftIsTarget(step, s0, name);
    TargetOfPrefix(s.marks, Mark(name, s.db), name);
    FinishEnds(outer, name, a, Mark(name, Left(step, name, s.db, false).GetOr(s.db)));
    assert Run(Guard(outer, name, step), s) == Finish(outer, name, a);
  }

  function InsertRow(id: string, row: string): Db -> Option<Db> {
    (db: Db) => Some(Db(db.rows[id := row], db.settings))
  }

  function FailingStatement(): Db -> Option<Db> {
    (db: Db) => None
  }

  /** So nesting one helper in another of the same name can lose the outer rollback: a row written before survives. */
  lemma ReusedNameLosesRollback()
    ensures var s := State(Db(map[], map[]), [], false);
            var inner := Guard(LedgerRejected, "negative", Statement(FailingStatement()));
            var w := Guard(LedgerRejected, "negative", Then(Statement(InsertRow("id", "row")), Then(inner, Raise)));
            && !FreshNesting(w)
            && Run(w, s).state.db.rows == map["id" := "row"] && Nested(w, s.db, false).db.rows == map[]
  {
    var s := State(Db(map[], map[]), [], false);
    var inner := Guard(LedgerRejected, "negative", Statement(FailingStatement()));
    var rest := Then(inner, Raise);
    var db := InsertRow("id", "row")(s.db).value;
    ReusedNameExactly(LedgerRejected, "negative", Then(Statement(InsertRow("id", "row")), rest), s);
    assert Kept(rest) == {"negative"};
    assert Left(inner, "negative", db, false) == Some(db) && Nested(rest, db, false).threw;
    assert Left(rest, "negative", db, false) == Some(db);
  }

  /******* The transaction as the scripts drive it *******/

  class Transaction {
    var committed: Db
    var db: Db
    var marks: seq<Mark>
    var aborted: bool

    function Current(): State
      reads this
    {
      State(db, marks, aborted)
    }

    constructor Begin(committed: Db)
      ensures this.committed == committed && Current() == State(committed, [], false)
    {
      this.committed, db, marks, aborted := committed, committed, [], false;
    }

    method Savepoint(name: string) returns (threw: bool)
      modifies this`db, this`marks, this`aborted
      ensures (Current(), threw) == Push(old(Current()), name)
    {
      threw := aborted;
      if !aborted { marks := marks + [Mark(name, db)]; }
    }

    /** Looks for the newest savepoint with this name, from the top of the stack down. */
    method Find(name: string) returns (n: nat)
      ensures n == Newest(marks, name)
    {
      n := |marks|;
      while n > 0 && marks[n - 1].name != name
        invariant n <= |marks| && Newest(marks[..n], name) == Newest(marks, name)
      {
        assert marks[..n][..n - 1] == marks[..n - 1];
        n := n - 1;
      }
    }

    method RollbackToSavepoint(name: string) returns (threw: bool)
      modifies this`db, this`marks, this`aborted
      ensures (Current(), threw) == RollbackTo(old(Current()), name)
    {
      var n := Find(name);
      threw := n == 0;
      if n == 0 {
        aborted := true;
      } else {
        db, marks, aborted := marks[n - 1].saved, marks[..n], false;
      }
    }

    method ReleaseSavepoint(name: string) returns (threw: bool)
      modifies this`db, this`marks, this`aborted
      ensures (Current(), threw) == Release(old(Current()), name)
    {
      var n := Find(name);
      threw := aborted || n == 0;
      if threw { aborted := true; } else { marks := marks[..n - 1]; }
    }

    method Execute(effect: Db -> Option<Db>) returns (threw: bool)
      modifies this`db, this`marks, this`aborted
      ensures (Current(), threw) == Query(old(Current()), effect)
    {
      threw := aborted;
      if !aborted {
        match effect(db)
        case None => threw := true;
        case Some(changed) => db := changed;
      }
      if threw { aborted := true; }
    }

    method Rollback()
      modifies this`db, this`marks, this`aborted
      ensures Current() == State(committed, [], false)
    {
      db, marks, aborted := committed, [], false;
    }

    /** Ends the transaction and makes its data the committed data, unless a statement has failed. */
    method Commit()
      modifies this
      ensures committed == if old(aborted) then old(committed) else old(db)
      ensures Current() == State(committed, [], false)
    {
      if !aborted { committed := db; }
      db, marks, aborted := committed, [], false;
    }

    /** A whole verifier: whatever it does, and however it ends, the rollback brings back the committed data. */
    method Verify(w: Work) returns (threw: bool, flags: seq<bool>)
      modifies this
      ensures committed == old(committed) && Current() == State(old(committed), [], false)
      ensures flags == Run(w, old(Current())).flags && threw == Run(w, old(Current())).threw
    {
      threw, flags := Perform(w);
      Rollback();
    }

    /** Runs a program statement by statement. */
    method Perform(w: Work) returns (threw: bool, flags: seq<bool>)
      modifies this`db, this`marks, this`aborted
      ensures Outcome(Current(), threw, flags) == Run(w, old(Current()))
      decreases w
    {
      threw, flags := false, [];
      match w
      case Skip =>
      case Statement(effect) =>
        threw := Execute(effect);
      case Raise =>
        threw := true;
      case Then(first, second) =>
        threw, flags := Perform(first);
        if !threw {
          var more;
          threw, more := Perform(second);
          flags := flags + more;
        }
      case Swallow(work) =>
        threw, flags := Perform(work);
        threw, flags := false, flags + [threw];
      case Guard(helper, name, work) =>
        threw := Savepoint(name);
        if !threw {
          threw, flags := Perform(work);
          threw, flags := Conclude(helper, name, threw, flags);
        }
    }

    method Conclude(helper: Helper, name: string, stepThrew: bool, stepFlags: seq<bool>)
      returns (threw: bool, flags: seq<bool>)
      modifies this`db, this`marks, this`aborted
      ensures Outcome(Current(), threw, flags) == Finish(helper, name, Outcome(old(Current()), stepThrew, stepFlags))
    {
      threw, flags := stepThrew, stepFlags;
      if helper.RejectedSql? || helper.LedgerRejected? || helper.RepositoryTransaction? {
        if !threw { threw := ReleaseSavepoint(name); }
        var failed := threw;
        if failed {
          threw := RollbackToSavepoint(name);
          if !threw && !helper.LedgerRejected? { threw := ReleaseSavepoint(name); }
        }
        if helper.RepositoryTransaction? { threw := failed; } else { flags := flags + [failed]; }
      } else if helper.TemplateRejected? || helper.CeilingRejected? {
        flags := flags + [threw];
        threw := RollbackToSavepoint(name);
      } else if helper.ExpectedFailure? {
        flags := flags + [threw];
        if threw { threw := RollbackToSavepoint(name); }
      } else if !threw {
        threw := RollbackToSavepoint(name);
        if !threw { threw := ReleaseSavepoint(name); }
      }
    }
  }
}
