/** The ledger repository: an append is one transaction over the stored rows. */
module DecisionLedgerRepository {
  import opened Options
  import opened Sequences
  import opened KeyedSequences
  import opened CanonicalJson
  import opened DecisionLedger
  import opened DecisionLedgerTheorems

  class Repository {
    const env: Env
    var rows: seq<Row>

    constructor Empty(env: Env)
      ensures this.env == env && rows == [] && Sound(env, rows)
    {
      this.env, rows := env, [];
      new;
      EmptyIsSound(env);
    }

    method FindFirst(picks: Row -> bool) returns (n: nat)
      ensures n == FirstIndex(rows, picks)
    {
      n := 0;
      while n < |rows| && !picks(rows[n])
        invariant n <= |rows| && FirstIndex(rows, picks) == n + FirstIndex(rows[n..], picks)
      {
        n := n + 1;
      }
    }

    method CheckReference(contexts: map<Text, int>, candidate: Row) returns (error: Option<Error>)
      ensures error == ReferenceError(contexts, rows, candidate)
    {
      if candidate.isAnalysis {
        if candidate.contextRef !in contexts || contexts[candidate.contextRef] > candidate.at {
          return Some(ContextMissing);
        }
      } else {
        var analysis := FindFirst(IsAnalysis(candidate.analysisRef));
        if analysis == |rows| { return Some(AnalysisMissing); }
        if candidate.at < rows[analysis].at { return Some(TemporalConflict); }
      }
      return None;
    }

    method Append(contexts: map<Text, int>, fields: Fields) returns (outcome: Outcome)
      requires Sound(env, rows)
      modifies this
      ensures outcome == Judge(env, contexts, old(rows), RowOf(env, fields))
      ensures rows == if outcome.Inserted? then old(rows) + [RowOf(env, fields)] else old(rows)
      ensures Sound(env, rows)
    {
      AppendKeeps(env, contexts, rows, fields);
      var candidate := RowOf(env, fields);
      var n := FindFirst(HasId(candidate.id));
      if n < |rows| {
        return if RawText(rows[n]) == RawText(candidate) then Unchanged else Refused(RecordConflict);
      }
      if candidate.workspaceRef == [] || (rows != [] && rows[0].workspaceRef != candidate.workspaceRef) {
        return Refused(WorkspaceScopeMismatch);
      }
      var chained := Verify(env, rows + [candidate]);
      if !chained { return Refused(ChainConflict); }
      var missing := CheckReference(contexts, candidate);
      if missing.Some? { return Refused(missing.value); }
      rows := rows + [candidate];
      return Inserted;
    }
  }
}
