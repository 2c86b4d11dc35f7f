/** Every answer of the decision ledger, told from the stored rows. */
module DecisionLedgerRules {
  import opened Options
  import opened Sequences
  import opened KeyedSequences
  import opened CanonicalJson
  import opened CanonicalJsonTheorems
  import opened DecisionLedger
  import opened DecisionLedgerTheorems

  /** The analysis of this reference is stored, and this is when it was made. */
  predicate AnalysisAt(rows: seq<Row>, ref: Text, at: int) {
    exists i :: 0 <= i < |rows| && rows[i].isAnalysis && rows[i].id == ref && rows[i].at == at
  }

  /** The context of an analysis is known and was captured no later than the analysis was made. */
  predicate ContextIsThere(contexts: map<Text, int>, candidate: Row) {
    candidate.contextRef in contexts && contexts[candidate.contextRef] <= candidate.at
  }

  /** What a record refers to is there: an analysis's context, or a decision's analysis, not made after the decision. */
  predicate IsGrounded(contexts: map<Text, int>, rows: seq<Row>, candidate: Row) {
    if candidate.isAnalysis then ContextIsThere(contexts, candidate)
    else exists i :: 0 <= i < |rows| && rows[i].isAnalysis && rows[i].id == candidate.analysisRef && rows[i].at <= candidate.at
  }

  predicate IsStored(rows: seq<Row>, ref: Text) { exists i :: 0 <= i < |rows| && rows[i].id == ref }

  /** The record is of the ledger's workspace, which the first record sets. */
  predicate OfWorkspace(rows: seq<Row>, candidate: Row) {
    candidate.workspaceRef != [] && forall i :: 0 <= i < |rows| ==> rows[i].workspaceRef == candidate.workspaceRef
  }

  /** The record is in order at the end of the ledger. */
  predicate Continues(env: Env, rows: seq<Row>, candidate: Row) {
    RecordOk(env, candidate.payload, |rows|, if rows == [] then GENESIS else HashOf(rows[|rows| - 1]))
  }

  lemma ContinuesExactly(env: Env, rows: seq<Row>, candidate: Row)
    requires Verified(env, rows)
    ensures Verified(env, rows + [candidate]) <==> Continues(env, rows, candidate)
  {
    assert (rows + [candidate])[..|rows|] == rows;
  }

  lemma FindAnalysis(rows: seq<Row>, ref: Text)
    requires Tidy(rows)
    ensures var n := FirstIndex(rows, IsAnalysis(ref));
            && (n == |rows| <==> forall at :: !AnalysisAt(rows, ref, at))
            && (n < |rows| ==> forall i :: 0 <= i < |rows| && rows[i].isAnalysis && rows[i].id == ref ==> i == n)
  {
    var picks := IsAnalysis(ref);
    var n := FirstIndex(rows, picks);
    forall i | 0 <= i < |rows| ensures picks(rows[i]) <==> rows[i].isAnalysis && rows[i].id == ref {}
    if n < |rows| {
      assert picks(rows[n]);
      assert AnalysisAt(rows, ref, rows[n].at);
    }
  }

  /** A record that is not stored yet is inserted exactly if it is of the workspace, continues the chain, and is grounded. */
  lemma InsertedExactly(env: Env, contexts: map<Text, int>, rows: seq<Row>, candidate: Row)
    requires Sound(env, rows)
    ensures Judge(env, contexts, rows, candidate) == Inserted
       <==> && !IsStored(rows, candidate.id) && OfWorkspace(rows, candidate) && Continues(env, rows, candidate)
            && IsGrounded(contexts, rows, candidate)
    ensures After(env, contexts, rows, candidate)
         == if Judge(env, contexts, rows, candidate) == Inserted then rows + [candidate] else rows
  {
    StoredExactly(rows, candidate.id);
    ContinuesExactly(env, rows, candidate);
    WorkspaceExactly(rows, candidate);
    ReferencesExactly(contexts, rows, candidate);
  }

  lemma StoredExactly(rows: seq<Row>, ref: Text)
    ensures FirstIndex(rows, HasId(ref)) < |rows| <==> IsStored(rows, ref)
  {
    var picks := HasId(ref);
    forall i | 0 <= i < |rows| ensures picks(rows[i]) <==> rows[i].id == ref {}
  }

  lemma WorkspaceExactly(rows: seq<Row>, candidate: Row)
    requires Tidy(rows)
    ensures OfWorkspace(rows, candidate)
       <==> candidate.workspaceRef != [] && (rows != [] ==> rows[0].workspaceRef == candidate.workspaceRef)
  {
  }

  /** What stands against a record's references: a context that is missing or later, an analysis that is missing or later. */
  lemma ReferencesExactly(contexts: map<Text, int>, rows: seq<Row>, candidate: Row)
    requires Tidy(rows)
    ensures ReferenceError(contexts, rows, candidate) == None <==> IsGrounded(contexts, rows, candidate)
    ensures ReferenceError(contexts, rows, candidate)
         == if IsGrounded(contexts, rows, candidate) then None
            else if candidate.isAnalysis then Some(ContextMissing)
            else if forall at :: !AnalysisAt(rows, candidate.analysisRef, at) then Some(AnalysisMissing)
            else Some(TemporalConflict)
  {
    if !candidate.isAnalysis {
      FindAnalysis(rows, candidate.analysisRef);
      var n := FirstIndex(rows, IsAnalysis(candidate.analysisRef));
      if n < |rows| { assert AnalysisAt(rows, candidate.analysisRef, rows[n].at); }
    }
  }

  /** Every refusal of a record that is not stored yet, in the order in which they are given. */
  lemma RefusedExactly(env: Env, contexts: map<Text, int>, rows: seq<Row>, candidate: Row)
    requires Sound(env, rows) && !IsStored(rows, candidate.id)
    ensures Judge(env, contexts, rows, candidate)
         == if !OfWorkspace(rows, candidate) then Refused(WorkspaceScopeMismatch)
            else if !Continues(env, rows, candidate) then Refused(ChainConflict)
            else if IsGrounded(contexts, rows, candidate) then Inserted
            else if candidate.isAnalysis then Refused(ContextMissing)
            else if forall at :: !AnalysisAt(rows, candidate.analysisRef, at) then Refused(AnalysisMissing)
            else Refused(TemporalConflict)
  {
    StoredExactly(rows, candidate.id);
    ContinuesExactly(env, rows, candidate);
    WorkspaceExactly(rows, candidate);
    ReferencesExactly(contexts, rows, candidate);
  }

  /******* The identity of a record *******/

  lemma SameFieldsSameText(a: Fields, b: Fields)
    requires WellFormed(Obj(a)) && WellFormed(Obj(b)) && ToMap(a) == ToMap(b)
    ensures CanonicalText(Obj(a)) == CanonicalText(Obj(b))
  {
    MeaningOfRecord(a);
    MeaningOfRecord(b);
    CanonicalTextIsExact(Obj(a), Obj(b));
  }

  /** The hash of a record is the digest of the canonical text of everything in it but the hash. */
  lemma RecordHashTold(env: Env, r: Fields, unhashed: Fields)
    requires IdentityOk(env, r)
    requires WellFormed(Obj(unhashed)) && ToMap(unhashed) == ToMap(r) - {Lit("recordHash")}
    ensures TextField(r, Lit("recordHash")) == Some(env.digest(CanonicalText(Obj(unhashed))))
  {
    SignedIsRecordWithoutHash(env, r);
    SameFieldsSameText(unhashed, Signed(Body(r), ExpectedId(env, Body(r))));
  }

  lemma BodyFields(r: Fields)
    requires WellFormed(Obj(r))
    ensures WellFormed(Obj(Body(r))) && ToMap(Body(r)) == ToMap(r) - {RECORD_HASH} - {RECORD_ID}
  {
    var rest := Without(r, RECORD_HASH);
    WithoutMap(r, RECORD_HASH);
    WithoutKeys(r, RECORD_HASH);
    WithoutMap(rest, RECORD_ID);
    WithoutKeys(rest, RECORD_ID);
  }

  lemma TypeOfBody(r: Fields)
    requires WellFormed(Obj(r))
    ensures TextField(Body(r), RECORD_TYPE) == TextField(r, RECORD_TYPE)
  {
    BodyFields(r);
    assert RECORD_TYPE != RECORD_HASH && RECORD_TYPE != RECORD_ID by {
      assert |RECORD_TYPE| == 10 == |RECORD_HASH| && |RECORD_ID| == 8 && RECORD_TYPE[6] != RECORD_HASH[6];
    }
  }

  /** The reference of a record is its type and the first twenty digits of the digest of the rest. */
  lemma RecordIdTold(env: Env, r: Fields, body: Fields)
    requires IdentityOk(env, r) && WellFormed(Obj(body))
    requires ToMap(body) == ToMap(r) - {Lit("recordHash")} - {Lit("recordId")}
    requires |env.digest(CanonicalText(Obj(body)))| == 64
    ensures var prefix := if TextField(r, Lit("recordType")) == Some(Lit("analysis")) then Lit("analysis") else Lit("decision");
            TextField(r, Lit("recordId")) == Some(prefix + Lit("_") + env.digest(CanonicalText(Obj(body)))[..20])
  {
    BodyFields(r);
    SameFieldsSameText(body, Body(r));
    TypeOfBody(r);
  }

  /** The columns of a row are what the record says under these keys. */
  lemma ColumnsTold(env: Env, r: Fields)
    ensures var row := RowOf(env, r);
            && row.payload == r && (row.isAnalysis <==> TextField(r, Lit("recordType")) == Some(Lit("analysis")))
            && (TextField(r, Lit("recordId")).Some? ==> row.id == TextField(r, Lit("recordId")).value)
            && (TextField(r, Lit("workspaceRef")).Some? ==> row.workspaceRef == TextField(r, Lit("workspaceRef")).value)
            && (TextField(r, Lit("analysisRecordRef")).Some? ==>
                  row.analysisRef == TextField(r, Lit("analysisRecordRef")).value)
            && (TextField(r, Lit("effectiveContextRef")).Some? ==>
                  row.contextRef == TextField(r, Lit("effectiveContextRef")).value)
            && (TextField(r, Lit("occurredAt")).Some? && env.instant(TextField(r, Lit("occurredAt")).value).Some? ==>
                  row.at == env.instant(TextField(r, Lit("occurredAt")).value).value)
  {
  }

  /** A record of the ledger names its place, the hash before it, and when it happened, under these keys. */
  lemma PlaceTold(env: Env, r: Fields, index: nat, previous: Text)
    requires RecordOk(env, r, index, previous)
    ensures Field(r, Lit("sequence")) == Some(Number(Whole(index + 1))) && TextField(r, Lit("previousHash")) == Some(previous)
    ensures TextField(r, Lit("occurredAt")).Some? && env.instant(TextField(r, Lit("occurredAt")).value).Some?
    ensures previous == Lit("GENESIS") || IsHex(previous, 64)
  {
  }

  /** An analysis that may not act, or a decision that may not execute. */
  predicate IsPowerless(r: Fields) {
    || (TextField(r, Lit("recordType")) == Some(Lit("analysis")) && TextField(r, Lit("actionAuthority")) == Some(Lit("none")))
    || (&& TextField(r, Lit("recordType")) == Some(Lit("decision"))
        && TextField(r, Lit("executionAuthority")) == Some(Lit("none")))
  }

  /** In the deployed ledger no analysis may act and no decision may execute, however the record came there. */
  lemma NoAuthority(
    digest: Text -> Text, instant: Text -> Option<int>, compliant: Json -> bool,
    rows: seq<Row>, candidates: seq<(map<Text, int>, Fields)>, i: nat)
    requires Sound(Deployed(digest, instant, compliant), rows)
    requires i < |AppendAll(Deployed(digest, instant, compliant), rows, candidates)|
    ensures IsPowerless(AppendAll(Deployed(digest, instant, compliant), rows, candidates)[i].payload)
  {
    var env := Deployed(digest, instant, compliant);
    AppendAllKeeps(env, rows, candidates);
    LinkAt(env, AppendAll(env, rows, candidates), i);
  }
}
