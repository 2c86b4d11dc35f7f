/**
 The ledger of analyses and decisions: records are JSON objects identified by digests of their canonical text, and each
 names the hash of the record before it.
 */
module DecisionLedger {
  import opened Options
  import opened Sequences
  import opened KeyedSequences
  import opened CanonicalJson
  import HashChain

  /** The own properties of a JavaScript object. */
  type Fields = seq<Entry<Json>>

  /** What the ledger depends on: SHA-256 in hex, the instants of timestamps in ISO form, and the checks of a record's content. */
  datatype Env = Env(digest: Text -> Text, instant: Text -> Option<int>, contentOk: Fields -> bool)

  const GENESIS: Text := Lit("GENESIS")
  const ANALYSIS: Text := Lit("analysis")
  const DECISION: Text := Lit("decision")
  const RECORD_ID: Text := Lit("recordId")
  const RECORD_HASH: Text := Lit("recordHash")
  const RECORD_TYPE: Text := Lit("recordType")
  const SEQUENCE: Text := Lit("sequence")
  const PREVIOUS_HASH: Text := Lit("previousHash")
  const OCCURRED_AT: Text := Lit("occurredAt")
  const WORKSPACE_REF: Text := Lit("workspaceRef")
  const ANALYSIS_RECORD_REF: Text := Lit("analysisRecordRef")
  const CONTEXT_REF: Text := Lit("effectiveContextRef")

  const BASE_KEYS: set<Text> := {
    Lit("version"), RECORD_TYPE, SEQUENCE, PREVIOUS_HASH, WORKSPACE_REF, OCCURRED_AT, RECORD_ID, RECORD_HASH,
    Lit("timelineRefs"), Lit("evidenceRefs")
  }
  const ANALYSIS_KEYS: set<Text> := BASE_KEYS + {
    Lit("analysisDefinitionRef"), CONTEXT_REF, Lit("frozenContext"), Lit("actionAuthority")
  }
  const DECISION_KEYS: set<Text> := BASE_KEYS + {
    ANALYSIS_RECORD_REF, Lit("cadenceResultRef"), Lit("disposition"), Lit("guidanceRefs"), Lit("experimentRef"),
    Lit("rationaleCode"), Lit("executionAuthority")
  }
  const DISPOSITIONS: set<Text> := {Lit("act"), Lit("test"), Lit("observe"), Lit("no_change"), Lit("blocked")}

  /******* Reading a record *******/

  function Field(r: Fields, key: Text): Option<Json> {
    if key in ToMap(r) then Some(ToMap(r)[key]) else None
  }

  function TextField(r: Fields, key: Text): Option<Text> {
    match Field(r, key)
    case Some(Str(s)) => Some(s)
    case _ => None
  }

  function Without(r: seq<Entry<Json>>, key: Text): seq<Entry<Json>> {
    if r == [] then []
    else if r[0].key == key then Without(r[1..], key)
    else [r[0]] + Without(r[1..], key)
  }

  predicate Blank(t: Text) { forall i :: 0 <= i < |t| ==> IsSpace(t[i]) }

  predicate IsSpace(c: CodeUnit) {
    || 0x9 <= c <= 0xD || c == 0x20 || c == 0xA0 || c == 0x1680 || 0x2000 <= c <= 0x200A
    || c == 0x2028 || c == 0x2029 || c == 0x202F || c == 0x205F || c == 0x3000 || c == 0xFEFF
  }

  predicate Present(t: Option<Text>) { t.Some? && !Blank(t.value) }

  predicate IsHex(t: Text, length: nat) {
    |t| == length && forall i :: 0 <= i < |t| ==> 0x30 <= t[i] <= 0x39 || 0x61 <= t[i] <= 0x66
  }

  /** Neither undefined nor a number that is not finite, at any depth: what `canonicalJson` takes. */
  predicate Encodable(v: Json) {
    match v
    case Undefined => false
    case Number(n) => !n.NonFinite?
    case Arr(items) => forall i :: 0 <= i < |items| ==> Encodable(items[i])
    case Obj(fields) => forall i :: 0 <= i < |fields| ==> Encodable(fields[i].value)
    case _ => true
  }

  /** A list of trimmed references, sorted and without repetition. */
  predicate IsRefList(v: Option<Json>) {
    && v.Some? && v.value.Arr?
    && var items := v.value.items;
       && (forall i :: 0 <= i < |items| ==>
             items[i].Str? && items[i].s != [] && !IsSpace(items[i].s[0]) && !IsSpace(items[i].s[|items[i].s| - 1]))
       && (forall i, j :: 0 <= i < j < |items| ==> items[i].Str? && items[j].Str? && CodeUnitBefore(items[i].s, items[j].s))
  }

  /******* Identity *******/

  function Cut(t: Text, n: nat): Text { if |t| <= n then t else t[..n] }

  function ExpectedId(env: Env, body: Fields): Text {
    (if TextField(body, RECORD_TYPE) == Some(ANALYSIS) then ANALYSIS else DECISION)
      + Lit("_") + Cut(env.digest(CanonicalText(Obj(body))), 20)
  }

  /** The body with the record's identity added: the value whose digest is the record hash. */
  function Signed(body: Fields, id: Text): Fields { body + [Entry(RECORD_ID, Str(id))] }

  /** The record without its identity. */
  function Body(r: Fields): Fields { Without(Without(r, RECORD_HASH), RECORD_ID) }

  function ExpectedHash(env: Env, body: Fields): Text {
    env.digest(CanonicalText(Obj(Signed(body, ExpectedId(env, body)))))
  }

  /** A body with its identity: what a new record is made of. */
  function Identified(env: Env, body: Fields): Fields {
    Signed(body, ExpectedId(env, body)) + [Entry(RECORD_HASH, Str(ExpectedHash(env, body)))]
  }

  /******* Verifying *******/

  /** The record has its place in the chain. */
  predicate PlaceOk(env: Env, r: Fields, index: nat, previous: Text) {
    && Field(r, SEQUENCE) == Some(Number(Whole(index + 1)))
    && TextField(r, PREVIOUS_HASH) == Some(previous)
    && TextField(r, OCCURRED_AT).Some? && env.instant(TextField(r, OCCURRED_AT).value).Some?
    && (previous == GENESIS || IsHex(previous, 64))
  }

  /**
   The checks of a record's content, apart from its place in the chain; `compliant` says which frozen contexts the privacy
   rules allow.
   */
  predicate ContentOk(compliant: Json -> bool, r: Fields) {
    && Encodable(Obj(r))
    && TextField(r, RECORD_TYPE) in {Some(ANALYSIS), Some(DECISION)}
    && TextField(r, Lit("version")) == Some(Lit("decision-ledger/1.0.0"))
    && Present(TextField(r, WORKSPACE_REF))
    && IsRefList(Field(r, Lit("timelineRefs"))) && IsRefList(Field(r, Lit("evidenceRefs")))
    && if TextField(r, RECORD_TYPE) == Some(ANALYSIS) then
         && (forall i :: 0 <= i < |r| ==> r[i].key in ANALYSIS_KEYS)
         && TextField(r, Lit("actionAuthority")) == Some(Lit("none"))
         && Present(TextField(r, Lit("analysisDefinitionRef"))) && Present(TextField(r, CONTEXT_REF))
         && var context := Field(r, Lit("frozenContext"));
            context.Some? && !context.value.Undefined? && compliant(context.value)
            && CanonicalText(context.value) == Stringify(context.value)
       else
         && (forall i :: 0 <= i < |r| ==> r[i].key in DECISION_KEYS)
         && TextField(r, Lit("executionAuthority")) == Some(Lit("none"))
         && (exists d :: d in DISPOSITIONS && TextField(r, Lit("disposition")) == Some(d))
         && Present(TextField(r, ANALYSIS_RECORD_REF)) && Present(TextField(r, Lit("cadenceResultRef")))
         && Present(TextField(r, Lit("rationaleCode")))
         && (Field(r, Lit("experimentRef")) == Some(Null) || Present(TextField(r, Lit("experimentRef"))))
         && IsRefList(Field(r, Lit("guidanceRefs")))
  }

  /** The ledger as the application sets it up. */
  function Deployed(digest: Text -> Text, instant: Text -> Option<int>, compliant: Json -> bool): Env {
    Env(digest, instant, (r: Fields) => ContentOk(compliant, r))
  }

  predicate IdentityOk(env: Env, r: Fields) {
    && WellFormed(Obj(r))
    && TextField(r, RECORD_ID) == Some(ExpectedId(env, Body(r)))
    && TextField(r, RECORD_HASH) == Some(ExpectedHash(env, Body(r)))
    && IsHex(ExpectedHash(env, Body(r)), 64)
  }

  predicate RecordOk(env: Env, r: Fields, index: nat, previous: Text) {
    PlaceOk(env, r, index, previous) && env.contentOk(r) && IdentityOk(env, r)
  }

  /** A stored row: the record as JSON, and the columns that queries use. */
  datatype Row = Row(
    isAnalysis: bool, id: Text, workspaceRef: Text, at: int, analysisRef: Text, contextRef: Text, payload: Fields)

  function RowOf(env: Env, r: Fields): Row {
    Row(TextField(r, RECORD_TYPE) == Some(ANALYSIS), TextField(r, RECORD_ID).GetOr([]),
        TextField(r, WORKSPACE_REF).GetOr([]), env.instant(TextField(r, OCCURRED_AT).GetOr([])).GetOr(0),
        TextField(r, ANALYSIS_RECORD_REF).GetOr([]), TextField(r, CONTEXT_REF).GetOr([]), r)
  }

  function HashOf(r: Row): Text { TextField(r.payload, RECORD_HASH).GetOr(GENESIS) }

  function Link(env: Env): (Row, nat, Text) -> bool {
    (r: Row, index: nat, previous: Text) => RecordOk(env, r.payload, index, previous)
  }

  /** The hash that the next record has to name. */
  function Head(ledger: seq<Row>): Text { HashChain.Head(HashOf, GENESIS, ledger) }

  predicate Verified(env: Env, ledger: seq<Row>) { HashChain.Chained(Link(env), HashOf, GENESIS, ledger) }

  /** The verifier as written: one pass that carries the previous hash. */
  method Verify(env: Env, ledger: seq<Row>) returns (ok: bool)
    ensures ok == Verified(env, ledger)
  {
    var previousHash := GENESIS;
    for index := 0 to |ledger|
      invariant previousHash == Head(ledger[..index])
      invariant Verified(env, ledger[..index])
    {
      HashChain.ChainedStep(Link(env), HashOf, GENESIS, ledger, index);
      if !RecordOk(env, ledger[index].payload, index, previousHash) {
        if Verified(env, ledger) { HashChain.ChainedPrefix(Link(env), HashOf, GENESIS, ledger, index + 1); }
        return false;
      }
      previousHash := HashOf(ledger[index]);
    }
    assert ledger[..|ledger|] == ledger;
    return true;
  }

  /******* Appending *******/

  datatype Error =
    | WorkspaceScopeMismatch | ChainConflict | ContextMissing | AnalysisMissing | TemporalConflict | RecordConflict

  datatype Outcome = Inserted | Unchanged | Refused(error: Error)

  function HasId(id: Text): Row -> bool { (row: Row) => row.id == id }

  function IsAnalysis(id: Text): Row -> bool { (row: Row) => row.isAnalysis && row.id == id }

  /** The check that keeps a record next to what it refers to; contexts are known by hash and capture time. */
  function ReferenceError(contexts: map<Text, int>, rows: seq<Row>, row: Row): Option<Error> {
    if row.isAnalysis then
      if row.contextRef !in contexts || contexts[row.contextRef] > row.at then Some(ContextMissing) else None
    else
      var n := FirstIndex(rows, IsAnalysis(row.analysisRef));
      if n == |rows| then Some(AnalysisMissing)
      else if row.at < rows[n].at then Some(TemporalConflict)
      else None
  }

  /** `JSON.stringify` of the record as it is, without sorting keys. */
  function RawText(row: Row): Text { Stringify(Obj(row.payload)) }

  /** What appending a candidate answers. */
  function Judge(env: Env, contexts: map<Text, int>, rows: seq<Row>, candidate: Row): Outcome {
    var n := FirstIndex(rows, HasId(candidate.id));
    if n < |rows| then
      if RawText(rows[n]) == RawText(candidate) then Unchanged else Refused(RecordConflict)
    else if candidate.workspaceRef == [] || (rows != [] && rows[0].workspaceRef != candidate.workspaceRef)
    then Refused(WorkspaceScopeMismatch)
    else if !Verified(env, rows + [candidate]) then Refused(ChainConflict)
    else
      match ReferenceError(contexts, rows, candidate)
      case Some(error) => Refused(error)
      case None => Inserted
  }

  /** The rows afterwards: they gain the candidate exactly when it is inserted. */
  function After(env: Env, contexts: map<Text, int>, rows: seq<Row>, candidate: Row): seq<Row> {
    if Judge(env, contexts, rows, candidate).Inserted? then rows + [candidate] else rows
  }
}
