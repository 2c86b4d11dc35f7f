/** One hash fixes the whole ledger, and appending keeps it sound. */
module DecisionLedgerTheorems {
  import opened Options
  import opened Sequences
  import opened KeyedSequences
  import opened CanonicalJson
  import opened CanonicalJsonTheorems
  import opened DecisionLedger
  import HashChain

  /******* A record hash fixes the record *******/

  /** The text whose digest is the hash of a record. */
  function HashedText(env: Env, r: Fields): Text { CanonicalText(Obj(Signed(Body(r), ExpectedId(env, Body(r))))) }

  /** Two records whose texts differ and have one digest. */
  predicate Collide(env: Env, r: Fields, s: Fields) {
    HashedText(env, r) != HashedText(env, s) && env.digest(HashedText(env, r)) == env.digest(HashedText(env, s))
  }

  lemma {:induction false} WithoutKeys(r: seq<Entry<Json>>, key: Text)
    requires WellFormed(Obj(r))
    ensures WellFormed(Obj(Without(r, key)))
    ensures forall k :: HasKey(Without(r, key), k) <==> HasKey(r, k) && k != key
  {
    if r != [] {
      HasKeySplit(r);
      assert !HasKey(r[1..], r[0].key);
      WithoutKeys(r[1..], key);
      if r[0].key != key { HasKeySplit(Without(r, key)); }
    }
  }

  lemma AddFieldWellFormed(r: Fields, key: Text, v: Json)
    requires WellFormed(Obj(r)) && !HasKey(r, key) && WellFormed(v)
    ensures WellFormed(Obj(r + [Entry(key, v)]))
  {
    AppendDistinct(r, Entry(key, v));
  }

  lemma {:induction false} WithoutMap(r: Fields, key: Text)
    requires WellFormed(Obj(r))
    ensures ToMap(Without(r, key)) == ToMap(r) - {key}
  {
    if r != [] {
      WithoutMap(r[1..], key);
      TailMap(r);
      ConsMap(r[0], Without(r[1..], key));
      RemoveUpdated(ToMap(r[1..]), r[0].key, r[0].value, key);
    }
  }

  lemma RemoveUpdated(m: map<Text, Json>, k: Text, v: Json, key: Text)
    ensures m[k := v] - {key} == if k == key then m - {key} else (m - {key})[k := v]
  {
  }

  lemma RemoveAndPut(m: map<Text, Json>, gone: Text, key: Text)
    requires key in m && key != gone
    ensures (m - {gone} - {key})[key := m[key]] == m - {gone}
  {
  }

  lemma IdIsNotHash()
    ensures RECORD_ID != RECORD_HASH
  {
    assert |RECORD_ID| == 8;
  }

  /** The value under the digest is the record without its hash. */
  lemma SignedIsRecordWithoutHash(env: Env, r: Fields)
    requires WellFormed(Obj(r)) && TextField(r, RECORD_ID) == Some(ExpectedId(env, Body(r)))
    ensures WellFormed(Obj(Signed(Body(r), ExpectedId(env, Body(r)))))
    ensures ToMap(Signed(Body(r), ExpectedId(env, Body(r)))) == ToMap(r) - {RECORD_HASH}
  {
    var rest := Without(r, RECORD_HASH);
    WithoutMap(r, RECORD_HASH);
    WithoutKeys(r, RECORD_HASH);
    WithoutMap(rest, RECORD_ID);
    WithoutKeys(rest, RECORD_ID);
    AddFieldWellFormed(Body(r), RECORD_ID, Str(ExpectedId(env, Body(r))));
    AppendMap(Body(r), Entry(RECORD_ID, Str(ExpectedId(env, Body(r)))));
    IdIsNotHash();
    RemoveAndPut(ToMap(r), RECORD_HASH, RECORD_ID);
  }

  lemma MeaningOfRecord(r: Fields)
    requires WellFormed(Obj(r))
    ensures MeaningOf(Obj(r)) == MObj(MapMeaning(ToMap(r)))
  {
    MeaningOfFieldsMap(r);
  }

  lemma RestoreField(m: map<Text, Json>, n: map<Text, Json>, key: Text)
    requires MapMeaning(m - {key}) == MapMeaning(n - {key})
    requires key in m && key in n && m[key] == n[key]
    ensures MapMeaning(m) == MapMeaning(n)
  {
    assert m == (m - {key})[key := m[key]] && n == (n - {key})[key := n[key]];
    MapMeaningUpdate(m - {key}, key, m[key]);
    MapMeaningUpdate(n - {key}, key, n[key]);
  }

  /** Two records with one hash mean the same, or their texts are a collision of the digest. */
  lemma HashFixesRecord(env: Env, r: Fields, s: Fields)
    requires IdentityOk(env, r) && IdentityOk(env, s) && TextField(r, RECORD_HASH) == TextField(s, RECORD_HASH)
    ensures MeaningOf(Obj(r)) == MeaningOf(Obj(s)) || Collide(env, r, s)
  {
    var a, b := Signed(Body(r), ExpectedId(env, Body(r))), Signed(Body(s), ExpectedId(env, Body(s)));
    assert env.digest(HashedText(env, r)) == env.digest(HashedText(env, s));
    if HashedText(env, r) == HashedText(env, s) {
      SignedIsRecordWithoutHash(env, r);
      SignedIsRecordWithoutHash(env, s);
      CanonicalTextIsExact(Obj(a), Obj(b));
      MeaningOfRecord(a);
      MeaningOfRecord(b);
      RestoreField(ToMap(r), ToMap(s), RECORD_HASH);
      MeaningOfRecord(r);
      MeaningOfRecord(s);
    }
  }

  lemma {:induction false} WithoutLast(r: Fields, key: Text, v: Json)
    requires !HasKey(r, key)
    ensures Without(r + [Entry(key, v)], key) == r
  {
    var t := r + [Entry(key, v)];
    if r == [] {
      assert t == [Entry(key, v)] && t[1..] == [];
    } else {
      HasKeySplit(r);
      WithoutLast(r[1..], key, v);
      assert t[1..] == r[1..] + [Entry(key, v)];
    }
  }

  /** A body with the identity that the ledger computes for it passes the ledger's own identity check. */
  lemma IdentifiedPasses(env: Env, body: Fields)
    requires WellFormed(Obj(body)) && !HasKey(body, RECORD_ID) && !HasKey(body, RECORD_HASH)
    requires forall t :: IsHex(env.digest(t), 64)
    ensures IdentityOk(env, Identified(env, body)) && Body(Identified(env, body)) == body
  {
    IdentifiedParts(body, ExpectedId(env, body), ExpectedHash(env, body));
  }

  lemma IdentifiedParts(body: Fields, id: Text, hash: Text)
    requires WellFormed(Obj(body)) && !HasKey(body, RECORD_ID) && !HasKey(body, RECORD_HASH)
    ensures var r := Signed(body, id) + [Entry(RECORD_HASH, Str(hash))];
            && WellFormed(Obj(r)) && Body(r) == body
            && TextField(r, RECORD_ID) == Some(id) && TextField(r, RECORD_HASH) == Some(hash)
  {
    IdIsNotHash();
    TwoMoreFields(body, RECORD_ID, Str(id), RECORD_HASH, Str(hash));
  }

  lemma TwoMoreFields(r: Fields, k: Text, v: Json, l: Text, w: Json)
    requires WellFormed(Obj(r)) && !HasKey(r, k) && !HasKey(r, l) && k != l && WellFormed(v) && WellFormed(w)
    ensures var t := r + [Entry(k, v)] + [Entry(l, w)];
            && WellFormed(Obj(t)) && Without(Without(t, l), k) == r
            && Field(t, k) == Some(v) && Field(t, l) == Some(w)
  {
    AddFieldWellFormed(r, k, v);
    AppendMap(r, Entry(k, v));
    var t := r + [Entry(k, v)];
    assert HasKey(t, l) <==> l in ToMap(t);
    assert HasKey(r, l) <==> l in ToMap(r);
    AddFieldWellFormed(t, l, w);
    AppendMap(t, Entry(l, w));
    WithoutLast(t, l, w);
    WithoutLast(r, k, v);
  }

  lemma SameMeaningSameField(r: Fields, s: Fields, key: Text)
    requires WellFormed(Obj(r)) && WellFormed(Obj(s)) && MeaningOf(Obj(r)) == MeaningOf(Obj(s))
    requires Field(r, key).Some? && Field(s, key).Some?
    requires !Field(r, key).value.Undefined? && !Field(s, key).value.Undefined?
    ensures MeaningOf(Field(r, key).value) == MeaningOf(Field(s, key).value)
  {
    MeaningOfRecord(r);
    MeaningOfRecord(s);
    assert MapMeaning(ToMap(r))[key] == MapMeaning(ToMap(s))[key];
  }

  /******* One hash, one ledger *******/

  function MeaningOfRow(row: Row): Meaning { MeaningOf(Obj(row.payload)) }

  lemma LinkFixesRecord(env: Env, r: Fields, s: Fields, i: nat, j: nat, p: Text, q: Text)
    requires RecordOk(env, r, i, p) && RecordOk(env, s, j, q) && !Collide(env, r, s)
    requires TextField(r, RECORD_HASH) == TextField(s, RECORD_HASH)
    ensures MeaningOf(Obj(r)) == MeaningOf(Obj(s)) && i == j && p == q
  {
    HashFixesRecord(env, r, s);
    SamePlace(r, s, SEQUENCE, i, j, PREVIOUS_HASH, p, q);
  }

  lemma SamePlace(r: Fields, s: Fields, k: Text, i: nat, j: nat, l: Text, p: Text, q: Text)
    requires WellFormed(Obj(r)) && WellFormed(Obj(s)) && MeaningOf(Obj(r)) == MeaningOf(Obj(s))
    requires Field(r, k) == Some(Number(Whole(i + 1))) && Field(s, k) == Some(Number(Whole(j + 1)))
    requires TextField(r, l) == Some(p) && TextField(s, l) == Some(q)
    ensures i == j && p == q
  {
    SameMeaningSameField(r, s, k);
    SameMeaningSameField(r, s, l);
  }

  /** The hash of a record is never the word that stands for an empty ledger. */
  lemma HashIsNotGenesis(env: Env, r: Fields)
    requires IdentityOk(env, r)
    ensures TextField(r, RECORD_HASH).Some? && TextField(r, RECORD_HASH).value != GENESIS
  {
    assert |GENESIS| == 7;
  }

  /** No record of one ledger collides with a record of the other. */
  predicate CollisionFree(env: Env, a: seq<Row>, b: seq<Row>) {
    forall i, j :: 0 <= i < |a| && 0 <= j < |b| ==> !Collide(env, a[i].payload, b[j].payload)
  }

  lemma LinkAt(env: Env, rows: seq<Row>, i: nat)
    requires Verified(env, rows) && i < |rows|
    ensures RecordOk(env, rows[i].payload, i, Head(rows[..i]))
  {
    HashChain.ChainedAt(Link(env), HashOf, GENESIS, rows, i);
  }

  lemma HashesAvoidGenesis(env: Env, rows: seq<Row>)
    requires Verified(env, rows)
    ensures HashChain.Avoids(HashOf, GENESIS, rows)
  {
    forall i | 0 <= i < |rows| ensures HashOf(rows[i]) != GENESIS {
      LinkAt(env, rows, i);
      HashIsNotGenesis(env, rows[i].payload);
    }
  }

  lemma LinksAgree(env: Env, a: seq<Row>, b: seq<Row>, i: nat, j: nat)
    requires Verified(env, a) && Verified(env, b) && i < |a| && j < |b|
    requires !Collide(env, a[i].payload, b[j].payload)
    ensures HashChain.Agree(HashOf, GENESIS, MeaningOfRow, a, b, i, j)
  {
    if HashOf(a[i]) == HashOf(b[j]) {
      LinkAt(env, a, i);
      LinkAt(env, b, j);
      LinkFixesRecord(env, a[i].payload, b[j].payload, i, j, Head(a[..i]), Head(b[..j]));
    }
  }

  lemma LinksFixRecords(env: Env, a: seq<Row>, b: seq<Row>)
    requires Verified(env, a) && Verified(env, b) && CollisionFree(env, a, b)
    ensures HashChain.HashesFixRecords(HashOf, GENESIS, MeaningOfRow, a, b)
  {
    HashesAvoidGenesis(env, a);
    HashesAvoidGenesis(env, b);
    forall i, j | 0 <= i < |a| && 0 <= j < |b| ensures HashChain.Agree(HashOf, GENESIS, MeaningOfRow, a, b, i, j) {
      LinksAgree(env, a, b, i, j);
    }
  }

  /**
   Two ledgers that end in the same hash are the same, record by record, up to the order of object keys, unless a record of
   one and a record of the other are a collision of the digest.
   */
  lemma HeadFixesLedger(env: Env, a: seq<Row>, b: seq<Row>)
    requires Verified(env, a) && Verified(env, b) && Head(a) == Head(b)
    ensures HashChain.SameMeaning(MeaningOfRow, a, b) || !CollisionFree(env, a, b)
  {
    if CollisionFree(env, a, b) {
      LinksFixRecords(env, a, b);
      HashChain.HeadFixesChain(HashOf, GENESIS, MeaningOfRow, a, b);
    }
  }

  /** In particular for the ledger with the application's own content checks, whatever its privacy rules allow. */
  lemma DeployedHeadFixesLedger(
    digest: Text -> Text, instant: Text -> Option<int>, compliant: Json -> bool, a: seq<Row>, b: seq<Row>)
    requires Head(a) == Head(b)
    requires Verified(Deployed(digest, instant, compliant), a) && Verified(Deployed(digest, instant, compliant), b)
    ensures HashChain.SameMeaning(MeaningOfRow, a, b) || !CollisionFree(Deployed(digest, instant, compliant), a, b)
  {
    HeadFixesLedger(Deployed(digest, instant, compliant), a, b);
  }

  /******* Every run of appends *******/

  predicate Before(earlier: Row, decision: Row) {
    earlier.isAnalysis && earlier.id == decision.analysisRef && earlier.at <= decision.at
  }

  /** A decision comes after its analysis, in the ledger and in time. */
  predicate Grounded(earlier: seq<Row>, row: Row) {
    row.isAnalysis || exists i :: 0 <= i < |earlier| && Before(earlier[i], row)
  }

  predicate Exact(env: Env, row: Row) { row == RowOf(env, row.payload) }

  /** Record references are unique, there is one workspace, and every decision follows its analysis. */
  predicate Tidy(rows: seq<Row>) {
    && (forall i, j :: 0 <= i < j < |rows| ==> rows[i].id != rows[j].id)
    && (forall i, j :: 0 <= i < j < |rows| ==> rows[i].workspaceRef == rows[j].workspaceRef)
    && (forall i :: 0 <= i < |rows| ==> Grounded(rows[..i], rows[i]))
  }

  /** What every stored ledger satisfies. */
  predicate Sound(env: Env, rows: seq<Row>) {
    Verified(env, rows) && Tidy(rows) && forall i :: 0 <= i < |rows| ==> Exact(env, rows[i])
  }

  lemma InsertedIsGrounded(env: Env, contexts: map<Text, int>, rows: seq<Row>, candidate: Row)
    requires Judge(env, contexts, rows, candidate).Inserted?
    ensures Grounded(rows, candidate)
  {
    if !candidate.isAnalysis {
      var n := FirstIndex(rows, IsAnalysis(candidate.analysisRef));
      assert Before(rows[n], candidate);
    }
  }

  lemma InsertedIsNew(env: Env, contexts: map<Text, int>, rows: seq<Row>, candidate: Row)
    requires Judge(env, contexts, rows, candidate).Inserted?
    ensures forall i :: 0 <= i < |rows| ==> rows[i].id != candidate.id
  {
    forall i | 0 <= i < |rows| ensures rows[i].id != candidate.id {
      assert !HasId(candidate.id)(rows[i]);
    }
  }

  lemma InsertedIsChained(env: Env, contexts: map<Text, int>, rows: seq<Row>, candidate: Row)
    requires Judge(env, contexts, rows, candidate).Inserted?
    ensures Verified(env, rows + [candidate])
    ensures rows != [] ==> rows[0].workspaceRef == candidate.workspaceRef
  {
  }

  lemma ExactStep(env: Env, rows: seq<Row>, fields: Fields)
    requires forall i :: 0 <= i < |rows| ==> Exact(env, rows[i])
    ensures forall i :: 0 <= i <= |rows| ==> Exact(env, (rows + [RowOf(env, fields)])[i])
  {
  }

  /** Appending keeps the ledger sound, and either adds the candidate at the end or changes nothing. */
  lemma AppendKeeps(env: Env, contexts: map<Text, int>, rows: seq<Row>, fields: Fields)
    requires Sound(env, rows)
    ensures Sound(env, After(env, contexts, rows, RowOf(env, fields)))
    ensures rows <= After(env, contexts, rows, RowOf(env, fields))
  {
    var candidate := RowOf(env, fields);
    if Judge(env, contexts, rows, candidate).Inserted? {
      InsertedIsGrounded(env, contexts, rows, candidate);
      InsertedIsNew(env, contexts, rows, candidate);
      InsertedIsChained(env, contexts, rows, candidate);
      TidyStep(rows, candidate);
      ExactStep(env, rows, fields);
    }
  }

  lemma TidyStep(rows: seq<Row>, candidate: Row)
    requires Tidy(rows) && Grounded(rows, candidate)
    requires forall i :: 0 <= i < |rows| ==> rows[i].id != candidate.id
    requires rows != [] ==> rows[0].workspaceRef == candidate.workspaceRef
    ensures Tidy(rows + [candidate])
  {
    var next := rows + [candidate];
    forall i | 0 <= i < |next| ensures Grounded(next[..i], next[i]) {
      assert next[..i] == rows[..i];
    }
  }

  /** Any number of appends, each with the contexts known at its time. */
  function AppendAll(env: Env, rows: seq<Row>, candidates: seq<(map<Text, int>, Fields)>): seq<Row> {
    if candidates == [] then rows
    else
      var n := |candidates| - 1;
      After(env, candidates[n].0, AppendAll(env, rows, candidates[..n]), RowOf(env, candidates[n].1))
  }

  lemma {:induction false} AppendAllKeeps(env: Env, rows: seq<Row>, candidates: seq<(map<Text, int>, Fields)>)
    requires Sound(env, rows)
    ensures Sound(env, AppendAll(env, rows, candidates)) && rows <= AppendAll(env, rows, candidates)
  {
    if candidates != [] {
      var n := |candidates| - 1;
      AppendAllKeeps(env, rows, candidates[..n]);
      AppendKeeps(env, candidates[n].0, AppendAll(env, rows, candidates[..n]), candidates[n].1);
    }
  }

  /** A ledger that was never written to is sound. */
  lemma EmptyIsSound(env: Env)
    ensures Sound(env, [])
  {
  }

  /** What a candidate with a reference already in the ledger is told: unchanged exactly when its raw text is the stored one. */
  lemma ReplayExactly(env: Env, contexts: map<Text, int>, rows: seq<Row>, i: nat, candidate: Row)
    requires Tidy(rows) && i < |rows| && candidate.id == rows[i].id
    ensures Judge(env, contexts, rows, candidate)
         == if RawText(candidate) == RawText(rows[i]) then Unchanged else Refused(RecordConflict)
  {
    var n := FirstIndex(rows, HasId(candidate.id));
    assert HasId(candidate.id)(rows[i]);
    assert n == i;
  }

  /** However many appends follow, sending a stored record again finds it and changes nothing. */
  lemma ReplayUnchanged(
    env: Env, contexts: map<Text, int>, rows: seq<Row>, candidates: seq<(map<Text, int>, Fields)>, i: nat)
    requires Sound(env, rows) && i < |rows|
    ensures var later := AppendAll(env, rows, candidates);
            && Judge(env, contexts, later, rows[i]) == Unchanged
            && After(env, contexts, later, rows[i]) == later
  {
    AppendAllKeeps(env, rows, candidates);
    ReplayExactly(env, contexts, AppendAll(env, rows, candidates), i, rows[i]);
  }

  lemma LastLink(env: Env, rows: seq<Row>, candidate: Row)
    requires Verified(env, rows + [candidate])
    ensures Link(env)(candidate, |rows|, Head(rows))
  {
    assert (rows + [candidate])[..|rows|] == rows;
    HashChain.ChainedAt(Link(env), HashOf, GENESIS, rows + [candidate], |rows|);
  }

  lemma OnePlace(env: Env, row: Row, i: nat, p: Text, j: nat, q: Text)
    requires Link(env)(row, i, p) && Link(env)(row, j, q)
    ensures i == j && p == q
  {
  }

  /**
   A record made for one place is refused at every other: when the ledger it continues is not the stored one, be it an
   earlier state or a competing one, its chain conflicts.
   */
  lemma StaleHeadRefused(env: Env, contexts: map<Text, int>, rows: seq<Row>, continued: seq<Row>, candidate: Row)
    requires Verified(env, continued + [candidate])
    requires |continued| != |rows| || Head(continued) != Head(rows)
    requires forall i :: 0 <= i < |rows| ==> rows[i].id != candidate.id
    ensures Judge(env, contexts, rows, candidate) in {Refused(WorkspaceScopeMismatch), Refused(ChainConflict)}
    ensures After(env, contexts, rows, candidate) == rows
  {
    LastLink(env, continued, candidate);
    if Verified(env, rows + [candidate]) {
      LastLink(env, rows, candidate);
      OnePlace(env, candidate, |rows|, Head(rows), |continued|, Head(continued));
    }
  }

  /** Records with one raw text agree on every text field, and so on every column. */
  lemma SameTextSameField(r: Fields, s: Fields, key: Text)
    requires WellFormed(Obj(r)) && WellFormed(Obj(s)) && Stringify(Obj(r)) == Stringify(Obj(s))
    ensures TextField(r, key) == TextField(s, key)
  {
    JsonTextUnambiguous.PrintInjective(Erase(Obj(r)), Erase(Obj(s)));
    EraseKeepsMeaning(Obj(r));
    EraseKeepsMeaning(Obj(s));
    MeaningOfRecord(r);
    MeaningOfRecord(s);
    SameMeaningSameText(ToMap(r), ToMap(s), key);
  }

  lemma SameMeaningSameText(m: map<Text, Json>, n: map<Text, Json>, key: Text)
    requires MapMeaning(m) == MapMeaning(n)
    ensures key in m && m[key].Str? ==> key in n && n[key] == m[key]
    ensures key in n && n[key].Str? ==> key in m && m[key] == n[key]
  {
    if key in m && m[key].Str? { assert key in MapMeaning(m) && MapMeaning(m)[key] == MStr(m[key].s); }
    if key in n && n[key].Str? { assert key in MapMeaning(n) && MapMeaning(n)[key] == MStr(n[key].s); }
  }

  lemma SameTextSameColumns(env: Env, r: Fields, s: Fields)
    requires WellFormed(Obj(r)) && WellFormed(Obj(s)) && Stringify(Obj(r)) == Stringify(Obj(s))
    ensures RowOf(env, r) == RowOf(env, s).(payload := r)
  {
    SameTextSameField(r, s, RECORD_TYPE);
    SameTextSameField(r, s, RECORD_ID);
    SameTextSameField(r, s, WORKSPACE_REF);
    SameTextSameField(r, s, OCCURRED_AT);
    SameTextSameField(r, s, ANALYSIS_RECORD_REF);
    SameTextSameField(r, s, CONTEXT_REF);
  }

  lemma StoredIsWellFormed(env: Env, rows: seq<Row>, i: nat)
    requires Verified(env, rows) && i < |rows|
    ensures WellFormed(Obj(rows[i].payload))
  {
    HashChain.ChainedAt(Link(env), HashOf, GENESIS, rows, i);
  }

  lemma StoredDecisionIsInTime(rows: seq<Row>, i: nat, n: nat)
    requires Tidy(rows) && i < |rows| && n < |rows| && !rows[i].isAnalysis && rows[i].analysisRef == rows[n].id
    ensures rows[n].at <= rows[i].at
  {
    assert Grounded(rows[..i], rows[i]);
    var k :| 0 <= k < i && Before(rows[..i][k], rows[i]);
    assert rows[k].id == rows[n].id;
  }

  /**
   A decision dated before its analysis is refused whatever else it holds, and for that reason exactly when its reference is
   new, it is of the ledger's workspace and its chain is in order.
   */
  lemma OutOfTimeRefused(env: Env, contexts: map<Text, int>, rows: seq<Row>, n: nat, fields: Fields)
    requires Sound(env, rows) && WellFormed(Obj(fields)) && n < |rows| && rows[n].isAnalysis
    requires var candidate := RowOf(env, fields);
             !candidate.isAnalysis && candidate.analysisRef == rows[n].id && candidate.at < rows[n].at
    ensures var candidate := RowOf(env, fields);
            var answer := Judge(env, contexts, rows, candidate);
            && answer.Refused? && After(env, contexts, rows, candidate) == rows
            && (answer == Refused(TemporalConflict) <==> Placeable(env, rows, candidate))
  {
    var candidate := RowOf(env, fields);
    TemporalConflictFound(contexts, rows, n, candidate);
    OutOfTimeIsNotStored(env, contexts, rows, n, fields);
    TemporalConflictAnswer(env, contexts, rows, candidate);
  }

  /** The candidate comes to the check of its reference. */
  predicate Placeable(env: Env, rows: seq<Row>, candidate: Row) {
    && FirstIndex(rows, HasId(candidate.id)) == |rows|
    && candidate.workspaceRef != [] && (rows != [] ==> rows[0].workspaceRef == candidate.workspaceRef)
    && Verified(env, rows + [candidate])
  }

  lemma TemporalConflictAnswer(env: Env, contexts: map<Text, int>, rows: seq<Row>, candidate: Row)
    requires ReferenceError(contexts, rows, candidate) == Some(TemporalConflict)
    requires Judge(env, contexts, rows, candidate) != Unchanged
    ensures Judge(env, contexts, rows, candidate).Refused?
    ensures Judge(env, contexts, rows, candidate) == Refused(TemporalConflict) <==> Placeable(env, rows, candidate)
  {
  }

  lemma UnchangedIsStored(env: Env, contexts: map<Text, int>, rows: seq<Row>, candidate: Row) returns (i: nat)
    requires Judge(env, contexts, rows, candidate) == Unchanged
    ensures i < |rows| && RawText(rows[i]) == RawText(candidate)
  {
    i := FirstIndex(rows, HasId(candidate.id));
  }

  lemma OutOfTimeIsNotStored(env: Env, contexts: map<Text, int>, rows: seq<Row>, n: nat, fields: Fields)
    requires Sound(env, rows) && WellFormed(Obj(fields)) && n < |rows| && rows[n].isAnalysis
    requires var candidate := RowOf(env, fields);
             !candidate.isAnalysis && candidate.analysisRef == rows[n].id && candidate.at < rows[n].at
    ensures Judge(env, contexts, rows, RowOf(env, fields)) != Unchanged
  {
    if Judge(env, contexts, rows, RowOf(env, fields)) == Unchanged {
      var i := UnchangedIsStored(env, contexts, rows, RowOf(env, fields));
      StoredIsWellFormed(env, rows, i);
      assert Exact(env, rows[i]);
      SameTextSameColumns(env, rows[i].payload, fields);
      StoredDecisionIsInTime(rows, i, n);
    }
  }

  lemma TemporalConflictFound(contexts: map<Text, int>, rows: seq<Row>, n: nat, candidate: Row)
    requires Tidy(rows) && n < |rows| && rows[n].isAnalysis
    requires !candidate.isAnalysis && candidate.analysisRef == rows[n].id && candidate.at < rows[n].at
    ensures ReferenceError(contexts, rows, candidate) == Some(TemporalConflict)
  {
    assert IsAnalysis(candidate.analysisRef)(rows[n]);
    assert FirstIndex(rows, IsAnalysis(candidate.analysisRef)) == n;
  }

  /** The same record with its first two keys the other way round. */
  function Swapped(r: Fields): Fields
    requires |r| >= 2
  {
    [r[1], r[0]] + r[2..]
  }

  /** Replay compares raw text: the same record with its keys in another order means the same but is a conflict. */
  lemma ReorderedReplayConflicts(env: Env, contexts: map<Text, int>, rows: seq<Row>, i: nat, candidate: Row)
    requires Tidy(rows) && i < |rows| && candidate.id == rows[i].id
    requires |rows[i].payload| >= 2 && candidate.payload == Swapped(rows[i].payload) && WellFormed(Obj(rows[i].payload))
    requires !rows[i].payload[0].value.Undefined? && !rows[i].payload[1].value.Undefined?
    ensures MeaningOfRow(candidate) == MeaningOfRow(rows[i])
    ensures Judge(env, contexts, rows, candidate) == Refused(RecordConflict)
  {
    ReplayExactly(env, contexts, rows, i, candidate);
    SwappedMeaning(rows[i].payload);
    if RawText(candidate) == RawText(rows[i]) { SwappedTextDiffers(rows[i].payload); }
  }

  lemma SwappedMeaning(r: Fields)
    requires |r| >= 2 && WellFormed(Obj(r))
    ensures MeaningOf(Obj(Swapped(r))) == MeaningOf(Obj(r))
  {
    var t := Swapped(r);
    assert r == [r[0], r[1]] + r[2..];
    assert multiset(t) == multiset(r);
    assert WellFormed(Obj(t)) by {
      forall i | 0 <= i < |t| ensures WellFormed(t[i].value) { assert t[i] == r[if i == 0 then 1 else if i == 1 then 0 else i]; }
      forall i, j | 0 <= i < j < |t| ensures t[i].key != t[j].key {
        assert t[i] == r[if i == 0 then 1 else if i == 1 then 0 else i] && t[j] == r[if j == 1 then 0 else j];
      }
    }
    RearrangedSameMap(t, r);
    MeaningOfRecord(t);
    MeaningOfRecord(r);
  }

  lemma SwappedTextDiffers(r: Fields)
    requires |r| >= 2 && WellFormed(Obj(r)) && !r[0].value.Undefined? && !r[1].value.Undefined?
    ensures Stringify(Obj(Swapped(r))) != Stringify(Obj(r))
  {
    FirstErased(r);
    FirstErased(Swapped(r));
    if Stringify(Obj(Swapped(r))) == Stringify(Obj(r)) {
      JsonTextUnambiguous.PrintInjective(Erase(Obj(Swapped(r))), Erase(Obj(r)));
    }
  }

  lemma FirstErased(r: Fields)
    requires r != [] && !r[0].value.Undefined?
    ensures EraseFields(r) != [] && EraseFields(r)[0].key == r[0].key
  {
  }
}
