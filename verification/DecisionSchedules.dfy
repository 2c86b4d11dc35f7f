/** The schedule registry: an edit adds a revision, and a tick moves the cursor of the current revision. */
module DecisionSchedules {
  import opened Histories
  import opened Options
  import opened Sequences

  /** What a schedule says. Its hash is a digest of this, so a hash is modelled by the definition itself. */
  datatype Definition = Definition(
    scheduleRef: string, account: string, campaign: string, timeframe: string, template: string,
    enabled: bool, timing: string)

  /** One revision; `last` is the last slot ticked and `next` the time it is next due. */
  datatype Row = Row(definition: Definition, revision: nat, live: bool, last: Option<int>, next: Option<int>)

  datatype Request =
    | Save(definition: Definition, next: Option<int>)
    | Tick(scheduleRef: string, revision: nat, definition: Definition, slot: int, next: Option<int>)

  datatype Reply = Saved | Advanced | NotAdvanced | InvalidInput

  predicate Of(row: Row, scheduleRef: string) { row.definition.scheduleRef == scheduleRef }

  function LiveOf(scheduleRef: string): Row -> bool {
    (row: Row) => row.live && Of(row, scheduleRef)
  }

  function Ticked(scheduleRef: string, revision: nat, definition: Definition): Row -> bool {
    (row: Row) => row.live && Of(row, scheduleRef) && row.revision == revision && row.definition == definition
  }

  function Retired(row: Row, scheduleRef: string): Row {
    if row.live && Of(row, scheduleRef) then row.(live := false, next := None) else row
  }

  function Supersede(rows: seq<Row>, scheduleRef: string): seq<Row> {
    seq(|rows|, i requires 0 <= i < |rows| => Retired(rows[i], scheduleRef))
  }

  function Handle(rows: seq<Row>, request: Request): (seq<Row>, Reply) {
    match request
    case Save(definition, next) =>
      var n := FirstIndex(rows, LiveOf(definition.scheduleRef));
      if n < |rows| && rows[n].definition == definition then (rows, Saved)
      else
        var revision := (if n < |rows| then rows[n].revision else 0) + 1;
        (Supersede(rows, definition.scheduleRef) + [Row(definition, revision, true, None, next)], Saved)
    case Tick(scheduleRef, revision, definition, slot, next) =>
      if revision < 1 || (next.Some? && next.value <= slot) then (rows, InvalidInput)
      else
        var n := FirstIndex(rows, Ticked(scheduleRef, revision, definition));
        if n < |rows| && (rows[n].last.None? || rows[n].last.value < slot)
        then (rows[n := rows[n].(last := Some(slot), next := next)], Advanced)
        else (rows, NotAdvanced)
  }

  /******* What holds in every reachable registry *******/

  /** A superseded revision is never due, and a revision is due only after the last slot it ticked. */
  predicate RowOk(row: Row) {
    && row.revision >= 1
    && (!row.live ==> row.next.None?)
    && (row.last.Some? && row.next.Some? ==> row.last.value < row.next.value)
  }

  predicate RowsOk(rows: seq<Row>) { forall i :: 0 <= i < |rows| ==> RowOk(rows[i]) }

  /** Revisions of a schedule rise, and none but the newest is live. */
  predicate Ranked(rows: seq<Row>) {
    forall i, j :: 0 <= i < j < |rows| && Of(rows[i], rows[j].definition.scheduleRef) ==>
      !rows[i].live && rows[i].revision < rows[j].revision
  }

  predicate HasLive(rows: seq<Row>, scheduleRef: string) {
    exists j :: 0 <= j < |rows| && Of(rows[j], scheduleRef) && rows[j].live
  }

  predicate Known(rows: seq<Row>, scheduleRef: string) { exists i :: 0 <= i < |rows| && Of(rows[i], scheduleRef) }

  /** Every schedule has a current revision. */
  ghost predicate AllLive(rows: seq<Row>) { forall ref :: Known(rows, ref) ==> HasLive(rows, ref) }

  ghost predicate Orderly(rows: seq<Row>) { RowsOk(rows) && Ranked(rows) && AllLive(rows) }

  /** A row keeps its definition and revision, its cursor never moves back, and once superseded it stays as it is. */
  predicate RowGrows(before: Row, after: Row) {
    && after.definition == before.definition && after.revision == before.revision
    && (!before.live ==> after == before)
    && (before.last.Some? ==> after.last.Some? && before.last.value <= after.last.value)
  }

  predicate Grows(before: seq<Row>, after: seq<Row>) {
    |before| <= |after| && forall i :: 0 <= i < |before| ==> RowGrows(before[i], after[i])
  }

  lemma RevisionIsUnique(rows: seq<Row>, i: nat, j: nat)
    requires Ranked(rows) && i < |rows| && j < |rows|
    requires Of(rows[i], rows[j].definition.scheduleRef) && rows[i].revision == rows[j].revision
    ensures i == j
  {
    assert Of(rows[j], rows[i].definition.scheduleRef);
  }

  /** A new revision of a schedule: higher than every earlier one, which are all superseded. */
  lemma AddRevision(rows: seq<Row>, row: Row)
    requires RowsOk(rows) && Ranked(rows) && row.live && RowOk(row)
    requires forall i :: 0 <= i < |rows| && Of(rows[i], row.definition.scheduleRef) ==> rows[i].revision < row.revision
    ensures var after := Supersede(rows, row.definition.scheduleRef) + [row];
            RowsOk(after) && Ranked(after) && Grows(rows, after)
  {
    var after := Supersede(rows, row.definition.scheduleRef) + [row];
    forall i, j | 0 <= i < j < |after| && Of(after[i], after[j].definition.scheduleRef)
      ensures !after[i].live && after[i].revision < after[j].revision
    {
      assert after[i] == Retired(rows[i], row.definition.scheduleRef);
      if j < |rows| { assert Of(rows[i], rows[j].definition.scheduleRef); }
    }
  }

  lemma AddRevisionLive(rows: seq<Row>, row: Row)
    requires AllLive(rows) && row.live
    ensures AllLive(Supersede(rows, row.definition.scheduleRef) + [row])
  {
    var after := Supersede(rows, row.definition.scheduleRef) + [row];
    forall ref | Known(after, ref) ensures HasLive(after, ref) {
      if ref == row.definition.scheduleRef {
        assert Of(after[|rows|], ref) && after[|rows|].live;
      } else {
        var i :| 0 <= i < |after| && Of(after[i], ref);
        assert Of(rows[i], ref);
        assert Known(rows, ref);
        var j :| 0 <= j < |rows| && Of(rows[j], ref) && rows[j].live;
        assert after[j] == rows[j];
      }
    }
  }

  lemma NoneWithoutLive(rows: seq<Row>, ref: string)
    requires AllLive(rows) && FirstIndex(rows, LiveOf(ref)) == |rows|
    ensures forall i :: 0 <= i < |rows| ==> !Of(rows[i], ref)
  {
    assert forall j :: 0 <= j < |rows| ==> !LiveOf(ref)(rows[j]);
    assert !HasLive(rows, ref);
    assert !Known(rows, ref);
  }

  lemma LiveIsNewest(rows: seq<Row>, n: nat)
    requires Ranked(rows) && n < |rows| && rows[n].live
    ensures forall i :: 0 <= i < |rows| && Of(rows[i], rows[n].definition.scheduleRef) ==> rows[i].revision <= rows[n].revision
  {
    forall i | 0 <= i < |rows| && Of(rows[i], rows[n].definition.scheduleRef) ensures rows[i].revision <= rows[n].revision {
      assert Of(rows[n], rows[i].definition.scheduleRef);
    }
  }

  lemma AddNewRevision(rows: seq<Row>, row: Row)
    requires Orderly(rows) && row.live && RowOk(row)
    requires forall i :: 0 <= i < |rows| && Of(rows[i], row.definition.scheduleRef) ==> rows[i].revision < row.revision
    ensures var after := Supersede(rows, row.definition.scheduleRef) + [row]; Orderly(after) && Grows(rows, after)
  {
    AddRevision(rows, row);
    AddRevisionLive(rows, row);
  }

  ghost predicate Keeps(before: seq<Row>, after: seq<Row>) { Orderly(before) ==> Orderly(after) && Grows(before, after) }

  lemma SaveKeeps(rows: seq<Row>, definition: Definition, next: Option<int>)
    ensures Keeps(rows, Handle(rows, Save(definition, next)).0)
  {
    if Orderly(rows) {
      var n := FirstIndex(rows, LiveOf(definition.scheduleRef));
      if n == |rows| {
        FirstRevision(rows, definition, next);
      } else if rows[n].definition != definition {
        LaterRevision(rows, n, definition, next);
      }
    }
  }

  lemma FirstRevision(rows: seq<Row>, definition: Definition, next: Option<int>)
    requires Orderly(rows) && FirstIndex(rows, LiveOf(definition.scheduleRef)) == |rows|
    ensures var after := Supersede(rows, definition.scheduleRef) + [Row(definition, 1, true, None, next)];
            Keeps(rows, after)
  {
    NoneWithoutLive(rows, definition.scheduleRef);
    AddNewRevision(rows, Row(definition, 1, true, None, next));
  }

  lemma LaterRevision(rows: seq<Row>, n: nat, definition: Definition, next: Option<int>)
    requires Orderly(rows) && n < |rows| && LiveOf(definition.scheduleRef)(rows[n])
    ensures var after := Supersede(rows, definition.scheduleRef) + [Row(definition, rows[n].revision + 1, true, None, next)];
            Keeps(rows, after)
  {
    LiveIsNewest(rows, n);
    AddNewRevision(rows, Row(definition, rows[n].revision + 1, true, None, next));
  }

  /** Moving the cursor of a row forward disturbs nothing else. */
  lemma MoveCursor(rows: seq<Row>, n: nat, row: Row)
    requires Orderly(rows) && n < |rows| && RowOk(row) && RowGrows(rows[n], row) && row.live == rows[n].live
    ensures Orderly(rows[n := row]) && Grows(rows, rows[n := row])
  {
    var after := rows[n := row];
    forall i, j | 0 <= i < j < |after| && Of(after[i], after[j].definition.scheduleRef)
      ensures !after[i].live && after[i].revision < after[j].revision
    {
      assert Of(rows[i], rows[j].definition.scheduleRef);
    }
    forall ref | Known(after, ref) ensures HasLive(after, ref) {
      var i :| 0 <= i < |after| && Of(after[i], ref);
      assert Of(rows[i], ref);
      assert Known(rows, ref);
      var j :| 0 <= j < |rows| && Of(rows[j], ref) && rows[j].live;
      assert Of(after[j], ref) && after[j].live;
    }
  }

  lemma TickKeeps(rows: seq<Row>, request: Request)
    requires Orderly(rows) && request.Tick?
    ensures var after := Handle(rows, request).0; Orderly(after) && Grows(rows, after)
  {
    if Handle(rows, request).1.Advanced? {
      var n := FirstIndex(rows, Ticked(request.scheduleRef, request.revision, request.definition));
      assert RowOk(rows[n]);
      MoveCursor(rows, n, rows[n].(last := Some(request.slot), next := request.next));
    }
  }

  lemma HandleKeeps(rows: seq<Row>, request: Request)
    requires Orderly(rows)
    ensures var after := Handle(rows, request).0; Orderly(after) && Grows(rows, after)
  {
    match request
    case Save(definition, next) => SaveKeeps(rows, definition, next);
    case Tick(_, _, _, _, _) => TickKeeps(rows, request);
  }

  /******* Any interleaving of edits and workers *******/

  lemma {:induction false} HandleAllKeeps(rows: seq<Row>, requests: seq<Request>)
    requires Orderly(rows)
    ensures var after := RunAll(Handle, rows, requests).0; Orderly(after) && Grows(rows, after)
    decreases |requests|
  {
    if requests != [] {
      var after := Handle(rows, requests[0]).0;
      HandleKeeps(rows, requests[0]);
      HandleAllKeeps(after, requests[1..]);
      GrowsOn(rows, after, RunAll(Handle, after, requests[1..]).0);
    }
  }

  lemma GrowsOn(a: seq<Row>, b: seq<Row>, c: seq<Row>)
    requires Grows(a, b) && Grows(b, c)
    ensures Grows(a, c)
  {
    forall i | 0 <= i < |a| ensures RowGrows(a[i], c[i]) {
      assert RowGrows(a[i], b[i]) && RowGrows(b[i], c[i]);
    }
  }

  /** A revision whose cursor has reached this slot. */
  predicate Consumed(rows: seq<Row>, scheduleRef: string, revision: nat, slot: int) {
    exists i :: 0 <= i < |rows| && Reached(rows[i], scheduleRef, revision, slot)
  }

  predicate Reached(row: Row, scheduleRef: string, revision: nat, slot: int) {
    Of(row, scheduleRef) && row.revision == revision && row.last.Some? && row.last.value >= slot
  }

  predicate TickFor(request: Request, scheduleRef: string, revision: nat, slot: int) {
    request.Tick? && request.scheduleRef == scheduleRef && request.revision == revision && request.slot == slot
  }

  lemma ConsumedNeverAdvances(rows: seq<Row>, request: Request, scheduleRef: string, revision: nat, slot: int)
    requires Orderly(rows) && Consumed(rows, scheduleRef, revision, slot) && TickFor(request, scheduleRef, revision, slot)
    ensures Handle(rows, request).0 == rows && !Handle(rows, request).1.Advanced?
  {
    var i :| 0 <= i < |rows| && Reached(rows[i], scheduleRef, revision, slot);
    var n := FirstIndex(rows, Ticked(scheduleRef, revision, request.definition));
    if n < |rows| { RevisionIsUnique(rows, i, n); }
  }

  lemma ConsumedStays(before: seq<Row>, after: seq<Row>, scheduleRef: string, revision: nat, slot: int)
    requires Grows(before, after) && Consumed(before, scheduleRef, revision, slot)
    ensures Consumed(after, scheduleRef, revision, slot)
  {
    var i :| 0 <= i < |before| && Reached(before[i], scheduleRef, revision, slot);
    assert RowGrows(before[i], after[i]);
    assert Reached(after[i], scheduleRef, revision, slot);
  }

  lemma AdvancedConsumes(rows: seq<Row>, request: Request, scheduleRef: string, revision: nat, slot: int)
    requires TickFor(request, scheduleRef, revision, slot) && Handle(rows, request).1.Advanced?
    ensures Consumed(Handle(rows, request).0, scheduleRef, revision, slot)
  {
    var n := FirstIndex(rows, Ticked(scheduleRef, revision, request.definition));
    assert Reached(Handle(rows, request).0[n], scheduleRef, revision, slot);
  }

  function Advances(
    requests: seq<Request>, replies: seq<Reply>, scheduleRef: string, revision: nat, slot: int): nat
    requires |requests| == |replies|
  {
    if requests == [] then 0
    else (if TickFor(requests[0], scheduleRef, revision, slot) && replies[0].Advanced? then 1 else 0)
         + Advances(requests[1..], replies[1..], scheduleRef, revision, slot)
  }

  /** However many workers tick the same slot of a revision, and whatever is saved in between, one of them advances. */
  lemma {:induction false} TickConsumedOnce(
    rows: seq<Row>, requests: seq<Request>, scheduleRef: string, revision: nat, slot: int)
    requires Orderly(rows)
    ensures Advances(requests, RunAll(Handle, rows, requests).1, scheduleRef, revision, slot)
         <= if Consumed(rows, scheduleRef, revision, slot) then 0 else 1
    decreases |requests|
  {
    if requests != [] {
      var (after, reply) := Handle(rows, requests[0]);
      HandleKeeps(rows, requests[0]);
      TickConsumedOnce(after, requests[1..], scheduleRef, revision, slot);
      assert RunAll(Handle, rows, requests).1[1..] == RunAll(Handle, after, requests[1..]).1;
      if Consumed(rows, scheduleRef, revision, slot) {
        ConsumedStays(rows, after, scheduleRef, revision, slot);
        if TickFor(requests[0], scheduleRef, revision, slot) {
          ConsumedNeverAdvances(rows, requests[0], scheduleRef, revision, slot);
        }
      } else if TickFor(requests[0], scheduleRef, revision, slot) && reply.Advanced? {
        AdvancedConsumes(rows, requests[0], scheduleRef, revision, slot);
      }
    }
  }

  /** Once a schedule has been edited, a tick that carries the earlier revision changes nothing at any later time. */
  lemma OldRevisionNeverTicks(rows: seq<Row>, requests: seq<Request>, i: nat, tick: Request)
    requires Orderly(rows) && i < |rows| && !rows[i].live && tick.Tick?
    requires tick.scheduleRef == rows[i].definition.scheduleRef && tick.revision == rows[i].revision
    ensures var later := RunAll(Handle, rows, requests).0; Handle(later, tick).0 == later && !Handle(later, tick).1.Advanced?
  {
    var later := RunAll(Handle, rows, requests).0;
    HandleAllKeeps(rows, requests);
    assert RowGrows(rows[i], later[i]);
    var n := FirstIndex(later, Ticked(tick.scheduleRef, tick.revision, tick.definition));
  }

  /** A row that is due has not consumed its due time: an unhindered tick for it advances the cursor to it. */
  lemma DueTickAdvances(rows: seq<Row>, i: nat, next: Option<int>)
    requires Orderly(rows) && i < |rows| && rows[i].next.Some?
    requires next.Some? ==> rows[i].next.value < next.value
    ensures var row := rows[i];
            Handle(rows, Tick(row.definition.scheduleRef, row.revision, row.definition, row.next.value, next))
            == (rows[i := row.(last := row.next, next := next)], Advanced)
  {
    var row := rows[i];
    assert RowOk(row);
    var picks := Ticked(row.definition.scheduleRef, row.revision, row.definition);
    var n := FirstIndex(rows, picks);
    assert picks(row);
    RevisionIsUnique(rows, n, i);
  }
}
