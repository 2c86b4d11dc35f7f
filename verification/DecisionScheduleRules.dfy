/** The schedule registry request by request, told from its rows. */
module DecisionScheduleRules {
  import opened Options
  import opened Sequences
  import opened DecisionSchedules

  /** The row is the current revision of the schedule. */
  predicate CurrentOf(row: Row, scheduleRef: string) { row.live && row.definition.scheduleRef == scheduleRef }

  /** The revision number that comes next: after the current revision, or the first. */
  predicate NextRevision(rows: seq<Row>, scheduleRef: string, revision: int) {
    if exists i :: 0 <= i < |rows| && CurrentOf(rows[i], scheduleRef)
    then exists i :: 0 <= i < |rows| && CurrentOf(rows[i], scheduleRef) && revision == rows[i].revision + 1
    else revision == 1
  }

  predicate IsCurrentDefinition(rows: seq<Row>, definition: Definition) {
    exists i :: 0 <= i < |rows| && rows[i].live && rows[i].definition == definition
  }

  lemma CurrentIsUnique(rows: seq<Row>, i: nat, j: nat, scheduleRef: string)
    requires Ranked(rows) && i < |rows| && j < |rows| && CurrentOf(rows[i], scheduleRef) && CurrentOf(rows[j], scheduleRef)
    ensures i == j
  {
    if i < j { assert Of(rows[i], rows[j].definition.scheduleRef); }
    if j < i { assert Of(rows[j], rows[i].definition.scheduleRef); }
  }

  /**
   Saving the current definition again changes nothing. Any other definition adds one row: live, of the next revision, with
   no slot ticked and due as given. The revision that was current is kept, but no longer live and never due again; all
   other rows stay as they are.
   */
  lemma SaveExactly(rows: seq<Row>, definition: Definition, next: Option<int>)
    requires Orderly(rows)
    ensures Handle(rows, Save(definition, next)).1 == Saved
    ensures IsCurrentDefinition(rows, definition) ==> Handle(rows, Save(definition, next)).0 == rows
    ensures !IsCurrentDefinition(rows, definition) ==>
              var after := Handle(rows, Save(definition, next)).0;
              && |after| == |rows| + 1
              && (forall i :: 0 <= i < |rows| ==>
                    after[i] == if CurrentOf(rows[i], definition.scheduleRef) then rows[i].(live := false, next := None)
                                else rows[i])
              && var row := after[|rows|];
                 row == Row(definition, row.revision, true, None, next)
                 && NextRevision(rows, definition.scheduleRef, row.revision)
  {
    var picks := LiveOf(definition.scheduleRef);
    var n := FirstIndex(rows, picks);
    forall i | 0 <= i < |rows| ensures picks(rows[i]) <==> CurrentOf(rows[i], definition.scheduleRef) {}
    if n < |rows| {
      assert CurrentOf(rows[n], definition.scheduleRef);
      forall i | 0 <= i < |rows| && CurrentOf(rows[i], definition.scheduleRef) ensures i == n {
        CurrentIsUnique(rows, i, n, definition.scheduleRef);
      }
    }
  }

  /** The row is the current revision that the tick names, and its cursor is before the slot. */
  predicate Tickable(row: Row, tick: Request)
    requires tick.Tick?
  {
    && row.live && row.definition.scheduleRef == tick.scheduleRef && row.revision == tick.revision
    && row.definition == tick.definition && (row.last == None || row.last.value < tick.slot)
  }

  /**
   A tick advances exactly when it is well formed and names the current revision, before whose slot the cursor is. Then only
   that row changes: its cursor is at the slot, and it is next due as given.
   */
  lemma TickExactly(rows: seq<Row>, tick: Request)
    requires Orderly(rows) && tick.Tick?
    ensures var good := tick.revision >= 1 && (tick.next.None? || tick.slot < tick.next.value);
            && (Handle(rows, tick).1 == InvalidInput <==> !good)
            && (Handle(rows, tick).1 == Advanced <==> good && exists i :: 0 <= i < |rows| && Tickable(rows[i], tick))
    ensures Handle(rows, tick).1 != Advanced ==> Handle(rows, tick).0 == rows
    ensures forall i :: 0 <= i < |rows| && Tickable(rows[i], tick) && Handle(rows, tick).1 == Advanced ==>
              Handle(rows, tick).0 == rows[i := rows[i].(last := Some(tick.slot), next := tick.next)]
  {
    var picks := Ticked(tick.scheduleRef, tick.revision, tick.definition);
    var n := FirstIndex(rows, picks);
    forall i | 0 <= i < |rows| && picks(rows[i]) ensures i == n {
      CurrentIsUnique(rows, i, n, tick.scheduleRef);
    }
  }
}
