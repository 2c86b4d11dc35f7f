/**
 Resumable reading of paged slices. A page is stored together with the cursor of the next one; a run can stop between any
 two pages, and the next run continues from what is stored. However often that happens, a slice that is complete holds
 exactly the records of one uninterrupted read.
 */
module MetaSync {

  /** A record: its identity within the slice, and the hash of its snapshot. */
  datatype Record = Record(id: string, hash: string)

  type Ledger = map<string, string>

  /** The pages of a slice in order; the cursor of page 0 is null. */
  type Pages = pages: seq<seq<Record>> | pages != [] witness [[]]

  /******* Storing records *******/

  /** A new identity is inserted, a known one keeps or changes its hash. */
  function Upsert(ledger: Ledger, r: Record): Ledger { ledger[r.id := r.hash] }

  function Apply(ledger: Ledger, records: seq<Record>): Ledger
    decreases |records|
  {
    if records == [] then ledger else Apply(Upsert(ledger, records[0]), records[1..])
  }

  function Concat(pages: seq<seq<Record>>): seq<Record> {
    if pages == [] then [] else pages[0] + Concat(pages[1..])
  }

  /** What one uninterrupted read stores. */
  function Complete(pages: seq<seq<Record>>): Ledger { Apply(map[], Concat(pages)) }

  lemma {:induction false} ApplyAppend(ledger: Ledger, a: seq<Record>, b: seq<Record>)
    ensures Apply(ledger, a + b) == Apply(Apply(ledger, a), b)
    decreases |a|
  {
    if a == [] {
      assert a + b == b;
    } else {
      assert (a + b)[1..] == a[1..] + b;
      ApplyAppend(Upsert(ledger, a[0]), a[1..], b);
    }
  }

  /** Applying records puts their own result over what was there. */
  lemma {:induction false} ApplyOver(ledger: Ledger, records: seq<Record>)
    ensures Apply(ledger, records) == ledger + Apply(map[], records)
    decreases |records|
  {
    if records != [] {
      var rest := records[1..];
      ApplyOver(Upsert(ledger, records[0]), rest);
      ApplyOver(Upsert(map[], records[0]), rest);
      UpsertOver(ledger, records[0], Apply(map[], rest));
    }
  }

  /** What was stored last under an identity is what is there; the identities are those that were there or were stored. */
  lemma {:induction false} AppliedExactly(ledger: Ledger, records: seq<Record>, id: string)
    ensures id in Apply(ledger, records) <==> id in ledger || exists i :: 0 <= i < |records| && records[i].id == id
    ensures forall i :: 0 <= i < |records| && records[i].id == id && (forall j :: i < j < |records| ==> records[j].id != id) ==>
              Apply(ledger, records)[id] == records[i].hash
    ensures id in ledger && (forall i :: 0 <= i < |records| ==> records[i].id != id) ==>
              Apply(ledger, records)[id] == ledger[id]
    decreases |records|
  {
    if records != [] {
      var rest := records[1..];
      AppliedExactly(Upsert(ledger, records[0]), rest, id);
      assert forall i :: 0 < i < |records| ==> records[i] == rest[i - 1];
    }
  }

  lemma UpsertOver(ledger: Ledger, r: Record, over: Ledger)
    ensures Upsert(ledger, r) + over == ledger + (Upsert(map[], r) + over)
  {
  }

  /** Reading everything again over a part of the result gives the result. */
  lemma ApplyAgain(ledger: Ledger, records: seq<Record>)
    requires ledger.Keys <= Apply(map[], records).Keys
    ensures Apply(ledger, records) == Apply(map[], records)
  {
    ApplyOver(ledger, records);
  }

  /** Storing a page twice in a row is storing it once. */
  lemma ApplyTwice(ledger: Ledger, records: seq<Record>)
    ensures Apply(Apply(ledger, records), records) == Apply(ledger, records)
  {
    ApplyOver(ledger, records);
    ApplyOver(Apply(ledger, records), records);
  }

  lemma PageThenRest(ledger: Ledger, pages: seq<seq<Record>>, c: nat)
    requires c < |pages|
    ensures Apply(ledger, Concat(pages[c..])) == Apply(Apply(ledger, pages[c]), Concat(pages[c + 1..]))
  {
    assert pages[c..][1..] == pages[c + 1..];
    ApplyAppend(ledger, pages[c], Concat(pages[c + 1..]));
  }

  lemma {:induction false} PageKeys(ledger: Ledger, pages: seq<seq<Record>>, c: nat)
    requires c < |pages| && ledger.Keys <= Complete(pages).Keys
    requires Apply(ledger, Concat(pages[c..])) == Complete(pages)
    ensures Apply(ledger, pages[c]).Keys <= Complete(pages).Keys
  {
    PageThenRest(ledger, pages, c);
    ApplyOver(Apply(ledger, pages[c]), Concat(pages[c + 1..]));
  }

  /******* A slice and the run over all slices *******/

  datatype Slice = Slice(cursor: nat, ledger: Ledger, done: bool)

  const FRESH: Slice := Slice(0, map[], false)

  /** The slices in memory and as stored, and the insight rows, which are written before the page is stored. */
  datatype World = World(memory: seq<Slice>, stored: seq<Slice>, insights: seq<Ledger>)

  /** The cursor after a page: null, which is also the cursor of the first page, after the last one. */
  function NextCursor(pages: Pages, c: nat): nat { if c + 1 < |pages| then c + 1 else 0 }

  function AfterPage(pages: Pages, s: Slice): Slice
    requires s.cursor < |pages|
  {
    Slice(NextCursor(pages, s.cursor), Apply(s.ledger, pages[s.cursor]), s.done)
  }

  datatype Event =
    | Page(slice: nat)          // a page is read and stored; after the last one the slice is done, in memory only
    | Stop(slice: nat)          // the read fails or time is up: what is in memory is stored, and the run ends
    | Crash                     // the run ends with nothing more stored
    | CrashInPage(slice: nat)   // the run ends after the insights of a page are written and before it is stored
    | Finish                    // the run ends and what is in memory is stored

  predicate Open(plan: seq<Pages>, w: World, s: nat) {
    && s < |plan| == |w.memory| == |w.insights| && !w.memory[s].done && w.memory[s].cursor < |plan[s]|
  }

  function Step(plan: seq<Pages>, w: World, e: Event): World {
    match e
    case Page(s) =>
      if !Open(plan, w, s) then w
      else
        var after := AfterPage(plan[s], w.memory[s]);
        var page := plan[s][w.memory[s].cursor];
        World(w.memory[s := after.(done := after.cursor == 0)], w.memory[s := after],
              w.insights[s := Apply(w.insights[s], page)])
    case Stop(_) => w.(stored := w.memory)
    case Crash => w.(memory := w.stored)
    case CrashInPage(s) =>
      if !Open(plan, w, s) then w
      else World(w.memory, w.memory, w.insights[s := Apply(w.insights[s], plan[s][w.memory[s].cursor])])
    case Finish => w.(stored := w.memory)
  }

  function Run(plan: seq<Pages>, w: World, events: seq<Event>): World
    decreases |events|
  {
    if events == [] then w else Run(plan, Step(plan, w, events[0]), events[1..])
  }

  function Start(plan: seq<Pages>): World {
    var slices := seq(|plan|, i => FRESH);
    World(slices, slices, seq(|plan|, i => map[]))
  }

  /******* What every interrupted run keeps *******/

  /** The part of the records that is there, and the pages still to read from the cursor, make up the complete slice. */
  predicate OnTheWay(pages: Pages, cursor: nat, done: bool, ledger: Ledger) {
    && cursor < |pages| && ledger.Keys <= Complete(pages).Keys
    && (if done then ledger == Complete(pages) && cursor == 0 else Apply(ledger, Concat(pages[cursor..])) == Complete(pages))
  }

  /** What is stored is what is in memory, except that the end of a slice may not be stored yet. */
  predicate Behind(stored: Slice, memory: Slice) { memory == stored || memory == stored.(done := true) }

  predicate SliceOk(pages: Pages, memory: Slice, stored: Slice, insights: Ledger) {
    && OnTheWay(pages, memory.cursor, memory.done, memory.ledger)
    && OnTheWay(pages, memory.cursor, memory.done, insights)
    && Behind(stored, memory)
  }

  predicate Ok(plan: seq<Pages>, w: World) {
    && |w.memory| == |w.stored| == |w.insights| == |plan|
    && forall s :: 0 <= s < |plan| ==> SliceOk(plan[s], w.memory[s], w.stored[s], w.insights[s])
  }

  lemma CompleteAgain(pages: Pages)
    ensures OnTheWay(pages, 0, false, Complete(pages)) && OnTheWay(pages, 0, false, map[])
  {
    assert pages[0..] == pages;
    ApplyAgain(Complete(pages), Concat(pages));
  }

  lemma DoneIsOnTheWay(pages: Pages, cursor: nat, ledger: Ledger)
    requires OnTheWay(pages, cursor, true, ledger)
    ensures OnTheWay(pages, cursor, false, ledger)
  {
    CompleteAgain(pages);
  }

  /** One more page, whether or not it had been stored before. */
  lemma PageKeeps(pages: Pages, cursor: nat, ledger: Ledger)
    requires OnTheWay(pages, cursor, false, ledger)
    ensures var next := NextCursor(pages, cursor);
            && OnTheWay(pages, next, next == 0, Apply(ledger, pages[cursor]))
            && OnTheWay(pages, next, false, Apply(ledger, pages[cursor]))
    ensures OnTheWay(pages, cursor, false, Apply(ledger, pages[cursor]))
  {
    PageThenRest(ledger, pages, cursor);
    PageKeys(ledger, pages, cursor);
    if cursor + 1 == |pages| {
      assert pages[cursor + 1..] == [];
      CompleteAgain(pages);
    }
    ApplyTwice(ledger, pages[cursor]);
    PageThenRest(Apply(ledger, pages[cursor]), pages, cursor);
  }

  lemma PageSliceOk(pages: Pages, memory: Slice, stored: Slice, insights: Ledger)
    requires SliceOk(pages, memory, stored, insights) && !memory.done
    ensures var after := AfterPage(pages, memory);
            && SliceOk(pages, after.(done := after.cursor == 0), after, Apply(insights, pages[memory.cursor]))
            && SliceOk(pages, memory, memory, Apply(insights, pages[memory.cursor]))
  {
    PageKeeps(pages, memory.cursor, memory.ledger);
    PageKeeps(pages, memory.cursor, insights);
  }

  lemma StoredSliceOk(pages: Pages, memory: Slice, stored: Slice, insights: Ledger)
    requires SliceOk(pages, memory, stored, insights)
    ensures SliceOk(pages, memory, memory, insights) && SliceOk(pages, stored, stored, insights)
  {
    if memory.done {
      DoneIsOnTheWay(pages, memory.cursor, memory.ledger);
      DoneIsOnTheWay(pages, memory.cursor, insights);
    }
  }

  /** A step that is not about this slice at most brings its stored place and its place in memory together. */
  lemma OtherStep(plan: seq<Pages>, w: World, e: Event, s: nat)
    requires |w.memory| == |w.stored| == |w.insights| == |plan| && s < |plan|
    requires (e.Page? || e.CrashInPage?) && e.slice == s ==> !Open(plan, w, s)
    ensures var after := Step(plan, w, e);
            && |after.memory| == |after.stored| == |after.insights| == |plan| && after.insights[s] == w.insights[s]
            && (after.memory[s], after.stored[s])
               in {(w.memory[s], w.stored[s]), (w.memory[s], w.memory[s]), (w.stored[s], w.stored[s])}
  {
  }

  lemma SliceStepOk(plan: seq<Pages>, w: World, e: Event, s: nat)
    requires Ok(plan, w) && s < |plan|
    ensures var after := Step(plan, w, e);
            && |after.memory| == |after.stored| == |after.insights| == |plan|
            && SliceOk(plan[s], after.memory[s], after.stored[s], after.insights[s])
  {
    var memory, stored, insights := w.memory[s], w.stored[s], w.insights[s];
    assert SliceOk(plan[s], memory, stored, insights);
    StoredSliceOk(plan[s], memory, stored, insights);
    if (e.Page? || e.CrashInPage?) && e.slice == s && Open(plan, w, s) {
      PageSliceOk(plan[s], memory, stored, insights);
    } else {
      OtherStep(plan, w, e, s);
    }
  }

  lemma StepKeeps(plan: seq<Pages>, w: World, e: Event)
    requires Ok(plan, w)
    ensures Ok(plan, Step(plan, w, e))
  {
    var after := Step(plan, w, e);
    forall s | 0 <= s < |plan| ensures SliceOk(plan[s], after.memory[s], after.stored[s], after.insights[s]) {
      SliceStepOk(plan, w, e, s);
    }
  }

  lemma {:induction false} RunKeeps(plan: seq<Pages>, w: World, events: seq<Event>)
    requires Ok(plan, w)
    ensures Ok(plan, Run(plan, w, events))
    decreases |events|
  {
    if events != [] {
      StepKeeps(plan, w, events[0]);
      RunKeeps(plan, Step(plan, w, events[0]), events[1..]);
    }
  }

  lemma StartOk(plan: seq<Pages>)
    ensures Ok(plan, Start(plan))
  {
    forall s | 0 <= s < |plan| ensures SliceOk(plan[s], FRESH, FRESH, map[]) { CompleteAgain(plan[s]); }
  }

  /**
   Whatever sequence of pages, failures, crashes and restarts: a slice stored as done has exactly the records and insights
   of an uninterrupted read, and a slice that is not done holds none that such a read would not store.
   */
  lemma ResumeEquivalence(plan: seq<Pages>, events: seq<Event>, s: nat)
    requires s < |plan|
    ensures var w := Run(plan, Start(plan), events);
            && |w.stored| == |w.insights| == |plan|
            && (w.stored[s].done ==> w.stored[s].ledger == Complete(plan[s]) == w.insights[s])
            && w.stored[s].ledger.Keys <= Complete(plan[s]).Keys && w.insights[s].Keys <= Complete(plan[s]).Keys
  {
    StartOk(plan);
    RunKeeps(plan, Start(plan), events);
    var w := Run(plan, Start(plan), events);
    assert SliceOk(plan[s], w.memory[s], w.stored[s], w.insights[s]);
  }

  /** The end of a slice is stored after its last page: a crash in between reads the whole slice again, to the same result. */
  lemma CrashBeforeDoneReadsAgain(page: seq<Record>)
    ensures var plan: seq<Pages> := [[page]];
            var w := Run(plan, Start(plan), [Page(0), Crash]);
            && w.memory[0].cursor == 0 && !w.memory[0].done && w.memory[0].ledger == Complete([page])
            && Run(plan, w, [Page(0), Finish]).stored[0] == Slice(0, Complete([page]), true)
  {
    var plan: seq<Pages> := [[page]];
    var w := Run(plan, Start(plan), [Page(0), Crash]);
    assert [Page(0), Crash][1..] == [Crash] && [Crash][1..] == [] && [Page(0), Finish][1..] == [Finish] && [Finish][1..] == [];
    var first := Step(plan, Start(plan), Page(0));
    assert w == Step(plan, first, Crash);
    var pages: Pages := [page];
    assert pages[1..] == [] && Concat(pages) == page + Concat([]) && page + [] == page;
    assert plan[0] == pages && Complete(pages) == Apply(map[], page);
    ApplyTwice(map[], page);
    var again := Step(plan, w, Page(0));
    assert Run(plan, w, [Page(0), Finish]) == Step(plan, again, Finish);
  }

  /******* How much has to be read *******/

  function PagesLeft(pages: Pages, m: Slice): int { if m.done then 0 else |pages| - m.cursor }

  /** The step reads a page of the slice. */
  predicate Reads(plan: seq<Pages>, w: World, e: Event, s: nat) { e == Page(s) && Open(plan, w, s) }

  /** The step is a crash between the slice's last page and the storing of its end. */
  predicate LosesEnd(w: World, e: Event, s: nat) {
    e.Crash? && s < |w.memory| == |w.stored| && w.memory[s].done && !w.stored[s].done
  }

  /** The pages of a slice that a run reads. */
  function PagesRead(plan: seq<Pages>, w: World, events: seq<Event>, s: nat): nat
    decreases |events|
  {
    if events == [] then 0
    else (if Reads(plan, w, events[0], s) then 1 else 0) + PagesRead(plan, Step(plan, w, events[0]), events[1..], s)
  }

  /** How often the end of the slice is lost to a crash. */
  function EndsLost(plan: seq<Pages>, w: World, events: seq<Event>, s: nat): nat
    decreases |events|
  {
    if events == [] then 0
    else (if LosesEnd(w, events[0], s) then 1 else 0) + EndsLost(plan, Step(plan, w, events[0]), events[1..], s)
  }

  lemma StepReads(plan: seq<Pages>, w: World, e: Event, s: nat)
    requires Ok(plan, w) && s < |plan|
    ensures PagesLeft(plan[s], Step(plan, w, e).memory[s])
         == PagesLeft(plan[s], w.memory[s]) - (if Reads(plan, w, e, s) then 1 else 0)
            + if LosesEnd(w, e, s) then |plan[s]| else 0
  {
    assert SliceOk(plan[s], w.memory[s], w.stored[s], w.insights[s]);
  }

  lemma Distribute(n: nat, a: nat, b: nat)
    ensures n * (a + b) == n * a + n * b
  {
  }

  /**
   No page is read twice except after a crash that lost the end of its slice, and then all are: the pages read and the pages
   left make up the slice, once for the run and once for each such crash.
   */
  lemma {:induction false} ReadsAreCounted(plan: seq<Pages>, w: World, events: seq<Event>, s: nat)
    requires Ok(plan, w) && s < |plan|
    ensures |Run(plan, w, events).memory| == |plan|
    ensures PagesRead(plan, w, events, s) + PagesLeft(plan[s], Run(plan, w, events).memory[s])
         == PagesLeft(plan[s], w.memory[s]) + |plan[s]| * EndsLost(plan, w, events, s)
    decreases |events|
  {
    if events != [] {
      var next, rest := Step(plan, w, events[0]), events[1..];
      StepKeeps(plan, w, events[0]);
      StepReads(plan, w, events[0], s);
      ReadsAreCounted(plan, next, rest, s);
      var lost, later := if LosesEnd(w, events[0], s) then 1 else 0, EndsLost(plan, next, rest, s);
      assert Run(plan, w, events) == Run(plan, next, rest) && EndsLost(plan, w, events, s) == lost + later;
      Distribute(|plan[s]|, lost, later);
    }
  }

  lemma {:induction false} RunAppend(plan: seq<Pages>, w: World, a: seq<Event>, b: seq<Event>)
    ensures Run(plan, w, a + b) == Run(plan, Run(plan, w, a), b)
    decreases |a|
  {
    if a == [] {
      assert a + b == b;
    } else {
      assert (a + b)[1..] == a[1..] + b;
      RunAppend(plan, Step(plan, w, a[0]), a[1..], b);
    }
  }

  /**
   Whatever failures, crashes and restarts lie in between: when a run ends, the slice is stored as done exactly when its
   pages have been read once, and once more for each crash that lost its end.
   */
  lemma DoneExactly(plan: seq<Pages>, events: seq<Event>, s: nat)
    requires s < |plan|
    ensures var w := Run(plan, Start(plan), events + [Finish]);
            |w.stored| == |plan|
            && (w.stored[s].done <==>
                  PagesRead(plan, Start(plan), events, s) == |plan[s]| * (1 + EndsLost(plan, Start(plan), events, s)))
  {
    var before := Run(plan, Start(plan), events);
    StartOk(plan);
    RunKeeps(plan, Start(plan), events);
    ReadsAreCounted(plan, Start(plan), events, s);
    RunAppend(plan, Start(plan), events, [Finish]);
    assert [Finish][1..] == [];
    assert Run(plan, before, [Finish]) == Step(plan, before, Finish);
    assert SliceOk(plan[s], before.memory[s], before.stored[s], before.insights[s]);
    Distribute(|plan[s]|, 1, EndsLost(plan, Start(plan), events, s));
  }

  function Rereads(s: nat, n: nat): seq<Event> { if n == 0 then [] else [Page(s)] + Rereads(s, n - 1) }

  /** So from every state that is ever reached the slice can be completed, by reading the pages that are left. */
  lemma {:induction false} CanBeDone(plan: seq<Pages>, w: World, s: nat)
    requires Ok(plan, w) && s < |plan|
    ensures var n := PagesLeft(plan[s], w.memory[s]);
            n >= 0 && var after := Run(plan, w, Rereads(s, n)).memory; s < |after| && after[s].done
    decreases PagesLeft(plan[s], w.memory[s])
  {
    assert SliceOk(plan[s], w.memory[s], w.stored[s], w.insights[s]);
    if !w.memory[s].done {
      var n := PagesLeft(plan[s], w.memory[s]);
      StepKeeps(plan, w, Page(s));
      StepReads(plan, w, Page(s), s);
      CanBeDone(plan, Step(plan, w, Page(s)), s);
      assert Rereads(s, n)[1..] == Rereads(s, n - 1);
    }
  }

  /******* One store for all slices *******/

  /** The store keeps all records together: an identity is the slice's account, stream, level and dates with the record's id. */
  datatype Identity = Identity(scope: string, id: string)

  type Shared = map<Identity, string>

  function StoreAll(shared: Shared, scope: string, records: seq<Record>): Shared
    decreases |records|
  {
    if records == [] then shared
    else StoreAll(shared[Identity(scope, records[0].id) := records[0].hash], scope, records[1..])
  }

  predicate DistinctScopes(scopes: seq<string>) {
    forall i, j :: 0 <= i < j < |scopes| ==> scopes[i] != scopes[j]
  }

  ghost predicate HoldsSlice(shared: Shared, scope: string, ledger: Ledger) {
    && (forall id :: id in ledger <==> Identity(scope, id) in shared)
    && (forall id :: id in ledger ==> shared[Identity(scope, id)] == ledger[id])
  }

  /** The shared store holds exactly what the slices hold, each under its own scope. */
  ghost predicate Holds(shared: Shared, scopes: seq<string>, ledgers: seq<Ledger>)
    requires |scopes| == |ledgers|
  {
    && (forall s :: 0 <= s < |ledgers| ==> HoldsSlice(shared, scopes[s], ledgers[s]))
    && (forall i :: i in shared ==> i.scope in scopes)
  }

  lemma OneRecordShared(shared: Shared, scopes: seq<string>, ledgers: seq<Ledger>, s: nat, r: Record)
    requires |scopes| == |ledgers| && s < |ledgers| && DistinctScopes(scopes) && Holds(shared, scopes, ledgers)
    ensures Holds(shared[Identity(scopes[s], r.id) := r.hash], scopes, ledgers[s := Upsert(ledgers[s], r)])
  {
    var after, held := shared[Identity(scopes[s], r.id) := r.hash], ledgers[s := Upsert(ledgers[s], r)];
    forall t | 0 <= t < |held| ensures HoldsSlice(after, scopes[t], held[t]) {
      assert HoldsSlice(shared, scopes[t], ledgers[t]);
      assert t != s ==> scopes[t] != scopes[s];
    }
  }

  /**
   Because the slices of a plan have different scopes, storing a page in the shared store is storing it in the slice's own
   ledger: no slice ever touches a record of another.
   */
  lemma {:induction false} SlicesShareOneStore(
    shared: Shared, scopes: seq<string>, ledgers: seq<Ledger>, s: nat, records: seq<Record>)
    requires |scopes| == |ledgers| && s < |ledgers| && DistinctScopes(scopes) && Holds(shared, scopes, ledgers)
    ensures Holds(StoreAll(shared, scopes[s], records), scopes, ledgers[s := Apply(ledgers[s], records)])
    decreases |records|
  {
    if records == [] {
      assert ledgers[s := ledgers[s]] == ledgers;
    } else {
      var next := ledgers[s := Upsert(ledgers[s], records[0])];
      OneRecordShared(shared, scopes, ledgers, s, records[0]);
      SlicesShareOneStore(shared[Identity(scopes[s], records[0].id) := records[0].hash], scopes, next, s, records[1..]);
      assert next[s := Apply(next[s], records[1..])] == ledgers[s := Apply(ledgers[s], records)];
    }
  }

  /******* The run as written *******/

  class Runtime {
    const plan: seq<Pages>
    var memory: seq<Slice>
    var stored: seq<Slice>
    var insights: seq<Ledger>

    ghost function Current(): World
      reads this
    {
      World(memory, stored, insights)
    }

    constructor Begin(plan: seq<Pages>)
      ensures this.plan == plan && Current() == Start(plan) && Ok(plan, Current())
    {
      this.plan := plan;
      memory, stored, insights := seq(|plan|, i => FRESH), seq(|plan|, i => FRESH), seq(|plan|, i => map[]);
      new;
      StartOk(plan);
    }

    method StoreRecords(ledger: Ledger, records: seq<Record>) returns (result: Ledger)
      ensures result == Apply(ledger, records)
    {
      result := ledger;
      for i := 0 to |records|
        invariant Apply(result, records[i..]) == Apply(ledger, records)
      {
        result := result[records[i].id := records[i].hash];
      }
    }

    /** Reads and stores one page; says whether it was the last. */
    method ReadPage(s: nat) returns (last: bool)
      requires Ok(plan, Current()) && s < |plan| && !memory[s].done
      modifies this`memory, this`stored, this`insights
      ensures Current() == Step(plan, old(Current()), Page(s)) && Ok(plan, Current())
      ensures last == memory[s].done == (old(memory[s].cursor) + 1 == |plan[s]|)
      ensures !last ==> memory[s].cursor == old(memory[s].cursor) + 1
    {
      assert SliceOk(plan[s], memory[s], stored[s], insights[s]);
      StepKeeps(plan, Current(), Page(s));
      var page := plan[s][memory[s].cursor];
      var rows := StoreRecords(insights[s], page);
      var records := StoreRecords(memory[s].ledger, page);
      var next := if memory[s].cursor + 1 < |plan[s]| then memory[s].cursor + 1 else 0;
      last := next == 0;
      insights := insights[s := rows];
      stored := memory[s := Slice(next, records, false)];
      memory := memory[s := Slice(next, records, last)];
    }

    /** Reads the pages of a slice from its cursor; `available` says how many reads succeed before one fails. */
    method ProcessSlice(s: nat, available: nat) returns (completed: bool)
      requires Ok(plan, Current()) && s < |plan| && !memory[s].done
      modifies this`memory, this`stored, this`insights
      ensures Ok(plan, Current())
      ensures completed <==> old(memory[s].cursor) + available >= |plan[s]|
      ensures completed ==> memory[s].done && memory[s].ledger == Complete(plan[s]) == insights[s]
      ensures !completed ==> !memory[s].done && stored == memory && memory[s].cursor == old(memory[s].cursor) + available
      ensures forall t :: 0 <= t < |plan| && t != s ==> memory[t] == old(memory[t]) && insights[t] == old(insights[t])
    {
      assert SliceOk(plan[s], memory[s], stored[s], insights[s]);
      ghost var start := memory[s].cursor;
      var read := 0;
      completed := false;
      while !completed
        invariant Ok(plan, Current()) && read <= available && completed == memory[s].done
        invariant if completed then start + read == |plan[s]| else memory[s].cursor == start + read < |plan[s]|
        invariant forall t :: 0 <= t < |plan| && t != s ==> memory[t] == old(memory[t]) && insights[t] == old(insights[t])
        decreases available - read, !completed
      {
        if read == available {
          StepKeeps(plan, Current(), Stop(s));
          stored := memory;
          return false;
        }
        completed := ReadPage(s);
        assert SliceOk(plan[s], memory[s], stored[s], insights[s]);
        read := read + 1;
      }
      assert SliceOk(plan[s], memory[s], stored[s], insights[s]);
    }
  }
}
