/** What the resolver answers, told guide by guide, without its tables and passes. */
module GuideOverlapRules {
  import opened Options
  import opened KeyedSequences
  import opened GuideOverlap
  import opened GuideOverlapTheorems

  /******* Conflicts *******/

  /** The reference stands for two different things in the sequence. */
  ghost predicate HasTwoMeanings<V>(s: seq<Entry<V>>, c: Text) {
    exists e, f :: e in s && f in s && e.key == c && f.key == c && e.value != f.value
  }

  lemma TwoMeaningsStep<V>(front: seq<Entry<V>>, last: Entry<V>, c: Text)
    requires !HasTwoMeanings(front, c)
    ensures var kept := ToMap(FirstOfEach(front));
            HasTwoMeanings(front + [last], c) <==> last.key == c && c in kept && kept[c] != last.value
  {
    FirstOfEachMembers(front);
    var kept, s := ToMap(FirstOfEach(front)), front + [last];
    assert forall e :: e in s <==> e in front || e == last;
    if last.key == c && c in kept && kept[c] != last.value {
      assert Entry(c, kept[c]) in s && last in s;
    }
    if HasTwoMeanings(s, c) {
      var e, f :| e in s && f in s && e.key == c && f.key == c && e.value != f.value;
      var other := if e == last then f else e;
      assert other in front && other.key == c && other.value != last.value;
      assert Entry(c, kept[c]) in front;
    }
  }

  /** The references noted as clashing are exactly those that stand for two different things. */
  lemma {:induction false} ClashesMembers<V>(s: seq<Entry<V>>, c: Text)
    ensures c in Clashes(s) <==> HasTwoMeanings(s, c)
  {
    if s != [] {
      var front, last := s[..|s| - 1], s[|s| - 1];
      ClashesMembers(front, c);
      assert s == front + [last];
      if HasTwoMeanings(front, c) {
        var e, f :| e in front && f in front && e.key == c && f.key == c && e.value != f.value;
        assert e in s && f in s;
      } else {
        TwoMeaningsStep(front, last, c);
      }
    }
  }

  predicate SetsRestriction(g: Guides, e: Entry<Restriction>) { exists k :: k in g && e in k.value.restrictions }

  predicate SetsCap(g: Guides, e: Entry<Cap>) { exists k :: k in g && e in k.value.caps }

  ghost predicate TwoRestrictions(g: Guides, c: Text) {
    exists e, f :: SetsRestriction(g, e) && SetsRestriction(g, f) && e.key == c && f.key == c && e.value != f.value
  }

  ghost predicate TwoCaps(g: Guides, c: Text) {
    exists e, f :: SetsCap(g, e) && SetsCap(g, f) && e.key == c && f.key == c && e.value != f.value
  }

  ghost predicate Unresolved(g: Guides, c: Text) { exists k :: k in g && c in k.value.conflicts }

  ghost predicate Conflicts(g: Guides, c: Text) { Unresolved(g, c) || TwoRestrictions(g, c) || TwoCaps(g, c) }

  lemma TwoRestrictionsExactly(g: Guides, c: Text)
    ensures HasTwoMeanings(AllRestrictions(g), c) <==> TwoRestrictions(g, c)
  {
    forall e ensures e in AllRestrictions(g) <==> SetsRestriction(g, e) { AllRestrictionsMembers(g, e); }
  }

  lemma TwoCapsExactly(g: Guides, c: Text)
    ensures HasTwoMeanings(AllCaps(g), c) <==> TwoCaps(g, c)
  {
    forall e ensures e in AllCaps(g) <==> SetsCap(g, e) { AllCapsMembers(g, e); }
  }

  lemma SortedConflicts(g: Guides, c: Text)
    ensures c in ResolveSorted(g).conflicts <==> Conflicts(g, c)
  {
    OwnConflictsMembers(g, c);
    ClashesMembers(AllRestrictions(g), c);
    ClashesMembers(AllCaps(g), c);
    TwoRestrictionsExactly(g, c);
    TwoCapsExactly(g, c);
  }

  lemma ConflictsOfSame(g: Guides, h: Guides, c: Text)
    requires forall k :: k in g <==> k in h
    ensures Conflicts(g, c) <==> Conflicts(h, c)
  {
    assert forall e :: SetsRestriction(g, e) <==> SetsRestriction(h, e);
    assert forall e :: SetsCap(g, e) <==> SetsCap(h, e);
  }

  /**
   The conflicts of an overlap are exactly the references that some guide lists as unresolved, or that stand for two
   different restrictions or for two different caps.
   */
  lemma ConflictsAre(g: Guides, c: Text)
    requires Resolve(g).Some?
    ensures c in Resolve(g).value.conflicts <==> Conflicts(g, c)
  {
    SortedMembers(g);
    SortedConflicts(Sort(g, CodeUnitBefore), c);
    ConflictsOfSame(Sort(g, CodeUnitBefore), g, c);
  }

  /** The overlap is held exactly when there is such a reference, and then nothing may be done. */
  lemma HeldExactly(g: Guides, a: Action)
    requires Resolve(g).Some?
    ensures Held(Resolve(g).value) <==> exists c :: Conflicts(g, c)
    ensures (exists c :: Conflicts(g, c)) ==> Power(Resolve(g).value, a) == 0
  {
    forall c ensures c in Resolve(g).value.conflicts <==> Conflicts(g, c) { ConflictsAre(g, c); }
  }

  /** There is an answer exactly when there are guides and each is there once; the evidence lists them by their references. */
  lemma EvidenceIs(g: Guides)
    ensures Resolve(g).Some? <==> g != [] && forall i, j :: 0 <= i < j < |g| ==> g[i].key != g[j].key
    ensures Resolve(g).Some? ==>
              multiset(Resolve(g).value.evidence) == multiset(g) && Ascending(Resolve(g).value.evidence, CodeUnitBefore)
  {
    if Resolve(g).Some? {
      CodeUnitOrderIsStrictTotal();
      SortContents(g, CodeUnitBefore);
      SortAscending(g, CodeUnitBefore);
    }
  }

  /******* Mode and actions *******/

  predicate SomeIn(g: Guides, mode: Mode) { exists k :: k in g && k.value.mode == mode }

  /** The overlap's mode is the most careful one among the guides: observing, then recommending, then preparing. */
  lemma ModeIsMostCareful(g: Guides)
    requires Resolve(g).Some?
    ensures Resolve(g).value.mode == if SomeIn(g, ObserveAnalyze) then ObserveAnalyze
                                     else if SomeIn(g, Recommend) then Recommend
                                     else if SomeIn(g, PrepareHumanApproval) then PrepareHumanApproval
                                     else LimitedAutonomy
  {
    SortedMembers(g);
    LeastModeExactly(Sort(g, CodeUnitBefore));
  }

  /** An action is on the overlap's allowlist exactly when it is on every guide's. */
  lemma AllowedAre(g: Guides, a: Action)
    requires Resolve(g).Some?
    ensures a in Resolve(g).value.allowed <==> forall k :: k in g ==> a in k.value.allowed
  {
    SortedMembers(g);
    AllowedExactly(Sort(g, CodeUnitBefore), a);
  }

  /** The restriction forbids its actions: it denies, locks, or protects by denying. */
  predicate Forbids(r: Restriction) { r.kind == Deny || r.kind == ManualLock || r.kind == ProtectByDeny }

  /** An action is denied exactly when the first restriction of some reference, in the order of the guides, forbids it. */
  lemma DeniedAre(g: Guides, a: Action)
    requires Resolve(g).Some?
    ensures a in Resolve(g).value.denied
       <==> exists e :: ComesFirst(AllRestrictions(Sort(g, CodeUnitBefore)), e) && Forbids(e.value) && a in e.value.actions
  {
    var all := AllRestrictions(Sort(g, CodeUnitBefore));
    RestrictedExactly(FirstOfEach(all), false, a);
    forall e ensures e in FirstOfEach(all) <==> ComesFirst(all, e) { KeptExactly(all, e); }
  }

  predicate GuideForbids(k: Entry<Guide>, a: Action) {
    exists e :: e in k.value.restrictions && Forbids(e.value) && a in e.value.actions
  }

  predicate GuideAsks(k: Entry<Guide>, a: Action) {
    exists e :: e in k.value.restrictions && e.value.kind == ProtectByHuman && a in e.value.actions
  }

  predicate SomeGuideForbids(g: Guides, a: Action) { exists k :: k in g && GuideForbids(k, a) }

  predicate SomeGuideAsks(g: Guides, a: Action) { exists k :: k in g && GuideAsks(k, a) }

  /** Nothing stops the action: no conflict, every guide allows it, and none forbids it. */
  ghost predicate Effective(g: Guides, a: Action) {
    (forall c :: !Conflicts(g, c)) && (forall k :: k in g ==> a in k.value.allowed) && !SomeGuideForbids(g, a)
  }

  predicate AllAutonomous(g: Guides) { forall k :: k in g ==> k.value.mode == LimitedAutonomy }

  /** A human approves it: it renames something, or some guide asks for approval. */
  predicate NeedsHuman(g: Guides, a: Action) {
    a == CampaignRename || a == AdsetRename || a == AdRename || SomeGuideAsks(g, a)
  }

  lemma DeniesIs(k: Entry<Guide>, a: Action)
    ensures Denies(k, a) <==> GuideForbids(k, a)
    ensures AsksHuman(k, a) <==> GuideAsks(k, a)
  {
    forall e: Entry<Restriction> ensures Forbids(e.value) <==> !e.value.kind.ProtectByHuman? {}
  }

  lemma SameVerdicts(g: Guides, h: Guides, a: Action)
    requires forall k :: k in g <==> k in h
    ensures SomeForbids(h, a) <==> !forall k :: k in g ==> a in k.value.allowed
    ensures SomeDenies(h, a) <==> SomeGuideForbids(g, a)
    ensures SomeAsksHuman(h, a) <==> SomeGuideAsks(g, a)
  {
    forall k ensures (Denies(k, a) <==> GuideForbids(k, a)) && (AsksHuman(k, a) <==> GuideAsks(k, a)) { DeniesIs(k, a); }
  }

  /** What may be done with an action, told from the guides as they were given. */
  lemma PowerTold(g: Guides, a: Action)
    requires Resolve(g).Some?
    ensures Power(Resolve(g).value, a)
         == if !Effective(g, a) then 0
            else match Resolve(g).value.mode {
              case ObserveAnalyze => 0
              case Recommend => 1
              case PrepareHumanApproval => 2
              case LimitedAutonomy => if NeedsHuman(g, a) then 2 else 3
            }
  {
    HeldExactly(g, a);
    if !Held(Resolve(g).value) {
      var sorted := Sort(g, CodeUnitBefore);
      SortedMembers(g);
      PowerExactly(sorted, a);
      SameVerdicts(g, sorted, a);
    }
  }

  /**
   Each list of an overlap holds exactly the effective actions that its mode and the restrictions put there: recommended,
   to be approved by a human, or autonomous, the last only if every guide is autonomous and the action needs no human.
   */
  lemma ListsAre(g: Guides, a: Action)
    requires Resolve(g).Some?
    ensures var o := Resolve(g).value;
            && (a in o.recommendation <==> Effective(g, a) && o.mode == Recommend)
            && (a in o.human <==> Effective(g, a) && (o.mode == PrepareHumanApproval || (AllAutonomous(g) && NeedsHuman(g, a))))
            && (a in o.autonomous <==> Effective(g, a) && AllAutonomous(g) && !NeedsHuman(g, a))
  {
    PowerTold(g, a);
    ModeIsMostCareful(g);
    assert g[0] in g;
    assert AllAutonomous(g) <==> Resolve(g).value.mode == LimitedAutonomy by {
      assert forall k :: k in g ==> k.value.mode != LimitedAutonomy ==>
        SomeIn(g, ObserveAnalyze) || SomeIn(g, Recommend) || SomeIn(g, PrepareHumanApproval);
    }
  }

  /******* Targets *******/

  predicate Incomplete(row: Row) { row.target.None? && row.budgetCapable }

  function CountFor(rows: seq<Row>, target: string): nat {
    if rows == [] then 0 else (if rows[0].target == Some(target) then 1 else 0) + CountFor(rows[1..], target)
  }

  /**
   A target gets an answer exactly when every guide that can move budgets has a contract; the guides bound to it are exactly
   those with a contract on it, each as often as there are rows.
   */
  lemma {:induction false} BindingsAre(rows: seq<Row>, target: string)
    ensures Bindings(rows, target).None? <==> exists r :: r in rows && Incomplete(r)
    ensures Bindings(rows, target).Some? ==>
              && |Bindings(rows, target).value| == CountFor(rows, target)
              && forall k :: k in Bindings(rows, target).value
                        <==> exists r :: r in rows && r.target == Some(target) && r.guide == k
  {
    if rows != [] {
      BindingsAre(rows[1..], target);
      assert rows == [rows[0]] + rows[1..];
      if Incomplete(rows[0]) { assert rows[0] in rows; }
    }
  }
}
