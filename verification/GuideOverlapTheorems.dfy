/** The resolver computes a meet, whatever the order of the guides. */
module GuideOverlapTheorems {
  import opened Options
  import opened KeyedSequences
  import opened GuideOverlap

  /******* Order *******/

  /** The same guides in another order resolve to the same overlap, evidence included. */
  lemma OrderInvariant(g: Guides, h: Guides)
    requires multiset(g) == multiset(h)
    ensures Resolve(g) == Resolve(h)
  {
    RearrangedDistinct(g, h);
    RearrangedDistinct(h, g);
    if DistinctKeys(g) {
      RearrangedSameMap(g, h);
      CodeUnitOrderIsStrictTotal();
      SortIsCanonical(g, h, CodeUnitBefore);
    }
    MemberOfContents(g, h);
  }

  lemma RearrangedDistinct(g: Guides, h: Guides)
    requires multiset(g) == multiset(h)
    ensures DistinctKeys(g) ==> DistinctKeys(h)
  {
    if DistinctKeys(g) {
      forall i, j | 0 <= i < j < |h| ensures h[i].key != h[j].key {
        SameKeySameGuide(g, h, i, j);
        CountTwo(h, i, j);
        CountOne(g, h[i]);
      }
    }
  }

  lemma CountTwo(h: Guides, i: nat, j: nat)
    requires i < j < |h|
    ensures h[i] == h[j] ==> multiset(h)[h[i]] >= 2
  {
    assert h == h[..i] + [h[i]] + h[i + 1..j] + [h[j]] + h[j + 1..];
    assert multiset(h) == multiset(h[..i]) + multiset([h[i]]) + multiset(h[i + 1..j]) + multiset([h[j]]) + multiset(h[j + 1..]);
  }

  lemma {:induction false} CountOne(g: Guides, e: Entry<Guide>)
    requires DistinctKeys(g)
    ensures multiset(g)[e] <= 1
  {
    if g != [] {
      assert g == [g[0]] + g[1..];
      CountOne(g[1..], e);
      if e == g[0] {
        assert forall i :: 0 <= i < |g[1..]| ==> g[1..][i] == g[i + 1];
        assert e !in g[1..];
      }
    }
  }

  lemma SameKeySameGuide(g: Guides, h: Guides, i: nat, j: nat)
    requires multiset(g) == multiset(h) && DistinctKeys(g) && i < |h| && j < |h|
    ensures h[i].key == h[j].key ==> h[i] == h[j]
  {
    MemberOfContents(h, g);
    assert h[i] in g && h[j] in g;
    var k :| 0 <= k < |g| && g[k] == h[i];
    var l :| 0 <= l < |g| && g[l] == h[j];
    assert k < l || l < k ==> g[k].key != g[l].key;
  }

  /******* What the resolver computes, said guide by guide *******/

  /** Two entries give one reference different meanings. */
  ghost predicate Clashing<V>(s: seq<Entry<V>>) {
    exists e, f :: e in s && f in s && e.key == f.key && e.value != f.value
  }

  lemma {:induction false} FirstOfEachMembers<V>(s: seq<Entry<V>>)
    ensures forall e :: e in FirstOfEach(s) ==> e in s
    ensures forall e :: e in s ==> e.key in ToMap(FirstOfEach(s))
    ensures forall e :: e in FirstOfEach(s) ==> e.key in ToMap(FirstOfEach(s)) && ToMap(FirstOfEach(s))[e.key] == e.value
    ensures forall key :: key in ToMap(FirstOfEach(s)) ==> Entry(key, ToMap(FirstOfEach(s))[key]) in FirstOfEach(s)
  {
    if s != [] {
      var n := |s| - 1;
      FirstOfEachMembers(s[..n]);
      assert s == s[..n] + [s[n]];
      var kept := FirstOfEach(s[..n]);
      if s[n].key !in ToMap(kept) { AppendMap(kept, s[n]); }
    }
  }

  /** A last entry clashes exactly when it differs from the kept one of its reference. */
  lemma LastClashes<V>(front: seq<Entry<V>>, last: Entry<V>)
    requires !Clashing(front)
    ensures var kept := ToMap(FirstOfEach(front));
            Clashing(front + [last]) <==> last.key in kept && kept[last.key] != last.value
  {
    FirstOfEachMembers(front);
    var kept, s := ToMap(FirstOfEach(front)), front + [last];
    assert forall e :: e in s <==> e in front || e == last;
    if last.key in kept && kept[last.key] != last.value {
      assert Entry(last.key, kept[last.key]) in s && last in s;
    }
    if Clashing(s) {
      var e, f :| e in s && f in s && e.key == f.key && e.value != f.value;
      var other := if e == last then f else e;
      assert other in front && other.key == last.key && other.value != last.value;
      assert Entry(last.key, kept[last.key]) in front;
    }
  }

  /** Nothing clashes exactly when no reference has two meanings. */
  lemma {:induction false} ClashesExactly<V>(s: seq<Entry<V>>)
    ensures Clashes(s) == {} <==> !Clashing(s)
  {
    if s != [] {
      var front, last := s[..|s| - 1], s[|s| - 1];
      ClashesExactly(front);
      assert s == front + [last];
      if Clashing(front) {
        var e, f :| e in front && f in front && e.key == f.key && e.value != f.value;
        assert e in s && f in s;
      } else {
        LastClashes(front, last);
      }
    }
  }

  /** Without clashes, keeping the first of each keeps every entry. */
  lemma NoClashKeepsAll<V>(s: seq<Entry<V>>, e: Entry<V>)
    requires !Clashing(s)
    ensures e in FirstOfEach(s) <==> e in s
  {
    FirstOfEachMembers(s);
    if e in s {
      var f := Entry(e.key, ToMap(FirstOfEach(s))[e.key]);
      assert f in FirstOfEach(s) && f in s;
    }
  }

  lemma {:induction false} RestrictedExactly(r: seq<Entry<Restriction>>, human: bool, a: Action)
    ensures a in Restricted(r, human) <==> exists e :: e in r && e.value.kind.ProtectByHuman? == human && a in e.value.actions
  {
    if r != [] {
      RestrictedExactly(r[1..], human, a);
      assert r == [r[0]] + r[1..];
    }
  }

  lemma {:induction false} AllRestrictionsMembers(g: Guides, e: Entry<Restriction>)
    ensures e in AllRestrictions(g) <==> exists k :: k in g && e in k.value.restrictions
  {
    if g != [] {
      AllRestrictionsMembers(g[1..], e);
      assert g == [g[0]] + g[1..];
    }
  }

  lemma {:induction false} AllCapsMembers(g: Guides, e: Entry<Cap>)
    ensures e in AllCaps(g) <==> exists k :: k in g && e in k.value.caps
  {
    if g != [] {
      AllCapsMembers(g[1..], e);
      assert g == [g[0]] + g[1..];
    }
  }

  lemma {:induction false} OwnConflictsMembers(g: Guides, c: Text)
    ensures c in OwnConflicts(g) <==> exists k :: k in g && c in k.value.conflicts
  {
    if g != [] {
      OwnConflictsMembers(g[1..], c);
      assert g == [g[0]] + g[1..];
    }
  }

  lemma {:induction false} AllowedExactly(g: Guides, a: Action)
    ensures a in AllowedByAll(g) <==> forall k :: k in g ==> a in k.value.allowed
  {
    if g == [] {
      assert a in ACTIONS;
    } else {
      AllowedExactly(g[1..], a);
      assert g == [g[0]] + g[1..];
    }
  }

  lemma {:induction false} LeastModeExactly(g: Guides)
    ensures forall k :: k in g ==> Rank(LeastMode(g)) <= Rank(k.value.mode)
    ensures LeastMode(g).LimitedAutonomy? || exists k :: k in g && k.value.mode == LeastMode(g)
  {
    if g != [] {
      LeastModeExactly(g[1..]);
      assert g == [g[0]] + g[1..];
      assert g[0] in g;
    }
  }

  /******* The meet *******/

  predicate Denies(k: Entry<Guide>, a: Action) {
    exists e :: e in k.value.restrictions && !e.value.kind.ProtectByHuman? && a in e.value.actions
  }

  predicate AsksHuman(k: Entry<Guide>, a: Action) {
    exists e :: e in k.value.restrictions && e.value.kind.ProtectByHuman? && a in e.value.actions
  }

  /** The power that one guide leaves an action. */
  function PowerOf(k: Entry<Guide>, a: Action): nat {
    if a !in k.value.allowed || Denies(k, a) then 0
    else if Rank(k.value.mode) == 3 && (IsRename(a) || AsksHuman(k, a)) then 2
    else Rank(k.value.mode)
  }

  predicate SomeForbids(g: Guides, a: Action) { exists k :: k in g && a !in k.value.allowed }

  predicate SomeDenies(g: Guides, a: Action) { exists k :: k in g && Denies(k, a) }

  predicate SomeAsksHuman(g: Guides, a: Action) { exists k :: k in g && AsksHuman(k, a) }

  lemma DeniedExactly(g: Guides, a: Action)
    requires !Clashing(AllRestrictions(g))
    ensures a in Restricted(FirstOfEach(AllRestrictions(g)), false) <==> SomeDenies(g, a)
    ensures a in Restricted(FirstOfEach(AllRestrictions(g)), true) <==> SomeAsksHuman(g, a)
  {
    var all := AllRestrictions(g);
    RestrictedExactly(FirstOfEach(all), false, a);
    RestrictedExactly(FirstOfEach(all), true, a);
    forall e ensures e in FirstOfEach(all) <==> exists k :: k in g && e in k.value.restrictions {
      NoClashKeepsAll(all, e);
      AllRestrictionsMembers(g, e);
    }
  }

  lemma PowerBySets(g: Guides, a: Action)
    requires !Held(ResolveSorted(g))
    ensures var restrictions := FirstOfEach(AllRestrictions(g));
            Power(ResolveSorted(g), a)
            == if a !in AllowedByAll(g) || a in Restricted(restrictions, false) then 0
               else if LeastMode(g).LimitedAutonomy? && (IsRename(a) || a in Restricted(restrictions, true)) then 2
               else Rank(LeastMode(g))
  {
  }

  lemma PowerExactly(g: Guides, a: Action)
    requires !Held(ResolveSorted(g))
    ensures Power(ResolveSorted(g), a)
         == if SomeForbids(g, a) || SomeDenies(g, a) then 0
            else if LeastMode(g).LimitedAutonomy? && (IsRename(a) || SomeAsksHuman(g, a)) then 2
            else Rank(LeastMode(g))
  {
    PowerBySets(g, a);
    NoClashes(g);
    DeniedExactly(g, a);
    AllowedExactly(g, a);
  }

  lemma NoClashes(g: Guides)
    requires !Held(ResolveSorted(g))
    ensures !Clashing(AllRestrictions(g)) && !Clashing(AllCaps(g))
  {
    ClashesExactly(AllRestrictions(g));
    ClashesExactly(AllCaps(g));
  }

  /** Without conflicts, an action has at most the power that each guide leaves it, and exactly that of some guide. */
  lemma PowerIsMeet(g: Guides, a: Action)
    requires g != [] && !Held(ResolveSorted(g))
    ensures forall k :: k in g ==> Power(ResolveSorted(g), a) <= PowerOf(k, a)
    ensures exists k :: k in g && Power(ResolveSorted(g), a) == PowerOf(k, a)
  {
    PowerExactly(g, a);
    LeastModeExactly(g);
    assert g[0] in g;
    if LeastMode(g).LimitedAutonomy? {
      assert forall k :: k in g ==> k.value.mode.LimitedAutonomy?;
    }
  }

  /** Where references conflict, nothing may be done at all. */
  lemma HeldStopsEverything(g: Guides, a: Action)
    requires Held(ResolveSorted(g))
    ensures Power(ResolveSorted(g), a) == 0
  {
  }

  /** A deny or manual lock in any guide stops the action, whether or not references conflict. */
  lemma DenyAlwaysHolds(g: Guides, k: Entry<Guide>, a: Action)
    requires k in g && Denies(k, a)
    ensures Power(ResolveSorted(g), a) == 0
  {
    if !Held(ResolveSorted(g)) { PowerIsMeet(g, a); }
  }

  /** A human is asked wherever some guide asks for one. */
  lemma HumanAlwaysAsked(g: Guides, k: Entry<Guide>, a: Action)
    requires k in g && (AsksHuman(k, a) || k.value.mode.PrepareHumanApproval?)
    ensures Power(ResolveSorted(g), a) <= 2
  {
    if !Held(ResolveSorted(g)) { PowerIsMeet(g, a); }
  }

  lemma HeldStays(g: Guides, h: Guides)
    requires forall k :: k in g ==> k in h
    requires Held(ResolveSorted(g))
    ensures Held(ResolveSorted(h))
  {
    ClashesExactly(AllRestrictions(g));
    ClashesExactly(AllCaps(g));
    ClashesExactly(AllRestrictions(h));
    ClashesExactly(AllCaps(h));
    var c :| c in ResolveSorted(g).conflicts;
    OwnConflictsMembers(g, c);
    OwnConflictsMembers(h, c);
    if c in OwnConflicts(g) {
      assert c in OwnConflicts(h);
    } else if c in Clashes(AllRestrictions(g)) {
      RestrictionsKept(g, h);
      ClashingStays(AllRestrictions(g), AllRestrictions(h));
    } else {
      CapsKept(g, h);
      ClashingStays(AllCaps(g), AllCaps(h));
    }
  }

  lemma RestrictionsKept(g: Guides, h: Guides)
    requires forall k :: k in g ==> k in h
    ensures forall e :: e in AllRestrictions(g) ==> e in AllRestrictions(h)
  {
    forall e | e in AllRestrictions(g) ensures e in AllRestrictions(h) {
      AllRestrictionsMembers(g, e);
      AllRestrictionsMembers(h, e);
    }
  }

  lemma CapsKept(g: Guides, h: Guides)
    requires forall k :: k in g ==> k in h
    ensures forall e :: e in AllCaps(g) ==> e in AllCaps(h)
  {
    forall e | e in AllCaps(g) ensures e in AllCaps(h) {
      AllCapsMembers(g, e);
      AllCapsMembers(h, e);
    }
  }

  lemma ClashingStays<V>(s: seq<Entry<V>>, t: seq<Entry<V>>)
    requires Clashing(s) && forall e :: e in s ==> e in t
    ensures Clashing(t)
  {
    var e, f :| e in s && f in s && e.key == f.key && e.value != f.value;
    assert e in t && f in t;
  }

  /** Adding guides never gives an action more power. */
  lemma MoreGuidesLessPower(g: Guides, h: Guides, a: Action)
    requires g != [] && forall k :: k in g ==> k in h
    ensures Power(ResolveSorted(h), a) <= Power(ResolveSorted(g), a)
  {
    assert g[0] in g && g[0] in h;
    if Held(ResolveSorted(g)) {
      HeldStays(g, h);
      HeldStopsEverything(h, a);
    } else if Held(ResolveSorted(h)) {
      HeldStopsEverything(h, a);
    } else {
      PowerIsMeet(g, a);
      PowerIsMeet(h, a);
      var k :| k in g && Power(ResolveSorted(g), a) == PowerOf(k, a);
      assert k in h;
    }
  }

  lemma SortedMembers(g: Guides)
    ensures forall k :: k in g <==> k in Sort(g, CodeUnitBefore)
  {
    SortContents(g, CodeUnitBefore);
    assert forall k :: k in g <==> k in multiset(g);
  }

  /** So for the overlap as resolved: with more guides, no action may be done with less than before. */
  lemma AddingGuidesRestricts(g: Guides, h: Guides, a: Action)
    requires Resolve(g).Some? && Resolve(h).Some? && forall k :: k in g ==> k in h
    ensures Power(Resolve(h).value, a) <= Power(Resolve(g).value, a)
  {
    SortedMembers(g);
    SortedMembers(h);
    assert g[0] in Sort(g, CodeUnitBefore);
    MoreGuidesLessPower(Sort(g, CodeUnitBefore), Sort(h, CodeUnitBefore), a);
  }

  /******* Caps *******/

  lemma {:induction false} SmallestCapExactly(caps: seq<Entry<Cap>>, action: Action, kind: CapKind)
    ensures var smallest := SmallestCap(caps, action, kind);
            && (forall e :: e in caps && e.value.action == action && e.value.kind == kind ==>
                  smallest.Some? && smallest.value <= e.value.value)
            && (smallest.Some? ==>
                  exists e :: e in caps && e.value.action == action && e.value.kind == kind && e.value.value == smallest.value)
  {
    if caps != [] {
      SmallestCapExactly(caps[1..], action, kind);
      assert caps == [caps[0]] + caps[1..];
      assert caps[0] in caps;
    }
  }

  predicate HasCap(k: Entry<Guide>, action: Action, kind: CapKind, value: nat) {
    exists e :: e in k.value.caps && e.value == Cap(action, kind, value)
  }

  /** Without two values for one cap reference, the effective cap is the smallest cap that any guide sets. */
  lemma EffectiveCapIsSmallest(g: Guides, action: Action, kind: CapKind)
    requires !Clashing(AllCaps(g))
    ensures var cap := CapOf(ResolveSorted(g), action, kind);
            && (forall k, v :: k in g && HasCap(k, action, kind, v) ==> cap.Some? && cap.value <= v)
            && (cap.Some? ==> exists k :: k in g && HasCap(k, action, kind, cap.value))
  {
    var all := AllCaps(g);
    SmallestCapExactly(FirstOfEach(all), action, kind);
    forall e ensures e in FirstOfEach(all) <==> exists k :: k in g && e in k.value.caps {
      NoClashKeepsAll(all, e);
      AllCapsMembers(g, e);
    }
    var cap := CapOf(ResolveSorted(g), action, kind);
    if cap.Some? {
      var e :| e in FirstOfEach(all) && e.value.action == action && e.value.kind == kind && e.value.value == cap.value;
      var k :| k in g && e in k.value.caps;
      assert e.value == Cap(action, kind, cap.value);
      assert HasCap(k, action, kind, cap.value);
    }
  }

  /** No earlier entry has this entry's reference. */
  predicate IsFirst<V>(s: seq<Entry<V>>, i: nat)
    requires i < |s|
  {
    forall j :: 0 <= j < i ==> s[j].key != s[i].key
  }

  predicate ComesFirst<V(==)>(s: seq<Entry<V>>, e: Entry<V>) { exists i :: 0 <= i < |s| && s[i] == e && IsFirst(s, i) }

  lemma ComesFirstStep<V>(front: seq<Entry<V>>, last: Entry<V>, e: Entry<V>)
    ensures ComesFirst(front + [last], e) <==> ComesFirst(front, e) || (last == e && !HasKey(front, last.key))
  {
    var s, n := front + [last], |front|;
    if ComesFirst(front, e) {
      var i :| 0 <= i < n && front[i] == e && IsFirst(front, i);
      assert s[i] == e && IsFirst(s, i);
    }
    if last == e && !HasKey(front, last.key) { assert s[n] == e && IsFirst(s, n); }
    if ComesFirst(s, e) {
      var i :| 0 <= i < |s| && s[i] == e && IsFirst(s, i);
      if i < n {
        forall j | 0 <= j < i ensures front[j].key != front[i].key { assert s[j].key != s[i].key; }
        assert front[i] == e && IsFirst(front, i);
      } else {
        forall j | 0 <= j < n ensures front[j].key != last.key { assert s[j].key != s[i].key; }
      }
    }
  }

  lemma KeptKeys<V>(s: seq<Entry<V>>, key: Text)
    ensures key in ToMap(FirstOfEach(s)) <==> HasKey(s, key)
  {
    FirstOfEachMembers(s);
    if key in ToMap(FirstOfEach(s)) {
      var e := Entry(key, ToMap(FirstOfEach(s))[key]);
      assert e in s;
      var i :| 0 <= i < |s| && s[i] == e;
    }
    if HasKey(s, key) {
      var i :| 0 <= i < |s| && s[i].key == key;
      assert s[i] in s;
    }
  }

  lemma KeptStep<V>(front: seq<Entry<V>>, last: Entry<V>, e: Entry<V>)
    ensures e in FirstOfEach(front + [last])
       <==> e in FirstOfEach(front) || (last == e && last.key !in ToMap(FirstOfEach(front)))
  {
    assert (front + [last])[..|front|] == front;
  }

  /** What is kept is exactly what comes first under its reference. */
  lemma {:induction false} KeptExactly<V>(s: seq<Entry<V>>, e: Entry<V>)
    ensures e in FirstOfEach(s) <==> ComesFirst(s, e)
  {
    if s != [] {
      var front, last := s[..|s| - 1], s[|s| - 1];
      assert s == front + [last];
      KeptExactly(front, e);
      KeptStep(front, last, e);
      KeptKeys(front, last.key);
      ComesFirstStep(front, last, e);
    }
  }

  /** Some entry sets this cap, and no entry before it has its reference. */
  predicate SetFirst(all: seq<Entry<Cap>>, cap: Cap) { exists e :: e in all && e.value == cap && ComesFirst(all, e) }

  lemma SmallestOfSome(all: seq<Entry<Cap>>, some: seq<Entry<Cap>>, action: Action, kind: CapKind, smallest: nat)
    requires SmallestCap(all, action, kind) == Some(smallest) && forall e :: e in some ==> e in all
    ensures SmallestCap(some, action, kind) == Some(smallest)
       <==> exists e :: e in some && e.value == Cap(action, kind, smallest)
  {
    SmallestCapExactly(all, action, kind);
    SmallestCapExactly(some, action, kind);
  }

  /**
   Exactly when the effective cap is the smallest one that is set: when some entry that sets it comes first under its
   reference, in the order of the guides. So a second value for a reference matters only if it is the smallest of all.
   */
  lemma EffectiveCapExactly(g: Guides, action: Action, kind: CapKind, smallest: nat)
    requires SmallestCap(AllCaps(g), action, kind) == Some(smallest)
    ensures CapOf(ResolveSorted(g), action, kind) == Some(smallest) <==> SetFirst(AllCaps(g), Cap(action, kind, smallest))
  {
    var all, cap := AllCaps(g), Cap(action, kind, smallest);
    FirstOfEachMembers(all);
    SmallestOfSome(all, FirstOfEach(all), action, kind, smallest);
    if SetFirst(all, cap) {
      var e :| e in all && e.value == cap && ComesFirst(all, e);
      KeptExactly(all, e);
    }
    if exists e :: e in FirstOfEach(all) && e.value == cap {
      var e :| e in FirstOfEach(all) && e.value == cap;
      KeptExactly(all, e);
    }
  }

  /** With a conflict it need not be: of two caps with one reference the first guide's is kept, and the overlap is held. */
  lemma ConflictingCapIsNotSmallest(first: Guide, second: Guide, a: Text, b: Text, ref: Text)
    requires first.caps == [Entry(ref, Cap(BudgetIncrease, AbsoluteDelta, 2))]
    requires second.caps == [Entry(ref, Cap(BudgetIncrease, AbsoluteDelta, 1))]
    ensures var o := ResolveSorted([Entry(a, first), Entry(b, second)]);
            Held(o) && CapOf(o, BudgetIncrease, AbsoluteDelta) == Some(2)
  {
    var g := [Entry(a, first), Entry(b, second)];
    assert g[1..] == [Entry(b, second)] && g[1..][1..] == [];
    var e, f := first.caps[0], second.caps[0];
    assert AllCaps(g[1..]) == second.caps + [] == [f];
    assert AllCaps(g) == first.caps + [f] == [e, f];
    var all := [e, f];
    assert all[..1] == [e] && [e][..0] == [] && [e][1..] == [];
    assert FirstOfEach([e]) == [] + [e] == [e];
    assert ToMap([e]) == map[ref := e.value];
    assert FirstOfEach(all) == [e];
    assert ref in Clashes(all);
    assert SmallestCap([e], BudgetIncrease, AbsoluteDelta) == Some(2);
  }

  /******* Targets *******/

  lemma {:induction false} BindingsSkip(a: seq<Row>, row: Row, b: seq<Row>, target: string)
    requires row.target != Some(target) && (row.target.Some? || !row.budgetCapable)
    ensures Bindings(a + [row] + b, target) == Bindings(a + b, target)
  {
    if a == [] {
      assert a + [row] + b == [row] + b && a + b == b && ([row] + b)[1..] == b;
    } else {
      assert (a + [row] + b)[1..] == a[1..] + [row] + b && (a + b)[1..] == a[1..] + b;
      BindingsSkip(a[1..], row, b, target);
    }
  }

  /** Contracts on other targets and guides that cannot move budgets do not affect a target. */
  lemma OtherTargetsDoNotMatter(a: seq<Row>, row: Row, b: seq<Row>, target: string)
    requires row.target != Some(target) && (row.target.Some? || !row.budgetCapable)
    ensures ForTarget(a + [row] + b, target) == ForTarget(a + b, target)
  {
    BindingsSkip(a, row, b, target);
  }
}
