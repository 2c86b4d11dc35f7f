/**
 Overlapping guides on one target: what may be done is the meet of what each guide allows. The resolver works on guides
 sorted by reference, and keeps the first of several restrictions or caps with one reference.
 */
module GuideOverlap {
  import opened Options
  import opened KeyedSequences

  datatype Action =
    | StatusPause | StatusActivate | BudgetDecrease | BudgetIncrease | CampaignRename | AdsetRename | AdRename

  const ACTIONS: set<Action> :=
    {StatusPause, StatusActivate, BudgetDecrease, BudgetIncrease, CampaignRename, AdsetRename, AdRename}

  predicate IsRename(a: Action) { a.CampaignRename? || a.AdsetRename? || a.AdRename? }

  datatype Mode = ObserveAnalyze | Recommend | PrepareHumanApproval | LimitedAutonomy

  function Rank(m: Mode): nat {
    match m
    case ObserveAnalyze => 0
    case Recommend => 1
    case PrepareHumanApproval => 2
    case LimitedAutonomy => 3
  }

  datatype RestrictionKind = Deny | ManualLock | ProtectByDeny | ProtectByHuman

  datatype Restriction = Restriction(kind: RestrictionKind, actions: set<Action>)

  datatype CapKind = ActionsPerRun | AbsoluteDelta | RelativeDelta

  datatype Cap = Cap(action: Action, kind: CapKind, value: nat)

  /** A guide bound to the target; restrictions and caps carry their references as keys. */
  datatype Guide = Guide(
    revision: nat, hash: Text, mode: Mode, allowed: set<Action>,
    restrictions: seq<Entry<Restriction>>, caps: seq<Entry<Cap>>, conflicts: set<Text>)

  type Guides = seq<Entry<Guide>>

  /******* Several entries with one reference *******/

  /** The first entry of each reference. */
  function FirstOfEach<V>(s: seq<Entry<V>>): seq<Entry<V>> {
    if s == [] then []
    else
      var n := |s| - 1;
      var kept := FirstOfEach(s[..n]);
      if s[n].key in ToMap(kept) then kept else kept + [s[n]]
  }

  /** The references that stand for two different things. */
  function Clashes<V(==)>(s: seq<Entry<V>>): set<Text> {
    if s == [] then {}
    else
      var n := |s| - 1;
      var kept := ToMap(FirstOfEach(s[..n]));
      Clashes(s[..n]) + if s[n].key in kept && kept[s[n].key] != s[n].value then {s[n].key} else {}
  }

  /******* The resolver *******/

  function AllRestrictions(g: Guides): seq<Entry<Restriction>> {
    if g == [] then [] else g[0].value.restrictions + AllRestrictions(g[1..])
  }

  function AllCaps(g: Guides): seq<Entry<Cap>> {
    if g == [] then [] else g[0].value.caps + AllCaps(g[1..])
  }

  function OwnConflicts(g: Guides): set<Text> {
    if g == [] then {} else g[0].value.conflicts + OwnConflicts(g[1..])
  }

  /** The most careful mode. */
  function LeastMode(g: Guides): Mode {
    if g == [] then LimitedAutonomy
    else
      var rest := LeastMode(g[1..]);
      if Rank(g[0].value.mode) < Rank(rest) then g[0].value.mode else rest
  }

  /** What every guide allows. */
  function AllowedByAll(g: Guides): set<Action> {
    if g == [] then ACTIONS else g[0].value.allowed * AllowedByAll(g[1..])
  }

  /** The actions of the restrictions that deny, or that ask for a human. */
  function Restricted(r: seq<Entry<Restriction>>, human: bool): set<Action> {
    if r == [] then {}
    else (if r[0].value.kind.ProtectByHuman? == human then r[0].value.actions else {}) + Restricted(r[1..], human)
  }

  function SmallestCap(caps: seq<Entry<Cap>>, action: Action, kind: CapKind): Option<nat> {
    if caps == [] then None
    else
      var rest, cap := SmallestCap(caps[1..], action, kind), caps[0].value;
      if cap.action != action || cap.kind != kind then rest
      else if rest.Some? && rest.value <= cap.value then rest
      else Some(cap.value)
  }

  datatype Overlap = Overlap(
    evidence: Guides, mode: Mode, allowed: set<Action>, denied: set<Action>, conflicts: set<Text>,
    recommendation: set<Action>, human: set<Action>, autonomous: set<Action>, caps: seq<Entry<Cap>>)

  /** Whether references conflict: then nothing may be done. */
  predicate Held(o: Overlap) { o.conflicts != {} }

  function ResolveSorted(g: Guides): Overlap {
    var restrictions := FirstOfEach(AllRestrictions(g));
    var denied, humanOnly := Restricted(restrictions, false), Restricted(restrictions, true);
    var conflicts := OwnConflicts(g) + Clashes(AllRestrictions(g)) + Clashes(AllCaps(g));
    var mode := LeastMode(g);
    var effective := AllowedByAll(g) - denied;
    var clear := conflicts == {};
    Overlap(g, mode, AllowedByAll(g), denied, conflicts,
            if clear && mode.Recommend? then effective else {},
            if clear && mode.PrepareHumanApproval? then effective
            else if clear && mode.LimitedAutonomy? then set a | a in effective && (IsRename(a) || a in humanOnly)
            else {},
            if clear && mode.LimitedAutonomy? then set a | a in effective && !IsRename(a) && a !in humanOnly else {},
            FirstOfEach(AllCaps(g)))
  }

  /** A guide may be active once; guides are taken in the order of their references. */
  function Resolve(g: Guides): Option<Overlap> {
    if g == [] || !DistinctKeys(g) then None else Some(ResolveSorted(Sort(g, CodeUnitBefore)))
  }

  /** What the overlap says of a kind of cap. */
  function CapOf(o: Overlap, action: Action, kind: CapKind): Option<nat> { SmallestCap(o.caps, action, kind) }

  /** 3: may be done; 2: may be done with a human's approval; 1: may be recommended; 0: held or denied. */
  function Power(o: Overlap, a: Action): nat {
    if a in o.autonomous then 3 else if a in o.human then 2 else if a in o.recommendation then 1 else 0
  }

  /******* Which guides bear on a budget target *******/

  /** An active guide as read for a budget target: with the target of its contract, or without a contract. */
  datatype Row = Row(guide: Entry<Guide>, target: Option<string>, budgetCapable: bool)

  /** The guides bound to the target, unless a guide that can move budgets has no contract. */
  function Bindings(rows: seq<Row>, target: string): Option<Guides> {
    if rows == [] then Some([])
    else if rows[0].target.None? && rows[0].budgetCapable then None
    else
      var rest := Bindings(rows[1..], target);
      if rest.None? || rows[0].target != Some(target) then rest else Some([rows[0].guide] + rest.value)
  }

  function ForTarget(rows: seq<Row>, target: string): Option<Overlap> {
    match Bindings(rows, target)
    case None => None
    case Some(g) => Resolve(g)
  }

  /******* The loops as written *******/

  lemma OneMore<V>(all: seq<Entry<V>>, i: nat)
    requires i < |all|
    ensures var kept, e := FirstOfEach(all[..i]), all[i];
            && FirstOfEach(all[..i + 1]) == (if e.key in ToMap(kept) then kept else kept + [e])
            && Clashes(all[..i + 1])
               == Clashes(all[..i]) + if e.key in ToMap(kept) && ToMap(kept)[e.key] != e.value then {e.key} else {}
  {
    assert all[..i + 1][..i] == all[..i];
  }

  /** Takes in one more entry: the first of its reference is kept, another one is compared with it. */
  method TakeIn<V(==)>(kept: seq<Entry<V>>, byRef: map<Text, V>, clashes: set<Text>, e: Entry<V>)
    returns (kept': seq<Entry<V>>, byRef': map<Text, V>, clashes': set<Text>)
    requires byRef == ToMap(kept)
    ensures byRef' == ToMap(kept') && kept' == if e.key in ToMap(kept) then kept else kept + [e]
    ensures clashes' == clashes + if e.key in ToMap(kept) && ToMap(kept)[e.key] != e.value then {e.key} else {}
  {
    kept', byRef', clashes' := kept, byRef, clashes;
    if e.key !in byRef {
      AppendMap(kept, e);
      byRef', kept' := byRef[e.key := e.value], kept + [e];
    } else if byRef[e.key] != e.value {
      clashes' := clashes + {e.key};
    }
  }

  /** One pass that keeps the first of each reference and notes the others that differ. */
  method Collect<V(==)>(all: seq<Entry<V>>) returns (kept: seq<Entry<V>>, clashes: set<Text>)
    ensures kept == FirstOfEach(all) && clashes == Clashes(all)
  {
    kept, clashes := [], {};
    var byRef: map<Text, V> := map[];
    for i := 0 to |all|
      invariant kept == FirstOfEach(all[..i]) && byRef == ToMap(kept) && clashes == Clashes(all[..i])
    {
      OneMore(all, i);
      kept, byRef, clashes := TakeIn(kept, byRef, clashes, all[i]);
    }
    assert all[..|all|] == all;
  }

  /** The actions of the kept restrictions, by what they ask for. */
  method SplitActions(kept: seq<Entry<Restriction>>) returns (denied: set<Action>, humanOnly: set<Action>)
    ensures denied == Restricted(kept, false) && humanOnly == Restricted(kept, true)
  {
    denied, humanOnly := {}, {};
    for i := 0 to |kept|
      invariant denied + Restricted(kept[i..], false) == Restricted(kept, false)
      invariant humanOnly + Restricted(kept[i..], true) == Restricted(kept, true)
    {
      assert kept[i..][0] == kept[i] && kept[i..][1..] == kept[i + 1..];
      if kept[i].value.kind.ProtectByHuman? {
        humanOnly := humanOnly + kept[i].value.actions;
      } else {
        denied := denied + kept[i].value.actions;
      }
    }
  }

  /** The resolver as written, with its loops over restrictions and caps. */
  method ResolveGuides(g: Guides) returns (result: Option<Overlap>)
    ensures result == Resolve(g)
  {
    if g == [] || !DistinctKeys(g) { return None; }
    var sorted := Sort(g, CodeUnitBefore);
    var mode, allowed := LeastMode(sorted), AllowedByAll(sorted);
    var restrictions, restrictionClashes := Collect(AllRestrictions(sorted));
    var denied, humanOnly := SplitActions(restrictions);
    var caps, capClashes := Collect(AllCaps(sorted));
    var conflicts, effective := OwnConflicts(sorted) + restrictionClashes + capClashes, allowed - denied;
    var recommendation, human, autonomous: set<Action> := {}, {}, {};
    if conflicts == {} {
      match mode
      case ObserveAnalyze =>
      case Recommend => recommendation := effective;
      case PrepareHumanApproval => human := effective;
      case LimitedAutonomy =>
        human := set a | a in effective && (IsRename(a) || a in humanOnly);
        autonomous := set a | a in effective && !IsRename(a) && a !in humanOnly;
    }
    assert human == ResolveSorted(sorted).human && autonomous == ResolveSorted(sorted).autonomous;
    return Some(Overlap(sorted, mode, allowed, denied, conflicts, recommendation, human, autonomous, caps));
  }
}
