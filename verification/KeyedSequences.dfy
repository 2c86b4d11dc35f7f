/** Text as JavaScript holds it, and sorting of keyed entries by a strict total order on their keys. */
module KeyedSequences {

  /** One UTF-16 code unit. */
  type CodeUnit = c: int | 0 <= c < 0x1_0000
  type Text = seq<CodeUnit>

  /** Text written as a literal. */
  function Lit(s: string): Text {
    seq(|s|, i requires 0 <= i < |s| => if s[i] < '\U{10000}' then s[i] as int else 0xFFFD)
  }

  datatype Entry<+V> = Entry(key: Text, value: V)

  /** The comparison `left < right` on strings: by code unit, a proper prefix first. */
  predicate CodeUnitBefore(a: Text, b: Text) {
    b != [] && (a == [] || a[0] < b[0] || (a[0] == b[0] && CodeUnitBefore(a[1..], b[1..])))
  }

  ghost predicate StrictTotal(before: (Text, Text) -> bool) {
    && (forall a :: !before(a, a))
    && (forall a, b, c :: before(a, b) && before(b, c) ==> before(a, c))
    && (forall a, b :: a != b ==> before(a, b) || before(b, a))
  }

  lemma {:induction false} CodeUnitBeforeIrreflexive(a: Text)
    ensures !CodeUnitBefore(a, a)
  {
    if a != [] { CodeUnitBeforeIrreflexive(a[1..]); }
  }

  lemma {:induction false} CodeUnitBeforeTransitive(a: Text, b: Text, c: Text)
    requires CodeUnitBefore(a, b) && CodeUnitBefore(b, c)
    ensures CodeUnitBefore(a, c)
  {
    if a != [] && a[0] == b[0] == c[0] { CodeUnitBeforeTransitive(a[1..], b[1..], c[1..]); }
  }

  lemma {:induction false} CodeUnitBeforeTotal(a: Text, b: Text)
    requires a != b
    ensures CodeUnitBefore(a, b) || CodeUnitBefore(b, a)
  {
    if a != [] && b != [] && a[0] == b[0] {
      assert a == [a[0]] + a[1..] && b == [b[0]] + b[1..];
      CodeUnitBeforeTotal(a[1..], b[1..]);
    }
  }

  lemma CodeUnitOrderIsStrictTotal()
    ensures StrictTotal(CodeUnitBefore)
  {
    forall a: Text ensures !CodeUnitBefore(a, a) { CodeUnitBeforeIrreflexive(a); }
    forall a: Text, b: Text, c: Text | CodeUnitBefore(a, b) && CodeUnitBefore(b, c) ensures CodeUnitBefore(a, c) {
      CodeUnitBeforeTransitive(a, b, c);
    }
    forall a: Text, b: Text | a != b ensures CodeUnitBefore(a, b) || CodeUnitBefore(b, a) {
      CodeUnitBeforeTotal(a, b);
    }
  }

  /** At the first place where the texts part, the first one ends or has the smaller code unit. */
  predicate PartsBelowAt(a: Text, b: Text, k: nat) {
    k <= |a| && k < |b| && a[..k] == b[..k] && (k == |a| || a[k] < b[k])
  }

  lemma PartsInTail(a: Text, b: Text, k: nat)
    requires a != [] && b != [] && a[0] == b[0]
    ensures PartsBelowAt(a, b, k + 1) <==> PartsBelowAt(a[1..], b[1..], k)
  {
    if k < |a| && k + 1 < |b| {
      assert a[..k + 1] == [a[0]] + a[1..][..k] && b[..k + 1] == [b[0]] + b[1..][..k];
      assert a[1..][..k] == a[..k + 1][1..] && b[1..][..k] == b[..k + 1][1..];
    }
  }

  lemma PartsFirst(a: Text, b: Text, k: nat)
    requires PartsBelowAt(a, b, k) && k > 0
    ensures a[0] == b[0]
  {
    assert a[0] == a[..k][0] && b[0] == b[..k][0];
  }

  /** The comparison goes by the first difference, the smaller code unit first; a text comes before its extensions. */
  lemma {:induction false} CodeUnitBeforeExactly(a: Text, b: Text)
    ensures CodeUnitBefore(a, b) <==> exists k: nat :: PartsBelowAt(a, b, k)
  {
    if a != [] && b != [] && a[0] == b[0] {
      CodeUnitBeforeExactly(a[1..], b[1..]);
      if CodeUnitBefore(a, b) {
        var k: nat :| PartsBelowAt(a[1..], b[1..], k);
        PartsInTail(a, b, k);
      }
      if k: nat :| PartsBelowAt(a, b, k) { PartsInTail(a, b, k - 1); }
    } else if k: nat :| PartsBelowAt(a, b, k) {
      if k > 0 { PartsFirst(a, b, k); }
    } else if b != [] {
      assert !PartsBelowAt(a, b, 0);
    }
  }

  predicate HasKey<V>(s: seq<Entry<V>>, key: Text) {
    exists i :: 0 <= i < |s| && s[i].key == key
  }

  predicate DistinctKeys<V>(s: seq<Entry<V>>) {
    forall i, j :: 0 <= i < j < |s| ==> s[i].key != s[j].key
  }

  ghost predicate Ascending<V>(s: seq<Entry<V>>, before: (Text, Text) -> bool) {
    forall i, j :: 0 <= i < j < |s| ==> before(s[i].key, s[j].key)
  }

  /** What a sequence of entries says about each key; the order of entries is forgotten. */
  function ToMap<V>(s: seq<Entry<V>>): (m: map<Text, V>)
    ensures forall key :: key in m <==> HasKey(s, key)
  {
    if s == [] then map[]
    else
      assert forall key :: HasKey(s, key) <==> key == s[0].key || HasKey(s[1..], key) by { HasKeySplit(s); }
      ToMap(s[1..])[s[0].key := s[0].value]
  }

  lemma HasKeySplit<V>(s: seq<Entry<V>>)
    requires s != []
    ensures forall key :: HasKey(s, key) <==> key == s[0].key || HasKey(s[1..], key)
  {
    forall key ensures HasKey(s, key) <==> key == s[0].key || HasKey(s[1..], key) {
      if HasKey(s, key) {
        var i :| 0 <= i < |s| && s[i].key == key;
        if i != 0 { assert s[1..][i - 1].key == key; }
      }
      if HasKey(s[1..], key) {
        var i :| 0 <= i < |s[1..]| && s[1..][i].key == key;
        assert s[i + 1].key == key;
      }
      if key == s[0].key { assert HasKey(s, key); }
    }
  }

  lemma {:induction false} ToMapAt<V>(s: seq<Entry<V>>, i: nat)
    requires i < |s| && DistinctKeys(s)
    ensures HasKey(s, s[i].key) && ToMap(s)[s[i].key] == s[i].value
  {
    assert s[i].key in ToMap(s);
    if i > 0 { ToMapAt(s[1..], i - 1); }
  }

  /** Insertion that keeps the order of equal keys, as `Array.prototype.sort` does. */
  function Insert<V>(e: Entry<V>, s: seq<Entry<V>>, before: (Text, Text) -> bool): seq<Entry<V>> {
    if s == [] then [e]
    else if !before(s[0].key, e.key) then [e] + s
    else [s[0]] + Insert(e, s[1..], before)
  }

  function Sort<V>(s: seq<Entry<V>>, before: (Text, Text) -> bool): seq<Entry<V>> {
    if s == [] then [] else Insert(s[0], Sort(s[1..], before), before)
  }

  lemma {:induction false} InsertContents<V>(e: Entry<V>, s: seq<Entry<V>>, before: (Text, Text) -> bool)
    ensures multiset(Insert(e, s, before)) == multiset([e] + s)
  {
    if s != [] && before(s[0].key, e.key) {
      InsertContents(e, s[1..], before);
      assert s == [s[0]] + s[1..];
    }
  }

  lemma {:induction false} SortContents<V>(s: seq<Entry<V>>, before: (Text, Text) -> bool)
    ensures multiset(Sort(s, before)) == multiset(s)
  {
    if s != [] {
      SortContents(s[1..], before);
      InsertContents(s[0], Sort(s[1..], before), before);
      assert s == [s[0]] + s[1..];
    }
  }

  lemma MemberOfContents<V>(s: seq<Entry<V>>, t: seq<Entry<V>>)
    requires multiset(s) == multiset(t)
    ensures |s| == |t|
    ensures forall i :: 0 <= i < |s| ==> s[i] in t
    ensures forall key :: HasKey(s, key) <==> HasKey(t, key)
  {
    assert |multiset(s)| == |s| && |multiset(t)| == |t|;
    assert forall e :: e in s <==> e in multiset(s);
    assert forall e :: e in t <==> e in multiset(t);
    assert forall e :: e in s <==> e in t;
    forall key ensures HasKey(s, key) <==> HasKey(t, key) {
      if HasKey(s, key) { var i :| 0 <= i < |s| && s[i].key == key; assert s[i] in t; }
      if HasKey(t, key) { var i :| 0 <= i < |t| && t[i].key == key; assert t[i] in s; }
    }
  }

  lemma PrependAscending<V>(e: Entry<V>, s: seq<Entry<V>>, before: (Text, Text) -> bool)
    requires Ascending(s, before) && forall i :: 0 <= i < |s| ==> before(e.key, s[i].key)
    ensures Ascending([e] + s, before)
  {
  }

  lemma BeforeAll<V>(key: Text, s: seq<Entry<V>>, before: (Text, Text) -> bool)
    requires StrictTotal(before) && Ascending(s, before) && s != [] && before(key, s[0].key)
    ensures forall i :: 0 <= i < |s| ==> before(key, s[i].key)
  {
    forall i | 0 < i < |s| ensures before(key, s[i].key) {
      assert before(s[0].key, s[i].key);
    }
  }

  lemma {:induction false} InsertAscending<V>(e: Entry<V>, s: seq<Entry<V>>, before: (Text, Text) -> bool)
    requires StrictTotal(before) && Ascending(s, before) && !HasKey(s, e.key)
    ensures Ascending(Insert(e, s, before), before)
    ensures forall key :: (forall i :: 0 <= i < |s| ==> before(key, s[i].key)) && before(key, e.key)
              ==> forall i :: 0 <= i < |Insert(e, s, before)| ==> before(key, Insert(e, s, before)[i].key)
  {
    if s != [] {
      assert s[0].key != e.key;
      if before(s[0].key, e.key) {
        assert forall i :: 0 <= i < |s[1..]| ==> s[1..][i] == s[i + 1];
        InsertAscending(e, s[1..], before);
        PrependAscending(s[0], Insert(e, s[1..], before), before);
      } else {
        BeforeAll(e.key, s, before);
        PrependAscending(e, s, before);
      }
    }
  }

  lemma {:induction false} SortAscending<V>(s: seq<Entry<V>>, before: (Text, Text) -> bool)
    requires StrictTotal(before) && DistinctKeys(s)
    ensures Ascending(Sort(s, before), before)
  {
    if s != [] {
      SortAscending(s[1..], before);
      SortContents(s[1..], before);
      MemberOfContents(Sort(s[1..], before), s[1..]);
      InsertAscending(s[0], Sort(s[1..], before), before);
    }
  }

  lemma AscendingDistinct<V>(s: seq<Entry<V>>, before: (Text, Text) -> bool)
    requires StrictTotal(before) && Ascending(s, before)
    ensures DistinctKeys(s)
  {
  }

  /** Rearranging entries with distinct keys does not change what they say. */
  lemma RearrangedSameMap<V>(s: seq<Entry<V>>, t: seq<Entry<V>>)
    requires multiset(s) == multiset(t) && DistinctKeys(s) && DistinctKeys(t)
    ensures ToMap(s) == ToMap(t)
  {
    MemberOfContents(s, t);
    forall key | key in ToMap(s) ensures ToMap(s)[key] == ToMap(t)[key] {
      var i :| 0 <= i < |s| && s[i].key == key;
      assert s[i] in t;
      var j :| 0 <= j < |t| && t[j] == s[i];
      ToMapAt(s, i);
      ToMapAt(t, j);
    }
  }

  lemma EmptyByMap<V>(s: seq<Entry<V>>)
    ensures s == [] <==> ToMap(s) == map[]
  {
    if s != [] { assert s[0].key in ToMap(s); }
  }

  lemma FirstEntriesAgree<V>(s: seq<Entry<V>>, t: seq<Entry<V>>, before: (Text, Text) -> bool)
    requires StrictTotal(before) && Ascending(s, before) && Ascending(t, before) && s != [] && t != []
    requires ToMap(s) == ToMap(t)
    ensures s[0] == t[0]
  {
    assert HasKey(s, s[0].key) && HasKey(t, t[0].key);
    assert s[0].key in ToMap(t) && t[0].key in ToMap(s);
    FirstKeysAgree(s, t, before);
    AscendingDistinct(s, before);
    AscendingDistinct(t, before);
    ToMapAt(s, 0);
    ToMapAt(t, 0);
  }

  lemma TailAscending<V>(s: seq<Entry<V>>, before: (Text, Text) -> bool)
    requires StrictTotal(before) && Ascending(s, before) && s != []
    ensures Ascending(s[1..], before) && ToMap(s[1..]) == ToMap(s) - {s[0].key}
  {
    assert forall i :: 0 <= i < |s[1..]| ==> s[1..][i] == s[i + 1];
    AscendingDistinct(s, before);
    TailMap(s);
  }

  /** A sorted sequence is determined by what it says: sorting is canonical. */
  lemma {:induction false} AscendingUnique<V>(s: seq<Entry<V>>, t: seq<Entry<V>>, before: (Text, Text) -> bool)
    requires StrictTotal(before) && Ascending(s, before) && Ascending(t, before)
    requires ToMap(s) == ToMap(t)
    ensures s == t
  {
    EmptyByMap(s);
    EmptyByMap(t);
    if s != [] {
      FirstEntriesAgree(s, t, before);
      TailAscending(s, before);
      TailAscending(t, before);
      AscendingUnique(s[1..], t[1..], before);
      assert s == [s[0]] + s[1..] && t == [t[0]] + t[1..];
    }
  }

  lemma FirstKeysAgree<V>(s: seq<Entry<V>>, t: seq<Entry<V>>, before: (Text, Text) -> bool)
    requires StrictTotal(before) && Ascending(s, before) && Ascending(t, before) && s != [] && t != []
    requires HasKey(s, t[0].key) && HasKey(t, s[0].key)
    ensures s[0].key == t[0].key
  {
    var first, other := s[0].key, t[0].key;
    var i :| 0 <= i < |s| && s[i].key == other;
    var j :| 0 <= j < |t| && t[j].key == first;
    assert i > 0 ==> before(first, other);
    assert j > 0 ==> before(other, first);
  }

  lemma UpdateRemove<V>(m: map<Text, V>, key: Text, value: V)
    requires key !in m
    ensures m[key := value] - {key} == m
  {
  }

  lemma TailMap<V>(s: seq<Entry<V>>)
    requires DistinctKeys(s) && s != []
    ensures ToMap(s[1..]) == ToMap(s) - {s[0].key}
  {
    assert s[0].key !in ToMap(s[1..]);
    UpdateRemove(ToMap(s[1..]), s[0].key, s[0].value);
  }

  /** Two arrangements of the same entries sort to the same sequence. */
  lemma SortIsCanonical<V>(s: seq<Entry<V>>, t: seq<Entry<V>>, before: (Text, Text) -> bool)
    requires StrictTotal(before) && DistinctKeys(s) && DistinctKeys(t)
    requires ToMap(s) == ToMap(t)
    ensures Sort(s, before) == Sort(t, before)
  {
    SortAscending(s, before);
    SortAscending(t, before);
    SortContents(s, before);
    SortContents(t, before);
    RearrangedSameMap(Sort(s, before), s);
    RearrangedSameMap(Sort(t, before), t);
    AscendingUnique(Sort(s, before), Sort(t, before), before);
  }

  lemma ConsMap<V>(e: Entry<V>, rest: seq<Entry<V>>)
    ensures ToMap([e] + rest) == ToMap(rest)[e.key := e.value]
  {
    assert ([e] + rest)[1..] == rest;
  }

  lemma AppendDistinct<V>(s: seq<Entry<V>>, e: Entry<V>)
    requires DistinctKeys(s) && !HasKey(s, e.key)
    ensures DistinctKeys(s + [e])
  {
    assert forall i :: 0 <= i < |s| ==> s[i].key != e.key;
  }

  lemma UpdatesCommute<V>(m: map<Text, V>, k: Text, v: V, l: Text, w: V)
    requires k != l
    ensures m[k := v][l := w] == m[l := w][k := v]
  {
  }

  lemma {:induction false} AppendMap<V>(s: seq<Entry<V>>, e: Entry<V>)
    requires e.key !in ToMap(s)
    ensures ToMap(s + [e]) == ToMap(s)[e.key := e.value]
  {
    if s == [] {
      assert s + [e] == [e];
    } else {
      var first, rest := s[0], s[1..];
      assert ToMap(s) == ToMap(rest)[first.key := first.value];
      AppendMap(rest, e);
      assert s + [e] == [first] + (rest + [e]);
      ConsMap(first, rest + [e]);
      UpdatesCommute(ToMap(rest), e.key, e.value, first.key, first.value);
    }
  }
}
