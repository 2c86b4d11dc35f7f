/** `stable` forgets nothing but the order of keys, so equal canonical texts mean equal values and the converse. */
module CanonicalJsonTheorems {
  import opened KeyedSequences
  import opened CanonicalJson
  import JsonTextUnambiguous

  /******* The order of keys that `stable` leaves behind *******/

  predicate KeyBefore(a: Text, b: Text) {
    if IsArrayIndex(a) then !IsArrayIndex(b) || NumericBefore(a, b)
    else !IsArrayIndex(b) && CodeUnitBefore(a, b)
  }

  lemma NumericOrderIsStrictTotal()
    ensures StrictTotal(NumericBefore)
  {
    CodeUnitOrderIsStrictTotal();
  }

  lemma KeyOrderIsStrictTotal()
    ensures StrictTotal(KeyBefore)
  {
    NumericOrderIsStrictTotal();
    CodeUnitOrderIsStrictTotal();
  }

  lemma {:induction false} OnlyContents<V>(s: seq<Entry<V>>)
    ensures multiset(Only(s, true)) + multiset(Only(s, false)) == multiset(s)
  {
    if s != [] {
      OnlyContents(s[1..]);
      assert s == [s[0]] + s[1..];
    }
  }

  lemma {:induction false} OnlyMembers<V>(s: seq<Entry<V>>, indexKeys: bool)
    ensures forall i :: 0 <= i < |Only(s, indexKeys)| ==>
              Only(s, indexKeys)[i] in s && IsArrayIndex(Only(s, indexKeys)[i].key) == indexKeys
  {
    if s != [] { OnlyMembers(s[1..], indexKeys); }
  }

  lemma {:induction false} OnlyAscending<V>(s: seq<Entry<V>>, indexKeys: bool, before: (Text, Text) -> bool)
    requires Ascending(s, before)
    ensures Ascending(Only(s, indexKeys), before)
  {
    if s != [] {
      assert forall i :: 0 <= i < |s[1..]| ==> s[1..][i] == s[i + 1];
      OnlyAscending(s[1..], indexKeys, before);
      OnlyMembers(s[1..], indexKeys);
      var rest := Only(s[1..], indexKeys);
      forall i | 0 <= i < |rest| ensures before(s[0].key, rest[i].key) {
        assert rest[i] in s[1..];
      }
    }
  }

  lemma FromEntriesContents<V>(s: seq<Entry<V>>)
    ensures multiset(FromEntries(s)) == multiset(s)
  {
    SortContents(Only(s, true), NumericBefore);
    OnlyContents(s);
  }

  lemma FromEntriesAscending<V>(s: seq<Entry<V>>)
    requires Ascending(s, CodeUnitBefore)
    ensures Ascending(FromEntries(s), KeyBefore)
  {
    CodeUnitOrderIsStrictTotal();
    NumericOrderIsStrictTotal();
    var indices, others := Only(s, true), Only(s, false);
    OnlyMembers(s, true);
    OnlyMembers(s, false);
    OnlyAscending(s, true, CodeUnitBefore);
    OnlyAscending(s, false, CodeUnitBefore);
    AscendingDistinct(indices, CodeUnitBefore);
    SortAscending(indices, NumericBefore);
    SortContents(indices, NumericBefore);
    IndicesStay(Sort(indices, NumericBefore), indices);
  }

  lemma IndicesStay<V>(s: seq<Entry<V>>, t: seq<Entry<V>>)
    requires multiset(s) == multiset(t) && forall i :: 0 <= i < |t| ==> IsArrayIndex(t[i].key)
    ensures forall i :: 0 <= i < |s| ==> IsArrayIndex(s[i].key)
  {
    MemberOfContents(s, t);
  }

  /** The entries of an object after `stable`: the same ones, in the one order all objects with these keys get. */
  function Arranged<V>(fields: seq<Entry<V>>): seq<Entry<V>> {
    FromEntries(Sort(fields, CodeUnitBefore))
  }

  lemma ArrangedFields<V>(fields: seq<Entry<V>>)
    requires DistinctKeys(fields)
    ensures Ascending(Arranged(fields), KeyBefore)
    ensures multiset(Arranged(fields)) == multiset(fields)
    ensures DistinctKeys(Arranged(fields)) && ToMap(Arranged(fields)) == ToMap(fields)
  {
    CodeUnitOrderIsStrictTotal();
    KeyOrderIsStrictTotal();
    SortAscending(fields, CodeUnitBefore);
    SortContents(fields, CodeUnitBefore);
    FromEntriesAscending(Sort(fields, CodeUnitBefore));
    FromEntriesContents(Sort(fields, CodeUnitBefore));
    AscendingDistinct(Arranged(fields), KeyBefore);
    RearrangedSameMap(Arranged(fields), fields);
  }

  /******* stable keeps the meaning *******/

  function MapMeaning(m: map<Text, Json>): map<Text, Meaning> {
    map key | key in m && !m[key].Undefined? :: MeaningOf(m[key])
  }

  lemma MapMeaningUpdate(m: map<Text, Json>, key: Text, v: Json)
    requires key !in m
    ensures MapMeaning(m[key := v]) == if v.Undefined? then MapMeaning(m) else MapMeaning(m)[key := MeaningOf(v)]
  {
  }

  lemma {:induction false} MeaningOfFieldsMap(fields: seq<Entry<Json>>)
    requires DistinctKeys(fields)
    ensures ToMap(MeaningOfFields(fields)) == MapMeaning(ToMap(fields))
  {
    if fields != [] {
      MeaningOfFieldsMap(fields[1..]);
      assert fields[0].key !in ToMap(fields[1..]);
      MapMeaningUpdate(ToMap(fields[1..]), fields[0].key, fields[0].value);
    }
  }

  lemma {:induction false} StableFieldsKeys(fields: seq<Entry<Json>>)
    ensures |StableFields(fields)| == |fields|
    ensures forall i :: 0 <= i < |fields| ==> StableFields(fields)[i] == Entry(fields[i].key, Stable(fields[i].value))
  {
    if fields != [] { StableFieldsKeys(fields[1..]); }
  }

  lemma {:induction false} StableKeepsMeaning(v: Json)
    requires WellFormed(v)
    ensures MeaningOf(Stable(v)) == MeaningOf(v)
    ensures Stable(v).Undefined? == v.Undefined?
    decreases v
  {
    match v
    case Arr(items) => StableItemsKeepMeaning(items);
    case Obj(fields) =>
      var stabled := StableFields(fields);
      StableFieldsKeys(fields);
      StableFieldsKeepMeaning(fields);
      ArrangedFields(stabled);
      MeaningOfFieldsMap(stabled);
      MeaningOfFieldsMap(Arranged(stabled));
    case _ =>
  }

  lemma {:induction false} StableItemsKeepMeaning(items: seq<Json>)
    requires forall i :: 0 <= i < |items| ==> WellFormed(items[i])
    ensures MeaningOfItems(StableItems(items)) == MeaningOfItems(items)
    decreases items
  {
    if items != [] {
      StableKeepsMeaning(items[0]);
      StableItemsKeepMeaning(items[1..]);
    }
  }

  lemma {:induction false} StableFieldsKeepMeaning(fields: seq<Entry<Json>>)
    requires forall i :: 0 <= i < |fields| ==> WellFormed(fields[i].value)
    ensures MeaningOfFields(StableFields(fields)) == MeaningOfFields(fields)
    decreases fields
  {
    if fields != [] {
      StableKeepsMeaning(fields[0].value);
      StableFieldsKeepMeaning(fields[1..]);
    }
  }

  /******* Documents *******/

  function DocMeaning(d: Doc): Meaning {
    match d
    case DNull => MNull
    case DBool(b) => MBool(b)
    case DInt(n) => MInt(n)
    case DStr(s) => MStr(s)
    case DArr(items) => MArr(DocItemsMeaning(items))
    case DObj(fields) => MObj(ToMap(DocFieldsMeaning(fields)))
  }

  function DocItemsMeaning(items: seq<Doc>): seq<Meaning> {
    if items == [] then [] else [DocMeaning(items[0])] + DocItemsMeaning(items[1..])
  }

  function DocFieldsMeaning(fields: seq<Entry<Doc>>): seq<Entry<Meaning>> {
    if fields == [] then [] else [Entry(fields[0].key, DocMeaning(fields[0].value))] + DocFieldsMeaning(fields[1..])
  }

  /** Every object in the document has its keys in the canonical order. */
  ghost predicate Ordered(d: Doc) {
    match d
    case DArr(items) => forall i :: 0 <= i < |items| ==> Ordered(items[i])
    case DObj(fields) => Ascending(fields, KeyBefore) && forall i :: 0 <= i < |fields| ==> Ordered(fields[i].value)
    case _ => true
  }

  lemma {:induction false} EraseKeepsMeaning(v: Json)
    ensures DocMeaning(Erase(v)) == MeaningOf(v)
    decreases v
  {
    match v
    case Arr(items) => EraseItemsKeepMeaning(items);
    case Obj(fields) => EraseFieldsKeepMeaning(fields);
    case _ =>
  }

  lemma {:induction false} EraseItemsKeepMeaning(items: seq<Json>)
    ensures DocItemsMeaning(EraseItems(items)) == MeaningOfItems(items)
    decreases items
  {
    if items != [] {
      EraseKeepsMeaning(items[0]);
      EraseItemsKeepMeaning(items[1..]);
    }
  }

  lemma {:induction false} EraseFieldsKeepMeaning(fields: seq<Entry<Json>>)
    ensures DocFieldsMeaning(EraseFields(fields)) == MeaningOfFields(fields)
    decreases fields
  {
    if fields != [] {
      EraseKeepsMeaning(fields[0].value);
      EraseFieldsKeepMeaning(fields[1..]);
    }
  }

  /** A stabled value erases to an ordered document. */
  lemma {:induction false} StableIsOrdered(v: Json)
    requires WellFormed(v)
    ensures Ordered(Erase(Stable(v)))
    decreases v
  {
    match v
    case Arr(items) => StableItemsAreOrdered(items);
    case Obj(fields) =>
      var stabled := StableFields(fields);
      StableFieldsKeys(fields);
      ArrangedFields(stabled);
      forall i | 0 <= i < |stabled| ensures Ordered(Erase(stabled[i].value)) { StableIsOrdered(fields[i].value); }
      MemberOfContents(Arranged(stabled), stabled);
      forall i | 0 <= i < |Arranged(stabled)| ensures Ordered(Erase(Arranged(stabled)[i].value)) {
        assert Arranged(stabled)[i] in stabled;
      }
      EraseFieldsOrdered(Arranged(stabled));
    case _ =>
  }

  lemma {:induction false} StableItemsAreOrdered(items: seq<Json>)
    requires forall i :: 0 <= i < |items| ==> WellFormed(items[i])
    ensures forall i :: 0 <= i < |EraseItems(StableItems(items))| ==> Ordered(EraseItems(StableItems(items))[i])
    decreases items
  {
    if items != [] {
      StableIsOrdered(items[0]);
      StableItemsAreOrdered(items[1..]);
    }
  }

  lemma {:induction false} EraseFieldsMembers(fields: seq<Entry<Json>>)
    ensures forall e :: e in EraseFields(fields) ==> exists f :: f in fields && e == Entry(f.key, Erase(f.value))
  {
    if fields != [] { EraseFieldsMembers(fields[1..]); }
  }

  lemma {:induction false} EraseFieldsOrdered(fields: seq<Entry<Json>>)
    requires Ascending(fields, KeyBefore) && forall i :: 0 <= i < |fields| ==> Ordered(Erase(fields[i].value))
    ensures Ordered(DObj(EraseFields(fields)))
  {
    if fields != [] {
      assert forall i :: 0 <= i < |fields[1..]| ==> fields[1..][i] == fields[i + 1];
      EraseFieldsOrdered(fields[1..]);
      EraseFieldsMembers(fields[1..]);
      var rest := EraseFields(fields[1..]);
      forall i | 0 <= i < |rest| ensures KeyBefore(fields[0].key, rest[i].key) {
        assert rest[i] in rest;
        var f :| f in fields[1..] && rest[i] == Entry(f.key, Erase(f.value));
      }
    }
  }

  lemma {:induction false} DocFieldsMeaningKeys(fields: seq<Entry<Doc>>)
    ensures |DocFieldsMeaning(fields)| == |fields|
    ensures forall i :: 0 <= i < |fields| ==>
              DocFieldsMeaning(fields)[i] == Entry(fields[i].key, DocMeaning(fields[i].value))
  {
    if fields != [] { DocFieldsMeaningKeys(fields[1..]); }
  }

  /** An ordered document is determined by its meaning. */
  lemma {:induction false} OrderedUnique(d: Doc, e: Doc)
    requires Ordered(d) && Ordered(e) && DocMeaning(d) == DocMeaning(e)
    ensures d == e
    decreases d
  {
    match d
    case DArr(items) => OrderedItemsUnique(items, e.items);
    case DObj(fields) =>
      DocFieldsMeaningKeys(fields);
      DocFieldsMeaningKeys(e.fields);
      KeyOrderIsStrictTotal();
      AscendingUnique(DocFieldsMeaning(fields), DocFieldsMeaning(e.fields), KeyBefore);
      OrderedFieldsUnique(fields, e.fields);
    case _ =>
  }

  lemma {:induction false} OrderedItemsUnique(a: seq<Doc>, b: seq<Doc>)
    requires forall i :: 0 <= i < |a| ==> Ordered(a[i])
    requires forall i :: 0 <= i < |b| ==> Ordered(b[i])
    requires DocItemsMeaning(a) == DocItemsMeaning(b)
    ensures a == b
    decreases a
  {
    if a != [] && b != [] {
      assert DocItemsMeaning(a)[0] == DocMeaning(a[0]) && DocItemsMeaning(b)[0] == DocMeaning(b[0]);
      OrderedUnique(a[0], b[0]);
      assert DocItemsMeaning(a)[1..] == DocItemsMeaning(a[1..]) && DocItemsMeaning(b)[1..] == DocItemsMeaning(b[1..]);
      OrderedItemsUnique(a[1..], b[1..]);
      assert a == [a[0]] + a[1..] && b == [b[0]] + b[1..];
    }
  }

  lemma {:induction false} OrderedFieldsUnique(a: seq<Entry<Doc>>, b: seq<Entry<Doc>>)
    requires forall i :: 0 <= i < |a| ==> Ordered(a[i].value)
    requires forall i :: 0 <= i < |b| ==> Ordered(b[i].value)
    requires DocFieldsMeaning(a) == DocFieldsMeaning(b)
    ensures a == b
    decreases a
  {
    if a != [] && b != [] {
      assert DocFieldsMeaning(a)[0].value == DocMeaning(a[0].value) && DocFieldsMeaning(b)[0].value == DocMeaning(b[0].value);
      assert DocFieldsMeaning(a)[0].key == a[0].key && DocFieldsMeaning(b)[0].key == b[0].key;
      OrderedUnique(a[0].value, b[0].value);
      assert DocFieldsMeaning(a)[1..] == DocFieldsMeaning(a[1..]) && DocFieldsMeaning(b)[1..] == DocFieldsMeaning(b[1..]);
      OrderedFieldsUnique(a[1..], b[1..]);
      assert a == [a[0]] + a[1..] && b == [b[0]] + b[1..];
    }
  }

  /******* Main results *******/

  /**
   Two values get the same canonical text exactly when they mean the same: equal up to the order of object keys at every
   depth, undefined properties, and the numbers and array holes that JSON cannot tell apart.
   */
  lemma CanonicalTextIsExact(a: Json, b: Json)
    requires WellFormed(a) && WellFormed(b) && !a.Undefined? && !b.Undefined?
    ensures CanonicalText(a) == CanonicalText(b) <==> MeaningOf(a) == MeaningOf(b)
  {
    var d, e := Erase(Stable(a)), Erase(Stable(b));
    StableKeepsMeaning(a);
    StableKeepsMeaning(b);
    EraseKeepsMeaning(Stable(a));
    EraseKeepsMeaning(Stable(b));
    if CanonicalText(a) == CanonicalText(b) {
      JsonTextUnambiguous.PrintInjective(d, e);
    }
    if MeaningOf(a) == MeaningOf(b) {
      StableIsOrdered(a);
      StableIsOrdered(b);
      OrderedUnique(d, e);
    }
  }

  lemma {:induction false} StableWellFormed(v: Json)
    requires WellFormed(v)
    ensures WellFormed(Stable(v))
    decreases v
  {
    match v
    case Arr(items) => StableItemsWellFormed(items);
    case Obj(fields) =>
      var stabled := StableFields(fields);
      StableFieldsKeys(fields);
      ArrangedFields(stabled);
      forall i | 0 <= i < |stabled| ensures WellFormed(stabled[i].value) { StableWellFormed(fields[i].value); }
      MemberOfContents(Arranged(stabled), stabled);
      forall i | 0 <= i < |Arranged(stabled)| ensures WellFormed(Arranged(stabled)[i].value) {
        assert Arranged(stabled)[i] in stabled;
      }
    case _ =>
  }

  lemma {:induction false} StableItemsWellFormed(items: seq<Json>)
    requires forall i :: 0 <= i < |items| ==> WellFormed(items[i])
    ensures forall i :: 0 <= i < |StableItems(items)| ==> WellFormed(StableItems(items)[i])
    decreases items
  {
    if items != [] {
      StableWellFormed(items[0]);
      StableItemsWellFormed(items[1..]);
    }
  }

  /** Hashing an already canonical value again changes nothing. */
  lemma CanonicalTextIdempotent(v: Json)
    requires WellFormed(v) && !v.Undefined?
    ensures !Stable(v).Undefined? && CanonicalText(Stable(v)) == CanonicalText(v)
  {
    StableWellFormed(v);
    StableKeepsMeaning(v);
    CanonicalTextIsExact(Stable(v), v);
  }

  lemma {:induction false} UndefinedHasNoMeaning(fields: seq<Entry<Json>>, key: Text)
    ensures MeaningOfFields(fields + [Entry(key, Undefined)]) == MeaningOfFields(fields)
  {
    var t := fields + [Entry(key, Undefined)];
    if fields == [] {
      assert t[1..] == [];
    } else {
      UndefinedHasNoMeaning(fields[1..], key);
      assert t[1..] == fields[1..] + [Entry(key, Undefined)];
    }
  }

  /** A field that is undefined does not change the canonical text, and so not the digest. */
  lemma UndefinedFieldDoesNotCount(fields: seq<Entry<Json>>, key: Text)
    requires WellFormed(Obj(fields)) && !HasKey(fields, key)
    ensures CanonicalText(Obj(fields + [Entry(key, Undefined)])) == CanonicalText(Obj(fields))
  {
    AppendDistinct(fields, Entry(key, Undefined));
    UndefinedHasNoMeaning(fields, key);
    CanonicalTextIsExact(Obj(fields + [Entry(key, Undefined)]), Obj(fields));
  }
}
