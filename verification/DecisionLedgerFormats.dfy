/** What a record of the ledger may hold, told by the words and characters themselves. */
module DecisionLedgerFormats {
  import opened Options
  import opened KeyedSequences
  import opened CanonicalJson
  import opened DecisionLedger

  /** The white space and line terminators that `trim` removes: tables 33 and 34 in section 12 of ECMA-262. */
  const WHITE_SPACE: set<int> := {
    0x0009, 0x000B, 0x000C, 0xFEFF, 0x0020, 0x00A0, 0x1680, 0x2000, 0x2001, 0x2002, 0x2003, 0x2004, 0x2005, 0x2006, 0x2007,
    0x2008, 0x2009, 0x200A, 0x202F, 0x205F, 0x3000, 0x000A, 0x000D, 0x2028, 0x2029
  }

  lemma SpaceExactly(c: CodeUnit)
    ensures IsSpace(c) <==> c in WHITE_SPACE
  {
  }

  lemma BlankExactly(t: Text)
    ensures Blank(t) <==> forall c :: c in t ==> c in WHITE_SPACE
  {
    forall c: CodeUnit ensures IsSpace(c) <==> c in WHITE_SPACE { SpaceExactly(c); }
  }

  lemma HexExactly(t: Text, length: nat)
    ensures IsHex(t, length)
       <==> |t| == length && forall c :: c in t ==> '0' as int <= c <= '9' as int || 'a' as int <= c <= 'f' as int
  {
    assert forall i :: 0 <= i < |t| ==> t[i] in t;
  }

  /** The value is the other, or lies somewhere inside it. */
  ghost predicate Inside(x: Json, v: Json) {
    x == v
    || match v
       case Arr(items) => exists i :: 0 <= i < |items| && Inside(x, items[i])
       case Obj(fields) => exists i :: 0 <= i < |fields| && Inside(x, fields[i].value)
       case _ => false
  }

  /** A value can be encoded exactly if nothing in it, at any depth, is undefined or a number that is not finite. */
  lemma {:induction false} EncodableExactly(v: Json)
    ensures Encodable(v) <==> !Inside(Undefined, v) && !Inside(Number(NonFinite), v)
    decreases v
  {
    match v
    case Arr(items) =>
      forall i | 0 <= i < |items|
        ensures Encodable(items[i]) <==> !Inside(Undefined, items[i]) && !Inside(Number(NonFinite), items[i])
      {
        EncodableExactly(items[i]);
      }
    case Obj(fields) =>
      forall i | 0 <= i < |fields|
        ensures Encodable(fields[i].value)
           <==> !Inside(Undefined, fields[i].value) && !Inside(Number(NonFinite), fields[i].value)
      {
        EncodableExactly(fields[i].value);
      }
    case _ =>
  }

  /** The texts of a list of strings. */
  ghost predicate Lists(v: Json, texts: seq<Text>) {
    v.Arr? && |v.items| == |texts| && forall i :: 0 <= i < |texts| ==> v.items[i] == Str(texts[i])
  }

  predicate Trimmed(t: Text) { t != [] && t[0] !in WHITE_SPACE && t[|t| - 1] !in WHITE_SPACE }

  lemma RefListByText(v: Json, texts: seq<Text>)
    requires Lists(v, texts)
    ensures IsRefList(Some(v))
       <==> && (forall i :: 0 <= i < |texts| ==>
                  texts[i] != [] && !IsSpace(texts[i][0]) && !IsSpace(texts[i][|texts[i]| - 1]))
            && (forall i, j :: 0 <= i < j < |texts| ==> CodeUnitBefore(texts[i], texts[j]))
  {
    var items := v.items;
    if IsRefList(Some(v)) {
      forall i | 0 <= i < |texts| ensures texts[i] != [] && !IsSpace(texts[i][0]) && !IsSpace(texts[i][|texts[i]| - 1]) {
        assert items[i] == Str(texts[i]);
      }
      forall i, j | 0 <= i < j < |texts| ensures CodeUnitBefore(texts[i], texts[j]) {
        assert items[i] == Str(texts[i]) && items[j] == Str(texts[j]);
      }
    } else {
      assert forall i :: 0 <= i < |items| ==> items[i] == Str(texts[i]);
    }
  }

  /** The first text parts below the second, or ends there. */
  ghost predicate Below(a: Text, b: Text) { exists k: nat :: PartsBelowAt(a, b, k) }

  lemma TrimmedExactly(t: Text)
    ensures Trimmed(t) <==> t != [] && !IsSpace(t[0]) && !IsSpace(t[|t| - 1])
  {
    if t != [] {
      SpaceExactly(t[0]);
      SpaceExactly(t[|t| - 1]);
    }
  }

  /** A list of references is a list of trimmed, non-empty texts, each before the next by its first difference. */
  lemma RefListExactly(v: Json, texts: seq<Text>)
    requires Lists(v, texts)
    ensures IsRefList(Some(v))
       <==> && (forall i :: 0 <= i < |texts| ==> Trimmed(texts[i]))
            && (forall i, j :: 0 <= i < j < |texts| ==> Below(texts[i], texts[j]))
  {
    RefListByText(v, texts);
    forall i | 0 <= i < |texts|
      ensures Trimmed(texts[i]) <==> texts[i] != [] && !IsSpace(texts[i][0]) && !IsSpace(texts[i][|texts[i]| - 1])
    {
      TrimmedExactly(texts[i]);
    }
    forall i, j | 0 <= i < j < |texts| ensures CodeUnitBefore(texts[i], texts[j]) <==> Below(texts[i], texts[j]) {
      CodeUnitBeforeExactly(texts[i], texts[j]);
    }
  }

  lemma OnlyTextsAreRefLists(v: Json)
    requires IsRefList(Some(v))
    ensures exists texts :: Lists(v, texts)
  {
    var texts := seq(|v.items|, i requires 0 <= i < |v.items| => if v.items[i].Str? then v.items[i].s else []);
    assert Lists(v, texts);
  }

  /******* The deployed checks *******/

  /** The field is a text with something in it but white space. */
  predicate HasText(r: Fields, key: string) {
    TextField(r, Lit(key)).Some? && exists c :: c in TextField(r, Lit(key)).value && c !in WHITE_SPACE
  }

  predicate Says(r: Fields, key: string, word: string) { TextField(r, Lit(key)) == Some(Lit(word)) }

  predicate ListsRefs(r: Fields, key: string) { IsRefList(Field(r, Lit(key))) }

  predicate OnlyKeys(r: Fields, keys: set<Text>) { forall i :: 0 <= i < |r| ==> r[i].key in keys }

  const COMMON: set<Text> := {
    Lit("version"), Lit("recordType"), Lit("sequence"), Lit("previousHash"), Lit("workspaceRef"), Lit("occurredAt"),
    Lit("recordId"), Lit("recordHash"), Lit("timelineRefs"), Lit("evidenceRefs")
  }

  /** An analysis: without authority, of a definition and a context, which it holds frozen in canonical form. */
  predicate GoodAnalysis(compliant: Json -> bool, r: Fields) {
    && OnlyKeys(r, COMMON + {
         Lit("analysisDefinitionRef"), Lit("effectiveContextRef"), Lit("frozenContext"), Lit("actionAuthority")})
    && Says(r, "actionAuthority", "none") && HasText(r, "analysisDefinitionRef") && HasText(r, "effectiveContextRef")
    && var context := Field(r, Lit("frozenContext"));
       context.Some? && !context.value.Undefined? && compliant(context.value)
       && CanonicalText(context.value) == Stringify(context.value)
  }

  /** A decision: without authority, one of five dispositions, on an analysis and a cadence, for a reason. */
  predicate GoodDecision(r: Fields) {
    && OnlyKeys(r, COMMON + {
         Lit("analysisRecordRef"), Lit("cadenceResultRef"), Lit("disposition"), Lit("guidanceRefs"), Lit("experimentRef"),
         Lit("rationaleCode"), Lit("executionAuthority")})
    && Says(r, "executionAuthority", "none")
    && (|| Says(r, "disposition", "act") || Says(r, "disposition", "test") || Says(r, "disposition", "observe")
        || Says(r, "disposition", "no_change") || Says(r, "disposition", "blocked"))
    && HasText(r, "analysisRecordRef") && HasText(r, "cadenceResultRef") && HasText(r, "rationaleCode")
    && (Field(r, Lit("experimentRef")) == Some(Null) || HasText(r, "experimentRef"))
    && ListsRefs(r, "guidanceRefs")
  }

  lemma PresentExactly(r: Fields, key: string)
    ensures Present(TextField(r, Lit(key))) <==> HasText(r, key)
  {
    if TextField(r, Lit(key)).Some? { BlankExactly(TextField(r, Lit(key)).value); }
  }

  lemma DispositionExactly(r: Fields)
    ensures (exists d :: d in DISPOSITIONS && TextField(r, Lit("disposition")) == Some(d))
       <==> || Says(r, "disposition", "act") || Says(r, "disposition", "test") || Says(r, "disposition", "observe")
            || Says(r, "disposition", "no_change") || Says(r, "disposition", "blocked")
  {
  }

  /** The deployed checks pass exactly for good analyses and decisions of version 1 that can be encoded and list references. */
  lemma ContentExactly(compliant: Json -> bool, r: Fields)
    ensures ContentOk(compliant, r)
       <==> && !Inside(Undefined, Obj(r)) && !Inside(Number(NonFinite), Obj(r))
            && Says(r, "version", "decision-ledger/1.0.0") && HasText(r, "workspaceRef")
            && ListsRefs(r, "timelineRefs") && ListsRefs(r, "evidenceRefs")
            && if Says(r, "recordType", "analysis") then GoodAnalysis(compliant, r)
               else Says(r, "recordType", "decision") && GoodDecision(r)
  {
    EncodableExactly(Obj(r));
    PresentExactly(r, "workspaceRef");
    AnalysisExactly(compliant, r);
    DecisionExactly(r);
  }

  lemma AnalysisExactly(compliant: Json -> bool, r: Fields)
    ensures GoodAnalysis(compliant, r)
       <==> && (forall i :: 0 <= i < |r| ==> r[i].key in ANALYSIS_KEYS)
            && TextField(r, Lit("actionAuthority")) == Some(Lit("none"))
            && Present(TextField(r, Lit("analysisDefinitionRef"))) && Present(TextField(r, CONTEXT_REF))
            && var context := Field(r, Lit("frozenContext"));
               context.Some? && !context.value.Undefined? && compliant(context.value)
               && CanonicalText(context.value) == Stringify(context.value)
  {
    PresentExactly(r, "analysisDefinitionRef");
    PresentExactly(r, "effectiveContextRef");
    assert ANALYSIS_KEYS == COMMON + {
      Lit("analysisDefinitionRef"), Lit("effectiveContextRef"), Lit("frozenContext"), Lit("actionAuthority")};
  }

  lemma DecisionExactly(r: Fields)
    ensures GoodDecision(r)
       <==> && (forall i :: 0 <= i < |r| ==> r[i].key in DECISION_KEYS)
            && TextField(r, Lit("executionAuthority")) == Some(Lit("none"))
            && (exists d :: d in DISPOSITIONS && TextField(r, Lit("disposition")) == Some(d))
            && Present(TextField(r, ANALYSIS_RECORD_REF)) && Present(TextField(r, Lit("cadenceResultRef")))
            && Present(TextField(r, Lit("rationaleCode")))
            && (Field(r, Lit("experimentRef")) == Some(Null) || Present(TextField(r, Lit("experimentRef"))))
            && IsRefList(Field(r, Lit("guidanceRefs")))
  {
    PresentExactly(r, "analysisRecordRef");
    PresentExactly(r, "cadenceResultRef");
    PresentExactly(r, "rationaleCode");
    PresentExactly(r, "experimentRef");
    DispositionExactly(r);
    assert DECISION_KEYS == COMMON + {
      Lit("analysisRecordRef"), Lit("cadenceResultRef"), Lit("disposition"), Lit("guidanceRefs"), Lit("experimentRef"),
      Lit("rationaleCode"), Lit("executionAuthority")};
  }
}
