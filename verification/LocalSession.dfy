/** Configuring the local session: identity keys from a source file and a signing key, written into the environment file. */
module LocalSession {
  import opened Options
  import opened KeyedSequences
  import opened EnvironmentFile
  import opened EnvironmentFileTheorems
  import opened Base64

  /******* The signing key *******/

  const KEY_LENGTH := 32

  /** The check, for any decoder: 32 bytes, and encoding them again gives the same text. */
  predicate ValidWith(decode: Text -> seq<Byte>, value: Text) {
    value != [] && |decode(value)| == KEY_LENGTH && Encode(decode(value)) == value
  }

  predicate ValidSigningKey(value: Text) { ValidWith(Decode, value) }

  /** However lenient the decoder, as long as it reads canonical text right, exactly canonical texts of 32 bytes pass. */
  lemma ValidExactlyCanonical(decode: Text -> seq<Byte>, value: Text)
    requires forall b :: decode(Encode(b)) == b
    ensures ValidWith(decode, value) <==> exists b :: |b| == KEY_LENGTH && value == Encode(b)
  {
    if ValidWith(decode, value) {
      assert |decode(value)| == KEY_LENGTH && value == Encode(decode(value));
    }
  }

  lemma ValidKeyIsEncoded(value: Text)
    requires ValidSigningKey(value)
    ensures Plain(value)
  {
    EncodedCharacters(Decode(value));
  }

  /** A generated key passes the check, and the line it is written on reads back as it, padding included. */
  lemma GeneratedKeySurvives(name: Text, bytes: seq<Byte>)
    requires IsKey(name) && |bytes| == KEY_LENGTH
    ensures ValidSigningKey(Encode(bytes))
    ensures Read(AssignmentLine(Entry(name, Encode(bytes)))) == Assignment(Entry(name, Encode(bytes)))
  {
    RoundTrip(bytes);
    ValidKeyIsEncoded(Encode(bytes));
    ReadAssignment(Entry(name, Encode(bytes)));
  }

  /******* Configuring *******/

  /** The keys that the command manages, and the comment it writes before them. */
  datatype Settings = Settings(identityKeys: seq<Text>, signingKeyName: Text, header: Text)

  predicate ValidSettings(s: Settings) {
    && (forall i :: 0 <= i < |s.identityKeys| ==> IsKey(s.identityKeys[i]) && s.identityKeys[i] != s.signingKeyName)
    && (forall i, j :: 0 <= i < j < |s.identityKeys| ==> s.identityKeys[i] != s.identityKeys[j])
    && IsKey(s.signingKeyName) && IsComment(s.header)
  }

  function ManagedKeys(s: Settings): set<Text> { (set key | key in s.identityKeys) + {s.signingKeyName} }

  datatype Mode = Preview | Apply | ApplyRotating

  datatype Outcome = Failed | Previewed | Written(text: Text)

  function ValuesOf(t: Text): map<Text, Text>
    requires Readable(t)
  {
    ToMap(Assignments(Lines(t)).value)
  }

  predicate HasIdentity(s: Settings, source: map<Text, Text>) {
    forall i :: 0 <= i < |s.identityKeys| ==> s.identityKeys[i] in source && source[s.identityKeys[i]] != []
  }

  function IdentityValues(keys: seq<Text>, source: map<Text, Text>): seq<Entry<Text>>
    requires forall i :: 0 <= i < |keys| ==> keys[i] in source
  {
    seq(|keys|, i requires 0 <= i < |keys| => Entry(keys[i], source[keys[i]]))
  }

  /** A new key is used when none is stored or one is asked for. */
  function SigningKey(s: Settings, current: map<Text, Text>, mode: Mode, random: seq<Byte>): Text {
    if mode == ApplyRotating || s.signingKeyName !in current then Encode(random) else current[s.signingKeyName]
  }

  function ManagedValues(
    s: Settings, source: map<Text, Text>, current: map<Text, Text>, mode: Mode, random: seq<Byte>): seq<Entry<Text>>
    requires HasIdentity(s, source)
  {
    IdentityValues(s.identityKeys, source) + [Entry(s.signingKeyName, SigningKey(s, current, mode, random))]
  }

  function Configured(s: Settings, source: Text, current: Text, mode: Mode, random: seq<Byte>): Outcome {
    if !Readable(source) || !Readable(current) || !HasIdentity(s, ValuesOf(source)) then Failed
    else if s.signingKeyName in ValuesOf(current) && !ValidSigningKey(ValuesOf(current)[s.signingKeyName])
      && mode != ApplyRotating then Failed
    else if mode == Preview then Previewed
    else
      var values := ManagedValues(s, ValuesOf(source), ValuesOf(current), mode, random);
      Written(NextText(current, ManagedKeys(s), s.header, values))
  }

  method CheckIdentity(s: Settings, source: map<Text, Text>) returns (complete: bool)
    ensures complete == HasIdentity(s, source)
  {
    for i := 0 to |s.identityKeys|
      invariant forall j :: 0 <= j < i ==> s.identityKeys[j] in source && source[s.identityKeys[j]] != []
    {
      var key := s.identityKeys[i];
      if key !in source || source[key] == [] { return false; }
    }
    return true;
  }

  /** The command as written. */
  method Configure(s: Settings, source: Text, current: Text, mode: Mode, random: seq<Byte>) returns (outcome: Outcome)
    ensures outcome == Configured(s, source, current, mode, random)
  {
    var identity := Parse(source);
    var stored := Parse(current);
    if identity.None? || stored.None? { return Failed; }
    var complete := CheckIdentity(s, identity.value);
    if !complete { return Failed; }
    if s.signingKeyName in stored.value && !ValidSigningKey(stored.value[s.signingKeyName]) && mode != ApplyRotating {
      return Failed;
    }
    if mode == Preview { return Previewed; }
    var values := ManagedValues(s, identity.value, stored.value, mode, random);
    var kept := Keep(Lines(current), ManagedKeys(s));
    return Written(Join(kept, [LF, LF] + (s.header + ([LF] + PrintValues(values)))));
  }

  /** The retained lines, without the empty ones at the end. */
  method Keep(lines: seq<Text>, managed: set<Text>) returns (kept: seq<Text>)
    ensures kept == DropTrailingEmpty(Retained(lines, managed))
  {
    kept := [];
    for i := 0 to |lines|
      invariant Retained(lines, managed) == kept + Retained(lines[i..], managed)
    {
      if !Managed(lines[i], managed) { kept := kept + [lines[i]]; }
    }
    assert kept == Retained(lines, managed);
    while kept != [] && kept[|kept| - 1] == []
      invariant DropTrailingEmpty(kept) == DropTrailingEmpty(Retained(lines, managed))
    {
      kept := kept[..|kept| - 1];
    }
  }

  /******* What is written *******/

  lemma {:induction false} ReadValuesArePlain(lines: seq<Text>)
    requires Assignments(lines).Some?
    ensures forall i :: 0 <= i < |Assignments(lines).value| ==> Plain(Assignments(lines).value[i].value)
  {
    if lines != [] { ReadValuesArePlain(lines[1..]); }
  }

  /** So the command's own test of identity values for line breaks never fails. */
  lemma StoredValuesArePlain(t: Text, key: Text)
    requires Readable(t) && key in ValuesOf(t)
    ensures Plain(ValuesOf(t)[key])
  {
    var entries := Assignments(Lines(t)).value;
    ReadValuesArePlain(Lines(t));
    assert HasKey(entries, key);
    var i :| 0 <= i < |entries| && entries[i].key == key;
    ToMapAt(entries, i);
  }

  lemma ValuesAreWritable(s: Settings, source: Text, current: Text, mode: Mode, random: seq<Byte>)
    requires ValidSettings(s) && |random| == KEY_LENGTH && Configured(s, source, current, mode, random).Written?
    ensures var values := ManagedValues(s, ValuesOf(source), ValuesOf(current), mode, random);
            Writable(values) && DistinctKeys(values) && KeysIn(values, ManagedKeys(s))
    ensures ValidSigningKey(SigningKey(s, ValuesOf(current), mode, random))
  {
    var values := ManagedValues(s, ValuesOf(source), ValuesOf(current), mode, random);
    var key := SigningKey(s, ValuesOf(current), mode, random);
    RoundTrip(random);
    ValidKeyIsEncoded(key);
    forall i | 0 <= i < |values| ensures IsKey(values[i].key) && Plain(values[i].value) && values[i].key in ManagedKeys(s) {
      if i < |s.identityKeys| { StoredValuesArePlain(source, s.identityKeys[i]); }
    }
  }

  /** The managed part of the file that is written: the identity of the source and a valid signing key. */
  function ManagedMap(s: Settings, source: Text, current: Text, mode: Mode, random: seq<Byte>): map<Text, Text>
    requires Readable(source) && Readable(current) && HasIdentity(s, ValuesOf(source))
  {
    ToMap(ManagedValues(s, ValuesOf(source), ValuesOf(current), mode, random))
  }

  lemma ManagedKeysExactly(s: Settings, source: map<Text, Text>, current: map<Text, Text>, mode: Mode, random: seq<Byte>)
    requires HasIdentity(s, source)
    ensures ToMap(ManagedValues(s, source, current, mode, random)).Keys == ManagedKeys(s)
  {
    var values := ManagedValues(s, source, current, mode, random);
    var n := |s.identityKeys|;
    forall key ensures key in ToMap(values) <==> key in ManagedKeys(s) {
      if key in s.identityKeys {
        var i :| 0 <= i < n && s.identityKeys[i] == key;
        assert values[i].key == key;
      }
      assert values[n].key == s.signingKeyName;
    }
  }

  lemma ManagedValuesAt(s: Settings, source: map<Text, Text>, current: map<Text, Text>, mode: Mode, random: seq<Byte>)
    requires HasIdentity(s, source) && DistinctKeys(ManagedValues(s, source, current, mode, random))
    ensures var m := ToMap(ManagedValues(s, source, current, mode, random));
            && m.Keys == ManagedKeys(s)
            && m[s.signingKeyName] == SigningKey(s, current, mode, random)
            && forall i :: 0 <= i < |s.identityKeys| ==> m[s.identityKeys[i]] == source[s.identityKeys[i]]
  {
    var values := ManagedValues(s, source, current, mode, random);
    var n := |s.identityKeys|;
    ManagedKeysExactly(s, source, current, mode, random);
    ToMapAt(values, n);
    forall i | 0 <= i < n ensures ToMap(values)[s.identityKeys[i]] == source[s.identityKeys[i]] { ToMapAt(values, i); }
  }

  lemma ManagedMapAt(s: Settings, source: Text, current: Text, mode: Mode, random: seq<Byte>)
    requires ValidSettings(s) && |random| == KEY_LENGTH && Configured(s, source, current, mode, random).Written?
    ensures var m := ManagedMap(s, source, current, mode, random);
            && m.Keys == ManagedKeys(s)
            && m[s.signingKeyName] == SigningKey(s, ValuesOf(current), mode, random)
            && forall i :: 0 <= i < |s.identityKeys| ==> m[s.identityKeys[i]] == ValuesOf(source)[s.identityKeys[i]]
  {
    ValuesAreWritable(s, source, current, mode, random);
    ManagedValuesAt(s, ValuesOf(source), ValuesOf(current), mode, random);
  }

  /** What is written can be read, and says the old unmanaged values and the managed ones. */
  lemma WrittenReadsBack(s: Settings, source: Text, current: Text, mode: Mode, random: seq<Byte>)
    requires ValidSettings(s) && |random| == KEY_LENGTH && Configured(s, source, current, mode, random).Written?
    ensures var next := Configured(s, source, current, mode, random).text;
            && Readable(next)
            && ValuesOf(next) == (ValuesOf(current) - ManagedKeys(s)) + ManagedMap(s, source, current, mode, random)
            && s.signingKeyName in ValuesOf(next) && ValidSigningKey(ValuesOf(next)[s.signingKeyName])
  {
    var values := ManagedValues(s, ValuesOf(source), ValuesOf(current), mode, random);
    ValuesAreWritable(s, source, current, mode, random);
    MergeAgrees(current, ManagedKeys(s), s.header, values);
    ManagedMapAt(s, source, current, mode, random);
  }

  /** Applying again without rotation keeps every value, the signing key included, whatever key was generated meanwhile. */
  lemma ReapplyChangesNoValue(
    s: Settings, source: Text, current: Text, mode: Mode, random: seq<Byte>, otherRandom: seq<Byte>)
    requires ValidSettings(s) && |random| == KEY_LENGTH == |otherRandom|
    requires Configured(s, source, current, mode, random).Written?
    ensures var next := Configured(s, source, current, mode, random).text;
            var again := Configured(s, source, next, Apply, otherRandom);
            && again.Written? && Readable(again.text)
            && Assignments(Lines(again.text)) == Assignments(Lines(next))
  {
    var next := Configured(s, source, current, mode, random).text;
    var values := ManagedValues(s, ValuesOf(source), ValuesOf(current), mode, random);
    ValuesAreWritable(s, source, current, mode, random);
    WrittenReadsBack(s, source, current, mode, random);
    ManagedMapAt(s, source, current, mode, random);
    WrittenReadsBack(s, source, next, Apply, otherRandom);
    assert ManagedValues(s, ValuesOf(source), ValuesOf(next), Apply, otherRandom) == values;
    ReapplyKeepsAssignments(current, ManagedKeys(s), s.header, values);
  }

  /******* The command's own keys *******/

  const SESSION_ENABLED: Text := Lit("REKLAMZEKA_LOCAL_SESSION_ENABLED")
  const LOCAL_ORIGIN: Text := Lit("REKLAMZEKA_LOCAL_ORIGIN")
  const WORKSPACE_ID: Text := Lit("REKLAMZEKA_LOCAL_WORKSPACE_ID")
  const WORKSPACE_REF: Text := Lit("REKLAMZEKA_LOCAL_WORKSPACE_REF")
  const USER_ID: Text := Lit("REKLAMZEKA_LOCAL_USER_ID")
  const READER_REF: Text := Lit("REKLAMZEKA_LOCAL_READER_REF")
  const SIGNING_KEY: Text := Lit("REKLAMZEKA_LOCAL_SESSION_SIGNING_KEY")
  const HEADER: Text := Lit("# ReklamZeka local ") + Lit("Decision Room session (managed)")

  const DEPLOYED: Settings := Settings(
    [SESSION_ENABLED, LOCAL_ORIGIN, WORKSPACE_ID, WORKSPACE_REF, USER_ID, READER_REF], SIGNING_KEY, HEADER)

  lemma DeployedIdentityNames()
    ensures IsKey(SESSION_ENABLED) && IsKey(LOCAL_ORIGIN) && IsKey(WORKSPACE_ID)
  {
  }

  lemma DeployedOtherNames()
    ensures IsKey(WORKSPACE_REF) && IsKey(USER_ID) && IsKey(READER_REF)
  {
  }

  lemma DeployedSigningKeyName()
    ensures IsKey(SIGNING_KEY)
  {
  }

  lemma DeployedHeader()
    ensures IsComment(HEADER)
  {
    assert Plain(Lit("# ReklamZeka local ")) && Plain(Lit("Decision Room session (managed)"));
  }

  lemma DeployedIsValid()
    ensures ValidSettings(DEPLOYED)
  {
    DeployedIdentityNames();
    DeployedOtherNames();
    DeployedSigningKeyName();
    DeployedHeader();
    var keys := DEPLOYED.identityKeys;
    assert |keys[0]| == 32 && |keys[1]| == 23 && |keys[2]| == 29 && |keys[3]| == 30 && |keys[4]| == 24 && |keys[5]| == 27;
    assert |DEPLOYED.signingKeyName| == 36;
  }
}
