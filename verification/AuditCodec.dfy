/** The commitment codec: what is accepted, and that parsing undoes serialization in any
    order of the keys. */
module AuditCodec {
  import opened Sql
  import opened Json
  import opened JsonGrammar
  import opened AuditContract

  // ----- The constants -----

  lemma FieldNamesDiffer()
    ensures |PROFILE_FIELD| == 23 && |COMMITMENT_FIELD| == 20 && |ALGORITHM_FIELD| == 15
    ensures |EVENT_KEY_FIELD| == 18 && |RECORD_TYPE_FIELD| == 10 && |VERSION_FIELD| == 13
  {
  }

  lemma TypeNames()
    ensures |TypeName(AccessDecision)| == 15 && TypeName(AccessDecision)[0] == 0x61
    ensures |TypeName(CertificateLifecycle)| == 21
    ensures |TypeName(PolicyChange)| == 13
    ensures |TypeName(SecurityAction)| == 15 && TypeName(SecurityAction)[0] == 0x73
    ensures |TypeName(TrustTransition)| == 16
  {
  }

  lemma TypeNameIsInjective(r: RecordType, name: Text)
    ensures TypeNamed(TypeName(r)) == Some(r)
    ensures TypeNamed(name).Some? ==> TypeName(TypeNamed(name).value) == name
  {
    TypeNames();
  }

  // ----- Accepted texts -----

  /** The six properties that encode a commitment. */
  function PropertiesOf(v: Commitment): map<Text, Value> {
    map[PROFILE_FIELD := String(PROFILE), COMMITMENT_FIELD := String(v.commitmentHash),
        ALGORITHM_FIELD := String(ALGORITHM), EVENT_KEY_FIELD := String(v.eventKey),
        RECORD_TYPE_FIELD := String(TypeName(v.recordType)), VERSION_FIELD := String(VERSION)]
  }

  lemma CheckedIff(o: map<Text, Value>, v: Commitment)
    ensures CheckFields(o) == Some(v) <==> WellFormed(v) && o == PropertiesOf(v)
  {
    FieldNamesDiffer();
    TypeNameIsInjective(v.recordType, v.eventKey);
    assert PropertiesOf(v).Keys == LedgerFields();
    if CheckFields(o) == Some(v) {
      TypeNameIsInjective(v.recordType, o[RECORD_TYPE_FIELD].text);
    }
  }

  /** A text is accepted as `v` exactly when it has 1 to 2048 characters, is JSON for an
      object, and the object has the six properties of `v` and no other. */
  lemma AcceptedIff(input: Text, v: Commitment)
    ensures ParseCommitment(input) == Some(v) <==>
            && 1 <= |input| <= 2048 && WellFormed(v)
            && Parse(input).Some? && Parse(input).value.Object?
            && Properties(Parse(input).value.members) == PropertiesOf(v)
  {
    if Parse(input).Some? && Parse(input).value.Object? {
      CheckedIff(Properties(Parse(input).value.members), v);
    }
  }

  /** The last member of that name has that value: a repeated name keeps its last value. */
  predicate LastIs(ms: seq<Member>, name: Text, value: Value) {
    exists i :: 0 <= i < |ms| && ms[i] == Member(name, value) && forall j :: i < j < |ms| ==> ms[j].name != name
  }

  predicate HasName(ms: seq<Member>, name: Text) {
    exists i :: 0 <= i < |ms| && ms[i].name == name
  }

  lemma {:induction false} PropertyIsNamed(ms: seq<Member>, name: Text)
    ensures name in Properties(ms) <==> HasName(ms, name)
    decreases |ms|
  {
    if |ms| != 0 {
      var rest := ms[1..];
      PropertyIsNamed(rest, name);
      if HasName(rest, name) {
        var i :| 0 <= i < |rest| && rest[i].name == name;
        assert ms[i + 1].name == name;
      }
      if HasName(ms, name) && ms[0].name != name {
        var i :| 0 <= i < |ms| && ms[i].name == name;
        assert rest[i - 1].name == name;
      }
    }
  }

  lemma LastIsInTail(ms: seq<Member>, name: Text, value: Value)
    requires |ms| != 0 && LastIs(ms[1..], name, value)
    ensures LastIs(ms, name, value)
  {
    var rest := ms[1..];
    var i :| 0 <= i < |rest| && rest[i] == Member(name, value) && forall j :: i < j < |rest| ==> rest[j].name != name;
    forall j | i + 1 < j < |ms| ensures ms[j].name != name {
      assert ms[j] == rest[j - 1];
    }
    assert ms[i + 1] == Member(name, value);
  }

  lemma LastIsUnfolds(ms: seq<Member>, name: Text, value: Value)
    requires |ms| != 0
    ensures LastIs(ms, name, value) <==>
              LastIs(ms[1..], name, value) || (ms[0] == Member(name, value) && !HasName(ms[1..], name))
  {
    var rest := ms[1..];
    if LastIs(ms, name, value) {
      var i :| 0 <= i < |ms| && ms[i] == Member(name, value) && forall j :: i < j < |ms| ==> ms[j].name != name;
      forall j | i <= j < |rest| ensures rest[j].name != name {
        assert rest[j] == ms[j + 1];
      }
      if i > 0 {
        assert rest[i - 1] == Member(name, value);
      }
    }
    if LastIs(rest, name, value) {
      LastIsInTail(ms, name, value);
    } else if ms[0] == Member(name, value) && !HasName(rest, name) {
      forall j | 0 < j < |ms| ensures ms[j].name != name {
        assert rest[j - 1] == ms[j];
      }
    }
  }

  lemma {:induction false} PropertyIsLast(ms: seq<Member>, name: Text, value: Value)
    ensures name in Properties(ms) && Properties(ms)[name] == value <==> LastIs(ms, name, value)
    decreases |ms|
  {
    if |ms| != 0 {
      PropertyIsLast(ms[1..], name, value);
      PropertyIsNamed(ms[1..], name);
      LastIsUnfolds(ms, name, value);
    }
  }

  predicate OnlyNames(ms: seq<Member>, names: set<Text>) {
    forall i :: 0 <= i < |ms| ==> ms[i].name in names
  }

  /** The six members and no others, the last of each name with its value. */
  predicate HasSixMembers(ms: seq<Member>, v: Commitment) {
    && OnlyNames(ms, LedgerFields())
    && LastIs(ms, PROFILE_FIELD, String(PROFILE))
    && LastIs(ms, COMMITMENT_FIELD, String(v.commitmentHash))
    && LastIs(ms, ALGORITHM_FIELD, String(ALGORITHM))
    && LastIs(ms, EVENT_KEY_FIELD, String(v.eventKey))
    && LastIs(ms, RECORD_TYPE_FIELD, String(TypeName(v.recordType)))
    && LastIs(ms, VERSION_FIELD, String(VERSION))
  }

  /** The properties are these if and only if no other name is there and the last member of
      each name has its value. */
  lemma PropertiesAreLast(ms: seq<Member>, o: map<Text, Value>)
    ensures Properties(ms) == o <==> OnlyNames(ms, o.Keys) && forall name :: name in o ==> LastIs(ms, name, o[name])
  {
    var found := Properties(ms);
    if found == o {
      forall i | 0 <= i < |ms| ensures ms[i].name in o.Keys {
        PropertyIsNamed(ms, ms[i].name);
      }
      forall name | name in o ensures LastIs(ms, name, o[name]) {
        PropertyIsLast(ms, name, o[name]);
      }
    }
    if OnlyNames(ms, o.Keys) && forall name :: name in o ==> LastIs(ms, name, o[name]) {
      forall name | name in found ensures name in o {
        PropertyIsNamed(ms, name);
        var i :| 0 <= i < |ms| && ms[i].name == name;
      }
      forall name | name in o ensures name in found && found[name] == o[name] {
        PropertyIsLast(ms, name, o[name]);
      }
      assert found.Keys == o.Keys;
    }
  }

  lemma LastOfSix(ms: seq<Member>, v: Commitment)
    ensures (forall name :: name in PropertiesOf(v) ==> LastIs(ms, name, PropertiesOf(v)[name])) <==>
              && LastIs(ms, PROFILE_FIELD, String(PROFILE)) && LastIs(ms, COMMITMENT_FIELD, String(v.commitmentHash))
              && LastIs(ms, ALGORITHM_FIELD, String(ALGORITHM)) && LastIs(ms, EVENT_KEY_FIELD, String(v.eventKey))
              && LastIs(ms, RECORD_TYPE_FIELD, String(TypeName(v.recordType))) && LastIs(ms, VERSION_FIELD, String(VERSION))
  {
    FieldNamesDiffer();
    var o := PropertiesOf(v);
    assert o[PROFILE_FIELD] == String(PROFILE) && o[COMMITMENT_FIELD] == String(v.commitmentHash);
    assert o[ALGORITHM_FIELD] == String(ALGORITHM) && o[EVENT_KEY_FIELD] == String(v.eventKey);
    assert o[RECORD_TYPE_FIELD] == String(TypeName(v.recordType)) && o[VERSION_FIELD] == String(VERSION);
  }

  lemma SixMembersIff(ms: seq<Member>, v: Commitment)
    ensures Properties(ms) == PropertiesOf(v) <==> HasSixMembers(ms, v)
  {
    PropertiesAreLast(ms, PropertiesOf(v));
    assert PropertiesOf(v).Keys == LedgerFields();
    LastOfSix(ms, v);
  }

  /** On the text itself: it is accepted as `v` exactly when it has 1 to 2048 characters, the
      grammar reads it as an object, and this object has the six members of `v` and no others. */
  lemma AcceptedTextIff(input: Text, v: Commitment)
    ensures ParseCommitment(input) == Some(v) <==>
            && 1 <= |input| <= 2048 && WellFormed(v)
            && exists ms :: Denotes(input, Object(ms)) && HasSixMembers(ms, v)
  {
    AcceptedIff(input, v);
    if Parse(input).Some? && Parse(input).value.Object? {
      var ms := Parse(input).value.members;
      ParseIff(input, Object(ms));
      SixMembersIff(ms, v);
    }
    if ms :| Denotes(input, Object(ms)) && HasSixMembers(ms, v) {
      ParseIff(input, Object(ms));
    }
  }

  // ----- Any order of the keys -----

  predicate NameOf(fs: seq<Field>, n: Text) {
    exists f :: f in fs && f.name == n
  }

  lemma {:induction false} PropertyNames(fs: seq<Field>, n: Text)
    ensures n in Properties(MembersOf(fs)) <==> NameOf(fs, n)
    decreases |fs|
  {
    if |fs| != 0 {
      PropertyNames(fs[1..], n);
      assert MembersOf(fs)[1..] == MembersOf(fs[1..]);
      assert forall f :: f in fs <==> f == fs[0] || f in fs[1..];
    }
  }

  /** The properties of an object whose equal names have equal texts. */
  lemma {:induction false} PropertiesOfFields(fs: seq<Field>, f: Field)
    requires forall f, g :: f in fs && g in fs && f.name == g.name ==> f.text == g.text
    requires f in fs
    ensures f.name in Properties(MembersOf(fs)) && Properties(MembersOf(fs))[f.name] == String(f.text)
    decreases |fs|
  {
    assert MembersOf(fs)[1..] == MembersOf(fs[1..]);
    assert forall g :: g in fs[1..] ==> g in fs;
    PropertyNames(fs[1..], f.name);
    if NameOf(fs[1..], f.name) {
      var g :| g in fs[1..] && g.name == f.name;
      PropertiesOfFields(fs[1..], g);
    } else {
      assert f == fs[0];
    }
  }

  /** The fields of `v`, each as often and in whatever order. */
  predicate Reordered(fs: seq<Field>, v: Commitment) {
    multiset(fs) == multiset(FieldsOf(v))
  }

  lemma ReorderedHasFields(fs: seq<Field>, v: Commitment, f: Field)
    requires Reordered(fs, v)
    ensures |fs| == 6
    ensures f in fs <==> f in FieldsOf(v)
  {
    assert |multiset(fs)| == |multiset(FieldsOf(v))|;
    assert f in fs <==> f in multiset(fs);
    assert f in FieldsOf(v) <==> f in multiset(FieldsOf(v));
  }

  lemma FieldIsOneOfSix(v: Commitment, f: Field)
    ensures f in FieldsOf(v) <==>
              f == Field(PROFILE_FIELD, PROFILE) || f == Field(COMMITMENT_FIELD, v.commitmentHash)
              || f == Field(ALGORITHM_FIELD, ALGORITHM) || f == Field(EVENT_KEY_FIELD, v.eventKey)
              || f == Field(RECORD_TYPE_FIELD, TypeName(v.recordType)) || f == Field(VERSION_FIELD, VERSION)
  {
  }

  lemma FieldIsProperty(v: Commitment, f: Field)
    requires f in FieldsOf(v)
    ensures f.name in PropertiesOf(v) && PropertiesOf(v)[f.name] == String(f.text)
  {
    FieldNamesDiffer();
    FieldIsOneOfSix(v, f);
  }

  lemma PropertyIsField(v: Commitment, n: Text)
    requires n in PropertiesOf(v)
    ensures PropertiesOf(v)[n].String? && Field(n, PropertiesOf(v)[n].text) in FieldsOf(v)
  {
    FieldNamesDiffer();
    assert n == PROFILE_FIELD || n == COMMITMENT_FIELD || n == ALGORITHM_FIELD || n == EVENT_KEY_FIELD
           || n == RECORD_TYPE_FIELD || n == VERSION_FIELD;
    FieldIsOneOfSix(v, Field(n, PropertiesOf(v)[n].text));
  }

  lemma SamePropertiesAs(fs: seq<Field>, total: map<Text, Value>)
    requires forall f :: f in fs ==> f.name in total && total[f.name] == String(f.text)
    requires forall n :: n in total ==> total[n].String? && Field(n, total[n].text) in fs
    ensures Properties(MembersOf(fs)) == total
  {
    var o := Properties(MembersOf(fs));
    forall n ensures n in o <==> n in total {
      PropertyNames(fs, n);
      if n in total {
        assert Field(n, total[n].text) in fs;
      }
    }
    forall n | n in total ensures o[n] == total[n] {
      PropertiesOfFields(fs, Field(n, total[n].text));
    }
  }

  lemma ReorderedHasProperties(fs: seq<Field>, v: Commitment)
    requires Reordered(fs, v)
    ensures Properties(MembersOf(fs)) == PropertiesOf(v)
  {
    forall f | f in fs ensures f.name in PropertiesOf(v) && PropertiesOf(v)[f.name] == String(f.text) {
      ReorderedHasFields(fs, v, f);
      FieldIsProperty(v, f);
    }
    forall n | n in PropertiesOf(v) ensures PropertiesOf(v)[n].String? && Field(n, PropertiesOf(v)[n].text) in fs {
      PropertyIsField(v, n);
      ReorderedHasFields(fs, v, Field(n, PropertiesOf(v)[n].text));
    }
    SamePropertiesAs(fs, PropertiesOf(v));
  }

  // ----- The length limit -----

  /** No unit of the text needs an escape. */
  predicate Plain(s: Text) {
    forall i :: 0 <= i < |s| ==> 0x20 <= s[i] < 0x7F && s[i] != QUOTE && s[i] != BACKSLASH
  }

  lemma {:induction false} PlainQuotesItself(s: Text)
    requires Plain(s)
    ensures QuoteBody(s) == s
    decreases |s|
  {
    if |s| != 0 {
      PlainQuotesItself(s[1..]);
    }
  }

  lemma LongNamesArePlain()
    ensures Plain(PROFILE_FIELD) && Plain(COMMITMENT_FIELD) && Plain(ALGORITHM_FIELD)
  {
  }

  lemma ShortNamesArePlain()
    ensures Plain(EVENT_KEY_FIELD) && Plain(RECORD_TYPE_FIELD) && Plain(VERSION_FIELD)
  {
  }

  lemma ConstantsArePlain()
    ensures Plain(PROFILE) && |PROFILE| <= 64 && Plain(ALGORITHM) && |ALGORITHM| <= 64 && Plain(VERSION) && |VERSION| <= 64
  {
  }

  lemma DecisionTypesArePlain()
    ensures Plain(TypeName(AccessDecision)) && Plain(TypeName(PolicyChange)) && Plain(TypeName(SecurityAction))
  {
  }

  lemma TypeNameIsPlain(r: RecordType)
    ensures Plain(TypeName(r)) && |TypeName(r)| <= 64
  {
    DecisionTypesArePlain();
  }

  lemma FieldIsShort(v: Commitment, f: Field)
    requires WellFormed(v) && f in FieldsOf(v)
    ensures |RenderField(f)| <= 92
  {
    FieldNamesDiffer();
    LongNamesArePlain();
    ShortNamesArePlain();
    ConstantsArePlain();
    TypeNameIsPlain(v.recordType);
    FieldIsOneOfSix(v, f);
    assert Plain(v.commitmentHash) && Plain(v.eventKey);
    PlainQuotesItself(f.name);
    PlainQuotesItself(f.text);
  }

  lemma {:induction false} RenderedLength(fs: seq<Field>)
    requires forall f :: f in fs ==> |RenderField(f)| <= 92
    ensures |RenderFields(fs)| <= 93 * |fs|
    decreases |fs|
  {
    if |fs| > 1 {
      assert forall f :: f in fs[1..] ==> f in fs;
      RenderedLength(fs[1..]);
    }
  }

  /** Parsing undoes serialization, whatever the order of the keys; the limit of 2048
      characters is never in the way. */
  lemma AnyOrderParses(fs: seq<Field>, v: Commitment)
    requires WellFormed(v) && Reordered(fs, v)
    ensures ParseCommitment(Render(fs)) == Some(v)
  {
    forall f ensures f in fs ==> |RenderField(f)| <= 92 {
      ReorderedHasFields(fs, v, f);
      if f in fs {
        FieldIsShort(v, f);
      }
    }
    ReorderedHasFields(fs, v, Field([], []));
    RenderedLength(fs);
    RenderedObjectReads(fs);
    ReorderedHasProperties(fs, v);
    AcceptedIff(Render(fs), v);
  }

  lemma SerializedParses(v: Commitment)
    requires WellFormed(v)
    ensures ParseCommitment(Serialize(v)) == Some(v)
  {
    AnyOrderParses(FieldsOf(v), v);
  }

  /** Accepted values are well formed, and equal serializations come from equal values. */
  lemma SerializeIsInjective(v: Commitment, w: Commitment)
    requires WellFormed(v) && WellFormed(w) && Serialize(v) == Serialize(w)
    ensures v == w
  {
    SerializedParses(v);
    SerializedParses(w);
  }
}
