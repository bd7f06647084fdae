/** The two-key ledger refines a book with one entry per event key. */
module AuditLedger {
  import opened Json
  import opened AuditContract
  import opened AuditCodec

  // ----- Keys -----

  lemma AnchorKeyIsInjective(h: Text, h': Text)
    requires AnchorKey(h) == AnchorKey(h')
    ensures h == h'
  {
    assert AnchorKey(h)[6..] == h && AnchorKey(h')[6..] == h';
  }

  lemma AnchorIsNoCommitmentKey(h: Text, r: RecordType, h': Text)
    ensures AnchorKey(h) != CommitmentKey(r, h')
  {
    assert AnchorKey(h)[0] == 0x65 && CommitmentKey(r, h')[0] == 0x61;
  }

  lemma CommitmentKeyParts(r: RecordType, h: Text)
    ensures |CommitmentKey(r, h)| == 7 + |TypeName(r)| + |h|
    ensures CommitmentKey(r, h)[7 + |TypeName(r)|..] == h
    ensures CommitmentKey(r, h)[6..6 + |TypeName(r)|] == TypeName(r)
  {
  }

  lemma CommitmentKeyIsInjective(r: RecordType, h: Text, r': RecordType, h': Text)
    requires |h| == |h'| && CommitmentKey(r, h) == CommitmentKey(r', h')
    ensures r == r' && h == h'
  {
    CommitmentKeyParts(r, h);
    CommitmentKeyParts(r', h');
    TypeNameIsInjective(r, h);
    TypeNameIsInjective(r', h');
  }

  // ----- Representation -----

  /** The entry's value and anchor are on the ledger and point to each other. */
  predicate HasEntry(l: Ledger, v: Commitment) {
    && KeyOf(v) in l && l[KeyOf(v)] == Serialize(v)
    && AnchorKey(v.eventKey) in l && l[AnchorKey(v.eventKey)] == KeyOf(v)
  }

  predicate IsEntryKey(book: Book, k: Text) {
    exists h :: h in book && (k == KeyOf(book[h]) || k == AnchorKey(h))
  }

  /** The ledger holds the two keys of every entry of the book and nothing else. */
  predicate Represents(l: Ledger, book: Book) {
    && (forall h :: h in book ==> WellFormed(book[h]) && book[h].eventKey == h && HasEntry(l, book[h]))
    && (forall k :: k in l ==> IsEntryKey(book, k))
  }

  lemma AnchorIffEntry(l: Ledger, book: Book, h: Text)
    requires Represents(l, book)
    ensures AnchorKey(h) in l <==> h in book
  {
    if AnchorKey(h) in l {
      assert IsEntryKey(book, AnchorKey(h));
      var g :| g in book && (AnchorKey(h) == KeyOf(book[g]) || AnchorKey(h) == AnchorKey(g));
      AnchorIsNoCommitmentKey(h, book[g].recordType, g);
      AnchorKeyIsInjective(h, g);
    }
  }

  lemma CommitmentIffEntry(l: Ledger, book: Book, r: RecordType, h: Text)
    requires Represents(l, book) && IsHash(h)
    ensures CommitmentKey(r, h) in l <==> h in book && book[h].recordType == r
  {
    var k := CommitmentKey(r, h);
    if k in l {
      assert IsEntryKey(book, k);
      var g :| g in book && (k == KeyOf(book[g]) || k == AnchorKey(g));
      AnchorIsNoCommitmentKey(g, r, h);
      CommitmentKeyIsInjective(r, h, book[g].recordType, g);
    }
  }

  // ----- Refinement -----

  lemma ValuesAreNonEmpty(v: Commitment)
    ensures |Serialize(v)| > 0 && |KeyOf(v)| > 0
  {
  }

  lemma KnownEntryRefines(l: Ledger, book: Book, v: Commitment)
    requires Represents(l, book) && WellFormed(v) && v.eventKey in book
    ensures var w := book[v.eventKey];
            && GetState(l, AnchorKey(v.eventKey)) == KeyOf(w)
            && (KeyOf(w) == KeyOf(v) <==> w.recordType == v.recordType)
            && (w.recordType == v.recordType ==> GetState(l, KeyOf(v)) == Serialize(w))
            && (Serialize(w) == Serialize(v) <==> w == v)
            && |KeyOf(w)| > 0 && |Serialize(w)| > 0
  {
    var w := book[v.eventKey];
    assert HasEntry(l, w);
    ValuesAreNonEmpty(w);
    if KeyOf(w) == KeyOf(v) {
      CommitmentKeyIsInjective(w.recordType, w.eventKey, v.recordType, v.eventKey);
    }
    if Serialize(w) == Serialize(v) {
      SerializeIsInjective(w, v);
    }
  }

  lemma NewKeysAreFree(l: Ledger, book: Book, v: Commitment)
    requires Represents(l, book) && WellFormed(v) && v.eventKey !in book
    ensures KeyOf(v) !in l && AnchorKey(v.eventKey) !in l && KeyOf(v) != AnchorKey(v.eventKey)
  {
    AnchorIffEntry(l, book, v.eventKey);
    CommitmentIffEntry(l, book, v.recordType, v.eventKey);
    AnchorIsNoCommitmentKey(v.eventKey, v.recordType, v.eventKey);
  }

  function Written(l: Ledger, v: Commitment): Ledger {
    l[KeyOf(v) := Serialize(v)][AnchorKey(v.eventKey) := KeyOf(v)]
  }

  lemma WritingKeepsEntry(l: Ledger, v: Commitment, w: Commitment)
    requires KeyOf(v) !in l && AnchorKey(v.eventKey) !in l && HasEntry(l, w)
    ensures HasEntry(Written(l, v), w)
  {
  }

  lemma WritingAddsEntryKeys(l: Ledger, book: Book, v: Commitment, k: Text)
    requires v.eventKey !in book && k in Written(l, v) && (k in l ==> IsEntryKey(book, k))
    ensures IsEntryKey(book[v.eventKey := v], k)
  {
    var book' := book[v.eventKey := v];
    if k == KeyOf(v) || k == AnchorKey(v.eventKey) {
      assert v.eventKey in book' && book'[v.eventKey] == v;
    } else {
      var h :| h in book && (k == KeyOf(book[h]) || k == AnchorKey(h));
      assert h in book' && book'[h] == book[h];
    }
  }

  lemma NewEntryIsRepresented(l: Ledger, book: Book, v: Commitment)
    requires Represents(l, book) && WellFormed(v) && v.eventKey !in book
    ensures KeyOf(v) !in l && AnchorKey(v.eventKey) !in l
    ensures Represents(Written(l, v), book[v.eventKey := v])
  {
    NewKeysAreFree(l, book, v);
    var after, book' := Written(l, v), book[v.eventKey := v];
    forall h | h in book' ensures WellFormed(book'[h]) && book'[h].eventKey == h && HasEntry(after, book'[h]) {
      if h != v.eventKey {
        WritingKeepsEntry(l, v, book[h]);
      }
    }
    forall k | k in after ensures IsEntryKey(book', k) {
      WritingAddsEntryKeys(l, book, v, k);
    }
  }

  /** Each submission has on the ledger the outcome it has in the book; in particular the
      state is never found inconsistent. */
  lemma CommitRefinesEnter(l: Ledger, book: Book, input: Text)
    requires Represents(l, book)
    ensures Commit(l, input).1 == Enter(book, input).1
    ensures Represents(Commit(l, input).0, Enter(book, input).0)
    ensures Commit(l, input).1 != InconsistentState
  {
    if ParseCommitment(input).Some? {
      var v := ParseCommitment(input).value;
      AcceptedIff(input, v);
      if v.eventKey in book {
        KnownEntryRefines(l, book, v);
      } else {
        NewEntryIsRepresented(l, book, v);
      }
    }
  }

  lemma {:induction false} RunRefinesBook(l: Ledger, book: Book, inputs: seq<Text>)
    requires Represents(l, book)
    ensures Outcomes(l, inputs) == BookOutcomes(book, inputs)
    ensures Represents(CommitAll(l, inputs), EnterAll(book, inputs))
    decreases |inputs|
  {
    if |inputs| != 0 {
      CommitRefinesEnter(l, book, inputs[0]);
      RunRefinesBook(Commit(l, inputs[0]).0, Enter(book, inputs[0]).0, inputs[1..]);
    }
  }

  /** From an empty ledger no run of submissions ever reports INCONSISTENT_STATE. */
  lemma {:induction false} InconsistencyIsUnreachable(l: Ledger, book: Book, inputs: seq<Text>)
    requires Represents(l, book)
    ensures InconsistentState !in Outcomes(l, inputs)
    decreases |inputs|
  {
    if |inputs| != 0 {
      CommitRefinesEnter(l, book, inputs[0]);
      InconsistencyIsUnreachable(Commit(l, inputs[0]).0, Enter(book, inputs[0]).0, inputs[1..]);
    }
  }

  /** Anchors and commitments correspond one to one: an event key has an anchor exactly when
      it has a commitment of some record type, and of one type only. */
  lemma AnchorsMatchCommitments(inputs: seq<Text>, h: Text, r: RecordType, r': RecordType)
    requires IsHash(h)
    ensures var l := CommitAll(map[], inputs);
            && (AnchorKey(h) in l ==> exists q: RecordType :: CommitmentKey(q, h) in l && l[AnchorKey(h)] == CommitmentKey(q, h))
            && (CommitmentKey(r, h) in l ==> AnchorKey(h) in l && l[AnchorKey(h)] == CommitmentKey(r, h))
            && (CommitmentKey(r, h) in l && CommitmentKey(r', h) in l ==> r == r')
  {
    RunRefinesBook(map[], map[], inputs);
    var l, book := CommitAll(map[], inputs), EnterAll(map[], inputs);
    AnchorIffEntry(l, book, h);
    CommitmentIffEntry(l, book, r, h);
    CommitmentIffEntry(l, book, r', h);
    if h in book {
      assert HasEntry(l, book[h]);
      assert CommitmentKey(book[h].recordType, h) in l;
    }
  }

  // ----- Write once -----

  /** A key once written keeps its bytes through every later submission. */
  lemma {:induction false} WrittenOnce(l: Ledger, inputs: seq<Text>, k: Text)
    requires k in l && |l[k]| > 0
    ensures k in CommitAll(l, inputs) && CommitAll(l, inputs)[k] == l[k]
    decreases |inputs|
  {
    if |inputs| != 0 {
      WrittenOnce(Commit(l, inputs[0]).0, inputs[1..], k);
    }
  }

  // ----- Resubmission -----

  lemma {:induction false} MembersDetermineFields(fs: seq<Field>, gs: seq<Field>)
    requires MembersOf(fs) == MembersOf(gs)
    ensures fs == gs
    decreases |fs|
  {
    assert |fs| == |MembersOf(fs)| == |MembersOf(gs)| == |gs|;
    if |fs| != 0 {
      assert MembersOf(fs)[0] == MembersOf(gs)[0];
      assert MembersOf(fs)[1..] == MembersOf(fs[1..]) && MembersOf(gs)[1..] == MembersOf(gs[1..]);
      MembersDetermineFields(fs[1..], gs[1..]);
      assert fs == [fs[0]] + fs[1..] && gs == [gs[0]] + gs[1..];
    }
  }

  lemma ReadFindsEntry(l: Ledger, book: Book, recordType: Text, h: Text)
    requires Represents(l, book) && Read(l, recordType, h).Found?
    ensures h in book && TypeName(book[h].recordType) == recordType && Read(l, recordType, h).text == Serialize(book[h])
  {
    TypeNameIsInjective(AccessDecision, recordType);
    CommitmentIffEntry(l, book, TypeNamed(recordType).value, h);
    assert HasEntry(l, book[h]);
  }

  /** What a read returned, submitted again with its keys in any order, is a duplicate and
      changes nothing. */
  lemma ResubmissionIsDuplicate(l: Ledger, book: Book, recordType: Text, h: Text, fs: seq<Field>, gs: seq<Field>)
    requires Represents(l, book) && Read(l, recordType, h) == Found(Render(gs)) && |gs| > 0
    requires multiset(fs) == multiset(gs)
    ensures TypeNamed(recordType).Some?
    ensures Commit(l, Render(fs)) == (l, Duplicate(CommitmentKey(TypeNamed(recordType).value, h)))
  {
    ReadFindsEntry(l, book, recordType, h);
    var v := book[h];
    RenderedObjectReads(gs);
    RenderedObjectReads(FieldsOf(v));
    MembersDetermineFields(gs, FieldsOf(v));
    AnyOrderParses(fs, v);
    KnownEntryRefines(l, book, v);
    TypeNameIsInjective(v.recordType, recordType);
  }

  // ----- Answers on the ledger -----

  /** A submission with the six fields of a commitment, in any order, is written if and only if
      its event key has no anchor; otherwise the ledger stays, and the answer says whether the
      event key has another record type, other bytes or the same ones. */
  lemma CommitIff(l: Ledger, book: Book, v: Commitment, fs: seq<Field>)
    requires Represents(l, book) && WellFormed(v) && multiset(fs) == multiset(FieldsOf(v))
    ensures var (after, outcome) := Commit(l, Render(fs));
            var key, anchor := KeyOf(v), AnchorKey(v.eventKey);
            && (outcome == Created(key) <==> anchor !in l)
            && (outcome == ConflictingEventAnchor <==> anchor in l && key !in l)
            && (outcome == ConflictingCommitment <==> key in l && l[key] != Serialize(v))
            && (outcome == Duplicate(key) <==> key in l && l[key] == Serialize(v))
            && after == if anchor in l then l else l[key := Serialize(v)][anchor := key]
  {
    AnyOrderParses(fs, v);
    AnchorIffEntry(l, book, v.eventKey);
    CommitmentIffEntry(l, book, v.recordType, v.eventKey);
    if v.eventKey in book {
      KnownEntryRefines(l, book, v);
    } else {
      NewKeysAreFree(l, book, v);
    }
  }

  /** A query is valid if and only if it names one of the five record types and 64 lower-case
      hexadecimal digits. */
  predicate ValidQuery(recordType: Text, eventKey: Text) {
    && recordType in [T("access-decision"), T("certificate-lifecycle"), T("policy-change"), T("security-action"),
                      T("trust-transition")]
    && |eventKey| == 64
    && forall i :: 0 <= i < 64 ==> 0x30 <= eventKey[i] <= 0x39 || 0x61 <= eventKey[i] <= 0x66
  }

  /** A valid query finds the entry of its event key if and only if it has that record type. */
  lemma ReadIff(l: Ledger, book: Book, recordType: Text, h: Text)
    requires Represents(l, book)
    ensures var recorded := h in book && TypeName(book[h].recordType) == recordType;
            Read(l, recordType, h) ==
            if !ValidQuery(recordType, h) then InvalidQuery else if recorded then Found(Serialize(book[h])) else NotFound
  {
    if ValidQuery(recordType, h) {
      var r :| r in [AccessDecision, CertificateLifecycle, PolicyChange, SecurityAction, TrustTransition]
               && TypeName(r) == recordType;
      TypeNameIsInjective(r, recordType);
      CommitmentIffEntry(l, book, r, h);
      if h in book {
        TypeNameIsInjective(book[h].recordType, recordType);
        ValuesAreNonEmpty(book[h]);
        assert HasEntry(l, book[h]);
      }
    }
  }

  // ----- The contract on its state -----

  class AuditState {
    var state: Ledger
    ghost var book: Book

    ghost predicate Valid()
      reads this
    {
      Represents(state, book)
    }

    constructor ()
      ensures Valid() && state == map[]
    {
      state, book := map[], map[];
    }

    /** `CommitCommitment` */
    method CommitCommitment(input: Text) returns (outcome: Outcome)
      requires Valid()
      modifies this
      ensures Valid()
      ensures (state, outcome) == Commit(old(state), input)
      ensures (book, outcome) == Enter(old(book), input)
    {
      CommitRefinesEnter(state, book, input);
      var parsed := ParseCommitment(input);
      if parsed.None? {
        return InvalidCommitment;
      }
      var v := parsed.value;
      var key, anchorKey := KeyOf(v), AnchorKey(v.eventKey);
      var expectedState := Serialize(v);
      var currentState, currentAnchor := GetState(state, key), GetState(state, anchorKey);
      if |currentState| > 0 || |currentAnchor| > 0 {
        if |currentAnchor| > 0 && currentAnchor != key {
          return ConflictingEventAnchor;
        }
        if |currentState| == 0 || |currentAnchor| == 0 {
          return InconsistentState;
        }
        if currentState != expectedState {
          return ConflictingCommitment;
        }
        return Duplicate(key);
      }
      book := Enter(book, input).0;
      state := state[key := expectedState];
      state := state[anchorKey := key];
      return Created(key);
    }

    /** `ReadCommitment`: the serialized book entry. */
    method ReadCommitment(recordType: Text, eventKey: Text) returns (answer: Answer)
      requires Valid()
      ensures answer == Read(state, recordType, eventKey)
      ensures answer.Found? ==> eventKey in book && answer.text == Serialize(book[eventKey])
                                && TypeName(book[eventKey].recordType) == recordType
    {
      if Read(state, recordType, eventKey).Found? {
        ReadFindsEntry(state, book, recordType, eventKey);
      }
      var named := TypeNamed(recordType);
      if named.None? || !IsHash(eventKey) {
        return InvalidQuery;
      }
      var value := GetState(state, CommitmentKey(named.value, eventKey));
      if |value| == 0 {
        return NotFound;
      }
      return Found(value);
    }
  }
}
