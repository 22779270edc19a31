/** Where issued anchors fail: an entry is hashed without its hash and loaded with it, so
    some entries are accepted that can never be read back; and a tuple in the metadata is
    read back as a list, so its anchor is refused although the entry loads. */
module AnchorLimits {
  import opened Wrappers
  import opened CanonicalJson
  import opened CanonicalSize
  import opened Dicts
  import opened AnchorModels
  import opened PythonValues
  import opened AnchorLog
  import opened AnchorAppends

  /** Sizes are the lengths of the UTF-8 forms of canonical texts. */
  ghost predicate Measures(log: Log) { forall v :: log.size(v) == ByteLength(v) }

  /** The request with a note of `n` characters. */
  function Noted(q: Request, n: nat): Request { q.(metadata := map["note" := PyStr(Filler(n))]) }

  lemma NotedNote(q: Request, n: nat)
    ensures Canon(PyDict(Noted(q, n).metadata)).Some? && Note(Noted(q, n)) == map["note" := Str(Filler(n))]
  {
    assert Canon(PyStr(Filler(n))) == Some(Str(Filler(n)));
  }

  lemma NoteBytes(n: nat)
    ensures ByteLength(Obj(map["note" := Str(Filler(n))])) == ByteLength(Obj(map["note" := Str(Filler(0))])) + n
  {
    hide ByteLength;
    AddField(map[], "note", Str(Filler(n)));
    AddField(map[], "note", Str(Filler(0)));
    FillerString(n);
    FillerString(0);
  }

  lemma FillerString(n: nat)
    ensures ByteLength(Str(Filler(n))) == n + 2
  {
    FillerBytes(n);
  }

  /** The payload grows with its note, character by character. */
  lemma PayloadBytes(log: Log, entries: seq<Dict>, q: Request, digest: Dict, n: nat)
    ensures ByteLength(Obj(Unhashed(log, entries, Noted(q, n), digest))) ==
            ByteLength(Obj(Unhashed(log, entries, Noted(q, 0), digest))) + n
  {
    hide ByteLength, Base, Note, Canon;
    var bare := With(With(Base(log, entries, q, digest), "artifact_type", MaybeStr(q.artifactType)),
                     "artifact_id", MaybeStr(q.artifactId));
    SameBase(log, entries, q, digest, n);
    SameBase(log, entries, q, digest, 0);
    BaseLacks(log, entries, q, digest);
    NoMetadata(log, entries, q, digest);
    NotedNote(q, n);
    NotedNote(q, 0);
    AddField(bare, "metadata", Obj(Note(Noted(q, n))));
    AddField(bare, "metadata", Obj(Note(Noted(q, 0))));
    NoteBytes(n);
  }

  lemma SameBase(log: Log, entries: seq<Dict>, q: Request, digest: Dict, n: nat)
    ensures Base(log, entries, Noted(q, n), digest) == Base(log, entries, q, digest)
  {
  }

  lemma NoMetadata(log: Log, entries: seq<Dict>, q: Request, digest: Dict)
    ensures "metadata" !in With(With(Base(log, entries, q, digest), "artifact_type", MaybeStr(q.artifactType)),
                                "artifact_id", MaybeStr(q.artifactId))
  {
  }

  /** The line is longer than what was hashed. */
  lemma LineIsLonger(log: Log, entries: seq<Dict>, q: Request, digest: Dict)
    ensures ByteLength(Obj(NewEntry(log, entries, q, digest))) > ByteLength(Obj(Unhashed(log, entries, q, digest)))
  {
    hide ByteLength, Unhashed;
    var e := Unhashed(log, entries, q, digest);
    NewEntryPayload(log, entries, q, digest);
    assert "entry_hash" !in Payload(e);
    AddField(e, "entry_hash", EntryHash(log, e));
  }

  /** A log that accepts a request with an empty note accepts one whose line does not load,
      and ends with it. */
  lemma OversizedEntryExists(log: Log, lines: seq<Line>, q: Request, later: seq<Request>) returns (big: Request)
    requires Measures(log) && Accepts(log, lines, Noted(q, 0))
    ensures Accepts(log, lines, big)
    ensures log.size(Obj(NewEntry(log, EntriesOf(lines), big, Normalize(big.digest).value))) > MAX_BYTES
    ensures !Usable(log, Appended(log, lines, big))
    ensures AppendAll(log, Appended(log, lines, big), later) == Appended(log, lines, big)
  {
    hide ByteLength, Unhashed, Usable, EntriesOf, Normalize, NewEntry, AppendAll, Canon;
    var entries, digest := EntriesOf(lines), Normalize(q.digest).value;
    NewEntryPayload(log, entries, Noted(q, 0), digest);
    var n := MAX_BYTES - ByteLength(Obj(Unhashed(log, entries, Noted(q, 0), digest)));
    big := Noted(q, n);
    NotedNote(q, n);
    PayloadBytes(log, entries, q, digest, n);
    NewEntryPayload(log, entries, big, digest);
    LineIsLonger(log, entries, big, digest);
    OversizedEntryEndsLog(log, lines, big, later);
  }

  // ------------------------------------------------------------ such a log

  const SAMPLE_DIGEST: Dict := map["algorithm" := Str("sha-256"), "value" := Str("00")]

  function SampleRequest(): Request { Request(Obj(SAMPLE_DIGEST), None, None, 0, map[], "anc_local_1") }

  lemma SampleDigest()
    ensures Normalize(Obj(SAMPLE_DIGEST)) == Some(SAMPLE_DIGEST) && ByteLength(Obj(SAMPLE_DIGEST)) <= 300
  {
    hide ByteLength;
    var m := map["algorithm" := Str("sha-256")];
    SmallBytes();
    PutBound(map[], "algorithm", Str("sha-256"));
    PutBound(m, "value", Str("00"));
    StringBytes("sha-256");
    StringBytes("00");
    assert SAMPLE_DIGEST == m["value" := Str("00")];
    NormalizeFixed(SAMPLE_DIGEST);
  }

  lemma ContractBytes(name: string)
    requires |name| <= 30
    ensures ByteLength(Obj(map["name" := Str(name), "version" := Str("v1")])) <= 400
  {
    hide ByteLength;
    var m := map["name" := Str(name)];
    SmallBytes();
    PutBound(map[], "name", Str(name));
    PutBound(m, "version", Str("v1"));
    StringBytes(name);
    StringBytes("v1");
    assert map["name" := Str(name), "version" := Str("v1")] == m["version" := Str("v1")];
  }

  lemma BaseBytes(log: Log)
    requires |log.uri| <= 10000 && |log.clock.format(0)| <= 10000
    ensures ByteLength(Obj(Base(log, [], SampleRequest(), SAMPLE_DIGEST))) <= 200_000
  {
    hide ByteLength;
    var q := SampleRequest();
    var m1 := map["contract" := ENTRY_CONTRACT];
    var m2 := m1["anchor_contract" := ANCHOR_CONTRACT];
    var m3 := m2["anchor_id" := Str(q.anchorId)];
    var m4 := m3["anchor_type" := Str(LOCAL)];
    var m5 := m4["artifact_digest" := Obj(SAMPLE_DIGEST)];
    var m6 := m5["anchored_at" := Str(log.clock.format(0))];
    var m7 := m6["log_uri" := Str(log.uri)];
    var m8 := m7["sequence" := Int(1)];
    SmallBytes();
    SampleDigest();
    ContractBytes("local_anchor_log_entry");
    ContractBytes("external_anchor");
    StringBytes(q.anchorId);
    StringBytes(LOCAL);
    StringBytes(log.clock.format(0));
    StringBytes(log.uri);
    PutBound(map[], "contract", ENTRY_CONTRACT);
    PutBound(m1, "anchor_contract", ANCHOR_CONTRACT);
    PutBound(m2, "anchor_id", Str(q.anchorId));
    PutBound(m3, "anchor_type", Str(LOCAL));
    PutBound(m4, "artifact_digest", Obj(SAMPLE_DIGEST));
    PutBound(m5, "anchored_at", Str(log.clock.format(0)));
    PutBound(m6, "log_uri", Str(log.uri));
    PutBound(m7, "sequence", Int(1));
    PutBound(m8, "previous_entry_hash", Null);
    assert Base(log, [], q, SAMPLE_DIGEST) == m8["previous_entry_hash" := Null];
  }

  /** An empty log with addresses and timestamps of ordinary length accepts such a request,
      so it can be ended. */
  lemma EmptyLogCanEnd(log: Log) returns (big: Request)
    requires Measures(log) && |log.uri| <= 10000 && |log.clock.format(0)| <= 10000
    ensures Accepts(log, [], big) && !Usable(log, Appended(log, [], big))
  {
    hide ByteLength, Base, Normalize, Canon, Note;
    var q := SampleRequest();
    var base := Base(log, [], q, SAMPLE_DIGEST);
    SampleDigest();
    BaseBytes(log);
    SameBase(log, [], q, SAMPLE_DIGEST, 0);
    var note := map["note" := Str(Filler(0))];
    PutBound(base, "metadata", Obj(note));
    PutBound(map[], "note", Str(Filler(0)));
    FillerString(0);
    SmallBytes();
    NotedNote(q, 0);
    assert "note" in note && NonEmptyDict(note) == Some(Obj(note));
    assert Unhashed(log, [], Noted(q, 0), SAMPLE_DIGEST) == base["metadata" := Obj(note)];
    NewEntryPayload(log, [], Noted(q, 0), SAMPLE_DIGEST);
    assert EntriesOf([]) == [];
    big := OversizedEntryExists(log, [], q, []);
  }

  // ------------------------------------------------------------- a tuple

  /** A request with a tuple among its metadata. */
  function TupleRequest(): Request { SampleRequest().(metadata := map["note" := PyTuple([])]) }

  lemma TupleNote()
    ensures Canon(PyDict(TupleRequest().metadata)).Some? && Note(TupleRequest()) == map["note" := Arr([])]
    ensures !Plain(TupleRequest()) && ByteLength(Obj(map["note" := Arr([])])) <= 100
  {
    assert CanonItems([]) == [];
    assert Canon(PyTuple([])) == Some(Arr([]));
    var m := TupleRequest().metadata;
    assert "note" in m && !TupleFree(m["note"]);
    AsciiBytes("[]");
    assert Canonical(Arr([])) == "[]";
    assert ByteLength(Arr([])) == 2;
    SmallBytes();
    PutBound(map[], "note", Arr([]));
  }

  lemma HashBytes(value: string)
    requires |value| <= 10000
    ensures ByteLength(Obj(HashSpec(value))) <= 70_000
  {
    hide ByteLength;
    var m1 := map["algorithm" := Str("sha-256")];
    var m2 := m1["canonicalization" := Str("ACTENON-JCS-STRICT-1")];
    SmallBytes();
    StringBytes("sha-256");
    StringBytes("ACTENON-JCS-STRICT-1");
    StringBytes(value);
    PutBound(map[], "algorithm", Str("sha-256"));
    PutBound(m1, "canonicalization", Str("ACTENON-JCS-STRICT-1"));
    PutBound(m2, "value", Str(value));
    assert HashSpec(value) == m2["value" := Str(value)];
  }

  /** On an empty log the anchor of that request is issued, the log stays usable, and the
      anchor never verifies, now or after any later appends that leave the log usable. */
  lemma TupleAnchorRefused(log: Log, later: seq<Request>)
    requires Sound(log) && Measures(log) && |log.uri| <= 10000 && |log.clock.format(0)| <= 10000
    requires forall v :: |log.h(v)| <= 10000
    ensures var q := TupleRequest();
            var a := Issued(log, [], q, SAMPLE_DIGEST);
            var after := Appended(log, [], q);
            && Accepts(log, [], q) && Usable(log, after) && !Verifies(log, EntriesOf(after), a, q.digest)
            && (Usable(log, AppendAll(log, after, later)) ==>
                  !Verifies(log, EntriesOf(AppendAll(log, after, later)), a, q.digest))
  {
    hide ByteLength, Base, Normalize, Canon, Note, Usable, Verifies, Plain, AppendAll, Issued;
    var q := TupleRequest();
    SampleDigest();
    TupleNote();
    NothingLogged(log);
    TupleEntrySize(log);
    NewEntryPayload(log, [], q, SAMPLE_DIGEST);
    assert Accepts(log, [], q);
    IssuedVerifiesIff(log, [], q);
    IssuedAnchorsKeepVerifying(log, [], q, later);
  }

  lemma NothingLogged(log: Log)
    ensures EntriesOf([]) == [] && Usable(log, [])
  {
  }

  lemma TupleEntrySize(log: Log)
    requires |log.uri| <= 10000 && |log.clock.format(0)| <= 10000 && forall v :: |log.h(v)| <= 10000
    ensures var q := TupleRequest();
            && ByteLength(Obj(Unhashed(log, [], q, SAMPLE_DIGEST))) <= MAX_BYTES
            && ByteLength(Obj(NewEntry(log, [], q, SAMPLE_DIGEST))) <= MAX_BYTES
  {
    hide ByteLength, Base, Note, HashSpec;
    var q := TupleRequest();
    var base, note := Base(log, [], SampleRequest(), SAMPLE_DIGEST), map["note" := Arr([])];
    BaseBytes(log);
    TupleNote();
    TupleBase(log);
    PutBound(base, "metadata", Obj(note));
    assert "note" in note && NonEmptyDict(note) == Some(Obj(note));
    var e := Unhashed(log, [], q, SAMPLE_DIGEST);
    assert e == base["metadata" := Obj(note)];
    HashBytes(log.h(Obj(Payload(e))));
    PutBound(e, "entry_hash", EntryHash(log, e));
  }

  lemma TupleBase(log: Log)
    ensures Base(log, [], TupleRequest(), SAMPLE_DIGEST) == Base(log, [], SampleRequest(), SAMPLE_DIGEST)
  {
  }
}
