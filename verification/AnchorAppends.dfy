/** Appending to the anchor log and verifying the anchors it issued. */
module AnchorAppends {
  import opened Wrappers
  import opened CanonicalJson
  import opened Dicts
  import opened AnchorModels
  import opened PythonValues
  import opened AnchorLog
  import opened CanonicalSize

  // ------------------------------------------------------------- the file

  /** The entries of a file, blank lines skipped. */
  function EntriesOf(lines: seq<Line>): (r: seq<Dict>) {
    if lines == [] then []
    else
      var last := lines[|lines| - 1];
      EntriesOf(lines[..|lines| - 1]) + (if last.Entry? then [last.entry] else [])
  }

  /** The loader takes a line that is blank, or an object of admissible size. */
  predicate Loads(log: Log, line: Line) {
    line.Blank? || (line.Entry? && log.size(Obj(line.entry)) <= MAX_BYTES)
  }

  ghost predicate Usable(log: Log, lines: seq<Line>) {
    (forall i :: 0 <= i < |lines| ==> Loads(log, lines[i])) && ValidChain(log, EntriesOf(lines))
  }

  /** What an anchor is asked for; the anchor id is fresh and the time has been read. */
  datatype Request = Request(
    digest: Json, artifactType: Option<string>, artifactId: Option<string>, anchoredAt: int, metadata: PyMap,
    anchorId: string)

  /** The metadata as it is written: tuples as lists. */
  function Note(q: Request): (r: Dict) {
    var written := Canon(PyDict(q.metadata));
    if written.Some? then written.value.fields else map[]
  }

  function NonEmptyDict(d: Dict): Option<Json> { if d == map[] then None else Some(Obj(d)) }

  function Base(log: Log, entries: seq<Dict>, q: Request, digest: Dict): Dict {
    map["contract" := ENTRY_CONTRACT, "anchor_contract" := ANCHOR_CONTRACT, "anchor_id" := Str(q.anchorId),
        "anchor_type" := Str(LOCAL), "artifact_digest" := Obj(digest),
        "anchored_at" := Str(log.clock.format(q.anchoredAt)),
        "log_uri" := Str(log.uri), "sequence" := Int(|entries| + 1),
        "previous_entry_hash" := if entries == [] then Null else Get(entries[|entries| - 1], "entry_hash")]
  }

  function Unhashed(log: Log, entries: seq<Dict>, q: Request, digest: Dict): Dict {
    With(With(With(Base(log, entries, q, digest), "artifact_type", MaybeStr(q.artifactType)),
              "artifact_id", MaybeStr(q.artifactId)),
         "metadata", NonEmptyDict(Note(q)))
  }

  function NewEntry(log: Log, entries: seq<Dict>, q: Request, digest: Dict): Dict {
    var e := Unhashed(log, entries, q, digest);
    e["entry_hash" := EntryHash(log, e)]
  }

  /** The anchor returned: made from the entry in memory, with the caller's metadata. */
  function Issued(log: Log, entries: seq<Dict>, q: Request, digest: Dict): ExternalAnchor {
    ExternalAnchor(q.anchorId, LOCAL, digest, q.anchoredAt, log.uri, |entries| + 1,
                   EntryHash(log, Unhashed(log, entries, q, digest)).fields,
                   if entries == [] then None else Some(EntryHash(log, entries[|entries| - 1]).fields),
                   q.artifactType, q.artifactId, q.metadata)
  }

  // -------------------------------------------------------- the new entry

  lemma BaseFields(log: Log, entries: seq<Dict>, q: Request, digest: Dict)
    ensures var d := Base(log, entries, q, digest);
            && Get(d, "contract") == ENTRY_CONTRACT && Get(d, "anchor_id") == Str(q.anchorId)
            && Get(d, "anchor_type") == Str(LOCAL)
            && Get(d, "artifact_digest") == Obj(digest) && Get(d, "anchored_at") == Str(log.clock.format(q.anchoredAt))
            && Get(d, "log_uri") == Str(log.uri) && Get(d, "sequence") == Int(|entries| + 1)
            && Get(d, "previous_entry_hash") ==
               (if entries == [] then Null else Get(entries[|entries| - 1], "entry_hash"))
  {
  }

  lemma BaseLacks(log: Log, entries: seq<Dict>, q: Request, digest: Dict)
    ensures var d := Base(log, entries, q, digest);
            && Get(d, "artifact_type") == Null && Get(d, "artifact_id") == Null && Get(d, "metadata") == Null
            && "entry_hash" !in d
  {
  }

  /** Reading the new entry at a key. */
  function Layered(log: Log, entries: seq<Dict>, q: Request, digest: Dict, k: string): Json {
    if k == "entry_hash" then EntryHash(log, Unhashed(log, entries, q, digest))
    else if k == "metadata" && Note(q) != map[] then Obj(Note(q))
    else if k == "artifact_id" && q.artifactId.Some? then Str(q.artifactId.value)
    else if k == "artifact_type" && q.artifactType.Some? then Str(q.artifactType.value)
    else Get(Base(log, entries, q, digest), k)
  }

  lemma NewEntryReads(log: Log, entries: seq<Dict>, q: Request, digest: Dict)
    ensures forall k :: Get(NewEntry(log, entries, q, digest), k) == Layered(log, entries, q, digest, k)
  {
    hide With, Base, EntryHash;
    var d := Base(log, entries, q, digest);
    var d1 := With(d, "artifact_type", MaybeStr(q.artifactType));
    var d2 := With(d1, "artifact_id", MaybeStr(q.artifactId));
    forall k ensures Get(NewEntry(log, entries, q, digest), k) == Layered(log, entries, q, digest, k) {
      GetWith(d, "artifact_type", MaybeStr(q.artifactType), k);
      GetWith(d1, "artifact_id", MaybeStr(q.artifactId), k);
      GetWith(d2, "metadata", NonEmptyDict(Note(q)), k);
    }
  }

  /** Keys the optional fields do not touch. */
  lemma LayeredBase(log: Log, entries: seq<Dict>, q: Request, digest: Dict, k: string)
    requires k !in {"entry_hash", "metadata", "artifact_id", "artifact_type"}
    ensures Layered(log, entries, q, digest, k) == Get(Base(log, entries, q, digest), k)
  {
  }

  lemma NewEntryFields(log: Log, entries: seq<Dict>, q: Request, digest: Dict)
    ensures var e := NewEntry(log, entries, q, digest);
            && Get(e, "contract") == ENTRY_CONTRACT && Get(e, "anchor_id") == Str(q.anchorId)
            && Get(e, "anchor_type") == Str(LOCAL)
            && Get(e, "artifact_digest") == Obj(digest) && Get(e, "anchored_at") == Str(log.clock.format(q.anchoredAt))
            && Get(e, "log_uri") == Str(log.uri) && Get(e, "sequence") == Int(|entries| + 1)
            && Get(e, "previous_entry_hash") ==
               (if entries == [] then Null else Get(entries[|entries| - 1], "entry_hash"))
  {
    hide Base, EntryHash, NewEntry, Get, Layered;
    NewEntryReads(log, entries, q, digest);
    BaseFields(log, entries, q, digest);
    LayeredBase(log, entries, q, digest, "contract");
    LayeredBase(log, entries, q, digest, "anchor_id");
    LayeredBase(log, entries, q, digest, "anchor_type");
    LayeredBase(log, entries, q, digest, "artifact_digest");
    LayeredBase(log, entries, q, digest, "anchored_at");
    LayeredBase(log, entries, q, digest, "log_uri");
    LayeredBase(log, entries, q, digest, "sequence");
    LayeredBase(log, entries, q, digest, "previous_entry_hash");
  }

  lemma NewEntryExtras(log: Log, entries: seq<Dict>, q: Request, digest: Dict)
    ensures var e := NewEntry(log, entries, q, digest);
            && Get(e, "entry_hash") == EntryHash(log, Unhashed(log, entries, q, digest))
            && Get(e, "artifact_type") == (if q.artifactType.Some? then Str(q.artifactType.value) else Null)
            && Get(e, "artifact_id") == (if q.artifactId.Some? then Str(q.artifactId.value) else Null)
            && Get(e, "metadata") == (if Note(q) == map[] then Null else Obj(Note(q)))
  {
    hide Base, EntryHash, NewEntry, Get, Unhashed;
    NewEntryReads(log, entries, q, digest);
    BaseLacks(log, entries, q, digest);
  }

  lemma NewEntryPayload(log: Log, entries: seq<Dict>, q: Request, digest: Dict)
    ensures Payload(NewEntry(log, entries, q, digest)) == Unhashed(log, entries, q, digest)
    ensures Payload(Unhashed(log, entries, q, digest)) == Unhashed(log, entries, q, digest)
  {
    hide Base, EntryHash;
    BaseLacks(log, entries, q, digest);
    assert "entry_hash" !in Unhashed(log, entries, q, digest);
  }

  /** An append keeps the chain valid. */
  lemma AppendKeepsChain(log: Log, entries: seq<Dict>, q: Request, digest: Dict)
    requires ValidChain(log, entries) && Hashable(log, NewEntry(log, entries, q, digest))
    ensures ValidChain(log, entries + [NewEntry(log, entries, q, digest)])
  {
    hide EntryHash, NewEntry, Unhashed, Hashable, Get;
    var e, n := NewEntry(log, entries, q, digest), |entries|;
    var longer := entries + [e];
    NewEntryFields(log, entries, q, digest);
    NewEntryExtras(log, entries, q, digest);
    HashOfNew(log, entries, q, digest);
    forall i | 0 <= i < |longer| ensures EntryOk(log, longer, i) {
      if i < n {
        assert EntryOk(log, entries, i);
      } else if n > 0 {
        assert EntryOk(log, entries, n - 1);
      }
    }
  }

  lemma HashOfNew(log: Log, entries: seq<Dict>, q: Request, digest: Dict)
    ensures EntryHash(log, NewEntry(log, entries, q, digest)) == EntryHash(log, Unhashed(log, entries, q, digest))
  {
    hide NewEntry, Unhashed;
    NewEntryPayload(log, entries, q, digest);
  }

  lemma AllPresent(e: Dict)
    requires Get(e, "anchor_id") != Null && Get(e, "anchor_type") != Null && Get(e, "artifact_digest") != Null
    requires Get(e, "anchored_at") != Null && Get(e, "log_uri") != Null && Get(e, "sequence") != Null
    requires Get(e, "entry_hash") != Null
    ensures HasAnchorKeys(e)
  {
  }

  /** The anchor read off an entry depends on what it reads. */
  lemma AnchorOfReads(log: Log, e: Dict, a: ExternalAnchor)
    requires Get(e, "anchor_id") == Str(a.anchorId) && Get(e, "anchor_type") == Str(a.anchorType)
    requires Get(e, "log_uri") == Str(a.logUri)
    requires Get(e, "artifact_digest") == Obj(a.digest) && Normal(a.digest) && Get(e, "sequence") == Int(a.sequence)
    requires Get(e, "anchored_at") == Str(log.clock.format(a.anchoredAt)) && Get(e, "entry_hash") == Obj(a.entryHash)
    requires Get(e, "previous_entry_hash") == (if a.previousHash.Some? then Obj(a.previousHash.value) else Null)
    requires Get(e, "artifact_type") == (if a.artifactType.Some? then Str(a.artifactType.value) else Null)
    requires Get(e, "artifact_id") == (if a.artifactId.Some? then Str(a.artifactId.value) else Null)
    requires MetadataOf(Loaded(Get(e, "metadata"))) == Some(a.metadata)
    requires Sound(log)
    ensures EntryAnchor(log, e) == Some(a)
  {
    hide Normalize, Get, Normal, HasAnchorKeys, Loaded, MetadataOf;
    NormalizeFixed(a.digest);
    AllPresent(e);
  }

  /** The metadata as it will be read back. */
  function Reread(q: Request): PyMap { Loaded(Obj(Note(q))).fields }

  lemma NoteReads(q: Request)
    ensures MetadataOf(Loaded(if Note(q) == map[] then Null else Obj(Note(q)))) == Some(Reread(q))
  {
    if Note(q) != map[] {
      var k :| k in Note(q);
      assert k in Reread(q);
    } else {
      assert Reread(q) == map[];
    }
  }

  /** The anchor read off the new entry is the one issued, but with its metadata as read. */
  lemma NewEntryAnchor(log: Log, entries: seq<Dict>, q: Request, digest: Dict)
    requires Sound(log) && ValidChain(log, entries) && Normal(digest)
    ensures EntryAnchor(log, NewEntry(log, entries, q, digest)) ==
            Some(Issued(log, entries, q, digest).(metadata := Reread(q)))
  {
    hide NewEntry, Unhashed, Get, Normal, EntryHash, EntryAnchor, Sound, Loaded, Note, MetadataOf;
    var n := |entries|;
    NewEntryFields(log, entries, q, digest);
    NewEntryExtras(log, entries, q, digest);
    HashIsObject(log, Unhashed(log, entries, q, digest));
    if n > 0 {
      assert EntryOk(log, entries, n - 1);
      HashIsObject(log, entries[n - 1]);
    }
    NoteReads(q);
    AnchorOfReads(log, NewEntry(log, entries, q, digest), Issued(log, entries, q, digest).(metadata := Reread(q)));
  }

  lemma HashIsObject(log: Log, e: Dict)
    ensures EntryHash(log, e).Obj?
  {
  }

  lemma HashIsNormal(log: Log, e: Dict)
    requires Sound(log)
    ensures EntryHash(log, e).Obj? && Normal(EntryHash(log, e).fields)
  {
  }

  /** The anchors issued are those the wire form can carry. */
  lemma IssuedWellFormed(log: Log, entries: seq<Dict>, q: Request, digest: Dict)
    requires Sound(log) && Normal(digest) && q.anchorId != []
    ensures WellFormed(Issued(log, entries, q, digest))
  {
    hide EntryHash, Normal, Unhashed;
    HashIsNormal(log, Unhashed(log, entries, q, digest));
    if entries != [] {
      HashIsNormal(log, entries[|entries| - 1]);
    }
  }

  lemma DigestMatchesItself(q: Request)
    requires Normalize(q.digest).Some?
    ensures DigestsMatch(Obj(Normalize(q.digest).value), q.digest) == Some(true)
  {
    NormalizeFixed(Normalize(q.digest).value);
  }

  // ----------------------------------------------------------------- runs

  /** An append either adds one entry and issues its anchor, or changes nothing. */
  ghost predicate Accepts(log: Log, lines: seq<Line>, q: Request) {
    && Normalize(q.digest).Some? && Usable(log, lines) && Canon(PyDict(q.metadata)).Some?
    && Hashable(log, NewEntry(log, EntriesOf(lines), q, Normalize(q.digest).value))
  }

  ghost function Appended(log: Log, lines: seq<Line>, q: Request): seq<Line> {
    if Accepts(log, lines, q)
    then lines + [Entry(NewEntry(log, EntriesOf(lines), q, Normalize(q.digest).value))]
    else lines
  }

  ghost function AppendAll(log: Log, lines: seq<Line>, qs: seq<Request>): seq<Line> {
    if qs == [] then lines else Appended(log, AppendAll(log, lines, qs[..|qs| - 1]), qs[|qs| - 1])
  }

  lemma EntriesSnoc(lines: seq<Line>, e: Dict)
    ensures EntriesOf(lines + [Entry(e)]) == EntriesOf(lines) + [e]
  {
    assert (lines + [Entry(e)])[..|lines|] == lines;
  }

  /** After an accepted append the log is usable exactly when the whole entry, with its
      hash, still loads. */
  lemma AppendUsableIff(log: Log, lines: seq<Line>, q: Request)
    requires Accepts(log, lines, q)
    ensures var e := NewEntry(log, EntriesOf(lines), q, Normalize(q.digest).value);
            Usable(log, Appended(log, lines, q)) <==> log.size(Obj(e)) <= MAX_BYTES
  {
    hide NewEntry, Hashable, ValidChain, Normalize;
    var e := NewEntry(log, EntriesOf(lines), q, Normalize(q.digest).value);
    EntriesSnoc(lines, e);
    AppendKeepsChain(log, EntriesOf(lines), q, Normalize(q.digest).value);
    assert (lines + [Entry(e)])[|lines|] == Entry(e);
  }

  /** The metadata is its own normal form: no tuple that a list is read for. */
  ghost predicate Plain(q: Request) { TupleFree(PyDict(q.metadata)) }

  lemma RereadIff(q: Request)
    requires Canon(PyDict(q.metadata)).Some?
    ensures PyEqual(PyDict(Reread(q)), PyDict(q.metadata)) <==> Plain(q)
  {
    ReloadIff(PyDict(q.metadata));
  }

  /** The anchor issued by an accepted append verifies at once exactly when the whole entry
      still loads and its metadata holds no tuple. */
  lemma IssuedVerifiesIff(log: Log, lines: seq<Line>, q: Request)
    requires Sound(log)
    ensures Accepts(log, lines, q) ==>
              var digest := Normalize(q.digest).value;
              var e, a := NewEntry(log, EntriesOf(lines), q, digest), Issued(log, EntriesOf(lines), q, digest);
              var after := Appended(log, lines, q);
              && (Usable(log, after) <==> log.size(Obj(e)) <= MAX_BYTES)
              && EntriesOf(after) == EntriesOf(lines) + [e]
              && (Usable(log, after) ==> (Verifies(log, EntriesOf(after), a, q.digest) <==> Plain(q)))
  {
    hide NewEntry, Hashable, ValidChain, Normalize, EntryAnchor, DigestsMatch, EntryHash, Unhashed;
    hide Canon, PyEqual, Loaded, Plain, Reread;
    if Accepts(log, lines, q) {
      var digest := Normalize(q.digest).value;
      AppendUsableIff(log, lines, q);
      EntriesSnoc(lines, NewEntry(log, EntriesOf(lines), q, digest));
      NewEntryAnchor(log, EntriesOf(lines), q, digest);
      DigestMatchesItself(q);
      RereadIff(q);
    }
  }

  /** One entry whose payload fits the hash limit but whose line, with the hash added,
      does not fit the loader's: it is accepted, and no anchor can be verified or issued
      from then on. */
  lemma OversizedEntryEndsLog(log: Log, lines: seq<Line>, q: Request, later: seq<Request>)
    requires Accepts(log, lines, q)
    requires log.size(Obj(NewEntry(log, EntriesOf(lines), q, Normalize(q.digest).value))) > MAX_BYTES
    ensures var after := Appended(log, lines, q);
            !Usable(log, after) && AppendAll(log, after, later) == after
  {
    AppendUsableIff(log, lines, q);
    UnusableStays(log, Appended(log, lines, q), later);
  }

  /** The append, if it is accepted, leaves a line that loads. */
  ghost predicate Fits(log: Log, lines: seq<Line>, q: Request) {
    Accepts(log, lines, q) ==> log.size(Obj(NewEntry(log, EntriesOf(lines), q, Normalize(q.digest).value))) <= MAX_BYTES
  }

  ghost predicate FitsAt(log: Log, lines: seq<Line>, qs: seq<Request>, i: nat)
    requires i < |qs|
  {
    Fits(log, AppendAll(log, lines, qs[..i]), qs[i])
  }

  /** Sequential appends keep a usable log usable exactly as long as every accepted entry
      fits the loader's limit with its hash. */
  lemma {:induction false} RunUsableIff(log: Log, lines: seq<Line>, qs: seq<Request>)
    requires Usable(log, lines)
    ensures Usable(log, AppendAll(log, lines, qs)) <==>
            forall i :: 0 <= i < |qs| ==> FitsAt(log, lines, qs, i)
    decreases |qs|
  {
    hide Usable, FitsAt, Appended;
    if qs != [] {
      var n := |qs| - 1;
      RunUsableIff(log, lines, qs[..n]);
      forall i | 0 <= i < n ensures FitsAt(log, lines, qs[..n], i) == FitsAt(log, lines, qs, i) {
        FitsInFront(log, lines, qs, n, i);
      }
      LastStep(log, lines, qs);
    }
  }

  lemma FitsInFront(log: Log, lines: seq<Line>, qs: seq<Request>, n: nat, i: nat)
    requires i < n <= |qs|
    ensures FitsAt(log, lines, qs[..n], i) == FitsAt(log, lines, qs, i)
  {
    hide Fits;
    assert qs[..n][..i] == qs[..i];
  }

  lemma LastStep(log: Log, lines: seq<Line>, qs: seq<Request>)
    requires qs != []
    ensures Usable(log, AppendAll(log, lines, qs)) <==>
            Usable(log, AppendAll(log, lines, qs[..|qs| - 1])) && FitsAt(log, lines, qs, |qs| - 1)
  {
    hide Fits, Usable, Appended;
    UsableStep(log, AppendAll(log, lines, qs[..|qs| - 1]), qs[|qs| - 1]);
  }

  lemma UsableStep(log: Log, lines: seq<Line>, q: Request)
    ensures Usable(log, Appended(log, lines, q)) <==> Usable(log, lines) && Fits(log, lines, q)
  {
    hide Usable, Normalize, EntriesOf, NewEntry, Hashable;
    if Accepts(log, lines, q) {
      AppendUsableIff(log, lines, q);
    }
  }

  /** A log that fails validation is never extended. */
  lemma {:induction false} UnusableStays(log: Log, lines: seq<Line>, qs: seq<Request>)
    requires !Usable(log, lines)
    ensures AppendAll(log, lines, qs) == lines
    decreases |qs|
  {
    hide Usable;
    if qs != [] {
      UnusableStays(log, lines, qs[..|qs| - 1]);
    }
  }

  /** Growth changes no verdict on an anchor whose place was already there. */
  lemma VerifiesExtends(log: Log, entries: seq<Dict>, more: seq<Dict>, a: ExternalAnchor, digest: Json)
    requires ValidChain(log, entries) && ValidChain(log, entries + more) && 0 < a.sequence <= |entries|
    ensures Verifies(log, entries + more, a, digest) <==> Verifies(log, entries, a, digest)
  {
    hide ValidChain, EntryAnchor, DigestsMatch, SameAnchor;
  }

  lemma {:induction false} AppendAllExtends(log: Log, lines: seq<Line>, qs: seq<Request>) returns (more: seq<Dict>)
    ensures EntriesOf(AppendAll(log, lines, qs)) == EntriesOf(lines) + more
    decreases |qs|
  {
    hide NewEntry, Usable, EntriesOf, Normalize, Hashable;
    if qs == [] {
      return [];
    }
    var before, q := AppendAll(log, lines, qs[..|qs| - 1]), qs[|qs| - 1];
    more := AppendAllExtends(log, lines, qs[..|qs| - 1]);
    if Accepts(log, before, q) {
      var e := NewEntry(log, EntriesOf(before), q, Normalize(q.digest).value);
      EntriesSnoc(before, e);
      more := more + [e];
    }
  }

  /** As long as the log still loads, the anchor an append returned verifies after any number
      of later appends, also after a trip through its wire form, exactly when its metadata
      holds no tuple. */
  lemma IssuedAnchorsKeepVerifying(log: Log, lines: seq<Line>, q: Request, later: seq<Request>)
    requires Sound(log) && q.anchorId != []
    ensures Accepts(log, lines, q) && Usable(log, AppendAll(log, Appended(log, lines, q), later)) ==>
              var a := Issued(log, EntriesOf(lines), q, Normalize(q.digest).value);
              var end := EntriesOf(AppendAll(log, Appended(log, lines, q), later));
              && (Verifies(log, end, a, q.digest) <==> Plain(q))
              && FromDict(log.clock, ToDict(log.clock, a)) == Some(a)
  {
    hide NewEntry, Hashable, ValidChain, Normalize, Verifies, FromDict, ToDict, WellFormed, EntriesOf, AppendAll;
    hide Plain, Canon;
    var after := Appended(log, lines, q);
    if Accepts(log, lines, q) && Usable(log, AppendAll(log, after, later)) {
      if !Usable(log, after) {
        UnusableStays(log, after, later);
      }
      AcceptedKeepsVerifying(log, lines, q, later);
    }
  }

  lemma AcceptedKeepsVerifying(log: Log, lines: seq<Line>, q: Request, later: seq<Request>)
    requires Sound(log) && Accepts(log, lines, q) && q.anchorId != []
    requires Usable(log, Appended(log, lines, q)) && Usable(log, AppendAll(log, Appended(log, lines, q), later))
    ensures var a := Issued(log, EntriesOf(lines), q, Normalize(q.digest).value);
            var end := EntriesOf(AppendAll(log, Appended(log, lines, q), later));
            && (Verifies(log, end, a, q.digest) <==> Plain(q))
            && FromDict(log.clock, ToDict(log.clock, a)) == Some(a)
  {
    hide NewEntry, Hashable, ValidChain, Normalize, Verifies, FromDict, ToDict, WellFormed, EntriesOf, AppendAll;
    hide Plain, Canon;
    var digest, after := Normalize(q.digest).value, Appended(log, lines, q);
    IssuedVerifiesIff(log, lines, q);
    var more := AppendAllExtends(log, after, later);
    VerifiesExtends(log, EntriesOf(after), more, Issued(log, EntriesOf(lines), q, digest), q.digest);
    IssuedWellFormed(log, EntriesOf(lines), q, digest);
    AnchorRoundTripIff(log.clock, Issued(log, EntriesOf(lines), q, digest));
  }

  // --------------------------------------------------------------- the log

  /** Python's list index: negative indices count from the end. */
  function ListIndex(length: nat, i: int): (r: Option<nat>) {
    if 0 <= i < length then Some(i) else if 0 <= length + i < length then Some(length + i) else None
  }

  class LocalAppendOnlyAnchorLog {
    const log: Log
    var lines: seq<Line>

    constructor (log: Log)
      ensures this.log == log && lines == []
    {
      this.log := log;
      lines := [];
    }

    method ReadEntries() returns (r: Option<seq<Dict>>)
      ensures r.Some? <==> Usable(log, lines)
      ensures r.Some? ==> r.value == EntriesOf(lines)
    {
      hide ValidChain, EntriesOf;
      var entries: seq<Dict> := [];
      NoEntries();
      assert lines[..|lines|] == lines;
      for i := 0 to |lines|
        invariant entries == EntriesOf(lines[..i])
        invariant forall j :: 0 <= j < i ==> Loads(log, lines[j])
      {
        EntriesStep(lines, i);
        if !Loads(log, lines[i]) {
          return None;
        }
        if lines[i].Entry? {
          entries := entries + [lines[i].entry];
        }
      }
      var valid := ValidateChain(log, entries);
      return if valid then Some(entries) else None;
    }

    method AnchorArtifactDigest(q: Request) returns (r: Option<ExternalAnchor>)
      requires Sound(log)
      modifies this
      ensures r.Some? <==> Accepts(log, old(lines), q)
      ensures lines == Appended(log, old(lines), q)
      ensures r.Some? ==> r.value == Issued(log, EntriesOf(old(lines)), q, Normalize(q.digest).value)
    {
      hide Unhashed, Usable, EntriesOf, Normalize, EntryAnchor, ValidChain, EntryHash, Canon;
      var digest := Normalize(q.digest);
      if digest.None? {
        return None;
      }
      var entries := ReadEntries();
      if entries.None? {
        return None;
      }
      UsableIsValid(log, lines);
      var entry := Unhashed(log, entries.value, q, digest.value);
      NewEntryPayload(log, entries.value, q, digest.value);
      if Canon(PyDict(q.metadata)).None? || !Hashable(log, entry) {
        return None;
      }
      entry := entry["entry_hash" := EntryHash(log, entry)];
      NewEntryAnchor(log, entries.value, q, digest.value);
      lines := lines + [Entry(entry)];
      // The entry in memory still holds the caller's metadata.
      return Some(EntryAnchor(log, entry).value.(metadata := q.metadata));
    }

    method VerifyExternalAnchor(a: ExternalAnchor, digest: Json) returns (ok: bool)
      ensures ok <==> Usable(log, lines) && Verifies(log, EntriesOf(lines), a, digest)
    {
      hide Usable, EntriesOf, EntryAnchor, ValidChain, DigestsMatch, PyEqual;
      if a.anchorType != LOCAL || a.logUri != log.uri || DigestsMatch(Obj(a.digest), digest) != Some(true) {
        return false;
      }
      var entries := ReadEntries();
      if entries.None? || a.sequence > |entries.value| {
        return false;
      }
      var i := ListIndex(|entries.value|, a.sequence - 1);
      if i.None? {
        return false;
      }
      UsableIsValid(log, lines);
      AnchorNamesEntry(log, entries.value, i.value);
      var read := EntryAnchor(log, entries.value[i.value]);
      return read.Some? && SameAnchor(read.value, a);
    }
  }

  lemma NoEntries()
    ensures EntriesOf([]) == []
  {
  }

  lemma EntriesStep(lines: seq<Line>, i: nat)
    requires i < |lines|
    ensures EntriesOf(lines[..i + 1]) == EntriesOf(lines[..i]) + (if lines[i].Entry? then [lines[i].entry] else [])
  {
    assert lines[..i + 1][..i] == lines[..i];
  }

  lemma UsableIsValid(log: Log, lines: seq<Line>)
    requires Usable(log, lines)
    ensures ValidChain(log, EntriesOf(lines))
  {
  }
}
