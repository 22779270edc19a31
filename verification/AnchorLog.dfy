/** The local append-only anchor log (actenon/anchors/local_log.py): a hash chain of
    JSON entries, one per line. */
module AnchorLog {
  import opened Wrappers
  import opened CanonicalJson
  import opened Dicts
  import opened AnchorModels
  import opened PythonValues
  import opened CanonicalSize

  const ENTRY_CONTRACT: Json := Obj(map["name" := Str("local_anchor_log_entry"), "version" := Str("v1")])

  /** `h` is the digest of a canonical form, `size` the length of that form in bytes (a
      line is stored in the same form), `text` Python's str. */
  datatype Log = Log(uri: string, h: Json -> string, size: Json -> nat, text: Json -> string, clock: Clock)

  ghost predicate Sound(log: Log) {
    && log.uri != [] && (forall v :: log.h(v) != []) && (forall s :: log.text(Str(s)) == s) && Faithful(log.clock)
  }

  /** A line of the file. */
  datatype Line = Blank | Garbage | Entry(entry: Dict)

  // ------------------------------------------------------------ hash chain

  function HashSpec(value: string): Dict {
    map["algorithm" := Str("sha-256"), "canonicalization" := Str("ACTENON-JCS-STRICT-1"), "value" := Str(value)]
  }

  function Payload(e: Dict): Dict { e - {"entry_hash"} }

  function EntryHash(log: Log, e: Dict): Json { Obj(HashSpec(log.h(Obj(Payload(e))))) }

  /** Hashing refuses a payload whose canonical form is too long. */
  predicate Hashable(log: Log, e: Dict) { log.size(Obj(Payload(e))) <= MAX_BYTES }

  function PreviousHash(log: Log, entries: seq<Dict>, i: nat): Json
    requires i <= |entries|
  {
    if i == 0 then Null else EntryHash(log, entries[i - 1])
  }

  /** Python's equality of a JSON value with a positive integer: True equals 1. */
  predicate IsNumber(v: Json, n: int) { v == Int(n) || (v == Bool(true) && n == 1) }

  predicate EntryOk(log: Log, entries: seq<Dict>, i: nat)
    requires i < |entries|
  {
    var e := entries[i];
    && Get(e, "contract") == ENTRY_CONTRACT && Get(e, "anchor_type") == Str(LOCAL)
    && IsNumber(Get(e, "sequence"), i + 1)
    && Get(e, "previous_entry_hash") == PreviousHash(log, entries, i)
    && Hashable(log, e) && Get(e, "entry_hash") == EntryHash(log, e)
  }

  predicate ValidChain(log: Log, entries: seq<Dict>) {
    forall i :: 0 <= i < |entries| ==> EntryOk(log, entries, i)
  }

  /** What each entry of a valid log says, key by key. */
  ghost predicate Links(log: Log, entries: seq<Dict>, i: nat)
    requires i < |entries|
  {
    var e := entries[i];
    && Get(e, "contract") == Obj(map["name" := Str("local_anchor_log_entry"), "version" := Str("v1")])
    && Get(e, "anchor_type") == Str("local_append_only_log")
    && (Get(e, "sequence") == Int(i + 1) || (i == 0 && Get(e, "sequence") == Bool(true)))
    && Get(e, "previous_entry_hash") == (if i == 0 then Null else Get(entries[i - 1], "entry_hash"))
    && log.size(Obj(e - {"entry_hash"})) <= MAX_BYTES
    && Get(e, "entry_hash") ==
       Obj(map["algorithm" := Str("sha-256"), "canonicalization" := Str("ACTENON-JCS-STRICT-1"),
               "value" := Str(log.h(Obj(e - {"entry_hash"})))])
  }

  /** A log is valid exactly when every entry links to the one before it and carries its hash. */
  lemma ValidChainIff(log: Log, entries: seq<Dict>)
    ensures ValidChain(log, entries) <==> forall i :: 0 <= i < |entries| ==> Links(log, entries, i)
  {
    hide EntryHash, Get;
    if ValidChain(log, entries) {
      forall i | 0 <= i < |entries| ensures Links(log, entries, i) { OkLinks(log, entries, i); }
    }
    if forall i :: 0 <= i < |entries| ==> Links(log, entries, i) {
      forall i | 0 <= i < |entries| ensures EntryOk(log, entries, i) { OkLinks(log, entries, i); }
    }
  }

  lemma OkLinks(log: Log, entries: seq<Dict>, i: nat)
    requires i < |entries|
    requires i > 0 ==> EntryOk(log, entries, i - 1) || Links(log, entries, i - 1)
    ensures EntryOk(log, entries, i) <==> Links(log, entries, i)
  {
    hide Get;
  }

  method ValidateChain(log: Log, entries: seq<Dict>) returns (ok: bool)
    ensures ok <==> ValidChain(log, entries)
  {
    hide EntryHash;
    var previous := Null;
    for i := 0 to |entries|
      invariant previous == PreviousHash(log, entries, i)
      invariant forall j :: 0 <= j < i ==> EntryOk(log, entries, j)
    {
      var e := entries[i];
      assert ValidChain(log, entries) ==> EntryOk(log, entries, i);
      if Get(e, "contract") != ENTRY_CONTRACT || Get(e, "anchor_type") != Str(LOCAL) {
        return false;
      }
      if !IsNumber(Get(e, "sequence"), i + 1) || Get(e, "previous_entry_hash") != previous {
        return false;
      }
      if !Hashable(log, e) {
        return false;
      }
      var expected := EntryHash(log, e);
      if Get(e, "entry_hash") != expected {
        return false;
      }
      previous := expected;
    }
    return true;
  }

  // -------------------------------------------------- one hash fixes history

  lemma SpecInjective(v: string, w: string)
    requires HashSpec(v) == HashSpec(w)
    ensures v == w
  {
    assert HashSpec(v)["value"] == HashSpec(w)["value"];
  }

  lemma SameHashSameEntry(log: Log, d: Dict, e: Dict)
    requires CollisionFree(log.h)
    requires Get(d, "entry_hash") == EntryHash(log, d) && Get(e, "entry_hash") == EntryHash(log, e)
    requires EntryHash(log, d) == EntryHash(log, e)
    ensures d == e
  {
    SpecInjective(log.h(Obj(Payload(d))), log.h(Obj(Payload(e))));
    assert Payload(d) == Payload(e);
    assert d == Payload(d)["entry_hash" := EntryHash(log, d)];
    assert e == Payload(e)["entry_hash" := EntryHash(log, e)];
  }

  /** If entry `i` of one valid log and entry `j` of another have the same hash, they are
      the same entry at the same place, with the same history. */
  lemma {:induction false} HashFixesHistory(log: Log, a: seq<Dict>, i: nat, b: seq<Dict>, j: nat)
    requires CollisionFree(log.h) && ValidChain(log, a) && ValidChain(log, b) && i < |a| && j < |b|
    requires Get(a[i], "entry_hash") == Get(b[j], "entry_hash")
    ensures i == j && a[..i + 1] == b[..j + 1]
    decreases i
  {
    hide EntryHash, CollisionFree, Hashable;
    assert EntryOk(log, a, i) && EntryOk(log, b, j);
    SameHashSameEntry(log, a[i], b[j]);
    SamePlace(Get(a[i], "sequence"), i, j);
    if i > 0 {
      assert EntryOk(log, a, i - 1) && EntryOk(log, b, j - 1);
      HashFixesHistory(log, a, i - 1, b, j - 1);
    }
    assert a[..i + 1] == a[..i] + [a[i]] && b[..j + 1] == b[..j] + [b[j]];
  }

  lemma SamePlace(v: Json, i: nat, j: nat)
    requires IsNumber(v, i + 1) && IsNumber(v, j + 1)
    ensures i == j
  {
  }

  // -------------------------------------------------------------- anchors

  function IntOf(v: Json): (r: Option<int>) {
    match v
    case Int(n) => Some(n)
    case Bool(b) => Some(if b then 1 else 0)
    case _ => None
  }

  predicate HasAnchorKeys(e: Dict) {
    && "anchor_id" in e && "anchor_type" in e && "artifact_digest" in e && "anchored_at" in e && "log_uri" in e
    && "sequence" in e && "entry_hash" in e
  }

  function EntryAnchor(log: Log, e: Dict): (r: Option<ExternalAnchor>) {
    if !HasAnchorKeys(e) then None
    else
      var digest, time := Normalize(Get(e, "artifact_digest")), Time(log.clock, Get(e, "anchored_at"));
      var n := IntOf(Get(e, "sequence"));
      var previous, metadata := Get(e, "previous_entry_hash"), MetadataOf(Loaded(Get(e, "metadata")));
      if digest.None? || time.None? || n.None? || !Get(e, "entry_hash").Obj? || metadata.None?
         || !(previous.Null? || previous.Obj?)
      then None
      else Some(ExternalAnchor(
                  log.text(Get(e, "anchor_id")), log.text(Get(e, "anchor_type")), digest.value, time.value,
                  log.text(Get(e, "log_uri")), n.value,
                  Get(e, "entry_hash").fields, if previous.Obj? then Some(previous.fields) else None,
                  OptionalText(Get(e, "artifact_type")), OptionalText(Get(e, "artifact_id")), metadata.value))
  }

  /** The anchor is that of an entry of the valid log, at the place it names, and the
      digest it is checked for matches. */
  ghost predicate Verifies(log: Log, entries: seq<Dict>, a: ExternalAnchor, digest: Json) {
    && a.anchorType == LOCAL && a.logUri == log.uri && DigestsMatch(Obj(a.digest), digest) == Some(true)
    && ValidChain(log, entries) && 0 < a.sequence <= |entries|
    && var read := EntryAnchor(log, entries[a.sequence - 1]);
       read.Some? && SameAnchor(read.value, a)
  }

  lemma AnchorNamesEntry(log: Log, entries: seq<Dict>, i: nat)
    requires ValidChain(log, entries) && i < |entries|
    ensures EntryAnchor(log, entries[i]).Some? ==>
              && EntryAnchor(log, entries[i]).value.sequence == i + 1
              && Obj(EntryAnchor(log, entries[i]).value.entryHash) == Get(entries[i], "entry_hash")
  {
    hide EntryHash, Hashable;
    assert EntryOk(log, entries, i);
  }

  /** An anchor that verifies against two logs forces them to agree up to its sequence. */
  lemma AnchorFixesHistory(log: Log, a: seq<Dict>, b: seq<Dict>, anchor: ExternalAnchor, d: Json, e: Json)
    requires CollisionFree(log.h) && Verifies(log, a, anchor, d) && Verifies(log, b, anchor, e)
    ensures a[..anchor.sequence] == b[..anchor.sequence]
  {
    hide EntryAnchor, ValidChain;
    var i := anchor.sequence - 1;
    AnchorNamesEntry(log, a, i);
    AnchorNamesEntry(log, b, i);
    HashFixesHistory(log, a, i, b, i);
  }
}
