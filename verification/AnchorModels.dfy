/** External anchors and their wire form (actenon/anchors/models.py). */
module AnchorModels {
  import opened Wrappers
  import opened CanonicalJson
  import opened Dicts
  import opened PythonValues

  const LOCAL := "local_append_only_log"
  const ANCHOR_CONTRACT: Json := Obj(map["name" := Str("external_anchor"), "version" := Str("v1")])

  datatype ExternalAnchor = ExternalAnchor(
    anchorId: string, anchorType: string, digest: Dict, anchoredAt: int, logUri: string, sequence: int,
    entryHash: Dict, previousHash: Option<Dict>, artifactType: Option<string>, artifactId: Option<string>,
    metadata: PyMap)

  /** Python's == on anchors: exact but for the numbers in the metadata. */
  predicate SameAnchor(a: ExternalAnchor, b: ExternalAnchor) {
    a.(metadata := b.metadata) == b && PyEqual(PyDict(a.metadata), PyDict(b.metadata))
  }

  /** Timestamps in and out of text. */
  datatype Clock = Clock(format: int -> string, parse: string -> Option<int>)

  ghost predicate Faithful(clock: Clock) {
    forall t: int :: clock.parse(clock.format(t)) == Some(t)
  }

  // ------------------------------------------------------------- field reads

  function NonEmpty(v: Json): (r: Option<string>) {
    if v.Str? && v.text != [] then Some(v.text) else None
  }

  function OptionalText(v: Json): (r: Option<string>) { if v.Str? then Some(v.text) else None }

  /** What Python counts as true. */
  predicate Truthy(v: Py) {
    match v
    case PyNone => false
    case PyBool(b) => b
    case PyInt(i) => i != 0
    case PyFloat(x) => x != 0.0
    case PyStr(s) => s != []
    case PyList(a) => a != []
    case PyTuple(a) => a != []
    case PyDict(m) => m != map[]
    case PyOther(_) => true
  }

  function MetadataOf(v: Py): (r: Option<PyMap>) {
    if !Truthy(v) then Some(map[]) else if v.PyDict? then Some(v.fields) else None
  }

  function Time(clock: Clock, v: Json): (r: Option<int>) {
    if v.Str? then clock.parse(v.text) else None
  }

  /** A digest or hash specification: algorithm, value and perhaps canonicalization. */
  function Normalize(raw: Json): (r: Option<Dict>)
    ensures r.Some? ==> Normal(r.value)
  {
    if !raw.Obj? || NonEmpty(Get(raw.fields, "algorithm")).None? || NonEmpty(Get(raw.fields, "value")).None? then None
    else
      var base := map["algorithm" := raw.fields["algorithm"], "value" := raw.fields["value"]];
      var c := Get(raw.fields, "canonicalization");
      if c == Null then Some(base)
      else if NonEmpty(c).None? then None
      else Some(base["canonicalization" := c])
  }

  predicate Normal(d: Dict) {
    && {"algorithm", "value"} <= d.Keys <= {"algorithm", "value", "canonicalization"}
    && forall k :: k in d ==> NonEmpty(d[k]).Some?
  }

  lemma NormalizeFixed(d: Dict)
    requires Normal(d)
    ensures Normalize(Obj(d)) == Some(d)
  {
    if "canonicalization" in d {
      assert d == map["algorithm" := d["algorithm"], "value" := d["value"],
                      "canonicalization" := d["canonicalization"]];
    } else {
      assert d == map["algorithm" := d["algorithm"], "value" := d["value"]];
    }
  }

  /** Digests agree in algorithm and value, and in canonicalization where both name one. */
  function DigestsMatch(left: Json, right: Json): (r: Option<bool>) {
    var l, m := Normalize(left), Normalize(right);
    if l.None? || m.None? then None
    else if l.value["algorithm"] != m.value["algorithm"] || l.value["value"] != m.value["value"] then Some(false)
    else if "canonicalization" in l.value && "canonicalization" in m.value then
      Some(l.value["canonicalization"] == m.value["canonicalization"])
    else Some(true)
  }

  /** An object with algorithm and value, both non-empty texts, and no canonicalization or a
      non-empty one. */
  ghost predicate IsDigest(v: Json) {
    && v.Obj? && IsText(v.fields, "algorithm") && IsText(v.fields, "value")
    && (Unnamed(v.fields) || IsText(v.fields, "canonicalization"))
  }

  ghost predicate IsText(d: Dict, k: string) { k in d && d[k].Str? && d[k].text != "" }

  ghost predicate Unnamed(d: Dict) { "canonicalization" !in d || d["canonicalization"] == Null }

  /** Comparing raises unless both are digests, and holds exactly when algorithm and value are
      equal and no two different canonicalizations are named; other keys do not count. */
  lemma DigestsMatchIff(left: Json, right: Json)
    ensures DigestsMatch(left, right).Some? <==> IsDigest(left) && IsDigest(right)
    ensures DigestsMatch(left, right) == Some(true) <==>
            && IsDigest(left) && IsDigest(right)
            && var l, r := left.fields, right.fields;
               && l["algorithm"] == r["algorithm"] && l["value"] == r["value"]
               && (Unnamed(l) || Unnamed(r) || l["canonicalization"] == r["canonicalization"])
  {
    hide Normalize;
    NormalizeReads(left);
    NormalizeReads(right);
  }

  lemma NormalizeReads(v: Json)
    ensures Normalize(v).Some? <==> IsDigest(v)
    ensures Normalize(v).Some? ==>
              && var d := Normalize(v).value;
              && "algorithm" in d && d["algorithm"] == v.fields["algorithm"]
              && "value" in d && d["value"] == v.fields["value"]
              && ("canonicalization" in d <==> !Unnamed(v.fields))
              && ("canonicalization" in d ==> d["canonicalization"] == v.fields["canonicalization"])
  {
  }

  /** A match is symmetric; it is an equivalence only among digests that all name, or
      all omit, their canonicalization. */
  lemma DigestsMatchSymmetric(left: Json, right: Json)
    ensures DigestsMatch(left, right) == DigestsMatch(right, left)
    ensures DigestsMatch(left, right) == Some(true) ==>
              (Normalize(left) == Normalize(right) <==>
               ("canonicalization" in Normalize(left).value <==> "canonicalization" in Normalize(right).value))
  {
    if DigestsMatch(left, right) == Some(true) {
      var l, m := Normalize(left).value, Normalize(right).value;
      if "canonicalization" in l <==> "canonicalization" in m {
        assert l.Keys == m.Keys;
        assert forall k :: k in l ==> l[k] == m[k];
        assert l == m;
      }
    }
  }

  // --------------------------------------------------------------- wire form

  function MaybeStr(s: Option<string>): Option<Json> { if s.Some? then Some(Str(s.value)) else None }

  function MaybeObj(d: Option<Dict>): Option<Json> { if d.Some? then Some(Obj(d.value)) else None }

  /** A dictionary handed around in memory: its metadata is not written as JSON. */
  datatype Wire = Wire(fields: Dict, metadata: Py)

  function Required(clock: Clock, a: ExternalAnchor): (r: Dict) {
    map["contract" := ANCHOR_CONTRACT, "anchor_id" := Str(a.anchorId), "anchor_type" := Str(a.anchorType),
        "artifact_digest" := Obj(a.digest), "anchored_at" := Str(clock.format(a.anchoredAt)),
        "log_uri" := Str(a.logUri), "sequence" := Int(a.sequence), "entry_hash" := Obj(a.entryHash)]
  }

  function WireFields(clock: Clock, a: ExternalAnchor): (r: Dict) {
    With(With(With(Required(clock, a), "previous_entry_hash", MaybeObj(a.previousHash)),
              "artifact_type", MaybeStr(a.artifactType)),
         "artifact_id", MaybeStr(a.artifactId))
  }

  function ToDict(clock: Clock, a: ExternalAnchor): (r: Wire) {
    Wire(WireFields(clock, a), if a.metadata == map[] then PyNone else PyDict(a.metadata))
  }

  lemma GetWith3(d: Dict, a: Option<Json>, b: Option<Json>, c: Option<Json>, k: string)
    ensures var r := With(With(With(d, "previous_entry_hash", a), "artifact_type", b), "artifact_id", c);
            Get(r, k) == if k == "artifact_id" && c.Some? then c.value
                         else if k == "artifact_type" && b.Some? then b.value
                         else if k == "previous_entry_hash" && a.Some? then a.value
                         else Get(d, k)
  {
    hide Get, With;
    var d1 := With(d, "previous_entry_hash", a);
    var d2 := With(d1, "artifact_type", b);
    GetWith(d, "previous_entry_hash", a, k);
    GetWith(d1, "artifact_type", b, k);
    GetWith(d2, "artifact_id", c, k);
  }

  /** A positive integer; Python's True counts as 1. */
  function PositiveSequence(v: Json): (r: Option<int>) {
    if v.Int? && v.num > 0 then Some(v.num) else if v == Bool(true) then Some(1) else None
  }

  predicate IsAnchorContract(v: Json) {
    v.Obj? && Get(v.fields, "name") == Str("external_anchor") && Get(v.fields, "version") == Str("v1")
  }

  function FromDict(clock: Clock, w: Wire): (r: Option<ExternalAnchor>) {
    var d := w.fields;
    var previous := Get(d, "previous_entry_hash");
    var id, kind, uri := NonEmpty(Get(d, "anchor_id")), NonEmpty(Get(d, "anchor_type")), NonEmpty(Get(d, "log_uri"));
    var digest, time := Normalize(Get(d, "artifact_digest")), Time(clock, Get(d, "anchored_at"));
    var seqno := PositiveSequence(Get(d, "sequence"));
    var hash, metadata := Normalize(Get(d, "entry_hash")), MetadataOf(w.metadata);
    if !IsAnchorContract(Get(d, "contract")) || id.None? || kind.None? || uri.None? || digest.None? || time.None?
       || seqno.None? || hash.None? || metadata.None? || (previous != Null && Normalize(previous).None?)
    then None
    else Some(ExternalAnchor(id.value, kind.value, digest.value, time.value, uri.value, seqno.value, hash.value,
                             if previous == Null then None else Normalize(previous),
                             OptionalText(Get(d, "artifact_type")), OptionalText(Get(d, "artifact_id")),
                             metadata.value))
  }

  /** The anchors the wire form can carry. */
  predicate WellFormed(a: ExternalAnchor) {
    && a.anchorId != [] && a.anchorType != [] && a.logUri != [] && a.sequence > 0
    && Normal(a.digest) && Normal(a.entryHash) && (a.previousHash.Some? ==> Normal(a.previousHash.value))
  }

  /** A trip through the wire form returns an anchor exactly when it is well formed. */
  lemma AnchorRoundTripIff(clock: Clock, a: ExternalAnchor)
    requires Faithful(clock)
    ensures FromDict(clock, ToDict(clock, a)) == Some(a) <==> WellFormed(a)
  {
    hide Normalize, Normal, WireFields, Get, IsAnchorContract;
    var d := WireFields(clock, a);
    ToDictFields(clock, a);
    ToDictOptionalFields(clock, a);
    AnchorContractReads();
    NormalizeFixedIff(a.digest);
    NormalizeFixedIff(a.entryHash);
    if a.previousHash.Some? {
      NormalizeFixedIff(a.previousHash.value);
    }
    assert MetadataOf(ToDict(clock, a).metadata) == Some(a.metadata);
    assert Time(clock, Get(d, "anchored_at")) == Some(a.anchoredAt);
  }

  lemma AnchorContractReads()
    ensures IsAnchorContract(ANCHOR_CONTRACT)
  {
  }

  lemma NormalizeFixedIff(d: Dict)
    ensures Normalize(Obj(d)) == Some(d) <==> Normal(d)
  {
    if Normal(d) {
      NormalizeFixed(d);
    }
  }

  lemma ToDictFields(clock: Clock, a: ExternalAnchor)
    ensures var d := WireFields(clock, a);
            && Get(d, "contract") == ANCHOR_CONTRACT && Get(d, "anchor_id") == Str(a.anchorId)
            && Get(d, "anchor_type") == Str(a.anchorType) && Get(d, "artifact_digest") == Obj(a.digest)
            && Get(d, "anchored_at") == Str(clock.format(a.anchoredAt)) && Get(d, "log_uri") == Str(a.logUri)
            && Get(d, "sequence") == Int(a.sequence) && Get(d, "entry_hash") == Obj(a.entryHash)
  {
    hide WireFields, Get, Required;
    OverlayIsToDict(clock, a);
    RequiredFields(clock, a);
  }

  lemma ToDictOptionalFields(clock: Clock, a: ExternalAnchor)
    ensures var d := WireFields(clock, a);
            && Get(d, "previous_entry_hash") == (if a.previousHash.Some? then Obj(a.previousHash.value) else Null)
            && Get(d, "artifact_type") == (if a.artifactType.Some? then Str(a.artifactType.value) else Null)
            && Get(d, "artifact_id") == (if a.artifactId.Some? then Str(a.artifactId.value) else Null)
  {
    hide WireFields, Get, Required;
    OverlayIsToDict(clock, a);
    RequiredFields(clock, a);
  }

  function Overlay(clock: Clock, a: ExternalAnchor, k: string): Json {
    if k == "artifact_id" && a.artifactId.Some? then Str(a.artifactId.value)
    else if k == "artifact_type" && a.artifactType.Some? then Str(a.artifactType.value)
    else if k == "previous_entry_hash" && a.previousHash.Some? then Obj(a.previousHash.value)
    else Get(Required(clock, a), k)
  }

  lemma OverlayIsToDict(clock: Clock, a: ExternalAnchor)
    ensures forall k :: Get(WireFields(clock, a), k) == Overlay(clock, a, k)
  {
    hide With, Get, Required;
    forall k ensures Get(WireFields(clock, a), k) == Overlay(clock, a, k) {
      GetWith3(Required(clock, a), MaybeObj(a.previousHash), MaybeStr(a.artifactType), MaybeStr(a.artifactId), k);
    }
  }

  lemma RequiredFields(clock: Clock, a: ExternalAnchor)
    ensures var d := Required(clock, a);
            && Get(d, "contract") == ANCHOR_CONTRACT && Get(d, "anchor_id") == Str(a.anchorId)
            && Get(d, "anchor_type") == Str(a.anchorType) && Get(d, "artifact_digest") == Obj(a.digest)
            && Get(d, "anchored_at") == Str(clock.format(a.anchoredAt)) && Get(d, "log_uri") == Str(a.logUri)
            && Get(d, "sequence") == Int(a.sequence) && Get(d, "entry_hash") == Obj(a.entryHash)
            && Get(d, "previous_entry_hash") == Null && Get(d, "artifact_type") == Null
            && Get(d, "artifact_id") == Null
  {
  }
}
