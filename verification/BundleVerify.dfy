/** Verification of an evidence bundle (actenon/local_runtime.py): file hashes, proof
    chains and decision records against the manifest. */
module BundleVerify {
  import opened Wrappers
  import opened CanonicalJson
  import opened BundlePaths
  import opened Ordering
  import opened Dicts
  import opened PythonValues
  import BC = BoundaryChecks

  // ------------------------------------------------------------- artifacts

  datatype Correlation = Correlation(pccbId: Option<string>, refusalId: Option<string>)

  datatype Artifact =
    | AnIntent(intent: BC.Intent)
    | APccb(pccbId: string, intentId: Option<string>, tenant: Json, subject: Json, action: BC.Action, target: BC.Target,
            actionHash: string, rest: Json)
    | AReceipt(receiptId: string, intentOf: string, tenant: Json, subject: Json, action: BC.Action, target: BC.Target,
               outcome: string, correlation: Option<Correlation>, rest: Json)
    | ARefusal(refusalId: string, refused: Option<string>, reasonCode: string, correlation: Option<Correlation>,
               rest: Json)

  datatype Kind = IntentKind | PccbKind | ReceiptKind | RefusalKind

  predicate IsKind(a: Artifact, kind: Kind) {
    match kind
    case IntentKind => a.AnIntent?
    case PccbKind => a.APccb?
    case ReceiptKind => a.AReceipt?
    case RefusalKind => a.ARefusal?
  }

  function IdOf(a: Artifact): string {
    match a
    case AnIntent(i) => i.intentId
    case APccb(id, _, _, _, _, _, _, _) => id
    case AReceipt(id, _, _, _, _, _, _, _, _) => id
    case ARefusal(id, _, _, _, _) => id
  }

  /** Hashes, parsers and digests; a parser or a digest is None where the source raises: for
      a digest, where the artifact has no canonical form within the limits. */
  datatype Env = Env(
    fileHash: Bytes -> string, h: Json -> string, parse: (Kind, Bytes) -> Option<Artifact>,
    digest: Artifact -> Option<Dict>, manifest: Bytes -> Option<Dict>)

  function DigestOf(env: Env, a: Artifact): Dict { if env.digest(a).Some? then env.digest(a).value else map[] }

  /** Parsing yields the kind asked for. */
  function Load(env: Env, kind: Kind, bytes: Bytes): (r: Option<Artifact>)
    ensures r.Some? ==> IsKind(r.value, kind)
  {
    var a := env.parse(kind, bytes);
    if a.Some? && IsKind(a.value, kind) then a else None
  }

  datatype Check = Good(artifact: Artifact) | Bad(error: string) | Raised

  function VerifyArtifact(env: Env, fs: FileSystem, root: Path, payload: Json, kind: Kind, idField: string): (r: Check)
    ensures r.Good? ==> IsKind(r.artifact, kind)
  {
    if !payload.Obj? then Bad("entry is missing or not an object")
    else if !Get(payload.fields, "path").Str? then Bad("entry is missing a path")
    else
      var target := Member(root, Get(payload.fields, "path").text);
      if target.None? then Bad("artifact path points outside the bundle")
      else if target.value !in fs.files && target.value !in fs.dirs then Bad("artifact is missing")
      else if target.value !in fs.files then Raised
      else
        var a := Load(env, kind, fs.files[target.value]);
        if a.None? then Raised
        else if Get(payload.fields, idField) != Str(IdOf(a.value)) then Bad("identifier mismatch")
        else if !Get(payload.fields, "digest").Obj? then Bad("entry is missing a digest")
        else if env.digest(a.value).None? then Raised
        else if Get(payload.fields, "digest") != Obj(env.digest(a.value).value) then Bad("digest mismatch")
        else Good(a.value)
  }

  // ------------------------------------------------------------ link checks

  function When(failed: bool, error: string): seq<string> { if failed then [error] else [] }

  function PccbErrors(env: Env, i: BC.Intent, p: Artifact): (r: seq<string>)
    requires p.APccb?
    ensures r == [] <==> PccbLinked(env, i, p)
  {
    When(p.intentId.Some? && p.intentId.value != i.intentId, "intent_id")
    + When(!JsonEqual(p.tenant, i.tenant), "tenant")
    + When(!JsonEqual(p.subject, i.requester), "subject") + When(!BC.SameAction(p.action, i.action), "action")
    + When(!BC.SameTarget(p.target, i.target), "target")
    + When(p.actionHash != env.h(BC.ActionHashInput(i)), "action hash")
  }

  /** The proof was issued for this very intent, as Python compares its parts. */
  ghost predicate PccbLinked(env: Env, i: BC.Intent, p: Artifact)
    requires p.APccb?
  {
    && (p.intentId.Some? ==> p.intentId.value == i.intentId)
    && JsonEqual(p.tenant, i.tenant) && JsonEqual(p.subject, i.requester)
    && BC.SameAction(p.action, i.action) && BC.SameTarget(p.target, i.target)
    && p.actionHash == env.h(BC.ActionHashInput(i))
  }

  predicate CorrelatesTo(c: Option<Correlation>, pccbId: string) { c.Some? && c.value.pccbId == Some(pccbId) }

  function ReceiptErrors(r: Artifact, i: BC.Intent, p: Artifact): (e: seq<string>)
    requires r.AReceipt? && p.APccb?
    ensures e == [] <==> ReceiptLinked(r, i, p)
  {
    When(r.intentOf != i.intentId, "intent_id") + When(!JsonEqual(r.tenant, i.tenant), "tenant")
    + When(!JsonEqual(r.subject, i.requester), "subject") + When(!BC.SameAction(r.action, i.action), "action")
    + When(!BC.SameTarget(r.target, i.target), "target")
    + When(!CorrelatesTo(r.correlation, p.pccbId), "correlation")
  }

  ghost predicate ReceiptLinked(r: Artifact, i: BC.Intent, p: Artifact)
    requires r.AReceipt? && p.APccb?
  {
    && r.intentOf == i.intentId && JsonEqual(r.tenant, i.tenant) && JsonEqual(r.subject, i.requester)
    && BC.SameAction(r.action, i.action) && BC.SameTarget(r.target, i.target)
    && r.correlation.Some? && r.correlation.value.pccbId == Some(p.pccbId)
  }

  function RefusalErrors(f: Artifact, i: BC.Intent, p: Artifact, receipt: Option<Artifact>): (e: seq<string>)
    requires f.ARefusal? && p.APccb? && (receipt.Some? ==> receipt.value.AReceipt?)
    ensures e == [] <==> RefusalLinked(f, i, p, receipt)
  {
    When(f.refused != Some(i.intentId), "intent_id") + When(!CorrelatesTo(f.correlation, p.pccbId), "correlation")
    + When(receipt.Some? && ContradictsRefusal(receipt.value, f), "supporting receipt")
  }

  predicate ContradictsRefusal(r: Artifact, f: Artifact)
    requires r.AReceipt? && f.ARefusal?
  {
    r.correlation.Some? && r.correlation.value.refusalId.Some? && r.correlation.value.refusalId.value != f.refusalId
  }

  ghost predicate RefusalLinked(f: Artifact, i: BC.Intent, p: Artifact, receipt: Option<Artifact>)
    requires f.ARefusal? && p.APccb? && (receipt.Some? ==> receipt.value.AReceipt?)
  {
    && f.refused == Some(i.intentId)
    && f.correlation.Some? && f.correlation.value.pccbId == Some(p.pccbId)
    && (receipt.Some? && receipt.value.correlation.Some? ==>
          receipt.value.correlation.value.refusalId in {None, Some(f.refusalId)})
  }

  predicate HashDeclared(chain: Dict, p: Artifact)
    requires p.APccb?
  {
    Get(chain, "action_hash").Obj? && Get(Get(chain, "action_hash").fields, "value") == Str(p.actionHash)
  }

  /** The errors of a chain; None where the check raises. */
  function ChainErrors(env: Env, fs: FileSystem, root: Path, chain: Json): (r: Option<seq<string>>) {
    if !chain.Obj? then Some(["not an object"])
    else
      var intent := VerifyArtifact(env, fs, root, Get(chain.fields, "intent"), IntentKind, "intent_id");
      if !intent.Good? then Ended(intent)
      else
        var pccb := VerifyArtifact(env, fs, root, Get(chain.fields, "pccb"), PccbKind, "pccb_id");
        if !pccb.Good?
        then Ended(pccb)
        else OutcomeErrors(env, fs, root, chain.fields, intent.artifact.intent, pccb.artifact)
  }

  function Ended(c: Check): (r: Option<seq<string>>)
    requires !c.Good?
    ensures r != Some([])
  {
    if c.Bad? then Some([c.error]) else None
  }

  function OutcomeErrors(env: Env, fs: FileSystem, root: Path, chain: Dict, i: BC.Intent,
                         p: Artifact): (r: Option<seq<string>>)
    requires p.APccb?
  {
    var outcome := Get(chain, "outcome");
    var hashError := When(!HashDeclared(chain, p), "action hash");
    if !outcome.Obj? then Some(["outcome is missing or not an object"])
    else if Get(outcome.fields, "type") == Str("receipt") then
      var receipt := VerifyArtifact(env, fs, root, outcome, ReceiptKind, "id");
      if !receipt.Good? then Ended(receipt)
      else Some(PccbErrors(env, i, p) + ReceiptErrors(receipt.artifact, i, p) + hashError)
    else if Get(outcome.fields, "type") == Str("refusal") then
      var refusal := VerifyArtifact(env, fs, root, outcome, RefusalKind, "id");
      if !refusal.Good? then Ended(refusal)
      else if !Get(chain, "supporting_receipt").Obj? then Some(RefusalErrors(refusal.artifact, i, p, None) + hashError)
      else
        var support := VerifyArtifact(env, fs, root, Get(chain, "supporting_receipt"), ReceiptKind, "receipt_id");
        match support
        case Raised => None
        case Bad(error) => Some([error] + RefusalErrors(refusal.artifact, i, p, None) + hashError)
        case Good(receipt) => Some(RefusalErrors(refusal.artifact, i, p, Some(receipt)) + hashError)
    else Some(["unsupported bundle chain outcome type"])
  }

  function DecisionErrors(env: Env, fs: FileSystem, root: Path, record: Json): (r: Option<seq<string>>) {
    if !record.Obj? then Some(["not an object"])
    else
      var intent := VerifyArtifact(env, fs, root, Get(record.fields, "intent"), IntentKind, "intent_id");
      if !intent.Good? then Ended(intent)
      else
        var receipt := VerifyArtifact(env, fs, root, Get(record.fields, "decision_receipt"), ReceiptKind, "receipt_id");
        if !receipt.Good? then Ended(receipt)
        else Some(When(receipt.artifact.intentOf != intent.artifact.intent.intentId, "decision receipt intent_id"))
  }

  // ------------------------------------------------------------- the bundle

  /** The errors of a declared file; None where the check raises. */
  function FileErrors(env: Env, fs: FileSystem, root: Path, relative: string, payload: Json): (r: Option<seq<string>>) {
    var target := Member(root, relative);
    if target.None? then Some(["points outside the bundle"])
    else if target.value !in fs.files then Some(["missing hashed file"])
    else if !payload.Obj? then None
    else Some(When(Get(payload.fields, "value") != Str(env.fileHash(fs.files[target.value])), "file hash mismatch"))
  }

  predicate EntryInside(root: Path, entry: Json) { entry.Str? && Member(root, entry.text).Some? }

  datatype Manifest = Manifest(entries: seq<Json>, fileHashes: Dict, chains: seq<Json>, decisions: seq<Json>)

  const FORMAT := "actenon-local-runtime-bundle-v1"

  function ListOf(d: Dict, key: string): (r: Option<seq<Json>>) {
    if key !in d then Some([]) else if d[key].Arr? then Some(d[key].items) else None
  }

  /** None where a wrong format or shape raises. */
  function ReadManifest(d: Dict): (r: Option<Manifest>) {
    var hashes := if "file_hashes" in d then d["file_hashes"] else Obj(map[]);
    var entries, chains, decisions := ListOf(d, "entries"), ListOf(d, "evidence_chains"), ListOf(d, "decision_records");
    if Get(d, "format") != Str(FORMAT) || !hashes.Obj? || entries.None? || chains.None? || decisions.None? then None
    else Some(Manifest(entries.value, hashes.fields, chains.value, decisions.value))
  }

  /** The manifest as the exporter writes it, among other keys. */
  function ManifestDict(m: Manifest, others: Dict): (d: Dict) {
    others + map["format" := Str(FORMAT), "entries" := Arr(m.entries), "file_hashes" := Obj(m.fileHashes),
                 "evidence_chains" := Arr(m.chains), "decision_records" := Arr(m.decisions)]
  }

  /** What is written is read back. */
  lemma ManifestRoundTrip(m: Manifest, others: Dict)
    ensures ReadManifest(ManifestDict(m, others)) == Some(m)
  {
    var d := ManifestDict(m, others);
    assert d["format"] == Str(FORMAT) && d["entries"] == Arr(m.entries) && d["file_hashes"] == Obj(m.fileHashes);
    assert d["evidence_chains"] == Arr(m.chains) && d["decision_records"] == Arr(m.decisions);
  }

  datatype Report = Report(
    ok: bool, verifiedFiles: nat, declaredFiles: nat, verifiedChains: nat, declaredChains: nat,
    verifiedDecisions: nat, declaredDecisions: nat)

  /** How many checks found nothing. */
  function Passing(results: seq<Option<seq<string>>>): (n: nat) {
    if results == [] then 0
    else Passing(results[..|results| - 1]) + if results[|results| - 1] == Some([]) then 1 else 0
  }

  lemma {:induction false} PassingIff(results: seq<Option<seq<string>>>)
    ensures Passing(results) <= |results|
    ensures Passing(results) == |results| <==> forall i :: 0 <= i < |results| ==> results[i] == Some([])
  {
    if results != [] {
      PassingIff(results[..|results| - 1]);
    }
  }

  function FileResults(env: Env, fs: FileSystem, root: Path, m: Manifest,
                       keys: seq<string>): (r: seq<Option<seq<string>>>)
    requires forall i :: 0 <= i < |keys| ==> keys[i] in m.fileHashes
    ensures |r| == |keys|
    ensures forall i :: 0 <= i < |keys| ==> r[i] == FileErrors(env, fs, root, keys[i], m.fileHashes[keys[i]])
  {
    seq(|keys|, i requires 0 <= i < |keys| => FileErrors(env, fs, root, keys[i], m.fileHashes[keys[i]]))
  }

  function ChainResults(env: Env, fs: FileSystem, root: Path, chains: seq<Json>): (r: seq<Option<seq<string>>>)
    ensures |r| == |chains| && forall i :: 0 <= i < |chains| ==> r[i] == ChainErrors(env, fs, root, chains[i])
  {
    seq(|chains|, i requires 0 <= i < |chains| => ChainErrors(env, fs, root, chains[i]))
  }

  function DecisionResults(env: Env, fs: FileSystem, root: Path, records: seq<Json>): (r: seq<Option<seq<string>>>)
    ensures |r| == |records| && forall i :: 0 <= i < |records| ==> r[i] == DecisionErrors(env, fs, root, records[i])
  {
    seq(|records|, i requires 0 <= i < |records| => DecisionErrors(env, fs, root, records[i]))
  }

  /** No check raises. */
  ghost predicate Runs(env: Env, fs: FileSystem, root: Path, m: Manifest) {
    && (forall k :: k in m.fileHashes ==> FileErrors(env, fs, root, k, m.fileHashes[k]).Some?)
    && (forall i :: 0 <= i < |m.chains| ==> ChainErrors(env, fs, root, m.chains[i]).Some?)
    && (forall i :: 0 <= i < |m.decisions| ==> DecisionErrors(env, fs, root, m.decisions[i]).Some?)
  }

  /** What a bundle must satisfy to be accepted. */
  ghost predicate Accepted(env: Env, fs: FileSystem, root: Path, m: Manifest) {
    && (forall i :: 0 <= i < |m.entries| ==> EntryInside(root, m.entries[i]))
    && m.fileHashes != map[] && (m.chains != [] || m.decisions != [])
    && (forall k :: k in m.fileHashes ==> FileErrors(env, fs, root, k, m.fileHashes[k]) == Some([]))
    && (forall i :: 0 <= i < |m.chains| ==> ChainErrors(env, fs, root, m.chains[i]) == Some([]))
    && (forall i :: 0 <= i < |m.decisions| ==> DecisionErrors(env, fs, root, m.decisions[i]) == Some([]))
  }

  method CheckEntries(root: Path, entries: seq<Json>) returns (errors: nat)
    ensures errors == 0 <==> forall i :: 0 <= i < |entries| ==> EntryInside(root, entries[i])
  {
    errors := 0;
    for i := 0 to |entries|
      invariant errors == 0 <==> forall j :: 0 <= j < i ==> EntryInside(root, entries[j])
    {
      if !EntryInside(root, entries[i]) {
        errors := errors + 1;
      }
    }
  }

  /** In the order of the sorted paths. */
  method CheckFiles(env: Env, fs: FileSystem, root: Path, m: Manifest, keys: seq<string>)
    returns (verified: Option<nat>, errors: nat)
    requires forall i :: 0 <= i < |keys| ==> keys[i] in m.fileHashes
    ensures verified.None? <==>
            exists i :: 0 <= i < |keys| && FileErrors(env, fs, root, keys[i], m.fileHashes[keys[i]]).None?
    ensures verified.Some? ==> verified.value == Passing(FileResults(env, fs, root, m, keys))
    ensures verified.Some? ==>
              (errors == 0 <==>
               forall i :: 0 <= i < |keys| ==> FileErrors(env, fs, root, keys[i], m.fileHashes[keys[i]]) == Some([]))
  {
    hide FileErrors, Passing;
    errors := 0;
    var count := 0;
    ghost var results := FileResults(env, fs, root, m, keys);
    PassingStep(results, 0);
    for i := 0 to |keys|
      invariant count == Passing(results[..i])
      invariant forall j :: 0 <= j < i ==> results[j].Some?
      invariant errors == 0 <==> forall j :: 0 <= j < i ==> results[j] == Some([])
    {
      var found := FileErrors(env, fs, root, keys[i], m.fileHashes[keys[i]]);
      PassingStep(results, i);
      if found.None? {
        return None, errors;
      }
      if found.value == [] {
        count := count + 1;
      } else {
        errors := errors + |found.value|;
      }
    }
    assert results[..|keys|] == results;
    return Some(count), errors;
  }

  method CheckDeclaredFiles(env: Env, fs: FileSystem, root: Path, m: Manifest)
    returns (verified: Option<nat>, errors: nat)
    ensures verified.None? <==> exists k :: k in m.fileHashes && FileErrors(env, fs, root, k, m.fileHashes[k]).None?
    ensures verified.Some? ==>
              && verified.value == Passing(FileResults(env, fs, root, m, Listing(m.fileHashes.Keys)))
              && (errors == 0 <==>
                  forall k :: k in m.fileHashes ==> FileErrors(env, fs, root, k, m.fileHashes[k]) == Some([]))
              && (errors == 0 ==> verified.value == |m.fileHashes|)
  {
    hide FileErrors, Passing, Ascending;
    var keys := Sorted(m.fileHashes.Keys);
    AscendingUnique(keys, Listing(m.fileHashes.Keys));
    assert forall i :: 0 <= i < |keys| ==> keys[i] in m.fileHashes.Keys;
    assert |keys| == |m.fileHashes|;
    verified, errors := CheckFiles(env, fs, root, m, keys);
    PassingIff(FileResults(env, fs, root, m, keys));
    assert forall k :: k in m.fileHashes ==> k in keys;
  }

  method CheckChains(env: Env, fs: FileSystem, root: Path, chains: seq<Json>)
    returns (verified: Option<nat>, errors: nat)
    ensures verified.None? <==> exists i :: 0 <= i < |chains| && ChainErrors(env, fs, root, chains[i]).None?
    ensures verified.Some? ==> verified.value == Passing(ChainResults(env, fs, root, chains))
    ensures verified.Some? ==>
              (errors == 0 <==> forall i :: 0 <= i < |chains| ==> ChainErrors(env, fs, root, chains[i]) == Some([]))
  {
    hide ChainErrors, Passing;
    errors := 0;
    var count := 0;
    ghost var results := ChainResults(env, fs, root, chains);
    PassingStep(results, 0);
    for i := 0 to |chains|
      invariant count == Passing(results[..i])
      invariant forall j :: 0 <= j < i ==> ChainErrors(env, fs, root, chains[j]).Some?
      invariant errors == 0 <==> forall j :: 0 <= j < i ==> ChainErrors(env, fs, root, chains[j]) == Some([])
    {
      var found := ChainErrors(env, fs, root, chains[i]);
      PassingStep(results, i);
      if found.None? {
        return None, errors;
      }
      if found.value == [] {
        count := count + 1;
      } else {
        errors := errors + |found.value|;
      }
    }
    assert results[..|chains|] == results;
    return Some(count), errors;
  }

  method CheckDecisions(env: Env, fs: FileSystem, root: Path, records: seq<Json>)
    returns (verified: Option<nat>, errors: nat)
    ensures verified.None? <==> exists i :: 0 <= i < |records| && DecisionErrors(env, fs, root, records[i]).None?
    ensures verified.Some? ==> verified.value == Passing(DecisionResults(env, fs, root, records))
    ensures verified.Some? ==>
              (errors == 0 <==>
               forall i :: 0 <= i < |records| ==> DecisionErrors(env, fs, root, records[i]) == Some([]))
  {
    hide DecisionErrors, Passing;
    errors := 0;
    var count := 0;
    ghost var results := DecisionResults(env, fs, root, records);
    PassingStep(results, 0);
    for i := 0 to |records|
      invariant count == Passing(results[..i])
      invariant forall j :: 0 <= j < i ==> DecisionErrors(env, fs, root, records[j]).Some?
      invariant errors == 0 <==> forall j :: 0 <= j < i ==> DecisionErrors(env, fs, root, records[j]) == Some([])
    {
      var found := DecisionErrors(env, fs, root, records[i]);
      PassingStep(results, i);
      if found.None? {
        return None, errors;
      }
      if found.value == [] {
        count := count + 1;
      } else {
        errors := errors + |found.value|;
      }
    }
    assert results[..|records|] == results;
    return Some(count), errors;
  }

  lemma PassingStep(results: seq<Option<seq<string>>>, i: nat)
    ensures Passing([]) == 0 && results[..0] == []
    ensures i < |results| ==>
              Passing(results[..i + 1]) == Passing(results[..i]) + if results[i] == Some([]) then 1 else 0
  {
    if i < |results| {
      assert results[..i + 1][..i] == results[..i];
    }
  }

  /** What verification reports; None where it raises.  A bundle is ok exactly when it is
      accepted, and the counts are those of the checks that found nothing. */
  ghost function ReportOf(env: Env, fs: FileSystem, root: Path): (r: Option<Report>) {
    var declared := DeclaredManifest(env, fs, root);
    if declared.None? || !Runs(env, fs, root, declared.value) then None
    else
      var m := declared.value;
      Some(Report(Accepted(env, fs, root, m),
                  Passing(FileResults(env, fs, root, m, Listing(m.fileHashes.Keys))), |m.fileHashes|,
                  Passing(ChainResults(env, fs, root, m.chains)), |m.chains|,
                  Passing(DecisionResults(env, fs, root, m.decisions)), |m.decisions|))
  }

  lemma AllFilesPass(env: Env, fs: FileSystem, root: Path, m: Manifest)
    requires forall s :: s in m.fileHashes ==> FileErrors(env, fs, root, s, m.fileHashes[s]) == Some([])
    ensures Passing(FileResults(env, fs, root, m, Listing(m.fileHashes.Keys))) == |m.fileHashes|
  {
    hide FileErrors, Passing, Ascending;
    var keys := Listing(m.fileHashes.Keys);
    assert forall i :: 0 <= i < |keys| ==> keys[i] in keys;
    PassingIff(FileResults(env, fs, root, m, keys));
    ListingSize(m.fileHashes.Keys);
    assert |m.fileHashes.Keys| == |m.fileHashes|;
  }

  /** In an ok report every declared count is the verified one. */
  lemma OkCountsAgree(env: Env, fs: FileSystem, root: Path)
    ensures var r := ReportOf(env, fs, root);
            r.Some? && r.value.ok ==>
              && r.value.verifiedFiles == r.value.declaredFiles && r.value.verifiedChains == r.value.declaredChains
              && r.value.verifiedDecisions == r.value.declaredDecisions
  {
    hide FileErrors, ChainErrors, DecisionErrors, Passing, DeclaredManifest, EntryInside;
    var r := ReportOf(env, fs, root);
    if r.Some? && r.value.ok {
      var m := DeclaredManifest(env, fs, root).value;
      AllFilesPass(env, fs, root, m);
      PassingIff(ChainResults(env, fs, root, m.chains));
      PassingIff(DecisionResults(env, fs, root, m.decisions));
    }
  }

  /** Verifies the bundle at `root`.  If it is ok, every declared count is the verified one. */
  method VerifyBundleRoot(env: Env, fs: FileSystem, root: Path) returns (r: Option<Report>)
    ensures r == ReportOf(env, fs, root)
    ensures r.Some? && r.value.ok ==>
              && r.value.verifiedFiles == r.value.declaredFiles && r.value.verifiedChains == r.value.declaredChains
              && r.value.verifiedDecisions == r.value.declaredDecisions
  {
    hide FileErrors, ChainErrors, DecisionErrors, Passing, DeclaredManifest, Ascending, EntryInside, FileResults;
    var manifest := DeclaredManifest(env, fs, root);
    if manifest.None? {
      return None;
    }
    var m := manifest.value;
    var errors := CheckEntries(root, m.entries);
    if m.fileHashes == map[] {
      errors := errors + 1;
    }
    var files, fileErrors := CheckDeclaredFiles(env, fs, root, m);
    if files.None? {
      return None;
    }
    var chains, chainErrors := CheckChains(env, fs, root, m.chains);
    if chains.None? {
      return None;
    }
    if m.chains == [] && m.decisions == [] {
      errors := errors + 1;
    }
    var decisions, decisionErrors := CheckDecisions(env, fs, root, m.decisions);
    if decisions.None? {
      return None;
    }
    errors := errors + fileErrors + chainErrors + decisionErrors;
    OkCountsAgree(env, fs, root);
    return Some(Report(errors == 0, files.value, |m.fileHashes|, chains.value, |m.chains|, decisions.value,
                       |m.decisions|));
  }

  function DeclaredManifest(env: Env, fs: FileSystem, root: Path): (r: Option<Manifest>) {
    var path := root + ["bundle_manifest.json"];
    if path !in fs.files then None
    else
      var d := env.manifest(fs.files[path]);
      if d.None? then None else ReadManifest(d.value)
  }
}
