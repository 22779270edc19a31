/** What bundle verification guarantees: it reads nothing outside the bundle, accepted
    bundles agree on every declared file, and an accepted chain is linked. */
module BundleSafety {
  import opened Wrappers
  import opened CanonicalJson
  import opened Dicts
  import opened BundlePaths
  import opened BundleVerify
  import opened PythonValues
  import BC = BoundaryChecks

  // ------------------------------------------------------------ containment

  /** The two file systems are the same below `root`. */
  ghost predicate SameBelow(root: Path, fs: FileSystem, gs: FileSystem) {
    forall p :: root <= p ==>
      && (p in fs.files <==> p in gs.files) && (p in fs.dirs <==> p in gs.dirs)
      && (p in fs.files ==> fs.files[p] == gs.files[p])
  }

  lemma ArtifactContained(env: Env, fs: FileSystem, gs: FileSystem, root: Path, payload: Json, kind: Kind,
                          idField: string)
    requires SameBelow(root, fs, gs)
    ensures VerifyArtifact(env, fs, root, payload, kind, idField) ==
            VerifyArtifact(env, gs, root, payload, kind, idField)
  {
  }

  lemma ChainContained(env: Env, fs: FileSystem, gs: FileSystem, root: Path, chain: Json)
    requires SameBelow(root, fs, gs)
    ensures ChainErrors(env, fs, root, chain) == ChainErrors(env, gs, root, chain)
  {
    hide VerifyArtifact, SameBelow, PccbErrors, ReceiptErrors, RefusalErrors, When, HashDeclared;
    forall payload, kind, idField
      ensures VerifyArtifact(env, fs, root, payload, kind, idField) ==
              VerifyArtifact(env, gs, root, payload, kind, idField)
    {
      ArtifactContained(env, fs, gs, root, payload, kind, idField);
    }
  }

  lemma DecisionContained(env: Env, fs: FileSystem, gs: FileSystem, root: Path, record: Json)
    requires SameBelow(root, fs, gs)
    ensures DecisionErrors(env, fs, root, record) == DecisionErrors(env, gs, root, record)
  {
    hide VerifyArtifact, SameBelow;
    forall payload, kind, idField
      ensures VerifyArtifact(env, fs, root, payload, kind, idField) ==
              VerifyArtifact(env, gs, root, payload, kind, idField)
    {
      ArtifactContained(env, fs, gs, root, payload, kind, idField);
    }
  }

  lemma FileContained(env: Env, fs: FileSystem, gs: FileSystem, root: Path, relative: string, payload: Json)
    requires SameBelow(root, fs, gs)
    ensures FileErrors(env, fs, root, relative, payload) == FileErrors(env, gs, root, relative, payload)
  {
  }

  /** Whatever the manifest declares, what lies outside the bundle cannot change a
      verdict, an error or a count. */
  lemma VerificationContained(env: Env, fs: FileSystem, gs: FileSystem, root: Path)
    requires SameBelow(root, fs, gs)
    ensures DeclaredManifest(env, fs, root) == DeclaredManifest(env, gs, root)
    ensures forall m :: Runs(env, fs, root, m) <==> Runs(env, gs, root, m)
    ensures forall m :: Accepted(env, fs, root, m) <==> Accepted(env, gs, root, m)
    ensures forall chains :: ChainResults(env, fs, root, chains) == ChainResults(env, gs, root, chains)
    ensures forall records :: DecisionResults(env, fs, root, records) == DecisionResults(env, gs, root, records)
    ensures forall m: Manifest, keys: seq<string> | (forall i :: 0 <= i < |keys| ==> keys[i] in m.fileHashes) ::
              FileResults(env, fs, root, m, keys) == FileResults(env, gs, root, m, keys)
  {
    hide ChainErrors, DecisionErrors, FileErrors;
    forall chain { ChainContained(env, fs, gs, root, chain); }
    forall record { DecisionContained(env, fs, gs, root, record); }
    forall relative, payload { FileContained(env, fs, gs, root, relative, payload); }
  }

  // -------------------------------------------------------- tamper evidence

  ghost predicate HashInjective(env: Env) {
    forall a, b :: env.fileHash(a) == env.fileHash(b) ==> a == b
  }

  lemma FileGoodIff(env: Env, fs: FileSystem, root: Path, relative: string, payload: Json)
    ensures FileErrors(env, fs, root, relative, payload) == Some([]) <==>
            && Member(root, relative).Some? && Member(root, relative).value in fs.files && payload.Obj?
            && Get(payload.fields, "value") == Str(env.fileHash(fs.files[Member(root, relative).value]))
  {
  }

  /** Two trees, wherever they lie, that verify under one manifest have the same bytes in
      every declared file. */
  lemma TamperEvidence(env: Env, fs: FileSystem, root: Path, gs: FileSystem, root': Path, m: Manifest, k: string)
    requires HashInjective(env) && Accepted(env, fs, root, m) && Accepted(env, gs, root', m) && k in m.fileHashes
    ensures Member(root, k).Some? && Member(root', k).Some?
    ensures Member(root, k).value in fs.files && Member(root', k).value in gs.files
    ensures fs.files[Member(root, k).value] == gs.files[Member(root', k).value]
  {
    hide FileErrors, ChainErrors, DecisionErrors, Member;
    FileGoodIff(env, fs, root, k, m.fileHashes[k]);
    FileGoodIff(env, gs, root', k, m.fileHashes[k]);
  }

  /** An artifact is taken exactly when the declared path lies inside the bundle, holds a
      file that parses, and identifier and digest are the declared ones. */
  lemma ArtifactGoodIff(env: Env, fs: FileSystem, root: Path, payload: Json, kind: Kind, idField: string, a: Artifact)
    ensures VerifyArtifact(env, fs, root, payload, kind, idField) == Good(a) <==>
            && payload.Obj? && Get(payload.fields, "path").Str?
            && var target := Member(root, Get(payload.fields, "path").text);
               && target.Some? && target.value in fs.files && Load(env, kind, fs.files[target.value]) == Some(a)
               && Get(payload.fields, idField) == Str(IdOf(a))
               && env.digest(a).Some? && Get(payload.fields, "digest") == Obj(env.digest(a).value)
  {
    hide Member, Load, IdOf;
  }

  /** One description is met by one artifact, in whatever tree it is found. */
  lemma ArtifactTamperEvidence(env: Env, fs: FileSystem, root: Path, gs: FileSystem, root': Path,
                               payload: Json, kind: Kind, idField: string, a: Artifact, b: Artifact)
    requires forall x, y :: env.digest(x).Some? && env.digest(x) == env.digest(y) ==> x == y
    requires VerifyArtifact(env, fs, root, payload, kind, idField) == Good(a)
    requires VerifyArtifact(env, gs, root', payload, kind, idField) == Good(b)
    ensures a == b
  {
    hide VerifyArtifact;
    ArtifactGoodIff(env, fs, root, payload, kind, idField, a);
    ArtifactGoodIff(env, gs, root', payload, kind, idField, b);
  }

  // ---------------------------------------------------------- linked chains

  /** The entry declares the proof's action hash. */
  ghost predicate DeclaresHash(chain: Dict, p: Artifact)
    requires p.APccb?
  {
    && "action_hash" in chain && chain["action_hash"].Obj?
    && "value" in chain["action_hash"].fields && chain["action_hash"].fields["value"] == Str(p.actionHash)
  }

  /** Intent, proof and receipt are there and all belong to the one intent. */
  ghost predicate ReceiptHolds(env: Env, chain: Dict, i: Check, p: Check, r: Check) {
    && i.Good? && i.artifact.AnIntent? && p.Good? && p.artifact.APccb? && r.Good? && r.artifact.AReceipt?
    && PccbLinked(env, i.artifact.intent, p.artifact) && ReceiptLinked(r.artifact, i.artifact.intent, p.artifact)
    && DeclaresHash(chain, p.artifact)
  }

  /** Intent, proof, refusal and the supporting receipt, if one is declared, belong together. */
  ghost predicate RefusalHolds(chain: Dict, i: Check, p: Check, f: Check, supported: bool, s: Check) {
    && i.Good? && i.artifact.AnIntent? && p.Good? && p.artifact.APccb? && f.Good? && f.artifact.ARefusal?
    && (supported ==> s.Good? && s.artifact.AReceipt?)
    && RefusalLinked(f.artifact, i.artifact.intent, p.artifact, if supported then Some(s.artifact) else None)
    && DeclaresHash(chain, p.artifact)
  }

  /** A receipt chain is accepted exactly when its three artifacts are the declared ones
      and proof, receipt and declared hash all belong to the one intent. */
  lemma ReceiptChainIff(env: Env, fs: FileSystem, root: Path, chain: Dict)
    requires Get(chain, "outcome").Obj? && Get(Get(chain, "outcome").fields, "type") == Str("receipt")
    ensures var i := VerifyArtifact(env, fs, root, Get(chain, "intent"), IntentKind, "intent_id");
            var p := VerifyArtifact(env, fs, root, Get(chain, "pccb"), PccbKind, "pccb_id");
            var r := VerifyArtifact(env, fs, root, Get(chain, "outcome"), ReceiptKind, "id");
            ChainErrors(env, fs, root, Obj(chain)) == Some([]) <==> ReceiptHolds(env, chain, i, p, r)
  {
    hide VerifyArtifact, PccbErrors, ReceiptErrors, PccbLinked, ReceiptLinked, HashDeclared, Get, DeclaresHash;
    var i := VerifyArtifact(env, fs, root, Get(chain, "intent"), IntentKind, "intent_id");
    var p := VerifyArtifact(env, fs, root, Get(chain, "pccb"), PccbKind, "pccb_id");
    if i.Good? && p.Good? {
      DeclaresIff(chain, p.artifact);
      assert ChainErrors(env, fs, root, Obj(chain)) ==
             OutcomeErrors(env, fs, root, chain, i.artifact.intent, p.artifact);
      ReceiptOutcomeIff(env, fs, root, chain, i.artifact.intent, p.artifact);
    }
  }

  lemma DeclaresIff(chain: Dict, p: Artifact)
    requires p.APccb?
    ensures HashDeclared(chain, p) <==> DeclaresHash(chain, p)
  {
  }

  lemma NoErrors(a: seq<string>, b: seq<string>, c: seq<string>)
    ensures a + b + c == [] <==> a == [] && b == [] && c == []
  {
    assert |a + b + c| == |a| + |b| + |c|;
  }

  lemma ReceiptOutcomeIff(env: Env, fs: FileSystem, root: Path, chain: Dict, i: BC.Intent, p: Artifact)
    requires p.APccb? && Get(chain, "outcome").Obj? && Get(Get(chain, "outcome").fields, "type") == Str("receipt")
    ensures var r := VerifyArtifact(env, fs, root, Get(chain, "outcome"), ReceiptKind, "id");
            OutcomeErrors(env, fs, root, chain, i, p) == Some([]) <==>
            r.Good? && PccbLinked(env, i, p) && ReceiptLinked(r.artifact, i, p) && HashDeclared(chain, p)
  {
    hide VerifyArtifact, PccbErrors, ReceiptErrors, PccbLinked, ReceiptLinked, HashDeclared, Get;
    var r := VerifyArtifact(env, fs, root, Get(chain, "outcome"), ReceiptKind, "id");
    if r.Good? {
      NoErrors(PccbErrors(env, i, p), ReceiptErrors(r.artifact, i, p), When(!HashDeclared(chain, p), "action hash"));
    }
  }

  /** A refusal chain is accepted without comparing its proof with its intent: refusal,
      proof id and supporting receipt have to belong together. */
  lemma RefusalChainIff(env: Env, fs: FileSystem, root: Path, chain: Dict)
    requires Get(chain, "outcome").Obj? && Get(Get(chain, "outcome").fields, "type") == Str("refusal")
    ensures var i := VerifyArtifact(env, fs, root, Get(chain, "intent"), IntentKind, "intent_id");
            var p := VerifyArtifact(env, fs, root, Get(chain, "pccb"), PccbKind, "pccb_id");
            var f := VerifyArtifact(env, fs, root, Get(chain, "outcome"), RefusalKind, "id");
            var s := VerifyArtifact(env, fs, root, Get(chain, "supporting_receipt"), ReceiptKind, "receipt_id");
            var supported := Get(chain, "supporting_receipt").Obj?;
            ChainErrors(env, fs, root, Obj(chain)) == Some([]) <==> RefusalHolds(chain, i, p, f, supported, s)
  {
    hide VerifyArtifact, RefusalErrors, RefusalLinked, HashDeclared, Get, DeclaresHash;
    var i := VerifyArtifact(env, fs, root, Get(chain, "intent"), IntentKind, "intent_id");
    var p := VerifyArtifact(env, fs, root, Get(chain, "pccb"), PccbKind, "pccb_id");
    if i.Good? && p.Good? {
      DeclaresIff(chain, p.artifact);
      assert ChainErrors(env, fs, root, Obj(chain)) ==
             OutcomeErrors(env, fs, root, chain, i.artifact.intent, p.artifact);
      RefusalOutcomeIff(env, fs, root, chain, i.artifact.intent, p.artifact);
    }
  }

  lemma RefusalOutcomeIff(env: Env, fs: FileSystem, root: Path, chain: Dict, i: BC.Intent, p: Artifact)
    requires p.APccb? && Get(chain, "outcome").Obj? && Get(Get(chain, "outcome").fields, "type") == Str("refusal")
    ensures var f := VerifyArtifact(env, fs, root, Get(chain, "outcome"), RefusalKind, "id");
            var s := VerifyArtifact(env, fs, root, Get(chain, "supporting_receipt"), ReceiptKind, "receipt_id");
            var supported := Get(chain, "supporting_receipt").Obj?;
            OutcomeErrors(env, fs, root, chain, i, p) == Some([]) <==>
            && f.Good? && (supported ==> s.Good?)
            && RefusalLinked(f.artifact, i, p, if supported then Some(s.artifact) else None) && HashDeclared(chain, p)
  {
    hide VerifyArtifact, RefusalErrors, RefusalLinked, HashDeclared, Get;
    var f := VerifyArtifact(env, fs, root, Get(chain, "outcome"), RefusalKind, "id");
    var s := VerifyArtifact(env, fs, root, Get(chain, "supporting_receipt"), ReceiptKind, "receipt_id");
    var hashError := When(!HashDeclared(chain, p), "action hash");
    assert "refusal" != "receipt" by { assert "refusal"[2] != "receipt"[2]; }
    if f.Good? {
      NoErrors([], RefusalErrors(f.artifact, i, p, None), hashError);
      if s.Good? {
        NoErrors([], RefusalErrors(f.artifact, i, p, Some(s.artifact)), hashError);
      }
    }
  }

  /** Whatever is declared as a chain, it is accepted exactly in one of these two ways. */
  lemma ChainAcceptedIff(env: Env, fs: FileSystem, root: Path, chain: Json)
    ensures ChainErrors(env, fs, root, chain) == Some([]) <==>
            && chain.Obj? && Get(chain.fields, "outcome").Obj?
            && var x := chain.fields;
               var i := VerifyArtifact(env, fs, root, Get(x, "intent"), IntentKind, "intent_id");
               var p := VerifyArtifact(env, fs, root, Get(x, "pccb"), PccbKind, "pccb_id");
               match Get(Get(x, "outcome").fields, "type")
               case Str("receipt") =>
                 ReceiptHolds(env, x, i, p, VerifyArtifact(env, fs, root, Get(x, "outcome"), ReceiptKind, "id"))
               case Str("refusal") =>
                 RefusalHolds(x, i, p, VerifyArtifact(env, fs, root, Get(x, "outcome"), RefusalKind, "id"),
                              Get(x, "supporting_receipt").Obj?,
                              VerifyArtifact(env, fs, root, Get(x, "supporting_receipt"), ReceiptKind, "receipt_id"))
               case _ => false
  {
    hide VerifyArtifact, Get, ReceiptHolds, RefusalHolds, PccbErrors, ReceiptErrors, RefusalErrors, HashDeclared;
    if chain.Obj? && Get(chain.fields, "outcome").Obj? {
      var kind := Get(Get(chain.fields, "outcome").fields, "type");
      if kind == Str("receipt") {
        ReceiptChainIff(env, fs, root, chain.fields);
      } else if kind == Str("refusal") {
        RefusalChainIff(env, fs, root, chain.fields);
      }
    }
  }

  /** A decision record is accepted exactly when intent and receipt are the declared ones and
      the receipt names the intent. */
  lemma DecisionAcceptedIff(env: Env, fs: FileSystem, root: Path, record: Json)
    ensures DecisionErrors(env, fs, root, record) == Some([]) <==>
            && record.Obj?
            && var i := VerifyArtifact(env, fs, root, Get(record.fields, "intent"), IntentKind, "intent_id");
               var r := VerifyArtifact(env, fs, root, Get(record.fields, "decision_receipt"), ReceiptKind,
                                       "receipt_id");
               i.Good? && r.Good? && r.artifact.intentOf == i.artifact.intent.intentId
  {
    hide VerifyArtifact, Get;
  }

  // ------------------------------------------------------ where it raises

  /** The check of an artifact raises exactly on a directory, on content that does not parse,
      and on an artifact with the declared identifier that has no digest to compare. */
  lemma ArtifactRaisesIff(env: Env, fs: FileSystem, root: Path, payload: Json, kind: Kind, idField: string)
    ensures VerifyArtifact(env, fs, root, payload, kind, idField).Raised? <==>
            && payload.Obj? && Get(payload.fields, "path").Str?
            && Member(root, Get(payload.fields, "path").text).Some?
            && var p := Member(root, Get(payload.fields, "path").text).value;
               || (p !in fs.files && p in fs.dirs)
               || (p in fs.files && Load(env, kind, fs.files[p]).None?)
               || (&& p in fs.files && Load(env, kind, fs.files[p]).Some?
                   && var a := Load(env, kind, fs.files[p]).value;
                      && Get(payload.fields, idField) == Str(IdOf(a)) && Get(payload.fields, "digest").Obj?
                      && env.digest(a).None?)
  {
    hide Member, Load, IdOf;
  }

  /** The check of a file raises exactly on a hash entry that is no object. */
  lemma FileRaisesIff(env: Env, fs: FileSystem, root: Path, relative: string, payload: Json)
    ensures FileErrors(env, fs, root, relative, payload).None? <==>
            Member(root, relative).Some? && Member(root, relative).value in fs.files && !payload.Obj?
  {
  }

  /** The check of a chain raises exactly when that of the first artifact without error does,
      in the order intent, proof, outcome, supporting receipt. */
  lemma ChainRaisesIff(env: Env, fs: FileSystem, root: Path, chain: Json)
    ensures ChainErrors(env, fs, root, chain).None? <==>
            && chain.Obj?
            && var x := chain.fields;
               var i := VerifyArtifact(env, fs, root, Get(x, "intent"), IntentKind, "intent_id");
               var p := VerifyArtifact(env, fs, root, Get(x, "pccb"), PccbKind, "pccb_id");
               || i.Raised? || (i.Good? && p.Raised?) || (i.Good? && p.Good? && OutcomeRaises(env, fs, root, x))
  {
    hide VerifyArtifact, Get, PccbErrors, ReceiptErrors, RefusalErrors, HashDeclared;
    assert "refusal" != "receipt" by { assert "refusal"[2] != "receipt"[2]; }
  }

  ghost predicate OutcomeRaises(env: Env, fs: FileSystem, root: Path, x: Dict) {
    var outcome, support := Get(x, "outcome"), Get(x, "supporting_receipt");
    && outcome.Obj?
    && match Get(outcome.fields, "type")
       case Str("receipt") => VerifyArtifact(env, fs, root, outcome, ReceiptKind, "id").Raised?
       case Str("refusal") =>
         var f := VerifyArtifact(env, fs, root, outcome, RefusalKind, "id");
         || f.Raised?
         || (f.Good? && support.Obj? && VerifyArtifact(env, fs, root, support, ReceiptKind, "receipt_id").Raised?)
       case _ => false
  }

  lemma DecisionRaisesIff(env: Env, fs: FileSystem, root: Path, record: Json)
    ensures DecisionErrors(env, fs, root, record).None? <==>
            && record.Obj?
            && var i := VerifyArtifact(env, fs, root, Get(record.fields, "intent"), IntentKind, "intent_id");
               var r := VerifyArtifact(env, fs, root, Get(record.fields, "decision_receipt"), ReceiptKind,
                                       "receipt_id");
               i.Raised? || (i.Good? && r.Raised?)
  {
    hide VerifyArtifact, Get;
  }

  /** A manifest is read exactly when it declares the format and an object and three lists,
      or leaves those out; what is left out is empty. */
  lemma ReadManifestIff(d: Dict, m: Manifest)
    ensures ReadManifest(d) == Some(m) <==>
            && "format" in d && d["format"] == Str("actenon-local-runtime-bundle-v1")
            && (if "file_hashes" in d then d["file_hashes"] == Obj(m.fileHashes) else m.fileHashes == map[])
            && (if "entries" in d then d["entries"] == Arr(m.entries) else m.entries == [])
            && (if "evidence_chains" in d then d["evidence_chains"] == Arr(m.chains) else m.chains == [])
            && (if "decision_records" in d then d["decision_records"] == Arr(m.decisions) else m.decisions == [])
  {
  }

  ghost function Passed(results: seq<Option<seq<string>>>): (r: set<int>) {
    set i | 0 <= i < |results| && results[i] == Some([])
  }

  lemma PassedStep(results: seq<Option<seq<string>>>)
    requires results != []
    ensures var n := |results| - 1;
            |Passed(results)| == |Passed(results[..n])| + if results[n] == Some([]) then 1 else 0
  {
    var n := |results| - 1;
    var before := Passed(results[..n]);
    assert Passed(results) == if results[n] == Some([]) then before + {n} else before;
  }

  /** The counts of a report are numbers of checks without errors. */
  lemma {:induction false} PassingCounts(results: seq<Option<seq<string>>>)
    ensures Passing(results) == |Passed(results)|
  {
    if results == [] {
      assert Passed(results) == {};
    } else {
      hide Passed;
      PassingCounts(results[..|results| - 1]);
      PassedStep(results);
    }
  }

  // ----------------------------------------- a refusal with another's proof

  /** Any environment, with files that hold these three artifacts. */
  function OneOfEach(env: Env, i: BC.Intent, p: Artifact, f: Artifact): Env {
    var parse := (kind: Kind, bytes: Bytes) =>
                   match kind
                   case IntentKind => Some(AnIntent(i))
                   case PccbKind => Some(p)
                   case ReceiptKind => None
                   case RefusalKind => Some(f);
    env.(parse := parse)
  }

  function Entry(env: Env, path: string, idField: string, a: Artifact): Dict {
    map["path" := Str(path), "digest" := Obj(DigestOf(env, a))][idField := Str(IdOf(a))]
  }

  function OutcomeEntry(env: Env, f: Artifact): Dict { Entry(env, "f", "id", f)["type" := Str("refusal")] }

  function RefusalEntry(env: Env, i: BC.Intent, p: Artifact, f: Artifact): Dict
    requires p.APccb?
  {
    map["intent" := Obj(Entry(env, "i", "intent_id", AnIntent(i))), "pccb" := Obj(Entry(env, "p", "pccb_id", p)),
        "outcome" := Obj(OutcomeEntry(env, f)), "action_hash" := Obj(map["value" := Str(p.actionHash)])]
  }

  const THREE_FILES := FileSystem(map[["i"] := "", ["p"] := "", ["f"] := ""], {})

  lemma EntryGood(env: Env, name: string, payload: Dict, kind: Kind, idField: string, a: Artifact)
    requires name in {"i", "p", "f"} && Get(payload, "path") == Str(name)
    requires env.digest(a).Some? && Get(payload, "digest") == Obj(env.digest(a).value)
    requires Get(payload, idField) == Str(IdOf(a)) && Load(env, kind, "") == Some(a)
    ensures VerifyArtifact(env, THREE_FILES, [], Obj(payload), kind, idField) == Good(a)
  {
    hide Get, Load, IdOf, Member;
    MemberOfPosix([], [name]);
    assert [] + [name] == [name] && Posix([name]) == name;
    ArtifactGoodIff(env, THREE_FILES, [], Obj(payload), kind, idField, a);
  }

  lemma EntryReads(env: Env, i: BC.Intent, p: Artifact, f: Artifact)
    requires p.APccb? && f.ARefusal?
    ensures var c := RefusalEntry(env, i, p, f);
            && Get(c, "intent") == Obj(Entry(env, "i", "intent_id", AnIntent(i)))
            && Get(c, "pccb") == Obj(Entry(env, "p", "pccb_id", p)) && Get(c, "outcome") == Obj(OutcomeEntry(env, f))
            && !Get(c, "supporting_receipt").Obj? && HashDeclared(c, p)
  {
    hide Entry, OutcomeEntry;
    var c := RefusalEntry(env, i, p, f);
    assert Get(c, "action_hash") == Obj(map["value" := Str(p.actionHash)]);
  }

  ghost predicate AllDigest(env: Env, i: BC.Intent, p: Artifact, f: Artifact) {
    env.digest(AnIntent(i)).Some? && env.digest(p).Some? && env.digest(f).Some?
  }

  /** In every environment, a refusal of the intent that names the proof's id is accepted with
      that proof, whatever intent the proof was issued for. */
  lemma RefusalTakesAnyProof(env: Env, i: BC.Intent, p: Artifact, f: Artifact)
    requires p.APccb? && f.ARefusal? && f.refused == Some(i.intentId) && CorrelatesTo(f.correlation, p.pccbId)
    requires AllDigest(env, i, p, f)
    ensures ChainErrors(OneOfEach(env, i, p, f), THREE_FILES, [], Obj(RefusalEntry(env, i, p, f))) == Some([])
  {
    hide RefusalEntry, VerifyArtifact, OneOfEach, Entry, HashDeclared, ChainErrors, Get, IdOf, AllDigest, OutcomeEntry;
    EntryReads(env, i, p, f);
    OutcomeReads(env, f);
    AllThreeGood(env, i, p, f);
    DeclaresIff(RefusalEntry(env, i, p, f), p);
    RefusalChainIff(OneOfEach(env, i, p, f), THREE_FILES, [], RefusalEntry(env, i, p, f));
  }

  lemma OutcomeReads(env: Env, f: Artifact)
    ensures var outcome := OutcomeEntry(env, f);
            && Get(outcome, "type") == Str("refusal") && Get(outcome, "path") == Str("f")
            && Get(outcome, "id") == Str(IdOf(f)) && Get(outcome, "digest") == Obj(DigestOf(env, f))
  {
    hide IdOf, DigestOf;
  }

  lemma AllThreeGood(env: Env, i: BC.Intent, p: Artifact, f: Artifact)
    requires p.APccb? && f.ARefusal? && AllDigest(env, i, p, f)
    ensures var e := OneOfEach(env, i, p, f);
            var intent, pccb := Entry(env, "i", "intent_id", AnIntent(i)), Entry(env, "p", "pccb_id", p);
            && VerifyArtifact(e, THREE_FILES, [], Obj(intent), IntentKind, "intent_id") == Good(AnIntent(i))
            && VerifyArtifact(e, THREE_FILES, [], Obj(pccb), PccbKind, "pccb_id") == Good(p)
            && VerifyArtifact(e, THREE_FILES, [], Obj(OutcomeEntry(env, f)), RefusalKind, "id") == Good(f)
  {
    hide VerifyArtifact;
    var e := OneOfEach(env, i, p, f);
    OutcomeReads(env, f);
    EntryGood(e, "i", Entry(env, "i", "intent_id", AnIntent(i)), IntentKind, "intent_id", AnIntent(i));
    EntryGood(e, "p", Entry(env, "p", "pccb_id", p), PccbKind, "pccb_id", p);
    hide Entry;
    EntryGood(e, "f", OutcomeEntry(env, f), RefusalKind, "id", f);
  }

  /** A proof of the intent's fields with the hash of another. */
  function OtherProof(env: Env, i: BC.Intent): Artifact {
    APccb("p", Some(i.intentId), i.tenant, i.requester, i.action, i.target, env.h(BC.ActionHashInput(i)) + "0", Null)
  }

  function ItsRefusal(i: BC.Intent): Artifact {
    ARefusal("f", Some(i.intentId), "POLICY_DENIED", Some(Correlation(Some("p"), None)), Null)
  }

  lemma OtherHash(env: Env, i: BC.Intent)
    ensures var p, f := OtherProof(env, i), ItsRefusal(i);
            && p.APccb? && f.ARefusal? && f.refused == Some(i.intentId) && CorrelatesTo(f.correlation, p.pccbId)
            && !PccbLinked(OneOfEach(env, i, p, f), i, p)
  {
    hide BC.ActionHashInput, BC.SameAction, BC.SameTarget, JsonEqual;
    assert |OtherProof(env, i).actionHash| != |env.h(BC.ActionHashInput(i))|;
  }

  /** So in every environment that can digest them there is an accepted chain whose proof is
      not that of its intent: its action hash is another. */
  lemma UnlinkedChainAccepted(env: Env, i: BC.Intent)
    requires AllDigest(env, i, OtherProof(env, i), ItsRefusal(i))
    ensures var p, f := OtherProof(env, i), ItsRefusal(i);
            var e, chain := OneOfEach(env, i, p, f), RefusalEntry(env, i, p, f);
            && ChainErrors(e, THREE_FILES, [], Obj(chain)) == Some([])
            && VerifyArtifact(e, THREE_FILES, [], Get(chain, "intent"), IntentKind, "intent_id") == Good(AnIntent(i))
            && VerifyArtifact(e, THREE_FILES, [], Get(chain, "pccb"), PccbKind, "pccb_id") == Good(p)
            && !PccbLinked(e, i, p)
  {
    hide RefusalEntry, VerifyArtifact, Entry, OutcomeEntry, ChainErrors, Get, OneOfEach, PccbLinked, AllDigest;
    hide OtherProof, ItsRefusal;
    var p, f := OtherProof(env, i), ItsRefusal(i);
    OtherHash(env, i);
    EntryReads(env, i, p, f);
    AllThreeGood(env, i, p, f);
    RefusalTakesAnyProof(env, i, p, f);
  }

  /** An accepted receipt chain carries the proof of its intent and of no other: with a
      collision-free digest the action hash fixes every signed field of the intent. */
  lemma AcceptedProofFixesIntent(env: Env, i: BC.Intent, j: BC.Intent, p: Artifact)
    requires CollisionFree(env.h) && p.APccb? && PccbLinked(env, i, p) && PccbLinked(env, j, p)
    ensures i.(rest := j.rest) == j
  {
    BC.ActionHashFixesIntent(env.h, i, j);
  }
}
