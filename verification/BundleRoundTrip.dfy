/** A manifest verified against the tree it was built from, or a copy of it. */
module BundleRoundTrip {
  import opened Wrappers
  import opened CanonicalJson
  import opened Dicts
  import opened BundlePaths
  import opened BundleVerify
  import opened BundleExport

  /** The bundle at `root` holds, unchanged, every file of the runtime that its entries
      cover. */
  ghost predicate Carries(rt: Runtime, fs: FileSystem, root: Path) {
    forall p :: rt.root + p in rt.fs.files && Covered(rt, p) ==>
      root + p in fs.files && fs.files[root + p] == rt.fs.files[rt.root + p]
  }

  /** A directory fails if building its chain or its decision record raises. */
  ghost predicate Fails(env: Env, rt: Runtime, d: Path) {
    ChainRaises(env, rt, d) || DecisionRaises(env, rt, d)
  }

  method BuildManifest(env: Env, rt: Runtime)
    returns (m: Option<Manifest>, chains: seq<(Path, Chain)>, decisions: seq<(Path, Artifact, Artifact)>)
    requires WellFormed(rt)
    ensures m.None? <==> exists d :: Candidate(rt, CHAIN_ROOTS, |CHAIN_ROOTS|, d) && Fails(env, rt, d)
    ensures m.Some? ==> Describes(env, rt, m.value, chains, decisions)
  {
    hide ChainRaises, DecisionRaises, ChainJson, DecisionJson, Candidate, Ephemeral, GivesChain, GivesDecision;
    hide BundleEntries, FileHashed, Hashed, ChainDescribed, DecisionDescribed, EntryNames;
    var entries := BundleEntries(rt);
    EntriesShort(rt);
    var files := BundleFileEntries(rt, entries);
    var hashes := BuildFileHashes(env, rt, files);
    var dirs := CandidateDirs(rt, CHAIN_ROOTS);
    assert forall i :: 0 <= i < |dirs| ==> dirs[i] in dirs;
    var chainJson, decisionJson;
    chainJson, chains := BuildChains(env, rt, dirs);
    decisionJson, decisions := BuildDecisions(env, rt, dirs);
    if chainJson.None? || decisionJson.None? {
      assert exists i :: 0 <= i < |dirs| && Fails(env, rt, dirs[i]);
      return None, chains, decisions;
    }
    m := Some(Manifest(EntryNames(rt), hashes, chainJson.value, decisionJson.value));
  }

  lemma EntriesShort(rt: Runtime)
    ensures forall i :: 0 <= i < |BundleEntries(rt)| ==> BundleEntries(rt)[i] != [] && Clean(BundleEntries(rt)[i])
  {
    hide Present, CleanSegment;
    NamesClean();
    OptionalClean();
  }

  lemma NamesClean()
    ensures CleanSegment("runtime_manifest.json") && CleanSegment("SUMMARY.txt")
  {
  }

  lemma OptionalClean()
    ensures forall name :: name in OPTIONAL ==> CleanSegment(name)
  {
    assert CleanSegment("service_manifest.json") && CleanSegment("labs") && CleanSegment("artifacts");
    assert CleanSegment("state") && CleanSegment("simulations") && CleanSegment("keys");
  }

  // ------------------------------------------------------------- artifacts

  lemma DescribedVerifies(env: Env, rt: Runtime, fs: FileSystem, root: Path, p: Path, kind: Kind, idField: string,
                          payload: Dict, a: Artifact)
    requires Carries(rt, fs, root) && Covered(rt, p) && p != [] && Clean(p) && LoadAt(env, rt, kind, p) == Some(a)
    requires Get(payload, "path") == Str(Posix(p)) && Get(payload, idField) == Str(IdOf(a))
    requires env.digest(a).Some? && Get(payload, "digest") == Obj(env.digest(a).value)
    ensures VerifyArtifact(env, fs, root, Obj(payload), kind, idField) == Good(a)
  {
    hide Get, Posix, Member, IdOf, Covered;
    MemberOfPosix(root, p);
  }

  /** Every artifact in a candidate directory is copied. */
  lemma CandidateCovered(env: Env, rt: Runtime, d: Path, kind: Kind, p: Path)
    requires WellFormed(rt) && Candidate(rt, CHAIN_ROOTS, |CHAIN_ROOTS|, d) && InDir(p, d)
    requires LoadAt(env, rt, kind, p).Some?
    ensures Covered(rt, p) && Clean(p) && Clean(d)
  {
    hide LoadAt, Covers, BundleEntries, Clean, Exists;
    StoredIsClean(env, rt, kind, p);
    CandidateTop(rt, d);
    assert p == d + [p[|p| - 1]];
    CleanPrefix(d, p[|p| - 1]);
    TopCovers(rt, p);
  }

  lemma CandidateTop(rt: Runtime, d: Path)
    requires Candidate(rt, CHAIN_ROOTS, |CHAIN_ROOTS|, d)
    ensures d != [] && d[0] in OPTIONAL
  {
    var r :| 0 <= r < |CHAIN_ROOTS| && CHAIN_ROOTS[r] <= d;
    assert CHAIN_ROOTS[r] in CHAIN_ROOTS && d[0] == CHAIN_ROOTS[r][0];
    assert OPTIONAL[1] == "labs" && OPTIONAL[2] == "artifacts" && OPTIONAL[4] == "simulations";
  }

  lemma TopCovers(rt: Runtime, p: Path)
    requires WellFormed(rt) && |p| >= 2 && rt.root + p in rt.fs.files && p[0] in OPTIONAL
    ensures Covered(rt, p)
  {
    hide BundleEntries, Clean;
    assert p in rt.order;
    assert ParentsAreDirs(rt, p);
    assert p[..1] == [p[0]];
    PresentHas(rt, OPTIONAL, p[0]);
    EntriesHave(rt, [p[0]]);
    var i :| 0 <= i < |BundleEntries(rt)| && BundleEntries(rt)[i] == [p[0]];
    assert Covers(rt, BundleEntries(rt)[i], p);
  }

  /** What a description says of an artifact in a candidate directory is found again. */
  lemma FoundAgain(env: Env, rt: Runtime, fs: FileSystem, root: Path, d: Path, p: Path, kind: Kind, idField: string,
                   payload: Dict, a: Artifact)
    requires WellFormed(rt) && Candidate(rt, CHAIN_ROOTS, |CHAIN_ROOTS|, d) && Carries(rt, fs, root)
    requires InDir(p, d) && LoadAt(env, rt, kind, p) == Some(a)
    requires Get(payload, "path") == Str(Posix(p)) && Get(payload, idField) == Str(IdOf(a))
    requires env.digest(a).Some? && Get(payload, "digest") == Obj(env.digest(a).value)
    ensures VerifyArtifact(env, fs, root, Obj(payload), kind, idField) == Good(a)
  {
    hide Carries, WellFormed, Candidate, LoadAt, Get, Posix, IdOf, VerifyArtifact;
    CandidateCovered(env, rt, d, kind, p);
    DescribedVerifies(env, rt, fs, root, p, kind, idField, payload, a);
  }

  lemma Joined(d: Path, name: string)
    ensures InDir(d + [name], d)
  {
    assert (d + [name])[..|d|] == d;
  }

  lemma EntriesHave(rt: Runtime, e: Path)
    requires e in Present(rt, OPTIONAL)
    ensures e in BundleEntries(rt)
  {
  }

  lemma DescribedReads(env: Env, p: Path, idField: string, a: Artifact)
    requires p != [] && idField != "path" && idField != "digest"
    ensures var d := Described(env, p, idField, a);
            && Get(d, "path") == Str(Posix(p)) && Get(d, idField) == Str(IdOf(a))
            && Get(d, "digest") == Obj(DigestOf(env, a))
  {
  }

  lemma ReceiptReads(env: Env, p: Path, a: Artifact)
    requires p != [] && a.AReceipt?
    ensures var d := DescribedReceipt(env, p, a);
            && Get(d, "path") == Str(Posix(p)) && Get(d, "receipt_id") == Str(IdOf(a))
            && Get(d, "digest") == Obj(DigestOf(env, a)) && Get(d, "outcome") == Str(a.outcome)
  {
  }

  lemma OutcomeReads(env: Env, p: Path, kind: string, outcome: string, a: Artifact)
    requires p != []
    ensures var d := DescribedOutcome(env, p, kind, outcome, a);
            && Get(d, "type") == Str(kind) && Get(d, "path") == Str(Posix(p)) && Get(d, "id") == Str(IdOf(a))
            && Get(d, "digest") == Obj(DigestOf(env, a)) && Get(d, "outcome") == Str(outcome)
  {
  }

  lemma BaseReads(env: Env, d: Path, c: Chain, outcome: Json)
    requires c.pccb.APccb?
    ensures var x := ChainBase(env, d, c, outcome);
            && Get(x, "intent") == Obj(Described(env, d + [INTENT], "intent_id", c.intent))
            && Get(x, "pccb") == Obj(Described(env, d + [PCCB], "pccb_id", c.pccb)) && Get(x, "outcome") == outcome
            && Get(x, "action_hash") == Obj(map["value" := Str(c.pccb.actionHash)])
            && Get(x, "supporting_receipt") == Null && Get(x, "intent_record") == Null
            && Get(x, "chain_id") == Str("pccb:" + c.pccb.pccbId)
            && Get(x, "directory") == Str(if d == [] then "." else Posix(d))
  {
    hide Described;
  }

  /** What a chain's entry says, field by field. */
  lemma ChainReads(env: Env, rt: Runtime, d: Path, c: Chain)
    requires Kinds(c)
    ensures var x := ChainJson(env, rt, d, c);
            && Get(x, "chain_id") == Str("pccb:" + c.pccb.pccbId)
            && Get(x, "directory") == Str(if d == [] then "." else Posix(d))
            && Get(x, "intent_record") == (if RecordJson(env, rt, d).Some? then RecordJson(env, rt, d).value else Null)
            && Get(x, "intent") == Obj(Described(env, d + [INTENT], "intent_id", c.intent))
            && Get(x, "pccb") == Obj(Described(env, d + [PCCB], "pccb_id", c.pccb))
            && Get(x, "outcome") == OutcomeJson(env, d, c)
            && Get(x, "action_hash") == Obj(map["value" := Str(c.pccb.actionHash)])
            && Get(x, "supporting_receipt") == (if SupportJson(env, c).Some? then SupportJson(env, c).value else Null)
  {
    hide Described, ChainBase, OutcomeJson, SupportJson, RecordJson, Get, ChainJson;
    BaseReads(env, d, c, OutcomeJson(env, d, c));
    ChainGet(env, rt, d, c, "chain_id");
    ChainGet(env, rt, d, c, "directory");
    ChainGet(env, rt, d, c, "intent_record");
    ChainGet(env, rt, d, c, "intent");
    ChainGet(env, rt, d, c, "pccb");
    ChainGet(env, rt, d, c, "outcome");
    ChainGet(env, rt, d, c, "action_hash");
    ChainGet(env, rt, d, c, "supporting_receipt");
  }

  lemma ChainGet(env: Env, rt: Runtime, d: Path, c: Chain, k: string)
    requires Kinds(c)
    ensures var record, support := RecordJson(env, rt, d), SupportJson(env, c);
            Get(ChainJson(env, rt, d, c), k) ==
            (if k == "intent_record" && record.Some? then record.value
             else if k == "supporting_receipt" && support.Some? then support.value
             else Get(ChainBase(env, d, c, OutcomeJson(env, d, c)), k))
  {
    hide ChainBase, OutcomeJson, SupportJson, RecordJson, With, Get;
    var base := ChainBase(env, d, c, OutcomeJson(env, d, c));
    GetWith(base, "supporting_receipt", SupportJson(env, c), k);
    GetWith(With(base, "supporting_receipt", SupportJson(env, c)), "intent_record", RecordJson(env, rt, d), k);
  }

  /** The entry names the file, the identifier and the digest of an artifact. */
  ghost predicate Names(j: Json, p: Path, idField: string, id: string, digest: Dict)
    requires p != []
  {
    && j.Obj? && Get(j.fields, "path") == Str(Posix(p)) && Get(j.fields, idField) == Str(id)
    && Get(j.fields, "digest") == Obj(digest)
  }

  /** What the manifest says of the outcome of a chain. */
  ghost predicate NamesOutcome(env: Env, x: Dict, d: Path, c: Chain)
    requires Kinds(c) && Digestible(env, c)
  {
    var outcome, support := Get(x, "outcome"), Get(x, "supporting_receipt");
    && outcome.Obj?
    && match c
       case ReceiptChain(_, _, r, at) =>
         && Get(outcome.fields, "type") == Str("receipt") && Get(outcome.fields, "outcome") == Str(r.outcome)
         && Names(outcome, at, "id", r.receiptId, env.digest(r).value) && support == Null
       case RefusalChain(_, _, f, None) =>
         NamesRefusal(env, outcome, d, f) && support == Null
       case RefusalChain(_, _, f, Some((r, at))) =>
         && NamesRefusal(env, outcome, d, f) && support.Obj?
         && Names(support, at, "receipt_id", r.receiptId, env.digest(r).value)
         && Get(support.fields, "outcome") == Str(r.outcome)
  }

  ghost predicate NamesRefusal(env: Env, outcome: Json, d: Path, f: Artifact)
    requires f.ARefusal? && env.digest(f).Some?
  {
    && outcome.Obj? && Get(outcome.fields, "type") == Str("refusal")
    && Get(outcome.fields, "outcome") == Str(f.reasonCode)
    && Names(outcome, d + ["refusal.json"], "id", f.refusalId, env.digest(f).value)
  }

  /** What the manifest says of a chain. */
  lemma ChainEntrySays(env: Env, rt: Runtime, json: Json, d: Path, c: Chain)
    requires ChainDescribed(env, rt, json, d, c)
    ensures json.Obj? && Kinds(c) && Digestible(env, c)
    ensures Get(json.fields, "chain_id") == Str("pccb:" + c.pccb.pccbId)
    ensures Get(json.fields, "directory") == Str(if d == [] then "." else Posix(d))
    ensures Names(Get(json.fields, "intent"), d + ["action_intent.json"], "intent_id", c.intent.intent.intentId,
                  env.digest(c.intent).value)
    ensures Names(Get(json.fields, "pccb"), d + ["pccb.json"], "pccb_id", c.pccb.pccbId, env.digest(c.pccb).value)
    ensures NamesOutcome(env, json.fields, d, c)
  {
    hide GivesChain, Candidate, ChainJson, Described, Get, LoadAt, NamesOutcome, OutcomeJson, SupportJson, RecordJson;
    HoldsKinds(env, rt, d, c);
    ChainReads(env, rt, d, c);
    DescribedReads(env, d + [INTENT], "intent_id", c.intent);
    DescribedReads(env, d + [PCCB], "pccb_id", c.pccb);
    OutcomeSays(env, json.fields, d, c);
  }

  lemma OutcomeSays(env: Env, x: Dict, d: Path, c: Chain)
    requires Kinds(c) && Digestible(env, c) && Get(x, "outcome") == OutcomeJson(env, d, c)
    requires Get(x, "supporting_receipt") == if SupportJson(env, c).Some? then SupportJson(env, c).value else Null
    ensures NamesOutcome(env, x, d, c)
  {
    hide DescribedReceipt, DescribedOutcome, Get;
    match c
    case ReceiptChain(_, _, r, at) => OutcomeReads(env, at, "receipt", r.outcome, r);
    case RefusalChain(_, _, f, support) =>
      OutcomeReads(env, d + ["refusal.json"], "refusal", f.reasonCode, f);
      if support.Some? {
        ReceiptReads(env, support.value.1, support.value.0);
      }
  }

  // ----------------------------------------------------------- whole chains

  /** A chain entry built from the runtime finds its own artifacts again, so verification
      reports exactly what the link checks find in them. */
  lemma ReceiptChainRoundTrip(env: Env, rt: Runtime, d: Path, c: Chain, fs: FileSystem, root: Path)
    requires WellFormed(rt) && Candidate(rt, CHAIN_ROOTS, |CHAIN_ROOTS|, d) && Carries(rt, fs, root)
    requires c.ReceiptChain? && Holds(env, rt, d, c) && Kinds(c)
    ensures ChainErrors(env, fs, root, Obj(ChainJson(env, rt, d, c))) == Some(LinkErrors(env, c))
  {
    hide VerifyArtifact, Carries, ChainJson, Described, DescribedOutcome, Get, PccbErrors, ReceiptErrors, LoadAt, IdOf;
    hide WellFormed, Candidate;
    var chain := ChainJson(env, rt, d, c);
    ChainReads(env, rt, d, c);
    IntentAndPccb(env, rt, d, c, fs, root);
    OutcomeReads(env, c.at, "receipt", c.receipt.outcome, c.receipt);
    FoundAgain(env, rt, fs, root, d, c.at, ReceiptKind, "id",
               DescribedOutcome(env, c.at, "receipt", c.receipt.outcome, c.receipt), c.receipt);
    HashReads(chain, c.pccb);
    var links := LinkErrors(env, c);
    assert links + [] == links;
  }

  lemma HashReads(chain: Dict, p: Artifact)
    requires p.APccb? && Get(chain, "action_hash") == Obj(map["value" := Str(p.actionHash)])
    ensures HashDeclared(chain, p)
  {
  }

  lemma IntentAndPccb(env: Env, rt: Runtime, d: Path, c: Chain, fs: FileSystem, root: Path)
    requires WellFormed(rt) && Candidate(rt, CHAIN_ROOTS, |CHAIN_ROOTS|, d) && Carries(rt, fs, root)
    requires Holds(env, rt, d, c) && Kinds(c)
    ensures var intent := Described(env, d + [INTENT], "intent_id", c.intent);
            var pccb := Described(env, d + [PCCB], "pccb_id", c.pccb);
            && VerifyArtifact(env, fs, root, Obj(intent), IntentKind, "intent_id") == Good(c.intent)
            && VerifyArtifact(env, fs, root, Obj(pccb), PccbKind, "pccb_id") == Good(c.pccb)
  {
    hide VerifyArtifact, Carries, Described, Get, IdOf, WellFormed, Candidate, LoadAt;
    Joined(d, INTENT);
    Joined(d, PCCB);
    DescribedReads(env, d + [INTENT], "intent_id", c.intent);
    DescribedReads(env, d + [PCCB], "pccb_id", c.pccb);
    FoundAgain(env, rt, fs, root, d, d + [INTENT], IntentKind, "intent_id",
               Described(env, d + [INTENT], "intent_id", c.intent), c.intent);
    FoundAgain(env, rt, fs, root, d, d + [PCCB], PccbKind, "pccb_id",
               Described(env, d + [PCCB], "pccb_id", c.pccb), c.pccb);
  }

  lemma RefusalChainRoundTrip(env: Env, rt: Runtime, d: Path, c: Chain, fs: FileSystem, root: Path)
    requires WellFormed(rt) && Candidate(rt, CHAIN_ROOTS, |CHAIN_ROOTS|, d) && Carries(rt, fs, root)
    requires c.RefusalChain? && Holds(env, rt, d, c) && Kinds(c)
    ensures ChainErrors(env, fs, root, Obj(ChainJson(env, rt, d, c))) == Some(LinkErrors(env, c))
  {
    hide VerifyArtifact, Carries, ChainJson, Described, Get;
    hide LoadAt, OutcomeErrors, LinkErrors, OutcomeJson, SupportJson;
    hide WellFormed, Candidate;
    var chain := ChainJson(env, rt, d, c);
    ChainReads(env, rt, d, c);
    IntentAndPccb(env, rt, d, c, fs, root);
    HashReads(chain, c.pccb);
    if c.support.Some? {
      SupportVerifies(env, rt, d, c, fs, root);
    } else {
      NoSupport(env, c);
    }
    RefusalOutcome(env, rt, d, c, fs, root, chain);
  }

  lemma NoSupport(env: Env, c: Chain)
    requires c.RefusalChain? && c.support.None?
    ensures SupportJson(env, c) == None
  {
  }

  lemma RefusalOutcome(env: Env, rt: Runtime, d: Path, c: Chain, fs: FileSystem, root: Path, chain: Dict)
    requires WellFormed(rt) && Candidate(rt, CHAIN_ROOTS, |CHAIN_ROOTS|, d) && Carries(rt, fs, root)
    requires c.RefusalChain? && Holds(env, rt, d, c) && Kinds(c)
    requires Get(chain, "outcome") == OutcomeJson(env, d, c) && HashDeclared(chain, c.pccb)
    requires c.support.None? ==> Get(chain, "supporting_receipt") == Null
    requires c.support.Some? ==>
               && Get(chain, "supporting_receipt").Obj?
               && VerifyArtifact(env, fs, root, Get(chain, "supporting_receipt"), ReceiptKind, "receipt_id") ==
                  Good(c.support.value.0)
    ensures OutcomeErrors(env, fs, root, chain, c.intent.intent, c.pccb) == Some(LinkErrors(env, c))
  {
    hide VerifyArtifact, Carries, DescribedOutcome, Get, RefusalErrors;
    hide LoadAt, IdOf, HashDeclared, WellFormed, Candidate;
    var at := d + ["refusal.json"];
    Joined(d, "refusal.json");
    OutcomeReads(env, at, "refusal", c.refusal.reasonCode, c.refusal);
    FoundAgain(env, rt, fs, root, d, at, RefusalKind, "id",
               DescribedOutcome(env, at, "refusal", c.refusal.reasonCode, c.refusal), c.refusal);
    assert "refusal" != "receipt" by { assert "refusal"[2] != "receipt"[2]; }
    var links := LinkErrors(env, c);
    assert links + [] == links;
  }

  lemma SupportVerifies(env: Env, rt: Runtime, d: Path, c: Chain, fs: FileSystem, root: Path)
    requires WellFormed(rt) && Candidate(rt, CHAIN_ROOTS, |CHAIN_ROOTS|, d) && Carries(rt, fs, root)
    requires c.RefusalChain? && c.support.Some? && Holds(env, rt, d, c)
    ensures SupportJson(env, c).Some? && SupportJson(env, c).value.Obj?
    ensures VerifyArtifact(env, fs, root, SupportJson(env, c).value, ReceiptKind, "receipt_id") ==
            Good(c.support.value.0)
  {
    hide VerifyArtifact, Carries, DescribedReceipt, Get, IdOf, WellFormed, Candidate, LoadAt;
    var (a, at) := c.support.value;
    ReceiptReads(env, at, a);
    FoundAgain(env, rt, fs, root, d, at, ReceiptKind, "receipt_id", DescribedReceipt(env, at, a), a);
  }

  lemma StoredIsClean(env: Env, rt: Runtime, kind: Kind, p: Path)
    requires WellFormed(rt) && LoadAt(env, rt, kind, p).Some?
    ensures p != [] && Clean(p)
  {
    assert p in rt.order;
  }

  lemma ChainRoundTrip(env: Env, rt: Runtime, json: Json, d: Path, c: Chain, fs: FileSystem, root: Path)
    requires WellFormed(rt) && Carries(rt, fs, root) && ChainDescribed(env, rt, json, d, c)
    ensures Kinds(c) && ChainErrors(env, fs, root, json) == Some(LinkErrors(env, c))
  {
    hide Carries, ChainErrors, LinkErrors, GivesChain, WellFormed, LoadAt, ChainJson, Candidate;
    HoldsKinds(env, rt, d, c);
    if c.ReceiptChain? {
      ReceiptChainRoundTrip(env, rt, d, c, fs, root);
    } else {
      RefusalChainRoundTrip(env, rt, d, c, fs, root);
    }
  }

  lemma CleanPrefix(d: Path, name: string)
    requires Clean(d + [name])
    ensures Clean(d)
  {
    assert forall i :: 0 <= i < |d| ==> d[i] == (d + [name])[i];
  }

  lemma DecisionReads(env: Env, rt: Runtime, d: Path, intent: Artifact, receipt: Artifact)
    requires receipt.AReceipt?
    ensures var x := DecisionJson(env, rt, d, intent, receipt);
            && Get(x, "intent") == Obj(Described(env, d + [INTENT], "intent_id", intent))
            && Get(x, "decision_receipt") == Obj(DescribedReceipt(env, d + [DECISION], receipt))
            && Get(x, "directory") == Str(if d == [] then "." else Posix(d))
            && Get(x, "intent_record") == (if RecordJson(env, rt, d).Some? then RecordJson(env, rt, d).value else Null)
  {
    hide Described, DescribedReceipt, RecordJson;
  }

  lemma DecisionRoundTrip(env: Env, rt: Runtime, json: Json, x: (Path, Artifact, Artifact), fs: FileSystem, root: Path)
    requires WellFormed(rt) && Carries(rt, fs, root) && DecisionDescribed(env, rt, json, x)
    ensures DecisionErrors(env, fs, root, json) ==
            Some(When(x.2.intentOf != x.1.intent.intentId, "decision receipt intent_id"))
  {
    hide Carries, WellFormed, LoadAt, Clean, VerifyArtifact, Described, DescribedReceipt, Get, DecisionJson, IdOf;
    hide Candidate, Exists;
    var (d, intent, receipt) := x;
    LoadAtIff(env, rt, IntentKind, d + [INTENT], intent);
    LoadAtIff(env, rt, ReceiptKind, d + [DECISION], receipt);
    Joined(d, INTENT);
    Joined(d, DECISION);
    DecisionReads(env, rt, d, intent, receipt);
    DescribedReads(env, d + [INTENT], "intent_id", intent);
    ReceiptReads(env, d + [DECISION], receipt);
    FoundAgain(env, rt, fs, root, d, d + [INTENT], IntentKind, "intent_id",
               Described(env, d + [INTENT], "intent_id", intent), intent);
    FoundAgain(env, rt, fs, root, d, d + [DECISION], ReceiptKind, "receipt_id",
               DescribedReceipt(env, d + [DECISION], receipt), receipt);
  }

  lemma FileRoundTrip(env: Env, rt: Runtime, s: string, payload: Json, fs: FileSystem, root: Path)
    requires WellFormed(rt) && Carries(rt, fs, root) && FileHashed(env, rt, s, payload)
    ensures FileErrors(env, fs, root, s, payload) == Some([])
  {
    hide Member, Covered;
    var p :| p in rt.order && p != [] && Posix(p) == s && rt.root + p in rt.fs.files && Covered(rt, p)
             && payload == HashJson(env.fileHash(rt.fs.files[rt.root + p]));
    MemberOfPosix(root, p);
    assert root + p in fs.files;
  }

  lemma EntriesInside(rt: Runtime, root: Path)
    ensures forall i :: 0 <= i < |EntryNames(rt)| ==> EntryInside(root, EntryNames(rt)[i])
  {
    hide BundleEntries, Member, Posix, EntryNames, Clean;
    EntriesShort(rt);
    forall i | 0 <= i < |EntryNames(rt)| ensures EntryInside(root, EntryNames(rt)[i]) {
      MemberOfPosix(root, BundleEntries(rt)[i]);
    }
  }

  /** All link checks pass on the exported artifacts. */
  ghost predicate Linked(env: Env, chains: seq<(Path, Chain)>, decisions: seq<(Path, Artifact, Artifact)>) {
    && (forall i :: 0 <= i < |chains| ==> Kinds(chains[i].1) && LinkErrors(env, chains[i].1) == [])
    && (forall i :: 0 <= i < |decisions| ==>
          && decisions[i].1.AnIntent? && decisions[i].2.AReceipt?
          && decisions[i].2.intentOf == decisions[i].1.intent.intentId)
  }

  /** Verifying a manifest against an unchanged copy of the tree it was built from raises
      nothing and verifies every declared file; it is accepted exactly when a file hash
      and a chain or decision record are declared and all link checks pass. */
  lemma RoundTrip(env: Env, rt: Runtime, m: Manifest, chains: seq<(Path, Chain)>,
                  decisions: seq<(Path, Artifact, Artifact)>,
                  fs: FileSystem, root: Path)
    requires WellFormed(rt) && Describes(env, rt, m, chains, decisions) && Carries(rt, fs, root)
    ensures Runs(env, fs, root, m)
    ensures forall s :: s in m.fileHashes ==> FileErrors(env, fs, root, s, m.fileHashes[s]) == Some([])
    ensures Accepted(env, fs, root, m) <==>
            m.fileHashes != map[] && (m.chains != [] || m.decisions != []) && Linked(env, chains, decisions)
  {
    hide WellFormed, Carries, FileErrors, ChainErrors, DecisionErrors;
    hide LinkErrors, FileHashed, ChainDescribed, EntryInside, Hashed, EntryNames;
    EntriesInside(rt, root);
    forall s | s in m.fileHashes ensures FileErrors(env, fs, root, s, m.fileHashes[s]) == Some([]) {
      FileRoundTrip(env, rt, s, m.fileHashes[s], fs, root);
    }
    forall i | 0 <= i < |chains|
      ensures Kinds(chains[i].1) && ChainErrors(env, fs, root, m.chains[i]) == Some(LinkErrors(env, chains[i].1))
    {
      ChainRoundTrip(env, rt, m.chains[i], chains[i].0, chains[i].1, fs, root);
    }
    forall i | 0 <= i < |decisions|
      ensures decisions[i].1.AnIntent? && decisions[i].2.AReceipt?
      ensures DecisionErrors(env, fs, root, m.decisions[i]) ==
              Some(When(decisions[i].2.intentOf != decisions[i].1.intent.intentId, "decision receipt intent_id"))
    {
      assert DecisionDescribed(env, rt, m.decisions[i], decisions[i]);
      DecisionRoundTrip(env, rt, m.decisions[i], decisions[i], fs, root);
    }
  }

  // --------------------------------------------------------- the whole trip

  /** What the link checks find in each exported chain. */
  ghost function LinkResults(env: Env, chains: seq<(Path, Chain)>): (r: seq<Option<seq<string>>>) {
    seq(|chains|, i requires 0 <= i < |chains| => LinkResult(env, chains[i].1))
  }

  ghost function LinkResult(env: Env, c: Chain): (r: Option<seq<string>>) {
    if Kinds(c) then Some(LinkErrors(env, c)) else None
  }

  ghost predicate DecisionKinds(decisions: seq<(Path, Artifact, Artifact)>) {
    forall i :: 0 <= i < |decisions| ==> decisions[i].1.AnIntent? && decisions[i].2.AReceipt?
  }

  /** What the link check finds in each exported decision record. */
  ghost function DecisionLinks(decisions: seq<(Path, Artifact, Artifact)>): (r: seq<Option<seq<string>>>)
    requires DecisionKinds(decisions)
  {
    seq(|decisions|, i requires 0 <= i < |decisions| =>
      Some(When(decisions[i].2.intentOf != decisions[i].1.intent.intentId, "decision receipt intent_id")))
  }

  lemma ChainsRoundTrip(env: Env, rt: Runtime, m: Manifest, chains: seq<(Path, Chain)>,
                        decisions: seq<(Path, Artifact, Artifact)>,
                        fs: FileSystem, root: Path)
    requires WellFormed(rt) && Describes(env, rt, m, chains, decisions) && Carries(rt, fs, root)
    ensures (forall i :: 0 <= i < |chains| ==> Kinds(chains[i].1)) && DecisionKinds(decisions)
    ensures ChainResults(env, fs, root, m.chains) == LinkResults(env, chains)
    ensures DecisionResults(env, fs, root, m.decisions) == DecisionLinks(decisions)
  {
    hide WellFormed, Carries, ChainErrors, DecisionErrors, LinkErrors, ChainDescribed, EntryNames, Hashed;
    forall i | 0 <= i < |chains|
      ensures Kinds(chains[i].1) && ChainErrors(env, fs, root, m.chains[i]) == LinkResult(env, chains[i].1)
    {
      ChainRoundTrip(env, rt, m.chains[i], chains[i].0, chains[i].1, fs, root);
    }
    forall i | 0 <= i < |decisions|
      ensures decisions[i].1.AnIntent? && decisions[i].2.AReceipt?
      ensures DecisionErrors(env, fs, root, m.decisions[i]) ==
              Some(When(decisions[i].2.intentOf != decisions[i].1.intent.intentId, "decision receipt intent_id"))
    {
      assert DecisionDescribed(env, rt, m.decisions[i], decisions[i]);
      DecisionRoundTrip(env, rt, m.decisions[i], decisions[i], fs, root);
    }
  }

  /** Verifying the exported manifest against a bundle that carries what its entries cover
      raises nothing, verifies every declared file, counts exactly the chains and decision
      records that are linked, and is ok exactly when something is declared and all are. */
  lemma RoundTripReport(env: Env, rt: Runtime, m: Manifest, chains: seq<(Path, Chain)>,
                        decisions: seq<(Path, Artifact, Artifact)>,
                        fs: FileSystem, root: Path)
    requires WellFormed(rt) && Describes(env, rt, m, chains, decisions) && Carries(rt, fs, root)
    requires DeclaredManifest(env, fs, root) == Some(m)
    ensures (forall i :: 0 <= i < |chains| ==> Kinds(chains[i].1)) && DecisionKinds(decisions)
    ensures var ok := m.fileHashes != map[] && (m.chains != [] || m.decisions != []) && Linked(env, chains, decisions);
            ReportOf(env, fs, root) ==
            Some(Report(ok, |m.fileHashes|, |m.fileHashes|, Passing(LinkResults(env, chains)), |chains|,
                        Passing(DecisionLinks(decisions)), |decisions|))
  {
    hide WellFormed, Carries, Accepted, Runs, Linked;
    hide Kinds, FileErrors, Passing, LinkResults, DecisionLinks, DecisionKinds;
    RoundTrip(env, rt, m, chains, decisions, fs, root);
    ChainsRoundTrip(env, rt, m, chains, decisions, fs, root);
    AllFilesPass(env, fs, root, m);
  }

  // -------------------------------------------------------------- the export

  const MANIFEST_FILE := "bundle_manifest.json"

  ghost function Copied(rt: Runtime, root: Path): set<Path> {
    set p | p in rt.order && Covered(rt, p) :: root + p
  }

  /** The exported directory: the covered files and the manifest. */
  ghost function Exported(rt: Runtime, root: Path, manifest: Bytes): FileSystem
    requires WellFormed(rt)
  {
    var files := map q | q in Copied(rt, root) ::
      (var p := q[|root|..]; if rt.root + p in rt.fs.files then rt.fs.files[rt.root + p] else "");
    FileSystem(files[root + [MANIFEST_FILE] := manifest], {})
  }

  lemma ManifestNotCovered(rt: Runtime)
    ensures !Covered(rt, [MANIFEST_FILE])
  {
    if Covered(rt, [MANIFEST_FILE]) {
      var i :| 0 <= i < |BundleEntries(rt)| && Covers(rt, BundleEntries(rt)[i], [MANIFEST_FILE]);
      EntryIsName(rt, i);
      NotAName();
      assert false;
    }
  }

  lemma EntryIsName(rt: Runtime, i: nat)
    requires i < |BundleEntries(rt)|
    ensures var e := BundleEntries(rt)[i]; |e| == 1 && e[0] in ["runtime_manifest.json", "SUMMARY.txt"] + OPTIONAL
  {
  }

  lemma NotAName()
    ensures MANIFEST_FILE !in ["runtime_manifest.json", "SUMMARY.txt"] + OPTIONAL
  {
    assert MANIFEST_FILE[0] == 'b';
  }

  lemma ExportedCarries(rt: Runtime, root: Path, manifest: Bytes)
    requires WellFormed(rt)
    ensures Carries(rt, Exported(rt, root, manifest), root)
  {
    hide Covered;
    var fs := Exported(rt, root, manifest);
    forall p | rt.root + p in rt.fs.files && Covered(rt, p)
      ensures root + p in fs.files && fs.files[root + p] == rt.fs.files[rt.root + p]
    {
      assert p in rt.order && root + p in Copied(rt, root) && (root + p)[|root|..] == p;
      ManifestNotCovered(rt);
      assert (root + [MANIFEST_FILE])[|root|..] == [MANIFEST_FILE];
    }
  }

  /** A bundle exported from the runtime, verified where it was written. */
  lemma ExportVerifies(env: Env, rt: Runtime, m: Manifest, chains: seq<(Path, Chain)>,
                       decisions: seq<(Path, Artifact, Artifact)>,
                       root: Path, manifest: Bytes, others: Dict)
    requires WellFormed(rt) && Describes(env, rt, m, chains, decisions)
    requires env.manifest(manifest) == Some(ManifestDict(m, others))
    ensures var r := ReportOf(env, Exported(rt, root, manifest), root);
            && r.Some? && r.value.verifiedFiles == r.value.declaredFiles == |m.fileHashes|
            && (r.value.ok <==>
                m.fileHashes != map[] && (m.chains != [] || m.decisions != []) && Linked(env, chains, decisions))
  {
    hide WellFormed, Carries, Describes, Linked, Copied, ReportOf;
    ExportedCarries(rt, root, manifest);
    ManifestRoundTrip(m, others);
    assert DeclaredManifest(env, Exported(rt, root, manifest), root) == Some(m);
    RoundTripReport(env, rt, m, chains, decisions, Exported(rt, root, manifest), root);
  }
}
