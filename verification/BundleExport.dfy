/** Building the manifest of an evidence bundle (actenon/local_runtime.py). */
module BundleExport {
  import opened Wrappers
  import opened CanonicalJson
  import opened Dicts
  import opened BundlePaths
  import opened BundleVerify

  /** A runtime directory: the file system, the root, and every file below the root in
      sorted order. */
  datatype Runtime = Runtime(fs: FileSystem, root: Path, order: seq<Path>)

  ghost predicate WellFormed(rt: Runtime) {
    && (forall i :: 0 <= i < |rt.order| ==>
          rt.order[i] != [] && Clean(rt.order[i]) && rt.root + rt.order[i] in rt.fs.files)
    && (forall p :: rt.root + p in rt.fs.files ==> p in rt.order)
    && (forall p :: p in rt.fs.files ==> p !in rt.fs.dirs)
    && (forall i :: 0 <= i < |rt.order| ==> ParentsAreDirs(rt, rt.order[i]))
  }

  ghost predicate ParentsAreDirs(rt: Runtime, p: Path) {
    forall k :: 0 < k < |p| ==> rt.root + p[..k] in rt.fs.dirs
  }

  // -------------------------------------------------------------- file walk

  function Lower(s: string): string {
    if s == [] then [] else [if 'A' <= s[0] <= 'Z' then s[0] - 'A' + 'a' else s[0]] + Lower(s[1..])
  }

  predicate EndsWith(s: string, suffix: string) { |suffix| <= |s| && s[|s| - |suffix|..] == suffix }

  predicate Ephemeral(relative: string) {
    var lower := Lower(relative);
    || EndsWith(lower, ".sqlite3-wal") || EndsWith(lower, ".sqlite3-shm") || EndsWith(lower, ".sqlite3-journal")
    || EndsWith(lower, ".db-wal") || EndsWith(lower, ".db-shm") || EndsWith(lower, ".db-journal")
  }

  /** Letters of either case count. */
  lemma {:induction false} LowerExact(s: string)
    ensures |Lower(s)| == |s|
    ensures forall i :: 0 <= i < |s| ==>
              Lower(s)[i] == if 'A' <= s[i] <= 'Z' then (s[i] as int + 32) as char else s[i]
  {
    if s != [] {
      LowerExact(s[1..]);
    }
  }

  /** What is left out: the write-ahead log, shared memory and journal of a database. */
  lemma EphemeralIff(s: string)
    ensures Ephemeral(s) <==>
            exists stem, kind :: stem in {".sqlite3", ".db"} && kind in {"-wal", "-shm", "-journal"}
                                 && EndsIn(Lower(s), stem + kind)
  {
    hide Lower, EndsWith, EndsIn;
    var t := Lower(s);
    Suffixes();
    EndsIff(t, ".sqlite3-wal");
    EndsIff(t, ".sqlite3-shm");
    EndsIff(t, ".sqlite3-journal");
    EndsIff(t, ".db-wal");
    EndsIff(t, ".db-shm");
    EndsIff(t, ".db-journal");
    if stem, kind :| stem in {".sqlite3", ".db"} && kind in {"-wal", "-shm", "-journal"} && EndsIn(t, stem + kind) {
      assert stem + kind in {".sqlite3-wal", ".sqlite3-shm", ".sqlite3-journal", ".db-wal", ".db-shm", ".db-journal"};
    }
  }

  lemma Suffixes()
    ensures ".sqlite3" + "-wal" == ".sqlite3-wal" && ".sqlite3" + "-shm" == ".sqlite3-shm"
    ensures ".sqlite3" + "-journal" == ".sqlite3-journal" && ".db" + "-journal" == ".db-journal"
    ensures ".db" + "-wal" == ".db-wal" && ".db" + "-shm" == ".db-shm"
  {
  }

  ghost predicate EndsIn(s: string, suffix: string) { exists front :: s == front + suffix }

  lemma EndsIff(s: string, suffix: string)
    ensures EndsWith(s, suffix) <==> EndsIn(s, suffix)
  {
    if EndsWith(s, suffix) {
      assert s == s[..|s| - |suffix|] + suffix;
    }
  }

  /** The entry is the file itself, or a directory above it. */
  predicate Covers(rt: Runtime, entry: Path, p: Path) {
    if rt.root + entry in rt.fs.files then p == entry else rt.root + entry in rt.fs.dirs && entry < p
  }

  /** `s` names a file that the first `n` entries cover and that is hashed. */
  ghost predicate Hashed(rt: Runtime, entries: seq<Path>, n: nat, s: string)
    requires n <= |entries|
  {
    exists e: nat, p: nat :: e < n && p < |rt.order| && rt.order[p] != [] && Covers(rt, entries[e], rt.order[p])
                             && s == Posix(rt.order[p]) && !Ephemeral(s)
  }

  ghost predicate Distinct<T>(s: seq<T>) { forall i, j :: 0 <= i < j < |s| ==> s[i] != s[j] }

  /** Every covered file once, ephemeral database files left out. */
  method BundleFileEntries(rt: Runtime, entries: seq<Path>) returns (resolved: seq<string>)
    requires WellFormed(rt) && forall i :: 0 <= i < |entries| ==> entries[i] != []
    ensures Distinct(resolved)
    ensures forall s :: s in resolved <==> Hashed(rt, entries, |entries|, s)
  {
    hide Ephemeral, Posix;
    resolved := [];
    var seen: set<string> := {};
    for e := 0 to |entries|
      invariant Distinct(resolved) && forall s :: s in seen <==> s in resolved
      invariant forall s :: s in resolved <==> Hashed(rt, entries, e, s)
    {
      resolved, seen := WalkEntry(rt, entries, e, resolved, seen);
    }
  }

  method WalkEntry(rt: Runtime, entries: seq<Path>, e: nat, before: seq<string>, seen0: set<string>)
    returns (resolved: seq<string>, seen: set<string>)
    requires WellFormed(rt) && e < |entries| && entries[e] != []
    requires Distinct(before) && forall s :: s in seen0 <==> s in before
    requires forall s :: s in before <==> Hashed(rt, entries, e, s)
    ensures Distinct(resolved) && forall s :: s in seen <==> s in resolved
    ensures forall s :: s in resolved <==> Hashed(rt, entries, e + 1, s)
  {
    hide Ephemeral, Posix, WellFormed, Hashed, Covers, Listed;
    resolved, seen := before, seen0;
    var source := rt.root + entries[e];
    var files: seq<Path> := [];
    if source in rt.fs.files {
      files := [entries[e]];
    } else if source in rt.fs.dirs {
      files := Below(rt.order, entries[e], |rt.order|);
    }
    FilesAreCovered(rt, entries[e], files);
    NoneListed(files);
    for c := 0 to |files|
      invariant Distinct(resolved) && forall s :: s in seen <==> s in resolved
      invariant forall s :: s in resolved <==> s in before || Listed(files, c, s)
    {
      var normalized := Posix(files[c]);
      ListedStep(files, c);
      if normalized !in seen && !Ephemeral(normalized) {
        seen := seen + {normalized};
        resolved := resolved + [normalized];
      }
    }
    HashedStep(rt, entries, e, files);
  }

  /** One of the first `n` files, to be hashed under the name `s`. */
  ghost predicate Listed(files: seq<Path>, n: nat, s: string)
    requires n <= |files|
  {
    exists c :: 0 <= c < n && files[c] != [] && s == Posix(files[c]) && !Ephemeral(s)
  }

  lemma NoneListed(files: seq<Path>)
    ensures forall s :: !Listed(files, 0, s)
  {
  }

  lemma ListedStep(files: seq<Path>, c: nat)
    requires c < |files| && files[c] != []
    ensures forall s :: Listed(files, c + 1, s) <==> Listed(files, c, s) || (s == Posix(files[c]) && !Ephemeral(s))
  {
    hide Ephemeral, Posix;
  }

  /** The files below a directory, in order. */
  function Below(order: seq<Path>, dir: Path, n: nat): (r: seq<Path>)
    requires n <= |order|
  {
    if n == 0 then [] else Below(order, dir, n - 1) + (if dir < order[n - 1] then [order[n - 1]] else [])
  }

  lemma {:induction false} BelowExact(order: seq<Path>, dir: Path, n: nat)
    requires n <= |order|
    ensures forall p :: p in Below(order, dir, n) <==> dir < p && p in order[..n]
  {
    if n > 0 {
      BelowExact(order, dir, n - 1);
      assert order[..n] == order[..n - 1] + [order[n - 1]];
    }
  }

  lemma FilesAreCovered(rt: Runtime, entry: Path, files: seq<Path>)
    requires WellFormed(rt) && entry != []
    requires files == if rt.root + entry in rt.fs.files then [entry]
                      else if rt.root + entry in rt.fs.dirs then Below(rt.order, entry, |rt.order|) else []
    ensures forall p :: p in files <==> p in rt.order && Covers(rt, entry, p)
    ensures forall i :: 0 <= i < |files| ==> files[i] != []
  {
    BelowExact(rt.order, entry, |rt.order|);
    assert rt.order[..|rt.order|] == rt.order;
    assert forall i :: 0 <= i < |files| ==> files[i] in files;
  }

  lemma HashedStep(rt: Runtime, entries: seq<Path>, e: nat, files: seq<Path>)
    requires e < |entries| && forall p :: p in files <==> p in rt.order && Covers(rt, entries[e], p)
    ensures forall s :: Hashed(rt, entries, e + 1, s) <==> Hashed(rt, entries, e, s) || Listed(files, |files|, s)
  {
    hide Ephemeral, Posix, Covers;
    forall s ensures Hashed(rt, entries, e + 1, s) <==> Hashed(rt, entries, e, s) || Listed(files, |files|, s) {
      if Hashed(rt, entries, e + 1, s) && !Hashed(rt, entries, e, s) {
        var x: nat, p: nat :| x < e + 1 && p < |rt.order| && rt.order[p] != [] && Covers(rt, entries[x], rt.order[p])
                              && s == Posix(rt.order[p]) && !Ephemeral(s);
        assert x == e && rt.order[p] in files;
        var c :| 0 <= c < |files| && files[c] == rt.order[p];
      }
      if Hashed(rt, entries, e, s) {
        var x: nat, p: nat :| x < e && p < |rt.order| && rt.order[p] != [] && Covers(rt, entries[x], rt.order[p])
                              && s == Posix(rt.order[p]) && !Ephemeral(s);
        assert x < e + 1;
      }
      if Listed(files, |files|, s) {
        var c :| 0 <= c < |files| && files[c] != [] && s == Posix(files[c]) && !Ephemeral(s);
        assert files[c] in files;
        var p :| 0 <= p < |rt.order| && rt.order[p] == files[c];
        assert e < e + 1;
      }
    }
  }

  // ----------------------------------------------------------- directories

  predicate Exists(rt: Runtime, p: Path) { rt.root + p in rt.fs.files || rt.root + p in rt.fs.dirs }

  /** Those names that are there, in order. */
  function Present(rt: Runtime, names: seq<string>): (r: seq<Path>)
    ensures forall i :: 0 <= i < |r| ==> |r[i]| == 1 && r[i][0] in names
  {
    if names == [] then [] else (if Exists(rt, [names[0]]) then [[names[0]]] else []) + Present(rt, names[1..])
  }

  const OPTIONAL: seq<string> := ["service_manifest.json", "labs", "artifacts", "state", "simulations", "keys"]

  function BundleEntries(rt: Runtime): (r: seq<Path>) {
    [["runtime_manifest.json"], ["SUMMARY.txt"]] + Present(rt, OPTIONAL)
  }

  lemma {:induction false} PresentHas(rt: Runtime, names: seq<string>, name: string)
    requires name in names && Exists(rt, [name])
    ensures [name] in Present(rt, names)
  {
    if names[0] != name {
      assert name in names[1..];
      PresentHas(rt, names[1..], name);
    }
  }

  /** The bundle's entries: two always, and six that are there. */
  lemma EntriesExact(rt: Runtime, e: Path)
    ensures e in BundleEntries(rt) <==>
            || e == ["runtime_manifest.json"] || e == ["SUMMARY.txt"]
            || (&& |e| == 1 && Exists(rt, e)
                && e[0] in {"service_manifest.json", "labs", "artifacts", "state", "simulations", "keys"})
  {
    hide Exists;
    PresentExact(rt, OPTIONAL, e);
  }

  lemma {:induction false} PresentExact(rt: Runtime, names: seq<string>, e: Path)
    ensures e in Present(rt, names) <==> |e| == 1 && e[0] in names && Exists(rt, e)
  {
    hide Exists;
    if names != [] {
      PresentExact(rt, names[1..], e);
      assert names == [names[0]] + names[1..];
      if |e| == 1 {
        assert e == [e[0]];
      }
    }
  }

  /** The export copies the file. */
  ghost predicate Covered(rt: Runtime, p: Path) {
    exists i :: 0 <= i < |BundleEntries(rt)| && Covers(rt, BundleEntries(rt)[i], p)
  }

  function EntryNames(rt: Runtime): (r: seq<Json>)
    ensures |r| == |BundleEntries(rt)|
    ensures forall i :: 0 <= i < |r| ==> BundleEntries(rt)[i] != [] && r[i] == Str(Posix(BundleEntries(rt)[i]))
  {
    var entries := BundleEntries(rt);
    seq(|entries|, i requires 0 <= i < |entries| => Str(Posix(entries[i])))
  }

  const CHAIN_ROOTS: seq<Path> := [["labs"], ["artifacts", "requests"], ["simulations"]]

  /** `d` lies at or below one of the first `n` roots and holds an intent. */
  ghost predicate Candidate(rt: Runtime, roots: seq<Path>, n: nat, d: Path)
    requires n <= |roots|
  {
    exists r :: 0 <= r < n && Exists(rt, roots[r]) && roots[r] <= d && d + ["action_intent.json"] in rt.order
  }

  /** The intents at or below a root, in order. */
  function Intents(order: seq<Path>, root: Path, n: nat): (r: seq<Path>)
    requires n <= |order|
  {
    if n == 0 then []
    else
      var p := order[n - 1];
      Intents(order, root, n - 1)
      + (if p != [] && p[|p| - 1] == "action_intent.json" && root <= p[..|p| - 1] then [p[..|p| - 1]] else [])
  }

  lemma {:induction false} IntentsExact(order: seq<Path>, root: Path, n: nat)
    requires n <= |order|
    ensures forall d :: d in Intents(order, root, n) <==> root <= d && d + ["action_intent.json"] in order[..n]
  {
    if n > 0 {
      IntentsExact(order, root, n - 1);
      var p := order[n - 1];
      assert order[..n] == order[..n - 1] + [p];
      forall d ensures d + ["action_intent.json"] == p <==>
                       p != [] && p[|p| - 1] == "action_intent.json" && d == p[..|p| - 1]
      {
        assert (d + ["action_intent.json"])[..|d|] == d;
        if p != [] { assert p == p[..|p| - 1] + [p[|p| - 1]]; }
      }
    }
  }

  method CandidateDirs(rt: Runtime, roots: seq<Path>) returns (dirs: seq<Path>)
    ensures Distinct(dirs)
    ensures forall d :: d in dirs <==> Candidate(rt, roots, |roots|, d)
  {
    dirs := [];
    var seen: set<Path> := {};
    for r := 0 to |roots|
      invariant Distinct(dirs) && forall d :: d in seen <==> d in dirs
      invariant forall d :: d in dirs <==> Candidate(rt, roots, r, d)
    {
      if Exists(rt, roots[r]) {
        var found := Intents(rt.order, roots[r], |rt.order|);
        IntentsExact(rt.order, roots[r], |rt.order|);
        assert rt.order[..|rt.order|] == rt.order;
        ghost var before := dirs;
        for c := 0 to |found|
          invariant Distinct(dirs) && forall d :: d in seen <==> d in dirs
          invariant forall d :: d in dirs <==> d in before || d in found[..c]
        {
          assert found[..c + 1] == found[..c] + [found[c]];
          if found[c] !in seen {
            seen := seen + {found[c]};
            dirs := dirs + [found[c]];
          }
        }
        assert found[..|found|] == found;
      }
    }
  }

  // ---------------------------------------------------------------- chains

  function LoadAt(env: Env, rt: Runtime, kind: Kind, p: Path): (r: Option<Artifact>)
    ensures r.Some? ==> IsKind(r.value, kind) && rt.root + p in rt.fs.files
  {
    if rt.root + p in rt.fs.files then Load(env, kind, rt.fs.files[rt.root + p]) else None
  }

  /** How the manifest describes an artifact. */
  function Described(env: Env, p: Path, idField: string, a: Artifact): Dict
    requires p != []
  {
    map["path" := Str(Posix(p)), "digest" := Obj(DigestOf(env, a))][idField := Str(IdOf(a))]
  }

  /** A receipt that is no outcome is described with the outcome it states. */
  function DescribedReceipt(env: Env, p: Path, a: Artifact): Dict
    requires p != [] && a.AReceipt?
  {
    Described(env, p, "receipt_id", a)["outcome" := Str(a.outcome)]
  }

  function DescribedOutcome(env: Env, p: Path, kind: string, outcome: string, a: Artifact): Dict
    requires p != []
  {
    map["type" := Str(kind), "path" := Str(Posix(p)), "id" := Str(IdOf(a)), "outcome" := Str(outcome),
        "digest" := Obj(DigestOf(env, a))]
  }

  /** The artifacts a chain entry stands for. */
  datatype Chain =
    | ReceiptChain(intent: Artifact, pccb: Artifact, receipt: Artifact, at: Path)
    | RefusalChain(intent: Artifact, pccb: Artifact, refusal: Artifact, support: Option<(Artifact, Path)>)

  datatype Built = Skipped | Failed | Chained(chain: Chain)

  const INTENT := "action_intent.json"
  const PCCB := "pccb.json"

  function SupportPath(rt: Runtime, d: Path): (r: Option<Path>) {
    if Exists(rt, d + ["receipt.json"]) then Some(d + ["receipt.json"])
    else if Exists(rt, d + ["decision_receipt.json"]) then Some(d + ["decision_receipt.json"])
    else None
  }

  /** Hashing an intent record that is not a file raises. */
  predicate RecordFails(rt: Runtime, d: Path) {
    Exists(rt, d + ["intent_record.json"]) && rt.root + (d + ["intent_record.json"]) !in rt.fs.files
  }

  /** All artifacts of the chain can be digested. */
  predicate Digestible(env: Env, c: Chain) {
    && env.digest(c.intent).Some? && env.digest(c.pccb).Some?
    && match c
       case ReceiptChain(_, _, receipt, _) => env.digest(receipt).Some?
       case RefusalChain(_, _, refusal, support) =>
         env.digest(refusal).Some? && (support.Some? ==> env.digest(support.value.0).Some?)
  }

  function BuildChain(env: Env, rt: Runtime, d: Path): (r: Built) {
    var built := ChainAt(env, rt, d);
    if built.Chained? && (RecordFails(rt, d) || !Digestible(env, built.chain)) then Failed else built
  }

  function ChainAt(env: Env, rt: Runtime, d: Path): (r: Built) {
    if !Exists(rt, d + [INTENT]) || !Exists(rt, d + [PCCB]) then Skipped
    else
      var intent, pccb := LoadAt(env, rt, IntentKind, d + [INTENT]), LoadAt(env, rt, PccbKind, d + [PCCB]);
      if intent.None? || pccb.None? then Failed
      else if Exists(rt, d + ["refusal.json"]) then
        var refusal := LoadAt(env, rt, RefusalKind, d + ["refusal.json"]);
        if refusal.None? then Failed
        else
          var path := SupportPath(rt, d);
          if path.None? then Chained(RefusalChain(intent.value, pccb.value, refusal.value, None))
          else
            var support := LoadAt(env, rt, ReceiptKind, path.value);
            if support.None? then Failed
            else Chained(RefusalChain(intent.value, pccb.value, refusal.value, Some((support.value, path.value))))
      else if Exists(rt, d + ["execution_receipt.json"]) then
        var receipt := LoadAt(env, rt, ReceiptKind, d + ["execution_receipt.json"]);
        if receipt.None? then Failed
        else Chained(ReceiptChain(intent.value, pccb.value, receipt.value, d + ["execution_receipt.json"]))
      else if Exists(rt, d + ["receipt.json"]) then
        var receipt := LoadAt(env, rt, ReceiptKind, d + ["receipt.json"]);
        if receipt.None? then Failed
        else if receipt.value.outcome != "executed" then Skipped
        else Chained(ReceiptChain(intent.value, pccb.value, receipt.value, d + ["receipt.json"]))
      else Skipped
  }

  // ------------------------------------------------- chains, by the files alone

  /** The file is there and holds this artifact, which can be digested. */
  ghost predicate ReadAs(env: Env, rt: Runtime, kind: Kind, p: Path, a: Artifact) {
    Parses(env, rt, kind, p, a) && env.digest(a).Some?
  }

  ghost predicate Parses(env: Env, rt: Runtime, kind: Kind, p: Path, a: Artifact) {
    rt.root + p in rt.fs.files && Load(env, kind, rt.fs.files[rt.root + p]) == Some(a)
  }

  /** The directory gives this chain: a refusal comes before an execution receipt, and that
      before a receipt, which counts only if it was executed; a refusal is supported by the
      receipt or else by the decision receipt. */
  ghost predicate GivesChain(env: Env, rt: Runtime, d: Path, c: Chain) {
    && ReadAs(env, rt, IntentKind, d + ["action_intent.json"], c.intent)
    && ReadAs(env, rt, PccbKind, d + ["pccb.json"], c.pccb)
    && (Exists(rt, d + ["intent_record.json"]) ==> rt.root + (d + ["intent_record.json"]) in rt.fs.files)
    && match c
       case RefusalChain(_, _, refusal, support) =>
         && ReadAs(env, rt, RefusalKind, d + ["refusal.json"], refusal)
         && if Exists(rt, d + ["receipt.json"]) then SupportedBy(env, rt, d + ["receipt.json"], support)
            else if Exists(rt, d + ["decision_receipt.json"])
            then SupportedBy(env, rt, d + ["decision_receipt.json"], support)
            else support.None?
       case ReceiptChain(_, _, receipt, at) =>
         && !Exists(rt, d + ["refusal.json"])
         && ReadAs(env, rt, ReceiptKind, at, receipt)
         && if Exists(rt, d + ["execution_receipt.json"]) then at == d + ["execution_receipt.json"]
            else at == d + ["receipt.json"] && receipt.AReceipt? && receipt.outcome == "executed"
  }

  ghost predicate SupportedBy(env: Env, rt: Runtime, p: Path, support: Option<(Artifact, Path)>) {
    support.Some? && support.value.1 == p && ReadAs(env, rt, ReceiptKind, p, support.value.0)
  }

  /** The directory gives no chain: intent or proof is missing, or both can be read and there
      is no outcome but perhaps a receipt of something not executed. */
  ghost predicate GivesNone(env: Env, rt: Runtime, d: Path) {
    || !Exists(rt, d + ["action_intent.json"])
    || !Exists(rt, d + ["pccb.json"])
    || (&& (exists i :: Parses(env, rt, IntentKind, d + ["action_intent.json"], i))
        && (exists p :: Parses(env, rt, PccbKind, d + ["pccb.json"], p))
        && !Exists(rt, d + ["refusal.json"]) && !Exists(rt, d + ["execution_receipt.json"])
        && (Exists(rt, d + ["receipt.json"]) ==> exists r :: NotExecuted(env, rt, d + ["receipt.json"], r)))
  }

  ghost predicate NotExecuted(env: Env, rt: Runtime, p: Path, r: Artifact) {
    Parses(env, rt, ReceiptKind, p, r) && r.AReceipt? && r.outcome != "executed"
  }

  lemma LoadAtIff(env: Env, rt: Runtime, kind: Kind, p: Path, a: Artifact)
    ensures LoadAt(env, rt, kind, p) == Some(a) <==> Parses(env, rt, kind, p, a)
    ensures Parses(env, rt, kind, p, a) ==> Exists(rt, p) && IsKind(a, kind)
  {
  }

  /** So it goes by the files alone. */
  lemma ChainGivenIff(env: Env, rt: Runtime, d: Path, c: Chain)
    ensures BuildChain(env, rt, d) == Chained(c) <==> GivesChain(env, rt, d, c)
  {
    hide LoadAt, Exists, Parses;
    LoadAtIff(env, rt, IntentKind, d + ["action_intent.json"], c.intent);
    LoadAtIff(env, rt, PccbKind, d + ["pccb.json"], c.pccb);
    match c
    case RefusalChain(_, _, refusal, support) =>
      LoadAtIff(env, rt, RefusalKind, d + ["refusal.json"], refusal);
      if support.Some? {
        LoadAtIff(env, rt, ReceiptKind, support.value.1, support.value.0);
      }
    case ReceiptChain(_, _, receipt, at) =>
      LoadAtIff(env, rt, ReceiptKind, at, receipt);
  }

  lemma NoChainIff(env: Env, rt: Runtime, d: Path)
    ensures BuildChain(env, rt, d).Skipped? <==> GivesNone(env, rt, d)
  {
    hide Exists, SupportPath, Parses, LoadAt, NotExecuted;
    ParsesIff(env, rt, IntentKind, d + ["action_intent.json"]);
    ParsesIff(env, rt, PccbKind, d + ["pccb.json"]);
    NotExecutedIff(env, rt, d + ["receipt.json"]);
  }

  lemma ParsesIff(env: Env, rt: Runtime, kind: Kind, p: Path)
    ensures LoadAt(env, rt, kind, p).Some? <==> exists a :: Parses(env, rt, kind, p, a)
  {
    if LoadAt(env, rt, kind, p).Some? {
      assert Parses(env, rt, kind, p, LoadAt(env, rt, kind, p).value);
    }
  }

  lemma NotExecutedIff(env: Env, rt: Runtime, p: Path)
    ensures (exists r :: NotExecuted(env, rt, p, r)) <==>
            var r := LoadAt(env, rt, ReceiptKind, p); r.Some? && r.value.outcome != "executed"
  {
    var r := LoadAt(env, rt, ReceiptKind, p);
    if r.Some? && r.value.outcome != "executed" {
      assert NotExecuted(env, rt, p, r.value);
    }
  }

  predicate InDir(p: Path, d: Path) { p != [] && p[..|p| - 1] == d }

  /** The chain's artifacts are where their descriptions say. */
  ghost predicate Holds(env: Env, rt: Runtime, d: Path, c: Chain) {
    && Digestible(env, c)
    && LoadAt(env, rt, IntentKind, d + [INTENT]) == Some(c.intent)
    && LoadAt(env, rt, PccbKind, d + [PCCB]) == Some(c.pccb)
    && match c
       case ReceiptChain(_, _, receipt, at) => InDir(at, d) && LoadAt(env, rt, ReceiptKind, at) == Some(receipt)
       case RefusalChain(_, _, refusal, support) =>
         && LoadAt(env, rt, RefusalKind, d + ["refusal.json"]) == Some(refusal)
         && (support.Some? ==>
               InDir(support.value.1, d) && LoadAt(env, rt, ReceiptKind, support.value.1) == Some(support.value.0))
  }

  lemma BuiltHolds(env: Env, rt: Runtime, d: Path)
    requires BuildChain(env, rt, d).Chained?
    ensures Holds(env, rt, d, BuildChain(env, rt, d).chain)
  {
    hide Exists, SupportPath;
    assert SupportPath(rt, d).Some? ==> InDir(SupportPath(rt, d).value, d) by { SupportInDir(rt, d); }
    assert (d + ["execution_receipt.json"])[..|d|] == d && (d + ["receipt.json"])[..|d|] == d;
  }

  lemma SupportInDir(rt: Runtime, d: Path)
    ensures SupportPath(rt, d).Some? ==> InDir(SupportPath(rt, d).value, d)
  {
    assert (d + ["receipt.json"])[..|d|] == d && (d + ["decision_receipt.json"])[..|d|] == d;
  }

  /** The manifest's entry for a chain. */
  function OutcomeJson(env: Env, d: Path, c: Chain): Json
    requires c.ReceiptChain? ==> c.at != [] && c.receipt.AReceipt?
    requires c.RefusalChain? ==> c.refusal.ARefusal?
  {
    match c
    case ReceiptChain(_, _, r, at) => Obj(DescribedOutcome(env, at, "receipt", r.outcome, r))
    case RefusalChain(_, _, f, _) => Obj(DescribedOutcome(env, d + ["refusal.json"], "refusal", f.reasonCode, f))
  }

  function SupportJson(env: Env, c: Chain): Option<Json>
    requires c.RefusalChain? && c.support.Some? ==> c.support.value.1 != [] && c.support.value.0.AReceipt?
  {
    if c.RefusalChain? && c.support.Some?
    then Some(Obj(DescribedReceipt(env, c.support.value.1, c.support.value.0)))
    else None
  }

  function ChainBase(env: Env, d: Path, c: Chain, outcome: Json): Dict
    requires c.pccb.APccb?
  {
    map["chain_id" := Str("pccb:" + c.pccb.pccbId), "directory" := Str(if d == [] then "." else Posix(d)),
        "intent" := Obj(Described(env, d + [INTENT], "intent_id", c.intent)),
        "pccb" := Obj(Described(env, d + [PCCB], "pccb_id", c.pccb)), "outcome" := outcome,
        "action_hash" := Obj(map["value" := Str(c.pccb.actionHash)])]
  }

  function ChainJson(env: Env, rt: Runtime, d: Path, c: Chain): Dict
    requires c.pccb.APccb?
    requires c.ReceiptChain? ==> c.at != [] && c.receipt.AReceipt?
    requires c.RefusalChain? ==> c.refusal.ARefusal?
    requires c.RefusalChain? && c.support.Some? ==> c.support.value.1 != [] && c.support.value.0.AReceipt?
  {
    var base := With(ChainBase(env, d, c, OutcomeJson(env, d, c)), "supporting_receipt", SupportJson(env, c));
    With(base, "intent_record", RecordJson(env, rt, d))
  }

  function RecordJson(env: Env, rt: Runtime, d: Path): Option<Json> {
    var p := d + ["intent_record.json"];
    if rt.root + p !in rt.fs.files then None
    else Some(Obj(map["path" := Str(Posix(p)), "sha256" := Str(env.fileHash(rt.fs.files[rt.root + p]))]))
  }

  /** What the link checks make of the artifacts themselves. */
  function LinkErrors(env: Env, c: Chain): (r: seq<string>)
    requires c.intent.AnIntent? && c.pccb.APccb?
    requires c.ReceiptChain? ==> c.receipt.AReceipt?
    requires c.RefusalChain? ==> c.refusal.ARefusal? && (c.support.Some? ==> c.support.value.0.AReceipt?)
  {
    match c
    case ReceiptChain(i, p, r, _) => PccbErrors(env, i.intent, p) + ReceiptErrors(r, i.intent, p)
    case RefusalChain(i, p, f, s) => RefusalErrors(f, i.intent, p, if s.Some? then Some(s.value.0) else None)
  }

  // ------------------------------------------------------ decision records

  datatype Decided = NoDecision | DecisionFailed | Decision(intent: Artifact, receipt: Artifact)

  const DECISION := "decision_receipt.json"

  function BuildDecision(env: Env, rt: Runtime, d: Path): (r: Decided) {
    if !Exists(rt, d + [INTENT]) || Exists(rt, d + [PCCB]) || !Exists(rt, d + [DECISION]) then NoDecision
    else
      var intent, receipt := LoadAt(env, rt, IntentKind, d + [INTENT]), LoadAt(env, rt, ReceiptKind, d + [DECISION]);
      if intent.None? || receipt.None? || RecordFails(rt, d)
         || env.digest(intent.value).None? || env.digest(receipt.value).None?
      then DecisionFailed
      else Decision(intent.value, receipt.value)
  }

  /** The directory gives this decision record: an intent and a decision receipt, and no proof. */
  ghost predicate GivesDecision(env: Env, rt: Runtime, d: Path, intent: Artifact, receipt: Artifact) {
    && !Exists(rt, d + ["pccb.json"])
    && ReadAs(env, rt, IntentKind, d + ["action_intent.json"], intent)
    && ReadAs(env, rt, ReceiptKind, d + ["decision_receipt.json"], receipt)
    && (Exists(rt, d + ["intent_record.json"]) ==> rt.root + (d + ["intent_record.json"]) in rt.fs.files)
  }

  ghost predicate GivesNoDecision(rt: Runtime, d: Path) {
    || !Exists(rt, d + ["action_intent.json"])
    || Exists(rt, d + ["pccb.json"])
    || !Exists(rt, d + ["decision_receipt.json"])
  }

  lemma DecisionGivenIff(env: Env, rt: Runtime, d: Path, intent: Artifact, receipt: Artifact)
    ensures BuildDecision(env, rt, d) == Decision(intent, receipt) <==> GivesDecision(env, rt, d, intent, receipt)
    ensures GivesDecision(env, rt, d, intent, receipt) ==> intent.AnIntent? && receipt.AReceipt?
  {
    hide LoadAt, Exists, Parses;
    LoadAtIff(env, rt, IntentKind, d + ["action_intent.json"], intent);
    LoadAtIff(env, rt, ReceiptKind, d + ["decision_receipt.json"], receipt);
  }

  lemma NoDecisionIff(env: Env, rt: Runtime, d: Path)
    ensures BuildDecision(env, rt, d).NoDecision? <==> GivesNoDecision(rt, d)
  {
    hide LoadAt, Exists;
  }

  /** Reading the directory raises: it gives neither a chain nor none. */
  ghost predicate ChainRaises(env: Env, rt: Runtime, d: Path) {
    !GivesNone(env, rt, d) && forall c :: !GivesChain(env, rt, d, c)
  }

  lemma ChainRaisesIff(env: Env, rt: Runtime, d: Path)
    ensures BuildChain(env, rt, d).Failed? <==> ChainRaises(env, rt, d)
  {
    hide BuildChain, GivesNone, GivesChain;
    NoChainIff(env, rt, d);
    forall c ensures BuildChain(env, rt, d) == Chained(c) <==> GivesChain(env, rt, d, c) {
      ChainGivenIff(env, rt, d, c);
    }
    var built := BuildChain(env, rt, d);
    if built.Chained? {
      assert GivesChain(env, rt, d, built.chain);
    }
  }

  ghost predicate DecisionRaises(env: Env, rt: Runtime, d: Path) {
    !GivesNoDecision(rt, d) && forall i, r :: !GivesDecision(env, rt, d, i, r)
  }

  lemma DecisionRaisesIff(env: Env, rt: Runtime, d: Path)
    ensures BuildDecision(env, rt, d).DecisionFailed? <==> DecisionRaises(env, rt, d)
  {
    hide BuildDecision, GivesNoDecision, GivesDecision;
    NoDecisionIff(env, rt, d);
    forall i, r ensures BuildDecision(env, rt, d) == Decision(i, r) <==> GivesDecision(env, rt, d, i, r) {
      DecisionGivenIff(env, rt, d, i, r);
    }
    var built := BuildDecision(env, rt, d);
    if built.Decision? {
      assert GivesDecision(env, rt, d, built.intent, built.receipt);
    }
  }

  function DecisionJson(env: Env, rt: Runtime, d: Path, intent: Artifact, receipt: Artifact): Dict
    requires receipt.AReceipt?
  {
    With(map["directory" := Str(if d == [] then "." else Posix(d)),
             "intent" := Obj(Described(env, d + [INTENT], "intent_id", intent)),
             "decision_receipt" := Obj(DescribedReceipt(env, d + [DECISION], receipt))],
         "intent_record", RecordJson(env, rt, d))
  }

  // -------------------------------------------------------------- manifest

  function HashJson(value: string): Json {
    Obj(map["algorithm" := Str("sha-256"), "value" := Str(value)])
  }

  /** The manifest is that of the runtime: `chains` and `decisions` list, for the
      directories that have them, the artifacts its entries stand for. */
  ghost predicate Describes(env: Env, rt: Runtime, m: Manifest, chains: seq<(Path, Chain)>,
                            decisions: seq<(Path, Artifact, Artifact)>) {
    && m.entries == EntryNames(rt)
    && (forall s :: s in m.fileHashes <==> Hashed(rt, BundleEntries(rt), |BundleEntries(rt)|, s))
    && (forall s :: s in m.fileHashes ==> FileHashed(env, rt, s, m.fileHashes[s]))
    && |m.chains| == |chains| && |m.decisions| == |decisions|
    && (forall i, j :: 0 <= i < j < |chains| ==> chains[i].0 != chains[j].0)
    && (forall i, j :: 0 <= i < j < |decisions| ==> decisions[i].0 != decisions[j].0)
    && (forall i :: 0 <= i < |chains| ==> ChainDescribed(env, rt, m.chains[i], chains[i].0, chains[i].1))
    && (forall i :: 0 <= i < |decisions| ==> DecisionDescribed(env, rt, m.decisions[i], decisions[i]))
    && (forall d, c :: Candidate(rt, CHAIN_ROOTS, |CHAIN_ROOTS|, d) && GivesChain(env, rt, d, c) ==> (d, c) in chains)
    && (forall d, i, r :: Candidate(rt, CHAIN_ROOTS, |CHAIN_ROOTS|, d) && GivesDecision(env, rt, d, i, r) ==>
                            (d, i, r) in decisions)
  }

  ghost predicate FileHashed(env: Env, rt: Runtime, s: string, payload: Json) {
    exists p :: p in rt.order && p != [] && Posix(p) == s && rt.root + p in rt.fs.files && Covered(rt, p)
                && payload == HashJson(env.fileHash(rt.fs.files[rt.root + p]))
  }

  ghost predicate ChainDescribed(env: Env, rt: Runtime, json: Json, d: Path, c: Chain) {
    && Candidate(rt, CHAIN_ROOTS, |CHAIN_ROOTS|, d) && GivesChain(env, rt, d, c) && Holds(env, rt, d, c)
    && json == Obj(ChainJson(env, rt, d, c))
  }

  ghost predicate DecisionDescribed(env: Env, rt: Runtime, json: Json, x: (Path, Artifact, Artifact)) {
    && Candidate(rt, CHAIN_ROOTS, |CHAIN_ROOTS|, x.0) && GivesDecision(env, rt, x.0, x.1, x.2)
    && x.1.AnIntent? && x.2.AReceipt? && json == Obj(DecisionJson(env, rt, x.0, x.1, x.2))
  }

  method BuildFileHashes(env: Env, rt: Runtime, files: seq<string>) returns (hashes: Dict)
    requires WellFormed(rt) && forall s :: s in files <==> Hashed(rt, BundleEntries(rt), |BundleEntries(rt)|, s)
    ensures forall s :: s in hashes <==> s in files
    ensures forall s :: s in hashes ==> FileHashed(env, rt, s, hashes[s])
  {
    hide Ephemeral, BundleEntries, HashJson;
    hashes := map[];
    for i := 0 to |files|
      invariant forall s :: s in hashes <==> s in files[..i]
      invariant forall s :: s in hashes ==> FileHashed(env, rt, s, hashes[s])
    {
      assert files[i] in files && files[..i + 1] == files[..i] + [files[i]];
      HashedIsFile(rt, files[i]);
      var source := Resolve(rt.root, files[i]);
      hashes := hashes[files[i] := HashJson(env.fileHash(rt.fs.files[source]))];
    }
    assert files[..|files|] == files;
  }

  lemma HashedIsFile(rt: Runtime, s: string)
    requires WellFormed(rt) && Hashed(rt, BundleEntries(rt), |BundleEntries(rt)|, s)
    ensures Resolve(rt.root, s) in rt.fs.files
    ensures exists p :: p in rt.order && p != [] && Posix(p) == s && Covered(rt, p)
                        && Resolve(rt.root, s) == rt.root + p
  {
    hide Ephemeral, BundleEntries, Resolve, Covers;
    var e: nat, p: nat :| e < |BundleEntries(rt)| && p < |rt.order| && rt.order[p] != []
                          && Covers(rt, BundleEntries(rt)[e], rt.order[p]) && s == Posix(rt.order[p]) && !Ephemeral(s);
    MemberOfPosix(rt.root, rt.order[p]);
    MemberResolves(rt.root, s);
  }

  lemma MemberResolves(root: Path, s: string)
    ensures Member(root, s).Some? ==> Member(root, s).value == Resolve(root, s)
  {
  }

  /** `d` comes before `e` in the list. */
  ghost predicate Precedes(dirs: seq<Path>, d: Path, e: Path) {
    exists i, j :: 0 <= i < j < |dirs| && dirs[i] == d && dirs[j] == e
  }

  lemma AllPrecede(dirs: seq<Path>, i: nat)
    requires i < |dirs|
    ensures forall d :: d in dirs[..i + 1] <==> d in dirs[..i] || d == dirs[i]
    ensures forall d :: d in dirs[..i] ==> Precedes(dirs, d, dirs[i])
  {
    assert dirs[..i + 1] == dirs[..i] + [dirs[i]];
  }

  /** What is built from a directory is what its files give. */
  lemma BuiltIsGiven(env: Env, rt: Runtime, d: Path)
    ensures var built := BuildChain(env, rt, d);
            && (built.Failed? <==> ChainRaises(env, rt, d))
            && (forall c :: GivesChain(env, rt, d, c) <==> built == Chained(c))
            && (built.Chained? ==> Kinds(built.chain) && Holds(env, rt, d, built.chain))
  {
    hide BuildChain, GivesNone, GivesChain, ChainRaises, Holds;
    ChainRaisesIff(env, rt, d);
    forall c ensures BuildChain(env, rt, d) == Chained(c) <==> GivesChain(env, rt, d, c) {
      ChainGivenIff(env, rt, d, c);
    }
    if BuildChain(env, rt, d).Chained? {
      BuiltHolds(env, rt, d);
      HoldsKinds(env, rt, d, BuildChain(env, rt, d).chain);
    }
  }

  lemma DecidedIsGiven(env: Env, rt: Runtime, d: Path)
    ensures var built := BuildDecision(env, rt, d);
            && (built.DecisionFailed? <==> DecisionRaises(env, rt, d))
            && (forall i, r :: GivesDecision(env, rt, d, i, r) <==> built == Decision(i, r))
            && (built.Decision? ==> built.intent.AnIntent? && built.receipt.AReceipt?)
  {
    hide BuildDecision, GivesNoDecision, GivesDecision, DecisionRaises;
    DecisionRaisesIff(env, rt, d);
    forall i, r
      ensures BuildDecision(env, rt, d) == Decision(i, r) <==> GivesDecision(env, rt, d, i, r)
      ensures GivesDecision(env, rt, d, i, r) ==> i.AnIntent? && r.AReceipt?
    {
      DecisionGivenIff(env, rt, d, i, r);
    }
  }

  ghost predicate Kinds(c: Chain) {
    && c.intent.AnIntent? && c.pccb.APccb?
    && (c.ReceiptChain? ==> c.at != [] && c.receipt.AReceipt?)
    && (c.RefusalChain? ==> c.refusal.ARefusal?)
    && (c.RefusalChain? && c.support.Some? ==> c.support.value.1 != [] && c.support.value.0.AReceipt?)
  }

  lemma HoldsKinds(env: Env, rt: Runtime, d: Path, c: Chain)
    requires Holds(env, rt, d, c)
    ensures Kinds(c)
  {
  }

  method BuildChains(env: Env, rt: Runtime, dirs: seq<Path>)
    returns (json: Option<seq<Json>>, chains: seq<(Path, Chain)>)
    requires Distinct(dirs) && forall i :: 0 <= i < |dirs| ==> Candidate(rt, CHAIN_ROOTS, |CHAIN_ROOTS|, dirs[i])
    ensures json.None? <==> exists i :: 0 <= i < |dirs| && ChainRaises(env, rt, dirs[i])
    ensures json.Some? ==>
              && |json.value| == |chains|
              && (forall i, j :: 0 <= i < j < |chains| ==> Precedes(dirs, chains[i].0, chains[j].0))
              && (forall i :: 0 <= i < |chains| ==> ChainDescribed(env, rt, json.value[i], chains[i].0, chains[i].1))
              && (forall i, c :: 0 <= i < |dirs| && GivesChain(env, rt, dirs[i], c) ==> (dirs[i], c) in chains)
  {
    hide BuildChain, ChainJson, Candidate, Holds, GivesChain, ChainRaises, Precedes;
    var built: seq<Json> := [];
    chains := [];
    for i := 0 to |dirs|
      invariant |built| == |chains|
      invariant forall j :: 0 <= j < |chains| ==> chains[j].0 in dirs[..i]
      invariant forall j, k :: 0 <= j < k < |chains| ==> Precedes(dirs, chains[j].0, chains[k].0)
      invariant forall j :: 0 <= j < i ==> !ChainRaises(env, rt, dirs[j])
      invariant forall j :: 0 <= j < |chains| ==> ChainDescribed(env, rt, built[j], chains[j].0, chains[j].1)
      invariant forall j, c :: 0 <= j < i && GivesChain(env, rt, dirs[j], c) ==> (dirs[j], c) in chains
    {
      AllPrecede(dirs, i);
      BuiltIsGiven(env, rt, dirs[i]);
      match BuildChain(env, rt, dirs[i])
      case Failed => return None, chains;
      case Skipped =>
      case Chained(c) =>
        built, chains := built + [Obj(ChainJson(env, rt, dirs[i], c))], chains + [(dirs[i], c)];
    }
    return Some(built), chains;
  }

  method BuildDecisions(env: Env, rt: Runtime, dirs: seq<Path>)
    returns (json: Option<seq<Json>>, decisions: seq<(Path, Artifact, Artifact)>)
    requires Distinct(dirs) && forall i :: 0 <= i < |dirs| ==> Candidate(rt, CHAIN_ROOTS, |CHAIN_ROOTS|, dirs[i])
    ensures json.None? <==> exists i :: 0 <= i < |dirs| && DecisionRaises(env, rt, dirs[i])
    ensures json.Some? ==>
              && |json.value| == |decisions|
              && (forall i, j :: 0 <= i < j < |decisions| ==> Precedes(dirs, decisions[i].0, decisions[j].0))
              && (forall i :: 0 <= i < |decisions| ==> DecisionDescribed(env, rt, json.value[i], decisions[i]))
              && (forall k, i, r :: 0 <= k < |dirs| && GivesDecision(env, rt, dirs[k], i, r) ==>
                                      (dirs[k], i, r) in decisions)
  {
    hide DecisionJson, Candidate, BuildDecision, GivesDecision, DecisionRaises, Precedes;
    var built: seq<Json> := [];
    decisions := [];
    for n := 0 to |dirs|
      invariant |built| == |decisions|
      invariant forall j :: 0 <= j < |decisions| ==> decisions[j].0 in dirs[..n]
      invariant forall j, k :: 0 <= j < k < |decisions| ==> Precedes(dirs, decisions[j].0, decisions[k].0)
      invariant forall j :: 0 <= j < n ==> !DecisionRaises(env, rt, dirs[j])
      invariant forall j :: 0 <= j < |decisions| ==> DecisionDescribed(env, rt, built[j], decisions[j])
      invariant forall k, i, r :: 0 <= k < n && GivesDecision(env, rt, dirs[k], i, r) ==> (dirs[k], i, r) in decisions
    {
      AllPrecede(dirs, n);
      DecidedIsGiven(env, rt, dirs[n]);
      match BuildDecision(env, rt, dirs[n])
      case DecisionFailed => return None, decisions;
      case NoDecision =>
      case Decision(intent, receipt) =>
        built := built + [Obj(DecisionJson(env, rt, dirs[n], intent, receipt))];
        decisions := decisions + [(dirs[n], intent, receipt)];
    }
    return Some(built), decisions;
  }
}
