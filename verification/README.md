# Actenon kernel: a Dafny model of its trust core

The kernel admits action intents, issues proofs (PCCBs) for them, lets a resource boundary
accept each proof once, and leaves evidence behind: receipts, hash-chained logs, transparency
proofs and portable bundles. This project models that core and proves what holds over whole
runs and for every input.

`dafny verify dfyconfig.toml` checks everything.

## How it is organised

- **Boundary.** `BoundaryChecks` is the ordered pipeline before the single-use claim,
  `ReplayStore` the transactional store, `BoundaryMachine` any number of concurrent calls of
  any number of verifiers over one store, one atomic action per step. `BoundarySafety` proves
  the invariant of every interleaving and at-most-once use; `BoundaryAccounting` accounts for
  every tracked key and shows that calls refused by the checks leave no trace; `BoundaryOutcomes`
  traces every result of every run to the step that caused it; `ExpiredCalls` says when an expired
  call can be accepted; `BoundaryWitnesses` holds the runs that show the limits. `Boundary` is the verifier object, tied to the machine step by step, and `Receipts`
  what may be built from its results. `Timestamps` is the store's comparison of times.
- **Admission.** `Escrow` and `Admission` are the capability escrow and `submit_intent`, with
  theorems over every run of submissions, consumes and revocations.
- **Logs.** `AnchorModels`, `AnchorLog`, `AnchorAppends` and `DecisionLog` are the hash chains;
  `AnchorLimits` shows where issued anchors fail.
- **Bundles.** `BundlePaths`, `BundleVerify`, `BundleSafety`, `BundleExport`, `BundleRoundTrip`.
- **Transparency.** `Merkle`, `MerkleProofs`, `MerkleConsistency`, `Transparency` and
  `InclusionUniqueness`: the register-based verifiers against the recursive trees of RFC 9162;
  `MerkleExample` is the tree that the RFC works through.
- **Forms.** `CanonicalJson` (canonical texts are prefix free, hence digests of them identify
  values), `CanonicalSize` (their length in bytes), `WireText` (the texts that are hashed, name by name), `PythonValues` (values before they are written,
  and Python's equality), `Codecs` and `ProofToken` (UTF-8, base64url, tokens and headers), `JsonIntake`
  (duplicate keys, depth).
- **Smaller stores.** `InvoicePayment`, `FindingDedupe`, `IdempotencyStore`.
- `Wrappers`, `Ordering` and `Dicts` hold shared vocabulary.

A digest is a function parameter; where a theorem needs it not to collide, it says so with
`CollisionFree`. `CanonicalDigestCollisionFree` reduces that to the hash of texts. Clocks,
fresh identifiers, parsers, signatures and the answers of policy, seal and effect services
are parameters.

## Results that differ from what one might expect

- `replay_keys_tracked` is not valid results plus effect refusals: a call whose request cannot
  be hashed for its receipt has already taken its key. That is so of a request beyond the
  limits of size or depth (`UnknownOutcomeExists`) and, however small, of one with a float or
  anything else without a canonical form among the unsigned fields of its intent
  (`FloatOutcomeExists`). `UnknownOutcomeKeepsKey` is the run, `TwoTermAccountIff` with
  `RequestFitsIff` the exact condition.
- With a store, a proof presented at or past its expiry is refused when the call runs alone,
  because the store's look expires the fresh claim (`ExpiredAloneRefused`). Interleaved calls
  can defeat that: `mark_consumed` takes whatever claim stands on the key. `ExpiredCallValid`
  gives a run, `ExpiredSpentIff` and `ExpiredValidIff` the exact condition for every run.
- The three forms of a proof token are not interchangeable: raw JSON is stripped before its
  size is taken, an encoded text is not. `OuterSpaceSeparatesForms` and `ProofTokenForms`.
- An anchor entry is hashed without its own hash but loaded with it, both under the limit of
  1,048,576 bytes. An entry that fits the first limit and not the second is accepted and makes
  the log unreadable for good: `IssuedVerifiesIff`, `RunUsableIff`, `OversizedEntryExists`.
- An anchor is returned with the caller's metadata but checked against what the log reads back,
  where a tuple has become a list: `TupleAnchorRefused`, `IssuedVerifiesIff`.
- Python takes True, 1 and 1.0 as equal, so a seal may write True for 1 among the parameters of a
  proof: `SealMayRewriteNumbers`.
- The replay store compares timestamps as text, where a whole second sorts after its own
  fractions: `TextLeIff`.
- The escrow state "expired" refuses nothing; only the clock does: `ExpiredConsumeIff`,
  `ClockGoingBack`. With a clock that does not go back an expired record is never consumed.
- `verify_inclusion` lacks the check of section 2.1.3.2 of RFC 9162 that stops when `sn` is
  zero. Against the root of a real tree nothing is lost (`InclusionExact`); for an arbitrary
  root two digests can verify at one index exactly in the cases of `DigestUniqueIff`.
- A refusal chain of a bundle is accepted without comparing its proof with its intent:
  `RefusalTakesAnyProof`, `UnlinkedChainAccepted`, and `RefusalChainIff` beside `ReceiptChainIff`.
- `normalize_payment_date` takes a `datetime`, being a `date`, and writes a text that it would
  not read back: `DatetimeCannotBuild`, `BuildRaisesIff`.

## Model

| member | source | states |
|---|---|---|
| BoundaryChecks.RefusedByFirstFailure | actenon/boundary/__init__.py:242-337 | a refusal carries the code of the first of twelve ordered checks that fails |
| BoundaryChecks.TrustedIsFirst | actenon/boundary/__init__.py:291-295 | the trusted capabilities are the first that are not empty of the request's, the verifier's and the action type alone |
| BoundaryChecks.ParseIntentIff | actenon/boundary/__init__.py:269-275 | an intent is taken as it is or parsed, and nothing else is one |
| BoundaryChecks.ParseAudienceIff | actenon/boundary/__init__.py:151-157 | which audience texts are accepted, and as what |
| BoundaryChecks.ActionHashFixesIntent | actenon/proof/service.py:96-105 | equal action hashes mean equal intents in every signed field |
| BoundaryChecks.MemoryKeyIsIdentity | actenon/boundary/__init__.py:413-420 | two proofs share an in-memory replay key exactly when id, nonce, action hash and audience agree |
| BoundaryChecks.StoreKeyIsIdentity | actenon/replay/service.py:85-95 | the store key, which also names intent id, capability and target, identifies the same thing for proofs bound to their intents |
| BoundaryChecks.SameTargetIff | actenon/models/contracts.py:196-228 | targets are the same exactly when Python finds their wire forms equal, resource type, resource id, uri and selectors together |
| BoundaryChecks.SameActionIff | actenon/models/contracts.py:164-193 | actions are the same exactly when Python finds their wire forms equal |
| WireText.ObjectText | actenon/proof/canonical.py:68-101 | an object is written as its entries in ascending order of their names |
| WireText.SignedText | actenon/proof/service.py:96-105 | the text an action hash is taken of, name by name |
| WireText.MemoryKeyText | actenon/boundary/__init__.py:413-420 | the text an in-memory replay key is taken of |
| WireText.StoreKeyText | actenon/replay/service.py:85-95 | the text a store key is taken of |
| WireText.RequestText | actenon/boundary/__init__.py:378-392 | the text a receipt's request hash is taken of |
| ReplayStore.ClaimCommitsIff | actenon/replay/dbapi.py:128-170 | a key can be claimed exactly when it has no row, or one that is released, expired or overdue |
| ReplayStore.ConsumedForever | actenon/replay/dbapi.py:116-347 | no run of store operations, with any clocks, makes a consumed key claimable or consumable again |
| ReplayStore.DbApiReplayStore.ClaimOnce | actenon/replay/dbapi.py:116-203 | succeeds exactly on a key without row, or with a released, expired or text-overdue one, and then writes a new claim, expired at once if its time is over; otherwise the row that stands is aged; no other row changes |
| Timestamps.TextOrder | actenon/replay/dbapi.py:129-136 | the store's comparison of two formatted times is `TextLe` of the times |
| Timestamps.TextLeIff | actenon/models/contracts.py:20-21 | text order is the order of time exactly except between a whole and a broken time of one second |
| ReplayStore.DbApiReplayStore.MarkConsumed | actenon/replay/dbapi.py:205-238 | succeeds exactly on a claimed row and rewrites that row alone |
| ReplayStore.DbApiReplayStore.ReleaseClaim | actenon/replay/dbapi.py:240-288 | releases claimed rows, returns consumed rows untouched, refuses a missing and any other row with its own code |
| ReplayStore.DbApiReplayStore.InspectKey | actenon/replay/dbapi.py:290-320 | ages the row it reads and nothing else |
| ReplayStore.DbApiReplayStore.PurgeExpired | actenon/replay/dbapi.py:322-347 | expires every claim whose text is overdue and counts exactly those |
| BoundarySafety.NextKeepsInv | actenon/boundary/__init__.py:242-427 | every atomic step of any call or store client keeps the invariant: spent calls are recorded, keys are distinct within a scope, every tracked key has an owner |
| BoundarySafety.AtMostOnceInMemory | actenon/boundary/__init__.py:413-427 | over every interleaving one in-memory verifier accepts a proof identity at most once |
| BoundarySafety.AtMostOnceShared | actenon/boundary/__init__.py:394-412 | verifiers sharing a store accept a proof identity at most once between them, and never one another client consumed |
| BoundaryAccounting.ExactAccount | actenon/boundary/__init__.py:492-503 | tracked keys count valid results, effect refusals, unknown outcomes and calls still past the claim |
| BoundaryAccounting.TrackedIsSpent | actenon/boundary/__init__.py:394-427 | a verifier tracks one key for each call holding its single use, and none when it has a store |
| BoundaryAccounting.TwoTermAccountIff | actenon/boundary/__init__.py:339-392 | at rest, tracked keys are valid results plus effect refusals exactly when every request that got past the effect claim has a canonical form within the limits of its receipt hash |
| BoundaryMachine.RequestFitsIff | actenon/proof/canonical.py:68-119 | a request can be hashed exactly when nothing in the unsigned part of its intent lacks a canonical form and the whole is within the limits |
| BoundaryWitnesses.LongRequestDoesNotFit | actenon/boundary/__init__.py:378-392 | a request with a boundary id as long as the limit passes the same checks and cannot be hashed for a receipt |
| BoundaryWitnesses.FloatRequestDoesNotFit | actenon/proof/canonical.py:79-80 | however wide the limits, a small request with a float among the unsigned fields of its intent passes every check and cannot be hashed |
| BoundaryWitnesses.UnknownOutcomeKeepsKey | actenon/boundary/__init__.py:226-240 | its run leaves a key tracked without a valid result or an effect refusal |
| BoundaryWitnesses.UnknownOutcomeExists | actenon/boundary/__init__.py:242-392 | a boundary and a request of that kind exist |
| BoundaryWitnesses.FloatOutcomeExists | actenon/boundary/__init__.py:242-392 | a boundary without limits and such a float request exist |
| BoundaryAccounting.RefusedCallInvisible | actenon/boundary/__init__.py:245-337 | erasing a call refused by the checks from a run changes no key set, no row and no other result |
| Boundary.BoundaryVerifier.ClaimSingleUse | actenon/boundary/__init__.py:394-427 | when the claim succeeds, and the whole new state of memory or store |
| Boundary.BoundaryVerifier.VerifyBoundary | actenon/boundary/__init__.py:226-376 | a call ends in the state of the machine's steps and answers, in this order, the refusal of the checks, a replay, the failure of the effect claim, an unknown outcome, or a result with the proof's id, the very reference claimed and the hash of the request |
| BoundaryOutcomes.EveryResultCaused | actenon/boundary/__init__.py:242-427 | in every run every result has its cause in a step of the run: the failed check, a store fault or the claim or consume that found the key taken, the protector's failure, a request without hash, or what makes it valid |
| BoundaryOutcomes.ValidCarriesGrant | actenon/boundary/__init__.py:339-376 | in every run a valid call of a verifier with a protector carries the reference granted to that call at its effect claim, and one without a protector carries none |
| Boundary.AloneIsRun | actenon/boundary/__init__.py:242-376 | an uninterrupted call is a run of the machine, so the run theorems cover it |
| Boundary.ClaimedAlone | actenon/boundary/__init__.py:394-427 | claim, consume and the looks between them act as one claim that succeeds exactly on a free, unexpired key |
| Boundary.ValidIff | actenon/boundary/__init__.py:242-392 | an uninterrupted call is valid exactly when the checks, the fresh single use, the effect claim and the canonical form of its request all allow it |
| Boundary.ExpiredAloneRefused | actenon/boundary/__init__.py:397-412 | with a store, an uninterrupted call at or past the expiry is refused and consumes nothing |
| ExpiredCalls.ExpiredSpentIff | actenon/replay/dbapi.py:116-238 | in every run an expired call takes the single use exactly when, after its own claim, another claim of its key commits and still stands at its consume |
| ExpiredCalls.ExpiredValidIff | actenon/boundary/__init__.py:339-412 | in every run an expired call is valid exactly when it was overtaken so, got past the effect claim and its request has a canonical form within the limits |
| BoundaryWitnesses.Overtaken | actenon/replay/dbapi.py:205-238 | a run of two requests for one key in which the expired one ends valid |
| BoundaryWitnesses.ExpiredCallValid | actenon/boundary/__init__.py:394-412 | a boundary and requests of that kind exist |
| Receipts.RequestJsonInjective | actenon/boundary/__init__.py:378-392 | the written request fixes proof, action type, action hash, target, audience, boundary and the intent as written |
| Receipts.ValidResultHash | actenon/boundary/__init__.py:371-376 | in every run, every valid result carries the hash of the very request that was verified, its proof's id and, exactly with a protector, an effect |
| Receipts.EffectReceiptIff | actenon/boundary/__init__.py:429-490 | for every result of every run, an effect receipt exists exactly for a request agreeing with the verified one and for evidence that repeats the reference with three further fields; COMMITTED is reported as succeeded, NOT_EXECUTED as refused, AMBIGUOUS as outcome_unknown, and every other outcome or a contradicting one is refused |
| Receipts.LoneReceiptIff | actenon/boundary/__init__.py:429-490 | the same for a call that runs alone |
| Receipts.PlainReceiptIff | actenon/boundary/__init__.py:437-490 | a result without effect gives a receipt exactly when no evidence comes with it, and that states the caller's outcome, or succeeded where none or an empty one was given |
| Escrow.InMemoryCapabilityEscrow.Issue | actenon/escrow/memory.py:20-32 | a new id gets a fresh issued record, a used id is refused without change |
| Escrow.InMemoryCapabilityEscrow.Consume | actenon/escrow/memory.py:37-56 | the refusal given, in the order of the checks, and the whole new table |
| Escrow.InMemoryCapabilityEscrow.Revoke | actenon/escrow/memory.py:58-65 | revokes any existing record and keeps its consumption time |
| Escrow.ConsumeSucceedsIff | actenon/escrow/memory.py:37-56 | in every run a consume succeeds exactly when the id was issued before with the same proof and capability, the clock is at most the issued expiry, and it was neither consumed nor revoked since |
| Escrow.ConsumeRefusedAs | actenon/escrow/memory.py:37-53 | which refusal a failing consume gets, told from the operations before it |
| Escrow.IssueSucceedsIff | actenon/escrow/memory.py:20-32 | in every run an issue succeeds exactly when the id was not issued before |
| Escrow.RevokeSucceedsIff | actenon/escrow/memory.py:58-65 | in every run a revocation succeeds exactly when the id was issued before |
| Escrow.RefusalChanges | actenon/escrow/memory.py:20-65 | a refusal changes nothing, except that a late consume marks its record expired |
| Escrow.RunEvolves | actenon/escrow/memory.py:20-65 | over every run ids stay, bindings never change, no record returns to issued, consumption times stay, revocation is final |
| Escrow.IssuedOnce | actenon/escrow/memory.py:21-23 | an id is issued at most once in a run |
| Escrow.IssuedBefore | actenon/escrow/memory.py:20-65 | every record was issued earlier in the run with the bindings it has now |
| Escrow.ConsumedOnce | actenon/escrow/memory.py:37-56 | an id is consumed at most once in a run |
| Escrow.ConsumedAtExact | actenon/escrow/memory.py:54-65 | the consumption time is that of the one successful consume, and is there exactly if there was one |
| Escrow.ExpiredNeverConsumed | actenon/escrow/memory.py:46-49 | after an expiry refusal a consume succeeds only if the clock went back |
| Escrow.ExpiredConsumeIff | actenon/escrow/memory.py:42-56 | an expired record is consumed exactly when the clock reads at most its expiry |
| Escrow.ClockGoingBack | actenon/escrow/memory.py:42-56 | a run in which an expired record is consumed |
| Admission.ValidatedExecutionPccb | actenon/core/kernel.py:37-66 | a seal is accepted exactly when none of twelve fields changed, as Python compares them; otherwise the first changed field is named |
| Admission.SealMayRewriteNumbers | actenon/core/kernel.py:46-66 | a seal that writes True for 1 among the parameters is accepted |
| Admission.ProtectedExecutionKernel.ResolveExecutionPccb | actenon/core/kernel.py:68-89 | the local proof without sealing, an accepted seal, or the seal's error |
| Admission.ProtectedExecutionKernel.SubmitIntent | actenon/core/kernel.py:91-189 | reply, escrow operation, written outcomes and stored intents and proofs of a submission, exceptions included; `AdmittedExactly` and `ReplyCases` say which |
| Admission.AdmittedExactly | actenon/core/kernel.py:134-189 | over every run exactly the allowed submissions that can be hashed and have a new escrow id are admitted, with the seal if it keeps the twelve fields and otherwise, unless a seal is required, with the minted proof |
| Admission.AdmittedBindsIntent | actenon/proof/service.py:170-205 | over every run an admitted proof, sealed or not, is of the submitted intent in id, subject, tenant, action and target, for the audience and scope of its context, from its time to the intent's expiry, under its escrow id and action hash |
| Admission.RequiredSealAdmits | actenon/core/kernel.py:148-161 | where a seal is required, an admitted proof is the seal itself and keeps the twelve fields |
| Admission.UnrequiredSealAdmits | actenon/core/kernel.py:142-161 | where none is required, every admissible submission is admitted, with its local proof if the seal fails |
| Admission.FreshIff | actenon/core/kernel.py:162-168 | an escrow id is new exactly when no earlier submission was admitted under it |
| Admission.ReplyCases | actenon/core/kernel.py:91-189 | what is written and returned for each decision, which refusal code, and when the call raises |
| Admission.AdmittedIsBound | actenon/core/kernel.py:37-89 | every admitted proof, sealed or not, agrees with the minted one in all twelve fields |
| Admission.ConsumeHasAdmission | actenon/core/kernel.py:134-189 | every successful consume follows an allowed submission that issued that escrow for that proof, capability and expiry |
| Admission.ConsumedAtMostOnce | actenon/escrow/memory.py:37-56 | no admitted proof's escrow is consumed twice |
| Admission.AdmittedDistinct | actenon/core/kernel.py:162-168 | distinct admissions have distinct escrow ids |
| Admission.RecordsAreAdmissions | actenon/core/kernel.py:162-189 | escrow records are exactly the admitted proofs, with their id, capability and expiry |
| Admission.Serve | actenon/core/kernel.py:91-189 | over a whole run each submission is answered once, in order, and what was written and stored is exactly what the replies hold |
| AnchorModels.AnchorRoundTripIff | actenon/anchors/models.py:90-136 | an anchor survives its wire form exactly when it is well formed |
| AnchorModels.DigestsMatchSymmetric | actenon/anchors/models.py:41-52 | a match is symmetric, and means equality exactly when both or neither name a canonicalization |
| AnchorModels.DigestsMatchIff | actenon/anchors/models.py:26-52 | comparing raises unless both are digests, and holds exactly when algorithm and value are equal and no two different canonicalizations are named |
| AnchorLog.ValidateChain | actenon/anchors/local_log.py:209-224 | accepts exactly the valid chains |
| AnchorLog.ValidChainIff | actenon/anchors/local_log.py:209-224 | a chain is valid exactly when every entry has the contract, the type, its place, the hash of the entry before it and its own hash |
| AnchorLog.HashFixesHistory | actenon/anchors/local_log.py:39-46 | equal entry hashes in two valid logs mean the same place and the same history |
| AnchorLog.AnchorFixesHistory | actenon/anchors/local_log.py:152-177 | an anchor verifying against two logs forces them to agree up to its sequence |
| AnchorAppends.AppendKeepsChain | actenon/anchors/local_log.py:92-115 | an append keeps the chain valid |
| AnchorAppends.NewEntryAnchor | actenon/anchors/local_log.py:49-64 | the anchor read off a new entry carries what was asked for, its place and its hashes, with the metadata as it is read back |
| AnchorAppends.IssuedVerifiesIff | actenon/anchors/local_log.py:83-115 | an issued anchor verifies at once exactly when the whole entry still loads and its metadata holds no tuple |
| AnchorLimits.TupleAnchorRefused | actenon/anchors/local_log.py:171-176 | on an empty log a request with a tuple in its metadata gets an anchor that never verifies although the log stays usable |
| PythonValues.ReloadIff | actenon/anchors/local_log.py:179-183 | a value that can be written equals what is read back exactly when it holds no tuple |
| PythonValues.LoadedCanon | actenon/anchors/local_log.py:179-207 | what was read from JSON is written as it was |
| PythonValues.CanonIff | actenon/proof/canonical.py:68-94 | a value can be written exactly when nothing in it lacks a canonical form |
| AnchorAppends.OversizedEntryEndsLog | actenon/anchors/local_log.py:185-207 | an accepted entry too long to load ends the log |
| AnchorLimits.OversizedEntryExists | actenon/anchors/local_log.py:92-115 | every log that accepts a request with a short note accepts one whose line is too long, sizes being UTF-8 lengths of canonical texts |
| AnchorLimits.EmptyLogCanEnd | actenon/anchors/local_log.py:83-115 | an empty log accepts such a request |
| AnchorAppends.RunUsableIff | actenon/anchors/local_log.py:83-115 | sequential appends keep the log valid exactly as long as every accepted entry still loads |
| AnchorAppends.UnusableStays | actenon/anchors/local_log.py:93-115 | a log that fails validation is never extended |
| AnchorAppends.IssuedAnchorsKeepVerifying | actenon/anchors/local_log.py:152-177 | while the log loads, an issued anchor verifies after any later appends and after a trip through the wire form exactly when its metadata holds no tuple |
| AnchorAppends.LocalAppendOnlyAnchorLog.ReadEntries | actenon/anchors/local_log.py:185-207 | returns the entries exactly when every line loads and the chain is valid |
| AnchorAppends.LocalAppendOnlyAnchorLog.AnchorArtifactDigest | actenon/anchors/local_log.py:83-115 | when an append is accepted, what it adds and which anchor it returns; otherwise no change |
| AnchorAppends.LocalAppendOnlyAnchorLog.VerifyExternalAnchor | actenon/anchors/local_log.py:152-177 | accepts exactly the anchors of entries of the valid log at the place they name, negative list indices included |
| DecisionLog.HashFixesHistory | actenon/mcp_server.py:61-88 | an equal entry hash in two decision logs fixes the common history |
| DecisionLog.Log.Append | actenon/mcp_server.py:73-88 | extends the chain by one linked entry, or changes nothing exactly when the entry cannot be hashed |
| DecisionLog.Log.Find | actenon/mcp_server.py:90-98 | the first entry naming the artifact, if any |
| DecisionLog.Log.ChainReference | actenon/mcp_server.py:100-106 | the reference of an entry of the log locates it |
| BundlePaths.MemberOfPosix | actenon/local_runtime.py:3105-3120 | a path written into a manifest resolves to the place it was written for |
| BundlePaths.ClimbingOutRefused | actenon/local_runtime.py:3105-3120 | a path that climbs further than it descends is refused |
| BundlePaths.AbsoluteMember | actenon/local_runtime.py:3105-3120 | an absolute path is a member exactly when it lies below the root |
| BundlePaths.DetourIgnored | actenon/local_runtime.py:3105-3120 | going into a directory and back, or a dot, changes nothing |
| BundleVerify.VerifyBundleRoot | actenon/local_runtime.py:3123-3214 | when verification raises, that `ok` holds exactly for accepted bundles, all six counts, and that they agree when `ok` holds |
| BundleVerify.ManifestRoundTrip | actenon/local_runtime.py:3126-3137 | a manifest is read back as it was written |
| BundleVerify.CheckEntries | actenon/local_runtime.py:3138-3150 | no error exactly when every entry is a path inside the bundle |
| BundleVerify.CheckDeclaredFiles | actenon/local_runtime.py:3153-3171 | which files verify, their number, and when the check raises |
| BundleVerify.CheckChains | actenon/local_runtime.py:3173-3182 | how many chains are free of errors, and when the check raises |
| BundleVerify.CheckDecisions | actenon/local_runtime.py:3184-3195 | how many decision records are free of errors, and when the check raises |
| BundleVerify.PccbErrors | actenon/local_runtime.py:3365-3378 | no error exactly when the proof was issued for this very intent, as Python compares them |
| BundleVerify.ReceiptErrors | actenon/local_runtime.py:3381-3393 | no error exactly when receipt, intent and proof belong together, as Python compares them |
| BundleVerify.RefusalErrors | actenon/local_runtime.py:3396-3410 | no error exactly when refusal, intent, proof id and supporting receipt belong together |
| BundleSafety.VerificationContained | actenon/local_runtime.py:3105-3347 | for every manifest, nothing outside the bundle root can change a verdict, an error or a count |
| BundleSafety.TamperEvidence | actenon/local_runtime.py:3153-3171 | two trees that verify under one manifest agree on every declared file |
| BundleSafety.ArtifactTamperEvidence | actenon/local_runtime.py:3318-3347 | one description is met by one artifact in whatever tree |
| BundleSafety.ReceiptChainIff | actenon/local_runtime.py:3217-3288 | when a receipt chain is accepted |
| BundleSafety.RefusalChainIff | actenon/local_runtime.py:3250-3288 | when a refusal chain is accepted |
| BundleSafety.ChainAcceptedIff | actenon/local_runtime.py:3217-3288 | whatever is declared as a chain, it is accepted exactly as a receipt chain or a refusal chain that holds |
| BundleSafety.DecisionAcceptedIff | actenon/local_runtime.py:3291-3315 | a decision record is accepted exactly when intent and receipt are the declared ones and the receipt names the intent |
| BundleSafety.ArtifactRaisesIff | actenon/local_runtime.py:3318-3347 | when the check of an artifact raises |
| BundleSafety.FileRaisesIff | actenon/local_runtime.py:3153-3171 | the check of a file raises exactly on a hash entry that is no object |
| BundleSafety.ChainRaisesIff | actenon/local_runtime.py:3217-3288 | the check of a chain raises exactly when that of the first artifact without error does |
| BundleSafety.DecisionRaisesIff | actenon/local_runtime.py:3291-3315 | the check of a decision record raises exactly when that of its first artifact without error does |
| BundleSafety.ReadManifestIff | actenon/local_runtime.py:3126-3137 | a manifest is read exactly with its format, one object and three lists, each of which may be missing |
| BundleSafety.PassingCounts | actenon/local_runtime.py:3152-3195 | each count is the number of checks without error |
| BundleSafety.RefusalTakesAnyProof | actenon/local_runtime.py:3250-3288 | in every environment a refusal naming the proof's id is accepted with that proof, whatever intent it was issued for |
| BundleSafety.UnlinkedChainAccepted | actenon/local_runtime.py:3250-3288 | in every environment an accepted chain whose proof is not that of its intent |
| BundleSafety.AcceptedProofFixesIntent | actenon/local_runtime.py:3365-3378 | the proof of an accepted receipt chain fits one intent in every signed field |
| BundleExport.BundleFileEntries | actenon/local_runtime.py:2905-2935 | every covered, non-ephemeral file exactly once |
| BundleExport.EntriesExact | actenon/local_runtime.py:2846-2854 | the entries are two fixed files and those of six names that exist |
| BundleExport.EphemeralIff | actenon/local_runtime.py:2938-2951 | left out are the write-ahead logs, shared memories and journals of databases, in either case of letters |
| BundleExport.CandidateDirs | actenon/local_runtime.py:3085-3102 | every directory below the three roots that holds an intent exactly once |
| BundleExport.BuildFileHashes | actenon/local_runtime.py:2894-2902 | every listed file with the hash of its bytes |
| BundleExport.BuildChains | actenon/local_runtime.py:2954-3048 | raises exactly when a directory's files give neither a chain nor none; otherwise there is exactly one entry, in the order of the directories, for each that gives a chain: by its refusal, supported by the receipt or else the decision receipt; without one by its execution receipt; without that by a receipt whose outcome is executed |
| BundleExport.BuildDecisions | actenon/local_runtime.py:3051-3082 | raises exactly when a directory's files give neither a decision record nor none; otherwise exactly one entry, in order, for each directory with an intent and a decision receipt and no proof |
| BundleExport.ChainGivenIff | actenon/local_runtime.py:2963-3012 | which chain a directory gives, from its files alone |
| BundleExport.NoChainIff | actenon/local_runtime.py:2963-3015 | which directories give no chain, from their files alone |
| BundleExport.DecisionGivenIff | actenon/local_runtime.py:3058-3061 | which decision record a directory gives, from its files alone |
| BundleRoundTrip.BuildManifest | actenon/local_runtime.py:2857-2891 | raises exactly when a candidate directory fails; otherwise the manifest describes the runtime, with each file once and exactly the chains and records that the files give |
| BundleRoundTrip.ChainEntrySays | actenon/local_runtime.py:3017-3040 | what the entry of a chain says: id, directory, and path, identifier, digest and outcome of each artifact |
| BundleRoundTrip.CandidateCovered | actenon/local_runtime.py:2846-2854 | every artifact in a chain or decision directory is among the files the export copies |
| BundleRoundTrip.ChainRoundTrip | actenon/local_runtime.py:3217-3347 | a built chain finds its own artifacts in a copy and yields exactly their link errors |
| BundleRoundTrip.DecisionRoundTrip | actenon/local_runtime.py:3291-3315 | a built decision record finds its own artifacts in a copy and yields exactly their link error |
| BundleRoundTrip.FileRoundTrip | actenon/local_runtime.py:3153-3171 | a hashed file verifies in an unchanged copy |
| BundleRoundTrip.RoundTrip | actenon/local_runtime.py:3123-3315 | a manifest verified against a bundle that carries the covered files raises nothing, verifies every file, and is accepted exactly when something is declared and all links hold |
| BundleRoundTrip.RoundTripReport | actenon/local_runtime.py:3123-3214 | the whole report of that verification: `ok` and all six counts |
| BundleRoundTrip.ExportVerifies | actenon/local_runtime.py:2771-2825 | an exported directory, with its manifest file, verifies where it was written |
| Merkle.WalkIsLeafSides | actenon/verifier/transparency.py:512-523 | the two index registers take exactly the left and right turns of the recursive tree |
| Merkle.WalkIsPrefixSides | actenon/verifier/transparency.py:619-654 | the consistency registers take exactly the turns of the subtree the proof starts from |
| Merkle.RootInjective | actenon/verifier/transparency.py:201-206 | equal roots of trees of one size mean equal leaves |
| MerkleExample.SevenLeaves | actenon/verifier/transparency.py:201-206 | root, audit paths and consistency proofs of the seven leaves of section 2.1.5 of RFC 9162 are those given there |
| MerkleProofs.InclusionExact | actenon/verifier/transparency.py:511-528 | against a tree's root, a path is accepted exactly when the leaf is there and the path is its audit path |
| MerkleConsistency.ConsistencyExact | actenon/verifier/transparency.py:619-659 | against the roots of two trees, a path is accepted exactly when the old leaves are a prefix of the new and the path is the proof of RFC 9162 |
| Transparency.VerifyInclusion | actenon/verifier/transparency.py:440-534 | success and each error code exactly characterised |
| Transparency.VerifyConsistency | actenon/verifier/transparency.py:537-664 | success and each error code exactly characterised |
| Transparency.ClimbAuditPath | actenon/verifier/transparency.py:511-523 | the loop computes registers and node of the recursive definitions |
| Transparency.FollowPath | actenon/verifier/transparency.py:619-659 | the loop accepts exactly the paths the recursive definition accepts |
| Transparency.VerifiedInclusionIsMembership | actenon/verifier/transparency.py:440-534 | a verified inclusion is membership, and each member has exactly one proof |
| Transparency.VerifiedConsistencyIsAppend | actenon/verifier/transparency.py:537-664 | a verified consistency step is an append |
| Transparency.MonitorRunIsAppendOnly | actenon/verifier/transparency.py:741-760 | a monitor that verified every step has seen one append-only log |
| Transparency.NoSplitView | actenon/verifier/transparency.py:741-760 | two heads consistent with one later head show no split view |
| InclusionUniqueness.DigestUniqueIff | actenon/verifier/transparency.py:511-528 | for an arbitrary root, exactly when two accepted paths at one index must be for the same digest |
| InclusionUniqueness.OtherIndexAmbiguous | actenon/verifier/transparency.py:511-528 | below the last index two paths of different length can be accepted for different digests under one root |
| CanonicalJson.CanonicalPrefixFree | actenon/proof/canonical.py:56-94 | no canonical text is a proper prefix of another in any context that can follow it |
| CanonicalJson.CanonicalInjective | actenon/proof/canonical.py:68-101 | equal canonical texts mean equal values |
| CanonicalJson.CanonicalDigestCollisionFree | actenon/proof/canonical.py:104-119 | a digest of canonical texts collides on values only if the hash collides on texts |
| CanonicalSize.AddField | actenon/proof/canonical.py:86-115 | what a field adds to the byte length of an object's canonical form |
| JsonIntake.RejectDuplicateObjectPairs | actenon/core/json.py:30-36 | stores the pairs one by one; accepts exactly distinct keys, loses no pair, and names the first key that repeats |
| JsonIntake.HookedUnchanged | actenon/core/json.py:53-71 | rebuilding every object through the hook, innermost first, returns the tree that went in |
| JsonIntake.HookedIff | actenon/core/json.py:53-71 | it succeeds exactly when every object at every level has distinct keys |
| JsonIntake.ApplyHook | actenon/core/json.py:30-36 | the decoder's calls of the hook compute that |
| JsonIntake.ValidateJsonDepth | actenon/core/json.py:39-50 | the stack terminates and refuses exactly when the recursive depth exceeds the limit |
| JsonIntake.LoadsNoDuplicateKeys | actenon/core/json.py:53-71 | exactly when it accepts, and exactly when it gives each of its five errors |
| Codecs.Utf8RoundTrip | actenon/boundary/__init__.py:137-139 | decoding an encoding returns the text |
| Codecs.Utf8Canonical | actenon/boundary/__init__.py:137-139 | what decodes strictly is the encoding of its result |
| Codecs.UnpaddedRoundTrip | actenon/adapters/fastapi.py:36-48 | stripping and restoring the padding of base64url returns the bytes |
| Codecs.DecodesIff | actenon/boundary/__init__.py:137-139 | exactly whole groups over the alphabet, with at most two padding characters at the end, are decoded |
| Codecs.LettersIff | actenon/boundary/__init__.py:137-139 | the letters are those of table 2 of RFC 4648, and the decoder takes both pairs of last letters |
| Codecs.SextetsValue | actenon/boundary/__init__.py:137-139 | four letters hold three bytes, most significant bits first |
| Codecs.Utf8Vectors | actenon/boundary/__init__.py:137-139 | the forms of one character of each length |
| ProofToken.ProofTokenForms | actenon/boundary/__init__.py:130-148 | raw JSON, base64url and prefixed base64url of an object text decode alike exactly when the whole text is within the loader's byte limit or the object is refused anyway |
| ProofToken.OuterSpaceIgnored | actenon/boundary/__init__.py:130-148 | space around a token, in whatever form it comes, makes no difference |
| ProofToken.OuterSpaceSeparatesForms | actenon/core/json.py:59-62 | an accepted object with enough space behind it decodes raw and is refused encoded |
| ProofToken.FormsAreDisjoint | actenon/boundary/__init__.py:133-144 | no token is read as two forms |
| ProofToken.HeaderRoundTrip | actenon/adapters/fastapi.py:36-53 | a mapping header decodes to the mapping encoded |
| InvoicePayment.NormalFormIff | actenon/api/invoice_payment.py:10-14 | equal normal forms exactly for equal sets of non-empty ids |
| InvoicePayment.NormalFormFixed | actenon/api/invoice_payment.py:10-14 | normalizing is idempotent, and raises exactly when no id is non-empty |
| InvoicePayment.CollectedExact | actenon/api/invoice_payment.py:10-14 | a normal form ascends and holds exactly the non-empty ids given |
| InvoicePayment.BatchHashIff | actenon/api/invoice_payment.py:23-44 | two batches hash alike exactly when they are the same payment up to order and repetition of ids |
| InvoicePayment.BuildRaisesIff | actenon/api/invoice_payment.py:17-90 | building raises exactly when no id is non-empty, a date text is no calendar date, a hash is due for a date object that does not print as one, or what is hashed is beyond the limits |
| InvoicePayment.DatetimeCannotBuild | actenon/api/invoice_payment.py:17-20 | a datetime can be hashed, but gives no payload without a supplied hash and none that can be recomputed |
| InvoicePayment.RecomputeIff | actenon/api/invoice_payment.py:47-143 | recomputing from the payload returns the stored hash exactly when none was supplied, or the one supplied is the hash of the payment as given and its date prints as a calendar date |
| FindingDedupe.DedupeExact | actenon/scanner.py:2855-2866 | one finding for each key, the first of the highest of its key, in descending order |
| FindingDedupe.DedupeIdempotent | actenon/scanner.py:2855-2866 | deduplicating twice is deduplicating once |
| FindingDedupe.SortDownStable | actenon/scanner.py:2862-2866 | findings of equal rank keep their order |
| FindingDedupe.BelowTotal | actenon/scanner.py:816-824 | the sort key orders findings totally |
| FindingDedupe.LowerIff | actenon/scanner.py:816-824 | a finding is lower by the first difference in runtime surface, priority, severity, high confidence, path and line |
| FindingDedupe.SameKeyIff | actenon/scanner.py:2858 | findings are of one key when path, primitive and surface agree, a category standing in for a missing or empty surface id |
| FindingDedupe.DedupeFindings | actenon/scanner.py:2855-2866 | the dictionary loop computes the specified list |
| IdempotencyStore.Store.Lookup | actenon/idempotency.py:133-136 | answers the first record of the operation |
| IdempotencyStore.Store.Record | actenon/idempotency.py:138-162 | conflicts exactly when the first recorded hash differs, and then changes nothing |
| IdempotencyStore.FirstWins | actenon/idempotency.py:118-162 | later records never change an answer |

## Left out

- Signatures, keys, checkpoint signatures and revocation: `PCCBVerifier.verify` is a parameter; only its recomputation of the action hash is used, as the hypothesis `BindsActionHash`.
- Wire parsing of intents, proofs, receipts, refusals and checkpoints: parsers are parameters, and fields no theorem needs are carried in one `rest` value.
- The JSON grammar: a parse tree is the input of the loader; of a parser apart from its byte limit one fact is used, that it ignores outer whitespace.
- Lone surrogates in the strings of requests, proofs and signed fields, and the interpreter's recursion limit; where a digest can be taken of a value is a predicate `fits`, and the depth of an anchor entry is not modelled.
- Python's lenient `urlsafe_b64decode` in the header decoder: characters outside the alphabet are refused here, dropped there; encoded headers contain none.
- Timestamps are whole microseconds; writing them up to the second is a parameter, and years outside four digits are absent.
- The store's mutation counter and its rollback detection; a fault of the store may strike before or after a commit.
- `verify_boundary`'s reason texts, receipt ids and log lines, and `security_downgrades`.
- Error texts of bundle verification: errors are short codes, and their order within a list is kept only where it matters to counts.
- Boundary.BoundaryVerifier.VerifyBoundary: runs one call against a store that does not fail; faults and interleavings are in the machine.
- Admission.ValidatedExecutionPccb: does not model floats or tuples in a sealed proof, because proofs hold JSON here; True for 1 is modelled.
- BundleExport.BuildChains: assumes the digest of a parsed outcome and of its dictionary form agree, and writes of a proof's action hash only the value, which is all that verification reads.
- File systems: files are a map from paths to bytes, paths are resolved lexically without symbolic links, sorted listings are given; zip archives and SQLite checkpointing are absent.
- Appends to the anchor log by several processes, and a last line without a newline.
- Aliasing of dictionaries handed out by the in-memory logs and stores.
- The value of the idempotency key, the validity window and the optional fields of an invoice payload.
- The scanner's detection rules, grading and file collection: `runtime`, `priority` and `severity` of a finding are inputs.
- `ProtectedExecutor`, the endpoint middleware, `ActenonGate`, the SQLite escrow, CLI, servers, viewers, demos and refusal catalogue.
