/** Admission of action intents (actenon/core/kernel.py) over the capability escrow. */
module Admission {
  import opened Wrappers
  import opened CanonicalJson
  import opened PythonValues
  import BC = BoundaryChecks
  import E = Escrow

  datatype Intent = Intent(
    intentId: string, requester: Json, tenant: Json, action: BC.Action, target: BC.Target, expiresAt: int, rest: Json)

  datatype Context = Context(audience: BC.Audience, scope: Json, now: int)

  datatype Pccb = Pccb(
    pccbId: string, intentId: string, issuedAt: int, notBefore: int, expiresAt: int, subject: Json, tenant: Json,
    audience: BC.Audience, action: BC.Action, target: BC.Target, scope: Json, nonce: string,
    actionHash: string, escrowId: string, signature: Json)

  datatype Decision = Decision(outcome: string, reasonCodes: seq<string>)

  datatype Receipt = Receipt(
    intentId: string, outcome: string, pccbId: Option<string>, escrowId: Option<string>, actionHash: Option<string>)

  datatype Refusal = Refusal(
    code: string, intentId: Option<string>, pccbId: Option<string>, escrowId: Option<string>,
    actionHash: Option<string>)

  datatype Written = WroteReceipt(receipt: Receipt) | WroteRefusal(refusal: Refusal)

  datatype Admitted = Admitted(
    intent: Option<Intent>, decision: Option<Decision>, receipt: Option<Receipt>, refusal: Option<Refusal>,
    pccb: Option<Pccb>, escrowId: Option<string>)

  /** `hash` is None where the proof of an intent cannot be written: floats, or a canonical
      form beyond the limits. */
  datatype Kernel = Kernel(sealing: bool, requireSeal: bool, hash: Intent -> Option<string>)

  /** One call, with the answers of the services it consults: the parsed payload or a
      refusal code, the policy decision, the fresh ids, the signature and the seal. */
  datatype Submission = Submission(
    parsed: Result<Intent, string>, decision: Decision, context: Context, escrowId: string, pccbId: string,
    nonce: string, signature: Json, seal: Result<Pccb, string>)

  type Reply = Result<Admitted, string>

  // -------------------------------------------------------------- minting

  function HashOf(k: Kernel, i: Intent): string { if k.hash(i).Some? then k.hash(i).value else "" }

  function Mint(k: Kernel, s: Submission, i: Intent): Pccb {
    Pccb(s.pccbId, i.intentId, s.context.now, s.context.now, i.expiresAt, i.requester, i.tenant,
         s.context.audience, i.action, i.target, s.context.scope, s.nonce, HashOf(k, i), s.escrowId, s.signature)
  }

  /** The twelve fields a seal must not change, compared as Python compares them. */
  predicate SameBindings(local: Pccb, sealed: Pccb) {
    && sealed.intentId == local.intentId && sealed.issuedAt == local.issuedAt && sealed.notBefore == local.notBefore
    && sealed.expiresAt == local.expiresAt && JsonEqual(sealed.subject, local.subject)
    && JsonEqual(sealed.tenant, local.tenant) && sealed.audience == local.audience
    && BC.SameAction(sealed.action, local.action) && BC.SameTarget(sealed.target, local.target)
    && JsonEqual(sealed.scope, local.scope) && sealed.escrowId == local.escrowId
    && sealed.actionHash == local.actionHash
  }

  datatype Binding =
    | Text(text: string)
    | Time(time: int)
    | Data(data: Json)
    | Audience(audience: BC.Audience)
    | Action(action: BC.Action)
    | Target(target: BC.Target)

  predicate Agrees(x: Binding, y: Binding) {
    match (x, y)
    case (Data(a), Data(b)) => JsonEqual(a, b)
    case (Action(a), Action(b)) => BC.SameAction(a, b)
    case (Target(a), Target(b)) => BC.SameTarget(a, b)
    case _ => x == y
  }

  /** The fields in the order they are compared. */
  function Bindings(p: Pccb): (r: seq<(string, Binding)>)
    ensures |r| == 12
  {
    [("intent_id", Text(p.intentId)), ("issued_at", Time(p.issuedAt)), ("not_before", Time(p.notBefore)),
     ("expires_at", Time(p.expiresAt)), ("subject", Data(p.subject)), ("tenant", Data(p.tenant)),
     ("audience", Audience(p.audience)), ("action", Action(p.action)), ("target", Target(p.target)),
     ("scope", Data(p.scope)), ("escrow_id", Text(p.escrowId)), ("action_hash", Text(p.actionHash))]
  }

  predicate AgreesAt(local: Pccb, sealed: Pccb, i: nat)
    requires i < 12
  {
    Agrees(Bindings(sealed)[i].1, Bindings(local)[i].1)
  }

  lemma AgreeFirst(local: Pccb, sealed: Pccb)
    ensures AgreesAt(local, sealed, 0) <==> sealed.intentId == local.intentId
    ensures AgreesAt(local, sealed, 1) <==> sealed.issuedAt == local.issuedAt
    ensures AgreesAt(local, sealed, 2) <==> sealed.notBefore == local.notBefore
    ensures AgreesAt(local, sealed, 3) <==> sealed.expiresAt == local.expiresAt
    ensures AgreesAt(local, sealed, 4) <==> JsonEqual(sealed.subject, local.subject)
    ensures AgreesAt(local, sealed, 5) <==> JsonEqual(sealed.tenant, local.tenant)
  {
    hide JsonEqual, BC.SameAction, BC.SameTarget;
  }

  lemma AgreeLast(local: Pccb, sealed: Pccb)
    ensures AgreesAt(local, sealed, 6) <==> sealed.audience == local.audience
    ensures AgreesAt(local, sealed, 7) <==> BC.SameAction(sealed.action, local.action)
    ensures AgreesAt(local, sealed, 8) <==> BC.SameTarget(sealed.target, local.target)
    ensures AgreesAt(local, sealed, 9) <==> JsonEqual(sealed.scope, local.scope)
    ensures AgreesAt(local, sealed, 10) <==> sealed.escrowId == local.escrowId
    ensures AgreesAt(local, sealed, 11) <==> sealed.actionHash == local.actionHash
  {
    hide JsonEqual, BC.SameAction, BC.SameTarget;
  }

  lemma BindingsAgreeIff(local: Pccb, sealed: Pccb)
    ensures SameBindings(local, sealed) <==> forall i :: 0 <= i < 12 ==> AgreesAt(local, sealed, i)
  {
    hide AgreesAt, JsonEqual, BC.SameAction, BC.SameTarget;
    AgreeFirst(local, sealed);
    AgreeLast(local, sealed);
    forall i | 0 <= i < 12 ensures SameBindings(local, sealed) ==> AgreesAt(local, sealed, i) {
      assert i in {0, 1, 2, 3, 4, 5, 6, 7, 8, 9, 10, 11};
    }
  }

  /** Accepts a seal exactly when it changed none of the twelve fields, and otherwise
      names the first it changed. */
  method ValidatedExecutionPccb(local: Pccb, sealed: Pccb) returns (r: Result<Pccb, string>)
    ensures r.Success? <==> SameBindings(local, sealed)
    ensures r.Success? ==> r.value == sealed
    ensures r.Failure? ==>
              exists i :: 0 <= i < 12 && !AgreesAt(local, sealed, i) && r.error == Bindings(local)[i].0
                          && forall j :: 0 <= j < i ==> AgreesAt(local, sealed, j)
  {
    hide Bindings, SameBindings, Agrees;
    BindingsAgreeIff(local, sealed);
    var expected, actual := Bindings(local), Bindings(sealed);
    for i := 0 to 12
      invariant forall j :: 0 <= j < i ==> AgreesAt(local, sealed, j)
    {
      if !Agrees(actual[i].1, expected[i].1) {
        assert !AgreesAt(local, sealed, i);
        return Failure(expected[i].0);
      }
    }
    return Success(sealed);
  }

  /** Equality of numbers lets a seal write True for 1: it is accepted, and the proof that
      is executed is not the minted one. */
  lemma SealMayRewriteNumbers(local: Pccb)
    requires local.action.parameters == map["amount" := Int(1)]
    ensures var sealed := local.(action := local.action.(parameters := map["amount" := Bool(true)]));
            SameBindings(local, sealed) && sealed.action != local.action
  {
    hide JsonEqual;
    var one, yes := map["amount" := Int(1)], map["amount" := Bool(true)];
    OneIsTrue();
    forall j { EqualsItself(j); }
    assert one["amount"] != yes["amount"];
  }

  lemma EqualsItself(j: Json)
    ensures JsonEqual(j, j)
  {
  }

  lemma OneIsTrue()
    ensures JsonEqual(Obj(map["amount" := Bool(true)]), Obj(map["amount" := Int(1)]))
  {
    var a, b := Loaded(Obj(map["amount" := Bool(true)])), Loaded(Obj(map["amount" := Int(1)]));
    assert Numbers(a).fields == Numbers(b).fields;
  }

  // ------------------------------------------------------------ submission

  /** The proof that will be executed: the local one or an accepted seal; None when a
      required seal cannot be had. */
  function Resolved(k: Kernel, s: Submission, i: Intent): (r: Option<Pccb>)
    ensures r.Some? ==> SameBindings(Mint(k, s, i), r.value)
  {
    var local := Mint(k, s, i);
    if !k.sealing then Some(local)
    else if s.seal.Success? && SameBindings(local, s.seal.value) then Some(s.seal.value)
    else if k.requireSeal then None
    else Some(local)
  }

  /** The proof this call asks the escrow to hold, if it gets that far. */
  function Offered(k: Kernel, s: Submission): (r: Option<Pccb>)
    ensures r.Some? ==>
              s.parsed.Success? && s.decision.outcome == "allow" && SameBindings(Mint(k, s, s.parsed.value), r.value)
  {
    if s.parsed.Failure? || s.decision.outcome != "allow" || k.hash(s.parsed.value).None? then None
    else Resolved(k, s, s.parsed.value)
  }

  function EscrowOp(k: Kernel, s: Submission): (op: E.Op) {
    var p := Offered(k, s);
    if p.None? then E.Skip
    else E.Issue(s.escrowId, p.value.pccbId, s.parsed.value.action.capability, p.value.expiresAt,
                 map["intent_id" := s.parsed.value.intentId])
  }

  /** What has been written out for a reply. */
  function Outcomes(r: Reply): (w: seq<Written>) {
    if r.Failure? then []
    else (if r.value.receipt.Some? then [WroteReceipt(r.value.receipt.value)] else [])
         + (if r.value.refusal.Some? then [WroteRefusal(r.value.refusal.value)] else [])
  }

  function SealError(k: Kernel, s: Submission): string {
    if s.seal.Success? then "PROOF_SEAL_INVALID" else s.seal.error
  }

  /** The reply to a submission, given the escrow's records.  A failure is an exception:
      minting needs an allow decision and a canonical form, and an escrow id must be new. */
  function ReplyTo(k: Kernel, t: E.Table, s: Submission): (r: Reply) {
    if s.parsed.Failure? then
      Success(Admitted(None, None, None, Some(Refusal(s.parsed.error, None, None, None, None)), None, None))
    else
      var i, d := s.parsed.value, s.decision;
      var receipt := Receipt(i.intentId, d.outcome, None, None, None);
      if d.outcome == "deny" then
        var code := if d.reasonCodes != [] then d.reasonCodes[0] else "POLICY_DENIED";
        var refusal := Refusal(code, Some(i.intentId), None, None, None);
        Success(Admitted(Some(i), Some(d), Some(receipt), Some(refusal), None, None))
      else if d.outcome in {"approval-required", "needs-evidence"} then
        Success(Admitted(Some(i), Some(d), Some(receipt), None, None, None))
      else if d.outcome != "allow" then Failure("PCCB minting requires an allow decision")
      else if k.hash(i).None? then Failure("no canonical form")
      else
        var p, local := Resolved(k, s, i), Mint(k, s, i);
        if p.None? then
          var refusal := Refusal(SealError(k, s), Some(i.intentId), Some(local.pccbId), Some(s.escrowId),
                                 Some(local.actionHash));
          Success(Admitted(Some(i), Some(d), None, Some(refusal), None, None))
        else if s.escrowId in t then Failure("ESCROW_ALREADY_EXISTS")
        else
          var allow := Receipt(i.intentId, d.outcome, Some(p.value.pccbId), Some(s.escrowId), Some(p.value.actionHash));
          Success(Admitted(Some(i), Some(d), Some(allow), None, p, Some(s.escrowId)))
  }

  class ProtectedExecutionKernel {
    const k: Kernel
    const escrow: E.InMemoryCapabilityEscrow
    var written: seq<Written>
    var intents: seq<Intent>
    var pccbs: seq<Pccb>

    constructor (k: Kernel, escrow: E.InMemoryCapabilityEscrow)
      ensures this.k == k && this.escrow == escrow && written == [] && intents == [] && pccbs == []
    {
      this.k := k;
      this.escrow := escrow;
      written, intents, pccbs := [], [], [];
    }

    method ResolveExecutionPccb(s: Submission, i: Intent) returns (r: Result<Pccb, string>)
      ensures r.Success? ==> SameBindings(Mint(k, s, i), r.value)
      ensures !k.sealing ==> r == Success(Mint(k, s, i))
      ensures k.sealing && s.seal.Success? && SameBindings(Mint(k, s, i), s.seal.value) ==> r == Success(s.seal.value)
      ensures k.sealing && !(s.seal.Success? && SameBindings(Mint(k, s, i), s.seal.value)) ==>
                r == Failure(SealError(k, s))
    {
      hide SameBindings, Bindings;
      var local := Mint(k, s, i);
      if !k.sealing {
        MintKeepsItself(local);
        return Success(local);
      }
      if s.seal.Failure? {
        return Failure(s.seal.error);
      }
      var checked := ValidatedExecutionPccb(local, s.seal.value);
      return if checked.Success? then checked else Failure("PROOF_SEAL_INVALID");
    }

    /** What is written is exactly what is returned; the escrow gets the operation the
        submission calls for; parsed intents and issued proofs are stored. */
    method SubmitIntent(s: Submission) returns (r: Reply)
      modifies this, escrow
      ensures r == ReplyTo(k, old(escrow.records), s)
      ensures escrow.records == E.Step(old(escrow.records), EscrowOp(k, s))
      ensures written == old(written) + Outcomes(r)
      ensures intents == old(intents) + (if s.parsed.Success? then [s.parsed.value] else [])
      ensures pccbs == old(pccbs) + (if r.Success? && r.value.pccb.Some? then [r.value.pccb.value] else [])
    {
      hide SameBindings;
      if s.parsed.Failure? {
        var refusal := Refusal(s.parsed.error, None, None, None, None);
        written := written + [WroteRefusal(refusal)];
        return Success(Admitted(None, None, None, Some(refusal), None, None));
      }
      var i, d := s.parsed.value, s.decision;
      intents := intents + [i];
      if d.outcome == "deny" {
        var receipt := Receipt(i.intentId, d.outcome, None, None, None);
        written := written + [WroteReceipt(receipt)];
        var code := if d.reasonCodes != [] then d.reasonCodes[0] else "POLICY_DENIED";
        var refusal := Refusal(code, Some(i.intentId), None, None, None);
        written := written + [WroteRefusal(refusal)];
        return Success(Admitted(Some(i), Some(d), Some(receipt), Some(refusal), None, None));
      }
      if d.outcome in {"approval-required", "needs-evidence"} {
        var receipt := Receipt(i.intentId, d.outcome, None, None, None);
        written := written + [WroteReceipt(receipt)];
        return Success(Admitted(Some(i), Some(d), Some(receipt), None, None, None));
      }
      if d.outcome != "allow" {
        return Failure("PCCB minting requires an allow decision");
      }
      if k.hash(i).None? {
        return Failure("no canonical form");
      }
      var local := Mint(k, s, i);
      var sealed := ResolveExecutionPccb(s, i);
      var p := local;
      if sealed.Success? {
        p := sealed.value;
      } else if k.requireSeal {
        var refusal := Refusal(sealed.error, Some(i.intentId), Some(local.pccbId), Some(s.escrowId),
                               Some(local.actionHash));
        written := written + [WroteRefusal(refusal)];
        return Success(Admitted(Some(i), Some(d), None, Some(refusal), None, None));
      }
      var issued := escrow.Issue(s.escrowId, p.pccbId, i.action.capability, p.expiresAt,
                                 map["intent_id" := i.intentId]);
      if issued.Failure? {
        return Failure(issued.error);
      }
      var allow := Receipt(i.intentId, d.outcome, Some(p.pccbId), Some(s.escrowId), Some(p.actionHash));
      pccbs := pccbs + [p];
      written := written + [WroteReceipt(allow)];
      return Success(Admitted(Some(i), Some(d), Some(allow), None, Some(p), Some(s.escrowId)));
    }
  }

  lemma MintKeepsItself(local: Pccb)
    ensures SameBindings(local, local)
  {
  }

  // ----------------------------------------------------------------- runs

  datatype Event =
    | Submit(submission: Submission)
    | Consume(id: string, pccbId: string, capability: string, now: int)
    | Revoke(id: string, reason: string)

  function OpOf(k: Kernel, e: Event): E.Op {
    match e
    case Submit(s) => EscrowOp(k, s)
    case Consume(id, pccbId, capability, now) => E.Consume(id, pccbId, capability, now)
    case Revoke(id, reason) => E.Revoke(id, reason)
  }

  function OpsOf(k: Kernel, run: seq<Event>): (ops: seq<E.Op>)
    ensures |ops| == |run| && forall i :: 0 <= i < |run| ==> ops[i] == OpOf(k, run[i])
  {
    seq(|run|, i requires 0 <= i < |run| => OpOf(k, run[i]))
  }

  /** The escrow's records before event `n` of a run. */
  function TableAt(k: Kernel, run: seq<Event>, n: nat): E.Table
    requires n <= |run|
  {
    E.After(OpsOf(k, run)[..n])
  }

  /** Event `i` is a submission that was admitted with proof `p`. */
  predicate AdmittedAt(k: Kernel, run: seq<Event>, i: nat, p: Pccb)
    requires i < |run|
  {
    && run[i].Submit?
    && var r := ReplyTo(k, TableAt(k, run, i), run[i].submission);
       r.Success? && r.value.pccb == Some(p)
  }

  predicate ConsumedAt(k: Kernel, run: seq<Event>, j: nat)
    requires j < |run|
  {
    run[j].Consume? && E.Succeeds(OpsOf(k, run), j)
  }

  lemma AdmittedIff(k: Kernel, run: seq<Event>, i: nat)
    requires i < |run|
    ensures OpsOf(k, run)[i].Issue? && E.Succeeds(OpsOf(k, run), i) <==>
            run[i].Submit? && exists p :: AdmittedAt(k, run, i, p)
    ensures forall p :: AdmittedAt(k, run, i, p) ==> Offered(k, run[i].submission) == Some(p)
  {
    hide SameBindings, Mint;
    if run[i].Submit? && OpsOf(k, run)[i].Issue? && E.Succeeds(OpsOf(k, run), i) {
      assert AdmittedAt(k, run, i, Offered(k, run[i].submission).value);
    }
  }

  /** An admitted proof is the minted one in all twelve bindings, however it was sealed,
      for the submitted intent and the escrow id returned with it. */
  lemma AdmittedIsBound(k: Kernel, run: seq<Event>, i: nat, p: Pccb)
    requires i < |run| && AdmittedAt(k, run, i, p)
    ensures var s := run[i].submission;
            && s.parsed.Success? && s.decision.outcome == "allow" && SameBindings(Mint(k, s, s.parsed.value), p)
            && p.intentId == s.parsed.value.intentId && BC.SameAction(p.action, s.parsed.value.action)
            && p.expiresAt == s.parsed.value.expiresAt && k.hash(s.parsed.value) == Some(p.actionHash)
            && ReplyTo(k, TableAt(k, run, i), s).value.escrowId == Some(p.escrowId)
  {
  }

  /** Every successful consume uses an escrow that an earlier allowed submission issued
      for that proof id and capability, before its expiry. */
  lemma ConsumeHasAdmission(k: Kernel, run: seq<Event>, j: nat) returns (i: nat, p: Pccb)
    requires j < |run| && ConsumedAt(k, run, j)
    ensures i < j && AdmittedAt(k, run, i, p)
    ensures p.escrowId == run[j].id && p.pccbId == run[j].pccbId
    ensures p.action.capability == run[j].capability && run[j].now <= p.expiresAt
    ensures run[i].submission.decision.outcome == "allow"
  {
    hide SameBindings, Mint;
    var ops := OpsOf(k, run);
    assert ops[j].Consume?;
    i := E.IssuedBefore(ops[..j], run[j].id);
    assert ops[..j][..i] == ops[..i];
    AdmittedIff(k, run, i);
    p :| AdmittedAt(k, run, i, p);
    AdmittedIsBound(k, run, i, p);
    OfferedBound(k, run[i].submission, p);
  }

  lemma OfferedBound(k: Kernel, s: Submission, p: Pccb)
    requires Offered(k, s) == Some(p)
    ensures p.escrowId == s.escrowId && p.action.capability == s.parsed.value.action.capability
  {
  }

  /** No escrow is consumed twice. */
  lemma ConsumedAtMostOnce(k: Kernel, run: seq<Event>, i: nat, j: nat)
    requires i < |run| && j < |run| && ConsumedAt(k, run, i) && ConsumedAt(k, run, j) && run[i].id == run[j].id
    ensures i == j
  {
    var ops := OpsOf(k, run);
    assert ops[i].Consume? && ops[j].Consume?;
    if i < j {
      E.ConsumedOnce(ops, i, j);
    } else if j < i {
      E.ConsumedOnce(ops, j, i);
    }
  }

  /** Admitted proofs have distinct escrow ids. */
  lemma AdmittedDistinct(k: Kernel, run: seq<Event>, i: nat, j: nat, p: Pccb, q: Pccb)
    requires i < |run| && j < |run| && AdmittedAt(k, run, i, p) && AdmittedAt(k, run, j, q) && p.escrowId == q.escrowId
    ensures i == j && p == q
  {
    hide SameBindings, Mint;
    AdmittedIff(k, run, i);
    AdmittedIff(k, run, j);
    OfferedBound(k, run[i].submission, p);
    OfferedBound(k, run[j].submission, q);
    var ops := OpsOf(k, run);
    if i < j {
      E.IssuedOnce(ops, i, j);
    } else if j < i {
      E.IssuedOnce(ops, j, i);
    }
  }

  /** An escrow id is on record exactly when a proof was admitted under it, and the record
      carries that proof's id, capability and expiry; with AdmittedDistinct the two are
      in one-to-one correspondence. */
  lemma RecordsAreAdmissions(k: Kernel, run: seq<Event>, id: string)
    ensures id in TableAt(k, run, |run|) <==>
            exists i, p :: 0 <= i < |run| && AdmittedAt(k, run, i, p) && p.escrowId == id
    ensures forall i, p :: 0 <= i < |run| && AdmittedAt(k, run, i, p) && p.escrowId == id ==>
                             && id in TableAt(k, run, |run|)
                             && var record := TableAt(k, run, |run|)[id];
                                && record.pccbId == p.pccbId && record.capability == p.action.capability
                                && record.expiresAt == p.expiresAt
  {
    hide SameBindings, Mint;
    var ops := OpsOf(k, run);
    assert ops[..|run|] == ops;
    if id in TableAt(k, run, |run|) {
      var i := E.IssuedBefore(ops, id);
      AdmittedIff(k, run, i);
      var p :| AdmittedAt(k, run, i, p);
      OfferedBound(k, run[i].submission, p);
    }
    forall i, p | 0 <= i < |run| && AdmittedAt(k, run, i, p) && p.escrowId == id
      ensures id in TableAt(k, run, |run|)
      ensures var record := TableAt(k, run, |run|)[id];
              record.pccbId == p.pccbId && record.capability == p.action.capability && record.expiresAt == p.expiresAt
    {
      RecordOf(k, run, i, p);
    }
  }

  lemma RecordOf(k: Kernel, run: seq<Event>, i: nat, p: Pccb)
    requires i < |run| && AdmittedAt(k, run, i, p)
    ensures p.escrowId in TableAt(k, run, |run|)
    ensures var record := TableAt(k, run, |run|)[p.escrowId];
            record.pccbId == p.pccbId && record.capability == p.action.capability && record.expiresAt == p.expiresAt
  {
    hide SameBindings, Mint;
    var ops := OpsOf(k, run);
    AdmittedIff(k, run, i);
    OfferedBound(k, run[i].submission, p);
    E.AfterSnoc(ops, i);
    E.RunEvolves(ops, i + 1, |run|);
  }

  // ----------------------------------------------------------- who is admitted

  /** The submission can be given a proof: it was parsed and allowed, has a canonical form,
      and its escrow id has not been used. */
  ghost predicate Admissible(k: Kernel, run: seq<Event>, i: nat)
    requires i < |run| && run[i].Submit?
  {
    var s := run[i].submission;
    && s.parsed.Success? && s.decision.outcome == "allow" && k.hash(s.parsed.value).Some?
    && forall j, p :: 0 <= j < i && AdmittedAt(k, run, j, p) ==> p.escrowId != s.escrowId
  }

  /** The seal was asked for, given, and keeps the twelve fields. */
  ghost predicate SealHolds(k: Kernel, s: Submission)
    requires s.parsed.Success?
  {
    k.sealing && s.seal.Success? && SameBindings(Mint(k, s, s.parsed.value), s.seal.value)
  }

  /** In every run a submission is admitted with proof `p` exactly when it is admissible and
      `p` is its seal, if that holds, or else, unless a seal was asked for and required, the
      proof minted for it. */
  lemma AdmittedExactly(k: Kernel, run: seq<Event>, i: nat, p: Pccb)
    requires i < |run| && run[i].Submit?
    ensures AdmittedAt(k, run, i, p) <==>
            && Admissible(k, run, i)
            && var s := run[i].submission;
               if SealHolds(k, s) then p == s.seal.value
               else p == Mint(k, s, s.parsed.value) && !(k.sealing && k.requireSeal)
  {
    hide SameBindings, Mint, E.After;
    FreshIff(k, run, i);
  }

  /** An escrow id is off the records exactly when no proof was admitted under it before. */
  lemma FreshIff(k: Kernel, run: seq<Event>, i: nat)
    requires i < |run| && run[i].Submit?
    ensures run[i].submission.escrowId !in TableAt(k, run, i) <==>
            forall j, p :: 0 <= j < i && AdmittedAt(k, run, j, p) ==> p.escrowId != run[i].submission.escrowId
  {
    hide SameBindings, Mint, ReplyTo;
    var id := run[i].submission.escrowId;
    forall n | 0 <= n <= i ensures TableAt(k, run[..i], n) == TableAt(k, run, n) { TableOfFront(k, run, i, n); }
    RecordsAreAdmissions(k, run[..i], id);
    forall j, p | 0 <= j < i ensures AdmittedAt(k, run[..i], j, p) <==> AdmittedAt(k, run, j, p) {
      assert run[..i][j] == run[j];
    }
    hide AdmittedAt;
    if id in TableAt(k, run, i) {
      var j, p :| 0 <= j < i && AdmittedAt(k, run[..i], j, p) && p.escrowId == id;
      assert AdmittedAt(k, run, j, p);
    }
    if j, p :| 0 <= j < i && AdmittedAt(k, run, j, p) && p.escrowId == id {
      assert AdmittedAt(k, run[..i], j, p);
    }
  }

  lemma TableOfFront(k: Kernel, run: seq<Event>, i: nat, n: nat)
    requires n <= i <= |run|
    ensures TableAt(k, run[..i], n) == TableAt(k, run, n)
  {
    hide OpOf;
    assert OpsOf(k, run[..i])[..n] == OpsOf(k, run)[..n];
  }

  /** An admitted proof, sealed or not, is of the intent submitted, for the audience and scope of
      its context, from its time to the intent's expiry, under its escrow id and action hash. */
  lemma AdmittedBindsIntent(k: Kernel, run: seq<Event>, i: nat, p: Pccb)
    requires i < |run| && AdmittedAt(k, run, i, p)
    ensures var s, intent := run[i].submission, run[i].submission.parsed.value;
            && p.intentId == intent.intentId && p.issuedAt == s.context.now && p.notBefore == s.context.now
            && p.expiresAt == intent.expiresAt && p.escrowId == s.escrowId && Some(p.actionHash) == k.hash(intent)
            && JsonEqual(p.subject, intent.requester) && JsonEqual(p.tenant, intent.tenant)
            && p.audience == s.context.audience && JsonEqual(p.scope, s.context.scope)
            && BC.SameAction(p.action, intent.action) && BC.SameTarget(p.target, intent.target)
  {
    hide JsonEqual, BC.SameAction, BC.SameTarget;
    AdmittedExactly(k, run, i, p);
    AdmittedIsBound(k, run, i, p);
  }

  /** A required seal that cannot be had admits nothing. */
  lemma RequiredSealAdmits(k: Kernel, run: seq<Event>, i: nat, p: Pccb)
    requires i < |run| && AdmittedAt(k, run, i, p) && k.sealing && k.requireSeal
    ensures var s := run[i].submission;
            s.seal == Success(p) && SameBindings(Mint(k, s, s.parsed.value), p)
  {
    hide SameBindings, Mint, Admissible;
    AdmittedExactly(k, run, i, p);
  }

  /** Without that requirement every admissible submission is admitted. */
  lemma UnrequiredSealAdmits(k: Kernel, run: seq<Event>, i: nat)
    requires i < |run| && run[i].Submit? && Admissible(k, run, i) && !k.requireSeal
    ensures var s := run[i].submission;
            AdmittedAt(k, run, i, if SealHolds(k, s) then s.seal.value else Mint(k, s, s.parsed.value))
  {
    hide SameBindings, Mint, AdmittedAt;
    var s := run[i].submission;
    AdmittedExactly(k, run, i, if SealHolds(k, s) then s.seal.value else Mint(k, s, s.parsed.value));
  }

  // -------------------------------------------------------- what is replied

  /** What is written and returned in each case, and when the call raises instead. */
  lemma ReplyCases(k: Kernel, t: E.Table, s: Submission)
    ensures var r := ReplyTo(k, t, s);
            && (s.parsed.Failure? ==>
                  Outcomes(r) == [WroteRefusal(Refusal(s.parsed.error, None, None, None, None))] && r.value.pccb.None?)
            && (s.parsed.Success? ==>
                  && (s.decision.outcome == "deny" ==> Denied(s, r))
                  && (s.decision.outcome in {"approval-required", "needs-evidence"} ==> Deferred(s, r))
                  && (s.decision.outcome !in {"allow", "deny", "approval-required", "needs-evidence"} ==> r.Failure?)
                  && (s.decision.outcome == "allow" ==> Allowed(k, t, s, r)))
  {
    hide SameBindings, Mint;
  }

  ghost predicate Denied(s: Submission, r: Reply)
    requires s.parsed.Success?
  {
    var id, codes := s.parsed.value.intentId, s.decision.reasonCodes;
    && r.Success? && r.value.pccb.None? && r.value.escrowId.None?
    && var code := if |codes| > 0 then codes[0] else "POLICY_DENIED";
       Outcomes(r) == [WroteReceipt(Receipt(id, "deny", None, None, None)),
                       WroteRefusal(Refusal(code, Some(id), None, None, None))]
  }

  ghost predicate Deferred(s: Submission, r: Reply)
    requires s.parsed.Success?
  {
    && r.Success? && r.value.pccb.None? && r.value.escrowId.None?
    && Outcomes(r) == [WroteReceipt(Receipt(s.parsed.value.intentId, s.decision.outcome, None, None, None))]
  }

  /** An allowed intent raises without a canonical form, is refused without its required seal,
      raises on a used escrow id, and otherwise gets a receipt for its proof. */
  ghost predicate Allowed(k: Kernel, t: E.Table, s: Submission, r: Reply)
    requires s.parsed.Success?
  {
    var i := s.parsed.value;
    var local := Mint(k, s, i);
    if k.hash(i).None? then r.Failure?
    else if k.sealing && k.requireSeal && !SealHolds(k, s) then
      var code := if s.seal.Success? then "PROOF_SEAL_INVALID" else s.seal.error;
      && r.Success? && r.value.pccb.None?
      && Outcomes(r) == [WroteRefusal(Refusal(code, Some(i.intentId), Some(local.pccbId), Some(s.escrowId),
                                              Some(local.actionHash)))]
    else if s.escrowId in t then r == Failure("ESCROW_ALREADY_EXISTS")
    else
      && r.Success? && r.value.pccb.Some? && r.value.escrowId == Some(s.escrowId)
      && var p := r.value.pccb.value;
         Outcomes(r) ==
         [WroteReceipt(Receipt(i.intentId, "allow", Some(p.pccbId), Some(s.escrowId), Some(p.actionHash)))]
  }

  /** Everything written for the replies to a run. */
  function AllOutcomes(replies: seq<Reply>): (w: seq<Written>) {
    if replies == [] then [] else AllOutcomes(replies[..|replies| - 1]) + Outcomes(replies[|replies| - 1])
  }

  /** The proofs returned by a run. */
  function AllPccbs(replies: seq<Reply>): (p: seq<Pccb>) {
    if replies == [] then []
    else
      var r := replies[|replies| - 1];
      AllPccbs(replies[..|replies| - 1]) + (if r.Success? && r.value.pccb.Some? then [r.value.pccb.value] else [])
  }

  lemma AllSnoc(replies: seq<Reply>, r: Reply)
    ensures AllOutcomes(replies + [r]) == AllOutcomes(replies) + Outcomes(r)
    ensures AllPccbs(replies + [r]) ==
            AllPccbs(replies) + (if r.Success? && r.value.pccb.Some? then [r.value.pccb.value] else [])
  {
    assert (replies + [r])[..|replies|] == replies;
  }

  lemma NothingServed(k: Kernel, run: seq<Event>)
    ensures TableAt(k, run, 0) == map[] && AllOutcomes([]) == [] && AllPccbs([]) == []
    ensures TableAt(k, run, |run|) == E.After(OpsOf(k, run))
  {
    assert OpsOf(k, run)[..|run|] == OpsOf(k, run);
  }

  /** A whole run against the objects: the records are those of the run, and what was
      written and stored is exactly what the replies hold. */
  method Serve(kernel: ProtectedExecutionKernel, run: seq<Event>) returns (replies: seq<Reply>, submitted: seq<nat>)
    requires kernel.escrow.records == map[] && kernel.written == [] && kernel.pccbs == []
    modifies kernel, kernel.escrow
    ensures kernel.escrow.records == TableAt(kernel.k, run, |run|)
    ensures kernel.written == AllOutcomes(replies) && kernel.pccbs == AllPccbs(replies)
    ensures |replies| == |submitted| && forall m, n :: 0 <= m < n < |submitted| ==> submitted[m] < submitted[n]
    ensures forall n :: 0 <= n < |replies| ==>
              && submitted[n] < |run| && run[submitted[n]].Submit?
              && replies[n] == ReplyTo(kernel.k, TableAt(kernel.k, run, submitted[n]), run[submitted[n]].submission)
    ensures forall i :: 0 <= i < |run| && run[i].Submit? ==> i in submitted
  {
    hide ReplyTo, E.Step, Outcomes, EscrowOp, E.After, AllOutcomes, AllPccbs, OpsOf;
    NothingServed(kernel.k, run);
    replies, submitted := [], [];
    var k, escrow := kernel.k, kernel.escrow;
    ghost var ops := OpsOf(k, run);
    for i := 0 to |run|
      invariant escrow.records == TableAt(k, run, i)
      invariant kernel.written == AllOutcomes(replies) && kernel.pccbs == AllPccbs(replies)
      invariant |replies| == |submitted| && forall m, n :: 0 <= m < n < |submitted| ==> submitted[m] < submitted[n]
      invariant forall n :: 0 <= n < |replies| ==>
                  && submitted[n] < i && run[submitted[n]].Submit?
                  && replies[n] == ReplyTo(k, TableAt(k, run, submitted[n]), run[submitted[n]].submission)
      invariant forall m :: 0 <= m < i && run[m].Submit? ==> m in submitted
    {
      E.AfterSnoc(ops, i);
      match run[i]
      case Submit(s) =>
        var r := kernel.SubmitIntent(s);
        AllSnoc(replies, r);
        replies, submitted := replies + [r], submitted + [i];
      case Consume(id, pccbId, capability, now) =>
        var answer := escrow.Consume(id, pccbId, capability, now);
      case Revoke(id, reason) =>
        var answer := escrow.Revoke(id, reason);
    }
  }
}
