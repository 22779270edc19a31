/** Receipts for verified boundary requests (actenon/boundary/__init__.py). */
module Receipts {
  import opened Wrappers
  import opened CanonicalJson
  import opened Dicts
  import opened PythonValues
  import opened BoundaryChecks
  import opened BoundaryMachine
  import opened Boundary
  import RS = ReplayStore

  datatype Receipt = Receipt(
    boundaryId: string, action: string, actionHash: string, proofId: string, outcome: string,
    effect: Option<Execution>)

  datatype Execution = Execution(occurred: Json, evidence: Dict)

  /** `validate_effect_outcome` on outcome, execution flag and evidence hash. */
  type Validator = (Json, Json, Json) -> bool

  /** The hash of a request; None where it cannot be read, written or hashed. */
  function ReceiptRequestHash(c: Config, h: Json -> string, q: Request): (r: Option<string>) {
    var proof, intent := c.decode(q.token), ParseIntent(c, q.intent);
    if proof.None? || intent.None? then None
    else
      var json := RequestJson(proof.value, intent.value, q);
      if json.None? || !c.fits(json.value) then None else Some(h(json.value))
  }

  function Reported(outcome: Json): (r: Option<string>) {
    if outcome == Str("COMMITTED") then Some("succeeded")
    else if outcome == Str("NOT_EXECUTED") then Some("refused")
    else if outcome == Str("AMBIGUOUS") then Some("outcome_unknown")
    else None
  }

  /** The evidence repeats the reference and adds exactly the three result fields. */
  predicate Matches(evidence: Dict, reference: Dict) {
    && evidence.Keys == reference.Keys + {"outcome", "execution_occurred", "evidence_hash"}
    && forall k :: k in reference ==> evidence[k] == reference[k]
  }

  function Prefix16(s: string): string { if |s| <= 16 then s else s[..16] }

  function ConstructReceipt(c: Config, h: Json -> string, validate: Validator, q: Request, result: Outcome,
                            outcome: Option<string>, evidence: Option<Dict>): (r: Result<Receipt, string>)
  {
    if result.Refused? then Failure("a boundary receipt can only be constructed for a verified result")
    else
      var stated := if outcome.Some? && outcome.value != [] then outcome.value else "succeeded";
      var receipt := Receipt(q.boundaryId, q.actionType, Prefix16(q.actionHash) + "...", result.proofId, stated, None);
      if result.effect.None? then
        if evidence.Some? then Failure("effect evidence has no verified effect reference") else Success(receipt)
      else if result.requestHash == [] || ReceiptRequestHash(c, h, q) != Some(result.requestHash) then
        Failure("receipt request differs from the verified execution request")
      else if evidence.None? || !Matches(evidence.value, result.effect.value) then
        Failure("effect verification is not execution evidence")
      else
        var e := evidence.value;
        if !validate(e["outcome"], e["execution_occurred"], e["evidence_hash"]) then Failure("invalid effect outcome")
        else
          var reported := Reported(e["outcome"]);
          if reported.None? then Failure("unknown effect outcome")
          else if outcome.Some? && outcome.value != reported.value then
            Failure("receipt outcome contradicts effect evidence")
          else Success(receipt.(outcome := reported.value, effect := Some(Execution(e["execution_occurred"], e))))
  }

  // ------------------------------------------------------- the request hashed

  /** Two requests ask for the same thing. */
  ghost predicate SameRequest(c: Config, q: Request, d: Config, p: Request) {
    && c.decode(q.token).Some? && c.decode(q.token) == d.decode(p.token)
    && ParseIntent(c, q.intent).Some? && ParseIntent(d, p.intent).Some?
    && SameIntent(ParseIntent(c, q.intent).value, ParseIntent(d, p.intent).value)
    && q.actionType == p.actionType && q.actionHash == p.actionHash && q.target == p.target
    && q.audience == p.audience && q.boundaryId == p.boundaryId
  }

  lemma RequestFieldsInjective(p: Proof, i: Json, q: Request, p': Proof, i': Json, q': Request)
    requires RequestFields(p, i, q) == RequestFields(p', i', q')
    ensures p == p' && i == i' && q.actionType == q'.actionType && q.actionHash == q'.actionHash
    ensures q.target == q'.target && q.audience == q'.audience && q.boundaryId == q'.boundaryId
  {
    hide ProofJson;
    var x, y := RequestFields(p, i, q), RequestFields(p', i', q');
    assert x["proof"] == y["proof"] && x["intent"] == y["intent"];
    assert x["action_type"] == y["action_type"] && x["action_hash"] == y["action_hash"] && x["target"] == y["target"];
    assert x["audience"] == y["audience"] && x["boundary_id"] == y["boundary_id"];
    ProofJsonInjective(p, p');
  }

  /** The written request fixes proof, action type, action hash, target, audience, boundary
      and the intent as written. */
  lemma RequestJsonInjective(p: Proof, i: Intent, q: Request, p': Proof, i': Intent, q': Request)
    requires RequestJson(p, i, q).Some? && RequestJson(p, i, q) == RequestJson(p', i', q')
    ensures p == p' && SameIntent(i, i') && q.actionType == q'.actionType && q.actionHash == q'.actionHash
    ensures q.target == q'.target && q.audience == q'.audience && q.boundaryId == q'.boundaryId
  {
    hide RequestFields, IntentJson, SameIntent;
    RequestFieldsInjective(p, IntentJson(i).value, q, p', IntentJson(i').value, q');
    IntentJsonIff(i, i');
  }

  lemma HashesAgreeIff(c: Config, d: Config, h: Json -> string, q: Request, p: Request)
    requires CollisionFree(h) && ReceiptRequestHash(c, h, q).Some? && d.fits == c.fits
    ensures ReceiptRequestHash(d, h, p) == ReceiptRequestHash(c, h, q) <==> SameRequest(c, q, d, p)
    ensures forall x :: ReceiptRequestHash(c, h, q) == Some(x) && (forall y :: h(y) != []) ==> x != []
  {
    hide RequestJson, SameIntent;
    var a, i := c.decode(q.token).value, ParseIntent(c, q.intent).value;
    if ReceiptRequestHash(d, h, p) == ReceiptRequestHash(c, h, q) {
      RequestJsonInjective(a, i, q, d.decode(p.token).value, ParseIntent(d, p.intent).value, p);
    }
    if SameRequest(c, q, d, p) {
      SameJson(a, i, q, ParseIntent(d, p.intent).value, p);
    }
  }

  lemma SameJson(a: Proof, i: Intent, q: Request, j: Intent, p: Request)
    requires q.actionType == p.actionType && q.actionHash == p.actionHash && q.target == p.target
    requires q.audience == p.audience && q.boundaryId == p.boundaryId && SameIntent(i, j)
    ensures RequestJson(a, i, q) == RequestJson(a, j, p)
  {
    hide IntentJson;
    assert IntentJson(i) == IntentJson(j) by { WrittenAlike(i, j); }
  }

  lemma WrittenAlike(i: Intent, j: Intent)
    requires SameIntent(i, j)
    ensures IntentJson(i).Some? && IntentJson(i) == IntentJson(j)
  {
    hide ActionHashInput, Canon;
    SameSigned(i, j);
  }

  // ------------------------------------------------------------ every result

  /** A valid result carries the hash of the request that was verified, its proof's id and,
      exactly with a protector, an effect. */
  ghost predicate ResultHashed(c: Config, h: Json -> string, q: Request, result: Outcome) {
    result.Valid? ==>
      && ReceiptRequestHash(c, h, q) == Some(result.requestHash)
      && Precheck(c, q).Success? && result.proofId == Precheck(c, q).value.proof.pccbId
      && (c.protector <==> result.effect.Some?)
  }

  ghost predicate CallHashed(cs: seq<Config>, h: Json -> string, call: Call) {
    && call.verifier < |cs|
    && (HasReady(call) ==> Precheck(cs[call.verifier], call.request) == Success(ReadyOf(call)))
    && (call.pc.AtFinish? ==> (cs[call.verifier].protector <==> call.pc.effect.Some?))
    && (call.pc.Done? ==> ResultHashed(cs[call.verifier], h, call.request, call.pc.outcome))
  }

  ghost predicate AllHashed(cs: seq<Config>, h: Json -> string, s: State) {
    forall id :: id in s.calls ==> CallHashed(cs, h, s.calls[id])
  }

  /** Finishing hashes the request that was checked. */
  lemma FinishHashed(c: Config, h: Json -> string, q: Request, ready: Ready)
    requires Precheck(c, q) == Success(ready) && RequestFits(c, ready, q)
    ensures ReceiptRequestHash(c, h, q) == Some(h(RequestJson(ready.proof, ready.intent, q).value))
  {
    hide Precheck, RequestJson;
    PrecheckIff(c, q, ready);
  }

  lemma FinishKeepsHashed(cs: seq<Config>, h: Json -> string, s: State, id: nat)
    requires AllHashed(cs, h, s)
    ensures AllHashed(cs, h, StepFinish(cs, h, s, id))
  {
    hide Precheck, RequestJson, RequestFits, ReceiptRequestHash;
    var s' := StepFinish(cs, h, s, id);
    if s' != s {
      var call := s.calls[id];
      assert CallHashed(cs, h, call);
      if RequestFits(cs[call.verifier], call.pc.ready, call.request) {
        FinishHashed(cs[call.verifier], h, call.request, call.pc.ready);
      }
      assert CallHashed(cs, h, s'.calls[id]);
    }
  }

  lemma NextHashed(cs: seq<Config>, h: Json -> string, s: State, step: Step)
    requires AllHashed(cs, h, s)
    ensures AllHashed(cs, h, Next(cs, h, s, step))
  {
    hide Precheck, Key, RequestJson, RequestFits, ReceiptRequestHash;
    hide RS.AfterClaim, RS.ClaimCommits, RS.AfterConsume, RS.ConsumeCommits, RS.AfterInspect, RS.Apply;
    if step.Finish? {
      FinishKeepsHashed(cs, h, s, step.id);
    } else {
      hide StepFinish;
      forall id | id in Next(cs, h, s, step).calls ensures CallHashed(cs, h, Next(cs, h, s, step).calls[id]) {
        assert id in s.calls ==> CallHashed(cs, h, s.calls[id]);
      }
    }
  }

  lemma {:induction false} RunHashed(cs: seq<Config>, h: Json -> string, s: State, steps: seq<Step>)
    requires AllHashed(cs, h, s)
    ensures AllHashed(cs, h, Run(cs, h, s, steps))
    decreases |steps|
  {
    hide AllHashed, Next;
    if steps != [] {
      NextHashed(cs, h, s, steps[0]);
      RunHashed(cs, h, Next(cs, h, s, steps[0]), steps[1..]);
    }
  }

  /** In every run that starts without calls, whatever the store and the key sets hold, every
      result is hashed so. */
  lemma ValidResultHash(cs: seq<Config>, h: Json -> string, s: State, steps: seq<Step>, id: nat)
    requires s.calls == map[] && id in Run(cs, h, s, steps).calls && Run(cs, h, s, steps).calls[id].pc.Done?
    ensures var call := Run(cs, h, s, steps).calls[id];
            call.verifier < |cs| && ResultHashed(cs[call.verifier], h, call.request, call.pc.outcome)
  {
    hide Run, ResultHashed, Precheck;
    RunHashed(cs, h, s, steps);
    assert CallHashed(cs, h, Run(cs, h, s, steps).calls[id]);
  }

  // ---------------------------------------------------------------- receipts

  /** What a receipt reports for an outcome of the evidence. */
  ghost predicate Reports(evidence: Json, outcome: string) {
    || (evidence == Str("COMMITTED") && outcome == "succeeded")
    || (evidence == Str("NOT_EXECUTED") && outcome == "refused")
    || (evidence == Str("AMBIGUOUS") && outcome == "outcome_unknown")
  }

  /** The evidence names the claimed reference and, beyond it, just the three result fields. */
  ghost predicate Evidence(evidence: Dict, reference: Dict) {
    && "outcome" in evidence && "execution_occurred" in evidence && "evidence_hash" in evidence
    && (forall k :: k in reference ==> k in evidence && evidence[k] == reference[k])
    && (forall k :: k in evidence ==> k in reference || k == "outcome" || k == "execution_occurred"
                                      || k == "evidence_hash")
  }

  lemma EvidenceIff(evidence: Dict, reference: Dict)
    ensures Evidence(evidence, reference) <==> Matches(evidence, reference)
  {
    if Evidence(evidence, reference) {
      assert evidence.Keys == reference.Keys + {"outcome", "execution_occurred", "evidence_hash"};
    }
    if Matches(evidence, reference) {
      assert forall k :: k in evidence ==> k in reference.Keys + {"outcome", "execution_occurred", "evidence_hash"};
      assert "outcome" in evidence.Keys && "execution_occurred" in evidence.Keys && "evidence_hash" in evidence.Keys;
    }
  }

  /** The sixteen first characters, or all of fewer, and an ellipsis. */
  ghost predicate Shortened(text: string, hash: string) {
    if |hash| < 16 then text == hash + "..."
    else |text| == 19 && text[..16] == hash[..16] && text[16..] == "..."
  }

  lemma ShortenedPrefix(hash: string)
    ensures Shortened(Prefix16(hash) + "...", hash)
  {
    if |hash| == 16 {
      assert hash[..16] == hash;
    }
  }

  /** Exactly which receipts `d` builds for request `p` from the result of verifying `q`. */
  ghost predicate ReceiptExact(c: Config, d: Config, h: Json -> string, validate: Validator, q: Request,
                               result: Outcome,
                               p: Request, outcome: Option<string>, evidence: Option<Dict>)
    requires result.Valid? && result.effect.Some?
  {
    var r := ConstructReceipt(d, h, validate, p, result, outcome, evidence);
    && (r.Success? <==>
          && SameRequest(c, q, d, p)
          && evidence.Some? && Evidence(evidence.value, result.effect.value)
          && var e := evidence.value;
          && validate(e["outcome"], e["execution_occurred"], e["evidence_hash"])
          && e["outcome"] in {Str("COMMITTED"), Str("NOT_EXECUTED"), Str("AMBIGUOUS")}
          && (outcome.Some? ==> Reports(e["outcome"], outcome.value)))
    && (r.Success? ==>
          && Reports(evidence.value["outcome"], r.value.outcome)
          && r.value.effect == Some(Execution(evidence.value["execution_occurred"], evidence.value))
          && r.value.proofId == c.decode(q.token).value.pccbId
          && r.value.boundaryId == q.boundaryId && r.value.action == q.actionType
          && Shortened(r.value.actionHash, q.actionHash))
  }

  /** A valid result without an effect gives a receipt exactly when no evidence comes with it;
      that receipt says what the caller states, and success where nothing is stated. */
  lemma PlainReceiptIff(c: Config, h: Json -> string, validate: Validator, q: Request, result: Outcome,
                        outcome: Option<string>, evidence: Option<Dict>)
    requires result.Valid? && result.effect.None?
    ensures var r := ConstructReceipt(c, h, validate, q, result, outcome, evidence);
            && (r.Success? <==> evidence.None?)
            && (r.Success? ==>
                  && r.value.outcome == (if outcome in {None, Some("")} then "succeeded" else outcome.value)
                  && r.value.boundaryId == q.boundaryId && r.value.action == q.actionType
                  && r.value.proofId == result.proofId && r.value.effect.None?
                  && Shortened(r.value.actionHash, q.actionHash))
  {
    hide Shortened;
    ShortenedPrefix(q.actionHash);
  }

  lemma ReceiptIsExact(c: Config, d: Config, h: Json -> string, validate: Validator, q: Request, result: Outcome,
                       p: Request, outcome: Option<string>, evidence: Option<Dict>)
    requires CollisionFree(h) && (forall x :: h(x) != []) && d.fits == c.fits
    requires result.Valid? && result.effect.Some? && ResultHashed(c, h, q, result)
    ensures ReceiptExact(c, d, h, validate, q, result, p, outcome, evidence)
  {
    hide Precheck, RequestJson, Matches, ReceiptRequestHash, SameIntent, Shortened, CollisionFree, Prefix16;
    PrecheckIff(c, q, Precheck(c, q).value);
    HashesAgreeIff(c, d, h, q, p);
    ShortenedPrefix(p.actionHash);
    if evidence.Some? {
      EvidenceIff(evidence.value, result.effect.value);
    }
  }

  /** For every result of every run that claimed an effect, a receipt can be built exactly for
      a request that agrees with the verified one on decoded proof, intent, action type,
      action hash, target, audience and boundary, with evidence that matches the claimed
      reference; its outcome is the one the evidence dictates. */
  lemma EffectReceiptIff(cs: seq<Config>, d: Config, h: Json -> string, validate: Validator, s: State, steps: seq<Step>,
                         id: nat, p: Request, outcome: Option<string>, evidence: Option<Dict>)
    requires CollisionFree(h) && (forall x :: h(x) != []) && forall c :: c in cs ==> d.fits == c.fits
    requires s.calls == map[]
    ensures var calls := Run(cs, h, s, steps).calls;
            id in calls && IsValid(calls[id]) && calls[id].pc.outcome.effect.Some? ==>
              && calls[id].verifier < |cs|
              && ReceiptExact(cs[calls[id].verifier], d, h, validate, calls[id].request, calls[id].pc.outcome,
                              p, outcome, evidence)
  {
    hide Run, ReceiptExact, ResultHashed, CollisionFree;
    var calls := Run(cs, h, s, steps).calls;
    if id in calls && IsValid(calls[id]) && calls[id].pc.outcome.effect.Some? {
      ValidResultHash(cs, h, s, steps, id);
      var call := calls[id];
      ReceiptIsExact(cs[call.verifier], d, h, validate, call.request, call.pc.outcome, p, outcome, evidence);
    }
  }

  /** So for a call that runs alone. */
  lemma LoneReceiptIff(c: Config, d: Config, h: Json -> string, validate: Validator, keys: set<string>, rows: RS.Table,
                       q: Request, claimed: Result<Dict, string>,
                       p: Request, outcome: Option<string>, evidence: Option<Dict>)
    requires CollisionFree(h) && (forall x :: h(x) != []) && d.fits == c.fits
    ensures var calls := Alone(c, h, keys, rows, q, claimed).calls;
            0 in calls && IsValid(calls[0]) && calls[0].pc.outcome.effect.Some? ==>
              calls[0].verifier == 0 &&
              ReceiptExact(c, d, h, validate, calls[0].request, calls[0].pc.outcome, p, outcome, evidence)
  {
    hide Run, Alone, ReceiptExact, CollisionFree;
    AloneIsRun(c, h, keys, rows, q, claimed);
    var start := State([keys], rows, {}, map[]);
    var steps :| Run([c], h, start, steps) == Alone(c, h, keys, rows, q, claimed);
    EffectReceiptIff([c], d, h, validate, start, steps, 0, p, outcome, evidence);
  }
}
