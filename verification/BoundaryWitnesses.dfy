/** Requests and runs that show where two tempting statements about the boundary fail:
    that tracked keys are valid results plus effect refusals, and that a store keeps an
    expired proof from being accepted. */
module BoundaryWitnesses {
  import opened Wrappers
  import opened CanonicalJson
  import opened CanonicalSize
  import opened PythonValues
  import opened BoundaryChecks
  import opened BoundaryMachine
  import opened BoundaryAccounting
  import ProofToken
  import RS = ReplayStore

  // -------------------------------------------------- a boundary and a request

  function SampleIntent(): Intent {
    Intent("intent", Null, Null, Action("pay", "pay", map[], map[], map[]), Target("batch", "b1", None, map[]),
           "", "", PyNone)
  }

  /** A proof for that intent, bound to it by its action hash. */
  function SampleProof(h: Json -> string): Proof {
    Proof("pccb", "nonce", ActionHash("sha-256", "ACTENON-JCS-STRICT-1", h(ActionHashInput(SampleIntent()))),
          Audience("service", "till", None), 10, false, Null)
  }

  function SampleConfig(h: Json -> string, fits: Json -> bool, durable: bool): Config {
    var verify := (i: Intent, p: Proof, a: Audience, s: seq<string>, t: int) =>
                    if p.actionHash.value == h(ActionHashInput(i)) then None else Some("ACTION_HASH_MISMATCH");
    Config(Some(verify), _ => Some(SampleProof(h)), _ => None, fits, false, durable, [])
  }

  function SampleRequest(now: int): Request {
    Request("token", "pay", "", "till", "boundary", "", Parsed(SampleIntent()), [], now)
  }

  lemma SamplePasses(h: Json -> string, fits: Json -> bool, durable: bool, now: int)
    ensures var c := SampleConfig(h, fits, durable);
            && BindsActionHash(c, h)
            && Precheck(c, SampleRequest(now)) == Success(Ready(SampleIntent(), SampleProof(h), now))
  {
    hide ActionHashInput;
    assert ParseAudience("till") == Some(Audience("service", "till", None)) by {
      ParseAudienceIff("till", "service", "till");
    }
    assert ProofToken.Strip("pay") == "pay" by {
      ProofToken.StripOf("", "pay", "");
      assert "" + "pay" + "" == "pay";
    }
  }

  // ------------------------------------------------------- an unknown outcome

  /** Digests are taken only of values within the size limit. */
  ghost predicate Measured(c: Config) { forall v :: c.fits(v) ==> ByteLength(v) <= MAX_BYTES }

  /** A request as long as the limit in its boundary id alone passes the same checks and
      cannot be hashed for a receipt. */
  lemma LongRequestDoesNotFit(c: Config, q: Request)
    requires Measured(c) && Precheck(c, q).Success?
    ensures var long := q.(boundaryId := Filler(MAX_BYTES));
            Precheck(c, long) == Precheck(c, q) && !RequestFits(c, Precheck(c, q).value, long)
  {
    var long := q.(boundaryId := Filler(MAX_BYTES));
    PrecheckIgnoresBoundary(c, q, Filler(MAX_BYTES));
    hide Precheck;
    var ready := Precheck(c, q).value;
    var written := IntentJson(ready.intent);
    hide IntentJson, RequestFields;
    if written.Some? {
      TooLong(ready.proof, written.value, long);
    }
  }

  lemma PrecheckIgnoresBoundary(c: Config, q: Request, id: string)
    ensures Precheck(c, q.(boundaryId := id)) == Precheck(c, q)
  {
  }

  lemma TooLong(proof: Proof, intent: Json, q: Request)
    requires |q.boundaryId| >= MAX_BYTES
    ensures ByteLength(Obj(RequestFields(proof, intent, q))) > MAX_BYTES
  {
    hide ByteLength, ProofJson;
    var m := RequestFields(proof, intent, q);
    assert m["boundary_id"] == Str(q.boundaryId);
    FieldIsShorter(m, "boundary_id");
    StringBytes(q.boundaryId);
  }

  /** The intent with a number in its metadata that is not whole. */
  function Floating(): Intent { SampleIntent().(rest := PyDict(map["amount" := PyFloat(0.5)])) }

  function FloatRequest(now: int): Request { SampleRequest(now).(intent := Parsed(Floating())) }

  /** However wide the limits, a small request with a float among the unsigned fields of its
      intent passes every check and cannot be hashed for a receipt. */
  lemma FloatRequestDoesNotFit(h: Json -> string, fits: Json -> bool, durable: bool, now: int)
    ensures var c, q := SampleConfig(h, fits, durable), FloatRequest(now);
            && BindsActionHash(c, h) && Precheck(c, q) == Success(Ready(Floating(), SampleProof(h), now))
            && !RequestFits(c, Precheck(c, q).value, q)
  {
    hide ActionHashInput;
    var c, q := SampleConfig(h, fits, durable), FloatRequest(now);
    SamplePasses(h, fits, durable, now);
    SameSigned(SampleIntent(), Floating());
    var ready := Ready(Floating(), SampleProof(h), now);
    RestUnchecked(c, SampleRequest(now), SampleIntent(), Floating(), ready);
    var rest := Floating().rest;
    assert "amount" in rest.fields && Canon(rest.fields["amount"]).None?;
    assert !Writable(rest);
    RequestFitsIff(c, ready, q);
  }

  /** The checks see of an intent only what the verifier makes of it, its action and its
      target. */
  lemma RestUnchecked(c: Config, q: Request, i: Intent, j: Intent, ready: Ready)
    requires q.intent == Parsed(i) && i.action == j.action && i.target == j.target && c.verify.Some?
    requires Precheck(c, q) == Success(Ready(i, ready.proof, ready.now)) && ready.intent == j
    requires forall p, a, s, t :: c.verify.value(i, p, a, s, t) == c.verify.value(j, p, a, s, t)
    ensures Precheck(c, q.(intent := Parsed(j))) == Success(ready)
  {
    hide ParseAudience, ProofToken.Strip;
    PrecheckIff(c, q, Ready(i, ready.proof, ready.now));
    PrecheckIff(c, q.(intent := Parsed(j)), ready);
  }

  /** One call with such a request: a key is tracked, with no valid result and no refusal
      at the effect claim. */
  lemma UnknownOutcomeKeepsKey(h: Json -> string, c: Config, q: Request)
    requires Precheck(c, q).Success? && !c.durable && !c.protector && !RequestFits(c, Precheck(c, q).value, q)
    ensures var s := Run([c], h, Initial([c]), [Begin(0, 0, q), Claim(0, NoFault), Effect(0, Failure("")), Finish(0)]);
            && |s.memory| == 1 && |s.memory[0]| == 1
            && ValidBy(s, 0) == {} && EffectRefusedBy(s, 0) == {} && PendingBy(s, 0) == {}
  {
    hide Precheck, Key, RequestFits;
    var cs, s0 := [c], Initial([c]);
    var steps := [Begin(0, 0, q), Claim(0, NoFault), Effect(0, Failure("")), Finish(0)];
    var ready := Precheck(c, q).value;
    var s1 := Next(cs, h, s0, steps[0]);
    var s2 := Next(cs, h, s1, steps[1]);
    assert s2.memory == [{Key(c, h, ready)}] && s2.calls[0].pc == AtEffect(ready);
    var s3 := Next(cs, h, s2, steps[2]);
    var s4 := Next(cs, h, s3, steps[3]);
    assert s4.memory == s2.memory && s4.calls.Keys == {0};
    assert s4.calls[0].pc == Ended(Finishing, ready, Refused("OUTCOME_UNKNOWN"));
    Unroll4(cs, h, s0, steps);
  }

  /** Such a boundary and such a request exist, too long or with a float. */
  lemma FloatOutcomeExists(h: Json -> string) returns (c: Config, q: Request)
    ensures BindsActionHash(c, h) && (forall v :: c.fits(v)) && Precheck(c, q).Success? && !c.durable && !c.protector
    ensures !RequestFits(c, Precheck(c, q).value, q)
  {
    hide Precheck, BindsActionHash, RequestFits;
    c := SampleConfig(h, _ => true, false);
    FloatRequestDoesNotFit(h, c.fits, false, 0);
    q := FloatRequest(0);
  }

  lemma UnknownOutcomeExists(h: Json -> string) returns (c: Config, q: Request)
    ensures BindsActionHash(c, h) && Measured(c) && Precheck(c, q).Success? && !c.durable && !c.protector
    ensures !RequestFits(c, Precheck(c, q).value, q)
  {
    hide ByteLength, Precheck, BindsActionHash;
    c := SampleConfig(h, v => ByteLength(v) <= MAX_BYTES, false);
    SamplePasses(h, c.fits, false, 0);
    LongRequestDoesNotFit(c, SampleRequest(0));
    q := SampleRequest(0).(boundaryId := Filler(MAX_BYTES));
  }

  lemma Unroll4(cs: seq<Config>, h: Json -> string, s: State, steps: seq<Step>)
    requires |steps| == 4
    ensures Run(cs, h, s, steps) ==
            Next(cs, h, Next(cs, h, Next(cs, h, Next(cs, h, s, steps[0]), steps[1]), steps[2]), steps[3])
  {
    hide Next;
    RunHead(cs, h, s, steps);
    RunHead(cs, h, Next(cs, h, s, steps[0]), steps[1..]);
    RunHead(cs, h, Next(cs, h, Next(cs, h, s, steps[0]), steps[1]), steps[2..]);
    RunHead(cs, h, Next(cs, h, Next(cs, h, Next(cs, h, s, steps[0]), steps[1]), steps[2]), steps[3..]);
    assert steps[1..][1..] == steps[2..] && steps[2..][1..] == steps[3..] && steps[3..][1..] == [];
  }

  lemma RunHead(cs: seq<Config>, h: Json -> string, s: State, steps: seq<Step>)
    requires steps != []
    ensures Run(cs, h, s, steps) == Run(cs, h, Next(cs, h, s, steps[0]), steps[1..])
  {
  }

  // --------------------------------------------------- an expired, valid call

  /** Call 0 comes at the expiry, call 1 before it.  Call 0 claims, looks and so expires its
      own claim; call 1 claims the free key; call 0 consumes that claim. */
  function Overtaking(q0: Request, q1: Request): seq<Step> {
    [Begin(0, 0, q0), Begin(1, 0, q1), Claim(0, NoFault), Look(0, NoFault),
     Claim(1, NoFault), Consume(0, NoFault), Effect(0, Failure("")), Finish(0)]
  }

  lemma BothBegin(c: Config, h: Json -> string, q0: Request, q1: Request)
    requires Precheck(c, q0).Success? && Precheck(c, q1).Success?
    ensures var s := Next([c], h, Next([c], h, Initial([c]), Begin(0, 0, q0)), Begin(1, 0, q1));
            && |s.memory| == 1 && s.rows == map[]
            && s.calls == map[0 := Call(0, q0, AtClaim(Precheck(c, q0).value)),
                              1 := Call(0, q1, AtClaim(Precheck(c, q1).value))]
  {
    hide Precheck;
  }

  lemma ClaimExpires(c: Config, h: Json -> string, s: State, q: Request, ready: Ready)
    requires c.durable && |s.memory| == 1 && s.rows == map[] && ready.proof.expiresAt <= ready.now
    requires 0 in s.calls && s.calls[0] == Call(0, q, AtClaim(ready))
    ensures var s' := Next([c], h, Next([c], h, s, Claim(0, NoFault)), Look(0, NoFault));
            && s'.memory == s.memory && s'.calls == s.calls[0 := Call(0, q, AtConsume(ready))]
            && s'.rows == map[Key(c, h, ready) := RS.Row(RS.Expired, ready.proof.expiresAt, None)]
  {
    hide Key;
    var s1 := Next([c], h, s, Claim(0, NoFault));
    assert s1.rows == map[Key(c, h, ready) := RS.Row(RS.Claimed, ready.proof.expiresAt, None)];
  }

  lemma RivalClaims(c: Config, h: Json -> string, s: State, q: Request, ready: Ready)
    requires c.durable && |s.memory| == 1 && 1 in s.calls && s.calls[1] == Call(0, q, AtClaim(ready))
    requires Key(c, h, ready) in s.rows && s.rows[Key(c, h, ready)].status == RS.Expired
    ensures var s' := Next([c], h, s, Claim(1, NoFault));
            && RS.ConsumeCommits(s'.rows, Key(c, h, ready)) && s'.calls.Keys == s.calls.Keys
            && (0 in s.calls ==> s'.calls[0] == s.calls[0])
  {
    hide Key;
  }

  /** Two requests for one key, the first at or past the expiry of its proof: in this run
      it ends valid. */
  lemma Overtaken(c: Config, h: Json -> string, q0: Request, q1: Request)
    requires c.durable && !c.protector && Precheck(c, q0).Success? && Precheck(c, q1).Success?
    requires var r0, r1 := Precheck(c, q0).value, Precheck(c, q1).value;
             && r0.proof.expiresAt <= r0.now && Key(c, h, r0) == Key(c, h, r1) && RequestFits(c, r0, q0)
    ensures var s := Run([c], h, Initial([c]), Overtaking(q0, q1));
            0 in s.calls && s.calls[0].request == q0 && IsValid(s.calls[0])
  {
    hide Precheck, Key, Next, RequestFits, Run;
    var cs, steps := [c], Overtaking(q0, q1);
    var r0, r1 := Precheck(c, q0).value, Precheck(c, q1).value;
    BothBegin(c, h, q0, q1);
    var s2 := Next(cs, h, Next(cs, h, Initial(cs), steps[0]), steps[1]);
    ClaimExpires(c, h, s2, q0, r0);
    var s4 := Next(cs, h, Next(cs, h, s2, steps[2]), steps[3]);
    RivalClaims(c, h, s4, q1, r1);
    Rest(c, h, Next(cs, h, s4, steps[4]), q0, r0);
    Prefix5(cs, h, Initial(cs), steps);
    assert steps[5..] == [Consume(0, NoFault), Effect(0, Failure("")), Finish(0)];
  }

  /** Such a boundary and such requests exist: the proof expires at 10, call 0 comes at 10
      and call 1 at 9. */
  lemma ExpiredCallValid(h: Json -> string)
    ensures var c, q0, q1 := SampleConfig(h, _ => true, true), SampleRequest(10), SampleRequest(9);
            var s := Run([c], h, Initial([c]), Overtaking(q0, q1));
            SampleProof(h).expiresAt <= q0.now && 0 in s.calls && s.calls[0].request == q0 && IsValid(s.calls[0])
  {
    hide Precheck, Key;
    var fits: Json -> bool := _ => true;
    var c := SampleConfig(h, fits, true);
    SamplePasses(h, fits, true, 10);
    SamplePasses(h, fits, true, 9);
    SameKey(c, h, Ready(SampleIntent(), SampleProof(h), 10), Ready(SampleIntent(), SampleProof(h), 9));
    Overtaken(c, h, SampleRequest(10), SampleRequest(9));
  }

  lemma SameKey(c: Config, h: Json -> string, r: Ready, r': Ready)
    requires r.proof == r'.proof && r.intent == r'.intent
    ensures Key(c, h, r) == Key(c, h, r')
  {
  }

  /** From a claimed row on, the call runs to a valid end. */
  lemma Rest(c: Config, h: Json -> string, s: State, q: Request, ready: Ready)
    requires c.durable && !c.protector && RequestFits(c, ready, q)
    requires 0 in s.calls && s.calls[0] == Call(0, q, AtConsume(ready))
    requires RS.ConsumeCommits(s.rows, Key(c, h, ready))
    ensures var s' := Run([c], h, s, [Consume(0, NoFault), Effect(0, Failure("")), Finish(0)]);
            0 in s'.calls && s'.calls[0].request == q && IsValid(s'.calls[0])
  {
    hide Key, RequestFits;
    var cs, steps := [c], [Consume(0, NoFault), Effect(0, Failure("")), Finish(0)];
    var s1 := Next(cs, h, s, steps[0]);
    var s2 := Next(cs, h, s1, steps[1]);
    var s3 := Next(cs, h, s2, steps[2]);
    assert s3.calls[0].request == q && IsValid(s3.calls[0]);
    RunHead(cs, h, s, steps);
    RunHead(cs, h, s1, steps[1..]);
    RunHead(cs, h, s2, steps[2..]);
    assert steps[2..][1..] == [] && steps[1..][1..] == steps[2..];
  }

  lemma Prefix5(cs: seq<Config>, h: Json -> string, s: State, steps: seq<Step>)
    requires |steps| == 8
    ensures var t := Next(cs, h, Next(cs, h, Next(cs, h, Next(cs, h, s, steps[0]), steps[1]), steps[2]), steps[3]);
            Run(cs, h, s, steps) == Run(cs, h, Next(cs, h, t, steps[4]), steps[5..])
  {
    hide Next;
    var s1 := Next(cs, h, s, steps[0]);
    var s2 := Next(cs, h, s1, steps[1]);
    var s3 := Next(cs, h, s2, steps[2]);
    var s4 := Next(cs, h, s3, steps[3]);
    RunHead(cs, h, s, steps);
    RunHead(cs, h, s1, steps[1..]);
    RunHead(cs, h, s2, steps[2..]);
    RunHead(cs, h, s3, steps[3..]);
    RunHead(cs, h, s4, steps[4..]);
    assert steps[1..][1..] == steps[2..] && steps[2..][1..] == steps[3..];
    assert steps[3..][1..] == steps[4..] && steps[4..][1..] == steps[5..];
  }
}
