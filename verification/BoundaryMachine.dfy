/** Any number of boundary verifications in flight at once: several verifiers, each with
    its own in-memory key set, sharing one replay store with each other and with other
    clients of that store.  A step is one atomic action of one call, or one transaction
    of somebody else on the store. */
module BoundaryMachine {
  import opened Wrappers
  import opened CanonicalJson
  import opened Dicts
  import opened PythonValues
  import opened BoundaryChecks
  import RS = ReplayStore

  datatype Outcome = Refused(code: string) | Valid(proofId: string, effect: Option<Dict>, requestHash: string)

  /** Where a call ended. */
  datatype Stage = Checking | SingleUse | EffectClaim | Finishing

  datatype Pc =
    | AtClaim(ready: Ready)
    | AtLook(ready: Ready)
    | AtConsume(ready: Ready)
    | AtEffect(ready: Ready)
    | AtFinish(ready: Ready, effect: Option<Dict>)
    | Done(stage: Stage, was: Option<Ready>, outcome: Outcome)

  datatype Call = Call(verifier: nat, request: Request, pc: Pc)

  /** `others` holds the keys consumed by other clients of the shared store. */
  datatype State = State(memory: seq<set<string>>, rows: RS.Table, others: set<string>, calls: map<nat, Call>)

  /** How a store transaction may fail: before it commits or after. */
  datatype Fault = NoFault | Before(code: string) | After(code: string)

  datatype Step =
    | Begin(id: nat, verifier: nat, request: Request)
    | Claim(id: nat, fault: Fault)
    | Look(id: nat, fault: Fault)
    | Consume(id: nat, fault: Fault)
    | Effect(id: nat, claimed: Result<Dict, string>)
    | Finish(id: nat)
    | Store(op: RS.Op)
    | OtherConsume(key: string, now: int)

  /** What the receipt hash of a request is taken over; None where the intent cannot be
      written. */
  function RequestJson(proof: Proof, intent: Intent, q: Request): (r: Option<Json>) {
    var written := IntentJson(intent);
    if written.None? then None else Some(Obj(RequestFields(proof, written.value, q)))
  }

  function RequestFields(proof: Proof, intent: Json, q: Request): Dict {
    map["proof" := ProofJson(proof), "intent" := intent,
        "action_type" := Str(q.actionType), "action_hash" := Str(q.actionHash), "target" := Str(q.target),
        "audience" := Str(q.audience), "boundary_id" := Str(q.boundaryId)]
  }

  function Key(c: Config, h: Json -> string, ready: Ready): string {
    if c.durable then StoreKey(h, ready.intent, ready.proof) else MemoryKey(h, ready.proof)
  }

  const REPLAY := Refused("REPLAY_DETECTED")

  function Put(s: State, id: nat, call: Call, pc: Pc): State {
    s.(calls := s.calls[id := call.(pc := pc)])
  }

  function Ended(stage: Stage, ready: Ready, outcome: Outcome): Pc { Done(stage, Some(ready), outcome) }

  function StepBegin(cs: seq<Config>, s: State, id: nat, v: nat, q: Request): State {
    if id in s.calls || v >= |cs| then s
    else
      var checked := Precheck(cs[v], q);
      var pc := if checked.Success? then AtClaim(checked.value) else Done(Checking, None, Refused(checked.error));
      s.(calls := s.calls[id := Call(v, q, pc)])
  }

  function StepClaim(cs: seq<Config>, h: Json -> string, s: State, id: nat, fault: Fault): State {
    if id !in s.calls || !s.calls[id].pc.AtClaim? || s.calls[id].verifier >= |cs| || |s.memory| != |cs| then s
    else
      var call := s.calls[id];
      var v, ready := call.verifier, call.pc.ready;
      var key := Key(cs[v], h, ready);
      if !cs[v].durable then
        if key in s.memory[v] then Put(s, id, call, Ended(SingleUse, ready, REPLAY))
        else Put(s, id, call, AtEffect(ready)).(memory := s.memory[v := s.memory[v] + {key}])
      else
        var rows := RS.AfterClaim(s.rows, key, ready.proof.expiresAt, ready.now);
        match fault
        case Before(code) => Put(s, id, call, Ended(SingleUse, ready, Refused(code)))
        case After(code) => Put(s, id, call, Ended(SingleUse, ready, Refused(code))).(rows := rows)
        case NoFault =>
          if RS.ClaimCommits(s.rows, key, ready.now) then Put(s, id, call, AtLook(ready)).(rows := rows)
          else Put(s, id, call, Ended(SingleUse, ready, REPLAY))
  }

  /** The store reads the row back after a claim, and expires it if it is overdue. */
  function StepLook(cs: seq<Config>, h: Json -> string, s: State, id: nat, fault: Fault): State {
    if id !in s.calls || !s.calls[id].pc.AtLook? || s.calls[id].verifier >= |cs| then s
    else
      var call := s.calls[id];
      var ready := call.pc.ready;
      var rows := RS.AfterInspect(s.rows, Key(cs[call.verifier], h, ready), ready.now);
      match fault
      case Before(code) => Put(s, id, call, Ended(SingleUse, ready, Refused(code)))
      case After(code) => Put(s, id, call, Ended(SingleUse, ready, Refused(code))).(rows := rows)
      case NoFault => Put(s, id, call, AtConsume(ready)).(rows := rows)
  }

  function StepConsume(cs: seq<Config>, h: Json -> string, s: State, id: nat, fault: Fault): State {
    if id !in s.calls || !s.calls[id].pc.AtConsume? || s.calls[id].verifier >= |cs| then s
    else
      var call := s.calls[id];
      var ready := call.pc.ready;
      var key := Key(cs[call.verifier], h, ready);
      var rows := RS.AfterConsume(s.rows, key, ready.now);
      match fault
      case Before(code) => Put(s, id, call, Ended(SingleUse, ready, Refused(code)))
      case After(code) => Put(s, id, call, Ended(SingleUse, ready, Refused(code))).(rows := rows)
      case NoFault =>
        if RS.ConsumeCommits(s.rows, key) then Put(s, id, call, AtEffect(ready)).(rows := rows)
        else Put(s, id, call, Ended(SingleUse, ready, REPLAY))
  }

  function StepEffect(cs: seq<Config>, s: State, id: nat, claimed: Result<Dict, string>): State {
    if id !in s.calls || !s.calls[id].pc.AtEffect? || s.calls[id].verifier >= |cs| then s
    else
      var call := s.calls[id];
      var ready := call.pc.ready;
      if !cs[call.verifier].protector then Put(s, id, call, AtFinish(ready, None))
      else if claimed.Success? then Put(s, id, call, AtFinish(ready, Some(claimed.value)))
      else Put(s, id, call, Ended(EffectClaim, ready, Refused(claimed.error)))
  }

  /** The receipt hash of the call's request can be taken: it has a canonical form, and that
      is within the limits of size and depth. */
  predicate RequestFits(c: Config, ready: Ready, q: Request) {
    var json := RequestJson(ready.proof, ready.intent, q);
    json.Some? && c.fits(json.value)
  }

  /** It has one exactly when all of the unsigned part of the intent has. */
  lemma RequestFitsIff(c: Config, ready: Ready, q: Request)
    ensures RequestFits(c, ready, q) <==>
            && Writable(ready.intent.rest)
            && var written := IntentJson(ready.intent);
               written.Some? && c.fits(Obj(RequestFields(ready.proof, written.value, q)))
  {
    hide RequestFields;
    CanonIff(ready.intent.rest);
  }

  /** Where the receipt hash of the request cannot be taken, the call reports an unknown
      outcome. */
  function StepFinish(cs: seq<Config>, h: Json -> string, s: State, id: nat): State {
    if id !in s.calls || !s.calls[id].pc.AtFinish? || s.calls[id].verifier >= |cs| then s
    else
      var call := s.calls[id];
      var ready := call.pc.ready;
      var outcome :=
        if RequestFits(cs[call.verifier], ready, call.request)
        then Valid(ready.proof.pccbId, call.pc.effect, h(RequestJson(ready.proof, ready.intent, call.request).value))
        else Refused("OUTCOME_UNKNOWN");
      Put(s, id, call, Ended(Finishing, ready, outcome))
  }

  /** A transaction of another client that does not consume. */
  function StepStore(s: State, op: RS.Op): State {
    if op.Consume? then s else s.(rows := RS.Apply(s.rows, op))
  }

  function StepOtherConsume(s: State, key: string, now: int): State {
    if RS.ConsumeCommits(s.rows, key)
    then s.(rows := RS.AfterConsume(s.rows, key, now), others := s.others + {key})
    else s
  }

  function Next(cs: seq<Config>, h: Json -> string, s: State, step: Step): State {
    match step
    case Begin(id, v, q) => StepBegin(cs, s, id, v, q)
    case Claim(id, fault) => StepClaim(cs, h, s, id, fault)
    case Look(id, fault) => StepLook(cs, h, s, id, fault)
    case Consume(id, fault) => StepConsume(cs, h, s, id, fault)
    case Effect(id, claimed) => StepEffect(cs, s, id, claimed)
    case Finish(id) => StepFinish(cs, h, s, id)
    case Store(op) => StepStore(s, op)
    case OtherConsume(key, now) => StepOtherConsume(s, key, now)
  }

  function Run(cs: seq<Config>, h: Json -> string, s: State, steps: seq<Step>): State
    decreases |steps|
  {
    if steps == [] then s else Run(cs, h, Next(cs, h, s, steps[0]), steps[1..])
  }

  function Initial(cs: seq<Config>): State {
    State(seq(|cs|, _ => {}), map[], {}, map[])
  }

  // ------------------------------------------------------------ invariant

  /** The call holds its proof's single use. */
  predicate Spent(call: Call) {
    call.pc.AtEffect? || call.pc.AtFinish? || (call.pc.Done? && call.pc.stage in {EffectClaim, Finishing})
  }

  predicate HasReady(call: Call) { call.pc.Done? ==> call.pc.was.Some? }

  function ReadyOf(call: Call): Ready
    requires HasReady(call)
  {
    if call.pc.Done? then call.pc.was.value else call.pc.ready
  }

  predicate IsValid(call: Call) { call.pc.Done? && call.pc.outcome.Valid? }

  /** Every call comes from its request by way of the checks. */
  ghost predicate CallOk(cs: seq<Config>, call: Call) {
    && call.verifier < |cs|
    && (HasReady(call) ==> Precheck(cs[call.verifier], call.request) == Success(ReadyOf(call)))
    && (Spent(call) ==> HasReady(call))
    && (IsValid(call) ==> call.pc.stage == Finishing)
    && (call.pc.Done? && call.pc.stage == Finishing ==>
          (IsValid(call) <==> RequestFits(cs[call.verifier], ReadyOf(call), call.request)))
    && (call.pc.AtLook? || call.pc.AtConsume? ==> cs[call.verifier].durable)
  }

  function CallKey(cs: seq<Config>, h: Json -> string, call: Call): string
    requires call.verifier < |cs| && HasReady(call)
  {
    Key(cs[call.verifier], h, ReadyOf(call))
  }

  /** The store, or the memory of the verifier, records the key of a spent call. */
  ghost predicate Recorded(cs: seq<Config>, h: Json -> string, s: State, call: Call)
    requires call.verifier < |cs| == |s.memory| && HasReady(call)
  {
    var key := CallKey(cs, h, call);
    if cs[call.verifier].durable
    then key in s.rows && s.rows[key].status == RS.Consumed && key !in s.others
    else key in s.memory[call.verifier]
  }

  /** The scope within which a key may be spent once. */
  predicate SameScope(cs: seq<Config>, a: Call, b: Call)
    requires a.verifier < |cs| && b.verifier < |cs|
  {
    if cs[a.verifier].durable then cs[b.verifier].durable else a.verifier == b.verifier
  }

  ghost predicate CallsOk(cs: seq<Config>, s: State) {
    |s.memory| == |cs| && forall id :: id in s.calls ==> CallOk(cs, s.calls[id])
  }

  ghost predicate AllRecorded(cs: seq<Config>, h: Json -> string, s: State)
    requires CallsOk(cs, s)
  {
    forall id :: id in s.calls && Spent(s.calls[id]) ==> Recorded(cs, h, s, s.calls[id])
  }

  /** Within a scope, no two spent calls have the same key. */
  ghost predicate KeysDistinct(cs: seq<Config>, h: Json -> string, s: State)
    requires CallsOk(cs, s)
  {
    forall a, b :: (a in s.calls && b in s.calls && a != b && Spent(s.calls[a]) && Spent(s.calls[b])
                    && SameScope(cs, s.calls[a], s.calls[b])) ==>
                     CallKey(cs, h, s.calls[a]) != CallKey(cs, h, s.calls[b])
  }

  /** Every key in memory belongs to a spent call. */
  ghost predicate MemoryHeld(cs: seq<Config>, h: Json -> string, s: State)
    requires CallsOk(cs, s)
  {
    forall v, k :: 0 <= v < |cs| && k in s.memory[v] ==> KeyHeld(cs, h, s, v, k)
  }

  ghost predicate Inv(cs: seq<Config>, h: Json -> string, s: State) {
    && CallsOk(cs, s) && AllRecorded(cs, h, s) && KeysDistinct(cs, h, s) && MemoryHeld(cs, h, s)
    && (forall k :: k in s.others ==> k in s.rows && s.rows[k].status == RS.Consumed)
  }

  /** Some spent call of verifier `v` holds `key`. */
  ghost predicate KeyHeld(cs: seq<Config>, h: Json -> string, s: State, v: nat, key: string)
    requires v < |cs| && forall id :: id in s.calls ==> CallOk(cs, s.calls[id])
  {
    exists id :: id in s.calls && HoldsIn(cs, h, s.calls[id], v, key)
  }

  ghost predicate HoldsIn(cs: seq<Config>, h: Json -> string, call: Call, v: nat, key: string)
    requires CallOk(cs, call)
  {
    Spent(call) && call.verifier == v && !cs[v].durable && CallKey(cs, h, call) == key
  }
}
