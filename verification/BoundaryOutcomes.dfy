/** Why each call of a run ended as it did: every result is traced to the step of the run
    that caused it and to what that step found. */
module BoundaryOutcomes {
  import opened Wrappers
  import opened CanonicalJson
  import opened Dicts
  import opened BoundaryChecks
  import opened BoundaryMachine
  import ExpiredCalls
  import RS = ReplayStore

  /** The state of the run before step `n`. */
  function Upto(cs: seq<Config>, h: Json -> string, s0: State, steps: seq<Step>, n: nat): State
    requires n <= |steps|
  {
    Run(cs, h, s0, steps[..n])
  }

  lemma UptoStep(cs: seq<Config>, h: Json -> string, s0: State, steps: seq<Step>, n: nat)
    requires n < |steps|
    ensures Upto(cs, h, s0, steps, n + 1) == Next(cs, h, Upto(cs, h, s0, steps, n), steps[n])
  {
    hide Run, Next;
    assert steps[..n + 1] == steps[..n] + [steps[n]];
    ExpiredCalls.RunSnoc(cs, h, s0, steps[..n], steps[n]);
  }

  // -------------------------------------------------------------- the causes

  /** What a store transaction that failed reports. */
  predicate FaultSays(fault: Fault, code: string) { !fault.NoFault? && fault.code == code }

  /** At this state and step, the call is denied the single use with this code. */
  ghost predicate DeniedUse(cs: seq<Config>, h: Json -> string, s: State, step: Step, id: nat, code: string) {
    && id in s.calls && s.calls[id].verifier < |cs| && HasReady(s.calls[id])
    && var c, ready := cs[s.calls[id].verifier], ReadyOf(s.calls[id]);
       var key := Key(c, h, ready);
       match step
       case Claim(i, fault) =>
         && i == id && s.calls[id].pc.AtClaim? && |s.memory| == |cs|
         && if !c.durable then code == "REPLAY_DETECTED" && key in s.memory[s.calls[id].verifier]
            else FaultSays(fault, code)
                 || (fault.NoFault? && code == "REPLAY_DETECTED" && !RS.Claimable(s.rows, key, ready.now))
       case Look(i, fault) => i == id && s.calls[id].pc.AtLook? && FaultSays(fault, code)
       case Consume(i, fault) =>
         && i == id && s.calls[id].pc.AtConsume?
         && (FaultSays(fault, code)
             || (fault.NoFault? && code == "REPLAY_DETECTED"
                 && !(key in s.rows && s.rows[key].status == RS.Claimed)))
       case _ => false
  }

  /** At this state and step, the call gets this answer of the protector to its effect claim. */
  ghost predicate Answered(s: State, step: Step, id: nat, answer: Result<Dict, string>) {
    step == Effect(id, answer) && id in s.calls && s.calls[id].pc.AtEffect?
  }

  /** The effect reference held: none without a protector, and the one granted otherwise. */
  ghost predicate Granted(cs: seq<Config>, h: Json -> string, s0: State, steps: seq<Step>, n: nat, id: nat,
                          protector: bool, effect: Option<Dict>)
    requires n <= |steps|
  {
    if !protector then effect.None?
    else
      && effect.Some?
      && exists k :: 0 <= k < n && Answered(Upto(cs, h, s0, steps, k), steps[k], id, Success(effect.value))
  }

  /** Why the call ended so, by the stage at which it did. */
  ghost predicate Caused(cs: seq<Config>, h: Json -> string, s0: State, steps: seq<Step>, n: nat, id: nat, c: Config,
                         call: Call)
    requires n <= |steps| && call.pc.Done?
  {
    var q, was, outcome := call.request, call.pc.was, call.pc.outcome;
    match call.pc.stage
    case Checking => Precheck(c, q).Failure? && outcome == Refused(Precheck(c, q).error)
    case SingleUse =>
      outcome.Refused?
      && exists k :: 0 <= k < n && DeniedUse(cs, h, Upto(cs, h, s0, steps, k), steps[k], id, outcome.code)
    case EffectClaim =>
      c.protector && outcome.Refused?
      && exists k :: 0 <= k < n && Answered(Upto(cs, h, s0, steps, k), steps[k], id, Failure(outcome.code))
    case Finishing =>
      was.Some? &&
      if RequestFits(c, was.value, q)
      then && outcome.Valid? && outcome.proofId == was.value.proof.pccbId
           && outcome.requestHash == h(RequestJson(was.value.proof, was.value.intent, q).value)
           && Granted(cs, h, s0, steps, n, id, c.protector, outcome.effect)
      else outcome == Refused("OUTCOME_UNKNOWN") && Claims(cs, h, s0, steps, n, id, c.protector)
  }

  /** Some effect reference is held as it should be. */
  ghost predicate Claims(cs: seq<Config>, h: Json -> string, s0: State, steps: seq<Step>, n: nat, id: nat,
                         protector: bool)
    requires n <= |steps|
  {
    exists effect :: Granted(cs, h, s0, steps, n, id, protector, effect)
  }

  /** The call is the one that was begun, and what it has reached has its cause. */
  ghost predicate Explained(cs: seq<Config>, h: Json -> string, s0: State, steps: seq<Step>, n: nat, id: nat)
    requires n <= |steps|
  {
    var s := Upto(cs, h, s0, steps, n);
    id in s.calls ==>
      && var call := s.calls[id];
      && call.verifier < |cs|
      && (exists b :: 0 <= b < n && steps[b] == Begin(id, call.verifier, call.request))
      && (HasReady(call) ==> Precheck(cs[call.verifier], call.request) == Success(ReadyOf(call)))
      && (call.pc.AtFinish? ==> Granted(cs, h, s0, steps, n, id, cs[call.verifier].protector, call.pc.effect))
      && (call.pc.Done? ==> Caused(cs, h, s0, steps, n, id, cs[call.verifier], call))
  }

  // ------------------------------------------------------------ one step more

  /** What one step does to a call: nothing, or what it found accounts for it. */
  ghost predicate Moved(cs: seq<Config>, h: Json -> string, s: State, step: Step, id: nat, call: Call) {
    if id !in s.calls then
      && step == Begin(id, call.verifier, call.request) && call.verifier < |cs|
      && match Precheck(cs[call.verifier], call.request)
         case Success(ready) => call.pc == AtClaim(ready)
         case Failure(code) => call.pc == Done(Checking, None, Refused(code))
    else if call == s.calls[id] then true
    else
      var before := s.calls[id];
      && call.verifier == before.verifier < |cs| && call.request == before.request
      && HasReady(before) && HasReady(call) && ReadyOf(call) == ReadyOf(before)
      && match call.pc
         case AtFinish(_, effect) =>
           && before.pc.AtEffect?
           && if cs[call.verifier].protector
              then effect.Some? && Answered(s, step, id, Success(effect.value))
              else effect.None?
         case Done(SingleUse, _, outcome) => outcome.Refused? && DeniedUse(cs, h, s, step, id, outcome.code)
         case Done(EffectClaim, _, outcome) =>
           cs[call.verifier].protector && outcome.Refused? && Answered(s, step, id, Failure(outcome.code))
         case Done(Finishing, was, outcome) =>
           && before.pc.AtFinish?
           && outcome ==
              (if RequestFits(cs[call.verifier], was.value, call.request)
               then Valid(was.value.proof.pccbId, before.pc.effect,
                          h(RequestJson(was.value.proof, was.value.intent, call.request).value))
               else Refused("OUTCOME_UNKNOWN"))
         case Done(Checking, _, _) => false
         case _ => true
  }

  lemma StepMoves(cs: seq<Config>, h: Json -> string, s: State, step: Step, id: nat)
    requires id in Next(cs, h, s, step).calls
    ensures Moved(cs, h, s, step, id, Next(cs, h, s, step).calls[id])
  {
    hide StepBegin, StepClaim, StepLook, StepConsume, StepEffect, StepFinish, StepStore, StepOtherConsume, Moved;
    match step
    case Begin(i, v, q) => BeginMoves(cs, h, s, i, v, q, id);
    case Claim(i, fault) => ClaimMoves(cs, h, s, i, fault, id);
    case Look(i, fault) => LookMoves(cs, h, s, i, fault, id);
    case Consume(i, fault) => ConsumeMoves(cs, h, s, i, fault, id);
    case Effect(i, claimed) => EffectMoves(cs, h, s, i, claimed, id);
    case Finish(i) => FinishMoves(cs, h, s, i, id);
    case _ => StoreMoves(cs, h, s, step, id);
  }

  lemma BeginMoves(cs: seq<Config>, h: Json -> string, s: State, i: nat, v: nat, q: Request, id: nat)
    requires id in StepBegin(cs, s, i, v, q).calls
    ensures Moved(cs, h, s, Begin(i, v, q), id, StepBegin(cs, s, i, v, q).calls[id])
  {
    hide Precheck;
  }

  lemma LookMoves(cs: seq<Config>, h: Json -> string, s: State, i: nat, fault: Fault, id: nat)
    requires id in StepLook(cs, h, s, i, fault).calls
    ensures Moved(cs, h, s, Look(i, fault), id, StepLook(cs, h, s, i, fault).calls[id])
  {
    hide Precheck, Key, RS.AfterInspect;
  }

  lemma EffectMoves(cs: seq<Config>, h: Json -> string, s: State, i: nat, claimed: Result<Dict, string>, id: nat)
    requires id in StepEffect(cs, s, i, claimed).calls
    ensures Moved(cs, h, s, Effect(i, claimed), id, StepEffect(cs, s, i, claimed).calls[id])
  {
    hide Precheck, DeniedUse;
  }

  lemma FinishMoves(cs: seq<Config>, h: Json -> string, s: State, i: nat, id: nat)
    requires id in StepFinish(cs, h, s, i).calls
    ensures Moved(cs, h, s, Finish(i), id, StepFinish(cs, h, s, i).calls[id])
  {
    hide Precheck, RequestJson, RequestFits, DeniedUse;
  }

  lemma StoreMoves(cs: seq<Config>, h: Json -> string, s: State, step: Step, id: nat)
    requires (step.Store? || step.OtherConsume?) && id in Next(cs, h, s, step).calls
    ensures Moved(cs, h, s, step, id, Next(cs, h, s, step).calls[id])
  {
    hide Precheck, RS.Apply, RS.AfterConsume, DeniedUse;
  }

  lemma ConsumeMoves(cs: seq<Config>, h: Json -> string, s: State, i: nat, fault: Fault, id: nat)
    requires id in StepConsume(cs, h, s, i, fault).calls
    ensures Moved(cs, h, s, Consume(i, fault), id, StepConsume(cs, h, s, i, fault).calls[id])
  {
    hide Precheck, Key, RequestJson, RequestFits, RS.AfterConsume, RS.Claimable;
  }

  lemma ClaimMoves(cs: seq<Config>, h: Json -> string, s: State, i: nat, fault: Fault, id: nat)
    requires id in StepClaim(cs, h, s, i, fault).calls
    ensures Moved(cs, h, s, Claim(i, fault), id, StepClaim(cs, h, s, i, fault).calls[id])
  {
    hide Precheck, Key, RequestJson, RequestFits, RS.AfterClaim, RS.ClaimCommits, RS.Claimable;
    if id in s.calls && HasReady(s.calls[id]) && s.calls[id].verifier < |cs| {
      var ready := ReadyOf(s.calls[id]);
      RS.ClaimCommitsIff(s.rows, Key(cs[s.calls[id].verifier], h, ready), ready.now);
    }
  }

  lemma GrantedLater(cs: seq<Config>, h: Json -> string, s0: State, steps: seq<Step>, n: nat, id: nat,
                     protector: bool, effect: Option<Dict>)
    requires n < |steps| && Granted(cs, h, s0, steps, n, id, protector, effect)
    ensures Granted(cs, h, s0, steps, n + 1, id, protector, effect)
  {
    hide Upto, Answered;
  }

  lemma CausedLater(cs: seq<Config>, h: Json -> string, s0: State, steps: seq<Step>, n: nat, id: nat, c: Config,
                    call: Call)
    requires n < |steps| && call.pc.Done? && Caused(cs, h, s0, steps, n, id, c, call)
    ensures Caused(cs, h, s0, steps, n + 1, id, c, call)
  {
    hide Upto, Answered, DeniedUse, Precheck, RequestFits, RequestJson, Granted;
    var protector := c.protector;
    forall effect | Granted(cs, h, s0, steps, n, id, protector, effect)
      ensures Granted(cs, h, s0, steps, n + 1, id, protector, effect)
    {
      GrantedLater(cs, h, s0, steps, n, id, protector, effect);
    }
  }

  lemma ExplainedStep(cs: seq<Config>, h: Json -> string, s0: State, steps: seq<Step>, n: nat, id: nat)
    requires n < |steps| && Explained(cs, h, s0, steps, n, id)
    ensures Explained(cs, h, s0, steps, n + 1, id)
  {
    hide Upto, Next, Answered, DeniedUse, Precheck, RequestFits, RequestJson, Caused, Granted, Moved;
    var s, s' := Upto(cs, h, s0, steps, n), Upto(cs, h, s0, steps, n + 1);
    UptoStep(cs, h, s0, steps, n);
    if id in s'.calls {
      StepMoves(cs, h, s, steps[n], id);
      MovedExplained(cs, h, s0, steps, n, id, s'.calls[id]);
    }
  }

  lemma MovedExplained(cs: seq<Config>, h: Json -> string, s0: State, steps: seq<Step>, n: nat, id: nat, call: Call)
    requires n < |steps| && Explained(cs, h, s0, steps, n, id)
    requires Moved(cs, h, Upto(cs, h, s0, steps, n), steps[n], id, call)
    requires var s' := Upto(cs, h, s0, steps, n + 1); id in s'.calls && s'.calls[id] == call
    ensures Explained(cs, h, s0, steps, n + 1, id)
  {
    hide Upto, Next, Answered, DeniedUse, Precheck, RequestFits, RequestJson;
    var s := Upto(cs, h, s0, steps, n);
    if id !in s.calls {
    } else if call == s.calls[id] {
      if call.pc.Done? {
        CausedLater(cs, h, s0, steps, n, id, cs[call.verifier], call);
      }
    } else if s.calls[id].pc.AtFinish? {
      GrantedLater(cs, h, s0, steps, n, id, cs[call.verifier].protector, s.calls[id].pc.effect);
    }
  }

  lemma {:induction false} AlwaysExplained(cs: seq<Config>, h: Json -> string, s0: State, steps: seq<Step>, n: nat,
                                           id: nat)
    requires s0.calls == map[] && n <= |steps|
    ensures Explained(cs, h, s0, steps, n, id)
  {
    hide Explained;
    if n == 0 {
      NothingToExplain(cs, h, s0, steps, id);
    } else {
      AlwaysExplained(cs, h, s0, steps, n - 1, id);
      ExplainedStep(cs, h, s0, steps, n - 1, id);
    }
  }

  lemma NothingToExplain(cs: seq<Config>, h: Json -> string, s0: State, steps: seq<Step>, id: nat)
    requires s0.calls == map[]
    ensures Explained(cs, h, s0, steps, 0, id)
  {
  }

  // --------------------------------------------------------------- every run

  /** In every run that starts without calls, every result has its cause. */
  lemma EveryResultCaused(cs: seq<Config>, h: Json -> string, s0: State, steps: seq<Step>, id: nat)
    requires s0.calls == map[]
    ensures var calls := Run(cs, h, s0, steps).calls;
            id in calls && calls[id].pc.Done? ==>
              && calls[id].verifier < |cs|
              && (exists b :: 0 <= b < |steps| && steps[b] == Begin(id, calls[id].verifier, calls[id].request))
              && Caused(cs, h, s0, steps, |steps|, id, cs[calls[id].verifier], calls[id])
  {
    hide Run, Caused;
    AlwaysExplained(cs, h, s0, steps, |steps|, id);
    assert steps[..|steps|] == steps;
  }

  /** In every run, a valid call of a verifier with a protector carries the reference that the
      protector granted to that call; without a protector it carries none. */
  lemma ValidCarriesGrant(cs: seq<Config>, h: Json -> string, s0: State, steps: seq<Step>, id: nat)
    requires s0.calls == map[]
    requires var calls := Run(cs, h, s0, steps).calls; id in calls && IsValid(calls[id])
    ensures var call := Run(cs, h, s0, steps).calls[id];
            && call.verifier < |cs|
            && if cs[call.verifier].protector
               then && call.pc.outcome.effect.Some?
                    && exists k :: && 0 <= k < |steps|
                                   && Answered(Upto(cs, h, s0, steps, k), steps[k], id,
                                               Success(call.pc.outcome.effect.value))
               else call.pc.outcome.effect.None?
  {
    hide Run, Upto, Answered, Precheck, RequestFits, RequestJson, DeniedUse;
    EveryResultCaused(cs, h, s0, steps, id);
  }
}
