/** The exact account of the keys a verifier tracks, over every run. */
module BoundaryAccounting {
  import opened Wrappers
  import opened CanonicalJson
  import opened Dicts
  import opened BoundaryChecks
  import opened BoundaryMachine
  import opened BoundarySafety
  import RS = ReplayStore

  // ------------------------------------------------ who the keys belong to

  predicate EffectRefused(call: Call) { call.pc.Done? && call.pc.stage == EffectClaim }

  /** The receipt hash failed after the key was taken. */
  predicate Unknown(call: Call) { call.pc.Done? && call.pc.stage == Finishing && call.pc.outcome.Refused? }

  /** The call holds its key and has not returned. */
  predicate Pending(call: Call) { call.pc.AtEffect? || call.pc.AtFinish? }

  function SpentBy(s: State, v: nat): set<nat> {
    set id | id in s.calls && s.calls[id].verifier == v && Spent(s.calls[id])
  }

  function ValidBy(s: State, v: nat): set<nat> {
    set id | id in s.calls && s.calls[id].verifier == v && IsValid(s.calls[id])
  }

  function EffectRefusedBy(s: State, v: nat): set<nat> {
    set id | id in s.calls && s.calls[id].verifier == v && EffectRefused(s.calls[id])
  }

  function UnknownBy(s: State, v: nat): set<nat> {
    set id | id in s.calls && s.calls[id].verifier == v && Unknown(s.calls[id])
  }

  function PendingBy(s: State, v: nat): set<nat> {
    set id | id in s.calls && s.calls[id].verifier == v && Pending(s.calls[id])
  }

  /** An injective image has as many elements as its domain. */
  lemma {:induction false} ImageSize(ids: set<nat>, key: map<nat, string>, keys: set<string>)
    requires ids <= key.Keys
    requires forall a, b :: a in ids && b in ids && key[a] == key[b] ==> a == b
    requires forall k :: k in keys <==> exists id :: id in ids && key[id] == k
    ensures |keys| == |ids|
    decreases ids
  {
    if ids == {} {
      assert keys == {};
    } else {
      var a :| a in ids;
      var rest, fewer := ids - {a}, keys - {key[a]};
      assert key[a] in keys;
      forall k ensures k in fewer <==> exists id :: id in rest && key[id] == k {
        if k in fewer {
          var id :| id in ids && key[id] == k;
          assert id in rest;
        }
        if id :| id in rest && key[id] == k {
          assert k in keys;
        }
      }
      ImageSize(rest, key, fewer);
      assert keys == fewer + {key[a]} && ids == rest + {a};
    }
  }

  /** A verifier tracks as many keys as it has calls holding one; with a store, none. */
  lemma TrackedIsSpent(cs: seq<Config>, h: Json -> string, s: State, v: nat)
    requires Inv(cs, h, s) && v < |cs|
    ensures |s.memory[v]| == if cs[v].durable then 0 else |SpentBy(s, v)|
  {
    hide Precheck, Key;
    assert forall k :: k in s.memory[v] ==> KeyHeld(cs, h, s, v, k);
    if cs[v].durable {
      assert s.memory[v] == {};
    } else {
      var ids := SpentBy(s, v);
      var key := map id | id in ids :: CallKey(cs, h, s.calls[id]);
      forall k ensures k in s.memory[v] <==> exists id :: id in ids && key[id] == k {
        if k in s.memory[v] {
          assert KeyHeld(cs, h, s, v, k);
          var id :| id in s.calls && HoldsIn(cs, h, s.calls[id], v, k);
          assert id in ids && key[id] == k;
        }
        if id :| id in ids && key[id] == k {
          assert Recorded(cs, h, s, s.calls[id]);
        }
      }
      ImageSize(ids, key, s.memory[v]);
    }
  }

  lemma SizeOfFour(a: set<nat>, b: set<nat>, c: set<nat>, d: set<nat>)
    requires a !! b && a + b !! c && a + b + c !! d
    ensures |a + b + c + d| == |a| + |b| + |c| + |d|
  {
  }

  lemma Classified(cs: seq<Config>, call: Call)
    requires CallOk(cs, call)
    ensures Spent(call) <==> IsValid(call) || EffectRefused(call) || Unknown(call) || Pending(call)
    ensures !(IsValid(call) && EffectRefused(call)) && !(Unknown(call) && (IsValid(call) || EffectRefused(call)))
    ensures Pending(call) ==> !IsValid(call) && !EffectRefused(call) && !Unknown(call)
  {
  }

  lemma SpentPartition(cs: seq<Config>, h: Json -> string, s: State, v: nat)
    requires Inv(cs, h, s)
    ensures |SpentBy(s, v)| == |ValidBy(s, v)| + |EffectRefusedBy(s, v)| + |UnknownBy(s, v)| + |PendingBy(s, v)|
  {
    hide Inv, CallOk, Spent, IsValid, EffectRefused, Unknown, Pending;
    forall id | id in s.calls ensures CallOk(cs, s.calls[id]) { InvCall(cs, h, s, id); }
    forall id | id in s.calls { Classified(cs, s.calls[id]); }
    SizeOfFour(ValidBy(s, v), EffectRefusedBy(s, v), UnknownBy(s, v), PendingBy(s, v));
    assert SpentBy(s, v) == ValidBy(s, v) + EffectRefusedBy(s, v) + UnknownBy(s, v) + PendingBy(s, v);
  }

  /** After any run, `replay_keys_tracked` of an in-memory verifier counts its valid
      results, its calls refused at the effect claim, its calls whose receipt hash failed
      and its calls still past the claim. */
  lemma ExactAccount(cs: seq<Config>, h: Json -> string, steps: seq<Step>, v: nat)
    requires v < |cs| && !cs[v].durable
    ensures var s := Run(cs, h, Initial(cs), steps);
            && |s.memory| == |cs|
            && |s.memory[v]| == |ValidBy(s, v)| + |EffectRefusedBy(s, v)| + |UnknownBy(s, v)| + |PendingBy(s, v)|
  {
    hide Run;
    ReachableInv(cs, h, steps);
    var s := Run(cs, h, Initial(cs), steps);
    TrackedIsSpent(cs, h, s, v);
    SpentPartition(cs, h, s, v);
  }

  /** The call got past the effect claim. */
  predicate PastEffect(call: Call) { call.pc.AtFinish? || (call.pc.Done? && call.pc.stage == Finishing) }

  /** Every call of `v` past the effect claim has a request that the receipt hash takes. */
  ghost predicate RequestsFit(cs: seq<Config>, s: State, v: nat) {
    forall id :: (id in s.calls && s.calls[id].verifier == v < |cs| && PastEffect(s.calls[id])
                  && HasReady(s.calls[id])) ==> RequestFits(cs[v], ReadyOf(s.calls[id]), s.calls[id].request)
  }

  /** Once every call has returned, tracked keys are valid results plus effect refusals
      exactly when every request that got past the effect claim has a canonical form within
      the limits of its receipt hash. */
  lemma TwoTermAccountIff(cs: seq<Config>, h: Json -> string, steps: seq<Step>, v: nat)
    requires v < |cs| && !cs[v].durable
    requires PendingBy(Run(cs, h, Initial(cs), steps), v) == {}
    ensures var s := Run(cs, h, Initial(cs), steps);
            && |s.memory| == |cs|
            && (|s.memory[v]| == |ValidBy(s, v)| + |EffectRefusedBy(s, v)| <==> RequestsFit(cs, s, v))
  {
    hide Run;
    ExactAccount(cs, h, steps, v);
    ReachableInv(cs, h, steps);
    UnknownIff(cs, h, Run(cs, h, Initial(cs), steps), v);
  }

  lemma UnknownIff(cs: seq<Config>, h: Json -> string, s: State, v: nat)
    requires Inv(cs, h, s) && v < |cs| && PendingBy(s, v) == {}
    ensures UnknownBy(s, v) == {} <==> RequestsFit(cs, s, v)
  {
    hide Inv, CallOk, PastEffect, Unknown, RequestFits;
    forall id | id in s.calls && s.calls[id].verifier == v
      ensures HasReady(s.calls[id]) && PastEffect(s.calls[id]) ==>
                (Unknown(s.calls[id]) <==> !RequestFits(cs[v], ReadyOf(s.calls[id]), s.calls[id].request))
      ensures Unknown(s.calls[id]) ==> HasReady(s.calls[id]) && PastEffect(s.calls[id])
    {
      InvCall(cs, h, s, id);
      assert id !in PendingBy(s, v);
      UnknownDoesNotFit(cs, s.calls[id]);
    }
    if UnknownBy(s, v) != {} {
      var id :| id in UnknownBy(s, v);
    }
    if !RequestsFit(cs, s, v) {
      var id :| id in s.calls && s.calls[id].verifier == v && PastEffect(s.calls[id]) && HasReady(s.calls[id])
                && !RequestFits(cs[v], ReadyOf(s.calls[id]), s.calls[id].request);
      assert id in UnknownBy(s, v);
    }
  }

  lemma UnknownDoesNotFit(cs: seq<Config>, call: Call)
    requires CallOk(cs, call) && !Pending(call)
    ensures Unknown(call) ==> HasReady(call) && PastEffect(call)
    ensures HasReady(call) && PastEffect(call) ==>
              (Unknown(call) <==> !RequestFits(cs[call.verifier], ReadyOf(call), call.request))
  {
    hide Precheck, RequestFits;
  }

  // ----------------------------------------------- calls refused by checks

  /** The call a step belongs to, if any. */
  function Owner(step: Step): Option<nat> {
    match step
    case Begin(id, _, _) => Some(id)
    case Claim(id, _) => Some(id)
    case Look(id, _) => Some(id)
    case Consume(id, _) => Some(id)
    case Effect(id, _) => Some(id)
    case Finish(id) => Some(id)
    case Store(_) => None
    case OtherConsume(_, _) => None
  }

  function Without(steps: seq<Step>, id: nat): seq<Step> {
    if steps == [] then []
    else if Owner(steps[0]) == Some(id) then Without(steps[1..], id)
    else [steps[0]] + Without(steps[1..], id)
  }

  /** Every request started as call `id` fails its checks. */
  ghost predicate Hopeless(cs: seq<Config>, step: Step, id: nat) {
    step.Begin? && step.id == id && step.verifier < |cs| ==> Precheck(cs[step.verifier], step.request).Failure?
  }

  /** The state as if call `id` had never been made. */
  function Forget(s: State, id: nat): State { s.(calls := s.calls - {id}) }

  ghost predicate Settled(s: State, id: nat) { id in s.calls ==> s.calls[id].pc.Done? }

  lemma OwnStepInvisible(cs: seq<Config>, h: Json -> string, s: State, step: Step, id: nat)
    requires Settled(s, id) && Hopeless(cs, step, id) && Owner(step) == Some(id)
    ensures Settled(Next(cs, h, s, step), id) && Forget(Next(cs, h, s, step), id) == Forget(s, id)
  {
    hide Precheck, Key;
    assert Next(cs, h, s, step) == s || (step.Begin? && id !in s.calls);
    if step.Begin? && id !in s.calls {
      assert Forget(Next(cs, h, s, step), id).calls == s.calls - {id};
    }
  }

  lemma BeginBlind(cs: seq<Config>, s: State, i: nat, v: nat, q: Request, id: nat)
    requires i != id
    ensures Forget(StepBegin(cs, s, i, v, q), id) == StepBegin(cs, Forget(s, id), i, v, q)
  {
    hide Precheck;
    assert Forget(StepBegin(cs, s, i, v, q), id).calls == StepBegin(cs, Forget(s, id), i, v, q).calls;
  }

  lemma ClaimBlind(cs: seq<Config>, h: Json -> string, s: State, i: nat, fault: Fault, id: nat)
    requires i != id
    ensures Forget(StepClaim(cs, h, s, i, fault), id) == StepClaim(cs, h, Forget(s, id), i, fault)
  {
    hide Key, RS.AfterClaim, RS.ClaimCommits;
    if i in s.calls {
      assert Forget(s, id).calls[i] == s.calls[i];
    }
    assert Forget(StepClaim(cs, h, s, i, fault), id).calls == StepClaim(cs, h, Forget(s, id), i, fault).calls;
  }

  lemma LookBlind(cs: seq<Config>, h: Json -> string, s: State, i: nat, fault: Fault, id: nat)
    requires i != id
    ensures Forget(StepLook(cs, h, s, i, fault), id) == StepLook(cs, h, Forget(s, id), i, fault)
  {
    hide Key, RS.AfterInspect;
    assert Forget(StepLook(cs, h, s, i, fault), id).calls == StepLook(cs, h, Forget(s, id), i, fault).calls;
  }

  lemma ConsumeBlind(cs: seq<Config>, h: Json -> string, s: State, i: nat, fault: Fault, id: nat)
    requires i != id
    ensures Forget(StepConsume(cs, h, s, i, fault), id) == StepConsume(cs, h, Forget(s, id), i, fault)
  {
    hide Key, RS.AfterConsume, RS.ConsumeCommits;
    assert Forget(StepConsume(cs, h, s, i, fault), id).calls == StepConsume(cs, h, Forget(s, id), i, fault).calls;
  }

  lemma EffectBlind(cs: seq<Config>, s: State, i: nat, claimed: Result<Dict, string>, id: nat)
    requires i != id
    ensures Forget(StepEffect(cs, s, i, claimed), id) == StepEffect(cs, Forget(s, id), i, claimed)
  {
    assert Forget(StepEffect(cs, s, i, claimed), id).calls == StepEffect(cs, Forget(s, id), i, claimed).calls;
  }

  lemma FinishBlind(cs: seq<Config>, h: Json -> string, s: State, i: nat, id: nat)
    requires i != id
    ensures Forget(StepFinish(cs, h, s, i), id) == StepFinish(cs, h, Forget(s, id), i)
  {
    hide RequestJson, RequestFits;
    assert Forget(StepFinish(cs, h, s, i), id).calls == StepFinish(cs, h, Forget(s, id), i).calls;
  }

  lemma OtherStepBlind(cs: seq<Config>, h: Json -> string, s: State, step: Step, id: nat)
    requires Owner(step) != Some(id)
    ensures Forget(Next(cs, h, s, step), id) == Next(cs, h, Forget(s, id), step)
  {
    hide StepBegin, StepClaim, StepLook, StepConsume, StepEffect, StepFinish, RS.Apply;
    match step
    case Begin(i, v, q) => BeginBlind(cs, s, i, v, q, id);
    case Claim(i, fault) => ClaimBlind(cs, h, s, i, fault, id);
    case Look(i, fault) => LookBlind(cs, h, s, i, fault, id);
    case Consume(i, fault) => ConsumeBlind(cs, h, s, i, fault, id);
    case Effect(i, claimed) => EffectBlind(cs, s, i, claimed, id);
    case Finish(i) => FinishBlind(cs, h, s, i, id);
    case Store(_) =>
    case OtherConsume(_, _) =>
  }

  lemma OtherStepSettled(cs: seq<Config>, h: Json -> string, s: State, step: Step, id: nat)
    requires Owner(step) != Some(id) && Settled(s, id)
    ensures Settled(Next(cs, h, s, step), id)
  {
    hide Precheck, Key, RS.AfterClaim, RS.ClaimCommits, RS.AfterConsume, RS.ConsumeCommits, RequestJson, RS.Apply;
  }

  /** A call refused by its checks leaves no trace: the run without it has the same key
      sets, the same store and the same results for everybody else. */
  lemma {:induction false} RefusedCallInvisible(cs: seq<Config>, h: Json -> string, s: State, steps: seq<Step>, id: nat)
    requires Settled(s, id) && forall i :: 0 <= i < |steps| ==> Hopeless(cs, steps[i], id)
    ensures Forget(Run(cs, h, s, steps), id) == Run(cs, h, Forget(s, id), Without(steps, id))
    decreases |steps|
  {
    hide Precheck, Next;
    if steps != [] {
      var next := Next(cs, h, s, steps[0]);
      assert Hopeless(cs, steps[0], id);
      if Owner(steps[0]) == Some(id) {
        OwnStepInvisible(cs, h, s, steps[0], id);
      } else {
        OtherStepBlind(cs, h, s, steps[0], id);
        OtherStepSettled(cs, h, s, steps[0], id);
        var kept := [steps[0]] + Without(steps[1..], id);
        assert kept[0] == steps[0] && kept[1..] == Without(steps[1..], id);
      }
      RefusedCallInvisible(cs, h, next, steps[1..], id);
    }
  }
}
