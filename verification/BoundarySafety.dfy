/** What every interleaving of boundary verifications keeps, and what follows for whole
    runs: one valid result for each proof, and an exact account of the key sets. */
module BoundarySafety {
  import opened Wrappers
  import opened CanonicalJson
  import opened Dicts
  import opened BoundaryChecks
  import opened BoundaryMachine
  import RS = ReplayStore

  // ------------------------------------------------------ kinds of change

  /** No consumed row is lost. */
  ghost predicate Kept(rows: RS.Table, rows': RS.Table) {
    forall k :: k in rows && rows[k].status == RS.Consumed ==> k in rows' && rows'[k].status == RS.Consumed
  }

  /** Call `id` becomes `call` without gaining or losing its single use. */
  ghost predicate Moves(cs: seq<Config>, s: State, s': State, id: nat, call: Call) {
    && s'.memory == s.memory && s'.others == s.others && Kept(s.rows, s'.rows)
    && s'.calls == s.calls[id := call] && CallOk(cs, call)
    && (id !in s.calls ==> !Spent(call))
    && (id in s.calls ==> Spent(call) == Spent(s.calls[id]))
    && (id in s.calls && Spent(call) && CallOk(cs, s.calls[id]) ==>
          call.verifier == s.calls[id].verifier && ReadyOf(call) == ReadyOf(s.calls[id]))
  }

  lemma MoveKeepsHeld(cs: seq<Config>, h: Json -> string, s: State, s': State, id: nat, call: Call)
    requires CallsOk(cs, s) && CallsOk(cs, s') && MemoryHeld(cs, h, s) && Moves(cs, s, s', id, call)
    ensures MemoryHeld(cs, h, s')
  {
    hide Precheck, Key, Spent;
    forall v, k | 0 <= v < |cs| && k in s'.memory[v] ensures KeyHeld(cs, h, s', v, k) {
      assert KeyHeld(cs, h, s, v, k);
      var holder :| holder in s.calls && HoldsIn(cs, h, s.calls[holder], v, k);
      assert HoldsIn(cs, h, s'.calls[holder], v, k);
    }
  }

  lemma MoveKeepsDistinct(cs: seq<Config>, h: Json -> string, s: State, s': State, id: nat, call: Call)
    requires CallsOk(cs, s) && CallsOk(cs, s') && KeysDistinct(cs, h, s) && Moves(cs, s, s', id, call)
    ensures KeysDistinct(cs, h, s')
  {
    hide Precheck, Key, Spent, ReadyOf;
  }

  lemma MoveKeepsInv(cs: seq<Config>, h: Json -> string, s: State, s': State, id: nat, call: Call)
    requires Inv(cs, h, s) && Moves(cs, s, s', id, call)
    ensures Inv(cs, h, s')
  {
    hide Precheck, Key, Spent, ReadyOf, KeysDistinct, MemoryHeld, KeyHeld, CallOk;
    MoveKeepsHeld(cs, h, s, s', id, call);
    MoveKeepsDistinct(cs, h, s, s', id, call);
    assert AllRecorded(cs, h, s') by { MoveKeepsRecorded(cs, h, s, s', id, call); }
  }

  lemma MoveKeepsRecorded(cs: seq<Config>, h: Json -> string, s: State, s': State, id: nat, call: Call)
    requires CallsOk(cs, s) && CallsOk(cs, s') && AllRecorded(cs, h, s) && Moves(cs, s, s', id, call)
    ensures AllRecorded(cs, h, s')
  {
    hide Precheck, Key, Spent, ReadyOf;
  }

  /** Call `id` becomes `call` and takes its key, which nobody in its scope held. */
  ghost predicate Spends(cs: seq<Config>, h: Json -> string, s: State, s': State, id: nat, call: Call) {
    && |s.memory| == |cs| && s'.others == s.others
    && id in s.calls && !Spent(s.calls[id]) && Spent(call)
    && s'.calls == s.calls[id := call] && CallOk(cs, call)
    && var v, key := call.verifier, CallKey(cs, h, call);
       if cs[v].durable then
         && s'.memory == s.memory && Kept(s.rows, s'.rows)
         && !(key in s.rows && s.rows[key].status == RS.Consumed)
         && key in s'.rows && s'.rows[key].status == RS.Consumed
       else
         && s'.rows == s.rows && key !in s.memory[v] && s'.memory == s.memory[v := s.memory[v] + {key}]
  }

  lemma SpendKeepsDistinct(cs: seq<Config>, h: Json -> string, s: State, s': State, id: nat, call: Call)
    requires Inv(cs, h, s) && CallsOk(cs, s') && Spends(cs, h, s, s', id, call)
    ensures KeysDistinct(cs, h, s')
  {
    hide Precheck, Key, Spent, ReadyOf, MemoryHeld;
    forall a | a in s.calls && a != id && Spent(s.calls[a])
               && (SameScope(cs, s.calls[a], call) || SameScope(cs, call, s.calls[a]))
      ensures CallKey(cs, h, s.calls[a]) != CallKey(cs, h, call)
    {
      assert Recorded(cs, h, s, s.calls[a]);
    }
  }

  lemma SpendKeepsHeld(cs: seq<Config>, h: Json -> string, s: State, s': State, id: nat, call: Call)
    requires CallsOk(cs, s) && CallsOk(cs, s') && MemoryHeld(cs, h, s) && Spends(cs, h, s, s', id, call)
    ensures MemoryHeld(cs, h, s')
  {
    hide Precheck, Key, Spent, ReadyOf;
    forall v, k | 0 <= v < |cs| && k in s'.memory[v] ensures KeyHeld(cs, h, s', v, k) {
      if k in s.memory[v] {
        assert KeyHeld(cs, h, s, v, k);
        var holder :| holder in s.calls && HoldsIn(cs, h, s.calls[holder], v, k);
        assert HoldsIn(cs, h, s'.calls[holder], v, k);
      } else {
        assert HoldsIn(cs, h, s'.calls[id], v, k);
      }
    }
  }

  lemma SpendKeepsInv(cs: seq<Config>, h: Json -> string, s: State, s': State, id: nat, call: Call)
    requires Inv(cs, h, s) && Spends(cs, h, s, s', id, call)
    ensures Inv(cs, h, s')
  {
    hide Precheck, Key, Spent, ReadyOf, KeysDistinct, MemoryHeld, AllRecorded;
    SpendKeepsDistinct(cs, h, s, s', id, call);
    SpendKeepsHeld(cs, h, s, s', id, call);
    SpendKeepsRecorded(cs, h, s, s', id, call);
  }

  lemma SpendKeepsRecorded(cs: seq<Config>, h: Json -> string, s: State, s': State, id: nat, call: Call)
    requires Inv(cs, h, s) && CallsOk(cs, s') && Spends(cs, h, s, s', id, call)
    ensures AllRecorded(cs, h, s')
  {
    hide Precheck, Key, Spent, ReadyOf, KeysDistinct, MemoryHeld;
  }

  // ----------------------------------------------------------- every step

  lemma ClaimKept(rows: RS.Table, key: string, expiresAt: int, now: int)
    ensures Kept(rows, RS.AfterClaim(rows, key, expiresAt, now))
  {
  }

  lemma ConsumeKept(rows: RS.Table, key: string, now: int)
    ensures Kept(rows, RS.AfterConsume(rows, key, now))
  {
  }

  lemma BeginKeepsInv(cs: seq<Config>, h: Json -> string, s: State, id: nat, v: nat, q: Request)
    requires Inv(cs, h, s)
    ensures Inv(cs, h, StepBegin(cs, s, id, v, q))
  {
    hide Precheck, Key, Inv;
    var s' := StepBegin(cs, s, id, v, q);
    if s' != s {
      MoveKeepsInv(cs, h, s, s', id, s'.calls[id]);
    }
  }

  lemma ClaimKeepsInv(cs: seq<Config>, h: Json -> string, s: State, id: nat, fault: Fault)
    requires Inv(cs, h, s)
    ensures Inv(cs, h, StepClaim(cs, h, s, id, fault))
  {
    hide Precheck, Key, Inv, RS.AfterClaim, RS.ClaimCommits, Kept;
    var s' := StepClaim(cs, h, s, id, fault);
    if s' != s {
      var call := s.calls[id];
      InvCall(cs, h, s, id);
      var key := Key(cs[call.verifier], h, call.pc.ready);
      ClaimKept(s.rows, key, call.pc.ready.proof.expiresAt, call.pc.ready.now);
      KeptSame(s.rows);
      if Spent(s'.calls[id]) {
        SpendKeepsInv(cs, h, s, s', id, s'.calls[id]);
      } else {
        MoveKeepsInv(cs, h, s, s', id, s'.calls[id]);
      }
    }
  }

  lemma KeptSame(rows: RS.Table)
    ensures Kept(rows, rows)
  {
  }

  lemma InvCall(cs: seq<Config>, h: Json -> string, s: State, id: nat)
    requires Inv(cs, h, s) && id in s.calls
    ensures CallOk(cs, s.calls[id]) && |s.memory| == |cs|
  {
  }

  lemma ConsumeKeepsInv(cs: seq<Config>, h: Json -> string, s: State, id: nat, fault: Fault)
    requires Inv(cs, h, s)
    ensures Inv(cs, h, StepConsume(cs, h, s, id, fault))
  {
    hide Precheck, Key, Inv, Kept;
    var s' := StepConsume(cs, h, s, id, fault);
    if s' != s {
      var call := s.calls[id];
      InvCall(cs, h, s, id);
      var key := Key(cs[call.verifier], h, call.pc.ready);
      ConsumeKept(s.rows, key, call.pc.ready.now);
      KeptSame(s.rows);
      if Spent(s'.calls[id]) {
        SpendKeepsInv(cs, h, s, s', id, s'.calls[id]);
      } else {
        MoveKeepsInv(cs, h, s, s', id, s'.calls[id]);
      }
    }
  }

  lemma LookKept(rows: RS.Table, key: string, now: int)
    ensures Kept(rows, RS.AfterInspect(rows, key, now))
  {
  }

  lemma LookKeepsInv(cs: seq<Config>, h: Json -> string, s: State, id: nat, fault: Fault)
    requires Inv(cs, h, s)
    ensures Inv(cs, h, StepLook(cs, h, s, id, fault))
  {
    hide Precheck, Key, Inv, Kept, RS.AfterInspect;
    var s' := StepLook(cs, h, s, id, fault);
    if s' != s {
      var call := s.calls[id];
      InvCall(cs, h, s, id);
      LookKept(s.rows, Key(cs[call.verifier], h, call.pc.ready), call.pc.ready.now);
      KeptSame(s.rows);
      MoveKeepsInv(cs, h, s, s', id, s'.calls[id]);
    }
  }

  lemma EffectKeepsInv(cs: seq<Config>, h: Json -> string, s: State, id: nat, claimed: Result<Dict, string>)
    requires Inv(cs, h, s)
    ensures Inv(cs, h, StepEffect(cs, s, id, claimed))
  {
    hide Precheck, Key, Inv, Kept;
    var s' := StepEffect(cs, s, id, claimed);
    if s' != s {
      InvCall(cs, h, s, id);
      KeptSame(s.rows);
      MoveKeepsInv(cs, h, s, s', id, s'.calls[id]);
    }
  }

  lemma FinishKeepsInv(cs: seq<Config>, h: Json -> string, s: State, id: nat)
    requires Inv(cs, h, s)
    ensures Inv(cs, h, StepFinish(cs, h, s, id))
  {
    hide Precheck, Key, Inv, Kept, RequestJson;
    var s' := StepFinish(cs, h, s, id);
    if s' != s {
      InvCall(cs, h, s, id);
      KeptSame(s.rows);
      MoveKeepsInv(cs, h, s, s', id, s'.calls[id]);
    }
  }

  /** Other clients of the store: consumed rows stay, and what they consume was not consumed. */
  lemma RowsKeepInv(cs: seq<Config>, h: Json -> string, s: State, s': State)
    requires Inv(cs, h, s) && Kept(s.rows, s'.rows) && s'.memory == s.memory && s'.calls == s.calls
    requires forall k :: k in s'.others ==> k in s.others || !(k in s.rows && s.rows[k].status == RS.Consumed)
    requires forall k :: k in s'.others ==> k in s'.rows && s'.rows[k].status == RS.Consumed
    ensures Inv(cs, h, s')
  {
    hide Precheck, Key;
    forall v, k | 0 <= v < |cs| && k in s'.memory[v] ensures KeyHeld(cs, h, s', v, k) {
      assert KeyHeld(cs, h, s, v, k);
    }
    forall id | id in s'.calls && Spent(s'.calls[id]) ensures Recorded(cs, h, s', s'.calls[id]) {
      assert Recorded(cs, h, s, s.calls[id]);
    }
  }

  lemma StoreKeepsInv(cs: seq<Config>, h: Json -> string, s: State, op: RS.Op)
    requires Inv(cs, h, s)
    ensures Inv(cs, h, StepStore(s, op))
  {
    hide CallOk, AllRecorded, KeysDistinct, MemoryHeld, RS.Apply;
    if !op.Consume? {
      forall k | k in s.rows && s.rows[k].status == RS.Consumed
        ensures k in RS.Apply(s.rows, op) && RS.Apply(s.rows, op)[k].status == RS.Consumed
      {
        RS.ConsumedIsFinal(s.rows, op, k);
      }
      RowsKeepInv(cs, h, s, StepStore(s, op));
    }
  }

  lemma OtherConsumeKeepsInv(cs: seq<Config>, h: Json -> string, s: State, key: string, now: int)
    requires Inv(cs, h, s)
    ensures Inv(cs, h, StepOtherConsume(s, key, now))
  {
    hide CallOk, AllRecorded, KeysDistinct, MemoryHeld;
    if RS.ConsumeCommits(s.rows, key) {
      RowsKeepInv(cs, h, s, StepOtherConsume(s, key, now));
    }
  }

  lemma NextKeepsInv(cs: seq<Config>, h: Json -> string, s: State, step: Step)
    requires Inv(cs, h, s)
    ensures Inv(cs, h, Next(cs, h, s, step))
  {
    hide Inv, StepBegin, StepClaim, StepLook, StepConsume, StepEffect, StepFinish, StepStore, StepOtherConsume;
    match step
    case Begin(id, v, q) => BeginKeepsInv(cs, h, s, id, v, q);
    case Claim(id, fault) => ClaimKeepsInv(cs, h, s, id, fault);
    case Look(id, fault) => LookKeepsInv(cs, h, s, id, fault);
    case Consume(id, fault) => ConsumeKeepsInv(cs, h, s, id, fault);
    case Effect(id, claimed) => EffectKeepsInv(cs, h, s, id, claimed);
    case Finish(id) => FinishKeepsInv(cs, h, s, id);
    case Store(op) => StoreKeepsInv(cs, h, s, op);
    case OtherConsume(key, now) => OtherConsumeKeepsInv(cs, h, s, key, now);
  }

  lemma {:induction false} RunKeepsInv(cs: seq<Config>, h: Json -> string, s: State, steps: seq<Step>)
    requires Inv(cs, h, s)
    ensures Inv(cs, h, Run(cs, h, s, steps))
    decreases |steps|
  {
    hide Inv, Next;
    if steps != [] {
      NextKeepsInv(cs, h, s, steps[0]);
      RunKeepsInv(cs, h, Next(cs, h, s, steps[0]), steps[1..]);
    }
  }

  /** Every state reachable from an empty start. */
  lemma ReachableInv(cs: seq<Config>, h: Json -> string, steps: seq<Step>)
    ensures Inv(cs, h, Run(cs, h, Initial(cs), steps))
  {
    assert Inv(cs, h, Initial(cs)) by { hide CallOk, AllRecorded, KeysDistinct, MemoryHeld; }
    RunKeepsInv(cs, h, Initial(cs), steps);
  }

  // -------------------------------------------------------- at most once

  /** The proof a call was about, once its checks have passed. */
  function ProofOf(call: Call): Proof
    requires HasReady(call)
  {
    ReadyOf(call).proof
  }

  /** In-memory mode: however calls interleave and whatever encodings the tokens have,
      one verifier accepts a proof at most once. */
  lemma AtMostOnceInMemory(cs: seq<Config>, h: Json -> string, steps: seq<Step>, a: nat, b: nat)
    requires var calls := Run(cs, h, Initial(cs), steps).calls;
             && a in calls && b in calls && IsValid(calls[a]) && IsValid(calls[b])
             && calls[a].verifier == calls[b].verifier < |cs| && !cs[calls[a].verifier].durable
    ensures var calls := Run(cs, h, Initial(cs), steps).calls;
            && HasReady(calls[a]) && HasReady(calls[b])
            && (IdentityOf(ProofOf(calls[a])) == IdentityOf(ProofOf(calls[b])) ==> a == b)
  {
    hide Run, Precheck, Recorded, KeyHeld;
    ReachableInv(cs, h, steps);
  }

  /** Durable mode: verifiers that share one store accept a proof at most once between
      them, and not at all if another client of the store has consumed its key. */
  lemma AtMostOnceShared(cs: seq<Config>, h: Json -> string, steps: seq<Step>, a: nat, b: nat)
    requires CollisionFree(h) && forall c :: c in cs ==> BindsActionHash(c, h)
    requires var calls := Run(cs, h, Initial(cs), steps).calls;
             && a in calls && b in calls && IsValid(calls[a]) && IsValid(calls[b])
             && calls[a].verifier < |cs| && cs[calls[a].verifier].durable
             && calls[b].verifier < |cs| && cs[calls[b].verifier].durable
    ensures var s := Run(cs, h, Initial(cs), steps);
            && HasReady(s.calls[a]) && HasReady(s.calls[b])
            && (IdentityOf(ProofOf(s.calls[a])) == IdentityOf(ProofOf(s.calls[b])) ==> a == b)
            && StoreKey(h, ReadyOf(s.calls[a]).intent, ProofOf(s.calls[a])) !in s.others
  {
    hide Run, Precheck, KeyHeld, IdentityOf, StoreKey, CollisionFree, BindsActionHash;
    ReachableInv(cs, h, steps);
    var s := Run(cs, h, Initial(cs), steps);
    var x, y := s.calls[a], s.calls[b];
    assert Recorded(cs, h, s, x);
    ReadyIsBound(cs[x.verifier], h, x.request, ReadyOf(x));
    ReadyIsBound(cs[y.verifier], h, y.request, ReadyOf(y));
    StoreKeyIsIdentity(h, ReadyOf(x).intent, ProofOf(x), ReadyOf(y).intent, ProofOf(y));
  }

  lemma ReadyIsBound(c: Config, h: Json -> string, q: Request, ready: Ready)
    requires BindsActionHash(c, h) && Precheck(c, q) == Success(ready)
    ensures ready.proof.actionHash.value == h(ActionHashInput(ready.intent))
  {
    PrecheckIff(c, q, ready);
  }
}
