/** The boundary verifier object: one call run to its end, and the receipts built from
    its results. */
module Boundary {
  import opened Wrappers
  import opened CanonicalJson
  import opened Dicts
  import opened BoundaryChecks
  import opened BoundaryMachine
  import RS = ReplayStore

  // --------------------------------------------------- one call, uninterrupted

  /** After a claim the store is read once more: as the next step of a call that goes on,
      as a transaction of its own when the claim was refused. */
  function Looks(c: Config, h: Json -> string, s: State, q: Request): (r: seq<Step>)
    ensures |r| <= 1
  {
    var checked := Precheck(c, q);
    if 0 in s.calls && s.calls[0].pc.AtLook? then [Look(0, NoFault)]
    else if c.durable && checked.Success? then [Store(RS.Inspect(Key(c, h, checked.value), q.now))]
    else []
  }

  function AfterLook(c: Config, h: Json -> string, s: State, q: Request): State {
    var looks := Looks(c, h, s, q);
    if looks == [] then s else Next([c], h, s, looks[0])
  }

  function AfterClaiming(c: Config, h: Json -> string, s: State, q: Request): State {
    var claimed := StepClaim([c], h, StepBegin([c], s, 0, 0, q), 0, NoFault);
    StepConsume([c], h, AfterLook(c, h, claimed, q), 0, NoFault)
  }

  /** A call of a lone verifier, step after step. */
  function Alone(c: Config, h: Json -> string, keys: set<string>, rows: RS.Table, q: Request,
                 claimed: Result<Dict, string>): State
  {
    var s := AfterClaiming(c, h, State([keys], rows, {}, map[]), q);
    StepFinish([c], h, StepEffect([c], s, 0, claimed), 0)
  }

  /** Those steps are a run of the machine, so what holds of every run holds of it. */
  lemma AloneIsRun(c: Config, h: Json -> string, keys: set<string>, rows: RS.Table, q: Request,
                   claimed: Result<Dict, string>)
    ensures exists steps :: Run([c], h, State([keys], rows, {}, map[]), steps) == Alone(c, h, keys, rows, q, claimed)
  {
    hide StepBegin, StepClaim, StepLook, StepConsume, StepEffect, StepFinish, StepStore, Looks;
    var s0 := State([keys], rows, {}, map[]);
    var s1 := StepClaim([c], h, StepBegin([c], s0, 0, 0, q), 0, NoFault);
    var looks := Looks(c, h, s1, q);
    var s2 := AfterLook(c, h, s1, q);
    var tail := [Effect(0, claimed), Finish(0)];
    TwoSteps(c, h, StepConsume([c], h, s2, 0, NoFault), Effect(0, claimed), Finish(0));
    OneStep(c, h, s2, Consume(0, NoFault), tail);
    Prepend(c, h, s1, looks, [Consume(0, NoFault)] + tail);
    OneStep(c, h, StepBegin([c], s0, 0, 0, q), Claim(0, NoFault), looks + ([Consume(0, NoFault)] + tail));
    OneStep(c, h, s0, Begin(0, 0, q), [Claim(0, NoFault)] + (looks + ([Consume(0, NoFault)] + tail)));
  }

  lemma OneStep(c: Config, h: Json -> string, s: State, step: Step, rest: seq<Step>)
    ensures Run([c], h, s, [step] + rest) == Run([c], h, Next([c], h, s, step), rest)
  {
    hide Next;
    assert ([step] + rest)[1..] == rest;
  }

  lemma Prepend(c: Config, h: Json -> string, s: State, look: seq<Step>, rest: seq<Step>)
    requires |look| <= 1
    ensures Run([c], h, s, look + rest) == Run([c], h, if look == [] then s else Next([c], h, s, look[0]), rest)
  {
    hide Next;
    if look == [] {
      assert look + rest == rest;
    } else {
      OneStep(c, h, s, look[0], rest);
      assert look == [look[0]];
    }
  }

  lemma TwoSteps(c: Config, h: Json -> string, s: State, a: Step, b: Step)
    ensures Run([c], h, s, [a, b]) == Next([c], h, Next([c], h, s, a), b)
  {
    hide Next;
    OneStep(c, h, s, a, [b]);
    OneStep(c, h, Next([c], h, s, a), b, []);
    assert [a, b] == [a] + [b] && [b] == [b] + [];
  }

  /** With a store, an uninterrupted call at or after the expiry of its proof is refused
      and its key is not consumed: the store's look expires the fresh claim.  Interleaved
      calls are in `ExpiredCalls`. */
  lemma ExpiredAloneRefused(c: Config, h: Json -> string, keys: set<string>, rows: RS.Table, q: Request,
                            claimed: Result<Dict, string>)
    requires c.durable && Precheck(c, q).Success?
    requires Precheck(c, q).value.proof.expiresAt <= q.now
    ensures var s := Alone(c, h, keys, rows, q, claimed);
            && 0 in s.calls && s.calls[0].pc.Done? && s.calls[0].pc.outcome == REPLAY
            && forall k :: k in s.rows && s.rows[k].status == RS.Consumed ==> k in rows && rows[k] == s.rows[k]
  {
    hide Precheck, Key, AfterClaiming;
    PrecheckKeepsTime(c, q);
    ClaimedAlone(c, h, State([keys], rows, {}, map[]), q);
  }

  lemma PrecheckKeepsTime(c: Config, q: Request)
    ensures Precheck(c, q).Success? ==> Precheck(c, q).value.now == q.now
  {
    if Precheck(c, q).Success? {
      PrecheckIff(c, q, Precheck(c, q).value);
    }
  }

  /** The single use of the proof can be taken now. */
  predicate Fresh(c: Config, h: Json -> string, keys: set<string>, rows: RS.Table, ready: Ready) {
    var key := Key(c, h, ready);
    if c.durable then RS.Claimable(rows, key, ready.now) && ready.now < ready.proof.expiresAt else key !in keys
  }

  /** An uninterrupted call is valid exactly when its request passes every check, the
      single use of its proof can be taken, a configured effect protector grants its claim
      and the request has a canonical form within the limits of its receipt hash. */
  lemma ValidIff(c: Config, h: Json -> string, keys: set<string>, rows: RS.Table, q: Request,
                 claimed: Result<Dict, string>)
    ensures var calls := Alone(c, h, keys, rows, q, claimed).calls;
            && 0 in calls && calls[0].pc.Done?
            && (calls[0].pc.outcome.Valid? <==>
                && Precheck(c, q).Success? && Fresh(c, h, keys, rows, Precheck(c, q).value)
                && (c.protector ==> claimed.Success?) && RequestFits(c, Precheck(c, q).value, q))
  {
    hide Precheck, Key, Alone, Fresh, RequestJson, RequestFits;
    AloneAnswers(c, h, keys, rows, q, claimed);
  }

  /** What an uninterrupted call answers, in the order of its stages. */
  ghost predicate Answers(c: Config, h: Json -> string, keys: set<string>, rows: RS.Table, q: Request,
                          claimed: Result<Dict, string>, r: Outcome)
  {
    if Precheck(c, q).Failure? then r == Refused(Precheck(c, q).error)
    else
      var ready := Precheck(c, q).value;
      if !Fresh(c, h, keys, rows, ready) then r == Refused("REPLAY_DETECTED")
      else if c.protector && claimed.Failure? then r == Refused(claimed.error)
      else if !RequestFits(c, ready, q) then r == Refused("OUTCOME_UNKNOWN")
      else
        && r.Valid? && r.proofId == ready.proof.pccbId
        && r.effect == (if c.protector then Some(claimed.value) else None)
        && r.requestHash == h(RequestJson(ready.proof, ready.intent, q).value)
  }

  lemma AloneAnswers(c: Config, h: Json -> string, keys: set<string>, rows: RS.Table, q: Request,
                     claimed: Result<Dict, string>)
    ensures var calls := Alone(c, h, keys, rows, q, claimed).calls;
            0 in calls && calls[0].pc.Done? && Answers(c, h, keys, rows, q, claimed, calls[0].pc.outcome)
  {
    hide Precheck, Key, AfterClaiming, AfterStoreClaim, RS.ClaimCommits, RS.Claimable, RequestJson, RequestFits;
    var s := State([keys], rows, {}, map[]);
    if Precheck(c, q).Success? {
      ClaimedAlone(c, h, s, q);
      RS.ClaimCommitsIff(rows, Key(c, h, Precheck(c, q).value), Precheck(c, q).value.now);
    } else {
      RefusedAlone(c, h, s, q);
    }
  }

  // ---------------------------------------------------------- the verifier

  class BoundaryVerifier {
    const config: Config
    const h: Json -> string
    const store: RS.DbApiReplayStore
    var replayKeys: set<string>

    constructor (config: Config, h: Json -> string, store: RS.DbApiReplayStore)
      ensures this.config == config && this.h == h && this.store == store && replayKeys == {}
    {
      this.config := config;
      this.h := h;
      this.store := store;
      replayKeys := {};
    }

    /** Takes the proof's single use; false is a refusal. */
    method ClaimSingleUse(ready: Ready) returns (ok: bool)
      modifies this`replayKeys, store
      ensures !config.durable ==>
                && store.rows == old(store.rows)
                && (ok <==> Key(config, h, ready) !in old(replayKeys))
                && replayKeys == old(replayKeys) + {Key(config, h, ready)}
      ensures config.durable ==>
                && replayKeys == old(replayKeys)
                && (ok ==>
                      HasRow(store.rows, Key(config, h, ready),
                             RS.Row(RS.Consumed, ready.proof.expiresAt, Some(ready.now))))
                && (ok <==>
                    && RS.Claimable(old(store.rows), Key(config, h, ready), ready.now)
                    && ready.now < ready.proof.expiresAt)
                && store.rows ==
                   AfterStoreClaim(old(store.rows), Key(config, h, ready), ready.proof.expiresAt, ready.now)
    {
      var key := Key(config, h, ready);
      if config.durable {
        var claimed := store.ClaimOnce(key, ready.proof.expiresAt, ready.now);
        if !claimed {
          return false;
        }
        ok := store.MarkConsumed(key, ready.now);
        return;
      }
      if key in replayKeys {
        return false;
      }
      replayKeys := replayKeys + {key};
      return true;
    }

    /** `claimed` is the effect protector's answer.  The call does what the machine does. */
    method VerifyBoundary(q: Request, claimed: Result<Dict, string>) returns (r: Outcome)
      modifies this`replayKeys, store
      ensures var s := Alone(config, h, old(replayKeys), old(store.rows), q, claimed);
              && s.memory == [replayKeys] && s.rows == store.rows
              && 0 in s.calls && s.calls[0].pc.Done? && s.calls[0].pc.outcome == r
      ensures Answers(config, h, old(replayKeys), old(store.rows), q, claimed, r)
    {
      hide Precheck, Key, RequestJson, AfterStoreClaim, AfterClaiming, RS.ClaimCommits, Answers, RS.Claimable;
      AloneAnswers(config, h, replayKeys, store.rows, q, claimed);
      var checked := Precheck(config, q);
      RefusedAlone(config, h, State([replayKeys], store.rows, {}, map[]), q);
      if checked.Failure? {
        return Refused(checked.error);
      }
      ClaimedAlone(config, h, State([replayKeys], store.rows, {}, map[]), q);
      RS.ClaimCommitsIff(store.rows, Key(config, h, checked.value), checked.value.now);
      var ok := ClaimSingleUse(checked.value);
      if !ok {
        return REPLAY;
      }
      var reference: Option<Dict> := None;
      if config.protector {
        if claimed.Failure? {
          return Refused(claimed.error);
        }
        reference := Some(claimed.value);
      }
      if !RequestFits(config, checked.value, q) {
        return Refused("OUTCOME_UNKNOWN");
      }
      var json := RequestJson(checked.value.proof, checked.value.intent, q);
      return Valid(checked.value.proof.pccbId, reference, h(json.value));
    }
  }

  predicate HasRow(rows: RS.Table, key: string, row: RS.Row) { key in rows && rows[key] == row }

  /** Claim, look and, if the claim committed, consume. */
  function AfterStoreClaim(rows: RS.Table, key: string, expiresAt: int, now: int): RS.Table {
    var claimed := RS.AfterInspect(RS.AfterClaim(rows, key, expiresAt, now), key, now);
    if RS.ClaimCommits(rows, key, now) then RS.AfterConsume(claimed, key, now) else claimed
  }

  lemma RefusedAlone(c: Config, h: Json -> string, s: State, q: Request)
    requires s.calls == map[]
    ensures Precheck(c, q).Failure? ==>
              AfterClaiming(c, h, s, q) ==
                  s.(calls := map[0 := Call(0, q, Done(Checking, None, Refused(Precheck(c, q).error)))])
  {
    hide Precheck, Key;
  }

  /** The four store transactions, or the set update, seen as one claim. */
  lemma ClaimedAlone(c: Config, h: Json -> string, s: State, q: Request)
    requires |s.memory| == 1 && s.calls == map[] && Precheck(c, q).Success?
    ensures var ready := Precheck(c, q).value;
            var key := Key(c, h, ready);
            && (!c.durable ==>
                  AfterClaiming(c, h, s, q) ==
                  s.(memory := [s.memory[0] + {key}],
                     calls := map[0 := Call(0, q,
                                            if key in s.memory[0]
                                            then Ended(SingleUse, ready, REPLAY)
                                            else AtEffect(ready))]))
            && (c.durable ==>
                  && var ok := RS.ClaimCommits(s.rows, key, ready.now) && ready.now < ready.proof.expiresAt;
                  AfterClaiming(c, h, s, q) ==
                  s.(rows := AfterStoreClaim(s.rows, key, ready.proof.expiresAt, ready.now),
                     calls := map[0 := Call(0, q, if ok then AtEffect(ready) else Ended(SingleUse, ready, REPLAY))]))
  {
    hide Precheck, Key;
    PrecheckKeepsTime(c, q);
    if c.durable {
      var ready := Precheck(c, q).value;
      var key := Key(c, h, ready);
      var s1 := StepClaim([c], h, StepBegin([c], s, 0, 0, q), 0, NoFault);
      var s2 := AfterLook(c, h, s1, q);
      assert s2.rows == RS.AfterInspect(RS.AfterClaim(s.rows, key, ready.proof.expiresAt, ready.now), key, ready.now);
      assert AfterClaiming(c, h, s, q).rows == AfterStoreClaim(s.rows, key, ready.proof.expiresAt, ready.now);
    } else {
      var keys, key := s.memory[0], Key(c, h, Precheck(c, q).value);
      assert s.memory == [keys] && s.memory[0 := keys + {key}] == [keys + {key}];
      assert key in keys ==> keys + {key} == keys;
    }
  }
}
