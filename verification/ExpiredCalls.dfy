/** When a call with a store can be accepted at or after the expiry of its proof.  Alone
    it cannot (`Boundary`); here are all interleavings. */
module ExpiredCalls {
  import opened CanonicalJson
  import opened BoundaryChecks
  import opened BoundaryMachine
  import BoundarySafety
  import RS = ReplayStore

  // ------------------------------------------------------------ the run so far

  /** The state before step `n`. */
  function At(cs: seq<Config>, h: Json -> string, steps: seq<Step>, n: nat): State
    requires n <= |steps|
  {
    Run(cs, h, Initial(cs), steps[..n])
  }

  lemma {:induction false} RunSnoc(cs: seq<Config>, h: Json -> string, s: State, steps: seq<Step>, last: Step)
    ensures Run(cs, h, s, steps + [last]) == Next(cs, h, Run(cs, h, s, steps), last)
    decreases |steps|
  {
    hide Next;
    if steps == [] {
      assert steps + [last] == [last] && [last][1..] == [];
      assert Run(cs, h, s, [last]) == Run(cs, h, Next(cs, h, s, last), []);
    } else {
      assert (steps + [last])[1..] == steps[1..] + [last];
      RunSnoc(cs, h, Next(cs, h, s, steps[0]), steps[1..], last);
    }
  }

  lemma AtStep(cs: seq<Config>, h: Json -> string, steps: seq<Step>, n: nat)
    requires n < |steps|
    ensures At(cs, h, steps, n + 1) == Next(cs, h, At(cs, h, steps, n), steps[n])
  {
    hide Run, Next;
    assert steps[..n + 1] == steps[..n] + [steps[n]];
    RunSnoc(cs, h, Initial(cs), steps[..n], steps[n]);
  }

  /** Call `id` of verifier `v` is about `ready`, if it has begun. */
  ghost predicate Follows(s: State, id: nat, v: nat, ready: Ready) {
    id in s.calls ==> s.calls[id].verifier == v && HasReady(s.calls[id]) && ReadyOf(s.calls[id]) == ready
  }

  /** A call never changes its verifier or its request. */
  lemma StepFollows(cs: seq<Config>, h: Json -> string, s: State, step: Step, id: nat, v: nat, ready: Ready)
    requires id in s.calls && Follows(Next(cs, h, s, step), id, v, ready)
    ensures id in Next(cs, h, s, step).calls && Follows(s, id, v, ready)
  {
    hide Precheck, Key, RS.AfterClaim, RS.ClaimCommits, RS.AfterConsume, RS.ConsumeCommits, RS.AfterInspect, RS.Apply;
    hide RequestJson, RequestFits;
  }

  lemma {:induction false} AlwaysFollows(cs: seq<Config>, h: Json -> string, steps: seq<Step>, n: nat, id: nat, v: nat,
                                         ready: Ready)
    requires n <= |steps| && Follows(At(cs, h, steps, |steps|), id, v, ready)
    ensures Follows(At(cs, h, steps, n), id, v, ready)
    decreases |steps| - n
  {
    hide At, Next;
    if n < |steps| {
      AtStep(cs, h, steps, n);
      AlwaysFollows(cs, h, steps, n + 1, id, v, ready);
      if id in At(cs, h, steps, n).calls {
        StepFollows(cs, h, At(cs, h, steps, n), steps[n], id, v, ready);
      }
    }
  }

  // ---------------------------------------------------------- claims of a key

  predicate IsClaimed(s: State, key: string) { key in s.rows && s.rows[key].status == RS.Claimed }

  /** The step commits a claim of the key. */
  predicate ClaimsKey(cs: seq<Config>, h: Json -> string, s: State, step: Step, key: string) {
    match step
    case Claim(id, fault) =>
      && id in s.calls && s.calls[id].pc.AtClaim? && s.calls[id].verifier < |cs| == |s.memory|
      && cs[s.calls[id].verifier].durable && !fault.Before?
      && Key(cs[s.calls[id].verifier], h, s.calls[id].pc.ready) == key
      && RS.ClaimCommits(s.rows, key, s.calls[id].pc.ready.now)
    case Store(op) => op.Claim? && op.key == key && RS.ClaimCommits(s.rows, key, op.now)
    case _ => false
  }

  /** Only a claim makes a row claimed, and nothing else rewrites one that stays so. */
  lemma ClaimedStays(cs: seq<Config>, h: Json -> string, s: State, step: Step, key: string)
    requires !ClaimsKey(cs, h, s, step, key) && IsClaimed(Next(cs, h, s, step), key)
    ensures IsClaimed(s, key) && Next(cs, h, s, step).rows[key] == s.rows[key]
  {
    hide Precheck, Key, RequestJson, RequestFits;
  }

  // ------------------------------------------------------------- the history

  /** Step `a` is the call's own claim. */
  ghost predicate OwnClaim(cs: seq<Config>, h: Json -> string, steps: seq<Step>, a: nat, id: nat, key: string)
    requires a < |steps|
  {
    steps[a] == Claim(id, NoFault) && ClaimsKey(cs, h, At(cs, h, steps, a), steps[a], key)
  }

  /** Step `c` is the call's own consume, with the row claimed. */
  ghost predicate OwnConsume(cs: seq<Config>, h: Json -> string, steps: seq<Step>, c: nat, id: nat, key: string)
    requires c < |steps|
  {
    var s := At(cs, h, steps, c);
    steps[c] == Consume(id, NoFault) && id in s.calls && s.calls[id].pc.AtConsume? && IsClaimed(s, key)
  }

  /** Between steps `a` and `n` somebody else claims the key and the claim stands. */
  ghost predicate Rival(cs: seq<Config>, h: Json -> string, steps: seq<Step>, a: nat, n: nat, key: string)
    requires n <= |steps|
  {
    exists j :: a < j < n && RivalAt(cs, h, steps, j, n, key)
  }

  ghost predicate RivalAt(cs: seq<Config>, h: Json -> string, steps: seq<Step>, j: nat, n: nat, key: string)
    requires j < n <= |steps|
  {
    && ClaimsKey(cs, h, At(cs, h, steps, j), steps[j], key)
    && forall k :: j < k <= n ==> IsClaimed(At(cs, h, steps, k), key)
  }

  /** Since the own claim: a claimed row is a rival's, or the call has yet to look at it. */
  ghost predicate Waits(cs: seq<Config>, h: Json -> string, steps: seq<Step>, a: nat, n: nat, id: nat, key: string,
                        expiresAt: int)
    requires n <= |steps|
  {
    && a < n && OwnClaim(cs, h, steps, a, id, key)
    && var s := At(cs, h, steps, n);
       IsClaimed(s, key) ==>
         || Rival(cs, h, steps, a, n, key)
         || (s.rows[key].expiresAt == expiresAt && id in s.calls && s.calls[id].pc.AtLook?)
  }

  ghost predicate Waiting(cs: seq<Config>, h: Json -> string, steps: seq<Step>, n: nat, id: nat, key: string,
                          expiresAt: int)
    requires n <= |steps|
  {
    exists a :: 0 <= a < n && Waits(cs, h, steps, a, n, id, key, expiresAt)
  }

  /** Own claim, rival claim and own consume, in that order. */
  ghost predicate Overtaken(cs: seq<Config>, h: Json -> string, steps: seq<Step>, n: nat, id: nat, key: string)
    requires n <= |steps|
  {
    exists a, c :: 0 <= a < c < n && OvertakenAt(cs, h, steps, a, c, id, key)
  }

  ghost predicate OvertakenAt(cs: seq<Config>, h: Json -> string, steps: seq<Step>, a: nat, c: nat, id: nat,
                              key: string)
    requires a < c < |steps|
  {
    && OwnClaim(cs, h, steps, a, id, key) && Rival(cs, h, steps, a, c, key) && OwnConsume(cs, h, steps, c, id, key)
  }

  ghost predicate History(cs: seq<Config>, h: Json -> string, steps: seq<Step>, n: nat, id: nat, key: string,
                          expiresAt: int)
    requires n <= |steps|
  {
    var s := At(cs, h, steps, n);
    id in s.calls ==>
      && (s.calls[id].pc.AtLook? || s.calls[id].pc.AtConsume? ==> Waiting(cs, h, steps, n, id, key, expiresAt))
      && (Spent(s.calls[id]) ==> Overtaken(cs, h, steps, n, id, key))
  }

  // ----------------------------------------------------------- one step more

  /** What is known of the call throughout. */
  ghost predicate Setting(cs: seq<Config>, h: Json -> string, v: nat, ready: Ready, key: string) {
    && v < |cs| && cs[v].durable && key == Key(cs[v], h, ready) && ready.proof.expiresAt <= ready.now
  }

  lemma ToLook(cs: seq<Config>, h: Json -> string, s: State, step: Step, id: nat, v: nat, ready: Ready, key: string)
    requires Setting(cs, h, v, ready, key) && Follows(s, id, v, ready)
    requires var s' := Next(cs, h, s, step); id in s'.calls && s'.calls[id].pc.AtLook?
    ensures var s' := Next(cs, h, s, step);
            || (id in s.calls && s.calls[id].pc.AtLook?)
            || (step == Claim(id, NoFault) && ClaimsKey(cs, h, s, step, key)
                && IsClaimed(s', key) && s'.rows[key].expiresAt == ready.proof.expiresAt)
  {
    hide Precheck, Key, RequestJson, RequestFits, RS.ClaimCommits;
  }

  lemma ToConsume(cs: seq<Config>, h: Json -> string, s: State, step: Step, id: nat, v: nat, ready: Ready, key: string)
    requires Setting(cs, h, v, ready, key) && Follows(s, id, v, ready)
    requires var s' := Next(cs, h, s, step); id in s'.calls && s'.calls[id].pc.AtConsume?
    ensures id in s.calls && (s.calls[id].pc.AtConsume? || (s.calls[id].pc.AtLook? && step == Look(id, NoFault)))
    ensures s.calls[id].pc.AtLook? && IsClaimed(s, key) && s.rows[key].expiresAt <= ready.now ==>
              !IsClaimed(Next(cs, h, s, step), key)
  {
    hide Precheck, Key, RequestJson, RequestFits, RS.ClaimCommits;
  }

  lemma ToSpent(cs: seq<Config>, h: Json -> string, s: State, step: Step, id: nat, v: nat, ready: Ready, key: string)
    requires Setting(cs, h, v, ready, key) && Follows(s, id, v, ready)
    requires var s' := Next(cs, h, s, step); id in s'.calls && Spent(s'.calls[id])
    ensures id in s.calls
    ensures Spent(s.calls[id]) || (s.calls[id].pc.AtConsume? && step == Consume(id, NoFault) && IsClaimed(s, key))
  {
    hide Precheck, Key, RequestJson, RequestFits, RS.ClaimCommits;
  }

  /** The claimed row, if any, is still a rival's. */
  lemma RivalExtends(cs: seq<Config>, h: Json -> string, steps: seq<Step>, a: nat, n: nat, key: string)
    requires a < n < |steps| && IsClaimed(At(cs, h, steps, n + 1), key)
    requires Rival(cs, h, steps, a, n, key) || ClaimsKey(cs, h, At(cs, h, steps, n), steps[n], key)
    ensures Rival(cs, h, steps, a, n + 1, key)
  {
    hide At, ClaimsKey;
    if ClaimsKey(cs, h, At(cs, h, steps, n), steps[n], key) {
      assert RivalAt(cs, h, steps, n, n + 1, key);
    } else {
      var j :| a < j < n && RivalAt(cs, h, steps, j, n, key);
      assert RivalAt(cs, h, steps, j, n + 1, key);
    }
  }

  lemma WaitsExtends(cs: seq<Config>, h: Json -> string, steps: seq<Step>, a: nat, n: nat, id: nat, v: nat,
                     ready: Ready, key: string)
    requires n < |steps| && Setting(cs, h, v, ready, key) && Follows(At(cs, h, steps, n), id, v, ready)
    requires Waits(cs, h, steps, a, n, id, key, ready.proof.expiresAt)
    requires var s, s' := At(cs, h, steps, n), At(cs, h, steps, n + 1);
             && id in s.calls && id in s'.calls && (s.calls[id].pc.AtLook? || s.calls[id].pc.AtConsume?)
             && (s'.calls[id].pc.AtLook? || s'.calls[id].pc.AtConsume?)
    ensures Waits(cs, h, steps, a, n + 1, id, key, ready.proof.expiresAt)
  {
    hide At, Next, ClaimsKey, Rival, Key;
    var s, s' := At(cs, h, steps, n), At(cs, h, steps, n + 1);
    AtStep(cs, h, steps, n);
    if IsClaimed(s', key) {
      if !ClaimsKey(cs, h, s, steps[n], key) {
        ClaimedStays(cs, h, s, steps[n], key);
        if s'.calls[id].pc.AtConsume? {
          ToConsume(cs, h, s, steps[n], id, v, ready, key);
        }
      }
      if ClaimsKey(cs, h, s, steps[n], key) || Rival(cs, h, steps, a, n, key) {
        RivalExtends(cs, h, steps, a, n, key);
      }
    }
  }

  lemma HistoryStep(cs: seq<Config>, h: Json -> string, steps: seq<Step>, n: nat, id: nat, v: nat, ready: Ready,
                    key: string)
    requires n < |steps| && Setting(cs, h, v, ready, key) && Follows(At(cs, h, steps, n), id, v, ready)
    requires History(cs, h, steps, n, id, key, ready.proof.expiresAt)
    ensures History(cs, h, steps, n + 1, id, key, ready.proof.expiresAt)
  {
    hide At, Next, ClaimsKey, Rival, Key, Waits, Setting, Follows, IsClaimed;
    var s, s' := At(cs, h, steps, n), At(cs, h, steps, n + 1);
    AtStep(cs, h, steps, n);
    if id in s'.calls {
      if s'.calls[id].pc.AtLook? {
        ToLook(cs, h, s, steps[n], id, v, ready, key);
        WaitsAgain(cs, h, steps, n, id, v, ready, key);
      } else if s'.calls[id].pc.AtConsume? {
        ToConsume(cs, h, s, steps[n], id, v, ready, key);
        WaitsAgain(cs, h, steps, n, id, v, ready, key);
      } else if Spent(s'.calls[id]) {
        ToSpent(cs, h, s, steps[n], id, v, ready, key);
        SpentAgain(cs, h, steps, n, id, v, ready, key);
      }
    }
  }

  lemma WaitsAgain(cs: seq<Config>, h: Json -> string, steps: seq<Step>, n: nat, id: nat, v: nat, ready: Ready,
                   key: string)
    requires n < |steps| && Setting(cs, h, v, ready, key) && Follows(At(cs, h, steps, n), id, v, ready)
    requires History(cs, h, steps, n, id, key, ready.proof.expiresAt)
    requires var s, s' := At(cs, h, steps, n), At(cs, h, steps, n + 1);
             && id in s'.calls && (s'.calls[id].pc.AtLook? || s'.calls[id].pc.AtConsume?)
             && ((id in s.calls && (s.calls[id].pc.AtLook? || s.calls[id].pc.AtConsume?))
                 || (steps[n] == Claim(id, NoFault) && ClaimsKey(cs, h, s, steps[n], key) && s'.calls[id].pc.AtLook?
                     && IsClaimed(s', key) && s'.rows[key].expiresAt == ready.proof.expiresAt))
    ensures Waiting(cs, h, steps, n + 1, id, key, ready.proof.expiresAt)
  {
    hide At, ClaimsKey, Rival, Key, Setting, Follows;
    var s := At(cs, h, steps, n);
    if id in s.calls && (s.calls[id].pc.AtLook? || s.calls[id].pc.AtConsume?) {
      var a :| 0 <= a < n && Waits(cs, h, steps, a, n, id, key, ready.proof.expiresAt);
      WaitsExtends(cs, h, steps, a, n, id, v, ready, key);
    } else {
      assert Waits(cs, h, steps, n, n + 1, id, key, ready.proof.expiresAt);
    }
  }

  lemma SpentAgain(cs: seq<Config>, h: Json -> string, steps: seq<Step>, n: nat, id: nat, v: nat, ready: Ready,
                   key: string)
    requires n < |steps| && History(cs, h, steps, n, id, key, ready.proof.expiresAt)
    requires var s := At(cs, h, steps, n);
             && id in s.calls
             && (Spent(s.calls[id])
                 || (s.calls[id].pc.AtConsume? && steps[n] == Consume(id, NoFault) && IsClaimed(s, key)))
    ensures Overtaken(cs, h, steps, n + 1, id, key)
  {
    hide At, ClaimsKey, Rival, OwnClaim;
    var s := At(cs, h, steps, n);
    if Spent(s.calls[id]) {
      var a, c :| 0 <= a < c < n && OvertakenAt(cs, h, steps, a, c, id, key);
      assert c < n + 1;
    } else {
      var a :| 0 <= a < n && Waits(cs, h, steps, a, n, id, key, ready.proof.expiresAt);
      assert OvertakenAt(cs, h, steps, a, n, id, key);
    }
  }

  lemma {:induction false} HistoryHolds(cs: seq<Config>, h: Json -> string, steps: seq<Step>, n: nat, id: nat, v: nat,
                                        ready: Ready, key: string)
    requires n <= |steps| && Setting(cs, h, v, ready, key) && Follows(At(cs, h, steps, |steps|), id, v, ready)
    ensures History(cs, h, steps, n, id, key, ready.proof.expiresAt)
  {
    hide At, Setting, Follows;
    if n == 0 {
      NothingBegun(cs, h, steps);
    } else {
      HistoryHolds(cs, h, steps, n - 1, id, v, ready, key);
      AlwaysFollows(cs, h, steps, n - 1, id, v, ready);
      HistoryStep(cs, h, steps, n - 1, id, v, ready, key);
    }
  }

  lemma NothingBegun(cs: seq<Config>, h: Json -> string, steps: seq<Step>)
    ensures At(cs, h, steps, 0).calls == map[]
  {
  }

  // ---------------------------------------------------------------- both ways

  lemma ConsumeSpends(cs: seq<Config>, h: Json -> string, s: State, id: nat, v: nat, ready: Ready, key: string)
    requires Setting(cs, h, v, ready, key) && Follows(s, id, v, ready)
    requires id in s.calls && s.calls[id].pc.AtConsume? && IsClaimed(s, key)
    ensures var s' := Next(cs, h, s, Consume(id, NoFault)); id in s'.calls && Spent(s'.calls[id])
  {
    hide Key;
  }

  lemma SpentStep(cs: seq<Config>, h: Json -> string, s: State, step: Step, id: nat)
    requires id in s.calls && Spent(s.calls[id])
    ensures var s' := Next(cs, h, s, step); id in s'.calls && Spent(s'.calls[id])
  {
    hide Precheck, Key, RS.AfterClaim, RS.ClaimCommits, RS.AfterConsume, RS.ConsumeCommits, RS.AfterInspect, RS.Apply;
    hide RequestJson, RequestFits;
  }

  lemma {:induction false} SpentForever(cs: seq<Config>, h: Json -> string, steps: seq<Step>, n: nat, id: nat)
    requires n <= |steps| && id in At(cs, h, steps, n).calls && Spent(At(cs, h, steps, n).calls[id])
    ensures var s := At(cs, h, steps, |steps|); id in s.calls && Spent(s.calls[id])
    decreases |steps| - n
  {
    hide At, Next, Spent;
    if n < |steps| {
      AtStep(cs, h, steps, n);
      SpentStep(cs, h, At(cs, h, steps, n), steps[n], id);
      SpentForever(cs, h, steps, n + 1, id);
    }
  }

  /** In every run, a call with a store that is at or past the expiry of its proof takes
      the single use exactly when, after its own claim, another claim of its key commits
      and still stands when the call consumes. */
  lemma ExpiredSpentIff(cs: seq<Config>, h: Json -> string, steps: seq<Step>, id: nat)
    requires var s := Run(cs, h, Initial(cs), steps);
             && id in s.calls && s.calls[id].verifier < |cs| && cs[s.calls[id].verifier].durable
             && HasReady(s.calls[id]) && ReadyOf(s.calls[id]).proof.expiresAt <= ReadyOf(s.calls[id]).now
    ensures var call := Run(cs, h, Initial(cs), steps).calls[id];
            Spent(call) <==> Overtaken(cs, h, steps, |steps|, id, CallKey(cs, h, call))
  {
    hide Run, Next, Key, Rival, ClaimsKey;
    var n := |steps|;
    assert steps[..n] == steps;
    var call := At(cs, h, steps, n).calls[id];
    var v, ready, key := call.verifier, ReadyOf(call), CallKey(cs, h, call);
    HistoryHolds(cs, h, steps, n, id, v, ready, key);
    if Overtaken(cs, h, steps, n, id, key) {
      var a, c :| 0 <= a < c < n && OvertakenAt(cs, h, steps, a, c, id, key);
      AlwaysFollows(cs, h, steps, c, id, v, ready);
      AtStep(cs, h, steps, c);
      ConsumeSpends(cs, h, At(cs, h, steps, c), id, v, ready, key);
      SpentForever(cs, h, steps, c + 1, id);
    }
  }

  /** So it is valid exactly when it was overtaken, got past the effect claim and its
      request has a canonical form within the limits of the receipt hash. */
  lemma ExpiredValidIff(cs: seq<Config>, h: Json -> string, steps: seq<Step>, id: nat)
    requires var s := Run(cs, h, Initial(cs), steps);
             && id in s.calls && s.calls[id].verifier < |cs| && cs[s.calls[id].verifier].durable
             && HasReady(s.calls[id]) && ReadyOf(s.calls[id]).proof.expiresAt <= ReadyOf(s.calls[id]).now
    ensures var call := Run(cs, h, Initial(cs), steps).calls[id];
            IsValid(call) <==>
            && Overtaken(cs, h, steps, |steps|, id, CallKey(cs, h, call))
            && call.pc.Done? && call.pc.stage == Finishing
            && RequestFits(cs[call.verifier], ReadyOf(call), call.request)
  {
    hide Run, Key, Overtaken, RequestFits;
    ExpiredSpentIff(cs, h, steps, id);
    BoundarySafety.ReachableInv(cs, h, steps);
    BoundarySafety.InvCall(cs, h, Run(cs, h, Initial(cs), steps), id);
  }
}
