/** Single-use capability escrow (actenon/escrow/memory.py). */
module Escrow {
  import opened Wrappers

  datatype EscrowState = Issued | Consumed | Revoked | Expired

  datatype Record = Record(
    escrowId: string, pccbId: string, capability: string, expiresAt: int,
    state: EscrowState, consumedAt: Option<int>, metadata: map<string, string>)

  type Table = map<string, Record>

  /** Skip is an operation that does not reach the escrow. */
  datatype Op =
    | Skip
    | Issue(id: string, pccbId: string, capability: string, expiresAt: int, metadata: map<string, string>)
    | Consume(id: string, pccbId: string, capability: string, now: int)
    | Revoke(id: string, reason: string)

  type Answer = Result<Record, string>

  // ------------------------------------------------------------ one operation

  function ConsumeRefusal(t: Table, id: string, pccbId: string, capability: string, now: int): (r: Option<string>)
    ensures r.None? ==> id in t
  {
    if id !in t then Some("ESCROW_NOT_FOUND")
    else if t[id].state == Revoked then Some("ESCROW_REVOKED")
    else if t[id].state == Consumed then Some("ESCROW_ALREADY_CONSUMED")
    else if now > t[id].expiresAt then Some("ESCROW_EXPIRED")
    else if t[id].pccbId != pccbId then Some("ESCROW_PCCB_MISMATCH")
    else if t[id].capability != capability then Some("ESCROW_CAPABILITY_MISMATCH")
    else None
  }

  function AnswerTo(t: Table, op: Op): (r: Answer) {
    match op
    case Skip => Failure("")
    case Issue(id, pccbId, capability, expiresAt, metadata) =>
      if id in t then Failure("ESCROW_ALREADY_EXISTS")
      else Success(Record(id, pccbId, capability, expiresAt, Issued, None, metadata))
    case Consume(id, pccbId, capability, now) =>
      var refusal := ConsumeRefusal(t, id, pccbId, capability, now);
      if refusal.Some? then Failure(refusal.value)
      else Success(t[id].(state := Consumed, consumedAt := Some(now)))
    case Revoke(id, reason) =>
      if id !in t then Failure("ESCROW_NOT_FOUND")
      else Success(t[id].(state := Revoked, metadata := t[id].metadata["revocation_reason" := reason]))
  }

  /** A refused operation changes nothing, except that a late consume marks the record expired. */
  function Step(t: Table, op: Op): (r: Table) {
    var answer := AnswerTo(t, op);
    if op.Skip? then t
    else if answer.Success? then t[op.id := answer.value]
    else if answer.error == "ESCROW_EXPIRED" && op.id in t then t[op.id := t[op.id].(state := Expired)]
    else t
  }

  class InMemoryCapabilityEscrow {
    var records: Table

    constructor ()
      ensures records == map[]
    {
      records := map[];
    }

    method Issue(id: string, pccbId: string, capability: string, expiresAt: int, metadata: map<string, string>)
      returns (r: Answer)
      modifies this
      ensures var op := Op.Issue(id, pccbId, capability, expiresAt, metadata);
              r == AnswerTo(old(records), op) && records == Step(old(records), op)
    {
      if id in records {
        return Failure("ESCROW_ALREADY_EXISTS");
      }
      var record := Record(id, pccbId, capability, expiresAt, Issued, None, metadata);
      records := records[id := record];
      return Success(record);
    }

    method Inspect(id: string) returns (r: Option<Record>)
      ensures r == if id in records then Some(records[id]) else None
    {
      r := if id in records then Some(records[id]) else None;
    }

    method Consume(id: string, pccbId: string, capability: string, now: int) returns (r: Answer)
      modifies this
      ensures var op := Op.Consume(id, pccbId, capability, now);
              r == AnswerTo(old(records), op) && records == Step(old(records), op)
    {
      if id !in records {
        return Failure("ESCROW_NOT_FOUND");
      }
      var record := records[id];
      if record.state == Revoked {
        return Failure("ESCROW_REVOKED");
      }
      if record.state == Consumed {
        return Failure("ESCROW_ALREADY_CONSUMED");
      }
      if now > record.expiresAt {
        records := records[id := record.(state := Expired)];
        return Failure("ESCROW_EXPIRED");
      }
      if record.pccbId != pccbId {
        return Failure("ESCROW_PCCB_MISMATCH");
      }
      if record.capability != capability {
        return Failure("ESCROW_CAPABILITY_MISMATCH");
      }
      var consumed := record.(state := Consumed, consumedAt := Some(now));
      records := records[id := consumed];
      return Success(consumed);
    }

    method Revoke(id: string, reason: string) returns (r: Answer)
      modifies this
      ensures var op := Op.Revoke(id, reason);
              r == AnswerTo(old(records), op) && records == Step(old(records), op)
    {
      if id !in records {
        return Failure("ESCROW_NOT_FOUND");
      }
      var record := records[id];
      var revoked := record.(state := Revoked, metadata := record.metadata["revocation_reason" := reason]);
      records := records[id := revoked];
      return Success(revoked);
    }
  }

  // ----------------------------------------------------------------- runs

  /** The table after a run of operations on an empty escrow. */
  function After(ops: seq<Op>): (t: Table) {
    if ops == [] then map[] else Step(After(ops[..|ops| - 1]), ops[|ops| - 1])
  }

  /** Operation `i` of the run was carried out. */
  predicate Succeeds(ops: seq<Op>, i: nat)
    requires i < |ops|
  {
    AnswerTo(After(ops[..i]), ops[i]).Success?
  }

  predicate RecordOk(id: string, r: Record) {
    && r.escrowId == id
    && (r.state == Consumed ==> r.consumedAt.Some?)
    && (r.state in {Issued, Expired} ==> r.consumedAt.None?)
    && (r.consumedAt.Some? ==> r.consumedAt.value <= r.expiresAt)
  }

  ghost predicate WellFormed(t: Table) { forall id :: id in t ==> RecordOk(id, t[id]) }

  /** What may become of a record: its bindings stay, it is never issued again, a
      consumption time once set stays, and revocation is final. */
  ghost predicate Follows(r: Record, r': Record) {
    && r'.escrowId == r.escrowId && r'.pccbId == r.pccbId
    && r'.capability == r.capability && r'.expiresAt == r.expiresAt
    && (r.state != Issued ==> r'.state != Issued)
    && (r.consumedAt.Some? ==> r'.consumedAt == r.consumedAt)
    && (r.state == Revoked ==> r'.state == Revoked && r'.consumedAt == r.consumedAt)
    && (r.state == Consumed ==> r'.state in {Consumed, Revoked})
  }

  ghost predicate Evolves(t: Table, t': Table) {
    forall id :: id in t ==> id in t' && Follows(t[id], t'[id])
  }

  lemma StepEvolves(t: Table, op: Op)
    requires WellFormed(t)
    ensures WellFormed(Step(t, op)) && Evolves(t, Step(t, op))
  {
    if Step(t, op) != t {
      var id := op.id;
      StepRecord(t, op);
      var r := Step(t, op)[id];
      hide AnswerTo, RecordOk, Follows;
      forall k | k in t { SameFollows(t[k]); }
      assert Step(t, op) == t[id := r];
    } else {
      SameEvolves(t);
    }
  }

  /** An operation that changes the table changes the record of its own id. */
  lemma StepRecord(t: Table, op: Op)
    requires WellFormed(t) && Step(t, op) != t
    ensures !op.Skip? && op.id in Step(t, op) && Step(t, op) == t[op.id := Step(t, op)[op.id]]
    ensures RecordOk(op.id, Step(t, op)[op.id]) && (op.id in t ==> Follows(t[op.id], Step(t, op)[op.id]))
  {
    assert !op.Skip? && op.id in t ==> RecordOk(op.id, t[op.id]);
  }

  lemma SameFollows(r: Record)
    ensures Follows(r, r)
  {
  }

  lemma AfterSnoc(ops: seq<Op>, i: nat)
    requires i < |ops|
    ensures After(ops[..i + 1]) == Step(After(ops[..i]), ops[i])
  {
    assert ops[..i + 1][..i] == ops[..i];
  }

  lemma {:induction false} AfterWellFormed(ops: seq<Op>)
    ensures WellFormed(After(ops))
  {
    hide WellFormed, Step, Evolves;
    if ops != [] {
      AfterWellFormed(ops[..|ops| - 1]);
      StepEvolves(After(ops[..|ops| - 1]), ops[|ops| - 1]);
    } else {
      NothingIssued();
    }
  }

  lemma NothingIssued()
    ensures WellFormed(map[])
  {
  }

  lemma EvolvesTransitive(t: Table, u: Table, w: Table)
    requires Evolves(t, u) && Evolves(u, w)
    ensures Evolves(t, w)
  {
  }

  /** No id is ever dropped or reissued, no record returns to issued, its proof,
      capability and expiry never change and its consumption time, once set, stays. */
  lemma {:induction false} RunEvolves(ops: seq<Op>, i: nat, j: nat)
    requires i <= j <= |ops|
    ensures Evolves(After(ops[..i]), After(ops[..j]))
    decreases j - i
  {
    hide WellFormed, Step, Evolves, Follows;
    if i == j {
      SameEvolves(After(ops[..i]));
    } else {
      RunEvolves(ops, i, j - 1);
      AfterWellFormed(ops[..j - 1]);
      AfterSnoc(ops, j - 1);
      StepEvolves(After(ops[..j - 1]), ops[j - 1]);
      EvolvesTransitive(After(ops[..i]), After(ops[..j - 1]), After(ops[..j]));
    }
  }

  lemma SameEvolves(t: Table)
    ensures Evolves(t, t)
  {
  }

  /** An id is issued at most once. */
  lemma IssuedOnce(ops: seq<Op>, i: nat, j: nat)
    requires i < j < |ops| && ops[i].Issue? && ops[j].Issue? && Succeeds(ops, i) && ops[i].id == ops[j].id
    ensures !Succeeds(ops, j)
  {
    AfterSnoc(ops, i);
    RunEvolves(ops, i + 1, j);
  }

  /** An id is consumed at most once, whatever is revoked or tried in between. */
  lemma ConsumedOnce(ops: seq<Op>, i: nat, j: nat)
    requires i < j < |ops| && ops[i].Consume? && ops[j].Consume? && Succeeds(ops, i) && ops[i].id == ops[j].id
    ensures !Succeeds(ops, j)
  {
    AfterSnoc(ops, i);
    RunEvolves(ops, i + 1, j);
  }

  /** A record on the table was issued earlier, with the bindings it has now. */
  lemma {:induction false} IssuedBefore(ops: seq<Op>, id: string) returns (i: nat)
    requires id in After(ops)
    ensures i < |ops| && ops[i].Issue? && ops[i].id == id && Succeeds(ops, i)
    ensures var r := After(ops)[id];
            r.pccbId == ops[i].pccbId && r.capability == ops[i].capability && r.expiresAt == ops[i].expiresAt
  {
    var n := |ops| - 1;
    var before := After(ops[..n]);
    if id in before {
      i := IssuedBefore(ops[..n], id);
      assert ops[..n][..i] == ops[..i];
      AfterWellFormed(ops[..n]);
      StepEvolves(before, ops[n]);
    } else {
      i := n;
    }
  }

  /** The consumption time is the clock of the one successful consume, if there was one. */
  lemma {:induction false} ConsumedAtExact(ops: seq<Op>, id: string, now: int)
    requires id in After(ops)
    ensures After(ops)[id].consumedAt == Some(now) <==>
            exists i :: 0 <= i < |ops| && ops[i].Consume? && ops[i].id == id && ops[i].now == now && Succeeds(ops, i)
  {
    if After(ops)[id].consumedAt == Some(now) {
      var i := ConsumeBehind(ops, id, now);
    }
    if i :| 0 <= i < |ops| && ops[i].Consume? && ops[i].id == id && ops[i].now == now && Succeeds(ops, i) {
      AfterSnoc(ops, i);
      RunEvolves(ops, i + 1, |ops|);
      assert ops[..|ops|] == ops;
    }
  }

  lemma {:induction false} ConsumeBehind(ops: seq<Op>, id: string, now: int) returns (i: nat)
    requires id in After(ops) && After(ops)[id].consumedAt == Some(now)
    ensures i < |ops| && ops[i].Consume? && ops[i].id == id && ops[i].now == now && Succeeds(ops, i)
  {
    var n := |ops| - 1;
    var before := After(ops[..n]);
    if id in before && before[id].consumedAt == Some(now) {
      i := ConsumeBehind(ops[..n], id, now);
      assert ops[..n][..i] == ops[..i];
    } else {
      i := n;
    }
  }

  /** Clock readings of consumes do not go back. */
  ghost predicate ClockMonotone(ops: seq<Op>) {
    forall i, j :: 0 <= i < j < |ops| && ops[i].Consume? && ops[j].Consume? ==> ops[i].now <= ops[j].now
  }

  /** A consume refused as expired is followed by a success only if the clock went back. */
  lemma ExpiredNeverConsumed(ops: seq<Op>, i: nat, j: nat)
    requires i < j < |ops| && ops[i].Consume? && ops[j].Consume? && ops[i].id == ops[j].id
    requires AnswerTo(After(ops[..i]), ops[i]) == Failure("ESCROW_EXPIRED")
    ensures Succeeds(ops, j) ==> ops[j].now < ops[i].now
    ensures ClockMonotone(ops) ==> !Succeeds(ops, j)
  {
    RunEvolves(ops, i, j);
  }

  /** The state "expired" itself refuses nothing: only the clock does. */
  lemma ExpiredConsumeIff(t: Table, id: string, now: int)
    requires id in t && t[id].state == Expired
    ensures AnswerTo(t, Consume(id, t[id].pccbId, t[id].capability, now)).Success? <==> now <= t[id].expiresAt
  {
  }

  /** With a clock that goes back, an expired record is consumed. */
  lemma ClockGoingBack()
    ensures var ops := [Issue("e", "p", "c", 10, map[]), Consume("e", "p", "c", 11), Consume("e", "p", "c", 10)];
            AnswerTo(After(ops[..1]), ops[1]) == Failure("ESCROW_EXPIRED") && Succeeds(ops, 2)
  {
    var ops := [Issue("e", "p", "c", 10, map[]), Consume("e", "p", "c", 11), Consume("e", "p", "c", 10)];
    AfterSnoc(ops, 0);
    AfterSnoc(ops, 1);
  }

  /** A refusal changes nothing, but a consume refused as late marks its record expired. */
  lemma RefusalChanges(ops: seq<Op>, i: nat)
    requires i < |ops| && !Succeeds(ops, i)
    ensures var t, t' := After(ops[..i]), After(ops[..i + 1]);
            if ops[i].Consume? && AnswerTo(t, ops[i]) == Failure("ESCROW_EXPIRED")
            then ops[i].id in t && t' == t[ops[i].id := t[ops[i].id].(state := Expired)]
            else t' == t
  {
    AfterSnoc(ops, i);
    hide After;
  }

  // ------------------------------------------- answers told by the operations

  /** Step `j` is the first issue of the id among the first `n` operations. */
  predicate FirstIssue(ops: seq<Op>, n: nat, id: string, j: nat)
    requires n <= |ops|
  {
    j < n && ops[j].Issue? && ops[j].id == id && forall k :: 0 <= k < j ==> !(ops[k].Issue? && ops[k].id == id)
  }

  predicate NeverIssued(ops: seq<Op>, n: nat, id: string)
    requires n <= |ops|
  {
    forall k :: 0 <= k < n ==> !(ops[k].Issue? && ops[k].id == id)
  }

  /** The id was revoked since operation `j`. */
  predicate RevokedSince(ops: seq<Op>, j: nat, n: nat, id: string)
    requires n <= |ops|
  {
    exists k :: j < k < n && ops[k].Revoke? && ops[k].id == id
  }

  predicate ConsumedBefore(ops: seq<Op>, n: nat, id: string)
    requires n <= |ops|
  {
    exists k :: 0 <= k < n && ops[k].Consume? && ops[k].id == id && Succeeds(ops, k)
  }

  /** What the record of an id is, from the operations before. */
  ghost predicate Told(ops: seq<Op>, n: nat, id: string)
    requires n <= |ops|
  {
    var t := After(ops[..n]);
    && (id !in t <==> NeverIssued(ops, n, id))
    && (forall j: nat :: FirstIssue(ops, n, id, j) && id in t ==>
          && t[id].pccbId == ops[j].pccbId && t[id].capability == ops[j].capability
          && t[id].expiresAt == ops[j].expiresAt
          && (t[id].state == Revoked <==> RevokedSince(ops, j, n, id))
          && (t[id].state == Consumed <==> ConsumedBefore(ops, n, id) && !RevokedSince(ops, j, n, id)))
    && (ConsumedBefore(ops, n, id) ==> !NeverIssued(ops, n, id))
  }

  lemma OneMore(ops: seq<Op>, n: nat, id: string)
    requires n < |ops|
    ensures NeverIssued(ops, n + 1, id) <==> NeverIssued(ops, n, id) && !(ops[n].Issue? && ops[n].id == id)
    ensures ConsumedBefore(ops, n + 1, id) <==>
            ConsumedBefore(ops, n, id) || (ops[n].Consume? && ops[n].id == id && Succeeds(ops, n))
    ensures forall j: nat :: RevokedSince(ops, j, n + 1, id) <==>
              RevokedSince(ops, j, n, id) || (j < n && ops[n].Revoke? && ops[n].id == id)
    ensures forall j: nat :: FirstIssue(ops, n + 1, id, j) <==>
              FirstIssue(ops, n, id, j) || (j == n && ops[n].Issue? && ops[n].id == id && NeverIssued(ops, n, id))
  {
    hide Succeeds;
    forall j: nat
      ensures RevokedSince(ops, j, n + 1, id) <==>
              RevokedSince(ops, j, n, id) || (j < n && ops[n].Revoke? && ops[n].id == id)
    {
      if RevokedSince(ops, j, n + 1, id) && !RevokedSince(ops, j, n, id) {
        var k :| j < k < n + 1 && ops[k].Revoke? && ops[k].id == id;
        assert k == n;
      }
      if RevokedSince(ops, j, n, id) {
        var k :| j < k < n && ops[k].Revoke? && ops[k].id == id;
        assert k < n + 1;
      }
    }
  }

  lemma FirstExists(ops: seq<Op>, n: nat, id: string) returns (j: nat)
    requires n <= |ops| && !NeverIssued(ops, n, id)
    ensures FirstIssue(ops, n, id, j)
  {
    j := 0;
    while !(ops[j].Issue? && ops[j].id == id)
      invariant j < n && forall k :: 0 <= k < j ==> !(ops[k].Issue? && ops[k].id == id)
      decreases n - j
    {
      if j + 1 == n {
        assert NeverIssued(ops, n, id);
      }
      j := j + 1;
    }
  }

  /** An operation on another id, or none, tells nothing about this one. */
  lemma ToldElsewhere(ops: seq<Op>, n: nat, id: string)
    requires n < |ops| && Told(ops, n, id) && (ops[n].Skip? || ops[n].id != id)
    ensures Told(ops, n + 1, id)
  {
    OneMore(ops, n, id);
    AfterSnoc(ops, n);
    hide Succeeds, NeverIssued, FirstIssue, RevokedSince, ConsumedBefore, After;
  }

  lemma ToldIssue(ops: seq<Op>, n: nat, id: string)
    requires n < |ops| && Told(ops, n, id) && ops[n].Issue? && ops[n].id == id
    ensures Told(ops, n + 1, id)
  {
    OneMore(ops, n, id);
    AfterSnoc(ops, n);
    assert forall j: nat :: RevokedSince(ops, j, n, id) ==> j < n;
    assert forall j: nat :: FirstIssue(ops, n, id, j) ==> !NeverIssued(ops, n, id);
    hide Succeeds, NeverIssued, FirstIssue, RevokedSince, ConsumedBefore, After;
    var t := After(ops[..n]);
    if id in t {
      assert Step(t, ops[n]) == t;
    } else {
      assert Step(t, ops[n])[id].state == Issued;
      assert !ConsumedBefore(ops, n, id);
    }
  }

  lemma ToldConsume(ops: seq<Op>, n: nat, id: string)
    requires n < |ops| && Told(ops, n, id) && ops[n].Consume? && ops[n].id == id
    ensures Told(ops, n + 1, id)
  {
    OneMore(ops, n, id);
    AfterSnoc(ops, n);
    hide NeverIssued, FirstIssue, RevokedSince, ConsumedBefore, After;
  }

  lemma ToldRevoke(ops: seq<Op>, n: nat, id: string)
    requires n < |ops| && Told(ops, n, id) && ops[n].Revoke? && ops[n].id == id
    ensures Told(ops, n + 1, id)
  {
    OneMore(ops, n, id);
    AfterSnoc(ops, n);
    assert forall j: nat :: FirstIssue(ops, n, id, j) ==> j < n && !NeverIssued(ops, n, id);
    hide Succeeds, NeverIssued, FirstIssue, RevokedSince, ConsumedBefore, After;
  }

  lemma {:induction false} AllTold(ops: seq<Op>, n: nat, id: string)
    requires n <= |ops|
    ensures Told(ops, n, id)
  {
    hide Told;
    if n == 0 {
      NothingTold(ops, id);
    } else {
      AllTold(ops, n - 1, id);
      var op := ops[n - 1];
      if op.Skip? || op.id != id {
        ToldElsewhere(ops, n - 1, id);
      } else if op.Issue? {
        ToldIssue(ops, n - 1, id);
      } else if op.Consume? {
        ToldConsume(ops, n - 1, id);
      } else {
        ToldRevoke(ops, n - 1, id);
      }
    }
  }

  lemma NothingTold(ops: seq<Op>, id: string)
    ensures Told(ops, 0, id)
  {
  }

  /** In every run an issue succeeds exactly when the id was never issued before. */
  lemma IssueSucceedsIff(ops: seq<Op>, i: nat)
    requires i < |ops| && ops[i].Issue?
    ensures Succeeds(ops, i) <==> NeverIssued(ops, i, ops[i].id)
    ensures !Succeeds(ops, i) ==> AnswerTo(After(ops[..i]), ops[i]) == Failure("ESCROW_ALREADY_EXISTS")
    ensures Succeeds(ops, i) ==>
              AnswerTo(After(ops[..i]), ops[i]).value ==
              Record(ops[i].id, ops[i].pccbId, ops[i].capability, ops[i].expiresAt, Issued, None, ops[i].metadata)
  {
    AllTold(ops, i, ops[i].id);
    hide NeverIssued, FirstIssue, RevokedSince, ConsumedBefore, After;
  }

  /** In every run a revocation succeeds exactly when the id was issued; it keeps the
      consumption time and the other metadata and adds the reason. */
  lemma RevokeSucceedsIff(ops: seq<Op>, i: nat)
    requires i < |ops| && ops[i].Revoke?
    ensures Succeeds(ops, i) <==> !NeverIssued(ops, i, ops[i].id)
    ensures !Succeeds(ops, i) ==> AnswerTo(After(ops[..i]), ops[i]) == Failure("ESCROW_NOT_FOUND")
    ensures Succeeds(ops, i) && ops[i].id in After(ops[..i]) ==>
              var before, r := After(ops[..i])[ops[i].id], AnswerTo(After(ops[..i]), ops[i]).value;
              && r.state == Revoked && r.consumedAt == before.consumedAt
              && r.metadata == before.metadata["revocation_reason" := ops[i].reason]
  {
    AllTold(ops, i, ops[i].id);
    hide NeverIssued, FirstIssue, RevokedSince, ConsumedBefore, After;
  }

  /** In every run a consume succeeds exactly when the id was issued before with the same proof
      id and capability and an expiry the clock has not passed, and has been neither revoked
      nor consumed since. */
  lemma ConsumeSucceedsIff(ops: seq<Op>, i: nat)
    requires i < |ops| && ops[i].Consume?
    ensures Succeeds(ops, i) <==>
            exists j: nat :: FirstIssue(ops, i, ops[i].id, j) && ConsumableAs(ops, i, j)
  {
    var id := ops[i].id;
    AllTold(ops, i, id);
    if !NeverIssued(ops, i, id) {
      var j := FirstExists(ops, i, id);
      hide NeverIssued, FirstIssue, RevokedSince, ConsumedBefore, After;
      assert Succeeds(ops, i) <==> ConsumableAs(ops, i, j);
    }
  }

  ghost predicate ConsumableAs(ops: seq<Op>, i: nat, j: nat)
    requires i < |ops| && ops[i].Consume? && j < i && ops[j].Issue?
  {
    && ops[i].pccbId == ops[j].pccbId && ops[i].capability == ops[j].capability && ops[i].now <= ops[j].expiresAt
    && !RevokedSince(ops, j, i, ops[i].id) && !ConsumedBefore(ops, i, ops[i].id)
  }

  /** Which refusal a failing consume gets, in order. */
  lemma ConsumeRefusedAs(ops: seq<Op>, i: nat)
    requires i < |ops| && ops[i].Consume? && !Succeeds(ops, i)
    ensures var id, answer := ops[i].id, AnswerTo(After(ops[..i]), ops[i]);
            && (NeverIssued(ops, i, id) ==> answer == Failure("ESCROW_NOT_FOUND"))
            && forall j: nat :: FirstIssue(ops, i, id, j) ==>
                 answer ==
                 Failure(if RevokedSince(ops, j, i, id) then "ESCROW_REVOKED"
                         else if ConsumedBefore(ops, i, id) then "ESCROW_ALREADY_CONSUMED"
                         else if ops[i].now > ops[j].expiresAt then "ESCROW_EXPIRED"
                         else if ops[i].pccbId != ops[j].pccbId then "ESCROW_PCCB_MISMATCH"
                         else "ESCROW_CAPABILITY_MISMATCH")
  {
    var id := ops[i].id;
    AllTold(ops, i, id);
    assert forall j: nat :: FirstIssue(ops, i, id, j) ==> !NeverIssued(ops, i, id);
    hide NeverIssued, FirstIssue, RevokedSince, ConsumedBefore, After;
  }
}
