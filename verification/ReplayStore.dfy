/** The transactional replay store (actenon/replay/dbapi.py).  Each operation is one
    immediate transaction, so it is a function from table to table; the class carries
    the statements that make it up. */
module ReplayStore {
  import opened Wrappers
  import opened Timestamps

  datatype Status = Claimed | Consumed | Released | Expired

  datatype Row = Row(status: Status, expiresAt: int, consumedAt: Option<int>)

  type Table = map<string, Row>

  /** A claim commits unless a live claim or a consumption holds the key. */
  predicate ClaimCommits(rows: Table, key: string, now: int) {
    key in rows ==> match rows[key].status
                    case Claimed => TextLe(rows[key].expiresAt, now)
                    case Consumed => false
                    case Released => true
                    case Expired => true
  }

  function AfterClaim(rows: Table, key: string, expiresAt: int, now: int): (r: Table) {
    if ClaimCommits(rows, key, now) then rows[key := Row(Claimed, expiresAt, None)] else rows
  }

  predicate ConsumeCommits(rows: Table, key: string) {
    key in rows && rows[key].status == Claimed
  }

  function AfterConsume(rows: Table, key: string, now: int): (r: Table) {
    if ConsumeCommits(rows, key) then rows[key := Row(Consumed, rows[key].expiresAt, Some(now))] else rows
  }

  function AfterRelease(rows: Table, key: string): (r: Table) {
    if key in rows && rows[key].status == Claimed then rows[key := rows[key].(status := Released)] else rows
  }

  function Aged(row: Row, now: int): (r: Row) {
    if row.status == Claimed && row.expiresAt <= now then row.(status := Expired) else row
  }

  function AfterInspect(rows: Table, key: string, now: int): (r: Table) {
    if key in rows then rows[key := Aged(rows[key], now)] else rows
  }

  /** SQL statements compare the stored text of an expiry, not the time. */
  predicate Overdue(row: Row, now: int) { row.status == Claimed && TextLe(row.expiresAt, now) }

  /** The key is free: it has no row, or one that is released, expired, or claimed and
      overdue in the order of the texts. */
  predicate Claimable(rows: Table, key: string, now: int) {
    key !in rows || rows[key].status in {Released, Expired} || Overdue(rows[key], now)
  }

  lemma ClaimCommitsIff(rows: Table, key: string, now: int)
    ensures ClaimCommits(rows, key, now) <==> Claimable(rows, key, now)
  {
  }

  /** Only the row of `key` may have changed. */
  ghost predicate SameBut(rows: Table, before: Table, key: string) {
    forall k :: k != key ==> (k in rows <==> k in before) && (k in before ==> rows[k] == before[k])
  }

  /** A claim writes a new row, which the look that follows expires if it is overdue; without
      a claim the look ages the row that stands. */
  ghost predicate ClaimedOrLooked(rows: Table, before: Table, key: string, expiresAt: int, now: int, ok: bool) {
    && SameBut(rows, before, key) && key in rows
    && (ok ==> rows[key] == Row(if expiresAt <= now then Expired else Claimed, expiresAt, None))
    && (!ok ==> key in before && LookedAt(rows[key], before[key], now))
  }

  ghost predicate LookedAt(row: Row, before: Row, now: int) {
    && row.expiresAt == before.expiresAt && row.consumedAt == before.consumedAt
    && row.status == if before.status == Claimed && before.expiresAt <= now then Expired else before.status
  }

  lemma ClaimLooks(rows: Table, key: string, expiresAt: int, now: int)
    ensures ClaimCommits(rows, key, now) <==> Claimable(rows, key, now)
    ensures ClaimedOrLooked(AfterInspect(AfterClaim(rows, key, expiresAt, now), key, now), rows, key, expiresAt, now,
                            Claimable(rows, key, now))
  {
    ClaimCommitsIff(rows, key, now);
  }

  function AfterPurge(rows: Table, now: int): (r: Table) {
    map k | k in rows :: if Overdue(rows[k], now) then rows[k].(status := Expired) else rows[k]
  }

  datatype Op =
    | Claim(key: string, expiresAt: int, now: int)
    | Consume(key: string, now: int)
    | Release(key: string)
    | Inspect(key: string, now: int)
    | Purge(now: int)

  function Apply(rows: Table, op: Op): (r: Table) {
    match op
    case Claim(key, expiresAt, now) => AfterClaim(rows, key, expiresAt, now)
    case Consume(key, now) => AfterConsume(rows, key, now)
    case Release(key) => AfterRelease(rows, key)
    case Inspect(key, now) => AfterInspect(rows, key, now)
    case Purge(now) => AfterPurge(rows, now)
  }

  function ApplyAll(rows: Table, ops: seq<Op>): (r: Table)
    decreases |ops|
  {
    if ops == [] then rows else ApplyAll(Apply(rows, ops[0]), ops[1..])
  }

  /** No operation removes or rewrites a consumed row, whatever its clock reads. */
  lemma ConsumedIsFinal(rows: Table, op: Op, key: string)
    requires key in rows && rows[key].status == Consumed
    ensures key in Apply(rows, op) && Apply(rows, op)[key] == rows[key]
  {
  }

  /** Once a key is consumed, no later run of operations can claim or consume it again. */
  lemma {:induction false} ConsumedForever(rows: Table, ops: seq<Op>, key: string, now: int)
    requires key in rows && rows[key].status == Consumed
    ensures var after := ApplyAll(rows, ops);
            && key in after && after[key] == rows[key]
            && !ClaimCommits(after, key, now) && !ConsumeCommits(after, key)
    decreases |ops|
  {
    if ops != [] {
      ConsumedIsFinal(rows, ops[0], key);
      ConsumedForever(Apply(rows, ops[0]), ops[1..], key, now);
    }
  }

  class DbApiReplayStore {
    var rows: Table

    constructor ()
      ensures rows == map[]
    {
      rows := map[];
    }

    method ClaimOnce(key: string, expiresAt: int, now: int) returns (ok: bool)
      modifies this
      ensures ok <==> Claimable(old(rows), key, now)
      ensures rows == AfterInspect(AfterClaim(old(rows), key, expiresAt, now), key, now)
      ensures ClaimedOrLooked(rows, old(rows), key, expiresAt, now, ok)
    {
      hide ClaimedOrLooked, SameBut, LookedAt, AfterInspect;
      ClaimLooks(rows, key, expiresAt, now);
      var before := rows;
      if key in rows && Overdue(rows[key], now) {
        rows := rows[key := rows[key].(status := Expired)];
      }
      if key in rows && rows[key].status in {Released, Expired} {
        rows := rows - {key};
      }
      ok := key !in rows;
      if !ok {
        rows := before;
        var existing := InspectKey(key, now);
        return;
      }
      rows := rows[key := Row(Claimed, expiresAt, None)];
      assert rows == AfterClaim(before, key, expiresAt, now);
      var state := InspectKey(key, now);
    }

    method MarkConsumed(key: string, now: int) returns (ok: bool)
      modifies this
      ensures ok <==> key in old(rows) && old(rows)[key].status == Claimed
      ensures ok ==> rows == old(rows)[key := Row(Consumed, old(rows)[key].expiresAt, Some(now))]
      ensures !ok ==> rows == old(rows)
      ensures rows == AfterConsume(old(rows), key, now)
    {
      ok := key in rows && rows[key].status == Claimed;
      if ok {
        rows := rows[key := Row(Consumed, rows[key].expiresAt, Some(now))];
      }
      var state := InspectKey(key, now);
    }

    method ReleaseClaim(key: string) returns (r: Result<Row, string>)
      modifies this
      ensures rows == AfterRelease(old(rows), key)
      ensures key !in old(rows) ==> r == Failure("REPLAY_CLAIM_MISSING") && rows == old(rows)
      ensures key in old(rows) ==>
                && var row := old(rows)[key];
                && (row.status == Claimed ==>
                      rows == old(rows)[key := row.(status := Released)] && r == Success(rows[key]))
                && (row.status == Consumed ==> rows == old(rows) && r == Success(row))
                && (row.status in {Released, Expired} ==>
                      rows == old(rows) && r == Failure("REPLAY_RELEASE_INVALID"))
    {
      if key !in rows {
        return Failure("REPLAY_CLAIM_MISSING");
      }
      if rows[key].status == Consumed {
        return Success(rows[key]);
      }
      if rows[key].status != Claimed {
        return Failure("REPLAY_RELEASE_INVALID");
      }
      rows := rows[key := rows[key].(status := Released)];
      return Success(rows[key]);
    }

    method InspectKey(key: string, now: int) returns (state: Option<Row>)
      modifies this
      ensures rows == AfterInspect(old(rows), key, now)
      ensures SameBut(rows, old(rows), key) && (key in rows <==> key in old(rows))
      ensures key in rows ==> LookedAt(rows[key], old(rows)[key], now)
      ensures state == if key in rows then Some(rows[key]) else None
    {
      if key !in rows {
        return None;
      }
      if rows[key].status == Claimed && rows[key].expiresAt <= now {
        rows := rows[key := rows[key].(status := Expired)];
      }
      assert rows == AfterInspect(old(rows), key, now);
      return Some(rows[key]);
    }

    method PurgeExpired(now: int) returns (count: nat)
      modifies this
      ensures rows == AfterPurge(old(rows), now)
      ensures rows.Keys == old(rows).Keys
      ensures forall k :: k in rows ==>
                            rows[k] == if Overdue(old(rows)[k], now) then old(rows)[k].(status := Expired)
                                       else old(rows)[k]
      ensures count == |set k | k in old(rows) && Overdue(old(rows)[k], now)|
    {
      var due := set k | k in rows && Overdue(rows[k], now);
      rows := map k | k in rows :: if k in due then rows[k].(status := Expired) else rows[k];
      count := |due|;
    }
  }
}
