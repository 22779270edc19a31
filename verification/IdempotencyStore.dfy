/** The write-once idempotency store (actenon/idempotency.py). */
module IdempotencyStore {
  import opened Wrappers

  datatype Entry<T> = Entry(actionHash: string, result: T)

  datatype Attempt<T> = Attempt(operation: string, entry: Entry<T>)

  /** The first attempt recorded for an operation. */
  function First<T>(history: seq<Attempt<T>>, operation: string): (r: Option<Entry<T>>) {
    if history == [] then None
    else if history[0].operation == operation then Some(history[0].entry)
    else First(history[1..], operation)
  }

  lemma {:induction false} FirstSnoc<T>(history: seq<Attempt<T>>, a: Attempt<T>, operation: string)
    ensures First(history + [a], operation) ==
            if First(history, operation).Some? then First(history, operation)
            else if a.operation == operation then Some(a.entry) else None
  {
    if history != [] {
      FirstSnoc(history[1..], a, operation);
      assert (history + [a])[1..] == history[1..] + [a];
    }
  }

  /** `history` holds every call of Record; the records are the first ones. */
  class Store<T> {
    var records: map<string, Entry<T>>
    ghost var history: seq<Attempt<T>>

    ghost predicate Valid()
      reads this
    {
      forall op :: First(history, op) == if op in records then Some(records[op]) else None
    }

    constructor ()
      ensures Valid() && history == []
    {
      records := map[];
      history := [];
    }

    method Lookup(operation: string) returns (r: Option<Entry<T>>)
      requires Valid()
      ensures r == First(history, operation)
    {
      r := if operation in records then Some(records[operation]) else None;
    }

    /** Conflicts exactly when the first recorded hash differs; only a first record
        changes anything. */
    method Record(operation: string, actionHash: string, result: T) returns (conflict: bool)
      requires Valid()
      modifies this
      ensures Valid() && history == old(history) + [Attempt(operation, Entry(actionHash, result))]
      ensures conflict <==>
              First(old(history), operation).Some? && First(old(history), operation).value.actionHash != actionHash
      ensures First(old(history), operation).Some? ==> records == old(records)
      ensures forall op :: op != operation ==> First(history, op) == First(old(history), op)
    {
      ghost var a := Attempt(operation, Entry(actionHash, result));
      forall op { FirstSnoc(history, a, op); }
      history := history + [a];
      if operation in records {
        return records[operation].actionHash != actionHash;
      }
      records := records[operation := Entry(actionHash, result)];
      return false;
    }
  }

  /** Whatever is recorded later, a lookup keeps answering the first record. */
  lemma {:induction false} FirstWins<T>(history: seq<Attempt<T>>, later: seq<Attempt<T>>, operation: string)
    requires First(history, operation).Some?
    ensures First(history + later, operation) == First(history, operation)
    decreases |later|
  {
    if later != [] {
      FirstSnoc(history, later[0], operation);
      FirstWins(history + [later[0]], later[1..], operation);
      assert history + [later[0]] + later[1..] == history + later;
    } else {
      assert history + later == history;
    }
  }
}
