/** The in-memory log of decisions (actenon/mcp_server.py). */
module DecisionLog {
  import opened Wrappers
  import opened CanonicalJson
  import opened Dicts

  /** An entry; `previous` is the hash value of the one before it. */
  datatype Entry = Entry(index: nat, kind: string, artifact: Dict, previous: Option<string>, hash: string)

  const CONTRACT: Json := Obj(map["name" := Str("mcp_decision_log_entry"), "version" := Str("v1")])

  /** What an entry's hash is taken over. */
  function Body(index: nat, kind: string, artifact: Dict, previous: Option<string>): Json {
    Obj(map["contract" := CONTRACT, "index" := Int(index), "kind" := Str(kind), "artifact" := Obj(artifact),
            "previous_entry_hash" := if previous.Some? then Str(previous.value) else Null])
  }

  function Previous(entries: seq<Entry>, i: nat): Option<string>
    requires i <= |entries|
  {
    if i == 0 then None else Some(entries[i - 1].hash)
  }

  predicate Linked(h: Json -> string, entries: seq<Entry>, i: nat)
    requires i < |entries|
  {
    var e := entries[i];
    e.index == i && e.previous == Previous(entries, i) && e.hash == h(Body(i, e.kind, e.artifact, e.previous))
  }

  predicate Chain(h: Json -> string, entries: seq<Entry>) {
    forall i :: 0 <= i < |entries| ==> Linked(h, entries, i)
  }

  predicate Names(e: Entry, id: string) {
    || ("receipt_id" in e.artifact && e.artifact["receipt_id"] == Str(id))
    || ("refusal_id" in e.artifact && e.artifact["refusal_id"] == Str(id))
  }

  /** A reference to an entry handed to a caller. */
  datatype Reference = Reference(index: nat, hash: string, previous: Option<string>, chainLength: nat)

  lemma BodyInjective(e: Entry, f: Entry)
    requires Body(e.index, e.kind, e.artifact, e.previous) == Body(f.index, f.kind, f.artifact, f.previous)
    ensures e.index == f.index && e.kind == f.kind && e.artifact == f.artifact && e.previous == f.previous
  {
    var x := Body(e.index, e.kind, e.artifact, e.previous).fields;
    var y := Body(f.index, f.kind, f.artifact, f.previous).fields;
    assert x["index"] == y["index"] && x["kind"] == y["kind"] && x["artifact"] == y["artifact"];
    assert x["previous_entry_hash"] == y["previous_entry_hash"];
  }

  /** A caller holding the hash of an entry can tell that the log under it was not
      rewritten: two chains with an equal hash are equal up to that entry. */
  lemma {:induction false} HashFixesHistory(h: Json -> string, a: seq<Entry>, i: nat, b: seq<Entry>, j: nat)
    requires CollisionFree(h) && Chain(h, a) && Chain(h, b) && i < |a| && j < |b| && a[i].hash == b[j].hash
    ensures i == j && a[..i + 1] == b[..j + 1]
    decreases i
  {
    hide Body;
    assert Linked(h, a, i) && Linked(h, b, j);
    BodyInjective(a[i], b[j]);
    if i > 0 {
      HashFixesHistory(h, a, i - 1, b, j - 1);
    }
    assert a[..i + 1] == a[..i] + [a[i]] && b[..j + 1] == b[..j] + [b[j]];
  }

  /** `fits` says of which values a digest can be taken. */
  class Log {
    const h: Json -> string
    const fits: Json -> bool
    var entries: seq<Entry>

    constructor (h: Json -> string, fits: Json -> bool)
      ensures this.h == h && this.fits == fits && entries == [] && Chain(h, entries)
    {
      this.h := h;
      this.fits := fits;
      entries := [];
    }

    /** None where the digest raises, and then nothing is appended. */
    method Append(kind: string, artifact: Dict) returns (e: Option<Entry>)
      requires Chain(h, entries)
      modifies this
      ensures Chain(h, entries) && entries == old(entries) + (if e.Some? then [e.value] else [])
      ensures e.Some? <==> fits(Body(|old(entries)|, kind, artifact, Previous(old(entries), |old(entries)|)))
      ensures e.Some? ==> e.value.kind == kind && e.value.artifact == artifact
    {
      var previous := if entries != [] then Some(entries[|entries| - 1].hash) else None;
      var body := Body(|entries|, kind, artifact, previous);
      if !fits(body) {
        return None;
      }
      e := Some(Entry(|entries|, kind, artifact, previous, h(body)));
      ghost var before := entries;
      entries := entries + [e.value];
      forall i | 0 <= i < |entries| ensures Linked(h, entries, i) {
        assert i < |before| ==> Linked(h, before, i);
      }
    }

    /** The first entry that names the artifact. */
    method Find(id: string) returns (r: Option<Entry>)
      ensures r.None? <==> forall i :: 0 <= i < |entries| ==> !Names(entries[i], id)
      ensures r.Some? ==> exists i :: 0 <= i < |entries| && r.value == entries[i] && Names(entries[i], id)
                                      && forall j :: 0 <= j < i ==> !Names(entries[j], id)
    {
      for i := 0 to |entries|
        invariant forall j :: 0 <= j < i ==> !Names(entries[j], id)
      {
        if Names(entries[i], id) {
          return Some(entries[i]);
        }
      }
      return None;
    }

    /** For an entry of the log, the reference locates it. */
    method ChainReference(e: Entry) returns (r: Reference)
      ensures r.chainLength == |entries| && r.hash == e.hash
      ensures Chain(h, entries) && e in entries ==>
                r.index < r.chainLength && entries[r.index] == e && r.previous == Previous(entries, r.index)
    {
      r := Reference(e.index, e.hash, e.previous, |entries|);
      if Chain(h, entries) && e in entries {
        ghost var i :| 0 <= i < |entries| && entries[i] == e;
        assert Linked(h, entries, i);
      }
    }
  }
}
