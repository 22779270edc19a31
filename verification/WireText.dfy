/** The texts that are hashed, name by name: keys ascend, each is followed by its value, and
    nothing stands between (actenon/proof/canonical.py). */
module WireText {
  import opened Wrappers
  import opened CanonicalJson
  import opened Ordering
  import opened Dicts
  import opened BoundaryChecks
  import BM = BoundaryMachine
  import Timestamps

  /** A name and the value written after it. */
  type Entry = (string, Json)

  /** The entries, separated by commas, and the closing brace. */
  ghost function Entries(entries: seq<Entry>): (r: string) {
    if entries == [] then "}"
    else
      "\"" + entries[0].0 + "\":" + Canonical(entries[0].1)
      + (if |entries| == 1 then "" else ",") + Entries(entries[1..])
  }

  /** A name that is written as it is: letters and underscores. */
  predicate Plain(name: string) { forall i :: 0 <= i < |name| ==> 'a' <= name[i] <= 'z' || name[i] == '_' }

  lemma {:induction false} PlainEscape(name: string)
    requires Plain(name)
    ensures Escape(name) == name
  {
    if name != [] {
      PlainEscape(name[1..]);
      assert name == [name[0]] + name[1..];
    }
  }

  ghost predicate Lists(entries: seq<Entry>, m: Dict) {
    && (forall i :: 0 <= i < |entries| ==> Plain(entries[i].0) && entries[i].0 in m && m[entries[i].0] == entries[i].1)
    && (forall k :: k in m ==> exists i :: 0 <= i < |entries| && entries[i].0 == k)
    && (forall i :: 0 <= i < |entries| - 1 ==> Less(entries[i].0, entries[i + 1].0))
  }

  ghost function Names(entries: seq<Entry>): (r: seq<string>)
    ensures |r| == |entries| && forall i :: 0 <= i < |r| ==> r[i] == entries[i].0
  {
    seq(|entries|, i requires 0 <= i < |entries| => entries[i].0)
  }

  lemma {:induction false} FieldsText(m: Dict, entries: seq<Entry>)
    requires forall i :: 0 <= i < |entries| ==>
                           Plain(entries[i].0) && entries[i].0 in m && m[entries[i].0] == entries[i].1
    ensures Fields(Obj(m), Names(entries)) == Entries(entries)
  {
    hide Canonical, Escape, Plain;
    if entries != [] {
      FieldsText(m, entries[1..]);
      assert Names(entries)[1..] == Names(entries[1..]);
      PlainEscape(entries[0].0);
      assert Quote(entries[0].0) == "\"" + entries[0].0 + "\"";
    }
  }

  lemma {:induction false} Ascends(entries: seq<Entry>, i: nat, j: nat)
    requires forall k :: 0 <= k < |entries| - 1 ==> Less(entries[k].0, entries[k + 1].0)
    requires i < j < |entries|
    ensures Less(entries[i].0, entries[j].0)
    decreases j - i
  {
    hide Less;
    if i + 1 < j {
      Ascends(entries, i + 1, j);
      LessTransitive(entries[i].0, entries[i + 1].0, entries[j].0);
    }
  }

  /** An object is written as its entries in ascending order. */
  lemma ObjectText(m: Dict, entries: seq<Entry>)
    requires Lists(entries, m)
    ensures Canonical(Obj(m)) == "{" + Entries(entries)
  {
    hide Plain, Less;
    forall i, j | 0 <= i < j < |entries| ensures Less(entries[i].0, entries[j].0) { Ascends(entries, i, j); }
    AscendingUnique(Names(entries), Listing(m.Keys));
    FieldsText(m, entries);
  }

  // ------------------------------------------------------- what is hashed

  /** The text of an action hash. */
  lemma SignedText(i: Intent)
    ensures Canonical(ActionHashInput(i)) == "{" + Entries(SignedEntries(i))
  {
    hide Plain, Less, Entries, Canonical, SignedEntries;
    SignedNames(i);
    SignedValues(i);
    ObjectText(ActionHashInput(i).fields, SignedEntries(i));
  }

  function SignedEntries(i: Intent): (r: seq<Entry>) {
    [("action", ActionJson(i.action)), ("expires_at", Str(i.expiresAt)), ("intent_id", Str(i.intentId)),
     ("issued_at", Str(i.issuedAt)), ("requester", i.requester), ("target", TargetJson(i.target)),
     ("tenant", i.tenant)]
  }

  lemma SignedValues(i: Intent)
    ensures var m, e := ActionHashInput(i).fields, SignedEntries(i);
            && (forall j :: 0 <= j < |e| ==> e[j].0 in m && m[e[j].0] == e[j].1)
            && (forall k :: k in m ==> exists j :: 0 <= j < |e| && e[j].0 == k)
  {
    hide ActionJson, TargetJson;
    var m, e := ActionHashInput(i).fields, SignedEntries(i);
    forall k | k in m ensures exists j :: 0 <= j < |e| && e[j].0 == k {
      assert e[0].0 == k || e[1].0 == k || e[2].0 == k || e[3].0 == k || e[4].0 == k || e[5].0 == k || e[6].0 == k;
    }
  }

  lemma SignedNames(i: Intent)
    ensures var e := SignedEntries(i);
            && (forall j :: 0 <= j < |e| ==> Plain(e[j].0))
            && (forall j :: 0 <= j < |e| - 1 ==> Less(e[j].0, e[j + 1].0))
  {
    hide ActionJson, TargetJson;
    var e := SignedEntries(i);
    assert Less("action", "expires_at") && Less("expires_at", "intent_id") && Less("intent_id", "issued_at");
    assert Less("issued_at", "requester") && Less("requester", "target") && Less("target", "tenant");
  }

  /** The text of a replay key held in memory. */
  lemma MemoryKeyText(p: Proof)
    ensures Canonical(MemoryKeyInput(p)) == "{" + Entries(MemoryKeyEntries(p))
  {
    hide Plain, Less, Entries, Canonical, MemoryKeyEntries;
    MemoryKeyNames(p);
    MemoryKeyValues(p);
    ObjectText(MemoryKeyInput(p).fields, MemoryKeyEntries(p));
  }

  function MemoryKeyEntries(p: Proof): (r: seq<Entry>) {
    [("action_hash", ActionHashJson(p.actionHash)), ("audience", AudienceJson(p.audience)), ("nonce", Str(p.nonce)),
     ("pccb_id", Str(p.pccbId))]
  }

  lemma MemoryKeyValues(p: Proof)
    ensures var m, e := MemoryKeyInput(p).fields, MemoryKeyEntries(p);
            && (forall j :: 0 <= j < |e| ==> e[j].0 in m && m[e[j].0] == e[j].1)
            && (forall k :: k in m ==> exists j :: 0 <= j < |e| && e[j].0 == k)
  {
    hide ActionHashJson, AudienceJson;
    var m, e := MemoryKeyInput(p).fields, MemoryKeyEntries(p);
    forall k | k in m ensures exists j :: 0 <= j < |e| && e[j].0 == k {
      assert e[0].0 == k || e[1].0 == k || e[2].0 == k || e[3].0 == k;
    }
  }

  lemma MemoryKeyNames(p: Proof)
    ensures var e := MemoryKeyEntries(p);
            && (forall j :: 0 <= j < |e| ==> Plain(e[j].0))
            && (forall j :: 0 <= j < |e| - 1 ==> Less(e[j].0, e[j + 1].0))
  {
    hide ActionHashJson, AudienceJson;
    var e := MemoryKeyEntries(p);
    assert Less("action_hash", "audience") && Less("audience", "nonce") && Less("nonce", "pccb_id");
  }

  /** The text of a replay key of the store. */
  lemma StoreKeyText(i: Intent, p: Proof)
    ensures Canonical(StoreKeyInput(i, p)) == "{" + Entries(StoreKeyEntries(i, p))
  {
    hide Plain, Less, Entries, Canonical, StoreKeyEntries;
    StoreKeyNames(i, p);
    StoreKeyValues(i, p);
    ObjectText(StoreKeyInput(i, p).fields, StoreKeyEntries(i, p));
  }

  function StoreKeyEntries(i: Intent, p: Proof): (r: seq<Entry>) {
    [("action_hash", ActionHashJson(p.actionHash)), ("audience", AudienceJson(p.audience)),
     ("capability", Str(i.action.capability)), ("intent_id", Str(i.intentId)), ("nonce", Str(p.nonce)),
     ("pccb_id", Str(p.pccbId)), ("target", TargetJson(i.target))]
  }

  lemma StoreKeyValues(i: Intent, p: Proof)
    ensures var m, e := StoreKeyInput(i, p).fields, StoreKeyEntries(i, p);
            && (forall j :: 0 <= j < |e| ==> e[j].0 in m && m[e[j].0] == e[j].1)
            && (forall k :: k in m ==> exists j :: 0 <= j < |e| && e[j].0 == k)
  {
    hide ActionHashJson, AudienceJson, TargetJson;
    var m, e := StoreKeyInput(i, p).fields, StoreKeyEntries(i, p);
    forall k | k in m ensures exists j :: 0 <= j < |e| && e[j].0 == k {
      assert e[0].0 == k || e[1].0 == k || e[2].0 == k || e[3].0 == k || e[4].0 == k || e[5].0 == k || e[6].0 == k;
    }
  }

  lemma StoreKeyNames(i: Intent, p: Proof)
    ensures var e := StoreKeyEntries(i, p);
            && (forall j :: 0 <= j < |e| ==> Plain(e[j].0))
            && (forall j :: 0 <= j < |e| - 1 ==> Less(e[j].0, e[j + 1].0))
  {
    hide ActionHashJson, AudienceJson, TargetJson;
    var e := StoreKeyEntries(i, p);
    assert Less("action_hash", "audience") && Less("audience", "capability") && Less("capability", "intent_id");
    assert Less("intent_id", "nonce") && Less("nonce", "pccb_id") && Less("pccb_id", "target");
  }

  /** The text of the request that a receipt is bound to. */
  lemma RequestText(p: Proof, i: Json, q: Request)
    ensures Canonical(Obj(BM.RequestFields(p, i, q))) == "{" + Entries(RequestEntries(p, i, q))
  {
    hide Plain, Less, Entries, Canonical, RequestEntries;
    RequestNames(p, i, q);
    RequestValues(p, i, q);
    ObjectText(BM.RequestFields(p, i, q), RequestEntries(p, i, q));
  }

  function RequestEntries(p: Proof, i: Json, q: Request): (r: seq<Entry>) {
    [("action_hash", Str(q.actionHash)), ("action_type", Str(q.actionType)), ("audience", Str(q.audience)),
     ("boundary_id", Str(q.boundaryId)), ("intent", i), ("proof", ProofJson(p)), ("target", Str(q.target))]
  }

  lemma RequestValues(p: Proof, i: Json, q: Request)
    ensures var m, e := BM.RequestFields(p, i, q), RequestEntries(p, i, q);
            && (forall j :: 0 <= j < |e| ==> e[j].0 in m && m[e[j].0] == e[j].1)
            && (forall k :: k in m ==> exists j :: 0 <= j < |e| && e[j].0 == k)
  {
    hide ProofJson;
    var m, e := BM.RequestFields(p, i, q), RequestEntries(p, i, q);
    forall k | k in m ensures exists j :: 0 <= j < |e| && e[j].0 == k {
      assert e[0].0 == k || e[1].0 == k || e[2].0 == k || e[3].0 == k || e[4].0 == k || e[5].0 == k || e[6].0 == k;
    }
  }

  lemma RequestNames(p: Proof, i: Json, q: Request)
    ensures var e := RequestEntries(p, i, q);
            && (forall j :: 0 <= j < |e| ==> Plain(e[j].0))
            && (forall j :: 0 <= j < |e| - 1 ==> Less(e[j].0, e[j + 1].0))
  {
    hide ProofJson, Less;
    RequestOrder();
  }

  lemma RequestOrder()
    ensures Less("action_hash", "action_type") && Less("action_type", "audience") && Less("audience", "boundary_id")
    ensures Less("boundary_id", "intent") && Less("intent", "proof") && Less("proof", "target")
  {
    HashBeforeType();
  }

  lemma HashBeforeType()
    ensures Less("action_hash", "action_type")
  {
    Timestamps.LessPrefix("action_", "action_", "hash", "type");
    assert "action_" + "hash" == "action_hash" && "action_" + "type" == "action_type";
  }
}
