/** The stateless part of a boundary verification (actenon/boundary/__init__.py): the
    ordered checks before the single-use claim, and the two replay keys. */
module BoundaryChecks {
  import opened Wrappers
  import opened CanonicalJson
  import opened Dicts
  import opened PythonValues
  import ProofToken

  datatype Audience = Audience(kind: string, id: string, uri: Option<string>)

  datatype ActionHash = ActionHash(algorithm: string, canonicalization: string, value: string)

  datatype Action = Action(name: string, capability: string, parameters: Dict, constraints: Dict, scope: Dict)

  datatype Target = Target(resourceType: string, resourceId: string, uri: Option<Json>, selectors: Dict)

  /** `rest` is what the action hash does not cover: context, metadata, extensions and so
      on.  Nothing has written it yet when the checks have passed, so it may hold floats and
      other things without a canonical form. */
  datatype Intent = Intent(
    intentId: string, tenant: Json, requester: Json, action: Action, target: Target,
    issuedAt: string, expiresAt: string, rest: Py)

  datatype Proof = Proof(
    pccbId: string, nonce: string, actionHash: ActionHash, audience: Audience,
    expiresAt: int, hasEffect: bool, rest: Json)

  /** Python's == on actions and targets: exact but for numbers in their dictionaries. */
  predicate SameAction(a: Action, b: Action) {
    && a.name == b.name && a.capability == b.capability && JsonEqual(Obj(a.parameters), Obj(b.parameters))
    && JsonEqual(Obj(a.constraints), Obj(b.constraints)) && JsonEqual(Obj(a.scope), Obj(b.scope))
  }

  predicate SameTarget(a: Target, b: Target) {
    && a.resourceType == b.resourceType && a.resourceId == b.resourceId
    && JsonEqual(Obj(a.selectors), Obj(b.selectors))
    && a.uri.Some? == b.uri.Some? && (a.uri.Some? && b.uri.Some? ==> JsonEqual(a.uri.value, b.uri.value))
  }

  // ------------------------------------------------------- wire dictionaries

  /** Empty dictionaries are left out of the wire form. */
  function Unless(d: Dict): Option<Json> {
    if d == map[] then None else Some(Obj(d))
  }

  function AudienceJson(a: Audience): Json {
    Obj(With(map["type" := Str(a.kind), "id" := Str(a.id)], "uri",
             if a.uri.Some? then Some(Str(a.uri.value)) else None))
  }

  function ActionHashJson(a: ActionHash): Json {
    Obj(map["algorithm" := Str(a.algorithm), "canonicalization" := Str(a.canonicalization), "value" := Str(a.value)])
  }

  function ActionJson(a: Action): Json {
    var base := map["name" := Str(a.name), "capability" := Str(a.capability), "parameters" := Obj(a.parameters)];
    Obj(With(With(base, "constraints", Unless(a.constraints)), "scope", Unless(a.scope)))
  }

  function TargetJson(t: Target): Json {
    var base := map["resource_type" := Str(t.resourceType), "resource_id" := Str(t.resourceId)];
    Obj(With(With(base, "uri", t.uri), "selectors", Unless(t.selectors)))
  }

  /** An optional key compares as equal when it is absent from both or equal in both. */
  ghost predicate SameOptional(a: Option<Json>, b: Option<Json>) {
    a.Some? == b.Some? && (a.Some? && b.Some? ==> JsonEqual(a.value, b.value))
  }

  lemma WithEqualIff(x: Dict, key: string, a: Option<Json>, y: Dict, b: Option<Json>)
    requires key !in x && key !in y
    ensures JsonEqual(Obj(With(x, key, a)), Obj(With(y, key, b))) <==> JsonEqual(Obj(x), Obj(y)) && SameOptional(a, b)
  {
    hide JsonEqual;
    var v, w := With(x, key, a), With(y, key, b);
    ObjEqualIff(x, y);
    ObjEqualIff(v, w);
    assert x == v - {key} && y == w - {key};
    assert key in v <==> a.Some?;
    assert key in w <==> b.Some?;
    if v.Keys == w.Keys {
      assert x.Keys == v.Keys - {key} && y.Keys == w.Keys - {key};
    }
    if x.Keys == y.Keys && a.Some? == b.Some? {
      assert v.Keys == w.Keys;
    }
  }

  lemma UnlessEqualIff(a: Dict, b: Dict)
    ensures SameOptional(Unless(a), Unless(b)) <==> JsonEqual(Obj(a), Obj(b))
  {
    hide JsonEqual;
    ObjEqualIff(a, b);
    assert a == map[] <==> a.Keys == {};
    assert b == map[] <==> b.Keys == {};
  }

  /** Two targets are the same exactly when their wire forms are equal for Python. */
  lemma SameTargetIff(a: Target, b: Target)
    ensures SameTarget(a, b) <==> JsonEqual(TargetJson(a), TargetJson(b))
  {
    hide JsonEqual;
    var x := map["resource_type" := Str(a.resourceType), "resource_id" := Str(a.resourceId)];
    var y := map["resource_type" := Str(b.resourceType), "resource_id" := Str(b.resourceId)];
    WithEqualIff(With(x, "uri", a.uri), "selectors", Unless(a.selectors), With(y, "uri", b.uri), Unless(b.selectors));
    WithEqualIff(x, "uri", a.uri, y, b.uri);
    UnlessEqualIff(a.selectors, b.selectors);
    ObjEqualIff(x, y);
    StrEqualIff(a.resourceType, b.resourceType);
    StrEqualIff(a.resourceId, b.resourceId);
    assert x["resource_type"] == Str(a.resourceType) && x["resource_id"] == Str(a.resourceId);
  }

  lemma SameActionIff(a: Action, b: Action)
    ensures SameAction(a, b) <==> JsonEqual(ActionJson(a), ActionJson(b))
  {
    hide JsonEqual, SameOptional, Unless;
    var x := map["name" := Str(a.name), "capability" := Str(a.capability), "parameters" := Obj(a.parameters)];
    var y := map["name" := Str(b.name), "capability" := Str(b.capability), "parameters" := Obj(b.parameters)];
    WithEqualIff(With(x, "constraints", Unless(a.constraints)), "scope", Unless(a.scope),
                 With(y, "constraints", Unless(b.constraints)), Unless(b.scope));
    WithEqualIff(x, "constraints", Unless(a.constraints), y, Unless(b.constraints));
    UnlessEqualIff(a.constraints, b.constraints);
    UnlessEqualIff(a.scope, b.scope);
    BaseEqualIff(a, b, x, y);
  }

  lemma BaseEqualIff(a: Action, b: Action, x: Dict, y: Dict)
    requires x == map["name" := Str(a.name), "capability" := Str(a.capability), "parameters" := Obj(a.parameters)]
    requires y == map["name" := Str(b.name), "capability" := Str(b.capability), "parameters" := Obj(b.parameters)]
    ensures JsonEqual(Obj(x), Obj(y)) <==>
            a.name == b.name && a.capability == b.capability && JsonEqual(Obj(a.parameters), Obj(b.parameters))
  {
    hide JsonEqual;
    ObjEqualIff(x, y);
    StrEqualIff(a.name, b.name);
    StrEqualIff(a.capability, b.capability);
    assert x["name"] == Str(a.name) && x["capability"] == Str(a.capability) && x["parameters"] == Obj(a.parameters);
  }

  /** What an action hash is taken over. */
  function ActionHashInput(i: Intent): Json {
    Obj(map["intent_id" := Str(i.intentId), "tenant" := i.tenant, "requester" := i.requester,
            "action" := ActionJson(i.action), "target" := TargetJson(i.target),
            "issued_at" := Str(i.issuedAt), "expires_at" := Str(i.expiresAt)])
  }

  function ProofJson(p: Proof): Json {
    Obj(map["pccb_id" := Str(p.pccbId), "nonce" := Str(p.nonce), "action_hash" := ActionHashJson(p.actionHash),
            "audience" := AudienceJson(p.audience), "expires_at" := Int(p.expiresAt),
            "has_effect" := Bool(p.hasEffect), "rest" := p.rest])
  }

  /** The written intent; None where its unsigned part has no canonical form. */
  function IntentJson(i: Intent): (r: Option<Json>) {
    var rest := Canon(i.rest);
    if rest.None? then None else Some(Obj(map["signed" := ActionHashInput(i), "rest" := rest.value]))
  }

  /** Two intents that are written alike: the same but for tuples among the unsigned part. */
  ghost predicate SameIntent(i: Intent, j: Intent) {
    i.(rest := j.rest) == j && Canon(i.rest).Some? && Canon(i.rest) == Canon(j.rest)
  }

  // ------------------------------------------------------------ identities

  /** What makes two presentations the same proof. */
  datatype Identity = Identity(pccbId: string, nonce: string, actionHash: ActionHash, audience: Audience)

  function IdentityOf(p: Proof): Identity {
    Identity(p.pccbId, p.nonce, p.actionHash, p.audience)
  }

  function MemoryKeyInput(p: Proof): Json {
    Obj(map["pccb_id" := Str(p.pccbId), "nonce" := Str(p.nonce), "action_hash" := ActionHashJson(p.actionHash),
            "audience" := AudienceJson(p.audience)])
  }

  function StoreKeyInput(i: Intent, p: Proof): Json {
    Obj(map["pccb_id" := Str(p.pccbId), "intent_id" := Str(i.intentId), "nonce" := Str(p.nonce),
            "action_hash" := ActionHashJson(p.actionHash), "audience" := AudienceJson(p.audience),
            "capability" := Str(i.action.capability), "target" := TargetJson(i.target)])
  }

  function MemoryKey(h: Json -> string, p: Proof): string { h(MemoryKeyInput(p)) }

  function StoreKey(h: Json -> string, i: Intent, p: Proof): string { "rpk_" + h(StoreKeyInput(i, p)) }

  // -------------------------------------------------------- configuration

  datatype IntentArg = Absent | Parsed(intent: Intent) | Raw(payload: Json)

  datatype Request = Request(
    token: string, actionType: string, actionHash: string, audience: string, boundaryId: string,
    target: string, intent: IntentArg, scopeCapabilities: seq<string>, now: int)

  /** A boundary verifier as configured. `verify` returns a refusal code or None; without
      it there is no trust root. `fits` says of which values a digest can be taken: those
      whose canonical form is within the limits of size and depth. */
  datatype Config = Config(
    verify: Option<(Intent, Proof, Audience, seq<string>, int) -> Option<string>>,
    decode: string -> Option<Proof>,
    parse: Json -> Option<Intent>,
    fits: Json -> bool,
    protector: bool,
    durable: bool,
    scopeCapabilities: seq<string>)

  /** The proof verifier recomputes the action hash from the presented intent
      (actenon/proof/service.py, step 11). */
  ghost predicate BindsActionHash(c: Config, h: Json -> string) {
    c.verify.Some? ==>
      forall i, p, a, s, t :: c.verify.value(i, p, a, s, t).None? ==> p.actionHash.value == h(ActionHashInput(i))
  }

  function Colon(raw: string): (i: nat)
    ensures i <= |raw| && (i < |raw| ==> raw[i] == ':') && ':' !in raw[..i]
  {
    if raw == [] || raw[0] == ':' then 0
    else
      assert raw == [raw[0]] + raw[1..];
      1 + Colon(raw[1..])
  }

  function ParseAudience(raw: string): (r: Option<Audience>) {
    var i := Colon(raw);
    if i == |raw| then Some(Audience("service", raw, None))
    else if i == 0 || i + 1 == |raw| then None
    else Some(Audience(raw[..i], raw[i + 1..], None))
  }

  /** A bare service id, or a type and an id around the first colon. */
  lemma ParseAudienceIff(raw: string, kind: string, id: string)
    ensures ParseAudience(raw) == Some(Audience(kind, id, None)) <==>
            || (':' !in raw && kind == "service" && id == raw)
            || (raw == kind + ":" + id && kind != "" && id != "" && ':' !in kind)
  {
    hide Colon;
    var i := Colon(raw);
    if raw == kind + ":" + id && ':' !in kind {
      assert raw[|kind|] == ':' && raw[..|kind|] == kind && raw[|kind| + 1..] == id;
      ColonUnique(raw, |kind|);
    } else if i < |raw| {
      assert raw == raw[..i] + ":" + raw[i + 1..] && raw[i] in raw;
    } else {
      assert raw[..i] == raw;
    }
  }

  lemma {:induction false} ColonUnique(raw: string, i: nat)
    requires i < |raw| && raw[i] == ':' && ':' !in raw[..i]
    ensures Colon(raw) == i
  {
    if i > 0 {
      assert raw[0] in raw[..i] && raw[1..][..i - 1] == raw[..i][1..];
      ColonUnique(raw[1..], i - 1);
    }
  }

  function ParseIntent(c: Config, arg: IntentArg): (r: Option<Intent>) {
    match arg
    case Absent => None
    case Parsed(i) => Some(i)
    case Raw(payload) => c.parse(payload)
  }

  function TrustedCapabilities(c: Config, q: Request): (r: seq<string>) {
    if q.scopeCapabilities != [] then q.scopeCapabilities
    else if c.scopeCapabilities != [] then c.scopeCapabilities
    else [q.actionType]
  }

  /** The capabilities trusted are the first there are of the request's, the verifier's and the
      action itself. */
  lemma TrustedIsFirst(c: Config, q: Request)
    ensures var sources := [q.scopeCapabilities, c.scopeCapabilities, [q.actionType]];
            exists k :: 0 <= k < 3 && TrustedCapabilities(c, q) == sources[k] != []
                        && forall j :: 0 <= j < k ==> sources[j] == []
  {
    var sources := [q.scopeCapabilities, c.scopeCapabilities, [q.actionType]];
    var k := if sources[0] != [] then 0 else if sources[1] != [] then 1 else 2;
    assert TrustedCapabilities(c, q) == sources[k];
  }

  /** An intent is taken as it is or parsed. */
  lemma ParseIntentIff(c: Config, arg: IntentArg, i: Intent)
    ensures ParseIntent(c, arg) == Some(i) <==>
            arg == Parsed(i) || (arg.Raw? && c.parse(arg.payload) == Some(i))
  {
  }

  /** A request that has passed every check before the single-use claim. */
  datatype Ready = Ready(intent: Intent, proof: Proof, now: int)

  function Precheck(c: Config, q: Request): (r: Result<Ready, string>) {
    if q.token == [] then Failure("PROOF_MISSING")
    else if c.verify.None? then Failure("ISSUER_UNTRUSTED")
    else
      var proof := c.decode(q.token);
      if proof.None? then Failure("PROOF_INVALID")
      else if q.intent.Absent? then Failure("MALFORMED_REQUEST")
      else
        var intent, audience := ParseIntent(c, q.intent), ParseAudience(q.audience);
        if intent.None? || audience.None? then Failure("MALFORMED_REQUEST")
        else Bind(c, q, intent.value, proof.value, audience.value)
  }

  function Bind(c: Config, q: Request, intent: Intent, proof: Proof, audience: Audience): (r: Result<Ready, string>)
    requires c.verify.Some?
  {
    var trusted := TrustedCapabilities(c, q);
    if ProofToken.Strip(q.actionType) == [] then Failure("MALFORMED_REQUEST")
    else if intent.action.name != q.actionType then Failure("ACTION_MISMATCH")
    else if intent.action.capability !in trusted then Failure("ACTION_MISMATCH")
    else if q.target != [] && intent.target.resourceId != q.target then Failure("TARGET_MISMATCH")
    else
      var refusal := c.verify.value(intent, proof, audience, trusted, q.now);
      if refusal.Some? then Failure(refusal.value)
      else if q.actionHash != [] && q.actionHash != proof.actionHash.value then Failure("ACTION_HASH_MISMATCH")
      else if proof.hasEffect && !c.protector then Failure("POLICY_REFUSAL")
      else Success(Ready(intent, proof, q.now))
  }

  /** A request gets past the checks exactly when its proof is verified, under the
      boundary's own audience and capabilities, for the very action and target the
      route declares. */
  lemma PrecheckIff(c: Config, q: Request, ready: Ready)
    ensures Precheck(c, q) == Success(ready) <==>
            && q.token != [] && c.verify.Some? && c.decode(q.token) == Some(ready.proof)
            && ParseIntent(c, q.intent) == Some(ready.intent) && ParseAudience(q.audience).Some?
            && ProofToken.Strip(q.actionType) != [] && ready.intent.action.name == q.actionType
            && ready.intent.action.capability in TrustedCapabilities(c, q)
            && (q.target != [] ==> ready.intent.target.resourceId == q.target)
            && c.verify.value(ready.intent, ready.proof, ParseAudience(q.audience).value,
                              TrustedCapabilities(c, q), q.now).None?
            && (q.actionHash != [] ==> q.actionHash == ready.proof.actionHash.value)
            && (ready.proof.hasEffect ==> c.protector) && ready.now == q.now
  {
  }

  // ------------------------------------------------------ the order of checks

  /** A check and the code it refuses with; each may assume the ones before it. */
  datatype Check = Check(passed: bool, code: string)

  /** The checks in the order in which they are made. */
  function Checks(c: Config, q: Request): (r: seq<Check>)
    ensures |r| == 12
  {
    var proof, intent, audience := c.decode(q.token), ParseIntent(c, q.intent), ParseAudience(q.audience);
    var read := proof.Some? && intent.Some? && audience.Some? && c.verify.Some?;
    var trusted := TrustedCapabilities(c, q);
    var refusal := if read then c.verify.value(intent.value, proof.value, audience.value, trusted, q.now) else None;
    [Check(q.token != [], "PROOF_MISSING"),
     Check(c.verify.Some?, "ISSUER_UNTRUSTED"),
     Check(proof.Some?, "PROOF_INVALID"),
     Check(!q.intent.Absent?, "MALFORMED_REQUEST"),
     Check(intent.Some? && audience.Some?, "MALFORMED_REQUEST"),
     Check(ProofToken.Strip(q.actionType) != [], "MALFORMED_REQUEST"),
     Check(read && intent.value.action.name == q.actionType, "ACTION_MISMATCH"),
     Check(read && intent.value.action.capability in trusted, "ACTION_MISMATCH"),
     Check(q.target != [] ==> read && intent.value.target.resourceId == q.target, "TARGET_MISMATCH"),
     Check(refusal.None?, if refusal.Some? then refusal.value else ""),
     Check(q.actionHash != [] ==> read && proof.value.actionHash.value == q.actionHash, "ACTION_HASH_MISMATCH"),
     Check(read && proof.value.hasEffect ==> c.protector, "POLICY_REFUSAL")]
  }

  /** The first check that fails. */
  function FirstFailure(checks: seq<Check>): (i: nat)
    ensures i <= |checks| && (i < |checks| ==> !checks[i].passed) && forall j :: 0 <= j < i ==> checks[j].passed
  {
    if checks == [] then 0 else if !checks[0].passed then 0 else 1 + FirstFailure(checks[1..])
  }

  /** A refusal carries the code of the first check that fails. */
  lemma RefusedByFirstFailure(c: Config, q: Request)
    ensures var i := FirstFailure(Checks(c, q));
            Precheck(c, q).Failure? <==> i < 12
    ensures var i := FirstFailure(Checks(c, q));
            i < 12 ==> Precheck(c, q) == Failure(Checks(c, q)[i].code)
  {
    hide FirstFailure, ProofToken.Strip, ParseAudience, TrustedCapabilities;
    var checks := Checks(c, q);
    var i := FirstFailure(checks);
    assert 0 < i ==> checks[0].passed;
    assert 1 < i ==> checks[1].passed;
    assert 2 < i ==> checks[2].passed;
    assert 3 < i ==> checks[3].passed;
    assert 4 < i ==> checks[4].passed;
    assert 5 < i ==> checks[5].passed;
    assert 6 < i ==> checks[6].passed;
    assert 7 < i ==> checks[7].passed;
    assert 8 < i ==> checks[8].passed;
    assert 9 < i ==> checks[9].passed;
    assert 10 < i ==> checks[10].passed;
    assert 11 < i ==> checks[11].passed;
  }

  // --------------------------------------------------------- key properties

  lemma ActionHashFixesIntent(h: Json -> string, i: Intent, j: Intent)
    requires CollisionFree(h) && h(ActionHashInput(i)) == h(ActionHashInput(j))
    ensures i.(rest := j.rest) == j
  {
    ActionHashInputInjective(i, j);
  }

  lemma ActionHashInputInjective(i: Intent, j: Intent)
    requires ActionHashInput(i) == ActionHashInput(j)
    ensures i.(rest := j.rest) == j
  {
    hide ActionJson, TargetJson;
    var x, y := ActionHashInput(i).fields, ActionHashInput(j).fields;
    assert x == y;
    assert x["intent_id"] == y["intent_id"] && x["tenant"] == y["tenant"] && x["requester"] == y["requester"];
    assert x["issued_at"] == y["issued_at"] && x["expires_at"] == y["expires_at"];
    assert x["action"] == y["action"] && x["target"] == y["target"];
    ActionJsonInjective(i.action, j.action);
    TargetJsonInjective(i.target, j.target);
  }

  lemma WithInjective(base: Dict, key: string, value: Option<Json>, base': Dict, value': Option<Json>)
    requires key !in base && key !in base' && With(base, key, value) == With(base', key, value')
    ensures base == base' && value == value'
  {
    assert base == With(base, key, value) - {key} && base' == With(base', key, value') - {key};
    assert key in With(base, key, value) <==> value.Some?;
    assert key in With(base', key, value') <==> value'.Some?;
  }

  lemma ActionJsonInjective(a: Action, b: Action)
    requires ActionJson(a) == ActionJson(b)
    ensures a == b
  {
    var x := map["name" := Str(a.name), "capability" := Str(a.capability), "parameters" := Obj(a.parameters)];
    var y := map["name" := Str(b.name), "capability" := Str(b.capability), "parameters" := Obj(b.parameters)];
    WithInjective(With(x, "constraints", Unless(a.constraints)), "scope", Unless(a.scope),
                  With(y, "constraints", Unless(b.constraints)), Unless(b.scope));
    WithInjective(x, "constraints", Unless(a.constraints), y, Unless(b.constraints));
    assert x["name"] == y["name"] && x["capability"] == y["capability"] && x["parameters"] == y["parameters"];
  }

  lemma TargetJsonInjective(a: Target, b: Target)
    requires TargetJson(a) == TargetJson(b)
    ensures a == b
  {
    var x := map["resource_type" := Str(a.resourceType), "resource_id" := Str(a.resourceId)];
    var y := map["resource_type" := Str(b.resourceType), "resource_id" := Str(b.resourceId)];
    WithInjective(With(x, "uri", a.uri), "selectors", Unless(a.selectors), With(y, "uri", b.uri), Unless(b.selectors));
    WithInjective(x, "uri", a.uri, y, b.uri);
    assert x["resource_type"] == y["resource_type"] && x["resource_id"] == y["resource_id"];
  }

  lemma AudienceJsonInjective(a: Audience, b: Audience)
    requires AudienceJson(a) == AudienceJson(b)
    ensures a == b
  {
    var x, y := map["type" := Str(a.kind), "id" := Str(a.id)], map["type" := Str(b.kind), "id" := Str(b.id)];
    WithInjective(x, "uri", if a.uri.Some? then Some(Str(a.uri.value)) else None,
                  y, if b.uri.Some? then Some(Str(b.uri.value)) else None);
    assert x["type"] == y["type"] && x["id"] == y["id"];
  }

  lemma ActionHashJsonInjective(a: ActionHash, b: ActionHash)
    requires ActionHashJson(a) == ActionHashJson(b)
    ensures a == b
  {
    var x, y := ActionHashJson(a).fields, ActionHashJson(b).fields;
    assert x["algorithm"] == y["algorithm"] && x["canonicalization"] == y["canonicalization"];
    assert x["value"] == y["value"];
  }

  lemma IntentJsonIff(i: Intent, j: Intent)
    requires IntentJson(i).Some?
    ensures IntentJson(i) == IntentJson(j) <==> SameIntent(i, j)
  {
    hide ActionHashInput, Canon;
    if IntentJson(i) == IntentJson(j) {
      var x, y := IntentJson(i).value.fields, IntentJson(j).value.fields;
      assert x["signed"] == y["signed"] && x["rest"] == y["rest"];
      ActionHashInputInjective(i, j);
    }
    if SameIntent(i, j) {
      SameSigned(i, j);
    }
  }

  lemma SameSigned(i: Intent, j: Intent)
    requires i.(rest := j.rest) == j
    ensures ActionHashInput(i) == ActionHashInput(j)
  {
  }

  lemma ProofJsonInjective(p: Proof, q: Proof)
    requires ProofJson(p) == ProofJson(q)
    ensures p == q
  {
    hide AudienceJson, ActionHashJson;
    var x, y := ProofJson(p).fields, ProofJson(q).fields;
    assert x["pccb_id"] == y["pccb_id"] && x["nonce"] == y["nonce"] && x["expires_at"] == y["expires_at"];
    assert x["action_hash"] == y["action_hash"] && x["audience"] == y["audience"];
    assert x["has_effect"] == y["has_effect"] && x["rest"] == y["rest"];
    ActionHashJsonInjective(p.actionHash, q.actionHash);
    AudienceJsonInjective(p.audience, q.audience);
  }

  /** In memory, two proofs share a key exactly when they are the same proof. */
  lemma MemoryKeyIsIdentity(h: Json -> string, p: Proof, q: Proof)
    requires CollisionFree(h)
    ensures MemoryKey(h, p) == MemoryKey(h, q) <==> IdentityOf(p) == IdentityOf(q)
  {
    hide AudienceJson, ActionHashJson;
    if MemoryKey(h, p) == MemoryKey(h, q) {
      var x, y := MemoryKeyInput(p).fields, MemoryKeyInput(q).fields;
      assert x == y;
      assert x["pccb_id"] == y["pccb_id"] && x["nonce"] == y["nonce"];
      assert x["action_hash"] == y["action_hash"] && x["audience"] == y["audience"];
      ActionHashJsonInjective(p.actionHash, q.actionHash);
      AudienceJsonInjective(p.audience, q.audience);
    }
  }

  /** The store's key also names intent id, capability and target, but for proofs bound
      to their intents by the action hash it still identifies the proof and nothing else. */
  lemma StoreKeyIsIdentity(h: Json -> string, i: Intent, p: Proof, j: Intent, q: Proof)
    requires CollisionFree(h)
    requires p.actionHash.value == h(ActionHashInput(i)) && q.actionHash.value == h(ActionHashInput(j))
    ensures StoreKey(h, i, p) == StoreKey(h, j, q) <==> IdentityOf(p) == IdentityOf(q)
  {
    hide AudienceJson, ActionHashJson, TargetJson, ActionHashInput;
    if StoreKey(h, i, p) == StoreKey(h, j, q) {
      assert StoreKey(h, i, p)[4..] == h(StoreKeyInput(i, p)) && StoreKey(h, j, q)[4..] == h(StoreKeyInput(j, q));
      var x, y := StoreKeyInput(i, p).fields, StoreKeyInput(j, q).fields;
      assert x == y;
      assert x["pccb_id"] == y["pccb_id"] && x["nonce"] == y["nonce"];
      assert x["action_hash"] == y["action_hash"] && x["audience"] == y["audience"];
      ActionHashJsonInjective(p.actionHash, q.actionHash);
      AudienceJsonInjective(p.audience, q.audience);
    }
    if IdentityOf(p) == IdentityOf(q) {
      ActionHashFixesIntent(h, i, j);
    }
  }
}
