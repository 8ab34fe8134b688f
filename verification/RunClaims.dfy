/** Run claims from the control plane: the signed intent of a run, and the agent's checks of a claim and its lease. */
module RunClaims {
  import opened Wrappers
  import opened Unicode
  import opened CanonicalJson
  import JsonReader
  import opened TextAgreement
  import opened AgentJson
  import opened Slugs
  import opened Schedules
  import opened AuthorizationClock

  /** A run claim without its authorization: what the control plane signs. */
  datatype RunIntent = RunIntent(
    runId: string, attempt: nat, appId: string, version: string, args: seq<string>, requiresElevation: bool)

  datatype Claim = Claim(intent: RunIntent, lease: Option<Lease>)

  // ----- The signed payload -----

  function RunKeys(): set<string> { {"runId", "attempt", "appId", "version", "args", "requiresElevation"} }

  function RunJson(i: RunIntent): Json
  {
    Obj(map[
      "runId" := Str(i.runId), "attempt" := Num(i.attempt), "appId" := Str(i.appId), "version" := Str(i.version),
      "args" := Strings(i.args), "requiresElevation" := Bool(i.requiresElevation)])
  }

  ghost function RunPayload(e: Encoding, i: RunIntent): string { INTENT_DOMAIN + Canon(e, RunJson(i)) }

  ghost function RunIntentHash(world: World, i: RunIntent): string { world.sha256(RunPayload(Utf8, i)) }

  lemma RunFields(i: RunIntent)
    ensures var f := RunJson(i).fields;
      f.Keys == RunKeys()
      && f["runId"] == Str(i.runId) && f["attempt"] == Num(i.attempt) && f["appId"] == Str(i.appId)
      && f["version"] == Str(i.version) && f["args"] == Strings(i.args)
      && f["requiresElevation"] == Bool(i.requiresElevation)
  {
    hide Strings;
  }

  /** The hashed payload binds every field of the intent. */
  lemma RunPayloadBinds(e: Encoding, a: RunIntent, b: RunIntent)
    ensures RunPayload(e, a) == RunPayload(e, b) <==> a == b
  {
    hide RunJson, Strings;
    if RunPayload(e, a) == RunPayload(e, b) {
      Cancel(INTENT_DOMAIN, INTENT_DOMAIN, Canon(e, RunJson(a)), Canon(e, RunJson(b)));
      JsonReader.CanonInjective(e, RunJson(a), RunJson(b));
      RunFields(a);
      RunFields(b);
      StringsInjective(a.args, b.args);
    }
  }

  /** A lease signed for a run never fits a schedule, nor the other way round, though both share one domain prefix. */
  lemma RunIsNoSchedule(e: Encoding, run: RunIntent, schedule: Intent)
    ensures RunPayload(e, run) != IntentPayload(e, schedule)
  {
    hide RunJson, IntentJson;
    KeysDiffer(run, schedule);
    if RunPayload(e, run) == IntentPayload(e, schedule) {
      Cancel(INTENT_DOMAIN, INTENT_DOMAIN, Canon(e, RunJson(run)), Canon(e, IntentJson(schedule)));
      JsonReader.CanonInjective(e, RunJson(run), IntentJson(schedule));
    }
  }

  lemma KeysDiffer(run: RunIntent, schedule: Intent)
    ensures RunJson(run) != IntentJson(schedule)
  {
    hide RunJson, IntentJson, Strings;
    assert "runId" in RunKeys() && "runId" !in IntentKeys() + {"version"};
    RunFields(run);
    IntentFields(schedule);
  }

  lemma RunKeysAreAscii(k: string)
    requires k in RunKeys()
    ensures AsciiText(k)
  {}

  /** The agent recomputes the very payload the control plane signed. */
  lemma RunPayloadAgrees(i: RunIntent)
    ensures RunPayload(Utf8, i) == RunPayload(Utf16, i)
  {
    hide RunKeys;
    var v := RunJson(i);
    RunFields(i);
    forall k | k in v.fields ensures Over(k, Ascii()) && KeysWithin(v.fields[k], Ascii()) {
      RunKeysAreAscii(k);
      AsciiHasAll(k);
    }
    CanonAgree(v, Ascii());
  }

  /** No other payload has the digest of this intent's. */
  ghost predicate NoOtherRun(world: World, i: RunIntent)
  {
    forall text :: world.sha256(text) == RunIntentHash(world, i) ==> text == RunPayload(Utf8, i)
  }

  lemma RunHashBinds(world: World, a: RunIntent, b: RunIntent)
    requires NoOtherRun(world, a) && RunIntentHash(world, a) == RunIntentHash(world, b)
    ensures a == b
  {
    RunPayloadBinds(Utf8, a, b);
  }

  method HashRunIntent(world: World, i: RunIntent) returns (hash: string)
    ensures hash == RunIntentHash(world, i)
  {
    var text := CanonicalText(RunJson(i));
    hash := world.sha256(INTENT_DOMAIN + text);
  }

  // ----- Admission -----

  predicate RunIntentValid(world: World, i: RunIntent)
  {
    world.isUuid(i.runId) && 0 < i.attempt <= MAX_SAFE_INTEGER
    && IsApplicationSlug(Encode(Utf8, i.appId)) && IsContractSemver(Encode(Utf8, i.version))
    && |i.args| <= 256 && forall k :: 0 <= k < |i.args| ==> ByteLength(i.args[k]) <= 8192
  }

  /** The lease was issued for this very run. */
  ghost predicate RunLeaseScopes(world: World, i: RunIntent, l: Lease)
  {
    l.kind == RunTask && l.taskId == i.runId && l.revision == i.attempt && l.appId == i.appId && l.version == i.version
    && l.intentHash == RunIntentHash(world, i)
  }

  ghost predicate ClaimValid(world: World, c: Claim)
  {
    RunIntentValid(world, c.intent)
    && (c.lease.Some? ==> LeaseValid(world, c.lease.value) && RunLeaseScopes(world, c.intent, c.lease.value))
  }

  method ValidateClaim(world: World, c: Claim) returns (ok: bool)
    ensures ok <==> ClaimValid(world, c)
  {
    hide RunIntentHash, IsApplicationSlug, IsContractSemver;
    if !RunIntentValid(world, c.intent) { return false; }
    if c.lease.None? { return true; }
    var l, i := c.lease.value, c.intent;
    if !LeaseValid(world, l) { return false; }
    if l.kind != RunTask || l.taskId != i.runId || l.revision != i.attempt || l.appId != i.appId
       || l.version != i.version
    {
      return false;
    }
    var hash := HashRunIntent(world, i);
    ok := l.intentHash == hash;
  }

  /** What the agent checks a stored claim against before it starts it. */
  datatype Authority = Authority(
    deviceId: string, capabilityHash: (string, string) -> Option<string>, verifies: Lease -> bool,
    now: string -> Option<nat>)

  /** The stored claim is installed, its lease verifies, is for exactly this intent and device, and is in force. */
  ghost predicate Authorized(world: World, a: Authority, c: Claim)
  {
    var i := c.intent;
    c.lease.Some? && a.capabilityHash(i.appId, i.version).Some? && a.verifies(c.lease.value)
    && RunIntentHash(world, i) == c.lease.value.intentHash && a.now(i.runId).Some?
    && ValidateScope(world, c.lease.value, ScopeOf(a, i), a.now(i.runId).value) == Accepted
  }

  function ScopeOf(a: Authority, i: RunIntent): Scope
  {
    var capabilities := a.capabilityHash(i.appId, i.version);
    Scope(a.deviceId, i.appId, i.version, RunTask, i.runId, i.attempt,
          if capabilities.Some? then capabilities.value else "")
  }

  /** The clock is read for this claim, and refuses. */
  ghost predicate ClockRefuses(world: World, a: Authority, c: Claim)
  {
    var i := c.intent;
    c.lease.Some? && a.capabilityHash(i.appId, i.version).Some? && a.verifies(c.lease.value)
    && RunIntentHash(world, i) == c.lease.value.intentHash && a.now(i.runId).None?
  }

  method CheckAuthority(world: World, a: Authority, c: Claim) returns (accepted: bool, refused: bool)
    ensures refused <==> ClockRefuses(world, a, c)
    ensures accepted <==> Authorized(world, a, c)
  {
    hide RunIntentHash, ValidateScope;
    var i := c.intent;
    if c.lease.None? || a.capabilityHash(i.appId, i.version).None? || !a.verifies(c.lease.value) {
      return false, false;
    }
    var hash := HashRunIntent(world, i);
    if hash != c.lease.value.intentHash { return false, false; }
    var now := a.now(i.runId);
    if now.None? { return false, true; }
    var verdict := ValidateScope(world, c.lease.value, ScopeOf(a, i), now.value);
    return verdict == Accepted, false;
  }

  /** What an authorized claim is about is, field by field, the intent that its lease was signed for. */
  lemma AuthorizedAsSigned(world: World, a: Authority, c: Claim, signed: RunIntent)
    requires Authorized(world, a, c) && c.lease.value.intentHash == RunIntentHash(world, signed)
    requires NoOtherRun(world, signed)
    ensures c.intent == signed
  {
    hide RunIntentHash, NoOtherRun, ValidateScope;
    RunHashBinds(world, signed, c.intent);
  }

  /**
   A stored claim is authorized exactly when it has a lease that verifies, is in force at the time the clock answers,
   was issued for this device, run, attempt and application version, for the capabilities of what is installed, and has
   the digest of the stored claim itself.
   */
  lemma AuthorizedIff(world: World, a: Authority, c: Claim)
    requires c.lease.Some? ==> c.lease.value.issuedAt <= U64_MAX
    ensures Authorized(world, a, c) <==>
              c.lease.Some? && a.verifies(c.lease.value) && LeaseValid(world, c.lease.value)
              && var (l, i) := (c.lease.value, c.intent);
                 a.now(i.runId).Some? && l.issuedAt <= a.now(i.runId).value + MAX_CLOCK_SKEW_MS
                 && a.now(i.runId).value < l.expiresAt
                 && l.kind == RunTask && l.taskId == i.runId && l.revision == i.attempt && l.deviceId == a.deviceId
                 && l.appId == i.appId && l.version == i.version
                 && a.capabilityHash(i.appId, i.version) == Some(l.capabilityHash)
                 && l.intentHash == RunIntentHash(world, i)
  {
    hide RunIntentHash, LeaseValid, ValidateScope;
    if c.lease.Some? && a.now(c.intent.runId).Some? {
      AcceptedIff(world, c.lease.value, ScopeOf(a, c.intent), a.now(c.intent.runId).value);
    }
  }
}
