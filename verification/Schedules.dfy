/** Schedule records, their signed intents, and the agent's admission checks. */
module Schedules {
  import opened Wrappers
  import opened Unicode
  import opened CanonicalJson
  import JsonReader
  import opened TextAgreement
  import opened Slugs

  const I64_MAX: nat := 0x7fff_ffff_ffff_ffff
  const MAX_AUTHORIZATION_LEASE_TTL_MS: nat := 86400000
  const INTENT_DOMAIN: string := "awesome-workflow:authorization-intent:v1\n"
  const NIL_UUID: string := "00000000-0000-4000-8000-000000000000"

  type U64 = n: nat | n <= 0xffff_ffff_ffff_ffff

  /** The functions the agent takes from elsewhere: UUID syntax, SHA-256, cron and time zones. */
  datatype World = World(
    isUuid: string -> bool,
    sha256: string -> string,
    recurrence: (string, string) -> bool,
    occurrence: (string, string, nat) -> Option<int>)

  datatype TaskKind = ScheduleTask | RunTask

  datatype Lease = Lease(
    schemaVersion: nat, leaseId: string, revision: nat, deviceId: string, applicationId: string,
    releaseId: string, appId: string, version: string, kind: TaskKind, taskId: string,
    capabilityHash: string, intentHash: string, issuedAt: nat, expiresAt: nat,
    algorithm: string, keyId: string, signature: string)

  /** A schedule record without its authorization: what the control plane signs. */
  datatype Intent = Intent(
    scheduleId: string, revision: nat, applicationId: string, releaseId: string, appId: string,
    version: Option<string>, cron: string, timezone: string, nextRunAtMs: nat,
    args: seq<string>, enabled: bool)

  datatype Schedule = Schedule(intent: Intent, lease: Option<Lease>)

  // ----- The signed payload -----

  function Strings(args: seq<string>): Json
  {
    Arr(seq(|args|, i requires 0 <= i < |args| => Str(args[i])))
  }

  function IntentJson(i: Intent): Json
  {
    var fields := map[
      "scheduleId" := Str(i.scheduleId), "revision" := Num(i.revision), "applicationId" := Str(i.applicationId),
      "releaseId" := Str(i.releaseId), "appId" := Str(i.appId), "cronExpression" := Str(i.cron),
      "timezone" := Str(i.timezone), "nextRunAtMs" := Num(i.nextRunAtMs), "args" := Strings(i.args),
      "enabled" := Bool(i.enabled)];
    Obj(if i.version.Some? then fields["version" := Str(i.version.value)] else fields)
  }

  ghost function IntentPayload(e: Encoding, i: Intent): string { INTENT_DOMAIN + Canon(e, IntentJson(i)) }

  ghost function IntentHash(world: World, i: Intent): string { world.sha256(IntentPayload(Utf8, i)) }

  lemma StringsInjective(a: seq<string>, b: seq<string>)
    requires Strings(a) == Strings(b)
    ensures a == b
  {
    forall i | 0 <= i < |a| ensures a[i] == b[i] {
      assert Strings(a).items[i] == Strings(b).items[i];
    }
  }

  lemma IntentFields(i: Intent)
    ensures var f := IntentJson(i).fields;
      f.Keys == IntentKeys() + (if i.version.Some? then {"version"} else {})
      && f["scheduleId"] == Str(i.scheduleId) && f["revision"] == Num(i.revision)
      && f["applicationId"] == Str(i.applicationId) && f["releaseId"] == Str(i.releaseId)
      && f["appId"] == Str(i.appId) && f["cronExpression"] == Str(i.cron) && f["timezone"] == Str(i.timezone)
      && f["nextRunAtMs"] == Num(i.nextRunAtMs) && f["args"] == Strings(i.args) && f["enabled"] == Bool(i.enabled)
      && (i.version.Some? ==> f["version"] == Str(i.version.value))
  {
    hide Strings;
  }

  function IntentKeys(): set<string>
  {
    {"scheduleId", "revision", "applicationId", "releaseId", "appId", "cronExpression", "timezone",
     "nextRunAtMs", "args", "enabled"}
  }

  lemma IntentJsonInjective(a: Intent, b: Intent)
    requires IntentJson(a) == IntentJson(b)
    ensures a == b
  {
    hide IntentJson, Strings;
    IntentFields(a);
    IntentFields(b);
    assert "version" !in IntentKeys();
    assert a.version.Some? <==> b.version.Some?;
    StringsInjective(a.args, b.args);
  }

  /** The hashed payload binds every field of the intent. */
  lemma PayloadBindsIntent(e: Encoding, a: Intent, b: Intent)
    ensures IntentPayload(e, a) == IntentPayload(e, b) <==> a == b
  {
    if IntentPayload(e, a) == IntentPayload(e, b) {
      Cancel(INTENT_DOMAIN, INTENT_DOMAIN, Canon(e, IntentJson(a)), Canon(e, IntentJson(b)));
      JsonReader.CanonInjective(e, IntentJson(a), IntentJson(b));
      IntentJsonInjective(a, b);
    }
  }

  predicate AsciiText(k: string) { forall i :: 0 <= i < |k| ==> IsAscii(k[i]) }

  lemma KeysAreAscii(k: string)
    requires k in IntentKeys() + {"version"}
    ensures AsciiText(k)
  {}

  /** The agent recomputes the very payload the control plane signed. */
  lemma PayloadAgrees(i: Intent)
    ensures IntentPayload(Utf8, i) == IntentPayload(Utf16, i)
  {
    hide IntentKeys;
    var v := IntentJson(i);
    IntentFields(i);
    forall k | k in v.fields ensures Over(k, Ascii()) && KeysWithin(v.fields[k], Ascii()) {
      KeysAreAscii(k);
      AsciiHasAll(k);
    }
    CanonAgree(v, Ascii());
  }

  /** No other payload has the digest of this intent's. */
  ghost predicate NoSecondPreimage(world: World, i: Intent)
  {
    forall text :: world.sha256(text) == IntentHash(world, i) ==> text == IntentPayload(Utf8, i)
  }

  lemma HashBindsIntent(world: World, a: Intent, b: Intent)
    requires NoSecondPreimage(world, a) && IntentHash(world, a) == IntentHash(world, b)
    ensures a == b
  {
    PayloadBindsIntent(Utf8, a, b);
  }

  // ----- Admission -----

  function ByteLength(s: string): nat { |Encode(Utf8, s)| }

  predicate IsSha256(s: string)
  {
    |s| == 64 && forall i :: 0 <= i < |s| ==> '0' <= s[i] <= '9' || 'a' <= s[i] <= 'f'
  }

  predicate LeaseValid(world: World, l: Lease)
  {
    l.schemaVersion == 1 && 0 < l.revision <= MAX_SAFE_INTEGER
    && world.isUuid(l.leaseId) && world.isUuid(l.deviceId) && world.isUuid(l.applicationId)
    && world.isUuid(l.releaseId) && world.isUuid(l.taskId)
    && IsApplicationSlug(Encode(Utf8, l.appId)) && IsContractSemver(Encode(Utf8, l.version))
    && IsSha256(l.capabilityHash) && IsSha256(l.intentHash)
    && l.issuedAt < l.expiresAt && l.expiresAt - l.issuedAt <= MAX_AUTHORIZATION_LEASE_TTL_MS
    && l.algorithm == "ed25519" && 0 < ByteLength(l.keyId) <= 160
  }

  /** The lease was issued for this very record. */
  ghost predicate LeaseScopes(world: World, i: Intent, l: Lease)
  {
    l.kind == ScheduleTask && l.taskId == i.scheduleId && l.revision == i.revision
    && l.applicationId == i.applicationId && l.releaseId == i.releaseId && l.appId == i.appId
    && (i.version.Some? ==> i.version.value == l.version)
    && l.intentHash == IntentHash(world, i)
  }

  predicate IntentValid(world: World, i: Intent)
  {
    world.isUuid(i.scheduleId) && 0 < i.revision <= MAX_SAFE_INTEGER
    && world.isUuid(i.applicationId) && world.isUuid(i.releaseId)
    && IsApplicationSlug(Encode(Utf8, i.appId))
    && (i.version.Some? ==> IsContractSemver(Encode(Utf8, i.version.value)))
    && 0 < ByteLength(i.cron) <= 160 && 0 < ByteLength(i.timezone) <= 120
    && i.nextRunAtMs <= MAX_SAFE_INTEGER
    && |i.args| <= 256 && forall k :: 0 <= k < |i.args| ==> ByteLength(i.args[k]) <= 8192
  }

  ghost predicate Valid(world: World, s: Schedule)
  {
    IntentValid(world, s.intent)
    && (s.lease.Some? ==> LeaseValid(world, s.lease.value) && LeaseScopes(world, s.intent, s.lease.value))
  }

  /** `next_occurrence_after`: a refusal is `None`. */
  ghost function NextOccurrence(world: World, s: Schedule, after: nat): (next: Option<nat>)
    ensures next.Some? ==> Valid(world, s) && after < next.value <= MAX_SAFE_INTEGER
  {
    if !Valid(world, s) || !world.recurrence(s.intent.cron, s.intent.timezone) || after > I64_MAX then None
    else
      match world.occurrence(s.intent.cron, s.intent.timezone, after)
      case None => None
      case Some(n) => if n < 0 || n <= after || n > MAX_SAFE_INTEGER then None else Some(n)
  }

  /** Cron, in the schedule's time zone, runs next at `next`, which is later and a safe integer. */
  ghost predicate CronGives(world: World, cron: string, timezone: string, after: nat, next: int)
  {
    after <= I64_MAX && world.recurrence(cron, timezone) && world.occurrence(cron, timezone, after) == Some(next)
    && after < next <= MAX_SAFE_INTEGER
  }

  ghost predicate CronGoesOn(world: World, cron: string, timezone: string, after: nat)
  {
    exists next :: CronGives(world, cron, timezone, after, next)
  }

  lemma NextIsCrons(world: World, s: Schedule, after: nat)
    ensures NextOccurrence(world, s, after).Some? <==>
              Valid(world, s) && CronGoesOn(world, s.intent.cron, s.intent.timezone, after)
    ensures NextOccurrence(world, s, after).Some? ==>
              CronGives(world, s.intent.cron, s.intent.timezone, after, NextOccurrence(world, s, after).value)
  {
    hide Valid;
    var (cron, timezone) := (s.intent.cron, s.intent.timezone);
    if NextOccurrence(world, s, after).Some? {
      assert CronGives(world, cron, timezone, after, NextOccurrence(world, s, after).value);
    }
    if CronGoesOn(world, cron, timezone, after) {
      var next :| CronGives(world, cron, timezone, after, next);
    }
  }

  // ----- Messages from the control plane -----

  datatype Snapshot = Snapshot(revision: nat, schedules: seq<Schedule>)

  datatype Delta = Delta(fromRevision: nat, toRevision: nat, upserts: seq<Schedule>, removed: seq<string>)

  ghost predicate UniqueIds(records: seq<Schedule>)
  {
    forall i, j :: 0 <= i < j < |records| ==> records[i].intent.scheduleId != records[j].intent.scheduleId
  }

  ghost function Ids(records: seq<Schedule>): set<string>
  {
    set i | 0 <= i < |records| :: records[i].intent.scheduleId
  }

  ghost function Find(records: seq<Schedule>, id: string): (s: Schedule)
    requires id in Ids(records)
    ensures s in records && s.intent.scheduleId == id
  {
    var i :| 0 <= i < |records| && records[i].intent.scheduleId == id;
    records[i]
  }

  lemma FindAt(records: seq<Schedule>, i: nat)
    requires UniqueIds(records) && i < |records|
    ensures records[i].intent.scheduleId in Ids(records) && Find(records, records[i].intent.scheduleId) == records[i]
  {
    var s := Find(records, records[i].intent.scheduleId);
    var j :| 0 <= j < |records| && records[j] == s;
    assert i == j;
  }

  ghost predicate AllValid(world: World, records: seq<Schedule>)
  {
    forall i :: 0 <= i < |records| ==> Valid(world, records[i])
  }

  ghost predicate SnapshotValid(world: World, s: Snapshot)
  {
    s.revision <= MAX_SAFE_INTEGER && AllValid(world, s.schedules) && UniqueIds(s.schedules)
  }

  ghost predicate DeltaValid(world: World, d: Delta)
  {
    d.fromRevision <= d.toRevision <= MAX_SAFE_INTEGER
    && AllValid(world, d.upserts) && UniqueIds(d.upserts)
    && (forall i :: 0 <= i < |d.removed| ==> world.isUuid(d.removed[i]) && d.removed[i] !in Ids(d.upserts))
    && (forall i, j :: 0 <= i < j < |d.removed| ==> d.removed[i] != d.removed[j])
    && (d.toRevision == d.fromRevision ==> d.upserts == [] && d.removed == [])
  }

  // ----- Stored rows -----

  /** A row of the schedules table; the key is the schedule id. */
  datatype Row = Row(
    appId: string, version: Option<string>, cron: string, timezone: string,
    nextRunAtMs: nat, args: seq<string>, enabled: bool, lease: Option<Lease>)

  function RowOf(s: Schedule): Row
  {
    Row(s.intent.appId, s.intent.version, s.intent.cron, s.intent.timezone, s.intent.nextRunAtMs,
        s.intent.args, s.intent.enabled, s.lease)
  }

  /** `ScheduleRow::into_record`: fields that are not stored come from the lease, or are made up. */
  function ToRecord(id: string, r: Row): Schedule
  {
    var (revision, applicationId, releaseId) :=
      if r.lease.Some? then (r.lease.value.revision, r.lease.value.applicationId, r.lease.value.releaseId)
      else (1, NIL_UUID, NIL_UUID);
    Schedule(Intent(id, revision, applicationId, releaseId, r.appId, r.version, r.cron, r.timezone,
                    r.nextRunAtMs, r.args, r.enabled), r.lease)
  }

  /** A signed record survives storing and reloading unchanged. */
  lemma SignedReload(world: World, s: Schedule)
    requires Valid(world, s) && s.lease.Some?
    ensures ToRecord(s.intent.scheduleId, RowOf(s)) == s
  {}

  /** An unsigned one does exactly when its unstored fields are the made-up ones. */
  lemma UnsignedReload(s: Schedule)
    requires s.lease.None?
    ensures ToRecord(s.intent.scheduleId, RowOf(s)) == s <==>
              s.intent.revision == 1 && s.intent.applicationId == NIL_UUID && s.intent.releaseId == NIL_UUID
  {}

  /** `normalize_synced_schedule`. */
  ghost function Normalize(world: World, s: Schedule, now: nat): Schedule
  {
    var i := s.intent;
    if !i.enabled then s
    else if !world.recurrence(i.cron, i.timezone) then s.(intent := i.(enabled := false))
    else if s.lease.Some? then s
    else if i.nextRunAtMs <= now then
      match NextOccurrence(world, s, now)
      case Some(next) => s.(intent := i.(nextRunAtMs := next))
      case None => s.(intent := i.(enabled := false))
    else s
  }
}
