/**
 The contract schemas of what the control plane sends, against the agent's admission checks. The schemas count UTF-16
 units where the agent counts UTF-8 bytes, and do not bound a lease's lifetime.
 */
module Contracts {
  import opened Wrappers
  import opened Unicode
  import opened TextAgreement
  import opened Slugs
  import opened Schedules
  import opened ScheduleStore
  import opened RunClaims
  import opened InstallProtocol

  // ----- The schemas; `uuid` is theirs, and stricter than the agent's -----

  function UnitLength(s: string): nat { |Encode(Utf16, s)| }

  predicate Lengths(args: seq<string>, length: string -> nat)
  {
    |args| <= 256 && forall k :: 0 <= k < |args| ==> length(args[k]) <= 8192
  }

  ghost predicate SchemaSchedule(uuid: string -> bool, i: Schedules.Intent)
  {
    uuid(i.scheduleId) && 1 <= i.revision <= MAX_SAFE_INTEGER && uuid(i.applicationId) && uuid(i.releaseId)
    && MatchesSchema(Encode(Utf16, i.appId)) && (i.version.Some? ==> MatchesSemver(Encode(Utf16, i.version.value)))
    && 1 <= UnitLength(i.cron) <= 160 && 1 <= UnitLength(i.timezone) <= 120
    && i.nextRunAtMs <= MAX_SAFE_INTEGER && Lengths(i.args, UnitLength)
  }

  ghost predicate SchemaRun(uuid: string -> bool, i: RunIntent)
  {
    uuid(i.runId) && 1 <= i.attempt <= MAX_SAFE_INTEGER
    && MatchesSchema(Encode(Utf16, i.appId)) && MatchesSemver(Encode(Utf16, i.version)) && Lengths(i.args, UnitLength)
  }

  predicate LowerHex(s: string)
  {
    |s| == 64 && forall k :: 0 <= k < 64 ==> 'a' <= s[k] <= 'f' || '0' <= s[k] <= '9'
  }

  ghost predicate SchemaLease(uuid: string -> bool, l: Lease)
  {
    l.schemaVersion == 1 && uuid(l.leaseId) && 1 <= l.revision <= MAX_SAFE_INTEGER && uuid(l.deviceId)
    && uuid(l.applicationId) && uuid(l.releaseId) && uuid(l.taskId)
    && MatchesSchema(Encode(Utf16, l.appId)) && MatchesSemver(Encode(Utf16, l.version))
    && LowerHex(l.capabilityHash) && LowerHex(l.intentHash)
    && l.issuedAt < l.expiresAt <= MAX_SAFE_INTEGER
    && l.algorithm == "ed25519" && 1 <= UnitLength(l.keyId) <= 160 && 40 <= UnitLength(l.signature) <= 256
  }

  predicate IsWordUnit(c: char) { 'a' <= c <= 'z' || '0' <= c <= '9' || c == '_' }

  /** The expression `[a-z][a-z0-9_]*`, anchored at both ends. */
  predicate SchemaErrorCode(code: string)
  {
    1 <= |code| <= 160 && 'a' <= code[0] <= 'z' && forall k :: 0 <= k < |code| ==> IsWordUnit(code[k])
  }

  // ----- Units and bytes -----

  lemma {:induction false} UnitsAtMostBytes(s: string)
    ensures UnitLength(s) <= ByteLength(s) <= 3 * UnitLength(s) && (UnitLength(s) == 0 <==> s == "")
  {
    if s != "" { UnitsAtMostBytes(s[1..]); }
  }

  lemma {:induction false} AsciiLengths(s: string)
    requires AsciiText(s)
    ensures UnitLength(s) == ByteLength(s) == |s|
  {
    if s != "" {
      assert IsAscii(s[0]);
      forall k | 0 <= k < |s[1..]| ensures IsAscii(s[1..][k]) {
        assert s[1..][k] == s[k + 1];
      }
      AsciiLengths(s[1..]);
    }
  }

  /** What the agent asks of a schedule beyond the schema: the bounds in bytes. */
  predicate BytesFit(i: Schedules.Intent)
  {
    ByteLength(i.cron) <= 160 && ByteLength(i.timezone) <= 120 && Lengths(i.args, ByteLength)
  }

  ghost predicate Stricter(world: Schedules.World, uuid: string -> bool) { forall s :: uuid(s) ==> world.isUuid(s) }

  /**
   A schedule that the contract admits is admitted by the agent exactly when its texts are short enough in bytes too;
   and the agent admits nothing else that has the contract's identifiers.
   */
  lemma ScheduleAdmission(world: Schedules.World, uuid: string -> bool, i: Schedules.Intent)
    requires Stricter(world, uuid)
    ensures SchemaSchedule(uuid, i) && BytesFit(i) <==>
              IntentValid(world, i) && uuid(i.scheduleId) && uuid(i.applicationId) && uuid(i.releaseId)
  {
    hide MatchesSchema, MatchesSemver, IsApplicationSlug, IsContractSemver, UnitLength, ByteLength;
    SlugDefinitionsAgree(i.appId);
    if i.version.Some? { SemverDefinitionsAgree(i.version.value); }
    UnitsAtMostBytes(i.cron);
    UnitsAtMostBytes(i.timezone);
    BytesAndUnits(i.cron);
    BytesAndUnits(i.timezone);
    forall k | 0 <= k < |i.args| ensures UnitLength(i.args[k]) <= ByteLength(i.args[k]) {
      UnitsAtMostBytes(i.args[k]);
    }
  }

  lemma BytesAndUnits(s: string)
    ensures ByteLength(s) == 0 <==> UnitLength(s) == 0
  {
    UnitsAtMostBytes(s);
  }

  lemma RunAdmission(world: Schedules.World, uuid: string -> bool, i: RunIntent)
    requires Stricter(world, uuid)
    ensures SchemaRun(uuid, i) && Lengths(i.args, ByteLength) <==> RunIntentValid(world, i) && uuid(i.runId)
  {
    hide MatchesSchema, MatchesSemver, IsApplicationSlug, IsContractSemver, UnitLength, ByteLength;
    SlugDefinitionsAgree(i.appId);
    SemverDefinitionsAgree(i.version);
    forall k | 0 <= k < |i.args| ensures UnitLength(i.args[k]) <= ByteLength(i.args[k]) {
      UnitsAtMostBytes(i.args[k]);
    }
  }

  /** A lease that the contract admits is well formed for the agent exactly when it lasts at most a day. */
  lemma LeaseAdmission(world: Schedules.World, uuid: string -> bool, l: Lease)
    requires Stricter(world, uuid) && SchemaLease(uuid, l)
    ensures LeaseValid(world, l) <==> l.expiresAt <= l.issuedAt + 86400000 && ByteLength(l.keyId) <= 160
  {
    hide MatchesSchema, MatchesSemver, IsApplicationSlug, IsContractSemver, UnitLength, ByteLength;
    SlugDefinitionsAgree(l.appId);
    SemverDefinitionsAgree(l.version);
    BytesAndUnits(l.keyId);
  }

  /** The schema's scope checks of a schedule record and of a run claim. */
  predicate SchemaScheduleScope(i: Schedules.Intent, l: Lease)
  {
    !(l.kind != ScheduleTask || l.taskId != i.scheduleId || l.revision != i.revision
      || l.applicationId != i.applicationId || l.releaseId != i.releaseId || l.appId != i.appId
      || (i.version != None && i.version != Some(l.version)))
  }

  predicate SchemaRunScope(i: RunIntent, l: Lease)
  {
    !(l.kind != RunTask || l.taskId != i.runId || l.revision != i.attempt || l.appId != i.appId
      || l.version != i.version)
  }

  /** The agent checks the same scope, and that the lease was signed for this very intent. */
  lemma ScopeAdmission(world: Schedules.World, schedule: Schedules.Intent, run: RunIntent, l: Lease)
    ensures LeaseScopes(world, schedule, l) <==>
              SchemaScheduleScope(schedule, l) && l.intentHash == IntentHash(world, schedule)
    ensures RunLeaseScopes(world, run, l) <==> SchemaRunScope(run, l) && l.intentHash == RunIntentHash(world, run)
  {
    hide IntentHash, RunIntentHash;
  }

  /** The agent admits the contract's error codes and, besides, those that begin with a digit. */
  lemma ErrorCodeAdmission(code: string)
    ensures ErrorCodeValid(code) && !('0' <= code[0] <= '9') <==> SchemaErrorCode(code)
  {
    if ErrorCodeValid(code) {
      forall k | 0 <= k < |code| ensures IsWordUnit(code[k]) {
        assert k == 0 || IsCodeUnit(code[k]) || code[k] == '_';
      }
    }
    if SchemaErrorCode(code) {
      forall k | 0 < k < |code| ensures IsCodeUnit(code[k]) || code[k] == '_' {
        assert IsWordUnit(code[k]);
      }
      assert IsWordUnit(code[0]);
    }
  }

  // ----- What one record that does not fit does -----

  /** A snapshot with one schedule that is too long in bytes is refused as a whole, whatever is stored. */
  lemma OneStopsAll(world: Schedules.World, st: ScheduleStore.Store, s: Schedules.Snapshot, now: nat, k: nat)
    requires k < |s.schedules| && !BytesFit(s.schedules[k].intent)
    ensures ScheduleStore.ApplySnapshot(world, st, s, now) == (Err(ScheduleStore.Invalid), st)
  {
    assert !IntentValid(world, s.schedules[k].intent);
  }

  /** A text of letters with an accent: one unit each, and two bytes. */
  function Accented(n: nat): string { if n == 0 then "" else "\U{00E9}" + Accented(n - 1) }

  lemma {:induction false} AccentedLengths(n: nat)
    ensures UnitLength(Accented(n)) == n && ByteLength(Accented(n)) == 2 * n
  {
    if n > 0 {
      assert Accented(n)[1..] == Accented(n - 1) && Accented(n)[0] == '\U{00E9}';
      AccentedLengths(n - 1);
    }
  }

  /** Every schedule of the contract is refused by the agent when it is given a long enough accented argument. */
  lemma AccentedArgumentRefused(world: Schedules.World, uuid: string -> bool, i: Schedules.Intent)
    requires SchemaSchedule(uuid, i) && |i.args| < 256
    ensures var long := i.(args := i.args + [Accented(4097)]);
            SchemaSchedule(uuid, long) && !IntentValid(world, long)
  {
    hide MatchesSchema, MatchesSemver, IsApplicationSlug, IsContractSemver, UnitLength, ByteLength, Accented;
    var args := i.args + [Accented(4097)];
    AccentedLengths(4097);
    assert args[|i.args|] == Accented(4097);
    forall k | 0 <= k < |args| ensures UnitLength(args[k]) <= 8192 {
      if k < |i.args| { assert args[k] == i.args[k]; }
    }
  }

  /** Schedules whose texts are ASCII meet no such difference. */
  lemma AsciiSchedulesFit(uuid: string -> bool, i: Schedules.Intent)
    requires SchemaSchedule(uuid, i) && AsciiText(i.cron) && AsciiText(i.timezone)
    requires forall k :: 0 <= k < |i.args| ==> AsciiText(i.args[k])
    ensures BytesFit(i)
  {
    hide MatchesSchema, MatchesSemver, UnitLength, ByteLength, AsciiText;
    AsciiLengths(i.cron);
    AsciiLengths(i.timezone);
    forall k | 0 <= k < |i.args| ensures ByteLength(i.args[k]) <= 8192 {
      AsciiLengths(i.args[k]);
    }
  }
}
