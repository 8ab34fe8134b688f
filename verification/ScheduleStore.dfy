/** The agent's schedule table: synchronisation, lease refresh and claiming, one transaction each. */
module ScheduleStore {
  import opened Wrappers
  import opened Ordering
  import opened Unicode
  import opened AgentJson
  import opened Schedules

  datatype ScheduleError = Invalid | RevisionMismatch | ReplayOrDowngrade | OutOfRange

  datatype Store = Store(rows: map<string, Row>, revision: nat, offline: bool, lastSyncAt: Option<nat>)

  const EMPTY: Store := Store(map[], 0, true, None)

  // ----- What each transaction does -----

  /** `mark_sync_success`. */
  function Synced(st: Store, revision: nat, now: nat): Store
  {
    st.(revision := revision, offline := false, lastSyncAt := Some(now / 1000))
  }

  ghost function SyncedRows(world: World, records: seq<Schedule>, now: nat): (rows: map<string, Row>)
    ensures rows.Keys == Ids(records)
  {
    map id | id in Ids(records) :: RowOf(Normalize(world, Find(records, id), now))
  }

  /** An incoming lease that is older than the stored one, or a different one of the same age. */
  predicate Downgrade(stored: Lease, incoming: Lease)
  {
    incoming.revision < stored.revision
    || (incoming.revision == stored.revision && incoming.issuedAt < stored.issuedAt)
    || (incoming.revision == stored.revision && incoming.issuedAt == stored.issuedAt
        && incoming.leaseId != stored.leaseId)
  }

  ghost predicate RefreshAllowed(rows: map<string, Row>, records: seq<Schedule>)
  {
    forall i :: 0 <= i < |records| ==> Refreshable(rows, records[i])
  }

  predicate Refreshable(rows: map<string, Row>, s: Schedule)
  {
    var id := s.intent.scheduleId;
    s.lease.Some? && id in rows && rows[id].lease.Some? ==> !Downgrade(rows[id].lease.value, s.lease.value)
  }

  /** The record brings a new lease for a stored row. */
  predicate Refreshes(rows: map<string, Row>, s: Schedule) { s.lease.Some? && s.intent.scheduleId in rows }

  ghost function Refreshed(rows: map<string, Row>, records: seq<Schedule>): map<string, Row>
  {
    map id | id in rows ::
      if id in Ids(records) && Find(records, id).lease.Some? then rows[id].(lease := Find(records, id).lease)
      else rows[id]
  }

  ghost function ApplySnapshot(world: World, st: Store, s: Snapshot, now: nat): (Result<bool, ScheduleError>, Store)
  {
    if !SnapshotValid(world, s) then (Err(Invalid), st)
    else if s.revision < st.revision then (Ok(false), st)
    else if s.revision == st.revision then
      if !RefreshAllowed(st.rows, s.schedules) then (Err(ReplayOrDowngrade), st)
      else (Ok(false), Synced(st.(rows := Refreshed(st.rows, s.schedules)), st.revision, now))
    else (Ok(true), Synced(st.(rows := SyncedRows(world, s.schedules, now)), s.revision, now))
  }

  ghost function Removed(d: Delta): set<string> { set i | 0 <= i < |d.removed| :: d.removed[i] }

  ghost function ApplyDelta(world: World, st: Store, d: Delta, now: nat): (Result<bool, ScheduleError>, Store)
  {
    if !DeltaValid(world, d) then (Err(Invalid), st)
    else if d.fromRevision != st.revision then (Err(RevisionMismatch), st)
    else if d.toRevision == st.revision then (Ok(false), Synced(st, st.revision, now))
    else
      (Ok(true), Synced(st.(rows := (st.rows - Removed(d)) + SyncedRows(world, d.upserts, now)), d.toRevision, now))
  }

  predicate Due(r: Row, now: nat) { r.enabled && r.nextRunAtMs <= now }

  /** A due row moves to its next occurrence; one that cannot is disabled; others stay. */
  ghost function ClaimedRow(world: World, id: string, r: Row, now: nat): Row
  {
    if !Due(r, now) then r
    else
      match NextOccurrence(world, ToRecord(id, r), now)
      case Some(next) => r.(nextRunAtMs := next)
      case None => r.(enabled := false)
  }

  ghost predicate Claims(world: World, id: string, r: Row, now: nat)
  {
    Due(r, now) && NextOccurrence(world, ToRecord(id, r), now).Some?
  }

  ghost function ClaimedRows(world: World, rows: map<string, Row>, now: nat): map<string, Row>
  {
    map id | id in rows :: ClaimedRow(world, id, rows[id], now)
  }

  function DueIds(rows: map<string, Row>, now: nat): set<string>
  {
    set id | id in rows && Due(rows[id], now)
  }

  /** `ORDER BY next_run_at_ms, schedule_id`. */
  function DueKey(rows: map<string, Row>): string -> Key
  {
    (id: string) => [if id in rows then rows[id].nextRunAtMs else 0] + Encode(Utf8, id)
  }

  lemma DueKeyInjective(rows: map<string, Row>, ids: set<string>)
    ensures InjectiveOn(ids, DueKey(rows))
  {
    forall x, y | x in ids && y in ids && DueKey(rows)(x) == DueKey(rows)(y) ensures x == y {
      assert DueKey(rows)(x)[1..] == Encode(Utf8, x) && DueKey(rows)(y)[1..] == Encode(Utf8, y);
      EncodeInjective(Utf8, x, y);
    }
  }

  ghost function DueOrder(rows: map<string, Row>, now: nat): (ids: seq<string>)
    ensures Elements(ids) == DueIds(rows, now) && StrictlySorted(ids, DueKey(rows))
  {
    DueKeyInjective(rows, DueIds(rows, now));
    SortSet(DueIds(rows, now), DueKey(rows))
  }

  ghost function ClaimedRecords(world: World, rows: map<string, Row>, ids: seq<string>, now: nat): seq<Schedule>
  {
    if ids == [] then [] else
      var id := ids[|ids| - 1];
      ClaimedRecords(world, rows, ids[..|ids| - 1], now)
      + if id in rows && Claims(world, id, rows[id], now) then [ToRecord(id, rows[id])] else []
  }

  lemma DueOrderStored(rows: map<string, Row>, now: nat)
    ensures var ids := DueOrder(rows, now);
            forall i :: 0 <= i < |ids| ==> ids[i] in rows && Due(rows[ids[i]], now)
  {
    var ids := DueOrder(rows, now);
    forall i | 0 <= i < |ids| ensures ids[i] in rows && Due(rows[ids[i]], now) {
      assert ids[i] in Elements(ids);
    }
  }

  ghost function Claim(world: World, st: Store, now: nat): (Result<seq<Schedule>, ScheduleError>, Store)
  {
    if now > I64_MAX then (Err(OutOfRange), st)
    else
      (Ok(ClaimedRecords(world, st.rows, DueOrder(st.rows, now), now)), st.(rows := ClaimedRows(world, st.rows, now)))
  }

  // ----- The checks -----

  method AuthorizationIntentHash(world: World, i: Intent) returns (hash: string)
    ensures hash == IntentHash(world, i)
  {
    var text := CanonicalText(IntentJson(i));
    hash := world.sha256(INTENT_DOMAIN + text);
  }

  method ValidateRecord(world: World, s: Schedule) returns (ok: bool)
    ensures ok <==> Valid(world, s)
  {
    if !IntentValid(world, s.intent) { return false; }
    if s.lease.None? { return true; }
    var l, i := s.lease.value, s.intent;
    if !LeaseValid(world, l) { return false; }
    if l.kind != ScheduleTask || l.taskId != i.scheduleId || l.revision != i.revision
       || l.applicationId != i.applicationId || l.releaseId != i.releaseId || l.appId != i.appId
       || (i.version.Some? && i.version.value != l.version)
    {
      return false;
    }
    var hash := AuthorizationIntentHash(world, i);
    ok := l.intentHash == hash;
  }

  method ValidateRecords(world: World, records: seq<Schedule>) returns (ok: bool, ids: set<string>)
    ensures ok <==> AllValid(world, records) && UniqueIds(records)
    ensures ok ==> ids == Ids(records)
  {
    hide Valid;
    ids := {};
    for n := 0 to |records|
      invariant AllValid(world, records[..n]) && UniqueIds(records[..n])
      invariant ids == Ids(records[..n])
    {
      var valid := ValidateRecord(world, records[n]);
      RecordsNext(world, records, n);
      if !valid || records[n].intent.scheduleId in ids { return false, ids; }
      ids := ids + {records[n].intent.scheduleId};
    }
    assert records[..|records|] == records;
    ok := true;
  }

  lemma RecordsNext(world: World, records: seq<Schedule>, n: nat)
    requires n < |records| && AllValid(world, records[..n]) && UniqueIds(records[..n])
    ensures Ids(records[..n + 1]) == Ids(records[..n]) + {records[n].intent.scheduleId}
    ensures !Valid(world, records[n]) ==> !AllValid(world, records)
    ensures Valid(world, records[n]) ==> AllValid(world, records[..n + 1])
    ensures records[n].intent.scheduleId in Ids(records[..n]) ==> !UniqueIds(records)
    ensures records[n].intent.scheduleId !in Ids(records[..n]) ==> UniqueIds(records[..n + 1])
  {
    hide Valid;
    IdsNext(records, n);
    var id := records[n].intent.scheduleId;
    if id in Ids(records[..n]) {
      var j :| 0 <= j < n && records[..n][j].intent.scheduleId == id;
      assert records[j].intent.scheduleId == records[n].intent.scheduleId;
    } else {
      forall i | 0 <= i < n ensures records[i].intent.scheduleId != id {
        assert records[..n][i].intent.scheduleId in Ids(records[..n]);
      }
    }
    assert forall i :: 0 <= i < n ==> records[..n + 1][i] == records[..n][i];
  }

  lemma NotYetSeen(records: seq<Schedule>, n: nat)
    requires n < |records| && UniqueIds(records)
    ensures records[n].intent.scheduleId !in Ids(records[..n])
  {}

  lemma IdsNext(records: seq<Schedule>, n: nat)
    requires n < |records|
    ensures Ids(records[..n + 1]) == Ids(records[..n]) + {records[n].intent.scheduleId}
  {
    var a, b := records[..n], records[..n + 1];
    forall id | id in Ids(a) + {records[n].intent.scheduleId} ensures id in Ids(b) {
      if id in Ids(a) {
        var i :| 0 <= i < |a| && a[i].intent.scheduleId == id;
        assert b[i] == a[i];
      } else {
        assert b[n].intent.scheduleId == id;
      }
    }
    forall id | id in Ids(b) ensures id in Ids(a) + {records[n].intent.scheduleId} {
      var i :| 0 <= i < |b| && b[i].intent.scheduleId == id;
      if i < n { assert a[i] == b[i]; }
    }
  }

  method ValidateSnapshot(world: World, s: Snapshot) returns (ok: bool)
    ensures ok <==> SnapshotValid(world, s)
  {
    if s.revision > MAX_SAFE_INTEGER { return false; }
    var ids;
    ok, ids := ValidateRecords(world, s.schedules);
  }

  method ValidateDelta(world: World, d: Delta) returns (ok: bool)
    ensures ok <==> DeltaValid(world, d)
  {
    if d.fromRevision > MAX_SAFE_INTEGER || d.toRevision > MAX_SAFE_INTEGER || d.toRevision < d.fromRevision {
      return false;
    }
    var records, upserted := ValidateRecords(world, d.upserts);
    if !records { return false; }
    var removed: set<string> := {};
    for n := 0 to |d.removed|
      invariant removed == set i | 0 <= i < n :: d.removed[i]
      invariant forall i :: 0 <= i < n ==> world.isUuid(d.removed[i]) && d.removed[i] !in upserted
      invariant forall i, j :: 0 <= i < j < n ==> d.removed[i] != d.removed[j]
    {
      var id := d.removed[n];
      if !world.isUuid(id) || id in removed || id in upserted { return false; }
      removed := removed + {id};
    }
    ok := !(d.toRevision == d.fromRevision && (d.upserts != [] || d.removed != []));
  }

  method NextOccurrenceAfter(world: World, s: Schedule, after: nat) returns (next: Option<nat>)
    ensures next == NextOccurrence(world, s, after)
    ensures next.Some? <==> Valid(world, s) && CronGoesOn(world, s.intent.cron, s.intent.timezone, after)
    ensures next.Some? ==> CronGives(world, s.intent.cron, s.intent.timezone, after, next.value)
  {
    NextIsCrons(world, s, after);
    var valid := ValidateRecord(world, s);
    if !valid || !world.recurrence(s.intent.cron, s.intent.timezone) || after > I64_MAX { return None; }
    match world.occurrence(s.intent.cron, s.intent.timezone, after)
    case None => next := None;
    case Some(n) => next := if n < 0 || n <= after || n > MAX_SAFE_INTEGER then None else Some(n);
  }

  method NormalizeSynced(world: World, schedule: Schedule, now: nat) returns (normalized: Schedule)
    ensures normalized == Normalize(world, schedule, now)
  {
    normalized := schedule;
    if !normalized.intent.enabled { return; }
    if !world.recurrence(normalized.intent.cron, normalized.intent.timezone) {
      normalized := normalized.(intent := normalized.intent.(enabled := false));
      return;
    }
    // A signed schedule authorizes one exact occurrence, so it is not advanced here.
    if normalized.lease.Some? { return; }
    if normalized.intent.nextRunAtMs <= now {
      var next := NextOccurrenceAfter(world, normalized, now);
      match next
      case Some(n) => normalized := normalized.(intent := normalized.intent.(nextRunAtMs := n));
      case None => normalized := normalized.(intent := normalized.intent.(enabled := false));
    }
  }

  // ----- The database -----

  class ScheduleDatabase {
    const world: World
    var rows: map<string, Row>
    var revision: nat
    var offline: bool
    var lastSyncAt: Option<nat>

    ghost function State(): Store
      reads this
    {
      Store(rows, revision, offline, lastSyncAt)
    }

    constructor (world: World)
      ensures State() == EMPTY && this.world == world
    {
      this.world := world;
      rows, revision, offline, lastSyncAt := map[], 0, true, None;
    }

    method MarkSyncSuccess(table: map<string, Row>, to: nat, now: nat)
      modifies this
      ensures State() == Synced(old(State()).(rows := table), to, now)
    {
      rows, revision, offline, lastSyncAt := table, to, false, Some(now / 1000);
    }

    method MarkOffline()
      modifies this
      ensures State() == old(State()).(offline := true)
    {
      offline := true;
    }

    /** Writes the normalised records over a table. */
    method InsertAll(table: map<string, Row>, records: seq<Schedule>, now: nat) returns (r: map<string, Row>)
      requires UniqueIds(records)
      ensures r == table + SyncedRows(world, records, now)
    {
      hide Normalize, RowOf;
      r := table;
      for n := 0 to |records|
        invariant r.Keys == table.Keys + Ids(records[..n])
        invariant forall i :: 0 <= i < n ==> r[records[i].intent.scheduleId] == RowOf(Normalize(world, records[i], now))
        invariant forall id :: id in table && id !in Ids(records[..n]) ==> r[id] == table[id]
      {
        var normalized := NormalizeSynced(world, records[n], now);
        IdsNext(records, n);
        r := r[records[n].intent.scheduleId := RowOf(normalized)];
      }
      assert records[..|records|] == records;
      forall id | id in Ids(records) ensures r[id] == RowOf(Normalize(world, Find(records, id), now)) {
        var s := Find(records, id);
        var i :| 0 <= i < |records| && records[i] == s;
      }
    }

    /** Replaces the stored leases, or refuses all of them. */
    method RefreshAuthorizations(records: seq<Schedule>) returns (r: Option<map<string, Row>>)
      requires UniqueIds(records)
      ensures r == if RefreshAllowed(rows, records) then Some(Refreshed(rows, records)) else None
    {
      var table := rows;
      RefreshNothing(rows);
      assert records[..0] == [];
      for n := 0 to |records|
        invariant table == Refreshed(rows, records[..n]) && RefreshAllowed(rows, records[..n])
      {
        var id := records[n].intent.scheduleId;
        RefreshNext(rows, records, n);
        if records[n].lease.Some? {
          // An update of a row that is not there changes nothing.
          if id in table {
            var stored := table[id].lease;
            if stored.Some? && Downgrade(stored.value, records[n].lease.value) { return None; }
            table := table[id := table[id].(lease := records[n].lease)];
          }
        }
      }
      assert records[..|records|] == records;
      r := Some(table);
    }

    method ApplyScheduleSnapshot(snapshot: Snapshot, now: U64) returns (r: Result<bool, ScheduleError>)
      modifies this
      ensures (r, State()) == ApplySnapshot(world, old(State()), snapshot, now)
    {
      var valid := ValidateSnapshot(world, snapshot);
      if !valid { return Err(Invalid); }
      if snapshot.revision < revision { return Ok(false); }
      if snapshot.revision == revision {
        var table := RefreshAuthorizations(snapshot.schedules);
        if table.None? { return Err(ReplayOrDowngrade); }
        MarkSyncSuccess(table.value, revision, now);
        return Ok(false);
      }
      var table := InsertAll(map[], snapshot.schedules, now);
      assert map[] + SyncedRows(world, snapshot.schedules, now) == SyncedRows(world, snapshot.schedules, now);
      MarkSyncSuccess(table, snapshot.revision, now);
      r := Ok(true);
    }

    method ApplyScheduleDelta(delta: Delta, now: U64) returns (r: Result<bool, ScheduleError>)
      modifies this
      ensures (r, State()) == ApplyDelta(world, old(State()), delta, now)
    {
      var valid := ValidateDelta(world, delta);
      if !valid { return Err(Invalid); }
      if delta.fromRevision != revision { return Err(RevisionMismatch); }
      if delta.toRevision == revision {
        MarkSyncSuccess(rows, revision, now);
        return Ok(false);
      }
      var table := rows;
      for n := 0 to |delta.removed|
        invariant table == rows - set i | 0 <= i < n :: delta.removed[i]
      {
        table := table - {delta.removed[n]};
      }
      table := InsertAll(table, delta.upserts, now);
      MarkSyncSuccess(table, delta.toRevision, now);
      r := Ok(true);
    }

    method ClaimOne(rows: map<string, Row>, id: string, now: nat)
        returns (table: map<string, Row>, claimed: Option<Schedule>)
      requires id in rows && Due(rows[id], now)
      ensures table == rows[id := ClaimedRow(world, id, rows[id], now)]
      ensures claimed == if Claims(world, id, rows[id], now) then Some(ToRecord(id, rows[id])) else None
    {
      table, claimed := rows, None;
      var dueAt := rows[id].nextRunAtMs;
      var schedule := ToRecord(id, rows[id]);
      var next := NextOccurrenceAfter(world, schedule, now);
      match next {
        case Some(n) =>
          // The update is conditional on the row being as it was selected.
          if table[id].enabled && table[id].nextRunAtMs == dueAt {
            table := table[id := table[id].(nextRunAtMs := n)];
            claimed := Some(schedule);
          }
        case None =>
          if table[id].nextRunAtMs == dueAt { table := table[id := table[id].(enabled := false)]; }
      }
    }

    method ClaimDueSchedules(now: U64) returns (r: Result<seq<Schedule>, ScheduleError>)
      modifies this
      ensures (r, State()) == Claim(world, old(State()), now)
    {
      hide ClaimedRow, Claims, ToRecord, ClaimedAt, ClaimedRows, ClaimedRecords;
      if now > I64_MAX { return Err(OutOfRange); }
      var before := rows;
      DueKeyInjective(before, DueIds(before, now));
      var ids := SortElements(DueIds(before, now), DueKey(before));
      assert ids == DueOrder(before, now);
      DueOrderStored(before, now);
      ClaimNothing(world, before, now);
      var table, claimed := before, [];
      assert ids[..0] == [];
      for n := 0 to |ids|
        invariant State() == old(State())
        invariant table == ClaimedAt(world, before, ids[..n], now)
        invariant claimed == ClaimedRecords(world, before, ids[..n], now)
      {
        var schedule;
        ClaimNext(world, before, ids, n, now);
        table, schedule := ClaimOne(table, ids[n], now);
        if schedule.Some? { claimed := claimed + [schedule.value]; }
      }
      assert ids[..|ids|] == ids;
      ClaimedAll(world, before, now);
      rows := table;
      r := Ok(claimed);
    }
  }

  /** The table once the given rows have been handled. */
  ghost function ClaimedAt(world: World, rows: map<string, Row>, ids: seq<string>, now: nat): map<string, Row>
  {
    map id | id in rows :: if id in ids then ClaimedRow(world, id, rows[id], now) else rows[id]
  }

  lemma ClaimNothing(world: World, rows: map<string, Row>, now: nat)
    ensures ClaimedAt(world, rows, [], now) == rows && ClaimedRecords(world, rows, [], now) == []
  {}

  lemma ClaimNext(world: World, rows: map<string, Row>, ids: seq<string>, n: nat, now: nat)
    requires n < |ids| && StrictlySorted(ids, DueKey(rows)) && ids[n] in rows
    ensures ids[n] in ClaimedAt(world, rows, ids[..n], now)
        && ClaimedAt(world, rows, ids[..n], now)[ids[n]] == rows[ids[n]]
    ensures ClaimedAt(world, rows, ids[..n + 1], now)
         == ClaimedAt(world, rows, ids[..n], now)[ids[n] := ClaimedRow(world, ids[n], rows[ids[n]], now)]
    ensures ClaimedRecords(world, rows, ids[..n + 1], now)
         == ClaimedRecords(world, rows, ids[..n], now)
            + if Claims(world, ids[n], rows[ids[n]], now) then [ToRecord(ids[n], rows[ids[n]])] else []
  {
    hide ClaimedRow, Claims, ToRecord;
    DueOnce(ids, n, rows);
    assert ids[..n + 1] == ids[..n] + [ids[n]];
  }

  lemma ClaimedAll(world: World, rows: map<string, Row>, now: nat)
    ensures ClaimedAt(world, rows, DueOrder(rows, now), now) == ClaimedRows(world, rows, now)
  {
    var ids := DueOrder(rows, now);
    forall id | id in rows && id !in ids ensures ClaimedRow(world, id, rows[id], now) == rows[id] {
      assert id !in Elements(ids);
    }
  }

  lemma RefreshNothing(rows: map<string, Row>)
    ensures Refreshed(rows, []) == rows && RefreshAllowed(rows, [])
  {}

  lemma FindNext(records: seq<Schedule>, n: nat, id: string)
    requires n < |records| && UniqueIds(records) && id in Ids(records[..n + 1])
    ensures Find(records[..n + 1], id) == if id == records[n].intent.scheduleId then records[n] else Find(records, id)
    ensures id in Ids(records[..n]) ==> Find(records[..n], id) == Find(records, id)
  {
    var b := records[..n + 1];
    var i :| 0 <= i < |b| && b[i].intent.scheduleId == id;
    FindAt(b, i);
    FindAt(records, i);
    if id in Ids(records[..n]) {
      var j :| 0 <= j < n && records[..n][j].intent.scheduleId == id;
      FindAt(records[..n], j);
      FindAt(records, j);
    }
  }

  lemma RefreshNext(rows: map<string, Row>, records: seq<Schedule>, n: nat)
    requires n < |records| && UniqueIds(records)
    ensures var id := records[n].intent.scheduleId;
            var table := Refreshed(rows, records[..n]);
            (id in table <==> id in rows) && (id in rows ==> table[id] == rows[id])
            && Refreshed(rows, records[..n + 1])
               == if Refreshes(rows, records[n]) then table[id := table[id].(lease := records[n].lease)] else table
    ensures RefreshAllowed(rows, records[..n + 1]) <==>
        RefreshAllowed(rows, records[..n]) && Refreshable(rows, records[n])
    ensures RefreshAllowed(rows, records) ==> Refreshable(rows, records[n])
  {
    hide Refreshable;
    IdsNext(records, n);
    NotYetSeen(records, n);
    var a, b := records[..n], records[..n + 1];
    assert b[n] == records[n] && forall i :: 0 <= i < n ==> a[i] == b[i];
    forall id | id in rows && id in Ids(b)
      ensures Find(b, id) == if id == records[n].intent.scheduleId then records[n] else Find(a, id)
    {
      FindNext(records, n, id);
    }
  }

  lemma DueOnce(ids: seq<string>, n: nat, rows: map<string, Row>)
    requires n < |ids| && StrictlySorted(ids, DueKey(rows))
    ensures ids[n] !in ids[..n]
  {
    if ids[n] in ids[..n] {
      var i :| 0 <= i < n && ids[i] == ids[n];
      LessIrreflexive(DueKey(rows)(ids[n]));
    }
  }
}
