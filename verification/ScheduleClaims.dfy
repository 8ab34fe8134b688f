/** What one claim does, and what repeated claims and refreshes do between two sync revisions. */
module ScheduleClaims {
  import opened Wrappers
  import opened Ordering
  import opened Schedules
  import opened ScheduleStore

  lemma {:induction false} ClaimedRecordsMembers(world: World, rows: map<string, Row>, ids: seq<string>, now: nat)
    ensures forall s :: s in ClaimedRecords(world, rows, ids, now) <==>
              exists i :: 0 <= i < |ids| && ids[i] in rows && Claims(world, ids[i], rows[ids[i]], now)
                          && s == ToRecord(ids[i], rows[ids[i]])
  {
    hide Claims, ToRecord;
    if ids != [] {
      var n := |ids| - 1;
      ClaimedRecordsMembers(world, rows, ids[..n], now);
      assert ids == ids[..n] + [ids[n]];
      assert forall i :: 0 <= i < n ==> ids[..n][i] == ids[i];
    }
  }

  /** A record is handed out exactly when its row is due and can move on. */
  lemma ClaimedExactly(world: World, st: Store, now: nat, s: Schedule)
    requires now <= I64_MAX
    ensures s in Claim(world, st, now).0.value <==>
              s.intent.scheduleId in st.rows && Claims(world, s.intent.scheduleId, st.rows[s.intent.scheduleId], now)
              && s == ToRecord(s.intent.scheduleId, st.rows[s.intent.scheduleId])
  {
    hide NextOccurrence;
    var ids, id := DueOrder(st.rows, now), s.intent.scheduleId;
    ClaimedRecordsMembers(world, st.rows, ids, now);
    if id in st.rows && Claims(world, id, st.rows[id], now) {
      assert id in Elements(ids);
      var i :| 0 <= i < |ids| && ids[i] == id;
    }
  }

  lemma {:induction false} ClaimedIdsDistinct(world: World, rows: map<string, Row>, ids: seq<string>, now: nat)
    requires forall i, j :: 0 <= i < j < |ids| ==> ids[i] != ids[j]
    ensures UniqueIds(ClaimedRecords(world, rows, ids, now))
    ensures forall s :: s in ClaimedRecords(world, rows, ids, now) ==> s.intent.scheduleId in ids
  {
    hide Claims;
    if ids != [] {
      var n := |ids| - 1;
      ClaimedIdsDistinct(world, rows, ids[..n], now);
      assert forall i :: 0 <= i < n ==> ids[..n][i] == ids[i];
    }
  }

  /**
   A claim leaves nothing due, hands out each schedule at most once and only records that are
   valid, moves or disables what was due, and leaves the rest alone.
   */
  lemma ClaimEffects(world: World, st: Store, now: nat)
    requires now <= I64_MAX
    ensures var (r, after) := Claim(world, st, now);
            r.Ok? && UniqueIds(r.value) && AllValid(world, r.value)
            && after.rows.Keys == st.rows.Keys
            && forall id :: id in st.rows ==>
                 !Due(after.rows[id], now) && (!Due(st.rows[id], now) ==> after.rows[id] == st.rows[id])
                 && after.rows[id].lease == st.rows[id].lease
                 && st.rows[id].nextRunAtMs <= after.rows[id].nextRunAtMs
  {
    hide Valid;
    var ids := DueOrder(st.rows, now);
    forall i, j | 0 <= i < j < |ids| ensures ids[i] != ids[j] {
      LessIrreflexive(DueKey(st.rows)(ids[j]));
    }
    ClaimedIdsDistinct(world, st.rows, ids, now);
    var records := ClaimedRecords(world, st.rows, ids, now);
    forall i | 0 <= i < |records| ensures Valid(world, records[i]) {
      ClaimedExactly(world, st, now, records[i]);
    }
  }

  /** Claiming again at the same time hands out nothing and changes nothing. */
  lemma ClaimTwice(world: World, st: Store, now: nat)
    requires now <= I64_MAX
    ensures var after := Claim(world, st, now).1; Claim(world, after, now) == (Ok([]), after)
  {
    hide NextOccurrence;
    var after := Claim(world, st, now).1;
    ClaimEffects(world, st, now);
    assert DueIds(after.rows, now) == {};
    NoElements(DueOrder(after.rows, now));
    assert ClaimedRows(world, after.rows, now) == after.rows;
  }

  // ----- Sequences of transactions -----

  datatype Transaction =
    | SyncSnapshot(snapshot: Snapshot, now: nat)
    | SyncDelta(delta: Delta, now: nat)
    | ClaimDue(now: nat)
    | GoOffline

  ghost function After(world: World, st: Store, t: Transaction): Store
  {
    match t
    case SyncSnapshot(s, now) => ApplySnapshot(world, st, s, now).1
    case SyncDelta(d, now) => ApplyDelta(world, st, d, now).1
    case ClaimDue(now) => Claim(world, st, now).1
    case GoOffline => st.(offline := true)
  }

  ghost function AfterAll(world: World, st: Store, ts: seq<Transaction>): Store
    decreases |ts|
  {
    if ts == [] then st else AfterAll(world, After(world, st, ts[0]), ts[1..])
  }

  /** The stored revision never decreases, and grows exactly when a message reports it was applied. */
  lemma RevisionGrows(world: World, st: Store, t: Transaction)
    ensures st.revision <= After(world, st, t).revision
    ensures st.revision < After(world, st, t).revision <==>
              (t.SyncSnapshot? && ApplySnapshot(world, st, t.snapshot, t.now).0 == Ok(true))
              || (t.SyncDelta? && ApplyDelta(world, st, t.delta, t.now).0 == Ok(true))
  {
    hide SnapshotValid, RefreshAllowed;
  }

  lemma {:induction false} RevisionMonotone(world: World, st: Store, ts: seq<Transaction>)
    ensures st.revision <= AfterAll(world, st, ts).revision
    decreases |ts|
  {
    hide After;
    if ts != [] {
      RevisionGrows(world, st, ts[0]);
      RevisionMonotone(world, After(world, st, ts[0]), ts[1..]);
    }
  }

  /** What a transaction that applies no revision does to one row. */
  lemma RowBetweenRevisions(world: World, st: Store, t: Transaction, id: string)
    requires After(world, st, t).revision == st.revision && id in st.rows
    ensures var rows := After(world, st, t).rows;
            id in rows && st.rows[id].nextRunAtMs <= rows[id].nextRunAtMs
            && (st.rows[id].lease.Some? ==>
                rows[id].lease.Some? && !Downgrade(st.rows[id].lease.value, rows[id].lease.value))
            && (rows[id].enabled ==> st.rows[id].enabled)
  {
    hide Valid;
    RevisionGrows(world, st, t);
    match t
    case SyncSnapshot(s, now) =>
      if SnapshotValid(world, s) && s.revision == st.revision && RefreshAllowed(st.rows, s.schedules)
         && id in Ids(s.schedules)
      {
        var i :| 0 <= i < |s.schedules| && s.schedules[i].intent.scheduleId == id;
        FindAt(s.schedules, i);
        assert Refreshable(st.rows, s.schedules[i]);
      }
    case ClaimDue(now) => if now <= I64_MAX { ClaimEffects(world, st, now); }
    case _ =>
  }

  lemma NotDowngradeTransitive(a: Lease, b: Lease, c: Lease)
    requires !Downgrade(a, b) && !Downgrade(b, c)
    ensures !Downgrade(a, c)
  {}

  /** Between two applied revisions a row keeps its key, moves only forward, and keeps the newest lease. */
  lemma {:induction false} RowsBetweenRevisions(world: World, st: Store, ts: seq<Transaction>, id: string)
    requires AfterAll(world, st, ts).revision == st.revision && id in st.rows
    ensures var rows := AfterAll(world, st, ts).rows;
            id in rows && st.rows[id].nextRunAtMs <= rows[id].nextRunAtMs
            && (st.rows[id].lease.Some? ==>
                rows[id].lease.Some? && !Downgrade(st.rows[id].lease.value, rows[id].lease.value))
    decreases |ts|
  {
    hide After, Downgrade;
    if ts == [] {
      if st.rows[id].lease.Some? { NotDowngradeItself(st.rows[id].lease.value); }
    } else {
      var next := After(world, st, ts[0]);
      RevisionGrows(world, st, ts[0]);
      RevisionMonotone(world, next, ts[1..]);
      RowBetweenRevisions(world, st, ts[0], id);
      RowsBetweenRevisions(world, next, ts[1..], id);
      if st.rows[id].lease.Some? {
        NotDowngradeTransitive(st.rows[id].lease.value, next.rows[id].lease.value,
                               AfterAll(world, st, ts).rows[id].lease.value);
      }
    }
  }

  lemma NotDowngradeItself(l: Lease)
    ensures !Downgrade(l, l)
  {}

  /**
   Over any refreshes the stored (revision, issue time) never moves back, and two leases of the
   same age are the same lease.
   */
  lemma LeaseNeverOlder(world: World, st: Store, ts: seq<Transaction>, id: string)
    requires AfterAll(world, st, ts).revision == st.revision && id in st.rows && st.rows[id].lease.Some?
    ensures var rows := AfterAll(world, st, ts).rows;
            id in rows && rows[id].lease.Some?
            && var (a, b) := (st.rows[id].lease.value, rows[id].lease.value);
               (a.revision < b.revision || (a.revision == b.revision && a.issuedAt <= b.issuedAt))
               && (a.revision == b.revision && a.issuedAt == b.issuedAt ==> a.leaseId == b.leaseId)
  {
    hide AfterAll;
    RowsBetweenRevisions(world, st, ts, id);
  }

  ghost predicate Replaced(before: map<string, Row>, after: map<string, Row>, s: Schedule)
  {
    var id := s.intent.scheduleId;
    id in before && id in after && after[id] == before[id].(lease := s.lease)
  }

  ghost predicate NoLeaseFor(records: seq<Schedule>, id: string)
  {
    forall i :: 0 <= i < |records| && records[i].intent.scheduleId == id ==> records[i].lease.None?
  }

  /** A same-revision refresh stores every lease it carries for a known schedule and changes nothing else, or fails. */
  lemma RefreshAllOrNothing(world: World, st: Store, s: Snapshot, now: nat)
    requires SnapshotValid(world, s) && s.revision == st.revision
    ensures var (r, after) := ApplySnapshot(world, st, s, now);
            (r.Err? ==> after == st) && (r.Err? <==> !RefreshAllowed(st.rows, s.schedules))
            && (r.Ok? ==> after.rows.Keys == st.rows.Keys)
            && (r.Ok? ==> forall i :: 0 <= i < |s.schedules| && Refreshes(st.rows, s.schedules[i]) ==>
                            Replaced(st.rows, after.rows, s.schedules[i]))
            && (r.Ok? ==> forall id :: id in st.rows && NoLeaseFor(s.schedules, id) ==> after.rows[id] == st.rows[id])
  {
    hide Valid, RefreshAllowed;
    forall i | 0 <= i < |s.schedules| ensures s.schedules[i].intent.scheduleId in Ids(s.schedules)
      && Find(s.schedules, s.schedules[i].intent.scheduleId) == s.schedules[i]
    {
      FindAt(s.schedules, i);
    }
  }

  /**
   Between two applied revisions the occurrences claimed for one schedule strictly increase,
   whatever the clock does.
   */
  lemma ClaimsIncrease(world: World, st: Store, first: nat, ts: seq<Transaction>, second: nat, a: Schedule, b: Schedule)
    requires first <= I64_MAX && second <= I64_MAX && a.intent.scheduleId == b.intent.scheduleId
    requires a in Claim(world, st, first).0.value
    requires var later := AfterAll(world, Claim(world, st, first).1, ts);
             later.revision == st.revision && b in Claim(world, later, second).0.value
    ensures a.intent.nextRunAtMs < b.intent.nextRunAtMs
  {
    hide AfterAll, Claim, Valid;
    var id := a.intent.scheduleId;
    var claimed := Claim(world, st, first).1;
    var later := AfterAll(world, claimed, ts);
    ClaimedExactly(world, st, first, a);
    ClaimedExactly(world, later, second, b);
    ClaimMoves(world, st, first, id);
    RowsBetweenRevisions(world, claimed, ts, id);
  }

  lemma ClaimMoves(world: World, st: Store, now: nat, id: string)
    requires now <= I64_MAX && id in st.rows && Claims(world, id, st.rows[id], now)
    ensures var after := Claim(world, st, now).1;
            after.revision == st.revision && id in after.rows && st.rows[id].nextRunAtMs < after.rows[id].nextRunAtMs
            && after.rows[id].lease == st.rows[id].lease
  {
    hide Valid;
  }
}
