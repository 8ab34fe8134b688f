/** What is stored and handed out, in terms of cron and of the messages alone. */
module ScheduleEffects {
  import opened Wrappers
  import opened Ordering
  import opened Unicode
  import opened Schedules
  import opened ScheduleStore
  import opened ScheduleClaims

  // ----- Claiming -----

  ghost predicate HandedOut(world: World, st: Store, now: nat, id: string)
  {
    Claim(world, st, now).0.Ok? && exists s :: s in Claim(world, st, now).0.value && s.intent.scheduleId == id
  }

  lemma HandedOutClaims(world: World, st: Store, now: nat, id: string)
    requires now <= I64_MAX && id in st.rows
    ensures HandedOut(world, st, now, id) <==> Claims(world, id, st.rows[id], now)
  {
    hide NextOccurrence, ClaimedRecords;
    if HandedOut(world, st, now, id) {
      var s :| s in Claim(world, st, now).0.value && s.intent.scheduleId == id;
      ClaimedExactly(world, st, now, s);
    }
    if Claims(world, id, st.rows[id], now) { ClaimedExactly(world, st, now, ToRecord(id, st.rows[id])); }
  }

  /**
   A stored schedule is handed out exactly when it is enabled and due, passes its checks and cron goes on. It then
   waits for the occurrence that cron gives for the time of the claim; one that is due and not handed out is disabled.
   */
  lemma HandedOutIff(world: World, st: Store, now: nat, id: string)
    requires now <= I64_MAX && id in st.rows
    ensures var (row, after) := (st.rows[id], Claim(world, st, now).1.rows);
            id in after
            && (HandedOut(world, st, now, id) <==>
                  row.enabled && row.nextRunAtMs <= now && Valid(world, ToRecord(id, row))
                  && CronGoesOn(world, row.cron, row.timezone, now))
            && (HandedOut(world, st, now, id) ==>
                  after[id] == row.(nextRunAtMs := after[id].nextRunAtMs)
                  && CronGives(world, row.cron, row.timezone, now, after[id].nextRunAtMs))
            && (!HandedOut(world, st, now, id) ==>
                  after[id] == if row.enabled && row.nextRunAtMs <= now then row.(enabled := false) else row)
  {
    hide Valid, NextOccurrence, CronGoesOn, CronGives, HandedOut, ClaimedRecords;
    HandedOutClaims(world, st, now, id);
    NextIsCrons(world, ToRecord(id, st.rows[id]), now);
  }

  /** A clock past the database's integers is refused, and nothing changes. */
  lemma ClaimRefused(world: World, st: Store, now: nat)
    ensures Claim(world, st, now).0.Err? <==> now > I64_MAX
    ensures now > I64_MAX ==> Claim(world, st, now) == (Err(OutOfRange), st)
  {
    hide ClaimedRecords, ClaimedRows;
  }

  predicate DueBefore(a: Schedule, b: Schedule)
  {
    a.intent.nextRunAtMs < b.intent.nextRunAtMs
    || (a.intent.nextRunAtMs == b.intent.nextRunAtMs
        && Less(Encode(Utf8, a.intent.scheduleId), Encode(Utf8, b.intent.scheduleId)))
  }

  predicate InDueOrder(r: seq<Schedule>) { forall i, j :: 0 <= i < j < |r| ==> DueBefore(r[i], r[j]) }

  lemma KeyOrder(rows: map<string, Row>, a: string, b: string)
    requires a in rows && b in rows && Less(DueKey(rows)(a), DueKey(rows)(b))
    ensures DueBefore(ToRecord(a, rows[a]), ToRecord(b, rows[b]))
  {
    assert DueKey(rows)(a)[1..] == Encode(Utf8, a) && DueKey(rows)(b)[1..] == Encode(Utf8, b);
  }

  lemma {:induction false} RecordsOrdered(world: World, rows: map<string, Row>, ids: seq<string>, now: nat)
    requires StrictlySorted(ids, DueKey(rows))
    ensures InDueOrder(ClaimedRecords(world, rows, ids, now))
  {
    hide Claims, ToRecord, DueBefore, DueKey, Less;
    if ids != [] {
      var n := |ids| - 1;
      var r := ClaimedRecords(world, rows, ids[..n], now);
      RecordsOrdered(world, rows, ids[..n], now);
      ClaimedRecordsMembers(world, rows, ids[..n], now);
      assert ClaimedRecords(world, rows, ids, now)
          == r + if ids[n] in rows && Claims(world, ids[n], rows[ids[n]], now) then [ToRecord(ids[n], rows[ids[n]])]
                 else [];
      if ids[n] in rows && Claims(world, ids[n], rows[ids[n]], now) {
        forall i | 0 <= i < |r| ensures DueBefore(r[i], ToRecord(ids[n], rows[ids[n]])) {
          assert r[i] in r;
          var k :| 0 <= k < n && ids[..n][k] in rows && r[i] == ToRecord(ids[..n][k], rows[ids[..n][k]]);
          KeyOrder(rows, ids[k], ids[n]);
        }
      }
    }
  }

  /** Schedules are handed out in the order of their due times, and equal ones in the order of their ids. */
  lemma ClaimedInOrder(world: World, st: Store, now: nat)
    requires now <= I64_MAX
    ensures InDueOrder(Claim(world, st, now).0.value)
  {
    hide DueBefore, ClaimedRecords, ClaimedRows, InDueOrder;
    RecordsOrdered(world, st.rows, DueOrder(st.rows, now), now);
  }

  // ----- From one claim to the next -----

  /** None of the transactions hands out the schedule. */
  ghost predicate NotHandedOut(world: World, st: Store, ts: seq<Transaction>, id: string)
    decreases |ts|
  {
    ts != [] ==>
      (ts[0].ClaimDue? ==> !HandedOut(world, st, ts[0].now, id))
      && NotHandedOut(world, After(world, st, ts[0]), ts[1..], id)
  }

  lemma WaitStep(world: World, st: Store, t: Transaction, id: string)
    requires After(world, st, t).revision == st.revision && id in st.rows
    requires t.ClaimDue? ==> !HandedOut(world, st, t.now, id)
    ensures var rows := After(world, st, t).rows;
            id in rows && rows[id].nextRunAtMs == st.rows[id].nextRunAtMs
            && rows[id].cron == st.rows[id].cron && rows[id].timezone == st.rows[id].timezone
  {
    hide Valid, HandedOut, SnapshotValid, RefreshAllowed;
    RevisionGrows(world, st, t);
    if t.ClaimDue? && t.now <= I64_MAX { HandedOutIff(world, st, t.now, id); }
  }

  lemma {:induction false} WaitsForOccurrence(world: World, st: Store, ts: seq<Transaction>, id: string)
    requires AfterAll(world, st, ts).revision == st.revision && id in st.rows && NotHandedOut(world, st, ts, id)
    ensures var rows := AfterAll(world, st, ts).rows;
            id in rows && rows[id].nextRunAtMs == st.rows[id].nextRunAtMs
            && rows[id].cron == st.rows[id].cron && rows[id].timezone == st.rows[id].timezone
    decreases |ts|
  {
    hide After, HandedOut;
    if ts != [] {
      RevisionGrows(world, st, ts[0]);
      RevisionMonotone(world, After(world, st, ts[0]), ts[1..]);
      WaitStep(world, st, ts[0], id);
      WaitsForOccurrence(world, After(world, st, ts[0]), ts[1..], id);
    }
  }

  /**
   Between applied revisions, what a schedule is next handed out for is the occurrence that cron gives for the time of
   the claim before.
   */
  lemma ClaimsFollowCron(
    world: World, st: Store, first: nat, ts: seq<Transaction>, second: nat, a: Schedule, b: Schedule)
    requires first <= I64_MAX && second <= I64_MAX && a.intent.scheduleId == b.intent.scheduleId
    requires a in Claim(world, st, first).0.value
    requires var claimed := Claim(world, st, first).1;
             var later := AfterAll(world, claimed, ts);
             NotHandedOut(world, claimed, ts, a.intent.scheduleId)
             && later.revision == st.revision && b in Claim(world, later, second).0.value
    ensures CronGives(world, a.intent.cron, a.intent.timezone, first, b.intent.nextRunAtMs)
    ensures b.intent.cron == a.intent.cron && b.intent.timezone == a.intent.timezone
  {
    hide AfterAll, Valid, NotHandedOut, CronGives, CronGoesOn, NextOccurrence, ClaimedRecords, ClaimedRows;
    var id := a.intent.scheduleId;
    var claimed := Claim(world, st, first).1;
    ClaimedExactly(world, st, first, a);
    ClaimedExactly(world, AfterAll(world, claimed, ts), second, b);
    assert HandedOut(world, st, first, id);
    HandedOutIff(world, st, first, id);
    WaitsForOccurrence(world, claimed, ts, id);
  }

  // ----- Synchronising -----

  /** What becomes of a record that is stored by a message applied at a given time. */
  ghost predicate StoredAs(world: World, s: Schedule, row: Row, now: nat)
  {
    var (i, waits) := (s.intent, s.lease.Some? || now < s.intent.nextRunAtMs);
    row.appId == i.appId && row.version == i.version && row.cron == i.cron && row.timezone == i.timezone
    && row.args == i.args && row.lease == s.lease
    && (row.enabled <==>
          i.enabled && world.recurrence(i.cron, i.timezone) && (waits || CronGoesOn(world, i.cron, i.timezone, now)))
    && if row.enabled && !waits then CronGives(world, i.cron, i.timezone, now, row.nextRunAtMs)
       else row.nextRunAtMs == i.nextRunAtMs
  }

  lemma NormalizedAs(world: World, s: Schedule, now: nat)
    requires Valid(world, s)
    ensures StoredAs(world, s, RowOf(Normalize(world, s, now)), now)
  {
    hide Valid, CronGives, CronGoesOn, NextOccurrence;
    NextIsCrons(world, s, now);
  }

  lemma StoredRows(world: World, records: seq<Schedule>, now: nat)
    requires AllValid(world, records) && UniqueIds(records)
    ensures forall i :: 0 <= i < |records| ==>
              records[i].intent.scheduleId in SyncedRows(world, records, now)
              && StoredAs(world, records[i], SyncedRows(world, records, now)[records[i].intent.scheduleId], now)
  {
    hide Valid, StoredAs, Normalize, RowOf;
    forall i | 0 <= i < |records|
      ensures records[i].intent.scheduleId in SyncedRows(world, records, now)
      ensures StoredAs(world, records[i], SyncedRows(world, records, now)[records[i].intent.scheduleId], now)
    {
      FindAt(records, i);
      NormalizedAs(world, records[i], now);
    }
  }

  predicate InTouch(st: Store, now: nat) { !st.offline && st.lastSyncAt == Some(now / 1000) }

  /**
   A newer snapshot replaces the table by its records. Each is stored as it came, except that an unsigned one that is
   due moves to cron's next occurrence, and that one which cannot run any more is disabled.
   */
  lemma SnapshotStores(world: World, st: Store, s: Snapshot, now: nat)
    requires SnapshotValid(world, s) && st.revision < s.revision
    ensures var (r, after) := ApplySnapshot(world, st, s, now);
            r == Ok(true) && after.revision == s.revision && InTouch(after, now)
            && after.rows.Keys == Ids(s.schedules)
            && forall i :: 0 <= i < |s.schedules| ==>
                 s.schedules[i].intent.scheduleId in after.rows
                 && StoredAs(world, s.schedules[i], after.rows[s.schedules[i].intent.scheduleId], now)
  {
    hide Valid, StoredAs;
    StoredRows(world, s.schedules, now);
  }

  /** A delta stores its upserts in the same way, drops what it removes, and leaves all other rows alone. */
  lemma DeltaStores(world: World, st: Store, d: Delta, now: nat)
    requires DeltaValid(world, d) && d.fromRevision == st.revision < d.toRevision
    ensures var (r, after) := ApplyDelta(world, st, d, now);
            r == Ok(true) && after.revision == d.toRevision && InTouch(after, now)
            && (forall i :: 0 <= i < |d.upserts| ==>
                  d.upserts[i].intent.scheduleId in after.rows
                  && StoredAs(world, d.upserts[i], after.rows[d.upserts[i].intent.scheduleId], now))
            && (forall id :: id in after.rows <==> id in Ids(d.upserts) || (id in st.rows && id !in d.removed))
            && forall id :: id in st.rows && id !in Ids(d.upserts) && id !in d.removed ==>
                 after.rows[id] == st.rows[id]
  {
    hide Valid, StoredAs;
    StoredRows(world, d.upserts, now);
  }

  /** A refused message changes nothing; nor does an older snapshot, which is not an error. */
  lemma RefusedMessages(world: World, st: Store, s: Snapshot, d: Delta, now: nat)
    ensures ApplySnapshot(world, st, s, now).0.Err? || s.revision < st.revision ==>
              ApplySnapshot(world, st, s, now).1 == st
    ensures ApplySnapshot(world, st, s, now).0.Err? <==>
              !SnapshotValid(world, s) || (s.revision == st.revision && !RefreshAllowed(st.rows, s.schedules))
    ensures ApplyDelta(world, st, d, now).0.Err? <==> !DeltaValid(world, d) || d.fromRevision != st.revision
    ensures ApplyDelta(world, st, d, now).0.Err? ==> ApplyDelta(world, st, d, now).1 == st
  {
    hide SnapshotValid, DeltaValid, RefreshAllowed;
  }

  /** Right after a newer snapshot only signed schedules are due. */
  lemma OnlySignedDue(world: World, st: Store, s: Snapshot, now: nat, claimed: Schedule)
    requires SnapshotValid(world, s) && st.revision < s.revision && now <= I64_MAX
    requires claimed in Claim(world, ApplySnapshot(world, st, s, now).1, now).0.value
    ensures claimed.lease.Some?
  {
    hide Valid, SnapshotValid, NextOccurrence, Claim, ApplySnapshot;
    SnapshotStores(world, st, s, now);
    var after := ApplySnapshot(world, st, s, now).1;
    ClaimedExactly(world, after, now, claimed);
    var i :| 0 <= i < |s.schedules| && s.schedules[i].intent.scheduleId == claimed.intent.scheduleId;
  }
}
