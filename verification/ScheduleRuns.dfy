/**
 Whole runs of the control plane and the agent. The control plane's states are the abstraction;
 the agent receives snapshots and deltas of any of them, in any order, and claims in between.
 */
module ScheduleRuns {
  import opened Wrappers
  import opened Schedules
  import opened ScheduleStore
  import opened ScheduleClaims

  type Intents = map<string, Intent>

  datatype ServerState = ServerState(revision: nat, intents: Intents)

  ghost function Content(records: seq<Schedule>): (c: Intents)
    ensures c.Keys == Ids(records) && forall id :: id in c ==> c[id].scheduleId == id
  {
    map id | id in Ids(records) :: Find(records, id).intent
  }

  ghost function Edited(c: Intents, d: Delta): Intents { (c - Removed(d)) + Content(d.upserts) }

  // ----- The control plane -----

  /** What the contract schema asks of a delta, besides its fields. */
  ghost predicate SchemaAllows(d: Delta)
  {
    d.fromRevision <= d.toRevision && UniqueIds(d.upserts)
    && (forall i :: 0 <= i < |d.removed| ==> d.removed[i] !in Ids(d.upserts))
    && (forall i, j :: 0 <= i < j < |d.removed| ==> d.removed[i] != d.removed[j])
  }

  /** `applyScheduleDelta`, which throws on a delta for another revision. */
  ghost function Publish(s: ServerState, d: Delta): Option<ServerState>
  {
    if !SchemaAllows(d) || d.fromRevision != s.revision then None
    else Some(ServerState(d.toRevision, Edited(s.intents, d)))
  }

  /** One revision, one state. */
  ghost predicate Determined(history: seq<ServerState>)
  {
    forall i, j :: 0 <= i < |history| && 0 <= j < |history| && history[i].revision == history[j].revision ==>
                     history[i].intents == history[j].intents
  }

  ghost predicate HistoryOk(history: seq<ServerState>)
  {
    history != [] && history[0] == ServerState(0, map[]) && Determined(history)
    && (forall i :: 0 <= i < |history| ==> history[i].revision <= history[|history| - 1].revision)
    && forall i, id :: 0 <= i < |history| && id in history[i].intents ==> history[i].intents[id].scheduleId == id
  }

  /** A delta that changes nothing unless it advances the revision. */
  ghost predicate Advances(s: ServerState, d: Delta)
  {
    d.fromRevision < d.toRevision || Edited(s.intents, d) == s.intents
  }

  /** Publishing keeps revisions meaningful exactly when the delta advances or changes nothing. */
  lemma PublishDetermines(history: seq<ServerState>, d: Delta)
    requires HistoryOk(history) && Publish(history[|history| - 1], d).Some?
    ensures Determined(history + [Publish(history[|history| - 1], d).value]) <==> Advances(history[|history| - 1], d)
    ensures Advances(history[|history| - 1], d) ==> HistoryOk(history + [Publish(history[|history| - 1], d).value])
  {
    hide Edited, UniqueIds;
    var last, n := history[|history| - 1], |history|;
    var next := Publish(last, d).value;
    var longer := history + [next];
    assert longer[n] == next && longer[n - 1] == last && forall i :: 0 <= i < n ==> longer[i] == history[i];
    EditedIds(last.intents, d);
    if Determined(longer) && d.fromRevision == d.toRevision {
      assert longer[n - 1].revision == longer[n].revision;
    }
    if Advances(last, d) {
      forall i | 0 <= i < n && history[i].revision == next.revision ensures history[i].intents == next.intents {
        assert history[i].revision == last.revision;
      }
      assert Determined(longer);
    }
  }

  lemma EditedIds(c: Intents, d: Delta)
    ensures (forall id :: id in c ==> c[id].scheduleId == id) ==>
              forall id :: id in Edited(c, d) ==> Edited(c, d)[id].scheduleId == id
  {}

  /**
   The contract schema lets a delta change data without advancing the revision; the agent's
   validation does not. After such a delta one revision has two states.
   */
  lemma SchemaAllowsSilentChange(world: World, s: Schedule)
    ensures var d := Delta(0, 0, [s], []);
            SchemaAllows(d) && Publish(ServerState(0, map[]), d).Some? && !DeltaValid(world, d)
            && !Determined([ServerState(0, map[]), Publish(ServerState(0, map[]), d).value])
  {
    var d := Delta(0, 0, [s], []);
    var h := [ServerState(0, map[]), Publish(ServerState(0, map[]), d).value];
    assert d.upserts[0].intent.scheduleId in Ids(d.upserts);
    assert s.intent.scheduleId in h[1].intents && s.intent.scheduleId !in h[0].intents;
    assert h[0].revision == h[1].revision;
  }

  // ----- The system -----

  datatype System = System(history: seq<ServerState>, store: Store)

  datatype Event = Publishes(delta: Delta) | Does(transaction: Transaction)

  const START: System := System([ServerState(0, map[])], EMPTY)

  ghost function Step(world: World, sys: System, ev: Event): System
    requires sys.history != []
    ensures Step(world, sys, ev).history != []
  {
    match ev
    case Publishes(d) =>
      var next := Publish(sys.history[|sys.history| - 1], d);
      if next.Some? then sys.(history := sys.history + [next.value]) else sys
    case Does(t) => sys.(store := After(world, sys.store, t))
  }

  /** A message that passes the agent's checks describes states the control plane has had. */
  ghost predicate Honest(world: World, sys: System, ev: Event)
    requires sys.history != []
  {
    match ev
    case Publishes(d) => Advances(sys.history[|sys.history| - 1], d)
    case Does(t) =>
      match t
      case SyncSnapshot(s, _) =>
        SnapshotValid(world, s) ==> ServerState(s.revision, Content(s.schedules)) in sys.history
      case SyncDelta(d, _) =>
        DeltaValid(world, d) ==>
          exists from, to :: from in sys.history && to in sys.history
            && from.revision == d.fromRevision && to.revision == d.toRevision && to.intents == Edited(from.intents, d)
      case _ => true
  }

  ghost function Run(world: World, sys: System, evs: seq<Event>): (end: System)
    requires sys.history != []
    ensures end.history != []
    decreases |evs|
  {
    if evs == [] then sys else Run(world, Step(world, sys, evs[0]), evs[1..])
  }

  ghost predicate HonestRun(world: World, sys: System, evs: seq<Event>)
    requires sys.history != []
    decreases |evs|
  {
    evs != [] ==> Honest(world, sys, evs[0]) && HonestRun(world, Step(world, sys, evs[0]), evs[1..])
  }

  // ----- Refinement -----

  /** A row is the server's record, except that it may be further on, disabled, or newly leased. */
  ghost predicate RowRefines(world: World, r: Row, i: Intent)
  {
    r.appId == i.appId && r.version == i.version && r.cron == i.cron && r.timezone == i.timezone && r.args == i.args
    && (r.enabled ==> i.enabled) && i.nextRunAtMs <= r.nextRunAtMs
    && (r.lease.Some? ==> LeaseScopes(world, i, r.lease.value))
  }

  ghost predicate Refines(world: World, rows: map<string, Row>, c: Intents)
  {
    rows.Keys == c.Keys && forall id :: id in rows ==> RowRefines(world, rows[id], c[id])
  }

  /** The table refines the control plane's state at the stored revision. */
  ghost predicate Agrees(world: World, sys: System)
  {
    exists s :: s in sys.history && s.revision == sys.store.revision && Refines(world, sys.store.rows, s.intents)
  }

  ghost predicate Inv(world: World, sys: System) { HistoryOk(sys.history) && Agrees(world, sys) }

  lemma SameRevision(history: seq<ServerState>, a: ServerState, b: ServerState)
    requires Determined(history) && a in history && b in history && a.revision == b.revision
    ensures a.intents == b.intents
  {}

  lemma NormalizeRefines(world: World, s: Schedule, now: nat)
    requires Valid(world, s)
    ensures RowRefines(world, RowOf(Normalize(world, s, now)), s.intent)
  {
    hide IntentValid, LeaseValid, LeaseScopes;
  }

  lemma SyncedRowsRefine(world: World, records: seq<Schedule>, now: nat)
    requires AllValid(world, records)
    ensures Refines(world, SyncedRows(world, records, now), Content(records))
  {
    hide Valid, Normalize, RowRefines;
    forall id | id in Ids(records)
      ensures RowRefines(world, SyncedRows(world, records, now)[id], Content(records)[id])
    {
      var s := Find(records, id);
      var i :| 0 <= i < |records| && records[i] == s;
      NormalizeRefines(world, s, now);
    }
  }

  lemma DeltaRefines(world: World, rows: map<string, Row>, c: Intents, d: Delta, now: nat)
    requires Refines(world, rows, c) && AllValid(world, d.upserts)
    ensures Refines(world, (rows - Removed(d)) + SyncedRows(world, d.upserts, now), Edited(c, d))
  {
    hide RowRefines, Valid;
    SyncedRowsRefine(world, d.upserts, now);
  }

  lemma RefreshRefines(world: World, rows: map<string, Row>, records: seq<Schedule>)
    requires AllValid(world, records) && Refines(world, rows, Content(records))
    ensures Refines(world, Refreshed(rows, records), Content(records))
  {
    hide IntentValid, LeaseValid;
    forall id | id in rows ensures RowRefines(world, Refreshed(rows, records)[id], Content(records)[id]) {
      var s := Find(records, id);
      var i :| 0 <= i < |records| && records[i] == s;
      assert Valid(world, s);
    }
  }

  lemma ClaimRefines(world: World, st: Store, now: nat, c: Intents)
    requires Refines(world, st.rows, c)
    ensures Refines(world, Claim(world, st, now).1.rows, c)
  {
    hide Valid, LeaseScopes;
  }

  lemma TransactionAgrees(world: World, sys: System, t: Transaction)
    requires Inv(world, sys) && Honest(world, sys, Does(t))
    ensures Agrees(world, Step(world, sys, Does(t)))
  {
    hide Refines, Edited, Content, AllValid, UniqueIds, RefreshAllowed, Refreshed, SyncedRows;
    var s :| s in sys.history && s.revision == sys.store.revision && Refines(world, sys.store.rows, s.intents);
    var st := After(world, sys.store, t);
    match t
    case SyncSnapshot(snap, now) =>
      if SnapshotValid(world, snap) {
        var target := ServerState(snap.revision, Content(snap.schedules));
        if snap.revision == sys.store.revision {
          SameRevision(sys.history, s, target);
          RefreshRefines(world, sys.store.rows, snap.schedules);
        } else if snap.revision > sys.store.revision {
          SyncedRowsRefine(world, snap.schedules, now);
          assert Refines(world, st.rows, target.intents);
        }
      }
      assert Agrees(world, sys.(store := st));
    case SyncDelta(d, now) =>
      if DeltaValid(world, d) && d.fromRevision == sys.store.revision && d.toRevision != sys.store.revision {
        var from, to :| from in sys.history && to in sys.history && from.revision == d.fromRevision
          && to.revision == d.toRevision && to.intents == Edited(from.intents, d);
        SameRevision(sys.history, s, from);
        DeltaRefines(world, sys.store.rows, s.intents, d, now);
        assert Refines(world, st.rows, to.intents);
      }
      assert Agrees(world, sys.(store := st));
    case ClaimDue(now) =>
      ClaimRefines(world, sys.store, now, s.intents);
      assert Refines(world, st.rows, s.intents);
    case GoOffline =>
      assert Refines(world, st.rows, s.intents);
  }

  lemma StepKeepsInv(world: World, sys: System, ev: Event)
    requires Inv(world, sys) && Honest(world, sys, ev)
    ensures Inv(world, Step(world, sys, ev))
  {
    hide HistoryOk, Refines, Advances, After;
    match ev
    case Publishes(d) =>
      var next := Publish(sys.history[|sys.history| - 1], d);
      if next.Some? {
        PublishDetermines(sys.history, d);
        var s :| s in sys.history && s.revision == sys.store.revision && Refines(world, sys.store.rows, s.intents);
        assert s in sys.history + [next.value];
      }
    case Does(t) => TransactionAgrees(world, sys, t);
  }

  lemma {:induction false} RunKeepsInv(world: World, sys: System, evs: seq<Event>)
    requires Inv(world, sys) && HonestRun(world, sys, evs)
    ensures Inv(world, Run(world, sys, evs))
    decreases |evs|
  {
    hide Inv, Honest, Step;
    assert sys.history != [] by { StepHistory(world, sys); }
    if evs != [] {
      StepKeepsInv(world, sys, evs[0]);
      RunKeepsInv(world, Step(world, sys, evs[0]), evs[1..]);
    }
  }

  lemma StepHistory(world: World, sys: System)
    requires Inv(world, sys)
    ensures sys.history != []
  {}

  /**
   Starting empty, after any run of publications, snapshots, deltas, refused messages, claims and
   lease refreshes the table refines the control plane's state at the stored revision.
   */
  lemma EveryRunRefines(world: World, evs: seq<Event>)
    requires HonestRun(world, START, evs)
    ensures Agrees(world, Run(world, START, evs))
  {
    assert START.history[0] in START.history;
    assert Refines(world, START.store.rows, START.history[0].intents);
    RunKeepsInv(world, START, evs);
  }

  // ----- Why the control plane has to advance the revision -----

  lemma OneUpsert(c: Intents, d: Delta, s: Schedule)
    requires d.upserts == [s] && d.removed == []
    ensures UniqueIds(d.upserts) && Ids(d.upserts) == {s.intent.scheduleId} && Removed(d) == {}
    ensures Find(d.upserts, s.intent.scheduleId) == s
    ensures Content(d.upserts) == map[s.intent.scheduleId := s.intent]
    ensures Edited(c, d) == c[s.intent.scheduleId := s.intent]
  {
    FindAt(d.upserts, 0);
    assert d.upserts[0].intent.scheduleId in Ids(d.upserts);
    assert c - {} == c;
  }

  /**
   A change published without advancing the revision escapes the agent for ever after: with two honest events behind
   it the table is at the newest revision and lacks the record.
   */
  lemma SilentChangeBreaks(world: World, s: Schedule, t: Schedule, now: nat)
    requires Valid(world, t) && t.intent.scheduleId != s.intent.scheduleId
    ensures var silent, next := Publishes(Delta(0, 0, [s], [])), Delta(0, 1, [t], []);
            var one := Step(world, START, silent);
            var two := Step(world, one, Publishes(next));
            var three := Step(world, two, Does(SyncDelta(next, now)));
            !Honest(world, START, silent) && Honest(world, one, Publishes(next))
            && Honest(world, two, Does(SyncDelta(next, now)))
            && three.store.revision == two.history[|two.history| - 1].revision && !Agrees(world, three)
  {
    hide Valid, Normalize, RowRefines, Content, Find, Edited;
    var silent, next := Delta(0, 0, [s], []), Delta(0, 1, [t], []);
    var a, b := s.intent.scheduleId, t.intent.scheduleId;
    OneUpsert(map[], silent, s);
    var one := Step(world, START, Publishes(silent));
    var changed := ServerState(0, map[a := s.intent]);
    assert one == System([ServerState(0, map[]), changed], EMPTY);
    OneUpsert(changed.intents, next, t);
    var two := Step(world, one, Publishes(next));
    var newest := ServerState(1, map[a := s.intent][b := t.intent]);
    assert two == System([ServerState(0, map[]), changed, newest], EMPTY);
    assert two.history[1] in two.history && two.history[2] in two.history;
    var three := Step(world, two, Does(SyncDelta(next, now)));
    assert DeltaValid(world, next);
    assert three.store.rows.Keys == {b} && three.store.revision == 1;
    forall x | x in three.history && x.revision == 1 ensures !Refines(world, three.store.rows, x.intents) {
      assert x == newest && a in newest.intents.Keys;
    }
  }

  // ----- Signed schedules -----

  /** The control plane's record of a schedule at the stored revision. */
  ghost predicate IsServerIntent(sys: System, id: string, i: Intent)
  {
    exists s :: s in sys.history && s.revision == sys.store.revision && id in s.intents && s.intents[id] == i
  }

  lemma StoredRowRefines(world: World, sys: System, id: string, i: Intent)
    requires Inv(world, sys) && IsServerIntent(sys, id, i)
    ensures id in sys.store.rows && RowRefines(world, sys.store.rows[id], i) && i.scheduleId == id
  {
    hide RowRefines;
    var s :| s in sys.history && s.revision == sys.store.revision && Refines(world, sys.store.rows, s.intents);
    var t :| t in sys.history && t.revision == sys.store.revision && id in t.intents && t.intents[id] == i;
    SameRevision(sys.history, s, t);
  }

  /** A claimed record that carries a lease is exactly the intent the control plane signed. */
  lemma ClaimedAsSigned(world: World, sys: System, now: nat, r: Schedule, i: Intent)
    requires Inv(world, sys) && now <= I64_MAX && r in Claim(world, sys.store, now).0.value && r.lease.Some?
    requires IsServerIntent(sys, r.intent.scheduleId, i) && NoSecondPreimage(world, i)
    ensures r.intent == i
  {
    hide Claim, IntentHash, NoSecondPreimage, IntentValid, LeaseValid, Inv;
    ClaimedExactly(world, sys.store, now, r);
    StoredRowRefines(world, sys, r.intent.scheduleId, i);
    HashBindsIntent(world, i, r.intent);
  }

  /** The row has moved past the occurrence its lease was signed for. */
  ghost predicate Spent(sys: System, id: string, i: Intent)
  {
    IsServerIntent(sys, id, i) && id in sys.store.rows && sys.store.rows[id].lease.Some?
    && i.nextRunAtMs < sys.store.rows[id].nextRunAtMs
  }

  /** A spent row is never handed out: its lease no longer fits, and the next claim disables it. */
  lemma SpentIsNotClaimed(world: World, sys: System, id: string, i: Intent, now: nat)
    requires Inv(world, sys) && Spent(sys, id, i) && NoSecondPreimage(world, i) && now <= I64_MAX
    ensures !Claims(world, id, sys.store.rows[id], now)
    ensures Due(sys.store.rows[id], now) ==> !Claim(world, sys.store, now).1.rows[id].enabled
    ensures forall r :: r in Claim(world, sys.store, now).0.value ==> r.intent.scheduleId != id
  {
    hide IntentHash, NoSecondPreimage, IntentValid, LeaseValid, Inv;
    StoredRowRefines(world, sys, id, i);
    var record := ToRecord(id, sys.store.rows[id]);
    if Valid(world, record) { HashBindsIntent(world, i, record.intent); }
    assert !Valid(world, record);
    forall r | r in Claim(world, sys.store, now).0.value ensures r.intent.scheduleId != id {
      ClaimedExactly(world, sys.store, now, r);
    }
  }

  lemma SpentStays(world: World, sys: System, ev: Event, id: string, i: Intent)
    requires Inv(world, sys) && Honest(world, sys, ev) && Spent(sys, id, i)
    requires Step(world, sys, ev).store.revision == sys.store.revision
    ensures Spent(Step(world, sys, ev), id, i)
  {
    hide Inv, Honest, After, Publish;
    var s :| s in sys.history && s.revision == sys.store.revision && id in s.intents && s.intents[id] == i;
    var next := Step(world, sys, ev);
    assert s in next.history;
    if ev.Does? { RowBetweenRevisions(world, sys.store, ev.transaction, id); }
  }

  lemma {:induction false} RunRevision(world: World, sys: System, evs: seq<Event>)
    requires sys.history != []
    ensures sys.store.revision <= Run(world, sys, evs).store.revision
    decreases |evs|
  {
    hide After, Publish;
    if evs != [] {
      if evs[0].Does? { RevisionGrows(world, sys.store, evs[0].transaction); }
      RunRevision(world, Step(world, sys, evs[0]), evs[1..]);
    }
  }

  lemma {:induction false} SpentThroughout(world: World, sys: System, evs: seq<Event>, id: string, i: Intent)
    requires Inv(world, sys) && HonestRun(world, sys, evs) && Spent(sys, id, i)
    requires Run(world, sys, evs).store.revision == sys.store.revision
    ensures Inv(world, Run(world, sys, evs)) && Spent(Run(world, sys, evs), id, i)
    decreases |evs|
  {
    hide Inv, Honest, Step, Spent;
    StepHistory(world, sys);
    if evs != [] {
      var next := Step(world, sys, evs[0]);
      RunRevision(world, next, evs[1..]);
      RunRevision(world, sys, evs[..1]);
      assert Run(world, sys, evs[..1]) == Run(world, next, []) == next;
      StepKeepsInv(world, sys, evs[0]);
      SpentStays(world, sys, evs[0], id, i);
      SpentThroughout(world, next, evs[1..], id, i);
    }
  }

  /**
   A signed schedule is claimed at most once between two applied revisions, through any honest
   messages, lease refreshes, refusals and other claims in between.
   */
  lemma SignedClaimedOnce(world: World, sys: System, first: nat, r: Schedule, i: Intent, evs: seq<Event>, second: nat)
    requires Inv(world, sys) && first <= I64_MAX && second <= I64_MAX
    requires r in Claim(world, sys.store, first).0.value && r.lease.Some?
    requires IsServerIntent(sys, r.intent.scheduleId, i) && NoSecondPreimage(world, i)
    requires HonestRun(world, Step(world, sys, Does(ClaimDue(first))), evs)
    requires Run(world, Step(world, sys, Does(ClaimDue(first))), evs).store.revision == sys.store.revision
    ensures var end := Run(world, Step(world, sys, Does(ClaimDue(first))), evs);
            forall later :: later in Claim(world, end.store, second).0.value ==>
                              later.intent.scheduleId != r.intent.scheduleId
  {
    hide Claim, NoSecondPreimage, Inv, HonestRun, Run, Valid;
    var id := r.intent.scheduleId;
    var claimed := Step(world, sys, Does(ClaimDue(first)));
    ClaimedExactly(world, sys.store, first, r);
    ClaimMoves(world, sys.store, first, id);
    StoredRowRefines(world, sys, id, i);
    StepKeepsInv(world, sys, Does(ClaimDue(first)));
    assert IsServerIntent(claimed, id, i);
    assert Spent(claimed, id, i);
    SpentThroughout(world, claimed, evs, id, i);
    SpentIsNotClaimed(world, Run(world, claimed, evs), id, i, second);
  }
}
