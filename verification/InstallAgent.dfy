/** The agent's installation methods, step by step, proved to compute the protocol's functions. */
module InstallAgent {
  import opened Wrappers
  import opened Ordering
  import opened Unicode
  import opened Outbox
  import opened InstallProtocol

  class Agent {
    var rows: map<Id, Row>
    var files: map<Path, Content>
    var reports: map<ReportKey, PendingReport>
    var nextReportId: nat
    var revision: nat
    var busy: set<string>

    ghost function Now(): Store
      reads this
    {
      Store(rows, files, reports, nextReportId, revision, busy)
    }

    constructor ()
      ensures Now() == EMPTY
    {
      rows, files, reports, nextReportId, revision, busy := map[], map[], map[], 0, 0, {};
    }

    // ----- Database -----

    method ActivateInstall(m: Manifest, path: Path, now: nat, managed: bool)
      modifies this`rows
      ensures rows == Activate(old(rows), m, path, now, managed)
    {
      rows := map k | k in rows :: if k.appId == m.id.appId then rows[k].(active := false) else rows[k];
      rows := rows[m.id := Row(m, path, now, true, managed)];
    }

    /** A report that is not valid is refused; one already pending for its installation and status is kept. */
    method EnqueueReport(w: World, item: Item, status: ReportStatus, code: Option<string>, o: ItemOutcome)
        returns (r: Outcome)
      modifies this`reports, this`nextReportId
      ensures Progress(Now(), false, r) == Report(w, old(Now()), false, item, status, code, o)
    {
      if !w.isUuid(item.installationId) { return Some(StateError); }
      if !ReportValid(w, item.installationId, code) { return Some(ControlPlane); }
      if o.enqueued.Some? { return o.enqueued; }
      var key := ReportKey(item.installationId, status);
      if key !in reports {
        reports := reports[key := PendingReport(nextReportId, Message(code, o.now), o.now, 0)];
        nextReportId := nextReportId + 1;
      }
      r := None;
    }

    method CommitRevision(next: nat, o: Outcome) returns (r: Result<bool, Fault>)
      modifies this`revision
      ensures (Now(), r) == Commit(old(Now()), next, o)
    {
      if o.Some? { return Err(o.value); }
      if next < revision { return Err(StateError); }
      if next == revision { return Ok(false); }
      revision := next;
      r := Ok(true);
    }

    // ----- Filesystem -----

    method Remove(path: Path, leftover: Option<Content>)
      modifies this`files
      ensures files == Discard(old(files), path, leftover)
    {
      if leftover.Some? { files := files[path := leftover.value]; } else { files := files - {path}; }
    }

    method Rename(from: Path, to: Path)
      requires from in files && from != to
      modifies this`files
      ensures files == (old(files) - {from})[to := old(files)[from]]
    {
      var content := files[from];
      files := files - {from};
      files := files[to := content];
    }

    // ----- Operations -----

    method RegisterDevDirectory(w: World, path: Path, allowed: Outcome, activated: Outcome, now: nat)
      returns (r: Outcome)
      modifies this
      ensures (Now(), r) == Register(w, old(Now()), path, allowed, activated, now)
    {
      if allowed.Some? { return allowed; }
      if path !in files { return Some(Io); }
      var m := w.devManifest(files[path]);
      if m.None? { return Some(InvalidManifest); }
      if activated.Some? { return activated; }
      ActivateInstall(m.value, path, now, false);
      r := None;
    }

    method InstallSigned(w: World, m: Manifest, o: InstallOutcome) returns (r: Outcome)
      modifies this`rows, this`files
      ensures (Now(), r) == Install(w, old(Now()), m, o)
    {
      if o.verified.Some? { return o.verified; }
      var staging, destination := Path.Staging(o.staging), App(m.id);
      if staging in files { return Some(Io); }
      ghost var before := files;
      if o.extracted.Err? {
        Remove(staging, o.leftover);
        return Some(o.extracted.error);
      }
      files := files[staging := o.extracted.value];
      assert files - {staging} == before;
      var fault := w.releaseFault(o.extracted.value, m);
      if fault.None? { fault := o.read; }
      if fault.Some? {
        Remove(staging, o.leftover);
        assert files == Discard(before, staging, o.leftover);
        return fault;
      }
      if destination in files {
        Remove(staging, o.leftover);
        assert files == Discard(before, staging, o.leftover);
        return Some(StateError);
      }
      if o.moved.Some? { return o.moved; }
      Rename(staging, destination);
      assert files == before[destination := o.extracted.value];
      if o.activated.Some? {
        Remove(destination, o.leftover);
        assert files == Discard(before, destination, o.leftover);
        return o.activated;
      }
      ActivateInstall(m, destination, o.now, true);
      r := None;
    }

    method UninstallVersion(id: Id, o: UninstallOutcome) returns (r: Outcome)
      modifies this`rows, this`files
      ensures (Now(), r) == Uninstall(old(Now()), id, o)
    {
      if o.read.Some? { return o.read; }
      if id.appId in busy { return Some(StateError); }
      if id !in rows { return Some(NotInstalled); }
      var row := rows[id];
      if !row.managed {
        if o.deleted.Some? { return o.deleted; }
        rows := rows - {id};
        return None;
      }
      if row.path !in files { return Some(Io); }
      if !row.path.App? { return Some(PathEscape); }
      var trash := Path.Trash(o.trash);
      if o.quarantined.Some? { return o.quarantined; }
      if trash in files { return Some(Io); }
      ghost var before := files;
      Rename(row.path, trash);
      if o.deleted.Some? {
        if o.restored.None? {
          Rename(trash, row.path);
          assert files == before;
        }
        return o.deleted;
      }
      rows := rows - {id};
      Remove(trash, if o.purged.Some? then Some(o.leftover) else None);
      assert o.purged.None? ==> files == before - {row.path};
      assert o.purged.Some? ==> files == (before - {row.path})[trash := o.leftover];
      r := o.purged;
    }

    method InstallationIsPresent(w: World, item: Item, o: ItemOutcome) returns (r: Result<bool, Fault>)
      modifies this`rows
      ensures (Now(), r) == IsPresent(w, old(Now()), item, o)
    {
      if o.read.Some? { return Err(o.read.value); }
      if item.id !in rows { return Ok(false); }
      var row := rows[item.id];
      if row.manifest != item.manifest { return Err(StateError); }
      if row.path !in files {
        if o.deleted.Some? { return Err(o.deleted.value); }
        rows := rows - {item.id};
        return Ok(false);
      }
      var fault := w.releaseFault(files[row.path], item.manifest);
      if fault.None? { fault := o.checked; }
      if fault.Some? { return Err(fault.value); }
      r := Ok(true);
    }

    method InstallDownloaded(w: World, item: Item, o: ItemOutcome) returns (r: Outcome)
      modifies this`rows, this`files
      ensures (Now(), r) == InstallSynced(w, old(Now()), item, o)
    {
      if !ItemValid(w, item) { return Some(ControlPlane); }
      if o.downloaded.Some? { return o.downloaded; }
      r := InstallSigned(w, item.manifest, o.install);
    }

    /** One iteration of the snapshot loop. */
    method ReconcileItem(w: World, waiting: bool, item: Item, o: ItemOutcome) returns (waits: bool, r: Outcome)
      modifies this
      ensures Progress(Now(), waits, r) == SyncItem(w, old(Now()), waiting, item, o)
    {
      waits := waiting;
      var present := InstallationIsPresent(w, item, o);
      if present.Err? { return waits, Some(present.error); }
      if present.value {
        r := None;
        if item.status != Installed { r := EnqueueReport(w, item, ReportInstalled, None, o); }
        return waits, r;
      }
      match item.status {
        case Requested =>
          r := EnqueueReport(w, item, ReportDownloading, None, o);
          waits := waits || r.None?;
        case Downloading =>
          var fault := InstallDownloaded(w, item, o);
          if fault.None? {
            r := EnqueueReport(w, item, ReportInstalled, None, o);
          } else {
            r := EnqueueReport(w, item, ReportFailed, Some(ErrorCode(fault.value)), o);
          }
        case Installed =>
          r := InstallDownloaded(w, item, o);
      }
    }

    method DueInstallationReports(now: nat) returns (keys: seq<ReportKey>)
      ensures StrictlySorted(keys, OutboxKey(reports))
      ensures forall key :: key in keys <==> key in DueReports(reports, now)
      ensures forall i, j :: 0 <= i < j < |keys| ==> keys[i] != keys[j]
    {
      OutboxKeyInjective(reports, DueReports(reports, now));
      keys := SortElements(DueReports(reports, now), OutboxKey(reports));
      KeysDiffer(keys, OutboxKey(reports));
      assert forall key :: key in keys <==> key in Elements(keys);
    }

    /**
     Delivers the due reports in order until one fails; that one is put off, unless the device lost its registration.
     */
    method FlushInstallationReports(w: World, now: nat)
      returns (flushed: bool, ghost trace: seq<Event>, ghost due: seq<ReportKey>)
      modifies this`reports
      ensures Now() == Run(w, old(Now()), trace)
      ensures flushed ==> reports == old(reports) - DueReports(old(reports), now)
      ensures StrictlySorted(due, OutboxKey(old(reports)))
      ensures forall key :: key in due <==> key in DueReports(old(reports), now)
      ensures if flushed then |trace| == |due| else |trace| <= |due|
      ensures forall k :: 0 <= k < |trace| ==>
          trace[k] == Acknowledges(due[k])
          || (!flushed && k == |trace| - 1 && due[k] in old(reports)
              && trace[k] == RetriesLater(due[k], now + Backoff(old(reports)[due[k]].deliveryAttempts)))
    {
      hide Run, Step, Backoff, StrictlySorted, OutboxKey;
      ghost var from := Now();
      var before := reports;
      var keys := DueInstallationReports(now);
      due, trace := keys, [];
      ghost var done: set<ReportKey> := {};
      RunNothing(w, from);
      for i := 0 to |keys|
        invariant Now() == Run(w, from, trace) && Now() == from.(reports := reports)
        invariant |trace| == i && forall k :: 0 <= k < i ==> trace[k] == Acknowledges(keys[k])
        invariant reports == before - done && done <= DueReports(before, now)
        invariant forall k :: 0 <= k < i ==> keys[k] in done
        invariant forall k :: i <= k < |keys| ==> keys[k] !in done
      {
        assert keys[i] in DueReports(before, now);
        var acknowledged := *;
        if acknowledged {
          RunSnoc(w, from, trace, Acknowledges(keys[i]));
          StepReports(w, Now(), keys[i], 0);
          trace := trace + [Acknowledges(keys[i])];
          reports := reports - {keys[i]};
          done := done + {keys[i]};
        } else {
          // A refusal that invalidates the device's registration is not put off.
          var invalidated := *;
          if invalidated { return false, trace, keys; }
          var at := now + Backoff(reports[keys[i]].deliveryAttempts);
          RunSnoc(w, from, trace, RetriesLater(keys[i], at));
          StepReports(w, Now(), keys[i], at);
          trace := trace + [RetriesLater(keys[i], at)];
          reports := reports[keys[i] := reports[keys[i]].(
              nextAttemptAt := at, deliveryAttempts := reports[keys[i]].deliveryAttempts + 1)];
          return false, trace, keys;
        }
      }
      flushed := true;
    }

    method ValidateSnapshot(w: World, snapshot: Snapshot) returns (ok: bool)
      ensures ok <==> SnapshotValid(w, snapshot)
    {
      if snapshot.revision > MAX_SAFE_INTEGER { return false; }
      var items := snapshot.installations;
      var ids: set<string> := {};
      for n := 0 to |items|
        invariant ids == set i | 0 <= i < n :: items[i].installationId
        invariant forall i :: 0 <= i < n ==> ItemValid(w, items[i])
        invariant forall i, j :: 0 <= i < j < n ==> items[i].installationId != items[j].installationId
      {
        if !ItemValid(w, items[n]) { return false; }
        if items[n].installationId in ids { return false; }
        ids := ids + {items[n].installationId};
      }
      ok := true;
    }

    method ApplyInstallationSnapshot(w: World, snapshot: Snapshot, o: SnapshotOutcome) returns (r: Result<bool, Fault>)
      modifies this
      ensures (Now(), r) == ApplySnapshot(w, old(Now()), snapshot, o)
    {
      hide SyncItem;
      var valid := ValidateSnapshot(w, snapshot);
      if !valid { return Err(ControlPlane); }
      if snapshot.revision < revision { return Err(StateError); }
      if snapshot.revision == revision { return Ok(false); }
      ghost var before := Now();
      var waiting, items := false, snapshot.installations;
      for n := 0 to |items|
        invariant Progress(Now(), waiting, None) == SyncItems(w, before, items, o.items, n)
      {
        var fault;
        waiting, fault := ReconcileItem(w, waiting, items[n], o.items(n));
        if fault.Some? {
          StopsEarly(w, before, items, o.items, n + 1, |items|);
          return Err(fault.value);
        }
      }
      if waiting { return Ok(false); }
      r := CommitRevision(snapshot.revision, o.committed);
    }
  }

  lemma StepReports(w: World, s: Store, key: ReportKey, at: nat)
    requires key in s.reports
    ensures Step(w, s, Acknowledges(key)) == s.(reports := s.reports - {key})
    ensures Step(w, s, RetriesLater(key, at))
         == s.(reports := s.reports[key := s.reports[key].(
                 nextAttemptAt := at, deliveryAttempts := s.reports[key].deliveryAttempts + 1)])
  {
  }

  lemma RunNothing(w: World, s: Store)
    ensures Run(w, s, []) == s
  {
  }

  lemma KeysDiffer(keys: seq<ReportKey>, key: ReportKey -> Key)
    requires StrictlySorted(keys, key)
    ensures forall i, j :: 0 <= i < j < |keys| ==> keys[i] != keys[j]
  {
    forall i, j | 0 <= i < j < |keys| ensures keys[i] != keys[j] {
      LessIrreflexive(key(keys[j]));
    }
  }

  function StatusCode(status: ReportStatus): nat
  {
    match status
    case ReportDownloading => 0
    case ReportInstalled => 1
    case ReportFailed => 2
  }

  function DueReports(reports: map<ReportKey, PendingReport>, now: nat): set<ReportKey>
  {
    set key | key in reports && reports[key].nextAttemptAt <= now
  }

  /** `ORDER BY outbox_id`; the rest of the key only tells apart what never has one id. */
  function OutboxKey(reports: map<ReportKey, PendingReport>): ReportKey -> Key
  {
    (key: ReportKey) =>
      [if key in reports then reports[key].outboxId else 0, StatusCode(key.status)] + Encode(Utf8, key.installationId)
  }

  lemma OutboxKeyInjective(reports: map<ReportKey, PendingReport>, keys: set<ReportKey>)
    ensures InjectiveOn(keys, OutboxKey(reports))
  {
    forall x, y | x in keys && y in keys && OutboxKey(reports)(x) == OutboxKey(reports)(y) ensures x == y {
      var a, b := OutboxKey(reports)(x), OutboxKey(reports)(y);
      assert a[1] == StatusCode(x.status) && b[1] == StatusCode(y.status);
      assert a[2..] == Encode(Utf8, x.installationId) && b[2..] == Encode(Utf8, y.installationId);
      EncodeInjective(Utf8, x.installationId, y.installationId);
    }
  }

  lemma {:induction false} RunSnoc(w: World, s: Store, evs: seq<Event>, ev: Event)
    ensures Run(w, s, evs + [ev]) == Step(w, Run(w, s, evs), ev)
    decreases |evs|
  {
    hide Step;
    if evs == [] {
      assert evs + [ev] == [ev] && [ev][1..] == [];
    } else {
      assert (evs + [ev])[1..] == evs[1..] + [ev];
      RunSnoc(w, Step(w, s, evs[0]), evs[1..], ev);
    }
  }

  lemma {:induction false} RunConcat(w: World, s: Store, a: seq<Event>, b: seq<Event>)
    ensures Run(w, s, a + b) == Run(w, Run(w, s, a), b)
    decreases |a|
  {
    hide Step;
    if a == [] {
      assert a + b == b;
    } else {
      assert (a + b)[1..] == a[1..] + b;
      RunConcat(w, Step(w, s, a[0]), a[1..], b);
    }
  }

  lemma {:induction false} StopsEarly(w: World, s: Store, items: seq<Item>, o: nat -> ItemOutcome, n: nat, m: nat)
    requires n <= m <= |items| && SyncItems(w, s, items, o, n).failure.Some?
    ensures SyncItems(w, s, items, o, m) == SyncItems(w, s, items, o, n)
    decreases m - n
  {
    hide SyncItem;
    if n < m { StopsEarly(w, s, items, o, n + 1, m); }
  }
}
