/** What an applied installation snapshot guarantees, and how its revision is committed. */
module InstallSync {
  import opened Wrappers
  import opened InstallProtocol
  import opened InstallSafety

  /** The version is installed locally with the control plane's manifest, and its directory passes the checks. */
  predicate Present(w: World, s: Store, item: Item)
  {
    item.id in s.rows && s.rows[item.id].manifest == item.manifest && s.rows[item.id].path in s.files
    && w.releaseFault(s.files[s.rows[item.id].path], item.manifest).None?
  }

  /**
   What the control plane is told about an item at its turn. An item it believes installed is never reported: it is
   installed again if it is absent, and the loop fails when that fails.
   */
  function Told(item: Item, present: bool): Option<ReportStatus>
  {
    match (item.status, present)
    case (Installed, _) => None
    case (_, true) => Some(ReportInstalled)
    case (Requested, false) => Some(ReportDownloading)
    case (Downloading, false) => Some(ReportFailed)
  }

  predicate Tells(item: Item, present: bool, key: ReportKey)
  {
    key.installationId == item.installationId && Told(item, present) == Some(key.status)
  }

  /**
   Nothing is left to do for an item, given the store right after its turn. It was present then, still is, and the
   server knows or will be told; or it was absent, and its failure will be reported.
   */
  predicate Handled(w: World, turn: Store, s: Store, item: Item)
  {
    if Present(w, turn, item) then
      Present(w, s, item)
      && (item.status == Installed || ReportKey(item.installationId, ReportInstalled) in s.reports)
    else item.status == Downloading && ReportKey(item.installationId, ReportFailed) in s.reports
  }

  /** The item waits until the server has accepted its pending downloading report. */
  predicate Waits(s: Store, item: Item)
  {
    item.status == Requested && ReportKey(item.installationId, ReportDownloading) in s.reports
  }

  lemma PresentIff(w: World, s: Store, item: Item, o: ItemOutcome)
    ensures IsPresent(w, s, item, o).1.Ok? ==> (IsPresent(w, s, item, o).1.value <==> Present(w, s, item))
    ensures IsPresent(w, s, item, o).1 == Ok(true) ==> IsPresent(w, s, item, o).0 == s
  {
  }

  lemma InstallsItem(w: World, s: Store, item: Item, o: ItemOutcome)
    requires ItemValid(w, item) && InstallSynced(w, s, item, o).1.None?
    ensures Present(w, InstallSynced(w, s, item, o).0, item)
  {
    InstallEffect(w, s, item.manifest, o.install);
    ActivateOwn(s.rows, item.manifest, o.install.now);
  }

  lemma ReportKeepsPresent(w: World, s: Store, item: Item, key: ReportKey, message: Message)
    ensures Present(w, Enqueue(s, key, message), item) <==> Present(w, s, item)
    ensures key in Enqueue(s, key, message).reports
  {
  }

  /** One item that does not fail is handled, or it makes the loop wait: exactly when it is requested and absent. */
  lemma ItemHandled(w: World, s: Store, waiting: bool, item: Item, o: ItemOutcome)
    requires ItemValid(w, item) && SyncItem(w, s, waiting, item, o).failure.None?
    ensures var p := SyncItem(w, s, waiting, item, o);
            var waits := item.status == Requested && !Present(w, s, item);
            (p.waiting <==> waiting || waits)
            && (waits <==> item.status == Requested && !Present(w, p.store, item))
            && (if waits then Waits(p.store, item) else Handled(w, p.store, p.store, item))
  {
    hide IsPresent, Present, Install, InstallSynced, Enqueue;
    PresentIff(w, s, item, o);
    var (checked, present) := IsPresent(w, s, item, o);
    var (after, fault) := InstallSynced(w, checked, item, o);
    AbsentStays(w, s, item, o);
    if fault.None? { InstallsItem(w, checked, item, o); }
    forall t: Store, key, message
      ensures Present(w, Enqueue(t, key, message), item) <==> Present(w, t, item)
      ensures key in Enqueue(t, key, message).reports
    {
      ReportKeepsPresent(w, t, item, key, message);
    }
  }

  /** An absent item has no row once it was looked for, and a failed installation does not give it one. */
  lemma AbsentStays(w: World, s: Store, item: Item, o: ItemOutcome)
    ensures var (checked, present) := IsPresent(w, s, item, o);
            present == Ok(false) ==>
              item.id !in checked.rows && !Present(w, checked, item) && checked.reports == s.reports
              && checked.nextReportId == s.nextReportId
              && (InstallSynced(w, checked, item, o).1.Some? ==>
                    item.id !in InstallSynced(w, checked, item, o).0.rows
                    && !Present(w, InstallSynced(w, checked, item, o).0, item))
  {
    hide Install;
    InstallEffect(w, IsPresent(w, s, item, o).0, item.manifest, o.install);
  }

  /** One report is pending that may not have been before: due at once, never tried, and last in the outbox if new. */
  ghost predicate Grown(s: Store, t: Store, key: ReportKey, message: Message)
  {
    (forall k :: k in t.reports <==> k in s.reports || k == key)
    && (forall k :: k in s.reports ==> t.reports[k] == s.reports[k])
    && (key !in s.reports ==> t.reports[key] == PendingReport(s.nextReportId, message, message.at, 0))
  }

  /** One report about an item; `t` has the pending reports of `s`. */
  lemma ReportGrows(
    w: World, s: Store, t: Store, waiting: bool, item: Item, status: ReportStatus, code: Option<string>, o: ItemOutcome)
    requires t.reports == s.reports && t.nextReportId == s.nextReportId
    ensures var p := Report(w, t, waiting, item, status, code, o);
            p.waiting == waiting && (Present(w, p.store, item) <==> Present(w, t, item))
            && (p.failure.Some? ==> p.store == t)
            && (p.failure.None? ==>
                  Grown(s, p.store, ReportKey(item.installationId, status), Message(code, o.now)))
  {
  }

  /** The fault that ends the installation of an absent item, if one does. */
  function FaultOf(w: World, s: Store, item: Item, o: ItemOutcome): Outcome
  {
    InstallSynced(w, IsPresent(w, s, item, o).0, item, o).1
  }

  /**
   Exactly what one item adds to the pending reports. If it is present afterwards it is reported installed, unless the
   server knows; if it is absent a request is reported as downloading, and a download as failed with the code of the
   fault that ended it. A turn that fails reports nothing.
   */
  lemma ItemTold(w: World, s: Store, waiting: bool, item: Item, o: ItemOutcome)
    requires ItemValid(w, item)
    ensures var p := SyncItem(w, s, waiting, item, o);
            var told := Told(item, Present(w, p.store, item));
            if p.failure.Some? then p.store.reports == s.reports && p.waiting == waiting
            else
              (item.status == Installed ==> Present(w, p.store, item))
              && (told.None? ==> p.store.reports == s.reports)
              && (told == Some(ReportFailed) ==>
                    FaultOf(w, s, item, o).Some?
                    && Grown(s, p.store, ReportKey(item.installationId, ReportFailed),
                             Message(Some(ErrorCode(FaultOf(w, s, item, o).value)), o.now)))
              && (told.Some? && told.value != ReportFailed ==>
                    Grown(s, p.store, ReportKey(item.installationId, told.value), Message(None, o.now)))
  {
    hide IsPresent, Present, Install, InstallSynced, Report, ErrorCode, Grown;
    PresentIff(w, s, item, o);
    PresentEffect(w, s, item, o);
    var (checked, present) := IsPresent(w, s, item, o);
    var (after, fault) := InstallSynced(w, checked, item, o);
    AbsentStays(w, s, item, o);
    SyncedReports(w, checked, item, o);
    if fault.None? { InstallsItem(w, checked, item, o); }
    ReportGrows(w, s, checked, waiting, item, ReportInstalled, None, o);
    ReportGrows(w, s, checked, waiting, item, ReportDownloading, None, o);
    ReportGrows(w, s, after, waiting, item, ReportInstalled, None, o);
    if fault.Some? { ReportGrows(w, s, after, waiting, item, ReportFailed, Some(ErrorCode(fault.value)), o); }
  }

  lemma ItemAdds(w: World, s: Store, waiting: bool, item: Item, o: ItemOutcome, key: ReportKey)
    requires ItemValid(w, item) && SyncItem(w, s, waiting, item, o).failure.None?
    ensures var t := SyncItem(w, s, waiting, item, o).store;
            key in t.reports <==> key in s.reports || Tells(item, Present(w, t, item), key)
  {
    hide SyncItem, Present, FaultOf;
    ItemTold(w, s, waiting, item, o);
  }

  lemma SyncedReports(w: World, s: Store, item: Item, o: ItemOutcome)
    ensures InstallSynced(w, s, item, o).0.reports == s.reports
    ensures InstallSynced(w, s, item, o).0.nextReportId == s.nextReportId
  {
  }

  lemma HandledStays(w: World, turn: Store, s: Store, t: Store, item: Item)
    requires Reconciles(w, s, t)
    ensures Handled(w, turn, s, item) ==> Handled(w, turn, t, item)
    ensures Waits(s, item) ==> Waits(t, item)
  {
    hide Shaped, Coherent;
    var key := ReportKey(item.installationId, ReportDownloading);
    assert key in s.reports ==> key in t.reports;
    assert Present(w, s, item) ==> s.rows[item.id].path in t.files;
  }

  /** The store just before item `i` is looked at. */
  function Before(w: World, s: Store, items: seq<Item>, o: nat -> ItemOutcome, i: nat): Store
    requires i <= |items|
  {
    SyncItems(w, s, items, o, i).store
  }

  predicate WaitsAt(w: World, s: Store, items: seq<Item>, o: nat -> ItemOutcome, i: nat)
    requires i < |items|
  {
    items[i].status == Requested && !Present(w, Before(w, s, items, o, i), items[i])
  }

  /** What is left of item `i`, given what happened at its turn. */
  predicate Dealt(w: World, s: Store, items: seq<Item>, o: nat -> ItemOutcome, i: nat, t: Store)
    requires i < |items|
  {
    if WaitsAt(w, s, items, o, i) then Waits(t, items[i])
    else Handled(w, Before(w, s, items, o, i + 1), t, items[i])
  }

  predicate ItemsValid(w: World, items: seq<Item>) { forall i :: 0 <= i < |items| ==> ItemValid(w, items[i]) }

  /** After `n` items without a failure each is handled or waits, and the flag says whether one waits. */
  lemma {:induction false} ItemsHandled(w: World, s: Store, items: seq<Item>, o: nat -> ItemOutcome, n: nat)
    requires n <= |items| && ItemsValid(w, items) && SyncItems(w, s, items, o, n).failure.None?
    ensures var p := SyncItems(w, s, items, o, n);
            (forall i :: 0 <= i < n ==> Dealt(w, s, items, o, i, p.store))
            && (p.waiting <==> exists i :: 0 <= i < n && WaitsAt(w, s, items, o, i))
  {
    hide SyncItem, Present, Handled, Waits, Reconciles;
    if n > 0 {
      var p := SyncItems(w, s, items, o, n - 1);
      ItemsHandled(w, s, items, o, n - 1);
      ItemHandled(w, p.store, p.waiting, items[n - 1], o(n - 1));
      SyncItemReconciles(w, p.store, p.waiting, items[n - 1], o(n - 1));
      var q := SyncItem(w, p.store, p.waiting, items[n - 1], o(n - 1));
      assert q == SyncItems(w, s, items, o, n);
      forall i | 0 <= i < n ensures Dealt(w, s, items, o, i, q.store) {
        if i < n - 1 {
          assert Dealt(w, s, items, o, i, p.store);
          HandledStays(w, Before(w, s, items, o, i + 1), p.store, q.store, items[i]);
        }
      }
      assert WaitsAt(w, s, items, o, n - 1) <==> items[n - 1].status == Requested && !Present(w, p.store, items[n - 1]);
    }
  }

  /** Item `i` tells the control plane something, given whether it is present right after its turn. */
  predicate TellsAt(w: World, s: Store, items: seq<Item>, o: nat -> ItemOutcome, i: nat, key: ReportKey)
    requires i < |items|
  {
    Tells(items[i], Present(w, Before(w, s, items, o, i + 1), items[i]), key)
  }

  /** After `n` items without a failure the pending reports are the old ones and what each item tells. */
  lemma {:induction false} ItemsTold(
    w: World, s: Store, items: seq<Item>, o: nat -> ItemOutcome, n: nat, key: ReportKey)
    requires n <= |items| && ItemsValid(w, items) && SyncItems(w, s, items, o, n).failure.None?
    ensures key in SyncItems(w, s, items, o, n).store.reports <==>
              key in s.reports || exists i :: 0 <= i < n && TellsAt(w, s, items, o, i, key)
  {
    hide SyncItem, Present, Tells;
    if n > 0 {
      var p := SyncItems(w, s, items, o, n - 1);
      ItemsTold(w, s, items, o, n - 1, key);
      ItemAdds(w, p.store, p.waiting, items[n - 1], o(n - 1), key);
      assert Before(w, s, items, o, n) == SyncItem(w, p.store, p.waiting, items[n - 1], o(n - 1)).store;
      assert TellsAt(w, s, items, o, n - 1, key) <==>
             Tells(items[n - 1], Present(w, Before(w, s, items, o, n), items[n - 1]), key);
    }
  }

  /**
   Applying a snapshot, under every failure. It commits the snapshot's revision exactly when it answers true; then
   that revision is new and every item is handled. A false answer means the revision was applied before, or an item
   waits and the others are handled. It never disturbs what is installed.
   */
  lemma SnapshotApplied(w: World, s: Store, snapshot: Snapshot, o: SnapshotOutcome)
    ensures var (t, r) := ApplySnapshot(w, s, snapshot, o);
            var items := snapshot.installations;
            (r == Ok(true) ==>
               s.revision < snapshot.revision == t.revision
               && forall i :: 0 <= i < |items| ==> Handled(w, Before(w, s, items, o.items, i + 1), t, items[i]))
            && (r != Ok(true) ==> t.revision == s.revision)
            && (r == Ok(false) ==>
                  (t == s && snapshot.revision == s.revision)
                  || ((forall i :: 0 <= i < |items| ==> Dealt(w, s, items, o.items, i, t))
                      && exists i :: 0 <= i < |items| && Waits(t, items[i])))
            && Reconciles(w, s, t.(revision := s.revision))
  {
    hide Handled, Waits, Reconciles, SyncItems;
    SyncReconciles(w, s, snapshot, o);
    var items := snapshot.installations;
    var p := SyncItems(w, s, items, o.items, |items|);
    SyncItemsReconciles(w, s, items, o.items, |items|);
    SameRevision(w, s, p.store);
    if SnapshotValid(w, snapshot) && p.failure.None? {
      ItemsHandled(w, s, items, o.items, |items|);
      forall i | 0 <= i < |items|
        ensures !p.waiting ==>
            Handled(w, Before(w, s, items, o.items, i + 1), p.store.(revision := snapshot.revision), items[i])
      {
        assert Dealt(w, s, items, o.items, i, p.store);
        RevisionIrrelevant(w, Before(w, s, items, o.items, i + 1), p.store, snapshot.revision, items[i]);
      }
      if p.waiting {
        var i :| 0 <= i < |items| && WaitsAt(w, s, items, o.items, i);
        assert Dealt(w, s, items, o.items, i, p.store);
      }
    }
  }

  lemma RevisionIrrelevant(w: World, turn: Store, s: Store, revision: nat, item: Item)
    ensures Handled(w, turn, s.(revision := revision), item) <==> Handled(w, turn, s, item)
  {
  }

  /** A snapshot that is applied without a failure adds exactly the reports its items call for at their turns. */
  lemma SnapshotTold(w: World, s: Store, snapshot: Snapshot, o: SnapshotOutcome, key: ReportKey)
    requires ApplySnapshot(w, s, snapshot, o).1.Ok? && snapshot.revision != s.revision
    ensures var items := snapshot.installations;
            key in ApplySnapshot(w, s, snapshot, o).0.reports <==>
              key in s.reports || exists i :: 0 <= i < |items| && TellsAt(w, s, items, o.items, i, key)
  {
    hide SyncItems, TellsAt;
    ItemsTold(w, s, snapshot.installations, o.items, |snapshot.installations|, key);
  }

  /** A snapshot that is malformed or older than the applied one is refused before anything is looked at. */
  lemma SnapshotRefused(w: World, s: Store, snapshot: Snapshot, o: SnapshotOutcome)
    ensures !SnapshotValid(w, snapshot) ==> ApplySnapshot(w, s, snapshot, o) == (s, Err(ControlPlane))
    ensures SnapshotValid(w, snapshot) && snapshot.revision < s.revision ==>
              ApplySnapshot(w, s, snapshot, o) == (s, Err(StateError))
    ensures SnapshotValid(w, snapshot) && snapshot.revision == s.revision ==>
              ApplySnapshot(w, s, snapshot, o) == (s, Ok(false))
  {
    hide SyncItems;
  }

  /** When no step fails, the revision is held back exactly when some requested item is absent at its turn. */
  lemma HeldBackIff(w: World, s: Store, snapshot: Snapshot, o: SnapshotOutcome)
    requires ApplySnapshot(w, s, snapshot, o).1.Ok? && snapshot.revision != s.revision
    ensures ApplySnapshot(w, s, snapshot, o).1 == Ok(false)
       <==> exists i :: 0 <= i < |snapshot.installations| && WaitsAt(w, s, snapshot.installations, o.items, i)
  {
    hide Handled, Waits, Reconciles, SyncItems;
    var items := snapshot.installations;
    SyncItemsReconciles(w, s, items, o.items, |items|);
    SameRevision(w, s, SyncItems(w, s, items, o.items, |items|).store);
    ItemsHandled(w, s, items, o.items, |items|);
  }

  /** A committed snapshot is not applied again, and an older one is refused; neither changes anything. */
  lemma AppliedOnce(w: World, s: Store, snapshot: Snapshot, o: SnapshotOutcome, older: Snapshot, again: SnapshotOutcome)
    requires ApplySnapshot(w, s, snapshot, o).1 == Ok(true) && SnapshotValid(w, older)
        && older.revision <= snapshot.revision
    ensures var t := ApplySnapshot(w, s, snapshot, o).0;
            ApplySnapshot(w, t, older, again)
            == (t, if older.revision == snapshot.revision then Ok(false) else Err(StateError))
  {
    SnapshotApplied(w, s, snapshot, o);
  }

  // ----- Revisions over a run -----

  /** The revisions a run commits, in order. */
  function Commits(w: World, s: Store, evs: seq<Event>): seq<nat>
    decreases |evs|
  {
    if evs == [] then []
    else
      (if evs[0].Syncs? && ApplySnapshot(w, s, evs[0].snapshot, evs[0].sync).1 == Ok(true)
       then [evs[0].snapshot.revision] else [])
      + Commits(w, Step(w, s, evs[0]), evs[1..])
  }

  lemma StepRevision(w: World, s: Store, ev: Event)
    ensures var committed := ev.Syncs? && ApplySnapshot(w, s, ev.snapshot, ev.sync).1 == Ok(true);
            Step(w, s, ev).revision == (if committed then ev.snapshot.revision else s.revision)
            && (committed ==> s.revision < ev.snapshot.revision)
  {
    match ev
    case Syncs(snapshot, o) => SnapshotApplied(w, s, snapshot, o);
    case Installs(m, o) => InstallEffect(w, s, m, o);
    case _ =>
  }

  /** Over every run committed revisions strictly increase, so none is committed twice, and the last one is stored. */
  lemma {:induction false} CommitsIncrease(w: World, s: Store, evs: seq<Event>)
    ensures var c := Commits(w, s, evs);
            (forall i :: 0 <= i < |c| ==> s.revision < c[i]) && (forall i, j :: 0 <= i < j < |c| ==> c[i] < c[j])
            && Run(w, s, evs).revision == (if c == [] then s.revision else c[|c| - 1])
    decreases |evs|
  {
    hide Step, ApplySnapshot;
    if evs != [] {
      StepRevision(w, s, evs[0]);
      CommitsIncrease(w, Step(w, s, evs[0]), evs[1..]);
    }
  }
}
