/** What installations keep under every failure, and exactly what breaks the rest. */
module InstallSafety {
  import opened Wrappers
  import opened InstallProtocol

  // ----- Rows and directories -----

  /** A managed version owns its own directory name, and at most one version of an application is active. */
  ghost predicate Shaped(s: Store)
  {
    (forall id :: id in s.rows ==> s.rows[id].manifest.id == id && (s.rows[id].managed ==> s.rows[id].path == App(id)))
    && forall a, b :: a in s.rows && b in s.rows && a.appId == b.appId && s.rows[a].active && s.rows[b].active ==>
        a == b
  }

  predicate Managed(s: Store, id: Id) { id in s.rows && s.rows[id].managed }

  /** The directory of a managed version is there and holds a release that passed the checks for its manifest. */
  predicate InPlace(w: World, s: Store, id: Id)
    requires id in s.rows
  {
    App(id) in s.files && w.releaseFault(s.files[App(id)], s.rows[id].manifest).None?
  }

  ghost predicate Coherent(w: World, s: Store)
  {
    Shaped(s) && forall id :: Managed(s, id) ==> InPlace(w, s, id)
  }

  /** The row stays while its directory cannot be moved back from the trash. */
  predicate Strands(s: Store, ev: Event)
  {
    ev.Uninstalls? && var (id, o) := (ev.id, ev.uninstall);
    o.read.None? && id.appId !in s.busy && Managed(s, id) && s.rows[id].path in s.files
    && o.quarantined.None? && Trash(o.trash) !in s.files && o.deleted.Some? && o.restored.Some?
  }

  lemma ActivateShaped(rows: map<Id, Row>, s: Store, m: Manifest, path: Path, now: nat, managed: bool)
    requires Shaped(s.(rows := rows)) && (managed ==> path == App(m.id))
    ensures Shaped(s.(rows := Activate(rows, m, path, now, managed)))
  {
  }

  lemma InstallShaped(w: World, s: Store, m: Manifest, o: InstallOutcome)
    requires Shaped(s)
    ensures Shaped(Install(w, s, m, o).0)
  {
    hide Install, Activate;
    InstallEffect(w, s, m, o);
    ActivateShaped(s.rows, s, m, App(m.id), o.now, true);
  }

  lemma UninstallShaped(s: Store, id: Id, o: UninstallOutcome)
    requires Shaped(s)
    ensures Shaped(Uninstall(s, id, o).0)
  {
  }

  /** What installing may do to the store: everything on disk and every pending report stays. */
  ghost predicate Keeps(w: World, s: Store, t: Store)
  {
    (Shaped(s) ==> Shaped(t)) && (Coherent(w, s) ==> Coherent(w, t))
    && t.revision == s.revision && t.busy == s.busy && FilesKept(s, t)
    && (forall key :: key in s.reports ==> key in t.reports && t.reports[key] == s.reports[key])
    && (forall id :: App(id) in s.files && !Managed(s, id) ==> !Managed(t, id))
  }

  /** What the snapshot loop may do: it also leaves every row whose directory exists. */
  ghost predicate Reconciles(w: World, s: Store, t: Store)
  {
    Keeps(w, s, t)
    && forall id :: id in s.rows && s.rows[id].path in s.files ==>
         id in t.rows && t.rows[id].manifest == s.rows[id].manifest && t.rows[id].path == s.rows[id].path
  }

  ghost predicate FilesKept(s: Store, t: Store)
  {
    forall path :: path in s.files ==> path in t.files && t.files[path] == s.files[path]
  }

  lemma InstallEffect(w: World, s: Store, m: Manifest, o: InstallOutcome)
    ensures var (t, fault) := Install(w, s, m, o);
            FilesKept(s, t) && t.reports == s.reports && t.revision == s.revision && t.busy == s.busy
            && (fault.Some? ==> t.rows == s.rows)
            && (fault.None? ==>
                  App(m.id) !in s.files && t.rows == Activate(s.rows, m, App(m.id), o.now, true)
                  && App(m.id) in t.files && w.releaseFault(t.files[App(m.id)], m).None?)
  {
    hide Activate;
  }

  lemma RowsKept(w: World, s: Store, t: Store)
    requires FilesKept(s, t) && t.rows == s.rows && t.revision == s.revision && t.busy == s.busy
    requires forall key :: key in s.reports ==> key in t.reports && t.reports[key] == s.reports[key]
    ensures Reconciles(w, s, t)
  {
    if Coherent(w, s) {
      forall id | Managed(t, id) ensures InPlace(w, t, id) {
        assert InPlace(w, s, id);
      }
    }
  }

  lemma ActivateRows(s: Store, m: Manifest, now: nat, id: Id)
    requires id != m.id
    ensures var rows := Activate(s.rows, m, App(m.id), now, true);
            (id in rows <==> id in s.rows)
            && (id in rows ==>
                  rows[id].manifest == s.rows[id].manifest && rows[id].path == s.rows[id].path
                  && rows[id].managed == s.rows[id].managed)
  {
  }

  lemma InstallKeeps(w: World, s: Store, m: Manifest, o: InstallOutcome)
    ensures Keeps(w, s, Install(w, s, m, o).0)
    ensures m.id !in s.rows ==> Reconciles(w, s, Install(w, s, m, o).0)
  {
    hide Install, Activate;
    var (t, fault) := Install(w, s, m, o);
    InstallEffect(w, s, m, o);
    if fault.Some? {
      RowsKept(w, s, t);
    } else {
      if Shaped(s) { InstallShaped(w, s, m, o); }
      ActivateOwn(s.rows, m, o.now);
      forall id | id != m.id
        ensures (id in t.rows <==> id in s.rows)
        ensures id in t.rows ==> t.rows[id].manifest == s.rows[id].manifest && t.rows[id].path == s.rows[id].path
        ensures Managed(t, id) <==> Managed(s, id)
      {
        ActivateRows(s, m, o.now, id);
      }
      if Coherent(w, s) {
        forall id | Managed(t, id) ensures InPlace(w, t, id) {
          assert id == m.id || InPlace(w, s, id);
        }
      }
    }
  }

  lemma ActivateOwn(rows: map<Id, Row>, m: Manifest, now: nat)
    ensures m.id in Activate(rows, m, App(m.id), now, true)
    ensures Activate(rows, m, App(m.id), now, true)[m.id] == Row(m, App(m.id), now, true, true)
  {
  }

  /** Looking for an installed version at most drops a row whose directory is gone. */
  lemma PresentEffect(w: World, s: Store, item: Item, o: ItemOutcome)
    ensures var t := IsPresent(w, s, item, o).0;
            t == s || (item.id in s.rows && s.rows[item.id].path !in s.files && t == s.(rows := s.rows - {item.id}))
  {
  }

  lemma PresentReconciles(w: World, s: Store, item: Item, o: ItemOutcome)
    ensures Reconciles(w, s, IsPresent(w, s, item, o).0)
  {
    hide IsPresent;
    PresentEffect(w, s, item, o);
    if IsPresent(w, s, item, o).0 != s { DropReconciles(w, s, item.id); }
    Unchanged(w, s);
  }

  lemma DropReconciles(w: World, s: Store, id: Id)
    requires id in s.rows && s.rows[id].path !in s.files
    ensures Reconciles(w, s, s.(rows := s.rows - {id}))
  {
    var t := s.(rows := s.rows - {id});
    if Coherent(w, s) {
      forall k | Managed(t, k) ensures InPlace(w, t, k) {
        assert Managed(s, k) && InPlace(w, s, k);
      }
    }
  }

  lemma EnqueueReconciles(w: World, s: Store, key: ReportKey, message: Message)
    ensures Reconciles(w, s, Enqueue(s, key, message))
  {
    var t := Enqueue(s, key, message);
    if Coherent(w, s) {
      forall id | Managed(t, id) ensures InPlace(w, t, id) {
        assert InPlace(w, s, id);
      }
    }
  }

  lemma ReconcilesTrans(w: World, a: Store, b: Store, c: Store)
    requires Reconciles(w, a, b) && Reconciles(w, b, c)
    ensures Reconciles(w, a, c)
  {
    hide Shaped, Coherent, Managed;
    forall id | App(id) in a.files && !Managed(a, id) ensures !Managed(c, id) {
      assert App(id) in b.files && !Managed(b, id);
    }
  }

  lemma SyncItemReconciles(w: World, s: Store, waiting: bool, item: Item, o: ItemOutcome)
    ensures Reconciles(w, s, SyncItem(w, s, waiting, item, o).store)
  {
    hide Reconciles, IsPresent, Install, Enqueue;
    var (checked, present) := IsPresent(w, s, item, o);
    PresentReconciles(w, s, item, o);
    Unchanged(w, checked);
    var (after, fault) := InstallSynced(w, checked, item, o);
    if present == Ok(false) {
      AbsentHasNoRow(w, s, item, o);
      InstallKeeps(w, checked, item.manifest, o.install);
      ReconcilesTrans(w, s, checked, after);
      forall key, message ensures Reconciles(w, s, Enqueue(after, key, message)) {
        EnqueueReconciles(w, after, key, message);
        ReconcilesTrans(w, s, after, Enqueue(after, key, message));
      }
    }
    forall key, message ensures Reconciles(w, s, Enqueue(checked, key, message)) {
      EnqueueReconciles(w, checked, key, message);
      ReconcilesTrans(w, s, checked, Enqueue(checked, key, message));
    }
  }

  lemma AbsentHasNoRow(w: World, s: Store, item: Item, o: ItemOutcome)
    requires IsPresent(w, s, item, o).1 == Ok(false)
    ensures item.id !in IsPresent(w, s, item, o).0.rows
  {
  }

  lemma Unchanged(w: World, s: Store)
    ensures Reconciles(w, s, s)
  {
  }

  lemma {:induction false} SyncItemsReconciles(w: World, s: Store, items: seq<Item>, o: nat -> ItemOutcome, n: nat)
    requires n <= |items|
    ensures Reconciles(w, s, SyncItems(w, s, items, o, n).store)
  {
    hide Reconciles, SyncItem;
    if n == 0 {
      Unchanged(w, s);
    } else {
      SyncItemsReconciles(w, s, items, o, n - 1);
      var p := SyncItems(w, s, items, o, n - 1);
      SyncItemReconciles(w, p.store, p.waiting, items[n - 1], o(n - 1));
      ReconcilesTrans(w, s, p.store, SyncItem(w, p.store, p.waiting, items[n - 1], o(n - 1)).store);
    }
  }

  /** Applying a snapshot is a reconciliation followed by at most a change of the revision. */
  lemma SyncReconciles(w: World, s: Store, snapshot: Snapshot, o: SnapshotOutcome)
    ensures Reconciles(w, s, ApplySnapshot(w, s, snapshot, o).0.(revision := s.revision))
  {
    hide Reconciles, SyncItems;
    Unchanged(w, s);
    SyncItemsReconciles(w, s, snapshot.installations, o.items, |snapshot.installations|);
    var p := SyncItems(w, s, snapshot.installations, o.items, |snapshot.installations|);
    assert p.store.revision == s.revision by { SameRevision(w, s, p.store); }
    assert p.store.(revision := s.revision) == p.store;
  }

  lemma SameRevision(w: World, s: Store, t: Store)
    requires Reconciles(w, s, t)
    ensures t.revision == s.revision
  {
  }

  // ----- Runs keep the rows in shape -----

  lemma StepShaped(w: World, s: Store, ev: Event)
    requires Shaped(s)
    ensures Shaped(Step(w, s, ev))
  {
    match ev
    case Installs(m, o) => InstallShaped(w, s, m, o);
    case Uninstalls(id, o) => UninstallShaped(s, id, o);
    case Syncs(snapshot, o) => SyncReconciles(w, s, snapshot, o);
    case _ =>
  }

  lemma {:induction false} RunShaped(w: World, s: Store, evs: seq<Event>)
    requires Shaped(s)
    ensures Shaped(Run(w, s, evs))
    decreases |evs|
  {
    hide Shaped, Step;
    if evs != [] {
      StepShaped(w, s, evs[0]);
      RunShaped(w, Step(w, s, evs[0]), evs[1..]);
    }
  }

  /** In every run from an empty store, whatever fails, two active versions of one application are the same version. */
  lemma OneActive(w: World, evs: seq<Event>, a: Id, b: Id)
    requires a in Run(w, EMPTY, evs).rows && b in Run(w, EMPTY, evs).rows && a.appId == b.appId
    requires Run(w, EMPTY, evs).rows[a].active && Run(w, EMPTY, evs).rows[b].active
    ensures a == b
  {
    RunShaped(w, EMPTY, evs);
  }

  // ----- Rows and directories -----

  lemma KeepsInPlace(w: World, s: Store, t: Store)
    requires Coherent(w, s) && Shaped(t)
    requires forall id :: Managed(t, id) ==> Managed(s, id) && t.rows[id].manifest == s.rows[id].manifest
    requires forall id :: Managed(t, id) && App(id) in s.files ==>
        App(id) in t.files && t.files[App(id)] == s.files[App(id)]
    ensures Coherent(w, t)
  {
    forall id | Managed(t, id) ensures InPlace(w, t, id) {
      assert InPlace(w, s, id);
    }
  }

  /**
   A step breaks the agreement of rows and directories exactly when an uninstall that could not delete its row
   cannot move the directory back either; every other failure is compensated or harmless.
   */
  lemma CoherentIff(w: World, s: Store, ev: Event)
    requires Coherent(w, s)
    ensures Coherent(w, Step(w, s, ev)) <==> !Strands(s, ev)
  {
    StepShaped(w, s, ev);
    match ev
    case Installs(m, o) => InstallKeeps(w, s, m, o);
    case Syncs(snapshot, o) =>
      SyncReconciles(w, s, snapshot, o);
      RevisionCoherent(w, Step(w, s, ev), s.revision);
    case Registers(path, allowed, activated, now) => RegisterCoherent(w, s, path, allowed, activated, now);
    case Uninstalls(id, o) => UninstallIff(w, s, id, o);
    case _ => KeepsInPlace(w, s, Step(w, s, ev));
  }

  lemma RegisterCoherent(w: World, s: Store, path: Path, allowed: Outcome, activated: Outcome, now: nat)
    requires Coherent(w, s)
    ensures Coherent(w, Register(w, s, path, allowed, activated, now).0)
  {
    var t := Register(w, s, path, allowed, activated, now).0;
    assert Shaped(t) by { StepShaped(w, s, Registers(path, allowed, activated, now)); }
    KeepsInPlace(w, s, t);
  }

  lemma RevisionCoherent(w: World, s: Store, revision: nat)
    ensures Coherent(w, s.(revision := revision)) <==> Coherent(w, s)
  {
    var t := s.(revision := revision);
    assert forall id :: Managed(s, id) <==> Managed(t, id);
    assert forall id :: Managed(s, id) ==> (InPlace(w, s, id) <==> InPlace(w, t, id));
  }

  lemma UninstallIff(w: World, s: Store, id: Id, o: UninstallOutcome)
    requires Coherent(w, s)
    ensures Coherent(w, Uninstall(s, id, o).0) <==> !Strands(s, Uninstalls(id, o))
  {
    UninstallShaped(s, id, o);
    var t := Uninstall(s, id, o).0;
    if Strands(s, Uninstalls(id, o)) {
      assert Managed(t, id) && !InPlace(w, t, id);
    } else {
      assert Managed(s, id) ==> s.rows[id].path == App(id) && InPlace(w, s, id);
      KeepsInPlace(w, s, t);
    }
  }

  /** No uninstall of the run strands its row. */
  predicate Compensated(w: World, s: Store, evs: seq<Event>)
    decreases |evs|
  {
    evs != [] ==> !Strands(s, evs[0]) && Compensated(w, Step(w, s, evs[0]), evs[1..])
  }

  /** Every state of the run, the first and the last included, is coherent. */
  ghost predicate CoherentThroughout(w: World, s: Store, evs: seq<Event>)
    decreases |evs|
  {
    Coherent(w, s) && (evs != [] ==> CoherentThroughout(w, Step(w, s, evs[0]), evs[1..]))
  }

  lemma {:induction false} RunCoherentIff(w: World, s: Store, evs: seq<Event>)
    requires Coherent(w, s)
    ensures CoherentThroughout(w, s, evs) <==> Compensated(w, s, evs)
    decreases |evs|
  {
    hide Coherent, Step, Strands;
    if evs != [] {
      CoherentIff(w, s, evs[0]);
      if Coherent(w, Step(w, s, evs[0])) {
        RunCoherentIff(w, Step(w, s, evs[0]), evs[1..]);
      } else {
        assert !CoherentThroughout(w, Step(w, s, evs[0]), evs[1..]);
      }
    }
  }

  /**
   Rows and directories agree in every state of a run from an empty store exactly when no uninstall strands its row.
   */
  lemma EveryRunCoherentIff(w: World, evs: seq<Event>)
    ensures CoherentThroughout(w, EMPTY, evs) <==> Compensated(w, EMPTY, evs)
  {
    assert Coherent(w, EMPTY);
    RunCoherentIff(w, EMPTY, evs);
  }

  // ----- The contents of a version's directory -----

  /**
   A version's directory is never rewritten: only an uninstall of that version takes it away, and no task is then
   active.
   */
  lemma WriteOnce(w: World, s: Store, ev: Event, id: Id)
    requires Shaped(s) && App(id) in s.files
    ensures App(id) in Step(w, s, ev).files ==> Step(w, s, ev).files[App(id)] == s.files[App(id)]
    ensures App(id) !in Step(w, s, ev).files ==> ev.Uninstalls? && ev.id == id && Managed(s, id) && id.appId !in s.busy
  {
    match ev
    case Installs(m, o) => InstallKeeps(w, s, m, o);
    case Syncs(snapshot, o) => SyncReconciles(w, s, snapshot, o);
    case _ =>
  }

  ghost predicate ManagedThroughout(w: World, s: Store, evs: seq<Event>, id: Id)
    decreases |evs|
  {
    Managed(s, id) && (evs != [] ==> ManagedThroughout(w, Step(w, s, evs[0]), evs[1..], id))
  }

  /** While a version's managed row exists its directory exists and its contents never change. */
  lemma {:induction false} ContentsFixed(w: World, s: Store, evs: seq<Event>, id: Id)
    requires Coherent(w, s) && Compensated(w, s, evs) && ManagedThroughout(w, s, evs, id)
    ensures App(id) in s.files && App(id) in Run(w, s, evs).files
    ensures Run(w, s, evs).files[App(id)] == s.files[App(id)]
    decreases |evs|
  {
    hide Step, Strands, Shaped;
    assert InPlace(w, s, id);
    if evs != [] {
      CoherentIff(w, s, evs[0]);
      WriteOnce(w, s, evs[0], id);
      ContentsFixed(w, Step(w, s, evs[0]), evs[1..], id);
    }
  }

  predicate BusyThroughout(w: World, s: Store, evs: seq<Event>, appId: string)
    decreases |evs|
  {
    appId in s.busy && (evs != [] ==> BusyThroughout(w, Step(w, s, evs[0]), evs[1..], appId))
  }

  /**
   While an application has an active task, none of its directories is removed or rewritten, even when rows and steps
   fail.
   */
  lemma {:induction false} BusyDirectoryStays(w: World, s: Store, evs: seq<Event>, id: Id)
    requires Shaped(s) && BusyThroughout(w, s, evs, id.appId) && App(id) in s.files
    ensures App(id) in Run(w, s, evs).files && Run(w, s, evs).files[App(id)] == s.files[App(id)]
    decreases |evs|
  {
    hide Step, Shaped, Managed;
    if evs != [] {
      StepShaped(w, s, evs[0]);
      WriteOnce(w, s, evs[0], id);
      BusyDirectoryStays(w, Step(w, s, evs[0]), evs[1..], id);
    }
  }

  // ----- Directories without a row -----

  predicate Orphan(s: Store, id: Id) { App(id) in s.files && !Managed(s, id) }

  ghost predicate NoOrphans(s: Store) { forall id :: App(id) in s.files ==> Managed(s, id) }

  /** An installation that reaches activation, fails there, and cannot remove its directory. */
  predicate LeavesDirectory(w: World, s: Store, m: Manifest, o: InstallOutcome)
  {
    o.verified.None? && Staging(o.staging) !in s.files && o.extracted.Ok?
    && w.releaseFault(o.extracted.value, m).None? && o.read.None? && App(m.id) !in s.files && o.moved.None?
    && o.activated.Some? && o.leftover.Some?
  }

  /** A development registration of a version that is installed from a signed package. */
  predicate Displaces(w: World, s: Store, path: Path, allowed: Outcome, activated: Outcome)
  {
    allowed.None? && path in s.files && w.devManifest(s.files[path]).Some? && activated.None?
    && Managed(s, w.devManifest(s.files[path]).value.id)
  }

  /**
   An item of a snapshot that is downloaded because its version is absent, and whose installation leaves its directory.
   */
  predicate ItemLeaves(w: World, s: Store, item: Item, o: ItemOutcome)
  {
    var (checked, present) := IsPresent(w, s, item, o);
    present == Ok(false) && item.status != Requested && ItemValid(w, item) && o.downloaded.None?
    && LeavesDirectory(w, checked, item.manifest, o.install)
  }

  /** Item `n` is reached, and leaves its directory then. */
  predicate LeavesAt(w: World, s: Store, items: seq<Item>, o: nat -> ItemOutcome, n: nat)
    requires n < |items|
  {
    SyncItems(w, s, items, o, n).failure.None? && ItemLeaves(w, SyncItems(w, s, items, o, n).store, items[n], o(n))
  }

  predicate Applies(w: World, s: Store, snapshot: Snapshot)
  {
    SnapshotValid(w, snapshot) && s.revision < snapshot.revision
  }

  predicate Orphans(w: World, s: Store, ev: Event)
  {
    match ev
    case Installs(m, o) => LeavesDirectory(w, s, m, o)
    case Registers(path, allowed, activated, now) => Displaces(w, s, path, allowed, activated)
    case Syncs(snapshot, o) =>
      Applies(w, s, snapshot)
      && exists n :: 0 <= n < |snapshot.installations| && LeavesAt(w, s, snapshot.installations, o.items, n)
    case _ => false
  }

  /** Exactly these steps leave a version's directory behind with no managed row for it. */
  lemma OrphansIff(w: World, s: Store, ev: Event)
    requires Coherent(w, s) && NoOrphans(s)
    ensures NoOrphans(Step(w, s, ev)) <==> !Orphans(w, s, ev)
  {
    match ev
    case Installs(m, o) => InstallOrphans(w, s, m, o);
    case Registers(path, allowed, activated, now) => RegisterOrphans(w, s, path, allowed, activated, now);
    case Syncs(snapshot, o) => SyncOrphans(w, s, snapshot, o);
    case _ =>
  }

  lemma SameDirectories(s: Store, t: Store)
    requires t.files == s.files && t.rows == s.rows
    ensures NoOrphans(t) <==> NoOrphans(s)
  {
    assert forall id :: Managed(t, id) <==> Managed(s, id);
  }

  /** Looking for a version drops no managed row of a directory that exists. */
  lemma PresentOrphans(w: World, s: Store, item: Item, o: ItemOutcome)
    requires Coherent(w, s) && NoOrphans(s)
    ensures NoOrphans(IsPresent(w, s, item, o).0)
  {
    hide IsPresent;
    var t := IsPresent(w, s, item, o).0;
    PresentEffect(w, s, item, o);
    forall id | App(id) in t.files ensures Managed(t, id) {
      ManagedHasDirectory(w, s, id);
      assert Managed(s, id) ==> s.rows[id].path == App(id);
    }
  }

  lemma ItemOrphans(w: World, s: Store, waiting: bool, item: Item, o: ItemOutcome)
    requires Coherent(w, s) && NoOrphans(s)
    ensures NoOrphans(SyncItem(w, s, waiting, item, o).store) <==> !ItemLeaves(w, s, item, o)
  {
    hide IsPresent, Install, Coherent, NoOrphans, LeavesDirectory;
    var (checked, present) := IsPresent(w, s, item, o);
    PresentReconciles(w, s, item, o);
    assert Coherent(w, checked);
    PresentOrphans(w, s, item, o);
    InstallOrphans(w, checked, item.manifest, o.install);
    var after := InstallSynced(w, checked, item, o).0;
    forall key, message
      ensures NoOrphans(Enqueue(checked, key, message)) <==> NoOrphans(checked)
      ensures NoOrphans(Enqueue(after, key, message)) <==> NoOrphans(after)
    {
      SameDirectories(checked, Enqueue(checked, key, message));
      SameDirectories(after, Enqueue(after, key, message));
    }
  }

  lemma OrphanKept(w: World, s: Store, t: Store)
    requires Reconciles(w, s, t) && !NoOrphans(s)
    ensures !NoOrphans(t)
  {
    var id :| App(id) in s.files && !Managed(s, id);
    assert App(id) in t.files && !Managed(t, id);
  }

  lemma {:induction false} ItemsOrphans(w: World, s: Store, items: seq<Item>, o: nat -> ItemOutcome, n: nat)
    requires Coherent(w, s) && NoOrphans(s) && n <= |items|
    ensures NoOrphans(SyncItems(w, s, items, o, n).store) <==> forall k :: 0 <= k < n ==> !LeavesAt(w, s, items, o, k)
  {
    hide SyncItem, ItemLeaves, NoOrphans, Shaped, Managed, InPlace, FilesKept;
    if n > 0 {
      var p := SyncItems(w, s, items, o, n - 1);
      ItemsOrphans(w, s, items, o, n - 1);
      SyncItemsReconciles(w, s, items, o, n - 1);
      if p.failure.None? {
        var q := SyncItem(w, p.store, p.waiting, items[n - 1], o(n - 1));
        SyncItemReconciles(w, p.store, p.waiting, items[n - 1], o(n - 1));
        if NoOrphans(p.store) {
          ItemOrphans(w, p.store, p.waiting, items[n - 1], o(n - 1));
        } else {
          OrphanKept(w, p.store, q.store);
        }
      }
      assert LeavesAt(w, s, items, o, n - 1) <==> p.failure.None? && ItemLeaves(w, p.store, items[n - 1], o(n - 1));
    }
  }

  lemma SyncOrphans(w: World, s: Store, snapshot: Snapshot, o: SnapshotOutcome)
    requires Coherent(w, s) && NoOrphans(s)
    ensures NoOrphans(ApplySnapshot(w, s, snapshot, o).0) <==> !Orphans(w, s, Syncs(snapshot, o))
  {
    hide SyncItems, Coherent, NoOrphans, LeavesAt, SnapshotValid;
    var items := snapshot.installations;
    ItemsOrphans(w, s, items, o.items, |items|);
    SyncItemsReconciles(w, s, items, o.items, |items|);
    var p := SyncItems(w, s, items, o.items, |items|);
    SameRevision(w, s, p.store);
    SameDirectories(p.store, p.store.(revision := snapshot.revision));
  }

  lemma ManagedHasDirectory(w: World, s: Store, id: Id)
    requires Coherent(w, s) && Managed(s, id)
    ensures App(id) in s.files
  {
    assert InPlace(w, s, id);
  }

  lemma InstallOrphans(w: World, s: Store, m: Manifest, o: InstallOutcome)
    requires Coherent(w, s) && NoOrphans(s)
    ensures NoOrphans(Install(w, s, m, o).0) <==> !LeavesDirectory(w, s, m, o)
  {
    hide Activate;
    var (t, fault) := Install(w, s, m, o);
    if LeavesDirectory(w, s, m, o) {
      if Managed(s, m.id) { ManagedHasDirectory(w, s, m.id); }
      assert Orphan(t, m.id);
    } else if fault.None? {
      ActivateOwn(s.rows, m, o.now);
      forall id | App(id) in t.files && id != m.id ensures Managed(t, id) {
        assert Managed(s, id);
        ActivateRows(s, m, o.now, id);
      }
    } else {
      assert forall id :: App(id) in t.files ==> App(id) in s.files;
      assert forall id :: Managed(s, id) ==> Managed(t, id);
    }
  }

  lemma RegisterOrphans(w: World, s: Store, path: Path, allowed: Outcome, activated: Outcome, now: nat)
    requires Coherent(w, s) && NoOrphans(s)
    ensures NoOrphans(Register(w, s, path, allowed, activated, now).0) <==> !Displaces(w, s, path, allowed, activated)
  {
    var t := Register(w, s, path, allowed, activated, now).0;
    if Displaces(w, s, path, allowed, activated) {
      var id := w.devManifest(s.files[path]).value.id;
      assert InPlace(w, s, id);
      assert Orphan(t, id);
    } else {
      forall id | App(id) in t.files ensures Managed(t, id) {
        assert Managed(s, id);
      }
    }
  }

  /**
   An orphan is permanent: in every later run its directory stays, the version never becomes managed again, and
   every attempt to install it is refused.
   */
  lemma {:induction false} OrphanForever(w: World, s: Store, evs: seq<Event>, id: Id, m: Manifest, o: InstallOutcome)
    requires Shaped(s) && Orphan(s, id) && m.id == id
    ensures Orphan(Run(w, s, evs), id) && Install(w, Run(w, s, evs), m, o).1.Some?
    decreases |evs|
  {
    if evs != [] {
      OrphanStays(w, s, evs[0], id);
      StepShaped(w, s, evs[0]);
      OrphanForever(w, Step(w, s, evs[0]), evs[1..], id, m, o);
    }
  }

  lemma OrphanStays(w: World, s: Store, ev: Event, id: Id)
    requires Shaped(s) && Orphan(s, id)
    ensures Orphan(Step(w, s, ev), id)
  {
    WriteOnce(w, s, ev, id);
    match ev
    case Installs(m, o) => InstallKeeps(w, s, m, o);
    case Registers(path, allowed, activated, now) => RegisterUnmanaged(w, s, path, allowed, activated, now, id);
    case Syncs(snapshot, o) => SyncReconciles(w, s, snapshot, o);
    case _ =>
  }

  lemma RegisterUnmanaged(w: World, s: Store, path: Path, allowed: Outcome, activated: Outcome, now: nat, id: Id)
    ensures Managed(Register(w, s, path, allowed, activated, now).0, id) ==> Managed(s, id)
  {
  }

  // ----- Whole operations -----

  /** An installation that got as far as staging and then left a directory there or at its destination. */
  predicate LeavesSomething(w: World, s: Store, m: Manifest, o: InstallOutcome)
  {
    o.verified.None? && Staging(o.staging) !in s.files
    && (o.leftover.Some?
        || (o.extracted.Ok? && w.releaseFault(o.extracted.value, m).None? && o.read.None? && App(m.id) !in s.files
            && o.moved.Some?))
  }

  /** A failed installation changes no row, and changes anything at all exactly when it leaves something behind. */
  lemma FailedInstallRestores(w: World, s: Store, m: Manifest, o: InstallOutcome)
    requires Install(w, s, m, o).1.Some?
    ensures Install(w, s, m, o).0.rows == s.rows
    ensures Install(w, s, m, o).0 == s <==> !LeavesSomething(w, s, m, o)
  {
    hide Activate;
    var t := Install(w, s, m, o).0;
    assert Staging(o.staging) !in s.files ==> s.files - {Staging(o.staging)} == s.files;
    assert App(m.id) !in s.files ==> s.files - {App(m.id)} == s.files;
    assert LeavesSomething(w, s, m, o) ==> Staging(o.staging) in t.files || App(m.id) !in s.files;
  }

  /** Only purging failed: the row is gone, and what is left of the directory is in the trash. */
  predicate OnlyPurgeFailed(s: Store, id: Id, o: UninstallOutcome, t: Store)
  {
    Managed(s, id) && s.rows[id].path in s.files && o.purged.Some?
    && t == s.(rows := s.rows - {id}, files := (s.files - {s.rows[id].path})[Trash(o.trash) := o.leftover])
  }

  /** Given that the directory moves back, a failed uninstall changes nothing at all, or only purging failed. */
  lemma FailedUninstallRestores(s: Store, id: Id, o: UninstallOutcome)
    requires Uninstall(s, id, o).1.Some? && o.restored.None?
    ensures Uninstall(s, id, o).0 == s || OnlyPurgeFailed(s, id, o, Uninstall(s, id, o).0)
  {
  }

  /** Installing a version and uninstalling it again restores the store, except that no version is active any more. */
  lemma InstallThenUninstall(w: World, s: Store, m: Manifest, o: InstallOutcome, u: UninstallOutcome)
    requires m.id !in s.rows && Install(w, s, m, o).1.None?
    requires Uninstall(Install(w, s, m, o).0, m.id, u).1.None?
    ensures var t := Uninstall(Install(w, s, m, o).0, m.id, u).0;
            t.files == s.files && t.rows.Keys == s.rows.Keys && t.(files := s.files, rows := s.rows) == s
            && forall id :: id in s.rows ==>
                 t.rows[id] == if id.appId == m.id.appId then s.rows[id].(active := false) else s.rows[id]
  {
    var mid := Install(w, s, m, o).0;
    assert mid.rows[m.id] == Row(m, App(m.id), o.now, true, true);
    assert mid.files == s.files[App(m.id) := mid.files[App(m.id)]] && App(m.id) !in s.files;
    assert mid.files - {App(m.id)} == s.files;
  }
}
