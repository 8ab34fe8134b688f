/**
 Installing, registering and uninstalling application versions, and applying the control plane's
 installation snapshots. Filesystem and database steps are interleaved and each may fail; how each
 one turns out is an input, so a statement for all outcomes covers every failure.
 */
module InstallProtocol {
  import opened Wrappers

  type Content = string

  datatype Fault =
    | DigestMismatch | SignatureRejected | UnsafeArchive | Archive | PathEscape | InvalidManifest
    | UnsupportedTarget | ControlPlane | Io | NotInstalled | StateError | OtherFault

  /** How one filesystem, database or network step turns out: `None` is success. */
  type Outcome = Option<Fault>

  datatype Id = Id(appId: string, version: string)

  datatype Manifest = Manifest(id: Id, body: string)

  datatype Path = App(id: Id) | Staging(uuid: nat) | Trash(uuid: nat) | Elsewhere(name: string)

  datatype Row = Row(manifest: Manifest, path: Path, installedAt: nat, active: bool, managed: bool)

  datatype ItemStatus = Requested | Downloading | Installed

  datatype ReportStatus = ReportDownloading | ReportInstalled | ReportFailed

  datatype ReportKey = ReportKey(installationId: string, status: ReportStatus)

  /** What a report says besides its key, and when it was enqueued. */
  datatype Message = Message(code: Option<string>, at: nat)

  /** An outbox row; it is delivered in the order of `outboxId`, not before `nextAttemptAt`. */
  datatype PendingReport = PendingReport(outboxId: nat, message: Message, nextAttemptAt: nat, deliveryAttempts: nat)

  datatype Item = Item(installationId: string, status: ItemStatus, id: Id, manifest: Manifest, artifact: string)

  datatype Snapshot = Snapshot(revision: nat, installations: seq<Item>)

  /**
   The database tables, the directories below the data root and elsewhere, and the applications
   that have a starting or running task. Pending reports are keyed as their unique index keys them.
   */
  datatype Store = Store(
    rows: map<Id, Row>, files: map<Path, Content>, reports: map<ReportKey, PendingReport>,
    nextReportId: nat, revision: nat, busy: set<string>)

  const EMPTY: Store := Store(map[], map[], map[], 0, 0, {})

  /** Checks that belong to other parts of the agent. */
  datatype World = World(
    isUuid: string -> bool,
    itemOk: Item -> bool,
    releaseFault: (Content, Manifest) -> Outcome,
    devManifest: Content -> Option<Manifest>)

  // ----- Database transactions -----

  function Activate(rows: map<Id, Row>, m: Manifest, path: Path, now: nat, managed: bool): map<Id, Row>
  {
    (map k | k in rows :: if k.appId == m.id.appId then rows[k].(active := false) else rows[k])
      [m.id := Row(m, path, now, true, managed)]
  }

  /** `INSERT OR IGNORE`. */
  function Enqueue(s: Store, key: ReportKey, message: Message): Store
  {
    if key in s.reports then s
    else
      s.(reports := s.reports[key := PendingReport(s.nextReportId, message, message.at, 0)],
         nextReportId := s.nextReportId + 1)
  }

  function RetryReport(s: Store, key: ReportKey, at: nat): Store
  {
    if key !in s.reports then s
    else
      var r := s.reports[key];
      s.(reports := s.reports[key := r.(nextAttemptAt := at, deliveryAttempts := r.deliveryAttempts + 1)])
  }

  // ----- Installing -----

  /** `leftover` is what a failed removal of a directory leaves behind. */
  datatype InstallOutcome = InstallOutcome(
    verified: Outcome, staging: nat, extracted: Result<Content, Fault>, read: Outcome,
    moved: Outcome, activated: Outcome, now: nat, leftover: Option<Content>)

  function Discard(files: map<Path, Content>, path: Path, leftover: Option<Content>): map<Path, Content>
  {
    if leftover.Some? then files[path := leftover.value] else files - {path}
  }

  function Install(w: World, s: Store, m: Manifest, o: InstallOutcome): (Store, Outcome)
  {
    var staging := Path.Staging(o.staging);
    if o.verified.Some? then (s, o.verified)
    else if staging in s.files then (s, Some(Io))
    else if o.extracted.Err? then (s.(files := Discard(s.files, staging, o.leftover)), Some(o.extracted.error))
    else
      var content := o.extracted.value;
      var discarded := s.(files := Discard(s.files, staging, o.leftover));
      if w.releaseFault(content, m).Some? then (discarded, w.releaseFault(content, m))
      else if o.read.Some? then (discarded, o.read)
      else if App(m.id) in s.files then (discarded, Some(StateError))
      else if o.moved.Some? then (s.(files := s.files[staging := content]), o.moved)
      else if o.activated.Some? then (s.(files := Discard(s.files, App(m.id), o.leftover)), o.activated)
      else (s.(files := s.files[App(m.id) := content], rows := Activate(s.rows, m, App(m.id), o.now, true)), None)
  }

  function Register(w: World, s: Store, path: Path, allowed: Outcome, activated: Outcome, now: nat): (Store, Outcome)
  {
    if allowed.Some? then (s, allowed)
    else if path !in s.files then (s, Some(Io))
    else
      var m := w.devManifest(s.files[path]);
      if m.None? then (s, Some(InvalidManifest))
      else if activated.Some? then (s, activated)
      else (s.(rows := Activate(s.rows, m.value, path, now, false)), None)
  }

  // ----- Uninstalling -----

  datatype UninstallOutcome = UninstallOutcome(
    read: Outcome, trash: nat, quarantined: Outcome, deleted: Outcome, restored: Outcome,
    purged: Outcome, leftover: Content)

  function Uninstall(s: Store, id: Id, o: UninstallOutcome): (Store, Outcome)
  {
    if o.read.Some? then (s, o.read)
    else if id.appId in s.busy then (s, Some(StateError))
    else if id !in s.rows then (s, Some(NotInstalled))
    else
      var row := s.rows[id];
      var trash := Path.Trash(o.trash);
      if !row.managed then
        if o.deleted.Some? then (s, o.deleted) else (s.(rows := s.rows - {id}), None)
      else if row.path !in s.files then (s, Some(Io))
      else if !row.path.App? then (s, Some(PathEscape))
      else if o.quarantined.Some? then (s, o.quarantined)
      else if trash in s.files then (s, Some(Io))
      else if o.deleted.Some? then
        if o.restored.None? then (s, o.deleted)
        else (s.(files := (s.files - {row.path})[trash := s.files[row.path]]), o.deleted)
      else if o.purged.Some? then
        (s.(rows := s.rows - {id}, files := (s.files - {row.path})[trash := o.leftover]), o.purged)
      else (s.(rows := s.rows - {id}, files := s.files - {row.path}), None)
  }

  // ----- Installation snapshots -----

  datatype ItemOutcome = ItemOutcome(
    read: Outcome, deleted: Outcome, checked: Outcome, downloaded: Outcome, install: InstallOutcome, enqueued: Outcome,
    now: nat)

  function ErrorCode(f: Fault): string
  {
    match f
    case DigestMismatch => "digest_mismatch"
    case SignatureRejected => "signature_rejected"
    case UnsafeArchive => "unsafe_archive"
    case Archive => "unsafe_archive"
    case PathEscape => "unsafe_archive"
    case InvalidManifest => "invalid_manifest"
    case UnsupportedTarget => "invalid_manifest"
    case ControlPlane => "download_failed"
    case Io => "download_failed"
    case _ => "installation_failed"
  }

  function IsPresent(w: World, s: Store, item: Item, o: ItemOutcome): (Store, Result<bool, Fault>)
  {
    if o.read.Some? then (s, Err(o.read.value))
    else if item.id !in s.rows then (s, Ok(false))
    else
      var row := s.rows[item.id];
      if row.manifest != item.manifest then (s, Err(StateError))
      else if row.path !in s.files then
        if o.deleted.Some? then (s, Err(o.deleted.value)) else (s.(rows := s.rows - {item.id}), Ok(false))
      else if w.releaseFault(s.files[row.path], item.manifest).Some? then
        (s, Err(w.releaseFault(s.files[row.path], item.manifest).value))
      else if o.checked.Some? then (s, Err(o.checked.value))
      else (s, Ok(true))
  }

  /** An item describes the version its manifest names, and passes the checks for this target. */
  predicate ItemValid(w: World, item: Item)
  {
    w.isUuid(item.installationId) && item.manifest.id == item.id && w.itemOk(item)
  }

  function InstallSynced(w: World, s: Store, item: Item, o: ItemOutcome): (Store, Outcome)
  {
    if !ItemValid(w, item) then (s, Some(ControlPlane))
    else if o.downloaded.Some? then (s, o.downloaded)
    else Install(w, s, item.manifest, o.install)
  }

  datatype Progress = Progress(store: Store, waiting: bool, failure: Outcome)

  predicate IsCodeUnit(c: char) { 'a' <= c <= 'z' || '0' <= c <= '9' }

  /** `!invalid_error_code`; an accepted code is ASCII, so its length in bytes is its length. */
  predicate ErrorCodeValid(code: string)
  {
    0 < |code| <= 160 && IsCodeUnit(code[0]) && forall i :: 0 < i < |code| ==> IsCodeUnit(code[i]) || code[i] == '_'
  }

  predicate ReportValid(w: World, installationId: string, code: Option<string>)
  {
    w.isUuid(installationId) && (code.Some? ==> ErrorCodeValid(code.value))
  }

  function Report(
    w: World, s: Store, waiting: bool, item: Item, status: ReportStatus, code: Option<string>, o: ItemOutcome): Progress
  {
    if !w.isUuid(item.installationId) then Progress(s, waiting, Some(StateError))
    else if !ReportValid(w, item.installationId, code) then Progress(s, waiting, Some(ControlPlane))
    else if o.enqueued.Some? then Progress(s, waiting, o.enqueued)
    else Progress(Enqueue(s, ReportKey(item.installationId, status), Message(code, o.now)), waiting, None)
  }

  function SyncItem(w: World, s: Store, waiting: bool, item: Item, o: ItemOutcome): Progress
  {
    var (checked, present) := IsPresent(w, s, item, o);
    if present.Err? then Progress(checked, waiting, Some(present.error))
    else if present.value then
      if item.status == Installed then Progress(checked, waiting, None)
      else Report(w, checked, waiting, item, ReportInstalled, None, o)
    else
      match item.status
      case Requested =>
        var p := Report(w, checked, waiting, item, ReportDownloading, None, o);
        if p.failure.Some? then p else p.(waiting := true)
      case Downloading =>
        var (after, fault) := InstallSynced(w, checked, item, o);
        if fault.None? then Report(w, after, waiting, item, ReportInstalled, None, o)
        else Report(w, after, waiting, item, ReportFailed, Some(ErrorCode(fault.value)), o)
      case Installed =>
        var (after, fault) := InstallSynced(w, checked, item, o);
        Progress(after, waiting, fault)
  }

  /** The first `n` items, stopping at the first failure. */
  function SyncItems(w: World, s: Store, items: seq<Item>, o: nat -> ItemOutcome, n: nat): Progress
    requires n <= |items|
  {
    if n == 0 then Progress(s, false, None)
    else
      var p := SyncItems(w, s, items, o, n - 1);
      if p.failure.Some? then p else SyncItem(w, p.store, p.waiting, items[n - 1], o(n - 1))
  }

  predicate UniqueInstallations(items: seq<Item>)
  {
    forall i, j :: 0 <= i < j < |items| ==> items[i].installationId != items[j].installationId
  }

  predicate SnapshotValid(w: World, snapshot: Snapshot)
  {
    snapshot.revision <= MAX_SAFE_INTEGER
    && UniqueInstallations(snapshot.installations)
    && forall i :: 0 <= i < |snapshot.installations| ==> ItemValid(w, snapshot.installations[i])
  }

  function Commit(s: Store, revision: nat, o: Outcome): (Store, Result<bool, Fault>)
  {
    if o.Some? then (s, Err(o.value))
    else if revision < s.revision then (s, Err(StateError))
    else if revision == s.revision then (s, Ok(false))
    else (s.(revision := revision), Ok(true))
  }

  datatype SnapshotOutcome = SnapshotOutcome(items: nat -> ItemOutcome, committed: Outcome)

  function ApplySnapshot(w: World, s: Store, snapshot: Snapshot, o: SnapshotOutcome): (Store, Result<bool, Fault>)
  {
    if !SnapshotValid(w, snapshot) then (s, Err(ControlPlane))
    else if snapshot.revision < s.revision then (s, Err(StateError))
    else if snapshot.revision == s.revision then (s, Ok(false))
    else
      var p := SyncItems(w, s, snapshot.installations, o.items, |snapshot.installations|);
      if p.failure.Some? then (p.store, Err(p.failure.value))
      else if p.waiting then (p.store, Ok(false))
      else Commit(p.store, snapshot.revision, o.committed)
  }

  // ----- Runs -----

  datatype Event =
    | Installs(manifest: Manifest, install: InstallOutcome)
    | Registers(path: Path, allowed: Outcome, activated: Outcome, now: nat)
    | Uninstalls(id: Id, uninstall: UninstallOutcome)
    | Syncs(snapshot: Snapshot, sync: SnapshotOutcome)
    | Acknowledges(key: ReportKey)
    | RetriesLater(key: ReportKey, at: nat)
    | TaskStarts(appId: string)
    | TaskEnds(appId: string)
    | Edits(name: string, content: Content)

  function Step(w: World, s: Store, ev: Event): Store
  {
    match ev
    case Installs(m, o) => Install(w, s, m, o).0
    case Registers(path, allowed, activated, now) => Register(w, s, path, allowed, activated, now).0
    case Uninstalls(id, o) => Uninstall(s, id, o).0
    case Syncs(snapshot, o) => ApplySnapshot(w, s, snapshot, o).0
    case Acknowledges(key) => s.(reports := s.reports - {key})
    case RetriesLater(key, at) => RetryReport(s, key, at)
    case TaskStarts(appId) => s.(busy := s.busy + {appId})
    case TaskEnds(appId) => s.(busy := s.busy - {appId})
    case Edits(name, content) => s.(files := s.files[Elsewhere(name) := content])
  }

  function Run(w: World, s: Store, evs: seq<Event>): Store
    decreases |evs|
  {
    if evs == [] then s else Run(w, Step(w, s, evs[0]), evs[1..])
  }
}
