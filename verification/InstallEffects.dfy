/** What installing, registering and uninstalling come to: which fault each ends with, and what changes if none does. */
module InstallEffects {
  import opened Wrappers
  import opened InstallProtocol
  import opened InstallSafety
  import opened InstallSync
  import Contracts

  /** The fault of the first step that fails. */
  function First(steps: seq<Outcome>): Outcome
  {
    if steps == [] then None else if steps[0].Some? then steps[0] else First(steps[1..])
  }

  lemma FirstOf(step: Outcome, rest: seq<Outcome>)
    ensures First([step] + rest) == if step.Some? then step else First(rest)
  {
    assert ([step] + rest)[1..] == rest;
  }

  function Unless(ok: bool, fault: Fault): Outcome { if ok then None else Some(fault) }

  // ----- Faults -----

  function StagedSteps(w: World, s: Store, m: Manifest, content: Content, o: InstallOutcome): seq<Outcome>
  {
    [w.releaseFault(content, m)] + ([o.read] + ([Unless(App(m.id) !in s.files, StateError)] + ([o.moved]
    + ([o.activated] + []))))
  }

  /** The steps of an installation, in order; a release can be looked at only if it was extracted. */
  function InstallSteps(w: World, s: Store, m: Manifest, o: InstallOutcome): seq<Outcome>
  {
    [o.verified] + ([Unless(Staging(o.staging) !in s.files, Io)]
    + (if o.extracted.Ok? then [None] + StagedSteps(w, s, m, o.extracted.value, o) else [Some(o.extracted.error)] + []))
  }

  function ItemSteps(w: World, s: Store, item: Item, o: ItemOutcome): seq<Outcome>
  {
    [Unless(ItemValid(w, item), ControlPlane)] + ([o.downloaded] + InstallSteps(w, s, item.manifest, o.install))
  }

  lemma StagedFault(w: World, s: Store, m: Manifest, content: Content, o: InstallOutcome)
    ensures First(StagedSteps(w, s, m, content, o))
         == if w.releaseFault(content, m).Some? then w.releaseFault(content, m)
            else if o.read.Some? then o.read
            else if App(m.id) in s.files then Some(StateError)
            else if o.moved.Some? then o.moved
            else o.activated
  {
    hide First;
    var last := [o.activated] + [];
    assert First([]) == None by { NoSteps(); }
    FirstOf(o.activated, []);
    FirstOf(o.moved, last);
    FirstOf(Unless(App(m.id) !in s.files, StateError), [o.moved] + last);
    FirstOf(o.read, [Unless(App(m.id) !in s.files, StateError)] + ([o.moved] + last));
    FirstOf(w.releaseFault(content, m),
            [o.read] + ([Unless(App(m.id) !in s.files, StateError)] + ([o.moved] + last)));
  }

  lemma NoSteps()
    ensures First([]) == None
  {
  }

  /** An installation ends with the fault of its first step that fails, and succeeds if none does. */
  lemma InstallFault(w: World, s: Store, m: Manifest, o: InstallOutcome)
    ensures Install(w, s, m, o).1 == First(InstallSteps(w, s, m, o))
  {
    hide First, StagedSteps, Activate;
    NoSteps();
    if o.extracted.Ok? {
      var staged := StagedSteps(w, s, m, o.extracted.value, o);
      StagedFault(w, s, m, o.extracted.value, o);
      FirstOf(None, staged);
      FirstOf(Unless(Staging(o.staging) !in s.files, Io), [None] + staged);
      FirstOf(o.verified, [Unless(Staging(o.staging) !in s.files, Io)] + ([None] + staged));
    } else {
      var last := [Some(o.extracted.error)] + [];
      FirstOf(Some(o.extracted.error), []);
      FirstOf(Unless(Staging(o.staging) !in s.files, Io), last);
      FirstOf(o.verified, [Unless(Staging(o.staging) !in s.files, Io)] + last);
    }
  }

  /** So does the installation of a snapshot's item; a failed download is reported with that fault's code. */
  lemma ItemFault(w: World, s: Store, item: Item, o: ItemOutcome)
    ensures InstallSynced(w, s, item, o).1 == First(ItemSteps(w, s, item, o))
  {
    hide First, InstallSteps, Install;
    var steps := InstallSteps(w, s, item.manifest, o.install);
    InstallFault(w, s, item.manifest, o.install);
    FirstOf(o.downloaded, steps);
    FirstOf(Unless(ItemValid(w, item), ControlPlane), [o.downloaded] + steps);
  }

  lemma CodesAreWords()
    ensures ErrorCodeValid("digest_mismatch") && ErrorCodeValid("signature_rejected")
    ensures ErrorCodeValid("unsafe_archive") && ErrorCodeValid("invalid_manifest")
    ensures ErrorCodeValid("download_failed") && ErrorCodeValid("installation_failed")
  {
  }

  /** No failure is kept from the control plane by its own error code, and the code tells what kind it was. */
  lemma CodesTell(f: Fault)
    ensures ErrorCodeValid(ErrorCode(f)) && Contracts.SchemaErrorCode(ErrorCode(f))
    ensures ErrorCode(f) == "digest_mismatch" <==> f == DigestMismatch
    ensures ErrorCode(f) == "signature_rejected" <==> f == SignatureRejected
    ensures ErrorCode(f) == "unsafe_archive" <==> f == UnsafeArchive || f == Archive || f == PathEscape
    ensures ErrorCode(f) == "invalid_manifest" <==> f == InvalidManifest || f == UnsupportedTarget
    ensures ErrorCode(f) == "download_failed" <==> f == ControlPlane || f == Io
    ensures ErrorCode(f) == "installation_failed" <==> f == NotInstalled || f == StateError || f == OtherFault
  {
    hide ErrorCodeValid, Contracts.SchemaErrorCode;
    CodesAreWords();
    Contracts.ErrorCodeAdmission(ErrorCode(f));
    assert "digest_mismatch"[0] != "signature_rejected"[0] && "unsafe_archive"[0] != "invalid_manifest"[0];
    assert "invalid_manifest"[2] != "installation_failed"[2];
  }

  /** The checks of an installed version; one whose directory is gone loses its row. */
  function PresentSteps(w: World, s: Store, item: Item, o: ItemOutcome): seq<Outcome>
  {
    [o.read]
    + (if item.id !in s.rows then []
       else
         var row := s.rows[item.id];
         [Unless(row.manifest == item.manifest, StateError)]
         + (if row.path !in s.files then [o.deleted] + []
            else [w.releaseFault(s.files[row.path], item.manifest)] + ([o.checked] + [])))
  }

  /** Whether a version is installed as the control plane describes it, unless a check fails first. */
  lemma PresentFault(w: World, s: Store, item: Item, o: ItemOutcome)
    ensures IsPresent(w, s, item, o).1
         == var fault := First(PresentSteps(w, s, item, o));
            if fault.Some? then Err(fault.value) else Ok(Present(w, s, item))
  {
    hide First;
    NoSteps();
    FirstOf(o.read, []);
    if item.id in s.rows {
      var row := s.rows[item.id];
      var same := Unless(row.manifest == item.manifest, StateError);
      FirstOf(o.deleted, []);
      FirstOf(o.checked, []);
      FirstOf(same, [o.deleted] + []);
      FirstOf(o.read, [same] + ([o.deleted] + []));
      if row.path in s.files {
        var release := w.releaseFault(s.files[row.path], item.manifest);
        FirstOf(release, [o.checked] + []);
        FirstOf(same, [release] + ([o.checked] + []));
        FirstOf(o.read, [same] + ([release] + ([o.checked] + [])));
      }
    }
  }

  // ----- Rows -----

  /** The named version is active with the given row, and no other version of its application is. */
  ghost predicate ActivatedAs(before: map<Id, Row>, after: map<Id, Row>, row: Row)
  {
    var id := row.manifest.id;
    row.active && after.Keys == before.Keys + {id} && after[id] == row
    && forall k :: k in before && k != id ==>
         after[k] == before[k].(active := after[k].active)
         && (after[k].active <==> before[k].active && k.appId != id.appId)
  }

  lemma ActivateEffect(rows: map<Id, Row>, m: Manifest, path: Path, now: nat, managed: bool)
    ensures ActivatedAs(rows, Activate(rows, m, path, now, managed), Row(m, path, now, true, managed))
  {
  }

  /** A successful installation puts the release in its own directory and activates it as managed; no more changes. */
  lemma InstallPlaces(w: World, s: Store, m: Manifest, o: InstallOutcome)
    requires Install(w, s, m, o).1.None?
    ensures o.extracted.Ok? && App(m.id) !in s.files
    ensures var t := Install(w, s, m, o).0;
            ActivatedAs(s.rows, t.rows, Row(m, App(m.id), o.now, true, true))
            && t == s.(rows := t.rows, files := s.files[App(m.id) := o.extracted.value])
  {
    hide Activate;
    ActivateEffect(s.rows, m, App(m.id), o.now, true);
  }

  /**
   A development registration succeeds exactly when it is allowed, the directory is there with a manifest, and the row
   can be written. It then activates that manifest's version, unmanaged, where it lies; otherwise nothing changes.
   */
  lemma RegistersDirectory(w: World, s: Store, path: Path, allowed: Outcome, activated: Outcome, now: nat)
    ensures var (t, fault) := Register(w, s, path, allowed, activated, now);
            (fault.None? <==>
               allowed.None? && path in s.files && w.devManifest(s.files[path]).Some? && activated.None?)
            && (fault.Some? ==> t == s)
            && (fault.None? ==>
                  t == s.(rows := t.rows)
                  && ActivatedAs(s.rows, t.rows, Row(w.devManifest(s.files[path]).value, path, now, true, false)))
  {
    hide Activate;
    if path in s.files && w.devManifest(s.files[path]).Some? {
      ActivateEffect(s.rows, w.devManifest(s.files[path]).value, path, now, false);
    }
  }

  function ManagedSteps(s: Store, row: Row, o: UninstallOutcome): seq<Outcome>
  {
    [Unless(row.path in s.files, Io)] + ([Unless(row.path.App?, PathEscape)] + ([o.quarantined]
    + ([Unless(Trash(o.trash) !in s.files, Io)] + ([o.deleted] + ([o.purged] + [])))))
  }

  /** The steps of an uninstall; an unmanaged version has no directory of its own to remove. */
  function UninstallSteps(s: Store, id: Id, o: UninstallOutcome): seq<Outcome>
  {
    [o.read] + ([Unless(id.appId !in s.busy, StateError)]
    + (if id !in s.rows then [Some(NotInstalled)] + []
       else if s.rows[id].managed then ManagedSteps(s, s.rows[id], o)
       else [o.deleted] + []))
  }

  lemma ManagedFault(s: Store, id: Id, o: UninstallOutcome)
    requires id in s.rows && s.rows[id].managed && o.read.None? && id.appId !in s.busy
    ensures Uninstall(s, id, o).1 == First(ManagedSteps(s, s.rows[id], o))
  {
    hide First;
    NoSteps();
    var there, own := Unless(s.rows[id].path in s.files, Io), Unless(s.rows[id].path.App?, PathEscape);
    var free := Unless(Trash(o.trash) !in s.files, Io);
    FirstOf(o.purged, []);
    FirstOf(o.deleted, [o.purged] + []);
    FirstOf(free, [o.deleted] + ([o.purged] + []));
    FirstOf(o.quarantined, [free] + ([o.deleted] + ([o.purged] + [])));
    FirstOf(own, [o.quarantined] + ([free] + ([o.deleted] + ([o.purged] + []))));
    FirstOf(there, [own] + ([o.quarantined] + ([free] + ([o.deleted] + ([o.purged] + [])))));
  }

  /** An uninstall ends with the fault of its first step that fails. */
  lemma UninstallFault(s: Store, id: Id, o: UninstallOutcome)
    ensures Uninstall(s, id, o).1 == First(UninstallSteps(s, id, o))
  {
    hide First;
    NoSteps();
    var idle := Unless(id.appId !in s.busy, StateError);
    var rest := if id !in s.rows then [Some(NotInstalled)] + []
                else if s.rows[id].managed then ManagedSteps(s, s.rows[id], o)
                else [o.deleted] + [];
    FirstOf(o.read, [idle] + rest);
    FirstOf(idle, rest);
    FirstOf(Some(NotInstalled), []);
    FirstOf(o.deleted, []);
    if id in s.rows && s.rows[id].managed && o.read.None? && id.appId !in s.busy { ManagedFault(s, id, o); }
  }

  /** A successful one removes the row, and the directory of a managed version, and nothing else. */
  lemma UninstallRemoves(s: Store, id: Id, o: UninstallOutcome)
    requires Uninstall(s, id, o).1.None?
    ensures id in s.rows && id.appId !in s.busy
    ensures Uninstall(s, id, o).0
         == s.(rows := s.rows - {id}, files := if s.rows[id].managed then s.files - {s.rows[id].path} else s.files)
  {
  }
}
