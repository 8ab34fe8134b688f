/** Short runs that reach the two states the installation theorems single out. */
module InstallExample {
  import opened Wrappers
  import opened InstallProtocol
  import opened InstallSafety

  const VERSION: Manifest := Manifest(Id("app", "1.0.0"), "signed")

  /** Every identifier and item is accepted, every release passes its checks, and every directory holds this version. */
  function Permissive(): World { World(_ => true, _ => true, (_, _) => None, _ => Some(VERSION)) }

  const INSTALLED_FINE: InstallOutcome := InstallOutcome(None, 0, Ok("release"), None, None, None, 0, None)

  const STRANDING: Event :=
    Uninstalls(VERSION.id, UninstallOutcome(None, 0, None, Some(StateError), Some(Io), None, ""))

  const DISPLACING: Event := Registers(Elsewhere("d"), None, None, 0)

  function FirstInstalled(): Store
  {
    Store(map[VERSION.id := Row(VERSION, App(VERSION.id), 0, true, true)], map[App(VERSION.id) := "release"],
          map[], 0, 0, {})
  }

  lemma InstallsFirst()
    ensures Step(Permissive(), EMPTY, Installs(VERSION, INSTALLED_FINE)) == FirstInstalled()
    ensures Coherent(Permissive(), FirstInstalled()) && NoOrphans(FirstInstalled())
  {
    var t := Install(Permissive(), EMPTY, VERSION, INSTALLED_FINE).0;
    assert t.files == FirstInstalled().files && t.rows == FirstInstalled().rows;
    assert forall id :: Managed(FirstInstalled(), id) <==> id == VERSION.id;
    assert InPlace(Permissive(), FirstInstalled(), VERSION.id);
  }

  /** An installation and a failing uninstall leave a managed row whose directory is in the trash. */
  lemma StrandingHappens()
    ensures var s := Run(Permissive(), EMPTY, [Installs(VERSION, INSTALLED_FINE)]);
            Coherent(Permissive(), s) && Strands(s, STRANDING)
            && Managed(Step(Permissive(), s, STRANDING), VERSION.id)
            && !Coherent(Permissive(), Step(Permissive(), s, STRANDING))
  {
    hide Coherent;
    InstallsFirst();
    var evs := [Installs(VERSION, INSTALLED_FINE)];
    assert evs[1..] == []
        && Run(Permissive(), EMPTY, evs) == Run(Permissive(), FirstInstalled(), []) == FirstInstalled();
    CoherentIff(Permissive(), FirstInstalled(), STRANDING);
  }

  /**
   An installation, a development directory and its registration leave the signed package's directory without a row.
   */
  lemma DisplacingHappens()
    ensures var s := Run(Permissive(), EMPTY, [Installs(VERSION, INSTALLED_FINE), Edits("d", "x")]);
            Coherent(Permissive(), s) && NoOrphans(s) && Orphans(Permissive(), s, DISPLACING)
            && Orphan(Step(Permissive(), s, DISPLACING), VERSION.id)
  {
    InstallsFirst();
    var edit := Edits("d", "x");
    var s := Step(Permissive(), FirstInstalled(), edit);
    var evs := [Installs(VERSION, INSTALLED_FINE), edit];
    assert evs[1..] == [edit] && [edit][1..] == [];
    assert Run(Permissive(), FirstInstalled(), [edit]) == Run(Permissive(), s, []) == s;
    assert Run(Permissive(), EMPTY, evs) == s;
    CoherentIff(Permissive(), FirstInstalled(), edit);
    OrphansIff(Permissive(), FirstInstalled(), edit);
  }
}
