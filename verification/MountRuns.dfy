/** What every run of the mount protocol keeps, however badly `unmount` is timed. */
module MountRuns {
  import opened Wrappers
  import opened MountProtocol

  // ----- The invariant of every run -----

  ghost predicate CurrentOk(st: State)
  {
    (st.current.Some? ==>
       0 < |st.calls| && st.current.value == |st.calls| - 1
       && st.calls[st.current.value].pc != Noop && st.calls[st.current.value].pc != Threw)
    && forall i :: 0 <= i < |st.calls| ==> (st.calls[i].cancelled <==> st.current != Some(i))
  }

  /** A call waits for the one before it, unless that was already cancelled when it began. */
  predicate ChainAt(st: State, i: nat)
    requires i < |st.calls|
  {
    var c := st.calls[i];
    (c.previous.Some? ==> 0 < i && c.previous.value == i - 1)
    && (c.previous.Some? && c.pc != WaitPrevious && 0 < i ==> Settled(st.calls[i - 1]))
    && (c.cleanup ==> c.pc == Live)
    && (c.pc == Live && st.current == Some(i) ==> c.cleanup)
  }

  ghost predicate ChainOk(st: State) { forall i :: 0 <= i < |st.calls| ==> ChainAt(st, i) }

  predicate Registered(c: Call) { c.pc == Mounted || c.pc == Live }

  predicate PcIn(st: State, i: nat, a: Pc, b: Pc, c: Pc)
  {
    i < |st.calls| && (st.calls[i].pc == a || st.calls[i].pc == b || st.calls[i].pc == c)
  }

  /**
   Only registered mounts are recorded or cleaned up; a root that is not recorded was left by a call that failed late.
   */
  ghost predicate RootsOk(st: State)
  {
    (st.record.Some? ==> st.record.value < |st.calls| && Registered(st.calls[st.record.value]))
    && (st.content != st.record ==>
          st.content.Some? && PcIn(st, st.content.value, Filled, Threw, Threw))
    && (forall i :: i in st.disposed ==> PcIn(st, i, Mounted, Live, Noop))
  }

  ghost predicate Always(st: State) { CurrentOk(st) && ChainOk(st) && RootsOk(st) }

  /** A call that has passed its wait, or may, follows a settled one. */
  lemma Follows(st: State, i: nat)
    requires ChainOk(st) && i < |st.calls|
    ensures st.calls[i].previous.Some? ==> 0 < i && st.calls[i].previous == Some(i - 1)
    ensures st.calls[i].previous.Some? && st.calls[i].pc != WaitPrevious ==> Settled(st.calls[i - 1])
    ensures !Settled(st.calls[i]) ==> !st.calls[i].cleanup
  {
    assert ChainAt(st, i);
  }

  lemma UnmountRoots(st: State)
    requires RootsOk(st)
    ensures RootsOk(UnmountControlPlane(st)) && UnmountControlPlane(st).record.None?
    ensures UnmountControlPlane(st).calls == st.calls && UnmountControlPlane(st).current == st.current
    ensures UnmountControlPlane(st).runtimeLoaded == st.runtimeLoaded
  {
  }

  lemma CancelAlways(st: State, i: nat)
    requires Always(st) && i < |st.calls|
    ensures Always(CancelMount(st, i))
    ensures CancelMount(st, i).runtimeLoaded == st.runtimeLoaded && CancelMount(st, i).current != Some(i)
    ensures |CancelMount(st, i).calls| == |st.calls|
    ensures forall k :: 0 <= k < |st.calls| ==>
              CancelMount(st, i).calls[k].pc == st.calls[k].pc
              && CancelMount(st, i).calls[k].previous == st.calls[k].previous
    ensures st.current == Some(i) ==> CancelMount(st, i).current.None?
    ensures !Registered(st.calls[i]) ==> CancelMount(st, i).record != Some(i)
  {
    hide UnmountControlPlane;
    if IsCurrent(st, i) {
      var marked := st.(calls := st.calls[i := st.calls[i].(cancelled := true, cleanup := false)], current := None);
      assert RootsOk(marked);
      UnmountRoots(marked);
      forall k | 0 <= k < |st.calls| ensures ChainAt(CancelMount(st, i), k) {
        assert ChainAt(st, k);
        if k > 0 { assert ChainAt(st, k - 1); }
      }
    }
  }

  lemma AppendAlways(st: State, previous: Option<nat>)
    requires Always(st) && st.current.None?
    requires previous.Some? ==> 0 < |st.calls| && previous.value == |st.calls| - 1
    ensures Always(st.(calls := st.calls + [Call(previous, WaitPrevious, false, false)], current := Some(|st.calls|)))
  {
    var t := st.(calls := st.calls + [Call(previous, WaitPrevious, false, false)], current := Some(|st.calls|));
    assert forall k :: 0 <= k < |st.calls| ==> t.calls[k] == st.calls[k];
    forall k | 0 <= k < |t.calls| ensures ChainAt(t, k) {
      if k < |st.calls| { assert ChainAt(st, k); }
    }
  }

  /** A call that has not settled moves on. */
  lemma MoveAlways(st: State, i: nat, pc: Pc)
    requires Always(st) && i < |st.calls| && !Settled(st.calls[i]) && pc != Live
    requires st.calls[i].previous.Some? && pc != WaitPrevious && 0 < i ==> Settled(st.calls[i - 1])
    requires pc == Noop || pc == Threw ==> st.current != Some(i)
    requires st.calls[i].pc == Filled ==> pc == Threw
    requires st.calls[i].pc == Mounted ==> pc == Noop && st.record != Some(i)
    ensures Always(At(st, i, pc)) && (!Registered(st.calls[i]) ==> st.record != Some(i))
  {
    var t := At(st, i, pc);
    assert forall k :: 0 <= k < |st.calls| && k != i ==> t.calls[k] == st.calls[k];
    forall k | 0 <= k < |t.calls| ensures ChainAt(t, k) {
      assert ChainAt(st, k);
      if k > 0 { assert ChainAt(st, k - 1); }
    }
  }

  lemma RejectAlways(st: State, i: nat)
    requires Always(st) && i < |st.calls|
    requires st.calls[i].pc == WaitRuntime || st.calls[i].pc == InMount || st.calls[i].pc == Filled
    ensures Always(At(CancelMount(st, i), i, Threw))
  {
    Follows(st, i);
    CancelAlways(st, i);
    MoveAlways(CancelMount(st, i), i, Threw);
  }

  lemma RegisterAlways(st: State, i: nat)
    requires Always(st) && i < |st.calls| && st.calls[i].pc == InMount
    ensures Always(Step(st, ControlPlaneMounts(i))) && Always(Step(st, ControlPlaneFails(i)))
    ensures st.record != Some(i)
  {
    Follows(st, i);
    MoveAlways(st, i, Mounted);
    MoveAlways(st, i, Filled);
    AlwaysSets(At(st, i, Mounted), i, Some(i));
    AlwaysSets(At(st, i, Filled), i, At(st, i, Filled).record);
  }

  lemma AlwaysSets(st: State, i: nat, record: Option<nat>)
    requires Always(st) && i < |st.calls|
    requires if record == Some(i) then st.calls[i].pc == Mounted else record == st.record && st.calls[i].pc == Filled
    ensures Always(st.(record := record, content := Some(i)))
  {
    var t := st.(record := record, content := Some(i));
    forall k | 0 <= k < |t.calls| ensures ChainAt(t, k) {
      assert ChainAt(st, k);
    }
  }

  lemma ReturnAlways(st: State, i: nat)
    requires Always(st) && i < |st.calls| && st.calls[i].pc == Mounted
    ensures Always(Step(st, MountReturns(i)))
  {
    Follows(st, i);
    if IsCurrent(st, i) {
      var t := Step(st, MountReturns(i));
      forall k | 0 <= k < |t.calls| ensures ChainAt(t, k) {
        assert ChainAt(st, k);
        if k > 0 { assert ChainAt(st, k - 1); }
      }
    } else {
      UnmountAlways(st);
      MoveAlways(UnmountControlPlane(st), i, Noop);
    }
  }

  lemma UnmountAlways(st: State)
    requires Always(st)
    ensures Always(UnmountControlPlane(st)) && UnmountControlPlane(st).record.None?
    ensures UnmountControlPlane(st).calls == st.calls && UnmountControlPlane(st).current == st.current
  {
    UnmountRoots(st);
    forall k | 0 <= k < |st.calls| ensures ChainAt(UnmountControlPlane(st), k) {
      assert ChainAt(st, k);
    }
  }

  lemma LoadAlways(st: State)
    requires Always(st)
    ensures Always(st.(runtimeLoaded := true))
  {
    forall k | 0 <= k < |st.calls| ensures ChainAt(st.(runtimeLoaded := true), k) {
      assert ChainAt(st, k);
    }
  }

  lemma StepAlways(st: State, ev: Event)
    requires Always(st) && Enabled(st, ev)
    ensures Always(Step(st, ev))
  {
    hide CancelMount, UnmountControlPlane, RootsOk, ChainOk;
    match ev
    case Mount =>
      if st.current.Some? { CancelAlways(st, st.current.value); }
      AppendAlways(if st.current.Some? then CancelMount(st, st.current.value) else st, st.current);
    case PreviousSettled(i) =>
      Follows(st, i);
      MoveAlways(st, i, if IsCurrent(st, i) then WaitRuntime else Noop);
    case RuntimeLoads => LoadAlways(st);
    case RuntimeRejects(i) => RejectAlways(st, i);
    case RuntimeReady(i) =>
      Follows(st, i);
      if IsCurrent(st, i) {
        UnmountAlways(st);
        MoveAlways(UnmountControlPlane(st), i, InMount);
      } else {
        MoveAlways(st, i, Noop);
      }
    case ControlPlaneMounts(i) => RegisterAlways(st, i);
    case ControlPlaneFails(i) => RegisterAlways(st, i);
    case ControlPlaneRejects(i) => RejectAlways(st, i);
    case MountReturns(i) => ReturnAlways(st, i);
    case Unmount => if st.current.Some? { CancelAlways(st, st.current.value); }
    case Cleanup(i) => CancelAlways(st, i);
  }

  lemma {:induction false} RunAlways(st: State, evs: seq<Event>)
    requires Always(st) && CanRun(st, evs)
    ensures Always(Run(st, evs))
    decreases |evs|
  {
    hide Always, Step, Enabled;
    if evs != [] {
      StepAlways(st, evs[0]);
      RunAlways(Step(st, evs[0]), evs[1..]);
    }
  }

  lemma RunPrepend(st: State, ev: Event, rest: seq<Event>)
    requires Enabled(st, ev) && CanRun(Step(st, ev), rest)
    ensures CanRun(st, [ev] + rest) && Run(st, [ev] + rest) == Run(Step(st, ev), rest)
  {
    hide Step, Enabled;
    assert ([ev] + rest)[0] == ev && ([ev] + rest)[1..] == rest;
  }

  ghost predicate AllSettled(st: State) { forall i :: 0 <= i < |st.calls| ==> Settled(st.calls[i]) }

  // ----- No overtaking -----

  /** Calls `k + 1` to `i` each replaced a mount that was still pending. */
  predicate Replacing(st: State, k: nat, i: nat)
    requires k <= i < |st.calls|
  {
    forall m :: k < m <= i ==> st.calls[m].previous.Some?
  }

  /** A replacement never overtakes: once it is past its wait, or settled, every mount it replaced has settled. */
  lemma {:induction false} SettledInOrder(evs: seq<Event>, k: nat, i: nat)
    requires CanRun(START, evs) && k < i < |Run(START, evs).calls| && Replacing(Run(START, evs), k, i)
    requires Run(START, evs).calls[i].pc != WaitPrevious
    ensures Settled(Run(START, evs).calls[k])
    decreases i
  {
    RunAlways(START, evs);
    Follows(Run(START, evs), i);
    if k < i - 1 { SettledInOrder(evs, k, i - 1); }
  }

  // ----- What the container shows -----

  /** A step writes the container's content when `mountControlPlane` gets past its awaits. */
  predicate Writes(ev: Event) { ev.ControlPlaneMounts? || ev.ControlPlaneFails? }

  /** The last write to the container was by a call that then failed to register. */
  predicate LastWriteFailed(evs: seq<Event>)
  {
    evs != [] && var n := |evs| - 1;
    if Writes(evs[n]) then evs[n].ControlPlaneFails? else LastWriteFailed(evs[..n])
  }

  predicate NeverWrites(evs: seq<Event>) { forall k :: 0 <= k < |evs| ==> !Writes(evs[k]) }

  predicate Stale(st: State) { st.content != st.record }

  lemma UnmountStale(st: State)
    requires RootsOk(st)
    ensures Stale(UnmountControlPlane(st)) <==> Stale(st)
    ensures Stale(st) ==> UnmountControlPlane(st).content == st.content
  {
  }

  lemma CancelStale(st: State, i: nat)
    requires Always(st) && i < |st.calls|
    ensures Stale(CancelMount(st, i)) <==> Stale(st)
    ensures Stale(st) ==> CancelMount(st, i).content == st.content
  {
    hide UnmountControlPlane;
    var marked := st.(calls := st.calls[i := st.calls[i].(cancelled := true, cleanup := false)], current := None);
    assert RootsOk(marked);
    UnmountStale(marked);
  }

  lemma StaleStep(st: State, ev: Event)
    requires Always(st) && Enabled(st, ev)
    ensures Stale(Step(st, ev)) <==> if Writes(ev) then ev.ControlPlaneFails? else Stale(st)
    ensures Stale(st) && !Writes(ev) ==> Step(st, ev).content == st.content
  {
    hide CancelMount, UnmountControlPlane, RootsOk, ChainOk;
    match ev
    case Mount => if st.current.Some? { CancelStale(st, st.current.value); }
    case RuntimeRejects(i) => CancelStale(st, i);
    case RuntimeReady(i) => UnmountStale(st);
    case ControlPlaneFails(i) => RegisterAlways(st, i);
    case ControlPlaneRejects(i) => CancelStale(st, i);
    case MountReturns(i) => UnmountStale(st);
    case Unmount => if st.current.Some? { CancelStale(st, st.current.value); }
    case Cleanup(i) => CancelStale(st, i);
    case _ =>
  }

  lemma LastWriteTail(ev: Event, evs: seq<Event>)
    ensures LastWriteFailed([ev] + evs)
       <==> if NeverWrites(evs) then ev.ControlPlaneFails? else LastWriteFailed(evs)
    decreases |evs|
  {
    var n := |evs|;
    if n == 0 {
      assert [ev] + evs == [ev] && [ev][..0] == [];
    } else {
      assert ([ev] + evs)[..n] == [ev] + evs[..n - 1] && ([ev] + evs)[n] == evs[n - 1];
      LastWriteTail(ev, evs[..n - 1]);
      assert NeverWrites(evs) <==> NeverWrites(evs[..n - 1]) && !Writes(evs[n - 1]);
      if NeverWrites(evs) { NoLastWrite(evs); }
    }
  }

  lemma {:induction false} NoLastWrite(evs: seq<Event>)
    requires NeverWrites(evs)
    ensures !LastWriteFailed(evs)
  {
    if evs != [] { NoLastWrite(evs[..|evs| - 1]); }
  }

  /** In every run what the container shows is what is registered, unless the last write to it failed late. */
  lemma {:induction false} StaleRun(st: State, evs: seq<Event>)
    requires Always(st) && CanRun(st, evs)
    ensures Stale(Run(st, evs)) <==> if NeverWrites(evs) then Stale(st) else LastWriteFailed(evs)
    ensures Stale(st) && NeverWrites(evs) ==> Run(st, evs).content == st.content
    decreases |evs|
  {
    hide Always, Step, Enabled, Stale;
    if evs != [] {
      StepAlways(st, evs[0]);
      StaleStep(st, evs[0]);
      StaleRun(Step(st, evs[0]), evs[1..]);
      assert evs == [evs[0]] + evs[1..];
      LastWriteTail(evs[0], evs[1..]);
      assert NeverWrites(evs) <==> !Writes(evs[0]) && NeverWrites(evs[1..]);
    }
  }

  /**
   A root left behind by a late failure belongs to no mount, and stays through every cancellation, unmount and cleanup
   until another call fills the container.
   */
  lemma LeftBehind(before: seq<Event>, evs: seq<Event>)
    requires CanRun(START, before) && Stale(Run(START, before))
    requires CanRun(Run(START, before), evs) && NeverWrites(evs)
    ensures var st := Run(Run(START, before), evs);
            st.content.Some? && st.content == Run(START, before).content && st.record != st.content
            && st.content.value !in st.disposed
  {
    RunAlways(START, before);
    StaleRun(Run(START, before), evs);
    RunAlways(Run(START, before), evs);
    var st := Run(Run(START, before), evs);
    assert st.content.value in st.disposed ==> PcIn(st, st.content.value, Mounted, Live, Noop);
  }

  // ----- Which registered mounts are lost -----

  /** The calls whose mount was registered during a run. */
  function Registrations(evs: seq<Event>): set<nat>
  {
    if evs == [] then {}
    else (if evs[0].ControlPlaneMounts? then {evs[0].i} else {}) + Registrations(evs[1..])
  }

  function Held(st: State): set<nat>
  {
    if st.record.Some? then {st.record.value} else {}
  }

  /** The mounts whose record was overwritten by a registration while they were still registered. */
  function Overwritten(st: State, evs: seq<Event>): set<nat>
    requires CanRun(st, evs)
    decreases |evs|
  {
    if evs == [] then {}
    else (if evs[0].ControlPlaneMounts? then Held(st) else {}) + Overwritten(Step(st, evs[0]), evs[1..])
  }

  lemma CancelConserves(st: State, i: nat)
    requires i < |st.calls|
    ensures CancelMount(st, i).disposed + Held(CancelMount(st, i)) == st.disposed + Held(st)
  {
  }

  lemma StepConserves(st: State, ev: Event)
    requires Enabled(st, ev)
    ensures Step(st, ev).disposed + Held(Step(st, ev))
         == if ev.ControlPlaneMounts? then st.disposed + {ev.i} else st.disposed + Held(st)
  {
    hide CancelMount;
    match ev
    case Mount => if st.current.Some? { CancelConserves(st, st.current.value); }
    case RuntimeRejects(i) => CancelConserves(st, i);
    case ControlPlaneRejects(i) => CancelConserves(st, i);
    case Unmount => if st.current.Some? { CancelConserves(st, st.current.value); }
    case Cleanup(i) => CancelConserves(st, i);
    case _ =>
  }

  /** In every run each registered mount is held, was cleaned up, or its record was overwritten. */
  lemma {:induction false} EveryMountAccounted(st: State, evs: seq<Event>)
    requires CanRun(st, evs)
    ensures Run(st, evs).disposed + Held(Run(st, evs)) + Overwritten(st, evs)
         == st.disposed + Held(st) + Registrations(evs)
    decreases |evs|
  {
    hide Step, Enabled;
    if evs != [] {
      StepConserves(st, evs[0]);
      EveryMountAccounted(Step(st, evs[0]), evs[1..]);
    }
  }

  /** Mounts that are lost: registered once, neither held nor cleaned up. */
  ghost predicate Lost(st: State, lost: set<nat>)
  {
    (forall j :: j in lost ==> PcIn(st, j, Mounted, Live, Noop) && j !in st.disposed && st.record != Some(j))
    && (st.record.Some? ==> st.record.value !in st.disposed)
  }

  lemma UnmountLost(st: State, lost: set<nat>)
    requires Lost(st, lost)
    ensures Lost(UnmountControlPlane(st), lost)
  {
    var t := UnmountControlPlane(st);
    forall j | j in lost ensures PcIn(t, j, Mounted, Live, Noop) && j !in t.disposed && t.record != Some(j) {
      assert PcIn(st, j, Mounted, Live, Noop);
    }
  }

  /** A change of the calls after which the registered ones are still past their registration. */
  lemma MoveLost(st: State, t: State, lost: set<nat>)
    requires Lost(st, lost) && t.disposed == st.disposed && t.record == st.record
    requires forall j :: PcIn(st, j, Mounted, Live, Noop) ==> PcIn(t, j, Mounted, Live, Noop)
    ensures Lost(t, lost)
  {
  }

  lemma CancelLost(st: State, i: nat, lost: set<nat>)
    requires Lost(st, lost) && i < |st.calls|
    ensures Lost(CancelMount(st, i), lost) && |CancelMount(st, i).calls| == |st.calls|
    ensures forall k :: 0 <= k < |st.calls| ==> CancelMount(st, i).calls[k].pc == st.calls[k].pc
  {
    hide UnmountControlPlane, Lost;
    var marked := st.(calls := st.calls[i := st.calls[i].(cancelled := true, cleanup := false)], current := None);
    MoveLost(st, marked, lost);
    UnmountLost(marked, lost);
    assert UnmountControlPlane(marked).calls == marked.calls by { UnmountCalls(marked); }
  }

  lemma UnmountCalls(st: State)
    ensures UnmountControlPlane(st).calls == st.calls
  {
  }

  lemma StepLost(st: State, ev: Event, lost: set<nat>)
    requires Always(st) && Enabled(st, ev) && Lost(st, lost)
    ensures Lost(Step(st, ev), lost + if ev.ControlPlaneMounts? then Held(st) else {})
  {
    hide CancelMount, UnmountControlPlane, CurrentOk, ChainOk, Lost;
    var t := Step(st, ev);
    assert lost + {} == lost;
    match ev
    case Mount =>
      var cleared := if st.current.Some? then CancelMount(st, st.current.value) else st;
      if st.current.Some? { CancelLost(st, st.current.value, lost); }
      MoveLost(cleared, t, lost);
    case RuntimeRejects(i) =>
      CancelLost(st, i, lost);
      MoveLost(CancelMount(st, i), t, lost);
    case ControlPlaneRejects(i) =>
      CancelLost(st, i, lost);
      MoveLost(CancelMount(st, i), t, lost);
    case RuntimeReady(i) =>
      UnmountLost(st, lost);
      UnmountCalls(st);
      MoveLost(if IsCurrent(st, i) then UnmountControlPlane(st) else st, t, lost);
    case ControlPlaneMounts(i) => RegisterLost(st, i, lost);
    case MountReturns(i) =>
      UnmountLost(st, lost);
      UnmountCalls(st);
      MoveLost(if IsCurrent(st, i) then st else UnmountControlPlane(st), t, lost);
    case Unmount => if st.current.Some? { CancelLost(st, st.current.value, lost); }
    case Cleanup(i) => CancelLost(st, i, lost);
    case _ => MoveLost(st, t, lost);
  }

  lemma RegisterLost(st: State, i: nat, lost: set<nat>)
    requires Always(st) && Enabled(st, ControlPlaneMounts(i)) && Lost(st, lost)
    ensures Lost(Step(st, ControlPlaneMounts(i)), lost + Held(st))
  {
    var t := Step(st, ControlPlaneMounts(i));
    assert !PcIn(st, i, Mounted, Live, Noop);
    forall j | j in lost + Held(st) ensures PcIn(t, j, Mounted, Live, Noop) && j !in t.disposed && t.record != Some(j) {
      assert PcIn(st, j, Mounted, Live, Noop);
    }
  }

  lemma {:induction false} RunLost(st: State, evs: seq<Event>, lost: set<nat>)
    requires Always(st) && CanRun(st, evs) && Lost(st, lost)
    ensures Lost(Run(st, evs), lost + Overwritten(st, evs))
    decreases |evs|
  {
    hide Always, Step, Enabled, Lost;
    if evs == [] {
      assert lost + {} == lost;
    } else {
      var more := if evs[0].ControlPlaneMounts? then Held(st) else {};
      StepAlways(st, evs[0]);
      StepLost(st, evs[0], lost);
      RunLost(Step(st, evs[0]), evs[1..], lost + more);
      assert lost + more + Overwritten(Step(st, evs[0]), evs[1..]) == lost + Overwritten(st, evs);
    }
  }

  /**
   In every run the registered mounts that are neither shown as registered nor cleaned up are exactly those whose
   record another registration overwrote.
   */
  lemma LostExactly(evs: seq<Event>)
    requires CanRun(START, evs)
    ensures var st := Run(START, evs); Registrations(evs) - (st.disposed + Held(st)) == Overwritten(START, evs)
  {
    EveryMountAccounted(START, evs);
    RunLost(START, evs, {});
    assert {} + Overwritten(START, evs) == Overwritten(START, evs);
    var st := Run(START, evs);
    forall j | j in Overwritten(START, evs) ensures j !in st.disposed + Held(st) {
      assert PcIn(st, j, Mounted, Live, Noop);
    }
  }
}
