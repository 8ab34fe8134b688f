/**
 Mounting the control plane into one container: replacement, cancellation and late cleanup. A step
 is the code between two awaits; calls are numbered in the order they were made.
 */
module MountProtocol {
  import opened Wrappers

  /**
   Where a call of `mount` is. `Filled` is a call whose `mountControlPlane` has put its root into the container and
   thrown before registering it; the rejection has not reached `mount` yet.
   */
  datatype Pc =
    | WaitPrevious
    | WaitRuntime
    | InMount
    | Filled
    | Mounted
    | Noop
    | Live
    | Threw

  datatype Call = Call(previous: Option<nat>, pc: Pc, cancelled: bool, cleanup: bool)

  /**
   `current` is the call in `pendingMounts`; `record` and `content` are the call whose mount is
   registered in `mounts` and whose root is in the container; `disposed` are the mounts cleaned up.
   */
  datatype State = State(
    calls: seq<Call>, current: Option<nat>, runtimeLoaded: bool,
    record: Option<nat>, content: Option<nat>, disposed: set<nat>)

  const START: State := State([], None, false, None, None, {})

  datatype Event =
    | Mount
    | PreviousSettled(i: nat)
    | RuntimeLoads
    | RuntimeRejects(i: nat)
    | RuntimeReady(i: nat)
    | ControlPlaneMounts(i: nat)
    | ControlPlaneFails(i: nat)
    | ControlPlaneRejects(i: nat)
    | MountReturns(i: nat)
    | Unmount
    | Cleanup(i: nat)

  predicate Settled(c: Call) { c.pc == Noop || c.pc == Live || c.pc == Threw }

  /** Between entering `mountControlPlane` and taking over its result. */
  predicate Inside(c: Call) { c.pc == InMount || c.pc == Filled || c.pc == Mounted }

  predicate IsCurrent(st: State, i: nat)
    requires i < |st.calls|
  {
    !st.calls[i].cancelled && st.current == Some(i)
  }

  function At(st: State, i: nat, pc: Pc): State
    requires i < |st.calls|
  {
    st.(calls := st.calls[i := st.calls[i].(pc := pc)])
  }

  /** `unmountControlPlane`. */
  function UnmountControlPlane(st: State): State
  {
    if st.record.None? then st
    else
      st.(disposed := st.disposed + {st.record.value}, record := None,
          content := if st.content == st.record then None else st.content)
  }

  function CancelMount(st: State, i: nat): State
    requires i < |st.calls|
  {
    if !IsCurrent(st, i) then st
    else
      var cancelled := st.(calls := st.calls[i := st.calls[i].(cancelled := true, cleanup := false)], current := None);
      if st.calls[i].cleanup || st.runtimeLoaded then UnmountControlPlane(cancelled) else cancelled
  }

  predicate Enabled(st: State, ev: Event)
  {
    match ev
    case Mount => st.current.Some? ==> st.current.value < |st.calls|
    case PreviousSettled(i) =>
      i < |st.calls| && st.calls[i].pc == WaitPrevious
      && (st.calls[i].previous.Some? ==>
            st.calls[i].previous.value < |st.calls| && Settled(st.calls[st.calls[i].previous.value]))
    case RuntimeLoads => true
    case RuntimeRejects(i) => i < |st.calls| && st.calls[i].pc == WaitRuntime && !st.runtimeLoaded
    case RuntimeReady(i) => i < |st.calls| && st.calls[i].pc == WaitRuntime && st.runtimeLoaded
    case ControlPlaneMounts(i) => i < |st.calls| && st.calls[i].pc == InMount
    case ControlPlaneFails(i) => i < |st.calls| && st.calls[i].pc == InMount
    case ControlPlaneRejects(i) => i < |st.calls| && (st.calls[i].pc == InMount || st.calls[i].pc == Filled)
    case MountReturns(i) => i < |st.calls| && st.calls[i].pc == Mounted
    case Unmount => st.current.Some? ==> st.current.value < |st.calls|
    case Cleanup(i) => i < |st.calls| && st.calls[i].pc == Live
  }

  function StartMount(st: State): State
    requires Enabled(st, Mount)
  {
    var cleared := if st.current.Some? then CancelMount(st, st.current.value) else st;
    cleared.(calls := cleared.calls + [Call(st.current, WaitPrevious, false, false)], current := Some(|st.calls|))
  }

  function Step(st: State, ev: Event): State
    requires Enabled(st, ev)
  {
    match ev
    case Mount => StartMount(st)
    case PreviousSettled(i) => At(st, i, if IsCurrent(st, i) then WaitRuntime else Noop)
    case RuntimeLoads => st.(runtimeLoaded := true)
    case RuntimeRejects(i) => At(CancelMount(st, i), i, Threw)
    case RuntimeReady(i) => if IsCurrent(st, i) then At(UnmountControlPlane(st), i, InMount) else At(st, i, Noop)
    case ControlPlaneMounts(i) => At(st.(record := Some(i), content := Some(i)), i, Mounted)
    case ControlPlaneFails(i) => At(st.(content := Some(i)), i, Filled)
    case ControlPlaneRejects(i) => At(CancelMount(st, i), i, Threw)
    case MountReturns(i) =>
      if IsCurrent(st, i) then st.(calls := st.calls[i := st.calls[i].(pc := Live, cleanup := true)])
      else At(UnmountControlPlane(st), i, Noop)
    case Unmount => if st.current.Some? then CancelMount(st, st.current.value) else st
    case Cleanup(i) => CancelMount(st, i)
  }

  predicate CanRun(st: State, evs: seq<Event>)
    decreases |evs|
  {
    evs != [] ==> Enabled(st, evs[0]) && CanRun(Step(st, evs[0]), evs[1..])
  }

  function Run(st: State, evs: seq<Event>): State
    requires CanRun(st, evs)
    decreases |evs|
  {
    if evs == [] then st else Run(Step(st, evs[0]), evs[1..])
  }

  // ----- The module's methods -----

  class RemoteModule {
    var calls: seq<Call>
    var current: Option<nat>
    var runtimeLoaded: bool
    var record: Option<nat>
    var content: Option<nat>
    var disposed: set<nat>

    ghost function Now(): State
      reads this
    {
      State(calls, current, runtimeLoaded, record, content, disposed)
    }

    constructor ()
      ensures Now() == START
    {
      calls, current, runtimeLoaded, record, content, disposed := [], None, false, None, None, {};
    }

    method UnmountRuntime()
      modifies this
      ensures Now() == UnmountControlPlane(old(Now()))
    {
      if record.None? { return; }
      disposed := disposed + {record.value};
      if content == record { content := None; }
      record := None;
    }

    method Cancel(i: nat)
      requires i < |calls|
      modifies this
      ensures Now() == CancelMount(old(Now()), i)
    {
      if calls[i].cancelled || current != Some(i) { return; }
      var cleanup := calls[i].cleanup;
      calls := calls[i := calls[i].(cancelled := true, cleanup := false)];
      current := None;
      if cleanup {
        UnmountRuntime();
        return;
      }
      if runtimeLoaded { UnmountRuntime(); }
    }

    method Finish(i: nat, pc: Pc)
      requires i < |calls|
      modifies this
      ensures Now() == At(old(Now()), i, pc)
    {
      calls := calls[i := calls[i].(pc := pc)];
    }

    /** `mount`, up to its first await. */
    method StartsMount() returns (i: nat)
      requires Enabled(Now(), Mount)
      modifies this
      ensures Now() == Step(old(Now()), Mount) && i == |old(calls)| && i < |calls|
    {
      var previous := current;
      if previous.Some? { Cancel(previous.value); }
      i := |calls|;
      calls := calls + [Call(previous, WaitPrevious, false, false)];
      current := Some(i);
    }

    method AfterPrevious(i: nat)
      requires Enabled(Now(), PreviousSettled(i))
      modifies this
      ensures Now() == Step(old(Now()), PreviousSettled(i))
    {
      if calls[i].cancelled || current != Some(i) { Finish(i, Noop); } else { Finish(i, WaitRuntime); }
    }

    method AfterRuntime(i: nat)
      requires Enabled(Now(), RuntimeReady(i))
      modifies this
      ensures Now() == Step(old(Now()), RuntimeReady(i))
    {
      if calls[i].cancelled || current != Some(i) {
        Finish(i, Noop);
        return;
      }
      // The first statement of `mountControlPlane`.
      UnmountRuntime();
      Finish(i, InMount);
    }

    method OnError(i: nat)
      requires Enabled(Now(), RuntimeRejects(i)) || Enabled(Now(), ControlPlaneRejects(i))
      modifies this
      ensures Now() == At(CancelMount(old(Now()), i), i, Threw)
    {
      if !calls[i].cancelled && current == Some(i) { Cancel(i); }
      Finish(i, Threw);
    }

    /**
     The rest of `mountControlPlane` after its awaits: subscribing or rendering may throw once the root is in place.
     */
    method Registers(i: nat, throws: bool)
      requires Enabled(Now(), ControlPlaneMounts(i))
      modifies this
      ensures Now() == Step(old(Now()), if throws then ControlPlaneFails(i) else ControlPlaneMounts(i))
    {
      content := Some(i);
      if throws {
        Finish(i, Filled);
        return;
      }
      record := Some(i);
      Finish(i, Mounted);
    }

    method AfterMount(i: nat)
      requires Enabled(Now(), MountReturns(i))
      modifies this
      ensures Now() == Step(old(Now()), MountReturns(i))
    {
      if calls[i].cancelled || current != Some(i) {
        UnmountRuntime();
        Finish(i, Noop);
        return;
      }
      calls := calls[i := calls[i].(pc := Live, cleanup := true)];
    }

    method Unmounts()
      requires Enabled(Now(), Unmount)
      modifies this
      ensures Now() == Step(old(Now()), Unmount)
    {
      if current.Some? { Cancel(current.value); }
    }
  }
}
