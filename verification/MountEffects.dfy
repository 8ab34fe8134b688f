/** What `mount`, `unmount` and the returned cleanup bring about, in the runs of the mount protocol. */
module MountEffects {
  import opened Wrappers
  import opened MountProtocol
  import opened MountRuns
  import opened MountSafety

  // ----- In every run -----

  /** The runtime is loaded once a call is inside or a mount is registered. */
  ghost predicate Loaded(st: State)
  {
    (st.record.Some? ==> st.runtimeLoaded)
    && forall i :: 0 <= i < |st.calls| && Inside(st.calls[i]) ==> st.runtimeLoaded
  }

  lemma CancelLoaded(st: State, i: nat)
    requires Loaded(st) && i < |st.calls|
    ensures Loaded(CancelMount(st, i)) && CancelMount(st, i).runtimeLoaded == st.runtimeLoaded
    ensures |CancelMount(st, i).calls| == |st.calls| && Loaded(At(CancelMount(st, i), i, Threw))
  {
    var t := At(CancelMount(st, i), i, Threw);
    assert forall k :: 0 <= k < |st.calls| ==> CancelMount(st, i).calls[k].pc == st.calls[k].pc;
    assert forall k :: 0 <= k < |st.calls| && Inside(t.calls[k]) ==> Inside(st.calls[k]);
  }

  lemma StepLoaded(st: State, ev: Event)
    requires Loaded(st) && Enabled(st, ev)
    ensures Loaded(Step(st, ev))
  {
    hide CancelMount;
    match ev
    case Mount => if st.current.Some? { CancelLoaded(st, st.current.value); }
    case RuntimeRejects(i) => CancelLoaded(st, i);
    case ControlPlaneMounts(i) => assert Inside(st.calls[i]);
    case ControlPlaneFails(i) => assert Inside(st.calls[i]);
    case ControlPlaneRejects(i) => CancelLoaded(st, i);
    case MountReturns(i) => assert Inside(st.calls[i]);
    case Unmount => if st.current.Some? { CancelLoaded(st, st.current.value); }
    case Cleanup(i) => CancelLoaded(st, i);
    case _ =>
  }

  lemma {:induction false} RunLoaded(st: State, evs: seq<Event>)
    requires Loaded(st) && CanRun(st, evs)
    ensures Loaded(Run(st, evs))
    decreases |evs|
  {
    hide Loaded, Step, Enabled;
    if evs != [] {
      StepLoaded(st, evs[0]);
      RunLoaded(Step(st, evs[0]), evs[1..]);
    }
  }

  /** Every call is where it was, and cancelled; the mount that was registered, if any, has been cleaned up. */
  ghost predicate Detaches(st: State, after: State)
  {
    after.record.None? && after.disposed == st.disposed + Held(st)
    && after.content == (if Stale(st) then st.content else None)
    && after.runtimeLoaded == st.runtimeLoaded && |after.calls| >= |st.calls|
    && forall i :: 0 <= i < |st.calls| ==>
         after.calls[i].cancelled && after.calls[i].pc == st.calls[i].pc
         && after.calls[i].previous == st.calls[i].previous
  }

  lemma CancelDetaches(st: State, i: nat)
    requires Always(st) && Loaded(st) && st.current == Some(i)
    ensures i < |st.calls| && Detaches(st, CancelMount(st, i)) && CancelMount(st, i).current.None?
    ensures |CancelMount(st, i).calls| == |st.calls|
  {
  }

  /**
   In every run, however the calls are interleaved, `unmount` leaves no mount pending. If one was, all calls are then
   cancelled, nothing is registered, and what was registered has been cleaned up; if none was, nothing changes.
   */
  lemma UnmountDetaches(evs: seq<Event>)
    requires CanRun(START, evs)
    ensures Enabled(Run(START, evs), Unmount)
    ensures var st := Run(START, evs);
            var after := Step(st, Unmount);
            after.current.None? && |after.calls| == |st.calls|
            && if st.current.Some? then Detaches(st, after) else after == st
  {
    RunAlways(START, evs);
    RunLoaded(START, evs);
    var st := Run(START, evs);
    if st.current.Some? { CancelDetaches(st, st.current.value); }
  }

  /** The cleanup that a mount returns unmounts it while it is the current one, and does nothing once it is not. */
  lemma CleanupDetaches(evs: seq<Event>, i: nat)
    requires CanRun(START, evs) && Enabled(Run(START, evs), Cleanup(i))
    ensures var st := Run(START, evs);
            var after := Step(st, Cleanup(i));
            if st.current == Some(i) then
              Detaches(st, after) && after.current.None? && |after.calls| == |st.calls| && Enabled(st, Unmount)
              && after == Step(st, Unmount)
            else after == st
  {
    RunAlways(START, evs);
    RunLoaded(START, evs);
    var st := Run(START, evs);
    if st.current == Some(i) { CancelDetaches(st, i); }
  }

  /** A new mount is pending at once, waits for the one it replaces, and has detached that one. */
  lemma MountReplaces(evs: seq<Event>)
    requires CanRun(START, evs)
    ensures Enabled(Run(START, evs), Mount)
    ensures var st := Run(START, evs);
            var n, after := |st.calls|, Step(st, Mount);
            |after.calls| == n + 1 && after.current == Some(n)
            && after.calls[n] == Call(st.current, WaitPrevious, false, false)
            && if st.current.Some? then Detaches(st, after)
               else after == st.(calls := st.calls + [after.calls[n]], current := Some(n))
  {
    RunAlways(START, evs);
    RunLoaded(START, evs);
    var st := Run(START, evs);
    if st.current.Some? { CancelDetaches(st, st.current.value); }
  }

  // ----- Emptying the container -----

  /** In a disciplined run with nobody inside, what is registered is the current mount. */
  lemma RegisteredIsCurrent(st: State)
    requires Inv(st) && !SomeInside(st)
    ensures st.record.Some? ==> st.current == st.record
  {
    if st.record.Some? {
      assert RecordAt(st, st.record.value);
      assert !Inside(st.calls[st.record.value]);
    }
  }

  /**
   After a disciplined run with nobody inside, `unmount` leaves nothing pending and nothing registered; every mount
   ever registered has been cleaned up; and the container is empty exactly when the last write to it did not fail late.
   */
  lemma UnmountEmpties(evs: seq<Event>)
    requires CanRun(START, evs) && DisciplinedRun(START, evs) && !SomeInside(Run(START, evs))
    ensures Enabled(Run(START, evs), Unmount)
    ensures var after := Step(Run(START, evs), Unmount);
            after.current.None? && after.record.None? && after.disposed == Registrations(evs)
            && (after.content.None? <==> !LastWriteFailed(evs))
  {
    var st := Run(START, evs);
    UnmountDetaches(evs);
    StartInv();
    RunKeepsInv(START, evs);
    RegisteredIsCurrent(st);
    NoMountLost(evs);
    StaleRun(START, evs);
    if NeverWrites(evs) { NoLastWrite(evs); }
  }

  /** So does the cleanup that the current mount returned, whatever its timing. */
  lemma CleanupEmpties(evs: seq<Event>, i: nat)
    requires CanRun(START, evs) && DisciplinedRun(START, evs) && Enabled(Run(START, evs), Cleanup(i))
    requires Run(START, evs).current == Some(i)
    ensures var after := Step(Run(START, evs), Cleanup(i));
            after.current.None? && after.record.None? && after.disposed == Registrations(evs)
            && (after.content.None? <==> !LastWriteFailed(evs))
  {
    StartInv();
    RunKeepsInv(START, evs);
    LiveCurrentAlone(Run(START, evs), i);
    CleanupDetaches(evs, i);
    UnmountEmpties(evs);
  }

  /** Nothing is pending or registered, and nobody is inside. */
  ghost predicate Empty(st: State) { Always(st) && st.current.None? && st.record.None? && !SomeInside(st) }

  lemma EmptyStep(st: State, ev: Event)
    requires Empty(st) && Enabled(st, ev) && ev != Mount
    ensures Empty(Step(st, ev)) && Step(st, ev).content == st.content && Step(st, ev).disposed == st.disposed
  {
    StepAlways(st, ev);
    var after := Step(st, ev);
    forall k | 0 <= k < |after.calls| ensures !Inside(after.calls[k]) {
      assert !Inside(st.calls[k]);
    }
  }

  /** Once it is empty, only another `mount` can ever put something into the container again. */
  lemma {:induction false} StaysEmpty(st: State, evs: seq<Event>)
    requires Empty(st) && CanRun(st, evs) && Mount !in evs
    ensures Empty(Run(st, evs)) && Run(st, evs).content == st.content && Run(st, evs).disposed == st.disposed
    decreases |evs|
  {
    hide Empty, Step, Enabled;
    if evs != [] {
      assert evs[0] in evs;
      EmptyStep(st, evs[0]);
      StaysEmpty(Step(st, evs[0]), evs[1..]);
    }
  }

  /** An `unmount` at a good moment, and whatever follows it short of another `mount`. */
  lemma UnmountedForGood(evs: seq<Event>, more: seq<Event>)
    requires CanRun(START, evs) && DisciplinedRun(START, evs) && !SomeInside(Run(START, evs))
    requires Enabled(Run(START, evs), Unmount) && CanRun(Step(Run(START, evs), Unmount), more) && Mount !in more
    ensures var last := Run(Step(Run(START, evs), Unmount), more);
            last.current.None? && last.record.None? && last.disposed == Registrations(evs)
            && (last.content.None? <==> !LastWriteFailed(evs))
  {
    var st := Run(START, evs);
    UnmountEmpties(evs);
    UnmountDetaches(evs);
    RunAlways(START, evs);
    StepAlways(st, Unmount);
    var after := Step(st, Unmount);
    forall k | 0 <= k < |after.calls| ensures !Inside(after.calls[k]) {
      assert !Inside(st.calls[k]);
    }
    StaysEmpty(after, more);
  }
}
