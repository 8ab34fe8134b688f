/** What the mount protocol guarantees, and exactly when `unmount` endangers it. */
module MountSafety {
  import opened Wrappers
  import opened MountProtocol
  import opened MountRuns

  ghost predicate SomeInside(st: State) { exists i :: 0 <= i < |st.calls| && Inside(st.calls[i]) }

  /** `unmount` is not called while a call is inside `mountControlPlane`. */
  ghost predicate Disciplined(st: State, ev: Event) { ev == Unmount && st.current.Some? ==> !SomeInside(st) }

  ghost predicate DisciplinedRun(st: State, evs: seq<Event>)
    requires CanRun(st, evs)
    decreases |evs|
  {
    evs != [] ==> Disciplined(st, evs[0]) && DisciplinedRun(Step(st, evs[0]), evs[1..])
  }

  // ----- The invariant -----

  predicate Queued(st: State, j: nat)
    requires j < |st.calls|
  {
    st.calls[j].pc == WaitPrevious && 0 < j && st.calls[j].previous == Some(j - 1)
  }

  /** While a call is inside, every later one is queued behind it. */
  ghost predicate InsideOk(st: State)
  {
    (forall i :: 0 <= i < |st.calls| && Inside(st.calls[i]) ==> st.runtimeLoaded && st.current.Some?)
    && forall i, j :: 0 <= i < j < |st.calls| && Inside(st.calls[i]) ==> Queued(st, j)
  }

  /** Where call `i` stands with respect to the record: held by it, or cleaned up. */
  predicate RecordAt(st: State, i: nat)
    requires i < |st.calls|
  {
    var c := st.calls[i];
    (Registered(c) ==> st.record == Some(i) || i in st.disposed)
    && (Registered(c) && st.current == Some(i) ==> st.record == Some(i))
    && (st.record == Some(i) ==> c.pc == Mounted || (c.pc == Live && st.current == Some(i)))
    && (i in st.disposed ==> st.record != Some(i) && (Registered(c) || c.pc == Noop))
  }

  /**
   The root in the container is the registered one, or nothing is registered and it was left behind by a call whose
   `mountControlPlane` threw after filling the container.
   */
  predicate ContentOk(st: State)
  {
    st.content == st.record
    || (st.record.None? && st.content.Some? && st.content.value < |st.calls|
        && (st.calls[st.content.value].pc == Filled || st.calls[st.content.value].pc == Threw))
  }

  ghost predicate RecordOk(st: State)
  {
    ContentOk(st)
    && (forall i :: 0 <= i < |st.calls| ==> RecordAt(st, i))
    && (forall i :: i in st.disposed ==> i < |st.calls|)
  }

  ghost predicate Exclusive(st: State) { InsideOk(st) && RecordOk(st) }

  ghost predicate Inv(st: State) { Always(st) && Exclusive(st) }

  // ----- Every step keeps it -----

  /** Cancelling the current call leaves no mount registered. */
  lemma CancelCurrent(st: State, i: nat)
    requires Inv(st) && i < |st.calls| && IsCurrent(st, i)
    ensures CancelMount(st, i)
         == State(st.calls[i := st.calls[i].(cancelled := true, cleanup := false)], None, st.runtimeLoaded, None,
                  if st.record.Some? then None else st.content,
                  st.disposed + (if st.record.Some? then {st.record.value} else {}))
  {
    assert ChainAt(st, i);
    if st.record.Some? {
      var r := st.record.value;
      assert RecordAt(st, r);
      if st.calls[r].pc == Mounted { assert Inside(st.calls[r]); }
    } else {
      assert st.disposed + {} == st.disposed;
    }
  }

  lemma MountKeeps(st: State)
    requires Inv(st) && Enabled(st, Mount)
    ensures Exclusive(Step(st, Mount))
  {
    if st.current.Some? { CancelCurrent(st, st.current.value); }
    var after := Step(st, Mount);
    assert forall i :: 0 <= i < |st.calls| ==>
        after.calls[i].pc == st.calls[i].pc && after.calls[i].previous == st.calls[i].previous
            && after.calls[i].cancelled;
    if st.record.Some? { assert RecordAt(st, st.record.value); }
    forall i | 0 <= i < |after.calls| ensures RecordAt(after, i) {
      if i < |st.calls| { assert RecordAt(st, i); }
    }
    forall i, j | 0 <= i < j < |after.calls| && Inside(after.calls[i]) ensures Queued(after, j) {
      assert Inside(st.calls[i]);
      if j < |st.calls| { assert Queued(st, j); }
    }
  }

  lemma CancelKeeps(st: State, i: nat)
    requires Inv(st) && i < |st.calls| && IsCurrent(st, i) && !SomeInside(st)
    ensures Exclusive(CancelMount(st, i))
  {
    CancelCurrent(st, i);
    var after := CancelMount(st, i);
    if st.record.Some? { assert RecordAt(st, st.record.value); }
    forall k | 0 <= k < |st.calls| ensures RecordAt(after, k) && !Inside(after.calls[k]) {
      assert RecordAt(st, k) && !Inside(st.calls[k]);
    }
  }

  /** A call whose turn has come is not queued behind one that is inside. */
  lemma NoneInsideBefore(st: State, i: nat)
    requires Inv(st) && i < |st.calls|
    requires st.calls[i].pc != WaitPrevious || (st.calls[i].previous.Some? ==> 0 < i && Settled(st.calls[i - 1]))
    ensures forall k :: 0 <= k < i ==> !Inside(st.calls[k])
  {
    forall k | 0 <= k < i ensures !Inside(st.calls[k]) {
      assert Inside(st.calls[k]) ==> k == i - 1 || Queued(st, i - 1);
      assert Inside(st.calls[k]) ==> Queued(st, i);
    }
  }

  /** The live call that is current has nobody inside before it. */
  lemma LiveCurrentAlone(st: State, i: nat)
    requires Inv(st) && i < |st.calls| && st.calls[i].pc == Live && st.current == Some(i)
    ensures !SomeInside(st)
  {
    NoneInsideBefore(st, i);
  }

  /** A change of one call's position that lets nobody in and registers nothing. */
  lemma MoveKeeps(st: State, i: nat, pc: Pc)
    requires Inv(st) && i < |st.calls| && !Settled(st.calls[i]) && st.record != Some(i)
    requires (pc == WaitRuntime && st.calls[i].pc == WaitPrevious)
          || ((pc == Noop || pc == Threw) && st.current != Some(i))
    requires (i in st.disposed ==> pc == Noop) && (st.calls[i].pc == Filled ==> pc == Threw)
    requires st.calls[i].pc == WaitPrevious && st.calls[i].previous.Some? ==> 0 < i && Settled(st.calls[i - 1])
    ensures Exclusive(At(st, i, pc))
  {
    var after := At(st, i, pc);
    NoneInsideBefore(st, i);
    forall k | 0 <= k < |st.calls| ensures RecordAt(after, k) {
      assert RecordAt(st, k);
    }
    forall k, j | 0 <= k < j < |after.calls| && Inside(after.calls[k]) ensures Queued(after, j) {
      assert Inside(st.calls[k]);
      assert Queued(st, j);
    }
  }

  lemma RecordWhenNotLive(st: State, i: nat)
    requires Inv(st) && i < |st.calls| && IsCurrent(st, i) && !Registered(st.calls[i])
    requires forall k :: 0 <= k < i ==> !Inside(st.calls[k])
    ensures st.record.None?
  {
    assert RecordAt(st, i);
    assert st.record.None? || RecordAt(st, st.record.value);
    assert forall k :: 0 <= k < |st.calls| ==> !Inside(st.calls[k]) || k == i;
  }

  lemma EnterKeeps(st: State, i: nat)
    requires Inv(st) && Enabled(st, RuntimeReady(i)) && IsCurrent(st, i)
    ensures Exclusive(Step(st, RuntimeReady(i))) && UnmountControlPlane(st) == st
  {
    assert ChainAt(st, i);
    NoneInsideBefore(st, i);
    RecordWhenNotLive(st, i);
    var after := At(st, i, InMount);
    forall k | 0 <= k < |st.calls| ensures RecordAt(after, k) {
      assert RecordAt(st, k);
    }
  }

  /** Whoever is inside is the only one that can hold the record. */
  lemma RecordOfInside(st: State, i: nat)
    requires Inv(st) && i < |st.calls| && Inside(st.calls[i])
    ensures st.record.None? || (st.record == Some(i) && st.calls[i].pc == Mounted)
  {
    NoneInsideBefore(st, i);
    if st.record.Some? { RecordHolder(st, st.record.value, i); }
  }

  lemma RecordHolder(st: State, r: nat, i: nat)
    requires Inv(st) && st.record == Some(r) && i < |st.calls| && Inside(st.calls[i])
    ensures i <= r ==> r == i && st.calls[r].pc == Mounted
    ensures r < i ==> Inside(st.calls[r])
  {
    assert RecordAt(st, r);
    assert i < r ==> Queued(st, r);
  }

  lemma RegisterKeeps(st: State, i: nat)
    requires Inv(st) && Enabled(st, ControlPlaneMounts(i))
    ensures st.record.None? && Exclusive(Step(st, ControlPlaneMounts(i)))
  {
    assert Inside(st.calls[i]);
    RecordOfInside(st, i);
    var after := Step(st, ControlPlaneMounts(i));
    assert forall k :: 0 <= k < |st.calls| ==> Inside(after.calls[k]) == Inside(st.calls[k]);
    forall k | 0 <= k < |st.calls| ensures RecordAt(after, k) {
      assert RecordAt(st, k);
    }
    forall k, j | 0 <= k < j < |after.calls| && Inside(after.calls[k]) ensures Queued(after, j) {
      assert Queued(st, j);
    }
  }

  /** A late failure leaves its root in the container, where nothing else was registered. */
  lemma FailKeeps(st: State, i: nat)
    requires Inv(st) && Enabled(st, ControlPlaneFails(i))
    ensures st.record.None? && Exclusive(Step(st, ControlPlaneFails(i)))
  {
    assert Inside(st.calls[i]);
    RecordOfInside(st, i);
    var after := Step(st, ControlPlaneFails(i));
    assert forall k :: 0 <= k < |st.calls| ==> Inside(after.calls[k]) == Inside(st.calls[k]);
    forall k | 0 <= k < |st.calls| ensures RecordAt(after, k) {
      assert RecordAt(st, k);
    }
    forall k, j | 0 <= k < j < |after.calls| && Inside(after.calls[k]) ensures Queued(after, j) {
      assert Queued(st, j);
    }
  }

  /** Releasing the record of a call that was replaced. */
  lemma ReleaseKeeps(st: State, i: nat)
    requires Inv(st) && i < |st.calls| && st.calls[i].pc == Mounted && st.current != Some(i)
    ensures Exclusive(UnmountControlPlane(st)) && UnmountControlPlane(st).record.None?
  {
    assert Inside(st.calls[i]);
    RecordOfInside(st, i);
    var after := UnmountControlPlane(st);
    forall k | 0 <= k < |st.calls| ensures RecordAt(after, k) {
      assert RecordAt(st, k);
    }
    forall k, j | 0 <= k < j < |after.calls| && Inside(after.calls[k]) ensures Queued(after, j) {
      assert Queued(st, j);
    }
  }

  lemma ReturnKeeps(st: State, i: nat)
    requires Inv(st) && Enabled(st, MountReturns(i))
    ensures Exclusive(Step(st, MountReturns(i)))
  {
    assert RecordAt(st, i) && Inside(st.calls[i]);
    if !IsCurrent(st, i) {
      ReleaseKeeps(st, i);
      UnmountAlways(st);
      MoveKeeps(UnmountControlPlane(st), i, Noop);
    } else {
      NoneInsideBefore(st, i);
      var after := Step(st, MountReturns(i));
      forall k | 0 <= k < |st.calls| ensures RecordAt(after, k) {
        assert RecordAt(st, k);
      }
    }
  }

  /** A failed current call leaves, and nobody else is inside. */
  lemma ThrowKeeps(st: State, i: nat)
    requires Inv(st) && i < |st.calls|
    requires st.calls[i].pc == WaitRuntime || st.calls[i].pc == InMount || st.calls[i].pc == Filled
    ensures Exclusive(At(CancelMount(st, i), i, Threw))
  {
    assert RecordAt(st, i) && ChainAt(st, i);
    if !IsCurrent(st, i) {
      MoveKeeps(st, i, Threw);
    } else {
      CancelCurrent(st, i);
      NoneInsideBefore(st, i);
      var after := At(CancelMount(st, i), i, Threw);
      assert st.record.Some? ==> RecordAt(st, st.record.value);
      forall k | 0 <= k < |st.calls| ensures RecordAt(after, k) && !Inside(after.calls[k]) {
        assert RecordAt(st, k);
      }
    }
  }

  lemma LoadKeeps(st: State)
    requires Inv(st)
    ensures Exclusive(Step(st, RuntimeLoads))
  {
    var after := Step(st, RuntimeLoads);
    forall k | 0 <= k < |st.calls| ensures RecordAt(after, k) {
      assert RecordAt(st, k);
    }
    forall k, j | 0 <= k < j < |after.calls| && Inside(after.calls[k]) ensures Queued(after, j) {
      assert Queued(st, j);
    }
  }

  lemma StepKeepsInv(st: State, ev: Event)
    requires Inv(st) && Enabled(st, ev) && Disciplined(st, ev)
    ensures Inv(Step(st, ev))
  {
    hide Always, Exclusive, CancelMount, UnmountControlPlane;
    StepAlways(st, ev);
    match ev
    case Mount => MountKeeps(st);
    case PreviousSettled(i) =>
      CallFacts(st, i);
      MoveKeeps(st, i, if IsCurrent(st, i) then WaitRuntime else Noop);
    case RuntimeLoads => LoadKeeps(st);
    case RuntimeRejects(i) => ThrowKeeps(st, i);
    case RuntimeReady(i) =>
      CallFacts(st, i);
      if IsCurrent(st, i) { EnterKeeps(st, i); } else { MoveKeeps(st, i, Noop); }
    case ControlPlaneMounts(i) => RegisterKeeps(st, i);
    case ControlPlaneFails(i) => FailKeeps(st, i);
    case ControlPlaneRejects(i) => ThrowKeeps(st, i);
    case MountReturns(i) => ReturnKeeps(st, i);
    case Unmount =>
      if st.current.Some? {
        CallFacts(st, st.current.value);
        CancelKeeps(st, st.current.value);
      }
    case Cleanup(i) =>
      CallFacts(st, i);
      if IsCurrent(st, i) {
        LiveCurrentAlone(st, i);
        CancelKeeps(st, i);
      } else {
        CancelElsewhere(st, i);
      }
  }

  lemma CancelElsewhere(st: State, i: nat)
    requires i < |st.calls| && !IsCurrent(st, i)
    ensures CancelMount(st, i) == st
  {
  }

  /** What the invariant says about one call. */
  lemma CallFacts(st: State, i: nat)
    requires Inv(st) && i < |st.calls|
    ensures IsCurrent(st, i) <==> st.current == Some(i)
    ensures st.calls[i].pc == WaitPrevious || st.calls[i].pc == WaitRuntime ==>
        st.record != Some(i) && i !in st.disposed
    ensures st.calls[i].previous.Some? ==>
              0 < i && st.calls[i].previous == Some(i - 1)
              && (st.calls[i].pc != WaitPrevious ==> Settled(st.calls[i - 1]))
  {
    assert ChainAt(st, i) && RecordAt(st, i);
  }

  lemma {:induction false} RunKeepsInv(st: State, evs: seq<Event>)
    requires Inv(st) && CanRun(st, evs) && DisciplinedRun(st, evs)
    ensures Inv(Run(st, evs))
    decreases |evs|
  {
    if evs != [] {
      StepKeepsInv(st, evs[0]);
      RunKeepsInv(Step(st, evs[0]), evs[1..]);
    }
  }

  // ----- What every disciplined run guarantees -----

  /** With the discipline, in any interleaving from an empty container, two calls are never inside at once. */
  lemma OneInside(evs: seq<Event>, i: nat, j: nat)
    requires CanRun(START, evs) && DisciplinedRun(START, evs)
    requires i < |Run(START, evs).calls| && j < |Run(START, evs).calls|
    requires Inside(Run(START, evs).calls[i]) && Inside(Run(START, evs).calls[j])
    ensures i == j
  {
    RunKeepsInv(START, evs);
    InsideUnique(Run(START, evs), i, j);
  }

  lemma InsideUnique(st: State, i: nat, j: nat)
    requires Inv(st) && i < |st.calls| && j < |st.calls| && Inside(st.calls[i]) && Inside(st.calls[j])
    ensures i == j
  {
    NoneInsideBefore(st, i);
    NoneInsideBefore(st, j);
  }

  /** With the discipline no registration overwrites another one's record. */
  lemma {:induction false} NothingOverwritten(st: State, evs: seq<Event>)
    requires Inv(st) && CanRun(st, evs) && DisciplinedRun(st, evs)
    ensures Overwritten(st, evs) == {}
    decreases |evs|
  {
    hide Inv, Step, Disciplined;
    if evs != [] {
      if evs[0].ControlPlaneMounts? { RegisterKeeps(st, evs[0].i); }
      StepKeepsInv(st, evs[0]);
      NothingOverwritten(Step(st, evs[0]), evs[1..]);
    }
  }

  /** So none is lost: a registered mount is held until it is cleaned up. */
  lemma NoMountLost(evs: seq<Event>)
    requires CanRun(START, evs) && DisciplinedRun(START, evs)
    ensures Run(START, evs).disposed + Held(Run(START, evs)) == Registrations(evs)
  {
    EveryMountAccounted(START, evs);
    StartInv();
    NothingOverwritten(START, evs);
  }

  lemma StartInv()
    ensures Inv(START)
  {
  }

  /**
   Once every call has settled: the registered mount is the pending call's, that call is the newest and live, and
   every other mount registered during the run has been cleaned up. The container shows the pending call's root, or
   nothing when there is none, exactly when the last write to it was not by a call that failed late.
   */
  lemma SettledRun(evs: seq<Event>)
    requires CanRun(START, evs) && DisciplinedRun(START, evs) && AllSettled(Run(START, evs))
    ensures var st := Run(START, evs);
            st.record == st.current
            && (st.current.Some? ==>
                  0 < |st.calls| && st.current.value == |st.calls| - 1 && st.calls[|st.calls| - 1].pc == Live)
            && Registrations(evs) - Held(st) == st.disposed
            && (st.content == st.current <==> !LastWriteFailed(evs))
  {
    RunKeepsInv(START, evs);
    NoMountLost(evs);
    StaleRun(START, evs);
    if NeverWrites(evs) { NoLastWrite(evs); }
    var st := Run(START, evs);
    if st.record.Some? { assert RecordAt(st, st.record.value) && st.record.value !in st.disposed; }
    if st.current.Some? { assert RecordAt(st, st.current.value); }
  }

  const LATE_FAILURE: seq<Event> :=
    [Mount, PreviousSettled(0), RuntimeLoads, RuntimeReady(0), ControlPlaneFails(0), ControlPlaneRejects(0)]

  const LEFT_BEHIND: State := State([Call(None, Threw, true, false)], None, true, None, Some(0), {})

  /** The only call, still pending, at a given place. */
  function Only(pc: Pc, loaded: bool, content: Option<nat>): State
  {
    State([Call(None, pc, false, false)], Some(0), loaded, None, content, {})
  }

  lemma LateFailureSteps()
    ensures Enabled(START, Mount) && Step(START, Mount) == Only(WaitPrevious, false, None)
    ensures Enabled(Only(WaitPrevious, false, None), PreviousSettled(0))
         && Step(Only(WaitPrevious, false, None), PreviousSettled(0)) == Only(WaitRuntime, false, None)
    ensures Step(Only(WaitRuntime, false, None), RuntimeLoads) == Only(WaitRuntime, true, None)
    ensures Enabled(Only(WaitRuntime, true, None), RuntimeReady(0))
         && Step(Only(WaitRuntime, true, None), RuntimeReady(0)) == Only(InMount, true, None)
    ensures Enabled(Only(InMount, true, None), ControlPlaneFails(0))
         && Step(Only(InMount, true, None), ControlPlaneFails(0)) == Only(Filled, true, Some(0))
    ensures Enabled(Only(Filled, true, Some(0)), ControlPlaneRejects(0))
         && Step(Only(Filled, true, Some(0)), ControlPlaneRejects(0)) == LEFT_BEHIND
  {
  }

  lemma LateFailureRuns()
    ensures CanRun(START, LATE_FAILURE) && DisciplinedRun(START, LATE_FAILURE)
        && Run(START, LATE_FAILURE) == LEFT_BEHIND
  {
    hide Step;
    LateFailureSteps();
    var e5 := [ControlPlaneRejects(0)];
    var e4 := [ControlPlaneFails(0)] + e5;
    var e3 := [RuntimeReady(0)] + e4;
    var e2 := [RuntimeLoads] + e3;
    var e1 := [PreviousSettled(0)] + e2;
    assert e5 + [] == e5 && [Mount] + e1 == LATE_FAILURE;
    RunCons(Only(Filled, true, Some(0)), ControlPlaneRejects(0), []);
    RunCons(Only(InMount, true, None), ControlPlaneFails(0), e5);
    RunCons(Only(WaitRuntime, true, None), RuntimeReady(0), e4);
    RunCons(Only(WaitRuntime, false, None), RuntimeLoads, e3);
    RunCons(Only(WaitPrevious, false, None), PreviousSettled(0), e2);
    RunCons(START, Mount, e1);
  }

  /**
   One mount that fails late: all has settled, nothing is pending, yet its root shows, and no `unmount` removes it.
   */
  lemma LateFailureShows()
    ensures CanRun(START, LATE_FAILURE) && DisciplinedRun(START, LATE_FAILURE) && LastWriteFailed(LATE_FAILURE)
    ensures var st := Run(START, LATE_FAILURE);
            AllSettled(st) && st.current.None? && st.record.None? && st.content == Some(0)
            && Enabled(st, Unmount) && Step(st, Unmount).content == Some(0)
  {
    LateFailureRuns();
    var evs := LATE_FAILURE;
    assert evs[..5][4] == ControlPlaneFails(0);
  }

  predicate Undisturbed(ev: Event)
  {
    !ev.Unmount? && !ev.Cleanup? && !ev.RuntimeRejects? && !ev.ControlPlaneFails? && !ev.ControlPlaneRejects?
  }

  lemma {:induction false} NewestStaysPending(st: State, evs: seq<Event>)
    requires Inv(st) && CanRun(st, evs) && (forall k :: 0 <= k < |evs| ==> Undisturbed(evs[k]))
    requires st.calls != [] ==> st.current.Some?
    ensures DisciplinedRun(st, evs)
    ensures Run(st, evs).calls != [] ==> Run(st, evs).current.Some?
    decreases |evs|
  {
    if evs != [] {
      StepKeepsInv(st, evs[0]);
      NewestStaysPending(Step(st, evs[0]), evs[1..]);
    }
  }

  lemma {:induction false} UndisturbedWrites(evs: seq<Event>)
    requires forall k :: 0 <= k < |evs| ==> Undisturbed(evs[k])
    ensures !LastWriteFailed(evs)
  {
    if evs != [] { UndisturbedWrites(evs[..|evs| - 1]); }
  }

  /** With mounts alone, none failing, the newest one is what the container shows in the end. */
  lemma NewestWins(evs: seq<Event>)
    requires CanRun(START, evs) && (forall k :: 0 <= k < |evs| ==> Undisturbed(evs[k]))
    requires Run(START, evs).calls != []
    requires AllSettled(Run(START, evs))
    ensures Run(START, evs).content == Some(|Run(START, evs).calls| - 1)
    ensures Registrations(evs) == Run(START, evs).disposed + {|Run(START, evs).calls| - 1}
  {
    NewestStaysPending(START, evs);
    SettledRun(evs);
    NoMountLost(evs);
    UndisturbedWrites(evs);
  }

  // ----- Exactly when unmounting is safe -----

  ghost predicate AtMostOneInside(st: State)
  {
    forall i, j :: 0 <= i < |st.calls| && 0 <= j < |st.calls| && Inside(st.calls[i]) && Inside(st.calls[j]) ==> i == j
  }

  /** Whatever happens next, with no further `unmount` at a bad moment, one call at most is inside. */
  ghost predicate StaysSafe(st: State)
  {
    forall evs :: CanRun(st, evs) && DisciplinedRun(st, evs) ==> AtMostOneInside(Run(st, evs))
  }

  /** The next mount after an ill-timed `unmount` waits for nobody. */
  lemma Overtakes(st: State, i: nat)
    requires Inv(st) && i < |st.calls| && Inside(st.calls[i]) && st.current.Some?
    ensures !StaysSafe(Step(st, Unmount))
  {
    hide Inv, AtMostOneInside;
    var n := |st.calls|;
    var evs := [Mount, PreviousSettled(n), RuntimeReady(n)];
    Detached(st, i);
    Enters(Step(st, Unmount), i);
    RunOfThree(Step(st, Unmount), Mount, PreviousSettled(n), RuntimeReady(n));
    TwoInside(Run(Step(st, Unmount), evs), i, n);
  }

  lemma Detached(st: State, i: nat)
    requires Inv(st) && i < |st.calls| && Inside(st.calls[i]) && st.current.Some?
    ensures Enabled(st, Unmount)
    ensures var after := Step(st, Unmount);
            after.current.None? && after.record.None? && after.runtimeLoaded && |after.calls| == |st.calls|
            && Inside(after.calls[i])
  {
    CancelCurrent(st, st.current.value);
  }

  lemma Enters(st: State, i: nat)
    requires st.current.None? && st.record.None? && st.runtimeLoaded && i < |st.calls| && Inside(st.calls[i])
    ensures Enabled(st, Mount)
    ensures var n, one := |st.calls|, Step(st, Mount);
            Enabled(one, PreviousSettled(n))
            && var two := Step(one, PreviousSettled(n));
               Enabled(two, RuntimeReady(n))
               && var three := Step(two, RuntimeReady(n));
                  n < |three.calls| && Inside(three.calls[i]) && Inside(three.calls[n])
  {
    var n, one := |st.calls|, Step(st, Mount);
    assert one.calls[n] == Call(None, WaitPrevious, false, false) && IsCurrent(one, n);
    var two := Step(one, PreviousSettled(n));
    assert IsCurrent(two, n) && UnmountControlPlane(two) == two;
  }

  lemma TwoInside(st: State, i: nat, j: nat)
    requires i < j < |st.calls| && Inside(st.calls[i]) && Inside(st.calls[j])
    ensures !AtMostOneInside(st)
  {
  }

  lemma RunCons(st: State, a: Event, rest: seq<Event>)
    requires Enabled(st, a) && !a.Unmount? && CanRun(Step(st, a), rest) && DisciplinedRun(Step(st, a), rest)
    ensures CanRun(st, [a] + rest) && DisciplinedRun(st, [a] + rest)
    ensures Run(st, [a] + rest) == Run(Step(st, a), rest)
  {
    hide Step, Enabled;
    var evs := [a] + rest;
    assert evs[0] == a && evs[1..] == rest;
  }

  lemma RunOfThree(st: State, a: Event, b: Event, c: Event)
    requires Enabled(st, a) && Enabled(Step(st, a), b) && Enabled(Step(Step(st, a), b), c)
    requires !a.Unmount? && !b.Unmount? && !c.Unmount?
    ensures CanRun(st, [a, b, c]) && DisciplinedRun(st, [a, b, c])
    ensures Run(st, [a, b, c]) == Step(Step(Step(st, a), b), c)
  {
    hide Step, Enabled, Disciplined;
    var one, two := Step(st, a), Step(Step(st, a), b);
    assert [c] + [] == [c] && [b] + [c] == [b, c] && [a] + [b, c] == [a, b, c];
    RunCons(two, c, []);
    RunCons(one, b, [c]);
    RunCons(st, a, [b, c]);
  }

  /** The second mount does not wait for the first, which registers late and is then overwritten. */
  const UNTIMELY: seq<Event> :=
    [RuntimeLoads, Mount, PreviousSettled(0), RuntimeReady(0), Unmount, Mount, PreviousSettled(1), RuntimeReady(1),
     ControlPlaneMounts(0), ControlPlaneMounts(1)]

  /** Two calls of which the first was cancelled by `unmount`. */
  function Pair(first: Pc, second: Pc, record: Option<nat>): State
  {
    State([Call(None, first, true, false), Call(None, second, false, false)], Some(1), true, record, record, {})
  }

  const DROPPED: State := State([Call(None, InMount, true, false)], None, true, None, None, {})

  lemma UntimelyBegins()
    ensures Step(START, RuntimeLoads) == START.(runtimeLoaded := true)
    ensures Step(START.(runtimeLoaded := true), Mount) == Only(WaitPrevious, true, None)
    ensures Enabled(Only(WaitPrevious, true, None), PreviousSettled(0))
         && Step(Only(WaitPrevious, true, None), PreviousSettled(0)) == Only(WaitRuntime, true, None)
    ensures Enabled(Only(WaitRuntime, true, None), RuntimeReady(0))
         && Step(Only(WaitRuntime, true, None), RuntimeReady(0)) == Only(InMount, true, None)
    ensures Enabled(Only(InMount, true, None), Unmount) && Step(Only(InMount, true, None), Unmount) == DROPPED
  {
  }

  lemma UntimelyEnds()
    ensures Enabled(DROPPED, Mount) && Step(DROPPED, Mount) == Pair(InMount, WaitPrevious, None)
    ensures Enabled(Pair(InMount, WaitPrevious, None), PreviousSettled(1))
         && Step(Pair(InMount, WaitPrevious, None), PreviousSettled(1)) == Pair(InMount, WaitRuntime, None)
    ensures Enabled(Pair(InMount, WaitRuntime, None), RuntimeReady(1))
         && Step(Pair(InMount, WaitRuntime, None), RuntimeReady(1)) == Pair(InMount, InMount, None)
    ensures Enabled(Pair(InMount, InMount, None), ControlPlaneMounts(0))
         && Step(Pair(InMount, InMount, None), ControlPlaneMounts(0)) == Pair(Mounted, InMount, Some(0))
    ensures Enabled(Pair(Mounted, InMount, Some(0)), ControlPlaneMounts(1))
         && Step(Pair(Mounted, InMount, Some(0)), ControlPlaneMounts(1)) == Pair(Mounted, Mounted, Some(1))
  {
  }

  lemma UntimelyRuns()
    ensures CanRun(START, UNTIMELY) && Run(START, UNTIMELY) == Pair(Mounted, Mounted, Some(1))
  {
    hide Step, Enabled;
    UntimelyBegins();
    UntimelyEnds();
    assert Enabled(START, RuntimeLoads) && Enabled(START.(runtimeLoaded := true), Mount) by { LoadsFirst(); }
    var e9 := [ControlPlaneMounts(1)];
    var e8 := [ControlPlaneMounts(0)] + e9;
    var e7 := [RuntimeReady(1)] + e8;
    var e6 := [PreviousSettled(1)] + e7;
    var e5 := [Mount] + e6;
    var e4 := [Unmount] + e5;
    var e3 := [RuntimeReady(0)] + e4;
    var e2 := [PreviousSettled(0)] + e3;
    var e1 := [Mount] + e2;
    assert e9 + [] == e9 && [RuntimeLoads] + e1 == UNTIMELY;
    RunPrepend(Pair(Mounted, InMount, Some(0)), ControlPlaneMounts(1), []);
    RunPrepend(Pair(InMount, InMount, None), ControlPlaneMounts(0), e9);
    RunPrepend(Pair(InMount, WaitRuntime, None), RuntimeReady(1), e8);
    RunPrepend(Pair(InMount, WaitPrevious, None), PreviousSettled(1), e7);
    RunPrepend(DROPPED, Mount, e6);
    RunPrepend(Only(InMount, true, None), Unmount, e5);
    RunPrepend(Only(WaitRuntime, true, None), RuntimeReady(0), e4);
    RunPrepend(Only(WaitPrevious, true, None), PreviousSettled(0), e3);
    RunPrepend(START.(runtimeLoaded := true), Mount, e2);
    RunPrepend(START, RuntimeLoads, e1);
  }

  lemma LoadsFirst()
    ensures Enabled(START, RuntimeLoads) && Enabled(START.(runtimeLoaded := true), Mount)
  {
  }

  lemma {:induction false} RegisteredIn(evs: seq<Event>, k: nat)
    requires k < |evs| && evs[k].ControlPlaneMounts?
    ensures evs[k].i in Registrations(evs)
  {
    if k > 0 { RegisteredIn(evs[1..], k - 1); }
  }

  /** Without the discipline two calls are inside at once, and a registered mount is never cleaned up. */
  lemma UntimelyUnmountLoses()
    ensures CanRun(START, UNTIMELY) && 0 in Registrations(UNTIMELY) && Overwritten(START, UNTIMELY) == {0}
    ensures var st := Run(START, UNTIMELY);
            Inside(st.calls[0]) && Inside(st.calls[1]) && st.disposed + Held(st) == {1}
  {
    hide CanRun, Run, Step, Overwritten, Registrations;
    UntimelyRuns();
    RegisteredIn(UNTIMELY, 8);
    RegisteredIn(UNTIMELY, 9);
    LostExactly(UNTIMELY);
    OnlyTwo();
  }

  lemma OnlyTwo()
    ensures Registrations(UNTIMELY) <= {0, 1}
  {
    AllAmong(UNTIMELY, {0, 1});
  }

  lemma {:induction false} AllAmong(evs: seq<Event>, s: set<nat>)
    requires forall k :: 0 <= k < |evs| && evs[k].ControlPlaneMounts? ==> evs[k].i in s
    ensures Registrations(evs) <= s
  {
    if evs != [] { AllAmong(evs[1..], s); }
  }

  /** A pending mount may be unmounted exactly when no call is inside `mountControlPlane`. */
  lemma UnmountSafeIff(evs: seq<Event>)
    requires CanRun(START, evs) && DisciplinedRun(START, evs) && Run(START, evs).current.Some?
    ensures Enabled(Run(START, evs), Unmount)
    ensures StaysSafe(Step(Run(START, evs), Unmount)) <==> !SomeInside(Run(START, evs))
  {
    RunKeepsInv(START, evs);
    var st := Run(START, evs);
    if SomeInside(st) {
      var i :| 0 <= i < |st.calls| && Inside(st.calls[i]);
      Overtakes(st, i);
    } else {
      StepKeepsInv(st, Unmount);
      var after := Step(st, Unmount);
      forall more | CanRun(after, more) && DisciplinedRun(after, more) ensures AtMostOneInside(Run(after, more)) {
        RunKeepsInv(after, more);
        forall i, j | 0 <= i < |Run(after, more).calls| && 0 <= j < |Run(after, more).calls|
                      && Inside(Run(after, more).calls[i]) && Inside(Run(after, more).calls[j])
          ensures i == j
        {
          InsideUnique(Run(after, more), i, j);
        }
      }
    }
  }
}
