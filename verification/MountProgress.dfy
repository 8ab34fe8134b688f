/** The chain of settled promises cannot deadlock, and without new mounts it runs out of steps. */
module MountProgress {
  import opened Wrappers
  import opened MountProtocol
  import opened MountRuns

  // ----- How far the calls still have to go -----

  function Rank(c: Call): nat
  {
    match c.pc
    case WaitPrevious => 4
    case WaitRuntime => 3
    case InMount => 2
    case Filled => 1
    case Mounted => 1
    case _ => 0
  }

  function TotalRank(calls: seq<Call>): nat
  {
    if calls == [] then 0 else TotalRank(calls[..|calls| - 1]) + Rank(calls[|calls| - 1])
  }

  lemma {:induction false} RankUpdate(calls: seq<Call>, i: nat, c: Call)
    requires i < |calls|
    ensures TotalRank(calls[i := c]) + Rank(calls[i]) == TotalRank(calls) + Rank(c)
  {
    hide Rank;
    var n := |calls| - 1;
    if i == n {
      assert calls[i := c][..n] == calls[..n];
    } else {
      assert calls[i := c][..n] == calls[..n][i := c];
      RankUpdate(calls[..n], i, c);
    }
  }

  lemma CancelRank(st: State, i: nat)
    requires i < |st.calls|
    ensures |CancelMount(st, i).calls| == |st.calls| && CancelMount(st, i).calls[i].pc == st.calls[i].pc
    ensures TotalRank(CancelMount(st, i).calls) == TotalRank(st.calls)
  {
    RankUpdate(st.calls, i, st.calls[i].(cancelled := true, cleanup := false));
  }

  lemma AtRank(st: State, i: nat, pc: Pc)
    requires i < |st.calls|
    ensures TotalRank(At(st, i, pc).calls) + Rank(st.calls[i]) == TotalRank(st.calls) + Rank(st.calls[i].(pc := pc))
  {
    RankUpdate(st.calls, i, st.calls[i].(pc := pc));
  }

  /** A call's own way through `mount`. */
  predicate OwnStep(ev: Event) { !ev.Mount? && !ev.RuntimeLoads? && !ev.Unmount? && !ev.Cleanup? }

  lemma StepRank(st: State, ev: Event)
    requires Enabled(st, ev) && !ev.Mount?
    ensures if OwnStep(ev) then TotalRank(Step(st, ev).calls) < TotalRank(st.calls)
            else TotalRank(Step(st, ev).calls) == TotalRank(st.calls)
  {
    hide TotalRank, CancelMount;
    match ev
    case PreviousSettled(i) => AtRank(st, i, if IsCurrent(st, i) then WaitRuntime else Noop);
    case RuntimeLoads =>
    case RuntimeRejects(i) =>
      CancelRank(st, i);
      AtRank(CancelMount(st, i), i, Threw);
    case RuntimeReady(i) =>
      AtRank(UnmountControlPlane(st), i, InMount);
      AtRank(st, i, Noop);
    case ControlPlaneMounts(i) => AtRank(st.(record := Some(i), content := Some(i)), i, Mounted);
    case ControlPlaneFails(i) => AtRank(st.(content := Some(i)), i, Filled);
    case ControlPlaneRejects(i) =>
      CancelRank(st, i);
      AtRank(CancelMount(st, i), i, Threw);
    case MountReturns(i) =>
      RankUpdate(st.calls, i, st.calls[i].(pc := Live, cleanup := true));
      AtRank(UnmountControlPlane(st), i, Noop);
    case Unmount => if st.current.Some? { CancelRank(st, st.current.value); }
    case Cleanup(i) => CancelRank(st, i);
  }

  function OwnSteps(evs: seq<Event>): nat
  {
    if evs == [] then 0 else (if OwnStep(evs[0]) then 1 else 0) + OwnSteps(evs[1..])
  }

  /** Without new mounts the calls take at most as many steps as are left to them, whatever is unmounted meanwhile. */
  lemma {:induction false} FiniteSteps(st: State, evs: seq<Event>)
    requires CanRun(st, evs) && forall k :: 0 <= k < |evs| ==> !evs[k].Mount?
    ensures OwnSteps(evs) + TotalRank(Run(st, evs).calls) <= TotalRank(st.calls)
    decreases |evs|
  {
    hide Step, Enabled, TotalRank;
    if evs != [] {
      StepRank(st, evs[0]);
      FiniteSteps(Step(st, evs[0]), evs[1..]);
    }
  }

  // ----- Somebody can always go on -----

  /** Call `i` is the lowest one that has not settled. */
  predicate LowestUnsettled(st: State, i: nat)
  {
    i < |st.calls| && !Settled(st.calls[i]) && forall k :: 0 <= k < i ==> Settled(st.calls[k])
  }

  /** A step of call `i`, in which it does not fail unless it already has. */
  function NextStep(st: State, i: nat): Event
    requires i < |st.calls| && !Settled(st.calls[i])
  {
    match st.calls[i].pc
    case WaitPrevious => PreviousSettled(i)
    case WaitRuntime => if st.runtimeLoaded then RuntimeReady(i) else RuntimeLoads
    case InMount => ControlPlaneMounts(i)
    case Filled => ControlPlaneRejects(i)
    case Mounted => MountReturns(i)
  }

  lemma NextStepEnabled(st: State, i: nat)
    requires Always(st) && LowestUnsettled(st, i)
    ensures Enabled(st, NextStep(st, i))
  {
    Follows(st, i);
  }

  /** In every reachable state the lowest unsettled call can go on: no call waits for ever behind another. */
  lemma NoDeadlock(evs: seq<Event>, i: nat)
    requires CanRun(START, evs) && LowestUnsettled(Run(START, evs), i)
    ensures Enabled(Run(START, evs), NextStep(Run(START, evs), i))
  {
    RunAlways(START, evs);
    NextStepEnabled(Run(START, evs), i);
  }

  lemma FindLowest(st: State) returns (i: nat)
    requires !AllSettled(st)
    ensures LowestUnsettled(st, i)
  {
    i := 0;
    while Settled(st.calls[i])
      invariant i < |st.calls| && forall k :: 0 <= k < i ==> Settled(st.calls[k])
      decreases |st.calls| - i
    {
      i := i + 1;
    }
  }

  /** Nothing is mounted, unmounted or cleaned up, and the only rejection is that of a call that has failed already. */
  predicate Completes(st: State, ev: Event)
  {
    ev.PreviousSettled? || ev.RuntimeLoads? || ev.RuntimeReady? || ev.ControlPlaneMounts? || ev.MountReturns?
    || (ev.ControlPlaneRejects? && ev.i < |st.calls| && st.calls[ev.i].pc == Filled)
  }

  ghost predicate CompletingRun(st: State, evs: seq<Event>)
    requires CanRun(st, evs)
    decreases |evs|
  {
    evs != [] ==> Completes(st, evs[0]) && CompletingRun(Step(st, evs[0]), evs[1..])
  }

  function Remaining(st: State): nat { TotalRank(st.calls) + if st.runtimeLoaded then 0 else 1 }

  lemma NextStepRank(st: State, i: nat)
    requires Always(st) && LowestUnsettled(st, i)
    ensures Completes(st, NextStep(st, i)) && Enabled(st, NextStep(st, i))
    ensures Remaining(Step(st, NextStep(st, i))) < Remaining(st)
  {
    hide TotalRank;
    NextStepEnabled(st, i);
    StepRank(st, NextStep(st, i));
  }

  lemma CompletingPrepend(st: State, ev: Event, rest: seq<Event>)
    requires Enabled(st, ev) && Completes(st, ev) && CanRun(Step(st, ev), rest) && CompletingRun(Step(st, ev), rest)
    ensures CanRun(st, [ev] + rest) && CompletingRun(st, [ev] + rest)
    ensures Run(st, [ev] + rest) == Run(Step(st, ev), rest)
  {
    hide Step, Enabled, Completes;
    assert ([ev] + rest)[0] == ev && ([ev] + rest)[1..] == rest;
  }

  /** The calls can all be brought to settle, one step after the other. */
  lemma {:induction false} CanSettle(st: State) returns (evs: seq<Event>)
    requires Always(st)
    ensures CanRun(st, evs) && CompletingRun(st, evs) && AllSettled(Run(st, evs))
    decreases Remaining(st)
  {
    hide Always, Step, Enabled, Remaining, Settled, NextStep, Completes;
    if AllSettled(st) {
      evs := [];
    } else {
      var i := FindLowest(st);
      var ev := NextStep(st, i);
      NextStepRank(st, i);
      StepAlways(st, ev);
      var rest := CanSettle(Step(st, ev));
      CompletingPrepend(st, ev, rest);
      evs := [ev] + rest;
    }
  }

  /** Whatever has happened, all calls made so far can still settle, without a new mount, unmount or failure. */
  lemma EveryRunCanSettle(evs: seq<Event>) returns (more: seq<Event>)
    requires CanRun(START, evs)
    ensures CanRun(Run(START, evs), more) && CompletingRun(Run(START, evs), more)
    ensures AllSettled(Run(Run(START, evs), more))
  {
    RunAlways(START, evs);
    more := CanSettle(Run(START, evs));
  }
}
