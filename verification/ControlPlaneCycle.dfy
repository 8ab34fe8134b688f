/**
 The whole control-plane cycle of the agent: installations, then runs, then schedules. Each part is a run of its own
 protocol whatever fails, so everything proved about runs holds across any number of cycles.
 */
module ControlPlaneCycle {
  import opened Wrappers
  import Schedules
  import ScheduleStore
  import ScheduleClaims
  import RunClaims
  import RunProtocol
  import RunAgent
  import InstallProtocol
  import InstallAgent

  /** What the control plane answers when it is asked for schedules. */
  datatype ScheduleAnswer =
    | NoAnswer
    | SendsSnapshot(snapshot: Schedules.Snapshot)
    | SendsDelta(delta: Schedules.Delta)

  /** Everything one cycle is told from outside. */
  datatype Inputs = Inputs(
    installs: InstallProtocol.World, installations: Option<InstallProtocol.Snapshot>,
    outcomes: InstallProtocol.SnapshotOutcome, authority: RunClaims.Authority, controls: seq<RunProtocol.Control>,
    claims: seq<RunClaims.Claim>, schedules: ScheduleAnswer, leasesVerify: bool, now: Schedules.U64)

  /** No snapshot is applied after a delivery was put off. */
  predicate SyncsAfterFlush(trace: seq<InstallProtocol.Event>)
  {
    forall i, j :: 0 <= i < j < |trace| && trace[j].Syncs? ==> !trace[i].RetriesLater?
  }

  /** No run is claimed after a delivery was put off. */
  predicate ClaimsAfterFlush(trace: seq<RunProtocol.Event>)
  {
    forall i, j :: 0 <= i < j < |trace| && trace[j].ClaimRun? ==> !trace[i].RetryLater?
  }

  class Cycle {
    const installs: InstallAgent.Agent
    const runs: RunAgent.Agent
    const schedules: ScheduleStore.ScheduleDatabase

    constructor (installs: InstallAgent.Agent, runs: RunAgent.Agent, schedules: ScheduleStore.ScheduleDatabase)
      ensures this.installs == installs && this.runs == runs && this.schedules == schedules
    {
      this.installs, this.runs, this.schedules := installs, runs, schedules;
    }

    /** Reports, a snapshot once all of them are delivered, and the reports it made. */
    method SyncInstallations(inputs: Inputs) returns (ok: bool, ghost trace: seq<InstallProtocol.Event>)
      modifies installs
      ensures installs.Now() == InstallProtocol.Run(inputs.installs, old(installs.Now()), trace)
      ensures SyncsAfterFlush(trace)
    {
      hide InstallProtocol.Run, InstallProtocol.Step;
      ghost var from := installs.Now();
      ghost var due, part;
      var flushed;
      flushed, trace, due := installs.FlushInstallationReports(inputs.installs, inputs.now);
      ok := flushed;
      if !flushed { return; }
      if inputs.installations.Some? {
        ghost var sync := InstallProtocol.Syncs(inputs.installations.value, inputs.outcomes);
        InstallAgent.RunSnoc(inputs.installs, from, trace, sync);
        ghost var before := installs.Now();
        var applied := installs.ApplyInstallationSnapshot(inputs.installs, inputs.installations.value, inputs.outcomes);
        SyncIsStep(inputs.installs, before, inputs.installations.value, inputs.outcomes);
        trace := trace + [sync];
        if applied.Err? {
          ok := false;
          var fatal := *;
          if fatal { return; }
        }
      }
      flushed, part, due := installs.FlushInstallationReports(inputs.installs, inputs.now);
      InstallAgent.RunConcat(inputs.installs, from, trace, part);
      FlushKeepsOrder(trace, part);
      trace := trace + part;
      ok := ok && flushed;
    }

    /** Applies what was sent; any failure marks the schedules offline. */
    method SyncSchedules(inputs: Inputs) returns (ok: bool, ghost trace: seq<ScheduleClaims.Transaction>)
      modifies schedules
      ensures schedules.State() == ScheduleClaims.AfterAll(schedules.world, old(schedules.State()), trace)
      ensures ok ==> |trace| == 1 && !trace[0].ClaimDue? && !trace[0].GoOffline?
      ensures |trace| <= 2 && forall t :: t in trace ==> !t.ClaimDue?
    {
      hide ScheduleClaims.After;
      ghost var world, from := schedules.world, schedules.State();
      ok, trace := false, [];
      Nothing(world, from);
      match inputs.schedules
      case NoAnswer =>
      case SendsSnapshot(snapshot) =>
        if inputs.leasesVerify {
          var r := schedules.ApplyScheduleSnapshot(snapshot, inputs.now);
          trace, ok := [ScheduleClaims.SyncSnapshot(snapshot, inputs.now)], r.Ok?;
          One(world, from, trace[0]);
          SnapshotIsAfter(world, from, snapshot, inputs.now);
        }
      case SendsDelta(delta) =>
        if inputs.leasesVerify {
          var r := schedules.ApplyScheduleDelta(delta, inputs.now);
          trace, ok := [ScheduleClaims.SyncDelta(delta, inputs.now)], r.Ok?;
          One(world, from, trace[0]);
          DeltaIsAfter(world, from, delta, inputs.now);
        }
      if !ok {
        ghost var before := schedules.State();
        schedules.MarkOffline();
        Snoc(world, from, trace, ScheduleClaims.GoOffline);
        OfflineIsAfter(world, before);
        trace := trace + [ScheduleClaims.GoOffline];
      }
    }

    /**
     `run_control_plane_cycle`. A part that fails does not stop the next one, unless its failure invalidates the
     device's registration. Whatever happens, the installations, the runs and the schedules each make a run of their
     protocol; a snapshot is applied, and new runs are claimed, only while no due report of theirs was put off.
     */
    method RunControlPlaneCycle(inputs: Inputs)
      returns (ok: bool, ghost installed: seq<InstallProtocol.Event>, ghost ran: seq<RunProtocol.Event>,
               ghost synced: seq<ScheduleClaims.Transaction>)
      modifies installs, runs, schedules
      ensures installs.Now() == InstallProtocol.Run(inputs.installs, old(installs.Now()), installed)
      ensures runs.Ran(old(runs.Tables()), ran, RunProtocol.Idle)
      ensures schedules.State() == ScheduleClaims.AfterAll(schedules.world, old(schedules.State()), synced)
      ensures SyncsAfterFlush(installed) && ClaimsAfterFlush(ran)
      ensures ok ==> synced != []
    {
      hide InstallProtocol.Run, ScheduleClaims.AfterAll, RunProtocol.CanRun, RunProtocol.Run;
      ran, synced := [], [];
      RanNothing(runs.Tables());
      Nothing(schedules.world, schedules.State());
      ok, installed := SyncInstallations(inputs);
      if !ok {
        var fatal := *;
        if fatal { return; }
      }
      var step;
      step, ran := runs.RunControlPlaneCycle(
        schedules.world, inputs.authority, inputs.controls, inputs.claims, inputs.now);
      ok := ok && step;
      if !step {
        var fatal := *;
        if fatal { return; }
      }
      step, synced := SyncSchedules(inputs);
      ok := ok && step;
    }
  }

  lemma SyncIsStep(w: InstallProtocol.World, s: InstallProtocol.Store, snapshot: InstallProtocol.Snapshot,
                   o: InstallProtocol.SnapshotOutcome)
    ensures InstallProtocol.Step(w, s, InstallProtocol.Syncs(snapshot, o))
         == InstallProtocol.ApplySnapshot(w, s, snapshot, o).0
  {
  }

  lemma FlushKeepsOrder(trace: seq<InstallProtocol.Event>, part: seq<InstallProtocol.Event>)
    requires SyncsAfterFlush(trace) && forall k :: 0 <= k < |part| ==> !part[k].Syncs?
    ensures SyncsAfterFlush(trace + part)
  {
    forall k | |trace| <= k < |trace + part| ensures !(trace + part)[k].Syncs? {
      assert (trace + part)[k] == part[k - |trace|];
    }
  }

  lemma Nothing(world: Schedules.World, st: ScheduleStore.Store)
    ensures ScheduleClaims.AfterAll(world, st, []) == st
  {
  }

  lemma One(world: Schedules.World, st: ScheduleStore.Store, t: ScheduleClaims.Transaction)
    ensures ScheduleClaims.AfterAll(world, st, [t]) == ScheduleClaims.After(world, st, t)
  {
    assert [t][1..] == [];
  }

  lemma {:induction false} Snoc(
    world: Schedules.World, st: ScheduleStore.Store, ts: seq<ScheduleClaims.Transaction>, t: ScheduleClaims.Transaction)
    ensures ScheduleClaims.AfterAll(world, st, ts + [t])
         == ScheduleClaims.After(world, ScheduleClaims.AfterAll(world, st, ts), t)
    decreases |ts|
  {
    hide ScheduleClaims.After;
    if ts == [] {
      assert ts + [t] == [t];
      One(world, st, t);
    } else {
      assert (ts + [t])[1..] == ts[1..] + [t];
      Snoc(world, ScheduleClaims.After(world, st, ts[0]), ts[1..], t);
    }
  }

  lemma SnapshotIsAfter(world: Schedules.World, st: ScheduleStore.Store, s: Schedules.Snapshot, now: nat)
    ensures ScheduleClaims.After(world, st, ScheduleClaims.SyncSnapshot(s, now))
         == ScheduleStore.ApplySnapshot(world, st, s, now).1
  {
  }

  lemma DeltaIsAfter(world: Schedules.World, st: ScheduleStore.Store, d: Schedules.Delta, now: nat)
    ensures ScheduleClaims.After(world, st, ScheduleClaims.SyncDelta(d, now))
         == ScheduleStore.ApplyDelta(world, st, d, now).1
  {
  }

  lemma OfflineIsAfter(world: Schedules.World, st: ScheduleStore.Store)
    ensures ScheduleClaims.After(world, st, ScheduleClaims.GoOffline) == st.(offline := true)
  {
  }

  lemma RanNothing(db: RunProtocol.Db)
    ensures RunProtocol.CanRun(RunProtocol.System(db, RunProtocol.Idle), [])
    ensures RunProtocol.Run(RunProtocol.System(db, RunProtocol.Idle), []) == RunProtocol.System(db, RunProtocol.Idle)
  {
  }
}
