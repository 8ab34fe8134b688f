/** Which report each run ends with, and why: what the statuses in the log say about the local task. */
module RunOutcomes {
  import opened Wrappers
  import opened RunClaims
  import opened RunProtocol
  import opened RunSafety
  import opened Outbox

  ghost function Reports(db: Db, run: string): seq<Status>
    requires run in db.runs
  {
    History(db.log, run, db.runs[run].attempt)
  }

  predicate EndedTask(db: Db, r: RemoteRun)
  {
    r.task.Some? && r.task.value in db.tasks && !IsActive(db.tasks[r.task.value])
  }

  predicate SucceededTask(db: Db, r: RemoteRun) { EndedTask(db, r) && db.tasks[r.task.value].Succeeded? }

  /** What the reports of the stored attempt say about its task. */
  predicate Truthful(db: Db, r: RemoteRun, h: seq<Status>)
  {
    (ReportRunning in h <==> r.task.Some?)
    && (ReportSucceeded in h ==> SucceededTask(db, r))
    && (ReportFailed in h && r.task.Some? ==> EndedTask(db, r) && !SucceededTask(db, r))
    && (ReportCancelled in h && r.task.Some? ==> EndedTask(db, r))
    && (r.requiresElevation ==> r.task.None? && ReportFailed !in h)
  }

  ghost predicate AllTruthful(db: Db) { forall run :: run in db.runs ==> Truthful(db, db.runs[run], Reports(db, run)) }

  /** The tasks a work list of completions speaks of have ended just so. */
  ghost predicate CompletionsTrue(sys: System)
  {
    sys.phase.Completing? ==>
      forall i :: 0 <= i < |sys.phase.completions| ==>
        var c := sys.phase.completions[i];
        c.runId in sys.db.runs && EndedTask(sys.db, sys.db.runs[c.runId])
        && sys.db.tasks[sys.db.runs[c.runId].task.value] == c.ended
  }

  ghost predicate Sound(sys: System) { AllTruthful(sys.db) && CompletionsTrue(sys) }

  /** No task is forgotten, and one that has ended stays as it ended. */
  predicate Settles(before: map<string, TaskStatus>, after: map<string, TaskStatus>)
  {
    forall t :: t in before ==> t in after && (!IsActive(before[t]) ==> after[t] == before[t])
  }

  lemma StaysTruthful(before: Db, after: Db, r: RemoteRun, h: seq<Status>)
    requires Settles(before.tasks, after.tasks) && Truthful(before, r, h)
    ensures Truthful(after, r, h)
  {
  }

  /** A step that reports nothing and leaves the runs alone. */
  lemma TasksTruthful(before: Db, after: Db)
    requires Settles(before.tasks, after.tasks) && AllTruthful(before)
    requires after.runs == before.runs && after.log == before.log
    ensures AllTruthful(after)
  {
    hide Truthful, Settles;
    forall run | run in after.runs ensures Truthful(after, after.runs[run], Reports(after, run)) {
      StaysTruthful(before, after, before.runs[run], Reports(before, run));
    }
  }

  /** A step that stores one report for the stored attempt. */
  lemma ReportTruthful(before: Db, after: Db, report: Report, row: RemoteRun)
    requires Settles(before.tasks, after.tasks) && AllTruthful(before)
    requires report.runId in before.runs && before.runs[report.runId].attempt == report.attempt == row.attempt
    requires after.runs == before.runs[report.runId := row] && after.log == before.log + [report]
    requires Truthful(after, row, Reports(before, report.runId) + [report.status])
    ensures AllTruthful(after)
  {
    hide Truthful, Settles;
    forall run | run in after.runs ensures Truthful(after, after.runs[run], Reports(after, run)) {
      HistorySnoc(before.log, report, run, after.runs[run].attempt);
      if run != report.runId {
        assert Reports(after, run) == Reports(before, run);
        StaysTruthful(before, after, before.runs[run], Reports(before, run));
      }
    }
  }

  lemma ClaimTruthful(db: Db, c: Claim, now: nat)
    requires LogOk(db) && AllTruthful(db)
    ensures AllTruthful(RecordClaim(db, c, now).1)
  {
    hide Truthful;
    var after := RecordClaim(db, c, now).1;
    forall run | run in after.runs ensures Truthful(after, after.runs[run], Reports(after, run)) {
      if after != db && run == c.intent.runId {
        assert LogAt(db, run, c.intent.attempt);
        FirstTruthful(after, after.runs[run]);
      } else {
        StaysTruthful(db, after, db.runs[run], Reports(db, run));
      }
    }
  }

  lemma FirstTruthful(db: Db, r: RemoteRun)
    requires r.task.None?
    ensures Truthful(db, r, [])
  {
  }

  lemma CancelTruth(db: Db, stopped: Db, r: RemoteRun, h: seq<Status>)
    requires Truthful(db, r, h) && ReportSucceeded !in h && ReportFailed !in h
    requires Settles(db.tasks, stopped.tasks) && (r.task.Some? ==> EndedTask(stopped, r))
    ensures Truthful(stopped, r.(state := Terminal), h + [ReportCancelled])
  {
  }

  lemma ControlTruthful(sys: System, stops: bool, reports: bool, now: nat)
    requires Inv(sys) && AllTruthful(sys.db) && Enabled(sys, ApplyControl(stops, reports, now))
    ensures AllTruthful(Step(sys, ApplyControl(stops, reports, now)).db)
  {
    hide LogOk, RunsOk, OutboxOk, Enqueue, Truthful;
    var db, c := sys.db, sys.phase.controls[0];
    if c.runId in db.runs && db.runs[c.runId].attempt == c.attempt && db.runs[c.runId].state != Terminal {
      var row := db.runs[c.runId];
      var report := Report(c.runId, c.attempt, ReportCancelled);
      var stopped := if row.task.Some? then StopTask(db, row.task.value, now) else db;
      TasksTruthful(db, stopped);
      OpenReports(db, c.runId);
      BoundTask(db, c.runId);
      CancelTruth(db, stopped, row, Reports(db, c.runId));
      EnqueueLogs(stopped, report, row.(state := Terminal), now);
      if ValidAttempt(c.attempt) && reports && (row.task.None? || stops) {
        var after := Enqueue(stopped.(runs := db.runs[c.runId := row.(state := Terminal)]), report, now);
        StaysTruthful(stopped, after, row.(state := Terminal), Reports(db, c.runId) + [ReportCancelled]);
        ReportTruthful(stopped, after, report, row.(state := Terminal));
      }
    }
  }

  /** A run that is not over has not reported an end. */
  lemma OpenReports(db: Db, run: string)
    requires LogOk(db) && run in db.runs && db.runs[run].state != Terminal
    ensures var h := Reports(db, run);
            ReportSucceeded !in h && ReportFailed !in h && ReportCancelled !in h
            && (db.runs[run].state == Claimed ==> h == []) && (db.runs[run].state == Running ==> h == [ReportRunning])
  {
    assert LogAt(db, run, db.runs[run].attempt);
  }

  lemma BoundTask(db: Db, run: string)
    requires RunsOk(db) && run in db.runs
    ensures db.runs[run].task.Some? ==> db.runs[run].task.value in db.tasks
    ensures db.runs[run].state == Claimed ==> db.runs[run].task.None?
    ensures ValidAttempt(db.runs[run].attempt)
  {
  }

  lemma EnqueueLogs(db: Db, report: Report, row: RemoteRun, now: nat)
    ensures var after := Enqueue(db.(runs := db.runs[report.runId := row]), report, now);
            after.log == db.log + [report] && after.tasks == db.tasks && after.runs == db.runs[report.runId := row]
  {
  }

  lemma CompleteTruthful(sys: System, reports: bool, now: nat)
    requires Inv(sys) && Sound(sys) && Enabled(sys, ReportCompleted(reports, now))
    ensures AllTruthful(Step(sys, ReportCompleted(reports, now)).db)
  {
    hide LogOk, RunsOk, OutboxOk, Enqueue;
    var db, c := sys.db, sys.phase.completions[0];
    var row, report := db.runs[c.runId], Report(c.runId, c.attempt, CompletionStatus(c.ended));
    OpenReports(db, c.runId);
    BoundTask(db, c.runId);
    EnqueueLogs(db, report, row.(state := Terminal), now);
    assert Truthful(db, row, Reports(db, c.runId));
    assert !row.requiresElevation;
    ReportTruthful(db, Enqueue(db.(runs := db.runs[c.runId := row.(state := Terminal)]), report, now), report,
                   row.(state := Terminal));
  }

  lemma ProcessTruthful(sys: System, o: Outcome, now: nat)
    requires Inv(sys) && AllTruthful(sys.db) && Enabled(sys, Process(o, now))
    ensures AllTruthful(Step(sys, Process(o, now)).db)
  {
    hide LogOk, RunsOk, OutboxOk, Enqueue;
    var db, r := sys.db, sys.phase.remotes[0];
    assert IsClaimed(db, r);
    var row := db.runs[r.runId];
    OpenReports(db, r.runId);
    BoundTask(db, r.runId);
    var ready := if o.WebUi? || o.NotBound? then SetTask(db, o.task, Stopped(now))
                 else if o.Started? then SetTask(db, o.task, o.status) else db;
    assert Settles(db.tasks, ready.tasks);
    TasksTruthful(db, ready);
    if o.Started? && !r.requiresElevation {
      StartTruthful(ready, r, o.task, now);
    } else {
      AnswerTruthful(db, db, r, ReportNeedsApproval, now);
      AnswerTruthful(db, ready, r, ReportNeedsApproval, now);
      if !r.requiresElevation { AnswerTruthful(db, ready, r, ReportFailed, now); }
    }
  }

  lemma AnswerTruthful(db: Db, ready: Db, r: Remote, status: Status, now: nat)
    requires AllTruthful(db) && Settles(db.tasks, ready.tasks) && ready == db.(tasks := ready.tasks)
    requires IsClaimed(db, r) && Reports(db, r.runId) == [] && db.runs[r.runId].task.None?
    requires status == ReportNeedsApproval || (status == ReportFailed && !r.requiresElevation)
    ensures EnqueueReport(ready, Report(r.runId, r.attempt, status), now).Some? ==>
        AllTruthful(EnqueueReport(ready, Report(r.runId, r.attempt, status), now).value)
  {
    hide Enqueue;
    var row, report := db.runs[r.runId].(state := StateOf(status)), Report(r.runId, r.attempt, status);
    EnqueueLogs(ready, report, row, now);
    TasksTruthful(db, ready);
    ReportTruthful(ready, Enqueue(ready.(runs := ready.runs[r.runId := row]), report, now), report, row);
  }

  lemma StartTruthful(ready: Db, r: Remote, task: string, now: nat)
    requires AllTruthful(ready) && IsClaimed(ready, r) && Reports(ready, r.runId) == []
    requires !r.requiresElevation
    ensures Bind(ready, r.runId, r.attempt, task, now).Some? ==>
        AllTruthful(Bind(ready, r.runId, r.attempt, task, now).value)
  {
    hide Enqueue;
    var row := ready.runs[r.runId].(task := Some(task), state := Running);
    var report := Report(r.runId, r.attempt, ReportRunning);
    EnqueueLogs(ready, report, row, now);
    ReportTruthful(ready, Enqueue(ready.(runs := ready.runs[r.runId := row]), report, now), report, row);
  }

  lemma ReportedTasks(db: Db, report: Report, now: nat, rest: Phase)
    ensures Reported(db, report, now, rest).db.tasks == db.tasks
  {
  }

  lemma BindTasks(db: Db, run: string, attempt: nat, task: string, now: nat)
    ensures Bind(db, run, attempt, task, now).Some? ==> Bind(db, run, attempt, task, now).value.tasks == db.tasks
  {
  }

  lemma ProcessSettles(sys: System, o: Outcome, now: nat)
    requires Enabled(sys, Process(o, now))
    ensures Settles(sys.db.tasks, Step(sys, Process(o, now)).db.tasks)
  {
    hide Reported, Bind;
    var db, r, rest := sys.db, sys.phase.remotes[0], Processing(sys.phase.remotes[1..]);
    forall report, t: Db ensures Reported(t, report, now, rest).db.tasks == t.tasks {
      ReportedTasks(t, report, now, rest);
    }
    if o.Started? { BindTasks(SetTask(db, o.task, o.status), r.runId, r.attempt, o.task, now); }
  }

  /** What every step does to the tasks: only new ones are added, and only active ones change. */
  lemma StepSettles(sys: System, ev: Event)
    requires Enabled(sys, ev)
    ensures Settles(sys.db.tasks, Step(sys, ev).db.tasks)
  {
    hide ProcessOne, Reported, Settles;
    match ev
    case ApplyControl(stops, reports, now) =>
      var c, rest := sys.phase.controls[0], Controlling(sys.phase.controls[1..]);
      var stopped := if c.runId in sys.db.runs && sys.db.runs[c.runId].task.Some?
                     then StopTask(sys.db, sys.db.runs[c.runId].task.value, now) else sys.db;
      ReportedTasks(stopped, Report(c.runId, c.attempt, ReportCancelled), now, rest);
      ReportedTasks(sys.db, Report(c.runId, c.attempt, ReportCancelled), now, rest);
      SameSettles(sys.db, Step(sys, ev).db, stopped);
    case ReportCompleted(reports, now) =>
      var c := sys.phase.completions[0];
      ReportedTasks(sys.db, Report(c.runId, c.attempt, CompletionStatus(c.ended)), now,
                    Completing(sys.phase.completions[1..]));
      SameSettles(sys.db, Step(sys, ev).db, sys.db);
    case Process(o, now) => ProcessSettles(sys, o, now);
    case _ => OtherSettles(sys, ev);
  }

  lemma SameSettles(before: Db, after: Db, stopped: Db)
    requires after.tasks == before.tasks || after.tasks == stopped.tasks
    requires stopped == before || exists task, now :: stopped == StopTask(before, task, now)
    ensures Settles(before.tasks, after.tasks)
  {
  }

  lemma OtherSettles(sys: System, ev: Event)
    requires Enabled(sys, ev) && !ev.ApplyControl? && !ev.ReportCompleted? && !ev.Process?
    ensures Settles(sys.db.tasks, Step(sys, ev).db.tasks)
    ensures !ev.ClaimRun? ==> Step(sys, ev).db.runs == sys.db.runs
  {
  }

  /** While completions are reported, each listed run keeps its row until it is its turn. */
  lemma CompletionsKept(sys: System, ev: Event)
    requires Inv(sys) && CompletionsTrue(sys) && Enabled(sys, ev) && sys.phase.Completing?
    ensures CompletionsTrue(Step(sys, ev))
  {
    hide LogOk, RunsOk, OutboxOk;
    StepSettles(sys, ev);
    if ev.ReportCompleted? {
      NextCompletion(sys, ev.reports, ev.now);
    } else {
      OtherSettles(sys, ev);
    }
  }

  lemma NextCompletion(sys: System, reports: bool, now: nat)
    requires Inv(sys) && CompletionsTrue(sys) && Enabled(sys, ReportCompleted(reports, now))
    ensures CompletionsTrue(Step(sys, ReportCompleted(reports, now)))
  {
    hide LogOk, RunsOk, OutboxOk, Enqueue;
    var db, c, cs := sys.db, sys.phase.completions[0], sys.phase.completions;
    EnqueueLogs(db, Report(c.runId, c.attempt, CompletionStatus(c.ended)), db.runs[c.runId].(state := Terminal), now);
    assert forall i :: 0 <= i < |cs| - 1 ==> cs[1..][i] == cs[i + 1];
  }

  lemma StepSound(sys: System, ev: Event)
    requires Inv(sys) && Sound(sys) && Enabled(sys, ev)
    ensures Sound(Step(sys, ev))
  {
    hide LogOk, RunsOk, OutboxOk, AllTruthful, CompletionsTrue, Enqueue, Settles;
    StepSettles(sys, ev);
    if sys.phase.Completing? {
      CompletionsKept(sys, ev);
    } else {
      LoadedTrue(sys, ev);
    }
    match ev
    case ApplyControl(stops, reports, now) => ControlTruthful(sys, stops, reports, now);
    case ReportCompleted(reports, now) => CompleteTruthful(sys, reports, now);
    case Process(o, now) => ProcessTruthful(sys, o, now);
    case ClaimRun(c, now) => ClaimTruthful(sys.db, c, now);
    case _ => TasksTruthful(sys.db, Step(sys, ev).db);
  }

  lemma LoadedTrue(sys: System, ev: Event)
    requires Enabled(sys, ev) && !sys.phase.Completing?
    ensures CompletionsTrue(Step(sys, ev))
  {
    hide Enqueue;
  }

  lemma {:induction false} RunSound(sys: System, evs: seq<Event>)
    requires Inv(sys) && Sound(sys) && CanRun(sys, evs)
    ensures Inv(Run(sys, evs)) && Sound(Run(sys, evs))
    decreases |evs|
  {
    hide Inv, Sound, Enabled, Step;
    if evs != [] {
      StepKeepsInv(sys, evs[0]);
      StepSound(sys, evs[0]);
      RunSound(Step(sys, evs[0]), evs[1..]);
    }
  }

  lemma StartSound()
    ensures Sound(START)
  {
  }

  /**
   In every reachable state the log tells the truth about the stored attempt of each run. It was reported running
   exactly when it has a task. It was reported succeeded exactly when it is over, its task succeeded and it was not
   cancelled first; and a run with a task failed exactly when it is over, its task ended otherwise and it was not
   cancelled. A run that was cancelled has no active task, and one that requires elevation was never started.
   */
  lemma EveryReportIsTrue(evs: seq<Event>, run: string)
    requires CanRun(START, evs) && run in Run(START, evs).db.runs
    ensures var db := Run(START, evs).db;
            var (r, h) := (db.runs[run], Reports(db, run));
            var over := r.state == Terminal && ReportCancelled !in h;
            (ReportRunning in h <==> r.task.Some?)
            && (ReportSucceeded in h <==> over && SucceededTask(db, r))
            && (r.task.Some? ==> (ReportFailed in h <==> over && EndedTask(db, r) && !SucceededTask(db, r)))
            && (ReportCancelled in h && r.task.Some? ==> EndedTask(db, r))
            && (r.requiresElevation ==> r.task.None? && ReportSucceeded !in h && ReportFailed !in h)
  {
    hide LogOk, RunsOk, OutboxOk, Enabled, Step;
    StartOk();
    StartSound();
    RunSound(START, evs);
    var db := Run(START, evs).db;
    EndsIn(db, run);
    assert Truthful(db, db.runs[run], Reports(db, run));
  }

  lemma EndsIn(db: Db, run: string)
    requires LogOk(db) && run in db.runs
    ensures var h := Reports(db, run);
            (ReportSucceeded in h || ReportFailed in h ==> db.runs[run].state == Terminal && ReportCancelled !in h)
            && !(ReportSucceeded in h && ReportFailed in h)
            && (db.runs[run].state == Terminal ==>
                  ReportSucceeded in h || ReportFailed in h || ReportCancelled in h)
  {
    assert LogAt(db, run, db.runs[run].attempt);
  }

  // ----- Which step reports what -----

  /** The log, the outbox and the state of the run after one report that is stored. */
  predicate Stores(before: Db, after: Db, report: Report, now: nat)
  {
    after.log == before.log + [report]
    && after.outbox == before.outbox[before.nextOutboxId := OutboxEntry(report, now, 0)]
    && after.nextOutboxId == before.nextOutboxId + 1 && after.delivered == before.delivered
    && report.runId in after.runs && after.runs.Keys == before.runs.Keys
    && forall run :: run in before.runs && run != report.runId ==> after.runs[run] == before.runs[run]
  }

  lemma GatedStores(db: Db, ready: Db, report: Report, row: RemoteRun, now: nat)
    requires DbOk(db) && report.runId in db.runs && db.runs[report.runId].attempt == report.attempt
    requires Gated(db.runs[report.runId], report.status)
    requires ready == db.(tasks := ready.tasks)
    ensures Stores(db, Enqueue(ready.(runs := ready.runs[report.runId := row]), report, now), report, now)
  {
    hide LogOk, OutboxOk;
    GatedIsNew(db, report);
    var marked := ready.(runs := ready.runs[report.runId := row]);
    assert Pending(marked, report) ==> Pending(db, report);
  }

  /** The status that handling a claimed run comes to, if it is reported. */
  predicate Answers(r: Remote, o: Outcome, status: Status)
  {
    match status
    case ReportNeedsApproval => r.requiresElevation || o.Foreground? || o.WebUi?
    case ReportRunning => !r.requiresElevation && o.Started?
    case ReportFailed => !r.requiresElevation && (o.Unavailable? || o.NotStarted?)
    case _ => false
  }

  /**
   Handling a claimed run stores exactly one report, unless it could not be stored or the started task could not be
   bound, and then the loop ends: approval is needed for elevation and for whatever runs in the foreground or serves a
   page; a run is reported running exactly when its task started, and then it is bound to that task.
   */
  lemma ProcessReports(sys: System, o: Outcome, now: nat)
    requires Inv(sys) && Enabled(sys, Process(o, now))
    ensures var (r, after) := (sys.phase.remotes[0], Step(sys, Process(o, now)));
            if o.NotReported? || (o.NotBound? && !r.requiresElevation) then
              after.phase == Idle && after.db == sys.db.(tasks := after.db.tasks)
            else
              after.phase == Processing(sys.phase.remotes[1..])
              && exists status :: Answers(r, o, status)
                   && Stores(sys.db, after.db, Report(r.runId, r.attempt, status), now)
                   && after.db.runs[r.runId].state == StateOf(status)
                   && (status == ReportRunning ==>
                         after.db.runs[r.runId].task == Some(o.task) && o.task in after.db.tasks
                         && after.db.tasks[o.task] == o.status)
  {
    hide LogOk, OutboxOk, Enqueue, Stores;
    var db, r := sys.db, sys.phase.remotes[0];
    assert IsClaimed(db, r) && ValidAttempt(r.attempt);
    var row := db.runs[r.runId];
    var ready := if r.requiresElevation then db
                 else if o.WebUi? then SetTask(db, o.task, Stopped(now))
                 else if o.Started? then SetTask(db, o.task, o.status) else db;
    var status := if r.requiresElevation || o.Foreground? || o.WebUi? then ReportNeedsApproval
                  else if o.Started? then ReportRunning else ReportFailed;
    var next := if status == ReportRunning then row.(task := Some(o.task), state := Running)
                else row.(state := StateOf(status));
    GatedStores(db, ready, Report(r.runId, r.attempt, status), next, now);
    EnqueueLogs(ready, Report(r.runId, r.attempt, status), next, now);
    assert o.NotReported? || (o.NotBound? && !r.requiresElevation) || Answers(r, o, status);
  }

  /**
   A control stores a cancellation exactly when it names the stored attempt of a run that is not over, and the task, if
   there is one, could be stopped; then that task is not active any more. Otherwise the database stays as it was, apart
   from the task.
   */
  lemma ControlReports(sys: System, stops: bool, reports: bool, now: nat)
    requires Inv(sys) && Enabled(sys, ApplyControl(stops, reports, now))
    ensures var (c, after) := (sys.phase.controls[0], Step(sys, ApplyControl(stops, reports, now)));
            var open := c.runId in sys.db.runs && sys.db.runs[c.runId].attempt == c.attempt
                        && sys.db.runs[c.runId].state != Terminal;
            if open && reports && (sys.db.runs[c.runId].task.Some? ==> stops) then
              Stores(sys.db, after.db, Report(c.runId, c.attempt, ReportCancelled), now)
              && after.db.runs[c.runId] == sys.db.runs[c.runId].(state := Terminal)
              && (sys.db.runs[c.runId].task.Some? ==> EndedTask(after.db, after.db.runs[c.runId]))
              && after.phase == Controlling(sys.phase.controls[1..])
            else
              after.db == sys.db.(tasks := after.db.tasks)
              && after.phase == if open then Idle else Controlling(sys.phase.controls[1..])
  {
    hide LogOk, OutboxOk, Enqueue, Stores;
    var db, c := sys.db, sys.phase.controls[0];
    if c.runId in db.runs && db.runs[c.runId].attempt == c.attempt && db.runs[c.runId].state != Terminal {
      var row := db.runs[c.runId];
      var report := Report(c.runId, c.attempt, ReportCancelled);
      var stopped := if row.task.Some? then StopTask(db, row.task.value, now) else db;
      GatedStores(db, stopped, report, row.(state := Terminal), now);
      EnqueueLogs(stopped, report, row.(state := Terminal), now);
    }
  }

  // ----- The other transactions -----

  /** A claim is stored exactly when it is for a new run or a later attempt, as a claimed run without a task. */
  lemma ClaimStored(db: Db, c: Claim, now: nat)
    ensures var (stored, after) := RecordClaim(db, c, now);
            var run := c.intent.runId;
            (stored <==> run !in db.runs || db.runs[run].attempt < c.intent.attempt)
            && (!stored ==> after == db)
            && (stored ==>
                  after == db.(runs := after.runs) && after.runs.Keys == db.runs.Keys + {run}
                  && ClaimOf(run, after.runs[run]) == c && after.runs[run].state == Claimed
                  && after.runs[run].task.None? && after.runs[run].claimedAt == now
                  && forall other :: other in db.runs && other != run ==> after.runs[other] == db.runs[other])
  {
  }

  /** After a restart no task is active: those that were have failed then, and the others are as they ended. */
  lemma RestartEnds(sys: System, now: nat)
    ensures Enabled(sys, Restart(now))
    ensures var after := Step(sys, Restart(now));
            after == System(sys.db.(tasks := after.db.tasks), Idle)
            && after.db.tasks.Keys == sys.db.tasks.Keys && Settles(sys.db.tasks, after.db.tasks)
            && forall t :: t in sys.db.tasks && IsActive(sys.db.tasks[t]) ==> after.db.tasks[t] == Failed(now)
  {
  }

  /** A delivery that failed keeps its report, and each further failure puts it off twice as long, up to the maximum. */
  lemma PutOffDoubles(db: Db, id: nat, at: nat)
    requires id in db.outbox
    ensures var (entry, after) := (db.outbox[id], Retry(db, id, at));
            after == db.(outbox := after.outbox) && after.outbox.Keys == db.outbox.Keys
            && (forall k :: k in db.outbox && k != id ==> after.outbox[k] == db.outbox[k])
            && after.outbox[id].report == entry.report && after.outbox[id].nextAttemptAt == at
            && var (next, twice) := (Backoff(after.outbox[id].deliveryAttempts), 2 * Backoff(entry.deliveryAttempts));
               next == if twice < OUTBOX_RETRY_MAX_MS then twice else OUTBOX_RETRY_MAX_MS
  {
    hide Backoff;
    BackoffDoubles(db.outbox[id].deliveryAttempts);
  }
}
