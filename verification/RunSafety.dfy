/** What every run of the remote-run protocol keeps. */
module RunSafety {
  import opened Wrappers
  import opened RunClaims
  import opened RunProtocol

  /** The statuses ever enqueued for one attempt, in order. */
  ghost function History(log: seq<Report>, run: string, attempt: nat): seq<Status>
  {
    if log == [] then [] else
      var last := log[|log| - 1];
      History(log[..|log| - 1], run, attempt)
      + if last.runId == run && last.attempt == attempt then [last.status] else []
  }

  /** What an attempt in a given state has reported so far. */
  ghost predicate Fits(h: seq<Status>, s: RunState)
  {
    match s
    case Claimed => h == []
    case Running => h == [ReportRunning]
    case NeedsApproval => h == [ReportNeedsApproval]
    case Terminal =>
      h == [ReportFailed] || h == [ReportCancelled] || h == [ReportNeedsApproval, ReportCancelled]
      || (|h| == 2 && h[0] == ReportRunning && IsTerminal(h[1]))
  }

  ghost predicate Orderly(h: seq<Status>) { exists s :: Fits(h, s) }

  /** What the log says about one attempt, given the stored row. */
  ghost predicate LogAt(db: Db, run: string, attempt: nat)
  {
    var h := History(db.log, run, attempt);
    Orderly(h)
    && (run in db.runs && db.runs[run].attempt == attempt ==> Fits(h, db.runs[run].state))
    && ((run in db.runs ==> db.runs[run].attempt < attempt) ==> h == [])
  }

  ghost predicate LogOk(db: Db) { forall run, attempt :: LogAt(db, run, attempt) }

  ghost predicate RunsOk(db: Db)
  {
    forall run :: run in db.runs ==>
      ValidAttempt(db.runs[run].attempt)
      && (db.runs[run].task.Some? ==> db.runs[run].task.value in db.tasks)
      && (db.runs[run].state == Running ==> db.runs[run].task.Some?)
      && (db.runs[run].state == Claimed ==> db.runs[run].task.None?)
  }

  /** Every enqueued report waits in the outbox or was acknowledged, and nothing else does. */
  ghost predicate OutboxOk(db: Db)
  {
    (forall id :: id in db.outbox ==> id < db.nextOutboxId && db.outbox[id].report in db.log)
    && (forall i, j :: i in db.outbox && j in db.outbox && db.outbox[i].report == db.outbox[j].report ==> i == j)
    && (forall r :: r in db.log ==> Pending(db, r) || r in db.delivered)
    && (forall r :: r in db.delivered ==> r in db.log)
  }

  ghost predicate PhaseOk(sys: System)
  {
    match sys.phase
    case Processing(rs) => IsPendingList(sys.db, rs)
    case Completing(cs) =>
      (forall i, j :: 0 <= i < j < |cs| ==> cs[i].runId != cs[j].runId)
      && forall i :: 0 <= i < |cs| ==>
           cs[i].runId in sys.db.runs && sys.db.runs[cs[i].runId].attempt == cs[i].attempt
           && sys.db.runs[cs[i].runId].state == Running
    case _ => true
  }

  ghost predicate Inv(sys: System)
  {
    LogOk(sys.db) && RunsOk(sys.db) && OutboxOk(sys.db) && PhaseOk(sys)
  }

  /** How the row of a run may change. */
  predicate Forward(before: RemoteRun, after: RemoteRun)
  {
    before.attempt < after.attempt
    || (before.attempt == after.attempt
        && (before.state == after.state || before.state == Claimed
            || (before.state != Terminal && after.state == Terminal)))
  }

  ghost predicate Progress(before: Db, after: Db)
  {
    before.log <= after.log && before.delivered <= after.delivered
    && forall run :: run in before.runs ==> run in after.runs && Forward(before.runs[run], after.runs[run])
  }

  // ----- Enqueueing -----

  lemma HistorySnoc(log: seq<Report>, r: Report, run: string, attempt: nat)
    ensures History(log + [r], run, attempt)
         == History(log, run, attempt) + if r.runId == run && r.attempt == attempt then [r.status] else []
  {
    assert (log + [r])[..|log|] == log;
  }

  lemma {:induction false} InHistory(log: seq<Report>, r: Report)
    requires r in log
    ensures r.status in History(log, r.runId, r.attempt)
  {
    var n := |log| - 1;
    if log[n] != r {
      assert r in log[..n];
      InHistory(log[..n], r);
    }
  }

  /** The gate every caller passes: the report fits what the attempt has reported so far. */
  ghost predicate Gated(run: RemoteRun, s: Status)
  {
    match s
    case ReportRunning => run.state == Claimed
    case ReportNeedsApproval => run.state == Claimed
    case ReportSucceeded => run.state == Running
    case ReportFailed => run.state == Claimed || run.state == Running
    case ReportCancelled => run.state != Terminal
  }

  lemma FitsNext(h: seq<Status>, run: RemoteRun, s: Status)
    requires Fits(h, run.state) && Gated(run, s)
    ensures Fits(h + [s], StateOf(s)) && s !in h
  {}

  /** A gated report is never a duplicate, so the insertion is never ignored. */
  lemma GatedIsNew(db: Db, report: Report)
    requires LogOk(db) && OutboxOk(db) && report.runId in db.runs && db.runs[report.runId].attempt == report.attempt
    requires Gated(db.runs[report.runId], report.status)
    ensures report !in db.log && !Pending(db, report)
  {
    assert LogAt(db, report.runId, report.attempt);
    FitsNext(History(db.log, report.runId, report.attempt), db.runs[report.runId], report.status);
    if report in db.log { InHistory(db.log, report); }
  }

  lemma EnqueueOutbox(db: Db, before: Db, report: Report, now: nat)
    requires OutboxOk(before) && !Pending(before, report)
    requires db.outbox == before.outbox && db.nextOutboxId == before.nextOutboxId && db.log == before.log
    requires db.delivered == before.delivered
    ensures OutboxOk(Enqueue(db, report, now)) && Pending(Enqueue(db, report, now), report)
  {
    var after := Enqueue(db, report, now);
    assert after.outbox[db.nextOutboxId].report == report;
    forall r | r in after.log ensures Pending(after, r) || r in after.delivered {
      if r != report {
        assert r in before.log;
        if Pending(before, r) {
          var id :| id in before.outbox && before.outbox[id].report == r;
          assert after.outbox[id].report == r;
        }
      }
    }
  }

  lemma EnqueueLog(before: Db, after: Db, report: Report, row: RemoteRun)
    requires LogOk(before) && report.runId in before.runs && before.runs[report.runId].attempt == report.attempt
    requires Gated(before.runs[report.runId], report.status)
    requires row.attempt == report.attempt && row.state == StateOf(report.status)
    requires after.runs == before.runs[report.runId := row] && after.log == before.log + [report]
    ensures LogOk(after)
  {
    hide Fits;
    forall run, attempt ensures LogAt(after, run, attempt) {
      assert LogAt(before, run, attempt);
      HistorySnoc(before.log, report, run, attempt);
      if run == report.runId && attempt == report.attempt {
        FitsNext(History(before.log, run, attempt), before.runs[run], report.status);
        assert Fits(History(after.log, run, attempt), row.state);
      } else {
        assert History(after.log, run, attempt) == History(before.log, run, attempt);
      }
    }
  }

  // ----- Each kind of step -----

  ghost predicate DbOk(db: Db) { LogOk(db) && RunsOk(db) && OutboxOk(db) }

  /** Changes of the task table alone: no task is forgotten. */
  lemma TasksChange(before: Db, after: Db)
    requires DbOk(before) && before.tasks.Keys <= after.tasks.Keys && after == before.(tasks := after.tasks)
    ensures DbOk(after) && Progress(before, after)
  {
    forall run, attempt ensures LogAt(after, run, attempt) {
      assert LogAt(before, run, attempt);
    }
  }

  lemma RunsChange(before: Db, after: Db, run: string, row: RemoteRun)
    requires RunsOk(before) && run in before.runs && row.attempt == before.runs[run].attempt
    requires row.task.Some? ==> row.task.value in before.tasks
    requires row.state == Running ==> row.task.Some?
    requires row.state != Claimed
    requires after.runs == before.runs[run := row] && after.tasks == before.tasks
    ensures RunsOk(after)
  {}

  lemma EnqueueStep(db: Db, report: Report, row: RemoteRun, now: nat)
    requires DbOk(db) && report.runId in db.runs && db.runs[report.runId].attempt == report.attempt == row.attempt
    requires Gated(db.runs[report.runId], report.status) && row.state == StateOf(report.status)
    requires row.task.Some? ==> row.task.value in db.tasks
    requires row.state == Running ==> row.task.Some?
    ensures var after := Enqueue(db.(runs := db.runs[report.runId := row]), report, now);
            DbOk(after) && Progress(db, after) && after.tasks == db.tasks && after.runs == db.runs[report.runId := row]
  {
    hide LogOk, RunsOk, OutboxOk, Pending;
    var marked := db.(runs := db.runs[report.runId := row]);
    var after := Enqueue(marked, report, now);
    GatedIsNew(db, report);
    EnqueueOutbox(marked, db, report, now);
    EnqueueLog(db, after, report, row);
    RunsChange(db, after, report.runId, row);
  }

  lemma ReportStep(db: Db, report: Report, now: nat)
    requires DbOk(db) && report.runId in db.runs && db.runs[report.runId].attempt == report.attempt
    requires Gated(db.runs[report.runId], report.status) && report.status != ReportRunning
    ensures EnqueueReport(db, report, now).Some?
    ensures var after := EnqueueReport(db, report, now).value;
            DbOk(after) && Progress(db, after) && after.tasks == db.tasks
            && after.runs == db.runs[report.runId := db.runs[report.runId].(state := StateOf(report.status))]
  {
    hide LogOk, OutboxOk, Enqueue;
    EnqueueStep(db, report, db.runs[report.runId].(state := StateOf(report.status)), now);
  }

  lemma BindStep(db: Db, run: string, attempt: nat, task: string, now: nat)
    requires DbOk(db) && run in db.runs && db.runs[run].attempt == attempt && db.runs[run].state == Claimed
    requires task in db.tasks
    ensures Bind(db, run, attempt, task, now).Some?
    ensures var after := Bind(db, run, attempt, task, now).value;
            DbOk(after) && Progress(db, after) && after.tasks == db.tasks
            && after.runs == db.runs[run := db.runs[run].(task := Some(task), state := Running)]
  {
    hide LogOk, OutboxOk, Enqueue;
    EnqueueStep(db, Report(run, attempt, ReportRunning), db.runs[run].(task := Some(task), state := Running), now);
  }

  lemma ClaimStep(db: Db, c: Claim, now: nat)
    requires DbOk(db) && ValidAttempt(c.intent.attempt)
    ensures var after := RecordClaim(db, c, now).1;
            DbOk(after) && Progress(db, after)
  {
    var after := RecordClaim(db, c, now).1;
    forall r, a ensures LogAt(after, r, a) {
      assert LogAt(db, r, a);
      if r == c.intent.runId && a == c.intent.attempt { assert Fits([], Claimed); }
    }
  }

  lemma AckStep(db: Db, id: nat)
    requires DbOk(db)
    ensures DbOk(Acknowledge(db, id)) && Progress(db, Acknowledge(db, id))
  {
    var after := Acknowledge(db, id);
    forall r, a ensures LogAt(after, r, a) { assert LogAt(db, r, a); }
    if id in db.outbox {
      forall r | r in after.log ensures Pending(after, r) || r in after.delivered {
        if r in db.delivered {
          assert r in after.delivered;
        } else {
          var i :| i in db.outbox && db.outbox[i].report == r;
          if i == id { assert after.delivered[|db.delivered|] == r; } else { assert after.outbox[i].report == r; }
        }
      }
    }
  }

  lemma RetryStep(db: Db, id: nat, at: nat)
    requires DbOk(db)
    ensures DbOk(Retry(db, id, at)) && Progress(db, Retry(db, id, at))
  {
    var after := Retry(db, id, at);
    forall r, a ensures LogAt(after, r, a) { assert LogAt(db, r, a); }
    forall r | r in after.log ensures Pending(after, r) || r in after.delivered {
      if Pending(db, r) {
        var i :| i in db.outbox && db.outbox[i].report == r;
        assert after.outbox[i].report == r;
      }
    }
  }

  lemma ControlStep(sys: System, stops: bool, reports: bool, now: nat)
    requires Inv(sys) && Enabled(sys, ApplyControl(stops, reports, now))
    ensures Inv(Step(sys, ApplyControl(stops, reports, now)))
    ensures Progress(sys.db, Step(sys, ApplyControl(stops, reports, now)).db)
  {
    hide LogOk, RunsOk, OutboxOk;
    var db, c := sys.db, sys.phase.controls[0];
    if c.runId in db.runs && db.runs[c.runId].attempt == c.attempt && db.runs[c.runId].state != Terminal {
      var task := db.runs[c.runId].task;
      var stopped := if task.Some? then StopTask(db, task.value, now) else db;
      TasksChange(db, stopped);
      ReportStep(stopped, Report(c.runId, c.attempt, ReportCancelled), now);
    }
  }

  lemma CompleteStep(sys: System, reports: bool, now: nat)
    requires Inv(sys) && Enabled(sys, ReportCompleted(reports, now))
    ensures Inv(Step(sys, ReportCompleted(reports, now)))
    ensures Progress(sys.db, Step(sys, ReportCompleted(reports, now)).db)
  {
    hide LogOk, RunsOk, OutboxOk;
    var c := sys.phase.completions[0];
    ReportStep(sys.db, Report(c.runId, c.attempt, CompletionStatus(c.ended)), now);
  }

  lemma ProcessStep(sys: System, o: Outcome, now: nat)
    requires Inv(sys) && Enabled(sys, Process(o, now))
    ensures Inv(Step(sys, Process(o, now)))
    ensures Progress(sys.db, Step(sys, Process(o, now)).db)
  {
    hide LogOk, RunsOk, OutboxOk, EnqueueReport, Bind;
    var db, r := sys.db, sys.phase.remotes[0];
    assert IsClaimed(db, r);
    if o.Started? {
      StartStep(db, r, o.task, o.status, now);
    } else if o.NotBound? || o.WebUi? {
      TasksChange(db, SetTask(db, o.task, Stopped(now)));
    }
    ReportStep(db, Report(r.runId, r.attempt, ReportNeedsApproval), now);
    ReportStep(db, Report(r.runId, r.attempt, ReportFailed), now);
    if o.WebUi? { ReportStep(SetTask(db, o.task, Stopped(now)), Report(r.runId, r.attempt, ReportNeedsApproval), now); }
  }

  lemma StartStep(db: Db, r: Remote, task: string, status: TaskStatus, now: nat)
    requires DbOk(db) && IsClaimed(db, r)
    ensures var bound := Bind(SetTask(db, task, status), r.runId, r.attempt, task, now);
            bound.Some? && DbOk(bound.value) && Progress(db, bound.value)
            && bound.value.runs == db.runs[r.runId := db.runs[r.runId].(task := Some(task), state := Running)]
  {
    hide LogOk, RunsOk, OutboxOk, Bind;
    TasksChange(db, SetTask(db, task, status));
    BindStep(SetTask(db, task, status), r.runId, r.attempt, task, now);
  }

  /** Every step keeps the invariant, and no run or log ever moves back. */
  lemma StepKeepsInv(sys: System, ev: Event)
    requires Inv(sys) && Enabled(sys, ev)
    ensures Inv(Step(sys, ev)) && Progress(sys.db, Step(sys, ev).db)
  {
    hide LogOk, RunsOk, OutboxOk;
    match ev
    case ApplyControl(stops, reports, now) => ControlStep(sys, stops, reports, now);
    case ReportCompleted(reports, now) => CompleteStep(sys, reports, now);
    case Process(o, now) => ProcessStep(sys, o, now);
    case ClaimRun(c, now) => ClaimStep(sys.db, c, now);
    case Ack(id) => AckStep(sys.db, id);
    case RetryLater(id, at) => RetryStep(sys.db, id, at);
    case _ => TasksChange(sys.db, Step(sys, ev).db);
  }

  lemma StartOk()
    ensures Inv(START)
  {
    forall run, attempt ensures LogAt(START.db, run, attempt) {
      assert Fits(History(START.db.log, run, attempt), Claimed);
    }
  }

  lemma ForwardTransitive(a: Db, b: Db, c: Db)
    requires Progress(a, b) && Progress(b, c)
    ensures Progress(a, c)
  {}

  lemma {:induction false} RunKeepsInv(sys: System, evs: seq<Event>)
    requires Inv(sys) && CanRun(sys, evs)
    ensures Inv(Run(sys, evs)) && Progress(sys.db, Run(sys, evs).db)
    decreases |evs|
  {
    hide Inv, Enabled, Step;
    if evs != [] {
      StepKeepsInv(sys, evs[0]);
      RunKeepsInv(Step(sys, evs[0]), evs[1..]);
      ForwardTransitive(sys.db, Step(sys, evs[0]).db, Run(sys, evs).db);
    }
  }

  // ----- What a reader of the protocol can rely on -----

  ghost predicate NoRepeat(h: seq<Status>)
  {
    forall i, j :: 0 <= i < j < |h| ==> h[i] != h[j] && !(IsTerminal(h[i]) && IsTerminal(h[j]))
  }

  ghost predicate TerminalLast(h: seq<Status>) { forall i :: 0 <= i < |h| - 1 ==> !IsTerminal(h[i]) }

  lemma OrderlyMeans(h: seq<Status>)
    requires Orderly(h)
    ensures NoRepeat(h) && TerminalLast(h) && !(ReportRunning in h && ReportNeedsApproval in h)
  {}

  /**
   In every reachable state: no attempt has reported twice or after its terminal report; a run is
   terminal exactly when its attempt has reported so; a running one has its task; and a report
   waits in the outbox, once, until it is acknowledged.
   */
  lemma EveryRunIsSafe(evs: seq<Event>)
    requires CanRun(START, evs)
    ensures var db := Run(START, evs).db;
      (forall run, attempt :: NoRepeat(History(db.log, run, attempt)) && TerminalLast(History(db.log, run, attempt)))
      && (forall run :: run in db.runs ==>
            var h := History(db.log, run, db.runs[run].attempt);
            (db.runs[run].state == Terminal <==> exists s :: s in h && IsTerminal(s))
            && (db.runs[run].state == Running ==> db.runs[run].task.Some? && db.runs[run].task.value in db.tasks))
      && OutboxOk(db)
  {
    StartOk();
    RunKeepsInv(START, evs);
    var db := Run(START, evs).db;
    forall run, attempt
      ensures NoRepeat(History(db.log, run, attempt)) && TerminalLast(History(db.log, run, attempt))
    {
      assert LogAt(db, run, attempt);
      OrderlyMeans(History(db.log, run, attempt));
    }
    forall run | run in db.runs
      ensures db.runs[run].state == Terminal <==>
          exists s :: s in History(db.log, run, db.runs[run].attempt) && IsTerminal(s)
    {
      assert LogAt(db, run, db.runs[run].attempt);
      FitsTerminal(History(db.log, run, db.runs[run].attempt), db.runs[run].state);
    }
  }

  lemma FitsTerminal(h: seq<Status>, s: RunState)
    requires Fits(h, s)
    ensures s == Terminal <==> exists x :: x in h && IsTerminal(x)
  {
    if s == Terminal { assert h[|h| - 1] in h; }
  }

  /** From any reachable state on, attempts never decrease and an attempt's state only moves forward. */
  lemma EveryRunMovesForward(before: seq<Event>, evs: seq<Event>)
    requires CanRun(START, before) && CanRun(Run(START, before), evs)
    ensures Progress(Run(START, before).db, Run(Run(START, before), evs).db)
  {
    StartOk();
    RunKeepsInv(START, before);
    RunKeepsInv(Run(START, before), evs);
  }

  // ----- Exactly what the callers' gates are for -----

  lemma GateNeeded(h: seq<Status>, run: RemoteRun, s: Status)
    requires Fits(h, run.state) && Fits(h + [s], StateOf(s))
    ensures Gated(run, s)
  {
    var next := h + [s];
    assert next[|h|] == s && |next| == |h| + 1 && (h != [] ==> next[0] == h[0]);
  }

  /**
   The transaction itself stores any report for the stored attempt. It keeps the log in order exactly when the report
   passes its caller's gate, and keeps everything exactly when it also is not a running report, which only binding a
   task may make.
   */
  lemma ReportKeepsIff(db: Db, report: Report, now: nat)
    requires DbOk(db) && EnqueueReport(db, report, now).Some?
    ensures var after := EnqueueReport(db, report, now).value;
            var gated := Gated(db.runs[report.runId], report.status);
            (LogOk(after) <==> gated) && (DbOk(after) <==> gated && report.status != ReportRunning)
  {
    hide OutboxOk;
    var row := db.runs[report.runId];
    var after := EnqueueReport(db, report, now).value;
    assert after.log == db.log + [report]
        && after.runs == db.runs[report.runId := row.(state := StateOf(report.status))];
    HistorySnoc(db.log, report, report.runId, report.attempt);
    assert LogAt(db, report.runId, report.attempt);
    if LogOk(after) {
      assert LogAt(after, report.runId, report.attempt);
      GateNeeded(History(db.log, report.runId, report.attempt), row, report.status);
    }
    if Gated(row, report.status) {
      EnqueueLog(db, after, report, row.(state := StateOf(report.status)));
      if report.status != ReportRunning { ReportStep(db, report, now); }
    }
    assert RunsOk(after) ==> report.status != ReportRunning || !Gated(row, report.status);
  }

  /** The database alone overwrites even a terminal state, and then the log is out of order, whatever is reported. */
  lemma DatabaseAloneOverwrites(db: Db, report: Report, now: nat)
    requires DbOk(db) && report.runId in db.runs && db.runs[report.runId].attempt == report.attempt
    requires db.runs[report.runId].state == Terminal
    ensures var after := EnqueueReport(db, report, now);
            after.Some? && after.value.runs[report.runId].state == StateOf(report.status) && !LogOk(after.value)
  {
    hide LogOk, OutboxOk;
    ReportKeepsIff(db, report, now);
  }
}
