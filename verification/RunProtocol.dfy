/**
 The remote-run protocol as a state machine. A step is one database transaction of the agent's
 control-plane cycle, or something the outside world does between two of them: a local task ends,
 a user stops one, the agent restarts.
 */
module RunProtocol {
  import opened Wrappers
  import opened RunClaims
  import Schedules

  datatype RunState = Claimed | Running | NeedsApproval | Terminal

  datatype Status = ReportRunning | ReportSucceeded | ReportFailed | ReportCancelled | ReportNeedsApproval

  /** An ended task has the time at which it ended. */
  datatype TaskStatus =
    | Starting | Active
    | Succeeded(finishedAt: nat) | Failed(finishedAt: nat) | Stopped(finishedAt: nat)

  /** A row of the remote runs: the claim, without the run id that is its key, and where the run is. */
  datatype RemoteRun = RemoteRun(
    attempt: nat, requiresElevation: bool, task: Option<string>, state: RunState,
    appId: string, version: string, args: seq<string>, lease: Option<Schedules.Lease>, claimedAt: nat)

  /** The row a claim is stored as, and the claim a row stands for. */
  function ClaimedRow(c: Claim, now: nat): RemoteRun
  {
    RemoteRun(c.intent.attempt, c.intent.requiresElevation, None, Claimed, c.intent.appId, c.intent.version,
              c.intent.args, c.lease, now)
  }

  function ClaimOf(run: string, r: RemoteRun): Claim
  {
    Claim(RunIntent(run, r.attempt, r.appId, r.version, r.args, r.requiresElevation), r.lease)
  }

  datatype Report = Report(runId: string, attempt: nat, status: Status)

  datatype OutboxEntry = OutboxEntry(report: Report, nextAttemptAt: nat, deliveryAttempts: nat)

  /** The tables; `log` and `delivered` record the reports ever enqueued and ever acknowledged. */
  datatype Db = Db(
    runs: map<string, RemoteRun>,
    tasks: map<string, TaskStatus>,
    outbox: map<nat, OutboxEntry>,
    nextOutboxId: nat,
    log: seq<Report>,
    delivered: seq<Report>)

  const EMPTY: Db := Db(map[], map[], map[], 0, [], [])

  predicate IsTerminal(s: Status) { s == ReportSucceeded || s == ReportFailed || s == ReportCancelled }

  predicate IsActive(t: TaskStatus) { t == Starting || t == Active }

  predicate ValidAttempt(attempt: nat) { 0 < attempt <= MAX_SAFE_INTEGER }

  // ----- Database transactions; `None` is an error, which changes nothing -----

  /** Inserts a claim, or replaces one of an earlier attempt. */
  function RecordClaim(db: Db, c: Claim, now: nat): (bool, Db)
  {
    var run := c.intent.runId;
    if run in db.runs && c.intent.attempt <= db.runs[run].attempt then (false, db)
    else (true, db.(runs := db.runs[run := ClaimedRow(c, now)]))
  }

  predicate Pending(db: Db, report: Report)
  {
    exists id :: id in db.outbox && db.outbox[id].report == report
  }

  /** `INSERT OR IGNORE` under the uniqueness of (run, attempt, status). */
  function Enqueue(db: Db, report: Report, now: nat): Db
  {
    var logged := db.(log := db.log + [report]);
    if Pending(db, report) then logged
    else logged.(outbox := db.outbox[db.nextOutboxId := OutboxEntry(report, now, 0)],
        nextOutboxId := db.nextOutboxId + 1)
  }

  function Bind(db: Db, run: string, attempt: nat, task: string, now: nat): Option<Db>
  {
    if !ValidAttempt(attempt) || run !in db.runs || db.runs[run].attempt != attempt || db.runs[run].state != Claimed
    then None
    else
      Some(Enqueue(db.(runs := db.runs[run := db.runs[run].(task := Some(task), state := Running)]),
                   Report(run, attempt, ReportRunning), now))
  }

  function StateOf(s: Status): RunState
  {
    match s
    case ReportRunning => Running
    case ReportNeedsApproval => NeedsApproval
    case _ => Terminal
  }

  /** Overwrites the state of the attempt, whatever it was. */
  function EnqueueReport(db: Db, report: Report, now: nat): Option<Db>
  {
    if !ValidAttempt(report.attempt) || report.runId !in db.runs || db.runs[report.runId].attempt != report.attempt
    then None
    else
      Some(Enqueue(db.(runs := db.runs[report.runId := db.runs[report.runId].(state := StateOf(report.status))]),
          report, now))
  }

  function Acknowledge(db: Db, id: nat): Db
  {
    if id !in db.outbox then db
    else db.(outbox := db.outbox - {id}, delivered := db.delivered + [db.outbox[id].report])
  }

  function Retry(db: Db, id: nat, at: nat): Db
  {
    if id !in db.outbox then db
    else
      var entry := db.outbox[id];
      db.(outbox := db.outbox[id := entry.(nextAttemptAt := at, deliveryAttempts := entry.deliveryAttempts + 1)])
  }

  function SetTask(db: Db, task: string, status: TaskStatus): Db { db.(tasks := db.tasks[task := status]) }

  /** `stop`: only a task that has not ended becomes stopped. */
  function StopTask(db: Db, task: string, now: nat): Db
  {
    if task in db.tasks && IsActive(db.tasks[task]) then SetTask(db, task, Stopped(now)) else db
  }

  function FailInterrupted(db: Db, now: nat): Db
  {
    db.(tasks := map t | t in db.tasks :: if IsActive(db.tasks[t]) then Failed(now) else db.tasks[t])
  }

  // ----- The cycle -----

  datatype Control = Control(runId: string, attempt: nat)

  datatype Completion = Completion(runId: string, attempt: nat, ended: TaskStatus)

  datatype Remote = Remote(runId: string, attempt: nat, requiresElevation: bool)

  /** The part of a work list the cycle has yet to handle. */
  datatype Phase =
    | Idle
    | Controlling(controls: seq<Control>)
    | Completing(completions: seq<Completion>)
    | Processing(remotes: seq<Remote>)

  datatype System = System(db: Db, phase: Phase)

  const START: System := System(EMPTY, Idle)

  /** `completed_remote_runs`: every running run whose task has ended, once, in some order. */
  ghost predicate IsCompletedList(db: Db, cs: seq<Completion>)
  {
    (forall i, j :: 0 <= i < j < |cs| ==> cs[i].runId != cs[j].runId)
    && (forall i :: 0 <= i < |cs| ==> HasEnded(db, cs[i]))
    && (forall run :: run in db.runs && Ended(db, run) ==> exists i :: 0 <= i < |cs| && cs[i].runId == run)
  }

  predicate Ended(db: Db, run: string)
    requires run in db.runs
  {
    var r := db.runs[run];
    r.state == Running && r.task.Some? && r.task.value in db.tasks && !IsActive(db.tasks[r.task.value])
  }

  predicate HasEnded(db: Db, c: Completion)
  {
    c.runId in db.runs && Ended(db, c.runId) && c.attempt == db.runs[c.runId].attempt
    && c.ended == db.tasks[db.runs[c.runId].task.value]
  }

  /** Claimed runs, each at most once; the ones whose lease no longer verifies are left out. */
  ghost predicate IsPendingList(db: Db, rs: seq<Remote>)
  {
    (forall i, j :: 0 <= i < j < |rs| ==> rs[i].runId != rs[j].runId)
    && forall i :: 0 <= i < |rs| ==> IsClaimed(db, rs[i])
  }

  predicate IsClaimed(db: Db, r: Remote)
  {
    r.runId in db.runs && db.runs[r.runId].attempt == r.attempt
    && db.runs[r.runId].requiresElevation == r.requiresElevation && db.runs[r.runId].state == Claimed
  }

  /** How handling one pending run turns out. */
  datatype Outcome =
    | Foreground
    | Unavailable
    | Started(task: string, status: TaskStatus)
    | NotBound(task: string)
    | WebUi(task: string)
    | NotStarted
    | NotReported

  datatype Event =
    | FetchControls(controls: seq<Control>)
    | ApplyControl(stops: bool, reports: bool, now: nat)
    | LoadCompleted(completions: seq<Completion>)
    | ReportCompleted(reports: bool, now: nat)
    | LoadPending(remotes: seq<Remote>)
    | Process(outcome: Outcome, now: nat)
    | Finish
    | ClaimRun(claim: Claim, now: nat)
    | Ack(id: nat)
    | RetryLater(id: nat, at: nat)
    | LocalRun(task: string)
    | TaskEnds(task: string, status: TaskStatus)
    | UserStops(task: string, now: nat)
    | Restart(now: nat)

  /** What the code and its environment can do next. */
  ghost predicate Enabled(sys: System, ev: Event)
  {
    match ev
    case FetchControls(_) => sys.phase == Idle
    case ApplyControl(_, _, _) => sys.phase.Controlling? && sys.phase.controls != []
    case LoadCompleted(cs) => sys.phase == Idle && IsCompletedList(sys.db, cs)
    case ReportCompleted(_, _) => sys.phase.Completing? && sys.phase.completions != []
    case LoadPending(rs) => sys.phase == Idle && IsPendingList(sys.db, rs)
    case Process(o, _) =>
      sys.phase.Processing? && sys.phase.remotes != []
      && ((o.Started? || o.NotBound? || o.WebUi?) ==> o.task !in sys.db.tasks)
    case ClaimRun(c, _) => sys.phase == Idle && ValidAttempt(c.intent.attempt)
    case Ack(_) => sys.phase == Idle
    case RetryLater(_, _) => sys.phase == Idle
    case LocalRun(task) => task !in sys.db.tasks
    case TaskEnds(task, status) => task in sys.db.tasks && IsActive(sys.db.tasks[task]) && !IsActive(status)
    case UserStops(_, _) => true
    case Finish => true
    case Restart(_) => true
  }

  /** A report that cannot be stored ends the work list. */
  function Reported(db: Db, report: Report, now: nat, rest: Phase): System
  {
    match EnqueueReport(db, report, now)
    case Some(after) => System(after, rest)
    case None => System(db, Idle)
  }

  function ApplyOne(db: Db, cs: seq<Control>, stops: bool, reports: bool, now: nat): System
    requires cs != []
  {
    var c, rest := cs[0], Controlling(cs[1..]);
    if c.runId !in db.runs || db.runs[c.runId].attempt != c.attempt || db.runs[c.runId].state == Terminal
    then System(db, rest)
    else
      var task := db.runs[c.runId].task;
      if task.Some? && !stops then System(db, Idle)
      else
        var stopped := if task.Some? then StopTask(db, task.value, now) else db;
        if !reports then System(stopped, Idle)
        else Reported(stopped, Report(c.runId, c.attempt, ReportCancelled), now, rest)
  }

  function CompletionStatus(ended: TaskStatus): Status { if ended.Succeeded? then ReportSucceeded else ReportFailed }

  function CompleteOne(db: Db, cs: seq<Completion>, reports: bool, now: nat): System
    requires cs != []
  {
    var c := cs[0];
    if !reports then System(db, Idle)
    else Reported(db, Report(c.runId, c.attempt, CompletionStatus(c.ended)), now, Completing(cs[1..]))
  }

  function ProcessOne(db: Db, rs: seq<Remote>, o: Outcome, now: nat): System
    requires rs != []
  {
    var r, rest := rs[0], Processing(rs[1..]);
    if o.NotReported? then System(db, Idle)
    else if r.requiresElevation then Reported(db, Report(r.runId, r.attempt, ReportNeedsApproval), now, rest)
    else
      match o
      case Foreground => Reported(db, Report(r.runId, r.attempt, ReportNeedsApproval), now, rest)
      case Unavailable => Reported(db, Report(r.runId, r.attempt, ReportFailed), now, rest)
      case NotStarted => Reported(db, Report(r.runId, r.attempt, ReportFailed), now, rest)
      case WebUi(task) =>
        Reported(SetTask(db, task, Stopped(now)), Report(r.runId, r.attempt, ReportNeedsApproval), now, rest)
      case NotBound(task) => System(SetTask(db, task, Stopped(now)), Idle)
      case Started(task, status) =>
        match Bind(SetTask(db, task, status), r.runId, r.attempt, task, now)
        case Some(after) => System(after, rest)
        case None => System(StopTask(SetTask(db, task, status), task, now), Idle)
  }

  ghost function Step(sys: System, ev: Event): System
    requires Enabled(sys, ev)
  {
    match ev
    case FetchControls(cs) => sys.(phase := Controlling(cs))
    case ApplyControl(stops, reports, now) => ApplyOne(sys.db, sys.phase.controls, stops, reports, now)
    case LoadCompleted(cs) => sys.(phase := Completing(cs))
    case ReportCompleted(reports, now) => CompleteOne(sys.db, sys.phase.completions, reports, now)
    case LoadPending(rs) => sys.(phase := Processing(rs))
    case Process(o, now) => ProcessOne(sys.db, sys.phase.remotes, o, now)
    case Finish => sys.(phase := Idle)
    case ClaimRun(c, now) => sys.(db := RecordClaim(sys.db, c, now).1)
    case Ack(id) => sys.(db := Acknowledge(sys.db, id))
    case RetryLater(id, at) => sys.(db := Retry(sys.db, id, at))
    case LocalRun(task) => sys.(db := SetTask(sys.db, task, Starting))
    case TaskEnds(task, status) => sys.(db := SetTask(sys.db, task, status))
    case UserStops(task, now) => sys.(db := StopTask(sys.db, task, now))
    case Restart(now) => System(FailInterrupted(sys.db, now), Idle)
  }

  ghost predicate CanRun(sys: System, evs: seq<Event>)
    decreases |evs|
  {
    evs != [] ==> Enabled(sys, evs[0]) && CanRun(Step(sys, evs[0]), evs[1..])
  }

  ghost function Run(sys: System, evs: seq<Event>): System
    requires CanRun(sys, evs)
    decreases |evs|
  {
    if evs == [] then sys else Run(Step(sys, evs[0]), evs[1..])
  }
}
