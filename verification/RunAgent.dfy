/**
 The agent's side of the remote-run protocol: the database transactions, and the loops of the
 control-plane cycle that call them. Each loop is shown to be a run of the state machine; what the
 outside world answers is chosen arbitrarily.
 */
module RunAgent {
  import opened Wrappers
  import opened Ordering
  import opened Unicode
  import opened Schedules
  import opened Outbox
  import opened RunClaims
  import opened RunProtocol

  lemma {:induction false} RunSnoc(sys: System, evs: seq<Event>, ev: Event)
    requires CanRun(sys, evs) && Enabled(Run(sys, evs), ev)
    ensures CanRun(sys, evs + [ev]) && Run(sys, evs + [ev]) == Step(Run(sys, evs), ev)
    decreases |evs|
  {
    hide Enabled, Step;
    if evs == [] {
      assert evs + [ev] == [ev] && [ev][1..] == [];
    } else {
      assert (evs + [ev])[1..] == evs[1..] + [ev];
      RunSnoc(Step(sys, evs[0]), evs[1..], ev);
    }
  }

  function DueReports(outbox: map<nat, OutboxEntry>, now: nat): set<nat>
  {
    set id | id in outbox && outbox[id].nextAttemptAt <= now
  }

  function IdKey(): nat -> Key { (id: nat) => [id] }

  function RunIds(cs: seq<Completion>): seq<string>
  {
    seq(|cs|, i requires 0 <= i < |cs| => cs[i].runId)
  }

  function PendingIds(rs: seq<Remote>): seq<string>
  {
    seq(|rs|, i requires 0 <= i < |rs| => rs[i].runId)
  }

  /** A running run whose task has ended. */
  predicate TaskEnded(runs: map<string, RemoteRun>, tasks: map<string, TaskStatus>, run: string)
  {
    run in runs && runs[run].state == Running && runs[run].task.Some? && runs[run].task.value in tasks
    && !IsActive(tasks[runs[run].task.value])
  }

  function FinishTime(runs: map<string, RemoteRun>, tasks: map<string, TaskStatus>, run: string): nat
  {
    if TaskEnded(runs, tasks, run) then tasks[runs[run].task.value].finishedAt else 0
  }

  function ClaimTime(runs: map<string, RemoteRun>, run: string): nat { if run in runs then runs[run].claimedAt else 0 }

  predicate IsCompletion(
    runs: map<string, RemoteRun>, tasks: map<string, TaskStatus>, c: Completion, run: string)
  {
    TaskEnded(runs, tasks, run) && c == Completion(run, runs[run].attempt, tasks[runs[run].task.value])
  }

  lemma EndedHasTask(runs: map<string, RemoteRun>, tasks: map<string, TaskStatus>, run: string)
    requires TaskEnded(runs, tasks, run)
    ensures run in runs && runs[run].task.Some? && runs[run].task.value in tasks
  {
  }

  lemma CompletedList(db: Db, ids: seq<string>, cs: seq<Completion>)
    requires StrictlySorted(ids, FinishKey(db.runs, db.tasks)) && |cs| == |ids|
    requires Elements(ids) == set run | run in db.runs && TaskEnded(db.runs, db.tasks, run)
    requires forall k :: 0 <= k < |ids| ==> IsCompletion(db.runs, db.tasks, cs[k], ids[k])
    ensures IsCompletedList(db, cs) && RunIds(cs) == ids
  {
    hide FinishKey;
    SortedApart(ids, FinishKey(db.runs, db.tasks));
    assert RunIds(cs) == ids;
    forall run | run in db.runs && Ended(db, run) ensures exists k :: 0 <= k < |cs| && cs[k].runId == run {
      assert run in Elements(ids);
      var k :| 0 <= k < |ids| && ids[k] == run;
      assert cs[k].runId == run;
    }
  }

  /** Ordering by a time and then by the run id, as SQLite compares it. */
  function TimeKey(time: string -> nat): string -> Key { (run: string) => [time(run)] + Encode(Utf8, run) }

  function FinishKey(runs: map<string, RemoteRun>, tasks: map<string, TaskStatus>): string -> Key
  {
    TimeKey(run => FinishTime(runs, tasks, run))
  }

  function ClaimKey(runs: map<string, RemoteRun>): string -> Key { TimeKey(run => ClaimTime(runs, run)) }

  lemma KeysApart(ids: set<string>, time: string -> nat)
    ensures InjectiveOn(ids, TimeKey(time))
  {
    forall x, y | x in ids && y in ids && TimeKey(time)(x) == TimeKey(time)(y) ensures x == y {
      assert TimeKey(time)(x)[1..] == Encode(Utf8, x) && TimeKey(time)(y)[1..] == Encode(Utf8, y);
      EncodeInjective(Utf8, x, y);
    }
  }

  lemma SortedApart(ids: seq<string>, key: string -> Key)
    requires StrictlySorted(ids, key)
    ensures forall i, j :: 0 <= i < j < |ids| ==> ids[i] != ids[j]
  {
    forall i, j | 0 <= i < j < |ids| ensures ids[i] != ids[j] {
      LessIrreflexive(key(ids[j]));
    }
  }

  function RemoteOf(run: string, r: RemoteRun): Remote { Remote(run, r.attempt, r.requiresElevation) }

  /** Of the listed runs, those that pass the checks, in order. */
  ghost function AuthorizedOf(world: World, a: Authority, runs: map<string, RemoteRun>, ids: seq<string>): seq<Remote>
  {
    if ids == [] then [] else
      var n := |ids| - 1;
      AuthorizedOf(world, a, runs, ids[..n])
      + if ids[n] in runs && Authorized(world, a, ClaimOf(ids[n], runs[ids[n]])) then [RemoteOf(ids[n], runs[ids[n]])]
        else []
  }

  lemma NothingAuthorized(world: World, a: Authority, runs: map<string, RemoteRun>)
    ensures AuthorizedOf(world, a, runs, []) == []
  {
  }

  lemma AuthorizedNext(world: World, a: Authority, runs: map<string, RemoteRun>, ids: seq<string>, n: nat)
    requires n < |ids| && ids[n] in runs
    ensures AuthorizedOf(world, a, runs, ids[..n + 1])
         == AuthorizedOf(world, a, runs, ids[..n])
            + if Authorized(world, a, ClaimOf(ids[n], runs[ids[n]])) then [RemoteOf(ids[n], runs[ids[n]])] else []
  {
    hide Authorized;
    assert ids[..n + 1][..n] == ids[..n];
  }

  lemma {:induction false} AuthorizedList(
    world: World, a: Authority, runs: map<string, RemoteRun>, ids: seq<string>, key: string -> Key)
    requires StrictlySorted(ids, key)
    ensures var rs := AuthorizedOf(world, a, runs, ids);
            StrictlySorted(PendingIds(rs), key)
            && (forall run :: run in PendingIds(rs) <==>
                  run in ids && run in runs && Authorized(world, a, ClaimOf(run, runs[run])))
            && forall i :: 0 <= i < |rs| ==> rs[i].runId in runs && rs[i] == RemoteOf(rs[i].runId, runs[rs[i].runId])
  {
    hide Authorized, Less;
    if ids != [] {
      var n := |ids| - 1;
      AuthorizedList(world, a, runs, ids[..n], key);
      assert ids == ids[..n] + [ids[n]];
      var was, rs := AuthorizedOf(world, a, runs, ids[..n]), AuthorizedOf(world, a, runs, ids);
      if ids[n] in runs && Authorized(world, a, ClaimOf(ids[n], runs[ids[n]])) {
        assert PendingIds(rs) == PendingIds(was) + [ids[n]];
        forall i | 0 <= i < |was| ensures Less(key(PendingIds(was)[i]), key(ids[n])) {
          assert PendingIds(was)[i] in ids[..n];
          var k :| 0 <= k < n && ids[..n][k] == PendingIds(was)[i];
          assert ids[k] == PendingIds(was)[i] && Less(key(ids[k]), key(ids[n]));
        }
        SortedSnoc(PendingIds(was), ids[n], key);
      } else {
        assert rs == was;
      }
    }
  }

  lemma SortedSnoc(xs: seq<string>, x: string, key: string -> Key)
    requires StrictlySorted(xs, key) && forall i :: 0 <= i < |xs| ==> Less(key(xs[i]), key(x))
    ensures StrictlySorted(xs + [x], key)
  {
    hide Less;
  }

  lemma PendingList(db: Db, rs: seq<Remote>)
    requires StrictlySorted(PendingIds(rs), ClaimKey(db.runs))
    requires forall i :: 0 <= i < |rs| ==>
        rs[i].runId in db.runs && rs[i] == RemoteOf(rs[i].runId, db.runs[rs[i].runId])
    requires forall run :: run in PendingIds(rs) ==> run in db.runs && db.runs[run].state == Claimed
    ensures IsPendingList(db, rs)
  {
    hide ClaimKey;
    SortedApart(PendingIds(rs), ClaimKey(db.runs));
    forall i | 0 <= i < |rs| ensures IsClaimed(db, rs[i]) {
      assert PendingIds(rs)[i] == rs[i].runId;
    }
    forall i, j | 0 <= i < j < |rs| ensures rs[i].runId != rs[j].runId {
      assert PendingIds(rs)[i] != PendingIds(rs)[j];
    }
  }

  lemma ValidClaimAttempt(world: World, c: Claim)
    requires ClaimValid(world, c)
    ensures ValidAttempt(c.intent.attempt)
  {
  }

  /** The report that a completed run calls for: succeeded exactly when its task did, and failed otherwise. */
  predicate Completes(c: Completion, report: Report)
  {
    report.runId == c.runId && report.attempt == c.attempt
    && (report.status == ReportSucceeded <==> c.ended.Succeeded?)
    && (report.status == ReportFailed <==> !c.ended.Succeeded?)
  }

  /** The log has gained the reports of the first `n` completions, in their order. */
  ghost predicate Logged(before: seq<Report>, log: seq<Report>, cs: seq<Completion>, n: nat)
  {
    n <= |cs| && |log| == |before| + n && before <= log
    && forall k :: 0 <= k < n ==> Completes(cs[k], log[|before| + k])
  }

  lemma LoggedNext(before: seq<Report>, log: seq<Report>, cs: seq<Completion>, n: nat, report: Report)
    requires Logged(before, log, cs, n) && n < |cs|
    requires report == Report(cs[n].runId, cs[n].attempt, CompletionStatus(cs[n].ended))
    ensures Logged(before, log + [report], cs, n + 1)
  {
  }

  /** While completions are reported no run starts running again, and the reported ones are over. */
  ghost predicate Settling(from: Db, runs: map<string, RemoteRun>, cs: seq<Completion>, n: nat)
  {
    n <= |cs| && runs.Keys == from.runs.Keys
    && (forall run :: run in runs ==>
          runs[run].task == from.runs[run].task
          && (runs[run].state == Running ==> from.runs[run].state == Running))
    && forall k :: 0 <= k < n ==> cs[k].runId in runs && runs[cs[k].runId].state == Terminal
  }

  lemma SettlingFirst(from: Db, cs: seq<Completion>)
    ensures Settling(from, from.runs, cs, 0) && Logged(from.log, from.log, cs, 0)
  {
  }

  lemma SettlingNext(from: Db, runs: map<string, RemoteRun>, cs: seq<Completion>, n: nat)
    requires Settling(from, runs, cs, n) && n < |cs|
    ensures cs[n].runId in runs ==>
        Settling(from, runs[cs[n].runId := runs[cs[n].runId].(state := Terminal)], cs, n + 1)
  {
  }

  lemma SettlingEnds(from: Db, db: Db, cs: seq<Completion>)
    requires IsCompletedList(from, cs) && Settling(from, db.runs, cs, |cs|) && db.tasks == from.tasks
    ensures forall run :: run in db.runs ==> !Ended(db, run)
  {
    forall run | run in db.runs ensures !Ended(db, run) {
      assert Ended(db, run) ==> Ended(from, run);
    }
  }

  lemma CompletionsLoad(sys: System, cs: seq<Completion>)
    requires sys.phase == Idle && IsCompletedList(sys.db, cs)
    ensures Enabled(sys, LoadCompleted(cs)) && Step(sys, LoadCompleted(cs)) == sys.(phase := Completing(cs))
  {
  }

  lemma CompletionStep(db: Db, cs: seq<Completion>, reports: bool, now: nat)
    requires cs != []
    ensures var (sys, ev) := (System(db, Completing(cs)), ReportCompleted(reports, now));
            var report := Report(cs[0].runId, cs[0].attempt, CompletionStatus(cs[0].ended));
            Enabled(sys, ev)
            && Step(sys, ev) == if !reports then System(db, Idle) else Reported(db, report, now, Completing(cs[1..]))
  {
  }

  lemma FinishStep(db: Db, phase: Phase)
    ensures Enabled(System(db, phase), Finish) && Step(System(db, phase), Finish) == System(db, Idle)
  {
  }

  class Agent {
    var runs: map<string, RemoteRun>
    var tasks: map<string, TaskStatus>
    var outbox: map<nat, OutboxEntry>
    var nextOutboxId: nat
    ghost var log: seq<Report>
    ghost var delivered: seq<Report>

    ghost function Tables(): Db
      reads this
    {
      Db(runs, tasks, outbox, nextOutboxId, log, delivered)
    }

    constructor ()
      ensures Tables() == EMPTY
    {
      runs, tasks, outbox, nextOutboxId, log, delivered := map[], map[], map[], 0, [], [];
    }

    // ----- Transactions -----

    /** An invalid claim is refused; the answer to a valid one is whether it was stored. */
    method RecordRemoteClaim(world: World, c: Claim, now: nat) returns (r: Option<bool>)
      modifies this
      ensures r.Some? <==> ClaimValid(world, c)
      ensures if r.Some? then (r.value, Tables()) == RecordClaim(old(Tables()), c, now) else Tables() == old(Tables())
    {
      var valid := ValidateClaim(world, c);
      if !valid { return None; }
      var run := c.intent.runId;
      var changed := run !in runs || c.intent.attempt > runs[run].attempt;
      if changed { runs := runs[run := ClaimedRow(c, now)]; }
      r := Some(changed);
    }

    method InsertOrIgnore(report: Report, now: nat)
      modifies this
      ensures Tables() == Enqueue(old(Tables()), report, now)
    {
      log := log + [report];
      if !(exists id :: id in outbox && outbox[id].report == report) {
        outbox := outbox[nextOutboxId := OutboxEntry(report, now, 0)];
        nextOutboxId := nextOutboxId + 1;
      }
    }

    method BindRemoteTaskAndEnqueueRunning(run: string, attempt: nat, task: string, now: nat) returns (ok: bool)
      modifies this
      ensures ok == Bind(old(Tables()), run, attempt, task, now).Some?
      ensures Tables() == if ok then Bind(old(Tables()), run, attempt, task, now).value else old(Tables())
    {
      hide Enqueue;
      if !ValidAttempt(attempt) || run !in runs || runs[run].attempt != attempt || runs[run].state != Claimed {
        return false;
      }
      runs := runs[run := runs[run].(task := Some(task), state := Running)];
      InsertOrIgnore(Report(run, attempt, ReportRunning), now);
      ok := true;
    }

    method EnqueueRunReport(report: Report, now: nat) returns (ok: bool)
      modifies this
      ensures ok == EnqueueReport(old(Tables()), report, now).Some?
      ensures Tables() == if ok then EnqueueReport(old(Tables()), report, now).value else old(Tables())
    {
      hide Enqueue;
      if !ValidAttempt(report.attempt) || report.runId !in runs || runs[report.runId].attempt != report.attempt {
        return false;
      }
      runs := runs[report.runId := runs[report.runId].(state := StateOf(report.status))];
      InsertOrIgnore(report, now);
      ok := true;
    }

    method AcknowledgeRunReport(id: nat)
      modifies this
      ensures Tables() == Acknowledge(old(Tables()), id)
    {
      if id in outbox {
        delivered := delivered + [outbox[id].report];
        outbox := outbox - {id};
      }
    }

    method RetryRunReport(id: nat, at: nat)
      modifies this
      ensures Tables() == Retry(old(Tables()), id, at)
    {
      if id in outbox {
        outbox := outbox[id := outbox[id].(nextAttemptAt := at, deliveryAttempts := outbox[id].deliveryAttempts + 1)];
      }
    }

    method UpdateTask(task: string, status: TaskStatus)
      modifies this
      ensures Tables() == SetTask(old(Tables()), task, status)
    {
      tasks := tasks[task := status];
    }

    method Stop(task: string, now: nat)
      modifies this
      ensures Tables() == StopTask(old(Tables()), task, now)
    {
      if task in tasks && IsActive(tasks[task]) { UpdateTask(task, Stopped(now)); }
    }

    method FailInterruptedTasks(now: nat)
      modifies this
      ensures Tables() == FailInterrupted(old(Tables()), now)
    {
      tasks := map t | t in tasks :: if IsActive(tasks[t]) then Failed(now) else tasks[t];
    }

    /** `ORDER BY tasks.finished_at, run_id`. */
    method CompletedRemoteRuns() returns (cs: seq<Completion>)
      ensures IsCompletedList(Tables(), cs)
      ensures StrictlySorted(RunIds(cs), FinishKey(runs, tasks))
    {
      hide StrictlySorted, TaskEnded;
      var table, statuses := runs, tasks;
      var ended := set run | run in runs && TaskEnded(runs, tasks, run);
      KeysApart(ended, run => FinishTime(table, statuses, run));
      var ids := SortElements(ended, FinishKey(runs, tasks));
      assert forall k :: 0 <= k < |ids| ==> ids[k] in Elements(ids);
      cs := [];
      for i := 0 to |ids|
        invariant |cs| == i && forall k :: 0 <= k < i ==> IsCompletion(runs, tasks, cs[k], ids[k])
      {
        EndedHasTask(runs, tasks, ids[i]);
        cs := cs + [Completion(ids[i], runs[ids[i]].attempt, tasks[runs[ids[i]].task.value])];
      }
      CompletedList(Tables(), ids, cs);
    }

    /** `WHERE state = 'claimed' ORDER BY claimed_at_ms, run_id`. */
    method PendingRemoteRuns() returns (ids: seq<string>)
      ensures StrictlySorted(ids, ClaimKey(runs))
      ensures forall run :: run in ids <==> run in runs && runs[run].state == Claimed
    {
      hide StrictlySorted;
      var table := runs;
      var claimed := set run | run in runs && runs[run].state == Claimed;
      KeysApart(claimed, run => ClaimTime(table, run));
      ids := SortElements(claimed, ClaimKey(runs));
      assert forall run :: run in ids <==> run in Elements(ids);
    }

    /** The pending runs that pass the checks of their lease; nothing when the authorization clock refuses meanwhile. */
    method PendingAuthorizedRemoteRuns(world: World, a: Authority) returns (r: Option<seq<Remote>>)
      ensures r.None? <==> exists run :: run in runs && runs[run].state == Claimed
                                         && ClockRefuses(world, a, ClaimOf(run, runs[run]))
      ensures r.Some? ==>
          IsPendingList(Tables(), r.value) && StrictlySorted(PendingIds(r.value), ClaimKey(runs))
          && forall run :: run in PendingIds(r.value) <==>
               run in runs && runs[run].state == Claimed && Authorized(world, a, ClaimOf(run, runs[run]))
    {
      hide Authorized, ClockRefuses, StrictlySorted, AuthorizedOf, ClaimOf, ClaimKey, IsPendingList;
      var ids := PendingRemoteRuns();
      var rs: seq<Remote> := [];
      assert ids[..0] == [] && forall k :: 0 <= k < |ids| ==> ids[k] in ids;
      NothingAuthorized(world, a, runs);
      for i := 0 to |ids|
        invariant forall k :: 0 <= k < i ==> !ClockRefuses(world, a, ClaimOf(ids[k], runs[ids[k]]))
        invariant rs == AuthorizedOf(world, a, runs, ids[..i])
      {
        var accepted, refused := CheckAuthority(world, a, ClaimOf(ids[i], runs[ids[i]]));
        if refused { return None; }
        AuthorizedNext(world, a, runs, ids, i);
        if accepted { rs := rs + [RemoteOf(ids[i], runs[ids[i]])]; }
      }
      assert ids[..|ids|] == ids;
      AuthorizedList(world, a, runs, ids, ClaimKey(runs));
      PendingList(Tables(), rs);
      r := Some(rs);
    }

    // ----- The loops of the cycle -----

    /** Everything from the given tables to the present ones was a run of the protocol. */
    ghost predicate Ran(from: Db, trace: seq<Event>, phase: Phase)
      reads this
    {
      CanRun(System(from, Idle), trace) && Run(System(from, Idle), trace) == System(Tables(), phase)
    }

    /** The events are neither claims nor deliveries put off. */
    static ghost predicate Quiet(trace: seq<Event>)
    {
      forall ev :: ev in trace ==> !ev.ClaimRun? && !ev.RetryLater?
    }

    /** The attempt a control names is over, or is not the stored one. */
    predicate Settled(c: Control)
      reads this
    {
      c.runId in runs && runs[c.runId].attempt == c.attempt ==> runs[c.runId].state == Terminal
    }

    method ApplyRunControls(controls: seq<Control>, now: nat) returns (ok: bool, ghost trace: seq<Event>)
      modifies this
      ensures Ran(old(Tables()), trace, Idle) && Quiet(trace)
      ensures ok ==> forall i :: 0 <= i < |controls| ==> Settled(controls[i])
    {
      ghost var from := Tables();
      trace := [];
      RunSnoc(System(from, Idle), trace, FetchControls(controls));
      trace := trace + [FetchControls(controls)];
      for i := 0 to |controls|
        invariant Ran(from, trace, Controlling(controls[i..])) && Quiet(trace)
        invariant forall k :: 0 <= k < i ==> Settled(controls[k])
      {
        var c := controls[i];
        ghost var before := Tables();
        ghost var was := trace;
        var stops, reports := *, *;
        RunSnoc(System(from, Idle), was, ApplyControl(stops, reports, now));
        trace := was + [ApplyControl(stops, reports, now)];
        if c.runId in runs && runs[c.runId].attempt == c.attempt && runs[c.runId].state != Terminal {
          if runs[c.runId].task.Some? {
            if !stops { return false, trace; }
            Stop(runs[c.runId].task.value, now);
          }
          if !reports { return false, trace; }
          var stored := EnqueueRunReport(Report(c.runId, c.attempt, ReportCancelled), now);
          if !stored { return false, trace; }
        }
      }
      RunSnoc(System(from, Idle), trace, Finish);
      return true, trace + [Finish];
    }

    /**
     Reports every running run whose task has ended, in the order in which they ended: as succeeded exactly when its
     task did. The loop stops at a report that cannot be stored.
     */
    method EnqueueCompletedRunReports(now: nat)
      returns (ok: bool, ghost trace: seq<Event>, ghost completed: seq<Completion>)
      modifies this
      ensures Ran(old(Tables()), trace, Idle) && Quiet(trace)
      ensures IsCompletedList(old(Tables()), completed)
      ensures StrictlySorted(RunIds(completed), FinishKey(old(runs), old(tasks)))
      ensures exists n :: Logged(old(log), log, completed, n) && (ok ==> n == |completed|)
      ensures ok ==> forall run :: run in runs ==> !Ended(Tables(), run)
    {
      hide CanRun, Run, EnqueueReport, StrictlySorted, IsCompletedList, Logged, Completes, Settling, Step, Ended;
      ghost var from := Tables();
      var completions := CompletedRemoteRuns();
      trace, completed := [], completions;
      RunNothing(System(from, Idle));
      CompletionsLoad(System(from, Idle), completions);
      RunSnoc(System(from, Idle), trace, LoadCompleted(completions));
      trace := trace + [LoadCompleted(completions)];
      SettlingFirst(from, completions);
      for i := 0 to |completions|
        invariant Ran(from, trace, Completing(completions[i..])) && Quiet(trace)
        invariant tasks == from.tasks && Settling(from, runs, completions, i)
        invariant Logged(from.log, log, completions, i)
      {
        var c := completions[i];
        ghost var was, phase := trace, Completing(completions[i..]);
        var reports := *;
        CompletionStep(Tables(), completions[i..], reports, now);
        assert completions[i..][1..] == completions[i + 1..];
        RunSnoc(System(from, Idle), was, ReportCompleted(reports, now));
        trace := was + [ReportCompleted(reports, now)];
        if !reports { return false, trace, completed; }
        ghost var report := Report(c.runId, c.attempt, CompletionStatus(c.ended));
        ReportEffect(Tables(), report, now);
        LoggedNext(from.log, log, completions, i, report);
        SettlingNext(from, runs, completions, i);
        var stored := EnqueueRunReport(Report(c.runId, c.attempt, CompletionStatus(c.ended)), now);
        if !stored { return false, trace, completed; }
      }
      RunSnoc(System(from, Idle), trace, Finish);
      FinishStep(Tables(), Completing(completions[|completions|..]));
      SettlingEnds(from, Tables(), completions);
      return true, trace + [Finish], completed;
    }

    /** What starting the application comes to; a started task has a new identifier. */
    method Attempt() returns (o: Outcome)
      ensures (o.Started? || o.NotBound? || o.WebUi?) ==> o.task !in tasks
    {
      o := *;
      if (o.Started? || o.NotBound? || o.WebUi?) && o.task in tasks { o := NotStarted; }
    }

    method ProcessOnePending(r: Remote, o: Outcome, now: nat, ghost rest: seq<Remote>) returns (ok: bool)
      modifies this
      ensures System(Tables(), if ok then Processing(rest) else Idle) == ProcessOne(old(Tables()), [r] + rest, o, now)
    {
      hide EnqueueReport, Bind;
      assert ([r] + rest)[1..] == rest;
      if o.NotReported? { return false; }
      if r.requiresElevation {
        ok := EnqueueRunReport(Report(r.runId, r.attempt, ReportNeedsApproval), now);
        return;
      }
      match o
      case Foreground => ok := EnqueueRunReport(Report(r.runId, r.attempt, ReportNeedsApproval), now);
      case Unavailable => ok := EnqueueRunReport(Report(r.runId, r.attempt, ReportFailed), now);
      case NotStarted => ok := EnqueueRunReport(Report(r.runId, r.attempt, ReportFailed), now);
      case WebUi(task) =>
        UpdateTask(task, Stopped(now));
        ok := EnqueueRunReport(Report(r.runId, r.attempt, ReportNeedsApproval), now);
      case NotBound(task) =>
        UpdateTask(task, Stopped(now));
        ok := false;
      case Started(task, status) =>
        UpdateTask(task, status);
        ok := BindRemoteTaskAndEnqueueRunning(r.runId, r.attempt, task, now);
        if !ok { Stop(task, now); }
    }

    predicate Handled(r: Remote)
      reads this
    {
      r.runId in runs && runs[r.runId].state != Claimed
    }

    /** Only authorized runs are handled; none at all when the authorization clock refuses. */
    method ProcessPendingRemoteRuns(world: World, a: Authority, now: nat)
      returns (ok: bool, ghost trace: seq<Event>, ghost remotes: seq<Remote>)
      modifies this
      ensures Ran(old(Tables()), trace, Idle) && Quiet(trace)
      ensures IsPendingList(old(Tables()), remotes)
      ensures forall i :: 0 <= i < |remotes| ==>
          Authorized(world, a, ClaimOf(remotes[i].runId, old(runs)[remotes[i].runId]))
      ensures ok ==> forall i :: 0 <= i < |remotes| ==> Handled(remotes[i])
    {
      hide ProcessOne, Authorized, ClockRefuses;
      ghost var from := Tables();
      remotes, trace := [], [];
      var listed := PendingAuthorizedRemoteRuns(world, a);
      RunNothing(System(from, Idle));
      if listed.None? { return false, trace, remotes; }
      var pending := listed.value;
      remotes := pending;
      forall i | 0 <= i < |pending| ensures Authorized(world, a, ClaimOf(pending[i].runId, runs[pending[i].runId])) {
        assert PendingIds(pending)[i] == pending[i].runId;
      }
      RunSnoc(System(from, Idle), trace, LoadPending(remotes));
      trace := trace + [LoadPending(remotes)];
      for i := 0 to |pending|
        invariant Ran(from, trace, Processing(pending[i..])) && Quiet(trace)
        invariant forall k :: 0 <= k < i ==> Handled(pending[k])
      {
        var outcome := Attempt();
        assert pending[i..] == [pending[i]] + pending[i + 1..];
        RunSnoc(System(from, Idle), trace, Process(outcome, now));
        trace := trace + [Process(outcome, now)];
        ProcessHandles(Tables(), pending[i..], outcome, now);
        var handled := ProcessOnePending(pending[i], outcome, now, pending[i + 1..]);
        if !handled { return false, trace, remotes; }
      }
      RunSnoc(System(from, Idle), trace, Finish);
      return true, trace + [Finish], remotes;
    }

    /** The outbox entries due, in the order they were enqueued. */
    method DueRunReports(now: nat) returns (ids: seq<nat>)
      ensures forall id :: id in ids <==> id in DueReports(outbox, now)
      ensures StrictlySorted<nat>(ids, IdKey())
    {
      var key := IdKey();
      var due := DueReports(outbox, now);
      assert InjectiveOn<nat>(due, key) by {
        forall x: nat, y: nat | x in due && y in due && key(x) == key(y) ensures x == y {
          assert key(x)[0] == x && key(y)[0] == y;
        }
      }
      ids := SortElements<nat>(due, key);
      assert forall id :: id in ids <==> id in Elements(ids);
    }

    /**
     Delivers until one delivery fails; that one is put off, unless the device lost its registration, and the flush
     ends.
     */
    method FlushRunReportOutbox(now: nat) returns (flushed: bool, ghost trace: seq<Event>, ghost due: seq<nat>)
      modifies this
      ensures Ran(old(Tables()), trace, Idle)
      ensures flushed ==> outbox == old(outbox) - DueReports(old(outbox), now)
      ensures StrictlySorted<nat>(due, IdKey()) && forall id :: id in due <==> id in DueReports(old(outbox), now)
      ensures if flushed then |trace| == |due| else |trace| <= |due|
      ensures forall k :: 0 <= k < |trace| ==>
          trace[k] == Ack(due[k])
          || (!flushed && k == |trace| - 1 && due[k] in old(outbox)
              && trace[k] == RetryLater(due[k], now + Backoff(old(outbox)[due[k]].deliveryAttempts)))
    {
      hide CanRun, Run, Backoff, StrictlySorted;
      ghost var from := Tables();
      var ids := DueRunReports(now);
      due, trace := ids, [];
      ghost var done: set<nat> := {};
      RunNothing(System(from, Idle));
      for i := 0 to |ids|
        invariant Ran(from, trace, Idle) && |trace| == i && forall k :: 0 <= k < i ==> trace[k] == Ack(ids[k])
        invariant outbox == from.outbox - done && done <= DueReports(from.outbox, now)
        invariant forall k :: 0 <= k < i ==> ids[k] in done
        invariant forall k :: i <= k < |ids| ==> ids[k] !in done
      {
        assert ids[i] in DueReports(from.outbox, now);
        var acknowledged := *;
        if acknowledged {
          RunSnoc(System(from, Idle), trace, Ack(ids[i]));
          trace := trace + [Ack(ids[i])];
          AcknowledgeRunReport(ids[i]);
          done := done + {ids[i]};
          IdsDiffer(ids, i);
        } else {
          // A refusal that invalidates the device's registration is not put off.
          var invalidated := *;
          if invalidated { return false, trace, ids; }
          var at := now + Backoff(outbox[ids[i]].deliveryAttempts);
          RunSnoc(System(from, Idle), trace, RetryLater(ids[i], at));
          trace := trace + [RetryLater(ids[i], at)];
          RetryRunReport(ids[i], at);
          return false, trace, ids;
        }
      }
      flushed := true;
    }

    /** Claims that are not valid, or not authorized for this device, are refused one by one. */
    method RecordClaims(world: World, a: Authority, claims: seq<Claim>, now: nat)
      returns (fatal: bool, ghost trace: seq<Event>)
      modifies this
      ensures Ran(old(Tables()), trace, Idle)
      ensures forall ev :: ev in trace ==>
          ev.ClaimRun? && ev.claim in claims && ClaimValid(world, ev.claim) && Authorized(world, a, ev.claim)
    {
      hide ClaimValid, Authorized, ClockRefuses;
      ghost var from := Tables();
      trace, fatal := [], false;
      RunNothing(System(from, Idle));
      for i := 0 to |claims|
        invariant Ran(from, trace, Idle)
        invariant forall ev :: ev in trace ==>
            ev.ClaimRun? && ev.claim in claims && ClaimValid(world, ev.claim) && Authorized(world, a, ev.claim)
      {
        var valid := ValidateClaim(world, claims[i]);
        var accepted, refused := CheckAuthority(world, a, claims[i]);
        if valid && accepted {
          ghost var ev := ClaimRun(claims[i], now);
          assert ValidAttempt(claims[i].intent.attempt) by { ValidClaimAttempt(world, claims[i]); }
          RunSnoc(System(from, Idle), trace, ev);
          trace := trace + [ev];
          var stored := RecordRemoteClaim(world, claims[i], now);
        } else {
          fatal := *;
          if fatal { return; }
        }
      }
    }

    /** The first part of a cycle: it ends with the outbox flushed, or early when the registration is invalid. */
    method ReportRuns(world: World, a: Authority, controls: seq<Control>, now: nat)
      returns (ok: bool, flushed: bool, ghost trace: seq<Event>)
      modifies this
      ensures Ran(old(Tables()), trace, Idle)
      ensures forall ev :: ev in trace ==> !ev.ClaimRun? && (flushed ==> !ev.RetryLater?)
    {
      hide Run, CanRun, Step, Enabled;
      ghost var from := Tables();
      ghost var part: seq<Event>;
      flushed := false;
      ok, trace := ApplyRunControls(controls, now);
      if !ok {
        var fatal := *;
        if fatal { return; }
      }

      ghost var middle := Tables();
      var step;
      ghost var completed;
      step, part, completed := EnqueueCompletedRunReports(now);
      RunAppend(from, middle, Tables(), trace, part);
      ok, trace := ok && step, trace + part;
      if !step {
        var fatal := *;
        if fatal { return; }
      }

      middle := Tables();
      ghost var remotes;
      step, part, remotes := ProcessPendingRemoteRuns(world, a, now);
      RunAppend(from, middle, Tables(), trace, part);
      ok, trace := ok && step, trace + part;
      if !step {
        var fatal := *;
        if fatal { return; }
      }

      middle := Tables();
      ghost var due;
      flushed, part, due := FlushRunReportOutbox(now);
      RunAppend(from, middle, Tables(), trace, part);
      ok, trace := ok && flushed, trace + part;
    }

    /** The second part: new claims, their processing, and another flush. */
    method ClaimRuns(world: World, a: Authority, claims: seq<Claim>, now: nat)
      returns (ok: bool, ghost trace: seq<Event>, ghost claimed: nat)
      modifies this
      ensures Ran(old(Tables()), trace, Idle)
      ensures claimed <= |trace| && (forall i :: 0 <= i < claimed ==> !trace[i].RetryLater?)
      ensures forall i :: claimed <= i < |trace| ==> !trace[i].ClaimRun?
    {
      hide Run, CanRun, Step, Enabled;
      ghost var from := Tables();
      ghost var part: seq<Event>;
      var fatal;
      fatal, trace := RecordClaims(world, a, claims, now);
      assert forall i :: 0 <= i < |trace| ==> trace[i] in trace && trace[i].ClaimRun?;
      ok, claimed := !fatal, |trace|;
      if fatal { return; }

      ghost var middle := Tables();
      var step;
      ghost var remotes;
      step, part, remotes := ProcessPendingRemoteRuns(world, a, now);
      RunAppend(from, middle, Tables(), trace, part);
      ok, trace := ok && step, trace + part;
      if !step {
        fatal := *;
        if fatal { return; }
      }

      middle := Tables();
      ghost var due;
      step, part, due := FlushRunReportOutbox(now);
      RunAppend(from, middle, Tables(), trace, part);
      ok, trace := ok && step, trace + part;
    }

    /**
     The run part of `run_control_plane_cycle`. Whatever fails, a cycle is a run of the protocol; a part that fails
     does not stop the next one unless the device's registration is invalid; and new runs are claimed only after
     every due report was delivered.
     */
    method RunControlPlaneCycle(world: World, a: Authority, controls: seq<Control>, claims: seq<Claim>, now: nat)
        returns (ok: bool, ghost trace: seq<Event>)
      modifies this
      ensures Ran(old(Tables()), trace, Idle)
      ensures forall i, j :: 0 <= i < j < |trace| && trace[j].ClaimRun? ==> !trace[i].RetryLater?
    {
      hide Run, CanRun, Step, Enabled;
      ghost var from := Tables();
      var flushed;
      ok, flushed, trace := ReportRuns(world, a, controls, now);
      if !flushed { return; }
      ghost var middle := Tables();
      ghost var part, claimed;
      var step;
      step, part, claimed := ClaimRuns(world, a, claims, now);
      RunAppend(from, middle, Tables(), trace, part);
      ok := ok && step;
      forall i, j | 0 <= i < j < |trace + part| && (trace + part)[j].ClaimRun? ensures !(trace + part)[i].RetryLater? {
        assert j >= |trace| && part[j - |trace|].ClaimRun?;
        if i < |trace| { assert trace[i] in trace; }
      }
      trace := trace + part;
    }
  }

  lemma IdsDiffer(ids: seq<nat>, i: nat)
    requires i < |ids| && StrictlySorted<nat>(ids, IdKey())
    ensures forall k :: i < k < |ids| ==> ids[k] != ids[i]
  {
    forall k | i < k < |ids| ensures ids[k] != ids[i] {
      LessIrreflexive(IdKey()(ids[i]));
    }
  }

  lemma RunNothing(sys: System)
    ensures CanRun(sys, []) && Run(sys, []) == sys
  {
  }

  /** A stored report changes the state of its run and nothing else about runs and tasks. */
  lemma ReportEffect(db: Db, report: Report, now: nat)
    ensures var after := EnqueueReport(db, report, now);
            after.Some? ==>
              after.value.tasks == db.tasks && report.runId in db.runs && after.value.log == db.log + [report]
              && after.value.runs == db.runs[report.runId := db.runs[report.runId].(state := StateOf(report.status))]
  {
  }

  /** A pending run that is handled is no longer claimed, and no other run is touched. */
  lemma ProcessHandles(db: Db, rs: seq<Remote>, o: Outcome, now: nat)
    requires rs != []
    ensures var after := ProcessOne(db, rs, o, now);
            after.phase.Processing? ==>
              rs[0].runId in after.db.runs && after.db.runs[rs[0].runId].state != Claimed
              && forall run :: run in db.runs && run != rs[0].runId ==>
                   run in after.db.runs && after.db.runs[run] == db.runs[run]
  {
  }

  lemma RunAppend(a: Db, b: Db, c: Db, first: seq<Event>, second: seq<Event>)
    requires CanRun(System(a, Idle), first) && Run(System(a, Idle), first) == System(b, Idle)
    requires CanRun(System(b, Idle), second) && Run(System(b, Idle), second) == System(c, Idle)
    ensures CanRun(System(a, Idle), first + second) && Run(System(a, Idle), first + second) == System(c, Idle)
  {
    RunConcat(System(a, Idle), first, second);
  }

  lemma {:induction false} RunConcat(sys: System, first: seq<Event>, second: seq<Event>)
    requires CanRun(sys, first) && CanRun(Run(sys, first), second)
    ensures CanRun(sys, first + second) && Run(sys, first + second) == Run(Run(sys, first), second)
    decreases |first|
  {
    hide Enabled, Step;
    if first == [] {
      assert first + second == second;
    } else {
      assert (first + second)[1..] == first[1..] + second;
      RunConcat(Step(sys, first[0]), first[1..], second);
    }
  }
}
