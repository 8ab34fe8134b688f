/** Short runs of the remote-run protocol that end in states other statements are about. */
module RunExample {
  import opened Wrappers
  import opened RunClaims
  import opened RunProtocol
  import opened RunSafety
  import opened RunOutcomes

  const CANCELLED: seq<Event> :=
    [ClaimRun(CLAIM, 0), FetchControls([Control("r", 1)]), ApplyControl(true, true, 0)]

  const CLAIM: Claim := Claim(RunIntent("r", 1, "app", "1.0.0", [], false), None)

  function ClaimedDb(): Db { EMPTY.(runs := map["r" := ClaimedRow(CLAIM, 0)]) }

  function CancelledDb(): Db
  {
    Db(map["r" := ClaimedRow(CLAIM, 0).(state := Terminal)], map[],
       map[0 := OutboxEntry(Report("r", 1, ReportCancelled), 0, 0)], 1, [Report("r", 1, ReportCancelled)], [])
  }

  lemma Steps()
    ensures Enabled(START, ClaimRun(CLAIM, 0)) && Step(START, ClaimRun(CLAIM, 0)) == System(ClaimedDb(), Idle)
    ensures var fetch := FetchControls([Control("r", 1)]);
            Enabled(System(ClaimedDb(), Idle), fetch)
            && Step(System(ClaimedDb(), Idle), fetch) == System(ClaimedDb(), Controlling([Control("r", 1)]))
    ensures var apply := ApplyControl(true, true, 0);
            Enabled(System(ClaimedDb(), Controlling([Control("r", 1)])), apply)
            && Step(System(ClaimedDb(), Controlling([Control("r", 1)])), apply)
            == System(CancelledDb(), Controlling([]))
  {
    assert [Control("r", 1)][1..] == [];
    assert EMPTY.log + [Report("r", 1, ReportCancelled)] == [Report("r", 1, ReportCancelled)];
  }

  lemma Reaches()
    ensures CanRun(START, CANCELLED) && Run(START, CANCELLED).db == CancelledDb()
  {
    hide Step, Enabled;
    Steps();
    var one, two, three := System(ClaimedDb(), Idle), System(ClaimedDb(), Controlling([Control("r", 1)])),
        System(CancelledDb(), Controlling([]));
    var a, b, c := CANCELLED[0], CANCELLED[1], CANCELLED[2];
    assert CANCELLED[1..] == [b, c] && [b, c][1..] == [c] && [c][1..] == [];
    assert CanRun(three, []) && CanRun(two, [c]) && CanRun(one, [b, c]);
    assert Run(two, [c]) == Run(three, []) == three && Run(one, [b, c]) == three;
  }

  /** A claimed run is cancelled; any further report that only the database checked would put its log out of order. */
  lemma OverwriteHappens(status: Status, now: nat)
    ensures CanRun(START, CANCELLED)
    ensures var db := Run(START, CANCELLED).db;
            var after := EnqueueReport(db, Report("r", 1, status), now);
            DbOk(db) && "r" in db.runs && db.runs["r"].state == Terminal
            && after.Some? && after.value.runs["r"].state == StateOf(status) && !LogOk(after.value)
  {
    hide LogOk, RunsOk, OutboxOk;
    Reaches();
    StartOk();
    RunKeepsInv(START, CANCELLED);
    DatabaseAloneOverwrites(CancelledDb(), Report("r", 1, status), now);
  }

  // ----- A run that succeeded and is reported cancelled -----

  const OVERTAKEN: seq<Event> :=
    [ClaimRun(CLAIM, 0), LoadPending([Remote("r", 1, false)]), Process(Started("t", Active), 0), Finish,
     TaskEnds("t", Succeeded(1)), FetchControls([Control("r", 1)]), ApplyControl(true, true, 2)]

  function StartedRow(state: RunState): RemoteRun { ClaimedRow(CLAIM, 0).(task := Some("t"), state := state) }

  function StartedDb(status: TaskStatus): Db
  {
    Db(map["r" := StartedRow(Running)], map["t" := status], map[0 := OutboxEntry(Report("r", 1, ReportRunning), 0, 0)],
       1, [Report("r", 1, ReportRunning)], [])
  }

  function OvertakenDb(): Db
  {
    var cancelled := Report("r", 1, ReportCancelled);
    var before := StartedDb(Succeeded(1));
    before.(runs := map["r" := StartedRow(Terminal)], outbox := before.outbox[1 := OutboxEntry(cancelled, 2, 0)],
            nextOutboxId := 2, log := [Report("r", 1, ReportRunning), cancelled])
  }

  lemma Starts()
    ensures var (sys, ev) := (System(ClaimedDb(), Idle), LoadPending([Remote("r", 1, false)]));
            Enabled(sys, ev) && Step(sys, ev) == System(ClaimedDb(), Processing([Remote("r", 1, false)]))
    ensures var sys := System(ClaimedDb(), Processing([Remote("r", 1, false)]));
            var ev := Process(Started("t", Active), 0);
            Enabled(sys, ev) && Step(sys, ev) == System(StartedDb(Active), Processing([]))
  {
    assert [Remote("r", 1, false)][1..] == [];
    assert EMPTY.log + [Report("r", 1, ReportRunning)] == [Report("r", 1, ReportRunning)];
  }

  lemma Ends()
    ensures var sys := System(StartedDb(Active), Processing([]));
            Enabled(sys, Finish) && Step(sys, Finish) == System(StartedDb(Active), Idle)
    ensures var (sys, ev) := (System(StartedDb(Active), Idle), TaskEnds("t", Succeeded(1)));
            Enabled(sys, ev) && Step(sys, ev) == System(StartedDb(Succeeded(1)), Idle)
    ensures var (sys, ev) := (System(StartedDb(Succeeded(1)), Idle), FetchControls([Control("r", 1)]));
            Enabled(sys, ev) && Step(sys, ev) == System(StartedDb(Succeeded(1)), Controlling([Control("r", 1)]))
  {
  }

  lemma IsCancelled()
    ensures var sys := System(StartedDb(Succeeded(1)), Controlling([Control("r", 1)]));
            var ev := ApplyControl(true, true, 2);
            Enabled(sys, ev) && Step(sys, ev) == System(OvertakenDb(), Controlling([]))
  {
    var db, report := StartedDb(Succeeded(1)), Report("r", 1, ReportCancelled);
    assert [Control("r", 1)][1..] == [];
    assert db.log + [report] == [Report("r", 1, ReportRunning), report];
    assert !Pending(db, report);
  }

  lemma Prepend(sys: System, ev: Event, rest: seq<Event>)
    requires Enabled(sys, ev) && CanRun(Step(sys, ev), rest)
    ensures CanRun(sys, [ev] + rest) && Run(sys, [ev] + rest) == Run(Step(sys, ev), rest)
  {
    hide Step, Enabled;
    assert ([ev] + rest)[0] == ev && ([ev] + rest)[1..] == rest;
  }

  lemma Overtakes()
    ensures CanRun(START, OVERTAKEN) && Run(START, OVERTAKEN) == System(OvertakenDb(), Controlling([]))
  {
    hide Step, Enabled;
    Steps();
    Starts();
    Ends();
    IsCancelled();
    var e6 := [ApplyControl(true, true, 2)];
    var e5 := [FetchControls([Control("r", 1)])] + e6;
    var e4 := [TaskEnds("t", Succeeded(1))] + e5;
    var e3 := [Finish] + e4;
    var e2 := [Process(Started("t", Active), 0)] + e3;
    var e1 := [LoadPending([Remote("r", 1, false)])] + e2;
    assert e6 + [] == e6 && [ClaimRun(CLAIM, 0)] + e1 == OVERTAKEN;
    Prepend(System(StartedDb(Succeeded(1)), Controlling([Control("r", 1)])), ApplyControl(true, true, 2), []);
    Prepend(System(StartedDb(Succeeded(1)), Idle), FetchControls([Control("r", 1)]), e6);
    Prepend(System(StartedDb(Active), Idle), TaskEnds("t", Succeeded(1)), e5);
    Prepend(System(StartedDb(Active), Processing([])), Finish, e4);
    Prepend(System(ClaimedDb(), Processing([Remote("r", 1, false)])), Process(Started("t", Active), 0), e3);
    Prepend(System(ClaimedDb(), Idle), LoadPending([Remote("r", 1, false)]), e2);
    Prepend(START, ClaimRun(CLAIM, 0), e1);
  }

  /** A control that arrives before the success was reported has the run reported as cancelled: but it succeeded. */
  lemma CancelledAfterSuccess()
    ensures CanRun(START, OVERTAKEN)
    ensures var db := Run(START, OVERTAKEN).db;
            "r" in db.runs && db.runs["r"].state == Terminal && SucceededTask(db, db.runs["r"])
            && Reports(db, "r") == [ReportRunning, ReportCancelled]
  {
    Overtakes();
    var running, cancelled := Report("r", 1, ReportRunning), Report("r", 1, ReportCancelled);
    HistorySnoc([], running, "r", 1);
    HistorySnoc([running], cancelled, "r", 1);
    assert [running] + [cancelled] == [running, cancelled] && [] + [running] == [running];
  }
}
