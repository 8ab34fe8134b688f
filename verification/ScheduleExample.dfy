/** A run in which a signed schedule is claimed: the theorems about signed claims are not about nothing. */
module ScheduleExample {
  import opened Wrappers
  import opened Unicode
  import opened Slugs
  import opened Splitting
  import opened Schedules
  import opened ScheduleStore
  import opened ScheduleClaims
  import opened ScheduleRuns

  const SIGNED: Intent := Intent("s", 1, "a", "r", "abc", None, "c", "z", 0, [], true)

  function Digest(c: char): string { seq(64, _ => c) }

  ghost function Payload(): string { IntentPayload(Utf8, SIGNED) }

  /** Every text but one has the same digest; every identifier is a UUID; schedules run every minute. */
  ghost function ExampleWorld(): World
  {
    World(_ => true, text => if text == Payload() then Digest('a') else Digest('b'), (_, _) => true,
          (_, _, after) => Some(after + 60000))
  }

  function SignedLease(): Lease
  {
    Lease(1, "l", 1, "d", "a", "r", "abc", "1.0.0", ScheduleTask, "s", Digest('c'), Digest('a'), 0, 1, "ed25519", "k",
        "")
  }

  lemma Encoded()
    ensures Encode(Utf8, "abc") == [97, 98, 99] && Encode(Utf8, "1.0.0") == [49, 46, 48, 46, 48]
    ensures ByteLength("c") == 1 && ByteLength("z") == 1 && ByteLength("k") == 1
  {
    assert "abc"[1..] == "bc" && "bc"[1..] == "c" && "c"[1..] == "";
    assert Encode(Utf8, "c") == [99] && Encode(Utf8, "bc") == [98, 99];
    assert "1.0.0"[1..] == ".0.0" && ".0.0"[1..] == "0.0" && "0.0"[1..] == ".0" && ".0"[1..] == "0" && "0"[1..] == "";
    assert Encode(Utf8, "0") == [48];
    assert Encode(Utf8, ".0") == [46, 48];
    assert Encode(Utf8, "0.0") == [48, 46, 48];
    assert Encode(Utf8, ".0.0") == [46, 48, 46, 48];
    assert Encode(Utf8, "z") == [122] && Encode(Utf8, "k") == [107];
  }

  lemma Names()
    ensures IsApplicationSlug([97, 98, 99]) && IsContractSemver([49, 46, 48, 46, 48])
  {
    ShapeIsSlug([97, 98, 99]);
    var v: seq<nat>, one: seq<nat>, zero: seq<nat> := [49, 46, 48, 46, 48], [49], [48];
    SplitNone(v, DASH);
    assert v == one + [DOT] + (zero + [DOT] + zero);
    SplitAt(one, zero + [DOT] + zero, DOT);
    SplitAt(zero, zero, DOT);
    SplitNone(zero, DOT);
    assert Split(v, DOT) == [one, zero, zero];
  }

  lemma SignedIsValid()
    ensures Valid(ExampleWorld(), Schedule(SIGNED, Some(SignedLease())))
    ensures NoSecondPreimage(ExampleWorld(), SIGNED) && IntentHash(ExampleWorld(), SIGNED) == Digest('a')
  {
    hide Payload, IsApplicationSlug, IsContractSemver, Encode, IntentPayload;
    Encoded();
    Names();
    assert IntentPayload(Utf8, SIGNED) == Payload() by { PayloadIs(); }
    assert Digest('a')[0] != Digest('b')[0];
  }

  lemma PayloadIs()
    ensures IntentPayload(Utf8, SIGNED) == Payload()
  {
  }

  lemma OneRecord(r: Schedule)
    ensures UniqueIds([r]) && Ids([r]) == {r.intent.scheduleId} && Find([r], r.intent.scheduleId) == r
    ensures Content([r]) == map[r.intent.scheduleId := r.intent]
  {
    FindAt([r], 0);
    assert [r][0].intent.scheduleId in Ids([r]);
  }

  lemma Published(r: Schedule)
    ensures var d := Delta(0, 1, [r], []);
            Publish(ServerState(0, map[]), d) == Some(ServerState(1, Content([r])))
            && Advances(ServerState(0, map[]), d)
  {
    OneRecord(r);
    assert Edited(map[], Delta(0, 1, [r], [])) == Content([r]);
  }

  lemma Fetched(world: World, r: Schedule, now: nat)
    requires Valid(world, r) && r.lease.Some? && world.recurrence(r.intent.cron, r.intent.timezone)
    ensures var id, st := r.intent.scheduleId, ApplySnapshot(world, EMPTY, Snapshot(1, [r]), now).1;
            SnapshotValid(world, Snapshot(1, [r])) && st.revision == 1 && id in st.rows && st.rows[id] == RowOf(r)
  {
    hide Valid;
    OneRecord(r);
    assert Normalize(world, r, now) == r;
  }

  lemma Claimable(st: Store)
    requires "s" in st.rows && st.rows["s"] == RowOf(Schedule(SIGNED, Some(SignedLease())))
    ensures Schedule(SIGNED, Some(SignedLease())) in Claim(ExampleWorld(), st, 0).0.value
  {
    var r := Schedule(SIGNED, Some(SignedLease()));
    SignedIsValid();
    assert NextOccurrence(ExampleWorld(), r, 0) == Some(60000) by { NextIsSoon(r); }
    SignedReload(ExampleWorld(), r);
    ClaimedExactly(ExampleWorld(), st, 0, r);
  }

  lemma NextIsSoon(r: Schedule)
    requires Valid(ExampleWorld(), r)
    ensures NextOccurrence(ExampleWorld(), r, 0) == Some(60000)
  {
    hide Valid;
  }

  /** The control plane publishes the signed schedule, the agent fetches a snapshot, and the claim hands it out. */
  lemma SignedClaimHappens()
    ensures var world, r := ExampleWorld(), Schedule(SIGNED, Some(SignedLease()));
            var evs := [Publishes(Delta(0, 1, [r], [])), Does(SyncSnapshot(Snapshot(1, [r]), 0))];
            HonestRun(world, START, evs)
            && var sys := Run(world, START, evs);
               Inv(world, sys) && r in Claim(world, sys.store, 0).0.value && r.lease.Some?
               && IsServerIntent(sys, r.intent.scheduleId, SIGNED) && NoSecondPreimage(world, SIGNED)
  {
    hide SignedLease, Digest, Valid, NoSecondPreimage, NextOccurrence, Content, SnapshotValid, Advances, Claim, Inv;
    hide ApplySnapshot, Publish;
    var world, r := ExampleWorld(), Schedule(SIGNED, Some(SignedLease()));
    SignedIsValid();
    Published(r);
    Fetched(world, r, 0);
    OneRecord(r);
    var a, b := Publishes(Delta(0, 1, [r], [])), Does(SyncSnapshot(Snapshot(1, [r]), 0));
    var one := Step(world, START, a);
    var two := Step(world, one, b);
    assert one == System([ServerState(0, map[]), ServerState(1, Content([r]))], EMPTY);
    assert one.history[1] in one.history;
    assert Honest(world, START, a) && Honest(world, one, b);
    assert [a, b][1..] == [b] && [b][1..] == [];
    assert HonestRun(world, two, []) && HonestRun(world, one, [b]) && HonestRun(world, START, [a, b]);
    assert Run(world, one, [b]) == Run(world, two, []) == two && Run(world, START, [a, b]) == two;
    StartInv(world);
    RunKeepsInv(world, START, [a, b]);
    Claimable(two.store);
    assert one.history[1] in two.history;
  }

  lemma StartInv(world: World)
    ensures Inv(world, START)
  {
    assert START.history[0] in START.history;
    assert Refines(world, START.store.rows, START.history[0].intents);
  }
}
