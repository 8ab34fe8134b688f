/** The persistent authorization clock, and the lease verdicts that depend on it. */
module AuthorizationClock {
  import opened Wrappers
  import opened Schedules

  const MAX_CLOCK_SKEW_MS: nat := 300000
  const U64_MAX: nat := 0xffff_ffff_ffff_ffff

  datatype ClockFault = OutOfRange | Rollback

  function SaturatingAdd(a: nat, b: nat): nat { if a + b > U64_MAX then U64_MAX else a + b }

  function Tick(highWater: nat, observed: U64): (nat, Result<nat, ClockFault>)
  {
    if observed > I64_MAX then (highWater, Err(OutOfRange))
    else if SaturatingAdd(observed, MAX_CLOCK_SKEW_MS) < highWater then (highWater, Err(Rollback))
    else
      var effective := if observed > highWater then observed else highWater;
      (effective, Ok(effective))
  }

  /** The singleton row of the clock table; it survives restarts. */
  class Clock {
    var highWater: nat

    constructor ()
      ensures highWater == 0
    {
      highWater := 0;
    }

    method AuthorizationTime(observed: U64) returns (r: Result<nat, ClockFault>)
      modifies this
      ensures (highWater, r) == Tick(old(highWater), observed)
    {
      if observed > I64_MAX { return Err(OutOfRange); }
      if SaturatingAdd(observed, MAX_CLOCK_SKEW_MS) < highWater { return Err(Rollback); }
      var effective := if observed > highWater then observed else highWater;
      if observed > highWater { highWater := observed; }
      r := Ok(effective);
    }
  }

  /**
   An observation is accepted exactly when it is in range and at most the skew bound behind the mark; the accepted
   time is never before the observation, at most the skew bound after it, and becomes the mark. A refusal changes
   nothing.
   */
  lemma TickBounds(h: nat, observed: U64)
    requires h <= I64_MAX
    ensures var (after, r) := Tick(h, observed);
            (r.Ok? <==> observed <= I64_MAX && h <= observed + MAX_CLOCK_SKEW_MS)
            && (r.Ok? ==> after == r.value && h <= r.value && observed <= r.value <= observed + MAX_CLOCK_SKEW_MS)
            && (r.Err? ==> after == h) && after <= I64_MAX
  {
  }

  function After(h: nat, observed: seq<U64>): nat
  {
    if observed == [] then h else Tick(After(h, observed[..|observed| - 1]), observed[|observed| - 1]).0
  }

  /** The answer to observation `i` of a sequence, from a given mark. */
  function Answer(h: nat, observed: seq<U64>, i: nat): Result<nat, ClockFault>
    requires i < |observed|
  {
    Tick(After(h, observed[..i]), observed[i]).1
  }

  lemma {:induction false} MarkGrows(h: nat, observed: seq<U64>, i: nat)
    requires h <= I64_MAX && i <= |observed|
    ensures After(h, observed[..i]) <= After(h, observed) <= I64_MAX
    decreases |observed|
  {
    if i == |observed| {
      assert observed[..i] == observed;
      if observed != [] {
        MarkGrows(h, observed[..i - 1], 0);
        TickBounds(After(h, observed[..i - 1]), observed[i - 1]);
      }
    } else {
      var all := observed[..|observed| - 1];
      assert all[..i] == observed[..i];
      MarkGrows(h, all, i);
      TickBounds(After(h, all), observed[|observed| - 1]);
    }
  }

  /** Accepted times never go back, whatever is observed or refused in between. */
  lemma AcceptedTimesGrow(h: nat, observed: seq<U64>, i: nat, j: nat)
    requires h <= I64_MAX && i < j < |observed| && Answer(h, observed, i).Ok? && Answer(h, observed, j).Ok?
    ensures Answer(h, observed, i).value <= Answer(h, observed, j).value
  {
    var upto := observed[..i + 1];
    assert upto[..i] == observed[..i];
    MarkGrows(h, observed[..i], 0);
    TickBounds(After(h, observed[..i]), observed[i]);
    assert After(h, upto) == Answer(h, observed, i).value;
    assert observed[..j][..i + 1] == upto;
    MarkGrows(h, observed[..j], i + 1);
    TickBounds(After(h, observed[..j]), observed[j]);
  }

  lemma PrefixAnswer(h: nat, observed: seq<U64>, n: nat, i: nat)
    requires i < n <= |observed|
    ensures Answer(h, observed[..n], i) == Answer(h, observed, i)
  {
    assert observed[..n][..i] == observed[..i];
  }

  /** Observation `i` was accepted and lies at or below the mark. */
  ghost predicate AcceptedBelow(h: nat, observed: seq<U64>, i: nat, mark: nat)
    requires i < |observed|
  {
    Answer(h, observed, i).Ok? ==> observed[i] <= mark
  }

  ghost predicate Reached(h: nat, observed: seq<U64>, i: nat, mark: nat)
    requires i < |observed|
  {
    Answer(h, observed, i).Ok? && observed[i] == mark
  }

  /** The mark is the first mark or an accepted observation, and no accepted observation is above it. */
  lemma {:induction false} MarkIsMaximum(h: nat, observed: seq<U64>)
    requires h <= I64_MAX
    ensures After(h, observed) == h || exists i :: 0 <= i < |observed| && Reached(h, observed, i, After(h, observed))
    ensures forall i :: 0 <= i < |observed| ==> AcceptedBelow(h, observed, i, After(h, observed))
    decreases |observed|
  {
    hide Tick, After, Answer;
    if observed == [] {
      EmptyMark(h);
    } else {
      var n := |observed| - 1;
      var all := observed[..n];
      MarkIsMaximum(h, all);
      LastAnswer(h, observed);
      forall i | 0 <= i < n
        ensures AcceptedBelow(h, observed, i, After(h, observed))
        ensures Reached(h, all, i, After(h, all)) ==> Reached(h, observed, i, After(h, all))
      {
        PrefixAnswer(h, observed, n, i);
        assert AcceptedBelow(h, all, i, After(h, all));
      }
      if After(h, observed) != After(h, all) { assert Reached(h, observed, n, After(h, observed)); }
      assert AcceptedBelow(h, observed, n, After(h, observed));
    }
  }

  lemma EmptyMark(h: nat)
    ensures After(h, []) == h
  {
  }

  lemma LastAnswer(h: nat, observed: seq<U64>)
    requires h <= I64_MAX && observed != []
    ensures var n := |observed| - 1;
            var before := After(h, observed[..n]);
            before <= After(h, observed)
            && (Answer(h, observed, n).Ok? ==> observed[n] <= After(h, observed))
            && (After(h, observed) != before ==> Answer(h, observed, n).Ok? && After(h, observed) == observed[n])
  {
    var n := |observed| - 1;
    MarkGrows(h, observed[..n], 0);
    TickBounds(After(h, observed[..n]), observed[n]);
  }

  // ----- Lease verdicts -----

  datatype Scope = Scope(
    deviceId: string, appId: string, version: string, kind: TaskKind, taskId: string, revision: nat,
        capabilityHash: string)

  datatype Verdict = Invalid | FromFuture | Expired | ScopeMismatch | Accepted

  function ValidateScope(world: World, l: Lease, scope: Scope, now: nat): Verdict
  {
    if !LeaseValid(world, l) then Invalid
    else if l.issuedAt > SaturatingAdd(now, MAX_CLOCK_SKEW_MS) then FromFuture
    else if l.expiresAt <= now then Expired
    else if l.deviceId != scope.deviceId || l.appId != scope.appId || l.version != scope.version
            || l.kind != scope.kind || l.taskId != scope.taskId || l.revision != scope.revision
            || l.capabilityHash != scope.capabilityHash
    then ScopeMismatch
    else Accepted
  }

  /**
   A lease is accepted exactly when it is well formed, not issued further in the future than the skew bound, not
   expired, and for this very device, application version, task, attempt and set of capabilities.
   */
  lemma AcceptedIff(world: World, l: Lease, scope: Scope, now: nat)
    requires l.issuedAt <= U64_MAX
    ensures ValidateScope(world, l, scope, now) == Accepted <==>
              LeaseValid(world, l) && l.issuedAt <= now + MAX_CLOCK_SKEW_MS && now < l.expiresAt
              && scope == Scope(l.deviceId, l.appId, l.version, l.kind, l.taskId, l.revision, l.capabilityHash)
    ensures ValidateScope(world, l, scope, now) == Expired <==>
              LeaseValid(world, l) && l.issuedAt <= now + MAX_CLOCK_SKEW_MS && l.expiresAt <= now
    ensures ValidateScope(world, l, scope, now) == FromFuture <==>
              LeaseValid(world, l) && now + MAX_CLOCK_SKEW_MS < l.issuedAt
  {
    hide LeaseValid;
  }

  /** The phase of a lease's life a verdict places it in. */
  function Phase(v: Verdict): nat
  {
    match v
    case FromFuture => 0
    case Expired => 2
    case _ => 1
  }

  /**
   Over any sequence of observations a lease only moves forward: from the future, to usable, to expired. In
   particular a lease refused as expired is refused as expired at every later accepted time, for every scope.
   */
  lemma LeaseOnlyAges(world: World, l: Lease, a: Scope, b: Scope, h: nat, observed: seq<U64>, i: nat, j: nat)
    requires h <= I64_MAX && i < j < |observed| && Answer(h, observed, i).Ok? && Answer(h, observed, j).Ok?
    ensures var earlier := ValidateScope(world, l, a, Answer(h, observed, i).value);
            var later := ValidateScope(world, l, b, Answer(h, observed, j).value);
            Phase(earlier) <= Phase(later) && (earlier == Expired ==> later == Expired)
  {
    AcceptedTimesGrow(h, observed, i, j);
  }

  /** An accepted lease is inside its lifetime by the observed clock too, up to the skew bound. */
  lemma AcceptedIsCurrent(world: World, l: Lease, scope: Scope, h: nat, observed: U64)
    requires h <= I64_MAX && Tick(h, observed).1.Ok?
    requires ValidateScope(world, l, scope, Tick(h, observed).1.value) == Accepted
    ensures observed < l.expiresAt && l.issuedAt <= observed + 2 * MAX_CLOCK_SKEW_MS
  {
    TickBounds(h, observed);
  }
}
