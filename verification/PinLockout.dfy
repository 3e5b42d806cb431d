/**
 The PIN lockout (backend/app/security/pin_lockout.py): three failures inside a rolling 60 s
 window lock a verifier for 60 s. Checking and recording are separate transactions, with the PIN
 comparison awaited between them, so several attempts can be under way at once.
 */
module PinLockout {
  import opened Common

  type Slug = string
  type Scope = string
  type Time = int  // microseconds

  const SECOND: Time := 1_000_000
  const MAX_FAILURES := 3
  const LOCKOUT: Time := 60 * SECOND
  const WINDOW: Time := 60 * SECOND

  datatype Row = Row(failedCount: nat, lockedUntil: Option<Time>, lastAttempt: Option<Time>)

  function RowOf(row: Option<Row>): Row { if row.Some? then row.value else Row(0, None, None) }

  predicate Locked(row: Row, now: Time) { row.lockedUntil.Some? && row.lockedUntil.value > now }

  /** `int(total_seconds())` of what is left of the lock. */
  function RetryAfter(row: Row, now: Time): nat
    requires Locked(row, now)
  {
    (row.lockedUntil.value - now) / SECOND
  }

  function AfterFailure(row: Row, now: Time): Row {
    var stale := row.lastAttempt.Some? && row.lastAttempt.value < now - WINDOW;
    var count := (if stale then 0 else row.failedCount) + 1;
    Row(count, if count >= MAX_FAILURES then Some(now + LOCKOUT) else row.lockedUntil, Some(now))
  }

  function AfterSuccess(now: Time): Row { Row(0, None, Some(now)) }

  datatype Snapshot = Snapshot(
    failedCount: nat, lockedUntil: Option<Time>, remainingAttempts: nat, remainingLockS: nat)

  function Project(row: Option<Row>, now: Time): Snapshot {
    var r := RowOf(row);
    Snapshot(r.failedCount, r.lockedUntil, Max(0, MAX_FAILURES - r.failedCount),
             if Locked(r, now) then RetryAfter(r, now) else 0)
  }

  /** A client that waits exactly the advertised `retry_after_s` is let in only when what was
      left of the lock was a whole number of seconds; one second more is always enough. */
  lemma RetryAfterRoundsDown(row: Row, now: Time)
    requires Locked(row, now)
    ensures !Locked(row, now + RetryAfter(row, now) * SECOND) <==> (row.lockedUntil.value - now) % SECOND == 0
    ensures !Locked(row, now + (RetryAfter(row, now) + 1) * SECOND)
  {
  }

  /** A failure 60 s or more after the last attempt starts a fresh count, as the row's description
      has it (backend/app/db/models.py:1126-1129), exactly unless it comes 60 s after to the
      microsecond and there is a count to carry on: the code compares strictly. */
  lemma FreshAfterWindowIff(row: Row, now: Time)
    requires row.lastAttempt.Some?
    ensures var gap := now - row.lastAttempt.value;
            (gap >= WINDOW ==> AfterFailure(row, now).failedCount == 1)
            <==> !(gap == WINDOW && row.failedCount > 0)
  {
  }

  /** So three failures lock even when the third comes exactly 60 s after the second, which by the
      description is the first of a new count. */
  lemma ThirdAtSixtySecondsLocks(first: Time, second: Time)
    requires first <= second <= first + WINDOW
    ensures var two := AfterFailure(AfterFailure(RowOf(None), first), second);
            var three := AfterFailure(two, second + WINDOW);
            two.failedCount == 2 && !Locked(two, second + WINDOW)
            && three.failedCount == 3 && three.lockedUntil == Some(second + WINDOW + LOCKOUT)
  {
  }

  /** A success unlocks for good: no lock stands at any time, the next two failures do not lock, and a
      third one within the window does, for 60 s. */
  lemma SuccessStartsOver(now: Time, first: Time, second: Time, third: Time)
    requires now <= first <= second <= third && second - first <= WINDOW && third - second <= WINDOW
    ensures var row := AfterSuccess(now);
            var one := AfterFailure(row, first);
            var two := AfterFailure(one, second);
            var three := AfterFailure(two, third);
            && (forall t :: !Locked(row, t) && !Locked(one, t) && !Locked(two, t))
            && (forall t :: Locked(three, t) <==> t < third + 60 * SECOND)
  {
  }

  /** What is shown of a row: the attempts left are three minus the failures counted, never below zero,
      and the seconds left are those of a lock that stands. */
  lemma ProjectionIsHonest(row: Row, now: Time)
    ensures var shown := Project(Some(row), now);
            && shown.failedCount == row.failedCount && shown.lockedUntil == row.lockedUntil
            && (row.failedCount <= 3 ==> shown.remainingAttempts + row.failedCount == 3)
            && (row.failedCount >= 3 ==> shown.remainingAttempts == 0)
            && (!Locked(row, now) ==> shown.remainingLockS == 0)
            && (Locked(row, now) ==>
                  shown.remainingLockS * SECOND <= row.lockedUntil.value - now < (shown.remainingLockS + 1) * SECOND)
  {
  }

  // ---------------------------- the rate bound ---------------------------- //

  datatype Event =
    | Check(at: Time)   // check_or_raise lets an attempt through
    | Fail(at: Time)    // one of the attempts let through records its failure
    | Leave(at: Time)   // one of them ends without recording anything

  /** A verifier in a success-free run: its row, the attempts between check and record, the
      clock, and the times of the failures recorded so far. */
  datatype State = State(row: Row, inFlight: nat, clock: Time, fails: seq<Time>)

  predicate Legal(s: State, e: Event, overlap: nat) {
    && s.clock <= e.at
    && match e
       case Check(at) => !Locked(s.row, at) && s.inFlight < overlap
       case _ => s.inFlight > 0
  }

  function Do(s: State, e: Event): State
    requires s.inFlight > 0 || e.Check?
  {
    match e
    case Check(at) => s.(inFlight := s.inFlight + 1, clock := at)
    case Fail(at) => State(AfterFailure(s.row, at), s.inFlight - 1, at, s.fails + [at])
    case Leave(at) => s.(inFlight := s.inFlight - 1, clock := at)
  }

  function Start(): State { State(Row(0, None, None), 0, 0, []) }

  /** `run` goes through legal events from a verifier never used, at most `overlap` at once. */
  ghost predicate IsRun(run: seq<State>, overlap: nat) {
    && run != [] && run[0].(clock := 0) == Start()
    && forall i | 0 <= i < |run| - 1 :: Next(run[i], run[i + 1], overlap)
  }

  ghost predicate Next(s: State, t: State, overlap: nat) {
    exists e :: Legal(s, e, overlap) && t == Do(s, e)
  }

  /** Failure j is the third or later of a streak without a gap above the window. */
  predicate Hot(fails: seq<Time>, j: nat)
    requires j < |fails|
  {
    j >= 2 && fails[j] - fails[j - 1] <= WINDOW && fails[j - 1] - fails[j - 2] <= WINDOW
  }

  ghost predicate CountInv(s: State) {
    var n := |s.fails|;
    && (n == 0 <==> s.row.lastAttempt == None)
    && (n == 0 ==> s.row.failedCount == 0)
    && (n > 0 ==> s.row.lastAttempt == Some(s.fails[n - 1]) && s.row.failedCount >= 1)
    && (n > 0 && s.row.failedCount >= 2 <==> n >= 2 && s.fails[n - 1] - s.fails[n - 2] <= WINDOW)
    && (n > 0 && s.row.failedCount >= 3 <==> n > 0 && Hot(s.fails, n - 1))
  }

  ghost predicate OrderInv(s: State) {
    && (forall j | 0 <= j < |s.fails| :: s.fails[j] <= s.clock)
    && (forall i, j | 0 <= i <= j < |s.fails| :: s.fails[i] <= s.fails[j])
  }

  /** A streak of three keeps the lock shut for its full length ... */
  ghost predicate ShutInv(s: State) {
    forall j | 0 <= j < |s.fails| && Hot(s.fails, j) ::
      s.row.lockedUntil.Some? && s.row.lockedUntil.value >= s.fails[j] + LOCKOUT
  }

  /** ... so until then only attempts already under way can still fail ... */
  ghost predicate QueueInv(s: State, overlap: nat) {
    && s.inFlight <= overlap
    && (forall j | 0 <= j < |s.fails| && Hot(s.fails, j) && s.clock < s.fails[j] + LOCKOUT ::
          s.inFlight + (|s.fails| - 1 - j) <= overlap - 1)
  }

  /** ... and the `overlap`-th failure after it is past the lock. */
  ghost predicate SpreadInv(s: State, overlap: nat) {
    forall j, k | 0 <= j && j + overlap <= k < |s.fails| && Hot(s.fails, j) ::
      s.fails[k] >= s.fails[j] + LOCKOUT
  }

  ghost predicate BarrierInv(s: State, overlap: nat) {
    OrderInv(s) && ShutInv(s) && QueueInv(s, overlap) && SpreadInv(s, overlap)
  }

  lemma CountStep(s: State, e: Event, overlap: nat)
    requires Legal(s, e, overlap) && CountInv(s)
    ensures CountInv(Do(s, e))
  {
  }

  lemma BarrierIdle(s: State, e: Event, overlap: nat)
    requires overlap >= 1 && Legal(s, e, overlap) && BarrierInv(s, overlap) && !e.Fail?
    ensures BarrierInv(Do(s, e), overlap)
  {
  }

  lemma HotOfPrefix(s: State, at: Time, j: nat)
    requires j < |s.fails|
    ensures Hot(Do(s.(inFlight := 1), Fail(at)).fails, j) == Hot(s.fails, j)
  {
  }

  lemma ShutFail(s: State, at: Time, overlap: nat)
    requires Legal(s, Fail(at), overlap) && CountInv(s) && OrderInv(s) && ShutInv(s)
    ensures OrderInv(Do(s, Fail(at))) && ShutInv(Do(s, Fail(at)))
  {
    var t := Do(s, Fail(at));
    CountStep(s, Fail(at), overlap);
    forall j | 0 <= j < |t.fails| && Hot(t.fails, j)
      ensures t.row.lockedUntil.Some? && t.row.lockedUntil.value >= t.fails[j] + LOCKOUT
    {
      if j < |s.fails| { HotOfPrefix(s, at, j); }
    }
  }

  lemma QueueFail(s: State, at: Time, overlap: nat)
    requires Legal(s, Fail(at), overlap) && OrderInv(s) && QueueInv(s, overlap) && SpreadInv(s, overlap)
    ensures QueueInv(Do(s, Fail(at)), overlap) && SpreadInv(Do(s, Fail(at)), overlap)
  {
    var t := Do(s, Fail(at));
    var n := |s.fails|;
    forall j | 0 <= j < |t.fails| && Hot(t.fails, j) && t.clock < t.fails[j] + LOCKOUT
      ensures t.inFlight + (|t.fails| - 1 - j) <= overlap - 1
    {
      if j < n { HotOfPrefix(s, at, j); }
    }
    forall j, k | 0 <= j && j + overlap <= k < |t.fails| && Hot(t.fails, j)
      ensures t.fails[k] >= t.fails[j] + LOCKOUT
    {
      if j < n { HotOfPrefix(s, at, j); }
      if k == n && j < n { assert !(s.clock < s.fails[j] + LOCKOUT); }
    }
  }

  lemma {:induction false} RunInv(run: seq<State>, overlap: nat)
    requires overlap >= 1 && IsRun(run, overlap)
    ensures var s := run[|run| - 1]; CountInv(s) && BarrierInv(s, overlap)
  {
    var n := |run| - 1;
    if n > 0 {
      RunPrefix(run, overlap);
      RunInv(run[..n], overlap);
      assert Next(run[n - 1], run[n], overlap);
      StepInv(run[n - 1], run[n], overlap);
    }
  }

  lemma RunPrefix(run: seq<State>, overlap: nat)
    requires IsRun(run, overlap) && |run| > 1
    ensures IsRun(run[..|run| - 1], overlap)
  {
    var n := |run| - 1;
    forall i | 0 <= i < n - 1 ensures Next(run[..n][i], run[..n][i + 1], overlap) {
      assert Next(run[i], run[i + 1], overlap);
    }
  }

  lemma StepInv(s: State, t: State, overlap: nat)
    requires overlap >= 1 && CountInv(s) && BarrierInv(s, overlap) && Next(s, t, overlap)
    ensures CountInv(t) && BarrierInv(t, overlap)
  {
    var e :| Legal(s, e, overlap) && t == Do(s, e);
    CountStep(s, e, overlap);
    if e.Fail? {
      ShutFail(s, e.at, overlap);
      QueueFail(s, e.at, overlap);
    } else {
      BarrierIdle(s, e, overlap);
    }
  }

  /** With at most `overlap` attempts between check and record, the failure `overlap + 2` after a
      given one comes at least 60 s later. */
  lemma RateBound(run: seq<State>, overlap: nat, i: nat)
    requires overlap >= 1 && IsRun(run, overlap)
    requires i + overlap + 2 < |run[|run| - 1].fails|
    ensures var f := run[|run| - 1].fails; f[i + overlap + 2] - f[i] >= 60 * SECOND
  {
    RunInv(run, overlap);
    var f := run[|run| - 1].fails;
    assert f[i] <= f[i + 1] <= f[i + 2] <= f[i + 2 + overlap];
    if Hot(f, i + 2) {
      assert f[i + 2 + overlap] >= f[i + 2] + LOCKOUT;
    }
  }

  /** The documented case, one attempt at a time: three failures per minute. */
  lemma SequentialRateBound(run: seq<State>, i: nat)
    requires IsRun(run, 1) && i + 3 < |run[|run| - 1].fails|
    ensures var f := run[|run| - 1].fails; f[i + 3] - f[i] >= 60 * SECOND
  {
    RateBound(run, 1, i);
  }

  /** So n failures take at least 60 s for every full `overlap + 2` after the first. */
  lemma {:induction false} SpanBound(run: seq<State>, overlap: nat, k: nat)
    requires overlap >= 1 && IsRun(run, overlap)
    requires k * (overlap + 2) < |run[|run| - 1].fails|
    ensures 0 <= k * (overlap + 2)
    ensures var f := run[|run| - 1].fails; f[k * (overlap + 2)] - f[0] >= 60 * SECOND * k
  {
    MulNonNegative(k, overlap + 2);
    if k > 0 {
      MulNonNegative(k - 1, overlap + 2);
      MulSucc(k - 1, overlap + 2);
      SpanBound(run, overlap, k - 1);
      RateBound(run, overlap, (k - 1) * (overlap + 2));
    }
  }

  // The bound cannot be improved: `overlap + 2` failures can share one instant.

  function Burst(overlap: nat, step: nat): State {
    var two := State(Row(2, None, Some(0)), 0, 0, [0, 0]);
    if step <= overlap then two.(inFlight := step)
    else
      var done := Min(step - overlap, overlap);
      State(Row(2 + done, Some(LOCKOUT), Some(0)), overlap - done, 0, seq(2 + done, _ => 0))
  }

  lemma BurstStep(overlap: nat, step: nat)
    requires overlap >= 1 && step < 2 * overlap
    ensures Next(Burst(overlap, step), Burst(overlap, step + 1), overlap)
  {
    var s, t := Burst(overlap, step), Burst(overlap, step + 1);
    if step < overlap {
      assert Legal(s, Check(0), overlap) && t == Do(s, Check(0));
    } else {
      assert s.fails + [0] == t.fails;
      assert Legal(s, Fail(0), overlap) && t == Do(s, Fail(0));
    }
  }

  lemma BurstIsTight(overlap: nat) returns (run: seq<State>)
    requires overlap >= 1
    ensures IsRun(run, overlap)
    ensures var f := run[|run| - 1].fails; |f| == overlap + 2 && f[overlap + 1] == f[0]
  {
    var s0 := Start();
    var s1 := Do(s0, Check(0));
    var s2 := Do(s1, Fail(0));
    var s3 := Do(s2, Check(0));
    assert Legal(s0, Check(0), overlap) && Legal(s1, Fail(0), overlap) && Legal(s2, Check(0), overlap);
    assert Legal(s3, Fail(0), overlap) && Do(s3, Fail(0)) == Burst(overlap, 0);
    run := [s0, s1, s2, s3, Burst(overlap, 0)];
    var step := 0;
    while step < 2 * overlap
      invariant step <= 2 * overlap && |run| == step + 5
      invariant IsRun(run, overlap) && run[|run| - 1] == Burst(overlap, step)
    {
      BurstStep(overlap, step);
      run := run + [Burst(overlap, step + 1)];
      step := step + 1;
    }
  }

  /** Two attempts at once already beat the documented bound: four failures at one instant. */
  lemma OverlapBreaksThreePerMinute() returns (run: seq<State>)
    ensures IsRun(run, 2)
    ensures var f := run[|run| - 1].fails; |f| == 4 && f[3] - f[0] < 60 * SECOND
  {
    run := BurstIsTight(2);
  }

  predicate ThreePerMinute(fails: seq<Time>) {
    forall i | 0 <= i < |fails| - 3 :: fails[i + 3] - fails[i] >= 60 * SECOND
  }

  /** The documented bound holds of every run exactly when attempts never overlap. */
  lemma ThreePerMinuteIff(overlap: nat)
    requires overlap >= 1
    ensures (forall run: seq<State> | IsRun(run, overlap) :: ThreePerMinute(run[|run| - 1].fails)) <==> overlap == 1
  {
    if overlap == 1 {
      forall run: seq<State> | IsRun(run, overlap) ensures ThreePerMinute(run[|run| - 1].fails) {
        var f := run[|run| - 1].fails;
        forall i | 0 <= i < |f| - 3 ensures f[i + 3] - f[i] >= 60 * SECOND
        {
          SequentialRateBound(run, i);
        }
      }
    } else {
      var run := OverlapBreaksThreePerMinute();
      assert IsRun(run, overlap) by {
        forall j | 0 <= j < |run| - 1 ensures Next(run[j], run[j + 1], overlap) {
          assert Next(run[j], run[j + 1], 2);
          var e :| Legal(run[j], e, 2) && run[j + 1] == Do(run[j], e);
          assert Legal(run[j], e, overlap);
        }
      }
      var f := run[|run| - 1].fails;
      assert f[0 + 3] - f[0] < 60 * SECOND;
    }
  }

  /** No lock outlasts the last recorded attempt by more than 60 s, successes included. */
  predicate LockEnds(row: Row) {
    row.lockedUntil.Some? ==>
      row.lastAttempt.Some? && row.lockedUntil.value <= row.lastAttempt.value + LOCKOUT
  }

  lemma LockEndsKept(row: Row, now: Time)
    requires LockEnds(row) && (row.lastAttempt.Some? ==> row.lastAttempt.value <= now)
    ensures LockEnds(AfterFailure(row, now)) && LockEnds(AfterSuccess(now))
    ensures !Locked(AfterFailure(row, now), now + LOCKOUT)
  {
  }
}
