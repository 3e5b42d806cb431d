/**
 The touchscreen watcher (backend/app/scheduler/screen_lock_watcher.py): successive telemetry
 samples are differenced, and each new failure is forwarded to the anti-theft counter.
 */
module ScreenLockWatcher {
  import opened Common
  import AntiTheft

  type Slug = string
  type Time = int

  datatype Telemetry = Telemetry(errors: int, exceed: int, locked: bool)

  const NEVER_POLLED := Telemetry(0, 0, false)

  /** Failures that a sample adds to the one before it. */
  function NewFailures(prev: Telemetry, cur: Telemetry): nat {
    Max(0, cur.errors - prev.errors) + Max(0, cur.exceed - prev.exceed)
  }

  predicate IsSuccess(prev: Telemetry, cur: Telemetry) {
    (prev.errors > 0 || prev.exceed > 0) && cur.errors == 0 && cur.exceed == 0
  }

  /** All failures dispatched while `samples` arrive after `prev`. */
  function Dispatched(prev: Telemetry, samples: seq<Telemetry>): nat
    decreases samples
  {
    if samples == [] then 0 else NewFailures(prev, samples[0]) + Dispatched(samples[0], samples[1..])
  }

  /** The samples that are kept when the others are missed. */
  function Kept(samples: seq<Telemetry>, keep: seq<bool>): seq<Telemetry>
    requires |keep| == |samples|
  {
    if samples == [] then []
    else (if keep[0] then [samples[0]] else []) + Kept(samples[1..], keep[1..])
  }

  lemma Triangle(a: Telemetry, b: Telemetry, samples: seq<Telemetry>)
    ensures Dispatched(a, samples) <= NewFailures(a, b) + Dispatched(b, samples)
  {
  }

  /** Missing polls never makes the watcher count more failures. */
  lemma {:induction false} MissedPollsNeverOverCount(prev: Telemetry, samples: seq<Telemetry>, keep: seq<bool>)
    requires |keep| == |samples|
    ensures Dispatched(prev, Kept(samples, keep)) <= Dispatched(prev, samples)
    decreases samples
  {
    if samples != [] {
      var rest := Kept(samples[1..], keep[1..]);
      MissedPollsNeverOverCount(samples[0], samples[1..], keep[1..]);
      if keep[0] {
        assert Kept(samples, keep)[0] == samples[0] && Kept(samples, keep)[1..] == rest;
      } else {
        assert Kept(samples, keep) == rest;
        Triangle(prev, samples[0], rest);
      }
    }
  }

  predicate Rising(prev: Telemetry, samples: seq<Telemetry>)
    decreases samples
  {
    samples != [] ==>
      prev.errors <= samples[0].errors && prev.exceed <= samples[0].exceed && Rising(samples[0], samples[1..])
  }

  function Last(prev: Telemetry, samples: seq<Telemetry>): Telemetry {
    if samples == [] then prev else samples[|samples| - 1]
  }

  lemma {:induction false} RisingTelescopes(prev: Telemetry, samples: seq<Telemetry>)
    requires Rising(prev, samples)
    ensures var last := Last(prev, samples);
            && prev.errors <= last.errors && prev.exceed <= last.exceed
            && Dispatched(prev, samples) == (last.errors - prev.errors) + (last.exceed - prev.exceed)
    decreases samples
  {
    if samples != [] {
      RisingTelescopes(samples[0], samples[1..]);
    }
  }

  lemma {:induction false} KeptRises(prev: Telemetry, samples: seq<Telemetry>, keep: seq<bool>)
    requires |keep| == |samples| && Rising(prev, samples)
    ensures Rising(prev, Kept(samples, keep))
    ensures samples != [] && keep[|keep| - 1] ==>
              Kept(samples, keep) != [] && Last(prev, Kept(samples, keep)) == Last(prev, samples)
    decreases samples
  {
    if samples != [] {
      var rest := Kept(samples[1..], keep[1..]);
      var kept := Kept(samples, keep);
      KeptRises(samples[0], samples[1..], keep[1..]);
      if keep[0] {
        assert kept[0] == samples[0] && kept[1..] == rest;
      } else {
        assert kept == rest;
      }
    }
  }

  /** When neither counter ever drops, keeping only the last sample loses nothing. */
  lemma RisingPollsCountExactly(prev: Telemetry, samples: seq<Telemetry>, keep: seq<bool>)
    requires |keep| == |samples| && Rising(prev, samples) && samples != [] && keep[|keep| - 1]
    ensures Dispatched(prev, Kept(samples, keep)) == Dispatched(prev, samples)
  {
    KeptRises(prev, samples, keep);
    RisingTelescopes(prev, samples);
    RisingTelescopes(prev, Kept(samples, keep));
  }

  lemma {:induction false} DispatchedAppend(prev: Telemetry, samples: seq<Telemetry>, more: Telemetry)
    ensures Dispatched(prev, samples + [more]) == Dispatched(prev, samples) + NewFailures(Last(prev, samples), more)
    decreases samples
  {
    if samples != [] {
      assert (samples + [more])[1..] == samples[1..] + [more];
      DispatchedAppend(samples[0], samples[1..], more);
    }
  }

  /**
   * At a lockout gl_screen moves the whole streak from `errors` to `exceed`
   * (backend/app/slate/screen_lock.py:208-216). `prev.errors` failures of the streak are counted
   * already, so the lockout sample should bring the count to `streak - prev.errors`, and to `again`
   * more if it shows failures of a next streak. It does exactly when what the last poll had seen of
   * the streak, beyond `again`, is as much as was still showing of an earlier lockout: nothing, if
   * none was showing.
   */
  lemma LockoutCountsPolledStreakAgain(prev: Telemetry, samples: seq<Telemetry>, streak: nat, again: nat)
    requires Rising(prev, samples) && Last(prev, samples).exceed == prev.exceed >= 0
    ensures var seen := Last(prev, samples).errors;
            var counted := Dispatched(prev, samples + [Telemetry(again, streak, true)]);
            && counted == streak - prev.errors + again + Max(0, seen - again) - Min(prev.exceed, streak)
            && (counted == streak - prev.errors + again <==> Max(0, seen - again) == Min(prev.exceed, streak))
            && (prev.exceed == 0 && again == 0 && seen >= 0 ==>
                  (counted == streak - prev.errors <==> seen == 0))
  {
    RisingTelescopes(prev, samples);
    DispatchedAppend(prev, samples, Telemetry(again, streak, true));
  }

  /** Polled and pushed telemetry alike calls the screen locked when `exceed` is positive. */
  predicate AsRead(t: Telemetry) { t.locked <==> t.exceed > 0 }

  /** Success as the module's header has it (lines 14-20): the error counter drops to zero while the
      screen was not locked; a drop while it was locked is an expired lock and resets nothing. */
  predicate DescribedSuccess(prev: Telemetry, cur: Telemetry) {
    prev.errors > 0 && cur.errors == 0 && !prev.locked
  }

  /** The code forgives against that description exactly when a lock has just expired with both
      counters at zero, and withholds it exactly at the start of a lockout. */
  lemma ForgivesAsDescribedIff(prev: Telemetry, cur: Telemetry)
    requires AsRead(prev) && AsRead(cur)
    ensures IsSuccess(prev, cur) && !DescribedSuccess(prev, cur) <==> prev.locked && cur.errors == 0 == cur.exceed
    ensures !IsSuccess(prev, cur) && DescribedSuccess(prev, cur)
            <==> prev.errors > 0 && !prev.locked && cur.errors == 0 && cur.exceed != 0
  {
  }

  // ---------------------------- what reaches the counter ---------------------------- //

  function Failures(n: nat, now: Time): seq<AntiTheft.Event> { seq(n, _ => AntiTheft.Failure(now)) }

  lemma FailuresNext(n: nat, now: Time)
    ensures Failures(n, now) + [AntiTheft.Failure(now)] == Failures(n + 1, now)
  {
  }

  /** The anti-theft events that one sample dispatches: its failures, then its success if any. */
  function Events(prev: Telemetry, cur: Telemetry, now: Time): seq<AntiTheft.Event> {
    Failures(NewFailures(prev, cur), now)
    + if IsSuccess(prev, cur) then [AntiTheft.Success] else []
  }

  /** A sample applied twice dispatches nothing the second time. */
  lemma ReplayIsSilent(sample: Telemetry, now: Time)
    ensures Events(sample, sample, now) == []
  {
  }

  /** A success is dispatched only by a drop to zero, so never together with a failure
      (counters read from a device are not negative). */
  lemma SuccessWithoutFailure(prev: Telemetry, cur: Telemetry, now: Time)
    requires prev.errors >= 0 && prev.exceed >= 0
    ensures IsSuccess(prev, cur) ==> Events(prev, cur, now) == [AntiTheft.Success]
  {
  }

  function EventsOfAll(prev: Telemetry, samples: seq<Telemetry>, now: Time): seq<AntiTheft.Event>
    decreases samples
  {
    if samples == [] then []
    else Events(prev, samples[0], now) + EventsOfAll(samples[0], samples[1..], now)
  }

  lemma {:induction false} RisingOnlyFails(prev: Telemetry, samples: seq<Telemetry>, now: Time)
    requires Rising(prev, samples) && prev.errors >= 0 && prev.exceed >= 0
    ensures AntiTheft.OnlyFailures(EventsOfAll(prev, samples, now))
    ensures AntiTheft.FailuresIn(EventsOfAll(prev, samples, now)) == Dispatched(prev, samples)
    decreases samples
  {
    if samples != [] {
      RisingOnlyFails(samples[0], samples[1..], now);
      var n := NewFailures(prev, samples[0]);
      assert !IsSuccess(prev, samples[0]);
      var rest := EventsOfAll(samples[0], samples[1..], now);
      assert EventsOfAll(prev, samples, now) == Failures(n, now) + rest;
      FailuresAppend(n, rest, now);
    }
  }

  lemma {:induction false} FailuresAppend(n: nat, events: seq<AntiTheft.Event>, now: Time)
    ensures AntiTheft.FailuresIn(Failures(n, now) + events) == n + AntiTheft.FailuresIn(events)
    decreases n + |events|
  {
    var head := Failures(n, now);
    var all := head + events;
    if events != [] {
      assert all[..|all| - 1] == head + events[..|events| - 1];
      FailuresAppend(n, events[..|events| - 1], now);
    } else if n > 0 {
      assert all[..|all| - 1] == Failures(n - 1, now) + [];
      FailuresAppend(n - 1, [], now);
    }
  }

  lemma KeptFailures(prev: Telemetry, samples: seq<Telemetry>, keep: seq<bool>, now: Time)
    requires |keep| == |samples| && samples != [] && keep[|keep| - 1] && Rising(prev, samples)
    requires prev.errors >= 0 && prev.exceed >= 0
    ensures var seen := EventsOfAll(prev, Kept(samples, keep), now);
            var last := samples[|samples| - 1];
            && AntiTheft.OnlyFailures(seen)
            && AntiTheft.FailuresIn(seen) == (last.errors - prev.errors) + (last.exceed - prev.exceed)
  {
    var kept := Kept(samples, keep);
    KeptRises(prev, samples, keep);
    RisingTelescopes(prev, kept);
    RisingOnlyFails(prev, kept, now);
  }

  /** End to end: while the device's counters only grow, the number of actions fired depends on
      the last sample alone, not on which polls got through. */
  lemma FiringIgnoresMissedPolls(row: AntiTheft.Row, prev: Telemetry, samples: seq<Telemetry>, keep: seq<bool>,
                                 now: Time)
    requires row.policy.armed && row.policy.threshold >= 1 && row.totalFailures == 0
    requires |keep| == |samples| && samples != [] && keep[|keep| - 1] && Rising(prev, samples)
    requires prev.errors >= 0 && prev.exceed >= 0
    ensures var seen := EventsOfAll(prev, Kept(samples, keep), now);
            var last := samples[|samples| - 1];
            AntiTheft.Run(AntiTheft.Open(Some(row)), seen).fired
            == ((last.errors - prev.errors) + (last.exceed - prev.exceed)) / row.policy.threshold
  {
    KeptFailures(prev, samples, keep, now);
    AntiTheft.FloorOfThreshold(row, EventsOfAll(prev, Kept(samples, keep), now));
  }

  // ---------------------------- firing over arbitrary telemetry ---------------------------- //

  /** The failures of each stretch between samples that show everything cleared; `carry` were
      counted before the first sample. */
  function Stretches(prev: Telemetry, samples: seq<Telemetry>, carry: nat): (sums: seq<nat>)
    decreases samples
  {
    if samples == [] then [carry]
    else
      var sum := carry + NewFailures(prev, samples[0]);
      if IsSuccess(prev, samples[0]) then [sum] + Stretches(samples[0], samples[1..], 0)
      else Stretches(samples[0], samples[1..], sum)
  }

  function WholeThresholds(sums: seq<nat>, threshold: int): int
    requires threshold >= 1
  {
    if sums == [] then 0 else sums[0] / threshold + WholeThresholds(sums[1..], threshold)
  }

  lemma ThresholdsNext(sum: nat, sums: seq<nat>, threshold: int)
    requires threshold >= 1
    ensures WholeThresholds([sum] + sums, threshold) == sum / threshold + WholeThresholds(sums, threshold)
  {
    assert ([sum] + sums)[1..] == sums;
  }

  /** An armed row after `carry` failures since it was last cleared, `base` actions before them. */
  predicate Counting(b: AntiTheft.Books, policy: AntiTheft.Policy, base: int, carry: nat)
    requires policy.threshold >= 1
  {
    && b.row.Some? && b.row.value.policy == policy
    && b.row.value.totalFailures == carry % policy.threshold
    && b.fired == base + carry / policy.threshold
  }

  lemma CountOne(carry: nat, threshold: nat)
    requires threshold >= 1
    ensures carry % threshold + 1 >= threshold ==>
              (carry + 1) % threshold == 0 && (carry + 1) / threshold == carry / threshold + 1
    ensures carry % threshold + 1 < threshold ==>
              (carry + 1) % threshold == carry % threshold + 1 && (carry + 1) / threshold == carry / threshold
  {
    var q, r := carry / threshold, carry % threshold;
    assert carry == q * threshold + r;
    MulSucc(q, threshold);
    if r + 1 >= threshold {
      DivisionIs(carry + 1, threshold, q + 1, 0);
    } else {
      DivisionIs(carry + 1, threshold, q, r + 1);
    }
  }

  lemma {:induction false} FailuresCount(b: AntiTheft.Books, policy: AntiTheft.Policy, base: int, carry: nat,
                                         n: nat, now: Time)
    requires policy.armed && policy.threshold >= 1 && Counting(b, policy, base, carry)
    ensures Counting(AntiTheft.Run(b, Failures(n, now)), policy, base, carry + n)
  {
    if n > 0 {
      FailuresCount(b, policy, base, carry, n - 1, now);
      FailuresNext(n - 1, now);
      assert Failures(n, now)[..n - 1] == Failures(n - 1, now);
      CountOne(carry + n - 1, policy.threshold);
    }
  }

  lemma {:induction false} RunAppend(b: AntiTheft.Books, first: seq<AntiTheft.Event>, second: seq<AntiTheft.Event>)
    ensures AntiTheft.Run(b, first + second) == AntiTheft.Run(AntiTheft.Run(b, first), second)
    decreases |second|
  {
    if second == [] {
      assert first + second == first;
    } else {
      var n := |second| - 1;
      assert (first + second)[..|first + second| - 1] == first + second[..n];
      RunAppend(b, first, second[..n]);
    }
  }

  /** One sample adds its failures to the stretch, and closes it when everything is cleared. */
  lemma SampleCounts(b: AntiTheft.Books, policy: AntiTheft.Policy, base: int, carry: nat,
                     prev: Telemetry, cur: Telemetry, now: Time)
    requires policy.armed && policy.threshold >= 1 && Counting(b, policy, base, carry)
    ensures var c := AntiTheft.Run(b, Events(prev, cur, now));
            var sum := carry + NewFailures(prev, cur);
            if IsSuccess(prev, cur) then Counting(c, policy, base + sum / policy.threshold, 0)
            else Counting(c, policy, base, sum)
  {
    var n := NewFailures(prev, cur);
    FailuresCount(b, policy, base, carry, n, now);
    if IsSuccess(prev, cur) {
      RunAppend(b, Failures(n, now), [AntiTheft.Success]);
      assert [AntiTheft.Success][..0] == [];
    } else {
      assert Events(prev, cur, now) == Failures(n, now);
    }
  }

  lemma {:induction false} StretchesFire(b: AntiTheft.Books, policy: AntiTheft.Policy, base: int, carry: nat,
                                         prev: Telemetry, samples: seq<Telemetry>, now: Time)
    requires policy.armed && policy.threshold >= 1 && Counting(b, policy, base, carry)
    ensures AntiTheft.Run(b, EventsOfAll(prev, samples, now)).fired
            == base + WholeThresholds(Stretches(prev, samples, carry), policy.threshold)
    decreases samples
  {
    if samples != [] {
      var cur, rest := samples[0], samples[1..];
      var c := AntiTheft.Run(b, Events(prev, cur, now));
      var sum := carry + NewFailures(prev, cur);
      SampleCounts(b, policy, base, carry, prev, cur, now);
      assert EventsOfAll(prev, samples, now) == Events(prev, cur, now) + EventsOfAll(cur, rest, now);
      RunAppend(b, Events(prev, cur, now), EventsOfAll(cur, rest, now));
      if IsSuccess(prev, cur) {
        StretchesFire(c, policy, base + sum / policy.threshold, 0, cur, rest, now);
        ThresholdsNext(sum, Stretches(cur, rest, 0), policy.threshold);
      } else {
        StretchesFire(c, policy, base, sum, cur, rest, now);
      }
    }
  }

  /** Over any telemetry at all, an armed counter at zero fires once for every whole threshold of
      failures in each stretch between samples that show everything cleared. */
  lemma ArmedFiresByStretch(row: AntiTheft.Row, prev: Telemetry, samples: seq<Telemetry>, now: Time)
    requires row.policy.armed && row.policy.threshold >= 1 && row.totalFailures == 0
    ensures AntiTheft.Run(AntiTheft.Open(Some(row)), EventsOfAll(prev, samples, now)).fired
            == WholeThresholds(Stretches(prev, samples, 0), row.policy.threshold)
  {
    DivisionIs(0, row.policy.threshold, 0, 0);
    StretchesFire(AntiTheft.Open(Some(row)), row.policy, 0, 0, prev, samples, now);
  }

  lemma QuotientGrows(x: int, y: int, d: nat)
    requires d >= 1 && x <= y
    ensures x / d <= y / d
  {
    MultipleOutside(x / d - y / d, d);
    assert (x / d - y / d) * d == (x / d) * d - (y / d) * d;
    assert x == (x / d) * d + x % d && y == (y / d) * d + y % d;
  }

  lemma WholeAndRest(sum: nat, later: int, threshold: nat)
    requires threshold >= 1
    ensures (sum / threshold + later) * threshold <= sum + later * threshold
  {
    var q := sum / threshold;
    assert sum == q * threshold + sum % threshold;
    assert (q + later) * threshold == q * threshold + later * threshold;
  }

  lemma {:induction false} StretchesWithin(prev: Telemetry, samples: seq<Telemetry>, carry: nat, threshold: nat)
    requires threshold >= 1
    ensures WholeThresholds(Stretches(prev, samples, carry), threshold) * threshold <= carry + Dispatched(prev, samples)
    decreases samples
  {
    if samples == [] {
      WholeAndRest(carry, 0, threshold);
    } else {
      var cur, rest := samples[0], samples[1..];
      var sum := carry + NewFailures(prev, cur);
      if IsSuccess(prev, cur) {
        var later := WholeThresholds(Stretches(cur, rest, 0), threshold);
        StretchesWithin(cur, rest, 0, threshold);
        ThresholdsNext(sum, Stretches(cur, rest, 0), threshold);
        WholeAndRest(sum, later, threshold);
      } else {
        StretchesWithin(cur, rest, sum, threshold);
      }
    }
  }

  /** Whatever polls are missed, over any telemetry, no more actions fire than the failures of the whole
      telemetry are worth. */
  lemma MissedPollsFireAtMost(row: AntiTheft.Row, prev: Telemetry, samples: seq<Telemetry>, keep: seq<bool>, now: Time)
    requires row.policy.armed && row.policy.threshold >= 1 && row.totalFailures == 0 && |keep| == |samples|
    ensures AntiTheft.Run(AntiTheft.Open(Some(row)), EventsOfAll(prev, Kept(samples, keep), now)).fired
            <= Dispatched(prev, samples) / row.policy.threshold
  {
    var kept, threshold := Kept(samples, keep), row.policy.threshold;
    var fired := WholeThresholds(Stretches(prev, kept, 0), threshold);
    ArmedFiresByStretch(row, prev, kept, now);
    StretchesWithin(prev, kept, 0, threshold);
    MissedPollsNeverOverCount(prev, samples, keep);
    QuotientGrows(fired * threshold, Dispatched(prev, samples), threshold);
    DivisionIs(fired * threshold, threshold, fired, 0);
  }

  predicate Clear(t: Telemetry) { t.errors == 0 && t.exceed == 0 }

  predicate NotNegative(samples: seq<Telemetry>) { forall t | t in samples :: t.errors >= 0 && t.exceed >= 0 }

  /** No sample that shows everything newly cleared is missed. */
  predicate KeepsClears(prev: Telemetry, samples: seq<Telemetry>, keep: seq<bool>)
    requires |keep| == |samples|
    decreases samples
  {
    samples != [] ==> (IsSuccess(prev, samples[0]) ==> keep[0]) && KeepsClears(samples[0], samples[1..], keep[1..])
  }

  lemma KeptNext(samples: seq<Telemetry>, keep: seq<bool>)
    requires |keep| == |samples| && samples != []
    ensures var rest := Kept(samples[1..], keep[1..]);
            Kept(samples, keep) == if keep[0] then [samples[0]] + rest else rest
  {
  }

  lemma StretchesNext(prev: Telemetry, cur: Telemetry, rest: seq<Telemetry>, carry: nat)
    ensures var sum := carry + NewFailures(prev, cur);
            Stretches(prev, [cur] + rest, carry)
            == if IsSuccess(prev, cur) then [sum] + Stretches(cur, rest, 0) else Stretches(cur, rest, sum)
  {
    assert ([cur] + rest)[0] == cur && ([cur] + rest)[1..] == rest;
  }

  /** Side by side: `seen` is the last sample polled, with `fewer` failures carried, `prev` the last one
      there was, with `carry`. */
  lemma {:induction false} KeptFiresNoMore(prev: Telemetry, seen: Telemetry, samples: seq<Telemetry>, keep: seq<bool>,
                                           carry: nat, fewer: nat, threshold: nat)
    requires threshold >= 1 && |keep| == |samples| && KeepsClears(prev, samples, keep)
    requires NotNegative(samples) && NotNegative([prev, seen])
    requires fewer + NewFailures(seen, prev) <= carry
    requires (Clear(prev) ==> Clear(seen)) && (Clear(seen) ==> fewer == 0)
    ensures WholeThresholds(Stretches(seen, Kept(samples, keep), fewer), threshold)
            <= WholeThresholds(Stretches(prev, samples, carry), threshold)
    decreases samples
  {
    if samples == [] {
      QuotientGrows(fewer, carry, threshold);
    } else {
      var cur, rest, later := samples[0], samples[1..], keep[1..];
      assert samples == [cur] + rest && prev in [prev, seen] && seen in [prev, seen] && cur in samples;
      assert NotNegative(rest) && NotNegative([cur, cur]) && NotNegative([cur, seen]);
      KeptNext(samples, keep);
      StretchesNext(prev, cur, rest, carry);
      if keep[0] {
        StretchesNext(seen, cur, Kept(rest, later), fewer);
        var sum, less := carry + NewFailures(prev, cur), fewer + NewFailures(seen, cur);
        assert less <= sum;
        if IsSuccess(prev, cur) {
          KeptFiresNoMore(cur, cur, rest, later, 0, 0, threshold);
          QuotientGrows(less, sum, threshold);
          ThresholdsNext(sum, Stretches(cur, rest, 0), threshold);
          ThresholdsNext(less, Stretches(cur, Kept(rest, later), 0), threshold);
          QuotientGrows(0, sum, threshold);
          DivisionIs(0, threshold, 0, 0);
        } else {
          KeptFiresNoMore(cur, cur, rest, later, sum, less, threshold);
        }
      } else {
        KeptFiresNoMore(cur, seen, rest, later, carry + NewFailures(prev, cur), fewer, threshold);
      }
    }
  }

  /** Over any telemetry, polls that miss no newly cleared sample fire no more actions than all the polls
      together would. */
  lemma MissedPollsFireNoMore(row: AntiTheft.Row, prev: Telemetry, samples: seq<Telemetry>, keep: seq<bool>, now: Time)
    requires row.policy.armed && row.policy.threshold >= 1 && row.totalFailures == 0 && |keep| == |samples|
    requires NotNegative([prev] + samples) && KeepsClears(prev, samples, keep)
    ensures AntiTheft.Run(AntiTheft.Open(Some(row)), EventsOfAll(prev, Kept(samples, keep), now)).fired
            <= AntiTheft.Run(AntiTheft.Open(Some(row)), EventsOfAll(prev, samples, now)).fired
  {
    ArmedFiresByStretch(row, prev, samples, now);
    ArmedFiresByStretch(row, prev, Kept(samples, keep), now);
    assert NotNegative(samples) && NotNegative([prev, prev]) by {
      assert prev in [prev] + samples && forall t | t in samples :: t in [prev] + samples;
    }
    KeptFiresNoMore(prev, prev, samples, keep, 0, 0, row.policy.threshold);
  }

  /** Missing a cleared sample can fire an action that all the polls together would not, under every
      threshold above one: the failures before it are then not forgiven. */
  lemma MissedClearFiresMore(row: AntiTheft.Row, now: Time)
    requires row.policy.armed && row.policy.threshold >= 2 && row.totalFailures == 0
    ensures var before := Telemetry(row.policy.threshold - 1, 0, false);
            var samples := [before, NEVER_POLLED, Telemetry(0, 1, true)];
            && AntiTheft.Run(AntiTheft.Open(Some(row)), EventsOfAll(NEVER_POLLED, samples, now)).fired == 0
            && AntiTheft.Run(AntiTheft.Open(Some(row)), EventsOfAll(NEVER_POLLED, [before, samples[2]], now)).fired == 1
  {
    var n := row.policy.threshold;
    var before, after := Telemetry(n - 1, 0, false), Telemetry(0, 1, true);
    ArmedFiresByStretch(row, NEVER_POLLED, [before, NEVER_POLLED, after], now);
    ArmedFiresByStretch(row, NEVER_POLLED, [before, after], now);
    AroundClear(n);
    ThresholdsNext(n - 1, [1], n);
    WholeOfOne(1, n);
    WholeOfOne(n, n);
    DivisionIs(n - 1, n, 0, n - 1);
    DivisionIs(1, n, 0, 1);
    DivisionIs(n, n, 1, 0);
    assert [n - 1] + [1] == [n - 1, 1];
  }

  lemma WholeOfOne(sum: nat, threshold: int)
    requires threshold >= 1
    ensures WholeThresholds([sum], threshold) == sum / threshold
  {
    ThresholdsNext(sum, [], threshold);
    assert [sum] + [] == [sum];
  }

  lemma AroundClear(n: nat)
    requires n >= 2
    ensures var before, after := Telemetry(n - 1, 0, false), Telemetry(0, 1, true);
            && Stretches(NEVER_POLLED, [before, NEVER_POLLED, after], 0) == [n - 1, 1]
            && Stretches(NEVER_POLLED, [before, after], 0) == [n]
  {
    var before, after := Telemetry(n - 1, 0, false), Telemetry(0, 1, true);
    StretchesNext(NEVER_POLLED, before, [NEVER_POLLED, after], 0);
    StretchesNext(before, NEVER_POLLED, [after], n - 1);
    StretchesNext(NEVER_POLLED, after, [], 0);
    StretchesNext(NEVER_POLLED, before, [after], 0);
    StretchesNext(before, after, [], n - 1);
    assert [before] + [NEVER_POLLED, after] == [before, NEVER_POLLED, after] && [before] + [after] == [before, after];
    assert [NEVER_POLLED] + [after] == [NEVER_POLLED, after] && [after] + [] == [after];
  }

  /** `n` lockouts of `streak` failures, each polled once while it lasts and once after it expires. */
  function Lockouts(n: nat, streak: nat): seq<Telemetry> {
    if n == 0 then [] else [Telemetry(0, streak, true), Telemetry(0, 0, false)] + Lockouts(n - 1, streak)
  }

  lemma {:induction false} LockoutStretches(n: nat, streak: nat, threshold: nat)
    requires streak >= 1 && threshold >= 1
    ensures WholeThresholds(Stretches(NEVER_POLLED, Lockouts(n, streak), 0), threshold) == n * (streak / threshold)
  {
    if n == 0 {
      DivisionIs(0, threshold, 0, 0);
    } else {
      var all, rest := Lockouts(n, streak), Lockouts(n - 1, streak);
      var locked, cleared := all[0], all[1];
      assert all[1..] == [cleared] + rest && all[1..][1..] == rest;
      var sums := Stretches(cleared, rest, 0);
      assert Stretches(NEVER_POLLED, all, 0) == Stretches(locked, all[1..], streak) == [streak] + sums;
      ThresholdsNext(streak, sums, threshold);
      LockoutStretches(n - 1, streak, threshold);
      MulSucc(n - 1, streak / threshold);
    }
  }

  /** So however many lockouts are polled to their end, they fire nothing exactly when one streak is
      shorter than the threshold: each expiry forgives what came before. */
  lemma ExpiredLockoutsFireNothingIff(row: AntiTheft.Row, n: nat, streak: nat, now: Time)
    requires row.policy.armed && row.policy.threshold >= 1 && row.totalFailures == 0
    requires n >= 1 && streak >= 1
    ensures AntiTheft.Run(AntiTheft.Open(Some(row)), EventsOfAll(NEVER_POLLED, Lockouts(n, streak), now)).fired == 0
            <==> streak < row.policy.threshold
  {
    ArmedFiresByStretch(row, NEVER_POLLED, Lockouts(n, streak), now);
    LockoutStretches(n, streak, row.policy.threshold);
    NoWholeThresholdIff(n, streak, row.policy.threshold);
  }

  lemma NoWholeThresholdIff(n: nat, streak: nat, threshold: nat)
    requires n >= 1 && threshold >= 1
    ensures n * (streak / threshold) == 0 <==> streak < threshold
  {
    var q, r := streak / threshold, streak % threshold;
    assert streak == q * threshold + r;
    MultipleOutside(q, threshold);
    MulNonNegative(n - 1, q);
    MulSucc(n - 1, q);
  }

  /** What is left of a list of events when the hook calls at the positions in `lost` raise before they
      commit. */
  function Surviving(events: seq<AntiTheft.Event>, lost: set<nat>): seq<AntiTheft.Event> {
    if events == [] then []
    else
      var n := |events| - 1;
      Surviving(events[..n], lost) + if n in lost then [] else [events[n]]
  }

  // ---------------------------- the watcher ---------------------------- //

  datatype Shown = Shown(errors: int, exceed: int, locked: bool, polledAt: Option<Time>, error: string)

  function ShownAs(sample: Telemetry, now: Time): Shown {
    Shown(sample.errors, sample.exceed, sample.locked, Some(now), "")
  }

  /** A counter row after a list of events, without the ledger. */
  function RowAfter(row: Option<AntiTheft.Row>, events: seq<AntiTheft.Event>): Option<AntiTheft.Row> {
    AntiTheft.Run(AntiTheft.Open(row), events).row
  }

  lemma RowAfterMore(row: Option<AntiTheft.Row>, events: seq<AntiTheft.Event>, e: AntiTheft.Event)
    ensures RowAfter(row, events + [e]) == AntiTheft.Do(AntiTheft.Run(AntiTheft.Open(row), events), e).row
  {
    assert (events + [e])[..|events|] == events;
  }

  lemma SurvivingNext(row: Option<AntiTheft.Row>, events: seq<AntiTheft.Event>, e: AntiTheft.Event, lost: set<nat>)
    ensures Surviving(events + [e], lost)
            == Surviving(events, lost) + if |events| in lost then [] else [e]
    ensures RowAfter(row, Surviving(events + [e], lost))
            == if |events| in lost then RowAfter(row, Surviving(events, lost))
               else AntiTheft.Do(AntiTheft.Run(AntiTheft.Open(row), Surviving(events, lost)), e).row
  {
    var kept := Surviving(events, lost);
    assert (events + [e])[..|events|] == events;
    assert kept + [] == kept;
    RowAfterMore(row, kept, e);
  }

  /** The row after `n` failures, those in `lost` lost. */
  function RowForwarded(row: Option<AntiTheft.Row>, n: nat, lost: set<nat>, now: Time): Option<AntiTheft.Row> {
    RowAfter(row, Surviving(Failures(n, now), lost))
  }

  lemma ForwardNext(row: Option<AntiTheft.Row>, n: nat, lost: set<nat>, now: Time)
    ensures var before := RowForwarded(row, n, lost, now);
            RowForwarded(row, n + 1, lost, now)
            == if n in lost then before else Some(AntiTheft.AfterFailure(before, now))
  {
    SurvivingNext(row, Failures(n, now), AntiTheft.Failure(now), lost);
    FailuresNext(n, now);
  }

  class Watcher {
    var snapshots: map<Slug, (Telemetry, Shown)>
    const anti: AntiTheft.AntiTheftService

    constructor (anti: AntiTheft.AntiTheftService)
      ensures snapshots == map[] && this.anti == anti
    {
      snapshots := map[];
      this.anti := anti;
    }

    function Previous(slug: Slug): Telemetry
      reads this
    {
      if slug in snapshots then snapshots[slug].0 else NEVER_POLLED
    }

    /** `lost` are the hook calls, by position, that raise before they commit. A call that raises later, in
        the action or its note, has counted; either way the exception is logged and swallowed. */
    method ApplyTelemetry(slug: Slug, sample: Telemetry, lost: set<nat>, now: Time)
      modifies this, anti
      ensures snapshots == old(snapshots)[slug := (sample, ShownAs(sample, now))]
      ensures var shown := snapshots[slug].1;
              && shown.errors == sample.errors && shown.exceed == sample.exceed && shown.locked == sample.locked
              && shown.polledAt == Some(now) && shown.error == ""
      ensures anti.RowFor(slug)
              == RowAfter(old(anti.RowFor(slug)), Surviving(Events(old(Previous(slug)), sample, now), lost))
      ensures forall s | s != slug :: anti.RowFor(s) == old(anti.RowFor(s))
    {
      var prev := if slug in snapshots then snapshots[slug].0 else NEVER_POLLED;
      DiffAndDispatch(slug, prev, sample, lost, now);
      snapshots := snapshots[slug := (sample, Shown(sample.errors, sample.exceed, sample.locked, Some(now), ""))];
    }

    method DiffAndDispatch(slug: Slug, prev: Telemetry, cur: Telemetry, lost: set<nat>, now: Time)
      modifies anti
      ensures anti.RowFor(slug) == RowAfter(old(anti.RowFor(slug)), Surviving(Events(prev, cur, now), lost))
      ensures forall s | s != slug :: anti.RowFor(s) == old(anti.RowFor(s))
    {
      var errorsDelta := Max(0, cur.errors - prev.errors);
      var exceedDelta := Max(0, cur.exceed - prev.exceed);
      var newFailures := errorsDelta + exceedDelta;
      ghost var row := anti.RowFor(slug);
      ForwardFailures(slug, newFailures, lost, now);
      var prevHadState := prev.errors > 0 || prev.exceed > 0;
      var curClean := cur.errors == 0 && cur.exceed == 0;
      if prevHadState && curClean {
        SurvivingNext(row, Failures(newFailures, now), AntiTheft.Success, lost);
        if newFailures !in lost {
          anti.OnPinSuccess(slug);
        }
      } else {
        assert Events(prev, cur, now) == Failures(newFailures, now);
      }
    }

    method ForwardFailures(slug: Slug, count: nat, lost: set<nat>, now: Time)
      modifies anti
      ensures anti.RowFor(slug) == RowForwarded(old(anti.RowFor(slug)), count, lost, now)
      ensures forall s | s != slug :: anti.RowFor(s) == old(anti.RowFor(s))
    {
      ghost var row := anti.RowFor(slug);
      for i := 0 to count
        invariant anti.RowFor(slug) == RowForwarded(row, i, lost, now)
        invariant forall s | s != slug :: anti.RowFor(s) == old(anti.RowFor(s))
      {
        ForwardNext(row, i, lost, now);
        if i !in lost {
          ghost var before := anti.rows;
          var tripped := anti.OnPinFailure(slug, now);
          assert forall s | s != slug :: s in anti.rows <==> s in before;
        }
      }
    }

    /** A poll that failed keeps the last telemetry, so nothing is counted twice later. */
    method PollFailed(slug: Slug, error: string, now: Time)
      modifies this
      ensures Previous(slug) == old(Previous(slug)) && snapshots.Keys == old(snapshots.Keys) + {slug}
      ensures forall s | s in old(snapshots) && s != slug :: snapshots[s] == old(snapshots[s])
      ensures snapshots[slug].1.error <= error && |snapshots[slug].1.error| == Min(128, |error|)
      ensures snapshots[slug].1.polledAt == Some(now)
      ensures var shown := snapshots[slug].1;
              if slug in old(snapshots)
              then var was := old(snapshots[slug].1);
                   shown.errors == was.errors && shown.exceed == was.exceed && shown.locked == was.locked
              else shown.errors == 0 && shown.exceed == 0 && !shown.locked
    {
      var cut := Cut(error, 128);
      if slug in snapshots {
        var (tel, shown) := snapshots[slug];
        snapshots := snapshots[slug := (tel, shown.(polledAt := Some(now), error := cut))];
      } else {
        snapshots := snapshots[slug := (NEVER_POLLED, Shown(0, 0, false, Some(now), cut))];
      }
    }
  }
}
