/**
 The lockout service wired to the anti-theft service: the object of
 backend/app/security/pin_lockout.py, and what one device's counters add up to when failures come
 in through any number of scopes.
 */
module PinLockoutService {
  import opened Common
  import opened PinLockout
  import AntiTheft

  type Key = (Slug, Scope)

  class Service {
    var rows: map<Key, Row>
    const antiTheft: AntiTheft.AntiTheftService?

    constructor (antiTheft: AntiTheft.AntiTheftService?)
      ensures rows == map[] && this.antiTheft == antiTheft
    {
      rows := map[];
      this.antiTheft := antiTheft;
    }

    function RowFor(slug: Slug, scope: Scope): Option<Row>
      reads this
    {
      if (slug, scope) in rows then Some(rows[(slug, scope)]) else None
    }

    /** Ok, or the number of seconds of the 423 answer. */
    method CheckOrRaise(slug: Slug, scope: Scope, now: Time) returns (r: Result<(), nat>)
      ensures r.Ok? <==> !Locked(PinLockout.RowOf(RowFor(slug, scope)), now)
      ensures r.Err? ==> r.error == Project(RowFor(slug, scope), now).remainingLockS
    {
      if (slug, scope) !in rows { return Ok(()); }
      var row := rows[(slug, scope)];
      if row.lockedUntil.Some? && row.lockedUntil.value > now {
        return Err((row.lockedUntil.value - now) / SECOND);
      }
      return Ok(());
    }

    /** `counted` is false when the forwarded call raises before its count is committed. A call that raises
        later, in the action or its note, has counted; either way the exception is logged and swallowed. */
    method RecordFailure(slug: Slug, scope: Scope, now: Time, counted: bool) returns (shown: Snapshot)
      modifies this, antiTheft
      ensures rows == old(rows)[(slug, scope) := AfterFailure(PinLockout.RowOf(old(RowFor(slug, scope))), now)]
      ensures shown == Project(Some(rows[(slug, scope)]), now)
      ensures antiTheft != null ==>
                antiTheft.rows ==
                if counted then old(antiTheft.rows)[slug := AntiTheft.AfterFailure(old(antiTheft.RowFor(slug)), now)]
                else old(antiTheft.rows)
    {
      var row := if (slug, scope) in rows then rows[(slug, scope)] else Row(0, None, None);
      if row.lastAttempt.Some? {
        var cutoff := now - WINDOW;
        if row.lastAttempt.value < cutoff {
          row := row.(failedCount := 0);
        }
      }
      row := row.(failedCount := row.failedCount + 1, lastAttempt := Some(now));
      if row.failedCount >= MAX_FAILURES {
        row := row.(lockedUntil := Some(now + LOCKOUT));
      }
      rows := rows[(slug, scope) := row];
      shown := Project(Some(row), now);
      if antiTheft != null && counted {
        var tripped := antiTheft.OnPinFailure(slug, now);
      }
    }

    /** A scope never used before returns early, without forwarding the success; `cleared` is false when the
        forwarded call raises before it commits. */
    method RecordSuccess(slug: Slug, scope: Scope, now: Time, cleared: bool) returns (shown: Snapshot)
      modifies this, antiTheft
      ensures rows == if (slug, scope) in old(rows) then old(rows)[(slug, scope) := AfterSuccess(now)] else old(rows)
      ensures shown == Project(RowFor(slug, scope), now) && shown.remainingAttempts == MAX_FAILURES
      ensures shown.failedCount == 0 && shown.lockedUntil == None && shown.remainingLockS == 0
      ensures (slug, scope) in rows ==> forall t :: !Locked(rows[(slug, scope)], t)
      ensures antiTheft != null ==>
                && (forall s | s != slug :: antiTheft.RowFor(s) == old(antiTheft.RowFor(s)))
                && antiTheft.RowFor(slug) ==
                   if cleared && (slug, scope) in old(rows) then AntiTheft.Cleared(old(antiTheft.RowFor(slug)))
                   else old(antiTheft.RowFor(slug))
    {
      if (slug, scope) !in rows {
        return Snapshot(0, None, MAX_FAILURES, 0);
      }
      var row := rows[(slug, scope)];
      rows := rows[(slug, scope) := row.(failedCount := 0, lockedUntil := None, lastAttempt := Some(now))];
      shown := Project(Some(rows[(slug, scope)]), now);
      if antiTheft != null && cleared {
        antiTheft.OnPinSuccess(slug);
      }
    }
  }

  // ---------------------------- one device, every scope ---------------------------- //

  datatype DeviceEvent =
    | PinFailure(scope: Scope, now: Time, committed: bool)
    | PinSuccess(scope: Scope, now: Time, committed: bool)
    | Direct(event: AntiTheft.Event)  // touchscreen, resets, policy edits, notes

  /** The lockout rows of one device by scope, its anti-theft books, and the anti-theft events
      that reached them. */
  datatype Device = Device(rows: map<Scope, Row>, books: AntiTheft.Books, log: seq<AntiTheft.Event>)

  function Forward(d: Device, e: AntiTheft.Event): Device {
    d.(books := AntiTheft.Do(d.books, e), log := d.log + [e])
  }

  function ScopeRow(d: Device, scope: Scope): Row {
    if scope in d.rows then d.rows[scope] else PinLockout.RowOf(None)
  }

  function DoDevice(d: Device, e: DeviceEvent): Device {
    match e
    case PinFailure(scope, now, ok) =>
      var d' := d.(rows := d.rows[scope := AfterFailure(ScopeRow(d, scope), now)]);
      if ok then Forward(d', AntiTheft.Failure(now)) else d'
    case PinSuccess(scope, now, ok) =>
      if scope !in d.rows then d else
        var d' := d.(rows := d.rows[scope := AfterSuccess(now)]);
        if ok then Forward(d', AntiTheft.Success) else d'
    case Direct(event) => Forward(d, event)
  }

  function RunDevice(d: Device, events: seq<DeviceEvent>): Device {
    if events == [] then d else DoDevice(RunDevice(d, events[..|events| - 1]), events[|events| - 1])
  }

  function NewDevice(row: Option<AntiTheft.Row>): Device { Device(map[], AntiTheft.Open(row), []) }

  /** The clock never goes back between lockout events, and `t` is not before any of them. */
  predicate Timed(events: seq<DeviceEvent>, t: Time) {
    && (forall i | 0 <= i < |events| && !events[i].Direct? :: events[i].now <= t)
    && (forall i, j | 0 <= i < j < |events| && !events[i].Direct? && !events[j].Direct? ::
        events[i].now <= events[j].now)
  }

  /** In every run, successes and failures of all scopes mixed, a lock ends at most 60 s after the
      last attempt of its scope. */
  lemma {:induction false} LocksEndInTime(row: Option<AntiTheft.Row>, events: seq<DeviceEvent>, scope: Scope, t: Time)
    requires Timed(events, t)
    ensures var d := RunDevice(NewDevice(row), events);
            scope in d.rows ==>
              LockEnds(d.rows[scope]) && d.rows[scope].lastAttempt.Some?
              && d.rows[scope].lastAttempt.value <= t && !Locked(d.rows[scope], t + LOCKOUT)
  {
    if events != [] {
      var before, e := events[..|events| - 1], events[|events| - 1];
      var now := if e.Direct? then t else e.now;
      LocksEndInTime(row, before, scope, now);
      if !e.Direct? && e.scope == scope {
        LockEndsKept(ScopeRow(RunDevice(NewDevice(row), before), e.scope), e.now);
      }
    }
  }

  /** The failures of a scope since its last success. */
  function SinceSuccess(events: seq<DeviceEvent>, scope: Scope): nat {
    if events == [] then 0
    else
      var before, e := SinceSuccess(events[..|events| - 1], scope), events[|events| - 1];
      if e.PinFailure? && e.scope == scope then before + 1
      else if e.PinSuccess? && e.scope == scope then 0
      else before
  }

  /** In every run a scope is locked only if at least three failures followed its last success. */
  lemma {:induction false} LockNeedsThreeFailures(row: Option<AntiTheft.Row>, events: seq<DeviceEvent>, scope: Scope)
    ensures var d := RunDevice(NewDevice(row), events);
            if scope in d.rows
            then d.rows[scope].failedCount <= SinceSuccess(events, scope)
                 && forall t :: Locked(d.rows[scope], t) ==> SinceSuccess(events, scope) >= 3
            else SinceSuccess(events, scope) == 0
  {
    if events != [] {
      var before, e := events[..|events| - 1], events[|events| - 1];
      var was, d := RunDevice(NewDevice(row), before), RunDevice(NewDevice(row), events);
      LockNeedsThreeFailures(row, before, scope);
      if e.PinFailure? && e.scope == scope && d.rows[scope].failedCount < 3 {
        assert d.rows[scope].lockedUntil == ScopeRow(was, scope).lockedUntil;
        assert forall t :: Locked(d.rows[scope], t) == Locked(ScopeRow(was, scope), t);
      }
    }
  }

  /** Failures that reached the anti-theft counter, whatever their scope. */
  function Forwarded(events: seq<DeviceEvent>): nat {
    if events == [] then 0 else
      var e := events[|events| - 1];
      Forwarded(events[..|events| - 1])
      + if (e.PinFailure? && e.committed) || (e.Direct? && e.event.Failure?) then 1 else 0
  }

  lemma {:induction false} BooksFollowLog(row: Option<AntiTheft.Row>, events: seq<DeviceEvent>)
    ensures var d := RunDevice(NewDevice(row), events);
            d.books == AntiTheft.Run(AntiTheft.Open(row), d.log)
  {
    if events != [] {
      var before := RunDevice(NewDevice(row), events[..|events| - 1]);
      BooksFollowLog(row, events[..|events| - 1]);
      var d := RunDevice(NewDevice(row), events);
      if d.log != before.log {
        assert d.log[..|d.log| - 1] == before.log;
      }
    }
  }

  /** The ledger across both services: failures in any scope, touchscreen failures, successes,
      resets and policy edits in any order. */
  lemma {:induction false} CrossServiceLedger(row: Option<AntiTheft.Row>, events: seq<DeviceEvent>)
    ensures var b := RunDevice(NewDevice(row), events).books;
            && b.recorded == AntiTheft.Total(row) + Forwarded(events)
            && b.recorded == AntiTheft.Total(b.row) + b.consumed + b.forgiven
  {
    BooksFollowLog(row, events);
    AntiTheft.LedgerBalances(row, RunDevice(NewDevice(row), events).log);
    RecordedIsForwarded(row, events);
  }

  lemma {:induction false} RecordedIsForwarded(row: Option<AntiTheft.Row>, events: seq<DeviceEvent>)
    ensures RunDevice(NewDevice(row), events).books.recorded == AntiTheft.Total(row) + Forwarded(events)
  {
    if events != [] {
      RecordedIsForwarded(row, events[..|events| - 1]);
    }
  }

  predicate FailuresOnly(events: seq<DeviceEvent>) {
    forall e | e in events :: e.PinFailure? || (e.Direct? && (e.event.Failure? || e.event.Note?))
  }

  lemma {:induction false} LogOfFailures(row: Option<AntiTheft.Row>, events: seq<DeviceEvent>)
    requires FailuresOnly(events)
    ensures var d := RunDevice(NewDevice(row), events);
            AntiTheft.OnlyFailures(d.log) && AntiTheft.FailuresIn(d.log) == Forwarded(events)
  {
    if events != [] {
      var before := RunDevice(NewDevice(row), events[..|events| - 1]);
      LogOfFailures(row, events[..|events| - 1]);
      var d := RunDevice(NewDevice(row), events);
      if d.log != before.log {
        assert d.log[..|d.log| - 1] == before.log;
      }
    }
  }

  /** However the lockout windows reset on the way, f failures spread over any scopes fire
      exactly floor(f / threshold) actions. */
  lemma LockoutNeverHidesFailures(row: AntiTheft.Row, events: seq<DeviceEvent>)
    requires row.policy.armed && row.policy.threshold >= 1 && row.totalFailures == 0
    requires FailuresOnly(events)
    ensures RunDevice(NewDevice(Some(row)), events).books.fired == Forwarded(events) / row.policy.threshold
  {
    BooksFollowLog(Some(row), events);
    LogOfFailures(Some(row), events);
    AntiTheft.FloorOfThreshold(row, RunDevice(NewDevice(Some(row)), events).log);
  }

  /** A verified PIN clears the anti-theft counter exactly when its scope already has a lockout
      row (or there was nothing to clear). */
  lemma SuccessForgivesIff(d: Device, scope: Scope, now: Time)
    ensures AntiTheft.Total(DoDevice(d, PinSuccess(scope, now, true)).books.row) == 0
            <==> scope in d.rows || AntiTheft.Total(d.books.row) == 0
  {
  }

  lemma SuccessInNewScopeForgivesNothing() returns (d: Device)
    ensures d == RunDevice(NewDevice(None), [Direct(AntiTheft.Failure(0)), PinSuccess("export_ssh_key", 1, true)])
    ensures AntiTheft.Total(d.books.row) == 1
  {
    var es := [Direct(AntiTheft.Failure(0)), PinSuccess("export_ssh_key", 1, true)];
    assert es[..1] == [Direct(AntiTheft.Failure(0))] && es[..1][..0] == [];
    d := RunDevice(NewDevice(None), es);
    assert RunDevice(NewDevice(None), es[..1]) == DoDevice(RunDevice(NewDevice(None), []), es[0]);
  }
}
