/**
 The anti-theft counter (backend/app/security/anti_theft.py): one row per device whose cumulative
 failure counter fires an action when it reaches the threshold while armed. The action itself is
 abstract; only its note comes back.
 */
module AntiTheft {
  import opened Common

  type Slug = string
  type Time = int  // microseconds

  datatype Policy = Policy(armed: bool, threshold: int, action: string, webhook: string)

  datatype Fired = Fired(at: Time, kind: string)

  datatype Row = Row(policy: Policy, totalFailures: nat, lastAction: Option<Fired>, note: string)

  /** The row that `_get_or_create` adds and `_project(None)` shows. */
  function DefaultRow(): Row { Row(Policy(false, 10, "alert", ""), 0, None, "") }

  function RowOf(row: Option<Row>): Row { if row.Some? then row.value else DefaultRow() }

  predicate Trips(row: Row) {
    row.policy.armed && row.totalFailures + 1 >= row.policy.threshold
  }

  function AfterFailure(row: Option<Row>, now: Time): Row {
    var r := RowOf(row);
    if Trips(r) then r.(totalFailures := 0, lastAction := Some(Fired(now, r.policy.action)))
    else r.(totalFailures := r.totalFailures + 1)
  }

  function Cleared(row: Option<Row>): Option<Row> {
    if row.Some? then Some(row.value.(totalFailures := 0)) else None
  }

  function AfterUpsert(row: Option<Row>, policy: Policy): Row {
    RowOf(row).(policy := policy.(webhook := Cut(policy.webhook, 256)))
  }

  // ---------------------------- one device over a whole run ---------------------------- //

  datatype Event =
    | Failure(now: Time)
    | Success
    | Reset
    | Edit(policy: Policy)
    | Note(text: string)

  /** The row beside a ledger of every failure ever recorded for the device. */
  datatype Books = Books(
    row: Option<Row>, recorded: nat, consumed: nat, forgiven: nat, fired: nat)

  function Total(row: Option<Row>): nat { RowOf(row).totalFailures }

  function Do(b: Books, e: Event): Books {
    match e
    case Failure(now) =>
      var r := RowOf(b.row);
      var b' := b.(row := Some(AfterFailure(b.row, now)), recorded := b.recorded + 1);
      if Trips(r) then b'.(consumed := b.consumed + r.totalFailures + 1, fired := b.fired + 1) else b'
    case Success => b.(row := Cleared(b.row), forgiven := b.forgiven + Total(b.row))
    case Reset => b.(row := Cleared(b.row), forgiven := b.forgiven + Total(b.row))
    case Edit(policy) => b.(row := Some(AfterUpsert(b.row, policy)))
    case Note(text) => b.(row := if b.row.Some? then Some(b.row.value.(note := Cut(text, 512))) else None)
  }

  function Run(b: Books, events: seq<Event>): Books {
    if events == [] then b else Do(Run(b, events[..|events| - 1]), events[|events| - 1])
  }

  function Open(row: Option<Row>): Books { Books(row, Total(row), 0, 0, 0) }

  /** Every failure recorded is still counted, was consumed by a fired action, or was forgiven. */
  lemma {:induction false} LedgerBalances(row: Option<Row>, events: seq<Event>)
    ensures var b := Run(Open(row), events);
            b.recorded == Total(b.row) + b.consumed + b.forgiven
    decreases |events|
  {
    if events != [] {
      LedgerBalances(row, events[..|events| - 1]);
    }
  }

  /** Nothing fires in a stretch that starts disarmed and never sees an arming edit. */
  lemma {:induction false} DisarmedNeverFires(b: Books, events: seq<Event>)
    requires !RowOf(b.row).policy.armed
    requires forall e | e in events :: e.Edit? ==> !e.policy.armed
    ensures var c := Run(b, events);
            !RowOf(c.row).policy.armed && c.fired == b.fired && c.consumed == b.consumed
  {
    if events != [] {
      DisarmedNeverFires(b, events[..|events| - 1]);
    }
  }

  /** The failures that one firing takes: the threshold, or one failure if that is less than one. */
  function Quota(policy: Policy): nat { Max(1, policy.threshold) }

  /** While one armed policy stands, every firing consumes exactly its quota, whatever
      successes and resets come in between. */
  lemma {:induction false} ArmedConsumesQuota(row: Row, events: seq<Event>)
    requires row.policy.armed && row.totalFailures < Quota(row.policy)
    requires forall e | e in events :: !e.Edit?
    ensures var b := Run(Open(Some(row)), events);
            && b.row.Some? && b.row.value.policy == row.policy
            && b.row.value.totalFailures < Quota(row.policy)
            && b.consumed == b.fired * Quota(row.policy)
  {
    if events != [] {
      var last := |events| - 1;
      ArmedConsumesQuota(row, events[..last]);
      var b := Run(Open(Some(row)), events[..last]);
      MulSucc(b.fired, Quota(row.policy));
    }
  }

  /** So the number of actions fired is a division: unforgiven failures by the quota. */
  lemma ArmedFiresExactly(row: Row, events: seq<Event>)
    requires row.policy.armed && row.totalFailures < Quota(row.policy)
    requires forall e | e in events :: !e.Edit?
    ensures var b := Run(Open(Some(row)), events);
            b.fired == (b.recorded - b.forgiven) / Quota(row.policy)
  {
    var b := Run(Open(Some(row)), events);
    LedgerBalances(Some(row), events);
    ArmedConsumesQuota(row, events);
    DivisionIs(b.recorded - b.forgiven, Quota(row.policy), b.fired, b.row.value.totalFailures);
  }

  predicate OnlyFailures(events: seq<Event>) {
    forall e | e in events :: e.Failure? || e.Note?
  }

  function FailuresIn(events: seq<Event>): nat {
    if events == [] then 0
    else FailuresIn(events[..|events| - 1]) + if events[|events| - 1].Failure? then 1 else 0
  }

  lemma {:induction false} OnlyFailuresRecorded(b: Books, events: seq<Event>)
    requires OnlyFailures(events)
    ensures Run(b, events).recorded == b.recorded + FailuresIn(events)
    ensures Run(b, events).forgiven == b.forgiven
  {
    if events != [] {
      OnlyFailuresRecorded(b, events[..|events| - 1]);
    }
  }

  /** From a cleared armed counter, f failures fire floor(f / threshold) actions. */
  lemma FloorOfThreshold(row: Row, events: seq<Event>)
    requires row.policy.armed && row.policy.threshold >= 1 && row.totalFailures == 0
    requires OnlyFailures(events)
    ensures Run(Open(Some(row)), events).fired == FailuresIn(events) / row.policy.threshold
    ensures Total(Run(Open(Some(row)), events).row) == FailuresIn(events) % row.policy.threshold
  {
    var b := Run(Open(Some(row)), events);
    OnlyFailuresRecorded(Open(Some(row)), events);
    LedgerBalances(Some(row), events);
    ArmedConsumesQuota(row, events);
    DivisionIs(FailuresIn(events), Quota(row.policy), b.fired, b.row.value.totalFailures);
  }

  /** The policy that the latest edit of a run asked for, if there was one. */
  function LatestEdit(events: seq<Event>): Option<Policy> {
    if events == [] then None
    else if events[|events| - 1].Edit? then Some(events[|events| - 1].policy)
    else LatestEdit(events[..|events| - 1])
  }

  /** The policy in force is what the latest edit asked for, its web hook cut to 256 characters; before
      any edit it is that of the starting row, and a device without a row is disarmed at a threshold of 10. */
  lemma {:induction false} PolicyIsLatestEdit(row: Option<Row>, events: seq<Event>)
    ensures var policy := RowOf(Run(Open(row), events).row).policy;
            match LatestEdit(events)
            case None =>
              if row.Some? then policy == row.value.policy
              else !policy.armed && policy.threshold == 10 && policy.action == "alert" && policy.webhook == ""
            case Some(asked) =>
              && policy.armed == asked.armed && policy.threshold == asked.threshold && policy.action == asked.action
              && policy.webhook <= asked.webhook && |policy.webhook| == Min(256, |asked.webhook|)
  {
    if events != [] {
      PolicyIsLatestEdit(row, events[..|events| - 1]);
    }
  }

  /** An arming edit arms: on a device without failures, f failures after it fire floor(f / threshold)
      actions, and keep counting the rest. */
  lemma ArmingEditArms(row: Option<Row>, policy: Policy, events: seq<Event>)
    requires policy.armed && policy.threshold >= 1 && Total(row) == 0 && OnlyFailures(events)
    ensures var armed := Run(Open(row), [Edit(policy)]);
            var b := Run(Open(armed.row), events);
            b.fired == FailuresIn(events) / policy.threshold && Total(b.row) == FailuresIn(events) % policy.threshold
  {
    var armed := Run(Open(row), [Edit(policy)]);
    var edits := [Edit(policy)];
    assert edits[..|edits| - 1] == [] && Run(Open(row), []) == Open(row);
    assert armed == Do(Open(row), Edit(policy));
    FloorOfThreshold(armed.row.value, events);
  }

  /** What a counted failure leaves, said of its parts: the count goes up by one, or to zero with the
      action of the policy noted, and nothing else changes. */
  lemma FailureChangesCountAndAction(row: Row, now: Time)
    ensures var after := AfterFailure(Some(row), now);
            && after.policy == row.policy && after.note == row.note
            && (if row.policy.armed && row.totalFailures + 1 >= row.policy.threshold
                then after.totalFailures == 0 && after.lastAction.Some?
                     && after.lastAction.value.at == now && after.lastAction.value.kind == row.policy.action
                else after.totalFailures == row.totalFailures + 1 && after.lastAction == row.lastAction)
  {
  }

  /** Clearing a row leaves everything else of it as it is. */
  predicate OnlyCleared(before: Option<Row>, after: Option<Row>) {
    && (before.Some? <==> after.Some?)
    && (before.Some? ==>
          && after.value.totalFailures == 0 && after.value.policy == before.value.policy
          && after.value.lastAction == before.value.lastAction && after.value.note == before.value.note)
  }

  // ---------------------------- the service ---------------------------- //

  class AntiTheftService {
    var rows: map<Slug, Row>

    constructor ()
      ensures rows == map[]
    {
      rows := map[];
    }

    function RowFor(slug: Slug): Option<Row>
      reads this
    {
      if slug in rows then Some(rows[slug]) else None
    }

    /** The counting transaction of on_pin_failure; the caller then runs the action if it tripped. */
    method OnPinFailure(slug: Slug, now: Time) returns (tripped: bool)
      modifies this
      ensures rows == old(rows)[slug := AfterFailure(old(RowFor(slug)), now)]
      ensures tripped == Trips(RowOf(old(RowFor(slug))))
      ensures tripped ==>
                rows[slug].totalFailures == 0 && rows[slug].lastAction == Some(Fired(now, rows[slug].policy.action))
      ensures !tripped ==> rows[slug].totalFailures == old(Total(RowFor(slug))) + 1
      ensures slug !in old(rows) ==> !tripped && rows[slug].lastAction == None && rows[slug].note == ""
    {
      var row := if slug in rows then rows[slug] else DefaultRow();
      row := row.(totalFailures := row.totalFailures + 1);
      tripped := row.policy.armed && row.totalFailures >= row.policy.threshold;
      if tripped {
        row := row.(totalFailures := 0, lastAction := Some(Fired(now, row.policy.action)));
      }
      rows := rows[slug := row];
    }

    /** The second transaction of on_pin_failure: the note the action returned. */
    method WriteNote(slug: Slug, note: string)
      modifies this
      ensures rows == if slug in old(rows)
                      then old(rows)[slug := old(rows)[slug].(note := Cut(note, 512))]
                      else old(rows)
      ensures slug in rows ==> rows[slug].note <= note && |rows[slug].note| == Min(512, |note|)
    {
      if slug in rows {
        rows := rows[slug := rows[slug].(note := Cut(note, 512))];
      }
    }

    method OnPinSuccess(slug: Slug)
      modifies this
      ensures RowFor(slug) == Cleared(old(RowFor(slug))) && OnlyCleared(old(RowFor(slug)), RowFor(slug))
      ensures forall s | s != slug :: RowFor(s) == old(RowFor(s))
    {
      if slug in rows && rows[slug].totalFailures != 0 {
        rows := rows[slug := rows[slug].(totalFailures := 0)];
      }
    }

    method ResetCounter(slug: Slug) returns (shown: Row)
      modifies this
      ensures RowFor(slug) == Cleared(old(RowFor(slug))) && OnlyCleared(old(RowFor(slug)), RowFor(slug))
      ensures shown == RowOf(RowFor(slug)) && shown.totalFailures == 0
      ensures forall s | s != slug :: RowFor(s) == old(RowFor(s))
    {
      if slug in rows {
        rows := rows[slug := rows[slug].(totalFailures := 0)];
        shown := rows[slug];
      } else {
        shown := DefaultRow();
      }
    }

    method Upsert(slug: Slug, policy: Policy) returns (shown: Row)
      modifies this
      ensures rows == old(rows)[slug := AfterUpsert(old(RowFor(slug)), policy)] && shown == rows[slug]
      ensures shown.totalFailures == Total(old(RowFor(slug)))
      ensures shown.policy.armed == policy.armed && shown.policy.threshold == policy.threshold
      ensures shown.policy.action == policy.action
      ensures shown.policy.webhook <= policy.webhook && |shown.policy.webhook| == Min(256, |policy.webhook|)
      ensures slug in old(rows) ==> shown.lastAction == old(rows[slug].lastAction) && shown.note == old(rows[slug].note)
      ensures slug !in old(rows) ==> shown.lastAction == None && shown.note == ""
    {
      var cut := policy.(webhook := Cut(policy.webhook, 256));
      if slug in rows {
        shown := rows[slug].(policy := cut);
      } else {
        shown := Row(cut, 0, None, "");
      }
      rows := rows[slug := shown];
    }
  }
}
