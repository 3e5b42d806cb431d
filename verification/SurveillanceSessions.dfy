/**
 The life of surveillance sessions (backend/app/scheduler/surveillance.py:67-324) as a step
 machine. One step is what runs between two awaits that let others in: a database transaction
 together with the scheduler calls made in it. Starting a session commits the row and only then
 schedules its jobs; cancelling commits the row and only then removes them; a scan pass checks
 the session, scans, and persists later.
 */
module SurveillanceSessions {
  import opened Common
  import opened ApRoot

  datatype SessionId = SessionId(value: int)

  datatype Status = Active | Completed | Cancelled

  datatype Session = Session(
    device: string, status: Status, startedAt: int, duration: int, interval: int, bands: string,
    endedAt: Option<int>, totalPasses: nat, uniqueBssids: nat)

  datatype Job = Job(id: SessionId, band: string)

  /** A persisted scan: its session, its band and the BSSIDs of its neighbours. */
  datatype ScanRun = ScanRun(id: SessionId, band: string, bssids: seq<string>)

  /**
   * The tables and the scheduler's jobs; then the coroutines between two of their steps: starts
   * that have not scheduled yet, cancellations that have not removed the jobs yet, and passes
   * between their check and their persist.
   */
  datatype State = State(
    sessions: map<SessionId, Session>, runs: seq<ScanRun>, jobs: set<Job>,
    starting: set<SessionId>, cancelling: set<SessionId>, passes: set<Job>)

  // ---------------------------- bands ---------------------------- //

  predicate IsBand(b: string) { b == "2" || b == "5" || b == "6" }

  function KeepBands(parts: seq<string>): seq<string> {
    if parts == [] then []
    else (if IsBand(Strip(parts[0])) then [Strip(parts[0])] else []) + KeepBands(parts[1..])
  }

  /** `_parse_bands`. */
  function ParseBands(csv: string): seq<string> { KeepBands(Split(csv, ',')) }

  lemma {:induction false} KeepKept(parts: seq<string>)
    ensures forall b | b in KeepBands(parts) :: IsBand(b)
    ensures (forall b | b in parts :: IsBand(b)) ==> KeepBands(parts) == parts
  {
    if parts != [] {
      KeepKept(parts[1..]);
      if forall b | b in parts :: IsBand(b) {
        assert parts[0] in parts;
        assert Strip(parts[0]) == parts[0] && [parts[0]] + parts[1..] == parts;
      }
    }
  }

  /** What is stored, the parsed bands joined again, parses back to them. */
  lemma BandsRoundTrip(csv: string)
    requires ParseBands(csv) != []
    ensures ParseBands(Join(ParseBands(csv), ',')) == ParseBands(csv)
  {
    KeepKept(Split(csv, ','));
    forall b | b in ParseBands(csv) ensures ',' !in b {
    }
    SplitJoin(ParseBands(csv), ',');
    KeepKept(ParseBands(csv));
  }

  // ---------------------------- steps ---------------------------- //

  predicate Overdue(s: Session, now: int) { s.status.Active? && s.startedAt + s.duration <= now }

  function Finish(s: Session, status: Status, now: int): Session { s.(status := status, endedAt := Some(now)) }

  function JobsOf(id: SessionId, bands: seq<string>): set<Job> { set b | b in bands :: Job(id, b) }

  predicate ListedBy(sessions: map<SessionId, Session>, j: Job) {
    j.id in sessions && j.band in ParseBands(sessions[j.id].bands)
  }

  function Begin(device: string, csv: string, duration: int, interval: int, now: int): Session {
    Session(device, Active, now, duration, interval, Join(ParseBands(csv), ','), None, 0, 0)
  }

  function BssidsOf(runs: seq<ScanRun>, id: SessionId): set<string> {
    set r, b | r in runs && r.id == id && b in r.bssids :: b
  }

  function Counted(s: Session, runs: seq<ScanRun>, id: SessionId): Session {
    if s.status.Active? then s.(totalPasses := s.totalPasses + 1, uniqueBssids := |BssidsOf(runs, id)|) else s
  }

  /** The overdue sessions among `ids` become completed. */
  function Finalized(sessions: map<SessionId, Session>, ids: set<SessionId>, now: int): map<SessionId, Session> {
    map id | id in sessions ::
      if id in ids && Overdue(sessions[id], now) then Finish(sessions[id], Completed, now) else sessions[id]
  }

  /** The jobs that stay when the listed jobs of the overdue sessions among `ids` are removed. */
  function JobsKept(jobs: set<Job>, sessions: map<SessionId, Session>, ids: set<SessionId>, now: int): set<Job> {
    set j | j in jobs && !(j.id in ids && ListedBy(sessions, j) && Overdue(sessions[j.id], now))
  }

  /** The jobs that `register_all` schedules. */
  function JobsDue(sessions: map<SessionId, Session>, ids: set<SessionId>, now: int): set<Job> {
    set id, b | id in ids && id in sessions && sessions[id].status.Active? && !Overdue(sessions[id], now)
                && b in ParseBands(sessions[id].bands) :: Job(id, b)
  }

  datatype Event =
    | StartCommit(id: SessionId, device: string, csv: string, duration: int, interval: int, now: int)
    | StartSchedule(id: SessionId)
    | CancelCommit(id: SessionId, now: int)
    | CancelRemove(id: SessionId)
    | PassCheck(job: Job)
    | PassFail(job: Job)
    | PassPersist(job: Job, bssids: seq<string>)
    | Supervise(now: int)
    | Restart(now: int)

  /** A pass starts from a job, one at a time for each; a restart drops jobs and coroutines. */
  predicate Enabled(st: State, e: Event) {
    match e
    case StartCommit(id, _, csv, _, _, _) => id !in st.sessions && ParseBands(csv) != []
    case StartSchedule(id) => id in st.starting
    case CancelRemove(id) => id in st.cancelling
    case PassCheck(job) => job in st.jobs && job !in st.passes
    case PassFail(job) => job in st.passes
    case PassPersist(job, _) => job in st.passes
    case _ => true
  }

  predicate IsActive(st: State, id: SessionId) { id in st.sessions && st.sessions[id].status.Active? }

  function BandsOf(st: State, id: SessionId): seq<string> {
    if id in st.sessions then ParseBands(st.sessions[id].bands) else []
  }

  function Persist(st: State, job: Job, bssids: seq<string>): State {
    var runs := st.runs + [ScanRun(job.id, job.band, bssids)];
    st.(runs := runs, passes := st.passes - {job},
        sessions := if job.id in st.sessions then st.sessions[job.id := Counted(st.sessions[job.id], runs, job.id)]
                    else st.sessions)
  }

  function Step(st: State, e: Event): State {
    match e
    case StartCommit(id, device, csv, duration, interval, now) =>
      st.(sessions := st.sessions[id := Begin(device, csv, duration, interval, now)], starting := st.starting + {id})
    case StartSchedule(id) => st.(jobs := st.jobs + JobsOf(id, BandsOf(st, id)), starting := st.starting - {id})
    case CancelCommit(id, now) =>
      if !IsActive(st, id) then st
      else st.(sessions := st.sessions[id := Finish(st.sessions[id], Cancelled, now)],
               cancelling := st.cancelling + {id})
    case CancelRemove(id) => st.(jobs := st.jobs - JobsOf(id, BandsOf(st, id)), cancelling := st.cancelling - {id})
    case PassCheck(job) => if IsActive(st, job.id) then st.(passes := st.passes + {job}) else st
    case PassFail(job) => st.(passes := st.passes - {job})
    case PassPersist(job, bssids) => Persist(st, job, bssids)
    case Supervise(now) =>
      st.(sessions := Finalized(st.sessions, st.sessions.Keys, now),
          jobs := JobsKept(st.jobs, st.sessions, st.sessions.Keys, now))
    case Restart(now) =>
      State(Finalized(st.sessions, st.sessions.Keys, now), st.runs,
            JobsDue(st.sessions, st.sessions.Keys, now), {}, {}, {})
  }

  const EMPTY: State := State(map[], [], {}, {}, {}, {})

  predicate Follows(st: State, e: Event, next: State) { Enabled(st, e) && next == Step(st, e) }

  ghost predicate Run(states: seq<State>, events: seq<Event>) {
    && |states| == |events| + 1 && states[0] == EMPTY
    && forall k | 0 <= k < |events| :: Follows(states[k], events[k], states[k + 1])
  }

  // ---------------------------- rows ---------------------------- //

  function RunsOf(runs: seq<ScanRun>, id: SessionId): nat {
    if runs == [] then 0
    else RunsOf(runs[..|runs| - 1], id) + (if runs[|runs| - 1].id == id then 1 else 0)
  }

  /** A row: the end is recorded exactly when the session is over, never before the deadline
      unless it was cancelled, and the counters of an active session are those of its runs. */
  predicate RowInv(s: Session, runs: seq<ScanRun>, id: SessionId) {
    && (s.endedAt.Some? <==> !s.status.Active?)
    && (s.status.Completed? ==> s.startedAt + s.duration <= s.endedAt.value)
    && (s.status.Active? ==> s.totalPasses == RunsOf(runs, id) && s.uniqueBssids == |BssidsOf(runs, id)|)
    && s.totalPasses <= RunsOf(runs, id)
    && ParseBands(s.bands) != []
  }

  /** Coroutines, jobs, passes and runs belong to sessions that exist and list their bands. */
  ghost predicate Inv(st: State) {
    && (forall id | id in st.sessions :: RowInv(st.sessions[id], st.runs, id))
    && (forall id | id in st.starting || id in st.cancelling :: id in st.sessions)
    && (forall id | id in st.cancelling :: !IsActive(st, id))
    && (forall j | j in st.jobs || j in st.passes :: ListedBy(st.sessions, j))
    && (forall r | r in st.runs :: r.id in st.sessions)
  }

  lemma {:induction false} NoRuns(runs: seq<ScanRun>, id: SessionId)
    requires forall r | r in runs :: r.id != id
    ensures RunsOf(runs, id) == 0 && BssidsOf(runs, id) == {}
  {
    if runs != [] {
      NoRuns(runs[..|runs| - 1], id);
    }
  }

  lemma RunAdded(runs: seq<ScanRun>, run: ScanRun, id: SessionId)
    ensures RunsOf(runs + [run], id) == RunsOf(runs, id) + (if run.id == id then 1 else 0)
    ensures run.id != id ==> BssidsOf(runs + [run], id) == BssidsOf(runs, id)
  {
    assert (runs + [run])[..|runs|] == runs;
    if run.id != id {
      assert forall r: ScanRun | r.id == id :: r in runs + [run] <==> r in runs;
    }
  }

  lemma StartKeeps(st: State, id: SessionId, device: string, csv: string, duration: int, interval: int, now: int)
    requires Inv(st) && id !in st.sessions
    ensures ParseBands(csv) != [] ==> Inv(Step(st, StartCommit(id, device, csv, duration, interval, now)))
  {
    NoRuns(st.runs, id);
    if ParseBands(csv) != [] { BandsRoundTrip(csv); }
  }

  lemma PersistKeeps(st: State, e: Event)
    requires Inv(st) && Enabled(st, e) && e.PassPersist?
    ensures Inv(Step(st, e))
  {
    var next := Step(st, e);
    forall id | id in next.sessions ensures RowInv(next.sessions[id], next.runs, id) {
      assert RowInv(st.sessions[id], st.runs, id);
      RunAdded(st.runs, ScanRun(e.job.id, e.job.band, e.bssids), id);
    }
  }

  /** Ending the overdue sessions keeps every row, and each session's bands. */
  lemma FinalizedRows(st: State, now: int)
    requires Inv(st)
    ensures var after := Finalized(st.sessions, st.sessions.Keys, now);
            && after.Keys == st.sessions.Keys
            && (forall id | id in after :: RowInv(after[id], st.runs, id))
            && (forall j :: ListedBy(after, j) <==> ListedBy(st.sessions, j))
            && (forall id | id in after :: after[id].status.Active? ==> st.sessions[id].status.Active?)
  {
    var after := Finalized(st.sessions, st.sessions.Keys, now);
    forall id | id in after ensures RowInv(after[id], st.runs, id) {
      assert RowInv(st.sessions[id], st.runs, id);
    }
  }

  lemma StepKeeps(st: State, e: Event, next: State)
    requires Inv(st) && Follows(st, e, next)
    ensures Inv(next)
  {
    match e
    case StartCommit(id, device, csv, duration, interval, now) =>
      StartKeeps(st, id, device, csv, duration, interval, now);
    case PassPersist(_, _) => PersistKeeps(st, e);
    case Supervise(now) => FinalizedRows(st, now);
    case Restart(now) => FinalizedRows(st, now);
    case _ =>
  }

  /** Every reachable state: `ended_at` is set exactly when a session is over, an active session's
      counters are those of its persisted runs, and jobs and passes run listed bands only. */
  lemma {:induction false} RunKeeps(states: seq<State>, events: seq<Event>, k: nat)
    requires Run(states, events) && k < |states|
    ensures Inv(states[k])
  {
    if k > 0 {
      RunKeeps(states, events, k - 1);
      StepKeeps(states[k - 1], events[k - 1], states[k]);
    }
  }

  /** Which bands a list asks for: those of its parts that are one, white space aside. */
  lemma {:induction false} KeptBandsAre(parts: seq<string>, b: string)
    ensures b in KeepBands(parts) <==> b in {"2", "5", "6"} && exists part :: part in parts && Strip(part) == b
  {
    if parts != [] {
      KeptBandsAre(parts[1..], b);
      assert parts == [parts[0]] + parts[1..];
      if part :| part in parts && Strip(part) == b {
        assert part == parts[0] || part in parts[1..];
      }
      if part :| part in parts[1..] && Strip(part) == b {
        assert part in parts;
      }
      assert parts[0] in parts;
    }
  }

  predicate AsksFor(csv: string, b: string) {
    b in {"2", "5", "6"} && exists part :: part in Split(csv, ',') && Strip(part) == b
  }

  /** What the row of a session keeps of the request that started it. */
  ghost predicate AsRequested(s: Session, device: string, csv: string, duration: int, interval: int, now: int) {
    && s.device == device && s.startedAt == now && s.duration == duration && s.interval == interval
    && forall b :: b in ParseBands(s.bands) <==> AsksFor(csv, b)
  }

  lemma RequestStays(st: State, e: Event, next: State, id: SessionId, device: string, csv: string, duration: int,
                     interval: int, now: int)
    requires Follows(st, e, next) && id in st.sessions
    requires AsRequested(st.sessions[id], device, csv, duration, interval, now)
    ensures id in next.sessions && AsRequested(next.sessions[id], device, csv, duration, interval, now)
  {
    assert next.sessions[id].bands == st.sessions[id].bands;
  }

  /** In every run a session's row keeps the device, start, duration, interval and bands it was asked for,
      from the step that starts it on. */
  lemma {:induction false} RowsAreAsRequested(states: seq<State>, events: seq<Event>, i: nat, k: nat)
    requires Run(states, events) && i < k < |states| && events[i].StartCommit?
    ensures var e := events[i];
            && e.id in states[k].sessions
            && AsRequested(states[k].sessions[e.id], e.device, e.csv, e.duration, e.interval, e.now)
  {
    var e := events[i];
    if k == i + 1 {
      assert Follows(states[i], e, states[k]);
      BandsRoundTrip(e.csv);
      forall b ensures b in ParseBands(e.csv) <==> AsksFor(e.csv, b) {
        KeptBandsAre(Split(e.csv, ','), b);
      }
    } else {
      RowsAreAsRequested(states, events, i, k - 1);
      RequestStays(states[k - 1], events[k - 1], states[k], e.id, e.device, e.csv, e.duration, e.interval, e.now);
    }
  }

  /** So a supervisor tick or a restart at `t` completes a session started at `now` for `duration`, if it
      is still active, exactly when `now + duration <= t`. */
  lemma DeadlineIsAsRequested(states: seq<State>, events: seq<Event>, i: nat, k: nat)
    requires Run(states, events) && i < k < |events| && events[i].StartCommit?
    requires events[k].Supervise? || events[k].Restart?
    requires IsActive(states[k], events[i].id)
    ensures var e, t, after := events[i], events[k].now, states[k + 1];
            && e.id in after.sessions
            && (e.now + e.duration <= t ==>
                  after.sessions[e.id].status.Completed? && after.sessions[e.id].endedAt == Some(t))
            && (t < e.now + e.duration ==>
                  after.sessions[e.id].status.Active? && after.sessions[e.id].endedAt == None)
  {
    RowsAreAsRequested(states, events, i, k);
    RunKeeps(states, events, k);
    assert RowInv(states[k].sessions[events[i].id], states[k].runs, events[i].id);
    assert Follows(states[k], events[k], states[k + 1]);
  }

  /** The passes among the first `k` events that are persisted for a session, and what they saw. */
  function PassesIn(events: seq<Event>, k: nat, id: SessionId): nat
    requires k <= |events|
  {
    if k == 0 then 0
    else PassesIn(events, k - 1, id)
         + if events[k - 1].PassPersist? && events[k - 1].job.id == id then 1 else 0
  }

  function SeenIn(events: seq<Event>, k: nat, id: SessionId): set<string>
    requires k <= |events|
  {
    if k == 0 then {}
    else SeenIn(events, k - 1, id)
         + if events[k - 1].PassPersist? && events[k - 1].job.id == id then Members(events[k - 1].bssids) else {}
  }

  function Members(bssids: seq<string>): set<string> { set b | b in bssids }

  lemma BssidsAdded(runs: seq<ScanRun>, run: ScanRun, id: SessionId)
    ensures BssidsOf(runs + [run], id) == BssidsOf(runs, id) + if run.id == id then Members(run.bssids) else {}
  {
    assert forall r :: r in runs + [run] <==> r in runs || r == run;
  }

  lemma RunsStep(st: State, e: Event, next: State, id: SessionId)
    requires Follows(st, e, next)
    ensures var own := e.PassPersist? && e.job.id == id;
            && RunsOf(next.runs, id) == RunsOf(st.runs, id) + (if own then 1 else 0)
            && BssidsOf(next.runs, id) == BssidsOf(st.runs, id) + if own then Members(e.bssids) else {}
  {
    if e.PassPersist? {
      RunAdded(st.runs, ScanRun(e.job.id, e.job.band, e.bssids), id);
      BssidsAdded(st.runs, ScanRun(e.job.id, e.job.band, e.bssids), id);
    } else {
      assert next.runs == st.runs;
    }
  }

  lemma {:induction false} RunsAreOfPasses(states: seq<State>, events: seq<Event>, k: nat, id: SessionId)
    requires Run(states, events) && k < |states|
    ensures RunsOf(states[k].runs, id) == PassesIn(events, k, id)
    ensures BssidsOf(states[k].runs, id) == SeenIn(events, k, id)
  {
    if k > 0 {
      RunsAreOfPasses(states, events, k - 1, id);
      RunsStep(states[k - 1], events[k - 1], states[k], id);
    } else {
      NoRuns(EMPTY.runs, id);
    }
  }

  /** In every run the counters of an active session are the number of passes persisted for it, on all its
      bands together, and the number of different BSSIDs that they saw. */
  lemma CountersAreOfPasses(states: seq<State>, events: seq<Event>, k: nat, id: SessionId)
    requires Run(states, events) && k < |states| && IsActive(states[k], id)
    ensures states[k].sessions[id].totalPasses == PassesIn(events, k, id)
    ensures states[k].sessions[id].uniqueBssids == |SeenIn(events, k, id)|
  {
    RunsAreOfPasses(states, events, k, id);
    RunKeeps(states, events, k);
    assert RowInv(states[k].sessions[id], states[k].runs, id);
  }

  lemma FinishedStep(st: State, e: Event, next: State, id: SessionId)
    requires Follows(st, e, next) && id in st.sessions && !IsActive(st, id)
    ensures id in next.sessions && next.sessions[id] == st.sessions[id]
  {
  }

  /** A row that is over never changes again: its status leaves active at most once, and its end
      and its counters are final. */
  lemma {:induction false} FinishedIsFinal(states: seq<State>, events: seq<Event>, i: nat, k: nat, id: SessionId)
    requires Run(states, events) && i <= k < |states| && id in states[i].sessions && !IsActive(states[i], id)
    ensures id in states[k].sessions && states[k].sessions[id] == states[i].sessions[id]
  {
    if i < k {
      FinishedIsFinal(states, events, i, k - 1, id);
      FinishedStep(states[k - 1], events[k - 1], states[k], id);
    }
  }

  /** After a supervisor tick, and after a restart, no active session is overdue. */
  lemma NoneOverdue(st: State, e: Event, next: State)
    requires Follows(st, e, next) && (e.Supervise? || e.Restart?)
    ensures forall id | id in next.sessions :: !Overdue(next.sessions[id], e.now)
    ensures forall id | id in st.sessions && !Overdue(st.sessions[id], e.now) :: next.sessions[id] == st.sessions[id]
    ensures forall id | id in st.sessions && Overdue(st.sessions[id], e.now) ::
              next.sessions[id].status.Completed? && next.sessions[id].endedAt == Some(e.now)
  {
  }
}
