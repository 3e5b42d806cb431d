/**
 Which scan jobs exist while sessions start, end and are cancelled around one another
 (backend/app/scheduler/surveillance.py:96-129, 171-224, 301-324), and how many scans can still
 be stored for a session that is over.
 */
module SurveillanceJobs {
  import opened Common
  import opened SurveillanceSessions

  /**
   * Sessions whose jobs were scheduled after they were over and their cancellation, if any, had
   * removed its jobs: nothing removes these jobs but a restart.
   */
  function NextOrphans(st: State, orphans: set<SessionId>, e: Event): set<SessionId> {
    match e
    case Restart(_) => {}
    case StartSchedule(id) => if IsActive(st, id) || id in st.cancelling then orphans else orphans + {id}
    case _ => orphans
  }

  predicate HasJobs(st: State, orphans: set<SessionId>, id: SessionId) {
    id !in st.starting && (IsActive(st, id) || id in st.cancelling || id in orphans)
  }

  /** Job `j` exists exactly when it should, and an orphaned session is over and at rest. */
  predicate JobInv(st: State, orphans: set<SessionId>, j: Job) {
    && (j in st.jobs <==> ListedBy(st.sessions, j) && HasJobs(st, orphans, j.id))
    && (j.id in orphans ==>
          j.id in st.sessions && j.id !in st.starting && j.id !in st.cancelling && !IsActive(st, j.id))
  }

  lemma SweepJobs(st: State, orphans: set<SessionId>, e: Event, j: Job)
    requires Inv(st) && JobInv(st, orphans, j) && (e.Supervise? || e.Restart?)
    ensures JobInv(Step(st, e), NextOrphans(st, orphans, e), j)
  {
    FinalizedRows(st, e.now);
  }

  lemma StartJobs(st: State, orphans: set<SessionId>, e: Event, j: Job)
    requires Inv(st) && JobInv(st, orphans, j) && Enabled(st, e) && (e.StartCommit? || e.StartSchedule?)
    ensures JobInv(Step(st, e), NextOrphans(st, orphans, e), j)
  {
  }

  lemma CancelJobs(st: State, orphans: set<SessionId>, e: Event, j: Job)
    requires Inv(st) && JobInv(st, orphans, j) && Enabled(st, e) && (e.CancelCommit? || e.CancelRemove?)
    ensures JobInv(Step(st, e), NextOrphans(st, orphans, e), j)
  {
  }

  lemma StepJobs(st: State, orphans: set<SessionId>, e: Event, next: State, j: Job)
    requires Inv(st) && JobInv(st, orphans, j) && Follows(st, e, next)
    ensures JobInv(next, NextOrphans(st, orphans, e), j)
  {
    match e
    case StartCommit(_, _, _, _, _, _) => StartJobs(st, orphans, e, j);
    case StartSchedule(_) => StartJobs(st, orphans, e, j);
    case CancelCommit(_, _) => CancelJobs(st, orphans, e, j);
    case CancelRemove(_) => CancelJobs(st, orphans, e, j);
    case Supervise(_) => SweepJobs(st, orphans, e, j);
    case Restart(_) => SweepJobs(st, orphans, e, j);
    case _ =>
  }

  function Orphans(states: seq<State>, events: seq<Event>, k: nat): set<SessionId>
    requires k <= |events| && |states| == |events| + 1
  {
    if k == 0 then {} else NextOrphans(states[k - 1], Orphans(states, events, k - 1), events[k - 1])
  }

  /** Step `i` scheduled jobs for a session that was over and had no cancellation under way. */
  predicate OrphanedBy(st: State, e: Event, id: SessionId) {
    e == StartSchedule(id) && !IsActive(st, id) && id !in st.cancelling
  }

  ghost predicate Orphaned(states: seq<State>, events: seq<Event>, k: nat, id: SessionId)
    requires k <= |events| && |states| == |events| + 1
  {
    exists i :: 0 <= i < k && OrphanedBy(states[i], events[i], id) && forall m | i < m < k :: !events[m].Restart?
  }

  lemma {:induction false} OrphansAre(states: seq<State>, events: seq<Event>, k: nat, id: SessionId)
    requires k <= |events| && |states| == |events| + 1
    ensures id in Orphans(states, events, k) <==> Orphaned(states, events, k, id)
  {
    if k > 0 {
      OrphansAre(states, events, k - 1, id);
      if Orphaned(states, events, k - 1, id) && !events[k - 1].Restart? {
        var i :| 0 <= i < k - 1 && OrphanedBy(states[i], events[i], id)
                 && forall m | i < m < k - 1 :: !events[m].Restart?;
        assert OrphanedBy(states[i], events[i], id) && forall m | i < m < k :: !events[m].Restart?;
      }
      if OrphanedBy(states[k - 1], events[k - 1], id) {
        assert Orphaned(states, events, k, id);
      }
      if Orphaned(states, events, k, id) {
        var i :| 0 <= i < k && OrphanedBy(states[i], events[i], id) && forall m | i < m < k :: !events[m].Restart?;
        if i < k - 1 { assert Orphaned(states, events, k - 1, id); }
      }
    }
  }

  lemma {:induction false} RunJobs(states: seq<State>, events: seq<Event>, k: nat, j: Job)
    requires Run(states, events) && k < |states|
    ensures JobInv(states[k], Orphans(states, events, k), j)
  {
    if k > 0 {
      RunJobs(states, events, k - 1, j);
      RunKeeps(states, events, k - 1);
      StepJobs(states[k - 1], Orphans(states, events, k - 1), events[k - 1], states[k], j);
    }
  }

  /** Exactly which jobs exist in a reachable state: those of the listed bands of each session that
      has been scheduled and is active, still being cancelled, or orphaned. */
  lemma JobExistsIff(states: seq<State>, events: seq<Event>, k: nat, j: Job)
    requires Run(states, events) && k < |states|
    ensures j in states[k].jobs
            <==> ListedBy(states[k].sessions, j) && j.id !in states[k].starting
                 && (IsActive(states[k], j.id) || j.id in states[k].cancelling || Orphaned(states, events, k, j.id))
  {
    RunJobs(states, events, k, j);
    OrphansAre(states, events, k, j.id);
  }

  /** Once nobody is starting or cancelling a session, its jobs are those of its bands while it is
      active and none after, exactly when it was not orphaned. */
  lemma JobsFollowStatusIff(states: seq<State>, events: seq<Event>, k: nat, id: SessionId)
    requires Run(states, events) && k < |states| && id in states[k].sessions
    requires id !in states[k].starting && id !in states[k].cancelling
    ensures (forall b ::
               Job(id, b) in states[k].jobs <==> IsActive(states[k], id) && ListedBy(states[k].sessions, Job(id, b)))
            <==> !Orphaned(states, events, k, id)
  {
    RunKeeps(states, events, k);
    OrphansAre(states, events, k, id);
    forall b ensures JobInv(states[k], Orphans(states, events, k), Job(id, b)) {
      RunJobs(states, events, k, Job(id, b));
    }
    var first := ParseBands(states[k].sessions[id].bands)[0];
    assert RowInv(states[k].sessions[id], states[k].runs, id);
    assert ListedBy(states[k].sessions, Job(id, first));
  }

  /** The jobs of an orphaned session outlast every step but a restart; the supervisor looks at
      active sessions only. */
  lemma OrphansOutliveSupervisor(states: seq<State>, events: seq<Event>, k: nat, j: Job)
    requires Run(states, events) && k < |events| && Orphaned(states, events, k, j.id)
    requires ListedBy(states[k].sessions, j) && !events[k].Restart?
    ensures j in states[k].jobs && j in states[k + 1].jobs
  {
    RunKeeps(states, events, k);
    RunJobs(states, events, k, j);
    OrphansAre(states, events, k, j.id);
    RunJobs(states, events, k + 1, j);
    OrphansAre(states, events, k + 1, j.id);
    assert j.id in Orphans(states, events, k + 1);
    FinishedStep(states[k], events[k], states[k + 1], j.id);
  }

  /** Every start can be orphaned: a cancellation that fits between its commit and its schedule
      leaves all its jobs behind. */
  lemma CancelBeforeScheduleLeavesJobs(st: State, now: int, id: SessionId)
    requires IsActive(st, id) && id in st.starting
    ensures Enabled(Step(st, CancelCommit(id, now)), CancelRemove(id))
    ensures var cancelled := Step(Step(st, CancelCommit(id, now)), CancelRemove(id));
            Enabled(cancelled, StartSchedule(id)) && OrphanedBy(cancelled, StartSchedule(id), id)
            && JobsOf(id, BandsOf(st, id)) <= Step(cancelled, StartSchedule(id)).jobs
  {
    var cancelled := Step(Step(st, CancelCommit(id, now)), CancelRemove(id));
    assert BandsOf(cancelled, id) == BandsOf(st, id);
  }

  // ---------------------------- late scans ---------------------------- //

  function PassesOf(passes: set<Job>, id: SessionId): set<Job> { set j | j in passes && j.id == id }

  lemma FewPasses(st: State, id: SessionId)
    requires Inv(st)
    ensures |PassesOf(st.passes, id)| <= 3
  {
    var all := {Job(id, "2"), Job(id, "5"), Job(id, "6")};
    forall j | j in PassesOf(st.passes, id) ensures j in all {
      assert ListedBy(st.sessions, j);
      KeepKept(ApRoot.Split(st.sessions[id].bands, ','));
    }
    SubsetSize(PassesOf(st.passes, id), all);
  }

  /** Scans stored for a session that is over, and those still under way, beyond its counter. */
  predicate LateWithin(st: State, id: SessionId) {
    id in st.sessions && !IsActive(st, id)
    ==> RunsOf(st.runs, id) + |PassesOf(st.passes, id)| <= st.sessions[id].totalPasses + 3
  }

  lemma LateStep(st: State, e: Event, next: State, id: SessionId)
    requires Follows(st, e, next) && LateWithin(st, id) && |PassesOf(next.passes, id)| <= 3
    requires IsActive(st, id) ==> st.sessions[id].totalPasses == RunsOf(st.runs, id)
    ensures LateWithin(next, id)
  {
    if id in next.sessions && !IsActive(next, id) {
      assert id in st.sessions;
      if IsActive(st, id) {
        EndingCountsNothing(st, e, next, id);
      } else {
        FinishedStep(st, e, next, id);
        LatePasses(st, e, next, id);
      }
    }
  }

  lemma EndingCountsNothing(st: State, e: Event, next: State, id: SessionId)
    requires Follows(st, e, next) && IsActive(st, id) && !IsActive(next, id)
    ensures next.runs == st.runs && id in next.sessions
    ensures next.sessions[id].totalPasses == st.sessions[id].totalPasses
  {
  }

  lemma LatePasses(st: State, e: Event, next: State, id: SessionId)
    requires Follows(st, e, next) && !IsActive(st, id)
    ensures RunsOf(next.runs, id) + |PassesOf(next.passes, id)| <= RunsOf(st.runs, id) + |PassesOf(st.passes, id)|
  {
    if e.PassPersist? {
      RunAdded(st.runs, ScanRun(e.job.id, e.job.band, e.bssids), id);
      if e.job.id == id {
        assert PassesOf(next.passes, id) == PassesOf(st.passes, id) - {e.job};
      } else {
        assert PassesOf(next.passes, id) == PassesOf(st.passes, id);
      }
    } else {
      assert PassesOf(next.passes, id) <= PassesOf(st.passes, id);
      SubsetSize(PassesOf(next.passes, id), PassesOf(st.passes, id));
    }
  }

  /** At most three scans, one for each band, are ever stored for a session after it ended. */
  lemma {:induction false} FewLateScans(states: seq<State>, events: seq<Event>, k: nat, id: SessionId)
    requires Run(states, events) && k < |states|
    ensures LateWithin(states[k], id)
  {
    if k > 0 {
      FewLateScans(states, events, k - 1, id);
      RunKeeps(states, events, k - 1);
      RunKeeps(states, events, k);
      CountMatches(states[k - 1], id);
      FewPasses(states[k], id);
      LateStep(states[k - 1], events[k - 1], states[k], id);
    }
  }

  lemma CountMatches(st: State, id: SessionId)
    requires Inv(st)
    ensures IsActive(st, id) ==> st.sessions[id].totalPasses == RunsOf(st.runs, id)
  {
  }
}
