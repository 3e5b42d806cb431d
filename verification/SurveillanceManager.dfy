/**
 The manager object (backend/app/scheduler/surveillance.py:77-324): each method is one step of
 `SurveillanceSessions`, with the loops that schedule and remove jobs and that end overdue
 sessions.
 */
module SurveillanceManager {
  import opened Common
  import opened ApRoot
  import opened SurveillanceSessions

  class Manager {
    var sessions: map<SessionId, Session>
    var runs: seq<ScanRun>
    var jobs: set<Job>
    /** The coroutines between two of their steps. */
    var starting: set<SessionId>
    var cancelling: set<SessionId>
    var passes: set<Job>

    ghost function Now(): State reads this { State(sessions, runs, jobs, starting, cancelling, passes) }

    ghost predicate Valid() reads this { Inv(Now()) }

    constructor ()
      ensures Valid() && Now() == EMPTY
    {
      sessions, runs, jobs, starting, cancelling, passes := map[], [], {}, {}, {}, {};
    }

    /** `start_session` up to its commit; false when the list holds no valid band. */
    method StartCommit(id: SessionId, device: string, csv: string, duration: int, interval: int, now: int)
      returns (ok: bool)
      requires Valid() && id !in sessions
      modifies this
      ensures Valid() && (ok <==> ParseBands(csv) != [])
      ensures if ok then Follows(old(Now()), Event.StartCommit(id, device, csv, duration, interval, now), Now())
              else Now() == old(Now())
      ensures ok ==>
                && sessions.Keys == old(sessions.Keys) + {id}
                && sessions[id].device == device && sessions[id].startedAt == now
                && sessions[id].duration == duration && sessions[id].interval == interval
    {
      var bands := ParseBands(csv);
      if bands == [] { return false; }
      StepKeeps(Now(), Event.StartCommit(id, device, csv, duration, interval, now),
                Step(Now(), Event.StartCommit(id, device, csv, duration, interval, now)));
      sessions := sessions[id := Session(device, Active, now, duration, interval, Join(bands, ','), None, 0, 0)];
      starting := starting + {id};
      ok := true;
    }

    method ScheduleJobs(id: SessionId, bands: seq<string>)
      modifies this`jobs
      ensures jobs == old(jobs) + JobsOf(id, bands)
    {
      for i := 0 to |bands|
        invariant jobs == old(jobs) + JobsOf(id, bands[..i])
      {
        jobs := jobs + {Job(id, bands[i])};
        assert JobsOf(id, bands[..i + 1]) == JobsOf(id, bands[..i]) + {Job(id, bands[i])};
      }
      assert bands[..|bands|] == bands;
    }

    /** The end of `start_session`. */
    method StartSchedule(id: SessionId)
      requires Valid() && id in starting
      modifies this
      ensures Valid() && Follows(old(Now()), Event.StartSchedule(id), Now())
    {
      StepKeeps(Now(), Event.StartSchedule(id), Step(Now(), Event.StartSchedule(id)));
      ScheduleJobs(id, ParseBands(sessions[id].bands));
      starting := starting - {id};
    }

    method RemoveJobs(id: SessionId, bands: seq<string>)
      modifies this`jobs
      ensures jobs == old(jobs) - JobsOf(id, bands)
    {
      for i := 0 to |bands|
        invariant jobs == old(jobs) - JobsOf(id, bands[..i])
      {
        jobs := jobs - {Job(id, bands[i])};
        assert JobsOf(id, bands[..i + 1]) == JobsOf(id, bands[..i]) + {Job(id, bands[i])};
      }
      assert bands[..|bands|] == bands;
    }

    /** `cancel_session` up to its commit; true when its jobs are to be removed next. */
    method CancelCommit(id: SessionId, now: int) returns (proceed: bool)
      requires Valid()
      modifies this
      ensures Valid() && Follows(old(Now()), Event.CancelCommit(id, now), Now())
      ensures proceed == old(IsActive(Now(), id))
      ensures proceed ==> sessions[id].status.Cancelled? && sessions[id].endedAt == Some(now)
    {
      StepKeeps(Now(), Event.CancelCommit(id, now), Step(Now(), Event.CancelCommit(id, now)));
      if id !in sessions { return false; }
      if !sessions[id].status.Active? { return false; }
      sessions := sessions[id := sessions[id].(status := Cancelled, endedAt := Some(now))];
      cancelling := cancelling + {id};
      proceed := true;
    }

    method CancelRemove(id: SessionId)
      requires Valid() && id in cancelling
      modifies this
      ensures Valid() && Follows(old(Now()), Event.CancelRemove(id), Now())
    {
      StepKeeps(Now(), Event.CancelRemove(id), Step(Now(), Event.CancelRemove(id)));
      RemoveJobs(id, ParseBands(sessions[id].bands));
      cancelling := cancelling - {id};
    }

    /** `_run_pass` up to the scan; false when the session is not active. */
    method PassCheck(job: Job) returns (proceed: bool)
      requires Valid() && job in jobs && job !in passes
      modifies this
      ensures Valid() && Follows(old(Now()), Event.PassCheck(job), Now())
      ensures proceed == old(IsActive(Now(), job.id))
    {
      StepKeeps(Now(), Event.PassCheck(job), Step(Now(), Event.PassCheck(job)));
      if job.id !in sessions || !sessions[job.id].status.Active? { return false; }
      passes := passes + {job};
      proceed := true;
    }

    /** No device, or the scan failed. */
    method PassFail(job: Job)
      requires Valid() && job in passes
      modifies this
      ensures Valid() && Follows(old(Now()), Event.PassFail(job), Now())
    {
      StepKeeps(Now(), Event.PassFail(job), Step(Now(), Event.PassFail(job)));
      passes := passes - {job};
    }

    /** The last transaction of `_run_pass`. */
    method PassPersist(job: Job, bssids: seq<string>)
      requires Valid() && job in passes
      modifies this
      ensures Valid() && Follows(old(Now()), Event.PassPersist(job, bssids), Now())
      ensures |runs| == |old(runs)| + 1 && runs[..|old(runs)|] == old(runs)
      ensures var run := runs[|old(runs)|]; run.id == job.id && run.band == job.band && run.bssids == bssids
    {
      runs := runs + [ScanRun(job.id, job.band, bssids)];
      passes := passes - {job};
      if job.id in sessions && sessions[job.id].status.Active? {
        var row := sessions[job.id];
        var unique := |BssidsOf(runs, job.id)|;
        sessions := sessions[job.id := row.(totalPasses := row.totalPasses + 1, uniqueBssids := unique)];
      }
      StepKeeps(old(Now()), Event.PassPersist(job, bssids), Now());
    }

    /** `_run_supervisor`: ends every overdue session and removes its jobs. */
    method Supervise(now: int)
      requires Valid()
      modifies this
      ensures Valid() && Follows(old(Now()), Event.Supervise(now), Now())
    {
      SuperviseAll(now);
      StepKeeps(old(Now()), Event.Supervise(now), Now());
    }

    method SuperviseAll(now: int)
      modifies this`sessions, this`jobs
      ensures sessions == old(Finalized(sessions, sessions.Keys, now))
      ensures jobs == old(JobsKept(jobs, sessions, sessions.Keys, now))
    {
      ghost var was, had := sessions, jobs;
      var todo, done: set<SessionId> := sessions.Keys, {};
      while todo != {}
        invariant todo + done == was.Keys && todo !! done
        invariant sessions == Finalized(was, done, now) && jobs == JobsKept(had, was, done, now)
        decreases todo
      {
        var id :| id in todo;
        assert sessions[id] == was[id];
        SuperviseOne(id, now);
        SweepOne(was, had, done, id, now);
        todo, done := todo - {id}, done + {id};
      }
      assert done == was.Keys;
    }

    method SuperviseOne(id: SessionId, now: int)
      requires id in sessions
      modifies this`sessions, this`jobs
      ensures if old(Overdue(sessions[id], now))
              then sessions == old(sessions[id := Finish(sessions[id], Completed, now)])
                   && jobs == old(jobs) - JobsOf(id, ParseBands(old(sessions[id].bands)))
              else sessions == old(sessions) && jobs == old(jobs)
    {
      if Overdue(sessions[id], now) {
        sessions := sessions[id := sessions[id].(status := Completed, endedAt := Some(now))];
        RemoveJobs(id, ParseBands(sessions[id].bands));
      }
    }

    method RegisterOne(id: SessionId, now: int)
      requires id in sessions
      modifies this`sessions, this`jobs
      ensures sessions == if old(Overdue(sessions[id], now))
                          then old(sessions[id := Finish(sessions[id], Completed, now)])
                          else old(sessions)
      ensures jobs == if old(sessions[id].status.Active? && !Overdue(sessions[id], now))
                      then old(jobs) + JobsOf(id, ParseBands(old(sessions[id].bands))) else old(jobs)
    {
      if !sessions[id].status.Active? { return; }
      if sessions[id].startedAt + sessions[id].duration <= now {
        sessions := sessions[id := sessions[id].(status := Completed, endedAt := Some(now))];
        return;
      }
      ScheduleJobs(id, ParseBands(sessions[id].bands));
    }

    /** `register_all` after the process restarts: ends the overdue sessions and schedules the rest. */
    method Restart(now: int)
      requires Valid()
      modifies this
      ensures Valid() && Follows(old(Now()), Event.Restart(now), Now())
    {
      jobs, starting, cancelling, passes := {}, {}, {}, {};
      RegisterAll(now);
      StepKeeps(old(Now()), Event.Restart(now), Now());
    }

    method RegisterAll(now: int)
      requires jobs == {}
      modifies this`sessions, this`jobs
      ensures sessions == old(Finalized(sessions, sessions.Keys, now))
      ensures jobs == old(JobsDue(sessions, sessions.Keys, now))
    {
      ghost var was := sessions;
      var todo, done: set<SessionId> := sessions.Keys, {};
      while todo != {}
        invariant todo + done == was.Keys && todo !! done
        invariant sessions == Finalized(was, done, now) && jobs == JobsDue(was, done, now)
        decreases todo
      {
        var id :| id in todo;
        assert sessions[id] == was[id];
        RegisterOne(id, now);
        RestoreOne(was, done, id, now);
        todo, done := todo - {id}, done + {id};
      }
      assert done == was.Keys;
    }
  }

  lemma FinalizedOne(was: map<SessionId, Session>, done: set<SessionId>, id: SessionId, now: int)
    requires id in was && id !in done
    ensures Finalized(was, done + {id}, now)
            == if Overdue(was[id], now) then Finalized(was, done, now)[id := Finish(was[id], Completed, now)]
               else Finalized(was, done, now)
  {
  }

  lemma SweepOne(was: map<SessionId, Session>, had: set<Job>, done: set<SessionId>, id: SessionId, now: int)
    requires id in was && id !in done
    ensures Finalized(was, done + {id}, now)
            == if Overdue(was[id], now) then Finalized(was, done, now)[id := Finish(was[id], Completed, now)]
               else Finalized(was, done, now)
    ensures JobsKept(had, was, done + {id}, now)
            == if Overdue(was[id], now) then JobsKept(had, was, done, now) - JobsOf(id, ParseBands(was[id].bands))
               else JobsKept(had, was, done, now)
  {
    FinalizedOne(was, done, id, now);
  }

  lemma RestoreOne(was: map<SessionId, Session>, done: set<SessionId>, id: SessionId, now: int)
    requires id in was && id !in done
    ensures Finalized(was, done + {id}, now)
            == if Overdue(was[id], now) then Finalized(was, done, now)[id := Finish(was[id], Completed, now)]
               else Finalized(was, done, now)
    ensures JobsDue(was, done + {id}, now)
            == if was[id].status.Active? && !Overdue(was[id], now)
               then JobsDue(was, done, now) + JobsOf(id, ParseBands(was[id].bands))
               else JobsDue(was, done, now)
  {
    FinalizedOne(was, done, id, now);
  }
}
