/**
 Starting and running a geometry job (app/services/geo_service.py), and an upload together with the job it
 enqueues (app/services/upload_service.py), when nothing else writes meanwhile.
 */
module GeomJob {
  import opened Common
  import opened GeoService
  import opened HttpClient
  import JL = JobLifecycle
  import opened JobRepository
  import opened LandRepository
  import opened UploadService

  /** `start_geom_refresh_job` undisturbed; `None` is the CSRF refusal. */
  method StartGeomRefreshJob(jobs: JobTable, csrfValid: bool) returns (r: Option<(nat, bool)>)
    modifies jobs
    ensures !csrfValid ==> r.None? && jobs.jobs == old(jobs.jobs)
    ensures csrfValid ==>
              && r.Some? && 1 <= r.value.0 <= |jobs.jobs| && Get(jobs.jobs, r.value.0).Active()
              && (forall k :: r.value.0 <= k < |jobs.jobs| ==> !jobs.jobs[k].Active())
              && jobs.jobs == old(jobs.jobs) + (if r.value.1 then [CREATED] else [])
              && CountActive(jobs.jobs) == Max(1, CountActive(old(jobs.jobs)))
              && (r.value.1 <==> CountActive(old(jobs.jobs)) == 0)
  {
    if !csrfValid { return None; }
    var active := jobs.FetchLatestActive();
    if active.Some? {
      SomeActive(jobs.jobs, active.value - 1);
      return Some((active.value, false));
    }
    assert (jobs.jobs + [CREATED])[..|jobs.jobs|] == jobs.jobs;
    var id := jobs.Create();
    r := Some((id, true));
  }

  /** While a job is lost, asking for a refresh is answered with an old job, and none is created. */
  method RefreshWhileLost(jobs: JobTable, ghost steps: seq<JL.Step>, ghost s: JL.State, ghost id: nat)
    returns (r: Option<(nat, bool)>)
    requires JL.Run(JL.INITIAL, steps) == Some(s) && s.phase.Serving? && id in s.lost && jobs.jobs == s.jobs
    modifies jobs
    ensures jobs.jobs == old(jobs.jobs) && r.Some? && !r.value.1
  {
    JL.InvHolds(steps);
    JL.LostUntilRestart(s, [], s, id);
    r := StartGeomRefreshJob(jobs, true);
  }

  /** What is recorded of a run of the job: the commits that got through. */
  datatype Ending = NotBegun | LeftRunning | MarkedFailed | MarkedDone

  function Recorded(jobs: seq<Job>, id: nat, ending: Ending, updated: nat, failed: nat): seq<Job>
    requires 1 <= id <= |jobs|
  {
    var job := jobs[id - 1];
    jobs[id - 1 :=
      match ending
      case NotBegun => job
      case LeftRunning => job.(status := Running, attempts := job.attempts + 1)
      case MarkedFailed => Job(Failed, job.attempts + 1, updated, failed)
      case MarkedDone => Job(Done, job.attempts + 1, updated, failed)]
  }

  /**
   `run_geom_update_job`.  A run that completes ends its job done, with counts that add up to the rows that
   had no boundary at the start - or failed with the same counts, if it is the commit of `done` that raises.
   A run that raises before that counts nothing; what it committed stays.  The job is left as it was, or
   running, only if its own first or last commit raises.  Every exception goes on to the caller; no other
   job is touched.
   */
  method RunGeomUpdateJob(jobs: JobTable, id: nat, t: PoiTable, log: RunLog, maxRetries: nat, batchSize: nat)
    returns (updated: nat, failed: nat, raised: bool, ghost ending: Ending, ghost finished: bool,
             ghost pass: nat, ghost done: nat)
    requires t.Valid() && log.Balanced() && 1 <= batchSize && 1 <= id <= |jobs.jobs|
    modifies jobs, t, log, log.meter
    ensures t.Valid() && t.nextId == old(t.nextId)
    ensures jobs.jobs == Recorded(old(jobs.jobs), id, ending, updated, failed)
    ensures (raised <==> !log.Quiet(old(log.statements))) && (raised <==> ending != MarkedDone)
    ensures ending == NotBegun <==> log.raises(old(log.statements))
    ensures ending == NotBegun ==> !finished && t.rows == old(t.rows) && log.calls == old(log.calls)
    ensures ending == MarkedDone ==> finished
    ensures finished ==> t.rows == RunRows(log.world, 1, maxRetries, old(t.rows))
    ensures finished ==> failed == CountMissing(t.rows) && updated + failed == CountMissing(old(t.rows))
    ensures !finished ==> updated == failed == 0
    ensures !finished && ending != NotBegun ==> LeftAt(t, log, maxRetries, pass, done, old(t.rows), old(log.calls))
  {
    hide RunRows, CountMissing, LeftAt, PassesDone, CallsDone, Cost, ValidTable, Missing;
    updated, failed, pass, done, finished, ending := 0, 0, 0, 0, false, NotBegun;
    raised := log.Statement();
    if raised { return; }
    jobs.SetRunning(id);
    updated, failed, raised, pass, done := UpdateGeoms(t, log, maxRetries, batchSize);
    if raised {
      updated, failed := 0, 0;
    } else {
      finished := true;
      raised := log.Statement();
      if !raised {
        jobs.SetDone(id, updated, failed);
        ending := MarkedDone;
        return;
      }
    }
    var again := log.Statement();
    if !again { jobs.SetFailed(id, updated, failed); }
    ending := if again then LeftRunning else MarkedFailed;
  }

  /** The commits of such a run, as steps of the server's life. */
  function JobSteps(id: nat, ending: Ending, updated: nat, failed: nat): seq<JL.Step> {
    match ending
    case NotBegun => [JL.Lose(id)]
    case LeftRunning => [JL.Begin(id)] + [JL.Lose(id)]
    case MarkedFailed => [JL.Begin(id)] + [JL.Fail(id, updated, failed)]
    case MarkedDone => [JL.Begin(id)] + [JL.Finish(id, updated, failed)]
  }

  /** Whatever a run of a queued job records is what those steps record; it is lost iff they end in `Lose`. */
  lemma JobRunIsARun(s: JL.State, id: nat, ending: Ending, updated: nat, failed: nat)
    requires JL.Inv(s) && id in s.queued
    ensures 1 <= id <= |s.jobs| && JL.Run(s, JobSteps(id, ending, updated, failed)).Some?
    ensures var after := JL.Run(s, JobSteps(id, ending, updated, failed)).value;
            && after.jobs == Recorded(s.jobs, id, ending, updated, failed)
            && !after.Held(id) && (id in after.lost <==> ending == NotBegun || ending == LeftRunning)
  {
    assert JL.JobInv(s, id);
    var steps := JobSteps(id, ending, updated, failed);
    assert steps[..0] == [];
    if ending != NotBegun {
      assert steps[..1] == [JL.Begin(id)] && [JL.Begin(id)][..0] == [];
      assert JL.Run(s, [JL.Begin(id)]) == JL.Next(s, JL.Begin(id));
    }
  }

  /**
   Row `i` of an uploaded sheet when `tried` passes have dealt with it: its boundary has been remembered or
   is the first one found.
   */
  ghost predicate Settled(w: World, tried: nat, known: map<string, string>, r: Row, id: nat, address: string) {
    && r.id == id && r.address == address
    && (address in known ==> r.geom == Some(known[address]))
    && (r.geom.None? <==> address !in known && FailedIn(w, Row(id, address, None), 1, tried + 1))
    && (address !in known && r.geom.Some? ==> FilledFirst(w, Row(id, address, None), 1, tried, r.geom))
  }

  /** Every row so, when the passes before `pass` are over and `pass` has dealt with the ids up to `done`. */
  ghost predicate AllSettled(w: World, pass: nat, done: nat, known: map<string, string>, rows: seq<Row>,
                             firstId: nat, addresses: seq<string>)
    requires 1 <= pass
  {
    && |rows| == |addresses|
    && forall i :: 0 <= i < |rows| ==>
         Settled(w, if firstId + i <= done then pass else pass - 1, known, rows[i], firstId + i, addresses[i])
  }

  lemma RunSettles(w: World, passes: nat, t: Table, known: map<string, string>, addresses: seq<string>)
    requires ValidTable(t)
    ensures AllSettled(w, passes + 1, 0, known, RunRows(w, 1, passes, Replace(t, known, addresses).rows),
                       t.nextId, addresses)
  {
    hide RunRows, Replace;
    var start := Replace(t, known, addresses).rows;
    var rows := RunRows(w, 1, passes, start);
    ReplaceShape(t, known, addresses);
    SameLength(w, 1, passes, start);
    forall i | 0 <= i < |addresses| ensures Settled(w, passes, known, rows[i], t.nextId + i, addresses[i]) {
      RowSettles(w, passes, start, known, i, t.nextId + i, addresses[i]);
    }
  }

  lemma RowSettles(w: World, passes: nat, start: seq<Row>, known: map<string, string>, i: nat, id: nat, address: string)
    requires i < |start| && start[i] == Row(id, address, Remembered(known, address).geom)
    requires |RunRows(w, 1, passes, start)| == |start|
    ensures Settled(w, passes, known, RunRows(w, 1, passes, start)[i], id, address)
  {
    hide RunRows, FilledFirst;
    RunOutcome(w, 1, passes, start, i);
    if address !in known && RunRows(w, 1, passes, start)[i].geom.Some? { RunFillsWithFirst(w, 1, passes, start, i); }
  }

  lemma HaltedRunSettles(w: World, pass: nat, done: nat, t: Table, known: map<string, string>, addresses: seq<string>)
    requires ValidTable(t) && 1 <= pass
    ensures var start := Replace(t, known, addresses).rows;
            AllSettled(w, pass, done, known, PassUpTo(w, pass, PassesDone(w, pass - 1, start), done),
                       t.nextId, addresses)
  {
    hide PassUpTo, PassesDone, Replace, Settled;
    var start := Replace(t, known, addresses).rows;
    var rows := PassUpTo(w, pass, PassesDone(w, pass - 1, start), done);
    ReplaceShape(t, known, addresses);
    forall i | 0 <= i < |addresses|
      ensures Settled(w, if t.nextId + i <= done then pass else pass - 1, known, rows[i], t.nextId + i, addresses[i])
    {
      HaltedRowSettles(w, pass, done, start, known, i, t.nextId + i, addresses[i]);
    }
  }

  lemma HaltedRowSettles(w: World, pass: nat, done: nat, start: seq<Row>, known: map<string, string>, i: nat,
                         id: nat, address: string)
    requires 1 <= pass && i < |start| && start[i] == Row(id, address, Remembered(known, address).geom)
    ensures Settled(w, if id <= done then pass else pass - 1, known,
                    PassUpTo(w, pass, PassesDone(w, pass - 1, start), done)[i], id, address)
  {
    hide PassUpTo, PassesDone, FilledFirst, FailedIn;
    LeftOutcome(w, pass, done, start, i);
  }

  /**
   `_replace_land_data`, `_finalize_upload` and the background job after it: every row of the sheet, in its
   order, has the boundary its address had before, or else the first one found for it, and is without one
   only if every pass that dealt with it failed.  That is every pass of the run unless it raises, when `pass`
   and `done` say how far it has come.  The job's counts add up to the addresses that were unknown.
   */
  method UploadAndFill(jobs: JobTable, t: PoiTable, log: RunLog, addresses: seq<string>,
                       maxRetries: nat, batchSize: nat)
    returns (id: nat, updated: nat, failed: nat, raised: bool, ghost ending: Ending, ghost finished: bool,
             ghost pass: nat, ghost done: nat)
    requires t.Valid() && log.Balanced() && 1 <= batchSize
    modifies jobs, t, log, log.meter
    ensures t.Valid() && id == |old(jobs.jobs)| + 1
    ensures jobs.jobs == Recorded(old(jobs.jobs) + [CREATED], id, ending, updated, failed)
    ensures (raised <==> !log.Quiet(old(log.statements))) && (raised <==> ending != MarkedDone)
    ensures 1 <= pass <= maxRetries + 1 && (pass == maxRetries + 1 ==> done == 0)
    ensures AllSettled(log.world, pass, done, old(KnownGeoms(t.rows)), t.rows, old(t.nextId), addresses)
    ensures ending == MarkedDone ==> finished
    ensures finished ==> pass == maxRetries + 1 && failed == CountMissing(t.rows)
    ensures finished ==> updated + failed == CountUnknown(old(KnownGeoms(t.rows)), addresses)
    ensures !finished ==> updated == failed == 0
  {
    hide RunRows, KnownGeoms, CountMissing, CountUnknown, PassUpTo, PassesDone, CallsDone, AllSettled, CutAt;
    ghost var was, known := t.Contents(), KnownGeoms(t.rows);
    ReplaceLandData(t, addresses);
    ghost var start := t.rows;
    ReplaceMissing(was, known, addresses);
    id := jobs.Create();
    updated, failed, raised, ending, finished, pass, done :=
      RunGeomUpdateJob(jobs, id, t, log, maxRetries, batchSize);
    if finished {
      pass, done := maxRetries + 1, 0;
      RunSettles(log.world, maxRetries, was, known, addresses);
    } else {
      if ending == NotBegun {
        pass, done := 1, 0;
        NoPassYet(log.world, t.rows);
        PassStarts(log.world, 1, t.Contents());
      }
      HaltedRunSettles(log.world, pass, done, was, known, addresses);
    }
  }

  lemma {:induction false} SameLength(w: World, pass: nat, passes: nat, rows: seq<Row>)
    ensures |RunRows(w, pass, passes, rows)| == |rows|
    decreases passes + 1 - pass
  {
    if pass <= passes { SameLength(w, pass + 1, passes, PassRows(w, pass, rows)); }
  }
}
