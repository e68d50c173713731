/**
 Geometry jobs over runs of the server with crashes and restarts: enqueue, hand-over to a background
 task, `run_geom_update_job`, and `recover_interrupted_geom_jobs` at start-up.

 app/services/geo_service.py, app/routers/admin.py, app/main.py
 */
module JobLifecycle {
  import opened Common
  import opened JobRepository

  datatype Phase = Down | Starting | Serving

  /**
   The table survives a crash; the rest is memory of the process: ids just returned to a caller, tasks
   scheduled but not begun, and tasks between their first and their last commit.  `lost` keeps the ids of
   tasks that died in between without writing anything.
   */
  datatype State =
    State(jobs: seq<Job>, phase: Phase, handed: set<nat>, queued: set<nat>, begun: set<nat>, lost: set<nat>) {

    predicate Held(id: nat) { id in handed || id in queued || id in begun }
  }

  datatype Step =
    | Enqueue
    | Schedule(id: nat)
    | Begin(id: nat)
    | Finish(id: nat, updated: nat, failed: nat)
    | Fail(id: nat, updated: nat, failed: nat)
    | Lose(id: nat)
    | Crash
    | Boot
    | Recover(missing: nat)

  const INITIAL := State([], Down, {}, {}, {}, {})

  function Recovered(jobs: seq<Job>, missing: nat): seq<Job> {
    if CountActive(jobs) == 0 then jobs
    else if missing > 0 then MarkStale(jobs) + [CREATED]
    else MarkStale(jobs)
  }

  /**
   `Lose` is an exception where nothing is written: before a job is handed to a task, in the commit that
   marks it running, or in the one that marks it failed.  The job stays as it is.
   */
  function Next(s: State, step: Step): Option<State> {
    match step
    case Enqueue =>
      if s.phase != Serving then None
      else Some(s.(jobs := s.jobs + [CREATED], handed := s.handed + {|s.jobs| + 1}))
    case Schedule(id) =>
      if id !in s.handed then None else Some(s.(handed := s.handed - {id}, queued := s.queued + {id}))
    case Begin(id) =>
      if id !in s.queued then None
      else Some(s.(jobs := MarkRunning(s.jobs, id), queued := s.queued - {id}, begun := s.begun + {id}))
    case Finish(id, updated, failed) =>
      if id !in s.begun then None
      else Some(s.(jobs := MarkDone(s.jobs, id, updated, failed), begun := s.begun - {id}))
    case Fail(id, updated, failed) =>
      if id !in s.begun then None
      else Some(s.(jobs := MarkFailed(s.jobs, id, updated, failed), begun := s.begun - {id}))
    case Lose(id) =>
      if !s.Held(id) then None
      else Some(s.(handed := s.handed - {id}, queued := s.queued - {id}, begun := s.begun - {id},
                   lost := s.lost + {id}))
    case Crash => Some(State(s.jobs, Down, {}, {}, {}, {}))
    case Boot => if s.phase != Down then None else Some(s.(phase := Starting))
    case Recover(missing) =>
      if s.phase != Starting then None
      else
        var jobs := Recovered(s.jobs, missing);
        Some(State(jobs, Serving, if |jobs| > |s.jobs| then {|jobs|} else {}, {}, {}, {}))
  }

  function Run(s: State, steps: seq<Step>): Option<State> {
    if steps == [] then Some(s)
    else
      var before := Run(s, steps[..|steps| - 1]);
      if before.None? then None else Next(before.value, steps[|steps| - 1])
  }

  /** `recover_interrupted_geom_jobs` on the table itself. */
  method RecoverInterrupted(t: JobTable, missing: nat) returns (newId: Option<nat>)
    modifies t
    ensures t.jobs == Recovered(old(t.jobs), missing)
    ensures newId == if |t.jobs| > |old(t.jobs)| then Some(|t.jobs|) else None
  {
    ghost var before := t.jobs;
    var stale := t.InterruptStale();
    if stale == 0 {
      UntouchedWhenNoneActive(before);
      return None;
    }
    newId := None;
    if missing > 0 {
      var id := t.Create();
      newId := Some(id);
    }
  }

  lemma UntouchedWhenNoneActive(jobs: seq<Job>)
    requires CountActive(jobs) == 0
    ensures MarkStale(jobs) == jobs
  {
  }

  // ---------- the invariant ----------

  ghost predicate JobInv(s: State, id: nat) {
    var job := Get(s.jobs, id);
    && (s.Held(id) || id in s.lost ==> 1 <= id <= |s.jobs| && s.phase.Serving?)
    && (1 <= id <= |s.jobs| ==>
          && job.attempts <= 1
          && (job.status.Pending? ==> job == CREATED)
          && (job.status.Running? ==> job == Job(Running, 1, 0, 0))
          && (job.status.Done? ==> job.attempts == 1)
          && (id in s.handed ==> job.status.Pending? && id !in s.queued)
          && (id in s.queued ==> job.status.Pending?)
          && (id in s.begun ==> job.status.Running?)
          && (id in s.lost ==> job.Active() && !s.Held(id))
          && (s.phase.Serving? && job.Active() ==> s.Held(id) || id in s.lost))
  }

  ghost predicate Inv(s: State) { forall id: nat :: JobInv(s, id) }

  /** What recovery makes of a job that was there before. */
  lemma RecoveredAt(jobs: seq<Job>, missing: nat, id: nat)
    requires 1 <= id <= |jobs|
    ensures Get(Recovered(jobs, missing), id)
            == if Get(jobs, id).Active() then Get(jobs, id).(status := Failed) else Get(jobs, id)
  {
    if Get(jobs, id).Active() { SomeActive(jobs, id - 1); }
  }

  lemma RecoverKeepsInv(s: State, missing: nat, id: nat)
    requires JobInv(s, id) && Next(s, Recover(missing)).Some?
    ensures JobInv(Next(s, Recover(missing)).value, id)
  {
    if 1 <= id <= |s.jobs| { RecoveredAt(s.jobs, missing, id); }
  }

  lemma JobInvStep(s: State, step: Step, id: nat)
    requires JobInv(s, id) && Next(s, step).Some?
    requires !step.Recover? && !step.Enqueue? ==> step.Crash? || step.Boot? || JobInv(s, step.id)
    ensures JobInv(Next(s, step).value, id)
  {
    if step.Recover? { RecoverKeepsInv(s, step.missing, id); }
  }

  lemma InvStep(s: State, step: Step)
    requires Inv(s) && Next(s, step).Some?
    ensures Inv(Next(s, step).value)
  {
    forall id: nat ensures JobInv(Next(s, step).value, id) {
      assert JobInv(s, id);
      JobInvStep(s, step, id);
    }
  }

  lemma {:induction false} InvHolds(steps: seq<Step>)
    requires Run(INITIAL, steps).Some?
    ensures Inv(Run(INITIAL, steps).value)
  {
    if steps != [] {
      InvHolds(steps[..|steps| - 1]);
      InvStep(Run(INITIAL, steps[..|steps| - 1]).value, steps[|steps| - 1]);
    }
  }

  // ---------- what every run keeps ----------

  /** A job's whole life as seen at two moments of it. */
  ghost predicate Ages(j: Job, k: Job) {
    match j.status
    case Pending => k.status.Running? || k.status.Failed? || k == j
    case Running => (k.status.Done? || k.status.Failed? || k == j) && k.attempts == j.attempts
    case _ => k == j
  }

  /**
   One step moves a job at most one stage: pending to running, running to done or failed, or, by
   recovery, anything active to failed.  A finished job never changes again, counts included.
   */
  lemma StepAges(s: State, step: Step, id: nat)
    requires Inv(s) && Next(s, step).Some? && 1 <= id <= |s.jobs|
    ensures |s.jobs| <= |Next(s, step).value.jobs|
    ensures Ages(Get(s.jobs, id), Get(Next(s, step).value.jobs, id))
    ensures Get(s.jobs, id).status.Pending? && Get(Next(s, step).value.jobs, id).status.Failed? ==> step.Recover?
  {
    assert JobInv(s, id);
  }

  lemma {:induction false} FinishedIsForever(s: State, steps: seq<Step>, id: nat)
    requires Inv(s) && Run(s, steps).Some? && 1 <= id <= |s.jobs| && !Get(s.jobs, id).Active()
    ensures Inv(Run(s, steps).value)
    ensures |s.jobs| <= |Run(s, steps).value.jobs| && Get(Run(s, steps).value.jobs, id) == Get(s.jobs, id)
  {
    if steps != [] {
      FinishedIsForever(s, steps[..|steps| - 1], id);
      var before := Run(s, steps[..|steps| - 1]).value;
      InvStep(before, steps[|steps| - 1]);
      StepAges(before, steps[|steps| - 1], id);
    }
  }

  /**
   In every reachable state a job has been started at most once, was started if it is running or done,
   and was never started, and counted nothing, while it is pending.
   */
  lemma StartedAtMostOnce(steps: seq<Step>, id: nat)
    requires Run(INITIAL, steps).Some? && 1 <= id <= |Run(INITIAL, steps).value.jobs|
    ensures var job := Get(Run(INITIAL, steps).value.jobs, id);
            && job.attempts <= 1
            && (job.status.Running? || job.status.Done? ==> job.attempts == 1)
            && (job.status.Pending? ==> job == CREATED)
  {
    InvHolds(steps);
    assert JobInv(Run(INITIAL, steps).value, id);
  }

  // ---------- the history of a job ----------

  /** How often a run started the job. */
  function Begins(steps: seq<Step>, id: nat): nat {
    if steps == [] then 0
    else Begins(steps[..|steps| - 1], id) + (if steps[|steps| - 1] == Begin(id) then 1 else 0)
  }

  /** The record a step writes when it ends the job. */
  function ReportOf(step: Step, id: nat): seq<Job> {
    match step
    case Finish(own, updated, failed) => if own == id then [Job(Done, 1, updated, failed)] else []
    case Fail(own, updated, failed) => if own == id then [Job(Failed, 1, updated, failed)] else []
    case _ => []
  }

  /** What a run reported for the job: the record each `Finish` and each `Fail` of it writes. */
  function Reports(steps: seq<Step>, id: nat): seq<Job> {
    if steps == [] then [] else Reports(steps[..|steps| - 1], id) + ReportOf(steps[|steps| - 1], id)
  }

  /** A recovery in the run found the job active. */
  predicate Interrupted(steps: seq<Step>, id: nat) {
    if steps == [] then false
    else
      var earlier, before := steps[..|steps| - 1], Run(INITIAL, steps[..|steps| - 1]);
      || Interrupted(earlier, id)
      || (&& steps[|steps| - 1].Recover? && before.Some? && 1 <= id <= |before.value.jobs|
          && Get(before.value.jobs, id).Active())
  }

  /** The record of a job against what happened to it: reported once, or never and still active or interrupted. */
  predicate TellsHistory(job: Job, steps: seq<Step>, id: nat) {
    && job.attempts == Begins(steps, id) <= 1
    && if job.Active() then Reports(steps, id) == [] && !Interrupted(steps, id)
       else if Interrupted(steps, id) then Reports(steps, id) == [] && job == Job(Failed, Begins(steps, id), 0, 0)
       else Begins(steps, id) == 1 && Reports(steps, id) == [job]
  }

  lemma HistorySnoc(s: State, steps: seq<Step>, step: Step, id: nat)
    requires Run(INITIAL, steps) == Some(s)
    ensures Begins(steps + [step], id) == Begins(steps, id) + (if step == Begin(id) then 1 else 0)
    ensures Reports(steps + [step], id) == Reports(steps, id) + ReportOf(step, id)
    ensures Interrupted(steps + [step], id) <==>
            Interrupted(steps, id) || (step.Recover? && 1 <= id <= |s.jobs| && Get(s.jobs, id).Active())
  {
    assert (steps + [step])[..|steps|] == steps;
  }

  /** A job that is not in the table yet has no history. */
  predicate NoHistory(steps: seq<Step>, id: nat) {
    Begins(steps, id) == 0 && Reports(steps, id) == [] && !Interrupted(steps, id)
  }

  /** One step before the job is created, or the one that creates it. */
  lemma NoHistoryStep(s: State, t: State, steps: seq<Step>, step: Step, id: nat)
    requires Run(INITIAL, steps) == Some(s) && Next(s, step) == Some(t) && JobInv(s, id)
    requires !(1 <= id <= |s.jobs|) && NoHistory(steps, id)
    ensures NoHistory(steps + [step], id) && (1 <= id <= |t.jobs| ==> Get(t.jobs, id) == CREATED)
  {
    HistorySnoc(s, steps, step, id);
  }

  /** What a step makes of the record of one job. */
  predicate Moves(j: Job, k: Job, step: Step, id: nat) {
    match step
    case Begin(own) => if own == id then j == CREATED && k == Job(Running, 1, 0, 0) else k == j
    case Finish(own, updated, failed) =>
      if own == id then j == Job(Running, 1, 0, 0) && k == Job(Done, 1, updated, failed) else k == j
    case Fail(own, updated, failed) =>
      if own == id then j == Job(Running, 1, 0, 0) && k == Job(Failed, 1, updated, failed) else k == j
    case Recover(_) => k == if j.Active() then Job(Failed, j.attempts, 0, 0) else j
    case _ => k == j
  }

  lemma StepMoves(s: State, step: Step, id: nat)
    requires JobInv(s, id) && Next(s, step).Some? && 1 <= id <= |s.jobs|
    ensures Moves(Get(s.jobs, id), Get(Next(s, step).value.jobs, id), step, id)
  {
    if step.Recover? { RecoveredAt(s.jobs, step.missing, id); }
  }

  /** One step, for a job that was in the table before it. */
  lemma HistoryStep(s: State, steps: seq<Step>, step: Step, id: nat, after: Job)
    requires Run(INITIAL, steps) == Some(s) && 1 <= id <= |s.jobs| && Moves(Get(s.jobs, id), after, step, id)
    requires TellsHistory(Get(s.jobs, id), steps, id)
    ensures TellsHistory(after, steps + [step], id)
  {
    HistorySnoc(s, steps, step, id);
  }

  lemma {:induction false} HistoryHolds(steps: seq<Step>, s: State, id: nat)
    requires Run(INITIAL, steps) == Some(s)
    ensures if 1 <= id <= |s.jobs| then TellsHistory(Get(s.jobs, id), steps, id) else NoHistory(steps, id)
  {
    if steps != [] {
      var n := |steps| - 1;
      var before := Run(INITIAL, steps[..n]).value;
      HistoryHolds(steps[..n], before, id);
      InvHolds(steps[..n]);
      assert JobInv(before, id);
      assert steps == steps[..n] + [steps[n]];
      if 1 <= id <= |before.jobs| {
        StepMoves(before, steps[n], id);
        HistoryStep(before, steps[..n], steps[n], id, Get(s.jobs, id));
      } else {
        NoHistoryStep(before, s, steps[..n], steps[n], id);
      }
    }
  }

  /**
   Over every run from an empty table, the record of a job is the one report its one run wrote - attempts
   and counts included - or, if a recovery found it active, failed with nothing counted and as many
   attempts as it was started, and no run of it ever reports.
   */
  lemma RecordTellsHistory(steps: seq<Step>, s: State, id: nat)
    requires Run(INITIAL, steps) == Some(s) && 1 <= id <= |s.jobs|
    ensures TellsHistory(Get(s.jobs, id), steps, id)
  {
    HistoryHolds(steps, s, id);
  }

  // ---------- jobs whose task is gone ----------

  /** While the server serves, a job is active iff the process still holds it or has lost it. */
  lemma ActiveIffHeldOrLost(steps: seq<Step>, s: State, id: nat)
    requires Run(INITIAL, steps) == Some(s) && s.phase.Serving? && 1 <= id <= |s.jobs|
    ensures Get(s.jobs, id).Active() <==> s.Held(id) || id in s.lost
    ensures !(s.Held(id) && id in s.lost)
  {
    InvHolds(steps);
    assert JobInv(s, id);
  }

  /** A lost job stays exactly as it is, active and lost, until the server goes down. */
  lemma {:induction false} LostUntilRestart(s: State, steps: seq<Step>, t: State, id: nat)
    requires Inv(s) && s.phase.Serving? && id in s.lost && Run(s, steps) == Some(t) && Crash !in steps
    ensures Inv(t) && t.phase.Serving? && id in t.lost && 1 <= id <= |s.jobs| <= |t.jobs|
    ensures Get(t.jobs, id) == Get(s.jobs, id) && Get(t.jobs, id).Active() && CountActive(t.jobs) >= 1
  {
    if steps == [] {
      assert JobInv(s, id);
      SomeActive(s.jobs, id - 1);
    } else {
      var n := |steps| - 1;
      var before := Run(s, steps[..n]).value;
      LostUntilRestart(s, steps[..n], before, id);
      assert steps[n] in steps;
      LostStep(before, steps[n], id);
    }
  }

  lemma LostStep(s: State, step: Step, id: nat)
    requires Inv(s) && s.phase.Serving? && id in s.lost && Next(s, step).Some? && !step.Crash?
    ensures var t := Next(s, step).value;
            && Inv(t) && t.phase.Serving? && id in t.lost && 1 <= id <= |s.jobs| <= |t.jobs|
            && Get(t.jobs, id) == Get(s.jobs, id) && Get(t.jobs, id).Active() && CountActive(t.jobs) >= 1
  {
    InvStep(s, step);
    assert JobInv(s, id);
    SomeActive(Next(s, step).value.jobs, id - 1);
  }

  /** The next start-up clears what was lost: no job of before is active any more. */
  lemma RecoveryClearsLost(s: State, missing: nat, id: nat)
    requires Next(s, Recover(missing)).Some? && 1 <= id <= |s.jobs|
    ensures !Get(Next(s, Recover(missing)).value.jobs, id).Active() && Next(s, Recover(missing)).value.lost == {}
  {
    RecoveredAt(s.jobs, missing, id);
  }

  lemma RunSnoc(s: State, steps: seq<Step>, t: State, step: Step)
    requires Run(s, steps) == Some(t)
    ensures Run(s, steps + [step]) == Next(t, step)
  {
    assert (steps + [step])[..|steps|] == steps;
  }

  lemma FirstStart()
    ensures Run(INITIAL, [Boot] + [Recover(0)]) == Some(State([], Serving, {}, {}, {}, {}))
  {
    RunSnoc(INITIAL, [], INITIAL, Boot);
    assert [] + [Boot] == [Boot];
    RunSnoc(INITIAL, [Boot], INITIAL.(phase := Starting), Recover(0));
  }

  /** Jobs do get lost: here the very first one, between the insert and its hand-over to a task. */
  lemma AJobCanBeLost()
    ensures Run(INITIAL, [Boot] + [Recover(0)] + [Enqueue] + [Lose(1)])
            == Some(State([CREATED], Serving, {}, {}, {}, {1}))
  {
    var none: set<nat> := {};
    FirstStart();
    RunSnoc(INITIAL, [Boot] + [Recover(0)], State([], Serving, {}, {}, {}, {}), Enqueue);
    assert [] + [CREATED] == [CREATED] && none + {1} == {1};
    RunSnoc(INITIAL, [Boot] + [Recover(0)] + [Enqueue], State([CREATED], Serving, {1}, {}, {}, {}), Lose(1));
    assert {1} - {1} == none && none - {1} == none;
  }

  // ---------- recovery ----------

  lemma {:induction false} AllStale(jobs: seq<Job>)
    ensures CountActive(MarkStale(jobs)) == 0
  {
    NoneActive(MarkStale(jobs));
  }

  /**
   After recovery exactly one job is active if one was before and a row lacks its boundary, and none
   otherwise; it is then a new pending job, and jobs that were finished are untouched.
   */
  lemma RecoveryLeavesAtMostOne(s: State, missing: nat)
    requires Next(s, Recover(missing)).Some?
    ensures var n := Next(s, Recover(missing)).value;
            && CountActive(n.jobs) == (if CountActive(s.jobs) > 0 && missing > 0 then 1 else 0)
            && (CountActive(n.jobs) == 1 ==>
                  n.jobs[|n.jobs| - 1] == CREATED && n.handed == {|n.jobs|} && |n.jobs| == |s.jobs| + 1)
            && (CountActive(n.jobs) == 0 ==> n.handed == {} && |n.jobs| == |s.jobs|)
            && forall i :: 0 <= i < |s.jobs| && !s.jobs[i].Active() ==> n.jobs[i] == s.jobs[i]
  {
    AllStale(s.jobs);
    assert (MarkStale(s.jobs) + [CREATED])[..|s.jobs|] == MarkStale(s.jobs);
  }
}
