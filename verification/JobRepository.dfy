/**
 The `geom_update_jobs` table (app/repositories/job_repository.py).  Job `n` is at index `n - 1`; no job is
 deleted.
 */
module JobRepository {
  import opened Common

  datatype Status = Pending | Running | Done | Failed

  datatype Job = Job(status: Status, attempts: nat, updated: nat, failed: nat) {
    predicate Active() { status.Pending? || status.Running? }
  }

  const CREATED := Job(Pending, 0, 0, 0)

  function CountActive(jobs: seq<Job>): nat {
    if jobs == [] then 0 else CountActive(jobs[..|jobs| - 1]) + (if jobs[|jobs| - 1].Active() then 1 else 0)
  }

  /** `UPDATE ... WHERE id = ?`: a change to one job, or nothing if there is no such job. */
  function Put(jobs: seq<Job>, id: nat, job: Job): seq<Job> {
    if 1 <= id <= |jobs| then jobs[id - 1 := job] else jobs
  }

  function Get(jobs: seq<Job>, id: nat): Job {
    if 1 <= id <= |jobs| then jobs[id - 1] else CREATED
  }

  function MarkRunning(jobs: seq<Job>, id: nat): seq<Job> {
    Put(jobs, id, Get(jobs, id).(status := Running, attempts := Get(jobs, id).attempts + 1))
  }

  function MarkDone(jobs: seq<Job>, id: nat, updated: nat, failed: nat): seq<Job> {
    Put(jobs, id, Get(jobs, id).(status := Done, updated := updated, failed := failed))
  }

  function MarkFailed(jobs: seq<Job>, id: nat, updated: nat, failed: nat): seq<Job> {
    Put(jobs, id, Get(jobs, id).(status := Failed, updated := updated, failed := failed))
  }

  function MarkStale(jobs: seq<Job>): (r: seq<Job>)
    ensures |r| == |jobs|
    ensures forall i :: 0 <= i < |r| ==> r[i] == if jobs[i].Active() then jobs[i].(status := Failed) else jobs[i]
  {
    seq(|jobs|, i requires 0 <= i < |jobs| => if jobs[i].Active() then jobs[i].(status := Failed) else jobs[i])
  }

  class JobTable {
    var jobs: seq<Job>

    constructor ()
      ensures jobs == []
    {
      jobs := [];
    }

    method Create() returns (id: nat)
      modifies this
      ensures jobs == old(jobs) + [CREATED] && id == |jobs|
    {
      jobs := jobs + [CREATED];
      id := |jobs|;
    }

    method SetRunning(id: nat)
      modifies this
      ensures jobs == MarkRunning(old(jobs), id)
    {
      if 1 <= id <= |jobs| {
        jobs := jobs[id - 1 := jobs[id - 1].(status := Running, attempts := jobs[id - 1].attempts + 1)];
      }
    }

    method SetDone(id: nat, updated: nat, failed: nat)
      modifies this
      ensures jobs == MarkDone(old(jobs), id, updated, failed)
    {
      if 1 <= id <= |jobs| {
        jobs := jobs[id - 1 := jobs[id - 1].(status := Done, updated := updated, failed := failed)];
      }
    }

    method SetFailed(id: nat, updated: nat, failed: nat)
      modifies this
      ensures jobs == MarkFailed(old(jobs), id, updated, failed)
    {
      if 1 <= id <= |jobs| {
        jobs := jobs[id - 1 := jobs[id - 1].(status := Failed, updated := updated, failed := failed)];
      }
    }

    /** Fails every job a restart interrupted; the result is the statement's row count. */
    method InterruptStale() returns (count: nat)
      modifies this
      ensures jobs == MarkStale(old(jobs)) && count == CountActive(old(jobs))
    {
      count := 0;
      ghost var before := jobs;
      for i := 0 to |jobs|
        invariant |jobs| == |before|
        invariant forall k :: 0 <= k < i ==> jobs[k] == MarkStale(before)[k]
        invariant forall k :: i <= k < |jobs| ==> jobs[k] == before[k]
        invariant count == CountActive(before[..i])
      {
        assert before[..i + 1][..i] == before[..i];
        if jobs[i].Active() {
          jobs := jobs[i := jobs[i].(status := Failed)];
          count := count + 1;
        }
      }
      assert before[..|before|] == before;
    }

    /** The newest job still pending or running. */
    method FetchLatestActive() returns (id: Option<nat>)
      ensures id.Some? ==> 1 <= id.value <= |jobs| && jobs[id.value - 1].Active()
                           && forall k :: id.value <= k < |jobs| ==> !jobs[k].Active()
      ensures id.None? ==> CountActive(jobs) == 0
    {
      var i := |jobs|;
      while i > 0
        invariant 0 <= i <= |jobs|
        invariant forall k :: i <= k < |jobs| ==> !jobs[k].Active()
      {
        i := i - 1;
        if jobs[i].Active() { return Some(i + 1); }
      }
      NoneActive(jobs);
      id := None;
    }
  }

  lemma {:induction false} NoneActive(jobs: seq<Job>)
    requires forall k :: 0 <= k < |jobs| ==> !jobs[k].Active()
    ensures CountActive(jobs) == 0
  {
    if jobs != [] { NoneActive(jobs[..|jobs| - 1]); }
  }

  lemma {:induction false} SomeActive(jobs: seq<Job>, k: nat)
    requires k < |jobs| && jobs[k].Active()
    ensures CountActive(jobs) >= 1
  {
    if k < |jobs| - 1 { SomeActive(jobs[..|jobs| - 1], k); }
  }
}
