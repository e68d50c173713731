/**
 The counter `updated_count` of a back-fill run (app/services/geo_service.py) while others write: it counts
 commits, and a commit need not fill a row.
 */
module GeomCounts {
  import opened Common
  import opened LandRepository
  import opened GeomProtocol

  /** The counter of run `w`: one for each commit. */
  function Counted(steps: seq<Step>, w: nat): nat {
    if steps == [] then 0
    else Counted(steps[..|steps| - 1], w) + (if steps[|steps| - 1] == CommitGeom(w) then 1 else 0)
  }

  ghost predicate StillMissing(t: Table, item: Item) {
    exists r :: r in t.rows && r.id == item.id && r.address == item.address && r.geom.None?
  }

  /** The commit that `w` is about to make gives a row its first boundary. */
  ghost predicate Fills(s: State, w: nat) {
    w in s.workers && s.workers[w].Committing? && StillMissing(s.table, s.workers[w].item)
  }

  /** The rows that run `w` has given their first boundary. */
  ghost function Filled(c: Config, steps: seq<Step>, w: nat): nat
    requires Run(c, INITIAL, steps).Some?
  {
    if steps == [] then 0
    else
      var n := |steps| - 1;
      Filled(c, steps[..n], w)
      + (if steps[n] == CommitGeom(w) && Fills(Run(c, INITIAL, steps[..n]).value, w) then 1 else 0)
  }

  /** A commit leaves one row fewer without a boundary iff it fills one, and changes no other count. */
  lemma CommitFillsOrNot(c: Config, steps: seq<Step>, s: State, w: nat)
    requires Run(c, INITIAL, steps) == Some(s) && Next(c, s, CommitGeom(w)).Some?
    ensures CountMissing(s.table.rows)
            == CountMissing(Next(c, s, CommitGeom(w)).value.table.rows) + (if Fills(s, w) then 1 else 0)
  {
    InvHolds(c, steps);
    var item, geom := s.workers[w].item, s.workers[w].geom;
    assert WorkerInv(s.table, steps, s.workers[w]) && Pending(s.workers[w], item);
    SetGeomCounts(s.table, item, geom);
  }

  lemma SetGeomCounts(t: Table, item: Item, geom: string)
    requires ValidTable(t) && Fetched(t, item)
    ensures CountMissing(t.rows)
            == CountMissing(SetGeom(t.rows, item.id, geom)) + (if StillMissing(t, item) then 1 else 0)
  {
    if StillMissing(t, item) {
      var r :| r in t.rows && r.id == item.id && r.address == item.address && r.geom.None?;
      var k :| 0 <= k < |t.rows| && t.rows[k] == r;
      SetGeomFillsOne(t.rows, k, geom);
    } else {
      forall k | 0 <= k < |t.rows| && t.rows[k].id == item.id ensures t.rows[k].geom.Some? {
        assert t.rows[k] in t.rows;
      }
      SameMissing(t.rows, SetGeom(t.rows, item.id, geom));
    }
  }

  lemma {:induction false} SameMissing(rows: seq<Row>, other: seq<Row>)
    requires |rows| == |other| && forall k :: 0 <= k < |rows| ==> (rows[k].geom.None? <==> other[k].geom.None?)
    ensures CountMissing(rows) == CountMissing(other)
  {
    if rows != [] { SameMissing(rows[1..], other[1..]); }
  }

  lemma {:induction false} CountsSnoc(c: Config, steps: seq<Step>, s: State, step: Step, w: nat)
    requires Run(c, INITIAL, steps) == Some(s) && Next(c, s, step).Some?
    ensures Run(c, INITIAL, steps + [step]) == Next(c, s, step)
    ensures Counted(steps + [step], w) == Counted(steps, w) + (if step == CommitGeom(w) then 1 else 0)
    ensures Filled(c, steps + [step], w)
            == Filled(c, steps, w) + (if step == CommitGeom(w) && Fills(s, w) then 1 else 0)
  {
    assert (steps + [step])[..|steps|] == steps;
  }

  // ---------- why a commit fills nothing ----------

  /** The latest step before `k` in which `w` fetched a batch. */
  function LastFetch(steps: seq<Step>, k: nat, w: nat): (f: nat)
    requires k <= |steps|
    ensures f <= k && FetchBatch(w) !in steps[f + (if f < k then 1 else 0)..k]
  {
    if k == 0 then 0 else if steps[k - 1] == FetchBatch(w) then k - 1 else LastFetch(steps, k - 1, w)
  }

  /** Step `j` of the run is an upload, or another run's commit to the row with this id. */
  ghost predicate Interferes(c: Config, steps: seq<Step>, j: nat, w: nat, id: nat) {
    && j < |steps| && Run(c, INITIAL, steps[..j]).Some?
    && (steps[j].CommitUpload? || CommitsTo(Run(c, INITIAL, steps[..j]).value, steps[j], w, id))
  }

  ghost predicate CommitsTo(s: State, step: Step, w: nat, id: nat) {
    && step.CommitGeom? && step.w != w && step.w in s.workers
    && s.workers[step.w].Committing? && s.workers[step.w].item.id == id
  }

  /** Nobody interferes with the row between the steps `f` and `k`. */
  ghost predicate Undisturbed(c: Config, steps: seq<Step>, f: nat, k: nat, w: nat, id: nat) {
    forall j: nat :: f < j < k ==> !Interferes(c, steps, j, w, id)
  }

  /** What `w` still has to do has been in its hands since its last fetch, in order. */
  lemma PendingBefore(c: Config, t: Table, worker: Worker, step: Step, item: Item)
    requires Sorted(worker) && WorkerNext(c, t, worker, step).Some? && !step.FetchBatch?
    requires Pending(WorkerNext(c, t, worker, step).value, item)
    ensures Pending(worker, item)
    ensures step.CommitGeom? ==> worker.Committing? && worker.item.id != item.id
  {
    if worker.Committing? {
      var i :| 0 <= i < |worker.rest| && worker.rest[i] == item;
      assert ([worker.item] + worker.rest)[0].id < ([worker.item] + worker.rest)[i + 1].id;
    }
  }

  /** A step that is no upload and commits to no row with this id leaves the row missing. */
  lemma RowStays(c: Config, s: State, step: Step, item: Item)
    requires ValidTable(s.table) && StillMissing(s.table, item) && Next(c, s, step).Some? && !step.CommitUpload?
    requires step.CommitGeom? && step.w in s.workers && s.workers[step.w].Committing? ==>
               s.workers[step.w].item.id != item.id
    ensures StillMissing(Next(c, s, step).value.table, item)
  {
    var r :| r in s.table.rows && r.id == item.id && r.address == item.address && r.geom.None?;
    var k :| 0 <= k < |s.table.rows| && s.table.rows[k] == r;
    NextWrites(c, s, step);
    hide Next, WorkerNext, NextItem, Items, InsertAll, KnownGeoms;
    if step.CommitSeed? {
      InsertAllShape(s.table, step.rows);
      assert InsertAll(s.table, step.rows).rows[..|s.table.rows|][k] == r;
    } else if step.CommitGeom? {
      assert Written(s, step).rows[k] == r;
    }
  }

  /** A row that is gone or filled stays so. */
  lemma GoneForGood(t: Table, u: Table, item: Item)
    requires Fetched(t, item) && !StillMissing(t, item) && Later(t, u)
    ensures !StillMissing(u, item)
  {
    forall r | r in u.rows && r.id == item.id && r.address == item.address ensures r.geom.Some? {
      assert r.id < t.nextId;
    }
  }

  /** An upload, or another commit to the row, leaves no row with this id missing. */
  lemma InterferenceEnds(c: Config, s: State, step: Step, w: nat, item: Item)
    requires ValidTable(s.table) && Fetched(s.table, item) && Next(c, s, step).Some?
    requires step.CommitUpload? || CommitsTo(s, step, w, item.id)
    ensures !StillMissing(Next(c, s, step).value.table, item)
  {
    NextWrites(c, s, step);
    if step.CommitUpload? {
      ReplaceIsLater(s.table, s.uploads[step.u].known, s.uploads[step.u].addresses);
    } else {
      var rows := Written(s, step).rows;
      forall r | r in rows && r.id == item.id ensures r.geom.Some? {
        var i :| 0 <= i < |rows| && rows[i] == r;
      }
    }
  }

  /** One step, seen from the worker's side and from the row's. */
  lemma OneStep(c: Config, steps: seq<Step>, s: State, step: Step, w: nat, item: Item)
    requires Run(c, INITIAL, steps) == Some(s) && Next(c, s, step).Some?
    requires step != FetchBatch(w) && w in Next(c, s, step).value.workers
    requires Pending(Next(c, s, step).value.workers[w], item)
    ensures w in s.workers && Pending(s.workers[w], item)
    ensures StillMissing(Next(c, s, step).value.table, item) <==>
            StillMissing(s.table, item) && !step.CommitUpload? && !CommitsTo(s, step, w, item.id)
  {
    InvHolds(c, steps);
    AllSorted(c, steps);
    WorkerAfter(c, s, step, w);
    assert WorkerInv(s.table, steps, s.workers[w]);
    var t := Next(c, s, step).value;
    if t.workers[w] != s.workers[w] { PendingBefore(c, s.table, s.workers[w], step, item); }
    if step.CommitUpload? || CommitsTo(s, step, w, item.id) {
      InterferenceEnds(c, s, step, w, item);
    } else if StillMissing(s.table, item) {
      OwnCommitIsElsewhere(c, s, step, w, item);
      RowStays(c, s, step, item);
    } else {
      StepIsLater(c, s, step);
      GoneForGood(s.table, t.table, item);
    }
  }

  lemma OwnCommitIsElsewhere(c: Config, s: State, step: Step, w: nat, item: Item)
    requires Next(c, s, step).Some? && w in s.workers && Sorted(s.workers[w])
    requires w in Next(c, s, step).value.workers && Pending(Next(c, s, step).value.workers[w], item)
    ensures step == CommitGeom(w) ==> s.workers[w].Committing? && s.workers[w].item.id != item.id
  {
    if step == CommitGeom(w) { PendingBefore(c, s.table, s.workers[w], step, item); }
  }

  lemma PrefixSnoc(c: Config, steps: seq<Step>, k: nat)
    requires k < |steps| && Run(c, INITIAL, steps[..k + 1]).Some?
    ensures Run(c, INITIAL, steps[..k]).Some?
    ensures Next(c, Run(c, INITIAL, steps[..k]).value, steps[k]) == Run(c, INITIAL, steps[..k + 1])
  {
    assert steps[..k + 1][..k] == steps[..k];
  }

  lemma NobodyAtFirst(c: Config, steps: seq<Step>, s: State)
    requires Run(c, INITIAL, steps[..0]) == Some(s)
    ensures s.workers == map[]
  {
  }

  /** The fetch itself: what it puts in the worker's hands is missing. */
  lemma FetchedIsMissing(c: Config, s: State, w: nat, item: Item)
    requires Next(c, s, FetchBatch(w)).Some? && Pending(Next(c, s, FetchBatch(w)).value.workers[w], item)
    ensures StillMissing(Next(c, s, FetchBatch(w)).value.table, item)
  {
    var afterId := s.workers[w].afterId;
    var batch := Take(Missing(s.table.rows, afterId), c.batchSize);
    var i :| 0 <= i < |batch| && Items(batch)[i] == item;
    SelectIsExact(s.table.rows, false, afterId);
    assert batch[i] in Missing(s.table.rows, afterId);
  }

  lemma UndisturbedSnoc(c: Config, steps: seq<Step>, f: nat, k: nat, s: State, w: nat, id: nat)
    requires k < |steps| && Run(c, INITIAL, steps[..k]) == Some(s)
    ensures f >= k ==> Undisturbed(c, steps, f, k + 1, w, id)
    ensures f < k ==> (Undisturbed(c, steps, f, k + 1, w, id) <==>
                       Undisturbed(c, steps, f, k, w, id) && !steps[k].CommitUpload? && !CommitsTo(s, steps[k], w, id))
  {
    hide Run, CommitsTo;
    assert Interferes(c, steps, k, w, id) <==> steps[k].CommitUpload? || CommitsTo(s, steps[k], w, id);
  }

  /** A row that a worker still has to deal with is missing iff nobody has interfered since its last fetch. */
  lemma {:induction false} MissingIffUndisturbed(c: Config, steps: seq<Step>, k: nat, s: State, w: nat, item: Item)
    requires k <= |steps| && Run(c, INITIAL, steps[..k]) == Some(s) && w in s.workers && Pending(s.workers[w], item)
    ensures StillMissing(s.table, item) <==> Undisturbed(c, steps, LastFetch(steps, k, w), k, w, item.id)
    ensures LastFetch(steps, k, w) < k && steps[LastFetch(steps, k, w)] == FetchBatch(w)
  {
    hide Run, Next, StillMissing, Pending, Interferes, CommitsTo, Undisturbed;
    if k == 0 {
      NobodyAtFirst(c, steps, s);
      assert false;
    } else {
      PrefixSnoc(c, steps, k - 1);
      var before := Run(c, INITIAL, steps[..k - 1]).value;
      if steps[k - 1] == FetchBatch(w) {
        FetchedIsMissing(c, before, w, item);
      } else {
        OneStep(c, steps[..k - 1], before, steps[k - 1], w, item);
        MissingIffUndisturbed(c, steps, k - 1, before, w, item);
      }
      UndisturbedSnoc(c, steps, LastFetch(steps, k, w), k - 1, before, w, item.id);
    }
  }

  /** Step `k` is a commit of `w` with which nobody has interfered since the fetch of its batch. */
  ghost predicate CleanCommit(c: Config, steps: seq<Step>, k: nat, w: nat)
    requires k < |steps| && Run(c, INITIAL, steps[..k]).Some?
  {
    var s := Run(c, INITIAL, steps[..k]).value;
    w in s.workers && s.workers[w].Committing?
    && Undisturbed(c, steps, LastFetch(steps, k, w), k, w, s.workers[w].item.id)
  }

  /**
   A commit fills its row iff, since its batch was fetched, there was no upload and no other run committed
   to the same row.
   */
  lemma CommitFillsIffUndisturbed(c: Config, steps: seq<Step>, k: nat, w: nat)
    requires k < |steps| && Run(c, INITIAL, steps[..k + 1]).Some? && steps[k] == CommitGeom(w)
    ensures Run(c, INITIAL, steps[..k]).Some?
    ensures Fills(Run(c, INITIAL, steps[..k]).value, w) <==> CleanCommit(c, steps, k, w)
  {
    PrefixSnoc(c, steps, k);
    var s := Run(c, INITIAL, steps[..k]).value;
    MissingIffUndisturbed(c, steps, k, s, w, s.workers[w].item);
  }

  /** Every commit of run `w` among the first `n` steps is undisturbed. */
  ghost predicate AllClean(c: Config, steps: seq<Step>, n: nat, w: nat)
    requires n <= |steps|
  {
    forall k: nat :: k < n && steps[k] == CommitGeom(w) ==>
      Run(c, INITIAL, steps[..k]).Some? && CleanCommit(c, steps, k, w)
  }

  lemma {:induction false} ExactUpTo(c: Config, steps: seq<Step>, n: nat, w: nat)
    requires n <= |steps| && Run(c, INITIAL, steps[..n]).Some?
    ensures Filled(c, steps[..n], w) <= Counted(steps[..n], w)
    ensures Filled(c, steps[..n], w) == Counted(steps[..n], w) <==> AllClean(c, steps, n, w)
  {
    hide Run, Next, Fills, CleanCommit;
    if n > 0 {
      PrefixSnoc(c, steps, n - 1);
      var before := Run(c, INITIAL, steps[..n - 1]).value;
      ExactUpTo(c, steps, n - 1, w);
      CountsSnoc(c, steps[..n - 1], before, steps[n - 1], w);
      assert steps[..n] == steps[..n - 1] + [steps[n - 1]];
      if steps[n - 1] == CommitGeom(w) { CommitFillsIffUndisturbed(c, steps, n - 1, w); }
    }
  }

  /**
   The counter of a run is the number of rows it has filled iff nobody interfered with any of its commits,
   between the fetch of the batch and the commit; otherwise it is larger.
   */
  lemma CounterIsExactIff(c: Config, steps: seq<Step>, w: nat)
    requires Run(c, INITIAL, steps).Some?
    ensures Filled(c, steps, w) <= Counted(steps, w)
    ensures Filled(c, steps, w) == Counted(steps, w) <==> AllClean(c, steps, |steps|, w)
  {
    assert steps[..|steps|] == steps;
    ExactUpTo(c, steps, |steps|, w);
  }

  // ---------- a wasted commit, step by step ----------

  /** An upload overtakes the worker that holds a boundary for its row. */
  function Overtaken(address: string, geom: string): seq<Step> {
    SeedSteps(address) + (FindSteps(address, geom) + ([ReadKnown(0, [address])] + [CommitUpload(0)]))
  }

  lemma OvertakenRun(c: Config, address: string, geom: string)
    requires 1 <= c.maxRetries && 1 <= c.batchSize && geom != ""
    ensures Run(c, INITIAL, Overtaken(address, geom))
            == Some(State(Table([Row(2, address, None)], 3), map[0 := Committing(1, Item(1, address), geom, [])],
                          map[], {}))
  {
    var seeded := State(Table([Row(1, address, None)], 2), map[], map[], {});
    var found := seeded.(workers := map[0 := Committing(1, Item(1, address), geom, [])]);
    var find, race := FindSteps(address, geom), [ReadKnown(0, [address])] + [CommitUpload(0)];
    SeedOne(c, address);
    FindOne(c, seeded, address, geom);
    OvertakeOne(c, found, address);
    hide Run, SeedSteps, FindSteps;
    RunConcat(c, INITIAL, SeedSteps(address), seeded, find + race);
    RunConcat(c, seeded, find, found, race);
  }

  lemma OvertakeOne(c: Config, s: State, address: string)
    requires s.table == Table([Row(1, address, None)], 2) && s.uploads == map[]
    ensures Run(c, s, [ReadKnown(0, [address])] + [CommitUpload(0)])
            == Some(s.(table := Table([Row(2, address, None)], 3)))
  {
    assert KnownGeoms(s.table.rows) == map[] by { assert s.table.rows[..0] == []; }
    RunSnoc(c, s, [], s, ReadKnown(0, [address]));
    assert [] + [ReadKnown(0, [address])] == [ReadKnown(0, [address])];
    var readDone := s.(uploads := map[0 := Upload(map[], [address])]);
    RunSnoc(c, s, [ReadKnown(0, [address])], readDone, CommitUpload(0));
    ReplaceOne(s.table, address);
    assert readDone.uploads - {0} == map[];
  }

  /** The counter does overcount, for every address and boundary: the late commit is counted and fills nothing. */
  lemma ACommitCanBeWasted(c: Config, address: string, geom: string)
    requires 1 <= c.maxRetries && 1 <= c.batchSize && geom != ""
    ensures var steps := Overtaken(address, geom) + [CommitGeom(0)];
            Run(c, INITIAL, steps).Some? && Filled(c, steps, 0) < Counted(steps, 0)
  {
    var steps := Overtaken(address, geom);
    OvertakenRun(c, address, geom);
    var s := Run(c, INITIAL, steps).value;
    CountsSnoc(c, steps, s, CommitGeom(0), 0);
    CounterIsExactIff(c, steps, 0);
  }
}
