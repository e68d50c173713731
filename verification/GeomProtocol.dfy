/**
 Back-fill workers, uploads and seed loads running at once on one `poi` table, as a state machine whose
 steps are the separately committed statements.

 app/services/geo_service.py, app/services/upload_service.py, app/services/seed_service.py
 */
module GeomProtocol {
  import opened Common
  import opened LandRepository
  import opened UploadService

  datatype Item = Item(id: nat, address: string)

  /** Where a run of `update_geoms` stands between two of its steps. */
  datatype Worker =
    | Fetching(attempt: nat, afterId: nat)
    | Looking(attempt: nat, afterId: nat, batch: seq<Item>)
    | Committing(attempt: nat, item: Item, geom: string, rest: seq<Item>)
    | Counting(attempt: nat)
    | Stopped

  /** An upload between its SELECT of known boundaries and its write transaction. */
  datatype Upload = Upload(known: map<string, string>, addresses: seq<string>)

  datatype State = State(table: Table, workers: map<nat, Worker>, uploads: map<nat, Upload>, seeds: set<nat>)

  datatype Config = Config(maxRetries: nat, batchSize: nat)

  datatype Step =
    | StartWorker(w: nat)
    | FetchBatch(w: nat)
    | LookUp(w: nat, attempt: nat, item: Item, result: Option<string>)
    | CommitGeom(w: nat)
    | CheckCount(w: nat)
    | KillWorker(w: nat)
    | ReadKnown(u: nat, addresses: seq<string>)
    | CommitUpload(u: nat)
    | AbortUpload(u: nat)
    | CheckEmpty(k: nat)
    | CommitSeed(k: nat, rows: seq<NewRow>)

  const INITIAL := State(Table([], 1), map[], map[], {})

  function Items(rows: seq<Row>): (r: seq<Item>)
    ensures |r| == |rows| && forall i :: 0 <= i < |r| ==> r[i] == Item(rows[i].id, rows[i].address)
  {
    seq(|rows|, i requires 0 <= i < |rows| => Item(rows[i].id, rows[i].address))
  }

  function BeginPass(c: Config, attempt: nat): Worker {
    if attempt <= c.maxRetries then Fetching(attempt, 0) else Stopped
  }

  function NextItem(attempt: nat, afterId: nat, rest: seq<Item>): Worker {
    if rest == [] then Fetching(attempt, afterId) else Looking(attempt, afterId, rest)
  }

  // ---------- the steps ----------

  /** The worker's next control point when it takes `step` on table `t`, if it can. */
  function WorkerNext(c: Config, t: Table, worker: Worker, step: Step): Option<Worker> {
    match (worker, step)
    case (Fetching(attempt, afterId), FetchBatch(_)) =>
      var batch := Items(Take(Missing(t.rows, afterId), c.batchSize));
      Some(if batch == [] then Counting(attempt) else Looking(attempt, afterId, batch))
    case (Looking(attempt, _, batch), LookUp(_, a, item, result)) =>
      if batch == [] || a != attempt || item != batch[0] then None
      else if result.Some? && result.value != "" then Some(Committing(attempt, item, result.value, batch[1..]))
      else Some(NextItem(attempt, item.id, batch[1..]))
    case (Committing(attempt, item, _, rest), CommitGeom(_)) => Some(NextItem(attempt, item.id, rest))
    case (Counting(attempt), CheckCount(_)) =>
      Some(if CountMissing(t.rows) == 0 then Stopped else BeginPass(c, attempt + 1))
    case (_, KillWorker(_)) => Some(Stopped)
    case _ => None
  }

  function Next(c: Config, s: State, step: Step): Option<State> {
    match step
    case StartWorker(w) =>
      if w in s.workers then None else Some(s.(workers := s.workers[w := BeginPass(c, 1)]))
    case ReadKnown(u, addresses) =>
      if u in s.uploads then None
      else Some(s.(uploads := s.uploads[u := Upload(KnownGeoms(s.table.rows), addresses)]))
    case CommitUpload(u) =>
      if u !in s.uploads then None
      else Some(s.(table := Replace(s.table, s.uploads[u].known, s.uploads[u].addresses), uploads := s.uploads - {u}))
    case AbortUpload(u) =>
      if u !in s.uploads then None else Some(s.(uploads := s.uploads - {u}))
    case CheckEmpty(k) =>
      if s.table.rows != [] then None else Some(s.(seeds := s.seeds + {k}))
    case CommitSeed(k, rows) =>
      if k !in s.seeds then None else Some(s.(table := InsertAll(s.table, rows), seeds := s.seeds - {k}))
    case _ =>
      if step.w !in s.workers then None
      else
        var next := WorkerNext(c, s.table, s.workers[step.w], step);
        if next.None? then None
        else
          Some(s.(table := if step.CommitGeom? then Committed(s.table, s.workers[step.w]) else s.table,
                  workers := s.workers[step.w := next.value]))
  }

  function Committed(t: Table, worker: Worker): Table {
    if worker.Committing? then t.(rows := SetGeom(t.rows, worker.item.id, worker.geom)) else t
  }

  function Run(c: Config, s: State, steps: seq<Step>): Option<State> {
    if steps == [] then Some(s)
    else
      var before := Run(c, s, steps[..|steps| - 1]);
      if before.None? then None else Next(c, before.value, steps[|steps| - 1])
  }

  // ---------- where boundaries come from ----------

  /** `geom` was returned by a lookup of `address`, or listed beside it in a seed file. */
  ghost predicate Obtained(steps: seq<Step>, address: string, geom: string) {
    exists step :: step in steps && Yields(step, address, geom)
  }

  ghost predicate Yields(step: Step, address: string, geom: string) {
    match step
    case LookUp(_, _, item, result) => item.address == address && result == Some(geom)
    case CommitSeed(_, rows) => NewRow(address, Some(geom)) in rows
    case _ => false
  }

  /** An item fetched from the table: its id is spent, and a row that still has it still has its address. */
  ghost predicate Fetched(t: Table, item: Item) {
    item.id < t.nextId && forall r :: r in t.rows && r.id == item.id ==> r.address == item.address
  }

  ghost predicate Pending(worker: Worker, item: Item) {
    match worker
    case Looking(_, _, batch) => item in batch
    case Committing(_, current, _, rest) => item == current || item in rest
    case _ => false
  }

  ghost predicate WorkerInv(t: Table, steps: seq<Step>, worker: Worker) {
    && (forall item :: Pending(worker, item) ==> Fetched(t, item))
    && (worker.Committing? ==> Obtained(steps, worker.item.address, worker.geom))
  }

  ghost predicate Inv(s: State, steps: seq<Step>) {
    && ValidTable(s.table)
    && (forall r :: r in s.table.rows && r.geom.Some? ==> Obtained(steps, r.address, r.geom.value))
    && (forall w :: w in s.workers ==> WorkerInv(s.table, steps, s.workers[w]))
    && (forall u, a :: u in s.uploads && a in s.uploads[u].known ==> Obtained(steps, a, s.uploads[u].known[a]))
  }

  // ---------- how the table moves ----------

  ghost predicate SameRow(r: Row, later: Row) {
    r.id == later.id && r.address == later.address && (r.geom.Some? ==> later.geom.Some?)
  }

  /** Every old id still in use belongs to the row that had it: same address, and no boundary taken away. */
  ghost predicate Later(t: Table, u: Table) {
    && t.nextId <= u.nextId
    && forall r :: r in u.rows && r.id < t.nextId ==> exists q :: q in t.rows && SameRow(q, r)
  }

  lemma SetGeomIsLater(t: Table, id: nat, geom: string)
    requires ValidTable(t)
    ensures ValidTable(t.(rows := SetGeom(t.rows, id, geom))) && Later(t, t.(rows := SetGeom(t.rows, id, geom)))
  {
    SetGeomKeepsValid(t, id, geom);
    var rows := SetGeom(t.rows, id, geom);
    forall r | r in rows ensures exists q :: q in t.rows && SameRow(q, r) {
      var i :| 0 <= i < |rows| && rows[i] == r;
      assert t.rows[i] in t.rows && SameRow(t.rows[i], r);
    }
  }

  lemma InsertAllIsLater(t: Table, ns: seq<NewRow>)
    requires ValidTable(t)
    ensures ValidTable(InsertAll(t, ns)) && Later(t, InsertAll(t, ns))
    ensures forall r :: r in InsertAll(t, ns).rows ==> r in t.rows || NewRow(r.address, r.geom) in ns
  {
    InsertAllShape(t, ns);
    forall r | r in InsertAll(t, ns).rows
      ensures r in t.rows || (NewRow(r.address, r.geom) in ns && t.nextId <= r.id)
    {
      OldOrInserted(t, ns, r);
    }
    hide InsertAll, ValidTable;
    forall r | r in InsertAll(t, ns).rows && r.id < t.nextId ensures exists q :: q in t.rows && SameRow(q, r) {
      assert r in t.rows && SameRow(r, r);
    }
  }

  lemma OldOrInserted(t: Table, ns: seq<NewRow>, r: Row)
    requires ValidTable(t) && r in InsertAll(t, ns).rows
    ensures r in t.rows || (NewRow(r.address, r.geom) in ns && t.nextId <= r.id)
  {
    InsertAllShape(t, ns);
    hide InsertAll, ValidTable;
    var u := InsertAll(t, ns);
    var i :| 0 <= i < |u.rows| && u.rows[i] == r;
    if i < |t.rows| {
      assert u.rows[..|t.rows|][i] == r;
    } else {
      InsertedRow(t, ns, i - |t.rows|);
      assert ns[i - |t.rows|] in ns;
    }
  }

  lemma ReplaceIsLater(t: Table, known: map<string, string>, addresses: seq<string>)
    requires ValidTable(t)
    ensures ValidTable(Replace(t, known, addresses)) && Later(t, Replace(t, known, addresses))
    ensures forall r :: r in Replace(t, known, addresses).rows ==>
              t.nextId <= r.id && (r.geom.Some? ==> r.address in known && r.geom.value == known[r.address])
  {
    ReplaceShape(t, known, addresses);
    var u := Replace(t, known, addresses);
    forall r | r in u.rows
      ensures t.nextId <= r.id && (r.geom.Some? ==> r.address in known && r.geom.value == known[r.address])
    {
      var i :| 0 <= i < |u.rows| && u.rows[i] == r;
    }
  }

  /** The table after `step`: only three kinds of step write to it. */
  function Written(s: State, step: Step): Table {
    match step
    case CommitUpload(u) =>
      if u in s.uploads then Replace(s.table, s.uploads[u].known, s.uploads[u].addresses) else s.table
    case CommitSeed(_, rows) => InsertAll(s.table, rows)
    case CommitGeom(w) => if w in s.workers then Committed(s.table, s.workers[w]) else s.table
    case _ => s.table
  }

  lemma NextWrites(c: Config, s: State, step: Step)
    requires Next(c, s, step).Some?
    ensures Next(c, s, step).value.table == Written(s, step)
  {
  }

  lemma WrittenIsLater(s: State, step: Step)
    requires ValidTable(s.table)
    ensures ValidTable(Written(s, step)) && Later(s.table, Written(s, step))
  {
    hide Replace, InsertAll, SetGeom;
    if step.CommitUpload? && step.u in s.uploads {
      ReplaceIsLater(s.table, s.uploads[step.u].known, s.uploads[step.u].addresses);
    } else if step.CommitSeed? {
      InsertAllIsLater(s.table, step.rows);
    } else if step.CommitGeom? && step.w in s.workers && s.workers[step.w].Committing? {
      SetGeomIsLater(s.table, s.workers[step.w].item.id, s.workers[step.w].geom);
    } else {
      assert Written(s, step) == s.table;
      LaterReflexive(s.table);
    }
  }

  lemma StepIsLater(c: Config, s: State, step: Step)
    requires ValidTable(s.table) && Next(c, s, step).Some?
    ensures ValidTable(Next(c, s, step).value.table) && Later(s.table, Next(c, s, step).value.table)
  {
    NextWrites(c, s, step);
    WrittenIsLater(s, step);
  }

  lemma LaterReflexive(t: Table)
    ensures Later(t, t)
  {
  }

  // ---------- every boundary is the row's own ----------

  lemma ObtainedStays(steps: seq<Step>, more: Step, address: string, geom: string)
    requires Obtained(steps, address, geom)
    ensures Obtained(steps + [more], address, geom)
  {
  }

  /** A worker that does not move keeps its part of the invariant while the others change the table. */
  lemma WorkerInvStays(t: Table, u: Table, steps: seq<Step>, more: Step, worker: Worker)
    requires WorkerInv(t, steps, worker) && Later(t, u)
    ensures WorkerInv(u, steps + [more], worker)
  {
  }

  lemma WorkerInvMoves(c: Config, t: Table, steps: seq<Step>, worker: Worker, step: Step)
    requires ValidTable(t) && WorkerInv(t, steps, worker) && WorkerNext(c, t, worker, step).Some?
    ensures WorkerInv(t, steps + [step], WorkerNext(c, t, worker, step).value)
  {
    var next := WorkerNext(c, t, worker, step).value;
    assert step in steps + [step];
    forall item | Pending(next, item) ensures Fetched(t, item) {
      if worker.Fetching? {
        FetchedBatch(c, t, worker.afterId, item);
      } else {
        assert Pending(worker, item);
      }
    }
    if next.Committing? { assert Yields(step, next.item.address, next.geom); }
  }

  lemma FetchedBatch(c: Config, t: Table, afterId: nat, item: Item)
    requires ValidTable(t) && item in Items(Take(Missing(t.rows, afterId), c.batchSize))
    ensures Fetched(t, item)
  {
    var batch := Take(Missing(t.rows, afterId), c.batchSize);
    var i :| 0 <= i < |batch| && Items(batch)[i] == item;
    SelectIsExact(t.rows, false, afterId);
    assert batch[i] in Missing(t.rows, afterId);
    var k :| 0 <= k < |t.rows| && t.rows[k] == batch[i];
    forall r | r in t.rows && r.id == item.id ensures r.address == item.address {
      var j :| 0 <= j < |t.rows| && t.rows[j] == r;
      assert j == k;
    }
  }

  /** Rows written by a step carry only boundaries already obtained. */
  lemma RowsObtained(c: Config, s: State, steps: seq<Step>, step: Step)
    requires Inv(s, steps) && Next(c, s, step).Some?
    ensures var u := Next(c, s, step).value.table;
            forall r :: r in u.rows && r.geom.Some? ==> Obtained(steps + [step], r.address, r.geom.value)
  {
    var u := Next(c, s, step).value.table;
    forall r | r in u.rows && r.geom.Some? ensures Obtained(steps + [step], r.address, r.geom.value) {
      if r in s.table.rows {
        ObtainedStays(steps, step, r.address, r.geom.value);
      } else {
        match step {
          case CommitUpload(n) =>
            ReplaceIsLater(s.table, s.uploads[n].known, s.uploads[n].addresses);
            ObtainedStays(steps, step, r.address, r.geom.value);
          case CommitSeed(k, rows) =>
            InsertAllIsLater(s.table, rows);
            assert Yields(step, r.address, r.geom.value) && step in steps + [step];
          case CommitGeom(w) =>
            var worker := s.workers[w];
            var i :| 0 <= i < |u.rows| && u.rows[i] == r;
            assert s.table.rows[i] in s.table.rows;
            assert Pending(worker, worker.item) && Fetched(s.table, worker.item);
            ObtainedStays(steps, step, r.address, r.geom.value);
          case _ =>
        }
      }
    }
  }

  /** A worker in the state after a step is new, or unmoved, or has itself moved. */
  lemma WorkerAfter(c: Config, s: State, step: Step, w: nat)
    requires Next(c, s, step).Some? && w in Next(c, s, step).value.workers
    ensures var worker := Next(c, s, step).value.workers[w];
            if w !in s.workers then worker == BeginPass(c, 1)
            else worker == s.workers[w] || WorkerNext(c, s.table, s.workers[w], step) == Some(worker)
  {
  }

  lemma WorkersKeepInv(c: Config, s: State, steps: seq<Step>, step: Step, w: nat)
    requires Inv(s, steps) && Next(c, s, step).Some? && w in Next(c, s, step).value.workers
    ensures WorkerInv(Next(c, s, step).value.table, steps + [step], Next(c, s, step).value.workers[w])
  {
    var n := Next(c, s, step).value;
    StepIsLater(c, s, step);
    WorkerAfter(c, s, step, w);
    hide Next, WorkerNext, Later;
    if w in s.workers {
      if n.workers[w] == s.workers[w] {
        WorkerInvStays(s.table, n.table, steps, step, s.workers[w]);
      } else {
        WorkerInvMoves(c, s.table, steps, s.workers[w], step);
        WorkerMovesTable(c, s, steps, step, w);
      }
    }
  }

  lemma UploadsKeepInv(c: Config, s: State, steps: seq<Step>, step: Step, u: nat, a: string)
    requires Inv(s, steps) && Next(c, s, step).Some?
    requires u in Next(c, s, step).value.uploads && a in Next(c, s, step).value.uploads[u].known
    ensures Obtained(steps + [step], a, Next(c, s, step).value.uploads[u].known[a])
  {
    var known := Next(c, s, step).value.uploads[u].known;
    if u in s.uploads {
      ObtainedStays(steps, step, a, known[a]);
    } else {
      KnownGeomsIsExact(s.table.rows);
      assert HasGeom(s.table.rows, a, known[a]);
      var r :| r in s.table.rows && r.address == a && r.geom == Some(known[a]);
      ObtainedStays(steps, step, a, known[a]);
    }
  }

  lemma InvStep(c: Config, s: State, steps: seq<Step>, step: Step)
    requires Inv(s, steps) && Next(c, s, step).Some?
    ensures Inv(Next(c, s, step).value, steps + [step])
  {
    var n := Next(c, s, step).value;
    StepIsLater(c, s, step);
    RowsObtained(c, s, steps, step);
    forall w | w in n.workers ensures WorkerInv(n.table, steps + [step], n.workers[w]) {
      WorkersKeepInv(c, s, steps, step, w);
    }
    forall u, a | u in n.uploads && a in n.uploads[u].known ensures Obtained(steps + [step], a, n.uploads[u].known[a]) {
      UploadsKeepInv(c, s, steps, step, u, a);
    }
  }

  /** The worker that commits has its own write in the table it then looks at. */
  lemma WorkerMovesTable(c: Config, s: State, steps: seq<Step>, step: Step, w: nat)
    requires Inv(s, steps) && Next(c, s, step).Some?
    requires w in s.workers && Next(c, s, step).value.workers[w] != s.workers[w]
    requires WorkerInv(s.table, steps + [step], Next(c, s, step).value.workers[w])
    ensures WorkerInv(Next(c, s, step).value.table, steps + [step], Next(c, s, step).value.workers[w])
  {
  }

  lemma {:induction false} InvHolds(c: Config, steps: seq<Step>)
    requires Run(c, INITIAL, steps).Some?
    ensures Inv(Run(c, INITIAL, steps).value, steps)
  {
    if steps != [] {
      var n := |steps| - 1;
      InvHolds(c, steps[..n]);
      InvStep(c, Run(c, INITIAL, steps[..n]).value, steps[..n], steps[n]);
      assert steps[..n] + [steps[n]] == steps;
    }
  }

  /**
   Over every interleaving of workers, uploads, seed loads and crashes, a stored boundary was looked up
   for, or seeded beside, the address of the very row that holds it.
   */
  lemma EveryBoundaryIsTheRowsOwn(c: Config, steps: seq<Step>, r: Row)
    requires Run(c, INITIAL, steps).Some? && r in Run(c, INITIAL, steps).value.table.rows && r.geom.Some?
    ensures Obtained(steps, r.address, r.geom.value)
  {
    InvHolds(c, steps);
  }

  // ---------- commits that come too late ----------

  lemma {:induction false} RunIsLater(c: Config, s: State, steps: seq<Step>)
    requires ValidTable(s.table) && Run(c, s, steps).Some?
    ensures ValidTable(Run(c, s, steps).value.table) && Later(s.table, Run(c, s, steps).value.table)
  {
    if steps == [] {
      LaterReflexive(s.table);
    } else {
      var n := |steps| - 1;
      RunIsLater(c, s, steps[..n]);
      var before := Run(c, s, steps[..n]).value;
      StepIsLater(c, before, steps[n]);
    }
  }

  /** An upload spends every id in use: none of them is ever seen again. */
  lemma UploadRetiresIds(c: Config, s: State, u: nat, steps: seq<Step>)
    requires ValidTable(s.table) && Next(c, s, CommitUpload(u)).Some?
    requires Run(c, Next(c, s, CommitUpload(u)).value, steps).Some?
    ensures forall r :: r in Run(c, Next(c, s, CommitUpload(u)).value, steps).value.table.rows ==>
              s.table.nextId <= r.id
  {
    var after := Next(c, s, CommitUpload(u)).value;
    StepIsLater(c, s, CommitUpload(u));
    ReplaceIsLater(s.table, s.uploads[u].known, s.uploads[u].addresses);
    RunIsLater(c, after, steps);
    forall r | r in Run(c, after, steps).value.table.rows ensures s.table.nextId <= r.id {
      if r.id < after.table.nextId {
        var q :| q in after.table.rows && SameRow(q, r);
      }
    }
  }

  /**
   A boundary looked up for a row fetched before an upload changes nothing when it is committed after
   it, however long the worker waits: the commit runs, and the table stays as it was.
   */
  lemma StaleCommitTouchesNoRow(c: Config, first: seq<Step>, u: nat, second: seq<Step>, w: nat, item: Item,
                                s: State, replaced: State, late: State)
    requires Run(c, INITIAL, first) == Some(s)
    requires w in s.workers && Pending(s.workers[w], item)
    requires Next(c, s, CommitUpload(u)) == Some(replaced)
    requires Run(c, replaced, second) == Some(late)
    requires w in late.workers && late.workers[w].Committing? && late.workers[w].item == item
    ensures Next(c, late, CommitGeom(w)).Some? && Next(c, late, CommitGeom(w)).value.table == late.table
  {
    InvHolds(c, first);
    assert Fetched(s.table, item);
    UploadRetiresIds(c, s, u, second);
    var rows := SetGeom(late.table.rows, item.id, late.workers[w].geom);
    forall i | 0 <= i < |rows| ensures rows[i] == late.table.rows[i] {
      assert late.table.rows[i] in late.table.rows;
    }
    assert rows == late.table.rows;
  }

  // ---------- a worker never repeats itself within a pass ----------

  /** The position of a worker: pass number, and the id of the last row looked up in it. */
  ghost predicate After(worker: Worker, attempt: nat, id: nat) {
    match worker
    case Fetching(a, afterId) => attempt < a || (attempt == a && id <= afterId)
    case Looking(a, _, batch) =>
      attempt < a || (attempt == a && forall item :: item in batch ==> id < item.id)
    case Committing(a, item, _, rest) =>
      attempt < a || (attempt == a && id <= item.id && forall later :: later in rest ==> id < later.id)
    case Counting(a) => attempt <= a
    case Stopped => true
  }

  ghost predicate Increasing(items: seq<Item>) {
    forall i, j :: 0 <= i < j < |items| ==> items[i].id < items[j].id
  }

  ghost predicate Sorted(worker: Worker) {
    match worker
    case Looking(_, _, batch) => Increasing(batch)
    case Committing(_, item, _, rest) => Increasing([item] + rest)
    case _ => true
  }

  lemma FetchedInOrder(c: Config, t: Table, afterId: nat)
    requires ValidTable(t)
    ensures Increasing(Items(Take(Missing(t.rows, afterId), c.batchSize)))
    ensures forall item :: item in Items(Take(Missing(t.rows, afterId), c.batchSize)) ==> afterId < item.id
  {
    var all := Missing(t.rows, afterId);
    SelectIsExact(t.rows, false, afterId);
    SelectIsOrdered(t.rows, false, afterId);
    var batch := Take(all, c.batchSize);
    forall item | item in Items(batch) ensures afterId < item.id {
      var i :| 0 <= i < |batch| && Items(batch)[i] == item;
      assert batch[i] in all;
    }
  }

  lemma WorkerStaysSorted(c: Config, t: Table, worker: Worker, step: Step)
    requires ValidTable(t) && Sorted(worker) && WorkerNext(c, t, worker, step).Some?
    ensures Sorted(WorkerNext(c, t, worker, step).value)
  {
    match worker {
      case Fetching(_, afterId) => FetchedInOrder(c, t, afterId);
      case Looking(_, _, batch) => if batch != [] { assert [batch[0]] + batch[1..] == batch; }
      case Committing(_, item, _, rest) =>
        forall i, j | 0 <= i < j < |rest| ensures rest[i].id < rest[j].id {
          assert ([item] + rest)[i + 1] == rest[i] && ([item] + rest)[j + 1] == rest[j];
        }
      case _ =>
    }
  }

  lemma WorkerOnlyAdvances(c: Config, t: Table, worker: Worker, step: Step, attempt: nat, id: nat)
    requires ValidTable(t) && Sorted(worker) && WorkerNext(c, t, worker, step).Some?
    requires After(worker, attempt, id)
    ensures After(WorkerNext(c, t, worker, step).value, attempt, id)
  {
    match worker {
      case Fetching(_, afterId) => FetchedInOrder(c, t, afterId);
      case Looking(_, _, batch) => if batch != [] { assert batch[0] in batch; }
      case _ =>
    }
  }

  lemma WorkerPassesItem(c: Config, t: Table, worker: Worker, step: Step)
    requires Sorted(worker) && step.LookUp? && WorkerNext(c, t, worker, step).Some?
    ensures After(WorkerNext(c, t, worker, step).value, step.attempt, step.item.id)
    ensures forall attempt: nat, id: nat :: After(worker, attempt, id) ==>
              attempt < step.attempt || (attempt == step.attempt && id < step.item.id) || worker.Stopped?
  {
  }

  lemma {:induction false} AllSorted(c: Config, steps: seq<Step>)
    requires Run(c, INITIAL, steps).Some?
    ensures forall w :: w in Run(c, INITIAL, steps).value.workers ==> Sorted(Run(c, INITIAL, steps).value.workers[w])
  {
    if steps != [] {
      var n := |steps| - 1;
      AllSorted(c, steps[..n]);
      InvHolds(c, steps[..n]);
      var s, s' := Run(c, INITIAL, steps[..n]).value, Run(c, INITIAL, steps).value;
      forall w | w in s'.workers ensures Sorted(s'.workers[w]) {
        if w in s.workers && s'.workers[w] != s.workers[w] { WorkerStaysSorted(c, s.table, s.workers[w], steps[n]); }
      }
    }
  }

  lemma {:induction false} PositionKept(c: Config, steps: seq<Step>, i: nat)
    requires Run(c, INITIAL, steps).Some? && i < |steps| && steps[i].LookUp?
    ensures steps[i].w in Run(c, INITIAL, steps).value.workers
    ensures After(Run(c, INITIAL, steps).value.workers[steps[i].w], steps[i].attempt, steps[i].item.id)
  {
    var n := |steps| - 1;
    var s := Run(c, INITIAL, steps[..n]).value;
    AllSorted(c, steps[..n]);
    InvHolds(c, steps[..n]);
    var w := steps[i].w;
    if i == n {
      WorkerPassesItem(c, s.table, s.workers[w], steps[n]);
    } else {
      PositionKept(c, steps[..n], i);
      if Run(c, INITIAL, steps).value.workers[w] != s.workers[w] {
        WorkerOnlyAdvances(c, s.table, s.workers[w], steps[n], steps[i].attempt, steps[i].item.id);
      }
    }
  }

  /**
   Whatever the others do to the table, one worker looks rows up in strictly increasing order within a
   pass, so it never asks for the same row twice in it.
   */
  lemma {:induction false} LookupsOnlyAdvance(c: Config, steps: seq<Step>, i: nat, j: nat)
    requires Run(c, INITIAL, steps).Some? && i < j < |steps|
    requires steps[i].LookUp? && steps[j].LookUp? && steps[i].w == steps[j].w
    ensures steps[i].attempt < steps[j].attempt
            || (steps[i].attempt == steps[j].attempt && steps[i].item.id < steps[j].item.id)
  {
    var n := |steps| - 1;
    if j < n {
      LookupsOnlyAdvance(c, steps[..n], i, j);
    } else {
      PositionKept(c, steps[..n], i);
      AllSorted(c, steps[..n]);
      var s := Run(c, INITIAL, steps[..n]).value;
      WorkerPassesItem(c, s.table, s.workers[steps[j].w], steps[j]);
    }
  }

  // ---------- what a re-upload can lose ----------

  ghost predicate OnMap(t: Table, address: string) {
    exists r :: r in t.rows && r.address == address && r.geom.Some?
  }

  ghost predicate NotEnded(steps: seq<Step>, u: nat) {
    forall k :: 0 <= k < |steps| ==> steps[k] != CommitUpload(u) && steps[k] != AbortUpload(u)
  }

  lemma {:induction false} UploadKeepsItsRead(c: Config, s: State, steps: seq<Step>, u: nat, upload: Upload)
    requires Run(c, s, steps).Some? && u in s.uploads && s.uploads[u] == upload
    requires NotEnded(steps, u)
    ensures u in Run(c, s, steps).value.uploads && Run(c, s, steps).value.uploads[u] == upload
  {
    if steps != [] {
      var n := |steps| - 1;
      UploadKeepsItsRead(c, s, steps[..n], u, upload);
    }
  }

  /** `u` reads the table in state `s`; `steps` happen meanwhile; then it commits, reaching `after`. */
  ghost predicate Reupload(c: Config, s: State, u: nat, addresses: seq<string>, steps: seq<Step>,
                           read: State, before: State, after: State) {
    && ValidTable(s.table)
    && Next(c, s, ReadKnown(u, addresses)) == Some(read)
    && Run(c, read, steps) == Some(before)
    && Next(c, before, CommitUpload(u)) == Some(after)
    && NotEnded(steps, u)
  }

  lemma ReuploadTable(c: Config, s: State, u: nat, addresses: seq<string>, steps: seq<Step>,
                      read: State, before: State, after: State)
    requires Reupload(c, s, u, addresses, steps, read, before, after)
    ensures ValidTable(before.table) && after.table == Replace(before.table, KnownGeoms(s.table.rows), addresses)
  {
    UploadKeepsItsRead(c, read, steps, u, Upload(KnownGeoms(s.table.rows), addresses));
    RunIsLater(c, read, steps);
  }

  /**
   A re-uploaded row is on the map straight after the commit iff its address was when the upload read
   the table, and the rows left to the back-fill are counted exactly.
   */
  lemma ReuploadKeepsWhatItRead(c: Config, s: State, u: nat, addresses: seq<string>, steps: seq<Step>,
                                read: State, before: State, after: State, i: nat)
    requires Reupload(c, s, u, addresses, steps, read, before, after) && i < |addresses|
    ensures |after.table.rows| == |addresses| && after.table.rows[i].address == addresses[i]
    ensures after.table.rows[i].geom.Some? <==> OnMap(s.table, addresses[i])
    ensures CountMissing(after.table.rows) == CountUnknown(KnownGeoms(s.table.rows), addresses)
  {
    var known := KnownGeoms(s.table.rows);
    ReuploadTable(c, s, u, addresses, steps, read, before, after);
    ReplaceShape(before.table, known, addresses);
    ReplaceMissing(before.table, known, addresses);
    KnownGeomsIsExact(s.table.rows);
  }

  /**
   A re-uploaded address that is on the map at the commit loses its place iff it was put there between
   the upload's read and its delete: it was off the map at the read, and one commit in between put it on.
   */
  lemma OnlyFilledBetweenIsLost(c: Config, s: State, u: nat, addresses: seq<string>, steps: seq<Step>,
                                read: State, before: State, after: State, i: nat)
    requires Reupload(c, s, u, addresses, steps, read, before, after) && i < |addresses|
    requires OnMap(before.table, addresses[i])
    ensures |after.table.rows| == |addresses|
    ensures after.table.rows[i].geom.None? <==> !OnMap(s.table, addresses[i])
    ensures after.table.rows[i].geom.None? ==> exists k: nat :: PutOnMap(c, read, steps, k, addresses[i])
  {
    ReuploadKeepsWhatItRead(c, s, u, addresses, steps, read, before, after, i);
    if !OnMap(s.table, addresses[i]) { FirstPutOnMap(c, read, steps, addresses[i]); }
  }

  /** Step `k` of the run is a commit that puts `address` on the map. */
  ghost predicate PutOnMap(c: Config, s: State, steps: seq<Step>, k: nat, address: string) {
    && k < |steps|
    && Run(c, s, steps[..k]).Some? && Run(c, s, steps[..k + 1]).Some?
    && !OnMap(Run(c, s, steps[..k]).value.table, address)
    && OnMap(Run(c, s, steps[..k + 1]).value.table, address)
    && (steps[k].CommitGeom? || steps[k].CommitSeed? || steps[k].CommitUpload?)
  }

  lemma {:induction false} FirstPutOnMap(c: Config, s: State, steps: seq<Step>, address: string)
    requires Run(c, s, steps).Some? && !OnMap(s.table, address) && OnMap(Run(c, s, steps).value.table, address)
    ensures exists k: nat :: PutOnMap(c, s, steps, k, address)
  {
    var n := |steps| - 1;
    var before := Run(c, s, steps[..n]).value;
    if OnMap(before.table, address) {
      FirstPutOnMap(c, s, steps[..n], address);
      var k: nat :| PutOnMap(c, s, steps[..n], k, address);
      assert steps[..n][..k] == steps[..k] && steps[..n][..k + 1] == steps[..k + 1];
      assert PutOnMap(c, s, steps, k, address);
    } else {
      assert steps[..n + 1] == steps;
      assert PutOnMap(c, s, steps, n, address);
    }
  }

  // ---------- a loss, step by step ----------

  lemma RunSnoc(c: Config, s: State, steps: seq<Step>, t: State, step: Step)
    requires Run(c, s, steps) == Some(t)
    ensures Run(c, s, steps + [step]) == Next(c, t, step)
  {
    assert (steps + [step])[..|steps|] == steps;
  }

  lemma {:induction false} RunConcat(c: Config, s: State, first: seq<Step>, t: State, more: seq<Step>)
    requires Run(c, s, first) == Some(t)
    ensures Run(c, s, first + more) == Run(c, t, more)
  {
    if more == [] {
      assert first + more == first;
    } else {
      var n := |more| - 1;
      RunConcat(c, s, first, t, more[..n]);
      assert (first + more)[..|first + more| - 1] == first + more[..n];
    }
  }

  function SeedSteps(address: string): seq<Step> { [CheckEmpty(0)] + [CommitSeed(0, [NewRow(address, None)])] }

  function FindSteps(address: string, geom: string): seq<Step> {
    [StartWorker(0)] + [FetchBatch(0)] + [LookUp(0, 1, Item(1, address), Some(geom))]
  }

  function RaceSteps(address: string): seq<Step> { [ReadKnown(0, [address])] + [CommitGeom(0)] }

  lemma SeedOne(c: Config, address: string)
    ensures Run(c, INITIAL, SeedSteps(address)) == Some(State(Table([Row(1, address, None)], 2), map[], map[], {}))
  {
    RunSnoc(c, INITIAL, [], INITIAL, CheckEmpty(0));
    assert [] + [CheckEmpty(0)] == [CheckEmpty(0)];
    var empty: set<nat> := {};
    assert empty + {0} == {0} && {0} - {0} == empty;
    assert [NewRow(address, None)][..0] == [] && InsertAll(Table([], 1), []) == Table([], 1);
    assert [] + [Row(1, address, None)] == [Row(1, address, None)];
    RunSnoc(c, INITIAL, [CheckEmpty(0)], INITIAL.(seeds := {0}), CommitSeed(0, [NewRow(address, None)]));
  }

  lemma BatchOfOne(row: Row, batchSize: nat)
    requires row.geom.None? && 1 <= row.id && 1 <= batchSize
    ensures Items(Take(Missing([row], 0), batchSize)) == [Item(row.id, row.address)]
  {
    assert [row][1..] == [];
    assert Missing([row], 0) == [row] + Missing([], 0);
    assert [row] + Missing([], 0) == [row];
    assert Take([row], batchSize) == [row];
  }

  /** The worker's steps up to the moment it holds a boundary for the row. */
  lemma FindOne(c: Config, s: State, address: string, geom: string)
    requires s == State(Table([Row(1, address, None)], 2), map[], map[], {})
    requires 1 <= c.maxRetries && 1 <= c.batchSize && geom != ""
    ensures Run(c, s, FindSteps(address, geom))
            == Some(s.(workers := map[0 := Committing(1, Item(1, address), geom, [])]))
  {
    var row, item := Row(1, address, None), Item(1, address);
    RunSnoc(c, s, [], s, StartWorker(0));
    assert [] + [StartWorker(0)] == [StartWorker(0)];
    BatchOfOne(row, c.batchSize);
    var started := s.(workers := map[0 := Fetching(1, 0)]);
    RunSnoc(c, s, [StartWorker(0)], started, FetchBatch(0));
    var fetched := s.(workers := map[0 := Looking(1, 0, [item])]);
    assert started.workers[0 := Looking(1, 0, [item])] == fetched.workers && [item][1..] == [];
    RunSnoc(c, s, [StartWorker(0)] + [FetchBatch(0)], fetched, LookUp(0, 1, item, Some(geom)));
    assert fetched.workers[0 := Committing(1, item, geom, [])] == map[0 := Committing(1, item, geom, [])];
  }

  /** An upload that reads before the worker's commit and writes after it. */
  lemma LoseOne(c: Config, s: State, address: string, geom: string)
    requires s == State(Table([Row(1, address, None)], 2), map[0 := Committing(1, Item(1, address), geom, [])],
                        map[], {})
    ensures Run(c, s, RaceSteps(address))
            == Some(State(Table([Row(1, address, Some(geom))], 2), map[0 := Fetching(1, 1)],
                          map[0 := Upload(map[], [address])], {}))
    ensures Run(c, s, RaceSteps(address) + [CommitUpload(0)])
            == Some(State(Table([Row(2, address, None)], 3), map[0 := Fetching(1, 1)], map[], {}))
  {
    var row, upload := Row(1, address, None), Upload(map[], [address]);
    assert KnownGeoms([row]) == map[] by { assert [row][..0] == []; }
    RunSnoc(c, s, [], s, ReadKnown(0, [address]));
    assert [] + [ReadKnown(0, [address])] == [ReadKnown(0, [address])];
    var readDone := s.(uploads := map[0 := upload]);
    RunSnoc(c, s, [ReadKnown(0, [address])], readDone, CommitGeom(0));
    var filled := State(Table([Row(1, address, Some(geom))], 2), map[0 := Fetching(1, 1)], map[0 := upload], {});
    assert SetGeom([row], 1, geom) == filled.table.rows && readDone.workers[0 := Fetching(1, 1)] == filled.workers;
    RunSnoc(c, s, RaceSteps(address), filled, CommitUpload(0));
    ReplaceOne(filled.table, address);
    assert filled.uploads - {0} == map[];
  }

  lemma ReplaceOne(t: Table, address: string)
    requires ValidTable(t) && t.nextId == 2
    ensures Replace(t, map[], [address]) == Table([Row(2, address, None)], 3)
  {
    ReplaceShape(t, map[], [address]);
    assert Replace(t, map[], [address]).rows == [Row(2, address, None)];
  }

  /**
   The loss does happen, for every address and boundary: the row is on the map when the upload writes, and
   its successor is not.
   */
  lemma ABoundaryCanBeLost(c: Config, address: string, geom: string)
    requires 1 <= c.maxRetries && 1 <= c.batchSize && geom != ""
    ensures var steps := SeedSteps(address) + (FindSteps(address, geom) + RaceSteps(address));
            Run(c, INITIAL, steps).Some? && Run(c, INITIAL, steps).value.table.rows == [Row(1, address, Some(geom))]
    ensures var steps := SeedSteps(address) + (FindSteps(address, geom) + (RaceSteps(address) + [CommitUpload(0)]));
            Run(c, INITIAL, steps).Some? && Run(c, INITIAL, steps).value.table.rows == [Row(2, address, None)]
  {
    var seeded := State(Table([Row(1, address, None)], 2), map[], map[], {});
    var found := seeded.(workers := map[0 := Committing(1, Item(1, address), geom, [])]);
    var find, race := FindSteps(address, geom), RaceSteps(address);
    SeedOne(c, address);
    FindOne(c, seeded, address, geom);
    LoseOne(c, found, address, geom);
    hide Run, SeedSteps, FindSteps, RaceSteps;
    RunConcat(c, INITIAL, SeedSteps(address), seeded, find + race);
    RunConcat(c, INITIAL, SeedSteps(address), seeded, find + (race + [CommitUpload(0)]));
    RunConcat(c, seeded, find, found, race);
    RunConcat(c, seeded, find, found, race + [CommitUpload(0)]);
  }
}
