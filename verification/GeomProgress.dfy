/**
 A back-fill worker gets to the rows (app/services/geo_service.py), whatever uploads, seed loads and other
 workers do meanwhile: what a pass has looked up by its end, when a worker stops, and which lookups it commits.
 */
module GeomProgress {
  import opened Common
  import opened GeomCounts
  import opened GeomProtocol
  import opened LandRepository

  /** Among the steps from `from` on, `w` looks the item up in pass `a`. */
  ghost predicate LooksUp(steps: seq<Step>, from: nat, w: nat, a: nat, item: Item) {
    exists j :: from <= j < |steps| && IsLookUp(steps[j], w, a, item)
  }

  predicate IsLookUp(step: Step, w: nat, a: nat, item: Item) {
    step.LookUp? && step.w == w && step.attempt == a && step.item == item
  }

  /** At step `j`, `w` counts what is missing after its pass `a`. */
  ghost predicate Counts(c: Config, steps: seq<Step>, j: nat, w: nat, a: nat) {
    && j < |steps| && steps[j] == CheckCount(w) && Run(c, INITIAL, steps[..j]).Some?
    && var s := Run(c, INITIAL, steps[..j]).value;
       w in s.workers && s.workers[w] == Counting(a)
  }

  /** Step `b - 1` is the one with which `w` begins pass `a`: its start, or the count that sends it on. */
  ghost predicate Begins(c: Config, steps: seq<Step>, b: nat, w: nat, a: nat) {
    && 1 <= b <= |steps| && Run(c, INITIAL, steps[..b]).Some?
    && (if a == 1 then steps[b - 1] == StartWorker(w) else 1 < a && Counts(c, steps, b - 1, w, a - 1))
    && w in Run(c, INITIAL, steps[..b]).value.workers && !Run(c, INITIAL, steps[..b]).value.workers[w].Stopped?
  }

  /** Before step `k`, a count of `w` found no row without a boundary. */
  ghost predicate SawNothing(c: Config, steps: seq<Step>, k: nat, w: nat) {
    exists j: nat, a: nat :: j < k && Counts(c, steps, j, w, a) && NoneMissingAt(c, steps, j)
  }

  ghost predicate NoneMissingAt(c: Config, steps: seq<Step>, j: nat) {
    && j <= |steps| && Run(c, INITIAL, steps[..j]).Some?
    && forall r :: r in Run(c, INITIAL, steps[..j]).value.table.rows ==> r.geom.Some?
  }

  /** Before step `k`, `w` came to the end of its pass `a`. */
  ghost predicate Ended(c: Config, steps: seq<Step>, k: nat, w: nat, a: nat) {
    exists j: nat :: j < k && Counts(c, steps, j, w, a)
  }

  function PassOf(worker: Worker): nat { if worker.Stopped? then 0 else worker.attempt }

  /** In pass `a` and still to come to the item. */
  ghost predicate Ahead(worker: Worker, a: nat, item: Item) {
    match worker
    case Fetching(p, afterId) => p == a && afterId < item.id
    case Looking(p, _, batch) => p == a && batch != [] && (item in batch || batch[|batch| - 1].id < item.id)
    case Committing(p, now, _, rest) => p == a && (item in rest || ([now] + rest)[|rest|].id < item.id)
    case _ => false
  }

  // ---------- one step ----------

  /** A step of the worker leaves the item ahead of it, unless it is the item's own lookup. */
  lemma StepStaysBehind(c: Config, t: Table, worker: Worker, step: Step, a: nat, item: Item)
    requires ValidTable(t) && Sorted(worker) && 1 <= c.batchSize && StillMissing(t, item)
    requires Ahead(worker, a, item) && WorkerNext(c, t, worker, step).Some?
    ensures var next := WorkerNext(c, t, worker, step).value;
            || Ahead(next, a, item) || step.KillWorker?
            || (step.LookUp? && step.attempt == a && step.item == item)
  {
    match worker {
      case Fetching(_, afterId) => if step.FetchBatch? { FetchStaysBehind(c, t, worker, step, a, item); }
      case Looking(_, _, batch) =>
        if step.LookUp? && item in batch && item != batch[0] {
          var i :| 0 <= i < |batch| && batch[i] == item;
          assert batch[1..][i - 1] == item;
        }
      case Committing(_, now, _, rest) =>
      case _ =>
    }
  }

  lemma FetchStaysBehind(c: Config, t: Table, worker: Worker, step: Step, a: nat, item: Item)
    requires ValidTable(t) && 1 <= c.batchSize && StillMissing(t, item)
    requires worker.Fetching? && step.FetchBatch? && Ahead(worker, a, item)
    ensures Ahead(WorkerNext(c, t, worker, step).value, a, item)
  {
    var all := Missing(t.rows, worker.afterId);
    var batch := Take(all, c.batchSize);
    SelectIsExact(t.rows, false, worker.afterId);
    SelectIsOrdered(t.rows, false, worker.afterId);
    var r :| r in t.rows && r.id == item.id && r.address == item.address && r.geom.None?;
    var i :| 0 <= i < |all| && all[i] == r;
    if i < |batch| {
      assert Items(batch)[i] == item;
    } else {
      assert batch[|batch| - 1] == all[|batch| - 1];
    }
  }

  /** A worker never goes back to an earlier pass, and goes to the next one only from its count. */
  lemma PassesGoUp(c: Config, t: Table, worker: Worker, step: Step)
    requires WorkerNext(c, t, worker, step).Some?
    ensures var next := WorkerNext(c, t, worker, step).value;
            if step.KillWorker? then next.Stopped?
            else if step.CheckCount?
            then worker.Counting? && (if CountMissing(t.rows) == 0 || worker.attempt >= c.maxRetries then next.Stopped?
                                      else next == Fetching(worker.attempt + 1, 0))
            else !next.Stopped? && PassOf(next) == PassOf(worker)
  {
  }

  // ---------- over a run ----------

  lemma LooksUpStays(steps: seq<Step>, step: Step, from: nat, w: nat, a: nat, item: Item)
    requires from <= |steps|
    ensures LooksUp(steps, from, w, a, item) ==> LooksUp(steps + [step], from, w, a, item)
    ensures IsLookUp(step, w, a, item) ==> LooksUp(steps + [step], from, w, a, item)
  {
    if LooksUp(steps, from, w, a, item) {
      var j :| from <= j < |steps| && IsLookUp(steps[j], w, a, item);
      assert (steps + [step])[j] == steps[j];
    }
    assert (steps + [step])[|steps|] == step;
  }

  /** What has been looked up of an item that was missing when `w` began pass `first`, and still is. */
  ghost predicate Tried(steps: seq<Step>, from: nat, w: nat, worker: Worker, first: nat, passes: nat, item: Item) {
    var p := PassOf(worker);
    if worker.Stopped? then KillWorker(w) in steps || TriedIn(steps, from, w, first, passes + 1, item)
    else first <= p && TriedIn(steps, from, w, first, p, item)
         && (LooksUp(steps, from, w, p, item) || Ahead(worker, p, item))
  }

  /** ... in each of the passes `first` .. `last - 1`. */
  ghost predicate TriedIn(steps: seq<Step>, from: nat, w: nat, first: nat, last: nat, item: Item) {
    forall a: nat :: first <= a < last ==> LooksUp(steps, from, w, a, item)
  }

  lemma TriedStays(steps: seq<Step>, step: Step, from: nat, w: nat, worker: Worker, first: nat, passes: nat, item: Item)
    requires from <= |steps| && Tried(steps, from, w, worker, first, passes, item)
    ensures Tried(steps + [step], from, w, worker, first, passes, item)
  {
    forall a: nat ensures LooksUp(steps, from, w, a, item) ==> LooksUp(steps + [step], from, w, a, item) {
      LooksUpStays(steps, step, from, w, a, item);
    }
  }

  lemma SomethingIsMissing(t: Table, item: Item)
    requires ValidTable(t) && StillMissing(t, item)
    ensures CountMissing(t.rows) != 0
  {
    NoneMissingIff(t);
  }

  lemma NoneMissingIff(t: Table)
    requires ValidTable(t)
    ensures CountMissing(t.rows) == 0 <==> forall r :: r in t.rows ==> r.geom.Some?
  {
    CountIsLength(t.rows);
    SelectIsExact(t.rows, false, 0);
    forall r | r in t.rows && r.geom.None? ensures CountMissing(t.rows) != 0 { assert r in Missing(t.rows, 0); }
    if CountMissing(t.rows) != 0 { assert Missing(t.rows, 0)[0] in Missing(t.rows, 0); }
  }

  lemma TriedMoves(c: Config, t: Table, steps: seq<Step>, step: Step, from: nat, w: nat, worker: Worker, first: nat,
                   item: Item)
    requires ValidTable(t) && Sorted(worker) && 1 <= c.batchSize && StillMissing(t, item) && 1 <= item.id
    requires from <= |steps| && Tried(steps, from, w, worker, first, c.maxRetries, item)
    requires WorkerNext(c, t, worker, step).Some? && (step.LookUp? || step.KillWorker? ==> step.w == w)
    ensures Tried(steps + [step], from, w, WorkerNext(c, t, worker, step).value, first, c.maxRetries, item)
  {
    var next, p := WorkerNext(c, t, worker, step).value, PassOf(worker);
    forall a: nat
      ensures LooksUp(steps, from, w, a, item) ==> LooksUp(steps + [step], from, w, a, item)
      ensures IsLookUp(step, w, a, item) ==> LooksUp(steps + [step], from, w, a, item)
    {
      LooksUpStays(steps, step, from, w, a, item);
    }
    PassesGoUp(c, t, worker, step);
    SomethingIsMissing(t, item);
    if step.KillWorker? {
      assert (steps + [step])[|steps|] == KillWorker(w);
    } else if !step.CheckCount? && !LooksUp(steps, from, w, p, item) && !worker.Stopped? {
      StepStaysBehind(c, t, worker, step, p, item);
    }
    hide WorkerNext, LooksUp, StillMissing;
  }

  lemma BeginsAtTheTop(c: Config, steps: seq<Step>, b: nat, w: nat, a: nat)
    requires Begins(c, steps, b, w, a)
    ensures Run(c, INITIAL, steps[..b]).value.workers[w] == Fetching(a, 0)
  {
    PrefixSnoc(c, steps, b - 1);
  }

  lemma WasMissing(t: Table, u: Table, item: Item)
    requires Later(t, u) && item.id < t.nextId && StillMissing(u, item)
    ensures StillMissing(t, item)
  {
    var r :| r in u.rows && r.id == item.id && r.address == item.address && r.geom.None?;
    var q :| q in t.rows && SameRow(q, r);
  }

  lemma {:induction false} TriedSoFar(c: Config, steps: seq<Step>, b: nat, w: nat, first: nat, item: Item, k: nat)
    requires 1 <= c.batchSize && Begins(c, steps, b, w, first)
    requires b <= k <= |steps| && Run(c, INITIAL, steps[..k]).Some?
    requires StillMissing(Run(c, INITIAL, steps[..b]).value.table, item)
    requires StillMissing(Run(c, INITIAL, steps[..k]).value.table, item)
    ensures var s := Run(c, INITIAL, steps[..k]).value;
            && 1 <= item.id < s.table.nextId && w in s.workers
            && Tried(steps[..k], b, w, s.workers[w], first, c.maxRetries, item)
    decreases k
  {
    hide Run, Tried, StillMissing, WorkerNext, Next;
    if k == b {
      TriedAtFirst(c, steps, b, w, first, item);
    } else {
      PrefixSnoc(c, steps, k - 1);
      var s, t := Run(c, INITIAL, steps[..k - 1]).value, Run(c, INITIAL, steps[..k]).value;
      InvHolds(c, steps[..k - 1]);
      AllSorted(c, steps[..k - 1]);
      StepIsLater(c, s, steps[k - 1]);
      NextIdAlong(c, steps, b, k - 1, item);
      WasMissing(s.table, t.table, item);
      TriedSoFar(c, steps, b, w, first, item, k - 1);
      assert steps[..k] == steps[..k - 1] + [steps[k - 1]];
      TriedStep(c, s, steps[..k - 1], steps[k - 1], b, w, first, item);
    }
  }

  lemma TriedAtFirst(c: Config, steps: seq<Step>, b: nat, w: nat, first: nat, item: Item)
    requires Begins(c, steps, b, w, first) && StillMissing(Run(c, INITIAL, steps[..b]).value.table, item)
    ensures var s := Run(c, INITIAL, steps[..b]).value;
            && 1 <= item.id < s.table.nextId && w in s.workers
            && Tried(steps[..b], b, w, s.workers[w], first, c.maxRetries, item)
  {
    InvHolds(c, steps[..b]);
    BeginsAtTheTop(c, steps, b, w, first);
  }

  lemma {:induction false} NextIdAlong(c: Config, steps: seq<Step>, b: nat, k: nat, item: Item)
    requires b <= k <= |steps| && Run(c, INITIAL, steps[..k]).Some? && Run(c, INITIAL, steps[..b]).Some?
    requires StillMissing(Run(c, INITIAL, steps[..b]).value.table, item)
    ensures item.id < Run(c, INITIAL, steps[..k]).value.table.nextId
    decreases k
  {
    hide Run, Next;
    InvHolds(c, steps[..k]);
    if b < k {
      hide StillMissing;
      PrefixSnoc(c, steps, k - 1);
      InvHolds(c, steps[..k - 1]);
      NextIdAlong(c, steps, b, k - 1, item);
      StepIsLater(c, Run(c, INITIAL, steps[..k - 1]).value, steps[k - 1]);
    }
  }

  lemma TriedStep(c: Config, s: State, steps: seq<Step>, step: Step, from: nat, w: nat, first: nat, item: Item)
    requires ValidTable(s.table) && 1 <= c.batchSize && StillMissing(s.table, item) && 1 <= item.id < s.table.nextId
    requires w in s.workers && Sorted(s.workers[w]) && Next(c, s, step).Some? && from <= |steps|
    requires Tried(steps, from, w, s.workers[w], first, c.maxRetries, item)
    ensures var t := Next(c, s, step).value;
            && item.id < t.table.nextId && w in t.workers
            && Tried(steps + [step], from, w, t.workers[w], first, c.maxRetries, item)
  {
    var t := Next(c, s, step).value;
    StepIsLater(c, s, step);
    MovesOrStays(c, s, step, w);
    hide Next, WorkerNext, Tried, StillMissing;
    if t.workers[w] == s.workers[w] {
      TriedStays(steps, step, from, w, s.workers[w], first, c.maxRetries, item);
    } else {
      TriedMoves(c, s.table, steps, step, from, w, s.workers[w], first, item);
    }
  }

  lemma MovesOrStays(c: Config, s: State, step: Step, w: nat)
    requires Next(c, s, step).Some? && w in s.workers
    ensures w in Next(c, s, step).value.workers
    ensures var now, next := s.workers[w], Next(c, s, step).value.workers[w];
            next != now ==> WorkerNext(c, s.table, now, step) == Some(next)
                            && (step.LookUp? || step.KillWorker? ==> step.w == w)
  {
  }

  /**
   Over every interleaving: when worker `w` comes to the end of a pass, every row that had no boundary when
   it began that pass, and is still there without one, has been looked up in between.
   */
  lemma PassGetsToEveryRow(c: Config, steps: seq<Step>, s: State, w: nat, a: nat, b: nat, item: Item)
    requires 1 <= c.batchSize && Run(c, INITIAL, steps) == Some(s)
    requires w in s.workers && s.workers[w] == Counting(a) && Begins(c, steps, b, w, a)
    requires StillMissing(Run(c, INITIAL, steps[..b]).value.table, item) && StillMissing(s.table, item)
    ensures LooksUp(steps, b, w, a, item)
  {
    assert steps[..|steps|] == steps;
    TriedSoFar(c, steps, b, w, a, item, |steps|);
  }

  /**
   A worker that stops without being killed has looked up, in every one of its passes, each row that had no
   boundary when it started and still has none.
   */
  lemma StoppedWorkerTriedEverything(c: Config, steps: seq<Step>, s: State, w: nat, b: nat, item: Item, a: nat)
    requires 1 <= c.batchSize && Run(c, INITIAL, steps) == Some(s)
    requires w in s.workers && s.workers[w].Stopped? && KillWorker(w) !in steps
    requires Begins(c, steps, b, w, 1) && 1 <= a <= c.maxRetries
    requires StillMissing(Run(c, INITIAL, steps[..b]).value.table, item) && StillMissing(s.table, item)
    ensures LooksUp(steps, b, w, a, item)
  {
    assert steps[..|steps|] == steps;
    TriedSoFar(c, steps, b, w, 1, item, |steps|);
  }

  // ---------- when a worker stops ----------

  ghost predicate EndedAll(c: Config, steps: seq<Step>, k: nat, w: nat, passes: nat) {
    forall a: nat :: 1 <= a <= passes ==> Ended(c, steps, k, w, a)
  }

  ghost predicate Status(c: Config, steps: seq<Step>, k: nat, w: nat, worker: Worker) {
    if worker.Stopped? then SawNothing(c, steps, k, w) || EndedAll(c, steps, k, w, c.maxRetries)
    else
      && 1 <= PassOf(worker) <= c.maxRetries && !SawNothing(c, steps, k, w)
      && EndedAll(c, steps, k, w, PassOf(worker) - 1)
      && forall a: nat :: PassOf(worker) <= a ==> !Ended(c, steps, k, w, a)
  }

  /** `w` counts at this step, after its pass `a`. */
  ghost predicate CountsNow(s: State, step: Step, w: nat, a: nat) {
    step == CheckCount(w) && w in s.workers && s.workers[w] == Counting(a)
  }

  predicate AtCount(s: State, step: Step, w: nat) {
    step == CheckCount(w) && w in s.workers && s.workers[w].Counting?
  }

  ghost predicate NothingCounted(c: Config, steps: seq<Step>, k: nat, w: nat) {
    !SawNothing(c, steps, k, w) && forall a: nat :: !Ended(c, steps, k, w, a)
  }

  lemma CountsOnce(c: Config, steps: seq<Step>, k: nat, s: State, w: nat)
    requires k < |steps| && Run(c, INITIAL, steps[..k]) == Some(s) && ValidTable(s.table)
    ensures forall a: nat :: Ended(c, steps, k + 1, w, a) <==> Ended(c, steps, k, w, a) || CountsNow(s, steps[k], w, a)
    ensures SawNothing(c, steps, k + 1, w) <==>
            SawNothing(c, steps, k, w)
            || (CountMissing(s.table.rows) == 0 && AtCount(s, steps[k], w))
  {
    NoneMissingIff(s.table);
    assert NoneMissingAt(c, steps, k) <==> CountMissing(s.table.rows) == 0;
    assert forall a: nat :: Counts(c, steps, k, w, a) <==> CountsNow(s, steps[k], w, a);
    assert AtCount(s, steps[k], w) ==> CountsNow(s, steps[k], w, s.workers[w].attempt);
    hide Run, Counts, NoneMissingAt, CountMissing;
  }

  lemma {:induction false} StatusAt(c: Config, steps: seq<Step>, k: nat, s: State, w: nat)
    requires k <= |steps| && Run(c, INITIAL, steps[..k]) == Some(s) && w in s.workers && KillWorker(w) !in steps[..k]
    ensures Status(c, steps, k, w, s.workers[w])
  {
    hide Run, Next, Status, SawNothing, Ended;
    if k == 0 {
      NobodyAtFirst(c, steps, s);
    } else {
      PrefixSnoc(c, steps, k - 1);
      var before := Run(c, INITIAL, steps[..k - 1]).value;
      InvHolds(c, steps[..k - 1]);
      assert steps[..k][k - 1] == steps[k - 1] && steps[..k - 1] <= steps[..k];
      if w in before.workers {
        StatusAt(c, steps, k - 1, before, w);
        StatusStep(c, steps, k - 1, before, w);
      } else {
        NoCountsYet(c, steps, k, w);
        StatusAtStart(c, steps, k - 1, before, w);
      }
    }
  }

  lemma StatusAtStart(c: Config, steps: seq<Step>, k: nat, s: State, w: nat)
    requires k < |steps| && Run(c, INITIAL, steps[..k]) == Some(s) && w !in s.workers && Next(c, s, steps[k]).Some?
    requires w in Next(c, s, steps[k]).value.workers
    requires NothingCounted(c, steps, k + 1, w)
    ensures Status(c, steps, k + 1, w, Next(c, s, steps[k]).value.workers[w])
  {
    hide Run, SawNothing, Ended;
  }

  lemma StatusStep(c: Config, steps: seq<Step>, k: nat, s: State, w: nat)
    requires k < |steps| && Run(c, INITIAL, steps[..k]) == Some(s) && ValidTable(s.table) && steps[k] != KillWorker(w)
    requires w in s.workers && Status(c, steps, k, w, s.workers[w]) && Next(c, s, steps[k]).Some?
    ensures w in Next(c, s, steps[k]).value.workers
    ensures Status(c, steps, k + 1, w, Next(c, s, steps[k]).value.workers[w])
  {
    CountsOnce(c, steps, k, s, w);
    StatusMoves(c, s, steps[k], w);
    hide Ended, SawNothing, Run, Next, WorkerNext, CountMissing;
    var now, next, at := s.workers[w], Next(c, s, steps[k]).value.workers[w], AtCount(s, steps[k], w);
    var p, l := PassOf(now), k + 1;
    forall a: nat ensures Ended(c, steps, l, w, a) <==> Ended(c, steps, k, w, a) || (at && a == p) {
      assert CountsNow(s, steps[k], w, a) <==> at && a == p;
    }
    if now.Stopped? {
      assert EndedAll(c, steps, k, w, c.maxRetries) ==> EndedAll(c, steps, l, w, c.maxRetries);
    } else {
      assert EndedAll(c, steps, l, w, if at then p else p - 1);
    }
  }

  /** A worker stands still, moves within its pass, or has just counted. */
  lemma StatusMoves(c: Config, s: State, step: Step, w: nat)
    requires w in s.workers && Next(c, s, step).Some? && step != KillWorker(w)
    ensures w in Next(c, s, step).value.workers
    ensures var now, next := s.workers[w], Next(c, s, step).value.workers[w];
            if AtCount(s, step, w)
            then next == (if CountMissing(s.table.rows) == 0 || now.attempt >= c.maxRetries then Stopped
                         else Fetching(now.attempt + 1, 0))
            else next.Stopped? == now.Stopped? && PassOf(next) == PassOf(now)
  {
  }

  /** A worker that is not there yet, or has only just been started, has counted nothing. */
  lemma {:induction false} NoCountsYet(c: Config, steps: seq<Step>, k: nat, w: nat)
    requires 1 <= k <= |steps| && Run(c, INITIAL, steps[..k]).Some? && Run(c, INITIAL, steps[..k - 1]).Some?
    requires w !in Run(c, INITIAL, steps[..k - 1]).value.workers
    ensures NothingCounted(c, steps, k, w)
  {
    forall j: nat, a: nat | j < k ensures !Counts(c, steps, j, w, a) {
      if Counts(c, steps, j, w, a) { WorkersStay(c, steps, j, k - 1, w); }
    }
    hide Counts, Run;
  }

  lemma {:induction false} WorkersStay(c: Config, steps: seq<Step>, j: nat, k: nat, w: nat)
    requires j <= k <= |steps| && Run(c, INITIAL, steps[..j]).Some? && Run(c, INITIAL, steps[..k]).Some?
    requires w in Run(c, INITIAL, steps[..j]).value.workers
    ensures w in Run(c, INITIAL, steps[..k]).value.workers
    decreases k
  {
    hide Run, Next, WorkerNext;
    if j < k {
      PrefixSnoc(c, steps, k - 1);
      WorkersStay(c, steps, j, k - 1, w);
      MovesOrStays(c, Run(c, INITIAL, steps[..k - 1]).value, steps[k - 1], w);
    }
  }

  /**
   A worker that nobody kills stops exactly when a count of its found nothing missing, or when it has come
   to the end of all the passes it may make.
   */
  lemma StopsIffDone(c: Config, steps: seq<Step>, s: State, w: nat)
    requires Run(c, INITIAL, steps) == Some(s) && w in s.workers && KillWorker(w) !in steps
    ensures s.workers[w].Stopped? <==>
            SawNothing(c, steps, |steps|, w) || EndedAll(c, steps, |steps|, w, c.maxRetries)
  {
    assert steps[..|steps|] == steps;
    StatusAt(c, steps, |steps|, s, w);
    var p := PassOf(s.workers[w]);
    assert !s.workers[w].Stopped? ==> 1 <= p <= c.maxRetries && !Ended(c, steps, |steps|, w, p);
    hide Ended, SawNothing, Run;
  }

  // ---------- what a worker does with an answer ----------

  predicate Of(step: Step, w: nat) {
    match step
    case StartWorker(v) => v == w
    case FetchBatch(v) => v == w
    case LookUp(v, _, _, _) => v == w
    case CommitGeom(v) => v == w
    case CheckCount(v) => v == w
    case KillWorker(v) => v == w
    case _ => false
  }

  lemma OthersLeaveIt(c: Config, s: State, step: Step, w: nat)
    requires Next(c, s, step).Some? && w in s.workers && !Of(step, w)
    ensures w in Next(c, s, step).value.workers && Next(c, s, step).value.workers[w] == s.workers[w]
  {
  }

  lemma {:induction false} StandsStill(c: Config, steps: seq<Step>, i: nat, j: nat, w: nat)
    requires i <= j <= |steps| && Run(c, INITIAL, steps[..j]).Some?
    requires Run(c, INITIAL, steps[..i]).Some? && w in Run(c, INITIAL, steps[..i]).value.workers
    requires forall k :: i <= k < j ==> !Of(steps[k], w)
    ensures w in Run(c, INITIAL, steps[..j]).value.workers
    ensures Run(c, INITIAL, steps[..j]).value.workers[w] == Run(c, INITIAL, steps[..i]).value.workers[w]
    decreases j
  {
    hide Run, Next, WorkerNext, Of;
    if i < j {
      PrefixSnoc(c, steps, j - 1);
      StandsStill(c, steps, i, j - 1, w);
      OthersLeaveIt(c, Run(c, INITIAL, steps[..j - 1]).value, steps[j - 1], w);
    }
  }

  /**
   Whatever the others do in between, the next step of a worker after a lookup commits a boundary iff the
   lookup found one that is not empty, and then writes it to the row looked up and to no other.
   */
  lemma LookUpDecidesCommit(c: Config, steps: seq<Step>, i: nat, j: nat, w: nat)
    requires i < j < |steps| && Run(c, INITIAL, steps[..i + 1]).Some? && Run(c, INITIAL, steps[..j + 1]).Some?
    requires steps[i].LookUp? && steps[i].w == w && Of(steps[j], w) && steps[j] != KillWorker(w)
    requires forall k :: i < k < j ==> !Of(steps[k], w)
    ensures steps[j] == CommitGeom(w) <==> steps[i].result.Some? && steps[i].result.value != ""
    ensures Run(c, INITIAL, steps[..j]).Some?
    ensures var before, after := Run(c, INITIAL, steps[..j]).value.table, Run(c, INITIAL, steps[..j + 1]).value.table;
            steps[j] == CommitGeom(w) ==>
              && |after.rows| == |before.rows| && after.nextId == before.nextId
              && forall k :: 0 <= k < |before.rows| ==>
                   after.rows[k] == if before.rows[k].id == steps[i].item.id
                                    then before.rows[k].(geom := steps[i].result) else before.rows[k]
  {
    PrefixSnoc(c, steps, i);
    PrefixSnoc(c, steps, j);
    StandsStill(c, steps, i + 1, j, w);
  }

  // ---------- seed loads ----------

  /** A seed load writes only if the table was empty when it looked, however long ago that was. */
  lemma {:induction false} SeedSawEmptyTable(c: Config, steps: seq<Step>, s: State, k: nat)
    requires Run(c, INITIAL, steps) == Some(s) && k in s.seeds
    ensures exists j: nat :: j < |steps| && steps[j] == CheckEmpty(k) && EmptyAt(c, steps, j)
  {
    var n := |steps| - 1;
    var before := Run(c, INITIAL, steps[..n]).value;
    if k in before.seeds {
      SeedSawEmptyTable(c, steps[..n], before, k);
      var j: nat :| j < n && steps[..n][j] == CheckEmpty(k) && EmptyAt(c, steps[..n], j);
      assert steps[..n][..j] == steps[..j] && EmptyAt(c, steps, j);
    } else {
      assert EmptyAt(c, steps, n);
    }
  }

  predicate EmptyAt(c: Config, steps: seq<Step>, j: nat) {
    j <= |steps| && Run(c, INITIAL, steps[..j]).Some? && Run(c, INITIAL, steps[..j]).value.table.rows == []
  }
}
