/**
 A worker that nobody disturbs makes the run described in `GeoService` (app/services/geo_service.py): whatever
 steps it takes, it leaves the same table and makes the same lookups in the same order.
 */
module GeomRefinement {
  import opened Common
  import opened GeomProgress
  import opened GeomProtocol
  import opened GeoService
  import opened HttpClient
  import opened LandRepository

  /** A step of `w`, with the answer that the network gives to its lookup. */
  predicate Answered(world: World, step: GeomProtocol.Step, w: nat) {
    && Of(step, w) && !step.KillWorker?
    && (step.LookUp? ==> step.result == world.Lookup(step.attempt, step.item.id, step.item.address))
  }

  /** The lookups among the steps. */
  function CallsIn(steps: seq<GeomProtocol.Step>): seq<Call> {
    if steps == [] then []
    else
      var last := steps[|steps| - 1];
      CallsIn(steps[..|steps| - 1])
      + (if last.LookUp? then [Call(last.attempt, last.item.id, last.item.address)] else [])
  }

  /** The items are the first rows that the pass has still to deal with after id `upTo`. */
  ghost predicate Front(items: seq<Item>, start: seq<Row>, upTo: nat) {
    |items| <= |Missing(start, upTo)| && items == Items(Missing(start, upTo)[..|items|])
  }

  /**
   Where a worker is in the run: its pass found the table as `start`, with the lookups `earlier` made before
   it, and everything from there on is still to come.
   */
  ghost predicate Tracks(world: World, passes: nat, worker: Worker, rows: seq<Row>, calls: seq<Call>,
                         start: seq<Row>, earlier: seq<Call>, allRows: seq<Row>, allCalls: seq<Call>) {
    if worker.Stopped? then rows == allRows && calls == allCalls
    else
      var a := worker.attempt;
      && 1 <= a <= passes && Ordered(start) && (forall r :: r in start ==> 1 <= r.id)
      && RunRows(world, a, passes, start) == allRows
      && earlier + RunCalls(world, a, passes, start) == allCalls
      && match worker
         case Fetching(_, afterId) => InPass(world, a, rows, calls, start, earlier, afterId)
         case Looking(_, afterId, batch) =>
           InPass(world, a, rows, calls, start, earlier, afterId) && batch != [] && Front(batch, start, afterId)
         case Committing(_, item, geom, rest) =>
           exists before: nat ::
             && rows == PassUpTo(world, a, start, before) && Front([item] + rest, start, before)
             && world.Lookup(a, item.id, item.address) == Some(geom) && geom != ""
             && calls + PassCalls(a, Missing(start, item.id)) == earlier + PassCalls(a, Missing(start, 0))
         case Counting(_) =>
           rows == PassRows(world, a, start) && calls == earlier + PassCalls(a, Missing(start, 0))
  }

  /** The pass has dealt with the rows up to id `upTo`. */
  ghost predicate InPass(world: World, a: nat, rows: seq<Row>, calls: seq<Call>, start: seq<Row>, earlier: seq<Call>,
                         upTo: nat) {
    && rows == PassUpTo(world, a, start, upTo)
    && calls + PassCalls(a, Missing(start, upTo)) == earlier + PassCalls(a, Missing(start, 0))
  }

  lemma FrontIs(items: seq<Item>, start: seq<Row>, upTo: nat) returns (row: Row)
    requires items != [] && Front(items, start, upTo) && Ordered(start)
    ensures Missing(start, upTo) != [] && Missing(start, upTo)[0] == row
    ensures row.id == items[0].id && row.address == items[0].address
    ensures Front(items[1..], start, row.id)
  {
    var missing := Missing(start, upTo);
    row := missing[0];
    SelectResumes(start, false, upTo, 1);
    assert Missing(start, row.id) == missing[1..];
    assert missing[1..][..|items| - 1] == missing[..|items|][1..];
  }

  /** What `NextItem` leaves to do once the row `id` has been dealt with. */
  lemma AtNextItem(world: World, passes: nat, a: nat, id: nat, rest: seq<Item>, rows: seq<Row>, calls: seq<Call>,
                   start: seq<Row>, earlier: seq<Call>, allRows: seq<Row>, allCalls: seq<Call>)
    requires 1 <= a <= passes && Ordered(start) && forall r :: r in start ==> 1 <= r.id
    requires RunRows(world, a, passes, start) == allRows && earlier + RunCalls(world, a, passes, start) == allCalls
    requires InPass(world, a, rows, calls, start, earlier, id) && Front(rest, start, id)
    ensures Tracks(world, passes, NextItem(a, id, rest), rows, calls, start, earlier, allRows, allCalls)
  {
    hide InPass, Front, RunRows, RunCalls;
  }

  lemma FetchTracks(world: World, c: Config, t: Table, a: nat, afterId: nat, calls: seq<Call>, start: seq<Row>,
                    earlier: seq<Call>, allRows: seq<Row>, allCalls: seq<Call>)
    requires 1 <= c.batchSize
    requires Tracks(world, c.maxRetries, Fetching(a, afterId), t.rows, calls, start, earlier, allRows, allCalls)
    ensures var batch := Items(Take(Missing(t.rows, afterId), c.batchSize));
            Tracks(world, c.maxRetries, if batch == [] then Counting(a) else Looking(a, afterId, batch),
                   t.rows, calls, start, earlier, allRows, allCalls)
  {
    hide RunRows, RunCalls, PassUpTo, PassRows, PassCalls, Missing;
    MissingUnchangedAbove(world, a, start, afterId);
    if Missing(start, afterId) == [] { PassEnds(world, a, start, afterId); }
  }

  lemma LookTracks(world: World, passes: nat, a: nat, afterId: nat, batch: seq<Item>, rows: seq<Row>, calls: seq<Call>,
                   start: seq<Row>, earlier: seq<Call>, allRows: seq<Row>, allCalls: seq<Call>)
    requires batch != []
    requires Tracks(world, passes, Looking(a, afterId, batch), rows, calls, start, earlier, allRows, allCalls)
    ensures var item, result := batch[0], world.Lookup(a, batch[0].id, batch[0].address);
            Tracks(world, passes,
                   if result.Some? && result.value != "" then Committing(a, item, result.value, batch[1..])
                   else NextItem(a, item.id, batch[1..]),
                   rows, calls + [Call(a, item.id, item.address)], start, earlier, allRows, allCalls)
  {
    hide RunRows, RunCalls, PassUpTo, PassRows, PassCalls, Missing, Front, World.Lookup;
    var row := FrontIs(batch, start, afterId);
    NextCall(a, start, afterId, row, calls);
    RowStep(world, a, start, afterId, row);
    if world.Found(a, row.id, row.address) {
      assert [batch[0]] + batch[1..] == batch;
    } else {
      AtNextItem(world, passes, a, row.id, batch[1..], rows, calls + [Call(a, row.id, row.address)], start, earlier,
                 allRows, allCalls);
    }
  }

  lemma CommitTracks(world: World, passes: nat, a: nat, item: Item, geom: string, rest: seq<Item>, rows: seq<Row>,
                     calls: seq<Call>, start: seq<Row>, earlier: seq<Call>, allRows: seq<Row>, allCalls: seq<Call>)
    requires Tracks(world, passes, Committing(a, item, geom, rest), rows, calls, start, earlier, allRows, allCalls)
    ensures Tracks(world, passes, NextItem(a, item.id, rest), SetGeom(rows, item.id, geom), calls, start, earlier,
                   allRows, allCalls)
  {
    hide RunRows, RunCalls, PassUpTo, PassRows, PassCalls, Missing, Front, World.Lookup, SetGeom;
    var before: nat :|
      && rows == PassUpTo(world, a, start, before) && Front([item] + rest, start, before)
      && world.Lookup(a, item.id, item.address) == Some(geom) && geom != ""
      && calls + PassCalls(a, Missing(start, item.id)) == earlier + PassCalls(a, Missing(start, 0));
    var row := FrontIs([item] + rest, start, before);
    assert ([item] + rest)[1..] == rest;
    RowStep(world, a, start, before, row);
    AtNextItem(world, passes, a, item.id, rest, SetGeom(rows, item.id, geom), calls, start, earlier, allRows, allCalls);
  }

  lemma CountTracks(world: World, passes: nat, a: nat, rows: seq<Row>, calls: seq<Call>,
                    start: seq<Row>, earlier: seq<Call>, allRows: seq<Row>, allCalls: seq<Call>)
    requires Tracks(world, passes, Counting(a), rows, calls, start, earlier, allRows, allCalls)
    ensures var over := CountMissing(rows) == 0 || a == passes;
            Tracks(world, passes, if over then Stopped else Fetching(a + 1, 0), rows, calls,
                   if over then start else rows, if over then earlier else calls, allRows, allCalls)
  {
    hide RunRows, RunCalls, PassRows, PassUpTo, PassCalls, Missing, CountMissing, Ordered;
    RunCallsUnfold(world, a, passes, start, earlier);
    RunUnfolds(world, a, passes, start);
    assert calls + [] == calls;
    if a == passes { RunIsOver(world, a + 1, passes, rows); }
    if CountMissing(rows) != 0 && a < passes {
      PassKeepsIds(world, a, start);
      BeginsPass(world, passes, a + 1, rows, calls, allRows, allCalls);
    }
  }

  lemma BeginsPass(world: World, passes: nat, a: nat, rows: seq<Row>, calls: seq<Call>,
                   allRows: seq<Row>, allCalls: seq<Call>)
    requires 1 <= a <= passes && Ordered(rows) && forall r :: r in rows ==> 1 <= r.id
    requires RunRows(world, a, passes, rows) == allRows && calls + RunCalls(world, a, passes, rows) == allCalls
    ensures Tracks(world, passes, Fetching(a, 0), rows, calls, rows, calls, allRows, allCalls)
  {
    StartsOver(world, a, rows);
    hide RunRows, RunCalls, PassUpTo, PassCalls, Missing, Ordered;
  }

  lemma RunUnfolds(world: World, a: nat, passes: nat, rows: seq<Row>)
    requires a <= passes
    ensures var after := PassRows(world, a, rows);
            RunRows(world, a, passes, rows) == if CountMissing(after) == 0 then after
                                               else RunRows(world, a + 1, passes, after)
  {
  }

  lemma StartsOver(world: World, a: nat, rows: seq<Row>)
    ensures (forall r :: r in rows ==> 1 <= r.id) ==> PassUpTo(world, a, rows, 0) == rows
  {
    if forall r :: r in rows ==> 1 <= r.id {
      assert forall i :: 0 <= i < |rows| ==> rows[i] in rows;
    }
  }

  // ---------- a whole run ----------

  lemma OwnStep(c: Config, s: State, step: GeomProtocol.Step, w: nat)
    requires w in s.workers && Of(step, w) && Next(c, s, step).Some?
    ensures var t := Next(c, s, step).value;
            && w in t.workers && WorkerNext(c, s.table, s.workers[w], step) == Some(t.workers[w])
            && t.table == if step.CommitGeom? then Committed(s.table, s.workers[w]) else s.table
  {
  }

  lemma StepTracks(world: World, c: Config, s: State, step: GeomProtocol.Step, w: nat, calls: seq<Call>,
                   start: seq<Row>, earlier: seq<Call>, allRows: seq<Row>, allCalls: seq<Call>)
    returns (start': seq<Row>, earlier': seq<Call>)
    requires 1 <= c.batchSize && w in s.workers && Answered(world, step, w) && Next(c, s, step).Some?
    requires Tracks(world, c.maxRetries, s.workers[w], s.table.rows, calls, start, earlier, allRows, allCalls)
    ensures var t := Next(c, s, step).value;
            && w in t.workers
            && Tracks(world, c.maxRetries, t.workers[w], t.table.rows,
                      calls + (if step.LookUp? then [Call(step.attempt, step.item.id, step.item.address)] else []),
                      start', earlier', allRows, allCalls)
  {
    var worker, rows := s.workers[w], s.table.rows;
    start', earlier' := start, earlier;
    assert calls + [] == calls;
    OwnStep(c, s, step, w);
    hide Tracks, CountMissing, Missing, World.Lookup, SetGeom, Next, Items, NextItem, RunRows, RunCalls;
    match worker {
      case Fetching(a, afterId) =>
        FetchTracks(world, c, s.table, a, afterId, calls, start, earlier, allRows, allCalls);
      case Looking(a, afterId, batch) =>
        LookTracks(world, c.maxRetries, a, afterId, batch, rows, calls, start, earlier, allRows, allCalls);
      case Committing(a, item, geom, rest) =>
        CommitTracks(world, c.maxRetries, a, item, geom, rest, rows, calls, start, earlier, allRows, allCalls);
      case Counting(a) =>
        CountTracks(world, c.maxRetries, a, rows, calls, start, earlier, allRows, allCalls);
        TracksInBounds(world, c.maxRetries, worker, rows, calls, start, earlier, allRows, allCalls);
        if CountMissing(rows) != 0 && a != c.maxRetries { start', earlier' := rows, calls; }
      case Stopped =>
    }
  }

  lemma TracksInBounds(world: World, passes: nat, worker: Worker, rows: seq<Row>, calls: seq<Call>,
                       start: seq<Row>, earlier: seq<Call>, allRows: seq<Row>, allCalls: seq<Call>)
    requires Tracks(world, passes, worker, rows, calls, start, earlier, allRows, allCalls)
    ensures !worker.Stopped? ==> 1 <= worker.attempt <= passes
  {
  }

  lemma {:induction false} RunTracks(world: World, c: Config, s: State, steps: seq<GeomProtocol.Step>, w: nat, t: State)
    returns (start: seq<Row>, earlier: seq<Call>)
    requires 1 <= c.batchSize && ValidTable(s.table) && w in s.workers && s.workers[w] == BeginPass(c, 1)
    requires Run(c, s, steps) == Some(t) && forall k :: 0 <= k < |steps| ==> Answered(world, steps[k], w)
    ensures w in t.workers
    ensures Tracks(world, c.maxRetries, t.workers[w], t.table.rows, CallsIn(steps), start, earlier,
                   RunRows(world, 1, c.maxRetries, s.table.rows), RunCalls(world, 1, c.maxRetries, s.table.rows))
  {
    if steps == [] {
      start, earlier := s.table.rows, [];
      StartsOver(world, 1, s.table.rows);
      if c.maxRetries == 0 { RunIsOver(world, 1, 0, s.table.rows); }
      assert [] + RunCalls(world, 1, c.maxRetries, s.table.rows) == RunCalls(world, 1, c.maxRetries, s.table.rows);
      hide RunRows, RunCalls, PassUpTo, PassCalls, Missing;
    } else {
      var n := |steps| - 1;
      hide RunRows, RunCalls, Tracks, Next, Answered;
      var before := Run(c, s, steps[..n]).value;
      start, earlier := RunTracks(world, c, s, steps[..n], w, before);
      start, earlier := StepTracks(world, c, before, steps[n], w, CallsIn(steps[..n]), start, earlier,
                                   RunRows(world, 1, c.maxRetries, s.table.rows),
                                   RunCalls(world, 1, c.maxRetries, s.table.rows));
    }
  }

  /**
   However its steps are cut into batches, a worker that alone works on the table from its start until it
   stops leaves the table of the plain pass-by-pass run, and makes that run's lookups in that run's order.
   */
  lemma UndisturbedWorkerMakesTheRun(world: World, c: Config, s: State, steps: seq<GeomProtocol.Step>, w: nat, t: State)
    requires 1 <= c.batchSize && ValidTable(s.table) && w in s.workers && s.workers[w] == BeginPass(c, 1)
    requires Run(c, s, steps) == Some(t) && forall k :: 0 <= k < |steps| ==> Answered(world, steps[k], w)
    requires w in t.workers && t.workers[w].Stopped?
    ensures t.table.rows == RunRows(world, 1, c.maxRetries, s.table.rows)
    ensures CallsIn(steps) == RunCalls(world, 1, c.maxRetries, s.table.rows)
  {
    var start, earlier := RunTracks(world, c, s, steps, w, t);
  }
}
