/**
 One undisturbed run of `update_geoms` (app/services/geo_service.py): the three nested loops, and the
 plain pass-by-pass description they refine.
 */
module GeoService {
  import opened Common
  import opened LandRepository
  import opened HttpClient

  /** A lookup issued by a run: the pass it belongs to and the row it is for. */
  datatype Call = Call(pass: nat, id: nat, address: string)

  /** What a lookup costs: GETs, and the backoff units slept inside and after it. */
  datatype Measure = Gets | HttpSleep | PassSleep

  function CallCost(w: World, m: Measure, c: Call): nat {
    match m
    case Gets => w.LookupGets(c.pass, c.id, c.address)
    case HttpSleep => w.LookupSleep(c.pass, c.id, c.address)
    case PassSleep => if w.Found(c.pass, c.id, c.address) then 0 else c.pass
  }

  function Cost(w: World, m: Measure, calls: seq<Call>): nat {
    if calls == [] then 0 else Cost(w, m, calls[..|calls| - 1]) + CallCost(w, m, calls[|calls| - 1])
  }

  // ---------- the plain description: no batches, no keyset, no commits ----------

  function Resolved(w: World, pass: nat, r: Row): Row {
    if r.geom.None? && w.Found(pass, r.id, r.address) then r.(geom := w.Lookup(pass, r.id, r.address)) else r
  }

  /** The table after a pass has dealt with every id up to `upTo`. */
  function PassUpTo(w: World, pass: nat, rows: seq<Row>, upTo: nat): (r: seq<Row>)
    ensures |r| == |rows|
    ensures forall i :: 0 <= i < |rows| ==>
              r[i] == if rows[i].id <= upTo then Resolved(w, pass, rows[i]) else rows[i]
  {
    seq(|rows|, i requires 0 <= i < |rows| =>
      if rows[i].id <= upTo then Resolved(w, pass, rows[i]) else rows[i])
  }

  function PassRows(w: World, pass: nat, rows: seq<Row>): (r: seq<Row>)
    ensures |r| == |rows|
    ensures forall i :: 0 <= i < |rows| ==> r[i] == Resolved(w, pass, rows[i])
  {
    seq(|rows|, i requires 0 <= i < |rows| => Resolved(w, pass, rows[i]))
  }

  /** The lookups of one pass: every missing row once, in the order given. */
  function PassCalls(pass: nat, missing: seq<Row>): seq<Call> {
    if missing == [] then []
    else [Call(pass, missing[0].id, missing[0].address)] + PassCalls(pass, missing[1..])
  }

  /** The table after passes `pass` .. `passes`, stopping early once nothing is missing. */
  function RunRows(w: World, pass: nat, passes: nat, rows: seq<Row>): seq<Row>
    decreases passes + 1 - pass
  {
    if pass > passes then rows
    else
      var after := PassRows(w, pass, rows);
      if CountMissing(after) == 0 then after else RunRows(w, pass + 1, passes, after)
  }

  function RunCalls(w: World, pass: nat, passes: nat, rows: seq<Row>): seq<Call>
    decreases passes + 1 - pass
  {
    if pass > passes then []
    else
      var after := PassRows(w, pass, rows);
      PassCalls(pass, Missing(rows, 0))
      + (if CountMissing(after) == 0 then [] else RunCalls(w, pass + 1, passes, after))
  }

  // ---------- the service ----------

  /**
   What a run has asked of the outside world so far.  Its statements are a lookup, a fetch, an update with
   its commit, a count, and a write of its job; `raises` says which of them raise - a malformed answer, a
   locked database.
   */
  class RunLog {
    const world: World
    const meter: Meter
    const raises: nat -> bool
    var statements: nat
    ghost var calls: seq<Call>

    constructor (world: World, raises: nat -> bool)
      ensures Balanced() && calls == [] && statements == 0
      ensures this.world == world && this.raises == raises && fresh(meter)
    {
      this.world, this.raises, statements, calls := world, raises, 0, [];
      meter := new Meter();
    }

    /** The counters are what the logged lookups cost. */
    ghost predicate Balanced()
      reads this`calls, meter
    {
      && meter.gets == Cost(world, Gets, calls)
      && meter.httpSleep == Cost(world, HttpSleep, calls)
      && meter.passSleep == Cost(world, PassSleep, calls)
    }

    /** None of the statements made since there were `from` of them has raised. */
    ghost predicate Quiet(from: nat)
      reads this`statements
    {
      from <= statements && forall k: nat :: from <= k < statements ==> !raises(k)
    }

    method Statement() returns (raised: bool)
      modifies this`statements
      ensures statements == old(statements) + 1 && raised == raises(old(statements))
    {
      raised := raises(statements);
      statements := statements + 1;
    }

    /** Logs a lookup whose cost the counters already hold. */
    ghost method Record(c: Call)
      requires meter.gets == Cost(world, Gets, calls) + CallCost(world, Gets, c)
      requires meter.httpSleep == Cost(world, HttpSleep, calls) + CallCost(world, HttpSleep, c)
      requires meter.passSleep == Cost(world, PassSleep, calls) + CallCost(world, PassSleep, c)
      modifies this`calls
      ensures Balanced() && calls == old(calls) + [c]
    {
      assert (calls + [c])[..|calls|] == calls;
      calls := calls + [c];
    }
  }

  /**
   The body of the inner loop: one lookup, then either one committed UPDATE or one sleep.  If it raises, the
   row is as it was, and the lookup has been made iff it is the update that failed.
   */
  method RunRow(t: PoiTable, log: RunLog, attempt: nat, item: Row) returns (found: bool, raised: bool)
    requires t.Valid() && log.Balanced()
    modifies t, log, log.meter
    ensures t.Valid() && t.nextId == old(t.nextId) && log.Balanced()
    ensures old(log.statements) < log.statements && (raised <==> !log.Quiet(old(log.statements)))
    ensures log.raises(old(log.statements)) ==> raised && log.calls == old(log.calls)
    ensures !log.raises(old(log.statements)) ==>
              log.calls == old(log.calls) + [Call(attempt, item.id, item.address)]
    ensures raised ==> t.rows == old(t.rows)
    ensures raised && !log.raises(old(log.statements)) ==> log.world.Found(attempt, item.id, item.address)
    ensures !raised ==> found == log.world.Found(attempt, item.id, item.address)
    ensures !raised ==> t.rows == if found
                      then SetGeom(old(t.rows), item.id, log.world.Lookup(attempt, item.id, item.address).value)
                      else old(t.rows)
  {
    hide Cost, SetGeom, CountMissing, ValidTable;
    raised := log.Statement();
    if raised { return false, true; }
    var geom := GetParcelGeometry(log.world, attempt, item.id, item.address, log.meter);
    found := geom.Some? && geom.value != "";
    if !found { log.meter.passSleep := log.meter.passSleep + attempt; }
    log.Record(Call(attempt, item.id, item.address));
    if found {
      raised := log.Statement();
      if !raised { t.UpdateGeom(item.id, geom.value); }
    }
  }

  /** The state of a pass that has dealt with every id up to `upTo` and still owes the later missing rows. */
  ghost predicate Underway(t: PoiTable, log: RunLog, attempt: nat, start: seq<Row>, upTo: nat, allCalls: seq<Call>)
    reads t, log`calls, log.meter
  {
    && t.Valid() && log.Balanced()
    && t.rows == PassUpTo(log.world, attempt, start, upTo)
    && log.calls + PassCalls(attempt, Missing(start, upTo)) == allCalls
  }

  /** Of the lookups of a pass, those up to id `upTo` - or also the next one, which found a boundary. */
  ghost predicate CutAt(w: World, attempt: nat, start: seq<Row>, upTo: nat, calls: seq<Call>, allCalls: seq<Call>) {
    var next := Missing(start, upTo);
    || calls + PassCalls(attempt, next) == allCalls
    || (next != [] && w.Found(attempt, next[0].id, next[0].address)
        && calls + PassCalls(attempt, Missing(start, next[0].id)) == allCalls)
  }

  lemma CutIsPrefix(w: World, attempt: nat, start: seq<Row>, upTo: nat, calls: seq<Call>, allCalls: seq<Call>)
    requires CutAt(w, attempt, start, upTo, calls, allCalls)
    ensures calls <= allCalls
  {
  }

  /** The state in which an exception leaves a pass: the rows up to `upTo` are dealt with, and no other. */
  ghost predicate Halted(t: PoiTable, log: RunLog, attempt: nat, start: seq<Row>, upTo: nat, allCalls: seq<Call>)
    reads t, log`calls, log.meter
  {
    && t.Valid() && log.Balanced()
    && t.rows == PassUpTo(log.world, attempt, start, upTo)
    && CutAt(log.world, attempt, start, upTo, log.calls, allCalls)
  }

  lemma HaltsHere(t: PoiTable, log: RunLog, attempt: nat, start: seq<Row>, upTo: nat, allCalls: seq<Call>)
    requires Underway(t, log, attempt, start, upTo, allCalls)
    ensures Halted(t, log, attempt, start, upTo, allCalls)
  {
  }

  /** ... which takes the pass from the row before to this one, unless it raises. */
  method RunNextRow(t: PoiTable, log: RunLog, attempt: nat, item: Row,
                    ghost start: seq<Row>, ghost before: nat, ghost allCalls: seq<Call>)
    returns (found: nat, raised: bool)
    requires Ordered(start) && Underway(t, log, attempt, start, before, allCalls)
    requires Missing(start, before) != [] && Missing(start, before)[0] == item
    modifies t, log, log.meter
    ensures !raised ==> Underway(t, log, attempt, start, item.id, allCalls)
    ensures raised ==> Halted(t, log, attempt, start, before, allCalls)
    ensures t.nextId == old(t.nextId) && found + CountMissing(t.rows) == CountMissing(old(t.rows))
    ensures old(log.statements) < log.statements && (raised <==> !log.Quiet(old(log.statements)))
  {
    var hit;
    hit, raised := RunRow(t, log, attempt, item);
    NextCall(attempt, start, before, item, old(log.calls));
    if raised { return 0, true; }
    found := if hit then 1 else 0;
    RowStep(log.world, attempt, start, before, item);
    if hit {
      RowStepCounts(log.world, attempt, start, before, item, log.world.Lookup(attempt, item.id, item.address).value);
    }
  }

  /** The inner `for` loop: one fetched batch, which is the front of what the pass still has to do. */
  method RunBatch(t: PoiTable, log: RunLog, attempt: nat, batch: seq<Row>,
                  ghost start: seq<Row>, from: nat, ghost allCalls: seq<Call>)
    returns (afterId: nat, found: nat, raised: bool)
    requires Ordered(start) && Underway(t, log, attempt, start, from, allCalls)
    requires batch != [] && batch <= Missing(start, from)
    modifies t, log, log.meter
    ensures !raised ==> Underway(t, log, attempt, start, afterId, allCalls)
    ensures !raised ==> |Missing(start, afterId)| == |Missing(start, from)| - |batch|
    ensures raised ==> Halted(t, log, attempt, start, afterId, allCalls)
    ensures t.nextId == old(t.nextId) && found + CountMissing(t.rows) == CountMissing(old(t.rows))
    ensures raised <==> !log.Quiet(old(log.statements))
    ensures old(log.statements) <= log.statements
  {
    afterId, found, raised := from, 0, false;
    var j := 0;
    while j < |batch|
      invariant 0 <= j <= |batch|
      invariant afterId == if j == 0 then from else batch[j - 1].id
      invariant Underway(t, log, attempt, start, afterId, allCalls) && t.nextId == old(t.nextId)
      invariant found + CountMissing(t.rows) == CountMissing(old(t.rows))
      invariant log.Quiet(old(log.statements))
    {
      NextInBatch(start, from, batch, j);
      var hit;
      hit, raised := RunNextRow(t, log, attempt, batch[j], start, afterId, allCalls);
      found := found + hit;
      if raised { return; }
      afterId := batch[j].id;
      j := j + 1;
    }
    SelectResumes(start, false, from, |batch|);
  }

  /**
   The `while True` loop: batches until none is left above `after_id`.  A pass that raises has dealt with
   the rows up to some id, `done`, and with no other.
   */
  method RunPass(t: PoiTable, log: RunLog, attempt: nat, batchSize: nat)
    returns (found: nat, raised: bool, ghost done: nat)
    requires t.Valid() && log.Balanced() && 1 <= batchSize
    modifies t, log, log.meter
    ensures t.Valid() && t.nextId == old(t.nextId) && log.Balanced()
    ensures found + CountMissing(t.rows) == CountMissing(old(t.rows))
    ensures !raised ==> t.rows == PassRows(log.world, attempt, old(t.rows))
    ensures !raised ==> log.calls == old(log.calls) + PassCalls(attempt, Missing(old(t.rows), 0))
    ensures raised ==> Halted(t, log, attempt, old(t.rows), done,
                              old(log.calls) + PassCalls(attempt, Missing(old(t.rows), 0)))
    ensures old(log.statements) <= log.statements && (raised <==> !log.Quiet(old(log.statements)))
  {
    hide PassUpTo, PassRows, CutAt, PassCalls, CountMissing, Cost, Missing, ValidTable, Ordered;
    ghost var start := t.rows;
    ghost var allCalls := log.calls + PassCalls(attempt, Missing(start, 0));
    var afterId := 0;
    found, raised, done := 0, false, 0;
    PassStarts(log.world, attempt, t.Contents());
    while true
      invariant Underway(t, log, attempt, start, afterId, allCalls) && t.nextId == old(t.nextId)
      invariant found + CountMissing(t.rows) == CountMissing(old(t.rows)) && !raised
      invariant log.Quiet(old(log.statements))
      decreases |Missing(start, afterId)|
    {
      done := afterId;
      raised := log.Statement();
      HaltsHere(t, log, attempt, start, afterId, allCalls);
      if raised { return; }
      var batch := t.FetchMissingGeom(batchSize, afterId);
      MissingUnchangedAbove(log.world, attempt, start, afterId);
      if batch == [] {
        PassEnds(log.world, attempt, start, afterId);
        break;
      }
      var last, more;
      last, more, raised := RunBatch(t, log, attempt, batch, start, afterId, allCalls);
      afterId, found, done := last, found + more, last;
      if raised { return; }
    }
  }

  /** A run before pass `attempt`: what the passes to come make of the table and the log is known. */
  ghost predicate RunUnderway(t: PoiTable, log: RunLog, attempt: nat, passes: nat,
                              allRows: seq<Row>, allCalls: seq<Call>)
    reads t, log`calls, log.meter
  {
    && t.Valid() && log.Balanced()
    && RunRows(log.world, attempt, passes, t.rows) == allRows
    && log.calls + RunCalls(log.world, attempt, passes, t.rows) == allCalls
  }

  /** One pass and the count after it. */
  method RunNextPass(t: PoiTable, log: RunLog, attempt: nat, passes: nat, batchSize: nat,
                     ghost allRows: seq<Row>, ghost allCalls: seq<Call>)
    returns (found: nat, left: nat, raised: bool, ghost over: bool, ghost done: nat)
    requires RunUnderway(t, log, attempt, passes, allRows, allCalls) && attempt <= passes && 1 <= batchSize
    modifies t, log, log.meter
    ensures t.nextId == old(t.nextId) && t.Valid() && log.Balanced()
    ensures found + CountMissing(t.rows) == CountMissing(old(t.rows))
    ensures over ==> t.rows == PassRows(log.world, attempt, old(t.rows))
    ensures over ==> log.calls == old(log.calls) + PassCalls(attempt, Missing(old(t.rows), 0))
    ensures !raised ==> over && left == CountMissing(t.rows)
    ensures !raised ==> if left == 0 then t.rows == allRows && log.calls == allCalls
                        else RunUnderway(t, log, attempt + 1, passes, allRows, allCalls)
    ensures !over ==> Halted(t, log, attempt, old(t.rows), done,
                             old(log.calls) + PassCalls(attempt, Missing(old(t.rows), 0)))
    ensures log.calls <= allCalls
    ensures old(log.statements) <= log.statements && (raised <==> !log.Quiet(old(log.statements)))
  {
    hide PassRows, PassCalls, PassUpTo, Missing, CutAt, Cost, CountMissing;
    RunCallsUnfold(log.world, attempt, passes, t.rows, log.calls);
    left, over := 0, false;
    found, raised, done := RunPass(t, log, attempt, batchSize);
    if raised {
      CutIsPrefix(log.world, attempt, old(t.rows), done, log.calls,
                  old(log.calls) + PassCalls(attempt, Missing(old(t.rows), 0)));
      return;
    }
    over := true;
    raised := log.Statement();
    if !raised { left := t.CountMissingGeom(); }
  }

  /** The table after the first `n` passes, none of which leaves the run early. */
  function PassesDone(w: World, n: nat, rows: seq<Row>): (r: seq<Row>)
    ensures |r| == |rows|
  {
    if n == 0 then rows else PassRows(w, n, PassesDone(w, n - 1, rows))
  }

  /** The lookups of the first `n` passes. */
  function CallsDone(w: World, n: nat, rows: seq<Row>): seq<Call> {
    if n == 0 then [] else CallsDone(w, n - 1, rows) + PassCalls(n, Missing(PassesDone(w, n - 1, rows), 0))
  }

  /**
   What an exception leaves of a run: the passes before `pass`, and of that one the rows up to id `done`.  If
   there was no such pass to come, nothing of it has been done.
   */
  ghost predicate LeftAt(t: PoiTable, log: RunLog, passes: nat, pass: nat, done: nat,
                         start: seq<Row>, earlier: seq<Call>)
    reads t, log`calls, log.meter
  {
    && 1 <= pass <= passes + 1 && (pass == passes + 1 ==> done == 0)
    && var before := PassesDone(log.world, pass - 1, start);
       Halted(t, log, pass, before, done,
              earlier + CallsDone(log.world, pass - 1, start) + PassCalls(pass, Missing(before, 0)))
  }

  /**
   `update_geoms`: at most `maxRetries` passes.  The table it leaves and the lookups it makes, in order,
   are those of the plain description, whatever the batch size; no row is lost count of.  A run that raises
   leaves what it has committed: all of the passes before, and of pass `pass` the rows up to id `done`.
   */
  method UpdateGeoms(t: PoiTable, log: RunLog, maxRetries: nat, batchSize: nat)
    returns (updated: nat, failed: nat, raised: bool, ghost pass: nat, ghost done: nat)
    requires t.Valid() && log.Balanced() && 1 <= batchSize
    modifies t, log, log.meter
    ensures t.Valid() && log.Balanced() && t.nextId == old(t.nextId)
    ensures !raised ==> t.rows == RunRows(log.world, 1, maxRetries, old(t.rows))
    ensures !raised ==> log.calls == old(log.calls) + RunCalls(log.world, 1, maxRetries, old(t.rows))
    ensures !raised ==> failed == CountMissing(t.rows) && updated + failed == CountMissing(old(t.rows))
    ensures raised ==> LeftAt(t, log, maxRetries, pass, done, old(t.rows), old(log.calls))
    ensures raised ==> log.calls <= old(log.calls) + RunCalls(log.world, 1, maxRetries, old(t.rows))
    ensures old(log.statements) <= log.statements && (raised <==> !log.Quiet(old(log.statements)))
  {
    hide RunRows, RunCalls, PassRows, PassUpTo, PassCalls, Missing, CountMissing, CutAt, Cost, ValidTable, Halted,
         PassesDone, CallsDone;
    ghost var allRows := RunRows(log.world, 1, maxRetries, t.rows);
    ghost var allCalls := log.calls + RunCalls(log.world, 1, maxRetries, t.rows);
    updated, failed, raised, pass, done := 0, 0, false, 0, 0;
    NoPassYet(log.world, t.rows);
    var attempt := 1;
    while attempt <= maxRetries
      invariant 1 <= attempt <= maxRetries + 1
      invariant RunUnderway(t, log, attempt, maxRetries, allRows, allCalls)
      invariant t.rows == PassesDone(log.world, attempt - 1, old(t.rows)) && !raised && t.nextId == old(t.nextId)
      invariant log.calls == old(log.calls) + CallsDone(log.world, attempt - 1, old(t.rows))
      invariant updated + CountMissing(t.rows) == CountMissing(old(t.rows))
      invariant log.Quiet(old(log.statements))
    {
      var found, left;
      ghost var over;
      pass := attempt;
      found, left, raised, over, done := RunNextPass(t, log, attempt, maxRetries, batchSize, allRows, allCalls);
      updated := updated + found;
      OnePassMore(log.world, attempt, old(t.rows), old(log.calls));
      if raised {
        if over { pass, done := AfterPass(t, log, attempt + 1, maxRetries, old(t.rows), old(log.calls)); }
        return;
      }
      attempt := attempt + 1;
      if left == 0 { break; }
    }
    if attempt > maxRetries { RunIsOver(log.world, attempt, maxRetries, t.rows); }
    pass, done := AfterPass(t, log, attempt, maxRetries, old(t.rows), old(log.calls));
    raised := log.Statement();
    if raised { return; }
    failed := t.CountMissingGeom();
  }

  lemma NoPassYet(w: World, rows: seq<Row>)
    ensures PassesDone(w, 0, rows) == rows && CallsDone(w, 0, rows) == []
  {
  }

  lemma OnePassMore(w: World, n: nat, rows: seq<Row>, earlier: seq<Call>)
    requires 1 <= n
    ensures PassesDone(w, n, rows) == PassRows(w, n, PassesDone(w, n - 1, rows))
    ensures earlier + CallsDone(w, n, rows)
            == earlier + CallsDone(w, n - 1, rows) + PassCalls(n, Missing(PassesDone(w, n - 1, rows), 0))
  {
    ConcatAssociative(earlier, CallsDone(w, n - 1, rows), PassCalls(n, Missing(PassesDone(w, n - 1, rows), 0)));
  }

  /** Between two passes, nothing of the later one has been done. */
  lemma AfterPass(t: PoiTable, log: RunLog, attempt: nat, passes: nat, start: seq<Row>, earlier: seq<Call>)
    returns (pass: nat, done: nat)
    requires t.Valid() && log.Balanced() && 1 <= attempt <= passes + 1
    requires t.rows == PassesDone(log.world, attempt - 1, start)
    requires log.calls == earlier + CallsDone(log.world, attempt - 1, start)
    ensures LeftAt(t, log, passes, pass, done, start, earlier)
  {
    PassStarts(log.world, attempt, t.Contents());
    pass, done := attempt, 0;
  }

  lemma RunIsOver(w: World, pass: nat, passes: nat, rows: seq<Row>)
    requires pass > passes
    ensures RunRows(w, pass, passes, rows) == rows && RunCalls(w, pass, passes, rows) == []
  {
  }

  // ---------- one pass, seen through the keyset ----------

  lemma PassStarts(w: World, pass: nat, t: Table)
    requires ValidTable(t)
    ensures PassUpTo(w, pass, t.rows, 0) == t.rows && Ordered(t.rows)
  {
  }

  lemma {:induction false} MissingUnchangedAbove(w: World, pass: nat, rows: seq<Row>, upTo: nat)
    ensures Missing(PassUpTo(w, pass, rows, upTo), upTo) == Missing(rows, upTo)
  {
    if rows != [] {
      MissingUnchangedAbove(w, pass, rows[1..], upTo);
      assert PassUpTo(w, pass, rows, upTo)[1..] == PassUpTo(w, pass, rows[1..], upTo);
    }
  }

  lemma PassEnds(w: World, pass: nat, rows: seq<Row>, upTo: nat)
    requires Ordered(rows) && Missing(rows, upTo) == []
    ensures PassUpTo(w, pass, rows, upTo) == PassRows(w, pass, rows) && PassCalls(pass, Missing(rows, upTo)) == []
  {
    SelectIsExact(rows, false, upTo);
    forall i | 0 <= i < |rows| ensures PassUpTo(w, pass, rows, upTo)[i] == PassRows(w, pass, rows)[i] {
      assert rows[i] in rows && rows[i] !in Missing(rows, upTo);
    }
  }

  lemma NextInBatch(start: seq<Row>, from: nat, batch: seq<Row>, j: nat)
    requires Ordered(start) && batch <= Missing(start, from) && j < |batch|
    ensures Missing(start, if j == 0 then from else batch[j - 1].id) != []
    ensures Missing(start, if j == 0 then from else batch[j - 1].id)[0] == batch[j]
  {
    if j > 0 { SelectResumes(start, false, from, j); }
  }

  lemma NextMissingIsNearest(start: seq<Row>, before: nat, item: Row)
    requires Ordered(start) && Missing(start, before) != [] && Missing(start, before)[0] == item
    ensures item in start && item.geom.None? && before < item.id
    ensures forall r :: r in start && r.geom.None? && before < r.id ==> item.id <= r.id
  {
    SelectIsExact(start, false, before);
    SelectIsOrdered(start, false, before);
    forall r | r in start && r.geom.None? && before < r.id ensures item.id <= r.id {
      assert r in Missing(start, before);
    }
  }

  /** Dealing with the next missing row moves the pass exactly to that row's id. */
  lemma RowStep(w: World, pass: nat, start: seq<Row>, before: nat, item: Row)
    requires Ordered(start) && Missing(start, before) != [] && Missing(start, before)[0] == item
    ensures w.Found(pass, item.id, item.address) ==>
              PassUpTo(w, pass, start, item.id)
              == SetGeom(PassUpTo(w, pass, start, before), item.id, w.Lookup(pass, item.id, item.address).value)
    ensures !w.Found(pass, item.id, item.address) ==>
              PassUpTo(w, pass, start, item.id) == PassUpTo(w, pass, start, before)
  {
    NextMissingIsNearest(start, before, item);
    var now, next := PassUpTo(w, pass, start, before), PassUpTo(w, pass, start, item.id);
    forall i | 0 <= i < |start|
      ensures next[i] == if start[i].id == item.id then Resolved(w, pass, item) else now[i]
      ensures start[i].id == item.id ==> now[i] == item
    {
      assert start[i] in start;
    }
  }

  /** ... and a boundary found for it leaves one row fewer to do. */
  lemma RowStepCounts(w: World, pass: nat, start: seq<Row>, before: nat, item: Row, geom: string)
    requires Ordered(start) && Missing(start, before) != [] && Missing(start, before)[0] == item
    ensures CountMissing(PassUpTo(w, pass, start, before))
            == CountMissing(SetGeom(PassUpTo(w, pass, start, before), item.id, geom)) + 1
  {
    NextMissingIsNearest(start, before, item);
    var now := PassUpTo(w, pass, start, before);
    var k :| 0 <= k < |start| && start[k] == item;
    SetGeomFillsOne(now, k, geom);
  }

  lemma NextCall(pass: nat, start: seq<Row>, before: nat, item: Row, earlier: seq<Call>)
    requires Ordered(start) && Missing(start, before) != [] && Missing(start, before)[0] == item
    ensures earlier + [Call(pass, item.id, item.address)] + PassCalls(pass, Missing(start, item.id))
            == earlier + PassCalls(pass, Missing(start, before))
  {
    SelectResumes(start, false, before, 1);
    ConcatAssociative(earlier, [Call(pass, item.id, item.address)], PassCalls(pass, Missing(start, item.id)));
  }

  lemma RunCallsUnfold(w: World, pass: nat, passes: nat, rows: seq<Row>, earlier: seq<Call>)
    requires pass <= passes
    ensures earlier + RunCalls(w, pass, passes, rows)
            == earlier + PassCalls(pass, Missing(rows, 0))
               + (if CountMissing(PassRows(w, pass, rows)) == 0 then []
                  else RunCalls(w, pass + 1, passes, PassRows(w, pass, rows)))
  {
    var after := PassRows(w, pass, rows);
    ConcatAssociative(earlier, PassCalls(pass, Missing(rows, 0)),
      if CountMissing(after) == 0 then [] else RunCalls(w, pass + 1, passes, after));
  }

  // ---------- what a whole run amounts to ----------

  /** The lookup for row `r` failed in each of the passes `from` .. `to - 1`. */
  ghost predicate FailedIn(w: World, r: Row, from: nat, to: nat) {
    forall p: nat :: from <= p < to ==> !w.Found(p, r.id, r.address)
  }

  /**
   A run never touches ids, addresses or existing boundaries, and a row is missing at the end iff it was
   missing at the start and its lookup failed in every one of the passes.
   */
  lemma {:induction false} RunOutcome(w: World, pass: nat, passes: nat, rows: seq<Row>, i: nat)
    requires i < |rows|
    ensures |RunRows(w, pass, passes, rows)| == |rows|
    ensures var r := RunRows(w, pass, passes, rows)[i];
            && r.id == rows[i].id && r.address == rows[i].address
            && (rows[i].geom.Some? ==> r == rows[i])
            && (r.geom.None? <==> rows[i].geom.None? && FailedIn(w, rows[i], pass, passes + 1))
    decreases passes + 1 - pass
  {
    if pass <= passes {
      var after := PassRows(w, pass, rows);
      if CountMissing(after) == 0 {
        NoneMissing(after, i);
      } else {
        RunOutcome(w, pass + 1, passes, after, i);
      }
      if rows[i].geom.None? && !w.Found(pass, rows[i].id, rows[i].address) {
        assert after[i] == rows[i];
      }
    }
  }

  /** A row that is filled gets the first boundary that any pass finds for its own id and address. */
  lemma {:induction false} RunFillsWithFirst(w: World, pass: nat, passes: nat, rows: seq<Row>, i: nat)
    requires i < |rows| && rows[i].geom.None?
    requires |RunRows(w, pass, passes, rows)| == |rows| && RunRows(w, pass, passes, rows)[i].geom.Some?
    ensures FilledFirst(w, rows[i], pass, passes, RunRows(w, pass, passes, rows)[i].geom)
    decreases passes + 1 - pass
  {
    var after := PassRows(w, pass, rows);
    if w.Found(pass, rows[i].id, rows[i].address) {
      assert FailedIn(w, rows[i], pass, pass);
      if CountMissing(after) != 0 { RunOutcome(w, pass + 1, passes, after, i); }
    } else {
      assert after[i] == rows[i];
      if CountMissing(after) == 0 { NoneMissing(after, i); }
      RunOutcome(w, pass + 1, passes, after, i);
      RunFillsWithFirst(w, pass + 1, passes, after, i);
      var p: nat :| pass + 1 <= p <= passes && FailedIn(w, rows[i], pass + 1, p)
                    && w.Found(p, rows[i].id, rows[i].address)
                    && RunRows(w, pass + 1, passes, after)[i].geom == w.Lookup(p, rows[i].id, rows[i].address);
      assert FailedIn(w, rows[i], pass, p);
    }
  }

  /** The boundary is the first one that any of the passes `from` .. `passes` found for the row. */
  ghost predicate FilledFirst(w: World, r: Row, from: nat, passes: nat, geom: Option<string>) {
    exists p: nat :: from <= p <= passes && FailedIn(w, r, from, p)
                     && w.Found(p, r.id, r.address) && geom == w.Lookup(p, r.id, r.address)
  }

  /** Row `i` after the first `n` passes, were there no early exit. */
  lemma {:induction false} PassesOutcome(w: World, n: nat, rows: seq<Row>, i: nat)
    requires i < |rows|
    ensures var r := PassesDone(w, n, rows)[i];
            && r.id == rows[i].id && r.address == rows[i].address
            && (rows[i].geom.Some? ==> r == rows[i])
            && (r.geom.None? <==> rows[i].geom.None? && FailedIn(w, rows[i], 1, n + 1))
            && (rows[i].geom.None? && r.geom.Some? ==> FilledFirst(w, rows[i], 1, n, r.geom))
  {
    if n > 0 {
      PassesOutcome(w, n - 1, rows, i);
      ResolvedOnceMore(w, n, rows[i], PassesDone(w, n - 1, rows)[i]);
    }
  }

  lemma ResolvedOnceMore(w: World, n: nat, first: Row, before: Row)
    requires 1 <= n && before.id == first.id && before.address == first.address
    requires first.geom.Some? ==> before == first
    requires before.geom.None? <==> first.geom.None? && FailedIn(w, first, 1, n)
    requires first.geom.None? && before.geom.Some? ==> FilledFirst(w, first, 1, n - 1, before.geom)
    ensures var r := Resolved(w, n, before);
            && r.id == first.id && r.address == first.address
            && (first.geom.Some? ==> r == first)
            && (r.geom.None? <==> first.geom.None? && FailedIn(w, first, 1, n + 1))
            && (first.geom.None? && r.geom.Some? ==> FilledFirst(w, first, 1, n, r.geom))
  {
  }

  /**
   Row `i` where an exception has left a run: it is missing iff it was at the start and every pass that has
   dealt with it failed on it, and a row that is filled has the first boundary found.
   */
  lemma LeftOutcome(w: World, pass: nat, done: nat, rows: seq<Row>, i: nat)
    requires 1 <= pass && i < |rows|
    ensures var r, tried := PassUpTo(w, pass, PassesDone(w, pass - 1, rows), done)[i],
                            if rows[i].id <= done then pass else pass - 1;
            && r.id == rows[i].id && r.address == rows[i].address
            && (rows[i].geom.Some? ==> r == rows[i])
            && (r.geom.None? <==> rows[i].geom.None? && FailedIn(w, rows[i], 1, tried + 1))
            && (rows[i].geom.None? && r.geom.Some? ==> FilledFirst(w, rows[i], 1, tried, r.geom))
  {
    PassesOutcome(w, pass - 1, rows, i);
    ResolvedOnceMore(w, pass, rows[i], PassesDone(w, pass - 1, rows)[i]);
  }

  lemma {:induction false} NoneMissing(rows: seq<Row>, i: nat)
    requires CountMissing(rows) == 0 && i < |rows|
    ensures rows[i].geom.Some?
  {
    if i > 0 { NoneMissing(rows[1..], i - 1); }
  }

  ghost predicate LooksUp(w: World, pass: nat, passes: nat, rows: seq<Row>, c: Call) {
    && pass <= c.pass <= passes
    && exists r :: r in rows && r.geom.None? && r.id == c.id && r.address == c.address && FailedIn(w, r, pass, c.pass)
  }

  /** Calls sorted by pass and then id, without repeats. */
  ghost predicate InCallOrder(calls: seq<Call>) {
    forall i, j :: 0 <= i < j < |calls| ==>
      calls[i].pass < calls[j].pass || (calls[i].pass == calls[j].pass && calls[i].id < calls[j].id)
  }

  /** The rows of `missing` that call `c` could be for. */
  ghost predicate CallFor(missing: seq<Row>, c: Call) {
    exists r :: r in missing && r.id == c.id && r.address == c.address
  }

  lemma {:induction false} PassCallIs(pass: nat, missing: seq<Row>, c: Call)
    ensures c in PassCalls(pass, missing) <==> c.pass == pass && CallFor(missing, c)
  {
    if missing != [] {
      PassCallIs(pass, missing[1..], c);
      CallForFirst(missing, c);
    }
  }

  lemma CallForFirst(missing: seq<Row>, c: Call)
    requires missing != []
    ensures CallFor(missing, c) <==>
            (missing[0].id == c.id && missing[0].address == c.address) || CallFor(missing[1..], c)
  {
    assert missing == [missing[0]] + missing[1..];
    if missing[0].id == c.id && missing[0].address == c.address { assert missing[0] in missing; }
  }

  lemma {:induction false} PassCallsInOrder(pass: nat, missing: seq<Row>)
    requires Ordered(missing)
    ensures InCallOrder(PassCalls(pass, missing)) && |PassCalls(pass, missing)| == |missing|
    ensures forall k :: 0 <= k < |missing| ==> PassCalls(pass, missing)[k].id == missing[k].id
    ensures forall k :: 0 <= k < |missing| ==> PassCalls(pass, missing)[k].pass == pass
  {
    if missing != [] { PassCallsInOrder(pass, missing[1..]); }
  }

  lemma {:induction false} PassCallsOf(pass: nat, missing: seq<Row>)
    ensures forall c :: c in PassCalls(pass, missing) ==> c.pass == pass
  {
    if missing != [] { PassCallsOf(pass, missing[1..]); }
  }

  /** In call order, and none before pass `pass`. */
  ghost predicate InOrderFrom(calls: seq<Call>, pass: nat) {
    InCallOrder(calls) && forall c :: c in calls ==> pass <= c.pass
  }

  lemma CallsInOrder(now: seq<Call>, later: seq<Call>, pass: nat)
    requires InCallOrder(now) && forall c :: c in now ==> c.pass == pass
    requires InOrderFrom(later, pass + 1)
    ensures InOrderFrom(now + later, pass)
  {
  }

  lemma PassInOrder(pass: nat, rows: seq<Row>)
    requires Ordered(rows)
    ensures InCallOrder(PassCalls(pass, Missing(rows, 0)))
    ensures forall c :: c in PassCalls(pass, Missing(rows, 0)) ==> c.pass == pass
  {
    SelectIsOrdered(rows, false, 0);
    PassCallsInOrder(pass, Missing(rows, 0));
    PassCallsOf(pass, Missing(rows, 0));
  }

  lemma PassKeepsIds(w: World, pass: nat, rows: seq<Row>)
    requires Ordered(rows) && forall r :: r in rows ==> 1 <= r.id
    ensures Ordered(PassRows(w, pass, rows)) && forall r :: r in PassRows(w, pass, rows) ==> 1 <= r.id
  {
  }

  /**
   A run looks up, in each pass, exactly the rows that all its earlier passes failed on: a failing row
   never keeps a later one from its turn.
   */
  lemma {:induction false} RunLooksUpExactly(w: World, pass: nat, passes: nat, rows: seq<Row>, c: Call)
    requires Ordered(rows) && forall r :: r in rows ==> 1 <= r.id
    ensures c in RunCalls(w, pass, passes, rows) <==> LooksUp(w, pass, passes, rows, c)
    decreases passes + 1 - pass
  {
    if pass <= passes {
      PassKeepsIds(w, pass, rows);
      RunLooksUpExactly(w, pass + 1, passes, PassRows(w, pass, rows), c);
      ThisPass(w, pass, passes, rows, c);
      LaterPass(w, pass, passes, rows, c);
    }
  }

  /** ... and never the same row twice in a pass, always in increasing id order. */
  lemma {:induction false} RunLooksUpInOrder(w: World, pass: nat, passes: nat, rows: seq<Row>)
    requires Ordered(rows)
    ensures InOrderFrom(RunCalls(w, pass, passes, rows), pass)
    decreases passes + 1 - pass
  {
    if pass <= passes {
      PassKeepsOrder(w, pass, rows);
      RunLooksUpInOrder(w, pass + 1, passes, PassRows(w, pass, rows));
      PassThenRest(w, pass, passes, rows);
    }
  }

  lemma PassKeepsOrder(w: World, pass: nat, rows: seq<Row>)
    requires Ordered(rows)
    ensures Ordered(PassRows(w, pass, rows))
  {
  }

  lemma PassThenRest(w: World, pass: nat, passes: nat, rows: seq<Row>)
    requires Ordered(rows) && pass <= passes
    requires InOrderFrom(RunCalls(w, pass + 1, passes, PassRows(w, pass, rows)), pass + 1)
    ensures InOrderFrom(RunCalls(w, pass, passes, rows), pass)
  {
    var after := PassRows(w, pass, rows);
    PassInOrder(pass, rows);
    CallsInOrder(PassCalls(pass, Missing(rows, 0)),
                 if CountMissing(after) == 0 then [] else RunCalls(w, pass + 1, passes, after), pass);
  }

  lemma ThisPass(w: World, pass: nat, passes: nat, rows: seq<Row>, c: Call)
    requires pass <= passes && forall r :: r in rows ==> 1 <= r.id
    ensures c in PassCalls(pass, Missing(rows, 0)) <==> c.pass == pass && LooksUp(w, pass, passes, rows, c)
  {
    SelectIsExact(rows, false, 0);
    PassCallIs(pass, Missing(rows, 0), c);
    if c.pass == pass && LooksUp(w, pass, passes, rows, c) {
      var r :| r in rows && r.geom.None? && r.id == c.id && r.address == c.address && FailedIn(w, r, pass, c.pass);
      assert r in Missing(rows, 0);
    }
    if c in PassCalls(pass, Missing(rows, 0)) {
      var r :| r in Missing(rows, 0) && r.id == c.id && r.address == c.address;
      assert FailedIn(w, r, pass, c.pass);
    }
  }

  /** What the later passes are asked to look up is what this pass leaves missing. */
  lemma LaterPass(w: World, pass: nat, passes: nat, rows: seq<Row>, c: Call)
    requires pass <= passes
    ensures c.pass != pass && LooksUp(w, pass, passes, rows, c)
            <==> CountMissing(PassRows(w, pass, rows)) != 0 && LooksUp(w, pass + 1, passes, PassRows(w, pass, rows), c)
  {
    var after := PassRows(w, pass, rows);
    if c.pass != pass && LooksUp(w, pass, passes, rows, c) {
      var r :| r in rows && r.geom.None? && r.id == c.id && r.address == c.address && FailedIn(w, r, pass, c.pass);
      var i :| 0 <= i < |rows| && rows[i] == r;
      assert after[i] == r && r in after && FailedIn(w, r, pass + 1, c.pass);
      if CountMissing(after) == 0 { NoneMissing(after, i); }
    }
    if LooksUp(w, pass + 1, passes, after, c) {
      var r :| r in after && r.geom.None? && r.id == c.id && r.address == c.address && FailedIn(w, r, pass + 1, c.pass);
      var i :| 0 <= i < |after| && after[i] == r;
      assert rows[i] == r && r in rows && !w.Found(pass, r.id, r.address) && FailedIn(w, r, pass, c.pass);
    }
  }

  // ---------- what a whole run costs ----------

  /** The number of rows still missing after pass `pass`, summed with weight `pass` over the passes made. */
  function WeightedFailures(w: World, pass: nat, passes: nat, rows: seq<Row>): nat
    decreases passes + 1 - pass
  {
    if pass > passes then 0
    else
      var after := PassRows(w, pass, rows);
      pass * CountMissing(after)
      + (if CountMissing(after) == 0 then 0 else WeightedFailures(w, pass + 1, passes, after))
  }

  lemma {:induction false} CostConcat(w: World, m: Measure, a: seq<Call>, b: seq<Call>)
    ensures Cost(w, m, a + b) == Cost(w, m, a) + Cost(w, m, b)
  {
    if b == [] {
      assert a + b == a;
    } else {
      var n := |b| - 1;
      CostConcat(w, m, a, b[..n]);
      assert (a + b)[..|a + b| - 1] == a + b[..n];
    }
  }

  lemma {:induction false} CostCons(w: World, m: Measure, c: Call, rest: seq<Call>)
    ensures Cost(w, m, [c] + rest) == CallCost(w, m, c) + Cost(w, m, rest)
  {
    CostConcat(w, m, [c], rest);
    assert [c][..0] == [];
  }

  lemma TimesOneMore(k: nat, n: nat)
    ensures k * (n + 1) == k * n + k
  {
  }

  /** A pass sleeps its own number of backoff units for each row it leaves missing. */
  lemma {:induction false} PassSleepIs(w: World, pass: nat, rows: seq<Row>)
    requires forall r :: r in rows ==> 1 <= r.id
    ensures Cost(w, PassSleep, PassCalls(pass, Missing(rows, 0))) == pass * CountMissing(PassRows(w, pass, rows))
  {
    if rows != [] {
      hide Cost;
      var after := PassRows(w, pass, rows);
      assert rows[0] in rows;
      PassSleepIs(w, pass, rows[1..]);
      assert after[1..] == PassRows(w, pass, rows[1..]);
      if rows[0].geom.None? {
        var c := Call(pass, rows[0].id, rows[0].address);
        CostCons(w, PassSleep, c, PassCalls(pass, Missing(rows[1..], 0)));
        assert Missing(rows, 0) == [rows[0]] + Missing(rows[1..], 0);
        assert PassCalls(pass, Missing(rows, 0)) == [c] + PassCalls(pass, Missing(rows[1..], 0));
      }
      if after[0].geom.None? {
        TimesOneMore(pass, CountMissing(after[1..]));
      }
    }
  }

  /** The pass-level sleep is exactly the sum over passes of pass number times failures. */
  lemma {:induction false} RunSleepIsExact(w: World, pass: nat, passes: nat, rows: seq<Row>)
    requires Ordered(rows) && forall r :: r in rows ==> 1 <= r.id
    ensures Cost(w, PassSleep, RunCalls(w, pass, passes, rows)) == WeightedFailures(w, pass, passes, rows)
    decreases passes + 1 - pass
  {
    if pass <= passes {
      hide Cost, PassCalls, PassRows, Missing, CountMissing;
      var after := PassRows(w, pass, rows);
      PassSleepIs(w, pass, rows);
      PassKeepsIds(w, pass, rows);
      var later := if CountMissing(after) == 0 then [] else RunCalls(w, pass + 1, passes, after);
      RunSleepIsExact(w, pass + 1, passes, after);
      CostConcat(w, PassSleep, PassCalls(pass, Missing(rows, 0)), later);
    }
  }

  lemma {:induction false} PassNeverAdds(w: World, pass: nat, rows: seq<Row>)
    ensures CountMissing(PassRows(w, pass, rows)) <= CountMissing(rows)
  {
    if rows != [] {
      PassNeverAdds(w, pass, rows[1..]);
      assert PassRows(w, pass, rows)[1..] == PassRows(w, pass, rows[1..]);
    }
  }

  function PassSum(pass: nat, passes: nat): nat
    decreases passes + 1 - pass
  {
    if pass > passes then 0 else pass + PassSum(pass + 1, passes)
  }

  lemma {:induction false} PassSumIsTriangle(pass: nat, passes: nat)
    requires 1 <= pass <= passes + 1
    ensures PassSum(pass, passes) == Triangle(passes) - Triangle(pass - 1)
    decreases passes + 1 - pass
  {
    if pass <= passes {
      PassSumIsTriangle(pass + 1, passes);
      TriangleStep(pass - 1);
    }
  }

  lemma WeightStep(pass: nat, left: nat, n: nat, later: nat, rest: nat)
    requires left <= n && later <= n * rest
    ensures pass * left + later <= n * (pass + rest)
  {
  }

  lemma {:induction false} WeightedFailuresBounded(w: World, pass: nat, passes: nat, rows: seq<Row>, n: nat)
    requires CountMissing(rows) <= n
    ensures WeightedFailures(w, pass, passes, rows) <= n * PassSum(pass, passes)
    decreases passes + 1 - pass
  {
    if pass <= passes {
      var after := PassRows(w, pass, rows);
      PassNeverAdds(w, pass, rows);
      WeightedFailuresBounded(w, pass + 1, passes, after, n);
      var later := if CountMissing(after) == 0 then 0 else WeightedFailures(w, pass + 1, passes, after);
      WeightStep(pass, CountMissing(after), n, later, PassSum(pass + 1, passes));
    }
  }

  /** ... hence at most N * M(M+1)/2 backoff units for N missing rows and M passes. */
  lemma RunSleepBounded(w: World, passes: nat, t: Table)
    requires ValidTable(t)
    ensures Cost(w, PassSleep, RunCalls(w, 1, passes, t.rows)) <= CountMissing(t.rows) * Triangle(passes)
  {
    RunSleepIsExact(w, 1, passes, t.rows);
    WeightedFailuresBounded(w, 1, passes, t.rows, CountMissing(t.rows));
    PassSumIsTriangle(1, passes);
  }

  lemma {:induction false} CostBounded(w: World, m: Measure, calls: seq<Call>, bound: nat)
    requires forall c :: CallCost(w, m, c) <= bound
    ensures Cost(w, m, calls) <= bound * |calls|
  {
    if calls != [] {
      CostBounded(w, m, calls[..|calls| - 1], bound);
      assert bound * |calls| == bound * (|calls| - 1) + bound;
    }
  }

  lemma {:induction false} RunCallsBounded(w: World, pass: nat, passes: nat, rows: seq<Row>, n: nat)
    requires Ordered(rows) && forall r :: r in rows ==> 1 <= r.id
    requires CountMissing(rows) <= n
    ensures |RunCalls(w, pass, passes, rows)| <= Repeated(n, pass, passes)
    decreases passes + 1 - pass
  {
    if pass <= passes {
      CountIsLength(rows);
      SelectIsOrdered(rows, false, 0);
      PassCallsInOrder(pass, Missing(rows, 0));
      PassNeverAdds(w, pass, rows);
      PassKeepsIds(w, pass, rows);
      RunCallsBounded(w, pass + 1, passes, PassRows(w, pass, rows), n);
    }
  }

  /** `n` once for each of the passes `pass` .. `passes`. */
  function Repeated(n: nat, pass: nat, passes: nat): nat
    decreases passes + 1 - pass
  {
    if pass > passes then 0 else n + Repeated(n, pass + 1, passes)
  }

  lemma {:induction false} RepeatedIsProduct(n: nat, pass: nat, passes: nat)
    requires pass <= passes + 1
    ensures Repeated(n, pass, passes) == n * (passes + 1 - pass)
    decreases passes + 1 - pass
  {
    if pass <= passes {
      RepeatedIsProduct(n, pass + 1, passes);
      assert n * (passes + 1 - pass) == n * (passes - pass) + n;
    }
  }

  /** Whatever each lookup costs at most, a run of M passes over N missing rows costs at most M*N times that. */
  lemma RunCostBounded(w: World, m: Measure, passes: nat, t: Table, bound: nat)
    requires ValidTable(t) && forall c :: CallCost(w, m, c) <= bound
    ensures Cost(w, m, RunCalls(w, 1, passes, t.rows)) <= bound * (passes * CountMissing(t.rows))
  {
    var calls, n := RunCalls(w, 1, passes, t.rows), CountMissing(t.rows);
    CostBounded(w, m, calls, bound);
    assert |calls| <= passes * n by { RunMakesAtMost(w, passes, t); }
    hide *;
    MulMonotone(bound, |calls|, passes * n);
  }

  lemma RunMakesAtMost(w: World, passes: nat, t: Table)
    requires ValidTable(t)
    ensures |RunCalls(w, 1, passes, t.rows)| <= passes * CountMissing(t.rows)
  {
    var n := CountMissing(t.rows);
    RunCallsBounded(w, 1, passes, t.rows, n);
    hide *;
    RepeatedIsProduct(n, 1, passes);
  }

  /** With N rows missing, M passes and R tries per GET, a run issues at most 2*R*M*N GETs. */
  lemma RunGetsBounded(w: World, passes: nat, t: Table)
    requires ValidTable(t)
    ensures Cost(w, Gets, RunCalls(w, 1, passes, t.rows)) <= 2 * w.retries * (passes * CountMissing(t.rows))
  {
    forall c ensures CallCost(w, Gets, c) <= 2 * w.retries { LookupGetsBounded(w, c.pass, c.id, c.address); }
    RunCostBounded(w, Gets, passes, t, 2 * w.retries);
  }

  /** ... and sleeps between them for at most R(R-1) * M * N backoff units. */
  lemma RunHttpSleepBounded(w: World, passes: nat, t: Table)
    requires ValidTable(t)
    ensures Cost(w, HttpSleep, RunCalls(w, 1, passes, t.rows))
            <= 2 * Triangle(Max(0, w.retries - 1)) * (passes * CountMissing(t.rows))
  {
    var bound := 2 * Triangle(Max(0, w.retries - 1));
    forall c ensures CallCost(w, HttpSleep, c) <= bound { LookupSleepBounded(w, c.pass, c.id, c.address); }
    RunCostBounded(w, HttpSleep, passes, t, bound);
  }

  lemma MulMonotone(k: nat, a: nat, b: nat)
    requires a <= b
    ensures k * a <= k * b
  {
  }
}
