/**
 Parcels page by page, from the table to the browser: the page query and its cursor
 (app/services/land_service.py, app/routers/map_router.py), the client loop
 (frontend/src/map/lands-client.ts) and the store it fills (map-bootstrap.ts, state.ts).
 */
module LandPages {
  import opened Common
  import opened Text
  import opened LandRepository

  const MAX_LANDS_PAGE_LIMIT := 2000
  const MAX_LAND_CURSOR: int := 0x7fff_ffff_ffff_ffff

  datatype Page = Page(features: seq<Row>, nextCursor: Option<string>)

  datatype Parsed = Cursor(id: Option<nat>) | BadRequest

  // ---------- the server ----------

  function ClampLimit(limit: int): nat { Max(1, Min(limit, MAX_LANDS_PAGE_LIMIT)) }

  function ParseCursor(raw: Option<string>): Parsed {
    if raw.None? || Strip(Spaces, raw.value) == "" then Cursor(None)
    else
      var n := ParseInt(raw.value);
      if n.None? || n.value < 0 || n.value > MAX_LAND_CURSOR then BadRequest else Cursor(Some(n.value))
  }

  function AfterId(cursor: Option<nat>): nat { if cursor.Some? then cursor.value else 0 }

  function Rows(t: Table, cursor: Option<nat>, limit: nat): seq<Row> { Take(Mapped(t.rows, AfterId(cursor)), limit) }

  function PageOf(t: Table, cursor: Option<nat>, limit: nat): Page {
    var rows := Rows(t, cursor, limit);
    Page(rows, if |rows| == limit && rows != [] then Some(Print(rows[|rows| - 1].id)) else None)
  }

  method GetPublicLandFeaturesPage(t: PoiTable, cursor: Option<nat>, limit: nat) returns (page: Page)
    requires t.Valid()
    ensures page == PageOf(t.Contents(), cursor, limit)
  {
    var rows := t.FetchLandsWithGeomPage(limit, cursor);
    var features, nextCursor := [], None;
    for i := 0 to |rows|
      invariant features == rows[..i]
      invariant nextCursor == if i == 0 then None else Some(rows[i - 1].id)
    {
      features := features + [rows[i]];
      nextCursor := Some(rows[i].id);
    }
    var hasMore := |rows| == limit;
    page := Page(features, if hasMore && nextCursor.Some? then Some(Print(nextCursor.value)) else None);
  }

  /** `GET /api/lands` on the table as it is when the request is served. */
  function Serve(t: Table, limit: int, raw: Option<string>): Option<Page> {
    match ParseCursor(raw)
    case BadRequest => None
    case Cursor(id) => Some(PageOf(t, id, ClampLimit(limit)))
  }

  /** Keys fit SQLite's 64-bit integers. */
  ghost predicate Served(t: Table) { ValidTable(t) && t.nextId - 1 <= MAX_LAND_CURSOR }

  /** Every cursor the server hands out is one it accepts, and it means the last row delivered. */
  lemma EmittedCursorIsAccepted(t: Table, cursor: Option<nat>, limit: nat)
    requires Served(t) && PageOf(t, cursor, limit).nextCursor.Some?
    ensures Rows(t, cursor, limit) != []
    ensures ParseCursor(PageOf(t, cursor, limit).nextCursor)
            == Cursor(Some(Rows(t, cursor, limit)[|Rows(t, cursor, limit)| - 1].id))
  {
    LastIsServed(t, cursor, limit);
    hide Print, ParseDigits, ParseInt, Strip, Rows, Served;
    var last := Rows(t, cursor, limit)[|Rows(t, cursor, limit)| - 1];
    ParsePrint(last.id);
    PrintIsDigits(last.id);
  }

  lemma LastIsServed(t: Table, cursor: Option<nat>, limit: nat)
    requires Served(t) && Rows(t, cursor, limit) != []
    ensures Rows(t, cursor, limit)[|Rows(t, cursor, limit)| - 1].id <= MAX_LAND_CURSOR
  {
    var all, rows := Mapped(t.rows, AfterId(cursor)), Rows(t, cursor, limit);
    SelectIsExact(t.rows, true, AfterId(cursor));
    assert rows[|rows| - 1] == all[|rows| - 1] && all[|rows| - 1] in all;
  }

  /** A page has at least one row's room and at most 2000, and the number asked for if that is in between. */
  lemma PageSizeIs(limit: int)
    ensures 1 <= ClampLimit(limit) <= 2000 && (1 <= limit <= 2000 ==> ClampLimit(limit) == limit)
    ensures (limit < 1 ==> ClampLimit(limit) == 1) && (limit > 2000 ==> ClampLimit(limit) == 2000)
  {
  }

  /** A number is a cursor iff it fits 64 bits with a sign and is not negative. */
  lemma CursorIsRead(n: nat)
    ensures ParseCursor(Some(Print(n))) == if n <= 9223372036854775807 then Cursor(Some(n)) else BadRequest
    ensures n > 0 ==> ParseCursor(Some(['-'] + Print(n))) == BadRequest
  {
    ParsePrint(n);
    PrintIsDigits(n);
    MinusIsKept(Print(n));
  }

  lemma MinusIsKept(s: string)
    requires s != [] && IsDigit(s[|s| - 1])
    ensures Strip(Spaces, ['-'] + s) == ['-'] + s
  {
    DigitsAreNotSpace(s[|s| - 1]);
    StripFixes(Spaces, ['-'] + s);
  }

  // ---------- the client loop, over the tables its requests find ----------

  /**
   What the loop passes on when its requests find the tables `tables`, one each, and it has come to id
   `after`: the concatenation of its batches.
   */
  function Delivered(tables: seq<Table>, after: nat, limit: nat): seq<Row> {
    if tables == [] then []
    else
      var rows := Take(Mapped(tables[0].rows, after), limit);
      if |rows| == limit && rows != [] then rows + Delivered(tables[1..], rows[|rows| - 1].id, limit) else rows
  }

  /** Whether the loop has ended by itself within those requests. */
  predicate Finished(tables: seq<Table>, after: nat, limit: nat) {
    if tables == [] then false
    else
      var rows := Take(Mapped(tables[0].rows, after), limit);
      |rows| == limit && rows != [] ==> Finished(tables[1..], rows[|rows| - 1].id, limit)
  }

  function Concat(batches: seq<seq<Row>>): seq<Row> {
    if batches == [] then [] else Concat(batches[..|batches| - 1]) + batches[|batches| - 1]
  }

  /** One request of the loop, whose cursor stands for id `after`. */
  method Request(t: Table, limit: int, cursor: Option<string>, ghost after: nat) returns (page: Page)
    requires Served(t) && ParseCursor(cursor).Cursor? && AfterId(ParseCursor(cursor).id) == after
    ensures page.features == Take(Mapped(t.rows, after), ClampLimit(limit))
    ensures page.nextCursor.Some? <==> |page.features| == ClampLimit(limit)
    ensures page.nextCursor.Some? ==>
              page.features != []
              && ParseCursor(page.nextCursor) == Cursor(Some(page.features[|page.features| - 1].id))
  {
    page := Serve(t, limit, cursor).value;
    if page.nextCursor.Some? { EmittedCursorIsAccepted(t, ParseCursor(cursor).id, ClampLimit(limit)); }
  }

  /** The callback gets every page that is not empty. */
  method OnBatch(batches: seq<seq<Row>>, features: seq<Row>) returns (more: seq<seq<Row>>)
    requires forall i :: 0 <= i < |batches| ==> batches[i] != []
    ensures Concat(more) == Concat(batches) + features
    ensures forall i :: 0 <= i < |more| ==> more[i] != []
  {
    more := batches;
    if |features| > 0 {
      more := batches + [features];
      assert more[..|batches|] == batches;
    }
  }

  /**
   `streamLandFeatures`.  `tables[i]` is the table when request `i` is served; running out of them stands
   for a request that fails.
   */
  method StreamLandFeatures(tables: seq<Table>, limit: int) returns (batches: seq<seq<Row>>, finished: bool)
    requires forall i :: 0 <= i < |tables| ==> Served(tables[i])
    ensures Concat(batches) == Delivered(tables, 0, ClampLimit(limit))
    ensures finished == Finished(tables, 0, ClampLimit(limit))
    ensures forall i :: 0 <= i < |batches| ==> batches[i] != []
  {
    hide Delivered, Finished, Mapped, ParseCursor;
    batches, finished := [], false;
    var cursor: Option<string> := None;
    FirstCursor();
    var i := 0;
    ghost var after, size := 0, ClampLimit(limit);
    assert tables[0..] == tables;
    while i < |tables|
      invariant 0 <= i <= |tables| && !finished
      invariant ParseCursor(cursor).Cursor? && AfterId(ParseCursor(cursor).id) == after
      invariant Concat(batches) + Delivered(tables[i..], after, size) == Delivered(tables, 0, size)
      invariant Finished(tables[i..], after, size) == Finished(tables, 0, size)
      invariant forall k :: 0 <= k < |batches| ==> batches[k] != []
    {
      var page := Request(tables[i], limit, cursor, after);
      DeliveredStep(tables, i, after, size, Concat(batches));
      batches := OnBatch(batches, page.features);
      if page.nextCursor.None? {
        finished := true;
        return;
      }
      cursor := page.nextCursor;
      after := page.features[|page.features| - 1].id;
      i := i + 1;
    }
    assert tables[i..] == [];
    NothingMore(after, size);
  }

  lemma FirstCursor()
    ensures ParseCursor(None) == Cursor(None)
  {
  }

  lemma NothingMore(after: nat, limit: nat)
    ensures Delivered([], after, limit) == [] && !Finished([], after, limit)
  {
  }

  lemma DeliveredStep(tables: seq<Table>, i: nat, after: nat, limit: nat, sofar: seq<Row>)
    requires i < |tables| && 1 <= limit
    ensures var rows := Take(Mapped(tables[i].rows, after), limit);
            if |rows| == limit
            then sofar + Delivered(tables[i..], after, limit)
                 == sofar + rows + Delivered(tables[i + 1..], rows[|rows| - 1].id, limit)
                 && Finished(tables[i..], after, limit) == Finished(tables[i + 1..], rows[|rows| - 1].id, limit)
            else Delivered(tables[i..], after, limit) == rows
                 && sofar + rows == sofar + Delivered(tables[i..], after, limit)
                 && Finished(tables[i..], after, limit)
  {
  }

  // ---------- what is delivered ----------

  /** On a table that does not change, the client receives a prefix of all mapped rows, in id order, ... */
  lemma {:induction false} FixedTableDelivers(tables: seq<Table>, t: Table, after: nat, limit: nat)
    requires ValidTable(t) && 1 <= limit && forall i :: 0 <= i < |tables| ==> tables[i] == t
    ensures Delivered(tables, after, limit) <= Mapped(t.rows, after)
    ensures Finished(tables, after, limit) ==> Delivered(tables, after, limit) == Mapped(t.rows, after)
  {
    var all := Mapped(t.rows, after);
    if tables != [] && |all| >= limit {
      SelectResumes(t.rows, true, after, limit);
      FixedTableDelivers(tables[1..], t, all[limit - 1].id, limit);
      PrefixAfter(all, limit, Delivered(tables[1..], all[limit - 1].id, limit));
    }
  }

  lemma PrefixAfter(all: seq<Row>, k: nat, more: seq<Row>)
    requires k <= |all| && more <= all[k..]
    ensures all[..k] + more <= all && (more == all[k..] ==> all[..k] + more == all)
  {
  }

  /** The number of requests for `n` rows: one for each full page, and one that is not full. */
  function Requests(n: nat, limit: nat): nat
    requires 1 <= limit
  {
    if n < limit then 1 else 1 + Requests(n - limit, limit)
  }

  lemma {:induction false} RequestsIs(full: nat, rest: nat, limit: nat)
    requires rest < limit
    ensures Requests(full * limit + rest, limit) == full + 1
  {
    if full > 0 {
      RequestsIs(full - 1, rest, limit);
      assert full * limit + rest - limit == (full - 1) * limit + rest;
    }
  }

  lemma RequestsIsPages(n: nat, limit: nat)
    requires 1 <= limit
    ensures Requests(n, limit) == n / limit + 1
  {
    var full, rest: nat := n / limit, n % limit;
    assert n == full * limit + rest;
    RequestsIs(full, rest, limit);
  }

  lemma {:induction false} FixedTableFinishes(tables: seq<Table>, t: Table, after: nat, limit: nat)
    requires ValidTable(t) && 1 <= limit && forall i :: 0 <= i < |tables| ==> tables[i] == t
    ensures Finished(tables, after, limit) <==> |tables| >= Requests(|Mapped(t.rows, after)|, limit)
  {
    var all := Mapped(t.rows, after);
    if tables != [] && |all| >= limit {
      SelectResumes(t.rows, true, after, limit);
      FixedTableFinishes(tables[1..], t, all[limit - 1].id, limit);
    }
  }

  /** ... and, once it has made a request for each full page and one more, exactly all of them. */
  lemma PagesCompose(tables: seq<Table>, t: Table, limit: nat)
    requires ValidTable(t) && 1 <= limit && forall i :: 0 <= i < |tables| ==> tables[i] == t
    ensures Finished(tables, 0, limit) <==> |tables| > |Mapped(t.rows, 0)| / limit
    ensures Finished(tables, 0, limit) ==> Delivered(tables, 0, limit) == Mapped(t.rows, 0)
    ensures forall r :: r in Mapped(t.rows, 0) <==> r in t.rows && r.geom.Some?
  {
    FixedTableDelivers(tables, t, 0, limit);
    FixedTableFinishes(tables, t, 0, limit);
    RequestsIsPages(|Mapped(t.rows, 0)|, limit);
    SelectIsExact(t.rows, true, 0);
    assert forall r :: r in t.rows ==> r.id > 0;
  }

  /** However the table changes between the pages, ids only go up: no row is ever delivered twice. */
  lemma {:induction false} NeverTwice(tables: seq<Table>, after: nat, limit: nat)
    requires forall i :: 0 <= i < |tables| ==> ValidTable(tables[i])
    ensures Ordered(Delivered(tables, after, limit))
    ensures forall r :: r in Delivered(tables, after, limit) ==> after < r.id && r.geom.Some?
  {
    hide Mapped, Ordered, ValidTable;
    if tables == [] {
      NothingIsOrdered();
    } else {
      var rows := Take(Mapped(tables[0].rows, after), limit);
      PageIsOrdered(tables[0], after, limit);
      if |rows| == limit && rows != [] {
        var last := rows[|rows| - 1].id;
        NeverTwice(tables[1..], last, limit);
        OrderedConcat(rows, Delivered(tables[1..], last, limit));
      }
    }
  }

  lemma NothingIsOrdered()
    ensures Ordered([])
  {
  }

  lemma PageIsOrdered(t: Table, after: nat, limit: nat)
    requires ValidTable(t)
    ensures var rows := Take(Mapped(t.rows, after), limit);
            Ordered(rows) && forall r :: r in rows ==> after < r.id && r.geom.Some?
  {
    SelectIsExact(t.rows, true, after);
    SelectIsOrdered(t.rows, true, after);
    var all := Mapped(t.rows, after);
    forall r | r in Take(all, limit) ensures r in all {}
  }

  lemma OrderedConcat(a: seq<Row>, b: seq<Row>)
    requires Ordered(a) && Ordered(b) && a != [] && forall r :: r in b ==> a[|a| - 1].id < r.id
    ensures Ordered(a + b) && forall r :: r in a + b <==> r in a || r in b
  {
  }

  ghost predicate MappedIn(t: Table, id: nat) { exists r :: r in t.rows && r.id == id && r.geom.Some? }

  /** A row that has its boundary at every page read of a finished session is delivered. */
  lemma {:induction false} NothingSteadyIsMissed(tables: seq<Table>, after: nat, limit: nat, id: nat)
    requires forall i :: 0 <= i < |tables| ==> ValidTable(tables[i]) && MappedIn(tables[i], id)
    requires Finished(tables, after, limit) && after < id && 1 <= limit
    ensures exists r :: r in Delivered(tables, after, limit) && r.id == id
  {
    var all := Mapped(tables[0].rows, after);
    var rows := Take(all, limit);
    assert MappedIn(tables[0], id);
    InThisPageOrLater(tables[0], after, limit, id);
    if !(exists r :: r in rows && r.id == id) {
      NothingSteadyIsMissed(tables[1..], rows[|rows| - 1].id, limit, id);
    }
  }

  lemma InThisPageOrLater(t: Table, after: nat, limit: nat, id: nat)
    requires ValidTable(t) && MappedIn(t, id) && after < id && 1 <= limit
    ensures var rows := Take(Mapped(t.rows, after), limit);
            (exists r :: r in rows && r.id == id) || (|rows| == limit && rows[|rows| - 1].id < id)
  {
    var all := Mapped(t.rows, after);
    var r :| r in t.rows && r.id == id && r.geom.Some?;
    SelectIsExact(t.rows, true, after);
    SelectIsOrdered(t.rows, true, after);
    var k :| 0 <= k < |all| && all[k] == r;
    if k < limit { assert Take(all, limit)[k] == r; }
  }

  /** Every delivered row was found, with its boundary, in one of the tables read. */
  lemma {:induction false} OnlyWhatWasRead(tables: seq<Table>, after: nat, limit: nat, r: Row)
    requires r in Delivered(tables, after, limit)
    ensures exists i :: 0 <= i < |tables| && r in tables[i].rows && r.geom.Some?
  {
    var rows := Take(Mapped(tables[0].rows, after), limit);
    SelectIsExact(tables[0].rows, true, after);
    if r in rows {
      assert r in Mapped(tables[0].rows, after);
    } else {
      OnlyWhatWasRead(tables[1..], rows[|rows| - 1].id, limit, r);
      var i :| 0 <= i < |tables[1..]| && r in tables[1..][i].rows && r.geom.Some?;
      assert tables[1..][i] == tables[i + 1];
    }
  }

  // ---------- the store ----------

  class MapState {
    var originalData: Option<seq<Row>>
    var currentFeatures: seq<Row>
    var currentIndex: int

    constructor ()
      ensures originalData == None && currentFeatures == [] && currentIndex == -1
    {
      originalData, currentFeatures, currentIndex := None, [], -1;
    }

    method SetOriginalData(data: seq<Row>)
      modifies this`originalData
      ensures originalData == Some(data)
    {
      originalData := Some(data);
    }

    method AppendToOriginalData(features: seq<Row>)
      modifies this`originalData
      ensures originalData == if old(originalData).None? then None else Some(old(originalData).value + features)
    {
      if originalData.None? { return; }
      originalData := Some(originalData.value + features);
    }

    method SetCurrentFeatures(features: seq<Row>)
      modifies this`currentFeatures, this`currentIndex
      ensures currentFeatures == features && currentIndex == -1
    {
      currentFeatures, currentIndex := features, -1;
    }

    method SetCurrentIndex(index: int)
      modifies this`currentIndex
      ensures currentIndex == index
    {
      currentIndex := index;
    }
  }

  /** What a user can do between two batches: pick an item, or have the collection filtered by new values. */
  datatype Action = SelectItem(index: int) | ApplyFilters(keep: Row -> bool)

  /** `filterFeatures`, for any filter values. */
  function Filtered(rows: seq<Row>, keep: Row -> bool): seq<Row> {
    if rows == [] then []
    else Filtered(rows[..|rows| - 1], keep) + (if keep(rows[|rows| - 1]) then [rows[|rows| - 1]] else [])
  }

  /** The list holds exactly the rows of the collection that the filter keeps, ... */
  lemma {:induction false} FilteredIs(rows: seq<Row>, keep: Row -> bool, r: Row)
    ensures r in Filtered(rows, keep) <==> r in rows && keep(r)
  {
    if rows != [] {
      FilteredIs(rows[..|rows| - 1], keep, r);
      assert rows == rows[..|rows| - 1] + [rows[|rows| - 1]];
    }
  }

  /** ... in the collection's order: a row stands after what is kept of the earlier ones, if it is kept. */
  lemma {:induction false} FilteredInOrder(before: seq<Row>, r: Row, after: seq<Row>, keep: Row -> bool)
    ensures Filtered(before + [r] + after, keep)
            == Filtered(before, keep) + (if keep(r) then [r] else []) + Filtered(after, keep)
    decreases |after|
  {
    hide Filtered;
    if after == [] {
      NothingFiltered(keep);
      FilteredSnoc(before, r, keep);
      assert before + [r] + after == before + [r];
    } else {
      var n := |after| - 1;
      FilteredInOrder(before, r, after[..n], keep);
      assert before + [r] + after == before + [r] + after[..n] + [after[n]] && after == after[..n] + [after[n]];
      FilteredSnoc(before + [r] + after[..n], after[n], keep);
      FilteredSnoc(after[..n], after[n], keep);
    }
  }

  lemma NothingFiltered(keep: Row -> bool)
    ensures Filtered([], keep) == []
  {
  }

  lemma FilteredSnoc(rows: seq<Row>, r: Row, keep: Row -> bool)
    ensures Filtered(rows + [r], keep) == Filtered(rows, keep) + (if keep(r) then [r] else [])
  {
    assert (rows + [r])[..|rows|] == rows;
  }

  /** `bootstrapMapData` while it waits for batches. */
  class Bootstrap {
    const state: MapState
    var accumulated: seq<Row>
    var initialRenderDone: bool

    /** The store is a copy of what has arrived so far - nothing at all before the first batch. */
    ghost predicate Valid()
      reads this, state
    {
      && state.originalData == (if initialRenderDone then Some(accumulated) else None)
      && (!initialRenderDone ==> accumulated == [] && state.currentFeatures == [] && state.currentIndex == -1)
    }

    constructor ()
      ensures Valid() && accumulated == [] && !initialRenderDone && fresh(state)
    {
      state := new MapState();
      accumulated, initialRenderDone := [], false;
    }

    /** `applyFilters(false)`: the list shows what the filter keeps of the collection, with nothing selected. */
    method ApplyFiltersNow(keep: Row -> bool)
      modifies state`currentFeatures, state`currentIndex
      ensures if state.originalData.None?
              then state.currentFeatures == old(state.currentFeatures) && state.currentIndex == old(state.currentIndex)
              else state.currentFeatures == Filtered(state.originalData.value, keep) && state.currentIndex == -1
    {
      if state.originalData.None? { return; }
      state.SetCurrentFeatures(Filtered(state.originalData.value, keep));
    }

    method OnBatch(batch: seq<Row>, keep: Row -> bool)
      requires Valid()
      modifies this, state
      ensures Valid() && accumulated == old(accumulated) + batch && initialRenderDone
      ensures !old(initialRenderDone) ==> state.currentFeatures == Filtered(batch, keep) && state.currentIndex == -1
    {
      accumulated := accumulated + batch;
      if !initialRenderDone {
        initialRenderDone := true;
        state.SetOriginalData(accumulated);
        assert accumulated == batch;
        ApplyFiltersNow(keep);
        return;
      }
      state.AppendToOriginalData(batch);
    }

    /** Picking an item that is listed selects it; filtering lists what is kept, with nothing selected. */
    method OnAction(a: Action)
      requires Valid()
      modifies state
      ensures Valid() && state.originalData == old(state.originalData)
      ensures match a
              case SelectItem(index) =>
                && state.currentFeatures == old(state.currentFeatures)
                && state.currentIndex == (if 0 <= index < |state.currentFeatures| then index
                                          else old(state.currentIndex))
              case ApplyFilters(keep) =>
                if state.originalData.None?
                then && state.currentFeatures == old(state.currentFeatures)
                     && state.currentIndex == old(state.currentIndex)
                else state.currentFeatures == Filtered(state.originalData.value, keep) && state.currentIndex == -1
    {
      match a {
        case SelectItem(index) =>
          if index < 0 || index >= |state.currentFeatures| { return; }
          state.SetCurrentIndex(index);
        case ApplyFilters(keep) => ApplyFiltersNow(keep);
      }
    }

    /**
     After the last batch: the store holds the whole collection, whether or not the user has something
     selected; with nothing selected the list shows what the filter keeps of it, and otherwise stays.
     */
    method OnEnd(keep: Row -> bool)
      requires Valid()
      modifies state
      ensures state.originalData == Some(accumulated) && state.currentIndex == old(state.currentIndex)
      ensures state.currentFeatures == if old(state.currentIndex) == -1 then Filtered(accumulated, keep)
                                       else old(state.currentFeatures)
    {
      if state.currentIndex == -1 {
        state.SetOriginalData(accumulated);
        ApplyFiltersNow(keep);
      }
    }
  }

  /**
   A whole session: batches, and after each of them any user actions.  The store holds `None` or the
   batches so far at every step (`Valid`), and their concatenation at the end; the list then shows what the
   filter keeps of all of it, unless an item is selected.
   */
  method LoadLands(b: Bootstrap, batches: seq<seq<Row>>, actions: nat -> seq<Action>, keep: Row -> bool)
    requires b.Valid() && b.accumulated == []
    modifies b, b.state
    ensures b.state.originalData == Some(Concat(batches))
    ensures b.state.currentIndex == -1 ==> b.state.currentFeatures == Filtered(Concat(batches), keep)
  {
    for i := 0 to |batches|
      invariant b.Valid() && b.accumulated == Concat(batches[..i])
    {
      b.OnBatch(batches[i], keep);
      for j := 0 to |actions(i)|
        invariant b.Valid() && b.accumulated == Concat(batches[..i]) + batches[i]
      {
        b.OnAction(actions(i)[j]);
      }
      assert batches[..i + 1][..i] == batches[..i];
    }
    assert batches[..|batches|] == batches;
    b.OnEnd(keep);
  }

  /** The whole way: with the table at rest, the store ends up holding every mapped row, in id order. */
  method BrowseAll(t: Table, tables: seq<Table>, limit: int, actions: nat -> seq<Action>, keep: Row -> bool,
                   b: Bootstrap)
    requires Served(t) && forall i :: 0 <= i < |tables| ==> tables[i] == t
    requires |tables| > |Mapped(t.rows, 0)| / ClampLimit(limit)
    requires b.Valid() && b.accumulated == []
    modifies b, b.state
    ensures b.state.originalData == Some(Mapped(t.rows, 0))
    ensures b.state.currentIndex == -1 ==> b.state.currentFeatures == Filtered(Mapped(t.rows, 0), keep)
  {
    var batches, finished := StreamLandFeatures(tables, limit);
    PagesCompose(tables, t, ClampLimit(limit));
    LoadLands(b, batches, actions, keep);
  }
}
