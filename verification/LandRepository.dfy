/**
 The `poi` table (app/repositories/land_repository.py).

 Rows are kept in id order, which for an AUTOINCREMENT key is also insertion order.  `nextId` is
 the key the next INSERT receives; it never goes back, not even when every row is deleted.
 */
module LandRepository {
  import opened Common

  datatype Row = Row(id: nat, address: string, geom: Option<string>)

  datatype NewRow = NewRow(address: string, geom: Option<string>)

  datatype Table = Table(rows: seq<Row>, nextId: nat)

  ghost predicate Ordered(rows: seq<Row>) {
    forall i, j :: 0 <= i < j < |rows| ==> rows[i].id < rows[j].id
  }

  ghost predicate ValidTable(t: Table) {
    && 1 <= t.nextId
    && Ordered(t.rows)
    && forall r :: r in t.rows ==> 1 <= r.id < t.nextId
  }

  // ---------- the queries ----------

  /** `SELECT ... WHERE geom IS [NOT] NULL AND id > afterId ORDER BY id`. */
  function Select(rows: seq<Row>, mapped: bool, afterId: nat): seq<Row> {
    if rows == [] then []
    else if rows[0].geom.Some? == mapped && rows[0].id > afterId then [rows[0]] + Select(rows[1..], mapped, afterId)
    else Select(rows[1..], mapped, afterId)
  }

  /** Rows without a boundary whose id is above `afterId`. */
  function Missing(rows: seq<Row>, afterId: nat): seq<Row> { Select(rows, false, afterId) }

  /** Rows with a boundary whose id is above `afterId`. */
  function Mapped(rows: seq<Row>, afterId: nat): seq<Row> { Select(rows, true, afterId) }

  function CountMissing(rows: seq<Row>): nat {
    if rows == [] then 0 else (if rows[0].geom.None? then 1 else 0) + CountMissing(rows[1..])
  }

  /** The dictionary of `fetch_geom_by_address`: of two rows with one address, the later one wins. */
  function KnownGeoms(rows: seq<Row>): map<string, string> {
    if rows == [] then map[]
    else
      var last := rows[|rows| - 1];
      var known := KnownGeoms(rows[..|rows| - 1]);
      if last.geom.Some? then known[last.address := last.geom.value] else known
  }

  // ---------- the statements ----------

  function SetGeom(rows: seq<Row>, id: nat, geom: string): (r: seq<Row>)
    ensures |r| == |rows|
    ensures forall i :: 0 <= i < |rows| ==>
              r[i] == if rows[i].id == id then rows[i].(geom := Some(geom)) else rows[i]
  {
    seq(|rows|, i requires 0 <= i < |rows| =>
      if rows[i].id == id then rows[i].(geom := Some(geom)) else rows[i])
  }

  function Insert(t: Table, n: NewRow): Table {
    Table(t.rows + [Row(t.nextId, n.address, n.geom)], t.nextId + 1)
  }

  function InsertAll(t: Table, ns: seq<NewRow>): Table {
    if ns == [] then t else Insert(InsertAll(t, ns[..|ns| - 1]), ns[|ns| - 1])
  }

  function DeleteAll(t: Table): Table { t.(rows := []) }

  /** The table object that the services share. */
  class PoiTable {
    var rows: seq<Row>
    var nextId: nat

    function Contents(): Table
      reads this
    {
      Table(rows, nextId)
    }

    ghost predicate Valid()
      reads this
    {
      ValidTable(Contents())
    }

    constructor ()
      ensures Valid() && Contents() == Table([], 1)
    {
      rows, nextId := [], 1;
    }

    method FetchMissingGeom(limit: nat, afterId: nat) returns (batch: seq<Row>)
      ensures batch == Take(Missing(rows, afterId), limit)
    {
      batch := [];
      var i := 0;
      while i < |rows| && |batch| < limit
        invariant 0 <= i <= |rows|
        invariant |batch| <= limit
        invariant Missing(rows, afterId) == batch + Missing(rows[i..], afterId)
      {
        assert rows[i..][1..] == rows[i + 1..];
        if rows[i].geom.None? && rows[i].id > afterId {
          batch := batch + [rows[i]];
        }
        i := i + 1;
      }
    }

    method FetchLandsWithGeomPage(limit: nat, afterId: Option<nat>) returns (page: seq<Row>)
      requires Valid()
      ensures page == Take(Mapped(rows, if afterId.Some? then afterId.value else 0), limit)
    {
      page := [];
      var i := 0;
      ghost var after := if afterId.Some? then afterId.value else 0;
      while i < |rows| && |page| < limit
        invariant 0 <= i <= |rows|
        invariant |page| <= limit
        invariant Mapped(rows, after) == page + Mapped(rows[i..], after)
      {
        assert rows[i] in rows && 1 <= rows[i].id;
        SelectStep(rows, true, i, after, page);
        if rows[i].geom.Some? && (afterId.None? || rows[i].id > afterId.value) {
          page := page + [rows[i]];
        }
        i := i + 1;
      }
    }

    method FetchGeomByAddress() returns (known: map<string, string>)
      ensures known == KnownGeoms(rows)
    {
      known := map[];
      for i := 0 to |rows|
        invariant known == KnownGeoms(rows[..i])
      {
        assert rows[..i + 1][..i] == rows[..i];
        if rows[i].geom.Some? {
          known := known[rows[i].address := rows[i].geom.value];
        }
      }
      assert rows[..|rows|] == rows;
    }

    method CountMissingGeom() returns (n: nat)
      ensures n == CountMissing(rows)
    {
      n := 0;
      for i := 0 to |rows|
        invariant n + CountMissing(rows[i..]) == CountMissing(rows)
      {
        assert rows[i..][1..] == rows[i + 1..];
        if rows[i].geom.None? { n := n + 1; }
      }
    }

    method UpdateGeom(id: nat, geom: string)
      requires Valid()
      modifies this
      ensures Valid() && Contents() == Table(SetGeom(old(rows), id, geom), old(nextId))
    {
      rows := SetGeom(rows, id, geom);
      assert forall i :: 0 <= i < |rows| ==> rows[i].id == old(rows)[i].id && old(rows)[i] in old(rows);
    }

    method InsertLand(n: NewRow)
      requires Valid()
      modifies this
      ensures Valid() && Contents() == Insert(old(Contents()), n)
    {
      InsertKeepsValid(Contents(), n);
      rows, nextId := rows + [Row(nextId, n.address, n.geom)], nextId + 1;
    }

    method DeleteAllRows()
      requires Valid()
      modifies this
      ensures Valid() && Contents() == DeleteAll(old(Contents()))
    {
      rows := [];
    }
  }

  // ---------- facts about the statements ----------

  lemma InsertKeepsValid(t: Table, n: NewRow)
    requires ValidTable(t)
    ensures ValidTable(Insert(t, n))
  {
  }

  /** The inserted rows follow the old ones, in order, with consecutive fresh keys. */
  lemma {:induction false} InsertAllShape(t: Table, ns: seq<NewRow>)
    requires ValidTable(t)
    ensures ValidTable(InsertAll(t, ns))
    ensures InsertAll(t, ns).nextId == t.nextId + |ns|
    ensures |InsertAll(t, ns).rows| == |t.rows| + |ns|
    ensures InsertAll(t, ns).rows[..|t.rows|] == t.rows
    ensures forall i :: 0 <= i < |ns| ==>
              InsertAll(t, ns).rows[|t.rows| + i] == Row(t.nextId + i, ns[i].address, ns[i].geom)
  {
    if ns != [] {
      InsertAllShape(t, ns[..|ns| - 1]);
      InsertKeepsValid(InsertAll(t, ns[..|ns| - 1]), ns[|ns| - 1]);
    }
  }

  /** The same for one row. */
  lemma InsertedRow(t: Table, ns: seq<NewRow>, i: nat)
    requires ValidTable(t) && i < |ns|
    ensures |t.rows| + i < |InsertAll(t, ns).rows|
    ensures InsertAll(t, ns).rows[|t.rows| + i] == Row(t.nextId + i, ns[i].address, ns[i].geom)
  {
    InsertAllShape(t, ns);
  }

  lemma SetGeomKeepsValid(t: Table, id: nat, geom: string)
    requires ValidTable(t)
    ensures ValidTable(t.(rows := SetGeom(t.rows, id, geom)))
  {
  }

  /** Giving a row its first boundary leaves one row fewer without. */
  lemma {:induction false} SetGeomFillsOne(rows: seq<Row>, k: nat, geom: string)
    requires Ordered(rows) && k < |rows| && rows[k].geom.None?
    ensures CountMissing(rows) == CountMissing(SetGeom(rows, rows[k].id, geom)) + 1
  {
    var set' := SetGeom(rows, rows[k].id, geom);
    if k == 0 {
      assert set'[1..] == rows[1..];
    } else {
      SetGeomFillsOne(rows[1..], k - 1, geom);
      assert set'[1..] == SetGeom(rows[1..], rows[k].id, geom);
    }
  }

  // ---------- facts about the queries ----------

  lemma SelectStep(rows: seq<Row>, mapped: bool, i: nat, afterId: nat, sofar: seq<Row>)
    requires i < |rows|
    ensures sofar + Select(rows[i..], mapped, afterId)
            == sofar + (if rows[i].geom.Some? == mapped && rows[i].id > afterId then [rows[i]] else [])
               + Select(rows[i + 1..], mapped, afterId)
  {
  }

  /** The query returns exactly the rows it describes ... */
  lemma {:induction false} SelectIsExact(rows: seq<Row>, mapped: bool, afterId: nat)
    ensures forall r :: r in Select(rows, mapped, afterId) <==> r in rows && r.geom.Some? == mapped && r.id > afterId
  {
    if rows != [] {
      SelectIsExact(rows[1..], mapped, afterId);
      assert rows == [rows[0]] + rows[1..];
    }
  }

  /** ... in increasing id order. */
  lemma {:induction false} SelectIsOrdered(rows: seq<Row>, mapped: bool, afterId: nat)
    requires Ordered(rows)
    ensures Ordered(Select(rows, mapped, afterId))
  {
    if rows != [] {
      SelectIsOrdered(rows[1..], mapped, afterId);
      SelectIsExact(rows[1..], mapped, afterId);
      var rest := Select(rows[1..], mapped, afterId);
      forall j | 0 <= j < |rest| ensures rows[0].id < rest[j].id {
        assert rest[j] in rows[1..];
      }
    }
  }

  /** Moving the key past the first `k` results drops exactly those results (keyset paging). */
  lemma {:induction false} SelectResumes(rows: seq<Row>, mapped: bool, afterId: nat, k: nat)
    requires Ordered(rows)
    requires 0 < k <= |Select(rows, mapped, afterId)|
    ensures Select(rows, mapped, Select(rows, mapped, afterId)[k - 1].id) == Select(rows, mapped, afterId)[k..]
  {
    var rest := Select(rows[1..], mapped, afterId);
    if rows[0].geom.Some? == mapped && rows[0].id > afterId {
      if k == 1 {
        SelectAboveSame(rows[1..], mapped, afterId, rows[0].id);
      } else {
        SelectResumes(rows[1..], mapped, afterId, k - 1);
        SelectedIsLater(rows, mapped, afterId, k - 2);
        assert ([rows[0]] + rest)[k..] == rest[k - 1..];
      }
    } else {
      SelectResumes(rows[1..], mapped, afterId, k);
      SelectedIsLater(rows, mapped, afterId, k - 1);
    }
  }

  /** What is selected from the rows after the first has a larger id than the first. */
  lemma SelectedIsLater(rows: seq<Row>, mapped: bool, afterId: nat, k: nat)
    requires Ordered(rows) && rows != [] && k < |Select(rows[1..], mapped, afterId)|
    ensures rows[0].id < Select(rows[1..], mapped, afterId)[k].id
  {
    SelectIsExact(rows[1..], mapped, afterId);
    assert Select(rows[1..], mapped, afterId)[k] in rows[1..];
  }

  lemma {:induction false} SelectAboveSame(rows: seq<Row>, mapped: bool, a: nat, b: nat)
    requires a <= b
    requires forall r :: r in rows ==> r.id > b
    ensures Select(rows, mapped, a) == Select(rows, mapped, b)
  {
    if rows != [] {
      assert rows[0] in rows;
      SelectAboveSame(rows[1..], mapped, a, b);
    }
  }

  lemma {:induction false} CountIsLength(rows: seq<Row>)
    requires forall r :: r in rows ==> 1 <= r.id
    ensures CountMissing(rows) == |Missing(rows, 0)|
  {
    if rows != [] {
      assert rows[0] in rows;
      CountIsLength(rows[1..]);
    }
  }

  /** Of several rows with one address, the last that has a boundary is the one remembered. */
  lemma {:induction false} LastGeomIsKnown(rows: seq<Row>, i: nat)
    requires i < |rows| && rows[i].geom.Some?
    requires forall j :: i < j < |rows| && rows[j].address == rows[i].address ==> rows[j].geom.None?
    ensures rows[i].address in KnownGeoms(rows) && KnownGeoms(rows)[rows[i].address] == rows[i].geom.value
  {
    if i < |rows| - 1 { LastGeomIsKnown(rows[..|rows| - 1], i); }
  }

  /** An address is in the dictionary iff some row holds a boundary for it, and the value is one of them. */
  lemma {:induction false} KnownGeomsIsExact(rows: seq<Row>)
    ensures forall a :: a in KnownGeoms(rows) <==> exists r :: r in rows && r.address == a && r.geom.Some?
    ensures forall a :: a in KnownGeoms(rows) ==> HasGeom(rows, a, KnownGeoms(rows)[a])
  {
    if rows != [] {
      var n := |rows| - 1;
      KnownGeomsIsExact(rows[..n]);
      assert rows == rows[..n] + [rows[n]];
      var init, all := KnownGeoms(rows[..n]), KnownGeoms(rows);
      forall a | a in all ensures HasGeom(rows, a, all[a]) {
        if rows[n].geom.Some? && rows[n].address == a {
          assert rows[n] in rows;
        } else {
          assert HasGeom(rows[..n], a, init[a]);
          var r :| r in rows[..n] && r.address == a && r.geom == Some(init[a]);
          assert r in rows;
        }
      }
      forall a | exists r :: r in rows && r.address == a && r.geom.Some? ensures a in all {
        var r :| r in rows && r.address == a && r.geom.Some?;
        if r in rows[..n] { assert a in init; }
      }
    }
  }

  ghost predicate HasGeom(rows: seq<Row>, address: string, geom: string) {
    exists r :: r in rows && r.address == address && r.geom == Some(geom)
  }
}
