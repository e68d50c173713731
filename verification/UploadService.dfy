/** Replacing the table from an uploaded sheet (`_replace_land_data` in app/services/upload_service.py). */
module UploadService {
  import opened Common
  import opened LandRepository

  function Remembered(known: map<string, string>, address: string): NewRow {
    NewRow(address, if address in known then Some(known[address]) else None)
  }

  function NewRows(known: map<string, string>, addresses: seq<string>): (r: seq<NewRow>)
    ensures |r| == |addresses|
    ensures forall i :: 0 <= i < |r| ==> r[i] == Remembered(known, addresses[i])
  {
    seq(|addresses|, i requires 0 <= i < |addresses| => Remembered(known, addresses[i]))
  }

  /** The write transaction: every row deleted, the sheet's rows inserted with the boundaries read before. */
  function Replace(t: Table, known: map<string, string>, addresses: seq<string>): Table {
    InsertAll(DeleteAll(t), NewRows(known, addresses))
  }

  function CountUnknown(known: map<string, string>, addresses: seq<string>): nat {
    if addresses == [] then 0
    else (if addresses[0] in known then 0 else 1) + CountUnknown(known, addresses[1..])
  }

  /** An upload that nothing interrupts between its read and its write. */
  method ReplaceLandData(t: PoiTable, addresses: seq<string>)
    requires t.Valid()
    modifies t
    ensures t.Valid() && t.Contents() == Replace(old(t.Contents()), KnownGeoms(old(t.rows)), addresses)
  {
    var known := t.FetchGeomByAddress();
    t.DeleteAllRows();
    ghost var empty := t.Contents();
    ghost var all := NewRows(known, addresses);
    for i := 0 to |addresses|
      invariant t.Valid() && t.Contents() == InsertAll(empty, all[..i])
    {
      assert all[..i + 1][..i] == all[..i];
      t.InsertLand(Remembered(known, addresses[i]));
    }
    assert all[..|addresses|] == all;
  }

  /** The new table, row by row: fresh consecutive ids, the sheet's addresses, the remembered boundaries. */
  lemma ReplaceShape(t: Table, known: map<string, string>, addresses: seq<string>)
    requires ValidTable(t)
    ensures var u := Replace(t, known, addresses);
            && ValidTable(u)
            && u.nextId == t.nextId + |addresses|
            && |u.rows| == |addresses|
            && forall i :: 0 <= i < |addresses| ==>
                 u.rows[i] == Row(t.nextId + i, addresses[i], Remembered(known, addresses[i]).geom)
  {
    InsertAllShape(DeleteAll(t), NewRows(known, addresses));
    forall i | 0 <= i < |addresses|
      ensures Replace(t, known, addresses).rows[i]
              == Row(t.nextId + i, addresses[i], Remembered(known, addresses[i]).geom)
    {
      ReplaceRow(t, known, addresses, i);
    }
  }

  lemma ReplaceRow(t: Table, known: map<string, string>, addresses: seq<string>, i: nat)
    requires ValidTable(t) && i < |addresses|
    ensures i < |Replace(t, known, addresses).rows|
    ensures Replace(t, known, addresses).rows[i]
            == Row(t.nextId + i, addresses[i], Remembered(known, addresses[i]).geom)
  {
    hide InsertAll;
    InsertedRow(DeleteAll(t), NewRows(known, addresses), i);
  }

  /** The rows left to the back-fill are exactly those whose address had no boundary when it was read. */
  lemma ReplaceMissing(t: Table, known: map<string, string>, addresses: seq<string>)
    requires ValidTable(t)
    ensures CountMissing(Replace(t, known, addresses).rows) == CountUnknown(known, addresses)
  {
    ReplaceShape(t, known, addresses);
    CountsAgree(Replace(t, known, addresses).rows, known, addresses);
  }

  lemma {:induction false} CountsAgree(rows: seq<Row>, known: map<string, string>, addresses: seq<string>)
    requires |rows| == |addresses|
    requires forall i :: 0 <= i < |rows| ==> (rows[i].geom.None? <==> addresses[i] !in known)
    ensures CountMissing(rows) == CountUnknown(known, addresses)
  {
    if rows != [] { CountsAgree(rows[1..], known, addresses[1..]); }
  }
}
