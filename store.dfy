/**
 * The `stock_positions` table and the two statements the watcher runs on it:
 * `INSERT OR REPLACE`, which writes a whole row, and the `UPDATE` that records
 * a company's old and new position.
 */
module Store {
  import opened Wrappers
  import opened Records
  import PyDict

  /** The row `INSERT OR REPLACE` writes: the snapshot's values, `gem` as an
      integer, and NULL in the columns the statement does not name. */
  function FreshRow(e: Entry): Row {
    Row(e.position, e.down52High, e.percentDownHigh, e.companyUrl,
        if e.gem then 1 else 0, None, None)
  }

  /** The row the `UPDATE` leaves: the new values, `old_position` read from
      the row being updated, `new_position` the new position. */
  function UpdatedRow(row: Row, e: Entry): Row {
    Row(e.position, e.down52High, e.percentDownHigh, e.companyUrl,
        if e.gem then 1 else 0, Some(row.position), Some(e.position))
  }

  /** The table after `UPDATE ... WHERE company_name = name`. */
  function UpdateRow(rows: map<string, Row>, name: string, e: Entry): (r: map<string, Row>)
    ensures r.Keys == rows.Keys
    ensures forall n | n in rows && n != name :: r[n] == rows[n]
    ensures name in rows ==>
      && r[name].position == e.position
      && r[name].newPosition == Some(e.position)
      && r[name].oldPosition == Some(rows[name].position)
      && r[name].down52High == e.down52High
      && r[name].percentDownHigh == e.percentDownHigh
      && r[name].companyUrl == e.companyUrl
      && (r[name].gem == 1 <==> e.gem)
  {
    if name in rows then rows[name := UpdatedRow(rows[name], e)] else rows
  }

  /** The SQLite table, keyed by company name. */
  class Table {
    var rows: map<string, Row>

    constructor ()
      ensures rows == map[]
    {
      rows := map[];
    }

    /** `INSERT OR REPLACE INTO stock_positions (...) VALUES (...)` */
    method InsertOrReplace(name: string, e: Entry)
      modifies this
      ensures rows == old(rows)[name := FreshRow(e)]
    {
      rows := rows[name := FreshRow(e)];
    }

    /** `UPDATE stock_positions SET ..., old_position = (SELECT position ...),
        new_position = ? WHERE company_name = ?`; no row, no change. */
    method UpdatePositions(name: string, e: Entry)
      modifies this
      ensures rows == UpdateRow(old(rows), name, e)
    {
      if name in rows {
        var pre := rows[name].position;
        rows := rows[name := UpdatedRow(rows[name], e)];
        assert rows[name].oldPosition == Some(pre);
      }
    }
  }

  /** The table after the builder's loop has upserted `names` (in order)
      from `snap`. */
  function UpsertAll(rows: map<string, Row>, snap: Snapshot, names: seq<string>): map<string, Row>
    requires forall i | 0 <= i < |names| :: names[i] in snap.vals
  {
    if |names| == 0 then rows
    else
      var n := names[|names| - 1];
      UpsertAll(rows, snap, names[..|names| - 1])[n := FreshRow(snap.vals[n])]
  }

  /** One more upsert, for the name at index `i`. */
  lemma UpsertAllStep(rows: map<string, Row>, snap: Snapshot, names: seq<string>, i: nat)
    requires forall j | 0 <= j < |names| :: names[j] in snap.vals
    requires i < |names|
    ensures UpsertAll(rows, snap, names[..i + 1]) == UpsertAll(rows, snap, names[..i])[names[i] := FreshRow(snap.vals[names[i]])]
  {
    PrefixOfPrefix(names, i);
  }

  /** After the upserts every listed name holds the snapshot's values with
      `old_position` and `new_position` cleared; every other row is as before. */
  lemma {:induction false} UpsertAllEffect(rows: map<string, Row>, snap: Snapshot, names: seq<string>)
    requires forall i | 0 <= i < |names| :: names[i] in snap.vals
    ensures forall n :: n in UpsertAll(rows, snap, names) <==> n in rows || n in names
    ensures forall n | n in names :: UpsertAll(rows, snap, names)[n] == FreshRow(snap.vals[n])
    ensures forall n | n in rows && n !in names :: UpsertAll(rows, snap, names)[n] == rows[n]
  {
    if |names| > 0 {
      var init := names[..|names| - 1];
      UpsertAllEffect(rows, snap, init);
      assert forall n :: n in names <==> n in init || n == names[|names| - 1];
    }
  }

  /** Upserting a whole snapshot in its key order: every company it holds
      gets a fresh row with its values, every other row is as before. */
  lemma UpsertSnapshot(rows: map<string, Row>, snap: Snapshot)
    requires PyDict.Valid(snap)
    ensures UpsertAll(rows, snap, snap.keys).Keys == rows.Keys + snap.vals.Keys
    ensures forall n | n in snap.vals :: UpsertAll(rows, snap, snap.keys)[n] == FreshRow(snap.vals[n])
    ensures forall n | n in rows && n !in snap.vals :: UpsertAll(rows, snap, snap.keys)[n] == rows[n]
  {
    UpsertAllEffect(rows, snap, snap.keys);
  }

  /** Running the same upserts twice leaves the table as running them once. */
  lemma UpsertAllIdempotent(rows: map<string, Row>, snap: Snapshot, names: seq<string>)
    requires forall i | 0 <= i < |names| :: names[i] in snap.vals
    ensures UpsertAll(UpsertAll(rows, snap, names), snap, names) == UpsertAll(rows, snap, names)
  {
    var once := UpsertAll(rows, snap, names);
    UpsertAllEffect(rows, snap, names);
    UpsertAllEffect(once, snap, names);
  }
}
