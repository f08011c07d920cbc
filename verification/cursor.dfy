/**
 * The cursor adapter: the platform's cursor contract over a result set
 * attached once. The column catalog is fixed at attach time; navigation
 * and the closed flag are the only state that changes.
 */
module Cursors {
  import opened Wrappers
  import opened Values
  import opened Navigation
  import Catalog
  import Access

  class Cursor {
    /** The attached result set: column names in the backend's case, and the rows. */
    const source: ResultSet
    var pos: Position
    var closed: bool

    ghost predicate Valid()
      reads this
    {
      State().Valid()
    }

    /** The state every read is specified against. */
    function State(): Access.CursorState
      reads this
    {
      Access.CursorState(source, pos, closed)
    }

    /** Attaches a result set; the cursor starts open, before its first row. */
    constructor (rs: ResultSet)
      requires rs.WellFormed()
      ensures Valid()
      ensures source == rs && pos == BeforeFirst && !closed
    {
      source := rs;
      pos := BeforeFirst;
      closed := false;
    }

    /** getColumnNames: the attached column names, in order and as the backend spells them, with or without rows. */
    method GetColumnNames() returns (names: seq<string>)
      ensures names == source.columns
    {
      names := source.columns;
    }

    /** getColumnIndex: the first column answering to `name` in any case, or -1. */
    method GetColumnIndex(name: string) returns (index: int)
      ensures index == Catalog.ColumnIndex(source.columns, name)
    {
      index := Catalog.ColumnIndex(source.columns, name);
    }

    /** getColumnIndexOrThrow: the same index, or a NameNotFound failure carrying the name. */
    method GetColumnIndexOrThrow(name: string) returns (r: Result<nat, CursorError>)
      ensures r.Ok? <==> Catalog.ColumnIndex(source.columns, name) != -1
      ensures r.Ok? ==> r.value == Catalog.ColumnIndex(source.columns, name)
      ensures r.Err? ==> r.error == NameNotFound(name)
    {
      Catalog.OrThrowAgreesWithIndex(source.columns, name);
      r := Catalog.ColumnIndexOrThrow(source.columns, name);
    }

    /**
     * moveToFirst: true, standing on row 0, when there are rows; false, past
     * the end, on an empty result. A closed cursor fails and does not move.
     */
    method MoveToFirst() returns (r: Result<bool, CursorError>)
      requires Valid()
      modifies this
      ensures Valid() && closed == old(closed)
      ensures old(closed) ==> r == Err(Closed) && pos == old(pos)
      ensures !old(closed) ==> pos == First(|source.rows|)
      ensures !old(closed) ==> r == Ok(|source.rows| > 0)
      ensures r == Ok(true) ==> pos == OnRow(0)
    {
      if closed {
        r := Err(Closed);
      } else {
        pos := First(|source.rows|);
        r := Ok(pos.OnRow?);
      }
    }

    /**
     * moveToNext: one row forward; true exactly when the cursor lands on a
     * row. A closed cursor fails and does not move.
     */
    method MoveToNext() returns (r: Result<bool, CursorError>)
      requires Valid()
      modifies this
      ensures Valid() && closed == old(closed)
      ensures old(closed) ==> r == Err(Closed) && pos == old(pos)
      ensures !old(closed) ==> pos == Next(old(pos), |source.rows|)
      ensures !old(closed) ==> r == Ok(pos.OnRow?)
    {
      if closed {
        r := Err(Closed);
      } else {
        pos := Next(pos, |source.rows|);
        r := Ok(pos.OnRow?);
      }
    }

    /** getPosition: the current row's index; -1 before the first row, the row count after the last. */
    method GetPosition() returns (p: int)
      requires Valid()
      ensures -1 <= p <= |source.rows|
      ensures pos.OnRow? <==> 0 <= p < |source.rows|
      ensures pos.OnRow? ==> p == pos.row
      ensures pos == BeforeFirst <==> p == -1
    {
      p := Index(pos, |source.rows|);
    }

    /** isNull: whether the current row's value at `index` is absent; an index past the last column is null. */
    method IsNull(index: int) returns (r: Result<bool, CursorError>)
      requires Valid()
      ensures r == Access.IsNull(State(), index)
    {
      r := Access.IsNull(State(), index);
    }

    /** getInt: the current row's value at `index` as a Java int (SQL NULL reads as 0). */
    method GetInt(index: int) returns (r: Result<Int32, CursorError>)
      requires Valid()
      ensures r == Access.GetInt(State(), index)
    {
      r := Access.GetInt(State(), index);
    }

    /** getLong: the current row's value at `index` as a Java long (SQL NULL reads as 0). */
    method GetLong(index: int) returns (r: Result<Int64, CursorError>)
      requires Valid()
      ensures r == Access.GetLong(State(), index)
    {
      r := Access.GetLong(State(), index);
    }

    /** getFloat: the bits of the current row's REAL value at `index`. */
    method GetFloat(index: int) returns (r: Result<bv32, CursorError>)
      requires Valid()
      ensures r == Access.GetFloat(State(), index)
    {
      r := Access.GetFloat(State(), index);
    }

    /** getDouble: the bits of the current row's DOUBLE value at `index`. */
    method GetDouble(index: int) returns (r: Result<bv64, CursorError>)
      requires Valid()
      ensures r == Access.GetDouble(State(), index)
    {
      r := Access.GetDouble(State(), index);
    }

    /** getString: the current row's text at `index`, unchanged (null for SQL NULL). */
    method GetString(index: int) returns (r: Result<Option<string>, CursorError>)
      requires Valid()
      ensures r == Access.GetString(State(), index)
    {
      r := Access.GetString(State(), index);
    }

    /** getBlob: the current row's bytes at `index`, unchanged (null for SQL NULL). */
    method GetBlob(index: int) returns (r: Result<Option<seq<bv8>>, CursorError>)
      requires Valid()
      ensures r == Access.GetBlob(State(), index)
    {
      r := Access.GetBlob(State(), index);
    }

    /** close: marks the cursor closed; closing again changes nothing. The position is kept. */
    method Close()
      requires Valid()
      modifies this
      ensures Valid() && closed && pos == old(pos)
    {
      closed := true;
    }

    /** isClosed: whether close has run. */
    method IsClosed() returns (b: bool)
      ensures b == closed
    {
      b := closed;
    }
  }
}
