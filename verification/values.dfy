/** What a cell of a result row can hold, and the ways a cursor call can fail. */
module Values {
  import opened Wrappers

  /** Java `int`. */
  type Int32 = x: int | -0x8000_0000 <= x < 0x8000_0000

  /** Java `long`. */
  type Int64 = x: int | -0x8000_0000_0000_0000 <= x < 0x8000_0000_0000_0000

  /**
   * A non-null stored value, one variant per SQL column type of the backend:
   * INT, BIGINT, REAL, DOUBLE, VARCHAR and BINARY. Floating-point values are
   * kept as their IEEE 754 bit patterns and never interpreted.
   */
  datatype Value =
    | IntValue(int32: Int32)
    | LongValue(int64: Int64)
    | FloatValue(float32: bv32)
    | DoubleValue(float64: bv64)
    | TextValue(text: string)
    | BlobValue(bytes: seq<bv8>)

  /** One result row: a cell per column, `None` where the stored value is SQL NULL. */
  type Row = seq<Option<Value>>

  /** A result set as the backend reports it: its column names and its rows. */
  datatype ResultSet = ResultSet(columns: seq<string>, rows: seq<Row>)
  {
    /** Every row has exactly one cell per column. */
    predicate WellFormed()
    {
      forall i :: 0 <= i < |rows| ==> |rows[i]| == |columns|
    }
  }

  /** The failures of the cursor contract. */
  datatype CursorError =
    | Closed                       // operation on a closed cursor
    | NotOnRow                     // a read while before the first or after the last row
    | IndexOutOfRange(index: int)  // a read at a column index the row does not have
    | Conversion(column: int)      // the stored value has no value of the requested type
    | NameNotFound(name: string)   // getColumnIndexOrThrow with an unknown name
}
