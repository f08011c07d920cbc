/**
 * Reading the current row: null probing and the typed getters, as
 * functions of the cursor's state. A read needs an open cursor standing on
 * a row; `isNull` treats a column index past the last column as null, while
 * the typed getters fail on it.
 */
module Access {
  import opened Wrappers
  import opened Values
  import opened Navigation

  /** Everything a read depends on: the attached result set, the position and the closed flag. */
  datatype CursorState = CursorState(source: ResultSet, pos: Position, closed: bool)
  {
    predicate Valid()
    {
      source.WellFormed() && InRange(pos, |source.rows|)
    }

    /** The column count, fixed when the result set is attached. */
    function Width(): nat
    {
      |source.columns|
    }
  }

  /** The row the cursor stands on, or why there is none (a closed cursor first). */
  function CurrentRow(s: CursorState): (r: Result<Row, CursorError>)
    requires s.Valid()
    ensures r.Ok? <==> !s.closed && s.pos.OnRow?
    ensures s.closed ==> r == Err(Closed)
    ensures !s.closed && !s.pos.OnRow? ==> r == Err(NotOnRow)
    ensures r.Ok? ==> r.value == s.source.rows[s.pos.row] && |r.value| == s.Width()
  {
    if s.closed then Err(Closed)
    else if !s.pos.OnRow? then Err(NotOnRow)
    else Ok(s.source.rows[s.pos.row])
  }

  /**
   * isNull: whether the current row's value at `index` is absent. An index
   * at or past the column count is reported as null, not as an error.
   */
  function IsNull(s: CursorState, index: int): (r: Result<bool, CursorError>)
    requires s.Valid()
    ensures r.Ok? <==> !s.closed && s.pos.OnRow? && 0 <= index
    ensures s.closed ==> r == Err(Closed)
    ensures !s.closed && !s.pos.OnRow? ==> r == Err(NotOnRow)
    ensures !s.closed && s.pos.OnRow? && index < 0 ==> r == Err(IndexOutOfRange(index))
    ensures r.Ok? && index >= s.Width() ==> r.value
    ensures r.Ok? && index < s.Width() ==> (r.value <==> s.source.rows[s.pos.row][index].None?)
  {
    match CurrentRow(s)
    case Err(e) => Err(e)
    case Ok(row) =>
      if index < 0 then Err(IndexOutOfRange(index))
      else if index >= |row| then Ok(true)
      else Ok(row[index].None?)
  }

  /** The stored cell a typed getter reads: it exists only for an open cursor on a row and a real column. */
  function Cell(s: CursorState, index: int): (r: Result<Option<Value>, CursorError>)
    requires s.Valid()
    ensures r.Ok? <==> !s.closed && s.pos.OnRow? && 0 <= index < s.Width()
    ensures s.closed ==> r == Err(Closed)
    ensures !s.closed && !s.pos.OnRow? ==> r == Err(NotOnRow)
    ensures !s.closed && s.pos.OnRow? && r.Err? ==> r == Err(IndexOutOfRange(index))
    ensures r.Ok? ==> r.value == s.source.rows[s.pos.row][index]
  {
    match CurrentRow(s)
    case Err(e) => Err(e)
    case Ok(row) =>
      if 0 <= index < |row| then Ok(row[index]) else Err(IndexOutOfRange(index))
  }

  /** The integer a stored value holds, for the two integer column types. */
  function IntegerOf(v: Value): Option<int>
  {
    match v
    case IntValue(x) => Some(x)
    case LongValue(x) => Some(x)
    case _ => None
  }

  /**
   * getInt of a cell: SQL NULL reads as 0; an INT or BIGINT value reads as
   * its integer when that fits in a Java int; anything else fails.
   */
  function IntOf(cell: Option<Value>, column: int): (r: Result<Int32, CursorError>)
    ensures cell.None? ==> r == Ok(0)
    ensures r.Ok? && cell.Some? ==> IntegerOf(cell.value) == Some(r.value)
    ensures cell.Some? ==>
              (r.Ok? <==> IntegerOf(cell.value).Some? &&
                          -0x8000_0000 <= IntegerOf(cell.value).value < 0x8000_0000)
    ensures r.Err? ==> r.error == Conversion(column)
  {
    match cell
    case None => Ok(0)
    case Some(IntValue(x)) => Ok(x)
    case Some(LongValue(x)) =>
      if -0x8000_0000 <= x < 0x8000_0000 then Ok(x) else Err(Conversion(column))
    case Some(_) => Err(Conversion(column))
  }

  /** getLong of a cell: SQL NULL reads as 0; an INT or BIGINT value reads as its integer; anything else fails. */
  function LongOf(cell: Option<Value>, column: int): (r: Result<Int64, CursorError>)
    ensures cell.None? ==> r == Ok(0)
    ensures r.Ok? && cell.Some? ==> IntegerOf(cell.value) == Some(r.value)
    ensures cell.Some? ==> (r.Ok? <==> IntegerOf(cell.value).Some?)
    ensures r.Err? ==> r.error == Conversion(column)
  {
    match cell
    case None => Ok(0)
    case Some(IntValue(x)) => Ok(x)
    case Some(LongValue(x)) => Ok(x)
    case Some(_) => Err(Conversion(column))
  }

  /** getFloat of a cell: SQL NULL reads as +0.0; a REAL value reads as its unchanged bits; anything else fails. */
  function FloatOf(cell: Option<Value>, column: int): (r: Result<bv32, CursorError>)
    ensures cell.None? ==> r == Ok(0)
    ensures cell.Some? ==> (r.Ok? <==> cell.value.FloatValue?)
    ensures r.Ok? && cell.Some? ==> r.value == cell.value.float32
    ensures r.Err? ==> r.error == Conversion(column)
  {
    match cell
    case None => Ok(0)
    case Some(FloatValue(b)) => Ok(b)
    case Some(_) => Err(Conversion(column))
  }

  /** getDouble of a cell: SQL NULL reads as +0.0; a DOUBLE value reads as its unchanged bits; anything else fails. */
  function DoubleOf(cell: Option<Value>, column: int): (r: Result<bv64, CursorError>)
    ensures cell.None? ==> r == Ok(0)
    ensures cell.Some? ==> (r.Ok? <==> cell.value.DoubleValue?)
    ensures r.Ok? && cell.Some? ==> r.value == cell.value.float64
    ensures r.Err? ==> r.error == Conversion(column)
  {
    match cell
    case None => Ok(0)
    case Some(DoubleValue(b)) => Ok(b)
    case Some(_) => Err(Conversion(column))
  }

  /** getString of a cell: SQL NULL reads as null; a VARCHAR value reads as its text unchanged; anything else fails. */
  function StringOf(cell: Option<Value>, column: int): (r: Result<Option<string>, CursorError>)
    ensures cell.None? ==> r == Ok(None)
    ensures cell.Some? ==> (r.Ok? <==> cell.value.TextValue?)
    ensures r.Ok? && cell.Some? ==> r.value == Some(cell.value.text)
    ensures r.Err? ==> r.error == Conversion(column)
  {
    match cell
    case None => Ok(None)
    case Some(TextValue(t)) => Ok(Some(t))
    case Some(_) => Err(Conversion(column))
  }

  /** getBlob of a cell: SQL NULL reads as null; a BINARY value reads as its bytes unchanged; anything else fails. */
  function BlobOf(cell: Option<Value>, column: int): (r: Result<Option<seq<bv8>>, CursorError>)
    ensures cell.None? ==> r == Ok(None)
    ensures cell.Some? ==> (r.Ok? <==> cell.value.BlobValue?)
    ensures r.Ok? && cell.Some? ==> r.value == Some(cell.value.bytes)
    ensures r.Err? ==> r.error == Conversion(column)
  {
    match cell
    case None => Ok(None)
    case Some(BlobValue(b)) => Ok(Some(b))
    case Some(_) => Err(Conversion(column))
  }

  // The typed getters: a closed cursor, a cursor off a row and a column
  // index outside the row fail in that order; otherwise the stored cell of
  // the current row is converted to the requested type.

  function GetInt(s: CursorState, index: int): (r: Result<Int32, CursorError>)
    requires s.Valid()
    ensures s.closed ==> r == Err(Closed)
    ensures !s.closed && !s.pos.OnRow? ==> r == Err(NotOnRow)
    ensures !s.closed && s.pos.OnRow? && !(0 <= index < s.Width()) ==> r == Err(IndexOutOfRange(index))
    ensures !s.closed && s.pos.OnRow? && 0 <= index < s.Width() ==> r == IntOf(s.source.rows[s.pos.row][index], index)
  {
    match Cell(s, index)
    case Err(e) => Err(e)
    case Ok(c) => IntOf(c, index)
  }

  function GetLong(s: CursorState, index: int): (r: Result<Int64, CursorError>)
    requires s.Valid()
    ensures s.closed ==> r == Err(Closed)
    ensures !s.closed && !s.pos.OnRow? ==> r == Err(NotOnRow)
    ensures !s.closed && s.pos.OnRow? && !(0 <= index < s.Width()) ==> r == Err(IndexOutOfRange(index))
    ensures !s.closed && s.pos.OnRow? && 0 <= index < s.Width() ==> r == LongOf(s.source.rows[s.pos.row][index], index)
  {
    match Cell(s, index)
    case Err(e) => Err(e)
    case Ok(c) => LongOf(c, index)
  }

  function GetFloat(s: CursorState, index: int): (r: Result<bv32, CursorError>)
    requires s.Valid()
    ensures s.closed ==> r == Err(Closed)
    ensures !s.closed && !s.pos.OnRow? ==> r == Err(NotOnRow)
    ensures !s.closed && s.pos.OnRow? && !(0 <= index < s.Width()) ==> r == Err(IndexOutOfRange(index))
    ensures !s.closed && s.pos.OnRow? && 0 <= index < s.Width() ==> r == FloatOf(s.source.rows[s.pos.row][index], index)
  {
    match Cell(s, index)
    case Err(e) => Err(e)
    case Ok(c) => FloatOf(c, index)
  }

  function GetDouble(s: CursorState, index: int): (r: Result<bv64, CursorError>)
    requires s.Valid()
    ensures s.closed ==> r == Err(Closed)
    ensures !s.closed && !s.pos.OnRow? ==> r == Err(NotOnRow)
    ensures !s.closed && s.pos.OnRow? && !(0 <= index < s.Width()) ==> r == Err(IndexOutOfRange(index))
    ensures !s.closed && s.pos.OnRow? && 0 <= index < s.Width() ==> r == DoubleOf(s.source.rows[s.pos.row][index], index)
  {
    match Cell(s, index)
    case Err(e) => Err(e)
    case Ok(c) => DoubleOf(c, index)
  }

  function GetString(s: CursorState, index: int): (r: Result<Option<string>, CursorError>)
    requires s.Valid()
    ensures s.closed ==> r == Err(Closed)
    ensures !s.closed && !s.pos.OnRow? ==> r == Err(NotOnRow)
    ensures !s.closed && s.pos.OnRow? && !(0 <= index < s.Width()) ==> r == Err(IndexOutOfRange(index))
    ensures !s.closed && s.pos.OnRow? && 0 <= index < s.Width() ==> r == StringOf(s.source.rows[s.pos.row][index], index)
  {
    match Cell(s, index)
    case Err(e) => Err(e)
    case Ok(c) => StringOf(c, index)
  }

  function GetBlob(s: CursorState, index: int): (r: Result<Option<seq<bv8>>, CursorError>)
    requires s.Valid()
    ensures s.closed ==> r == Err(Closed)
    ensures !s.closed && !s.pos.OnRow? ==> r == Err(NotOnRow)
    ensures !s.closed && s.pos.OnRow? && !(0 <= index < s.Width()) ==> r == Err(IndexOutOfRange(index))
    ensures !s.closed && s.pos.OnRow? && 0 <= index < s.Width() ==> r == BlobOf(s.source.rows[s.pos.row][index], index)
  {
    match Cell(s, index)
    case Err(e) => Err(e)
    case Ok(c) => BlobOf(c, index)
  }

  /** The result set with the cell at row `i`, column `k` replaced by `v` (an UPDATE of one cell). */
  function Store(rs: ResultSet, i: nat, k: nat, v: Option<Value>): (r: ResultSet)
    requires rs.WellFormed() && i < |rs.rows| && k < |rs.columns|
    ensures r.WellFormed() && r.columns == rs.columns && |r.rows| == |rs.rows|
    ensures r.rows[i][k] == v
    ensures forall j, c :: 0 <= j < |rs.rows| && 0 <= c < |rs.columns| && (j, c) != (i, k) ==>
              r.rows[j][c] == rs.rows[j][c]
  {
    ResultSet(rs.columns, rs.rows[i := rs.rows[i][k := v]])
  }

  /** The state of an open cursor standing on row `i` of `rs`. */
  function OpenOn(rs: ResultSet, i: nat): CursorState
  {
    CursorState(rs, OnRow(i), false)
  }

  /**
   * Whatever is stored is read back unchanged by the getter of its type:
   * bytes by getBlob (byte for byte, whatever their length), text by
   * getString, an INT by getInt and getLong, a BIGINT by getLong, REAL and
   * DOUBLE bits by getFloat and getDouble; and a stored SQL NULL is seen by
   * isNull and reads as 0 or null.
   */
  lemma StoredValueReadsBack(rs: ResultSet, i: nat, k: nat, v: Option<Value>)
    requires rs.WellFormed() && i < |rs.rows| && k < |rs.columns|
    ensures var s := OpenOn(Store(rs, i, k, v), i);
      && s.Valid()
      && IsNull(s, k) == Ok(v.None?)
      && (v.Some? && v.value.BlobValue? ==> GetBlob(s, k) == Ok(Some(v.value.bytes)))
      && (v.Some? && v.value.TextValue? ==> GetString(s, k) == Ok(Some(v.value.text)))
      && (v.Some? && v.value.IntValue? ==> GetInt(s, k) == Ok(v.value.int32) && GetLong(s, k) == Ok(v.value.int32))
      && (v.Some? && v.value.LongValue? ==> GetLong(s, k) == Ok(v.value.int64))
      && (v.Some? && v.value.FloatValue? ==> GetFloat(s, k) == Ok(v.value.float32))
      && (v.Some? && v.value.DoubleValue? ==> GetDouble(s, k) == Ok(v.value.float64))
      && (v.None? ==> GetInt(s, k) == Ok(0) && GetLong(s, k) == Ok(0) &&
                      GetFloat(s, k) == Ok(0) && GetDouble(s, k) == Ok(0) &&
                      GetString(s, k) == Ok(None) && GetBlob(s, k) == Ok(None))
  {
    var s := OpenOn(Store(rs, i, k, v), i);
    assert Cell(s, k) == Ok(v);
  }

  /** A probe at or past the column count answers null on every row of an open cursor. */
  lemma PastLastColumnIsNull(s: CursorState, index: int)
    requires s.Valid() && !s.closed && s.pos.OnRow?
    requires index >= s.Width()
    ensures IsNull(s, index) == Ok(true)
  {
  }

  /**
   * On a closed cursor every read fails with Closed; off a row, every read
   * fails with NotOnRow. Neither is confused with a null or a missing column.
   */
  lemma ReadsNeedOpenCursorOnRow(s: CursorState, index: int)
    requires s.Valid()
    ensures s.closed ==>
              IsNull(s, index) == Err(Closed) && GetInt(s, index) == Err(Closed) &&
              GetLong(s, index) == Err(Closed) && GetFloat(s, index) == Err(Closed) &&
              GetDouble(s, index) == Err(Closed) && GetString(s, index) == Err(Closed) &&
              GetBlob(s, index) == Err(Closed)
    ensures !s.closed && !s.pos.OnRow? ==>
              IsNull(s, index) == Err(NotOnRow) && GetInt(s, index) == Err(NotOnRow) &&
              GetLong(s, index) == Err(NotOnRow) && GetFloat(s, index) == Err(NotOnRow) &&
              GetDouble(s, index) == Err(NotOnRow) && GetString(s, index) == Err(NotOnRow) &&
              GetBlob(s, index) == Err(NotOnRow)
  {
  }
}
