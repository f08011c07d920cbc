/**
 * The tests of SQLiteCursorTest, replayed against the model: each method
 * drives a fresh cursor over the people table as its test does and states
 * what that test asserts.
 */
module CursorTests {
  import opened Wrappers
  import opened Text
  import opened Values
  import opened Navigation
  import Catalog
  import Access
  import opened Cursors
  import opened PeopleTable

  method TestGetColumnNames() returns (names: seq<string>)
    ensures names == ["ID", "NAME", "LONG_VALUE", "FLOAT_VALUE", "DOUBLE_VALUE", "BLOB_VALUE"]
  {
    var c := new Cursor(People());
    names := c.GetColumnNames();
  }

  method TestGetColumnNamesEmpty() returns (names: seq<string>)
    ensures names == ["ID", "NAME", "LONG_VALUE", "FLOAT_VALUE", "DOUBLE_VALUE", "BLOB_VALUE"]
  {
    var c := new Cursor(NoPeople());
    names := c.GetColumnNames();
  }

  // The lookup tests hold for any result set with the table's columns,
  // People() as well as NoPeople(): the catalog does not depend on the rows.

  method TestGetColumnIndex(rs: ResultSet) returns (id: int, name: int)
    requires rs.WellFormed() && rs.columns == ReportedColumns()
    ensures id == 0 && name == 1
  {
    var c := new Cursor(rs);
    id := c.GetColumnIndex("id");
    name := c.GetColumnIndex("name");
    LookupsOfTheTests();
  }

  method TestGetColumnIndexNotFound(rs: ResultSet) returns (fred: int)
    requires rs.WellFormed() && rs.columns == ReportedColumns()
    ensures fred == -1
  {
    var c := new Cursor(rs);
    fred := c.GetColumnIndex("Fred");
    LookupsOfTheTests();
  }

  method TestGetColumnIndexOrThrow(rs: ResultSet) returns (id: Result<nat, CursorError>, name: Result<nat, CursorError>)
    requires rs.WellFormed() && rs.columns == ReportedColumns()
    ensures id == Ok(0) && name == Ok(1)
  {
    var c := new Cursor(rs);
    id := c.GetColumnIndexOrThrow("id");
    name := c.GetColumnIndexOrThrow("name");
    LookupsOfTheTests();
  }

  method TestGetColumnIndexOrThrowNotFound(rs: ResultSet) returns (fred: Result<nat, CursorError>)
    requires rs.WellFormed() && rs.columns == ReportedColumns()
    ensures fred == Err(NameNotFound("Fred"))
  {
    var c := new Cursor(rs);
    fred := c.GetColumnIndexOrThrow("Fred");
    LookupsOfTheTests();
  }

  method TestMoveToFirst() returns (moved: Result<bool, CursorError>, id: Result<Int32, CursorError>,
                                    name: Result<Option<string>, CursorError>)
    ensures moved == Ok(true) && id == Ok(1234) && name == Ok(Some("Chuck"))
  {
    var c := new Cursor(People());
    moved := c.MoveToFirst();
    id := c.GetInt(0);
    name := c.GetString(1);
  }

  method TestMoveToFirstEmpty() returns (moved: Result<bool, CursorError>)
    ensures moved == Ok(false)
  {
    var c := new Cursor(NoPeople());
    moved := c.MoveToFirst();
  }

  method TestMoveToNext() returns (moved: Result<bool, CursorError>, id: Result<Int32, CursorError>,
                                   name: Result<Option<string>, CursorError>)
    ensures moved == Ok(true) && id == Ok(1235) && name == Ok(Some("Julie"))
  {
    var c := new Cursor(People());
    var _ := c.MoveToFirst();
    moved := c.MoveToNext();
    id := c.GetInt(0);
    name := c.GetString(1);
  }

  method TestMoveToNextPastEnd() returns (moved: Result<bool, CursorError>)
    ensures moved == Ok(false)
  {
    var c := new Cursor(People());
    var _ := c.MoveToFirst();
    var _ := c.MoveToNext();
    var _ := c.MoveToNext();
    moved := c.MoveToNext();
  }

  method TestMoveToNextEmpty() returns (moved: Result<bool, CursorError>)
    ensures moved == Ok(false)
  {
    var c := new Cursor(NoPeople());
    var _ := c.MoveToFirst();
    moved := c.MoveToNext();
  }

  method TestGetPosition() returns (first: int, second: int)
    ensures first == 0 && second == 1
  {
    var c := new Cursor(People());
    var _ := c.MoveToFirst();
    first := c.GetPosition();
    var _ := c.MoveToNext();
    second := c.GetPosition();
  }

  /** Any bytes written to the first person's blob are read back unchanged. */
  method TestGetBlob(bytes: seq<bv8>) returns (got: Result<Option<seq<bv8>>, CursorError>)
    ensures got == Ok(Some(bytes))
  {
    var updated := Access.Store(People(), 0, 5, Some(BlobValue(bytes)));
    var c := new Cursor(updated);
    var _ := c.MoveToFirst();
    got := c.GetBlob(5);
    Access.StoredValueReadsBack(People(), 0, 5, Some(BlobValue(bytes)));
  }

  /**
   * The loop of testGetString: starting from moveToFirst, read column
   * `column` and compare it with the next expected text, then move to the
   * next row. True exactly when the rows, in order, hold the expected texts.
   */
  method StringsMatch(rs: ResultSet, column: int, expected: seq<string>) returns (ok: bool)
    requires rs.WellFormed()
    ensures ok <==> |expected| <= |rs.rows| &&
                    forall j :: 0 <= j < |expected| ==>
                      Access.GetString(Access.OpenOn(rs, j), column) == Ok(Some(expected[j]))
  {
    var c := new Cursor(rs);
    var _ := c.MoveToFirst();
    ok := true;
    var k := 0;
    while k < |expected|
      invariant 0 <= k <= |expected|
      invariant c.Valid() && !c.closed && c.source == rs
      invariant c.pos == Advance(First(|rs.rows|), |rs.rows|, k)
      invariant ok <==> k <= |rs.rows| &&
                        forall j :: 0 <= j < k ==>
                          Access.GetString(Access.OpenOn(rs, j), column) == Ok(Some(expected[j]))
    {
      ScanAfterFirst(|rs.rows|, k);
      var text := c.GetString(column);
      ok := ok && text == Ok(Some(expected[k]));
      var _ := c.MoveToNext();
      ScanAfterFirst(|rs.rows|, k + 1);
      k := k + 1;
    }
  }

  /** The loop of testGetInt, as StringsMatch but for getInt. */
  method IntsMatch(rs: ResultSet, column: int, expected: seq<Int32>) returns (ok: bool)
    requires rs.WellFormed()
    ensures ok <==> |expected| <= |rs.rows| &&
                    forall j :: 0 <= j < |expected| ==>
                      Access.GetInt(Access.OpenOn(rs, j), column) == Ok(expected[j])
  {
    var c := new Cursor(rs);
    var _ := c.MoveToFirst();
    ok := true;
    var k := 0;
    while k < |expected|
      invariant 0 <= k <= |expected|
      invariant c.Valid() && !c.closed && c.source == rs
      invariant c.pos == Advance(First(|rs.rows|), |rs.rows|, k)
      invariant ok <==> k <= |rs.rows| &&
                        forall j :: 0 <= j < k ==>
                          Access.GetInt(Access.OpenOn(rs, j), column) == Ok(expected[j])
    {
      ScanAfterFirst(|rs.rows|, k);
      var id := c.GetInt(column);
      ok := ok && id == Ok(expected[k]);
      var _ := c.MoveToNext();
      ScanAfterFirst(|rs.rows|, k + 1);
      k := k + 1;
    }
  }

  method TestGetString() returns (ok: bool)
    ensures ok
  {
    ok := StringsMatch(People(), 1, ["Chuck", "Julie", "Chris"]);
  }

  method TestGetInt() returns (ok: bool)
    ensures ok
  {
    ok := IntsMatch(People(), 0, [1234, 1235, 1236]);
  }

  method TestGetLong() returns (long: Result<Int64, CursorError>)
    ensures long == Ok(3463)
  {
    var c := new Cursor(People());
    var _ := c.MoveToFirst();
    long := c.GetLong(2);
  }

  /** 1.5 as a Java float. */
  method TestGetFloat() returns (float: Result<bv32, CursorError>)
    ensures float == Ok(0x3FC0_0000)
  {
    var c := new Cursor(People());
    var _ := c.MoveToFirst();
    float := c.GetFloat(3);
  }

  /** 3.14159 as a Java double. */
  method TestGetDouble() returns (double: Result<bv64, CursorError>)
    ensures double == Ok(0x4009_21F9_F01B_866E)
  {
    var c := new Cursor(People());
    var _ := c.MoveToFirst();
    double := c.GetDouble(4);
  }

  method TestClose() returns (before: bool, after: bool)
    ensures !before && after
  {
    var c := new Cursor(People());
    before := c.IsClosed();
    c.Close();
    after := c.IsClosed();
  }

  method TestIsNullWhenNull() returns (id: Result<bool, CursorError>, name: Result<bool, CursorError>,
                                       long: Result<bool, CursorError>, float: Result<bool, CursorError>,
                                       double: Result<bool, CursorError>)
    ensures id == Ok(false) && name == Ok(false)
    ensures long == Ok(true) && float == Ok(true) && double == Ok(true)
  {
    var c := new Cursor(People());
    var _ := c.MoveToFirst();
    var moved := c.MoveToNext();
    assert moved == Ok(true);
    assert c.State() == Access.OpenOn(People(), 1);
    LookupsOfTheTests();
    var i := c.GetColumnIndex("id");
    id := c.IsNull(i);
    SecondPersonNulls(i);
    i := c.GetColumnIndex("name");
    name := c.IsNull(i);
    SecondPersonNulls(i);
    i := c.GetColumnIndex("long_value");
    long := c.IsNull(i);
    SecondPersonNulls(i);
    i := c.GetColumnIndex("float_value");
    float := c.IsNull(i);
    SecondPersonNulls(i);
    i := c.GetColumnIndex("double_value");
    double := c.IsNull(i);
    SecondPersonNulls(i);
  }

  /** Column `index` of the first row exists and holds a value. */
  predicate NotNullInFirstRow(rs: ResultSet, index: int)
    requires rs.WellFormed()
  {
    |rs.rows| > 0 && Access.IsNull(Access.OpenOn(rs, 0), index) == Ok(false)
  }

  /**
   * The loop of testIsNullWhenNotNull: after moveToFirst, probe columns
   * 0 .. count-1 with isNull. For count > 0, true exactly when there is a
   * first row and none of those columns is null in it; with count 0, true.
   */
  method NoNullsInFirstRow(rs: ResultSet, count: nat) returns (ok: bool)
    requires rs.WellFormed()
    ensures ok <==> forall i :: 0 <= i < count ==> NotNullInFirstRow(rs, i)
  {
    var c := new Cursor(rs);
    var _ := c.MoveToFirst();
    ok := true;
    var i := 0;
    while i < count
      invariant 0 <= i <= count
      invariant c.Valid() && !c.closed && c.source == rs && c.pos == First(|rs.rows|)
      invariant ok <==> forall j :: 0 <= j < i ==> NotNullInFirstRow(rs, j)
    {
      var isNull := c.IsNull(i);
      assert NotNullInFirstRow(rs, i) <==> isNull == Ok(false) by {
        if |rs.rows| > 0 {
          assert c.State() == Access.OpenOn(rs, 0);
        }
      }
      ok := ok && isNull == Ok(false);
      i := i + 1;
    }
  }

  method TestIsNullWhenNotNull() returns (ok: bool)
    ensures ok
  {
    ok := NoNullsInFirstRow(People(), 5);
  }

  /** Index 5 probes as null on the first row; see IndexFiveIsAbsentBlob for why. */
  method TestIsNullWhenIndexOutOfBounds() returns (isNull: Result<bool, CursorError>)
    ensures isNull == Ok(true)
  {
    var c := new Cursor(People());
    var _ := c.MoveToFirst();
    isNull := c.IsNull(5);
  }
}
