/**
 * The table SQLiteCursorTest works on: six columns (id INT, name VARCHAR,
 * long_value BIGINT, float_value REAL, double_value DOUBLE, blob_value
 * BINARY) and three people, the first with every value but the blob, the
 * other two with only id and name.
 */
module PeopleTable {
  import opened Wrappers
  import opened Text
  import opened Values
  import Catalog
  import Access

  /** The column names as the table declares them. */
  function DeclaredColumns(): seq<string>
  {
    ["id", "name", "long_value", "float_value", "double_value", "blob_value"]
  }

  /**
   * The column names as the backend reports them: the declared names
   * upper-cased, as the backend does with unquoted identifiers
   * (ReportedColumnsAreUpperCased).
   */
  function ReportedColumns(): seq<string>
  {
    ["ID", "NAME", "LONG_VALUE", "FLOAT_VALUE", "DOUBLE_VALUE", "BLOB_VALUE"]
  }

  /** The three inserted people; 1.5 and 3.14159 appear as their IEEE 754 bits. */
  function People(): ResultSet
  {
    ResultSet(ReportedColumns(), [
      [Some(IntValue(1234)), Some(TextValue("Chuck")), Some(LongValue(3463)),
       Some(FloatValue(0x3FC0_0000)), Some(DoubleValue(0x4009_21F9_F01B_866E)), None],
      [Some(IntValue(1235)), Some(TextValue("Julie")), None, None, None, None],
      [Some(IntValue(1236)), Some(TextValue("Chris")), None, None, None, None]
    ])
  }

  /** The same table after every row was deleted. */
  function NoPeople(): ResultSet
  {
    ResultSet(ReportedColumns(), [])
  }

  /** Each reported name is the declared name upper-cased. */
  lemma ReportedColumnsAreUpperCased(k: nat)
    requires k < 6
    ensures ReportedColumns()[k] == Upper(DeclaredColumns()[k])
  {
    var r, d := ReportedColumns()[k], DeclaredColumns()[k];
    assert |r| == |Upper(d)|;
    forall i | 0 <= i < |r|
      ensures r[i] == Upper(d)[i]
    {
    }
  }

  /** No two reported names coincide, even ignoring case. */
  lemma ReportedColumnsDistinct()
    ensures Catalog.DistinctNames(ReportedColumns())
  {
    var cols := ReportedColumns();
    forall i, j | 0 <= i < j < 6
      ensures !EqualIgnoringCase(cols[i], cols[j])
    {
      if |cols[i]| == |cols[j]| {
        assert i == 2 && j == 5;
        assert UpperChar(cols[i][0]) != UpperChar(cols[j][0]);
      }
    }
  }

  /** Each declared name, in its declared lower case, finds its own column. */
  lemma DeclaredNameFindsColumn(k: nat)
    requires k < 6
    ensures Catalog.ColumnIndex(ReportedColumns(), DeclaredColumns()[k]) == k
  {
    var r, d := ReportedColumns()[k], DeclaredColumns()[k];
    ReportedColumnsAreUpperCased(k);
    UpperCanonical(d);
    EqualIgnoringCaseIsSameUpper(r, d);
    ReportedColumnsDistinct();
    Catalog.FindsEveryColumn(ReportedColumns(), k, d);
  }

  /** The lookups the tests make: each lower-case name finds its column, and "Fred" finds none. */
  lemma LookupsOfTheTests()
    ensures Catalog.ColumnIndex(ReportedColumns(), "id") == 0
    ensures Catalog.ColumnIndex(ReportedColumns(), "name") == 1
    ensures Catalog.ColumnIndex(ReportedColumns(), "long_value") == 2
    ensures Catalog.ColumnIndex(ReportedColumns(), "float_value") == 3
    ensures Catalog.ColumnIndex(ReportedColumns(), "double_value") == 4
    ensures Catalog.ColumnIndex(ReportedColumns(), "Fred") == -1
  {
    DeclaredNameFindsColumn(0);
    DeclaredNameFindsColumn(1);
    DeclaredNameFindsColumn(2);
    DeclaredNameFindsColumn(3);
    DeclaredNameFindsColumn(4);
    FredIsNoColumn();
  }

  /** "Fred" is not a column of the table. */
  lemma FredIsNoColumn()
    ensures Catalog.ColumnIndex(ReportedColumns(), "Fred") == -1
  {
    var cols := ReportedColumns();
    assert !EqualIgnoringCase(cols[1], "Fred") by {
      assert UpperChar(cols[1][0]) != UpperChar("Fred"[0]);
    }
  }

  /**
   * Index 5 is a real column, BLOB_VALUE, and the first person has no value
   * in it: isNull(5) on the first row is true because the stored value is
   * absent, not because the index is out of range.
   */
  lemma IndexFiveIsAbsentBlob()
    ensures 5 < |People().columns| && People().columns[5] == "BLOB_VALUE"
    ensures People().rows[0][5] == None
    ensures Access.IsNull(Access.OpenOn(People(), 0), 5) == Ok(true)
  {
  }

  /** The second person has an id and a name, and nothing else. */
  lemma SecondPersonNulls(k: int)
    requires 0 <= k < 6
    ensures Access.IsNull(Access.OpenOn(People(), 1), k) == Ok(k >= 2)
  {
  }

  /** The first person has a value in every column but the blob. */
  lemma FirstPersonNulls(k: int)
    requires 0 <= k < 6
    ensures Access.IsNull(Access.OpenOn(People(), 0), k) == Ok(k == 5)
  {
  }

  /** Index 6, the column count, probes as null on every row. */
  lemma ColumnCountProbesNull(i: nat)
    requires i < 3
    ensures Access.IsNull(Access.OpenOn(People(), i), 6) == Ok(true)
  {
  }
}
