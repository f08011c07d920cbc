# SQLite cursor adapter, modelled in Dafny

This project models the Robolectric SQLite cursor adapter. The adapter presents a relational result set, obtained from an in-memory SQL database, through the Android cursor contract. The contract covers:

- a column catalog read once at attach time (`getColumnNames`, `getColumnIndex`, `getColumnIndexOrThrow`);
- forward-only navigation over the rows (`moveToFirst`, `moveToNext`, `getPosition`);
- null probing and typed reads of the current row (`isNull`, `getInt`, `getLong`, `getFloat`, `getDouble`, `getString`, `getBlob`);
- a lifecycle flag (`close`, `isClosed`).

The repository's adapter implementation is not part of this model. Its behaviour is taken from the assertions of `SQLiteCursorTest.java`, and the model is built against those assertions.

The model is organised as follows:

- The result set becomes a plain value: upper-case column names plus a sequence of rows. Each cell is an optional `Value`, and `None` stands for SQL NULL.
- The cursor is a `class` with the attached result set, a mutable position (before-first, on row `i`, after-last) and a mutable `closed` flag. Its methods are specified against pure functions over that state.
- A Java exception becomes the `Err` arm of a `Result`. `getColumnIndexOrThrow`'s IllegalArgumentException becomes `NameNotFound(name)`.
- The test fixture (the `table_name` table and its three people) is the value `PeopleTable.People()`.
- Every test of `SQLiteCursorTest` becomes a method of `CursorTests` whose postcondition is that test's assertions. The three loop tests (testGetString, testGetInt, testIsNullWhenNotNull) call loop methods that are proved against a specification over any result set.

Modules, one per file:

| file | module | concern |
|---|---|---|
| wrappers.dfy | `Wrappers` | `Option`, `Result` |
| text.dfy | `Text` | ASCII case folding and case-insensitive comparison |
| values.dfy | `Values` | cell values, Java integer widths, result sets, cursor errors |
| catalog.dfy | `Catalog` | column lookup by name |
| navigation.dfy | `Navigation` | positions, `moveToFirst`/`moveToNext`/`getPosition` as functions |
| access.dfy | `Access` | `isNull` and the typed getters as functions of the cursor state |
| cursor.dfy | `Cursors` | the `Cursor` class |
| people_table.dfy | `PeopleTable` | the test table and facts about it |
| cursor_tests.dfy | `CursorTests` | the tests, replayed against the class |

Decisions the tests leave open, and how the model settles them:

- **Position reported by `getPosition`.** It is -1 before the first row and the row count after the last, as in the Android cursor contract.
- **Closed cursor.** `moveToFirst`, `moveToNext`, `isNull` and the typed getters fail with `Closed` on a closed cursor, and the moves do not move it. The catalog methods keep working, because the catalog is fixed at attach time. `getPosition` and `isClosed` keep answering too: `getPosition` reports the position the cursor had when it was closed.
- **Reads off a row.** A read while not on a row fails with `NotOnRow`.
- **`isNull` index rules.** A negative index fails with `IndexOutOfRange`. An index at or past the column count answers `true`, as the comment at `SQLiteCursorTest.java:257` intends.
- **What `isNull(5)` actually probes.** The table has six columns, so the `isNull(5)` of `testIsNullWhenIndexOutOfBounds` probes a real column, `BLOB_VALUE`. That column is absent in the first row, so the answer is `true` for that reason (`PeopleTable.IndexFiveIsAbsentBlob`). The index-past-the-end rule is stated separately (`Access.PastLastColumnIsNull`, `PeopleTable.ColumnCountProbesNull`).
- **SQL NULL in the typed getters.** It reads as 0 for `getInt`/`getLong`/`getFloat`/`getDouble` and as null for `getString`/`getBlob`, following the JDBC getters.
- **Integer conversions.** `getLong` reads INT and BIGINT values. `getInt` reads INT values, and BIGINT values that fit in 32 bits. Every other type pairing fails with `Conversion`.
- **Column names and matching.** Column names are reported upper-cased, because the backend upper-cases unquoted identifiers (`PeopleTable.ReportedColumnsAreUpperCased`). A lookup returns the first column whose name equals the query ignoring ASCII case.

## Model

| member | source | states |
|---|---|---|
| Text.EqualIgnoringCaseIsSameUpper | src/test/java/com/xtremelabs/robolectric/shadows/SQLiteCursorTest.java:65-69 | comparing a queried name with a column name ignoring case is the same as comparing their upper-cased spellings, in both directions |
| Text.EqualIgnoringCaseEquivalence | src/test/java/com/xtremelabs/robolectric/shadows/SQLiteCursorTest.java:65-69 | case-insensitive name matching is reflexive, symmetric and transitive |
| Text.UpperCanonical | src/test/java/com/xtremelabs/robolectric/shadows/SQLiteCursorTest.java:287-295 | upper-casing gives a name with no lower-case letter and leaves such a name unchanged |
| Text.CanonicalNamesMatchOnlyThemselves | src/test/java/com/xtremelabs/robolectric/shadows/SQLiteCursorTest.java:287-295 | two upper-case column names match ignoring case exactly when they are equal |
| Catalog.IndexFrom | src/test/java/com/xtremelabs/robolectric/shadows/SQLiteCursorTest.java:65-74 | the scan from a given column returns the first matching column at or after it, or -1 exactly when no column from there on matches |
| Catalog.ColumnIndex | src/test/java/com/xtremelabs/robolectric/shadows/SQLiteCursorTest.java:65-82 | getColumnIndex returns an index in range whose column answers to the name and no earlier column does, or -1 exactly when no column answers |
| Catalog.ColumnIndexOrThrow | src/test/java/com/xtremelabs/robolectric/shadows/SQLiteCursorTest.java:84-107 | getColumnIndexOrThrow returns the first matching column, and fails with NameNotFound carrying the name exactly when no column matches |
| Catalog.OrThrowAgreesWithIndex | src/test/java/com/xtremelabs/robolectric/shadows/SQLiteCursorTest.java:84-107 | the throwing lookup fails exactly where getColumnIndex answers -1 and otherwise returns the same index |
| Catalog.IndexFromIgnoresCase | src/test/java/com/xtremelabs/robolectric/shadows/SQLiteCursorTest.java:65-69 | from any starting column, two names that differ only in case find the same column |
| Catalog.LookupIgnoresCase | src/test/java/com/xtremelabs/robolectric/shadows/SQLiteCursorTest.java:65-69 | for names that differ only in case, getColumnIndex gives the same index, and getColumnIndexOrThrow succeeds for both or neither, with the same index |
| Catalog.FindsEveryColumn | src/test/java/com/xtremelabs/robolectric/shadows/SQLiteCursorTest.java:65-69 | with pairwise distinct names, any spelling of column k's name finds exactly k by both lookups |
| Navigation.First | src/test/java/com/xtremelabs/robolectric/shadows/SQLiteCursorTest.java:109-121 | moveToFirst lands on a row exactly when there are rows, and that row has index 0; on an empty result it lands after the last row |
| Navigation.Next | src/test/java/com/xtremelabs/robolectric/shadows/SQLiteCursorTest.java:123-148 | moveToNext raises the position by exactly one and lands on a row exactly when that position is below the row count; it never goes back before the first row, and after the last row it stays there |
| Navigation.Advance | src/test/java/com/xtremelabs/robolectric/shadows/SQLiteCursorTest.java:185-188 | repeated moveToNext keeps the position within the rows |
| Navigation.AfterLastStays | src/test/java/com/xtremelabs/robolectric/shadows/SQLiteCursorTest.java:132-140 | once after the last row, any number of moveToNext calls stays there |
| Navigation.AdvanceFromRow | src/test/java/com/xtremelabs/robolectric/shadows/SQLiteCursorTest.java:123-140 | k moves from row i reach row i+k, or after the last row once the rows run out |
| Navigation.ScanAfterFirst | src/test/java/com/xtremelabs/robolectric/shadows/SQLiteCursorTest.java:179-201 | moveToFirst then k moveToNext calls stands on row k while rows remain, after the last row from then on, and never on a row of an empty result |
| Navigation.ScanFromBeforeFirst | src/test/java/com/xtremelabs/robolectric/shadows/SQLiteCursorTest.java:150-157 | from before the first row, k moves visit the rows in order, and the position is k-1 until it stops at the row count |
| Access.CurrentRow | src/test/java/com/xtremelabs/robolectric/shadows/SQLiteCursorTest.java:109-114 | a row is available exactly when the cursor is open and on a row, and it is the stored row at the current position, one cell per column; otherwise the failure is Closed, or NotOnRow |
| Access.IsNull | src/test/java/com/xtremelabs/robolectric/shadows/SQLiteCursorTest.java:231-259 | isNull answers exactly for an open cursor on a row and a non-negative index: true past the last column, otherwise whether the stored value is absent; failures are Closed, NotOnRow, IndexOutOfRange in that order |
| Access.Cell | src/test/java/com/xtremelabs/robolectric/shadows/SQLiteCursorTest.java:109-114 | a typed getter finds a cell exactly for an open cursor on a row and an index within the columns, and that cell is the stored one |
| Access.IntOf | src/test/java/com/xtremelabs/robolectric/shadows/SQLiteCursorTest.java:191-201 | getInt gives 0 for NULL, the stored integer when it fits in 32 bits, and a Conversion failure exactly otherwise |
| Access.LongOf | src/test/java/com/xtremelabs/robolectric/shadows/SQLiteCursorTest.java:203-208 | getLong gives 0 for NULL, the stored INT or BIGINT value, and a Conversion failure exactly for other types |
| Access.FloatOf | src/test/java/com/xtremelabs/robolectric/shadows/SQLiteCursorTest.java:210-215 | getFloat gives the stored REAL bits unchanged, 0 for NULL, and fails exactly for other types |
| Access.DoubleOf | src/test/java/com/xtremelabs/robolectric/shadows/SQLiteCursorTest.java:217-222 | getDouble gives the stored DOUBLE bits unchanged, 0 for NULL, and fails exactly for other types |
| Access.StringOf | src/test/java/com/xtremelabs/robolectric/shadows/SQLiteCursorTest.java:179-189 | getString gives the stored text unchanged, null for NULL, and fails exactly for other types |
| Access.BlobOf | src/test/java/com/xtremelabs/robolectric/shadows/SQLiteCursorTest.java:159-177 | getBlob gives the stored bytes unchanged, null for NULL, and fails exactly for other types |
| Access.GetInt | src/test/java/com/xtremelabs/robolectric/shadows/SQLiteCursorTest.java:191-201 | getInt fails with Closed, then NotOnRow, then IndexOutOfRange for an index outside the row; otherwise it is IntOf of the stored cell at the current row and index |
| Access.GetLong | src/test/java/com/xtremelabs/robolectric/shadows/SQLiteCursorTest.java:203-208 | getLong fails with Closed, then NotOnRow, then IndexOutOfRange for an index outside the row; otherwise it is LongOf of the stored cell at the current row and index |
| Access.GetFloat | src/test/java/com/xtremelabs/robolectric/shadows/SQLiteCursorTest.java:210-215 | getFloat fails with Closed, then NotOnRow, then IndexOutOfRange for an index outside the row; otherwise it is FloatOf of the stored cell at the current row and index |
| Access.GetDouble | src/test/java/com/xtremelabs/robolectric/shadows/SQLiteCursorTest.java:217-222 | getDouble fails with Closed, then NotOnRow, then IndexOutOfRange for an index outside the row; otherwise it is DoubleOf of the stored cell at the current row and index |
| Access.GetString | src/test/java/com/xtremelabs/robolectric/shadows/SQLiteCursorTest.java:179-189 | getString fails with Closed, then NotOnRow, then IndexOutOfRange for an index outside the row; otherwise it is StringOf of the stored cell at the current row and index |
| Access.GetBlob | src/test/java/com/xtremelabs/robolectric/shadows/SQLiteCursorTest.java:159-177 | getBlob fails with Closed, then NotOnRow, then IndexOutOfRange for an index outside the row; otherwise it is BlobOf of the stored cell at the current row and index |
| Access.Store | src/test/java/com/xtremelabs/robolectric/shadows/SQLiteCursorTest.java:161-166 | updating one cell sets that cell, keeps the shape and leaves every other cell unchanged |
| Access.StoredValueReadsBack | src/test/java/com/xtremelabs/robolectric/shadows/SQLiteCursorTest.java:159-177 | a stored value is read back unchanged by the getter of its type (bytes by getBlob, whatever their length), and a stored NULL is seen by isNull and reads as 0 from the four numeric getters and as null from getString and getBlob |
| Access.PastLastColumnIsNull | src/test/java/com/xtremelabs/robolectric/shadows/SQLiteCursorTest.java:253-259 | on any row of an open cursor, an index at or past the column count probes as null |
| Access.ReadsNeedOpenCursorOnRow | src/test/java/com/xtremelabs/robolectric/shadows/SQLiteCursorTest.java:224-229 | isNull and all six typed getters fail with Closed on a closed cursor, and with NotOnRow off a row |
| Cursors.Cursor.constructor | src/test/java/com/xtremelabs/robolectric/shadows/SQLiteCursorTest.java:273-278 | attaching a result set gives an open cursor before its first row |
| Cursors.Cursor.GetColumnNames | src/test/java/com/xtremelabs/robolectric/shadows/SQLiteCursorTest.java:48-63 | getColumnNames returns the attached column names, in order and as reported, whether or not there are rows |
| Cursors.Cursor.GetColumnIndex | src/test/java/com/xtremelabs/robolectric/shadows/SQLiteCursorTest.java:65-82 | getColumnIndex is the case-insensitive first-match lookup over the attached columns |
| Cursors.Cursor.GetColumnIndexOrThrow | src/test/java/com/xtremelabs/robolectric/shadows/SQLiteCursorTest.java:84-107 | succeeds exactly when getColumnIndex is not -1, with the same index, and otherwise fails with NameNotFound of the name |
| Cursors.Cursor.MoveToFirst | src/test/java/com/xtremelabs/robolectric/shadows/SQLiteCursorTest.java:109-121 | an open cursor moves to the first row and answers whether there are rows (true means row 0); a closed one fails with Closed and does not move |
| Cursors.Cursor.MoveToNext | src/test/java/com/xtremelabs/robolectric/shadows/SQLiteCursorTest.java:123-148 | an open cursor moves one row forward and answers whether it landed on a row; a closed one fails with Closed and does not move |
| Cursors.Cursor.GetPosition | src/test/java/com/xtremelabs/robolectric/shadows/SQLiteCursorTest.java:150-157 | getPosition is the current row's index, -1 exactly before the first row, and never beyond the row count |
| Cursors.Cursor.IsNull | src/test/java/com/xtremelabs/robolectric/shadows/SQLiteCursorTest.java:231-259 | the answer is Access.IsNull of the cursor's state |
| Cursors.Cursor.GetInt | src/test/java/com/xtremelabs/robolectric/shadows/SQLiteCursorTest.java:191-201 | the answer is getInt of the current cell, as Access.IntOf states |
| Cursors.Cursor.GetLong | src/test/java/com/xtremelabs/robolectric/shadows/SQLiteCursorTest.java:203-208 | the answer is getLong of the current cell, as Access.LongOf states |
| Cursors.Cursor.GetFloat | src/test/java/com/xtremelabs/robolectric/shadows/SQLiteCursorTest.java:210-215 | the answer is getFloat of the current cell, as Access.FloatOf states |
| Cursors.Cursor.GetDouble | src/test/java/com/xtremelabs/robolectric/shadows/SQLiteCursorTest.java:217-222 | the answer is getDouble of the current cell, as Access.DoubleOf states |
| Cursors.Cursor.GetString | src/test/java/com/xtremelabs/robolectric/shadows/SQLiteCursorTest.java:179-189 | the answer is getString of the current cell, as Access.StringOf states |
| Cursors.Cursor.GetBlob | src/test/java/com/xtremelabs/robolectric/shadows/SQLiteCursorTest.java:159-177 | the answer is getBlob of the current cell, as Access.BlobOf states |
| Cursors.Cursor.Close | src/test/java/com/xtremelabs/robolectric/shadows/SQLiteCursorTest.java:224-229 | close marks the cursor closed and keeps its position |
| Cursors.Cursor.IsClosed | src/test/java/com/xtremelabs/robolectric/shadows/SQLiteCursorTest.java:224-229 | isClosed reports the closed flag |
| PeopleTable.ReportedColumnsAreUpperCased | src/test/java/com/xtremelabs/robolectric/shadows/SQLiteCursorTest.java:35-37 | each reported column name is the declared name upper-cased |
| PeopleTable.ReportedColumnsDistinct | src/test/java/com/xtremelabs/robolectric/shadows/SQLiteCursorTest.java:287-295 | no two of the six column names match, even ignoring case |
| PeopleTable.DeclaredNameFindsColumn | src/test/java/com/xtremelabs/robolectric/shadows/SQLiteCursorTest.java:65-69 | each declared lower-case name finds its own column |
| PeopleTable.LookupsOfTheTests | src/test/java/com/xtremelabs/robolectric/shadows/SQLiteCursorTest.java:65-74 | "id", "name", "long_value", "float_value" and "double_value" find columns 0 to 4, and "Fred" finds -1 |
| PeopleTable.FredIsNoColumn | src/test/java/com/xtremelabs/robolectric/shadows/SQLiteCursorTest.java:71-74 | "Fred" is no column of the table |
| PeopleTable.IndexFiveIsAbsentBlob | src/test/java/com/xtremelabs/robolectric/shadows/SQLiteCursorTest.java:253-263 | index 5 is the BLOB_VALUE column, the first person has no value in it, so isNull(5) on the first row is true |
| PeopleTable.SecondPersonNulls | src/test/java/com/xtremelabs/robolectric/shadows/SQLiteCursorTest.java:231-242 | on the second row, columns 0 and 1 are not null and columns 2 to 5 are null |
| PeopleTable.FirstPersonNulls | src/test/java/com/xtremelabs/robolectric/shadows/SQLiteCursorTest.java:244-251 | on the first row, every column but the blob holds a value |
| PeopleTable.ColumnCountProbesNull | src/test/java/com/xtremelabs/robolectric/shadows/SQLiteCursorTest.java:253-259 | index 6, the column count, probes as null on every row |
| CursorTests.TestGetColumnNames | src/test/java/com/xtremelabs/robolectric/shadows/SQLiteCursorTest.java:48-53 | the names are ID, NAME, LONG_VALUE, FLOAT_VALUE, DOUBLE_VALUE, BLOB_VALUE in that order |
| CursorTests.TestGetColumnNamesEmpty | src/test/java/com/xtremelabs/robolectric/shadows/SQLiteCursorTest.java:55-63 | the same six names are returned when the result has no rows |
| CursorTests.TestGetColumnIndex | src/test/java/com/xtremelabs/robolectric/shadows/SQLiteCursorTest.java:65-82 | over the table's columns, with or without rows, "id" is 0 and "name" is 1 |
| CursorTests.TestGetColumnIndexNotFound | src/test/java/com/xtremelabs/robolectric/shadows/SQLiteCursorTest.java:71-74 | "Fred" gives -1 rather than a failure |
| CursorTests.TestGetColumnIndexOrThrow | src/test/java/com/xtremelabs/robolectric/shadows/SQLiteCursorTest.java:84-100 | with or without rows, "id" is 0 and "name" is 1 |
| CursorTests.TestGetColumnIndexOrThrowNotFound | src/test/java/com/xtremelabs/robolectric/shadows/SQLiteCursorTest.java:90-107 | "Fred" fails with NameNotFound("Fred"), with or without rows |
| CursorTests.TestMoveToFirst | src/test/java/com/xtremelabs/robolectric/shadows/SQLiteCursorTest.java:109-114 | moveToFirst answers true and the row is 1234, "Chuck" |
| CursorTests.TestMoveToFirstEmpty | src/test/java/com/xtremelabs/robolectric/shadows/SQLiteCursorTest.java:116-121 | moveToFirst on an empty result answers false |
| CursorTests.TestMoveToNext | src/test/java/com/xtremelabs/robolectric/shadows/SQLiteCursorTest.java:123-130 | after moveToFirst, moveToNext answers true and the row is 1235, "Julie" |
| CursorTests.TestMoveToNextPastEnd | src/test/java/com/xtremelabs/robolectric/shadows/SQLiteCursorTest.java:132-140 | the third moveToNext after moveToFirst answers false |
| CursorTests.TestMoveToNextEmpty | src/test/java/com/xtremelabs/robolectric/shadows/SQLiteCursorTest.java:142-148 | moveToNext after moveToFirst on an empty result answers false |
| CursorTests.TestGetPosition | src/test/java/com/xtremelabs/robolectric/shadows/SQLiteCursorTest.java:150-157 | the position is 0 after moveToFirst and 1 after one moveToNext |
| CursorTests.TestGetBlob | src/test/java/com/xtremelabs/robolectric/shadows/SQLiteCursorTest.java:159-177 | any bytes stored in the first person's blob are read back by getBlob(5) unchanged |
| CursorTests.StringsMatch | src/test/java/com/xtremelabs/robolectric/shadows/SQLiteCursorTest.java:179-189 | the read-and-move loop succeeds exactly when the rows, in order, hold the expected texts in the column |
| CursorTests.IntsMatch | src/test/java/com/xtremelabs/robolectric/shadows/SQLiteCursorTest.java:191-201 | the read-and-move loop succeeds exactly when the rows, in order, hold the expected ints in the column |
| CursorTests.TestGetString | src/test/java/com/xtremelabs/robolectric/shadows/SQLiteCursorTest.java:179-189 | the names read in order are "Chuck", "Julie", "Chris" |
| CursorTests.TestGetInt | src/test/java/com/xtremelabs/robolectric/shadows/SQLiteCursorTest.java:191-201 | the ids read in order are 1234, 1235, 1236 |
| CursorTests.TestGetLong | src/test/java/com/xtremelabs/robolectric/shadows/SQLiteCursorTest.java:203-208 | getLong(2) on the first row is 3463 |
| CursorTests.TestGetFloat | src/test/java/com/xtremelabs/robolectric/shadows/SQLiteCursorTest.java:210-215 | getFloat(3) on the first row is the float 1.5 (bits 0x3FC00000) |
| CursorTests.TestGetDouble | src/test/java/com/xtremelabs/robolectric/shadows/SQLiteCursorTest.java:217-222 | getDouble(4) on the first row is the double 3.14159 (bits 0x400921F9F01B866E) |
| CursorTests.TestClose | src/test/java/com/xtremelabs/robolectric/shadows/SQLiteCursorTest.java:224-229 | isClosed is false before close and true after it |
| CursorTests.TestIsNullWhenNull | src/test/java/com/xtremelabs/robolectric/shadows/SQLiteCursorTest.java:231-242 | on the second row, id and name are not null, and long_value, float_value and double_value are null |
| CursorTests.NoNullsInFirstRow | src/test/java/com/xtremelabs/robolectric/shadows/SQLiteCursorTest.java:244-251 | for count > 0, the probing loop succeeds exactly when there is a first row and none of columns 0..count-1 is null in it; with count 0 it succeeds |
| CursorTests.TestIsNullWhenNotNull | src/test/java/com/xtremelabs/robolectric/shadows/SQLiteCursorTest.java:244-251 | columns 0 to 4 of the first row are not null |
| CursorTests.TestIsNullWhenIndexOutOfBounds | src/test/java/com/xtremelabs/robolectric/shadows/SQLiteCursorTest.java:253-259 | isNull(5) on the first row is true |

## Left out

- Database I/O is left out: driver loading, the connection, DDL, the inserts and deletes, the prepared UPDATE and query execution. The result set is an abstract list of column names plus rows, and the fixture is written down as that value (`PeopleTable.People`, `PeopleTable.NoPeople`).
- The `shadowOf(cursor).setResultSet(...)` wiring and the test runner are instrumentation and are not modelled. Attaching a result set is the `Cursor` constructor.
- The adapter's implementation file is not part of this model. Its behaviour is taken from the test assertions, and the choices listed above fill the gaps the tests leave.
- `ArrayAdapterTest.java` (list-adapter view binding) is not part of this model: it is UI glue with no cursor logic.
- Case folding covers ASCII letters only. Java's locale-aware Unicode upper-casing is not modelled.
- Access.FloatOf, Access.DoubleOf: floating-point values are opaque IEEE 754 bit patterns, returned unchanged. No arithmetic, rounding or NaN comparison is modelled.
- Access.IntOf, Access.LongOf, Access.FloatOf, Access.DoubleOf, Access.StringOf, Access.BlobOf: every cross-type read the backend's typed accessors would coerce fails with `Conversion` instead. This covers getInt/getLong of REAL, DOUBLE, VARCHAR or BINARY values, and getInt of a BIGINT outside 32 bits. It covers getFloat of anything but REAL, including INT, BIGINT and DOUBLE, and getDouble of anything but DOUBLE, including INT, BIGINT and REAL. It covers getString of any non-VARCHAR value, where JDBC would give its text form such as "1234", and getBlob of any non-BINARY value.
- Cursors.Cursor.Close: releasing the underlying result set and statement is not modelled; only the closed flag is.
- Cursors.Cursor.GetColumnIndex: any caching of the name-to-index map inside the adapter is not modelled; the lookup is a scan over the column list.
- Concurrent use of a cursor is not modelled.
- Android cursor operations not exercised by the tests are not modelled, such as `moveToPosition`, `moveToPrevious`, `getCount` and `requery`.
