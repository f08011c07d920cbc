/**
 * The column catalog: the column names read once from the result set's
 * metadata, and the two lookups by name. `ColumnIndex` signals an unknown
 * name with the sentinel -1; `ColumnIndexOrThrow` fails explicitly.
 */
module Catalog {
  import opened Wrappers
  import opened Text
  import opened Values

  /** The first column at or after `from` that answers to `name`, or -1 when there is none. */
  function IndexFrom(columns: seq<string>, name: string, from: nat): (r: int)
    requires from <= |columns|
    ensures r == -1 || from <= r < |columns|
    ensures r == -1 <==> forall i :: from <= i < |columns| ==> !EqualIgnoringCase(columns[i], name)
    ensures r != -1 ==> EqualIgnoringCase(columns[r], name)
    ensures r != -1 ==> forall i :: from <= i < r ==> !EqualIgnoringCase(columns[i], name)
    decreases |columns| - from
  {
    if from == |columns| then -1
    else if EqualIgnoringCase(columns[from], name) then from
    else IndexFrom(columns, name, from + 1)
  }

  /** getColumnIndex: the index of the first column named `name` in any case, or -1. */
  function ColumnIndex(columns: seq<string>, name: string): (r: int)
    ensures -1 <= r < |columns|
    ensures r == -1 <==> forall i :: 0 <= i < |columns| ==> !EqualIgnoringCase(columns[i], name)
    ensures r != -1 ==> EqualIgnoringCase(columns[r], name)
    ensures r != -1 ==> forall i :: 0 <= i < r ==> !EqualIgnoringCase(columns[i], name)
  {
    IndexFrom(columns, name, 0)
  }

  /** getColumnIndexOrThrow: the same lookup, failing with the missing name instead of -1. */
  function ColumnIndexOrThrow(columns: seq<string>, name: string): (r: Result<nat, CursorError>)
    ensures r.Ok? ==> r.value < |columns| && EqualIgnoringCase(columns[r.value], name)
    ensures r.Ok? ==> forall i :: 0 <= i < r.value ==> !EqualIgnoringCase(columns[i], name)
    ensures r.Err? <==> forall i :: 0 <= i < |columns| ==> !EqualIgnoringCase(columns[i], name)
    ensures r.Err? ==> r.error == NameNotFound(name)
  {
    var i := ColumnIndex(columns, name);
    if i == -1 then Err(NameNotFound(name)) else Ok(i)
  }

  /** The two lookups agree: one fails exactly where the other answers -1, and otherwise they give the same index. */
  lemma OrThrowAgreesWithIndex(columns: seq<string>, name: string)
    ensures ColumnIndexOrThrow(columns, name).Err? <==> ColumnIndex(columns, name) == -1
    ensures ColumnIndexOrThrow(columns, name).Ok? ==>
              ColumnIndexOrThrow(columns, name).value == ColumnIndex(columns, name)
  {
  }

  lemma {:induction false} IndexFromIgnoresCase(columns: seq<string>, a: string, b: string, from: nat)
    requires from <= |columns|
    requires EqualIgnoringCase(a, b)
    ensures IndexFrom(columns, a, from) == IndexFrom(columns, b, from)
    decreases |columns| - from
  {
    if from < |columns| {
      EqualIgnoringCaseEquivalence(a, b, columns[from]);
      EqualIgnoringCaseEquivalence(columns[from], a, b);
      EqualIgnoringCaseEquivalence(columns[from], b, a);
      IndexFromIgnoresCase(columns, a, b, from + 1);
    }
  }

  /** The lookup is case-insensitive: names that differ only in case find the same column. */
  lemma LookupIgnoresCase(columns: seq<string>, a: string, b: string)
    requires EqualIgnoringCase(a, b)
    ensures ColumnIndex(columns, a) == ColumnIndex(columns, b)
    ensures ColumnIndexOrThrow(columns, a).Ok? == ColumnIndexOrThrow(columns, b).Ok?
    ensures ColumnIndexOrThrow(columns, a).Ok? ==> ColumnIndexOrThrow(columns, a) == ColumnIndexOrThrow(columns, b)
  {
    IndexFromIgnoresCase(columns, a, b, 0);
  }

  /** No two columns answer to the same name. */
  predicate DistinctNames(columns: seq<string>)
  {
    forall i, j :: 0 <= i < j < |columns| ==> !EqualIgnoringCase(columns[i], columns[j])
  }

  /**
   * With distinct column names, every column is found at its own ordinal,
   * under its canonical name or under any other spelling of it.
   */
  lemma FindsEveryColumn(columns: seq<string>, k: nat, name: string)
    requires DistinctNames(columns)
    requires k < |columns| && EqualIgnoringCase(columns[k], name)
    ensures ColumnIndex(columns, name) == k
    ensures ColumnIndexOrThrow(columns, name) == Ok(k)
  {
    var r := ColumnIndex(columns, name);
    if r != k {
      EqualIgnoringCaseEquivalence(columns[r], name, columns[k]);
      EqualIgnoringCaseEquivalence(columns[k], name, columns[r]);
    }
  }
}
