/**
 * The cursor's position over a result of `n` rows: before the first row,
 * on row `i` (0 <= i < n), or after the last row. Navigation is forward
 * only and moves one row per step.
 */
module Navigation {

  datatype Position = BeforeFirst | OnRow(row: nat) | AfterLast

  /** A position is meaningful for `n` rows when the row it names exists. */
  predicate InRange(p: Position, n: nat)
  {
    p.OnRow? ==> p.row < n
  }

  /**
   * getPosition: the 0-based index of the current row; -1 before the first
   * row and `n` after the last one.
   */
  function Index(p: Position, n: nat): int
  {
    match p
    case BeforeFirst => -1
    case OnRow(i) => i
    case AfterLast => n
  }

  /**
   * moveToFirst: seek back to the first row, from wherever the cursor was;
   * an empty result leaves the cursor past its (absent) rows.
   */
  function First(n: nat): (q: Position)
    ensures InRange(q, n)
    ensures q.OnRow? <==> n > 0
    ensures q.OnRow? ==> Index(q, n) == 0
    ensures !q.OnRow? ==> q == AfterLast
  {
    if n == 0 then AfterLast else OnRow(0)
  }

  /**
   * moveToNext: one row forward. Every move except from after-last raises
   * the index by exactly one; the destination is a row exactly when that
   * index is below `n`; after-last is never left.
   */
  function Next(p: Position, n: nat): (q: Position)
    requires InRange(p, n)
    ensures InRange(q, n)
    ensures p != AfterLast ==> Index(q, n) == Index(p, n) + 1
    ensures p != AfterLast ==> (q.OnRow? <==> Index(p, n) + 1 < n)
    ensures q != BeforeFirst
    ensures p == AfterLast ==> q == AfterLast
  {
    match p
    case BeforeFirst => if n == 0 then AfterLast else OnRow(0)
    case OnRow(i) => if i + 1 < n then OnRow(i + 1) else AfterLast
    case AfterLast => AfterLast
  }

  /** The position after `k` successive calls of moveToNext. */
  function Advance(p: Position, n: nat, k: nat): (q: Position)
    requires InRange(p, n)
    ensures InRange(q, n)
    decreases k
  {
    if k == 0 then p else Advance(Next(p, n), n, k - 1)
  }

  /** Once past the last row, moveToNext never returns to a row. */
  lemma {:induction false} AfterLastStays(n: nat, k: nat)
    ensures Advance(AfterLast, n, k) == AfterLast
    decreases k
  {
    if k > 0 {
      AfterLastStays(n, k - 1);
    }
  }

  /** From row `i`, `k` calls of moveToNext reach row `i + k`, or after-last once the rows run out. */
  lemma {:induction false} AdvanceFromRow(n: nat, i: nat, k: nat)
    requires i < n
    ensures Advance(OnRow(i), n, k) == if i + k < n then OnRow(i + k) else AfterLast
    decreases k
  {
    if k > 0 {
      if i + 1 < n {
        AdvanceFromRow(n, i + 1, k - 1);
      } else {
        AfterLastStays(n, k - 1);
      }
    }
  }

  /**
   * moveToFirst followed by `k` calls of moveToNext stands on row `k` while
   * rows remain and after the last row from then on; an empty result never
   * reaches a row.
   */
  lemma ScanAfterFirst(n: nat, k: nat)
    ensures Advance(First(n), n, k) == if k < n then OnRow(k) else AfterLast
  {
    if n == 0 {
      AfterLastStays(n, k);
    } else {
      AdvanceFromRow(n, 0, k);
    }
  }

  /**
   * From before the first row, repeated moveToNext visits rows 0 .. n-1 in
   * order and then stays after the last one; getPosition is the number of
   * moves made so far minus one, and stops at `n`.
   */
  lemma ScanFromBeforeFirst(n: nat, k: nat)
    ensures Advance(BeforeFirst, n, k) ==
              if k == 0 then BeforeFirst else if k <= n then OnRow(k - 1) else AfterLast
    ensures Index(Advance(BeforeFirst, n, k), n) == (if k <= n then k else n + 1) - 1
  {
    if k > 0 {
      if n == 0 {
        AfterLastStays(n, k - 1);
      } else {
        AdvanceFromRow(n, 0, k - 1);
      }
    }
  }
}
