/**
 * The quota gate shared by the generation and research handlers: count the
 * caller's ledger rows created inside a rolling 24-hour window and refuse
 * once that count reaches the daily cap.
 */
module Quota {
  import opened Tables

  /** `RATE_LIMIT_WINDOW_MS` */
  const WindowMs: int := 24 * 60 * 60 * 1000

  /** `.gte('created_at', windowStart)` with `windowStart = now - RATE_LIMIT_WINDOW_MS` */
  predicate InWindow(createdAt: Time, now: Time) {
    createdAt >= now - WindowMs
  }

  /** The exact row count a `select(..., { count: 'exact' })` with filter `p` returns. */
  function Count<T>(rows: seq<T>, p: T -> bool): (n: nat)
    ensures n <= |rows|
  {
    if rows == [] then 0 else (if p(rows[0]) then 1 else 0) + Count(rows[1..], p)
  }

  /** Appending one row raises the count by one exactly when the row passes the filter. */
  lemma {:induction false} CountAppend<T>(rows: seq<T>, x: T, p: T -> bool)
    ensures Count(rows + [x], p) == Count(rows, p) + (if p(x) then 1 else 0)
  {
    if rows != [] {
      assert (rows + [x])[1..] == rows[1..] + [x];
      CountAppend(rows[1..], x, p);
    }
  }

  /** A weaker filter counts at least as many rows. */
  lemma {:induction false} CountMonotone<T>(rows: seq<T>, p: T -> bool, q: T -> bool)
    requires forall k :: 0 <= k < |rows| && p(rows[k]) ==> q(rows[k])
    ensures Count(rows, p) <= Count(rows, q)
  {
    if rows != [] {
      assert forall k :: 0 <= k < |rows[1..]| ==> rows[1..][k] == rows[k + 1];
      CountMonotone(rows[1..], p, q);
    }
  }

  /** The rows a filter selects are as many as it counts. */
  lemma {:induction false} SelectCount<T>(rows: seq<T>, p: T -> bool)
    ensures |Select(rows, p)| == Count(rows, p)
  {
    if rows != [] {
      SelectCount(rows[1..], p);
    }
  }

  /**
   * Where the `k`-th selected row sits in the table: a row that passes the
   * filter and has exactly as many passing rows after it as the selection
   * has after position `k`.
   */
  function SelectedIndex<T>(rows: seq<T>, p: T -> bool, k: nat): (q: nat)
    requires k < |Select(rows, p)|
    ensures q < |rows| && rows[q] == Select(rows, p)[k] && p(rows[q])
    ensures Count(rows[q + 1..], p) == |Select(rows, p)| - 1 - k
    decreases |rows|
  {
    SelectSnoc(rows, p);
    if k == |Select(rows[..|rows| - 1], p)| then
      assert rows[|rows|..] == [];
      |rows| - 1
    else
      var q := SelectedIndex(rows[..|rows| - 1], p, k);
      CountSuffixSnoc(rows, p, q);
      q
  }

  /** Selecting from a non-empty table selects from all but its last row, then that row when it passes. */
  lemma {:induction false} SelectSnoc<T>(rows: seq<T>, p: T -> bool)
    requires rows != []
    ensures Select(rows, p) == Select(rows[..|rows| - 1], p) + (if p(rows[|rows| - 1]) then [rows[|rows| - 1]] else [])
  {
    assert rows == rows[..|rows| - 1] + [rows[|rows| - 1]];
    SelectAppend(rows[..|rows| - 1], rows[|rows| - 1], p);
  }

  /** The passing rows after position `q` are those of all but the last row, and the last row when it passes. */
  lemma {:induction false} CountSuffixSnoc<T>(rows: seq<T>, p: T -> bool, q: nat)
    requires q + 1 < |rows|
    ensures rows[q] == rows[..|rows| - 1][q]
    ensures Count(rows[q + 1..], p) == Count(rows[..|rows| - 1][q + 1..], p) + (if p(rows[|rows| - 1]) then 1 else 0)
  {
    var init := rows[..|rows| - 1];
    assert rows[q + 1..] == init[q + 1..] + [rows[|rows| - 1]];
    CountAppend(init[q + 1..], rows[|rows| - 1], p);
  }

  /** The outcome of `checkQuota`. */
  datatype Decision = Allowed | Denied(message: string)

  /**
   * `checkQuota` once the count query has run: a failed query refuses
   * ("Quota check failed"), and so does a count at or above the cap.
   */
  function Check(queryFailed: bool, count: nat, cap: nat, capMessage: string): (d: Decision)
    ensures d.Allowed? <==> !queryFailed && count < cap
    ensures queryFailed ==> d == Denied("Quota check failed")
    ensures !queryFailed && count >= cap ==> d == Denied(capMessage)
  {
    if queryFailed then Denied("Quota check failed")
    else if count >= cap then Denied(capMessage)
    else Allowed
  }

  /** The filter of a quota count: rows that `keep` selects, created inside the window ending at `now`. */
  function WindowFilter<T>(keep: T -> bool, createdAt: T -> Time, now: Time): T -> bool {
    (x: T) => keep(x) && InWindow(createdAt(x), now)
  }

  /** The count `checkQuota` compares with the cap. */
  function WindowCount<T>(rows: seq<T>, keep: T -> bool, createdAt: T -> Time, now: Time): (n: nat)
    ensures n <= |rows|
  {
    Count(rows, WindowFilter(keep, createdAt, now))
  }

  /** The window slides forward: the same rows, counted at a later time, never count more. */
  lemma WindowSlides<T>(rows: seq<T>, keep: T -> bool, createdAt: T -> Time, t: Time, t': Time)
    requires t <= t'
    ensures WindowCount(rows, keep, createdAt, t') <= WindowCount(rows, keep, createdAt, t)
  {
    CountMonotone(rows, WindowFilter(keep, createdAt, t'), WindowFilter(keep, createdAt, t));
  }

  /**
   * Requests handled one at a time keep a user under the cap: if the ledger
   * held at most `cap` counted rows at the previous request's time `t`, and a
   * request at `t' >= t` either appends nothing, or appends one row that does
   * not count, or appends one row after it saw fewer than `cap` counted rows,
   * then the ledger holds at most `cap` counted rows at `t'`.
   */
  lemma GatedAppendStaysUnderCap<T>(rows: seq<T>, rows': seq<T>, keep: T -> bool,
      createdAt: T -> Time, t: Time, t': Time, cap: nat)
    requires t <= t'
    requires WindowCount(rows, keep, createdAt, t) <= cap
    requires rows' == rows
          || (|rows'| == |rows| + 1 && rows'[..|rows|] == rows
              && (!WindowFilter(keep, createdAt, t')(rows'[|rows|])
                  || WindowCount(rows, keep, createdAt, t') < cap))
    ensures WindowCount(rows', keep, createdAt, t') <= cap
  {
    WindowSlides(rows, keep, createdAt, t, t');
    if rows' != rows {
      var x := rows'[|rows|];
      assert rows' == rows + [x];
      CountAppend(rows, x, WindowFilter(keep, createdAt, t'));
    }
  }
}
