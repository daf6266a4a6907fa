/**
 * The `openclaw-proxy` function: the caller's 24-hour research usage, one
 * job by id, cancelling a job, and a page of the caller's jobs, chosen by
 * the request method and its action.
 */
module OpenclawProxy {
  import opened Wrappers
  import opened Json
  import opened Tables
  import Quota
  import OpenclawResearch

  // -------------------------------------------------------------- the usage

  /** The filter of the usage query: the caller's ledger rows created in the last 24 hours. */
  function UsageFilter(user: UserId, now: Time): AccountingRow -> bool {
    Quota.WindowFilter(OpenclawResearch.RowsOf(user), OpenclawResearch.AccountingCreated(), now)
  }

  /** The `records` of the usage report: the rows the usage query returns, newest first. */
  function UsageRecords(accounting: seq<AccountingRow>, user: UserId, now: Time): seq<AccountingRow> {
    NewestFirst(Select(accounting, UsageFilter(user, now)))
  }

  /** `rows.reduce((acc, r) => acc + f(r), 0)` over an integer column. */
  function SumOf(rows: seq<AccountingRow>, f: AccountingRow -> int): int {
    if rows == [] then 0 else f(rows[0]) + SumOf(rows[1..], f)
  }

  /** The same sum over `cost_units`, a missing value counting 0. */
  function CostOf(rows: seq<AccountingRow>): real {
    if rows == [] then 0.0 else rows[0].costUnits.GetOr(0.0) + CostOf(rows[1..])
  }

  function ApiCalls(): AccountingRow -> int {
    (r: AccountingRow) => r.apiCalls.GetOr(0)
  }

  function TokensUsed(): AccountingRow -> int {
    (r: AccountingRow) => r.tokensUsed.GetOr(0)
  }

  datatype UsageTotals = UsageTotals(apiCalls: int, tokensUsed: int, costUnits: real,
                                     records: seq<AccountingRow>)

  /**
   * The `usage` action's report: the records are the caller's ledger rows of
   * the last 24 hours, each of them and no other, and the totals are summed
   * over those records.
   */
  function Usage(accounting: seq<AccountingRow>, user: UserId, now: Time): (u: UsageTotals)
    ensures forall i :: 0 <= i < |u.records| ==>
              u.records[i] in accounting && u.records[i].userId == user && Quota.InWindow(u.records[i].createdAt, now)
    ensures forall r :: r in accounting && r.userId == user && Quota.InWindow(r.createdAt, now) ==> r in u.records
    ensures u.apiCalls == SumOf(u.records, ApiCalls()) && u.tokensUsed == SumOf(u.records, TokensUsed())
    ensures u.costUnits == CostOf(u.records)
  {
    var rows := UsageRecords(accounting, user, now);
    NewestFirstKeepsRows(Select(accounting, UsageFilter(user, now)));
    UsageTotals(SumOf(rows, ApiCalls()), SumOf(rows, TokensUsed()), CostOf(rows), rows)
  }

  /** Listing newest first keeps every row. */
  lemma NewestFirstKeepsRows(rows: seq<AccountingRow>)
    ensures forall x :: x in rows ==> x in NewestFirst(rows)
  {
    forall x | x in rows ensures x in NewestFirst(rows) {
      var i :| 0 <= i < |rows| && rows[i] == x;
      assert NewestFirst(rows)[|rows| - 1 - i] == x;
    }
  }

  lemma {:induction false} SumOfAppend(rows: seq<AccountingRow>, x: AccountingRow, f: AccountingRow -> int)
    ensures SumOf(rows + [x], f) == SumOf(rows, f) + f(x)
  {
    if rows != [] {
      assert (rows + [x])[1..] == rows[1..] + [x];
      SumOfAppend(rows[1..], x, f);
    }
  }

  lemma {:induction false} CostOfAppend(rows: seq<AccountingRow>, x: AccountingRow)
    ensures CostOf(rows + [x]) == CostOf(rows) + x.costUnits.GetOr(0.0)
  {
    if rows != [] {
      assert (rows + [x])[1..] == rows[1..] + [x];
      CostOfAppend(rows[1..], x);
    }
  }

  /** The order the rows come back in does not change the totals. */
  lemma {:induction false} TotalsIgnoreOrder(rows: seq<AccountingRow>, f: AccountingRow -> int)
    ensures SumOf(NewestFirst(rows), f) == SumOf(rows, f)
    ensures CostOf(NewestFirst(rows)) == CostOf(rows)
  {
    if rows != [] {
      var init, last := rows[..|rows| - 1], rows[|rows| - 1];
      var r := NewestFirst(rows);
      assert r == [last] + NewestFirst(init);
      assert r[1..] == NewestFirst(init);
      TotalsIgnoreOrder(init, f);
      assert rows == init + [last];
      SumOfAppend(init, last, f);
      CostOfAppend(init, last);
    }
  }


  /**
   * The totals are the sums, over the caller's rows created in the last 24
   * hours, of `api_calls`, `tokens_used` and `cost_units`, a missing value
   * counting 0: a new ledger row raises each total by its own value when it
   * is the caller's and inside the window, and leaves them alone otherwise.
   */
  lemma NewRowRaisesTotals(accounting: seq<AccountingRow>, x: AccountingRow, user: UserId, now: Time)
    ensures var before, after := Usage(accounting, user, now), Usage(accounting + [x], user, now);
      if x.userId == user && Quota.InWindow(x.createdAt, now) then
        && after.apiCalls == before.apiCalls + x.apiCalls.GetOr(0)
        && after.tokensUsed == before.tokensUsed + x.tokensUsed.GetOr(0)
        && after.costUnits == before.costUnits + x.costUnits.GetOr(0.0)
        && after.records == [x] + before.records
      else after == before
  {
    var p := UsageFilter(user, now);
    var sel := Select(accounting, p);
    SelectAppend(accounting, x, p);
    if p(x) {
      var r := NewestFirst(sel + [x]);
      assert r == [x] + NewestFirst(sel) by {
        assert (sel + [x])[..|sel|] == sel;
      }
      assert r[1..] == NewestFirst(sel);
    } else {
      assert Select(accounting + [x], p) == sel;
    }
  }

  /** The report lists as many records as the research quota counts at the same time. */
  lemma RecordsAreQuotaCount(accounting: seq<AccountingRow>, user: UserId, now: Time)
    ensures |Usage(accounting, user, now).records| == OpenclawResearch.ResearchCount(accounting, user, now)
  {
    Quota.SelectCount(accounting, UsageFilter(user, now));
  }

  /** The shape of the rows the research handler's `recordUsage` writes. */
  predicate FromRecordUsage(r: AccountingRow) {
    r.apiCalls == Some(1) && r.tokensUsed == Some(0) && r.costUnits.None?
  }

  lemma {:induction false} TotalsOfRecordUsageRows(rows: seq<AccountingRow>)
    requires forall i :: 0 <= i < |rows| ==> FromRecordUsage(rows[i])
    ensures SumOf(rows, ApiCalls()) == |rows| && SumOf(rows, TokensUsed()) == 0 && CostOf(rows) == 0.0
  {
    if rows != [] {
      TotalsOfRecordUsageRows(rows[1..]);
    }
  }

  /**
   * When the ledger holds only rows written by the research handler,
   * `api_calls_24h` is the caller's research count in the window, and no
   * tokens and no cost are reported.
   */
  lemma ResearchOnlyLedger(accounting: seq<AccountingRow>, user: UserId, now: Time)
    requires forall i :: 0 <= i < |accounting| ==> FromRecordUsage(accounting[i])
    ensures var u := Usage(accounting, user, now);
      u.apiCalls == OpenclawResearch.ResearchCount(accounting, user, now)
      && u.tokensUsed == 0 && u.costUnits == 0.0
  {
    var rows := UsageRecords(accounting, user, now);
    forall i | 0 <= i < |rows| ensures FromRecordUsage(rows[i]) {
      assert rows[i] in accounting;
    }
    TotalsOfRecordUsageRows(rows);
    RecordsAreQuotaCount(accounting, user, now);
  }

  // ---------------------------------------------------------------- replies

  datatype ProxyReply =
    | NoContent                                   // 204, the preflight
    | UsageReport(totals: UsageTotals)            // 200
    | JobFound(job: Job)                          // 200
    | JobCancelled(job: Job)                      // 200, `message: 'Job cancelled'`
    | JobList(jobs: seq<Job>, count: nat)         // 200
    | BadRequest(error: string)                   // 400
    | NotFound(error: string)                     // 404
    | ServerError                                 // 500, the backend's message is not modelled

  // ------------------------------------------------------------------ `get`

  /** The `get` action: `job_id` from the query string, looked up among the caller's jobs. */
  function GetJob(jobs: seq<Job>, user: UserId, jobId: Option<string>): (r: ProxyReply)
    ensures r.BadRequest? || r.NotFound? || r.JobFound?
    ensures r.BadRequest? <==> jobId.None? || jobId.value == ""
    ensures r.BadRequest? ==> r.error == "job_id is required"
    ensures r.NotFound? <==> (jobId.Some? && jobId.value != ""
                              && forall i :: 0 <= i < |jobs| ==> !(jobs[i].id == jobId.value && jobs[i].userId == user))
    ensures r.NotFound? ==> r.error == "Job not found"
    ensures r.JobFound? ==> r.job in jobs && r.job.id == jobId.value && r.job.userId == user
  {
    if jobId.None? || jobId.value == "" then BadRequest("job_id is required")
    else match FindJob(jobs, jobId.value, user)
      case None => NotFound("Job not found")
      case Some(i) => JobFound(jobs[i])
  }

  // --------------------------------------------------------------- `cancel`

  const CancelRefused: string := "Job not found or already completed"

  /** The `cancel` action: the caller's job with that id becomes cancelled, whatever its status. */
  function CancelStep(jobs: seq<Job>, user: UserId, jobId: Id, updateFails: bool, now: Time): (r: (ProxyReply, seq<Job>))
    ensures r.0 == NotFound(CancelRefused) || r.0.JobCancelled?
    ensures r.0.NotFound? ==> r.1 == jobs
    ensures r.0.JobCancelled? <==> !updateFails && exists i :: 0 <= i < |jobs| && jobs[i].id == jobId && jobs[i].userId == user
    ensures r.0.JobCancelled? ==> r.0.job.status == Cancelled && r.0.job.id == jobId && r.0.job.userId == user
                                  && r.0.job in r.1 && |r.1| == |jobs|
  {
    match FindJob(jobs, jobId, user)
    case None => (NotFound(CancelRefused), jobs)
    case Some(i) =>
      if updateFails then (NotFound(CancelRefused), jobs)
      else
        var j := jobs[i].(status := Cancelled, updatedAt := now);
        assert jobs[i := j][i] == j;
        (JobCancelled(j), jobs[i := j])
  }

  /** `.update({ status: 'cancelled', updated_at }).eq('id', job_id).eq('user_id', user.id)`, in place. */
  method Cancel(db: Database, user: UserId, jobId: Id, updateFails: bool, now: Time) returns (reply: ProxyReply)
    requires JobIdsUnique(db.jobs)
    modifies db
    ensures JobIdsUnique(db.jobs)
    ensures db.outputs == old(db.outputs) && db.usage == old(db.usage)
         && db.accounting == old(db.accounting) && db.assets == old(db.assets)
    ensures (reply, db.jobs) == CancelStep(old(db.jobs), user, jobId, updateFails, now)
  {
    var at := FindJob(db.jobs, jobId, user);
    if at.None? || updateFails {
      return NotFound(CancelRefused);
    }
    var i := at.value;
    var j := db.jobs[i].(status := Cancelled, updatedAt := now);
    ReplaceKeepsJobIdsUnique(db.jobs, i, j);
    db.jobs := db.jobs[i := j];
    reply := JobCancelled(j);
  }

  /**
   * A successful cancel changes exactly one row, the caller's row with that
   * id, whose status becomes cancelled (even a completed job's) while every
   * other column but `updated_at` is kept; the reply is that new row.
   */
  lemma CancelTouchesOnlyTarget(jobs: seq<Job>, user: UserId, jobId: Id, updateFails: bool, now: Time)
    ensures var (reply, jobs') := CancelStep(jobs, user, jobId, updateFails, now);
      reply.JobCancelled? ==>
        && |jobs'| == |jobs|
        && (exists i :: 0 <= i < |jobs| && jobs[i].id == jobId && jobs[i].userId == user
                        && jobs'[i] == reply.job
                        && reply.job == jobs[i].(status := Cancelled, updatedAt := now))
        && (forall k :: 0 <= k < |jobs| && jobs'[k] != jobs[k] ==> jobs[k].id == jobId && jobs[k].userId == user)
  {
    var (reply, jobs') := CancelStep(jobs, user, jobId, updateFails, now);
    if reply.JobCancelled? {
      var i := FindJob(jobs, jobId, user).value;
      assert jobs'[i] == reply.job;
    }
  }

  /** Cancelling a job that is absent or someone else's is a 404 and changes nothing. */
  lemma CancelNotFound(jobs: seq<Job>, user: UserId, jobId: Id, updateFails: bool, now: Time)
    requires forall i :: 0 <= i < |jobs| ==> !(jobs[i].id == jobId && jobs[i].userId == user)
    ensures CancelStep(jobs, user, jobId, updateFails, now) == (NotFound(CancelRefused), jobs)
  {
  }

  /** Cancelling the same job again succeeds and only moves its `updated_at`. */
  lemma CancelTwice(jobs: seq<Job>, user: UserId, jobId: Id, now: Time, later: Time)
    ensures var (r1, once) := CancelStep(jobs, user, jobId, false, now);
      var (r2, twice) := CancelStep(once, user, jobId, false, later);
      r1.JobCancelled? ==> (r2.JobCancelled? && r2.job == r1.job.(updatedAt := later)
                            && |twice| == |once|
                            && forall k :: 0 <= k < |once| ==> twice[k].status == once[k].status)
  {
    var (r1, once) := CancelStep(jobs, user, jobId, false, now);
    if r1.JobCancelled? {
      var i := FindJob(jobs, jobId, user).value;
      var i' := FindJob(once, jobId, user);
      assert once[i].id == jobId && once[i].userId == user;
      assert i'.Some? && i'.value == i;
    }
  }

  // ----------------------------------------------------------------- `list`

  /** The body fields of a `list` request; `limit`/`offset` are `Number(...)`, `None` when that is `NaN`. */
  datatype ListParams = ListParams(limit: Option<int>, offset: Option<int>, status: Option<Value>)

  /** `Math.min(Number(body.limit) || 20, 100)` */
  function EffectiveLimit(limit: Option<int>): (n: int)
    ensures n <= 100
    ensures limit.None? || limit.value == 0 ==> n == 20
    ensures limit.Some? && limit.value != 0 && limit.value <= 100 ==> n == limit.value
    ensures limit.Some? && limit.value >= 100 ==> n == 100
  {
    var l := if limit.None? || limit.value == 0 then 20 else limit.value;
    if l < 100 then l else 100
  }

  /** `Number(body.offset) || 0` */
  function EffectiveOffset(offset: Option<int>): (n: int)
    ensures offset.None? ==> n == 0
    ensures offset.Some? ==> n == offset.value
  {
    offset.GetOr(0)
  }

  /**
   * The rows a `list` query keeps: the caller's, and of status `statusFilter`
   * when that is a non-empty string.
   */
  predicate Listed(user: UserId, status: Option<Value>, j: Job) {
    j.userId == user && (FieldTruthy(status) && status.value.Str? ==> StatusName(j.status) == status.value.s)
  }

  function ListFilter(user: UserId, status: Option<Value>): Job -> bool {
    (j: Job) => Listed(user, status, j)
  }

  /** `.range(offset, offset + limit - 1)` on rows already ordered. */
  function Window(rows: seq<Job>, offset: nat, limit: nat): (r: seq<Job>)
    ensures |r| <= limit
    ensures offset + |r| <= |rows| || r == []
    ensures forall i :: 0 <= i < |r| ==> offset + i < |rows| && r[i] == rows[offset + i]
    ensures offset + limit <= |rows| ==> |r| == limit
    ensures offset < |rows| < offset + limit ==> |r| == |rows| - offset
    ensures |rows| <= offset ==> r == []
  {
    if offset >= |rows| then []
    else if offset + limit <= |rows| then rows[offset..offset + limit]
    else rows[offset..]
  }

  /**
   * The rows a `list` query returns; `None` when the backend refuses the
   * range, which happens for a negative offset or a negative limit.
   */
  function ListJobs(jobs: seq<Job>, user: UserId, p: ListParams): (r: Option<seq<Job>>)
    ensures r.None? <==> EffectiveOffset(p.offset) < 0 || EffectiveLimit(p.limit) < 0
    ensures r.Some? ==> |r.value| <= EffectiveLimit(p.limit)
  {
    var limit, offset := EffectiveLimit(p.limit), EffectiveOffset(p.offset);
    if offset < 0 || limit < 0 then None
    else Some(Window(NewestFirst(Select(jobs, ListFilter(user, p.status))), offset, limit))
  }

  lemma PageOfSelection(sel: seq<Job>, offset: nat, limit: nat)
    ensures forall i :: 0 <= i < |Window(NewestFirst(sel), offset, limit)| ==> Window(NewestFirst(sel), offset, limit)[i] in sel
  {
    var w := Window(NewestFirst(sel), offset, limit);
    forall i | 0 <= i < |w| ensures w[i] in sel {
      assert w[i] == NewestFirst(sel)[offset + i] == sel[|sel| - 1 - (offset + i)];
    }
  }

  /** A page holds at most 100 jobs, all of them the caller's and, when a status is given, of that status. */
  lemma ListBounded(jobs: seq<Job>, user: UserId, p: ListParams)
    ensures var r := ListJobs(jobs, user, p);
      r.Some? ==>
        && |r.value| <= 100
        && (p.limit.None? || p.limit.value == 0 ==> |r.value| <= 20)
        && forall i :: 0 <= i < |r.value| ==>
             && r.value[i] in jobs && r.value[i].userId == user
             && (FieldTruthy(p.status) && p.status.value.Str? ==> StatusName(r.value[i].status) == p.status.value.s)
  {
    var r := ListJobs(jobs, user, p);
    if r.Some? {
      var sel := Select(jobs, ListFilter(user, p.status));
      PageOfSelection(sel, EffectiveOffset(p.offset), EffectiveLimit(p.limit));
      forall i | 0 <= i < |r.value|
        ensures && r.value[i] in jobs && r.value[i].userId == user
                && (FieldTruthy(p.status) && p.status.value.Str? ==> StatusName(r.value[i].status) == p.status.value.s)
      {
        assert r.value[i] in sel;
        assert Listed(user, p.status, r.value[i]);
      }
    }
  }

  /**
   * Which jobs a page holds, in terms of the table: with `c` listed jobs (the
   * caller's, of the requested status), the page has `min(limit, c - offset)`
   * rows, none when the offset reaches `c`, and its `i`-th row is the listed
   * job that has exactly `offset + i` listed jobs after it in the table.
   */
  lemma {:induction false} ListPageExact(jobs: seq<Job>, user: UserId, p: ListParams)
    ensures var r := ListJobs(jobs, user, p);
      var c := Quota.Count(jobs, ListFilter(user, p.status));
      var offset, limit := EffectiveOffset(p.offset), EffectiveLimit(p.limit);
      r.Some? ==>
        && |r.value| == (if c <= offset then 0 else if c - offset < limit then c - offset else limit)
        && forall i :: 0 <= i < |r.value| ==>
             exists q :: 0 <= q < |jobs| && jobs[q] == r.value[i] && Listed(user, p.status, jobs[q])
                         && Quota.Count(jobs[q + 1..], ListFilter(user, p.status)) == offset + i
  {
    ListPageLength(jobs, user, p);
    ListRows(jobs, user, p);
  }

  /** Each row of a page is the listed job with `offset + i` listed jobs after it. */
  lemma {:induction false} ListRows(jobs: seq<Job>, user: UserId, p: ListParams)
    ensures var r := ListJobs(jobs, user, p);
      r.Some? ==>
        forall i :: 0 <= i < |r.value| ==>
          exists q :: 0 <= q < |jobs| && jobs[q] == r.value[i] && Listed(user, p.status, jobs[q])
                      && Quota.Count(jobs[q + 1..], ListFilter(user, p.status)) == EffectiveOffset(p.offset) + i
  {
    var r := ListJobs(jobs, user, p);
    if r.Some? {
      forall i | 0 <= i < |r.value|
        ensures exists q :: 0 <= q < |jobs| && jobs[q] == r.value[i] && Listed(user, p.status, jobs[q])
                            && Quota.Count(jobs[q + 1..], ListFilter(user, p.status)) == EffectiveOffset(p.offset) + i
      {
        var q := ListRowAt(jobs, user, p, i);
      }
    }
  }

  /** A page has `min(limit, c - offset)` rows for `c` listed jobs, and none once the offset reaches `c`. */
  lemma {:induction false} ListPageLength(jobs: seq<Job>, user: UserId, p: ListParams)
    ensures var r := ListJobs(jobs, user, p);
      var c := Quota.Count(jobs, ListFilter(user, p.status));
      var offset, limit := EffectiveOffset(p.offset), EffectiveLimit(p.limit);
      r.Some? ==> |r.value| == (if c <= offset then 0 else if c - offset < limit then c - offset else limit)
  {
    var sel := Select(jobs, ListFilter(user, p.status));
    Quota.SelectCount(jobs, ListFilter(user, p.status));
    assert |NewestFirst(sel)| == |sel|;
  }

  /** The table row behind the `i`-th row of a page: listed, with `offset + i` listed jobs after it. */
  lemma {:induction false} ListRowAt(jobs: seq<Job>, user: UserId, p: ListParams, i: nat) returns (q: nat)
    requires ListJobs(jobs, user, p).Some? && i < |ListJobs(jobs, user, p).value|
    ensures q < |jobs| && jobs[q] == ListJobs(jobs, user, p).value[i] && Listed(user, p.status, jobs[q])
    ensures Quota.Count(jobs[q + 1..], ListFilter(user, p.status)) == EffectiveOffset(p.offset) + i
  {
    var f := ListFilter(user, p.status);
    var sel := Select(jobs, f);
    var offset, limit := EffectiveOffset(p.offset), EffectiveLimit(p.limit);
    assert ListJobs(jobs, user, p).value == Window(NewestFirst(sel), offset, limit);
    var k := |sel| - 1 - (offset + i);
    assert ListJobs(jobs, user, p).value[i] == sel[k];
    q := Quota.SelectedIndex(jobs, f, k);
  }

  /** `created_at` never decreases along the table. */
  predicate CreatedInOrder(jobs: seq<Job>) {
    forall i, j :: 0 <= i < j < |jobs| ==> jobs[i].createdAt <= jobs[j].createdAt
  }

  /** `created_at` never increases along a page. */
  predicate NewestToOldest(jobs: seq<Job>) {
    forall i, j :: 0 <= i < j < |jobs| ==> jobs[i].createdAt >= jobs[j].createdAt
  }

  lemma {:induction false} SelectKeepsOrder(jobs: seq<Job>, p: Job -> bool)
    requires CreatedInOrder(jobs)
    ensures CreatedInOrder(Select(jobs, p))
  {
    if jobs != [] {
      var tail := jobs[1..];
      var rest := Select(tail, p);
      SelectKeepsOrder(tail, p);
      forall k | 0 <= k < |rest| ensures jobs[0].createdAt <= rest[k].createdAt {
        var m :| 0 <= m < |tail| && tail[m] == rest[k];
        assert tail[m] == jobs[m + 1];
      }
      if p(jobs[0]) {
        PrependKeepsOrder(jobs[0], rest);
      }
    }
  }

  /** A row no later than every row of an ordered run can go in front of it. */
  lemma PrependKeepsOrder(x: Job, rest: seq<Job>)
    requires CreatedInOrder(rest)
    requires forall k :: 0 <= k < |rest| ==> x.createdAt <= rest[k].createdAt
    ensures CreatedInOrder([x] + rest)
  {
    var r := [x] + rest;
    forall i, j | 0 <= i < j < |r| ensures r[i].createdAt <= r[j].createdAt {
      assert r[j] == rest[j - 1];
      if i > 0 {
        assert r[i] == rest[i - 1];
      }
    }
  }

  lemma NewestFirstReversesOrder(rows: seq<Job>)
    requires CreatedInOrder(rows)
    ensures NewestToOldest(NewestFirst(rows))
  {
    var r := NewestFirst(rows);
    forall i, j | 0 <= i < j < |r| ensures r[i].createdAt >= r[j].createdAt {
      assert r[i] == rows[|rows| - 1 - i] && r[j] == rows[|rows| - 1 - j];
    }
  }

  lemma WindowKeepsOrder(rows: seq<Job>, offset: nat, limit: nat)
    requires NewestToOldest(rows)
    ensures NewestToOldest(Window(rows, offset, limit))
  {
    var r := Window(rows, offset, limit);
    forall i, j | 0 <= i < j < |r| ensures r[i].createdAt >= r[j].createdAt {
      assert r[i] == rows[offset + i] && r[j] == rows[offset + j];
    }
  }

  /**
   * When the table holds the jobs in the order they were created, a page
   * lists them newest first, as `.order('created_at', { ascending: false })`
   * asks.
   */
  lemma ListNewestFirst(jobs: seq<Job>, user: UserId, p: ListParams)
    requires CreatedInOrder(jobs)
    ensures var r := ListJobs(jobs, user, p);
      r.Some? ==> NewestToOldest(r.value)
  {
    var sel := Select(jobs, ListFilter(user, p.status));
    SelectKeepsOrder(jobs, ListFilter(user, p.status));
    NewestFirstReversesOrder(sel);
    var r := ListJobs(jobs, user, p);
    if r.Some? {
      WindowKeepsOrder(NewestFirst(sel), EffectiveOffset(p.offset), EffectiveLimit(p.limit));
    }
  }

  /** The `list` reply: `count` is the length of the page, not the number of matching jobs. */
  function ListReply(jobs: seq<Job>, user: UserId, p: ListParams, queryFails: bool): (r: ProxyReply)
    ensures r.JobList? || r.ServerError?
    ensures r.JobList? ==> r.count == |r.jobs| && Some(r.jobs) == ListJobs(jobs, user, p)
    ensures r.ServerError? <==> queryFails || ListJobs(jobs, user, p).None?
  {
    match ListJobs(jobs, user, p)
    case None => ServerError
    case Some(page) => if queryFails then ServerError else JobList(page, |page|)
  }

  // ------------------------------------------------------------- dispatch

  datatype HttpMethod = GET | POST | OPTIONS | OtherMethod

  /**
   * What the handler reads from a request: the method, the query string's
   * `action` and `job_id`, and the body's `action`, `job_id` and list fields
   * (all `None` when the body does not parse).
   */
  datatype ProxyRequest = ProxyRequest(verb: HttpMethod, queryAction: Option<string>,
                                       queryJobId: Option<string>, bodyAction: Option<Value>,
                                       bodyJobId: Option<string>, list: ListParams)

  datatype Action = Preflight | ReadUsage | GetOne(jobId: Option<string>) | CancelOne(target: Id)
                  | ListPage(params: ListParams) | Unmatched

  /** `bodyAction ?? url.searchParams.get('action')`: no default here. */
  function PostAction(req: ProxyRequest): Value {
    Coalesce(req.bodyAction, if req.queryAction.Some? then Str(req.queryAction.value) else Null)
  }

  /** The branch the handler takes. */
  function Route(req: ProxyRequest): (a: Action)
    ensures a.Preflight? <==> req.verb == OPTIONS
    ensures a.ReadUsage? <==> req.verb == GET && req.queryAction == Some("usage")
    ensures a.GetOne? <==> req.verb == GET && (req.queryAction.None? || req.queryAction == Some("get"))
    ensures a.GetOne? ==> a.jobId == req.queryJobId
    ensures a.CancelOne? <==> (req.verb == POST && PostAction(req) == Str("cancel")
                               && req.bodyJobId.Some? && req.bodyJobId.value != "")
    ensures a.CancelOne? ==> a.target == req.bodyJobId.value
    ensures a.ListPage? <==> req.verb == POST && PostAction(req) == Str("list")
    ensures a.ListPage? ==> a.params == req.list
  {
    if req.verb == OPTIONS then Preflight
    else
      var action := req.queryAction.GetOr("get");
      if req.verb == GET && action == "usage" then ReadUsage
      else if req.verb == GET && action == "get" then GetOne(req.queryJobId)
      else if req.verb == POST then
        var act := PostAction(req);
        if act == Str("cancel") && req.bodyJobId.Some? && req.bodyJobId.value != "" then CancelOne(req.bodyJobId.value)
        else if act == Str("list") then ListPage(req.list)
        else Unmatched
      else Unmatched
  }

  /** In a POST the body's action wins over the query string's; without either there is no action. */
  lemma PostActionPrecedence(req: ProxyRequest)
    requires req.verb == POST
    ensures req.bodyAction.Some? && !req.bodyAction.value.Null? ==> PostAction(req) == req.bodyAction.value
    ensures (req.bodyAction.None? || req.bodyAction.value.Null?) && req.queryAction.Some?
            ==> PostAction(req) == Str(req.queryAction.value)
    ensures (req.bodyAction.None? || req.bodyAction.value.Null?) && req.queryAction.None?
            ==> Route(req) == Unmatched
  {
  }

  /** What the handler's collaborators answer: the usage query, the cancel update, the list query, and the clock. */
  datatype ProxyEnv = ProxyEnv(usageFails: bool, cancelFails: bool, listFails: bool, now: Time)

  /** One request, as a function of the tables before it: the reply and the jobs table after it. */
  function ProxyStep(jobs: seq<Job>, accounting: seq<AccountingRow>, user: UserId,
                     req: ProxyRequest, env: ProxyEnv): (r: (ProxyReply, seq<Job>))
    ensures |r.1| == |jobs|
    ensures r.0 == NoContent <==> req.verb == OPTIONS
    ensures r.0.UsageReport? <==> Route(req).ReadUsage? && !env.usageFails
    ensures r.0 == BadRequest("Invalid action or method") <==> Route(req).Unmatched?
    ensures req.verb == OtherMethod ==> r.0 == BadRequest("Invalid action or method")
  {
    match Route(req)
    case Preflight => (NoContent, jobs)
    case ReadUsage => (if env.usageFails then ServerError else UsageReport(Usage(accounting, user, env.now)), jobs)
    case GetOne(jobId) => (GetJob(jobs, user, jobId), jobs)
    case CancelOne(jobId) => CancelStep(jobs, user, jobId, env.cancelFails, env.now)
    case ListPage(p) => (ListReply(jobs, user, p, env.listFails), jobs)
    case Unmatched => (BadRequest("Invalid action or method"), jobs)
  }

  /** Only a cancel writes; every other branch leaves the jobs table as it was. */
  lemma OnlyCancelWrites(jobs: seq<Job>, accounting: seq<AccountingRow>, user: UserId,
                         req: ProxyRequest, env: ProxyEnv)
    ensures var (reply, jobs') := ProxyStep(jobs, accounting, user, req, env);
      jobs' != jobs ==> Route(req).CancelOne? && reply.JobCancelled?
    ensures Route(req).Unmatched? ==> ProxyStep(jobs, accounting, user, req, env).0 == BadRequest("Invalid action or method")
  {
  }

  /** The handler body after authentication (`user` is the caller). */
  method Proxy(db: Database, user: UserId, req: ProxyRequest, env: ProxyEnv) returns (reply: ProxyReply)
    requires db.Valid()
    modifies db
    ensures db.Valid()
    ensures db.outputs == old(db.outputs) && db.usage == old(db.usage)
         && db.accounting == old(db.accounting) && db.assets == old(db.assets)
    ensures (reply, db.jobs) == ProxyStep(old(db.jobs), old(db.accounting), user, req, env)
  {
    match Route(req)
    case Preflight => reply := NoContent;
    case ReadUsage =>
      reply := if env.usageFails then ServerError else UsageReport(Usage(db.accounting, user, env.now));
    case GetOne(jobId) => reply := GetJob(db.jobs, user, jobId);
    case CancelOne(jobId) => reply := Cancel(db, user, jobId, env.cancelFails, env.now);
    case ListPage(p) => reply := ListReply(db.jobs, user, p, env.listFails);
    case Unmatched => reply := BadRequest("Invalid action or method");
  }

  // ---------------------------------------------- the creation order is kept

  /** No job was created after `now`. */
  predicate CreatedBy(jobs: seq<Job>, now: Time) {
    forall k :: 0 <= k < |jobs| ==> jobs[k].createdAt <= now
  }

  /** A row no earlier than every row of an ordered table can go at its end. */
  lemma AppendKeepsOrder(jobs: seq<Job>, x: Job)
    requires CreatedInOrder(jobs) && CreatedBy(jobs, x.createdAt)
    ensures CreatedInOrder(jobs + [x])
  {
    var r := jobs + [x];
    forall i, j | 0 <= i < j < |r| ensures r[i].createdAt <= r[j].createdAt {
      assert r[i] == jobs[i];
      if j < |jobs| {
        assert r[j] == jobs[j];
      }
    }
  }

  /**
   * A research request handled at a clock no earlier than any stored
   * `created_at` keeps the jobs table in creation order: the one row it may
   * insert is stamped with that clock, and completing it in place keeps the
   * stamp.
   */
  lemma ResearchKeepsCreatedInOrder(jobs: seq<Job>, accounting: seq<AccountingRow>, user: UserId,
                                    req: OpenclawResearch.ResearchRequest, env: OpenclawResearch.ResearchEnv)
    requires CreatedInOrder(jobs) && CreatedBy(jobs, env.now)
    ensures var jobs' := OpenclawResearch.ResearchStep(jobs, accounting, user, req, env).jobs;
      CreatedInOrder(jobs') && CreatedBy(jobs', env.now)
  {
    var jobs' := OpenclawResearch.ResearchStep(jobs, accounting, user, req, env).jobs;
    if jobs' != jobs {
      var v := OpenclawResearch.ValidateQuery(req.query);
      assert v.Accepted?;
      var job := OpenclawResearch.NewJob(user, req, v.query, env);
      var f := OpenclawResearch.Finalize(OpenclawResearch.UpstreamOutcome(env.apiConfigured, env.fetch, env.now),
                                         v.query, env.now);
      var x := if env.updateFails then job else OpenclawResearch.CompleteJob(job, f, env.now);
      assert jobs' == jobs + [x];
      AppendKeepsOrder(jobs, x);
    }
  }

  /** A cancel touches `status` and `updated_at` only, so the creation order and its bound are kept. */
  lemma CancelKeepsCreatedInOrder(jobs: seq<Job>, user: UserId, jobId: Id, updateFails: bool, now: Time, bound: Time)
    requires CreatedInOrder(jobs)
    ensures var jobs' := CancelStep(jobs, user, jobId, updateFails, now).1;
      CreatedInOrder(jobs') && (CreatedBy(jobs, bound) ==> CreatedBy(jobs', bound))
  {
    var jobs' := CancelStep(jobs, user, jobId, updateFails, now).1;
    assert |jobs'| == |jobs| && forall k :: 0 <= k < |jobs| ==> jobs'[k].createdAt == jobs[k].createdAt;
  }

  /** No proxy request disturbs the creation order: only a cancel writes, and it keeps every `created_at`. */
  lemma ProxyKeepsCreatedInOrder(jobs: seq<Job>, accounting: seq<AccountingRow>, user: UserId,
                                 req: ProxyRequest, env: ProxyEnv, bound: Time)
    requires CreatedInOrder(jobs)
    ensures var jobs' := ProxyStep(jobs, accounting, user, req, env).1;
      CreatedInOrder(jobs') && (CreatedBy(jobs, bound) ==> CreatedBy(jobs', bound))
  {
    if Route(req).CancelOne? {
      CancelKeepsCreatedInOrder(jobs, user, Route(req).target, env.cancelFails, env.now, bound);
    }
  }

  /**
   * Research requests on a clock that never runs backwards keep the table in
   * creation order, so every later `list` page comes newest first, as
   * `.order('created_at', { ascending: false })` asks.
   */
  lemma ResearchThenListNewestFirst(jobs: seq<Job>, accounting: seq<AccountingRow>, user: UserId,
                                    req: OpenclawResearch.ResearchRequest, env: OpenclawResearch.ResearchEnv,
                                    reader: UserId, p: ListParams)
    requires CreatedInOrder(jobs) && CreatedBy(jobs, env.now)
    ensures var r := ListJobs(OpenclawResearch.ResearchStep(jobs, accounting, user, req, env).jobs, reader, p);
      r.Some? ==> NewestToOldest(r.value)
  {
    ResearchKeepsCreatedInOrder(jobs, accounting, user, req, env);
    ListNewestFirst(OpenclawResearch.ResearchStep(jobs, accounting, user, req, env).jobs, reader, p);
  }
}
