/**
 * The backend tables the serverless functions read and write, held in memory.
 * A row id is the table's primary key: an insert whose id is already taken fails.
 */
module Tables {
  import opened Wrappers

  /** Row ids and user ids are opaque strings (UUIDs in the source). */
  type Id = string
  type UserId = string
  /** Milliseconds since the epoch. */
  type Time = int

  /** The `status` column of `openclaw_research_jobs`. */
  datatype JobStatus = Pending | Running | Completed | Failed | Cancelled

  function StatusName(s: JobStatus): string {
    match s
    case Pending => "pending"
    case Running => "running"
    case Completed => "completed"
    case Failed => "failed"
    case Cancelled => "cancelled"
  }

  /** One research source as stored in a job's `sources` column. */
  datatype Source = Source(url: string, title: Option<string>, snippet: Option<string>,
                           timestamp: Time, confidence: real)

  /** A row of `openclaw_research_jobs`; `confidenceScore` is `metadata.confidence_score`. */
  datatype Job = Job(id: Id, userId: UserId, agentId: Option<string>, query: string,
                     outputType: string, status: JobStatus, progress: int,
                     outputText: Option<string>, sources: seq<Source>,
                     confidenceScore: Option<real>, contentItemId: Option<string>,
                     createdAt: Time, updatedAt: Time)

  /** A row of `openclaw_generated_outputs`. */
  datatype Output = Output(id: Id, userId: UserId, jobId: Option<string>, outputType: string,
                           content: string, confidenceScore: real, approved: bool, createdAt: Time)

  /** A row of `openclaw_usage`, the generation ledger. */
  datatype UsageRow = UsageRow(userId: UserId, operationType: string, tokensUsed: int, createdAt: Time)

  /** A row of `openclaw_usage_accounting`, the research ledger; a column left unset is `None`. */
  datatype AccountingRow = AccountingRow(userId: UserId, jobId: Option<Id>, apiCalls: Option<int>,
                                         tokensUsed: Option<int>, costUnits: Option<real>,
                                         createdAt: Time)

  /** A row of `file_assets`. */
  datatype Asset = Asset(id: Id, userId: UserId, folderId: Option<string>, storagePath: string,
                         filename: string, contentType: string, sizeBytes: int, version: nat,
                         status: string, createdAt: Time, updatedAt: Time)

  predicate JobIdsUnique(jobs: seq<Job>) {
    forall i, j :: 0 <= i < j < |jobs| ==> jobs[i].id != jobs[j].id
  }

  predicate OutputIdsUnique(outputs: seq<Output>) {
    forall i, j :: 0 <= i < j < |outputs| ==> outputs[i].id != outputs[j].id
  }

  predicate AssetIdsUnique(assets: seq<Asset>) {
    forall i, j :: 0 <= i < j < |assets| ==> assets[i].id != assets[j].id
  }

  predicate JobIdTaken(jobs: seq<Job>, id: Id) {
    exists i :: 0 <= i < |jobs| && jobs[i].id == id
  }

  predicate OutputIdTaken(outputs: seq<Output>, id: Id) {
    exists i :: 0 <= i < |outputs| && outputs[i].id == id
  }

  predicate AssetIdTaken(assets: seq<Asset>, id: Id) {
    exists i :: 0 <= i < |assets| && assets[i].id == id
  }

  /** The rows a filter `.eq(...)`/`.gte(...)` keeps, in table order. */
  function Select<T>(rows: seq<T>, p: T -> bool): (r: seq<T>)
    ensures |r| <= |rows|
    ensures forall i :: 0 <= i < |r| ==> p(r[i]) && r[i] in rows
    ensures forall x :: x in r ==> x in rows && p(x)
    ensures forall x :: x in rows && p(x) ==> x in r
  {
    if rows == [] then [] else (if p(rows[0]) then [rows[0]] else []) + Select(rows[1..], p)
  }

  /** Selecting from a table with one more row selects that row last, when it passes. */
  lemma {:induction false} SelectAppend<T>(rows: seq<T>, x: T, p: T -> bool)
    ensures Select(rows + [x], p) == Select(rows, p) + (if p(x) then [x] else [])
  {
    if rows != [] {
      assert (rows + [x])[1..] == rows[1..] + [x];
      SelectAppend(rows[1..], x, p);
    }
  }

  /**
   * `.order('created_at', { ascending: false })` on a table held in insertion
   * order: the newest row first.
   */
  function NewestFirst<T>(rows: seq<T>): (r: seq<T>)
    ensures |r| == |rows|
    ensures forall i :: 0 <= i < |rows| ==> r[i] == rows[|rows| - 1 - i]
  {
    if rows == [] then [] else [rows[|rows| - 1]] + NewestFirst(rows[..|rows| - 1])
  }

  /** `.eq('id', id).eq('user_id', user).single()` on the jobs table: the index of the one matching row. */
  function FindJob(jobs: seq<Job>, id: Id, user: UserId): (r: Option<nat>)
    ensures r.Some? ==> r.value < |jobs| && jobs[r.value].id == id && jobs[r.value].userId == user
    ensures r.Some? ==> forall k :: r.value < k < |jobs| ==> !(jobs[k].id == id && jobs[k].userId == user)
    ensures r.None? ==> forall i :: 0 <= i < |jobs| ==> !(jobs[i].id == id && jobs[i].userId == user)
  {
    if |jobs| == 0 then None
    else if jobs[|jobs| - 1].id == id && jobs[|jobs| - 1].userId == user then Some(|jobs| - 1)
    else FindJob(jobs[..|jobs| - 1], id, user)
  }

  /** `.eq('id', id).single()` on the jobs table, with no owner filter. */
  function FindJobById(jobs: seq<Job>, id: Id): (r: Option<nat>)
    ensures r.Some? ==> r.value < |jobs| && jobs[r.value].id == id
    ensures r.None? ==> forall i :: 0 <= i < |jobs| ==> jobs[i].id != id
  {
    if |jobs| == 0 then None
    else if jobs[|jobs| - 1].id == id then Some(|jobs| - 1)
    else FindJobById(jobs[..|jobs| - 1], id)
  }

  /** The same lookup on the assets table. */
  function FindAsset(assets: seq<Asset>, id: Id, user: UserId): (r: Option<nat>)
    ensures r.Some? ==> r.value < |assets| && assets[r.value].id == id && assets[r.value].userId == user
    ensures r.Some? ==> forall k :: r.value < k < |assets| ==> !(assets[k].id == id && assets[k].userId == user)
    ensures r.None? ==> forall i :: 0 <= i < |assets| ==> !(assets[i].id == id && assets[i].userId == user)
  {
    if |assets| == 0 then None
    else if assets[|assets| - 1].id == id && assets[|assets| - 1].userId == user then Some(|assets| - 1)
    else FindAsset(assets[..|assets| - 1], id, user)
  }

  /** The backend's tables, each in insertion order. */
  class Database {
    var jobs: seq<Job>
    var outputs: seq<Output>
    var usage: seq<UsageRow>
    var accounting: seq<AccountingRow>
    var assets: seq<Asset>

    /** Every id is its table's primary key. */
    ghost predicate Valid()
      reads this
    {
      JobIdsUnique(jobs) && OutputIdsUnique(outputs) && AssetIdsUnique(assets)
    }

    constructor ()
      ensures Valid()
      ensures jobs == [] && outputs == [] && usage == [] && accounting == [] && assets == []
    {
      jobs, outputs, usage, accounting, assets := [], [], [], [], [];
    }
  }

  /** Appending a row whose id is free keeps the ids unique. */
  lemma AppendFreshJob(jobs: seq<Job>, j: Job)
    requires JobIdsUnique(jobs) && !JobIdTaken(jobs, j.id)
    ensures JobIdsUnique(jobs + [j])
  {
  }

  lemma AppendFreshOutput(outputs: seq<Output>, o: Output)
    requires OutputIdsUnique(outputs) && !OutputIdTaken(outputs, o.id)
    ensures OutputIdsUnique(outputs + [o])
  {
  }

  lemma AppendFreshAsset(assets: seq<Asset>, a: Asset)
    requires AssetIdsUnique(assets) && !AssetIdTaken(assets, a.id)
    ensures AssetIdsUnique(assets + [a])
  {
  }

  /** Overwriting a row with one of the same id keeps the ids unique. */
  lemma ReplaceKeepsJobIdsUnique(jobs: seq<Job>, i: nat, j: Job)
    requires JobIdsUnique(jobs) && i < |jobs| && j.id == jobs[i].id
    ensures JobIdsUnique(jobs[i := j])
  {
    var s := jobs[i := j];
    forall a, b | 0 <= a < b < |s| ensures s[a].id != s[b].id {
      assert s[a].id == jobs[a].id && s[b].id == jobs[b].id;
    }
  }

  lemma ReplaceKeepsAssetIdsUnique(assets: seq<Asset>, i: nat, a: Asset)
    requires AssetIdsUnique(assets) && i < |assets| && a.id == assets[i].id
    ensures AssetIdsUnique(assets[i := a])
  {
    var s := assets[i := a];
    forall x, y | 0 <= x < y < |s| ensures s[x].id != s[y].id {
      assert s[x].id == assets[x].id && s[y].id == assets[y].id;
    }
  }
}
