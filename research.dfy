/**
 * The `openclaw-research` function: validate the query, pass the research
 * quota, insert a running job, ask the upstream provider once, fall back to
 * canned sources, complete the job in place, record the usage and reply with
 * the job as it was read back.
 */
module OpenclawResearch {
  import opened Wrappers
  import opened Json
  import opened Text
  import opened Tables
  import opened Upstream
  import Quota

  const DailyQuota: nat := 50
  const MaxQueryLength: nat := 2000
  const DefaultConfidence: real := 0.85

  // ------------------------------------------------------------- validation

  /** The request body fields the handler reads; an absent field is `None`. */
  datatype ResearchRequest = ResearchRequest(query: Option<Value>, contentItemId: Option<string>,
                                             agentId: Option<string>, outputType: Option<string>)

  datatype Validated = Invalid(error: string) | Accepted(query: string)

  /**
   * A query that is falsy or not a string is refused; otherwise it is trimmed
   * and cut to 2000 characters, and refused when nothing is left, that is
   * exactly when it is all white space.
   */
  function ValidateQuery(query: Option<Value>): (v: Validated)
    ensures !(FieldTruthy(query) && query.value.Str?) ==> v == Invalid("query is required")
    ensures FieldTruthy(query) && query.value.Str? ==>
      (v.Accepted? <==> !(forall k :: 0 <= k < |query.value.s| ==> IsSpace(query.value.s[k])))
    ensures FieldTruthy(query) && query.value.Str? && !v.Accepted? ==> v == Invalid("query cannot be empty")
    ensures v.Accepted? ==> (v.query == Take(Trim(query.value.s), MaxQueryLength)
                          && v.query != "" && |v.query| <= MaxQueryLength)
  {
    if !FieldTruthy(query) || !query.value.Str? then Invalid("query is required")
    else
      TrimEmptyIff(query.value.s);
      var q := Take(Trim(query.value.s), MaxQueryLength);
      if q == "" then Invalid("query cannot be empty") else Accepted(q)
  }

  // -------------------------------------------------------------- the quota

  /** Rows of `openclaw_usage_accounting` that belong to `user`, whatever their kind. */
  function RowsOf(user: UserId): AccountingRow -> bool {
    (r: AccountingRow) => r.userId == user
  }

  function AccountingCreated(): AccountingRow -> Time {
    (r: AccountingRow) => r.createdAt
  }

  /** The count `checkQuota` takes at `now`. */
  function ResearchCount(accounting: seq<AccountingRow>, user: UserId, now: Time): nat {
    Quota.WindowCount(accounting, RowsOf(user), AccountingCreated(), now)
  }

  const QuotaMessage: string := "Daily research quota (50) exceeded"

  /**
   * `checkQuota(supabase, userId)`: allowed exactly when the count query
   * succeeds and the caller has fewer than 50 ledger rows in the last 24
   * hours; otherwise refused with the message for the failure or the cap.
   */
  function CheckQuota(accounting: seq<AccountingRow>, user: UserId, now: Time, queryFailed: bool): (d: Quota.Decision)
    ensures d.Allowed? <==> !queryFailed && ResearchCount(accounting, user, now) < DailyQuota
    ensures d.Denied? ==> d.message == if queryFailed then "Quota check failed" else QuotaMessage
  {
    Quota.Check(queryFailed, ResearchCount(accounting, user, now), DailyQuota, QuotaMessage)
  }

  // ------------------------------------------------------------ the sources

  /** A source as the upstream lists it. */
  datatype RawSource = RawSource(url: string, title: Option<string>, snippet: Option<string>)

  /** The JSON body of an ok upstream answer; `None` when `res.json()` throws. */
  datatype ResearchData = ResearchData(sources: Option<seq<RawSource>>, summary: Option<string>,
                                       confidence: Option<real>)

  /** `sources`, `summary` and `confidence` as the handler holds them. */
  datatype Findings = Findings(sources: seq<Source>, summary: string, confidence: real)

  /** The `.map` over the upstream's sources: each keeps its url, title and snippet and gets a time and a confidence. */
  function Stamp(raw: seq<RawSource>, now: Time, confidence: real): (r: seq<Source>)
    ensures |r| == |raw|
    ensures forall i :: 0 <= i < |r| ==>
      r[i] == Source(raw[i].url, raw[i].title, raw[i].snippet, now, confidence)
  {
    if raw == [] then []
    else [Source(raw[0].url, raw[0].title, raw[0].snippet, now, confidence)] + Stamp(raw[1..], now, confidence)
  }

  /**
   * The findings once the single upstream call is over: only an ok answer
   * with a readable body changes them from no sources, `''` and 0.85.
   */
  function UpstreamOutcome(apiConfigured: bool, f: Fetched<Option<ResearchData>>, now: Time): Findings {
    if !apiConfigured then Findings([], "", DefaultConfidence)
    else match f
      case Threw => Findings([], "", DefaultConfidence)
      case Response(status, body) =>
        if !IsOk(status) || body.None? then Findings([], "", DefaultConfidence)
        else
          var c := body.value.confidence.GetOr(DefaultConfidence);
          Findings(Stamp(body.value.sources.GetOr([]), now, c), body.value.summary.GetOr(""), c)
  }

  const SecondSnippet: string := "Additional context and findings"

  /** The two canned sources that stand in when there are none. */
  function FallbackSources(query: string, now: Time): seq<Source> {
    [Source("https://example.com/source1", Some("Source 1"),
            Some("Relevant information about \"" + query + "\""), now, DefaultConfidence),
     Source("https://example.com/source2", Some("Source 2"),
            Some(SecondSnippet), now, DefaultConfidence)]
  }

  const SummaryTail: string := ": Key findings and insights based on web sources."

  function FallbackSummary(query: string): string {
    "Research summary for " + query + SummaryTail
  }

  /** `if (sources.length === 0)`: the canned sources and summary replace the empty ones; the confidence stays. */
  function Finalize(f: Findings, query: string, now: Time): Findings {
    if |f.sources| == 0 then Findings(FallbackSources(query, now), FallbackSummary(query), f.confidence)
    else f
  }

  /**
   * The reported findings always hold at least one source; with no upstream
   * sources they are exactly the two canned ones and the canned summary,
   * which names the query, and the confidence is still the upstream's.
   */
  lemma FindingsNeverEmpty(f: Findings, query: string, now: Time)
    ensures |Finalize(f, query, now).sources| >= 1
    ensures Finalize(f, query, now).confidence == f.confidence
    ensures |f.sources| == 0 ==> var g := Finalize(f, query, now);
      && |g.sources| == 2
      && g.sources[0].url == "https://example.com/source1"
      && g.sources[1].url == "https://example.com/source2"
      && (forall i :: 0 <= i < 2 ==> g.sources[i].confidence == DefaultConfidence && g.sources[i].timestamp == now)
      && StartsWith(g.summary, "Research summary for " + query)
    ensures |f.sources| > 0 ==> Finalize(f, query, now) == f
  {
    if |f.sources| == 0 {
      var g := Finalize(f, query, now);
      var head := "Research summary for " + query;
      assert g.summary == head + SummaryTail;
      assert g.summary[..|head|] == head;
    }
  }

  /**
   * An ok answer that lists sources is kept in order, each source stamped
   * with the request time and the answer's confidence (0.85 when it has
   * none), and the reported confidence is that value, whatever it is:
   * unlike generation, research does not clamp it into [0.5, 1].
   */
  lemma UpstreamSourcesKept(status: int, data: ResearchData, query: string, now: Time)
    requires IsOk(status) && data.sources.Some? && |data.sources.value| > 0
    ensures var g := Finalize(UpstreamOutcome(true, Response(status, Some(data)), now), query, now);
      var raw := data.sources.value;
      && |g.sources| == |raw|
      && (forall i :: 0 <= i < |raw| ==> (g.sources[i].url == raw[i].url
                                      && g.sources[i].title == raw[i].title
                                      && g.sources[i].snippet == raw[i].snippet
                                      && g.sources[i].timestamp == now))
      && g.summary == data.summary.GetOr("")
      && g.confidence == data.confidence.GetOr(DefaultConfidence)
  {
  }

  /** An ok answer with no sources and a confidence of 0.3 is reported with the canned sources and 0.3. */
  lemma LowConfidenceReported(query: string, now: Time)
    ensures var g := Finalize(UpstreamOutcome(true, Response(200, Some(ResearchData(Some([]), None, Some(0.3)))), now),
                              query, now);
      g.confidence == 0.3 && g.sources == FallbackSources(query, now) && g.summary == FallbackSummary(query)
  {
  }

  // ------------------------------------------------------------ the handler

  /**
   * What the handler's collaborators answer for one request: the quota count
   * query, whether an upstream URL is configured and what the one upstream
   * call returns, the outcome of the insert, the update, the usage write and
   * the final read, the id the backend gives the new job, and the clock.
   */
  datatype ResearchEnv = ResearchEnv(countFails: bool, apiConfigured: bool,
                                     fetch: Fetched<Option<ResearchData>>, insertFails: bool,
                                     updateFails: bool, usageFails: bool, reselectFails: bool,
                                     newJobId: Id, now: Time)

  datatype ResearchReply =
    | BadRequest(error: string)        // 400
    | TooManyRequests(error: string)   // 429
    | ServerError                      // 500, the backend's message is not modelled
    | Researched(jobId: Id, job: Option<Job>, sources: seq<Source>, summary: string,
                 confidenceScore: real)  // 200, `status: 'completed'`

  /** The reply, the jobs table and the research ledger after one request. */
  datatype ResearchEffect = ResearchEffect(reply: ResearchReply, jobs: seq<Job>, accounting: seq<AccountingRow>)

  /** The row the insert writes: running, at progress 0, `output_type ?? 'summary'`. */
  function NewJob(user: UserId, req: ResearchRequest, query: string, env: ResearchEnv): Job {
    Job(env.newJobId, user, req.agentId, query, req.outputType.GetOr("summary"), Running, 0,
        None, [], None, req.contentItemId, env.now, env.now)
  }

  /** The update that completes a job with its findings. */
  function CompleteJob(j: Job, f: Findings, now: Time): Job {
    j.(status := Completed, progress := 100, outputText := Some(f.summary), sources := f.sources,
       confidenceScore := Some(f.confidence), updatedAt := now)
  }

  /**
   * The ledger row `recordUsage` writes: one api call and no tokens for that
   * job, a row the caller's quota counts from the moment it is written.
   */
  function UsageRecord(user: UserId, jobId: Id, now: Time): (r: AccountingRow)
    ensures RowsOf(user)(r) && Quota.InWindow(r.createdAt, now)
    ensures r.jobId == Some(jobId) && r.apiCalls == Some(1) && r.tokensUsed == Some(0) && r.costUnits.None?
  {
    AccountingRow(user, Some(jobId), Some(1), Some(0), None, now)
  }

  /** What happens once a request has passed validation and the quota. */
  function RunStep(jobs: seq<Job>, accounting: seq<AccountingRow>, user: UserId, req: ResearchRequest,
                   query: string, env: ResearchEnv): (e: ResearchEffect)
    ensures e.reply.ServerError? || e.reply.Researched?
    ensures e.reply.ServerError? <==> env.insertFails || JobIdTaken(jobs, env.newJobId)
    ensures e.reply.ServerError? ==> e.jobs == jobs && e.accounting == accounting
    ensures e.reply.Researched? ==>
              && e.reply.jobId == env.newJobId && |e.jobs| == |jobs| + 1 && e.jobs[..|jobs|] == jobs
              && e.jobs[|jobs|].id == env.newJobId && e.jobs[|jobs|].userId == user
              && e.jobs[|jobs|].query == query
              && (e.reply.job.Some? ==> e.reply.job.value == e.jobs[|jobs|])
  {
    var job := NewJob(user, req, query, env);
    if env.insertFails || JobIdTaken(jobs, job.id) then ResearchEffect(ServerError, jobs, accounting)
    else
      var f := Finalize(UpstreamOutcome(env.apiConfigured, env.fetch, env.now), query, env.now);
      var jobs' := jobs + [if env.updateFails then job else CompleteJob(job, f, env.now)];
      var accounting' := accounting + (if env.usageFails then [] else [UsageRecord(user, job.id, env.now)]);
      var reread := if env.reselectFails then None else Some(jobs'[|jobs|]);
      ResearchEffect(Researched(job.id, reread, f.sources, f.summary, f.confidence), jobs', accounting')
  }

  /** One request, as a function of the tables before it. */
  function ResearchStep(jobs: seq<Job>, accounting: seq<AccountingRow>, user: UserId,
                        req: ResearchRequest, env: ResearchEnv): (e: ResearchEffect)
    ensures e.reply.BadRequest? <==> ValidateQuery(req.query).Invalid?
    ensures e.reply.TooManyRequests? <==> ValidateQuery(req.query).Accepted?
                                          && CheckQuota(accounting, user, env.now, env.countFails).Denied?
    ensures e.reply.Researched? ==> |e.jobs| == |jobs| + 1 && e.jobs[|jobs|].query == ValidateQuery(req.query).query
  {
    match ValidateQuery(req.query)
    case Invalid(error) => ResearchEffect(BadRequest(error), jobs, accounting)
    case Accepted(query) =>
      match CheckQuota(accounting, user, env.now, env.countFails)
      case Denied(message) => ResearchEffect(TooManyRequests(message), jobs, accounting)
      case Allowed => RunStep(jobs, accounting, user, req, query, env)
  }

  /** The upstream step of the handler: the findings start empty, `''` and 0.85. */
  method CallUpstream(env: ResearchEnv) returns (f: Findings)
    ensures f == UpstreamOutcome(env.apiConfigured, env.fetch, env.now)
  {
    var sources: seq<Source> := [];
    var summary := "";
    var confidence := DefaultConfidence;
    if env.apiConfigured && env.fetch.Response? {
      var res := env.fetch;
      if IsOk(res.status) && res.body.Some? {
        var data := res.body.value;
        sources := Stamp(data.sources.GetOr([]), env.now, data.confidence.GetOr(DefaultConfidence));
        summary := data.summary.GetOr("");
        confidence := data.confidence.GetOr(DefaultConfidence);
      }
    }
    f := Findings(sources, summary, confidence);
  }

  /** The update of the row just inserted, found again by its id: it completes, or stays running when the update fails. */
  method Finish(db: Database, job: Job, found: Findings, env: ResearchEnv)
    requires JobIdsUnique(db.jobs) && |db.jobs| >= 1 && db.jobs[|db.jobs| - 1] == job
    modifies db
    ensures JobIdsUnique(db.jobs)
    ensures db.jobs == old(db.jobs[..|db.jobs| - 1]) + [if env.updateFails then job else CompleteJob(job, found, env.now)]
    ensures db.outputs == old(db.outputs) && db.usage == old(db.usage) && db.assets == old(db.assets)
    ensures db.accounting == old(db.accounting)
  {
    var last := |db.jobs| - 1;
    assert db.jobs == db.jobs[..last] + [job];
    if !env.updateFails {
      var at := FindJobById(db.jobs, job.id);
      assert at == Some(last);
      var done := CompleteJob(db.jobs[last], found, env.now);
      ReplaceKeepsJobIdsUnique(db.jobs, last, done);
      db.jobs := db.jobs[last := done];
      assert db.jobs == old(db.jobs[..|db.jobs| - 1]) + [done];
    }
  }

  /** The handler from the insert on: insert the running job, complete it in place, record the usage, read it back. */
  method Run(db: Database, user: UserId, req: ResearchRequest, query: string, env: ResearchEnv)
      returns (reply: ResearchReply)
    requires JobIdsUnique(db.jobs)
    modifies db
    ensures JobIdsUnique(db.jobs)
    ensures db.outputs == old(db.outputs) && db.usage == old(db.usage) && db.assets == old(db.assets)
    ensures ResearchEffect(reply, db.jobs, db.accounting)
         == RunStep(old(db.jobs), old(db.accounting), user, req, query, env)
  {
    if env.insertFails || JobIdTaken(db.jobs, env.newJobId) {
      return ServerError;
    }
    ghost var jobs0, accounting0 := db.jobs, db.accounting;
    var job := NewJob(user, req, query, env);
    var found := Gather(query, env);
    var stored := InsertAndFinish(db, job, found, env);

    if !env.usageFails {
      db.accounting := db.accounting + [UsageRecord(user, job.id, env.now)];
    }
    assert db.accounting == accounting0 + (if env.usageFails then [] else [UsageRecord(user, job.id, env.now)]);

    var again := FindJobById(db.jobs, job.id);
    assert db.jobs[|jobs0|] == stored;
    assert again == Some(|jobs0|);
    var updatedJob := if env.reselectFails || again.None? then None else Some(db.jobs[again.value]);
    reply := Researched(job.id, updatedJob, found.sources, found.summary, found.confidence);
  }

  /** The insert of the running job and its update in place; `stored` is the row as it ends up. */
  method InsertAndFinish(db: Database, job: Job, found: Findings, env: ResearchEnv) returns (stored: Job)
    requires JobIdsUnique(db.jobs) && !JobIdTaken(db.jobs, job.id)
    modifies db
    ensures JobIdsUnique(db.jobs)
    ensures stored == (if env.updateFails then job else CompleteJob(job, found, env.now))
    ensures db.jobs == old(db.jobs) + [stored] && stored.id == job.id
    ensures db.outputs == old(db.outputs) && db.usage == old(db.usage) && db.assets == old(db.assets)
    ensures db.accounting == old(db.accounting)
  {
    AppendFreshJob(db.jobs, job);
    db.jobs := db.jobs + [job];
    Finish(db, job, found, env);
    stored := if env.updateFails then job else CompleteJob(job, found, env.now);
  }

  /** The upstream call and the fallback when it yields no sources. */
  method Gather(query: string, env: ResearchEnv) returns (found: Findings)
    ensures found == Finalize(UpstreamOutcome(env.apiConfigured, env.fetch, env.now), query, env.now)
  {
    found := CallUpstream(env);
    if |found.sources| == 0 {
      found := Findings(FallbackSources(query, env.now), FallbackSummary(query), found.confidence);
    }
  }

  /** The handler body after authentication (`user` is the caller). */
  method Research(db: Database, user: UserId, req: ResearchRequest, env: ResearchEnv)
      returns (reply: ResearchReply)
    requires db.Valid()
    modifies db
    ensures db.Valid()
    ensures db.outputs == old(db.outputs) && db.usage == old(db.usage) && db.assets == old(db.assets)
    ensures ResearchEffect(reply, db.jobs, db.accounting)
         == ResearchStep(old(db.jobs), old(db.accounting), user, req, env)
  {
    var v := ValidateQuery(req.query);
    if v.Invalid? {
      return BadRequest(v.error);
    }
    var quota := CheckQuota(db.accounting, user, env.now, env.countFails);
    if quota.Denied? {
      return TooManyRequests(quota.message);
    }
    reply := Run(db, user, req, v.query, env);
  }

  // ------------------------------------------------------- what a step does

  /** A refused request (400, 429 or 500) inserts no job and records no usage. */
  lemma RefusedChangesNothing(jobs: seq<Job>, accounting: seq<AccountingRow>, user: UserId,
                              req: ResearchRequest, env: ResearchEnv)
    ensures var e := ResearchStep(jobs, accounting, user, req, env);
      !e.reply.Researched? ==> e.jobs == jobs && e.accounting == accounting
  {
    match ValidateQuery(req.query)
    case Invalid(_) =>
    case Accepted(query) =>
      match CheckQuota(accounting, user, env.now, env.countFails)
      case Denied(_) =>
      case Allowed => RunRefused(jobs, accounting, user, req, query, env);
  }

  /** A run that does not answer 200 failed its insert and changed nothing. */
  lemma RunRefused(jobs: seq<Job>, accounting: seq<AccountingRow>, user: UserId,
                   req: ResearchRequest, query: string, env: ResearchEnv)
    ensures var e := RunStep(jobs, accounting, user, req, query, env);
      !e.reply.Researched? ==> e.jobs == jobs && e.accounting == accounting
  {
  }

  /**
   * The quota gate: at or above 50 ledger rows in the window, or when the
   * count query fails, a valid request is answered 429; a request that is
   * answered 200 was under the cap.
   */
  lemma QuotaGate(jobs: seq<Job>, accounting: seq<AccountingRow>, user: UserId,
                  req: ResearchRequest, env: ResearchEnv)
    ensures var e := ResearchStep(jobs, accounting, user, req, env);
      (ValidateQuery(req.query).Accepted?
       && (env.countFails || ResearchCount(accounting, user, env.now) >= DailyQuota))
      ==> e.reply.TooManyRequests? && e.jobs == jobs && e.accounting == accounting
    ensures var e := ResearchStep(jobs, accounting, user, req, env);
      e.reply.Researched? ==> !env.countFails && ResearchCount(accounting, user, env.now) < DailyQuota
  {
  }

  /**
   * The job's life in a 200 reply: exactly one job is added, owned by the
   * caller and holding the sanitised query; it is completed at progress 100
   * with the reported summary, sources and confidence unless the update
   * failed, in which case it is still running at 0; the reply carries the
   * row as read back, and the ledger gains one row for that job unless its
   * write failed.
   */
  lemma JobLifecycle(jobs: seq<Job>, accounting: seq<AccountingRow>, user: UserId,
                     req: ResearchRequest, env: ResearchEnv)
    ensures var e := ResearchStep(jobs, accounting, user, req, env);
      e.reply.Researched? ==>
        var r := e.reply;
        && |e.jobs| == |jobs| + 1 && e.jobs[..|jobs|] == jobs
        && var j := e.jobs[|jobs|];
        && j.id == r.jobId && j.userId == user && j.query == ValidateQuery(req.query).query
        && j.outputType == req.outputType.GetOr("summary")
        && (!env.updateFails ==>
              j.status == Completed && j.progress == 100 && j.outputText == Some(r.summary)
              && j.sources == r.sources && j.confidenceScore == Some(r.confidenceScore))
        && (env.updateFails ==> j.status == Running && j.progress == 0)
        && r.job == (if env.reselectFails then None else Some(j))
        && |r.sources| >= 1
        && e.accounting == accounting + (if env.usageFails then [] else [UsageRecord(user, r.jobId, env.now)])
  {
    var e := ResearchStep(jobs, accounting, user, req, env);
    match ValidateQuery(req.query)
    case Invalid(error) => assert e.reply == BadRequest(error);
    case Accepted(query) =>
      match CheckQuota(accounting, user, env.now, env.countFails)
      case Denied(message) => assert e.reply == TooManyRequests(message);
      case Allowed =>
        assert e == RunStep(jobs, accounting, user, req, query, env);
        RunLifecycle(jobs, accounting, user, req, query, env);
  }

  /** `JobLifecycle` for a request that passed validation and the quota. */
  lemma RunLifecycle(jobs: seq<Job>, accounting: seq<AccountingRow>, user: UserId,
                     req: ResearchRequest, query: string, env: ResearchEnv)
    ensures var e := RunStep(jobs, accounting, user, req, query, env);
      e.reply.Researched? ==>
        var r := e.reply;
        && |e.jobs| == |jobs| + 1 && e.jobs[..|jobs|] == jobs
        && var j := e.jobs[|jobs|];
        && j.id == r.jobId && j.userId == user && j.query == query
        && j.outputType == req.outputType.GetOr("summary")
        && (!env.updateFails ==>
              j.status == Completed && j.progress == 100 && j.outputText == Some(r.summary)
              && j.sources == r.sources && j.confidenceScore == Some(r.confidenceScore))
        && (env.updateFails ==> j.status == Running && j.progress == 0)
        && r.job == (if env.reselectFails then None else Some(j))
        && |r.sources| >= 1
        && e.accounting == accounting + (if env.usageFails then [] else [UsageRecord(user, r.jobId, env.now)])
  {
    var e := RunStep(jobs, accounting, user, req, query, env);
    if e.reply.Researched? {
      FindingsNeverEmpty(UpstreamOutcome(env.apiConfigured, env.fetch, env.now), query, env.now);
      assert e.jobs == jobs + [e.jobs[|jobs|]];
    }
  }

  /** Every completed job carries an output text and is at progress 100. */
  predicate CompletedHaveOutput(jobs: seq<Job>) {
    forall i :: 0 <= i < |jobs| && jobs[i].status == Completed ==>
      jobs[i].outputText.Some? && jobs[i].progress == 100
  }

  /** A research request keeps every completed job complete with its output. */
  lemma StepKeepsCompletedHaveOutput(jobs: seq<Job>, accounting: seq<AccountingRow>, user: UserId,
                                     req: ResearchRequest, env: ResearchEnv)
    requires CompletedHaveOutput(jobs)
    ensures CompletedHaveOutput(ResearchStep(jobs, accounting, user, req, env).jobs)
  {
    var e := ResearchStep(jobs, accounting, user, req, env);
    match ValidateQuery(req.query)
    case Invalid(_) => assert e.jobs == jobs;
    case Accepted(query) =>
      match CheckQuota(accounting, user, env.now, env.countFails)
      case Denied(_) => assert e.jobs == jobs;
      case Allowed =>
        assert e == RunStep(jobs, accounting, user, req, query, env);
        RunKeepsCompletedHaveOutput(jobs, accounting, user, req, query, env);
  }

  lemma RunKeepsCompletedHaveOutput(jobs: seq<Job>, accounting: seq<AccountingRow>, user: UserId,
                                    req: ResearchRequest, query: string, env: ResearchEnv)
    requires CompletedHaveOutput(jobs)
    ensures CompletedHaveOutput(RunStep(jobs, accounting, user, req, query, env).jobs)
  {
    var job := NewJob(user, req, query, env);
    if !(env.insertFails || JobIdTaken(jobs, job.id)) {
      var f := Finalize(UpstreamOutcome(env.apiConfigured, env.fetch, env.now), query, env.now);
      var row := if env.updateFails then job else CompleteJob(job, f, env.now);
      assert RunStep(jobs, accounting, user, req, query, env).jobs == jobs + [row];
      AppendKeepsCompletedHaveOutput(jobs, row);
    }
  }

  /** Appending a row that is not completed, or is completed with its output, keeps the invariant. */
  lemma AppendKeepsCompletedHaveOutput(jobs: seq<Job>, row: Job)
    requires CompletedHaveOutput(jobs)
    requires row.status == Completed ==> row.outputText.Some? && row.progress == 100
    ensures CompletedHaveOutput(jobs + [row])
  {
    var after := jobs + [row];
    assert forall i :: 0 <= i < |jobs| ==> after[i] == jobs[i];
  }

  /** A research request keeps the job ids unique. */
  lemma StepKeepsJobIdsUnique(jobs: seq<Job>, accounting: seq<AccountingRow>, user: UserId,
                              req: ResearchRequest, env: ResearchEnv)
    requires JobIdsUnique(jobs)
    ensures JobIdsUnique(ResearchStep(jobs, accounting, user, req, env).jobs)
  {
    var e := ResearchStep(jobs, accounting, user, req, env);
    if e.reply.Researched? {
      JobLifecycle(jobs, accounting, user, req, env);
      assert e.jobs == jobs + [e.jobs[|jobs|]];
      AppendFreshJob(jobs, e.jobs[|jobs|]);
    }
  }

  /**
   * Handled one at a time, requests keep every user within the daily cap:
   * if `who` had at most 50 ledger rows in the window at an earlier time
   * `t`, then after any request, by any user, at `env.now >= t`, `who` has
   * at most 50 in the window at `env.now`.
   */
  lemma StepKeepsUnderCap(jobs: seq<Job>, accounting: seq<AccountingRow>, user: UserId,
                          req: ResearchRequest, env: ResearchEnv, who: UserId, t: Time)
    requires t <= env.now
    requires ResearchCount(accounting, who, t) <= DailyQuota
    ensures ResearchCount(ResearchStep(jobs, accounting, user, req, env).accounting, who, env.now) <= DailyQuota
  {
    var e := ResearchStep(jobs, accounting, user, req, env);
    var accounting' := e.accounting;
    if accounting' != accounting {
      RefusedChangesNothing(jobs, accounting, user, req, env);
      QuotaGate(jobs, accounting, user, req, env);
      JobLifecycle(jobs, accounting, user, req, env);
      assert accounting' == accounting + [UsageRecord(user, e.reply.jobId, env.now)];
      assert accounting'[..|accounting|] == accounting;
    }
    Quota.GatedAppendStaysUnderCap(accounting, accounting', RowsOf(who), AccountingCreated(), t, env.now, DailyQuota);
  }
}
