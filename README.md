# creatorops hub — a verified model of the request handlers and client helpers

This project models the logic of the creatorops hub backend and two helper
modules of its web client. The backend consists of serverless functions over
Supabase tables. The model covers:

- **`openclaw-generate`**: validates a prompt and an output type, then passes
  the daily generation quota of 100. It asks the upstream provider up to three
  times, with growing backoff, and clamps the reported confidence into
  [0.5, 1]. When the provider gives no content, it substitutes a placeholder.
  It stores one unapproved output and records the generation in the usage
  ledger.
- **`openclaw-research`**: validates a query, then passes the daily research
  quota of 50. It inserts a `running` job and asks the provider once. With no
  sources it falls back to two canned ones. It completes the same job row in
  place, records one accounting row, and replies with the job as read back.
- **`openclaw-proxy`**: serves the caller's 24-hour usage totals. It also
  handles `get`, `cancel` and `list` on research jobs, and dispatches on the
  method and the action.
- **`storage-presigned-upload`**: checks the file name and the content-type
  whitelist, then sanitises the name. It builds the owner-prefixed storage
  path and inserts a `pending` asset. Whether the client uploads directly
  depends on whether a signed URL could be obtained.
- **`storage-presigned-download`**: checks the method, the path and the
  owner prefix before signing a URL that lives for 3600 seconds.
- **`storage-confirm-upload`**: looks up the caller's asset and marks it
  `active`.
- **`src/lib/navigation.ts`**: computes breadcrumbs. A path is cut into
  segments, and each prefix is matched against the route table with a
  longest-match rule. A `:`-segment matches anything. A prefix that matches
  no route is labelled from its last segment.
- **The project content list**: due-date wording, status colours and the CSV
  export. It also keeps the view state: the selection set, the delete dialog
  and the pager.

The backend tables are sequences in insertion order, fields of the class
`Tables.Database`. Each handler is modelled in two forms:

- a pure *step* function of the tables before the request, giving the reply
  and the tables after it;
- an imperative method on the database whose `ensures` ties the new state to
  that step.

Lemmas about the step state what the handler promises. External answers are
parameters of the step and of the method (`GenerateEnv`, `ResearchEnv`, and so
on). These are:

- database errors and the ids the backend assigns;
- the upstream provider's answers;
- the jitter;
- the clock, as an `int` of milliseconds.

The caller is an already-authenticated user id.

The modules are `Wrappers`, `Json`, `Text`, `Tables`, `Quota` and `Upstream`,
which are shared, then one module per source file: `OpenclawGenerate`,
`OpenclawResearch`, `OpenclawProxy`, `StoragePresignedUpload`,
`StoragePresignedDownload`, `StorageConfirmUpload`, `Navigation` and
`ProjectContentList`.

In these places the code's behaviour is easy to misread; the model follows the code:

- Research confidence is not clamped.
- The generate handler tests the prompt for emptiness before trimming it, so
  a prompt of white space alone is accepted and stored empty.
- `cancel` overwrites any status, including `completed`.
- Confirming an upload without a size keeps the size that is already stored.
  The fallback reads a column the lookup never selected, so the update writes
  no size.

## Model

| member | source | states |
|---|---|---|
| Text.TrimIsInfix | supabase/functions/openclaw-generate/index.ts:121 | `trim` returns the infix of the string between its leading and its trailing white space, which is dropped entirely |
| Text.TrimBoundaries | supabase/functions/openclaw-research/index.ts:106 | a trimmed string neither starts nor ends with white space |
| Text.TrimEmptyIff | supabase/functions/openclaw-research/index.ts:106-107 | trimming gives the empty string exactly when every character is white space |
| Text.TrimIdempotent | supabase/functions/openclaw-research/index.ts:106 | trimming twice is trimming once |
| Text.Take | supabase/functions/openclaw-generate/index.ts:121 | `slice(0, n)` keeps the first `min(n, length)` characters, a prefix of the input |
| Text.Utf16Length | supabase/functions/openclaw-generate/index.ts:175 | `length` counts one or two UTF-16 code units per character, so it lies between the character count and twice it |
| Text.BmpLength | supabase/functions/openclaw-generate/index.ts:175 | on text within the Basic Multilingual Plane, `length` is the character count |
| Text.TakeInBmp | supabase/functions/openclaw-generate/index.ts:121 | on such text, the cut keeps `min(n, length)` UTF-16 code units, as `slice(0, n)` does |
| Text.JoinSplit | src/lib/navigation.ts:24 | joining the pieces of `split(sep)` with `sep` gives back the string |
| Text.SplitJoin | src/components/project-content-list/index.tsx:362-373 | splitting a join of separator-free pieces gives back the pieces |
| Text.SplitConcat | src/lib/navigation.ts:24 | splitting `a + sep + b` gives the pieces of `a` followed by the pieces of `b` |
| Text.NonEmpty | src/lib/navigation.ts:24 | `filter(Boolean)` keeps exactly the non-empty pieces, in order |
| Text.NonEmptyAppend | src/lib/navigation.ts:24 | filtering a concatenation filters each part |
| Quota.Check | supabase/functions/openclaw-generate/index.ts:40-54 | a failed count query denies with "Quota check failed"; a count at or above the cap denies with the cap message; the request is allowed exactly when neither holds |
| Quota.CountAppend | supabase/functions/openclaw-generate/index.ts:42-47 | an appended row raises the exact count by one exactly when it passes the filter |
| Quota.WindowSlides | supabase/functions/openclaw-generate/index.ts:41-47 | the same rows counted at a later time never count more in the 24-hour window |
| Quota.GatedAppendStaysUnderCap | supabase/functions/openclaw-generate/index.ts:123-129 | a ledger that only gains a row while its owner is below the cap keeps every user within the cap as time moves forward |
| OpenclawGenerate.Pow2 | supabase/functions/openclaw-generate/index.ts:19 | `Math.pow(2, n)`: doubles with each step from 1, and exceeds `n`, so each retry waits longer than the attempt count |
| OpenclawGenerate.BackoffGrows | supabase/functions/openclaw-generate/index.ts:18-21 | the delay `500·2^a + j`, with jitter `0 ≤ j < 200`, strictly grows with the attempt number whatever the jitters |
| OpenclawGenerate.FinalAttempt | supabase/functions/openclaw-generate/index.ts:23-38 | the attempt that settles is below 3; every earlier attempt was retryable (a 5xx or a throw); one before the last is not retryable |
| OpenclawGenerate.FetchWithRetry | supabase/functions/openclaw-generate/index.ts:23-38 | at most 3 attempts; the result is the settled final attempt, which returns a 5xx as is or rethrows; one sleep before each retry and none after the last, so sleeps = attempts − 1, with strictly growing delays |
| OpenclawGenerate.NoRetryOnSuccessOrClientError | supabase/functions/openclaw-generate/index.ts:26 | an ok or 4xx first answer is returned at once, without a retry |
| OpenclawGenerate.ValidateGenerate | supabase/functions/openclaw-generate/index.ts:106-121 | a falsy or non-string prompt gives "prompt is required", then an output type outside {thread, script, caption, article} gives the list error; the request is accepted exactly otherwise, with a given type kept, a missing or null one defaulting to `article`, and the prompt trimmed and capped at 2000 |
| OpenclawGenerate.BlankPromptAccepted | supabase/functions/openclaw-generate/index.ts:106-121 | a prompt of white space alone passes validation, because the emptiness test runs before the trim, and is stored as the empty string |
| OpenclawGenerate.Clamp | supabase/functions/openclaw-generate/index.ts:144 | `max(0.5, min(1, x))` lies in [0.5, 1], keeps a value already inside, and sends values outside to the nearer bound |
| OpenclawGenerate.ConfidenceInRange | supabase/functions/openclaw-generate/index.ts:131-149 | the reported confidence is always in [0.5, 1]; unless the upstream answered ok, the content is `''` and the confidence is 0.88 |
| OpenclawGenerate.ContentNeverEmpty | supabase/functions/openclaw-generate/index.ts:151-153 | the stored content is never empty; the placeholder starts with `[Generated <type>]` and embeds the sanitised prompt |
| OpenclawGenerate.CallUpstream | supabase/functions/openclaw-generate/index.ts:131-149 | the upstream step computes the content and confidence that `UpstreamOutcome` gives for the settled final attempt (`UpstreamIn`), with the confidence in [0.5, 1] |
| OpenclawGenerate.Compose | supabase/functions/openclaw-generate/index.ts:131-153 | the content is `FinalContent` of the upstream content: the placeholder exactly when that is empty; the confidence is the upstream one |
| OpenclawGenerate.CheckQuota | supabase/functions/openclaw-generate/index.ts:40-54 | allowed exactly when the count query succeeds and the caller has fewer than 100 generations in the window; otherwise denied with "Quota check failed" or the cap message |
| OpenclawGenerate.StoreStep | supabase/functions/openclaw-generate/index.ts:131-184 | past the quota the reply is 500 exactly when the insert fails or the id is taken, else 200 with the backend's id, the row appended, the caller's job id and type, non-empty content and the reported confidence |
| OpenclawGenerate.GenerateStep | supabase/functions/openclaw-generate/index.ts:101-184 | 400 exactly when validation fails, 429 exactly when a valid request is denied by the quota; a 200 holds a non-empty output of the caller with the validated type |
| OpenclawGenerate.Write | supabase/functions/openclaw-generate/index.ts:155-175 | the insert appends exactly the output row and the ledger rows, keeps the output ids unique and leaves the other tables alone |
| OpenclawGenerate.Store | supabase/functions/openclaw-generate/index.ts:131-184 | from the upstream call to the reply, the new outputs and ledger are those of the step; no other table changes |
| OpenclawGenerate.Generate | supabase/functions/openclaw-generate/index.ts:102-192 | the handler's reply, outputs and usage ledger are the step of the old tables; jobs, accounting and assets are unchanged; the output ids stay unique |
| OpenclawGenerate.RefusedChangesNothing | supabase/functions/openclaw-generate/index.ts:106-173 | a 400, 429 or 500 inserts no output and records no usage |
| OpenclawGenerate.StoreRefused | supabase/functions/openclaw-generate/index.ts:168-173 | a failed insert answers 500 and records no usage |
| OpenclawGenerate.QuotaGate | supabase/functions/openclaw-generate/index.ts:123-129 | a valid request at or above 100 generations in the window, or with a failed count, gets 429 and changes nothing; a 200 was below the cap |
| OpenclawGenerate.GeneratedOutput | supabase/functions/openclaw-generate/index.ts:155-184 | a 200 appends exactly one unapproved output of the caller with non-empty content, the validated type and a confidence in [0.5, 1], returns that row and confidence, and then appends one usage row whose token count is the content's UTF-16 length |
| OpenclawGenerate.StepKeepsUnderCap | supabase/functions/openclaw-generate/index.ts:123-175 | requests handled one at a time keep every user at or below 100 generations in the window |
| OpenclawGenerate.UsageGrowth | supabase/functions/openclaw-generate/index.ts:155-175 | a request leaves the ledger as it was or appends one row of the caller's, and only while the caller is under the cap |
| OpenclawGenerate.StoreUsage | supabase/functions/openclaw-generate/index.ts:168-175 | storing appends at most one ledger row, the caller's |
| OpenclawResearch.ValidateQuery | supabase/functions/openclaw-research/index.ts:96-115 | a falsy or non-string query gives "query is required"; otherwise the query is trimmed and capped at 2000, and refused with "query cannot be empty" exactly when it was all white space |
| OpenclawResearch.CheckQuota | supabase/functions/openclaw-research/index.ts:13-33 | allowed exactly when the count query succeeds and the caller has fewer than 50 accounting rows in the window; otherwise denied with "Quota check failed" or the cap message |
| OpenclawResearch.UsageRecord | supabase/functions/openclaw-research/index.ts:35-46 | the ledger row is the caller's, for the job, with one api call, no tokens and no cost, and lies in the quota's window from the moment it is written |
| OpenclawResearch.Stamp | supabase/functions/openclaw-research/index.ts:171-177 | the sources keep their order and their url, title and snippet, each stamped with the request time and the given confidence |
| OpenclawResearch.FindingsNeverEmpty | supabase/functions/openclaw-research/index.ts:186-204 | the reply always holds a source; with none from upstream it holds exactly the two canned sources at 0.85 and a summary starting `Research summary for <query>`; the confidence is kept |
| OpenclawResearch.UpstreamSourcesKept | supabase/functions/openclaw-research/index.ts:160-179 | an ok answer's sources are kept in order and stamped with the request time; the summary is the answer's or `''`, and the confidence is `data.confidence ?? 0.85` with no clamp |
| OpenclawResearch.LowConfidenceReported | supabase/functions/openclaw-research/index.ts:179-204 | an ok answer with no sources and confidence 0.3 is reported with the canned sources and 0.3: there is no floor |
| OpenclawResearch.CallUpstream | supabase/functions/openclaw-research/index.ts:152-184 | the single upstream attempt yields the findings `UpstreamOutcome` gives, starting from no sources, `''` and 0.85 |
| OpenclawResearch.Gather | supabase/functions/openclaw-research/index.ts:152-204 | the findings after the upstream call and the fallback |
| OpenclawResearch.Finish | supabase/functions/openclaw-research/index.ts:206-216 | the update completes the row just inserted, found by its id, in place, or leaves it running when the update fails; ids stay unique |
| OpenclawResearch.InsertAndFinish | supabase/functions/openclaw-research/index.ts:128-216 | exactly one row with a fresh id is appended, and it ends up completed with the findings, or still running |
| OpenclawResearch.Run | supabase/functions/openclaw-research/index.ts:128-239 | from the insert to the reply, the jobs and accounting tables and the reply are those of the step |
| OpenclawResearch.RunStep | supabase/functions/openclaw-research/index.ts:128-239 | past the quota the reply is 500 exactly when the insert fails or the id is taken, and then nothing changes; else 200 with the new id, one job of the caller with the query appended, and the row read back is that job |
| OpenclawResearch.ResearchStep | supabase/functions/openclaw-research/index.ts:92-239 | 400 exactly when validation fails, 429 exactly when a valid request is denied by the quota; a 200 appends one job holding the validated query |
| OpenclawResearch.Research | supabase/functions/openclaw-research/index.ts:92-250 | the handler's reply, jobs and accounting are the step of the old tables; outputs, usage and assets are unchanged; ids stay unique |
| OpenclawResearch.RefusedChangesNothing | supabase/functions/openclaw-research/index.ts:96-150 | a 400, 429 or 500 inserts no job and records no usage |
| OpenclawResearch.RunRefused | supabase/functions/openclaw-research/index.ts:142-150 | after validation and the quota, only a failed insert gives a non-200, and it changes nothing |
| OpenclawResearch.QuotaGate | supabase/functions/openclaw-research/index.ts:117-126 | a valid request at or above 50 rows in the window, or with a failed count, gets 429 and changes nothing; a 200 was below the cap |
| OpenclawResearch.JobLifecycle | supabase/functions/openclaw-research/index.ts:128-239 | a 200 appends exactly one job of the caller, holding the sanitised query and `output_type ?? 'summary'`, inserted running at 0; unless the update failed it is completed at 100 with the reply's summary, sources and confidence; the reply carries the row read back; the ledger gains one row (`api_calls = 1`, `tokens_used = 0`, the job id) |
| OpenclawResearch.RunLifecycle | supabase/functions/openclaw-research/index.ts:128-239 | the same lifecycle, for a request past validation and the quota |
| OpenclawResearch.StepKeepsCompletedHaveOutput | supabase/functions/openclaw-research/index.ts:206-216 | every completed job keeps an output text and progress 100 across requests |
| OpenclawResearch.RunKeepsCompletedHaveOutput | supabase/functions/openclaw-research/index.ts:206-216 | the same, for a request past validation and the quota |
| OpenclawResearch.AppendKeepsCompletedHaveOutput | supabase/functions/openclaw-research/index.ts:128-139 | appending a running job, or a completed one with its output, keeps that invariant |
| OpenclawResearch.StepKeepsJobIdsUnique | supabase/functions/openclaw-research/index.ts:128-150 | a request keeps the job ids unique |
| OpenclawResearch.StepKeepsUnderCap | supabase/functions/openclaw-research/index.ts:117-218 | requests handled one at a time keep every user at or below 50 accounting rows in the window |
| OpenclawProxy.SumOfAppend | supabase/functions/openclaw-proxy/index.ts:57-58 | a reduce sum over one more row adds that row's value |
| OpenclawProxy.CostOfAppend | supabase/functions/openclaw-proxy/index.ts:59-62 | the cost sum over one more row adds its `cost_units`, 0 when missing |
| OpenclawProxy.Usage | supabase/functions/openclaw-proxy/index.ts:46-76 | the records are exactly the caller's rows of the 24-hour window, and the totals are the sums of their api calls, tokens and cost, missing values counting 0 |
| OpenclawProxy.TotalsIgnoreOrder | supabase/functions/openclaw-proxy/index.ts:53-62 | the newest-first order does not change the totals |
| OpenclawProxy.NewRowRaisesTotals | supabase/functions/openclaw-proxy/index.ts:46-75 | a new row of the caller's inside the 24-hour window raises each total by its own value (missing = 0) and heads the records; any other row leaves the report unchanged |
| OpenclawProxy.RecordsAreQuotaCount | supabase/functions/openclaw-proxy/index.ts:48-53 | the report lists as many records as the research quota counts at the same time |
| OpenclawProxy.TotalsOfRecordUsageRows | supabase/functions/openclaw-research/index.ts:35-46 | over rows written by the research ledger writer, api calls count the rows, and tokens and cost are 0 |
| OpenclawProxy.ResearchOnlyLedger | supabase/functions/openclaw-proxy/index.ts:57-62 | with only research-handler rows in the ledger, `api_calls_24h` is the caller's research count and no tokens or cost are reported |
| OpenclawProxy.GetJob | supabase/functions/openclaw-proxy/index.ts:78-111 | with no `job_id` the reply is 400; 404 exactly when no job of the caller has that id; otherwise the reply is that job of the caller's |
| OpenclawProxy.CancelStep | supabase/functions/openclaw-proxy/index.ts:118-147 | the reply is 404 exactly when the update fails or no job of the caller has that id, and then nothing changes; otherwise the cancelled row of the caller's is in the table and replied, with the table's length kept |
| OpenclawProxy.Cancel | supabase/functions/openclaw-proxy/index.ts:118-147 | the cancel updates the table in place as the step says, keeps the ids unique and leaves the other tables alone |
| OpenclawProxy.CancelTouchesOnlyTarget | supabase/functions/openclaw-proxy/index.ts:118-127 | a successful cancel changes only the (job_id, caller) row, whose status becomes cancelled whatever it was, with every other column but `updated_at` kept; the reply is that row |
| OpenclawProxy.CancelNotFound | supabase/functions/openclaw-proxy/index.ts:130-138 | cancelling a job that is absent or someone else's gives 404 and changes nothing |
| OpenclawProxy.CancelTwice | supabase/functions/openclaw-proxy/index.ts:118-146 | cancelling again succeeds, and only `updated_at` moves |
| OpenclawProxy.EffectiveLimit | supabase/functions/openclaw-proxy/index.ts:150 | `min(Number(limit) \|\| 20, 100)`: never above 100, 20 when missing or 0, the given value up to 100 |
| OpenclawProxy.EffectiveOffset | supabase/functions/openclaw-proxy/index.ts:151 | `Number(offset) \|\| 0`: 0 when missing, else the given offset |
| OpenclawProxy.ListJobs | supabase/functions/openclaw-proxy/index.ts:149-165 | the query is refused exactly for a negative offset or limit; a page holds at most the effective limit |
| OpenclawProxy.ListPageExact | supabase/functions/openclaw-proxy/index.ts:149-163 | with `c` jobs of the caller passing the status filter, a page holds `min(limit, c - offset)` jobs (none past the end), and its `i`-th job is a listed job with exactly `offset + i` listed jobs created after it |
| OpenclawProxy.ListPageLength | supabase/functions/openclaw-proxy/index.ts:157-159 | a page holds `min(limit, c - offset)` of the `c` listed jobs, none when `offset` is past them |
| OpenclawProxy.ListRows | supabase/functions/openclaw-proxy/index.ts:157-163 | each job on the page is a listed job with exactly `offset + i` listed jobs after it in the table |
| OpenclawProxy.ListRowAt | supabase/functions/openclaw-proxy/index.ts:157-163 | names the table index of the page's `i`-th job: a listed job with `offset + i` listed jobs after it |
| OpenclawProxy.Window | supabase/functions/openclaw-proxy/index.ts:159 | the range keeps at most `limit` rows, the ones from `offset` on, in order: exactly `limit` when that many are there, the rest when fewer, none past the end |
| OpenclawProxy.PageOfSelection | supabase/functions/openclaw-proxy/index.ts:154-159 | every row of a page comes from the selection |
| OpenclawProxy.ListBounded | supabase/functions/openclaw-proxy/index.ts:150-163 | a page holds at most 100 jobs (20 by default), all the caller's and, when a string status is given, of that status |
| OpenclawProxy.SelectKeepsOrder | supabase/functions/openclaw-proxy/index.ts:157 | filtering keeps rows in creation order |
| OpenclawProxy.PrependKeepsOrder | supabase/functions/openclaw-proxy/index.ts:157 | a row no later than an ordered run keeps it ordered in front |
| OpenclawProxy.NewestFirstReversesOrder | supabase/functions/openclaw-proxy/index.ts:158 | reversing a table in creation order lists it newest first |
| OpenclawProxy.WindowKeepsOrder | supabase/functions/openclaw-proxy/index.ts:159 | a range of a newest-first list is newest first |
| OpenclawProxy.ListNewestFirst | supabase/functions/openclaw-proxy/index.ts:154-163 | when the table is in creation order, a page lists the jobs by `created_at` descending |
| OpenclawProxy.AppendKeepsOrder | supabase/functions/openclaw-research/index.ts:128-139 | a row created no earlier than every stored row keeps the table in creation order when appended |
| OpenclawProxy.ResearchKeepsCreatedInOrder | supabase/functions/openclaw-research/index.ts:128-216 | a research request at a clock no earlier than any stored `created_at` keeps the table in creation order and within that clock |
| OpenclawProxy.CancelKeepsCreatedInOrder | supabase/functions/openclaw-proxy/index.ts:118-127 | a cancel keeps every `created_at`, so the creation order and its bound are kept |
| OpenclawProxy.ProxyKeepsCreatedInOrder | supabase/functions/openclaw-proxy/index.ts:42-185 | no proxy request disturbs the creation order or its bound |
| OpenclawProxy.ResearchThenListNewestFirst | supabase/functions/openclaw-proxy/index.ts:154-163 | after a research request on a clock that never runs backwards, every `list` page comes newest first |
| OpenclawProxy.ListReply | supabase/functions/openclaw-proxy/index.ts:165-175 | `count` is the number of returned rows, not the number of matching jobs; a query error gives 500 |
| OpenclawProxy.Route | supabase/functions/openclaw-proxy/index.ts:42-185 | each branch is taken exactly under its condition: the query action defaults to `get`; a POST takes the body's action before the query's; cancel needs a `job_id` |
| OpenclawProxy.PostActionPrecedence | supabase/functions/openclaw-proxy/index.ts:116 | in a POST the body's action wins over the query string's; with neither, the request is unmatched |
| OpenclawProxy.ProxyStep | supabase/functions/openclaw-proxy/index.ts:42-185 | the table keeps its length; 204 exactly for OPTIONS; a usage report exactly for a GET `usage` whose query succeeds; "Invalid action or method" exactly for an unmatched request, which every other method is |
| OpenclawProxy.OnlyCancelWrites | supabase/functions/openclaw-proxy/index.ts:42-185 | only a successful cancel changes the jobs table; an unmatched action or method gives 400 |
| OpenclawProxy.Proxy | supabase/functions/openclaw-proxy/index.ts:10-197 | the handler's reply and jobs table are the step of the old tables; nothing else changes |
| StoragePresignedUpload.Sanitize | supabase/functions/storage-presigned-upload/index.ts:83 | the sanitised name has the input's UTF-16 length and only `[A-Za-z0-9._-]` characters: each allowed character is kept and each other code unit becomes `_` |
| StoragePresignedUpload.SanitizeChar | supabase/functions/storage-presigned-upload/index.ts:83 | an allowed character is kept; any other gives one `_` per UTF-16 code unit |
| StoragePresignedUpload.SanitizeConcat | supabase/functions/storage-presigned-upload/index.ts:83 | the replacement works piece by piece: sanitising a concatenation concatenates the sanitised pieces |
| StoragePresignedUpload.SanitizeInBmp | supabase/functions/storage-presigned-upload/index.ts:83 | on a name within the Basic Multilingual Plane, the length is kept and each character is kept in place when allowed or replaced by `_` |
| StoragePresignedUpload.AstralNameSanitized | supabase/functions/storage-presigned-upload/index.ts:83 | a character outside that plane becomes two `_`, one per surrogate: `\U{1F600}.png` gives `__.png` |
| StoragePresignedUpload.SanitizeKeepsSafeNames | supabase/functions/storage-presigned-upload/index.ts:83 | a name of allowed characters is unchanged |
| StoragePresignedUpload.SanitizeIdempotent | supabase/functions/storage-presigned-upload/index.ts:83 | sanitising twice is sanitising once |
| StoragePresignedUpload.SanitizedHasNoSlash | supabase/functions/storage-presigned-upload/index.ts:83-86 | a sanitised name holds no `/` |
| StoragePresignedUpload.TimeToString | supabase/functions/storage-presigned-upload/index.ts:86 | the time in the path holds no `/` |
| StoragePresignedUpload.StoragePath | supabase/functions/storage-presigned-upload/index.ts:84-86 | the path starts with `<userId>/` and ends with the sanitised name |
| StoragePresignedUpload.PathStartsWithOwner | supabase/functions/storage-presigned-upload/index.ts:84-86 | every storage path starts with `<userId>/` |
| StoragePresignedUpload.PathLevels | supabase/functions/storage-presigned-upload/index.ts:84-86 | with ids free of `/`, the path has exactly the levels owner, uuid, `v1` and `<time>_<sanitised>` |
| StoragePresignedUpload.NameHasNoSlash | supabase/functions/storage-presigned-upload/index.ts:86 | the time-stamped leaf name holds no `/` |
| StoragePresignedUpload.UploadUrl | supabase/functions/storage-presigned-upload/index.ts:120 | `signedUrl ?? path`: the signed URL when one is given, else the path; missing exactly when signing gave no data or neither field |
| StoragePresignedUpload.UseDirectUpload | supabase/functions/storage-presigned-upload/index.ts:88-127 | `use_direct_upload` holds exactly when signing gave no data, or gave no `signedUrl` and no non-empty `path`, or gave an empty `signedUrl` (whatever the path) |
| StoragePresignedUpload.PendingAsset | supabase/functions/storage-presigned-upload/index.ts:98-111 | the inserted row is the caller's, pending at version 1, under `<userId>/`, with the sanitised name, the reported size or 0, and a folder exactly when a non-empty one is named |
| StoragePresignedUpload.UploadStep | supabase/functions/storage-presigned-upload/index.ts:65-130 | 400 exactly when a field is missing or the type is not allowed; 200 exactly when the fields are valid, the name is a string and the insert succeeds with a fresh id, and then one row with the reply's path and id is appended; otherwise the table is unchanged |
| StoragePresignedUpload.Upload | supabase/functions/storage-presigned-upload/index.ts:65-138 | the handler's reply and assets table are the step of the old table; nothing else changes; ids stay unique |
| StoragePresignedUpload.RefusedBeforeInsert | supabase/functions/storage-presigned-upload/index.ts:69-81 | a missing name or content type, or a content type not exactly one of the 13 allowed strings, gets 400; any non-200 writes no row |
| StoragePresignedUpload.PendingAssetInserted | supabase/functions/storage-presigned-upload/index.ts:83-128 | a 200 appends exactly one asset of the caller: pending, version 1, the sanitised name, an allowed type, size `?? 0`, folder `\|\| null`, the reply's path under the caller's folder, and the reply's `asset_id` |
| StoragePresignedUpload.StepKeepsAssetIdsUnique | supabase/functions/storage-presigned-upload/index.ts:98-111 | an upload keeps the asset ids unique |
| StoragePresignedDownload.Download | supabase/functions/storage-presigned-download/index.ts:12-96 | 204 exactly for OPTIONS, and 405 exactly for methods other than OPTIONS, POST and GET; 400 exactly when the path from the body (POST) or the query (GET) is falsy; 403 only for a path outside `<userId>/`; a signed URL only for an owned path, signed for 3600 s |
| StoragePresignedDownload.ForeignPathForbidden | supabase/functions/storage-presigned-download/index.ts:66-71 | a non-empty path outside the caller's folder gets 403, whatever the signer would answer |
| StoragePresignedDownload.OwnerCanDownload | supabase/functions/storage-presigned-download/index.ts:59-87 | a path built by the upload function for the caller passes both checks and is signed, or gives 500 when signing fails |
| StoragePresignedDownload.FirstSlash | supabase/functions/storage-presigned-download/index.ts:66 | in a path under `<user>/`, for a user id free of `/`, the first `/` follows the id |
| StoragePresignedDownload.OwnerPrefixUnique | supabase/functions/storage-presigned-download/index.ts:66 | a path lies under at most one owner folder, when ids are free of `/` |
| StoragePresignedDownload.OtherUserForbidden | supabase/functions/storage-presigned-download/index.ts:66-71 | another user asking for a path built for an owner gets 403 |
| StorageConfirmUpload.Confirm | supabase/functions/storage-confirm-upload/index.ts:47-92 | the handler's reply and assets table are the step of the old table; nothing else changes; ids stay unique |
| StorageConfirmUpload.Activate | supabase/functions/storage-confirm-upload/index.ts:72-80 | the updated row is `active` with `updated_at` now, the reported size or the stored one, and its id, owner, path and version kept |
| StorageConfirmUpload.ConfirmStep | supabase/functions/storage-confirm-upload/index.ts:47-92 | 400 exactly when `asset_id` is missing or empty; success exactly when it is given, neither query fails and a row of the caller's has it; any other reply changes nothing; the table keeps its length |
| StorageConfirmUpload.NotOwnedNotFound | supabase/functions/storage-confirm-upload/index.ts:58-70 | an asset absent or owned by someone else gives 404 and no row changes |
| StorageConfirmUpload.ConfirmTouchesOnlyTarget | supabase/functions/storage-confirm-upload/index.ts:72-92 | a confirm changes only the (asset_id, caller) row: its status becomes `active` whatever it was, its size is the reported one or stays, and its other columns but `updated_at` are kept; any other reply changes nothing |
| StorageConfirmUpload.ConfirmTwice | supabase/functions/storage-confirm-upload/index.ts:72-92 | confirming again succeeds and keeps every status, and every size when the same size is reported |
| StorageConfirmUpload.AssetLookupFindsLast | supabase/functions/storage-confirm-upload/index.ts:58-63 | the lookup finds the same row after it was updated in place |
| StorageConfirmUpload.UploadThenConfirm | supabase/functions/storage-confirm-upload/index.ts:58-92 | after an upload, the caller confirming the returned `asset_id` activates the new row, keeps its path and version, and changes no other row |
| Navigation.Segments | src/lib/navigation.ts:47 | `split('/').filter(Boolean)` gives non-empty segments free of `/` |
| Navigation.BestAmong | src/lib/navigation.ts:28-37 | the pick is a key that fits: no more segments than the path, and each segment is equal or starts with `:` |
| Navigation.BestIsLongest | src/lib/navigation.ts:34-37 | the pick has at least as many segments as every fitting key |
| Navigation.LaterFitsAreShorter | src/lib/navigation.ts:34 | because the comparison is `>=`, the later key wins a tie: every fitting key after the pick is strictly shorter |
| Navigation.BestNoneIff | src/lib/navigation.ts:25-39 | there is no match exactly when no key fits |
| Navigation.BestMatch | src/lib/navigation.ts:23-40 | the match is an index of the route table |
| Navigation.MatchRoute | src/lib/navigation.ts:23-40 | the loop over the table with `bestMatch` and `bestLength` computes that match |
| Navigation.UpperCase | src/lib/navigation.ts:65 | `toUpperCase` maps an ASCII lower-case letter to its capital and leaves other characters alone |
| Navigation.DashesToSpaces | src/lib/navigation.ts:65 | every `-` becomes a space and every other character stays |
| Navigation.FormatSegment | src/lib/navigation.ts:61-66 | a slug reads `Detail`; any other segment keeps its length and has its first character upper-cased |
| Navigation.UuidIsSlug | src/lib/navigation.ts:62 | a 36-character hex-or-dash string is also a slug, so the uuid test never decides the outcome |
| Navigation.DetailIff | src/lib/navigation.ts:61-66 | a segment formats to `Detail` exactly when it is a non-empty run of `[A-Za-z0-9_-]` |
| Navigation.FormattedWords | src/lib/navigation.ts:65 | any other non-empty segment keeps its length, has its first character upper-cased and its later dashes turned into spaces |
| Navigation.PathOfSnoc | src/lib/navigation.ts:52 | adding a segment appends `/` and the segment to the accumulated path |
| Navigation.PathOfJoin | src/lib/navigation.ts:49-55 | the accumulated path is `/` and the segments joined with `/` |
| Navigation.SegmentsOfPath | src/lib/navigation.ts:47-53 | cutting an accumulated path gives back its segments |
| Navigation.SegmentsConcat | src/lib/navigation.ts:47 | a slash splits the segments into those before it and those after it |
| Navigation.SlashesIgnored | src/lib/navigation.ts:47 | trailing and doubled slashes add no segment |
| Navigation.CrumbPath | src/lib/navigation.ts:52-55 | the i-th crumb's path is `"/" + join(segments[0..i], "/")` and extends the previous crumb's path by one segment |
| Navigation.ExtendedPath | src/lib/navigation.ts:52-53 | the path of i segments, extended by one, is the path of i + 1, whose segments are those i + 1 |
| Navigation.NextCrumb | src/lib/navigation.ts:52-55 | the loop body builds the crumb of the first i + 1 segments: the matched route's label, else (no match, or a matched key `""`, which is falsy) the formatted segment |
| Navigation.CrumbLabel | src/lib/navigation.ts:23-54 | with no fitting route the label is the formatted last segment; otherwise it comes from a fitting route with the most segments, no later fitting route being as long (the later wins a tie): that route's name, or the formatted segment when its key is `""` |
| Navigation.DashboardKeysNonEmpty | src/lib/navigation.ts:5-21 | no key of the dashboard's route table is empty, so a matched key is never falsy there |
| Navigation.BreadcrumbPath | src/lib/navigation.ts:46-59 | one crumb per non-empty segment; crumb i has path `"/" + join(segments[0..i], "/")`, which is the previous path plus one segment, and the label of its prefix |
| Navigation.CrumbPaths | src/lib/navigation.ts:49-55 | crumbs built by prefix have the joined paths, each extending the one before |
| Navigation.DashboardBreadcrumbs | src/lib/navigation.ts:5-59 | the same, over the dashboard's route table |
| ProjectContentList.DayCount | src/components/project-content-list/index.tsx:86 | `ceil(diff / 86400000)` in whole days: the day count is the least n with `diff <= n` days |
| ProjectContentList.DueBucket | src/components/project-content-list/index.tsx:81-92 | `—` exactly for a missing or empty date; the locale fallback of an invalid date exactly when it does not parse; overdue by at least one day; `In N days` only for N in 2..6 |
| ProjectContentList.FormatDueDate | src/components/project-content-list/index.tsx:81-92 | a parsed date less than a day past or up to now reads `Today`; one up to a day ahead reads `Tomorrow` |
| ProjectContentList.DueBucketByTime | src/components/project-content-list/index.tsx:81-92 | overdue exactly a whole day or more in the past, with the elapsed days; `Today` for the 24 hours up to now; `Tomorrow` for the next 24 hours; `In N days` for N in 2..6; the calendar date beyond |
| ProjectContentList.DueWithoutTime | src/components/project-content-list/index.tsx:81-92 | a missing date reads `—`, and an unparseable one falls through to the locale date |
| ProjectContentList.StatusColor | src/components/project-content-list/index.tsx:94-109 | `in_review`, `scheduled` and `published` each get their own accent; every other status gets the muted style |
| ProjectContentList.DoubleQuotes | src/components/project-content-list/index.tsx:366 | doubling quotes never shortens the title |
| ProjectContentList.DoubledQuotesPaired | src/components/project-content-list/index.tsx:366 | after doubling, every quote is one of a doubled pair |
| ProjectContentList.UndoubleDoubled | src/components/project-content-list/index.tsx:366 | a CSV reader's undoubling inverts the doubling |
| ProjectContentList.TitleRoundTrip | src/components/project-content-list/index.tsx:366 | a reader gets the title back from its quoted field, and no inner quote ends the field early |
| ProjectContentList.Fields | src/components/project-content-list/index.tsx:365-371 | five fields, the first of which a CSV reader unquotes to the title, and the third the status |
| ProjectContentList.Row | src/components/project-content-list/index.tsx:364-372 | a line starts with the quoted title and a comma |
| ProjectContentList.Rows | src/components/project-content-list/index.tsx:364-372 | one line per item, in order, with the quoted title, raw channel, status and due date (`''` when missing) and `;`-joined tags |
| ProjectContentList.ExportCsv | src/components/project-content-list/index.tsx:359-373 | the export produces nothing exactly when the selection is empty |
| ProjectContentList.DoubleQuotesKeeps | src/components/project-content-list/index.tsx:366 | doubling quotes adds no other character |
| ProjectContentList.RowSingleLine | src/components/project-content-list/index.tsx:364-372 | an item with no line break in its fields gives a line with none |
| ProjectContentList.LinesSingleLine | src/components/project-content-list/index.tsx:362-373 | the header and the rows of such items hold no line break |
| ProjectContentList.ChosenRows | src/components/project-content-list/index.tsx:361-372 | the lines are exactly those of the page items whose id is selected |
| ProjectContentList.ExportLines | src/components/project-content-list/index.tsx:359-373 | for items free of line breaks, the file's lines are the header and then one line per selected page item, in page order |
| ProjectContentList.ItemIds | src/components/project-content-list/index.tsx:353 | the id set of the page is exactly the ids of its items |
| ProjectContentList.ItemIdsCount | src/components/project-content-list/index.tsx:353 | with unique ids, the page's id set is as large as the page |
| ProjectContentList.AllSelectedAsWrittenCounterexample | src/components/project-content-list/index.tsx:388 | the size test checks the header for a one-item page whose item is not selected, when one id from another page is |
| ProjectContentList.AllSelectedIff | src/components/project-content-list/index.tsx:388 | the corrected header test holds exactly when the page is non-empty and its ids are all selected |
| ProjectContentList.SubsetSameSize | src/components/project-content-list/index.tsx:388 | a subset as large as its superset is all of it |
| ProjectContentList.AllSelectedAgreesOnPage | src/components/project-content-list/index.tsx:388 | when the selection lies within the page and ids are unique, the size test and the corrected test agree |
| ProjectContentList.SelectAllChecksHeader | src/components/project-content-list/index.tsx:349-357 | for the corrected test: selecting the page ids checks the header, and unselecting any one item unchecks it, whatever else is selected |
| ProjectContentList.SelectAllChecksHeaderAsWritten | src/components/project-content-list/index.tsx:349-388 | for the size test as written, on a page of distinct ids: selecting the page ids checks the header, and unselecting one item unchecks it while the selection holds no id from another page |
| ProjectContentList.ListState.constructor | src/components/project-content-list/index.tsx:242-245 | the view starts on page 0, with nothing selected, no pending delete and no data |
| ProjectContentList.ListState.Loaded | src/components/project-content-list/index.tsx:258-274 | a delivered page replaces the data and leaves the rest of the view alone |
| ProjectContentList.ListState.HeaderChecked | src/components/project-content-list/index.tsx:388 | the header checkbox as written (the size test); while the selection lies within a page of distinct ids it is checked exactly when every page item is selected |
| ProjectContentList.ListState.Toggle | src/components/project-content-list/index.tsx:628-633 | a checked box adds its id and an unchecked one removes it; other ids are untouched (the card checkbox; the table checkbox at lines 694-699 is the same) |
| ProjectContentList.ListState.SelectAll | src/components/project-content-list/index.tsx:349-357 | select-all sets the selection to exactly the page ids, or to the empty set; with no data it does nothing; afterwards the header is checked exactly when it checked a non-empty page of distinct ids |
| ProjectContentList.ListState.ClearSelection | src/components/project-content-list/index.tsx:584 | the selection becomes empty (the Clear button; the bulk updates at lines 321 and 885 do the same) |
| ProjectContentList.ListState.RequestDelete | src/components/project-content-list/index.tsx:636 | the dialog opens for that id (the card's button; the table's at line 775 is the same) |
| ProjectContentList.ListState.DismissDelete | src/components/project-content-list/index.tsx:815 | the dialog closes and nothing else changes |
| ProjectContentList.ListState.DeleteSucceeded | src/components/project-content-list/index.tsx:297-304 | a successful delete clears the pending id and removes that id from the selection, keeping the others |
| ProjectContentList.ListState.PreviousPage | src/components/project-content-list/index.tsx:648-649 | one page back, never below 0; the request offset drops by 12, or stays 0 (the same pager appears at lines 796-797) |
| ProjectContentList.ListState.NextDisabled | src/components/project-content-list/index.tsx:656 | when Next is enabled, the rows past the next offset exist: `offset + 12 < total` |
| ProjectContentList.ListState.NextPage | src/components/project-content-list/index.tsx:656-657 | Next is enabled only while the page is full and `(page+1)·12 < total`; it advances one page, the offset `page·12` grows by 12 and stays below the total (offset from line 269; the same pager appears at lines 804-805) |

## Left out

- Authentication: the model starts from a resolved user id. The 401 replies for a missing or invalid token, and the token's `Bearer ` prefix handling, are not modelled.
- CORS headers and the preflight headers are not modelled. The 204 reply to OPTIONS and the 405 reply to other non-POST methods are modelled only for the proxy and the download function, whose handlers are modelled from the method on. For `openclaw-generate` (index.ts:65-74), `openclaw-research` (index.ts:49-61), `storage-presigned-upload` (index.ts:29-38) and `storage-confirm-upload` (index.ts:11-20), the model starts at a POST, and those method checks are not modelled.
- Request bodies that fail to parse (the 500 of `req.json()`), and fields of unexpected JSON types beyond strings, are not modelled. A non-string file name or download path is modelled as the 500 that calling a string method on it throws.
- The backend's error messages in 500 replies are not modelled: `ServerError` carries none.
- Floating point: confidences and cost units are `real`, so rounding is not modelled. `Number(...)` of `limit` and `offset` is an optional integer, with `None` for `NaN`.
- Dates: `toISOString`, `toLocaleDateString` and `new Date(...)` are parameters or a single `now`. Every `new Date()` within one request is the same instant, and times are millisecond integers compared directly.
- `toUpperCase` is modelled for ASCII letters only; other letters are left as they are.
- Text.Take: `slice(0, 2000)` counts UTF-16 code units and can cut a surrogate pair in half; the model counts characters. The two agree on text within the Basic Multilingual Plane (`TakeInBmp`).
- OpenclawGenerate.ValidateGenerate: the 2000 cap on the prompt is counted in characters, through `Take`; see the line above.
- OpenclawResearch.ValidateQuery: the 2000 cap on the query is counted in characters, through `Take`; see the line above.
- OpenclawProxy.ListJobs: `order('created_at', { ascending: false })` is modelled as reverse insertion order. This agrees with the source while rows are inserted on a clock that never runs backwards (`ResearchKeepsCreatedInOrder`, `ResearchThenListNewestFirst`). How equal timestamps are ordered, and tables filled by an out-of-order clock, are not modelled.
- Column projections (`select('id, ...')`) are not modelled; every read returns whole rows.
- PostgREST semantics: a range past the end, the backend's refusal of a negative range (modelled as a 500), the exact `single()` error cases and the backend's generated row ids. Ids are environment inputs; an insert whose id is taken fails.
- Concurrency: requests are handled one at a time, so the race between the quota check and the usage write is not modelled.
- The sleeps' real durations (`setTimeout`) are not modelled; the method returns the delays it would wait. The jitter is a parameter below 200.
- The upload function generates the path's uuid itself (`crypto.randomUUID()`), separately from the row id the backend assigns; both are environment inputs.
- `send-transactional-email` and the upstream provider itself are network I/O and not part of this model.
- The react-query cache lifecycle (invalidation, refetch) and all rendering are not modelled; `ListState.Loaded` stands for a page arriving.
- The route table is passed to the matcher as a parameter, and `Navigation.Routes` is the dashboard's table; `ROUTE_LABELS[key]` is the `name` of the matched route.
- ProjectContentList.Rows: channel, due date and tags are written raw, as the source does, so a comma or quote in them is not escaped. Only the title round-trips, in `TitleRoundTrip`.
- ProjectContentList.DueBucketByTime: the date string's parsing is a parameter. So a date-only string's time zone is not modelled, and "later today" reads `Tomorrow`, as `Math.ceil` makes it.

## Findings

| source | as written | input that shows it | evidently intended | confidence | as-written member | corrected member |
|---|---|---|---|---|---|---|
| src/components/project-content-list/index.tsx:388 | `allSelected = items.length > 0 && selectedIds.size === items.length` compares sizes, but the selection survives page changes and may hold ids from other pages | select one item on page 1 (id `a`), then go to a page holding one unselected item `b`: the header checkbox shows as checked | the header is checked exactly when every item on the page is selected | not executed | ProjectContentList.AllSelectedAsWrittenCounterexample | ProjectContentList.AllSelectedIff |
