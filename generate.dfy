/**
 * The `openclaw-generate` function: validate the prompt and output type,
 * pass the generation quota, call the upstream provider with bounded retries,
 * fall back to placeholder content, store one output and record its usage.
 */
module OpenclawGenerate {
  import opened Wrappers
  import opened Json
  import opened Text
  import opened Tables
  import opened Upstream
  import Quota

  const DailyQuota: nat := 100
  const MaxRetries: nat := 3
  const InitialBackoffMs: nat := 500
  const MinConfidenceThreshold: real := 0.5
  const DefaultConfidence: real := 0.88
  const MaxPromptLength: nat := 2000
  const OutputTypes: seq<string> := ["thread", "script", "caption", "article"]

  // ---------------------------------------------------------------- retries

  /** `Math.pow(2, n)`: doubles with each step, and outgrows `n`. */
  function Pow2(n: nat): (r: nat)
    ensures r >= 1 && r > n
    ensures n > 0 ==> r == 2 * Pow2(n - 1)
  {
    if n == 0 then 1 else 2 * Pow2(n - 1)
  }

  /** `Math.random() * 200`: the jitter added to a backoff delay. */
  type Jitter = j: real | 0.0 <= j < 200.0

  /** The delay `sleep(attempt)` waits: `INITIAL_BACKOFF_MS * 2^attempt + jitter`. */
  function Backoff(attempt: nat, jitter: Jitter): real {
    (InitialBackoffMs * Pow2(attempt)) as real + jitter
  }

  /** Whatever the jitters, the delay before a later retry is strictly longer. */
  lemma BackoffGrows(attempt: nat, j: Jitter, j': Jitter)
    ensures Backoff(attempt, j) < Backoff(attempt + 1, j')
  {
    assert Pow2(attempt + 1) == 2 * Pow2(attempt);
    assert (InitialBackoffMs * Pow2(attempt)) as real >= 500.0;
  }

  /** The two reasons `fetchWithRetry` tries again: a server error (`!ok` and `>= 500`), or a throw. */
  predicate Retryable<B>(f: Fetched<B>) {
    f.Threw? || (!IsOk(f.status) && f.status >= 500)
  }

  /** The index of the attempt whose outcome `fetchWithRetry` hands back, starting at attempt `from`. */
  function FinalAttempt<B>(fetch: nat -> Fetched<B>, from: nat): (a: nat)
    requires from < MaxRetries
    ensures from <= a < MaxRetries
    ensures forall k :: from <= k < a ==> Retryable(fetch(k))
    ensures a < MaxRetries - 1 ==> !Retryable(fetch(a))
    decreases MaxRetries - from
  {
    if from < MaxRetries - 1 && Retryable(fetch(from)) then FinalAttempt(fetch, from + 1) else from
  }

  /** `fetchWithRetry` returns the final response, whatever its status, or rethrows the final error. */
  datatype Settled<B> = Returned(status: int, body: B) | Rethrown

  function Settle<B>(f: Fetched<B>): Settled<B> {
    match f
    case Response(status, body) => Returned(status, body)
    case Threw => Rethrown
  }

  /**
   * `fetchWithRetry(url, options)`: attempt `a` of the upstream call answers
   * `fetch(a)`; before each retry it sleeps `Backoff(a, jitter(a))`.
   */
  method FetchWithRetry<B>(fetch: nat -> Fetched<B>, jitter: nat -> Jitter)
      returns (result: Settled<B>, attempts: nat, sleeps: seq<real>)
    ensures attempts == FinalAttempt(fetch, 0) + 1
    ensures 1 <= attempts <= MaxRetries
    ensures result == Settle(fetch(attempts - 1))
    ensures |sleeps| == attempts - 1
    ensures forall a :: 0 <= a < |sleeps| ==> sleeps[a] == Backoff(a, jitter(a))
    ensures forall a :: 0 <= a < |sleeps| - 1 ==> sleeps[a] < sleeps[a + 1]
  {
    var attempt: nat := 0;
    var f := fetch(0);
    sleeps := [];
    while Retryable(f) && attempt < MaxRetries - 1
      invariant attempt < MaxRetries
      invariant f == fetch(attempt)
      invariant FinalAttempt(fetch, 0) == FinalAttempt(fetch, attempt)
      invariant |sleeps| == attempt
      invariant forall a :: 0 <= a < attempt ==> sleeps[a] == Backoff(a, jitter(a))
    {
      sleeps := sleeps + [Backoff(attempt, jitter(attempt))];
      attempt := attempt + 1;
      f := fetch(attempt);
    }
    result := Settle(f);
    attempts := attempt + 1;
    forall a | 0 <= a < |sleeps| - 1 ensures sleeps[a] < sleeps[a + 1] {
      BackoffGrows(a, jitter(a), jitter(a + 1));
    }
  }

  /** A first answer that is ok or a client error is handed back at once, without a retry. */
  lemma NoRetryOnSuccessOrClientError<B>(fetch: nat -> Fetched<B>)
    requires fetch(0).Response? && (IsOk(fetch(0).status) || fetch(0).status < 500)
    ensures FinalAttempt(fetch, 0) == 0
  {
  }

  // ------------------------------------------------------------- validation

  /** The request body fields the handler reads; an absent field is `None`. */
  datatype GenerateRequest = GenerateRequest(prompt: Option<Value>, outputType: Option<Value>,
                                             jobId: Option<string>)

  datatype Validated = Invalid(error: string) | Accepted(prompt: string, outputType: string)

  const OutputTypeError: string := "output_type must be one of: " + Join(OutputTypes, ", ")

  /** `output_type ?? 'article'`, then `OUTPUT_TYPES.includes(type)` (strict equality). */
  predicate OutputTypeAllowed(outputType: Option<Value>) {
    var t := Coalesce(outputType, Str("article"));
    t.Str? && t.s in OutputTypes
  }

  /**
   * The handler's checks before the quota: a prompt that is falsy or not a
   * string is refused, then an output type outside the list; an accepted
   * prompt is trimmed and cut to 2000 characters. The emptiness test comes
   * before the trim.
   */
  function ValidateGenerate(prompt: Option<Value>, outputType: Option<Value>): (v: Validated)
    ensures v.Accepted? <==> FieldTruthy(prompt) && prompt.value.Str? && OutputTypeAllowed(outputType)
    ensures !(FieldTruthy(prompt) && prompt.value.Str?) ==> v == Invalid("prompt is required")
    ensures FieldTruthy(prompt) && prompt.value.Str? && !OutputTypeAllowed(outputType)
            ==> v == Invalid(OutputTypeError)
    ensures v.Accepted? ==> (v.prompt == Take(Trim(prompt.value.s), MaxPromptLength)
                         && |v.prompt| <= MaxPromptLength
                         && v.outputType in OutputTypes
                         && Coalesce(outputType, Str("article")) == Str(v.outputType)
                         && (outputType.None? || outputType.value.Null? ==> v.outputType == "article"))
  {
    if !FieldTruthy(prompt) || !prompt.value.Str? then Invalid("prompt is required")
    else
      var t := Coalesce(outputType, Str("article"));
      if !(t.Str? && t.s in OutputTypes) then Invalid(OutputTypeError)
      else Accepted(Take(Trim(prompt.value.s), MaxPromptLength), t.s)
  }

  /** A prompt of white space only passes validation and is stored as the empty string. */
  lemma BlankPromptAccepted(s: string)
    requires s != "" && forall k :: 0 <= k < |s| ==> IsSpace(s[k])
    ensures ValidateGenerate(Some(Str(s)), None) == Accepted("", "article")
  {
    TrimEmptyIff(s);
  }

  // ------------------------------------------------------------ the content

  /** The JSON body of an ok upstream answer; `None` when `res.json()` throws. */
  datatype GenData = GenData(content: Option<string>, confidence: Option<real>)

  /** `Math.max(MIN_CONFIDENCE_THRESHOLD, Math.min(1, x))` */
  function Clamp(x: real): (r: real)
    ensures MinConfidenceThreshold <= r <= 1.0
    ensures MinConfidenceThreshold <= x <= 1.0 ==> r == x
    ensures x < MinConfidenceThreshold ==> r == MinConfidenceThreshold
    ensures x > 1.0 ==> r == 1.0
  {
    var m := if x < 1.0 then x else 1.0;
    if MinConfidenceThreshold > m then MinConfidenceThreshold else m
  }

  /**
   * `content` and `confidence` once the upstream step is over: only an ok
   * answer with a readable body changes them from `''` and 0.88.
   */
  function UpstreamOutcome(apiConfigured: bool, final: Settled<Option<GenData>>): (string, real) {
    if !apiConfigured then ("", DefaultConfidence)
    else match final
      case Rethrown => ("", DefaultConfidence)
      case Returned(status, body) =>
        if !IsOk(status) || body.None? then ("", DefaultConfidence)
        else (body.value.content.GetOr(""), Clamp(body.value.confidence.GetOr(DefaultConfidence)))
  }

  /** The placeholder that stands in when the upstream gave no content. */
  const PlaceholderHead: string := "[Generated "
  const PlaceholderMiddle: string := "]\n\nBased on: \""
  const PlaceholderTail: string := "\"\n\nThis is a placeholder generated content. Connect your OpenClaw API to see real outputs."

  function Placeholder(outputType: string, prompt: string): string {
    PlaceholderHead + outputType + PlaceholderMiddle + prompt + PlaceholderTail
  }

  /** `if (!content) content = placeholder` */
  function FinalContent(content: string, outputType: string, prompt: string): string {
    if content == "" then Placeholder(outputType, prompt) else content
  }

  /** The reported confidence is 0.88 unless the upstream answered ok, and always within [0.5, 1]. */
  lemma ConfidenceInRange(apiConfigured: bool, final: Settled<Option<GenData>>)
    ensures var c := UpstreamOutcome(apiConfigured, final).1;
      MinConfidenceThreshold <= c <= 1.0
    ensures !(apiConfigured && final.Returned? && IsOk(final.status))
            ==> UpstreamOutcome(apiConfigured, final) == ("", DefaultConfidence)
  {
  }

  /** The stored content is never empty; when it is the placeholder it names the type and embeds the prompt. */
  lemma ContentNeverEmpty(content: string, outputType: string, prompt: string)
    ensures FinalContent(content, outputType, prompt) != ""
    ensures content == "" ==> var r := FinalContent(content, outputType, prompt);
      var at := |"[Generated " + outputType + "]\n\nBased on: \""|;
      StartsWith(r, "[Generated " + outputType + "]") && at + |prompt| <= |r|
      && r[at..at + |prompt|] == prompt
  {
    var at := |"[Generated " + outputType + "]\n\nBased on: \""|;
    if content == "" {
      var r := Placeholder(outputType, prompt);
      var head := "[Generated " + outputType + "]\n\nBased on: \"";
      assert r == head + prompt + PlaceholderTail;
      assert r[..|"[Generated " + outputType + "]"|] == "[Generated " + outputType + "]";
      assert r[at..at + |prompt|] == prompt;
    }
  }

  // -------------------------------------------------------------- the quota

  /** Rows of `openclaw_usage` that belong to `user` and have `operation_type = 'generate'`. */
  function GenerationsOf(user: UserId): UsageRow -> bool {
    (r: UsageRow) => r.userId == user && r.operationType == "generate"
  }

  function UsageCreated(): UsageRow -> Time {
    (r: UsageRow) => r.createdAt
  }

  /** The count `checkQuota` takes at `now`. */
  function GenerateCount(usage: seq<UsageRow>, user: UserId, now: Time): nat {
    Quota.WindowCount(usage, GenerationsOf(user), UsageCreated(), now)
  }

  const QuotaMessage: string := "Daily generation quota (100) exceeded"

  /**
   * `checkQuota(supabase, userId)`: allowed exactly when the count query
   * succeeds and the caller has fewer than 100 generations in the last 24
   * hours; otherwise refused with the message for the failure or the cap.
   */
  function CheckQuota(usage: seq<UsageRow>, user: UserId, now: Time, queryFailed: bool): (d: Quota.Decision)
    ensures d.Allowed? <==> !queryFailed && GenerateCount(usage, user, now) < DailyQuota
    ensures d.Denied? ==> d.message == if queryFailed then "Quota check failed" else QuotaMessage
  {
    Quota.Check(queryFailed, GenerateCount(usage, user, now), DailyQuota, QuotaMessage)
  }

  // ------------------------------------------------------------ the handler

  /**
   * What the handler's collaborators answer for one request: the quota count
   * query, whether an upstream URL is configured and what each upstream
   * attempt returns, the jitters, the outcome of the insert and of the usage
   * write, the id the backend gives the new row, and the clock.
   */
  datatype GenerateEnv = GenerateEnv(countFails: bool, apiConfigured: bool,
                                     fetch: nat -> Fetched<Option<GenData>>, jitter: nat -> Jitter,
                                     insertFails: bool, usageFails: bool, newOutputId: Id, now: Time)

  datatype GenerateReply =
    | BadRequest(error: string)        // 400
    | TooManyRequests(error: string)   // 429
    | ServerError                      // 500, the backend's message is not modelled
    | Generated(outputId: Id, output: Output, confidenceScore: real)  // 200

  /** The outcome the upstream step reaches in `env`, as `fetchWithRetry` settles it. */
  function UpstreamIn(env: GenerateEnv): (string, real) {
    UpstreamOutcome(env.apiConfigured, Settle(env.fetch(FinalAttempt(env.fetch, 0))))
  }

  /** The reply, the outputs table and the generation ledger after one request. */
  datatype GenerateEffect = GenerateEffect(reply: GenerateReply, outputs: seq<Output>, usage: seq<UsageRow>)

  /** What happens once a request has passed validation and the quota. */
  function StoreStep(outputs: seq<Output>, usage: seq<UsageRow>, user: UserId, jobId: Option<string>,
                     prompt: string, outputType: string, env: GenerateEnv): (e: GenerateEffect)
    ensures e.reply.ServerError? || e.reply.Generated?
    ensures e.reply.ServerError? <==> env.insertFails || OutputIdTaken(outputs, env.newOutputId)
    ensures e.reply.Generated? ==>
              && e.reply.outputId == env.newOutputId && e.outputs == outputs + [e.reply.output]
              && e.reply.output.userId == user && e.reply.output.jobId == jobId
              && e.reply.output.outputType == outputType && e.reply.output.content != ""
              && e.reply.confidenceScore == e.reply.output.confidenceScore
  {
    var (upstreamContent, confidence) := UpstreamIn(env);
    var content := FinalContent(upstreamContent, outputType, prompt);
    var row := Output(env.newOutputId, user, jobId, outputType, content, confidence, false, env.now);
    if env.insertFails || OutputIdTaken(outputs, env.newOutputId) then
      GenerateEffect(ServerError, outputs, usage)
    else
      GenerateEffect(Generated(row.id, row, confidence), outputs + [row],
                     usage + (if env.usageFails then [] else [UsageRow(user, "generate", Utf16Length(content), env.now)]))
  }

  /** One request, as a function of the tables before it. */
  function GenerateStep(outputs: seq<Output>, usage: seq<UsageRow>, user: UserId,
                        req: GenerateRequest, env: GenerateEnv): (e: GenerateEffect)
    ensures e.reply.BadRequest? <==> ValidateGenerate(req.prompt, req.outputType).Invalid?
    ensures e.reply.TooManyRequests? <==> ValidateGenerate(req.prompt, req.outputType).Accepted?
                                          && CheckQuota(usage, user, env.now, env.countFails).Denied?
    ensures e.reply.Generated? ==> e.reply.output.content != "" && e.reply.output.userId == user
                                   && e.reply.output.outputType == ValidateGenerate(req.prompt, req.outputType).outputType
  {
    match ValidateGenerate(req.prompt, req.outputType)
    case Invalid(error) => GenerateEffect(BadRequest(error), outputs, usage)
    case Accepted(prompt, outputType) =>
      match CheckQuota(usage, user, env.now, env.countFails)
      case Denied(message) => GenerateEffect(TooManyRequests(message), outputs, usage)
      case Allowed => StoreStep(outputs, usage, user, req.jobId, prompt, outputType, env)
  }

  /** The upstream step of the handler: `content` and `confidence` start as `''` and 0.88. */
  method CallUpstream(env: GenerateEnv) returns (content: string, confidence: real)
    ensures (content, confidence) == UpstreamIn(env)
    ensures MinConfidenceThreshold <= confidence <= 1.0
  {
    content := "";
    confidence := DefaultConfidence;
    if env.apiConfigured {
      var res, _, _ := FetchWithRetry(env.fetch, env.jitter);
      if res.Returned? && IsOk(res.status) && res.body.Some? {
        content := res.body.value.content.GetOr("");
        confidence := Clamp(res.body.value.confidence.GetOr(DefaultConfidence));
      }
    }
  }

  /** The handler from the upstream call on: fill in the content, insert the output, record the usage. */
  method Store(db: Database, user: UserId, jobId: Option<string>, prompt: string, outputType: string,
               env: GenerateEnv) returns (reply: GenerateReply)
    requires OutputIdsUnique(db.outputs)
    modifies db
    ensures OutputIdsUnique(db.outputs)
    ensures db.jobs == old(db.jobs) && db.accounting == old(db.accounting) && db.assets == old(db.assets)
    ensures GenerateEffect(reply, db.outputs, db.usage)
         == StoreStep(old(db.outputs), old(db.usage), user, jobId, prompt, outputType, env)
  {
    ghost var outputs0, usage0 := db.outputs, db.usage;
    var content, confidence := Compose(env, outputType, prompt);

    if env.insertFails || OutputIdTaken(db.outputs, env.newOutputId) {
      StoreStepFailed(outputs0, usage0, user, jobId, prompt, outputType, env);
      return ServerError;
    }
    StoreStepStored(outputs0, usage0, user, jobId, prompt, outputType, env);
    var output := Output(env.newOutputId, user, jobId, outputType, content, confidence, false, env.now);
    Write(db, output, if env.usageFails then [] else [UsageRow(user, "generate", Utf16Length(content), env.now)]);
    reply := Generated(output.id, output, confidence);
  }

  /** The insert of the output row, then the ledger rows (none when that write fails). */
  method Write(db: Database, output: Output, ledger: seq<UsageRow>)
    requires OutputIdsUnique(db.outputs) && !OutputIdTaken(db.outputs, output.id)
    modifies db
    ensures OutputIdsUnique(db.outputs)
    ensures db.outputs == old(db.outputs) + [output] && db.usage == old(db.usage) + ledger
    ensures db.jobs == old(db.jobs) && db.accounting == old(db.accounting) && db.assets == old(db.assets)
  {
    AppendFreshOutput(db.outputs, output);
    db.outputs := db.outputs + [output];
    if ledger != [] {
      db.usage := db.usage + ledger;
    }
  }

  /** A store whose insert fails answers 500 and changes nothing. */
  lemma StoreStepFailed(outputs: seq<Output>, usage: seq<UsageRow>, user: UserId, jobId: Option<string>,
                        prompt: string, outputType: string, env: GenerateEnv)
    requires env.insertFails || OutputIdTaken(outputs, env.newOutputId)
    ensures StoreStep(outputs, usage, user, jobId, prompt, outputType, env) == GenerateEffect(ServerError, outputs, usage)
  {
  }

  /** The upstream call and the placeholder when it yields no content. */
  method Compose(env: GenerateEnv, outputType: string, prompt: string) returns (content: string, confidence: real)
    ensures content == FinalContent(UpstreamIn(env).0, outputType, prompt)
    ensures confidence == UpstreamIn(env).1
  {
    content, confidence := CallUpstream(env);

    if content == "" {
      content := Placeholder(outputType, prompt);
    }
  }

  /** The effect of a store whose insert succeeds: the new row, and its ledger row unless that write fails. */
  lemma StoreStepStored(outputs: seq<Output>, usage: seq<UsageRow>, user: UserId, jobId: Option<string>,
                        prompt: string, outputType: string, env: GenerateEnv)
    requires !(env.insertFails || OutputIdTaken(outputs, env.newOutputId))
    ensures var (upstreamContent, confidence) := UpstreamIn(env);
      var content := FinalContent(upstreamContent, outputType, prompt);
      var row := Output(env.newOutputId, user, jobId, outputType, content, confidence, false, env.now);
      StoreStep(outputs, usage, user, jobId, prompt, outputType, env)
        == GenerateEffect(Generated(row.id, row, confidence), outputs + [row],
                          usage + (if env.usageFails then [] else [UsageRow(user, "generate", Utf16Length(content), env.now)]))
  {
  }

  /** The handler body after authentication (`user` is the caller). */
  method Generate(db: Database, user: UserId, req: GenerateRequest, env: GenerateEnv)
      returns (reply: GenerateReply)
    requires db.Valid()
    modifies db
    ensures db.Valid()
    ensures db.jobs == old(db.jobs) && db.accounting == old(db.accounting) && db.assets == old(db.assets)
    ensures GenerateEffect(reply, db.outputs, db.usage) == GenerateStep(old(db.outputs), old(db.usage), user, req, env)
  {
    var v := ValidateGenerate(req.prompt, req.outputType);
    if v.Invalid? {
      return BadRequest(v.error);
    }
    var sanitizedPrompt, outputType := v.prompt, v.outputType;

    var quota := CheckQuota(db.usage, user, env.now, env.countFails);
    if quota.Denied? {
      return TooManyRequests(quota.message);
    }

    reply := Store(db, user, req.jobId, sanitizedPrompt, outputType, env);
  }

  // ------------------------------------------------------- what a step does

  /** A refused request (400, 429 or 500) inserts no output and records no usage. */
  lemma RefusedChangesNothing(outputs: seq<Output>, usage: seq<UsageRow>, user: UserId,
                              req: GenerateRequest, env: GenerateEnv)
    ensures var e := GenerateStep(outputs, usage, user, req, env);
      !e.reply.Generated? ==> e.outputs == outputs && e.usage == usage
  {
    var e := GenerateStep(outputs, usage, user, req, env);
    match ValidateGenerate(req.prompt, req.outputType)
    case Invalid(error) => assert e.outputs == outputs && e.usage == usage;
    case Accepted(prompt, outputType) =>
      match CheckQuota(usage, user, env.now, env.countFails)
      case Denied(message) => assert e.outputs == outputs && e.usage == usage;
      case Allowed =>
        assert e == StoreStep(outputs, usage, user, req.jobId, prompt, outputType, env);
        StoreRefused(outputs, usage, user, req.jobId, prompt, outputType, env);
  }

  /** Storing either answers 200 or changes nothing. */
  lemma StoreRefused(outputs: seq<Output>, usage: seq<UsageRow>, user: UserId, jobId: Option<string>,
                     prompt: string, outputType: string, env: GenerateEnv)
    ensures var e := StoreStep(outputs, usage, user, jobId, prompt, outputType, env);
      !e.reply.Generated? ==> e.outputs == outputs && e.usage == usage
  {
    if !(env.insertFails || OutputIdTaken(outputs, env.newOutputId)) {
      assert StoreStep(outputs, usage, user, jobId, prompt, outputType, env).reply.Generated?;
    }
  }

  /**
   * The quota gate: at or above 100 generations in the window, or when the
   * count query fails, a valid request is answered 429; a request that is
   * answered 200 was under the cap.
   */
  lemma QuotaGate(outputs: seq<Output>, usage: seq<UsageRow>, user: UserId,
                  req: GenerateRequest, env: GenerateEnv)
    ensures var e := GenerateStep(outputs, usage, user, req, env);
      (ValidateGenerate(req.prompt, req.outputType).Accepted?
       && (env.countFails || GenerateCount(usage, user, env.now) >= DailyQuota))
      ==> e.reply.TooManyRequests? && e.outputs == outputs && e.usage == usage
    ensures var e := GenerateStep(outputs, usage, user, req, env);
      e.reply.Generated? ==> !env.countFails && GenerateCount(usage, user, env.now) < DailyQuota
  {
  }

  /**
   * A 200 reply stores exactly one unapproved output with non-empty content and
   * a confidence in [0.5, 1], returns that same row and confidence, and then
   * records one usage row whose token count is the content's length.
   */
  lemma GeneratedOutput(outputs: seq<Output>, usage: seq<UsageRow>, user: UserId,
                        req: GenerateRequest, env: GenerateEnv)
    ensures var e := GenerateStep(outputs, usage, user, req, env);
      e.reply.Generated? ==>
        var o := e.reply.output;
        && e.outputs == outputs + [o]
        && o.userId == user && o.jobId == req.jobId && !o.approved && o.content != ""
        && o.confidenceScore == e.reply.confidenceScore
        && MinConfidenceThreshold <= o.confidenceScore <= 1.0
        && o.outputType == ValidateGenerate(req.prompt, req.outputType).outputType
        && e.usage == usage + (if env.usageFails then [] else [UsageRow(user, "generate", Utf16Length(o.content), env.now)])
  {
    var e := GenerateStep(outputs, usage, user, req, env);
    if e.reply.Generated? {
      var v := ValidateGenerate(req.prompt, req.outputType);
      ContentNeverEmpty(UpstreamIn(env).0, v.outputType, v.prompt);
      ConfidenceInRange(env.apiConfigured, Settle(env.fetch(FinalAttempt(env.fetch, 0))));
    }
  }

  /**
   * Handled one at a time, requests keep every user within the daily cap: if
   * `who` had at most 100 generations in the window at an earlier time `t`,
   * then after any request, by any user, at `env.now >= t`, `who` has at most
   * 100 in the window at `env.now`.
   */
  lemma StepKeepsUnderCap(outputs: seq<Output>, usage: seq<UsageRow>, user: UserId,
                          req: GenerateRequest, env: GenerateEnv, who: UserId, t: Time)
    requires t <= env.now
    requires GenerateCount(usage, who, t) <= DailyQuota
    ensures GenerateCount(GenerateStep(outputs, usage, user, req, env).usage, who, env.now) <= DailyQuota
  {
    var usage' := GenerateStep(outputs, usage, user, req, env).usage;
    UsageGrowth(outputs, usage, user, req, env);
    if usage' != usage {
      var x := usage'[|usage|];
      assert x.userId != who ==> !Quota.WindowFilter(GenerationsOf(who), UsageCreated(), env.now)(x);
    }
    Quota.GatedAppendStaysUnderCap(usage, usage', GenerationsOf(who), UsageCreated(), t, env.now, DailyQuota);
  }

  /** A request leaves the ledger as it was or appends one row of the caller's, and only below the cap. */
  lemma UsageGrowth(outputs: seq<Output>, usage: seq<UsageRow>, user: UserId,
                    req: GenerateRequest, env: GenerateEnv)
    ensures var usage' := GenerateStep(outputs, usage, user, req, env).usage;
      || usage' == usage
      || (&& |usage'| == |usage| + 1 && usage'[..|usage|] == usage && usage'[|usage|].userId == user
          && GenerateCount(usage, user, env.now) < DailyQuota)
  {
    var v := ValidateGenerate(req.prompt, req.outputType);
    if v.Accepted? && CheckQuota(usage, user, env.now, env.countFails).Allowed? {
      StoreUsage(outputs, usage, user, req.jobId, v.prompt, v.outputType, env);
    }
  }

  /** Storing appends at most one usage row, the caller's. */
  lemma StoreUsage(outputs: seq<Output>, usage: seq<UsageRow>, user: UserId, jobId: Option<string>,
                   prompt: string, outputType: string, env: GenerateEnv)
    ensures var usage' := StoreStep(outputs, usage, user, jobId, prompt, outputType, env).usage;
      || usage' == usage
      || (|usage'| == |usage| + 1 && usage'[..|usage|] == usage && usage'[|usage|].userId == user)
  {
    if !(env.insertFails || OutputIdTaken(outputs, env.newOutputId) || env.usageFails) {
      var content := FinalContent(UpstreamIn(env).0, outputType, prompt);
      var row := UsageRow(user, "generate", Utf16Length(content), env.now);
      assert StoreStep(outputs, usage, user, jobId, prompt, outputType, env).usage == usage + [row];
      assert (usage + [row])[..|usage|] == usage;
    }
  }
}
