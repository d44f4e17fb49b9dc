/**
 * The API client's retry driver and its pure helpers (core/api_client.py).
 *
 * The network call is replaced by one abstract outcome per attempt, and the
 * random jitter of each back-off by a parameter in [0.1, 0.3].
 */
module ApiClient {
  import opened Wrappers
  import opened Text
  import opened JsonValue

  const MaxRetries: nat := 3
  const BaseDelay: real := 1.0
  const MaxDelay: real := 10.0
  const DefaultTimeout: real := 30.0
  const DefaultModel: string := "gpt-3.5-turbo"

  /** The exception the HTTP layer raises for one attempt. */
  datatype ErrorKind = RequestTimeout | ConnectionFailure | HttpStatus(code: int) | OtherError

  /** The message `_make_api_call` re-raises, by kind. */
  datatype Failure =
    | TimedOut(seconds: real)
    | ConnectionFailed
    | RateLimited
    | InvalidApiKey
    | AccessDenied
    | HttpFailure(code: int)
    | Unknown
    | ResponseUnreadable   // escaped from `_process_response` (see Attempt.Answered)

  /** `dynamic_timeout` of attempt `k` (counted from 0). */
  function AttemptTimeout(configured: real, k: nat): (t: real)
    ensures configured >= 0.0 ==> t >= configured
  {
    configured * (k + 1) as real
  }

  /** Error classification of `_make_api_call`. */
  function Classify(kind: ErrorKind, timeout: real): (f: Failure)
    ensures f.TimedOut? <==> kind.RequestTimeout?
    ensures f.ConnectionFailed? <==> kind.ConnectionFailure?
    ensures f.Unknown? <==> kind.OtherError?
    ensures f.RateLimited? <==> kind == HttpStatus(429)
    ensures f.InvalidApiKey? <==> kind == HttpStatus(401)
    ensures f.AccessDenied? <==> kind == HttpStatus(403)
    ensures f.HttpFailure? <==> kind.HttpStatus? && kind.code !in {429, 401, 403}
    ensures f.TimedOut? ==> f.seconds == timeout
    ensures f.HttpFailure? ==> f.code == kind.code
    ensures !f.ResponseUnreadable?
  {
    match kind
    case RequestTimeout => TimedOut(timeout)
    case ConnectionFailure => ConnectionFailed
    case HttpStatus(code) =>
      if code == 429 then RateLimited
      else if code == 401 then InvalidApiKey
      else if code == 403 then AccessDenied
      else HttpFailure(code)
    case OtherError => Unknown
  }

  /** The status code a failure message carries, if any. */
  function StatusOf(f: Failure): Option<int> {
    match f
    case RateLimited => Some(429)
    case InvalidApiKey => Some(401)
    case AccessDenied => Some(403)
    case HttpFailure(code) => Some(code)
    case _ => None
  }

  /** Classification never loses an HTTP status code, and only HTTP errors carry one. */
  lemma ClassifyKeepsStatus(kind: ErrorKind, timeout: real)
    ensures StatusOf(Classify(kind, timeout)) == (if kind.HttpStatus? then Some(kind.code) else None)
  {
  }

  function Pow2(n: nat): (r: nat)
    ensures r >= 1
  {
    if n == 0 then 1 else 2 * Pow2(n - 1)
  }

  lemma {:induction false} Pow2Monotone(m: nat, n: nat)
    requires m <= n
    ensures Pow2(m) <= Pow2(n)
    decreases n
  {
    if m < n {
      Pow2Monotone(m, n - 1);
    }
  }

  /** `base_delay * 2 ** attempt`. */
  function Backoff(k: nat): real {
    BaseDelay * Pow2(k) as real
  }

  /** `_calculate_retry_delay(k)` with `jitter` the value drawn from uniform(0.1, 0.3). */
  function RetryDelay(k: nat, jitter: real): real
    requires 0.1 <= jitter <= 0.3
  {
    var d := Backoff(k);
    if d + jitter * d <= MaxDelay then d + jitter * d else MaxDelay
  }

  /** The delay never exceeds the cap, and is at least 1.1 times the back-off (or the cap). */
  lemma RetryDelayBounds(k: nat, jitter: real)
    requires 0.1 <= jitter <= 0.3
    ensures RetryDelay(k, jitter) <= MaxDelay
    ensures RetryDelay(k, jitter) >= (if 1.1 * Backoff(k) <= MaxDelay then 1.1 * Backoff(k) else MaxDelay)
    ensures RetryDelay(k, jitter) <= 1.3 * Backoff(k)
  {
    var d := Backoff(k);
    JitterBetween(d, jitter);
    assert RetryDelay(k, jitter) == if d + jitter * d <= MaxDelay then d + jitter * d else MaxDelay;
  }

  /** Adding a jitter of 10 to 30 percent to a non-negative delay. */
  lemma JitterBetween(d: real, jitter: real)
    requires d >= 0.0 && 0.1 <= jitter <= 0.3
    ensures 1.1 * d <= d + jitter * d <= 1.3 * d
  {
    assert 0.1 * d <= jitter * d;
    assert jitter * d <= 0.3 * d;
  }

  /** The back-off before jitter does not decrease from one attempt to the next. */
  lemma BackoffMonotone(j: nat, k: nat)
    requires j <= k
    ensures Backoff(j) <= Backoff(k)
  {
    Pow2Monotone(j, k);
  }

  /** The message content of the first choice. */
  datatype Content =
    | NoContent                                 // `message.content` is None
    | Text(raw: string, parsed: Option<Json>)   // `parsed`: json.loads of the stripped text, if it parses

  /** What one call to the chat completion endpoint gives. */
  datatype Attempt =
    | Raises(kind: ErrorKind)
    | EmptyResponse                             // no response or no choices
    | Answered(content: Content, usage: Option<nat>)

  /** What a call to `generate_dialog` did, beyond its result. */
  datatype Summary = Summary(
    result: Option<Json>,
    succeeded: nat,          // added to successful_requests
    failed: nat,             // added to failed_requests
    tokens: nat,             // added to total_tokens_used
    sleeps: seq<real>,       // the back-off pauses, in order
    failures: seq<Failure>,  // the error of each failed attempt, in order
    attempts: nat)

  function Empty(): Summary {
    Summary(None, 0, 0, 0, [], [], 0)
  }

  /** Summary `a` followed by summary `b`; the result is the later one's. */
  function Then(a: Summary, b: Summary): Summary {
    Summary(b.result, a.succeeded + b.succeeded, a.failed + b.failed, a.tokens + b.tokens,
            a.sleeps + b.sleeps, a.failures + b.failures, a.attempts + b.attempts)
  }

  /** An attempt that ends up in the `except` of `generate_dialog`. */
  predicate Fails(a: Attempt) {
    a.Raises? || (a.Answered? && a.content.NoContent?)
  }

  /** An attempt after which `generate_dialog` returns. */
  predicate Returns(a: Attempt) {
    a.Answered? && a.content.Text?
  }

  /**
   * `_process_response` for a text content: None when blank or not JSON,
   * otherwise the parsed value, with the usage added to the tokens.
   */
  function Processed(raw: string, parsed: Option<Json>, usage: Option<nat>): (r: (Option<Json>, nat))
    ensures r.0.None? <==> IsBlank(raw) || parsed.None?
    ensures r.0.Some? ==> r.0 == parsed
    ensures r.1 > 0 ==> r.0.Some? && usage == Some(r.1)
  {
    if IsBlank(raw) || parsed.None? then (None, 0)
    else (parsed, if usage.Some? then usage.value else 0)
  }

  /**
   * What attempt `k` of `generate_dialog` contributes.  A `None` content
   * raises at `.strip()`; matching that exception against
   * `json.JSONDecodeError` happens before the function-local `import json`
   * has run, so an UnboundLocalError escapes: the attempt has already been
   * counted as successful and is then also counted as failed and retried.
   */
  function Step(outcomes: seq<Attempt>, jitters: seq<real>, timeout: real, k: nat): Summary
    requires |outcomes| == MaxRetries + 1 && |jitters| == MaxRetries && k <= MaxRetries
    requires forall i :: 0 <= i < |jitters| ==> 0.1 <= jitters[i] <= 0.3
  {
    var sleep := if k < MaxRetries then [RetryDelay(k, jitters[k])] else [];
    match outcomes[k]
    case EmptyResponse => Summary(None, 0, 0, 0, [], [], 1)
    case Raises(kind) => Summary(None, 0, 1, 0, sleep, [Classify(kind, AttemptTimeout(timeout, k))], 1)
    case Answered(NoContent, _) => Summary(None, 1, 1, 0, sleep, [ResponseUnreadable], 1)
    case Answered(Text(raw, parsed), usage) =>
      var p := Processed(raw, parsed, usage);
      Summary(p.0, 1, 0, p.1, [], [], 1)
  }

  /** One attempt: one try, a failure exactly when it fails, a pause only after a failure that is not the last attempt. */
  lemma StepFacts(outcomes: seq<Attempt>, jitters: seq<real>, timeout: real, k: nat)
    requires |outcomes| == MaxRetries + 1 && |jitters| == MaxRetries && k <= MaxRetries
    requires forall i :: 0 <= i < |jitters| ==> 0.1 <= jitters[i] <= 0.3
    ensures var st := Step(outcomes, jitters, timeout, k);
      && st.attempts == 1
      && st.failed == (if Fails(outcomes[k]) then 1 else 0) == |st.failures|
      && st.succeeded == (if outcomes[k].Answered? then 1 else 0)
      && |st.sleeps| == (if Fails(outcomes[k]) && k < MaxRetries then 1 else 0)
      && (forall i :: 0 <= i < |st.sleeps| ==> st.sleeps[i] <= MaxDelay)
      && (st.result.Some? ==> Returns(outcomes[k]))
      && (!Returns(outcomes[k]) ==> st.tokens == 0)
  {
    if k < MaxRetries {
      RetryDelayBounds(k, jitters[k]);
    }
  }

  /** The attempts of `generate_dialog` from attempt `k` on. */
  function Run(outcomes: seq<Attempt>, jitters: seq<real>, timeout: real, k: nat): (s: Summary)
    requires |outcomes| == MaxRetries + 1 && |jitters| == MaxRetries
    requires forall i :: 0 <= i < |jitters| ==> 0.1 <= jitters[i] <= 0.3
    decreases MaxRetries + 1 - k
  {
    if k > MaxRetries then Empty()
    else if Returns(outcomes[k]) then Step(outcomes, jitters, timeout, k)
    else Then(Step(outcomes, jitters, timeout, k), Run(outcomes, jitters, timeout, k + 1))
  }

  lemma ThenAssociative(a: Summary, b: Summary, c: Summary)
    ensures Then(Then(a, b), c) == Then(a, Then(b, c))
  {
    assert (a.sleeps + b.sleeps) + c.sleeps == a.sleeps + (b.sleeps + c.sleeps);
    assert (a.failures + b.failures) + c.failures == a.failures + (b.failures + c.failures);
  }

  /** Bounds of a run from attempt `k`: attempts, and the successes and failures among them. */
  lemma {:induction false} RunBounds(outcomes: seq<Attempt>, jitters: seq<real>, timeout: real, k: nat)
    requires |outcomes| == MaxRetries + 1 && |jitters| == MaxRetries && k <= MaxRetries + 1
    requires forall i :: 0 <= i < |jitters| ==> 0.1 <= jitters[i] <= 0.3
    ensures var s := Run(outcomes, jitters, timeout, k);
      && s.attempts <= MaxRetries + 1 - k
      && (k <= MaxRetries ==> s.attempts >= 1)
      && s.failed <= s.attempts && s.succeeded <= s.attempts
      && s.failed == |s.failures|
      && (s.result.Some? ==> s.succeeded >= 1)
    decreases MaxRetries + 1 - k
  {
    if k <= MaxRetries {
      RunBounds(outcomes, jitters, timeout, k + 1);
      StepFacts(outcomes, jitters, timeout, k);
      UnfoldRun(outcomes, jitters, timeout, k);
    }
  }

  /** Pauses of a run from attempt `k`: one after every failed attempt except a failure of the last attempt. */
  lemma {:induction false} RunPauses(outcomes: seq<Attempt>, jitters: seq<real>, timeout: real, k: nat)
    requires |outcomes| == MaxRetries + 1 && |jitters| == MaxRetries && k <= MaxRetries + 1
    requires forall i :: 0 <= i < |jitters| ==> 0.1 <= jitters[i] <= 0.3
    ensures var s := Run(outcomes, jitters, timeout, k);
      |s.sleeps| + (if k <= MaxRetries && k + s.attempts == MaxRetries + 1 && Fails(outcomes[MaxRetries]) then 1 else 0)
      == s.failed
    decreases MaxRetries + 1 - k
  {
    if k <= MaxRetries {
      var st, rest := Step(outcomes, jitters, timeout, k), Run(outcomes, jitters, timeout, k + 1);
      var s := Run(outcomes, jitters, timeout, k);
      assert st.failed == |st.sleeps| + (if k == MaxRetries && Fails(outcomes[k]) then 1 else 0) by {
        StepFacts(outcomes, jitters, timeout, k);
      }
      if Returns(outcomes[k]) {
        assert s == st by { UnfoldRun(outcomes, jitters, timeout, k); }
        assert st.attempts == 1 && !Fails(outcomes[k]) by { StepFacts(outcomes, jitters, timeout, k); }
      } else {
        assert s == Then(st, rest) by { UnfoldRun(outcomes, jitters, timeout, k); }
        assert st.attempts == 1 by { StepFacts(outcomes, jitters, timeout, k); }
        assert |s.sleeps| == |st.sleeps| + |rest.sleeps|;
        RunPauses(outcomes, jitters, timeout, k + 1);
        if k == MaxRetries {
          assert rest == Empty();
        }
      }
    }
  }

  /** Every pause of a run is at most `MaxDelay`. */
  lemma {:induction false} RunPausesCapped(outcomes: seq<Attempt>, jitters: seq<real>, timeout: real, k: nat)
    requires |outcomes| == MaxRetries + 1 && |jitters| == MaxRetries && k <= MaxRetries + 1
    requires forall i :: 0 <= i < |jitters| ==> 0.1 <= jitters[i] <= 0.3
    ensures var s := Run(outcomes, jitters, timeout, k);
      forall i :: 0 <= i < |s.sleeps| ==> s.sleeps[i] <= MaxDelay
    decreases MaxRetries + 1 - k
  {
    if k <= MaxRetries {
      RunPausesCapped(outcomes, jitters, timeout, k + 1);
      StepFacts(outcomes, jitters, timeout, k);
      UnfoldRun(outcomes, jitters, timeout, k);
    }
  }

  /** One unfolding of `Run`. */
  lemma UnfoldRun(outcomes: seq<Attempt>, jitters: seq<real>, timeout: real, k: nat)
    requires |outcomes| == MaxRetries + 1 && |jitters| == MaxRetries && k <= MaxRetries
    requires forall i :: 0 <= i < |jitters| ==> 0.1 <= jitters[i] <= 0.3
    ensures Run(outcomes, jitters, timeout, k) ==
      if Returns(outcomes[k]) then Step(outcomes, jitters, timeout, k)
      else Then(Step(outcomes, jitters, timeout, k), Run(outcomes, jitters, timeout, k + 1))
  {
  }

  /** A call whose attempts all raise makes four attempts, pauses three times, fails four times and gives None. */
  lemma AllAttemptsRaise(outcomes: seq<Attempt>, jitters: seq<real>, timeout: real)
    requires |outcomes| == MaxRetries + 1 && |jitters| == MaxRetries
    requires forall i :: 0 <= i < |jitters| ==> 0.1 <= jitters[i] <= 0.3
    requires forall i :: 0 <= i < |outcomes| ==> outcomes[i].Raises?
    ensures var s := Run(outcomes, jitters, timeout, 0);
      s.result.None? && s.attempts == 4 && s.failed == 4 && s.succeeded == 0 && |s.sleeps| == MaxRetries
  {
    RunBounds(outcomes, jitters, timeout, 0);
    RunPauses(outcomes, jitters, timeout, 0);
  }

  /** Empty responses are neither failures nor followed by a pause. */
  lemma EmptyResponsesNeverPause(outcomes: seq<Attempt>, jitters: seq<real>, timeout: real)
    requires |outcomes| == MaxRetries + 1 && |jitters| == MaxRetries
    requires forall i :: 0 <= i < |jitters| ==> 0.1 <= jitters[i] <= 0.3
    requires forall i :: 0 <= i < |outcomes| ==> outcomes[i].EmptyResponse?
    ensures Run(outcomes, jitters, timeout, 0) == Summary(None, 0, 0, 0, [], [], 4)
  {
  }

  /** The first attempt answered with text ends the call with that attempt's processed result. */
  lemma {:induction false} FirstAnswerEndsRun(outcomes: seq<Attempt>, jitters: seq<real>, timeout: real, k: nat, j: nat)
    requires |outcomes| == MaxRetries + 1 && |jitters| == MaxRetries
    requires forall i :: 0 <= i < |jitters| ==> 0.1 <= jitters[i] <= 0.3
    requires j <= k <= MaxRetries && Returns(outcomes[k])
    requires forall i :: j <= i < k ==> !Returns(outcomes[i])
    ensures var s := Run(outcomes, jitters, timeout, j);
      s.attempts == k + 1 - j
      && s.result == Processed(outcomes[k].content.raw, outcomes[k].content.parsed, outcomes[k].usage).0
    decreases k - j
  {
    if j < k {
      FirstAnswerEndsRun(outcomes, jitters, timeout, k, j + 1);
    }
  }

  /**
   * When every answer from attempt `k` on has a None content, each of those
   * attempts is counted once as successful and once as failed; from attempt
   * 0 that is four of each for a single request, so the success rate can
   * exceed 100.
   */
  lemma {:induction false} NoContentCountsTwice(outcomes: seq<Attempt>, jitters: seq<real>, timeout: real, k: nat)
    requires |outcomes| == MaxRetries + 1 && |jitters| == MaxRetries && k <= MaxRetries + 1
    requires forall i :: 0 <= i < |jitters| ==> 0.1 <= jitters[i] <= 0.3
    requires forall i :: k <= i < |outcomes| ==> outcomes[i].Answered? && outcomes[i].content.NoContent?
    ensures var s := Run(outcomes, jitters, timeout, k);
      s.succeeded == MaxRetries + 1 - k && s.failed == MaxRetries + 1 - k && s.result.None? && s.tokens == 0
    decreases MaxRetries + 1 - k
  {
    if k <= MaxRetries {
      NoContentCountsTwice(outcomes, jitters, timeout, k + 1);
      StepFacts(outcomes, jitters, timeout, k);
    }
  }

  /** `model_prices.get(model, 0.002)`. */
  function PricePerThousand(model: string): real {
    if model == "gpt-3.5-turbo" then 0.002
    else if model == "gpt-4" then 0.03
    else if model == "gpt-4-turbo" then 0.01
    else 0.002
  }

  /** `_estimate_cost` before rounding. */
  function EstimateCost(tokens: nat, model: string): (c: real)
    ensures c >= 0.0
  {
    tokens as real / 1000.0 * PricePerThousand(model)
  }

  /** More tokens never cost less, and an unknown model is priced like gpt-3.5-turbo. */
  lemma CostMonotone(t1: nat, t2: nat, model: string)
    requires t1 <= t2
    ensures EstimateCost(t1, model) <= EstimateCost(t2, model)
    ensures model !in {"gpt-3.5-turbo", "gpt-4", "gpt-4-turbo"} ==>
      EstimateCost(t2, model) == EstimateCost(t2, DefaultModel)
  {
  }

  /** A count of at most four per request is at most 400 percent of the requests. */
  lemma RateBound(s: nat, r: nat)
    requires s <= 4 * r
    ensures 0.0 <= SuccessRate(s, r) <= 400.0
  {
    if r > 0 {
      assert s as real <= 4.0 * r as real;
      assert s as real / r as real <= 4.0;
    }
  }

  /** `successful / total * 100` when there were requests, else 0. */
  function SuccessRate(successful: nat, total: nat): real {
    if total > 0 then successful as real / total as real * 100.0 else 0.0
  }

  /** `get_usage_stats()`, before rounding. */
  datatype UsageStats = UsageStats(totalRequests: nat, successfulRequests: nat, failedRequests: nat,
                                   successRate: real, totalTokensUsed: nat, estimatedCost: real)

  /** APIClient. */
  class Client {
    var requestCount: nat
    var successfulRequests: nat
    var failedRequests: nat
    var totalTokensUsed: nat
    const timeout: real     // api.timeout, 30 when absent
    const model: string     // api.model, gpt-3.5-turbo when absent

    /** At most four successes and at most four failures per call. */
    ghost predicate Valid()
      reads this
    {
      successfulRequests <= 4 * requestCount && failedRequests <= 4 * requestCount
    }

    constructor(timeout: Option<real>, model: Option<string>)
      ensures Valid()
      ensures requestCount == 0 && successfulRequests == 0 && failedRequests == 0 && totalTokensUsed == 0
      ensures this.timeout == (if timeout.Some? then timeout.value else DefaultTimeout)
      ensures this.model == (if model.Some? then model.value else DefaultModel)
    {
      requestCount := 0;
      successfulRequests := 0;
      failedRequests := 0;
      totalTokensUsed := 0;
      this.timeout := if timeout.Some? then timeout.value else DefaultTimeout;
      this.model := if model.Some? then model.value else DefaultModel;
    }

    /**
     * `generate_dialog`: one request, at most four attempts; `outcomes[k]` is
     * what attempt `k` gets and `jitters[k]` the jitter drawn after it fails.
     */
    method GenerateDialog(outcomes: seq<Attempt>, jitters: seq<real>)
      returns (result: Option<Json>, sleeps: seq<real>, failures: seq<Failure>)
      requires Valid()
      requires |outcomes| == MaxRetries + 1 && |jitters| == MaxRetries
      requires forall i :: 0 <= i < |jitters| ==> 0.1 <= jitters[i] <= 0.3
      modifies this
      ensures Valid()
      ensures var s := Run(outcomes, jitters, timeout, 0);
        && result == s.result && sleeps == s.sleeps && failures == s.failures
        && requestCount == old(requestCount) + 1
        && successfulRequests == old(successfulRequests) + s.succeeded
        && failedRequests == old(failedRequests) + s.failed
        && totalTokensUsed == old(totalTokensUsed) + s.tokens
    {
      RunBounds(outcomes, jitters, timeout, 0);
      requestCount := requestCount + 1;
      ghost var done := Empty();
      sleeps, failures := [], [];
      var k := 0;
      while k <= MaxRetries
        invariant k <= MaxRetries + 1
        invariant Then(done, Run(outcomes, jitters, timeout, k)) == Run(outcomes, jitters, timeout, 0)
        invariant done.result.None? && sleeps == done.sleeps && failures == done.failures
        invariant successfulRequests == old(successfulRequests) + done.succeeded
        invariant failedRequests == old(failedRequests) + done.failed
        invariant totalTokensUsed == old(totalTokensUsed) + done.tokens
        invariant requestCount == old(requestCount) + 1
        decreases MaxRetries + 1 - k
      {
        var step := Step(outcomes, jitters, timeout, k);
        successfulRequests := successfulRequests + step.succeeded;
        failedRequests := failedRequests + step.failed;
        totalTokensUsed := totalTokensUsed + step.tokens;
        sleeps, failures := sleeps + step.sleeps, failures + step.failures;
        if Returns(outcomes[k]) {
          done := Then(done, step);
          return step.result, sleeps, failures;
        }
        StepFacts(outcomes, jitters, timeout, k);
        ThenAssociative(done, step, Run(outcomes, jitters, timeout, k + 1));
        done := Then(done, step);
        k := k + 1;
      }
      return None, sleeps, failures;
    }

    /** `get_usage_stats()`: the success rate is a percentage of the requests (up to 400, see Step), 0 when there were none. */
    function UsageReport(): (u: UsageStats)
      requires Valid()
      reads this
      ensures 0.0 <= u.successRate <= 400.0
      ensures requestCount == 0 ==> u.successRate == 0.0
      ensures u.estimatedCost == EstimateCost(totalTokensUsed, model)
      ensures u.totalRequests == requestCount && u.successfulRequests == successfulRequests
      ensures u.failedRequests == failedRequests && u.totalTokensUsed == totalTokensUsed
    {
      RateBound(successfulRequests, requestCount);
      UsageStats(requestCount, successfulRequests, failedRequests,
                 SuccessRate(successfulRequests, requestCount), totalTokensUsed,
                 EstimateCost(totalTokensUsed, model))
    }
  }
}
