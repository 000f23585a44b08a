/**
 * The storefront page's logic: the stock label, description truncation and
 * the retry policy of its HTTP client.
 */
module Storefront {
  import opened Wrappers
  import JsText

  // ---------------------------------------------------------------- stock label

  datatype StockStatus = StockStatus(text: string, cssClass: string)

  /** The label shown for a stock quantity: out of stock at 0, low below 10, otherwise in stock. */
  function GetStockStatus(quantity: int): (r: StockStatus)
    ensures r.cssClass == "out-of-stock" <==> quantity == 0
    ensures r.cssClass == "low-stock" <==> quantity != 0 && quantity < 10
    ensures r.cssClass == "in-stock" <==> quantity >= 10
  {
    if quantity == 0 then
      StockStatus("Out of Stock", "out-of-stock")
    else if quantity < 10 then
      StockStatus("Low Stock (" + JsText.IntToDecimal(quantity) + " remaining)", "low-stock")
    else
      StockStatus("In Stock (" + JsText.IntToDecimal(quantity) + " available)", "in-stock")
  }

  // ---------------------------------------------------------------- truncation

  /** `substring(0, n)` clamps a negative end to 0. */
  function ClampedEnd(maxLength: int): nat {
    if maxLength < 0 then 0 else maxLength
  }

  /**
   * `truncateText(text, maxLength)`: the empty string for a missing or empty
   * text, the text itself when it fits, else its first `maxLength` characters
   * followed by an ellipsis.
   */
  function TruncateText(text: Option<string>, maxLength: int): (r: string)
    ensures r == "" <==> text.None? || text.value == ""
    ensures text.Some? && |text.value| <= maxLength ==> r == text.value
    ensures text.Some? && text.value != "" && |text.value| > maxLength ==>
      |r| == ClampedEnd(maxLength) + 3 && r[|r| - 3..] == "..."
  {
    if text.None? || text.value == "" then ""
    else if |text.value| <= maxLength then text.value
    else text.value[..ClampedEnd(maxLength)] + "..."
  }

  /** The result starts with as much of the text as fits. */
  lemma TruncateKeepsPrefix(text: string, maxLength: int)
    ensures var r, m := TruncateText(Some(text), maxLength), ClampedEnd(maxLength);
      var keep := if |text| < m then |text| else m;
      keep <= |r| && r[..keep] == text[..keep]
  {
  }

  /** Truncating an already truncated text with the same bound changes nothing. */
  lemma TruncateIdempotent(text: Option<string>, maxLength: int)
    ensures var r := TruncateText(text, maxLength);
      TruncateText(Some(r), maxLength) == r
  {
    var r, m := TruncateText(text, maxLength), ClampedEnd(maxLength);
    if text.Some? && text.value != "" && |text.value| > maxLength {
      assert r == text.value[..m] + "...";
      assert |r| == m + 3 && |r| > maxLength;
      assert r[..m] == text.value[..m];
      assert TruncateText(Some(r), maxLength) == r[..m] + "...";
    }
  }

  // ---------------------------------------------------------------- retry policy

  const MaxRetries: nat := 3
  const InitialDelay: nat := 1000
  const BackoffMultiplier: nat := 2

  function Pow(base: nat, n: nat): nat {
    if n == 0 then 1 else base * Pow(base, n - 1)
  }

  /** The sleep before the retry launched by the frame at `retryCount`. */
  function Delay(retryCount: nat): nat {
    InitialDelay * Pow(BackoffMultiplier, retryCount)
  }

  /** Each delay doubles the previous one, starting from one second. */
  lemma DelaySchedule(n: nat)
    ensures Delay(0) == 1000 && Delay(1) == 2000 && Delay(2) == 4000
    ensures Delay(n + 1) == 2 * Delay(n)
  {
  }

  /** What `response.json()` yields for the body of a response that is not ok. */
  datatype ErrorBody =
    | Unreadable   // the promise rejects; `.catch(() => ({}))` supplies `{}`
    | JsonNull     // the body is the JSON literal `null`
    | JsonValue    // any other JSON value

  /** The outcome of one `fetch`: a response, or a rejection with a TypeError. */
  datatype Attempt = Response(status: int, body: ErrorBody) | NetworkError

  predicate IsOk(a: Attempt) { a.Response? && 200 <= a.status <= 299 }

  /** An error a frame throws: a TypeError, or the Error built from an HTTP status. */
  datatype Failure = TypeFailure | HttpFailure(status: int)

  /** How the promise of `fetchWithRetry` settles. */
  datatype Settled = Returned(status: int) | Thrown(failure: Failure)

  /** What one frame does with the outcome of its own fetch. */
  datatype Step = Settle(result: Settled) | Retry

  /**
   * The code as written, or with `errorData?.message` so that a `null` body
   * cannot raise a TypeError inside the `try`.
   */
  datatype Variant = AsWritten | Intended

  /**
   * One frame of `fetchWithRetry`. An ok response is returned. A status of 500
   * or more is retried while `retryCount < MaxRetries`. Any other response
   * throws an Error, which the frame's own `catch` rethrows unless it is a
   * TypeError. As written, reading `.message` of a `null` body raises exactly
   * such a TypeError. A network failure is a TypeError. The `catch` retries a
   * TypeError while `retryCount < MaxRetries`.
   */
  function Decide(v: Variant, a: Attempt, retryCount: nat): (s: Step)
    ensures s.Retry? ==> retryCount < MaxRetries
    ensures retryCount < MaxRetries && (IsServerError(a) || a.NetworkError?) ==> s == Retry
    ensures IsOk(a) ==> s == Settle(Returned(a.status))
    ensures IsClientError(a) && (v == Intended || a.body != JsonNull) ==> s == Settle(Thrown(HttpFailure(a.status)))
  {
    match a
    case NetworkError =>
      if retryCount < MaxRetries then Retry else Settle(Thrown(TypeFailure))
    case Response(status, body) =>
      if 200 <= status <= 299 then Settle(Returned(status))
      else if status >= 500 && retryCount < MaxRetries then Retry
      else if v == AsWritten && body == JsonNull then
        if retryCount < MaxRetries then Retry else Settle(Thrown(TypeFailure))
      else Settle(Thrown(HttpFailure(status)))
  }

  /** The settled result, the sleeps taken in order, and the number of fetches made. */
  datatype Run = Run(result: Settled, delays: seq<nat>, fetches: nat)

  /** The outcomes offered cover every fetch the frames from `retryCount` on can make. */
  predicate Enough(outcomes: seq<Attempt>, retryCount: nat) {
    |outcomes| >= 1 && |outcomes| + retryCount > MaxRetries
  }

  /**
   * `fetchWithRetry(url, options, retryCount)`, where `outcomes[i]` is what the
   * i-th fetch from this frame on yields. A retry is `return fetchWithRetry(...)`
   * without `await`, so the frame's promise takes on the deeper promise's
   * outcome unchanged: a deeper failure never reaches this frame's `catch`.
   */
  function FetchWithRetry(v: Variant, outcomes: seq<Attempt>, retryCount: nat): (run: Run)
    requires Enough(outcomes, retryCount)
    ensures 1 <= run.fetches <= |outcomes|
    ensures |run.delays| == run.fetches - 1
    ensures retryCount <= MaxRetries ==> retryCount + run.fetches <= MaxRetries + 1
    ensures retryCount >= MaxRetries ==> run.fetches == 1
    ensures forall i :: 0 <= i < |run.delays| ==> run.delays[i] == Delay(retryCount + i)
    decreases |outcomes|
  {
    match Decide(v, outcomes[0], retryCount)
    case Settle(result) => Run(result, [], 1)
    case Retry =>
      var rest := FetchWithRetry(v, outcomes[1..], retryCount + 1);
      Run(rest.result, [Delay(retryCount)] + rest.delays, rest.fetches + 1)
  }

  /**
   * The reference reading of a run: every fetch before the last one was
   * retried, and the last one settled the promise with its own result.
   */
  lemma {:induction false} RunSettlesOnLastFetch(v: Variant, outcomes: seq<Attempt>, retryCount: nat)
    requires Enough(outcomes, retryCount)
    ensures var run := FetchWithRetry(v, outcomes, retryCount);
      && (forall i :: 0 <= i < run.fetches - 1 ==> Decide(v, outcomes[i], retryCount + i) == Retry)
      && Decide(v, outcomes[run.fetches - 1], retryCount + run.fetches - 1) == Settle(run.result)
    decreases |outcomes|
  {
    if Decide(v, outcomes[0], retryCount) == Retry {
      RunSettlesOnLastFetch(v, outcomes[1..], retryCount + 1);
      var run := FetchWithRetry(v, outcomes, retryCount);
      forall i | 1 <= i < run.fetches
        ensures outcomes[i] == outcomes[1..][i - 1]
      {
      }
    }
  }

  /** Starting from the first frame, no mix of outcomes makes more than four fetches. */
  lemma AtMostFourFetches(v: Variant, outcomes: seq<Attempt>)
    requires Enough(outcomes, 0)
    ensures var run := FetchWithRetry(v, outcomes, 0);
      run.fetches <= MaxRetries + 1 && |run.delays| <= MaxRetries
  {
  }

  /** An ok response is handed back as it is, with no sleep and no further fetch. */
  lemma OkReturnedAsIs(v: Variant, outcomes: seq<Attempt>, retryCount: nat)
    requires Enough(outcomes, retryCount) && IsOk(outcomes[0])
    ensures FetchWithRetry(v, outcomes, retryCount) == Run(Returned(outcomes[0].status), [], 1)
  {
  }

  predicate IsServerError(a: Attempt) { a.Response? && a.status >= 500 }
  predicate IsClientError(a: Attempt) { a.Response? && !IsOk(a) && a.status < 500 }

  /** No response among the outcomes has the JSON literal `null` as its body. */
  predicate NoNullBodies(outcomes: seq<Attempt>) {
    forall i :: 0 <= i < |outcomes| && outcomes[i].Response? ==> outcomes[i].body != JsonNull
  }

  /**
   * A response that is neither ok nor a server error is never retried, and
   * its error is what the outermost promise rejects with: every retried fetch
   * was a server error or a network failure. This holds for the intended code
   * always, and for the code as written whenever no error body is `null`.
   */
  lemma ClientErrorPropagates(v: Variant, outcomes: seq<Attempt>, retryCount: nat)
    requires Enough(outcomes, retryCount)
    requires v == Intended || NoNullBodies(outcomes)
    ensures var run := FetchWithRetry(v, outcomes, retryCount);
      && (forall i :: 0 <= i < run.fetches - 1 ==> IsServerError(outcomes[i]) || outcomes[i].NetworkError?)
      && (IsClientError(outcomes[run.fetches - 1]) ==>
            run.result == Thrown(HttpFailure(outcomes[run.fetches - 1].status)))
  {
    RunSettlesOnLastFetch(v, outcomes, retryCount);
  }

  /** When every fetch fails with a server error, exactly four fetches are made. */
  lemma AllServerErrors(v: Variant, outcomes: seq<Attempt>)
    requires |outcomes| >= MaxRetries + 1
    requires forall i :: 0 <= i < |outcomes| ==> outcomes[i].Response? && outcomes[i].status >= 500
    ensures var run := FetchWithRetry(v, outcomes, 0);
      && run.fetches == MaxRetries + 1
      && run.delays == [1000, 2000, 4000]
      && (v == Intended || outcomes[MaxRetries].body != JsonNull ==>
            run.result == Thrown(HttpFailure(outcomes[MaxRetries].status)))
  {
    RunSettlesOnLastFetch(v, outcomes, 0);
    var run := FetchWithRetry(v, outcomes, 0);
    assert Decide(v, outcomes[run.fetches - 1], run.fetches - 1).Settle?;
    DelaySchedule(0);
  }

  /**
   * When every fetch fails, in the network or with a server error in any mix,
   * exactly four fetches are made, with the full backoff between them.
   */
  lemma MixedFailures(v: Variant, outcomes: seq<Attempt>)
    requires |outcomes| >= MaxRetries + 1
    requires forall i :: 0 <= i < |outcomes| ==> IsServerError(outcomes[i]) || outcomes[i].NetworkError?
    ensures var run := FetchWithRetry(v, outcomes, 0);
      run.fetches == MaxRetries + 1 && run.delays == [1000, 2000, 4000]
  {
    RunSettlesOnLastFetch(v, outcomes, 0);
    var run := FetchWithRetry(v, outcomes, 0);
    assert Decide(v, outcomes[run.fetches - 1], run.fetches - 1).Settle?;
    DelaySchedule(0);
  }

  /** When every fetch fails in the network, exactly four fetches are made and a TypeError escapes. */
  lemma AllNetworkErrors(v: Variant, outcomes: seq<Attempt>)
    requires |outcomes| >= MaxRetries + 1
    requires forall i :: 0 <= i < |outcomes| ==> outcomes[i].NetworkError?
    ensures FetchWithRetry(v, outcomes, 0) == Run(Thrown(TypeFailure), [1000, 2000, 4000], MaxRetries + 1)
  {
    RunSettlesOnLastFetch(v, outcomes, 0);
    var run := FetchWithRetry(v, outcomes, 0);
    assert Decide(v, outcomes[run.fetches - 1], run.fetches - 1).Settle?;
    DelaySchedule(0);
  }

  /**
   * As written, a 404 whose body is JSON `null` is retried as if the network
   * had failed; the intended code rejects with the HTTP error at once.
   */
  lemma NullBodyClientErrorIsRetried()
    ensures var outcomes := [Response(404, JsonNull), Response(200, JsonValue),
                             Response(200, JsonValue), Response(200, JsonValue)];
      && FetchWithRetry(AsWritten, outcomes, 0) == Run(Returned(200), [1000], 2)
      && FetchWithRetry(Intended, outcomes, 0) == Run(Thrown(HttpFailure(404)), [], 1)
  {
    var outcomes := [Response(404, JsonNull), Response(200, JsonValue),
                     Response(200, JsonValue), Response(200, JsonValue)];
    assert outcomes[1..][0] == Response(200, JsonValue);
    DelaySchedule(0);
  }
}
