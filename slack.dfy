/**
 * utils/slack.py: the lazily created Slack client and `send_message`, which
 * posts a message with up to `SLACK_MAX_RETRIES` attempts, backing off
 * 2 ** attempt seconds after a rate-limit, timeout or unavailability error.
 * The Slack Web API is a foreign call, passed in as a function.
 */
module Slack {
  import opened Wrappers

  /** A Slack Web API client; only the token it was built with matters here. */
  datatype WebClient = WebClient(token: string)

  /** The outcome of one `chat_postMessage` call. */
  datatype PostOutcome<R> =
    | Posted(response: R)                      // the API response
    | ApiError(errorField: Option<string>)     // SlackApiError; its response's `error` key
    | OtherException(name: string)             // any other exception, which is not caught

  /** What `send_message` returns or raises. */
  datatype SendResult<R> =
    | Sent(response: R)
    | SentNothing                              // the loop ran no attempt: None
    | RaisedApiError(errorField: Option<string>)
    | RaisedOther(name: string)
    | RaisedValueError(message: string)

  const TokenMissing := "SLACK_BOT_TOKEN not configured"
  const RetryableErrors: seq<string> := ["rate_limited", "timeout", "service_unavailable"]

  /** `e.response.get('error', 'unknown_error')`. */
  function ErrorType(errorField: Option<string>): string {
    errorField.GetOr("unknown_error")
  }

  predicate Retryable(errorField: Option<string>) {
    ErrorType(errorField) in RetryableErrors
  }

  /** A failed attempt that is followed by a sleep and another attempt (when it is not the last). */
  predicate RetriedFailure<R>(o: PostOutcome<R>) {
    o.ApiError? && Retryable(o.errorField)
  }

  /** What `send_message` passes on from the attempt it stops at. */
  function Passed<R>(o: PostOutcome<R>): (r: SendResult<R>)
    ensures o.Posted? ==> r == Sent(o.response)
    ensures o.ApiError? ==> r == RaisedApiError(o.errorField)
    ensures o.OtherException? ==> r == RaisedOther(o.name)
  {
    match o
    case Posted(response) => Sent(response)
    case ApiError(e) => RaisedApiError(e)
    case OtherException(name) => RaisedOther(name)
  }

  /** `2 ** attempt`. */
  function Pow2(n: nat): (r: nat)
    ensures r >= 1
  {
    if n == 0 then 1 else 2 * Pow2(n - 1)
  }

  /**
   * The retry loop of `send_message`, with `post(k)` the outcome of the
   * `k`-th `chat_postMessage` call. Returns what the function returns or
   * raises, the number of calls and the seconds slept.
   */
  method PostWithRetries<R>(maxRetries: int, post: nat -> PostOutcome<R>)
    returns (result: SendResult<R>, calls: nat, sleeps: seq<nat>)
    ensures calls <= if maxRetries < 0 then 0 else maxRetries
    ensures maxRetries <= 0 ==> calls == 0 && result == SentNothing && sleeps == []
    ensures maxRetries > 0 ==> calls > 0 && result == Passed(post(calls - 1))
    ensures forall k :: 0 <= k < calls - 1 ==> RetriedFailure(post(k))
    ensures 0 < calls < maxRetries ==> !RetriedFailure(post(calls - 1))
    ensures |sleeps| == if calls == 0 then 0 else calls - 1
    ensures forall k :: 0 <= k < |sleeps| ==> sleeps[k] == Pow2(k)
  {
    calls, sleeps := 0, [];
    var attempt := 0;
    while attempt < maxRetries
      invariant 0 <= attempt && (attempt <= maxRetries || attempt == 0)
      invariant maxRetries > 0 ==> attempt < maxRetries
      invariant calls == attempt && |sleeps| == attempt
      invariant forall k :: 0 <= k < attempt ==> RetriedFailure(post(k))
      invariant forall k :: 0 <= k < attempt ==> sleeps[k] == Pow2(k)
    {
      calls := calls + 1;
      match post(attempt) {
        case Posted(response) =>
          return Sent(response), calls, sleeps;
        case OtherException(name) =>
          return RaisedOther(name), calls, sleeps;
        case ApiError(e) =>
          var errorType := e.GetOr("unknown_error");
          if attempt == maxRetries - 1 {
            return RaisedApiError(e), calls, sleeps;
          }
          if errorType in ["rate_limited", "timeout", "service_unavailable"] {
            var delay := Pow2(attempt);
            sleeps := sleeps + [delay];
          } else {
            return RaisedApiError(e), calls, sleeps;
          }
      }
      attempt := attempt + 1;
    }
    result := SentNothing;
  }

  /** An error type outside the three retryable ones, such as a missing `error` key. */
  lemma UnknownErrorNotRetried()
    ensures !Retryable(None) && !Retryable(Some("channel_not_found"))
    ensures Retryable(Some("rate_limited")) && Retryable(Some("timeout")) && Retryable(Some("service_unavailable"))
  {
  }

  /** The module-level `_client` of utils/slack.py and the functions that use it. */
  class SlackModule {
    var client: Option<WebClient>

    constructor ()
      ensures client == None
    {
      client := None;
    }

    /** `get_slack_client`: build the client on first use, then reuse it. */
    method GetSlackClient(token: Option<string>) returns (r: Result<WebClient, string>)
      modifies this
      ensures old(client).Some? ==> r == Success(old(client).value) && client == old(client)
      ensures old(client).None? && !IsSet(token) ==>
        r == Failure(TokenMissing) && client == None
      ensures old(client).None? && IsSet(token) ==>
        r == Success(WebClient(token.value)) && client == Some(WebClient(token.value))
    {
      if client.None? {
        if !IsSet(token) {
          return Failure(TokenMissing);
        }
        client := Some(WebClient(token.value));
      }
      r := Success(client.value);
    }

    /**
     * `send_message`: obtain the client (a missing token raises before any
     * post), then run the retry loop with that client.
     */
    method SendMessage<R>(token: Option<string>, maxRetries: int, post: (WebClient, nat) -> PostOutcome<R>)
      returns (result: SendResult<R>, calls: nat, sleeps: seq<nat>)
      modifies this
      ensures old(client).None? && !IsSet(token) ==>
        result == RaisedValueError(TokenMissing) && calls == 0 && client == None
      ensures client.Some? ==> client == if old(client).Some? then old(client) else Some(WebClient(token.value))
      ensures old(client).Some? || IsSet(token) ==>
        client.Some? && !result.RaisedValueError?
      ensures client.Some? ==>
        && calls <= (if maxRetries < 0 then 0 else maxRetries)
        && (maxRetries > 0 ==> calls > 0 && result == Passed(post(client.value, calls - 1)))
        && (maxRetries <= 0 ==> result == SentNothing)
        && (forall k :: 0 <= k < calls - 1 ==> RetriedFailure(post(client.value, k)))
        && (0 < calls < maxRetries ==> !RetriedFailure(post(client.value, calls - 1)))
        && |sleeps| == (if calls == 0 then 0 else calls - 1)
        && (forall k :: 0 <= k < |sleeps| ==> sleeps[k] == Pow2(k))
    {
      var c := GetSlackClient(token);
      if c.Failure? {
        return RaisedValueError(c.error), 0, [];
      }
      var webClient := c.value;
      var attemptWith: nat -> PostOutcome<R> := (k: nat) => post(webClient, k);
      assert forall k: nat :: attemptWith(k) == post(webClient, k);
      result, calls, sleeps := PostWithRetries(maxRetries, attemptWith);
    }
  }

  /**
   * Two sends through one module build the client once, from the first
   * token: the second send posts with that client, whatever token it is given.
   */
  method TwoSendsShareClient<R>(token: string, otherToken: Option<string>, maxRetries: int,
                                post: (WebClient, nat) -> PostOutcome<R>)
    returns (first: SendResult<R>, second: SendResult<R>, secondCalls: nat)
    requires token != ""
    ensures first != RaisedValueError(TokenMissing) && second != RaisedValueError(TokenMissing)
    ensures maxRetries > 0 ==> secondCalls > 0 && second == Passed(post(WebClient(token), secondCalls - 1))
    ensures forall k :: 0 <= k < secondCalls - 1 ==> RetriedFailure(post(WebClient(token), k))
    ensures maxRetries <= 0 ==> second == SentNothing
    ensures secondCalls <= (if maxRetries < 0 then 0 else maxRetries)
    ensures 0 < secondCalls < maxRetries ==> !RetriedFailure(post(WebClient(token), secondCalls - 1))
  {
    var m := new SlackModule();
    var sleeps: seq<nat>;
    var firstCalls: nat;
    first, firstCalls, sleeps := m.SendMessage(Some(token), maxRetries, post);
    second, secondCalls, sleeps := m.SendMessage(otherToken, maxRetries, post);
  }
}
