/** `generate_response_with_retry`: up to `max_retries + 1` calls to the
    generation API with exponential backoff. The network is abstracted to
    one `Outcome` per attempt; sleeping is recorded as a list of delays. */
module Retry {
  import opened Strings

  /** What the error body of a non-200 reply yields for `error_message`. */
  datatype ErrorBody =
    | ErrorMessage(text: string)   // the body is JSON with `error.message`
    | NoErrorMessage               // the body is JSON without it: 'Unknown error'
    | NotJson                      // the body cannot be read: 'HTTP <code>'

  /** What one upstream call produces. `Ok` is a 200 reply: `Some(text)` when
      its first candidate has content with a non-empty parts list, `None`
      otherwise. `Status` is any other reply; a `Status` with code 200 is a
      200 reply whose JSON body has no candidates. `NetErr` is a
      `requests.exceptions.RequestException` (timeout, connection error, or
      a 200 reply whose body is not JSON). */
  datatype Outcome =
    | Ok(text: Option<string>)
    | Status(code: int, body: ErrorBody)
    | NetErr

  /** The value returned, or the message of the exception raised. */
  datatype Generation = Success(text: string) | Failure(message: string)

  /** What a single attempt leads to. */
  datatype Step = Return(text: string) | Raise(message: string) | Sleep(delay: nat)

  /** The result, the delays slept in order, and how many calls were made. */
  datatype Trace = Trace(result: Generation, delays: seq<nat>, attempts: nat)

  const DefaultMaxRetries: int := 3
  /** `base_delay`, in seconds. */
  const BaseDelay: nat := 1

  const NoResponseMsg := "No response generated"
  // The longer messages are spelled in pieces to keep reasoning about their
  // characters cheap.
  const InvalidRequestMsg := "Invalid request. " + "Please check your message."
  const InvalidKeyMsg := "Invalid API key " + "configuration."
  const UpstreamLimitMsg := "Rate limit exceeded. " + "Please wait and try again."
  const NetworkMsg := "Network error. Please check your connection."
  const ExhaustedMsg := "Maximum retry attempts exceeded"
  const ApiErrorPrefix := "API Error: "

  function Pow2(k: nat): (r: nat)
    ensures r >= 1
  {
    if k == 0 then 1 else 2 * Pow2(k - 1)
  }

  /** `base_delay * (2 ** attempt)`. */
  function Backoff(attempt: nat): nat {
    BaseDelay * Pow2(attempt)
  }

  /** The first retry waits `base_delay` and every further retry waits twice
      as long as the one before. */
  lemma BackoffDoubles(attempt: nat)
    ensures Backoff(0) == BaseDelay
    ensures Backoff(attempt + 1) == 2 * Backoff(attempt)
  {
  }

  /** `error_message` for a reply with status `code`: the API's own message
      when the JSON body carries one, `Unknown error` when it does not, and
      `HTTP <code>` when the body is not JSON. */
  function ErrorText(code: int, body: ErrorBody): (r: string)
    ensures body.ErrorMessage? ==> r == body.text
    ensures body.NoErrorMessage? ==> r == "Unknown error"
    ensures body.NotJson? ==>
              |r| > 5 && r[..5] == "HTTP " && r[5..] == IntToString(code)
              && (r[5] == '-' <==> code < 0)
  {
    match body
    case ErrorMessage(m) => m
    case NoErrorMessage => "Unknown error"
    case NotJson => "HTTP " + IntToString(code)
  }

  /** None of the fixed messages contains "503", so none of them is ever
      retried by the generic exception handler. */
  lemma FixedMessagesLack503()
    ensures !Contains(NoResponseMsg, "503")
    ensures !Contains(InvalidRequestMsg, "503")
    ensures !Contains(InvalidKeyMsg, "503")
    ensures !Contains(UpstreamLimitMsg, "503")
  {
    NoResponseLacks503();
    InvalidRequestLacks503();
    InvalidKeyLacks503();
    UpstreamLimitLacks503();
  }

  lemma NoResponseLacks503()
    ensures !Contains(NoResponseMsg, "503")
  {
    assert '3' !in NoResponseMsg;
    NoThreeNo503(NoResponseMsg);
  }

  lemma InvalidRequestLacks503()
    ensures !Contains(InvalidRequestMsg, "503")
  {
    assert '3' !in "Invalid request. " && '3' !in "Please check your message.";
    NoThreeNo503(InvalidRequestMsg);
  }

  lemma InvalidKeyLacks503()
    ensures !Contains(InvalidKeyMsg, "503")
  {
    assert '3' !in "Invalid API key " && '3' !in "configuration.";
    NoThreeNo503(InvalidKeyMsg);
  }

  lemma UpstreamLimitLacks503()
    ensures !Contains(UpstreamLimitMsg, "503")
  {
    assert '3' !in "Rate limit exceeded. " && '3' !in "Please wait and try again.";
    NoThreeNo503(UpstreamLimitMsg);
  }

  /** The classification table of one attempt, by kind of outcome. A retry
      sleeps `Backoff(attempt)` and is possible only while `attempt <
      maxRetries`; otherwise every failure is final. */
  function Classify(o: Outcome, attempt: nat, maxRetries: int): (s: Step)
    ensures s.Sleep? ==> attempt < maxRetries && s.delay == Backoff(attempt)
    ensures s.Return? <==> o.Ok? && o.text.Some?
    ensures s.Return? ==> s.text == o.text.value
    ensures s.Raise? ==> s.message != ExhaustedMsg
  {
    var retry := attempt < maxRetries;
    match o
    case Ok(text) =>
      if text.Some? then Return(text.value) else Raise(NoResponseMsg)
    case NetErr =>
      if retry then Sleep(Backoff(attempt)) else Raise(NetworkMsg)
    case Status(code, body) =>
      if code == 200 then Raise(NoResponseMsg)
      else if code == 400 then Raise(InvalidRequestMsg)
      else if code == 401 then Raise(InvalidKeyMsg)
      else if code == 429 then Raise(UpstreamLimitMsg)
      else
        var msg := ApiErrorPrefix + ErrorText(code, body);
        assert msg[0] == 'A';
        if retry && (code == 503 || Contains(msg, "503")) then Sleep(Backoff(attempt))
        else Raise(msg)
  }

  /** The attempts from `attempt` on, as the loop runs them. When `attempt`
      is past `maxRetries` no call is made and the final `raise` is reached;
      otherwise one to `maxRetries + 1 - attempt` calls are made, every call
      but the last is followed by a sleep, and the k-th sleep lasts
      `Backoff(attempt + k)`. */
  function Run(outcomes: seq<Outcome>, maxRetries: int, attempt: nat): (t: Trace)
    requires |outcomes| > maxRetries
    ensures attempt > maxRetries ==> t == Trace(Failure(ExhaustedMsg), [], 0)
    ensures attempt <= maxRetries ==>
              1 <= t.attempts <= maxRetries + 1 - attempt && |t.delays| == t.attempts - 1
              && t.result != Failure(ExhaustedMsg)
    ensures forall k :: 0 <= k < |t.delays| ==> t.delays[k] == Backoff(attempt + k)
    decreases maxRetries + 1 - attempt
  {
    if attempt > maxRetries then Trace(Failure(ExhaustedMsg), [], 0)
    else
      match Classify(outcomes[attempt], attempt, maxRetries)
      case Return(text) => Trace(Success(text), [], 1)
      case Raise(m) => Trace(Failure(m), [], 1)
      case Sleep(d) =>
        var rest := Run(outcomes, maxRetries, attempt + 1);
        Trace(rest.result, [d] + rest.delays, rest.attempts + 1)
  }

  /** A retried attempt hands over to the next one: the run from `attempt`
      is the sleep `Backoff(attempt)` followed by the run from `attempt + 1`. */
  lemma RunAfterSleep(outcomes: seq<Outcome>, maxRetries: int, attempt: nat, done: seq<nat>)
    requires |outcomes| > maxRetries && attempt <= maxRetries
    requires Classify(outcomes[attempt], attempt, maxRetries).Sleep?
    ensures var rest := Run(outcomes, maxRetries, attempt);
            var next := Run(outcomes, maxRetries, attempt + 1);
            rest.result == next.result
            && done + rest.delays == (done + [Backoff(attempt)]) + next.delays
            && rest.attempts == next.attempts + 1
  {
    var next := Run(outcomes, maxRetries, attempt + 1);
    assert done + ([Backoff(attempt)] + next.delays) == (done + [Backoff(attempt)]) + next.delays;
  }

  /** What the `try` block raises, before the `except` clauses see it. */
  datatype Raised = RequestError | Plain(message: string)

  /** One pass of the loop body: the `try` block on the call's outcome,
      then the two `except` clauses. `Sleep` stands for `time.sleep` and
      `continue`, `Return` for the `return`, `Raise` for the exception that
      leaves the loop. */
  method Attempt(o: Outcome, attempt: nat, maxRetries: int) returns (step: Step)
    ensures step == Classify(o, attempt, maxRetries)
  {
    FixedMessagesLack503();
    var raised: Raised;
    if o.NetErr? {
      raised := RequestError;
    } else if o.Ok? || o.code == 200 {
      if o.Ok? && o.text.Some? {
        return Return(o.text.value);
      }
      raised := Plain(NoResponseMsg);
    } else if o.code == 503 && attempt < maxRetries {
      return Sleep(Backoff(attempt));
    } else {
      var errorMessage := ErrorText(o.code, o.body);
      if o.code == 400 {
        raised := Plain(InvalidRequestMsg);
      } else if o.code == 401 {
        raised := Plain(InvalidKeyMsg);
      } else if o.code == 429 {
        raised := Plain(UpstreamLimitMsg);
      } else {
        raised := Plain(ApiErrorPrefix + errorMessage);
      }
    }
    // The two `except` clauses.
    if raised.RequestError? {
      if attempt < maxRetries {
        return Sleep(Backoff(attempt));
      }
      return Raise(NetworkMsg);
    }
    if attempt < maxRetries && Contains(raised.message, "503") {
      return Sleep(Backoff(attempt));
    }
    return Raise(raised.message);
  }

  /** The retry loop. The result, the delays slept and the number of calls
      made are those of `Run`: at most `maxRetries + 1` calls, the k-th
      sleep lasting `Backoff(k)`, and the final `raise` after the loop
      reached only when `maxRetries` is negative. */
  method GenerateWithRetry(outcomes: seq<Outcome>, maxRetries: int)
    returns (result: Generation, delays: seq<nat>, attempts: nat)
    requires |outcomes| > maxRetries
    ensures Trace(result, delays, attempts) == Run(outcomes, maxRetries, 0)
    ensures maxRetries >= 0 ==> 1 <= attempts <= maxRetries + 1 && |delays| == attempts - 1
    ensures maxRetries < 0 ==> attempts == 0 && delays == []
    ensures forall k :: 0 <= k < |delays| ==> delays[k] == Backoff(k)
    ensures result == Failure(ExhaustedMsg) <==> maxRetries < 0
  {
    delays := [];
    var attempt: nat := 0;
    while attempt < maxRetries + 1
      invariant attempt <= maxRetries + 1 || attempt == 0
      invariant |delays| == attempt
      invariant forall k :: 0 <= k < attempt ==> delays[k] == Backoff(k)
      invariant var rest := Run(outcomes, maxRetries, attempt);
                Run(outcomes, maxRetries, 0) == Trace(rest.result, delays + rest.delays, attempt + rest.attempts)
      decreases maxRetries + 1 - attempt
    {
      var step := Attempt(outcomes[attempt], attempt, maxRetries);
      match step
      case Return(text) =>
        return Success(text), delays, attempt + 1;
      case Raise(message) =>
        return Failure(message), delays, attempt + 1;
      case Sleep(delay) =>
        RunAfterSleep(outcomes, maxRetries, attempt, delays);
        delays := delays + [delay];
        attempt := attempt + 1;
    }
    return Failure(ExhaustedMsg), delays, attempt;
  }

  // ---------------------------------------------------------------------------
  // What the retry policy guarantees

  /** Status 400, 401 and 429 fail at once with their fixed messages:
      one call, no sleep, on any attempt. */
  lemma ClientErrorsFailFast(o: Outcome, attempt: nat, maxRetries: int)
    requires o.Status? && o.code in {400, 401, 429}
    ensures Classify(o, attempt, maxRetries) ==
              Raise(if o.code == 400 then InvalidRequestMsg
                    else if o.code == 401 then InvalidKeyMsg
                    else UpstreamLimitMsg)
  {
  }

  /** A 200 reply returns the first candidate's text when there is one and
      fails with "No response generated" otherwise, without retrying. */
  lemma SuccessReplyIsFinal(o: Outcome, attempt: nat, maxRetries: int)
    requires o.Ok? || (o.Status? && o.code == 200)
    ensures Classify(o, attempt, maxRetries) ==
              if o.Ok? && o.text.Some? then Return(o.text.value) else Raise(NoResponseMsg)
  {
  }

  /** Any other status is retried exactly when attempts remain and either
      it is 503 or the "API Error" message built from it mentions "503";
      otherwise it fails with that message. */
  lemma OtherStatusRetriedOn503(o: Outcome, attempt: nat, maxRetries: int)
    requires o.Status? && o.code !in {200, 400, 401, 429}
    ensures var msg := ApiErrorPrefix + ErrorText(o.code, o.body);
            Classify(o, attempt, maxRetries) ==
              if attempt < maxRetries && (o.code == 503 || Contains(msg, "503"))
              then Sleep(Backoff(attempt)) else Raise(msg)
  {
  }

  /** A 503 on every attempt does not end with "Maximum retry attempts
      exceeded": the last 503 falls into the generic branch and raises
      "API Error: ..." with that reply's message, after `maxRetries + 1`
      calls. */
  lemma {:induction false} PersistentOverload(outcomes: seq<Outcome>, maxRetries: int, attempt: nat)
    requires |outcomes| > maxRetries
    requires attempt <= maxRetries
    requires forall i :: attempt <= i <= maxRetries ==> outcomes[i].Status? && outcomes[i].code == 503
    ensures Run(outcomes, maxRetries, attempt) ==
              Trace(Failure(ApiErrorPrefix + ErrorText(503, outcomes[maxRetries].body)),
                    Run(outcomes, maxRetries, attempt).delays, maxRetries + 1 - attempt)
    decreases maxRetries - attempt
  {
    if attempt < maxRetries {
      PersistentOverload(outcomes, maxRetries, attempt + 1);
    }
  }

  /** A network error on every attempt ends with the network-error message
      after `maxRetries + 1` calls. */
  lemma {:induction false} PersistentNetworkFailure(outcomes: seq<Outcome>, maxRetries: int, attempt: nat)
    requires |outcomes| > maxRetries
    requires attempt <= maxRetries
    requires forall i :: attempt <= i <= maxRetries ==> outcomes[i] == NetErr
    ensures Run(outcomes, maxRetries, attempt) ==
              Trace(Failure(NetworkMsg), Run(outcomes, maxRetries, attempt).delays, maxRetries + 1 - attempt)
    decreases maxRetries - attempt
  {
    if attempt < maxRetries {
      PersistentNetworkFailure(outcomes, maxRetries, attempt + 1);
    }
  }

  /** Two 503 replies and then a generated text: the text comes back after
      sleeping 1 and then 2 seconds. */
  lemma OverloadThenSuccess(body: ErrorBody, text: string, later: Outcome)
    ensures Run([Status(503, body), Status(503, body), Ok(Some(text)), later], DefaultMaxRetries, 0)
            == Trace(Success(text), [1, 2], 3)
  {
  }
}
