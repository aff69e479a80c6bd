/** The decision logic of the `/api/health`, `/api/chat` and
    `/api/chat/stream` handlers, and the rate-limit decorator wrapped around
    the two chat handlers. JSON bodies are modelled as datatypes; the
    `timestamp` field is left out. */
module Handlers {
  import opened Strings
  import Markdown
  import Retry
  import RateLimit

  const MaxMessageLength: nat := 1000
  const PlaceholderKey := "YOUR_API_KEY_HERE"

  /** The JSON body of a reply. */
  datatype Body =
    | ErrorBody(error: string, message: string)  // {error, message}
    | ChatBody(response: string)                  // {response, timestamp}
    | StreamBody(response: string)                // {response, timestamp, streaming: false}
    | HealthBody(apiConfigured: bool)             // {status: 'healthy', timestamp, api_configured}

  datatype Reply = Reply(status: int, body: Body)

  /** The outcome of the input checks the two chat handlers share. */
  datatype Checked = Accepted(text: string) | Rejected(reply: Reply)

  const MissingMessage := Reply(400, ErrorBody("Invalid request", "Missing message field"))
  const EmptyMessage := Reply(400, ErrorBody("Invalid request", "Message cannot be empty"))
  const LongMessage := Reply(400, ErrorBody("Message too long", "Please keep messages under 1000 characters"))
  const KeyNotConfigured := Reply(500, ErrorBody("Configuration error", "API key not configured"))

  /** `bool(API_KEY and API_KEY != 'YOUR_API_KEY_HERE')`. */
  predicate ApiConfigured(apiKey: string) {
    apiKey != "" && apiKey != PlaceholderKey
  }

  /** `health_check`: always 200, never rate limited. */
  function HealthCheck(apiKey: string): (r: Reply)
    ensures r.status == 200 && r.body.HealthBody?
    ensures r.body.apiConfigured <==> apiKey != "" && apiKey != PlaceholderKey
  {
    Reply(200, HealthBody(ApiConfigured(apiKey)))
  }

  /** The message checks of `chat` and `chat_stream`. `message` is `None`
      when the JSON body is empty or has no `message` field. The message is
      stripped first; the stripped text must be non-empty and at most 1000
      characters long. */
  function Validate(message: Option<string>): (c: Checked)
    ensures c.Accepted? <==> message.Some? && 0 < |Strip(message.value)| <= MaxMessageLength
    ensures c.Accepted? ==> c.text == Strip(message.value) && Trimmed(c.text)
    ensures c.Rejected? ==> c.reply.status == 400
    ensures c.Rejected? ==>
              c.reply == if message.None? then MissingMessage
                         else if Strip(message.value) == [] then EmptyMessage
                         else LongMessage
  {
    if message.None? then Rejected(MissingMessage)
    else
      var userMessage := Strip(message.value);
      if userMessage == [] then Rejected(EmptyMessage)
      else if |userMessage| > MaxMessageLength then Rejected(LongMessage)
      else Accepted(userMessage)
  }

  /** A trimmed message of exactly 1000 characters is accepted; one more
      character and it is rejected. */
  lemma LengthLimitIsInclusive(s: string, c: char)
    requires |s| == MaxMessageLength && Trimmed(s) && !IsSpace(c)
    ensures Validate(Some(s)).Accepted?
    ensures Validate(Some(s + [c])) == Rejected(LongMessage)
  {
    StripTrimmed(s);
    StripTrimmed(s + [c]);
  }

  /** What `generate_response_with_retry(user_message)` returns or raises,
      with its default `max_retries`, for the given upstream outcomes. */
  function Generate(upstream: seq<Retry.Outcome>): (g: Retry.Generation)
    requires |upstream| > Retry.DefaultMaxRetries
    ensures g != Retry.Failure(Retry.ExhaustedMsg)
  {
    Retry.Run(upstream, Retry.DefaultMaxRetries, 0).result
  }

  /** Turns the generation result into the reply: the cleaned text, or the
      message of the exception the handler catches. */
  function Respond(g: Retry.Generation, streaming: bool): (r: Reply)
    ensures r.status == 200 <==> g.Success?
    ensures g.Success? ==> (r.body.StreamBody? <==> streaming)
                           && (r.body.ChatBody? <==> !streaming)
                           && r.body.response == Markdown.Clean(g.text)
    ensures g.Failure? ==> r == Reply(500, ErrorBody("Internal server error", g.message))
  {
    match g
    case Success(text) =>
      var cleaned := Markdown.Clean(text);
      Reply(200, if streaming then StreamBody(cleaned) else ChatBody(cleaned))
    case Failure(m) => Reply(500, ErrorBody("Internal server error", m))
  }

  /** `chat`: 400 for a missing, blank or over-long message; 500 when no API
      key is configured; otherwise the cleaned upstream text with 200, or
      500 carrying the upstream failure's message. */
  function Chat(message: Option<string>, apiKey: string, upstream: seq<Retry.Outcome>): (r: Reply)
    requires |upstream| > Retry.DefaultMaxRetries
    ensures r.status == 400 <==>
              message.None? || Strip(message.value) == [] || |Strip(message.value)| > MaxMessageLength
    ensures r == KeyNotConfigured <==> Validate(message).Accepted? && !ApiConfigured(apiKey)
    ensures r.status == 200 <==>
              Validate(message).Accepted? && ApiConfigured(apiKey) && Generate(upstream).Success?
    ensures r.status == 200 ==> r.body == ChatBody(Markdown.Clean(Generate(upstream).text))
    ensures Validate(message).Rejected? ==> r == Validate(message).reply
    ensures Validate(message).Accepted? && ApiConfigured(apiKey) && Generate(upstream).Failure? ==>
              r == Reply(500, ErrorBody("Internal server error", Generate(upstream).message))
    ensures r.status in {200, 400, 500}
  {
    match Validate(message)
    case Rejected(reply) => reply
    case Accepted(userMessage) =>
      if !ApiConfigured(apiKey) then KeyNotConfigured
      else Respond(Generate(upstream), false)
  }

  /** `chat_stream`: the same checks as `chat` except the API-key check,
      and the success body carries `streaming: false`. */
  function ChatStream(message: Option<string>, upstream: seq<Retry.Outcome>): (r: Reply)
    requires |upstream| > Retry.DefaultMaxRetries
    ensures r.status == 400 <==>
              message.None? || Strip(message.value) == [] || |Strip(message.value)| > MaxMessageLength
    ensures r.status == 200 <==> Validate(message).Accepted? && Generate(upstream).Success?
    ensures r.status == 200 ==> r.body == StreamBody(Markdown.Clean(Generate(upstream).text))
    ensures Validate(message).Rejected? ==> r == Validate(message).reply
    ensures Validate(message).Accepted? && Generate(upstream).Failure? ==>
              r == Reply(500, ErrorBody("Internal server error", Generate(upstream).message))
    ensures r.status in {200, 400, 500}
  {
    match Validate(message)
    case Rejected(reply) => reply
    case Accepted(userMessage) => Respond(Generate(upstream), true)
  }

  /** With a configured key the two chat endpoints give the same status and
      the same text; without one, only `chat` refuses. */
  lemma ChatAndStreamAgree(message: Option<string>, apiKey: string, upstream: seq<Retry.Outcome>)
    requires |upstream| > Retry.DefaultMaxRetries
    ensures var c := Chat(message, apiKey, upstream);
            var s := ChatStream(message, upstream);
            ApiConfigured(apiKey) || !Validate(message).Accepted? ==>
              c.status == s.status
              && (c.body.ErrorBody? <==> s.body.ErrorBody?)
              && (c.body.ErrorBody? ==> c.body == s.body)
              && (c.body.ChatBody? ==> s.body == StreamBody(c.body.response))
  {
  }

  /** `chat` reports a configuration error for a valid message exactly when
      `health_check` reports the key as not configured. */
  lemma ConfigErrorMatchesHealth(message: Option<string>, apiKey: string, upstream: seq<Retry.Outcome>)
    requires |upstream| > Retry.DefaultMaxRetries
    requires Validate(message).Accepted?
    ensures Chat(message, apiKey, upstream) == KeyNotConfigured <==> !HealthCheck(apiKey).body.apiConfigured
  {
  }

  /** Every successful chat reply has passed the cleaner: it holds no `#`,
      `*` or backtick, no three newlines in a row, no outer whitespace, and
      cleaning it again changes nothing. */
  lemma ChatResponseIsClean(message: Option<string>, apiKey: string, upstream: seq<Retry.Outcome>)
    requires |upstream| > Retry.DefaultMaxRetries
    ensures var r := Chat(message, apiKey, upstream);
            r.status == 200 ==>
              r.body.ChatBody?
              && '#' !in r.body.response && '*' !in r.body.response && '`' !in r.body.response
              && Markdown.NoTripleNewline(r.body.response) && Trimmed(r.body.response)
              && Markdown.Clean(r.body.response) == r.body.response
  {
    var r := Chat(message, apiKey, upstream);
    if r.status == 200 {
      Markdown.CleanIdempotent(Generate(upstream).text);
    }
  }

  /** The decorator's 429 reply. */
  function RateLimited(maxRequests: nat, window: int): (r: Reply)
    ensures r.status == 429 && r.body.ErrorBody? && r.body.error == "Rate limit exceeded"
  {
    Reply(429, ErrorBody("Rate limit exceeded",
      "Maximum " + IntToString(maxRequests) + " requests per " + IntToString(window) + " seconds"))
  }

  /** `/api/chat` as served: the rate limiter runs first and, when it
      rejects, the handler does not run at all. */
  method ServeChat(limiter: RateLimit.Limiter, client: RateLimit.ClientId, now: int,
                   message: Option<string>, apiKey: string, upstream: seq<Retry.Outcome>)
    returns (r: Reply)
    requires limiter.Valid() && |upstream| > Retry.DefaultMaxRetries
    modifies limiter
    ensures limiter.Valid()
    ensures var d := RateLimit.Decide(RateLimit.Stored(old(limiter.storage), client), now,
                                      limiter.window, limiter.maxRequests);
            limiter.storage == old(limiter.storage)[client := d.kept]
            && r == if d.admitted then Chat(message, apiKey, upstream)
                    else RateLimited(limiter.maxRequests, limiter.window)
  {
    var admitted := limiter.Admit(client, now);
    if !admitted {
      return RateLimited(limiter.maxRequests, limiter.window);
    }
    r := Chat(message, apiKey, upstream);
  }

  /** `/api/chat/stream` as served, behind the same limiter. */
  method ServeChatStream(limiter: RateLimit.Limiter, client: RateLimit.ClientId, now: int,
                         message: Option<string>, upstream: seq<Retry.Outcome>)
    returns (r: Reply)
    requires limiter.Valid() && |upstream| > Retry.DefaultMaxRetries
    modifies limiter
    ensures limiter.Valid()
    ensures var d := RateLimit.Decide(RateLimit.Stored(old(limiter.storage), client), now,
                                      limiter.window, limiter.maxRequests);
            limiter.storage == old(limiter.storage)[client := d.kept]
            && r == if d.admitted then ChatStream(message, upstream)
                    else RateLimited(limiter.maxRequests, limiter.window)
  {
    var admitted := limiter.Admit(client, now);
    if !admitted {
      return RateLimited(limiter.maxRequests, limiter.window);
    }
    r := ChatStream(message, upstream);
  }
}
