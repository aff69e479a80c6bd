# Chat relay core, modelled in Dafny

The relay (`app.py`) accepts chat messages over HTTP, forwards them to a
generative-language API and returns the generated text with its markdown
removed. This project models the four pieces of sequential logic in it:

- **Rate limiter** (`rate_limit.dfy`, module `RateLimit`): the
  `rate_limit` decorator keeps, per client address, the timestamps of its
  recent admitted calls. Each call prunes the client's timestamps to those
  strictly inside the window, rejects with 429 (without recording the call)
  when `max_requests` remain, and otherwise appends the current time.
  `Limiter` is a class whose `storage` field is the map the source mutates;
  the current time is an integer argument. `Replay` runs a whole history of
  one client's calls, and `AtMostMaxPerWindow` proves the sliding-window
  guarantee over it.
- **Markdown cleaner** (`markdown.dfy`, module `Markdown`): the five
  `re.sub` passes of `clean_markdown`, each a function over `seq<char>`
  written with the leftmost, greedy, non-overlapping semantics of Python's
  `re.sub`, composed in the source's order and followed by `strip()`
  (`strings.dfy`, module `Strings`, with Python's whitespace set).
  `CleanKeepsText` proves that, apart from `#`, `*`, backticks and
  whitespace, the cleaned text holds the input's characters in order, and
  `CleanFixes` that already clean text is left unchanged.
- **Retry/backoff client** (`retry.dfy`, module `Retry`): the network is an
  input sequence with one abstract `Outcome` per attempt (`Ok`, `Status`,
  `NetErr`); the sleeps are returned as a list of delays.
  `Attempt` is one pass of the loop body, with its `try` block and two
  `except` clauses, and `GenerateWithRetry` the `for` loop around it;
  `Classify` is the per-attempt classification table and `Run` the
  recursive specification the loop is proved against.
- **Handlers** (`handlers.dfy`, module `Handlers`): the decisions of
  `health_check`, `chat` and `chat_stream` as functions of the request's
  `message` field, the API key and the upstream outcomes; `ServeChat` and
  `ServeChatStream` put the rate limiter in front of them as the decorator
  does.

Three behaviours of the code that its comments and messages do not
suggest:

- The header rule `#{1,6}\s?` is not anchored to line starts: every `#`
  anywhere in the text is removed, with one whitespace character after each
  run of up to six (`HeaderMidLine`: `"C# is"` becomes `"Cis"`).
- Upstream 503 on every attempt does not end with a "retries exhausted"
  error: on the last attempt the 503 falls into the generic branch and the
  call fails with `API Error: <message>` (`PersistentOverload`). The final
  `raise` after the loop is reached only when `max_retries` is negative
  (`GenerateWithRetry`).
- Any non-200 status other than 400, 401 and 429 whose `API Error` message
  contains "503" is retried by the generic `except` clause while attempts
  remain (`OtherStatusRetriedOn503`).

## Model

| member | source | states |
|---|---|---|
| `RateLimit.Prune` | app.py:41-45 | keeps exactly the timestamps `t` with `now - t < window`; the result is no longer than the input |
| `RateLimit.PruneAppend` | app.py:42-45 | pruning treats each timestamp on its own and keeps their order (distributes over concatenation) |
| `RateLimit.PruneLater` | app.py:41-45 | pruning at an earlier time and then at `now` equals pruning once at `now` |
| `RateLimit.PruneAllExpired` | app.py:41-45 | a list whose timestamps have all left the window is pruned to nothing |
| `RateLimit.Decide` | app.py:38-54 | admitted iff the pruned list holds fewer than `max_requests`; the new list is the pruned list, plus `now` at the end only when admitted; a list within the limit stays within it; with a positive window every kept timestamp is inside the window |
| `RateLimit.Limiter.constructor` | app.py:28 | the storage starts empty |
| `RateLimit.Limiter.Admit` | app.py:34-54 | result and new entry for the client are those of `Decide`, other clients' entries are unchanged, no client ever holds more than `max_requests` timestamps, and with a positive window every stored timestamp is inside the window ending at `now` |
| `RateLimit.Replay` | app.py:34-54 | the stored list after any history of calls stays within `max_requests` |
| `RateLimit.ReplayStoresWindow` | app.py:38-53 | when the clock never goes back, the stored list is exactly the admitted calls still inside the window ending at the latest call |
| `RateLimit.AtMostMaxPerWindow` | app.py:38-53 | a call is admitted exactly when fewer than `max_requests` earlier admitted calls lie in its trailing window, and no trailing window holds more than `max_requests` admitted calls |
| `RateLimit.SixtyPerMinute` | app.py:26-30 | with the decorator's defaults, no 60-second window ever holds more than 60 admitted calls of one client |
| `RateLimit.Stored` | app.py:38-39 | a client seen for the first time starts with an empty list |
| `RateLimit.AdmissionResumes` | app.py:41-53 | once every stored call has left the window, the next call is admitted |
| `Strings.IsSpace` | app.py:63 | Python's whitespace set (`str.isspace`, `\s`): the ASCII controls 9-13 and 28-31, the space, U+0085, U+00A0, U+1680, U+2000-U+200A, U+2028, U+2029, U+202F, U+205F and U+3000 |
| `Strings.TrimLeft` | app.py:69 | the result is the longest suffix not starting with whitespace; all removed characters are whitespace |
| `Strings.TrimRight` | app.py:69 | the result is the longest prefix not ending with whitespace; all removed characters are whitespace |
| `Strings.Strip` | app.py:69 | the result is a slice of the input, everything outside it is whitespace, and it has no whitespace at either end |
| `Strings.StripTrimmed` | app.py:69 | stripping a string without outer whitespace changes nothing |
| `Strings.Contains` | app.py:148 | Python's `pat in s`: `pat` occurs as a contiguous slice of `s` |
| `Strings.ContainsInfix` | app.py:148 | whatever stands around an occurrence of the pattern, the test finds it |
| `Strings.NoThreeNo503` | app.py:148 | a message without the digit 3 never satisfies the `"503" in str(e)` test |
| `Strings.NatToString` | app.py:128 | a non-empty string of decimal digits without a leading zero |
| `Strings.NatToStringRoundTrip` | app.py:128 | reading the digits back gives the number |
| `Strings.IntToString` | app.py:50 | `str(i)`: a leading minus sign exactly for negative numbers, followed by the decimal digits of the absolute value without a leading zero |
| `Markdown.LeadingHashes` | app.py:63 | the greedy `#{1,6}`: at most six `#`, all `#`, and the run stops only at the limit or a non-`#` |
| `Markdown.StripHeaders` | app.py:63 | the output has no `#`, adds no character, and a text without `#` is unchanged |
| `Markdown.StripHeadersKeepsVisible` | app.py:63 | only `#` and whitespace are deleted: the other characters survive in order |
| `Markdown.HeaderRunSwallowsSpace` | app.py:63 | a run of one to six `#` is deleted together with the one whitespace character after it |
| `Markdown.LongHeaderRun` | app.py:63 | a run of seven `#` is consumed as six and then one, and the second chunk swallows the whitespace after it |
| `Markdown.HeaderRunAlone` | app.py:63 | a run of one to six `#` not followed by whitespace is deleted alone |
| `Markdown.StripHeadersPassesText` | app.py:63 | any character other than `#` passes through wherever it stands, so the rule is not tied to line starts |
| `Markdown.HeaderMidLine` | app.py:63 | the rule applies mid-line: `"C# is"` becomes `"Cis"` |
| `Markdown.RemoveBold` | app.py:64 | the output has no `**`, adds no character, and a text without `*` is unchanged |
| `Markdown.RemoveChar` | app.py:65-66 | the output has no occurrence of the character, adds none, and a text without it is unchanged |
| `Markdown.RemoveCharAppend` | app.py:65-66 | the deletion works piece by piece, so the remaining characters keep their order |
| `Markdown.RemoveCharSingle` | app.py:65-66 | a single character goes if it is the removed one and stays otherwise; with `RemoveCharAppend` this fixes the output for every input |
| `Markdown.RemoveBoldPair` | app.py:64 | a `**` pair is deleted |
| `Markdown.RemoveBoldPassesText` | app.py:64 | any character other than `*` passes through |
| `Markdown.RemoveBoldKeepsLoneStar` | app.py:64 | a `*` that does not start a `**` pair is kept, also at the end of the text |
| `Markdown.BoldSubsumedByItalic` | app.py:64-65 | removing `**` and then every `*` equals removing every `*` |
| `Markdown.NewlineRun` | app.py:67 | the length of the maximal newline run at the start of the text |
| `Markdown.CollapseNewlines` | app.py:67 | the output has no three newlines in a row and adds no character |
| `Markdown.CollapseLongRun` | app.py:67 | a maximal run of three or more newlines becomes exactly two |
| `Markdown.CollapseShortRun` | app.py:67 | a maximal run of one or two newlines is kept |
| `Markdown.CollapsePassesText` | app.py:67 | every character other than a newline passes through |
| `Markdown.CollapseKeepsShortRuns` | app.py:67 | a text without three newlines in a row is unchanged |
| `Markdown.CollapseKeepsText` | app.py:67 | with newlines removed, output and input are the same text |
| `Markdown.Clean` | app.py:58-69 | the result has no `#`, `*` or backtick, no three newlines in a row, and no whitespace at either end |
| `Markdown.CleanKeepsText` | app.py:58-69 | the markers go without altering the text: apart from `#`, `*`, backticks and whitespace, the result holds the input's characters in their order |
| `Markdown.CleanFixes` | app.py:58-69 | a text with no markers, no three newlines in a row and no outer whitespace is unchanged |
| `Markdown.CleanIdempotent` | app.py:58-69 | cleaning twice equals cleaning once |
| `Retry.FixedMessagesLack503` | app.py:130-135 | none of the fixed failure messages contains "503", so the generic handler never retries them |
| `Retry.Backoff` | app.py:117 | `base_delay * 2 ** attempt` seconds |
| `Retry.BackoffDoubles` | app.py:141 | the first retry waits `base_delay`, each further one twice as long as the one before |
| `Retry.ErrorText` | app.py:124-128 | the API's own error message, `Unknown error` for a JSON body without one, `HTTP <code>` for a body that is not JSON |
| `Retry.Classify` | app.py:102-153 | one attempt: retries only while `attempt < max_retries` and then sleeps `base_delay * 2^attempt`; returns text exactly for a 200 with a first candidate's part; never raises the after-loop message |
| `Retry.Attempt` | app.py:76-153 | one pass of the loop body (the `try` block and both `except` clauses) takes exactly the step `Classify` gives |
| `Retry.Run` | app.py:75-155 | past the last attempt the after-loop `raise` happens with no call; otherwise between one and `max_retries + 1 - attempt` calls, one sleep fewer than calls, the k-th sleep `base_delay * 2^(attempt+k)`, and never the after-loop message |
| `Retry.RunAfterSleep` | app.py:115-120 | a retried attempt is its sleep followed by the run of the next attempt |
| `Retry.GenerateWithRetry` | app.py:71-155 | the loop's result, delays and call count equal `Run`'s: at most `max_retries + 1` calls, delays 1, 2, 4, … seconds, and "Maximum retry attempts exceeded" exactly when `max_retries < 0` |
| `Retry.ClientErrorsFailFast` | app.py:130-135 | a reading of the `Classify` table, by unfolding: statuses 400, 401 and 429 fail at once with their fixed messages on any attempt |
| `Retry.SuccessReplyIsFinal` | app.py:102-113 | a reading of the `Classify` table, by unfolding: a 200 returns `parts[0].text` when present and otherwise fails with "No response generated", never retried |
| `Retry.OtherStatusRetriedOn503` | app.py:115-153 | a reading of the `Classify` table, by unfolding: any other status is retried exactly when attempts remain and it is 503 or its `API Error` message contains "503"; otherwise it fails with that message |
| `Retry.PersistentOverload` | app.py:115-153 | 503 on every attempt fails with `API Error: <message>` after `max_retries + 1` calls |
| `Retry.PersistentNetworkFailure` | app.py:139-146 | a network error on every attempt fails with the network-error message after `max_retries + 1` calls |
| `Retry.OverloadThenSuccess` | app.py:115-120 | 503, 503, then text: the text after sleeping 1 and 2 seconds, three calls |
| `Handlers.ApiConfigured` | app.py:163 | the key is set and is not the placeholder `YOUR_API_KEY_HERE` |
| `Handlers.HealthCheck` | app.py:157-164 | status 200; `api_configured` iff the key is non-empty and not the placeholder |
| `Handlers.Validate` | app.py:173-191 | accepted iff the message is present and its stripped form has 1 to 1000 characters; the accepted text is the stripped message; a rejection is the 400 for a missing field, else for an empty message, else for a too long one |
| `Handlers.LengthLimitIsInclusive` | app.py:187-191 | 1000 characters are accepted, 1001 are rejected as too long |
| `Handlers.Generate` | app.py:71-75 | the retry loop's result with the default `max_retries = 3`; the after-loop "Maximum retry attempts exceeded" never occurs |
| `Handlers.Respond` | app.py:203-218 | 200 with the cleaned text exactly when generation succeeds (a streaming body for `chat_stream`); otherwise 500 "Internal server error" carrying the exception's message |
| `Handlers.Chat` | app.py:166-218 | 400 exactly for a missing, blank or over-long message, with `Validate`'s reply; the configuration error exactly for a valid message without a configured key; 200 exactly when, in addition, generation succeeds, with the cleaned text as `response`; otherwise 500 carrying the failure's message |
| `Handlers.ChatStream` | app.py:220-263 | the same checks without the key check, with `Validate`'s 400 reply; 200 carries the cleaned text with `streaming: false`; a failed generation gives 500 carrying its message |
| `Handlers.ChatAndStreamAgree` | app.py:220-263 | with a configured key (or an invalid message) both endpoints give the same status, error body and text |
| `Handlers.ConfigErrorMatchesHealth` | app.py:193-198 | for a valid message, `chat` reports the configuration error exactly when `health_check` reports the key unconfigured |
| `Handlers.ChatResponseIsClean` | app.py:203-211 | every 200 reply of `chat` is free of markdown markers, trimmed, and a fixed point of the cleaner |
| `Handlers.RateLimited` | app.py:47-51 | the decorator's 429 reply with the "Rate limit exceeded" error |
| `Handlers.ServeChat` | app.py:166-168 | the limiter decides first; a rejected call gets 429 without running `chat`, an admitted one gets `chat`'s reply; the limiter state changes as `Decide` says |
| `Handlers.ServeChatStream` | app.py:220-222 | the same for `chat_stream` |

## Left out

- Flask routing, CORS, `jsonify`, the 404 and 500 error handlers and the static `/api/config` body: framework plumbing and constants.
- The `timestamp` field of the replies, `time.time()` and `time.sleep`: time is an integer argument of the limiter and sleeps are returned as a list of whole seconds.
- The outbound HTTP request (URL, query string, headers, JSON payload with its generation parameters, 30-second timeout) and the decoding of the reply: each attempt's result is an abstract `Outcome`, independent of the prompt.
- A 200 reply whose first part has no `text` key (a `KeyError` whose message is re-raised) is not distinguished in `Outcome`.
- A 200 reply whose body is not JSON: `response.json()` then raises a decoding error that `requests` (2.27 and later) makes a `RequestException`, so the first `except` clause retries it like a network failure. Such a reply is given as `NetErr`; `Status(200, _)` stands only for a JSON reply without candidates.
- A request body that is not JSON, or a `message` that is not a string: the exceptions Flask or `strip()` raise there are not modelled; `message` is a string or absent.
- `RateLimit.Limiter.constructor`: `max_requests` is a natural number; the decorator is only ever applied with its defaults (60 requests per 60 seconds).
- Logging, `load_dotenv`, `os.getenv`, the `__main__` block and the built-in API key: the key is an opaque string argument.
- `RateLimit.ReplayStoresWindow`, `RateLimit.AtMostMaxPerWindow`, `RateLimit.SixtyPerMinute`: the sliding-window theorems assume a clock that never goes back; `time.time()` is a wall clock that can step backwards, and then earlier timestamps can re-enter the window. `Decide` and `Limiter.Admit` make no such assumption.
- Concurrent access to `rate_limit_storage`: the source has no locking and each call is modelled as one atomic step.
- Python's regular-expression engine: each pattern is a hand-written scan with the same matching rules.
