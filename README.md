# Slack–Gemini webhook bridge: a verified model of its decision logic

The bridge receives Slack event callbacks over HTTP, forwards the user's text to a
Gemini text-generation model and posts the answer back to Slack. Its only decision
logic sits in `appweb.py`, and this project models three parts of it:

- **The sliding-window throttle** (`throttle_requests` with the process-wide
  `request_timestamps` list and `MAX_REQUESTS_PER_MINUTE = 10`). This is the class
  `RateLimit.RequestThrottle`. Its method `ThrottleRequests` is proved against the
  pure `RateLimit.Step`, and `RateLimit.Prune` is the list comprehension written as
  a loop. Lemmas about runs of checks (`RateLimit.Run`) show what the limiter
  guarantees within one 60-second span.
- **The webhook handler** (`handle_slack_events`).
  - `SlackEvents.Classify` sorts a payload and its `X-Slack-Retry-Num` header into
    five categories, in priority order: challenge, retry, mention, direct message,
    ignored.
  - `SlackEvents.Dispatch` and `SlackEvents.Answer` choose the posts, the response
    and the prompt, once the throttle has decided.
  - `SlackEvents.Handle` is the whole callback as a function of the throttle window.
    The method `SlackEvents.HandleSlackEvents` runs it against a `RequestThrottle`
    object.
- **The text helpers.**
  - `Text.Strip` is Python's `str.strip()` over exactly the `str.isspace()`
    characters.
  - `Text.Contains` is Python's `in` test for substrings.
  - `Text.ExtractQuestion` is `text.split(">", 1)` followed by a strip.
  - `Notices.ClassifyError` and `Notices.ErrorNotice` pick the error notice from the
    exception text.

Modules: `Wrappers` (Option), `Text`, `Notices`, `RateLimit`, `SlackEvents`, one file each.

Inputs and outputs stand in for I/O:
- Time is an integer number of seconds, passed in as `now`. It is not assumed to be
  monotonic: an entry stamped later than `now` still counts as recent, exactly as
  `now - ts < 60` does in the source.
- The result of `model.generate_content(...).text` is an input: `Generated(text)` or
  `GenerationFailed(message)`.
- The failure of the post that carries the generated answer is an input (`delivery`).
  It is raised inside the same `try` as the generation call, so the source turns it
  into an error notice built from that exception's text, and the model does the same.
- The `chat_postMessage` calls the handler makes are an output, `Reply.posts`. A
  notice post that fails with `SlackApiError` is swallowed in the source, which
  changes nothing the model records; any other failure of a notice post escapes the
  handler and is not modelled (see "Left out").
- The HTTP response body is `Reply.response`. The text sent to the generation backend
  is `Reply.prompt`, which is None when the backend is not called.

### Behaviour of `appweb.py` worth noting

- The post that carries the generated answer sits in the same `try` as the generation
  call (appweb.py:90-119 and 140-167). If that post raises, the handler builds an error
  notice from that exception's text and attempts a second post.
- Around the notice posts, only `SlackApiError` is swallowed (appweb.py:86, 118, 136,
  166).
- Consider calls that are consecutive and all stamped within one 60-second span:
  - Starting from a window whose entries lie in the same span, call `i` is rejected
    exactly when the window size plus `i` reaches 10 (`RateLimit.BurstWithinSpan`).
    From an empty window that means the first ten are admitted
    (`RateLimit.BurstFromEmpty`).
  - Starting from any window of at most ten entries, at most ten such calls are
    admitted (`RateLimit.AtMostMaxPerSpan`).
- The span bound needs every call of the run to be stamped inside the span. If the
  clock steps back, more than ten admissions can carry stamps in one span: a call
  stamped later clears the window first (`RateLimit.ClockStepBackAdmitsMore`).

## Model

| member | source | states |
|---|---|---|
| `Text.TrimStart` | appweb.py:77 | the result is a suffix of the input; everything removed is whitespace; the result does not start with whitespace |
| `Text.TrimEnd` | appweb.py:77 | the result is a prefix of the input; everything removed is whitespace; the result does not end with whitespace |
| `Text.Strip` | appweb.py:77 | `str.strip()`: the result is a contiguous piece of the input, with no whitespace at either end and only whitespace outside it |
| `Text.StripOfUnique` | appweb.py:77 | a string has only one stripped form, so the characterisation in `Strip`'s contract determines its result |
| `Text.StripIdempotent` | appweb.py:77 | stripping twice gives the same result as stripping once |
| `Text.Contains` | appweb.py:106 | Python's `sub in s` is true exactly when `sub` occurs at some position of `s` |
| `Text.FirstIndexOf` | appweb.py:76 | None exactly when the character is absent; otherwise the index of an occurrence with none before it (where `split(">", 1)` cuts) |
| `Text.FirstIndexIsFirst` | appweb.py:76 | the position of a `>` with none before it is the one where the split cuts |
| `Text.ExtractQuestion` | appweb.py:76-77 | with no `>`, the whole text stripped; the result never starts or ends with whitespace |
| `Text.QuestionFollowsFirstMarker` | appweb.py:76-77 | when the first `>` is at position `i`, the question is the text after position `i`, stripped |
| `Text.StripOneSpace` | appweb.py:77 | one leading space before a string with no whitespace at either end is all that strip removes |
| `Text.QuestionAfterMarkup` | appweb.py:76-77 | for mention markup ending in its only `>`, followed by a space and a question, the extracted question is exactly that question |
| `Text.MentionExample` | appweb.py:76-77 | `"<@U123> what is Go?"` yields `"what is Go?"` |
| `Text.HelloExample` | appweb.py:76-77 | `"<@BOT> hello"` yields `"hello"` |
| `Notices.ClassifyError` | appweb.py:106-111 | quota when the message contains "429" or "RATE_LIMIT_EXCEEDED", even if it also contains "InvalidArgument"; otherwise unsupported content exactly when it contains "InvalidArgument"; otherwise unexpected |
| `Notices.SuffixesDistinguishable` | appweb.py:107-111 | none of the three notice suffixes ends with another, so a notice shows which variant was chosen |
| `Notices.OneSuffixAtATime` | appweb.py:106-111 | a text ends with the suffix of at most one error kind |
| `Notices.QuotaNotice` | appweb.py:106-107 | a message containing "429" or "RATE_LIMIT_EXCEEDED" yields a notice that ends with the quota suffix, and with neither the unsupported-content suffix nor the generic one |
| `Notices.Mention` | appweb.py:84 | the mention markup opens with `<@`, closes with `> `, and holds exactly the user id between them; a missing id renders as `"<@None> "` |
| `Notices.Suffix` | appweb.py:106-111 | each error kind selects one of the three fixed suffix literals, which opens with a space and does not end in whitespace |
| `Notices.ErrorNotice` | appweb.py:103-111 | the notice is exactly the addressee, the fixed preamble and the suffix of the kind the message selects; it ends with that suffix and with no other kind's |
| `RateLimit.Recent` | appweb.py:36 | the pruned window is no longer than the window, and every entry in it satisfies `now - ts < 60` |
| `RateLimit.RecentMembers` | appweb.py:36 | an entry survives pruning exactly when it was in the window and is younger than 60 seconds |
| `RateLimit.RecentConcat` | appweb.py:36 | pruning distributes over concatenation, so it never reorders entries |
| `RateLimit.RecentKeepsAllRecent` | appweb.py:36 | a window whose entries are all recent is left unchanged by pruning |
| `RateLimit.RecentIsFilter` | appweb.py:36 | from any start index, the pruned window lists, by increasing index, exactly the entries of the window that are recent |
| `RateLimit.RecentKeepsOrder` | appweb.py:36 | the pruned window is the filter of the whole window: the recent entries, in their original relative order |
| `RateLimit.Step` | appweb.py:33-40 | throttled exactly when the pruned window holds 10 or more entries, and then the window is the pruned window and does not grow; otherwise the pruned window with `now` appended last; a window of at most 10 stays at most 10; every retained entry is recent |
| `RateLimit.Prune` | appweb.py:36 | the comprehension's loop computes the pruned window |
| `RateLimit.RequestThrottle.constructor` | appweb.py:30-31 | the window starts empty, and so satisfies the bound |
| `RateLimit.RequestThrottle.ThrottleRequests` | appweb.py:33-40 | keeps the bound of at most 10 entries; the return value and the new window are those of `Step` on the old window: throttled means the old window pruned, admitted means pruned with `now` appended |
| `RateLimit.Run` | appweb.py:33-40 | a sequence of checks yields one decision per call |
| `RateLimit.SpanEntriesRecent` | appweb.py:36 | entries inside a 60-second span all count at any time in that span |
| `RateLimit.BurstWithinSpan` | appweb.py:36-40 | start from a window whose entries lie in one 60-second span, and make calls in the same span: call `i` is rejected exactly when the window size plus `i` reaches 10 |
| `RateLimit.BurstFromEmpty` | appweb.py:30-40 | from an empty window, of the calls within one 60-second span the first ten are admitted and every later one is rejected |
| `RateLimit.StepKeepsSpanTail` | appweb.py:36-40 | a check in the span keeps the in-span tail of the window, and extends it by `now` when it admits |
| `RateLimit.AdmittedRun` | appweb.py:37-40 | the admitted count of a run is that of its first check plus that of the rest, which starts from the window the first check leaves |
| `RateLimit.AdmittedBound` | appweb.py:36-40 | the in-span tail of the window plus the requests admitted in the span never exceed 10 |
| `RateLimit.AtMostMaxPerSpan` | appweb.py:30-40 | from any window of at most 10 entries, a run of consecutive calls all stamped within one 60-second span admits at most 10 of them |
| `RateLimit.RecentAllOld` | appweb.py:36 | a window whose entries are all 60 or more seconds old is emptied by pruning |
| `RateLimit.ClockStepBackAdmitsMore` | appweb.py:34-40 | the span bound needs every call stamped in the span: a full window at 0, a call at 1000 and then a call at 1 are both admitted, an eleventh admission stamped within [0, 60) |
| `SlackEvents.IsRetry` | appweb.py:65 | a missing retry header, or one whose value is 0, is not a redelivery; a value above 0 is |
| `SlackEvents.TextOf` | appweb.py:73 | the event's text, or "" when the field is absent |
| `SlackEvents.IsUserDirectMessage` | appweb.py:122-124 | a user's direct message has no subtype and is never an `app_mention`, so one event is never handled both ways |
| `SlackEvents.Classify` | appweb.py:61-124 | the priority order: a challenge wins over everything; then a retry header above 0; then `app_mention`; then a `message` in an `im` channel with no subtype; mention and DM carry the event's user, channel and text (default "") |
| `SlackEvents.Addressee` | appweb.py:84 | the opening of every post: empty exactly for a direct message (appweb.py:134, 146, 151); for a mention, the `<@user> ` markup holding the user id, and `"<@None> "` when the id is missing (appweb.py:98, 103) |
| `SlackEvents.Prompt` | appweb.py:76-77 | a direct message is sent to the backend unmodified (appweb.py:141); a mention sends `ExtractQuestion` of its text, the text after the first `>` stripped (`Text.QuestionFollowsFirstMarker`), which has no whitespace at either end and is the whole text stripped when there is no `>` |
| `SlackEvents.Answer` | appweb.py:90-119 | for an admitted request: every post goes to the event's channel and opens with the addressee. The first post is the generated text or, if generation failed, the error notice. A second post, the notice for the delivery error, appears exactly when generation succeeded and posting the answer failed |
| `SlackEvents.Dispatch` | appweb.py:80-169 | posts are made exactly for mentions and DMs. The response is throttled exactly when such an event is throttled, and echoes the challenge exactly for a challenge. The backend is called exactly for an admitted mention or DM, with its prompt. A throttled event gets the single fixed notice |
| `SlackEvents.Handle` | appweb.py:57-169 | a challenge echoes its value with no throttle check, prompt or post, whatever else is present. A retry above 0 answers ok the same way, and so does any other event that does not consult the throttle. The throttle is consulted exactly for a mention or a user DM. When the pruned window is full, the response is throttled with the single fixed notice (mention-prefixed or plain), no prompt, and the window left pruned. When it has room, the backend is called and the answer posts are made, with the response ok and `now` appended to the window. A prompt is the extracted question for a mention and the raw text for a DM. All posts go to the event's channel, and the window bound is kept |
| `SlackEvents.HandleSlackEvents` | appweb.py:57-169 | against a `RequestThrottle`: its reply, throttle-consulted flag and new window are those of `Handle` on the old window, and the bound is kept |
| `SlackEvents.SubtypedDirectMessageIgnored` | appweb.py:122-124 | an `im` message with a subtype causes no throttle check, no prompt and no post, and answers ok |
| `SlackEvents.MentionAnswered` | appweb.py:69-99 | a mention `"<@BOT> hello"` answered with "hi there", when not throttled, asks "hello" and posts `"<@USER> hi there"` to the event's channel |
| `SlackEvents.QuotaErrorGetsQuotaNotice` | appweb.py:101-119 | a generation error containing "429" yields one post, which ends with the quota suffix and with neither of the other two |

## Left out

- HTTP routing and JSON handling (`request.json`, `request.headers`, `jsonify`) are
  abstract inputs and outputs. A body that is absent or empty is `Payload(None, None)`.
  A challenge value is modelled as a string. An `event` or `text` field that is
  present but JSON null is not modelled. In the source, a null `event` raises at
  appweb.py:69, after the challenge check (line 61) and the retry check (line 65): a
  null `event` beside a challenge is still echoed, and beside a retry header above 0
  still answers ok. A null `text` in a mention raises at appweb.py:76, before the
  throttle is consulted. A null `text` in a direct message consumes a throttle slot
  and then fails inside the `try` of appweb.py:140, which turns the failure into an
  error notice.
- The `int()` parse of `X-Slack-Retry-Num` is not modelled: it raises on non-numeric
  text, and the header is an optional integer here.
- The Slack `WebClient` is left out: `chat_postMessage`, `conversations_list`, the
  `/list-channels` route and `SlackApiError` handling. Posts are recorded as attempted
  calls. Swallowing a notice post that fails with `SlackApiError` changes nothing the
  model records.
- A notice post that fails with any other exception (a transport error, say) is not
  modelled: in the source it escapes `handle_slack_events` (appweb.py:81-87, 113-119,
  131-137, 161-167), so neither `{"status": "throttled"}` nor `{"status": "ok"}` is
  returned. The model always returns the response of the path taken.
- The Gemini client and `generate_content` are left out. Their outcome is an input.
- Startup is left out: SSL context, `load_dotenv`, the environment-variable checks and
  `__main__`. So are the `GET /` health check and `/check-config`, which computes a
  status and returns nothing. All of these are I/O or bootstrap code.
- `time.time()` is replaced by an integer `now` in seconds. Fractional seconds are not
  modelled.
- Concurrent requests are not modelled. The source takes no lock around the shared
  window, and the model is sequential.
- `SlackEvents.Handle` takes the generation outcome as a parameter even on paths that
  never call the backend. Those paths ignore it: `Reply.prompt` is None there.
