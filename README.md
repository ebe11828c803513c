# Portfolio chat: a verified model

This project models the behavioural core of a personal portfolio web site in Dafny and proves properties of the model. The site is a Next.js application. Its core is:

- **the chat endpoint** (`POST /api/chat`). It rate-limits callers per client key in fixed one-minute windows. It validates the JSON body, builds a system prompt around the portfolio knowledge text, and forwards the last ten history turns and the new message to a hosted completion service. It then maps the service's answer or failure to an HTTP reply;
- **the offline chat widget**. It answers from a fixed knowledge base by keyword rules that are checked in a fixed order. It renders `**bold**` and line breaks as HTML in a message bubble, and it can be reset to its welcome message;
- **the full chat widget**. It keeps a message list with per-message feedback. It sends the list's recent history with each question, starts over from a suggestion, and re-asks the last question ("regenerate"). It reveals replies three characters per timer tick;
- **two string utilities**: `truncate` and `slugify`.

Modules follow the source files:

| module | file | what it holds |
|---|---|---|
| `Text` | `text.dfy` | the JavaScript string built-ins used, over `seq<char>`: `toLowerCase` on ASCII, `includes`, `trim` with ECMAScript's white-space set, and literal global `replace` |
| `Lists` | `lists.dfy` | `slice(-k)` and `slice(0, -k)` |
| `ChatTypes` | `chat_types.dfy` | roles and the `{ role, content }` wire entry |
| `StringUtils` | `utils.dfy` | `truncate`, `slugify`, and a reference definition of the space-run rewrite |
| `Responder` | `responder.dfy` | `generateResponse` as an ordered rule list, the bubble transform, `resetChat` |
| `ChatRoute` | `chat_route.dfy` | the rate limiter as a class over a `map`, and the request pipeline as a pure function of the request, the configuration and the upstream outcome, wrapped by a `Post` method that updates the limiter |
| `Agent` | `agent.dfy` | the full widget's list operations, as functions from widget state to widget state, and `StreamingText` as a class with a stepping method and a loop |
| `Wrappers` | `wrappers.dfy` | `Option` |

The clock is a parameter (`now`). The completion service is abstracted as its outcome: a non-success status with a body, a success with optional content, or an exception. The API key and the portfolio knowledge text are a `Config` parameter. Message ids, which the widgets derive from `Date.now()`, are parameters.

Three details of the code decide behaviour at the edges, and the model keeps each of them:

- A window is renewed only when `now` is strictly after its end. At `now == resetTime` the old window still counts (`src/app/api/chat/route.ts:184`).
- The limiter runs before the body is read, so a malformed request still uses up a slot (`src/app/api/chat/route.ts:201-216`).
- `generateResponse` can return ten texts: the answers of its nine rules, and the `knowledgeBase.default` entry when no rule fires (`src/components/ai-chatbot/chatbot.tsx:135`).

Two behaviours of the code are easy to miss, and lemmas make them explicit:

- Keyword matching is by substring. So "email" is a contact question (it contains "ai", but the contact rule comes first), and "hire" is too (`Responder.EmailIsContact`, `Responder.HireIsContact`).
- `regenerateResponse` drops the final list element, whatever its role. When the list ends with a user message, for instance after a failed regeneration, the next regeneration removes that user message from the list and re-asks it. The message before it is dropped from the history (`Agent.RegenerateAfterUserMessage`).

## Model

| member | source | states |
|---|---|---|
| Text.Lower | src/components/ai-chatbot/chatbot.tsx:105 | `toLowerCase` keeps the length and lowers each character; the result has no capital letter |
| Text.Contains | src/components/ai-chatbot/chatbot.tsx:107-131 | `includes` fails for a pattern longer than the text and holds when the text starts with the pattern |
| Text.LowerIdempotent | src/components/ai-chatbot/chatbot.tsx:105 | lowering an already lowered string changes nothing |
| Text.ContainsIff | src/components/ai-chatbot/chatbot.tsx:107-131 | `includes` holds exactly when the pattern occurs at some index, in both directions |
| Text.Trim | src/components/ai-chatbot/portfolio-agent.tsx:225-230 | `trim` returns a slice of the input framed only by white space, with no white space at either end; it is empty exactly when the input is all white space |
| Text.ReplaceAll | src/components/ai-chatbot/chatbot.tsx:369-370 | a global replace of a literal pattern leaves a text in which the pattern does not occur unchanged |
| Text.ReplaceOneChar | src/components/ai-chatbot/chatbot.tsx:369 | a single character becomes the replacement exactly when it is the pattern character, and stays otherwise |
| Text.ReplaceCharAppend | src/components/ai-chatbot/chatbot.tsx:369 | replacing a character in a concatenation is replacing it in each part; with the one-character case, every `\n` becomes `<br />` and every other character stays in place |
| Text.ReplaceBreakExample | src/components/ai-chatbot/chatbot.tsx:369 | `a\nb` becomes `a<br />b` |
| Text.ReplaceAllSelf | src/components/ai-chatbot/chatbot.tsx:370 | replacing a literal pattern by itself leaves any text unchanged |
| Text.ReplaceCharRemovesIt | src/components/ai-chatbot/chatbot.tsx:369 | after replacing every `c` by a text free of `c`, no `c` remains |
| Text.ReplaceAbsentChar | src/components/ai-chatbot/chatbot.tsx:369 | replacing a character that does not occur changes nothing |
| Lists.TakeLast | src/app/api/chat/route.ts:249 | `slice(-k)` yields the last `min(k, n)` elements in their original order |
| Lists.DropLast | src/components/ai-chatbot/portfolio-agent.tsx:379 | `slice(0, -k)` yields the first `n - k` elements, or none when `n <= k` |
| Lists.TakeDropLast | src/components/ai-chatbot/portfolio-agent.tsx:375-379 | for `n >= k`, `slice(0, -k)` followed by `slice(-k)` is the whole list again |
| StringUtils.Substring0 | src/lib/utils.ts:21 | `substring(0, n)` is the prefix of length `n`, clamped to 0 for a negative `n` and to the whole string past its end |
| StringUtils.Truncate | src/lib/utils.ts:20-22 | a string of length at most `n` is returned unchanged; a longer one becomes its first `n` characters (none for a negative `n`) followed by `...` |
| StringUtils.TruncateIdempotent | src/lib/utils.ts:20-22 | truncating twice to the same length is truncating once |
| StringUtils.TruncateBound | src/lib/utils.ts:20-22 | for `n >= 0` the result is at most `n + 3` characters long, and a string longer than `n` becomes exactly `n + 3` characters |
| StringUtils.KeepWordsAndSpaces | src/lib/utils.ts:27 | a character occurs in the result exactly when it occurs in the input and is a word character or a space; a single character is kept exactly when it is one of those |
| StringUtils.KeepWordsAndSpacesAppend | src/lib/utils.ts:27 | the filter keeps the order: filtering a concatenation is concatenating the filtered parts |
| StringUtils.KeepWordsAndSpacesKeepsAll | src/lib/utils.ts:27 | a text of word characters and spaces only is kept whole |
| StringUtils.DashSpaceRunsNoSpace | src/lib/utils.ts:28 | a text without spaces is not changed by the run replacement |
| StringUtils.DashSpaceRuns | src/lib/utils.ts:28 | the result has no space and only hyphens or non-space input characters; a leading or trailing space gives a leading or trailing hyphen; it is empty exactly when the input is |
| StringUtils.Slugify | src/lib/utils.ts:24-28 | every output character is in `[a-z0-9_-]`, so the output has no space |
| StringUtils.SlugifyFixesPlainSlugs | src/lib/utils.ts:24-28 | a text made only of `[a-z0-9_]` is its own slug |
| StringUtils.SlugifyNoDoubleDash | src/lib/utils.ts:27-28 | no two hyphens are adjacent in any output |
| StringUtils.DashSpaceRunsIsCollapse | src/lib/utils.ts:28 | the run rewrite equals the reference reading: collapse each maximal run of spaces to one space, then turn spaces into hyphens |
| StringUtils.SlugifyKeepsEdgeSpaces | src/lib/utils.ts:28 | nothing is trimmed: a leading or trailing space yields a leading or trailing hyphen |
| StringUtils.SlugifySpaced | src/lib/utils.ts:24-28 | `slugify("a b") == "a-b"` |
| StringUtils.SlugifyHyphenated | src/lib/utils.ts:27 | `slugify("a-b") == "ab"`: input hyphens are deleted |
| StringUtils.SlugifyNotIdempotent | src/lib/utils.ts:26-28 | `slugify` applied to its own output `"a-b"` gives `"ab"`, so it is not idempotent |
| Responder.MatchesAny | src/components/ai-chatbot/chatbot.tsx:107 | a rule's `\|\|` chain holds exactly when one of its keywords occurs in the query |
| Responder.FirstMatch | src/components/ai-chatbot/chatbot.tsx:107-135 | the index found is a firing rule with no firing rule before it; none is found exactly when no rule fires |
| Responder.Classify | src/components/ai-chatbot/chatbot.tsx:104-135 | the default topic is chosen exactly for queries whose lower-case form fires none of the nine rules |
| Responder.GenerateResponse | src/components/ai-chatbot/chatbot.tsx:104-136 | the answer is always one of the ten fixed texts |
| Responder.ClassifyIgnoresCase | src/components/ai-chatbot/chatbot.tsx:105 | a query and its lower-case form get the same answer |
| Responder.FirstFiringRuleWins | src/components/ai-chatbot/chatbot.tsx:107-133 | the first rule in source order that fires decides the answer, whatever later rules would say |
| Responder.SkillWins | src/components/ai-chatbot/chatbot.tsx:107-108 | a query containing "skill" gets the skills text, whatever else it mentions |
| Responder.HiGreets | src/components/ai-chatbot/chatbot.tsx:131-132 | a query containing "hi" and no keyword of the eight earlier rules gets the greeting |
| Responder.EarlyRulesSilent | src/components/ai-chatbot/chatbot.tsx:107-115 | a query shorter than six characters with no character that starts a keyword of the first three rules fires none of them |
| Responder.ContactRuleWins | src/components/ai-chatbot/chatbot.tsx:107-117 | a lower-case query that fires the contact rule and none of the three before it gets the contact text |
| Responder.EmailIsContact | src/components/ai-chatbot/chatbot.tsx:116-126 | "email" gets the contact text even though it contains "ai" |
| Responder.HireIsContact | src/components/ai-chatbot/chatbot.tsx:116-117 | "hire" gets the contact text |
| Responder.FindClose | src/components/ai-chatbot/chatbot.tsx:368 | the closing `**` found is the first one, with no line terminator before it; none is found exactly when every `**` has a line terminator before it |
| Responder.Bold | src/components/ai-chatbot/chatbot.tsx:368 | the bold rewrite never shortens a text: a match of `4 + n` characters becomes `17 + n` |
| Responder.BoldNoStars | src/components/ai-chatbot/chatbot.tsx:368 | a text without `**` is not changed by the bold rewrite |
| Responder.BoldCopiesUnmatched | src/components/ai-chatbot/chatbot.tsx:368 | a first character that does not open a closed single-line pair (a lone `*`, or a `**` with no closing pair on its line) is copied and the rewrite goes on after it; with `BoldStep` this fixes the rewrite on every text |
| Responder.BoldLoneStar | src/components/ai-chatbot/chatbot.tsx:368 | a `*` followed by a character other than `*` is copied as it is |
| Responder.BoldCons | src/components/ai-chatbot/chatbot.tsx:368 | a character other than `*` is copied and the rewrite goes on after it |
| Responder.BoldCopiesStarFree | src/components/ai-chatbot/chatbot.tsx:368 | a `*`-free prefix is copied as it is and the rest is rewritten, so pairs after ordinary text are rewritten too |
| Responder.BoldStep | src/components/ai-chatbot/chatbot.tsx:368 | `**x**` with a single-line `x` free of `**` becomes `<strong>x</strong>`, and the scan resumes after the closing pair (non-greedy) |
| Responder.BoldPairOnly | src/components/ai-chatbot/chatbot.tsx:368 | `**b**` becomes `<strong>b</strong>` |
| Responder.BoldAfterText | src/components/ai-chatbot/chatbot.tsx:368 | `a**b**` becomes `a<strong>b</strong>` |
| Responder.BoldAfterStray | src/components/ai-chatbot/chatbot.tsx:368 | `*a**b**` becomes `*a<strong>b</strong>`: a stray `*` is kept and the pair after it is still rewritten |
| Responder.BubbleHtml | src/components/ai-chatbot/chatbot.tsx:367-370 | the bubble HTML contains no newline |
| Responder.BubbleHtmlIsBoldThenBreaks | src/components/ai-chatbot/chatbot.tsx:370 | the third replace is the identity: the bubble is the bold rewrite followed by the line-break rewrite |
| Responder.PlainBubble | src/components/ai-chatbot/chatbot.tsx:367-370 | a single-line text without `**` is shown as it is |
| Responder.ResetChat | src/components/ai-chatbot/chatbot.tsx:226-235 | the list becomes exactly one message: id `"welcome"`, role assistant, the welcome text |
| ChatRoute.Check | src/app/api/chat/route.ts:180-195 | a call is allowed exactly when its key has no running window or has fewer than 30 calls in it; a denied call changes nothing; a missing or expired window becomes `{1, now + 60000}`, a running one counts one more call with the same end; no other key is added, removed or changed |
| ChatRoute.RateLimiter.constructor | src/app/api/chat/route.ts:176 | the limiter starts with no records |
| ChatRoute.RateLimiter.CheckRateLimit | src/app/api/chat/route.ts:180-195 | a missing window, or one strictly past its end, allows the call and becomes `{1, now + 60000}`; inside a window at 30 the call is denied and nothing changes; below 30 it is allowed, the count grows by one and the end stays; no other key is added, removed or changed; counts stay in 1..30 |
| ChatRoute.CheckKeepsCountsInRange | src/app/api/chat/route.ts:176-195 | every stored count stays between 1 and 30 |
| ChatRoute.ReplayInWindow | src/app/api/chat/route.ts:189-194 | inside a window that has counted `c` calls, call number `i` is allowed exactly when `c + i < 30` |
| ChatRoute.WindowAdmitsThirty | src/app/api/chat/route.ts:177-194 | in a window opened by a call, exactly the first 30 calls are allowed and every later one is denied |
| ChatRoute.ReplayLeavesOtherKeys | src/app/api/chat/route.ts:182-193 | any sequence of calls from one key adds, removes or changes no other key's record |
| ChatRoute.ClientKey | src/app/api/chat/route.ts:199 | the key is the `x-forwarded-for` value when present and non-empty, otherwise `"anonymous"` |
| ChatRoute.SystemPrompt | src/app/api/chat/route.ts:228-245 | the knowledge text occurs verbatim right after the fixed instructions |
| ChatRoute.HistoryEntries | src/app/api/chat/route.ts:209 | an absent `conversationHistory` is read as `[]`, an array as itself |
| ChatRoute.MapEntries | src/app/api/chat/route.ts:249-252 | mapping history objects to `{ role, content }` keeps the length, the order and each entry's role and content |
| ChatRoute.Prompt | src/app/api/chat/route.ts:247-254 | the upstream list has `2 + min(10, n)` entries, the system message first and the user's message last |
| ChatRoute.SystemPromptEmbedsContext | src/app/api/chat/route.ts:228-245 | the system prompt is the fixed instructions, then the knowledge text verbatim, then the fixed closing line |
| ChatRoute.PromptShape | src/app/api/chat/route.ts:247-254 | the upstream list has `2 + min(10, n)` entries: the system message embedding the knowledge text, the last history elements as turns in their order, then the user's message |
| ChatRoute.PromptWithoutHistory | src/app/api/chat/route.ts:247-254 | with no history the list is the system message and the user's message |
| ChatRoute.OlderEntriesIgnored | src/app/api/chat/route.ts:249 | elements before the last ten are never read: whatever they are, `null` included, the prompt is the one built from the last ten |
| ChatRoute.FifteenTurnsKeepLastTen | src/app/api/chat/route.ts:249 | of fifteen well-formed history turns, exactly the last ten are sent |
| ChatRoute.Outgoing | src/app/api/chat/route.ts:208-257 | a message list is sent upstream exactly when the body parses, the message is a non-empty string, the key is set, and the history is absent or an array whose last ten elements are all objects |
| ChatRoute.MapUpstream | src/app/api/chat/route.ts:273-288 | every mapped reply follows a call, and it is 200 exactly for a success |
| ChatRoute.Respond | src/app/api/chat/route.ts:208-296 | the status is 200, 400 or 500; 200 exactly for an answer, which names the model; the upstream is called exactly when the request gets past validation, configuration and the history `map` |
| ChatRoute.Post | src/app/api/chat/route.ts:197-297 | the limiter is consulted before the body is read, so a denied request gets 429 with no upstream call whatever its body, and any request (valid or not) uses up a slot; an allowed request gets the pipeline's reply |
| ChatRoute.BadRequestIffInvalidMessage | src/app/api/chat/route.ts:211-216 | a parsed body gets 400 exactly when its message is missing, empty or not a string, and then nothing is sent upstream |
| ChatRoute.MissingKeyIsConfigError | src/app/api/chat/route.ts:218-225 | a valid message without an API key gets the configuration 500 and nothing is sent upstream |
| ChatRoute.MalformedBodyIsUnexpected | src/app/api/chat/route.ts:290-296 | a body that does not parse (not JSON, or `null`), or, for a valid message with the key set, a history that is not an array or has a `null` among its last ten elements, ends in the catch-all 500 with nothing sent |
| ChatRoute.NullEntryIsUnexpected | src/app/api/chat/route.ts:249-251 | a `null` among the last ten history elements throws in the `map`: the catch-all 500, and nothing is sent |
| ChatRoute.ValidRequestSendsPrompt | src/app/api/chat/route.ts:209-254 | a request past validation with a usable history sends exactly the assembled prompt, with an absent history read as empty |
| ChatRoute.NoCallNoDependence | src/app/api/chat/route.ts:211-225 | when nothing is sent upstream, the reply does not depend on the upstream |
| ChatRoute.UpstreamErrorNotEchoed | src/app/api/chat/route.ts:273-280 | a non-success upstream gives the fixed generic 500, whatever its body said |
| ChatRoute.UpstreamFailureIsUnexpected | src/app/api/chat/route.ts:290-296 | a `fetch` that throws after validation, or an unreadable success body, gives the catch-all 500 |
| ChatRoute.EmptyCompletionFallsBack | src/app/api/chat/route.ts:283-288 | a success with no or empty content answers 200 with the fixed fallback text |
| ChatRoute.CompletionRelayed | src/app/api/chat/route.ts:283-288 | non-empty content is relayed verbatim with the model `llama-3.3-70b-versatile` |
| ChatRoute.SkillsQuestionScenario | src/app/api/chat/route.ts:197-288 | a skills question with an empty history sends the system message and the question, and relays the stub completion with the model name |
| Agent.Project | src/components/ai-chatbot/portfolio-agent.tsx:246-249 | each message becomes its role name and content, one to one and in order |
| Agent.ProjectRoles | src/components/ai-chatbot/portfolio-agent.tsx:246-249 | every history entry has role `"user"` or `"assistant"` |
| Agent.SetFeedback | src/components/ai-chatbot/portfolio-agent.tsx:217-221 | the list keeps its length and order; exactly the messages with the id get the rating, and every other message is unchanged |
| Agent.FeedbackKeepsHistory | src/components/ai-chatbot/portfolio-agent.tsx:217-221 | rating changes no field but `feedback`, so the history built from the list is the same |
| Agent.FeedbackLastWins | src/components/ai-chatbot/portfolio-agent.tsx:217-221 | rating twice is rating with the second value; rating twice with the same value is rating once |
| Agent.FeedbackUnknownId | src/components/ai-chatbot/portfolio-agent.tsx:217-221 | rating an id no message has changes nothing |
| Agent.ClearStreaming | src/components/ai-chatbot/portfolio-agent.tsx:280-284 | the list keeps its length; exactly the messages with the id stop streaming, and every other message is unchanged |
| Agent.ClearStreamingIdempotent | src/components/ai-chatbot/portfolio-agent.tsx:701-703 | the timer and the completion callback both clear the flag; the second clear changes nothing |
| Agent.ClearStreamingKeepsHistory | src/components/ai-chatbot/portfolio-agent.tsx:280-284 | clearing the flag leaves the role-and-content projection unchanged |
| Agent.ClearStreamingCommutesWithFeedback | src/components/ai-chatbot/portfolio-agent.tsx:280-284 | clearing a flag and rating a message give the same list in either order |
| Agent.History | src/components/ai-chatbot/portfolio-agent.tsx:246-249 | the history has `min(10, n)` entries, and entry `i` is the role and content of message `n - min(10, n) + i` |
| Agent.HistoryIgnoresStreaming | src/components/ai-chatbot/portfolio-agent.tsx:280-284 | clearing a streaming flag does not change the next history |
| Agent.BeginSend | src/components/ai-chatbot/portfolio-agent.tsx:224-249 | a blank input or a pending reply changes nothing and sends nothing; otherwise exactly one user message with the trimmed input is appended, the input emptied, the typing flag set, the error cleared, and the history of the list as it was before is sent |
| Agent.SendErrorText | src/components/ai-chatbot/portfolio-agent.tsx:262-288 | a non-success status shows the body's `error` or "Failed to get response"; an exception shows its message |
| Agent.OutcomeOf | src/components/ai-chatbot/portfolio-agent.tsx:261-273 | the widget reads an answer exactly from a 200 reply carrying `response`, and takes it as the reply text; any other reply is a rejection carrying the body's `error` when there is one |
| Agent.Finish | src/components/ai-chatbot/portfolio-agent.tsx:262-300 | a reply is appended as a streaming assistant message; a failed send appends the fixed apology and shows the error; a failed suggestion or regeneration shows its fixed error and adds nothing; the typing flag is always cleared |
| Agent.ClearChat | src/components/ai-chatbot/portfolio-agent.tsx:310-313 | the list and the error are emptied; the input and typing flag stay |
| Agent.BeginSuggestion | src/components/ai-chatbot/portfolio-agent.tsx:315-336 | the whole list becomes the single query message, the typing flag is set, the error cleared, and the query is sent with an empty history |
| Agent.LastUser | src/components/ai-chatbot/portfolio-agent.tsx:371 | the index found holds a user message and no later message is the user's; none is found exactly when no message is the user's |
| Agent.BeginRegenerate | src/components/ai-chatbot/portfolio-agent.tsx:367-382 | fewer than two messages or no user message changes nothing; otherwise the final element is dropped, the typing flag set, and the last user message is re-sent with all but the last two messages as history |
| Agent.SendWhilePendingIgnored | src/components/ai-chatbot/portfolio-agent.tsx:225 | a second send while the first is pending is ignored, whatever the input |
| Agent.SendPassesValidation | src/components/ai-chatbot/portfolio-agent.tsx:251-260 | what the widget sends has a non-empty string message and only object history elements, so the endpoint never answers it with 400, and with a configured key the request reaches the completion service |
| Agent.SendShowsEndpointError | src/components/ai-chatbot/portfolio-agent.tsx:262-264 | every error reply of the endpoint, the limiter's 429 and the pipeline's 400 and 500s, is shown as it came, because none of its texts is empty |
| Agent.SendRoundTrip | src/components/ai-chatbot/portfolio-agent.tsx:224-300 | a completed send adds exactly two messages, the trimmed input and the reply or the apology, and leaves the earlier list unchanged |
| Agent.ExchangeReachesNextHistory | src/components/ai-chatbot/portfolio-agent.tsx:246-284 | after an answered send, the next history ends with the user's question and the answer |
| Agent.SuggestionStartsOver | src/components/ai-chatbot/portfolio-agent.tsx:315-364 | an answered suggestion leaves exactly the query and the answer, whatever the list held before |
| Agent.RegenerateReplacesAnswer | src/components/ai-chatbot/portfolio-agent.tsx:367-403 | after an ordinary exchange the question is re-asked without the old answer in list or history, and a new answer takes the old one's place |
| Agent.RegenerateAfterUserMessage | src/components/ai-chatbot/portfolio-agent.tsx:367-382 | when the list ends with a user message, that message is dropped from the list and re-asked, and the message before it is left out of the history |
| Agent.RegenerateDropsAtMostOne | src/components/ai-chatbot/portfolio-agent.tsx:368-375 | a regeneration that sends drops exactly the final element; one that does not send changes nothing |
| Agent.ChunkSize | src/components/ai-chatbot/portfolio-agent.tsx:100 | a chunk is 1 to 3 characters, never passes the end, and is shorter than 3 only at the end |
| Agent.IndexAfter | src/components/ai-chatbot/portfolio-agent.tsx:96-108 | after `k` ticks the reveal index is `min(index + 3k, length)` |
| Agent.TicksToEnd | src/components/ai-chatbot/portfolio-agent.tsx:96-108 | `ceil((length - index) / 3)` ticks reach the end, and one tick fewer does not |
| Agent.StreamingText.constructor | src/components/ai-chatbot/portfolio-agent.tsx:93-94 | the reveal starts at index 0 with nothing shown |
| Agent.StreamingText.Step | src/components/ai-chatbot/portfolio-agent.tsx:96-108 | before the end a tick advances the index by `min(3, length - index)`, and the shown text is always `text[..index]`; at the end the completion callback runs |
| Agent.StreamingText.Run | src/components/ai-chatbot/portfolio-agent.tsx:96-108 | the reveal ends after `ceil((length - index) / 3)` ticks with the whole text shown and the callback run |

## Left out

- Network and I/O: `fetch`, JSON parsing, response serialisation and logging are not modelled. The upstream outcome, the parsed body and the reply are data.
- The `GET` status endpoint is not modelled: it returns a constant.
- The clock: `Date.now()` is the parameter `now`. Message ids and timestamps that derive from it are parameters or are dropped.
- Concurrency: the model is sequential. Interleaved requests on the rate-limit map, and overlapping widget round trips, are not modelled beyond `Finish` applying to whatever state it is given.
- The sampling parameters of the upstream request (`temperature`, `max_tokens`, `top_p`) are not modelled. The model name is kept.
- Timers, animations, focus and scroll handling, clipboard copy, textarea resizing and the random thinking delay of the offline widget are not modelled.
- The portfolio knowledge text `portfolioContext` is a parameter (`Config.context`), not the literal.
- `Text.Lower` models `toLowerCase` on ASCII letters only. Other letters are left as they are.
- `ChatRoute.Respond` takes only the role and content of history entries as given. Other fields a client might put in an entry are not modelled; such fields would be dropped by the source's `map`.
- `ChatRoute.Respond` takes a history element to be an object or `null`. A number, string or boolean element does not throw at `msg.role`; the source then sends an entry without `role` and `content`, which the model does not express.
- `ChatRoute.Respond` takes every object history element to carry a string `role` and a string `content`. An object without them, or with a non-string value, is forwarded by the source as an entry without that field or with that value; the model's `Entry(Turn(role, content))` cannot express it.
- `StringUtils.Truncate`: lengths and indices are counted in Unicode code points, as Dafny's `seq<char>` counts them, while JavaScript's `length` and `substring` count UTF-16 code units. A character outside the Basic Multilingual Plane (an emoji, say) counts as two in the source, so the source can cut it in half (`truncate("👋", 1)` is a lone surrogate followed by `...`) where the model keeps it whole.
- `StringUtils.Truncate`: the `length` parameter is an integer. A fractional or `NaN` length, which `substring` would truncate toward zero or read as 0, is not modelled.
- `Agent.StreamingText`: `text.length` and `text.slice` are counted in code points, not UTF-16 code units. For a reply with characters outside the Basic Multilingual Plane the source takes more ticks and may show half a surrogate pair for one tick; `Agent.ChunkSize`, `Agent.IndexAfter` and `Agent.TicksToEnd` count code points.
- `Agent.SendErrorText` models a thrown non-`Error` value, shown as "Something went wrong" in the source, as an exception whose message is that text. It is not a separate case.
- `Agent.StreamingText.Run` models each re-run of the effect as one `Step`. The callback may fire again on later renders; the model records only that it has fired.
- The offline widget's submit and suggested-question handlers are not modelled beyond `Responder.GenerateResponse`. Their list appends and input updates are not modelled.
