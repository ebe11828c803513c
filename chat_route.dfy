/** The chat proxy endpoint (src/app/api/chat/route.ts): the per-key fixed-window rate limiter,
    the `POST` pipeline that validates a request, assembles the prompt and maps the upstream result. */
module ChatRoute {
  import opened Wrappers
  import opened Lists
  import opened ChatTypes
  import opened Text

  // ---------------------------------------------------------------- rate limiting

  /** `RATE_LIMIT`: requests allowed per key and window. */
  const RateLimit: int := 30
  /** `WINDOW_MS`: the window length in milliseconds. */
  const WindowMs: int := 60 * 1000

  /** One entry of `rateLimitMap`: the calls counted in the current window and when it ends. */
  datatype Record = Record(count: int, resetTime: int)

  /** Every stored count lies between 1 and the limit. */
  ghost predicate CountsInRange(records: map<string, Record>) {
    forall k :: k in records ==> 1 <= records[k].count <= RateLimit
  }

  /** The window of `ip` is still running at `now`: a record exists and `now` is not past its end. */
  predicate InWindow(records: map<string, Record>, ip: string, now: int) {
    ip in records && now <= records[ip].resetTime
  }

  /** `checkRateLimit(ip)` at time `now`, as a function of the map: the decision and the new map. */
  function Check(records: map<string, Record>, ip: string, now: int): (r: (bool, map<string, Record>))
    // allowed exactly when the window is missing or expired, or still below the limit
    ensures r.0 <==> !InWindow(records, ip, now) || records[ip].count < RateLimit
    // a denied call changes nothing; an allowed one leaves the key with a record
    ensures !r.0 ==> r.1 == records
    ensures ip in r.1
    ensures !InWindow(records, ip, now) ==> r.1[ip] == Record(1, now + WindowMs)
    ensures InWindow(records, ip, now) && r.0 ==> r.1[ip] == Record(records[ip].count + 1, records[ip].resetTime)
    // no other key is added, removed or changed
    ensures forall k :: k != ip ==> (k in r.1 <==> k in records)
    ensures forall k :: k != ip && k in r.1 ==> r.1[k] == records[k]
  {
    if !InWindow(records, ip, now) then (true, records[ip := Record(1, now + WindowMs)])
    else if records[ip].count >= RateLimit then (false, records)
    else (true, records[ip := records[ip].(count := records[ip].count + 1)])
  }

  /** The module-level `rateLimitMap` with its `checkRateLimit` operation; the clock is a parameter. */
  class RateLimiter {
    var records: map<string, Record>

    ghost predicate Valid()
      reads this
    {
      CountsInRange(records)
    }

    constructor ()
      ensures Valid() && records == map[]
    {
      records := map[];
    }

    /** `checkRateLimit(ip)` with `Date.now()` passed in as `now`. */
    method CheckRateLimit(ip: string, now: int) returns (allowed: bool)
      requires Valid()
      modifies this
      ensures Valid()
      ensures (allowed, records) == Check(old(records), ip, now)
      // a missing or expired window (strictly past its end) opens a new one and allows the call
      ensures !InWindow(old(records), ip, now) ==> allowed && records == old(records)[ip := Record(1, now + WindowMs)]
      // inside the window, at the limit: denied, and nothing changes
      ensures InWindow(old(records), ip, now) && old(records)[ip].count >= RateLimit ==> !allowed && records == old(records)
      // inside the window, below the limit: allowed, one more call counted, same window end
      ensures InWindow(old(records), ip, now) && old(records)[ip].count < RateLimit ==>
        allowed && ip in records && records[ip] == Record(old(records)[ip].count + 1, old(records)[ip].resetTime)
      // no other key is added, removed or changed
      ensures ip in records
      ensures forall k :: k != ip ==> (k in records <==> k in old(records))
      ensures forall k :: k != ip && k in records ==> records[k] == old(records)[k]
    {
      var record := if ip in records then Some(records[ip]) else None;
      if record.None? || now > record.value.resetTime {
        records := records[ip := Record(1, now + WindowMs)];
        return true;
      }
      if record.value.count >= RateLimit {
        return false;
      }
      records := records[ip := record.value.(count := record.value.count + 1)];
      return true;
    }
  }

  /** Every step keeps the stored counts between 1 and the limit. */
  lemma CheckKeepsCountsInRange(records: map<string, Record>, ip: string, now: int)
    requires CountsInRange(records)
    ensures CountsInRange(Check(records, ip, now).1)
  {
  }

  /** Successive calls from one key at the given times: the decision for each, and the final map. */
  function Replay(records: map<string, Record>, ip: string, times: seq<int>): (r: (seq<bool>, map<string, Record>))
    ensures |r.0| == |times|
    decreases |times|
  {
    if times == [] then ([], records)
    else
      var (allowed, next) := Check(records, ip, times[0]);
      var (rest, final) := Replay(next, ip, times[1..]);
      ([allowed] + rest, final)
  }

  /** Inside a running window that has counted `c` calls, call number `i` is allowed exactly when
      `c + i` is still below the limit. */
  lemma {:induction false} ReplayInWindow(records: map<string, Record>, ip: string, times: seq<int>, c: int, end: int)
    requires ip in records && records[ip] == Record(c, end) && 1 <= c
    requires forall i :: 0 <= i < |times| ==> times[i] <= end
    ensures forall i :: 0 <= i < |times| ==> Replay(records, ip, times).0[i] == (c + i < RateLimit)
    decreases |times|
  {
    if times != [] {
      var (allowed, next) := Check(records, ip, times[0]);
      assert allowed == (c < RateLimit);
      var c' := if c < RateLimit then c + 1 else c;
      assert next[ip] == Record(c', end);
      ReplayInWindow(next, ip, times[1..], c', end);
      var r := Replay(records, ip, times).0;
      assert r == [allowed] + Replay(next, ip, times[1..]).0;
      forall i | 1 <= i < |times| ensures r[i] == (c + i < RateLimit) {
        assert r[i] == Replay(next, ip, times[1..]).0[i - 1];
      }
    }
  }

  /** Fixed window: when a call opens a new window, that call and the 29 after it within the window
      are allowed, and every later call within the window is denied. */
  lemma WindowAdmitsThirty(records: map<string, Record>, ip: string, times: seq<int>)
    requires times != [] && !InWindow(records, ip, times[0])
    requires forall i :: 0 <= i < |times| ==> times[i] <= times[0] + WindowMs
    ensures forall i :: 0 <= i < |times| ==> Replay(records, ip, times).0[i] == (i < RateLimit)
  {
    var (allowed, next) := Check(records, ip, times[0]);
    ReplayInWindow(next, ip, times[1..], 1, times[0] + WindowMs);
    var r := Replay(records, ip, times).0;
    forall i | 1 <= i < |times| ensures r[i] == (i < RateLimit) {
      assert r[i] == Replay(next, ip, times[1..]).0[i - 1];
    }
  }

  /** Calls from one key never add, remove or change the record of another key. */
  lemma {:induction false} ReplayLeavesOtherKeys(records: map<string, Record>, ip: string, other: string, times: seq<int>)
    requires other != ip
    ensures other in Replay(records, ip, times).1 <==> other in records
    ensures other in records ==> Replay(records, ip, times).1[other] == records[other]
    decreases |times|
  {
    if times != [] {
      ReplayLeavesOtherKeys(Check(records, ip, times[0]).1, ip, other, times[1..]);
    }
  }

  // ---------------------------------------------------------------- the request

  /** The `x-forwarded-for` header, or `"anonymous"` when it is absent or empty. */
  function ClientKey(forwardedFor: Option<string>): (key: string)
    ensures forwardedFor.Some? && forwardedFor.value != "" ==> key == forwardedFor.value
    ensures forwardedFor.None? || forwardedFor.value == "" ==> key == "anonymous"
  {
    if forwardedFor.Some? && forwardedFor.value != "" then forwardedFor.value else "anonymous"
  }

  /** The `message` field of the JSON body. */
  datatype MessageField = Missing | Text(text: string) | NotText

  /** One element of a `conversationHistory` array: an object with `role` and `content`, or `null`,
      on which `msg.role` throws. */
  datatype Entry = Entry(turn: Turn) | NullEntry

  /** The `conversationHistory` field of the JSON body: absent (the default `[]` applies), an array,
      or any other value (`null`, a string, an object), on which `slice(...).map` throws. */
  datatype HistoryField = Absent | List(entries: seq<Entry>) | NotAList

  /** The request body. `Unparsable` is any body on which reading throws before validation: text
      that is not JSON, or the JSON value `null`, which the destructuring rejects. Every other JSON
      value is a `Json` with its two fields; a number or an array has neither, so it is
      `Json(Missing, Absent)`. */
  datatype RequestBody = Unparsable | Json(message: MessageField, history: HistoryField)

  datatype Request = Request(forwardedFor: Option<string>, body: RequestBody)

  /** What the process environment and the module constants supply: `GROQ_API_KEY` and the
      biographical knowledge text `portfolioContext`. */
  datatype Config = Config(apiKey: Option<string>, context: string)

  /** The outcome of the single `fetch` to the completion service: a non-success status with its
      body, a success whose first choice may carry content, or an exception (network failure,
      unreadable body). */
  datatype Upstream = NotOk(errorBody: string) | Ok(content: Option<string>) | Threw

  datatype ResponseBody = Answer(response: string, model: string) | Error(error: string)

  /** The HTTP reply; `called` records whether the completion service was contacted. */
  datatype Reply = Reply(status: int, body: ResponseBody, called: bool)

  const ModelId: string := "llama-3.3-70b-versatile"
  const RateLimitedError: string := "Rate limit exceeded. Please wait a moment before sending more messages."
  const InvalidMessageError: string := "Invalid message format"
  const MissingKeyError: string := "API key not configured. Please add GROQ_API_KEY to environment variables."
  const GenerationFailedError: string := "Failed to generate response. Please try again."
  const UnexpectedError: string := "An unexpected error occurred. Please try again."
  const NoContentFallback: string := "I apologize, but I couldn't generate a response. Please try again."

  // ---------------------------------------------------------------- the prompt

  const PromptHead: string := @"You are Sreeshanth's AI Portfolio Assistant - a chill, helpful assistant that answers questions about Sreeshanth Peddi.

IMPORTANT INSTRUCTIONS:
1. Keep responses SHORT and CASUAL - no hype, no over-explaining
2. Don't oversell or exaggerate achievements - just state facts simply
3. Be direct and to the point - no marketing language
4. If this is the start of a conversation (first message like ""hi"", ""hello"", ""hey""), ALWAYS ask who they are first (recruiter, student, developer, etc.) before giving info
5. Use simple language, avoid corporate speak
6. Answer only what's asked - don't dump all information at once
7. You ONLY know about Sreeshanth from the context below
8. If asked something not in portfolio, just say you don't have that info
9. Use markdown formatting sparingly - keep it readable
10. When linking GitHub repos, use markdown format: [repo](url)

PORTFOLIO CONTEXT:
"

  const PromptTail: string := @"

Remember: Be helpful but chill. No need to impress - just be genuine and direct."

  /** The system prompt: fixed instructions, the knowledge text verbatim, a closing line. */
  function SystemPrompt(context: string): (r: string)
    ensures OccursAt(r, context, |PromptHead|)
  {
    Framed(PromptHead, context, PromptTail);
    PromptHead + context + PromptTail
  }

  /** The knowledge text appears in the system prompt verbatim, right after the fixed instructions,
      and the closing line follows it. */
  lemma SystemPromptEmbedsContext(context: string)
    ensures SystemPrompt(context)[..|PromptHead|] == PromptHead
    ensures OccursAt(SystemPrompt(context), context, |PromptHead|)
    ensures SystemPrompt(context)[|PromptHead| + |context|..] == PromptTail
  {
    var r := SystemPrompt(context);
    assert r == PromptHead + context + PromptTail;
    Framed(PromptHead, context, PromptTail);
  }

  lemma Framed(a: string, b: string, c: string)
    ensures (a + b + c)[..|a|] == a
    ensures OccursAt(a + b + c, b, |a|)
    ensures (a + b + c)[|a + b|..] == c
  {
    assert (a + b + c)[|a|..|a| + |b|] == b;
  }

  /** The number of history turns kept: `slice(-10)`. */
  const HistoryWindow: nat := 10

  /** Every element is an object, so reading `msg.role` does not throw. */
  predicate NoNull(es: seq<Entry>) {
    forall i :: 0 <= i < |es| ==> es[i].Entry?
  }

  /** The elements `slice(-10)` keeps are all objects, so the `map` after it does not throw. */
  predicate RecentNoNull(history: seq<Entry>) {
    NoNull(TakeLast(history, HistoryWindow))
  }

  /** `.map((msg) => ({ role: msg.role, content: msg.content }))` over objects only. */
  function MapEntries(es: seq<Entry>): (r: seq<Turn>)
    requires NoNull(es)
    ensures |r| == |es|
    ensures forall i :: 0 <= i < |es| ==> Entry(r[i]) == es[i]
  {
    if es == [] then [] else [es[0].turn] + MapEntries(es[1..])
  }

  /** A list of well-formed turns as history array elements. */
  function AsEntries(turns: seq<Turn>): (r: seq<Entry>)
    ensures |r| == |turns|
    ensures forall i :: 0 <= i < |turns| ==> r[i] == Entry(turns[i])
    ensures NoNull(r)
  {
    if turns == [] then [] else [Entry(turns[0])] + AsEntries(turns[1..])
  }

  /** The message list sent upstream: system message, the last ten history turns, the new message. */
  function Prompt(context: string, history: seq<Entry>, message: string): (p: seq<Turn>)
    requires RecentNoNull(history)
    ensures |p| == 2 + if |history| <= HistoryWindow then |history| else HistoryWindow
    ensures p[0] == Turn("system", SystemPrompt(context))
    ensures p[|p| - 1] == Turn("user", message)
  {
    [Turn("system", SystemPrompt(context))] + MapEntries(TakeLast(history, HistoryWindow)) + [Turn("user", message)]
  }

  /** The prompt has `2 + min(10, |history|)` entries: the system message embedding the knowledge
      text, the most recent history turns in their original order, and the user's message last. */
  lemma PromptShape(context: string, history: seq<Entry>, message: string)
    requires RecentNoNull(history)
    ensures var p := Prompt(context, history, message);
      var kept := if |history| <= HistoryWindow then |history| else HistoryWindow;
      && |p| == 2 + kept
      && p[0].role == "system"
      && Contains(p[0].content, context)
      && AsEntries(p[1..1 + kept]) == history[|history| - kept..]
      && p[|p| - 1] == Turn("user", message)
  {
    ContainsIff(SystemPrompt(context), context);
    var p := Prompt(context, history, message);
    var recent := TakeLast(history, HistoryWindow);
    var mid := MapEntries(recent);
    assert p[1..1 + |recent|] == mid;
    assert AsEntries(mid) == recent by {
      assert forall i :: 0 <= i < |mid| ==> AsEntries(mid)[i] == recent[i];
    }
    assert recent == history[|history| - |recent|..] by {
      assert forall i :: 0 <= i < |recent| ==> recent[i] == history[|history| - |recent|..][i];
    }
  }

  /** The elements before the last ten are never read: they may be anything, `null` included. */
  lemma OlderEntriesIgnored(context: string, older: seq<Entry>, recent: seq<Entry>, message: string)
    requires |recent| == HistoryWindow && NoNull(recent)
    ensures RecentNoNull(older + recent)
    ensures Prompt(context, older + recent, message) == Prompt(context, recent, message)
  {
    var all := older + recent;
    assert TakeLast(all, HistoryWindow) == TakeLast(recent, HistoryWindow) by {
      assert forall i :: 0 <= i < HistoryWindow ==> TakeLast(all, HistoryWindow)[i] == all[|older| + i];
    }
  }

  // ---------------------------------------------------------------- the pipeline

  const TooManyRequests: Reply := Reply(429, Error(RateLimitedError), false)

  /** `!message || typeof message !== "string"` fails exactly for these. */
  predicate IsValidMessage(m: MessageField) {
    m.Text? && m.text != ""
  }

  /** `conversationHistory = []` as the default: an absent history is an empty one. */
  function HistoryEntries(history: HistoryField): (es: seq<Entry>)
    ensures history.List? ==> es == history.entries
    ensures history.Absent? ==> es == []
  {
    if history.List? then history.entries else []
  }

  /** `!groqApiKey`: unset or empty. */
  predicate HasApiKey(config: Config) {
    config.apiKey.Some? && config.apiKey.value != ""
  }

  /** The history is an array, or absent, and its last ten elements can be mapped. */
  predicate HistoryUsable(history: HistoryField) {
    !history.NotAList? && RecentNoNull(HistoryEntries(history))
  }

  /** The request gets as far as the `fetch`: the body parses, the message is a non-empty string,
      the key is configured, and the history can be sliced and mapped. */
  predicate ReachesUpstream(body: RequestBody, config: Config) {
    body.Json? && IsValidMessage(body.message) && HasApiKey(config) && HistoryUsable(body.history)
  }

  /** The message list POSTed to the completion service, or `None` when the pipeline stops earlier. */
  function Outgoing(body: RequestBody, config: Config): (sent: Option<seq<Turn>>)
    ensures sent.Some? <==> ReachesUpstream(body, config)
  {
    if ReachesUpstream(body, config) then Some(Prompt(config.context, HistoryEntries(body.history), body.message.text))
    else None
  }

  /** The reply built from the upstream outcome; the upstream error body is logged, never returned. */
  function MapUpstream(upstream: Upstream): (r: Reply)
    ensures r.called
    ensures r.status == 200 <==> upstream.Ok?
  {
    match upstream
    case NotOk(_) => Reply(500, Error(GenerationFailedError), true)
    case Threw => Reply(500, Error(UnexpectedError), true)
    case Ok(content) =>
      if content.None? || content.value == "" then Reply(200, Answer(NoContentFallback, ModelId), true)
      else Reply(200, Answer(content.value, ModelId), true)
  }

  /** Everything `POST` does after the rate limiter let the request through. */
  function Respond(body: RequestBody, config: Config, upstream: Upstream): (r: Reply)
    ensures r.status in {200, 400, 500}
    ensures r.status == 200 <==> r.body.Answer?
    ensures r.body.Answer? ==> r.body.model == ModelId
    ensures r.called <==> ReachesUpstream(body, config)
  {
    match body
    case Unparsable => Reply(500, Error(UnexpectedError), false)
    case Json(message, history) =>
      if !IsValidMessage(message) then Reply(400, Error(InvalidMessageError), false)
      else if !HasApiKey(config) then Reply(500, Error(MissingKeyError), false)
      else if !HistoryUsable(history) then Reply(500, Error(UnexpectedError), false)
      else MapUpstream(upstream)
  }

  /** `POST /api/chat`: derive the key, consult the limiter, then validate, call upstream and map.
      `sent` is the message list of the `fetch`, when one is made. */
  method Post(limiter: RateLimiter, request: Request, now: int, config: Config, upstream: Upstream)
    returns (reply: Reply, sent: Option<seq<Turn>>)
    requires limiter.Valid()
    modifies limiter
    ensures limiter.Valid()
    // the slot is taken before the body is looked at, so an invalid request uses one up as well
    ensures limiter.records == Check(old(limiter.records), ClientKey(request.forwardedFor), now).1
    ensures Check(old(limiter.records), ClientKey(request.forwardedFor), now).0 ==>
              reply == Respond(request.body, config, upstream) && sent == Outgoing(request.body, config)
    ensures !Check(old(limiter.records), ClientKey(request.forwardedFor), now).0 ==>
              reply == TooManyRequests && sent.None?
  {
    var ip := ClientKey(request.forwardedFor);
    var allowed := limiter.CheckRateLimit(ip, now);
    if !allowed {
      return TooManyRequests, None;
    }
    reply := Respond(request.body, config, upstream);
    sent := Outgoing(request.body, config);
  }

  // ---------------------------------------------------------------- properties of the pipeline

  /** A parsed body gets 400 exactly when its message is missing, empty or not a string, and then
      the completion service is not called. */
  lemma BadRequestIffInvalidMessage(message: MessageField, history: HistoryField, config: Config, upstream: Upstream)
    ensures Respond(Json(message, history), config, upstream).status == 400 <==> !IsValidMessage(message)
    ensures !IsValidMessage(message) ==> Outgoing(Json(message, history), config).None?
  {
  }

  /** With a valid message but no API key the reply is the configuration error, without an upstream call. */
  lemma MissingKeyIsConfigError(message: MessageField, history: HistoryField, config: Config, upstream: Upstream)
    requires IsValidMessage(message) && !HasApiKey(config)
    ensures Respond(Json(message, history), config, upstream) == Reply(500, Error(MissingKeyError), false)
    ensures Outgoing(Json(message, history), config).None?
  {
  }

  /** A body that does not parse, or, for a valid message with the key set, a history that is not
      an array or has a `null` among its last ten elements, ends in the catch-all 500, and nothing
      is sent. An invalid message gets its 400 and a missing key its 500 before the history is read. */
  lemma MalformedBodyIsUnexpected(body: RequestBody, config: Config, upstream: Upstream)
    requires body.Unparsable? || (IsValidMessage(body.message) && HasApiKey(config) && !HistoryUsable(body.history))
    ensures Respond(body, config, upstream) == Reply(500, Error(UnexpectedError), false)
    ensures Outgoing(body, config).None?
  {
  }

  /** One `null` among the last ten history elements is enough to stop the request before the `fetch`. */
  lemma NullEntryIsUnexpected(message: string, older: seq<Entry>, newer: seq<Entry>, config: Config, upstream: Upstream)
    requires message != "" && HasApiKey(config) && |newer| < HistoryWindow
    ensures var body := Json(Text(message), List(older + [NullEntry] + newer));
      Respond(body, config, upstream) == Reply(500, Error(UnexpectedError), false) && Outgoing(body, config).None?
  {
    var es := older + [NullEntry] + newer;
    var recent := TakeLast(es, HistoryWindow);
    assert recent[|recent| - |newer| - 1] == es[|older|];
  }

  /** A request that passes validation and configuration sends exactly the assembled prompt, with an
      absent history read as an empty one. */
  lemma ValidRequestSendsPrompt(message: string, history: HistoryField, config: Config)
    requires message != "" && HasApiKey(config) && HistoryUsable(history)
    ensures Outgoing(Json(Text(message), history), config)
            == Some(Prompt(config.context, HistoryEntries(history), message))
  {
    assert ReachesUpstream(Json(Text(message), history), config);
  }

  /** When no upstream call is made, the reply does not depend on what the upstream would have answered. */
  lemma NoCallNoDependence(body: RequestBody, config: Config, u1: Upstream, u2: Upstream)
    requires !ReachesUpstream(body, config)
    ensures Respond(body, config, u1) == Respond(body, config, u2)
  {
  }

  /** A failing upstream gives the fixed generic 500 whatever its error body said: nothing is echoed. */
  lemma UpstreamErrorNotEchoed(body: RequestBody, config: Config, e1: string, e2: string)
    ensures Respond(body, config, NotOk(e1)) == Respond(body, config, NotOk(e2))
    ensures ReachesUpstream(body, config) ==> Respond(body, config, NotOk(e1)) == Reply(500, Error(GenerationFailedError), true)
  {
  }

  /** A `fetch` that throws, or a success body that cannot be read, ends in the catch-all 500. */
  lemma UpstreamFailureIsUnexpected(body: RequestBody, config: Config)
    requires ReachesUpstream(body, config)
    ensures Respond(body, config, Threw) == Reply(500, Error(UnexpectedError), true)
  {
  }

  /** A success without usable content still answers 200, with the fixed fallback text. */
  lemma EmptyCompletionFallsBack(body: RequestBody, config: Config, content: Option<string>)
    requires ReachesUpstream(body, config)
    requires content.None? || content.value == ""
    ensures Respond(body, config, Ok(content)) == Reply(200, Answer(NoContentFallback, ModelId), true)
  {
  }

  /** A completion is relayed verbatim, with the model name. */
  lemma CompletionRelayed(body: RequestBody, config: Config, content: string)
    requires ReachesUpstream(body, config) && content != ""
    ensures Respond(body, config, Ok(Some(content))) == Reply(200, Answer(content, ModelId), true)
  {
  }

  /** Fifteen history turns: the prompt holds exactly the last ten of them, between the system
      message and the new user message. */
  lemma FifteenTurnsKeepLastTen(context: string, history: seq<Turn>, message: string)
    requires |history| == 15
    ensures RecentNoNull(AsEntries(history))
    ensures Prompt(context, AsEntries(history), message)[1..11] == history[5..]
    ensures |Prompt(context, AsEntries(history), message)| == 12
  {
    var es := AsEntries(history);
    var recent := TakeLast(es, HistoryWindow);
    assert |recent| == 10;
    var mid := MapEntries(recent);
    var p := Prompt(context, es, message);
    assert p[1..11] == mid;
    forall i | 0 <= i < 10 ensures mid[i] == history[5..][i] {
      assert Entry(mid[i]) == recent[i] == es[5 + i];
    }
    assert mid == history[5..];
  }

  /** The end-to-end example: a skills question with an empty history and a stub completion. */
  lemma SkillsQuestionScenario(config: Config)
    requires HasApiKey(config)
    ensures Respond(Json(Text("What are his skills?"), List([])), config, Ok(Some("Python, AI/ML, Full Stack"))).body
            == Answer("Python, AI/ML, Full Stack", "llama-3.3-70b-versatile")
    ensures Outgoing(Json(Text("What are his skills?"), List([])), config)
            == Some([Turn("system", SystemPrompt(config.context)), Turn("user", "What are his skills?")])
  {
    assert ReachesUpstream(Json(Text("What are his skills?"), List([])), config);
    CompletionRelayed(Json(Text("What are his skills?"), List([])), config, "Python, AI/ML, Full Stack");
    ValidRequestSendsPrompt("What are his skills?", List([]), config);
    PromptWithoutHistory(config.context, "What are his skills?");
  }

  /** With no history the prompt is just the system message and the user's message. */
  lemma PromptWithoutHistory(context: string, message: string)
    ensures Prompt(context, [], message) == [Turn("system", SystemPrompt(context)), Turn("user", message)]
  {
  }
}
