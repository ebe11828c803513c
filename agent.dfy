/** The message-list logic of the full chat widget (src/components/ai-chatbot/portfolio-agent.tsx):
    feedback, sending with history, clearing, suggestions, regenerating, the streaming flag, and the
    chunked reveal of a reply. The React state setters are modelled as functions from the widget state
    to the new state; the network round trip is split into a `Begin...` step, which yields the request
    body, and `Finish`, which folds the outcome into whatever the state is by then. */
module Agent {
  import opened Wrappers
  import opened Text
  import opened Lists
  import opened ChatTypes
  import ChatRoute

  // ---------------------------------------------------------------- messages

  datatype Feedback = Positive | Negative

  /** A message of the widget; an absent `feedback` is `None`, an absent `isStreaming` is `false`.
      The timestamp is display-only and not modelled. */
  datatype Message = Message(id: string, role: Role, content: string, feedback: Option<Feedback>, isStreaming: bool)

  /** The `{ role, content }` form of a message that goes into a request's history. */
  function ToTurn(m: Message): Turn {
    Turn(RoleName(m.role), m.content)
  }

  /** `.map(msg => ({ role: msg.role, content: msg.content }))`. */
  function Project(ms: seq<Message>): (h: seq<Turn>)
    ensures |h| == |ms|
    ensures forall i :: 0 <= i < |ms| ==> h[i] == ToTurn(ms[i])
  {
    if ms == [] then [] else [ToTurn(ms[0])] + Project(ms[1..])
  }

  /** Every history entry carries one of the two role names. */
  lemma ProjectRoles(ms: seq<Message>)
    ensures forall t :: t in Project(ms) ==> t.role == "user" || t.role == "assistant"
  {
  }

  /** `handleFeedback(id, f)`: `prev.map(msg => msg.id === id ? { ...msg, feedback } : msg)`. */
  function SetFeedback(ms: seq<Message>, id: string, f: Feedback): (r: seq<Message>)
    ensures |r| == |ms|
    ensures forall i :: 0 <= i < |ms| ==> r[i] == if ms[i].id == id then ms[i].(feedback := Some(f)) else ms[i]
  {
    if ms == [] then [] else [if ms[0].id == id then ms[0].(feedback := Some(f)) else ms[0]] + SetFeedback(ms[1..], id, f)
  }

  /** Feedback touches nothing a request can see: ids, roles, contents and streaming flags stay, so the
      history built from the list is the same. */
  lemma FeedbackKeepsHistory(ms: seq<Message>, id: string, f: Feedback)
    ensures Project(SetFeedback(ms, id, f)) == Project(ms)
    ensures forall i :: 0 <= i < |ms| ==> SetFeedback(ms, id, f)[i].(feedback := ms[i].feedback) == ms[i]
  {
  }

  /** The rating of every message with the given id is exactly the last one given. */
  lemma FeedbackLastWins(ms: seq<Message>, id: string, f: Feedback, g: Feedback)
    ensures SetFeedback(SetFeedback(ms, id, f), id, g) == SetFeedback(ms, id, g)
    ensures SetFeedback(SetFeedback(ms, id, f), id, f) == SetFeedback(ms, id, f)
  {
    var a, b := SetFeedback(SetFeedback(ms, id, f), id, g), SetFeedback(ms, id, g);
    assert forall i :: 0 <= i < |ms| ==> a[i] == b[i];
  }

  /** Rating an id that no message has changes nothing. */
  lemma FeedbackUnknownId(ms: seq<Message>, id: string, f: Feedback)
    requires forall i :: 0 <= i < |ms| ==> ms[i].id != id
    ensures SetFeedback(ms, id, f) == ms
  {
  }

  /** `prev.map(msg => msg.id === id ? { ...msg, isStreaming: false } : msg)`, run by the delayed timer
      and by the streaming component's completion callback. */
  function ClearStreaming(ms: seq<Message>, id: string): (r: seq<Message>)
    ensures |r| == |ms|
    ensures forall i :: 0 <= i < |ms| ==> r[i] == if ms[i].id == id then ms[i].(isStreaming := false) else ms[i]
  {
    if ms == [] then [] else [if ms[0].id == id then ms[0].(isStreaming := false) else ms[0]] + ClearStreaming(ms[1..], id)
  }

  /** Both clearers may fire for the same reply: the second one changes nothing. */
  lemma ClearStreamingIdempotent(ms: seq<Message>, id: string)
    ensures ClearStreaming(ClearStreaming(ms, id), id) == ClearStreaming(ms, id)
  {
    var a, b := ClearStreaming(ClearStreaming(ms, id), id), ClearStreaming(ms, id);
    assert forall i :: 0 <= i < |ms| ==> a[i] == b[i];
  }

  /** Clearing the flag changes nothing a request can see. */
  lemma ClearStreamingKeepsHistory(ms: seq<Message>, id: string)
    ensures Project(ClearStreaming(ms, id)) == Project(ms)
  {
    var a, b := Project(ClearStreaming(ms, id)), Project(ms);
    assert forall i :: 0 <= i < |ms| ==> a[i] == b[i];
  }

  /** Clearing the flag and rating a message do not interfere, in whichever order they happen. */
  lemma ClearStreamingCommutesWithFeedback(ms: seq<Message>, id: string, rated: string, f: Feedback)
    ensures ClearStreaming(SetFeedback(ms, rated, f), id) == SetFeedback(ClearStreaming(ms, id), rated, f)
  {
    var a, b := ClearStreaming(SetFeedback(ms, rated, f), id), SetFeedback(ClearStreaming(ms, id), rated, f);
    assert forall i :: 0 <= i < |ms| ==> a[i] == b[i];
  }

  // ---------------------------------------------------------------- the widget state

  /** The state `handleSend` and friends work on. */
  datatype Widget = Widget(messages: seq<Message>, input: string, isTyping: bool, error: Option<string>)

  /** The JSON body the widget POSTs to the chat endpoint. */
  datatype ChatRequest = ChatRequest(message: string, history: seq<Turn>)

  /** Which handler started the round trip; each reports failure differently. */
  datatype Origin = FromSend | FromSuggestion | FromRegenerate

  /** How the round trip ended: a success carrying the `response` field; a non-success status
      carrying the `error` field of its JSON body, if any; or an exception with its message. */
  datatype Outcome = Answered(response: string) | Rejected(error: Option<string>) | Broken(reason: string)

  const HistoryLimit: nat := 10
  const SendApology: string := "I apologize, but I encountered an error. Please try again or ask a different question."
  const SendFallbackError: string := "Failed to get response"
  const SuggestionError: string := "Failed to get response. Please try again."
  const RegenerateError: string := "Failed to regenerate. Please try again."

  /** `messages.slice(-10)` reduced to role and content: the last `min(10, n)` messages of the
      list, each as its role and content, in their original order. */
  function History(ms: seq<Message>): (h: seq<Turn>)
    ensures |h| == if |ms| <= HistoryLimit then |ms| else HistoryLimit
    ensures forall i :: 0 <= i < |h| ==> h[i] == ToTurn(ms[|ms| - |h| + i])
  {
    var recent := TakeLast(ms, HistoryLimit);
    var h := Project(recent);
    assert forall i :: 0 <= i < |h| ==> h[i] == ToTurn(recent[i]);
    h
  }

  function UserMessage(id: string, content: string): Message {
    Message(id, User, content, None, false)
  }

  /** The first half of `handleSend`: ignored for a blank input or while a reply is pending; otherwise
      the trimmed input is appended as a user message, the input is emptied, the typing flag set,
      the error cleared, and the request carries the history of the list as it was before. */
  function BeginSend(w: Widget, userId: string): (r: (Widget, Option<ChatRequest>))
    ensures Trim(w.input) == [] || w.isTyping ==> r == (w, None)
    ensures Trim(w.input) != [] && !w.isTyping ==>
      && r.0 == Widget(w.messages + [UserMessage(userId, Trim(w.input))], "", true, None)
      && r.1 == Some(ChatRequest(Trim(w.input), History(w.messages)))
  {
    var text := Trim(w.input);
    if text == [] || w.isTyping then (w, None)
    else (Widget(w.messages + [UserMessage(userId, text)], "", true, None), Some(ChatRequest(text, History(w.messages))))
  }

  /** The error text `handleSend` shows: `errorData.error || "Failed to get response"` for a
      non-success status, the exception's message otherwise. */
  function SendErrorText(outcome: Outcome): (e: string)
    requires !outcome.Answered?
    ensures outcome.Rejected? && outcome.error.Some? && outcome.error.value != "" ==> e == outcome.error.value
    ensures outcome.Rejected? && (outcome.error.None? || outcome.error.value == "") ==> e == SendFallbackError
    ensures outcome.Broken? ==> e == outcome.reason
  {
    match outcome
    case Rejected(error) => if error.Some? && error.value != "" then error.value else SendFallbackError
    case Broken(reason) => reason
  }

  /** The second half of every round trip, applied to the state as it is when the reply arrives.
      A reply is appended as a streaming assistant message; a failed send appends the fixed apology
      and shows the error; a failed suggestion or regeneration only shows its fixed error. The typing
      flag is cleared in every case and the input is never touched. */
  function Finish(w: Widget, origin: Origin, outcome: Outcome, replyId: string): (r: Widget)
    ensures !r.isTyping && r.input == w.input
    ensures outcome.Answered? ==>
      r.messages == w.messages + [Message(replyId, Assistant, outcome.response, None, true)] && r.error == w.error
    ensures !outcome.Answered? && origin == FromSend ==>
      r.messages == w.messages + [Message(replyId, Assistant, SendApology, None, false)]
      && r.error == Some(SendErrorText(outcome))
    ensures !outcome.Answered? && origin != FromSend ==>
      r.messages == w.messages
      && r.error == Some(if origin == FromSuggestion then SuggestionError else RegenerateError)
  {
    match outcome
    case Answered(text) =>
      w.(messages := w.messages + [Message(replyId, Assistant, text, None, true)], isTyping := false)
    case _ =>
      match origin
      case FromSend =>
        w.(messages := w.messages + [Message(replyId, Assistant, SendApology, None, false)],
           isTyping := false, error := Some(SendErrorText(outcome)))
      case FromSuggestion => w.(isTyping := false, error := Some(SuggestionError))
      case FromRegenerate => w.(isTyping := false, error := Some(RegenerateError))
  }

  /** `clearChat`: no messages and no error; the input and typing flag stay. */
  function ClearChat(w: Widget): (r: Widget)
    ensures r.messages == [] && r.error.None?
    ensures r.input == w.input && r.isTyping == w.isTyping
  {
    w.(messages := [], error := None)
  }

  /** The first half of `handleSuggestionClick`: the whole list is replaced by the query, and the
      request carries no history. It does not look at the typing flag. */
  function BeginSuggestion(w: Widget, query: string, userId: string): (r: (Widget, ChatRequest))
    ensures r.0.messages == [UserMessage(userId, query)] && r.0.isTyping && r.0.error.None? && r.0.input == w.input
    ensures r.1 == ChatRequest(query, [])
  {
    (w.(messages := [UserMessage(userId, query)], isTyping := true, error := None), ChatRequest(query, []))
  }

  /** `[...messages].reverse().find(m => m.role === "user")`, as the index of that message. */
  function LastUser(ms: seq<Message>): (r: Option<nat>)
    ensures r.Some? ==> r.value < |ms| && ms[r.value].role == User
    ensures r.Some? ==> forall j :: r.value < j < |ms| ==> ms[j].role != User
    ensures r.None? <==> forall j :: 0 <= j < |ms| ==> ms[j].role != User
    decreases |ms|
  {
    if ms == [] then None
    else if ms[|ms| - 1].role == User then Some(|ms| - 1)
    else
      var r := LastUser(ms[..|ms| - 1]);
      assert forall j :: 0 <= j < |ms| - 1 ==> ms[..|ms| - 1][j] == ms[j];
      r
  }

  /** The first half of `regenerateResponse`: ignored for fewer than two messages or when no message
      is the user's; otherwise the final element is dropped, the typing flag set, and the latest user
      message is sent again with every message but the last two as history, uncapped. The error is
      not cleared and the typing flag is not consulted. */
  function BeginRegenerate(w: Widget): (r: (Widget, Option<ChatRequest>))
    ensures |w.messages| < 2 || LastUser(w.messages).None? ==> r == (w, None)
    ensures |w.messages| >= 2 && LastUser(w.messages).Some? ==>
      && r.0 == w.(messages := w.messages[..|w.messages| - 1], isTyping := true)
      && r.1 == Some(ChatRequest(w.messages[LastUser(w.messages).value].content, Project(w.messages[..|w.messages| - 2])))
  {
    if |w.messages| < 2 then (w, None)
    else match LastUser(w.messages)
      case None => (w, None)
      case Some(i) =>
        (w.(messages := DropLast(w.messages, 1), isTyping := true),
         Some(ChatRequest(w.messages[i].content, Project(DropLast(w.messages, 2)))))
  }

  // ---------------------------------------------------------------- properties of the widget

  /** A second send while the first is pending is ignored, whatever the input says. */
  lemma SendWhilePendingIgnored(w: Widget, userId: string, input: string, otherId: string)
    requires Trim(w.input) != [] && !w.isTyping
    ensures var w1 := BeginSend(w, userId).0;
      BeginSend(w1.(input := input), otherId) == (w1.(input := input), None)
  {
  }

  /** The widget sends only what the endpoint accepts: the message is a non-empty string and every
      history element is an object, so the endpoint never answers 400 to it, and with a configured
      key the request reaches the completion service. */
  lemma SendPassesValidation(w: Widget, userId: string, config: ChatRoute.Config, upstream: ChatRoute.Upstream)
    requires Trim(w.input) != [] && !w.isTyping
    ensures var out := BeginSend(w, userId).1.value;
      var body := ChatRoute.Json(ChatRoute.Text(out.message), ChatRoute.List(ChatRoute.AsEntries(out.history)));
      && ChatRoute.IsValidMessage(ChatRoute.Text(out.message))
      && ChatRoute.Respond(body, config, upstream).status != 400
      && (ChatRoute.HasApiKey(config) ==> ChatRoute.ReachesUpstream(body, config))
  {
    var out := BeginSend(w, userId).1.value;
    var es := ChatRoute.AsEntries(out.history);
    ChatRoute.BadRequestIffInvalidMessage(ChatRoute.Text(out.message), ChatRoute.List(es), config, upstream);
    var recent := TakeLast(es, ChatRoute.HistoryWindow);
    assert forall i :: 0 <= i < |recent| ==> recent[i] == es[|es| - |recent| + i];
  }

  /** How the widget reads the endpoint's reply: a 200 carries `response`; anything else a non-empty `error`. */
  function OutcomeOf(reply: ChatRoute.Reply): (o: Outcome)
    // the reply text is read only from a success carrying `response`
    ensures o.Answered? <==> reply.status == 200 && reply.body.Answer?
    ensures o.Answered? ==> o.response == reply.body.response
    // any other reply is a rejection, carrying the body's `error` when it has one
    ensures reply.body.Error? ==> o == Rejected(Some(reply.body.error))
    ensures !o.Answered? && !reply.body.Error? ==> o == Rejected(None)
  {
    match reply.body
    case Answer(response, _) => if reply.status == 200 then Answered(response) else Rejected(None)
    case Error(error) => Rejected(Some(error))
  }

  /** Each error reply of the endpoint, the limiter's 429 included, is shown in the widget as it
      came, because none of the error texts is empty. */
  lemma SendShowsEndpointError(w: Widget, reply: ChatRoute.Reply, body: ChatRoute.RequestBody, config: ChatRoute.Config,
                               upstream: ChatRoute.Upstream, replyId: string)
    requires reply == ChatRoute.Respond(body, config, upstream) || reply == ChatRoute.TooManyRequests
    requires reply.status != 200
    ensures reply.body.Error? && Finish(w, FromSend, OutcomeOf(reply), replyId).error == Some(reply.body.error)
  {
    assert reply.body.error in {ChatRoute.RateLimitedError, ChatRoute.InvalidMessageError, ChatRoute.MissingKeyError,
                                ChatRoute.UnexpectedError, ChatRoute.GenerationFailedError};
  }

  /** A completed send adds exactly two messages: the user's trimmed input and the reply. */
  lemma SendRoundTrip(w: Widget, userId: string, replyId: string, outcome: Outcome)
    requires Trim(w.input) != [] && !w.isTyping
    ensures var w2 := Finish(BeginSend(w, userId).0, FromSend, outcome, replyId);
      && |w2.messages| == |w.messages| + 2
      && w2.messages[..|w.messages|] == w.messages
      && w2.messages[|w.messages|] == UserMessage(userId, Trim(w.input))
      && w2.messages[|w.messages| + 1].role == Assistant
      && w2.messages[|w.messages| + 1].content == (if outcome.Answered? then outcome.response else SendApology)
      && !w2.isTyping && w2.input == ""
  {
  }

  /** Clearing a streaming flag does not change the history built from the list. */
  lemma {:induction false} HistoryIgnoresStreaming(ms: seq<Message>, id: string)
    ensures History(ClearStreaming(ms, id)) == History(ms)
  {
    var c := ClearStreaming(ms, id);
    var h1, h2 := History(c), History(ms);
    var n, k := |ms|, |h1|;
    assert |c| == n && |h2| == k;
    forall i | 0 <= i < k ensures h1[i] == h2[i] {
      var j := n - k + i;
      assert h1[i] == ToTurn(c[j]);
      assert h2[i] == ToTurn(ms[j]);
      assert c[j].role == ms[j].role && c[j].content == ms[j].content;
    }
    assert h1 == h2;
  }

  /** The history of a list that ends with two messages ends with those two. */
  lemma HistoryEndsWith(ms: seq<Message>, u: Message, a: Message)
    ensures var h := History(ms + [u, a]);
      |h| >= 2 && h[|h| - 2] == ToTurn(u) && h[|h| - 1] == ToTurn(a)
  {
    var l := ms + [u, a];
    assert l[|l| - 2] == u && l[|l| - 1] == a;
  }

  /** After the reply's flag is cleared, the history of the next send holds the exchange. */
  lemma ExchangeReachesNextHistory(w: Widget, userId: string, replyId: string, text: string)
    requires Trim(w.input) != [] && !w.isTyping
    ensures var w2 := Finish(BeginSend(w, userId).0, FromSend, Answered(text), replyId);
      var h := History(ClearStreaming(w2.messages, replyId));
      |h| >= 2 && h[|h| - 2] == Turn("user", Trim(w.input)) && h[|h| - 1] == Turn("assistant", text)
  {
    var u := UserMessage(userId, Trim(w.input));
    var a := Message(replyId, Assistant, text, None, true);
    var ms := Finish(BeginSend(w, userId).0, FromSend, Answered(text), replyId).messages;
    SendThenAnswer(w, userId, replyId, text);
    HistoryIgnoresStreaming(ms, replyId);
    HistoryEndsWith(w.messages, u, a);
  }

  lemma SendThenAnswer(w: Widget, userId: string, replyId: string, text: string)
    requires Trim(w.input) != [] && !w.isTyping
    ensures Finish(BeginSend(w, userId).0, FromSend, Answered(text), replyId).messages
            == w.messages + [UserMessage(userId, Trim(w.input)), Message(replyId, Assistant, text, None, true)]
  {
    var w1 := BeginSend(w, userId).0;
    assert w1.messages == w.messages + [UserMessage(userId, Trim(w.input))];
  }

  /** A click on a suggestion starts over: one message, the query, whatever was there before. */
  lemma SuggestionStartsOver(w: Widget, query: string, userId: string, replyId: string, text: string)
    ensures Finish(BeginSuggestion(w, query, userId).0, FromSuggestion, Answered(text), replyId).messages
            == [UserMessage(userId, query), Message(replyId, Assistant, text, None, true)]
    ensures !Finish(BeginSuggestion(w, query, userId).0, FromSuggestion, Rejected(None), replyId).isTyping
  {
  }

  /** Regenerating after an ordinary exchange re-asks the user's question without the old answer in
      the list or in the history; a successful reply takes the old answer's place. */
  lemma RegenerateReplacesAnswer(w: Widget, prefix: seq<Message>, u: Message, a: Message, replyId: string, text: string)
    requires w.messages == prefix + [u, a] && u.role == User && a.role == Assistant
    ensures var (w1, out) := BeginRegenerate(w);
      && w1.messages == prefix + [u]
      && out == Some(ChatRequest(u.content, Project(prefix)))
      && Finish(w1, FromRegenerate, Answered(text), replyId).messages == prefix + [u, Message(replyId, Assistant, text, None, true)]
  {
    var ms := w.messages;
    assert LastUser(ms) == Some(|ms| - 2);
    assert ms[..|ms| - 1] == prefix + [u];
    assert ms[..|ms| - 2] == prefix;
  }

  /** When the list ends with a user message (a regeneration that failed leaves it so), the next
      regeneration drops that user message from the list and the message before it from the
      history while re-asking it. */
  lemma RegenerateAfterUserMessage(w: Widget, prefix: seq<Message>, p: Message, u: Message)
    requires w.messages == prefix + [p, u] && u.role == User
    ensures var (w1, out) := BeginRegenerate(w);
      && w1.messages == prefix + [p]
      && out == Some(ChatRequest(u.content, Project(prefix)))
  {
    var ms := w.messages;
    assert LastUser(ms) == Some(|ms| - 1);
    assert ms[..|ms| - 1] == prefix + [p];
    assert ms[..|ms| - 2] == prefix;
  }

  /** A regeneration never shortens the list by more than one message, and only when it sends. */
  lemma RegenerateDropsAtMostOne(w: Widget)
    ensures var (w1, out) := BeginRegenerate(w);
      && (out.None? ==> w1 == w)
      && (out.Some? ==> |w1.messages| == |w.messages| - 1 && w.messages == w1.messages + [w.messages[|w.messages| - 1]])
  {
  }

  // ---------------------------------------------------------------- streaming text

  /** `Math.min(3, text.length - currentIndex)`. */
  function ChunkSize(length: nat, index: nat): (c: nat)
    requires index < length
    ensures 1 <= c <= 3 && index + c <= length
    ensures c < 3 ==> index + c == length
  {
    if length - index < 3 then length - index else 3
  }

  /** Where the reveal index stands after `k` timer ticks. */
  function IndexAfter(length: nat, index: nat, k: nat): (r: nat)
    requires index <= length
    ensures r == if index + 3 * k <= length then index + 3 * k else length
    decreases k
  {
    if k == 0 || index == length then index else IndexAfter(length, index + ChunkSize(length, index), k - 1)
  }

  /** The number of ticks the reveal takes from `index`: `ceil((length - index) / 3)`. */
  function TicksToEnd(length: nat, index: nat): (k: nat)
    requires index <= length
    ensures IndexAfter(length, index, k) == length
    ensures k > 0 ==> IndexAfter(length, index, k - 1) < length
  {
    (length - index + 2) / 3
  }

  /** The `StreamingText` component: the reply text, how much of it is shown, and whether the
      completion callback has been called. */
  class StreamingText {
    const text: string
    var index: nat
    var displayed: string
    var completed: bool

    /** The shown text is always the prefix up to the index, which never passes the end, and the
        callback has run only at the end. */
    ghost predicate Valid()
      reads this
    {
      index <= |text| && displayed == text[..index] && (completed ==> index == |text|)
    }

    constructor (text: string)
      ensures Valid() && this.text == text
      ensures index == 0 && displayed == "" && !completed
    {
      this.text := text;
      index := 0;
      displayed := "";
      completed := false;
    }

    /** One run of the effect: before the end, a timer tick reveals the next chunk of up to three
        characters; at the end, the callback runs. */
    method Step()
      requires Valid()
      modifies this
      ensures Valid()
      ensures old(index) < |text| ==> index == old(index) + ChunkSize(|text|, old(index)) && completed == old(completed)
      ensures old(index) == |text| ==> index == old(index) && completed
    {
      if index < |text| {
        var chunk := ChunkSize(|text|, index);
        displayed := text[..index + chunk];
        index := index + chunk;
      } else {
        completed := true;
      }
    }

    /** Running the effect until the callback fires: it takes `ceil((|text| - index) / 3)` ticks,
        after which the whole text is shown. */
    method Run() returns (ticks: nat)
      requires Valid()
      modifies this
      ensures Valid()
      ensures index == |text| && displayed == text && completed
      ensures ticks == TicksToEnd(|text|, old(index))
    {
      ticks := 0;
      ghost var start := index;
      while index < |text|
        invariant Valid()
        invariant start <= index && index == IndexAfter(|text|, start, ticks)
        invariant index < |text| ==> ticks < TicksToEnd(|text|, start)
        invariant index == |text| ==> ticks == TicksToEnd(|text|, start) || ticks == 0
        decreases |text| - index
      {
        Step();
        ticks := ticks + 1;
      }
      Step();
    }
  }
}
