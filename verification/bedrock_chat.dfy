/**
 * The state of `BedrockChat` (listening-comp/backend/bedrock_chat.py) as an
 * immutable value: model settings plus an append-only conversation log. The
 * model invocation and the wall clock are parameters.
 */
module BedrockChat {
  import opened Wrappers

  /** One exchange of the conversation log. */
  datatype Turn = Turn(timestamp: string, userMessage: string, botResponse: string)

  datatype Client = Client(
    modelId: string,
    temperature: real,
    maxTokens: int,
    region: Option<string>,
    history: seq<Turn>)

  datatype Message = Message(role: string, content: string)

  /** The request body sent to the model, before JSON encoding. */
  datatype Request = Request(
    messages: seq<Message>,
    temperature: real,
    maxTokenCount: int,
    stopSequences: seq<string>,
    topP: real)

  /**
   * What the model call produces: the decoded response body, or the text of
   * the exception raised while invoking the model or decoding its answer.
   */
  datatype Reply = Body(fields: map<string, string>) | Raised(reason: string)

  /** A new client: settings stored as given (no clamping) and an empty history. */
  function NewClient(modelId: string, temperature: real, maxTokens: int, region: Option<string>): (c: Client)
    ensures c.history == []
    ensures c.modelId == modelId && c.temperature == temperature && c.maxTokens == maxTokens
  {
    Client(modelId, temperature, maxTokens, region, [])
  }

  /** The client built with every default argument. */
  function DefaultClient(): (c: Client)
    ensures c.modelId == "amazon.nova-micro-v1:0" && c.temperature == 0.7 && c.maxTokens == 1000
    ensures c.region.None? && c.history == []
  {
    NewClient("amazon.nova-micro-v1:0", 0.7, 1000, None)
  }

  /** `_format_message`: one user message and the client's current settings. */
  function FormatMessage(c: Client, message: string): (r: Request)
    ensures r.messages == [Message("user", message)]
    ensures r.temperature == c.temperature && r.maxTokenCount == c.maxTokens
    ensures r.stopSequences == [] && r.topP == 0.9
  {
    Request([Message("user", message)], c.temperature, c.maxTokens, [], 0.9)
  }

  /** `_add_to_history`: append exactly one turn; nothing else changes. */
  function AddToHistory(c: Client, userMessage: string, botResponse: string, now: string): (r: Client)
    ensures |r.history| == |c.history| + 1
    ensures r.history[..|c.history|] == c.history
    ensures r.history[|c.history|] == Turn(now, userMessage, botResponse)
    ensures r.(history := c.history) == c
  {
    c.(history := c.history + [Turn(now, userMessage, botResponse)])
  }

  /** `clear_history`: empty log, settings untouched. */
  function ClearHistory(c: Client): (r: Client)
    ensures r.history == []
    ensures r.(history := c.history) == c
  {
    c.(history := [])
  }

  /** `max(0.0, min(1.0, t))`. */
  function Clamp(t: real): (r: real)
    ensures 0.0 <= r <= 1.0
    ensures 0.0 <= t <= 1.0 ==> r == t
    ensures t < 0.0 ==> r == 0.0
    ensures t > 1.0 ==> r == 1.0
  {
    var upper := if t < 1.0 then t else 1.0;
    if upper > 0.0 then upper else 0.0
  }

  /**
   * `update_settings`: a given temperature is clamped into [0, 1], a given
   * token limit is stored as is; an absent argument leaves its setting alone.
   */
  function UpdateSettings(c: Client, temperature: Option<real>, maxTokens: Option<int>): (r: Client)
    ensures temperature.None? ==> r.temperature == c.temperature
    ensures temperature.Some? ==> 0.0 <= r.temperature <= 1.0
    ensures temperature.Some? ==> r.temperature == Clamp(temperature.value)
    ensures temperature.Some? && 0.0 <= temperature.value <= 1.0 ==> r.temperature == temperature.value
    ensures maxTokens.None? ==> r.maxTokens == c.maxTokens
    ensures maxTokens.Some? ==> r.maxTokens == maxTokens.value
    ensures r.history == c.history && r.modelId == c.modelId && r.region == c.region
  {
    var t := if temperature.Some? then Clamp(temperature.value) else c.temperature;
    var m := if maxTokens.Some? then maxTokens.value else c.maxTokens;
    c.(temperature := t, maxTokens := m)
  }

  /** The prefix of the reply returned when the model call raises. */
  const ErrorPrefix: string := "Error in chat: "

  /**
   * `chat`: on a reply, log the exchange and return the body's "generation"
   * ("" when absent); when the call raises, return the error text and keep the
   * client as it was.
   */
  function Chat(c: Client, message: string, now: string, invoke: (string, Request) -> Reply): (r: (Client, string))
    ensures invoke(c.modelId, FormatMessage(c, message)).Raised? ==>
              r.0 == c && r.1 == ErrorPrefix + invoke(c.modelId, FormatMessage(c, message)).reason
    ensures invoke(c.modelId, FormatMessage(c, message)).Body? ==>
              |r.0.history| == |c.history| + 1
              && r.0.history[..|c.history|] == c.history
              && r.0.history[|c.history|] == Turn(now, message, r.1)
              && r.0.(history := c.history) == c
    ensures invoke(c.modelId, FormatMessage(c, message)).Body? ==>
              var fields := invoke(c.modelId, FormatMessage(c, message)).fields;
              r.1 == (if "generation" in fields then fields["generation"] else "")
  {
    match invoke(c.modelId, FormatMessage(c, message))
    case Raised(reason) => (c, ErrorPrefix + reason)
    case Body(fields) =>
      var text := if "generation" in fields then fields["generation"] else "";
      (AddToHistory(c, message, text, now), text)
  }

  /**
   * Send each `(message, timestamp)` in order through `Chat`: the settings stay
   * as they were, the earlier history is kept, and at most one turn is added
   * per message.
   */
  function ChatAll(c: Client, inputs: seq<(string, string)>, invoke: (string, Request) -> Reply): (r: Client)
    ensures r.(history := c.history) == c
    ensures |c.history| <= |r.history| <= |c.history| + |inputs|
    ensures r.history[..|c.history|] == c.history
    decreases |inputs|
  {
    if |inputs| == 0 then c
    else ChatAll(Chat(c, inputs[0].0, inputs[0].1, invoke).0, inputs[1..], invoke)
  }

  /** The turns a client with these settings logs for `inputs`: one per call that did not raise. */
  function LoggedTurns(c: Client, inputs: seq<(string, string)>, invoke: (string, Request) -> Reply): seq<Turn>
    decreases |inputs|
  {
    if |inputs| == 0 then []
    else
      var (message, now) := inputs[0];
      var turn := match invoke(c.modelId, FormatMessage(c, message))
        case Raised(_) => []
        case Body(fields) =>
          [Turn(now, message, if "generation" in fields then fields["generation"] else "")];
      turn + LoggedTurns(c, inputs[1..], invoke)
  }

  /**
   * The log is append-only: a run of chats keeps the earlier history and adds
   * exactly the successful exchanges, in order, without touching the settings.
   */
  lemma {:induction false} ChatAllAppendsSuccesses(c: Client, inputs: seq<(string, string)>, invoke: (string, Request) -> Reply)
    ensures ChatAll(c, inputs, invoke).history == c.history + LoggedTurns(c, inputs, invoke)
    ensures ChatAll(c, inputs, invoke).(history := c.history) == c
    decreases |inputs|
  {
    if |inputs| > 0 {
      var next := Chat(c, inputs[0].0, inputs[0].1, invoke).0;
      assert next.(history := c.history) == c;
      assert LoggedTurns(next, inputs[1..], invoke) == LoggedTurns(c, inputs[1..], invoke) by {
        SameSettingsSameTurns(next, c, inputs[1..], invoke);
      }
      ChatAllAppendsSuccesses(next, inputs[1..], invoke);
    }
  }

  /** Which turns get logged depends only on the settings, not on the history. */
  lemma {:induction false} SameSettingsSameTurns(a: Client, b: Client, inputs: seq<(string, string)>, invoke: (string, Request) -> Reply)
    requires a.(history := b.history) == b
    ensures LoggedTurns(a, inputs, invoke) == LoggedTurns(b, inputs, invoke)
    decreases |inputs|
  {
    if |inputs| > 0 {
      assert FormatMessage(a, inputs[0].0) == FormatMessage(b, inputs[0].0);
      SameSettingsSameTurns(a, b, inputs[1..], invoke);
    }
  }

  /** After an update, every request carries the clamped temperature and the new token limit. */
  lemma UpdatedSettingsReachRequests(c: Client, t: real, m: int, message: string)
    ensures var r := FormatMessage(UpdateSettings(c, Some(t), Some(m)), message);
            0.0 <= r.temperature <= 1.0 && r.maxTokenCount == m
            && (0.0 <= t <= 1.0 ==> r.temperature == t)
  {
  }

  /** Clearing forgets every exchange, however many chats came before. */
  lemma ClearAfterChat(c: Client, message: string, now: string, invoke: (string, Request) -> Reply)
    ensures ClearHistory(Chat(c, message, now, invoke).0) == ClearHistory(c)
  {
  }

  /** Clamping is idempotent: stored temperatures survive a second update unchanged. */
  lemma ClampIdempotent(t: real)
    ensures Clamp(Clamp(t)) == Clamp(t)
  {
  }
}
