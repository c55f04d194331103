/**
 * The request schema of the chat-completions endpoint: the message and
 * request records, the closed set of roles, the field defaults, and the
 * validation that turns a decoded JSON body into a request.
 */
module Schema {
  import opened Wrappers

  /** Temperatures and nucleus thresholds are Python floats; they are only copied, never computed with. */
  type Float = real

  datatype Role = System | User | Assistant

  datatype Message = Message(role: Role, content: string)

  datatype Request = Request(
    model: string,
    messages: seq<Message>,
    temperature: Float,
    maxTokens: Option<int>,      // null in the JSON body is None
    stop: Option<seq<string>>)   // null in the JSON body is None

  const DefaultTemperature: Float := 0.7
  const DefaultMaxTokens: int := 512

  /** The literal a role has in the JSON body. */
  function RoleName(r: Role): string {
    match r
    case System => "system"
    case User => "user"
    case Assistant => "assistant"
  }

  /** Accepts exactly the three role literals; anything else is a validation error. */
  function ParseRole(s: string): (r: Option<Role>)
    ensures r.Some? ==> RoleName(r.value) == s
    ensures r.None? ==> forall role: Role :: RoleName(role) != s
  {
    if s == "system" then Some(System)
    else if s == "user" then Some(User)
    else if s == "assistant" then Some(Assistant)
    else None
  }

  lemma RoleRoundTrip(r: Role)
    ensures ParseRole(RoleName(r)) == Some(r)
  {
  }

  /** A message as decoded from JSON, before its role is checked. */
  datatype RawMessage = RawMessage(role: string, content: string)

  /**
   * A request body as decoded from JSON. For the three fields with defaults,
   * None means the field is absent from the body; for `maxTokens` and `stop`
   * the inner Option distinguishes an explicit null from a value.
   */
  datatype RawRequest = RawRequest(
    model: string,
    messages: seq<RawMessage>,
    temperature: Option<Float>,
    maxTokens: Option<Option<int>>,
    stop: Option<Option<seq<string>>>)

  predicate AllRolesKnown(raws: seq<RawMessage>) {
    forall i :: 0 <= i < |raws| ==> ParseRole(raws[i].role).Some?
  }

  /** `ms` keeps every raw message, in order, with its content and its role. */
  predicate Decodes(raws: seq<RawMessage>, ms: seq<Message>) {
    |ms| == |raws| &&
    forall i :: 0 <= i < |raws| ==> RoleName(ms[i].role) == raws[i].role && ms[i].content == raws[i].content
  }

  /** The whole list is rejected if any message has an unknown role; nothing is dropped. */
  function ParseMessages(raws: seq<RawMessage>): (r: Option<seq<Message>>)
    ensures r.Some? <==> AllRolesKnown(raws)
    ensures r.Some? ==> Decodes(raws, r.value)
  {
    if raws == [] then Some([])
    else
      var head := ParseRole(raws[0].role);
      var tail := ParseMessages(raws[1..]);
      if head.Some? && tail.Some? then
        Some([Message(head.value, raws[0].content)] + tail.value)
      else
        None
  }

  /** Validation of the request body, applying the field defaults of the schema. */
  function Validate(raw: RawRequest): (r: Option<Request>)
    ensures r.Some? <==> AllRolesKnown(raw.messages)
    ensures r.Some? ==> r.value.model == raw.model && Decodes(raw.messages, r.value.messages)
    ensures r.Some? && raw.temperature.None? ==> r.value.temperature == DefaultTemperature
    ensures r.Some? && raw.temperature.Some? ==> r.value.temperature == raw.temperature.value
    ensures r.Some? && raw.maxTokens.None? ==> r.value.maxTokens == Some(DefaultMaxTokens)
    ensures r.Some? && raw.maxTokens.Some? ==> r.value.maxTokens == raw.maxTokens.value
    ensures r.Some? && raw.stop.None? ==> r.value.stop == None
    ensures r.Some? && raw.stop.Some? ==> r.value.stop == raw.stop.value
  {
    match ParseMessages(raw.messages)
    case None => None
    case Some(ms) =>
      Some(Request(
        raw.model,
        ms,
        if raw.temperature.Some? then raw.temperature.value else DefaultTemperature,
        if raw.maxTokens.Some? then raw.maxTokens.value else Some(DefaultMaxTokens),
        if raw.stop.Some? then raw.stop.value else None))
  }
}
