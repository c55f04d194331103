/**
 * The chat-completions handler: format the prompt, build the sampling
 * configuration, hand both to the engine, and wrap the engine's text in an
 * OpenAI-shaped response.
 */
module Completions {
  import opened Wrappers
  import opened Schema
  import opened Prompt
  import opened Text

  /** The stop list used when the request gives none. */
  const DefaultStop: seq<string> := ["[User]:"]

  /** The fixed nucleus-sampling threshold. */
  const TopP: Float := 0.95

  datatype SamplingConfig = SamplingConfig(
    temperature: Float,
    topP: Float,
    maxTokens: Option<int>,
    stop: seq<string>)

  /** A stop list that is absent or empty falls back to the default; any other is used as given. */
  function EffectiveStop(stop: Option<seq<string>>): (r: seq<string>)
    ensures r != []
    ensures stop.None? || stop.value == [] ==> r == DefaultStop
    ensures stop.Some? && stop.value != [] ==> r == stop.value
  {
    if stop.Some? && stop.value != [] then stop.value else DefaultStop
  }

  /** A caller's own stop list replaces the default outright: the default is not merged in. */
  lemma StopNotMerged(stop: seq<string>)
    requires stop != [] && "[User]:" !in stop
    ensures "[User]:" !in EffectiveStop(Some(stop))
  {
  }

  /**
   * The default stop string is exactly the opening of a user line, and of no
   * other line, so generation halts where the engine would begin a user turn.
   */
  lemma DefaultStopOpensOnlyUserLines(m: Message)
    ensures DefaultStop[0] <= Line(m) <==> m.role == User
  {
    match m.role
    case System =>
      assert Line(m)[1] == 'S';
    case User =>
      assert Header(User) == "[User]: ";
      assert Line(m) == "[User]:" + (" " + m.content + "\n");
    case Assistant =>
      assert Line(m)[1] == 'A';
  }

  /** The sampling configuration of a request. */
  function Sampling(req: Request): (c: SamplingConfig)
    ensures c.topP == TopP
    ensures c.temperature == req.temperature && c.maxTokens == req.maxTokens
    ensures c.stop == EffectiveStop(req.stop)
  {
    SamplingConfig(req.temperature, TopP, req.maxTokens, EffectiveStop(req.stop))
  }

  /** The configuration depends on the request's knobs only, never on its model name or messages. */
  lemma SamplingIgnoresConversation(r1: Request, r2: Request)
    requires r1.temperature == r2.temperature && r1.maxTokens == r2.maxTokens && r1.stop == r2.stop
    ensures Sampling(r1) == Sampling(r2)
  {
  }

  /** A body that omits max_tokens and stop is sampled with at most 512 tokens and the default stop list. */
  lemma OmittedFieldsUseDefaults(raw: RawRequest)
    requires AllRolesKnown(raw.messages) && raw.maxTokens.None? && raw.stop.None?
    ensures Validate(raw).Some?
    ensures Sampling(Validate(raw).value).maxTokens == Some(512)
    ensures Sampling(Validate(raw).value).stop == ["[User]:"]
  {
  }

  datatype ChatMessage = ChatMessage(role: string, content: string)

  datatype Choice = Choice(index: int, message: ChatMessage, finishReason: string)

  datatype Response = Response(
    id: string,
    kind: string,      // the JSON "object" field
    created: int,
    model: string,
    choices: seq<Choice>)

  const ResponseId: string := "chatcmpl-local-qwen"
  const ResponseObject: string := "chat.completion"
  const Created: int := 1234567890

  /** The response wrapped around the engine's text. */
  function Respond(req: Request, text: string): (resp: Response)
    ensures resp.id == "chatcmpl-local-qwen" && resp.kind == "chat.completion"
    ensures resp.created == 1234567890 && resp.model == req.model
    ensures |resp.choices| == 1
    ensures resp.choices[0].index == 0 && resp.choices[0].finishReason == "stop"
    ensures resp.choices[0].message.role == "assistant"
    ensures Trimmed(resp.choices[0].message.content)
    ensures IsStripOf(text, resp.choices[0].message.content)
  {
    StripIsStripOf(text);
    Response(
      ResponseId,
      ResponseObject,
      Created,
      req.model,
      [Choice(0, ChatMessage("assistant", Strip(text)), "stop")])
  }

  /** Handles one request; `generate` stands for the engine, called once with the prompt and configuration. */
  method ChatCompletions(req: Request, generate: (string, SamplingConfig) -> string) returns (resp: Response)
    ensures resp == Respond(req, generate(FormatPrompt(req.messages), Sampling(req)))
  {
    var prompt := BuildPrompt(req.messages);
    var params := Sampling(req);
    var result := generate(prompt, params);
    resp := Respond(req, result);
  }

  /** A prompt starts with a bracket and ends with a colon, so stripping leaves it unchanged. */
  lemma PromptTrimmed(ms: seq<Message>)
    ensures Trimmed(FormatPrompt(ms))
  {
    if ms == [] {
      assert FormatPrompt(ms) == Suffix;
    } else {
      assert FormatPrompt(ms)[0] == Line(ms[0])[0] == '[';
    }
  }

  /** With an engine that echoes its prompt, the reply content is exactly the prompt. */
  lemma EchoEngineReturnsPrompt(req: Request)
    ensures Respond(req, FormatPrompt(req.messages)).choices[0].message.content == FormatPrompt(req.messages)
  {
    PromptTrimmed(req.messages);
    StripTrimmed(FormatPrompt(req.messages));
  }

  /** The two lines of the greeting conversation. */
  lemma GreetingLines()
    ensures Line(Message(System, "You are helpful.")) == "[System]: You are helpful.\n"
    ensures Line(Message(User, "Hi")) == "[User]: Hi\n"
  {
    LineSpelledOut(Message(System, "You are helpful."));
    LineSpelledOut(Message(User, "Hi"));
  }

  /** A system instruction followed by a user greeting. */
  lemma GreetingPrompt()
    ensures FormatPrompt([Message(System, "You are helpful."), Message(User, "Hi")])
      == "[System]: You are helpful.\n" + "[User]: Hi\n" + "[Assistant]:"
  {
    var a, b := Message(System, "You are helpful."), Message(User, "Hi");
    BodySnoc([], a);
    assert [] + [a] == [a] && [a] + [b] == [a, b];
    BodySnoc([a], b);
    GreetingLines();
    assert Body([]) == [];
  }

  /** Padding around the engine's reply is removed from the response content. */
  lemma GreetingReplyStripped()
    ensures Strip(" Hello there! ") == "Hello there!"
  {
    var s := " Hello there! ";
    var r := "Hello there!";
    assert r == s[1..13] && s[..1] == " " && s[13..] == " ";
    assert r[0] == 'H' && r[|r| - 1] == '!';
    StripUnique(s, r);
  }
}
