# LocalOpenAI chat-completions handler in Dafny

LocalOpenAI puts an OpenAI-compatible `POST /v1/chat/completions` endpoint in
front of a local language model. This project models the handler's request
translation in `app/openai_api.py`:

- **Schema** (`schema.dfy`): the `Message` and `ChatCompletionRequest` records. Roles form a
  closed set. `Validate` takes a decoded JSON body and applies the field
  defaults: `temperature` 0.7, `max_tokens` 512 and `stop` null.
- **Prompt** (`prompt.dfy`): `BuildPrompt` is the accumulator loop of the handler.
  It appends one `[Role]: content` line per message, then the cue `[Assistant]:`
  with no trailing newline. It is proved equal to the recursive specification
  `FormatPrompt`, and the lemmas about `FormatPrompt` give its shape.
- **Completions** (`completions.dfy`): the effective stop list and the sampling configuration
  (`top_p` fixed at 0.95). Also `Respond`, the response envelope, and
  `ChatCompletions`, the whole handler. The engine is passed in as a function
  from prompt and configuration to text.
- **Text** (`text.dfy`): Python's `str.strip()`. It removes exactly the characters for
  which `str.isspace()` holds. It is specified by `IsStripOf`, and
  `StripUnique` shows that this specification determines the result.

Facts of the code that the model keeps:
- `created` is the constant 1234567890 (app/openai_api.py:46).
- `stop` is a list, passed on unchanged when it is non-empty (app/openai_api.py:39).
- `max_tokens` is `Optional[int]` with default 512 (app/openai_api.py:19).

## Model

| member | source | states |
|---|---|---|
| `Text.Strip` | app/openai_api.py:53 | The stripped text starts and ends with a non-whitespace character (or is empty) and is no longer than the input |
| `Text.StripIsStripOf` | app/openai_api.py:53 | The stripped text is a contiguous piece of the input, and only whitespace lies before and after it |
| `Text.StripUnique` | app/openai_api.py:53 | Any trimmed piece of the input with only whitespace around it equals `Strip` of the input, so the result is fully determined |
| `Text.StripTrimmed` | app/openai_api.py:53 | Text without surrounding whitespace is returned unchanged |
| `Text.StripIdempotent` | app/openai_api.py:53 | Stripping a second time changes nothing |
| `Schema.ParseRole` | app/openai_api.py:12 | Accepts a string exactly when it is the literal of some role, and the accepted role's literal is that string |
| `Schema.RoleRoundTrip` | app/openai_api.py:12 | Every role's literal parses back to that role |
| `Schema.ParseMessages` | app/openai_api.py:11-17 | The message list is accepted iff every role is known; then every message is kept, in order, with its role and content |
| `Schema.Validate` | app/openai_api.py:15-20 | Rejects exactly the bodies with an unknown role. Keeps model and messages. Absent fields take defaults (temperature 0.7, max_tokens 512, stop None); present fields, explicit nulls included, are used as given |
| `Prompt.BuildPrompt` | app/openai_api.py:24-33 | The accumulator loop produces exactly `FormatPrompt` of the messages |
| `Prompt.BodyAppend` | app/openai_api.py:24-33 | The lines of a concatenated conversation are the lines of the first part followed by those of the second |
| `Prompt.BodySnoc` | app/openai_api.py:25-31 | One more message adds exactly its own line at the end |
| `Prompt.LineSpelledOut` | app/openai_api.py:26-31 | Each role's line is `[System]: `, `[User]: ` or `[Assistant]: `, then the content and a newline |
| `Prompt.FormatAppend` | app/openai_api.py:24-33 | Formatting `a + b` gives the lines of `a`, then the lines of `b`, then one cue |
| `Prompt.MessageAt` | app/openai_api.py:25-31 | Message i's line appears intact right after the lines of the messages before it, so no message is dropped or reordered |
| `Prompt.EndsWithSuffix` | app/openai_api.py:33 | Every prompt ends with `[Assistant]:` and its last character is the colon, so no newline follows |
| `Prompt.EmptyConversation` | app/openai_api.py:24-33 | An empty message list gives exactly `[Assistant]:` |
| `Prompt.ReplyContinuesPrompt` | app/openai_api.py:31-33 | The prompt, then a space, the reply and a newline, equals the lines of the conversation extended with that assistant reply |
| `Prompt.TagIsCapitalizedRoleName` | app/openai_api.py:26-31 | Each role's tag is its JSON literal with the first letter capitalised |
| `Prompt.TagInjective` | app/openai_api.py:26-31 | Distinct roles get distinct tags |
| `Prompt.LineHasOneNewline` | app/openai_api.py:27-31 | A message whose content has no newline contributes exactly one newline |
| `Prompt.LineCount` | app/openai_api.py:24-33 | When no content holds a newline, the prompt has exactly one line per message before the cue |
| `Completions.EffectiveStop` | app/openai_api.py:39 | A null or empty stop list becomes `["[User]:"]`, and any other list is used unchanged. The result is never empty |
| `Completions.StopNotMerged` | app/openai_api.py:39 | A caller's non-empty stop list without `[User]:` does not gain it |
| `Completions.DefaultStopOpensOnlyUserLines` | app/openai_api.py:39 | The default stop string begins a message's line exactly when that message is a user message |
| `Completions.Sampling` | app/openai_api.py:35-40 | top_p is 0.95. Temperature and max_tokens (null included) are copied from the request, and stop is the effective stop list |
| `Completions.SamplingIgnoresConversation` | app/openai_api.py:35-40 | Two requests with the same temperature, max_tokens and stop get the same configuration, whatever their model and messages |
| `Completions.OmittedFieldsUseDefaults` | app/openai_api.py:18-39 | A body that omits max_tokens and stop is sampled with max_tokens 512 and stop `["[User]:"]` |
| `Completions.Respond` | app/openai_api.py:43-58 | id `chatcmpl-local-qwen`, object `chat.completion`, created 1234567890, model echoed. There is exactly one choice: index 0, role `assistant`, finish_reason `stop`, and its content is a strip of the engine text |
| `Completions.ChatCompletions` | app/openai_api.py:23-58 | The handler's response is `Respond` applied to the engine's output for `FormatPrompt` of the messages and `Sampling` of the request |
| `Completions.PromptTrimmed` | app/openai_api.py:24-33 | A prompt never starts or ends with whitespace |
| `Completions.EchoEngineReturnsPrompt` | app/openai_api.py:41-53 | With an engine that echoes its prompt, the response content is exactly the prompt |
| `Completions.GreetingLines` | app/openai_api.py:26-29 | A system line and a user line, spelled out |
| `Completions.GreetingPrompt` | app/openai_api.py:24-33 | The conversation (system "You are helpful.", user "Hi") gives `[System]: You are helpful.\n[User]: Hi\n[Assistant]:` |
| `Completions.GreetingReplyStripped` | app/openai_api.py:53 | The engine text `" Hello there! "` becomes the content `"Hello there!"` |

## Left out

- app/model.py (`QwenLocalModel`, a wrapper around an external inference library) is not part of this model. The engine is the `generate` parameter of `ChatCompletions`. The repository's code is inconsistent here: `QwenLocalModel.generate` (app/model.py:8) takes only a prompt, while app/openai_api.py:41 passes a prompt and a configuration. The model follows the call site.
- Loading the engine at import time (app/openai_api.py:9), the router and the application wiring (app/openai_api.py:1-8 and 22, app/main.py): these are framework and process plumbing.
- HTTP transport and JSON decoding. `RawRequest` stands for an already-decoded body. Pydantic's type checks and coercions of individual fields (a string where a number is expected, say) are not modelled. Only the role check is modelled.
- Floating point: `temperature` and `top_p` are `real` values that are only copied. Nothing about float rounding is modelled.
- ChatCompletions: `generate` is a total function of the prompt and the configuration, so the model cannot fail and gives the same text for the same arguments. In the program the engine samples at random, and nothing catches an exception from the engine call (app/openai_api.py:41) or from the `SamplingParams` constructor (app/openai_api.py:35-40, for instance for a `max_tokens` it refuses). Such an exception ends the request with a server error and no response, and the model does not capture that.
- Concurrency: the handler is synchronous, and the code has no worker pool, no asynchronous bridge and no shutdown hook.
- The code has no defensive unwrapping of the engine's result and no fallback to empty text, so neither is modelled.
- What the engine does with `max_tokens` and `stop` (truncation, stop-sequence matching) happens inside the external engine.
- example/client.py is a network client script that is not part of the service.
