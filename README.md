# Agentic Encyclopedia — provider dispatch and send state machine

This project models the core of Agentic Encyclopedia, a voice-and-text
encyclopedia assistant that runs in the browser, in Dafny. The model
covers:

- the three provider clients: the Gemini chat-session service
  (`AIService`), the Groq chat-completion service (`GroqService`) and
  the in-browser Llama 3 service (`LocalAIService`);
- the orchestrator (`App`), which turns a user's text or voice
  transcript into a provider call and a reply in the conversation;
- the text composer (`MessageInput`).

Each provider does four things, and the model states each one:

- It shapes the outbound request from the message and the attachment.
- It picks a model or capability path. A binary attachment switches the
  Groq model to the vision model, and makes the local service return a
  fixed warning.
- It cleans the model's reply and parses it. Cleaning removes every
  "```json" and "```" and then trims. When parsing fails, the provider
  falls back to its own structured record, which keeps the raw reply.
- It classifies failures. Gemini retries only rate-limit (429) and
  overload (503) errors, with delays of 2^(i+1)·1000 ms, and maps what
  remains to user-facing messages. Groq builds an error text from the
  HTTP status. The local service rethrows.

External effects are inputs to the model:

- **Network and SDK.** The Gemini chat session is a function from the
  attempt number to a `Reply` (`Ok(text)` or `Err(message)`). The Groq
  `fetch` is an `HttpReply`. Loading the local engine is a `LoadResult`,
  and its completion call is a `Reply`.
- **`JSON.parse`.** It is an uninterpreted `Parser`. The model leaves
  open which texts parse.
- **Provider replies in the orchestrator.** How a provider call settles
  is a parameter of the orchestrator's send.
- **Speech.** Speech synthesis and recognition are logged as effects
  (`Speak`, `CancelSpeech`, `StartListening`, `StopListening`).
  Recognizer and synthesizer events are methods of their own.

The model follows the code where it departs from the intended design:

- **Fallbacks keep the raw reply.** The fallback record holds the raw,
  uncleaned reply, not the cleaned text.
- **The local engine loads first.** The local service loads its engine
  before it looks at the attachment.
- **File-only sends are lost.** The composer lets a file with a blank
  draft through, but the orchestrator drops such a send without a trace.
  `Orchestrator.LostSends` characterises exactly these sends.
- **Only the composer guards against a busy reply.** The orchestrator's
  send does not check `isProcessing` itself.
- **Attachments reach the providers as text.** The orchestrator reads
  every file as text, so a provider never receives a binary attachment
  from it (`Orchestrator.ReadAttachment`).
- **Unrecognised providers go to Gemini.** A provider other than "local"
  is sent to Gemini with a budget of 3 attempts. If such a provider has
  no Gemini service, calling the missing service throws a TypeError,
  which the conversation shows.
- **Groq is not wired in.** The orchestrator never calls the Groq
  service.

Files:

- `types.dfy` and `text.dfy`: shared values and the JavaScript string
  operations the code relies on (`includes`, `trim`, a global literal
  `replace`, `split(',')[1]`).
- `request.dfy` and `response.dfy`: the attachment, the request parts,
  the structured response and the fence-stripping normalisation.
- `gemini.dfy`, `groq.dfy` and `local.dfy`: the three services.
- `app.dfy`: the orchestrator.
- `composer.dfy`: the composer.

## Model

| member | source | states |
|---|---|---|
| `Text.TrimStart` | src/services/aiService.js:102 | leading whitespace (the ECMAScript WhiteSpace and LineTerminator set) is dropped; the result is a suffix that starts with a non-whitespace character |
| `Text.ContainsIff` | src/services/aiService.js:122 | `includes` agrees with the slice definition: the pattern occurs in the text exactly when it equals the slice at some position |
| `Text.TrimEnd` | src/services/aiService.js:102 | trailing whitespace is dropped; the result is a prefix that ends with a non-whitespace character |
| `Text.BlankIff` | src/components/MessageInput.jsx:11 | `text.trim()` is empty exactly when every character of the text is whitespace |
| `Text.BlankIsTrimmedAway` | src/App.jsx:69 | the orchestrator's blank test on the characters agrees with `!text.trim()` |
| `Text.TrimIdempotent` | src/services/aiService.js:102 | trimming twice is trimming once |
| `Orchestrator.AcceptsUntrimmed` | src/App.jsx:69 | the handler's test `text && text.trim()` holds exactly for a non-empty text that trimming does not empty |
| `Text.Trim` | src/services/aiService.js:102 | `trim()` never lengthens the text, and a non-empty result neither starts nor ends with whitespace |
| `Text.NoFenceAfterRemoval` | src/services/aiService.js:102 | after `replace(/```/g, '')` no "```" is left anywhere, even where runs of backticks meet |
| `Text.RemoveAll` | src/services/aiService.js:102 | a global literal `replace(/x/g, '')` is never longer than the text, and every character of the result comes from the text |
| `Text.RemoveAllOnlyDeletes` | src/services/aiService.js:102 | the global removal only deletes: the result is a subsequence of the text, in order |
| `Text.RemoveAbsent` | src/services/aiService.js:102 | a global replace of a pattern that does not occur leaves the text unchanged |
| `Text.SecondField` | src/services/aiService.js:64 | `split(',')[1]` is defined exactly when the text has a comma, and holds no comma |
| `Text.SecondFieldOfDataUrl` | src/services/aiService.js:63-64 | for a data URL "header,payload" the base64 payload is what remains after the header is removed |
| `Text.NatToString` | src/services/groqService.js:97 | a status code renders as decimal digits that denote exactly that number, with no leading zero except for 0 itself |
| `Request.FileTemplate` | src/services/aiService.js:73-75 | the merged text is exactly the file-content header, the whole file content, the "\n---\n\nUser Question: " delimiter and the user's question, in that order, so it contains the file content |
| `Request.FileText` | src/services/aiService.js:73 | `fileContext.data || fileContext` as rendered is never empty: a bare string is itself, a record its non-empty `data`, otherwise "[object Object]" |
| `Response.StripFences` | src/services/aiService.js:102 | the cleaning shared by all three services (also src/services/groqService.js:104 and src/services/localAiService.js:102): the cleaned text contains neither "```json" nor "```", has no outer whitespace, and is never longer than the reply |
| `Response.StripFencesIdempotent` | src/services/aiService.js:102 | cleaning a cleaned text changes nothing |
| `Response.StripFencesKeepsPlainReply` | src/services/aiService.js:102 | a reply with no backtick and no outer whitespace reaches the parser unchanged |
| `Response.FencedReplyUnwraps` | src/services/aiService.js:101-102 | a reply "```json\n" + body + "\n```" reaches the parser as the body, provided the body has no backtick and no outer whitespace; a body holding "```" loses that fence too |
| `Response.FencesComeOff` | src/services/aiService.js:102 | both fences come off a block whose content has no backtick |
| `Response.LineFeedsTrimmed` | src/services/aiService.js:102 | for block content without outer whitespace, trimming removes the line feeds around it and nothing else |
| `Response.NormalizeIgnoresFence` | src/services/aiService.js:102-116 | for a body with no backtick and no outer whitespace, normalising it wrapped in a ```json block gives the same response as normalising it bare |
| `Gemini.Fallback` | src/services/aiService.js:109-115 | an unparsable reply becomes the raw reply with sources ["Unknown"], confidence 0, analysis {Unknown, "Failed to parse structured response"} and no recommendations; its confidence lies within 0..100 |
| `Gemini.ErrorText` | src/services/aiService.js:119 | the error text is `error.message` when there is one, else "Unknown error occurred"; it is never empty |
| `Gemini.TransientCodes` | src/services/aiService.js:122 | `IsTransient`: a message that mentions 429 or 503 anywhere is retried, and one without the digits 4 and 5 never is |
| `Gemini.MapError` | src/services/aiService.js:133-136 | the final error is checked in the order 403 (invalid key), 404 (model not found), 429 (quota); any other message is thrown as it is, and the result is empty only for an empty message |
| `Gemini.BackoffDoubles` | src/services/aiService.js:124-125 | the first wait is 2000 ms, each wait doubles the one before, and the wait k retries later is 2^k times as long |
| `Gemini.Pow2Add` | src/services/aiService.js:125 | the backoff factor `Math.pow(2, n)` satisfies 2^(a+b) = 2^a · 2^b |
| `Gemini.BackoffScheduleElements` | src/services/aiService.js:124-125 | the k-th delay of the schedule of retries after attempt i is the wait after attempt i + k |
| `Gemini.RetryFrom` | src/services/aiService.js:94-138 | with budget `retries`, the loop from iteration i makes between i+1 and `retries` attempts |
| `Gemini.Settle` | src/services/aiService.js:102-139 | a reply resolves to a response, a failure rejects with a non-empty error, and only a loop without attempts resolves to `undefined` |
| `Gemini.RetryAttempts` | src/services/aiService.js:94-139 | with no budget there is no attempt and the result is `undefined`; otherwise there is one delay before every attempt except the first, and the loop ends with a reply or an error |
| `Gemini.RetryDelays` | src/services/aiService.js:122-129 | the delays passed to `onRetry` are 2000, 4000, 8000, … ms in order, doubling per retry |
| `Gemini.RetryOnlyTransient` | src/services/aiService.js:122-130 | every attempt before the last failed with a message containing 429 or 503 |
| `Gemini.RetryLastAttempt` | src/services/aiService.js:117-137 | the last attempt decides the end: the loop ends with its reply or its error, and a transient error ends the loop only when the budget is spent |
| `Gemini.ThreeRetriesOfPersistentFailure` | src/services/aiService.js:94-136 | with 3 attempts that all fail transiently, the delays are exactly [2000, 4000], there are 3 attempts, and the mapped last error is thrown |
| `Gemini.ExhaustedTransientMessages` | src/services/aiService.js:119-136 | for every error message, an exhausted 503 that mentions no other code rethrows its own message, and an exhausted 429 throws the quota message |
| `Gemini.BudgetAlwaysSettles` | src/services/aiService.js:94-139 | with a budget of at least 1, `sendMessage` never resolves to `undefined` |
| `Gemini.FirstReplySettles` | src/services/aiService.js:94-116 | when the first call replies, the loop ends at once with one attempt and no `onRetry` delay, whatever the budget, and `sendMessage` resolves, never rejects, to the parsed cleaned text or else the fallback around the raw reply |
| `Gemini.AIService.constructor` | src/services/aiService.js:30-51 | without a key there is no client, model or chat; with a key there is a chat on gemini-2.0-flash-exp, primed with the system prompt and the acknowledgement |
| `Gemini.AIService.SendMessage` | src/services/aiService.js:53-139 | a missing client throws "API Key is missing…" before any attempt; the parts are [text], [inline data of the payload after the comma, text] or [file template], by attachment; the loop and its outcome are those of `RetryFrom` and `Settle` |
| `Groq.StatusErrorText` | src/services/groqService.js:95-97 | a failed response's error is the body's `error.message` when it has one, else "Groq API Error: " followed by the status, and it is never empty |
| `Groq.Fallback` | src/services/groqService.js:110-116 | an unparsable reply becomes the raw reply with sources ["Groq LLM"], confidence 90, analysis {Unknown, "Groq Inference"} and no recommendations; its confidence lies within 0..100 |
| `Groq.GroqService.constructor` | src/services/groqService.js:29-35 | the service keeps the key it is given, even an empty one, and the fixed endpoint |
| `Groq.GroqService.SendMessage` | src/services/groqService.js:37-123 | a missing key throws before any request. Otherwise the request goes to the endpoint with a Bearer key, the text model or, for a binary attachment, the vision model, exactly [system, user] messages, user content [text], [text, full data URL] or [file template], temperature 0.5, max_tokens 1024, no streaming and JSON output. A fetch failure or unreadable body is rethrown, a non-ok response throws its error text, and a reply is normalised |
| `Local.UnsupportedWarning` | src/services/localAiService.js:72-78 | the answer to a binary attachment is the fixed text-only warning with sources ["System Warning"], confidence 100 and analysis {File Analysis, Unsupported in Local Mode}; its confidence lies within 0..100 |
| `Local.Fallback` | src/services/localAiService.js:107-113 | an unparsable reply becomes the raw reply with sources ["Local Knowledge"], confidence 80 and analysis {Unknown, "Local Inference"}; its confidence lies within 0..100 |
| `Local.FullMessage` | src/services/localAiService.js:81-85 | the user turn is the message itself when there is no attachment, else exactly the file template the other providers use; it always ends with the message |
| `Local.LocalAIService.constructor` | src/services/localAiService.js:34-38 | a new service has no engine and is not loaded |
| `Local.LocalAIService.Initialize` | src/services/localAiService.js:40-63 | a loaded engine is kept; a successful load installs the Llama-3-8B-Instruct-q4f32_1-MLC engine and sets `isLoaded`; a failed load rethrows and leaves no engine; `isLoaded` always tracks the engine |
| `Local.LocalAIService.SendMessage` | src/services/localAiService.js:65-119 | a missing engine is loaded first, even for a binary attachment, and a failed load is thrown. A binary attachment gets the warning without any inference call. Otherwise the engine is asked [system, user full message] at temperature 0.7 with max_tokens 1024 exactly once, whatever `retries` is. Its error is rethrown and its reply normalised |
| `Composer.MessageInput.constructor` | src/components/MessageInput.jsx:6-7 | the composer starts with an empty draft and no file |
| `Composer.MessageInput.SetText` | src/components/MessageInput.jsx:93 | typing replaces the draft and keeps the file |
| `Composer.MessageInput.HandleSend` | src/components/MessageInput.jsx:10-18 | a send happens exactly when the send button is enabled and the guard passes; it hands over the untrimmed draft and the file, then clears both; a blocked send changes nothing |
| `Composer.MessageInput.HandleKeyDown` | src/components/MessageInput.jsx:20-25 | Enter without Shift suppresses the line break and acts exactly like the send button; any other key, Shift+Enter included, does nothing |
| `Composer.MessageInput.HandleFileChange` | src/components/MessageInput.jsx:27-31 | the first chosen file replaces the pending one; an empty choice keeps it; the draft is untouched |
| `Composer.MessageInput.RemoveFile` | src/components/MessageInput.jsx:33-36 | the pending file is dropped and the draft kept |
| `Composer.SendBlocked` | src/components/MessageInput.jsx:11 | a send is blocked exactly when a reply is in progress, or there is no file and every character of the draft is whitespace |
| `Composer.MessageInput.Disabled` | src/components/MessageInput.jsx:104 | the send button uses the same guard: a reply in progress always disables it, and a pending file enables it whatever the draft holds |
| `Orchestrator.ReadAttachment` | src/App.jsx:72-82 | the provider receives exactly the file read as text, or nothing when there is no file or the read failed; never a binary attachment |
| `Orchestrator.UserText` | src/App.jsx:85 | the message shown is the text itself, or, with a file, the "[Attached: name]" line immediately followed by the text |
| `Orchestrator.ServiceFor` | src/App.jsx:98-110 | "local" goes to the local service; any other provider goes to Gemini, whose service is missing exactly when there is no Gemini service |
| `Orchestrator.RetriesFor` | src/App.jsx:103-107 | a send to Gemini gets a budget of 3 attempts |
| `Orchestrator.ShownError` | src/App.jsx:122 | the error shown is `error.message`, or the "trouble connecting" notice when that is empty; never empty |
| `Orchestrator.ReplyMessages` | src/App.jsx:112-124 | a settled call appends exactly one model message, the response or the error notice; an `undefined` response is appended as it is, and only in voice mode is it followed by the notice of the TypeError that reading its `.text` throws |
| `Orchestrator.ReplySpeech` | src/App.jsx:116-124 | nothing is spoken in text mode; in voice mode a response is spoken exactly when its text is non-empty, an error is always spoken, and at most one utterance is made |
| `Orchestrator.SpeechMatchesLastMessage` | src/App.jsx:112-124 | what is spoken is the text of the last appended message and is never empty; in voice mode something is spoken exactly when that message shows a non-empty text, and an error is always spoken |
| `Orchestrator.LostSends` | src/App.jsx:69 | the composer hands over and the orchestrator drops exactly those sends that have a file, an all-whitespace draft and no reply in progress |
| `Orchestrator.App.constructor` | src/App.jsx:17-59 | the stored key (or none) and stored provider (or "gemini"), an empty conversation in voice mode, and a Gemini service exactly when a key is stored |
| `Orchestrator.App.BeginSend` | src/App.jsx:68-110 | blank text changes nothing. Otherwise the user message is appended, tagged "[Attached: name]" when a file came with it, and the transcript is reset. Gemini without a service then appends and speaks the configuration notice, in any mode, without becoming busy; a saved key never gets this notice. Every other send becomes busy and dispatches the untagged text and the attachment to the local service, or to Gemini with 3 attempts, using the input mode of the moment |
| `Orchestrator.App.FinishSend` | src/App.jsx:112-127 | the reply messages and speech of the settled call are appended, and the conversation is no longer busy on success or failure |
| `Orchestrator.App.HandleSendMessage` | src/App.jsx:68-128 | a blank text changes nothing, transcript included; an accepted send resets the transcript, appends the user message and then exactly the reply's messages and speech, hands the provider the untagged text, and ends not busy; the configuration notice case is as in `BeginSend` |
| `Orchestrator.App.TranscriptEffect` | src/App.jsx:131-135 | a finished, non-blank transcript with the recognizer stopped is sent exactly like composer text without a file: the user message, the reply's messages and speech, the cleared transcript; a blank transcript or one still being heard changes nothing; settings, mode and voice flags are kept |
| `Orchestrator.App.ToggleListening` | src/App.jsx:137-144 | listening stops the recognizer; otherwise speech is cancelled if speaking, then the recognizer starts |
| `Orchestrator.App.SwitchToText` | src/App.jsx:194-198 | stops the recognizer and the speech, then shows the composer |
| `Orchestrator.App.SwitchToVoice` | src/App.jsx:208 | back to voice mode, nothing else changes |
| `Orchestrator.App.SaveSettings` | src/App.jsx:61-66 | provider and key are replaced; a non-empty key provides a Gemini service; clearing the key keeps the old service; a key always has a service behind it |
| `Orchestrator.App.RecognitionEvent` | src/App.jsx:29-36 | the recognizer's listening state and transcript are taken over as reported |
| `Orchestrator.App.SpeechEvent` | src/hooks/useTextToSpeech.js:29-34 | an utterance starting sets `isSpeaking`, one ending or failing clears it |

## Left out

- Network, SDKs and JSON parsing are inputs (see above). The model does not say which replies parse. A `JSON.parse` result that is not an object is returned verbatim by the code; the model only knows parsed values as `StructuredResponse`.
- The prompt wording (`SYSTEM_PROMPT` in each service) is an uninterpreted constant.
- The Gemini chat session's history grows with each exchange inside the SDK. The model records only the two priming turns it starts with.
- `Gemini.AIService.SendMessage`: the wait of `setTimeout` is not modelled; only the delay values passed to `onRetry` are recorded.
- The unused `messages` array built in `sendMessage` (src/services/aiService.js:79-92) is dead code and is not modelled.
- The local engine's progress callback, the progress bar and its hide timer are not modelled. They are display-only and use floating point.
- Concurrency is not modelled. Handlers run as atomic sequential steps. Two concurrent `initialize` calls and overlapping voice-triggered sends are not covered.
- `localStorage` writes in `handleSaveSettings` are not modelled. The stored values enter only through the constructor.
- The speech recognition hook (`src/hooks/useSpeechRecognition.js`) is not part of this model. Starting and stopping the recognizer are logged effects. Its state changes arrive through `RecognitionEvent`.
- Voice selection, rate and pitch in the speech hook are not modelled. `speak` is logged as an effect.
- Rendering is not modelled: chat bubbles, confidence colours, the voice orb, the settings modal and file previews.
- Confidence scores of successfully parsed replies are not checked or clamped by the code, and the model does not constrain them either.
- Strings are sequences of Unicode scalar values, while JavaScript strings are sequences of UTF-16 code units and may hold lone surrogates. The patterns matched here (backtick fences, status codes, commas) and the whitespace set of `trim` are unaffected.
- The TypeError messages for a missing Gemini service and an undefined response use the wording of V8-based browsers. Other engines word them differently.
