/**
 * The orchestrator (`App`, src/App.jsx): the conversation, the choice of
 * provider, the send state machine around a provider call, and the voice
 * controls. Speech output and the recognizer's start/stop are recorded as
 * effects; how a provider call settles is an input.
 */
module Orchestrator {
  import opened Types
  import opened Text
  import opened Request
  import opened Response
  import Composer

  const GeminiProvider: string := "gemini"
  const LocalProvider: string := "local"

  /** The number of attempts the orchestrator grants the Gemini service. */
  const GeminiRetries: int := 3

  const ConfigMessage: string := "Please set your Gemini API Key in the settings."
  const TroubleMessage: string := "I'm having trouble connecting right now."
  /** The TypeError of calling `sendMessage` on the missing Gemini service (V8 wording). */
  const NullServiceError: string := "Cannot read properties of null (reading 'sendMessage')"
  /** The TypeError of reading `.text` of an undefined response (V8 wording). */
  const UndefinedResponseError: string := "Cannot read properties of undefined (reading 'text')"

  datatype InputMode = VoiceMode | TextMode

  /** What a model message shows: a structured response, a plain notice, or `undefined`. */
  datatype ModelBody = Structured(response: StructuredResponse) | Notice(text: string) | Undefined

  datatype Message = UserMessage(text: string) | ModelMessage(body: ModelBody)

  /** Calls into the speech synthesizer and the speech recognizer, in order. */
  datatype Effect = Speak(text: string) | CancelSpeech | StartListening | StopListening

  /** The service a send goes to; `MissingGemini` is the null Gemini reference of an unknown provider without a key. */
  datatype Service = LocalService | GeminiService | MissingGemini

  /**
   * What the first half of a send decided: nothing (blank text), the
   * configuration notice, or a call to a service with the message handed
   * to the provider, the attachment, the retry budget and the input mode
   * the handler was created with.
   */
  datatype Dispatch =
    | Dropped
    | Unconfigured
    | Call(service: Service, message: string, fileContext: Attachment, retries: int, mode: InputMode)

  /**
   * `text && text.trim()`: the handler only sends text that has a
   * character other than whitespace (AcceptsUntrimmed ties this to `trim`).
   */
  predicate Accepts(text: string)
    ensures Accepts(text) ==> text != []
  {
    !Blank(text)
  }

  /** The handler's test is `text && text.trim()`: it accepts exactly the texts that trimming does not empty. */
  lemma AcceptsUntrimmed(text: string)
    ensures Accepts(text) <==> text != [] && Trim(text) != []
  {
    BlankIsTrimmedAway(text);
  }

  /**
   * The user's message as shown: the text itself, or the text after a
   * "[Attached: name]" line when a file came with it.
   */
  function UserText(text: string, file: Option<FileRef>): (shown: string)
    ensures file.None? ==> shown == text
    ensures file.Some? ==> "[Attached: " + file.value.name + "]\n" <= shown
    ensures file.Some? ==> |shown| == |"[Attached: " + file.value.name + "]\n"| + |text|
    ensures |text| <= |shown| && shown[|shown| - |text|..] == text
  {
    if file.Some? then "[Attached: " + file.value.name + "]\n" + text else text
  }

  /** The service a dispatched send goes to: "local" to the local engine, any other provider to Gemini, which may be missing. */
  function ServiceFor(provider: string, hasGeminiService: bool): (s: Service)
    ensures s == LocalService <==> provider == LocalProvider
    ensures s == MissingGemini <==> provider != LocalProvider && !hasGeminiService
  {
    if provider == LocalProvider then LocalService
    else if hasGeminiService then GeminiService
    else MissingGemini
  }

  /** The retry budget handed over: 3 attempts for Gemini; the local service is given none and ignores it. */
  function RetriesFor(provider: string): (n: int)
    ensures provider != LocalProvider ==> n == GeminiRetries
  {
    if provider == LocalProvider then 0 else GeminiRetries
  }

  /** The file read as text becomes the attachment; no file or a failed read gives none. */
  function ReadAttachment(file: Option<FileRef>, fileRead: Option<string>): (a: Attachment)
    ensures !IsBinary(a)
    ensures file.None? || fileRead.None? ==> a == NoAttachment
    ensures file.Some? && fileRead.Some? ==> a == TextContent(fileRead.value)
  {
    if file.Some? && fileRead.Some? then TextContent(fileRead.value) else NoAttachment
  }

  /** `error.message || "I'm having trouble connecting right now."` */
  function ShownError(message: string): (r: string)
    ensures r != []
    ensures message != [] ==> r == message
  {
    if message != [] then message else TroubleMessage
  }

  /** How a dispatched call settles: the missing service throws before any provider runs. */
  function Settled(service: Service, reply: Outcome): Outcome
  {
    if service == MissingGemini then Threw(NullServiceError) else reply
  }

  /**
   * The model messages appended once the call has settled, in the input
   * mode the handler was created with. An `undefined` response is appended
   * as it is; only in voice mode is its `.text` read, which throws.
   */
  function ReplyMessages(settled: Outcome, mode: InputMode): (ms: seq<Message>)
    ensures 1 <= |ms| <= 2
    ensures |ms| == 2 <==> settled == NoResult && mode == VoiceMode
    ensures settled.Returned? ==> ms == [ModelMessage(Structured(settled.response))]
    ensures settled.Threw? ==> ms == [ModelMessage(Notice(ShownError(settled.message)))]
    ensures settled.NoResult? ==> ms[0] == ModelMessage(Undefined)
    ensures |ms| == 2 ==> ms[1] == ModelMessage(Notice(ShownError(UndefinedResponseError)))
  {
    match settled
    case Returned(r) => [ModelMessage(Structured(r))]
    case Threw(m) => [ModelMessage(Notice(ShownError(m)))]
    case NoResult =>
      if mode == VoiceMode then [ModelMessage(Undefined), ModelMessage(Notice(ShownError(UndefinedResponseError)))]
      else [ModelMessage(Undefined)]
  }

  /** What a model message reads aloud: the response text or the notice. */
  function ShownText(m: Message): string
  {
    match m
    case UserMessage(t) => t
    case ModelMessage(Structured(r)) => r.text
    case ModelMessage(Notice(t)) => t
    case ModelMessage(Undefined) => []
  }

  /** What is spoken once the call has settled: nothing in text mode, nor for an empty response text. */
  function ReplySpeech(settled: Outcome, mode: InputMode): (es: seq<Effect>)
    ensures mode == TextMode ==> es == []
    ensures |es| <= 1
    ensures mode == VoiceMode && settled.Returned? ==> (es == [] <==> settled.response.text == [])
    ensures mode == VoiceMode && !settled.Returned? ==> es != []
  {
    if mode == TextMode then []
    else
      match settled
      case Returned(r) => if r.text != [] then [Speak(r.text)] else []
      case Threw(m) => [Speak(ShownError(m))]
      case NoResult => [Speak(ShownError(UndefinedResponseError))]
  }

  /** Whatever is spoken is what the last appended message shows, and in voice mode a notice is always spoken. */
  lemma {:induction false} SpeechMatchesLastMessage(settled: Outcome, mode: InputMode)
    ensures var ms := ReplyMessages(settled, mode);
      forall e :: e in ReplySpeech(settled, mode) ==> e == Speak(ShownText(ms[|ms| - 1])) && e.text != []
    ensures mode == VoiceMode && !settled.Returned? ==> |ReplySpeech(settled, mode)| == 1
    ensures var ms := ReplyMessages(settled, mode);
      mode == VoiceMode ==> (|ReplySpeech(settled, mode)| == 1 <==> ShownText(ms[|ms| - 1]) != [])
  {
    match settled
    case Returned(r) =>
    case Threw(m) =>
    case NoResult =>
      if mode == VoiceMode {
        assert ShownText(ReplyMessages(settled, mode)[1]) == ShownError(UndefinedResponseError);
      }
  }

  /**
   * The composer and the orchestrator disagree on a file with a blank
   * draft: the composer hands it over, and the orchestrator drops it
   * without a trace. Exactly such sends are lost.
   */
  lemma {:induction false} LostSends(text: string, file: Option<FileRef>, isProcessing: bool)
    ensures (!Composer.SendBlocked(text, file, isProcessing) && !Accepts(text))
      <==> (file.Some? && !isProcessing && forall i :: 0 <= i < |text| ==> IsWhitespace(text[i]))
  {
    BlankIsTrimmedAway(text);
    BlankAll(text);
  }

  class App {
    var messages: seq<Message>
    var isProcessing: bool
    var inputMode: InputMode
    var provider: string
    var apiKey: string
    /** Whether the Gemini service reference is set. */
    var hasGeminiService: bool
    var isListening: bool
    var isSpeaking: bool
    var transcript: string
    var effects: seq<Effect>

    /** A key in the settings always has a Gemini service behind it. */
    ghost predicate Valid()
      reads this
    {
      apiKey != [] ==> hasGeminiService
    }

    /**
     * The first render: the stored key (or none) and the stored provider
     * (or Gemini), an empty conversation in voice mode, and a Gemini
     * service exactly when a key is stored.
     */
    constructor (storedKey: Option<string>, storedProvider: Option<string>)
      ensures Valid()
      ensures apiKey == (if storedKey.Some? then storedKey.value else [])
      ensures provider == (if storedProvider.Some? && storedProvider.value != [] then storedProvider.value else GeminiProvider)
      ensures hasGeminiService <==> apiKey != []
      ensures messages == [] && !isProcessing && inputMode == VoiceMode
      ensures !isListening && !isSpeaking && transcript == [] && effects == []
    {
      var key := if storedKey.Some? then storedKey.value else [];
      apiKey := key;
      provider := if storedProvider.Some? && storedProvider.value != [] then storedProvider.value else GeminiProvider;
      hasGeminiService := key != [];
      messages := [];
      isProcessing := false;
      inputMode := VoiceMode;
      isListening := false;
      isSpeaking := false;
      transcript := [];
      effects := [];
    }

    /**
     * `handleSendMessage` up to the provider call: drops blank text,
     * appends the user's message, resets the transcript, then either
     * posts the configuration notice (Gemini without a key) or marks the
     * conversation busy and dispatches. `fileRead` is the file read as
     * text, None when the read failed.
     */
    method BeginSend(text: string, file: Option<FileRef>, fileRead: Option<string>) returns (d: Dispatch)
      requires Valid()
      modifies this
      ensures Valid()
      ensures d == Dropped <==> !Accepts(text)
      ensures d == Dropped ==>
        && messages == old(messages) && isProcessing == old(isProcessing)
        && effects == old(effects) && transcript == old(transcript)
      ensures d != Dropped ==> transcript == []
      ensures d != Dropped ==> (d == Unconfigured <==> provider == GeminiProvider && !hasGeminiService)
      ensures apiKey != [] ==> d != Unconfigured
      ensures d == Unconfigured ==>
        && messages == old(messages) + [UserMessage(UserText(text, file)), ModelMessage(Notice(ConfigMessage))]
        && effects == old(effects) + [Speak(ConfigMessage)]
        && isProcessing == old(isProcessing)
      ensures d.Call? ==>
        && d == Call(ServiceFor(provider, hasGeminiService), text, ReadAttachment(file, fileRead), RetriesFor(provider), inputMode)
        && messages == old(messages) + [UserMessage(UserText(text, file))]
        && effects == old(effects)
        && isProcessing
      ensures provider == old(provider) && apiKey == old(apiKey) && hasGeminiService == old(hasGeminiService)
      ensures inputMode == old(inputMode) && isListening == old(isListening) && isSpeaking == old(isSpeaking)
    {
      if Blank(text) {
        return Dropped;
      }

      // a failed read is swallowed: the send goes on without the file's content
      var fileContext := ReadAttachment(file, fileRead);
      var userMsg := UserMessage(UserText(text, file));
      messages := messages + [userMsg];
      transcript := [];

      if provider == GeminiProvider && !hasGeminiService {
        var notice := ModelMessage(Notice(ConfigMessage));
        messages := messages + [notice];
        assert messages == old(messages) + [userMsg, notice];
        effects := effects + [Speak(ConfigMessage)];
        return Unconfigured;
      }

      isProcessing := true;
      // the provider gets the untagged text
      if provider == LocalProvider {
        d := Call(LocalService, text, fileContext, 0, inputMode);
      } else if hasGeminiService {
        d := Call(GeminiService, text, fileContext, GeminiRetries, inputMode);
      } else {
        d := Call(MissingGemini, text, fileContext, GeminiRetries, inputMode);
      }
    }

    /**
     * `handleSendMessage` after the provider call, with `reply` how the
     * call settled: appends the response or the error notice, speaks it in
     * voice mode (as captured when the send began), and clears the busy flag.
     */
    method FinishSend(d: Dispatch, reply: Outcome)
      requires d.Call?
      modifies this
      ensures messages == old(messages) + ReplyMessages(Settled(d.service, reply), d.mode)
      ensures effects == old(effects) + ReplySpeech(Settled(d.service, reply), d.mode)
      ensures !isProcessing
      ensures provider == old(provider) && apiKey == old(apiKey) && hasGeminiService == old(hasGeminiService)
      ensures inputMode == old(inputMode) && isListening == old(isListening) && isSpeaking == old(isSpeaking)
      ensures transcript == old(transcript)
    {
      var settled := if d.service == MissingGemini then Threw(NullServiceError) else reply;
      match settled {
        case Returned(responseData) =>
          messages := messages + [ModelMessage(Structured(responseData))];
          if d.mode == VoiceMode && responseData.text != [] {
            effects := effects + [Speak(responseData.text)];
          }
        case Threw(e) =>
          var errorMessage := if e != [] then e else TroubleMessage;
          messages := messages + [ModelMessage(Notice(errorMessage))];
          if d.mode == VoiceMode {
            effects := effects + [Speak(errorMessage)];
          }
        case NoResult =>
          messages := messages + [ModelMessage(Undefined)];
          if d.mode == VoiceMode {
            // reading `.text` of the undefined response throws a TypeError
            messages := messages + [ModelMessage(Notice(UndefinedResponseError))];
            effects := effects + [Speak(UndefinedResponseError)];
          }
      }
      isProcessing := false;
    }

    /**
     * `handleSendMessage(text, file)` as a whole: a blank text changes
     * nothing; an accepted send appends the user's message and then exactly
     * the reply's messages, hands the provider the untagged text, and is no
     * longer busy afterwards.
     */
    method HandleSendMessage(text: string, file: Option<FileRef>, fileRead: Option<string>, reply: Outcome)
      returns (d: Dispatch)
      requires Valid()
      modifies this
      ensures Valid()
      ensures !Accepts(text) <==> d == Dropped
      ensures d == Dropped ==>
        && messages == old(messages) && isProcessing == old(isProcessing)
        && effects == old(effects) && transcript == old(transcript)
      ensures d != Dropped ==> transcript == []
      ensures d != Dropped ==> (d == Unconfigured <==> provider == GeminiProvider && !hasGeminiService)
      ensures apiKey != [] ==> d != Unconfigured
      ensures d == Unconfigured ==>
        && messages == old(messages) + [UserMessage(UserText(text, file)), ModelMessage(Notice(ConfigMessage))]
        && effects == old(effects) + [Speak(ConfigMessage)]
        && isProcessing == old(isProcessing)
      ensures d.Call? ==>
        && d == Call(ServiceFor(provider, hasGeminiService), text, ReadAttachment(file, fileRead), RetriesFor(provider), inputMode)
        && messages == old(messages) + [UserMessage(UserText(text, file))] + ReplyMessages(Settled(d.service, reply), d.mode)
        && effects == old(effects) + ReplySpeech(Settled(d.service, reply), d.mode)
        && !isProcessing
      ensures provider == old(provider) && apiKey == old(apiKey) && hasGeminiService == old(hasGeminiService)
      ensures inputMode == old(inputMode) && isListening == old(isListening) && isSpeaking == old(isSpeaking)
    {
      d := BeginSend(text, file, fileRead);
      if d.Call? {
        FinishSend(d, reply);
      }
    }

    /**
     * The transcript effect: a finished utterance (a non-empty transcript
     * with the recognizer stopped) is sent as a message without a file,
     * exactly as the composer's text would be; a blank utterance, or one
     * still being heard, changes nothing.
     */
    method TranscriptEffect(reply: Outcome) returns (d: Dispatch)
      requires Valid()
      modifies this
      ensures Valid()
      ensures d == Dropped <==> old(isListening) || !Accepts(old(transcript))
      ensures d == Dropped ==>
        && messages == old(messages) && isProcessing == old(isProcessing)
        && effects == old(effects) && transcript == old(transcript)
      ensures d != Dropped ==> transcript == []
      ensures d != Dropped ==> (d == Unconfigured <==> provider == GeminiProvider && !hasGeminiService)
      ensures apiKey != [] ==> d != Unconfigured
      ensures d == Unconfigured ==>
        && messages == old(messages) + [UserMessage(old(transcript)), ModelMessage(Notice(ConfigMessage))]
        && effects == old(effects) + [Speak(ConfigMessage)]
        && isProcessing == old(isProcessing)
      ensures d.Call? ==>
        && d == Call(ServiceFor(provider, hasGeminiService), old(transcript), NoAttachment, RetriesFor(provider), inputMode)
        && messages == old(messages) + [UserMessage(old(transcript))] + ReplyMessages(Settled(d.service, reply), d.mode)
        && effects == old(effects) + ReplySpeech(Settled(d.service, reply), d.mode)
        && !isProcessing
      ensures provider == old(provider) && apiKey == old(apiKey) && hasGeminiService == old(hasGeminiService)
      ensures inputMode == old(inputMode) && isListening == old(isListening) && isSpeaking == old(isSpeaking)
    {
      d := Dropped;
      if transcript != [] && !isListening {
        d := HandleSendMessage(transcript, None, None, reply);
      }
    }

    /** `toggleListening`: stops the recognizer when listening; otherwise silences any speech, then starts it. */
    method ToggleListening()
      modifies this
      ensures old(isListening) ==> effects == old(effects) + [StopListening] && isSpeaking == old(isSpeaking)
      ensures !old(isListening) && old(isSpeaking) ==> effects == old(effects) + [CancelSpeech, StartListening] && !isSpeaking
      ensures !old(isListening) && !old(isSpeaking) ==> effects == old(effects) + [StartListening] && !isSpeaking
      ensures messages == old(messages) && isProcessing == old(isProcessing) && inputMode == old(inputMode)
      ensures isListening == old(isListening) && transcript == old(transcript)
      ensures apiKey == old(apiKey) && hasGeminiService == old(hasGeminiService) && provider == old(provider)
    {
      if isListening {
        effects := effects + [StopListening];
      } else {
        if isSpeaking {
          effects := effects + [CancelSpeech];
          isSpeaking := false;
        }
        effects := effects + [StartListening];
      }
    }

    /** The "Switch to Text" button: stops the recognizer and the speech, then shows the composer. */
    method SwitchToText()
      modifies this
      ensures effects == old(effects) + [StopListening, CancelSpeech]
      ensures !isSpeaking && inputMode == TextMode
      ensures messages == old(messages) && isProcessing == old(isProcessing) && isListening == old(isListening)
      ensures transcript == old(transcript)
      ensures apiKey == old(apiKey) && hasGeminiService == old(hasGeminiService) && provider == old(provider)
    {
      effects := effects + [StopListening, CancelSpeech];
      isSpeaking := false;
      inputMode := TextMode;
    }

    /** The composer's microphone button: back to voice mode, nothing else. */
    method SwitchToVoice()
      modifies this
      ensures inputMode == VoiceMode
      ensures effects == old(effects) && messages == old(messages) && isProcessing == old(isProcessing)
      ensures isListening == old(isListening) && isSpeaking == old(isSpeaking) && transcript == old(transcript)
      ensures apiKey == old(apiKey) && hasGeminiService == old(hasGeminiService) && provider == old(provider)
    {
      inputMode := VoiceMode;
    }

    /**
     * `handleSaveSettings` with the key effect it triggers: provider and
     * key are replaced; a non-empty key (re)creates the Gemini service, and
     * clearing the key keeps the old one.
     */
    method SaveSettings(newProvider: string, newKey: string)
      requires Valid()
      modifies this
      ensures Valid()
      ensures provider == newProvider && apiKey == newKey
      ensures hasGeminiService == (old(hasGeminiService) || newKey != [])
      ensures messages == old(messages) && isProcessing == old(isProcessing) && inputMode == old(inputMode)
      ensures effects == old(effects) && isListening == old(isListening) && isSpeaking == old(isSpeaking)
      ensures transcript == old(transcript)
    {
      provider := newProvider;
      apiKey := newKey;
      if newKey != [] {
        hasGeminiService := true;
      }
    }

    /** The speech recognizer reporting its state and the transcript so far. */
    method RecognitionEvent(listening: bool, heard: string)
      modifies this
      ensures isListening == listening && transcript == heard
      ensures messages == old(messages) && effects == old(effects) && isSpeaking == old(isSpeaking)
      ensures isProcessing == old(isProcessing) && inputMode == old(inputMode)
      ensures apiKey == old(apiKey) && hasGeminiService == old(hasGeminiService) && provider == old(provider)
    {
      isListening := listening;
      transcript := heard;
    }

    /** An utterance starting, ending or failing. */
    method SpeechEvent(speaking: bool)
      modifies this
      ensures isSpeaking == speaking
      ensures messages == old(messages) && effects == old(effects) && isListening == old(isListening)
      ensures isProcessing == old(isProcessing) && inputMode == old(inputMode) && transcript == old(transcript)
      ensures apiKey == old(apiKey) && hasGeminiService == old(hasGeminiService) && provider == old(provider)
    {
      isSpeaking := speaking;
    }
  }
}
