/**
 * The in-browser provider (`LocalAIService`,
 * src/services/localAiService.js): an engine that is loaded on first use,
 * a text-only model that answers binary attachments with a fixed warning,
 * and one completion call per message.
 */
module Local {
  import opened Types
  import opened Text
  import opened Request
  import opened Response

  const SelectedModel: string := "Llama-3-8B-Instruct-q4f32_1-MLC"

  /** The encyclopedia system prompt; its wording is not modelled. */
  const SystemPrompt: string

  const WarningText: string := "I cannot see images or PDFs when running locally (Llama 3 is text-only). Please switch to **Gemini (Cloud)** in Settings to analyze these files."

  /** A loaded engine, by the model it serves. */
  datatype Engine = Engine(model: string)

  /** How loading the engine settles: it resolves, or it rejects with a message. */
  datatype LoadResult = Loaded | LoadFailed(message: string)

  /** The completion request: the messages, the sampling temperature and the token cap. */
  datatype CompletionRequest = CompletionRequest(messages: seq<ChatMessage>, temperature: real, maxTokens: nat)

  /** The answer to a binary attachment: a full-confidence system warning, not an inference. */
  function UnsupportedWarning(): (r: StructuredResponse)
    ensures r.text == WarningText && r.sources == ["System Warning"] && r.confidenceScore == 100
    ensures r.analysis == Some(Analysis("File Analysis", "Unsupported in Local Mode")) && r.recommendations == []
    ensures ScoreInRange(r)
  {
    StructuredResponse(WarningText, ["System Warning"], 100, Some(Analysis("File Analysis", "Unsupported in Local Mode")), [])
  }

  /** The record returned when the reply does not parse: the raw reply, marked as local inference. */
  function Fallback(raw: string): (r: StructuredResponse)
    ensures r.text == raw && r.sources == ["Local Knowledge"] && r.confidenceScore == 80
    ensures r.analysis == Some(Analysis("Unknown", "Local Inference")) && r.recommendations == []
    ensures ScoreInRange(r)
  {
    StructuredResponse(raw, ["Local Knowledge"], 80, Some(Analysis("Unknown", "Local Inference")), [])
  }

  /** The single user turn: the message, or the file merged into the template when there is a (non-binary) attachment. */
  function FullMessage(message: string, fileContext: Attachment): (r: string)
    ensures !Truthy(fileContext) ==> r == message
    ensures Truthy(fileContext) ==> r == FileTemplate(FileText(fileContext), message)
    ensures Truthy(fileContext) ==> TemplateHead <= r && Contains(r, FileText(fileContext))
    ensures |message| <= |r| && r[|r| - |message|..] == message
  {
    if Truthy(fileContext) then FileTemplate(FileText(fileContext), message)
    else
      message
  }

  class LocalAIService {
    /** The loaded engine; null until a load succeeds. */
    var engine: Option<Engine>
    var isLoaded: bool

    /** The flag tracks the engine: it is set exactly when an engine is loaded. */
    ghost predicate Valid()
      reads this
    {
      isLoaded <==> engine.Some?
    }

    /** A new service has no engine; nothing is loaded until the first message. */
    constructor ()
      ensures engine == None && !isLoaded && Valid()
    {
      engine := None;
      isLoaded := false;
    }

    /**
     * `initialize()`, with `load` how loading the selected model settles.
     * `error` is the rejection it rethrows.
     */
    method Initialize(load: LoadResult) returns (error: Option<string>)
      requires Valid()
      modifies this
      ensures Valid()
      ensures old(engine).Some? ==> engine == old(engine) && isLoaded == old(isLoaded) && error == None
      ensures old(engine).None? && load.Loaded? ==> engine == Some(Engine(SelectedModel)) && isLoaded && error == None
      ensures old(engine).None? && load.LoadFailed? ==> engine == None && !isLoaded && error == Some(load.message)
    {
      if engine.Some? {
        return None;
      }
      match load
      case Loaded =>
        engine := Some(Engine(SelectedModel));
        isLoaded := true;
        error := None;
      case LoadFailed(e) =>
        error := Some(e);
    }

    /**
     * `sendMessage(message, fileContext, retries, onRetry)`, with `load`
     * how loading settles if it is needed and `completion` the reply of
     * the completion call. `retries` plays no part: there is one call at
     * most. `request` is what the engine is asked (None when it is not).
     */
    method SendMessage(message: string, fileContext: Attachment, retries: int, load: LoadResult, completion: Reply, parse: Parser)
      returns (request: Option<CompletionRequest>, outcome: Outcome)
      requires Valid()
      modifies this
      ensures Valid()
      ensures old(engine).Some? ==> engine == old(engine) && isLoaded == old(isLoaded)
      ensures old(engine).None? && load.Loaded? ==> engine == Some(Engine(SelectedModel)) && isLoaded
      ensures old(engine).None? && load.LoadFailed? ==>
        engine == None && !isLoaded && request == None && outcome == Threw(load.message)
      ensures engine.Some? && IsBinary(fileContext) ==> request == None && outcome == Returned(UnsupportedWarning())
      ensures engine.Some? && !IsBinary(fileContext) ==>
        request == Some(CompletionRequest(
          [ChatMessage("system", PlainText(SystemPrompt)), ChatMessage("user", PlainText(FullMessage(message, fileContext)))],
          0.7, 1024))
      ensures engine.Some? && !IsBinary(fileContext) && completion.Err? ==> outcome == Threw(completion.message)
      ensures engine.Some? && !IsBinary(fileContext) && completion.Ok? ==>
        outcome == Returned(Normalize(completion.text, parse, Fallback(completion.text)))
    {
      if engine.None? {
        var error := Initialize(load);
        if error.Some? {
          return None, Threw(error.value);
        }
      }

      // the model is text-only
      if Truthy(fileContext) && IsBinary(fileContext) {
        return None, Returned(UnsupportedWarning());
      }

      var fullMessage := message;
      if Truthy(fileContext) {
        var content := FileText(fileContext);
        fullMessage := FileTemplate(content, message);
      }

      var messages := [ChatMessage("system", PlainText(SystemPrompt)), ChatMessage("user", PlainText(fullMessage))];
      request := Some(CompletionRequest(messages, 0.7, 1024));

      match completion
      case Err(e) =>
        outcome := Threw(e);
      case Ok(text) =>
        var cleanText := StripFences(text);
        var result := match parse(cleanText)
          case Some(parsed) => parsed
          case None => Fallback(text);
        outcome := Returned(result);
    }
  }
}
