/**
 * The hosted chat-completion provider (`GroqService`,
 * src/services/groqService.js): one HTTP request per message, a vision
 * model for binary attachments, no retry, and the error text of a failed
 * response.
 */
module Groq {
  import opened Types
  import opened Text
  import opened Request
  import opened Response

  const BaseUrl: string := "https://api.groq.com/openai/v1/chat/completions"
  const TextModel: string := "llama-3.1-70b-versatile"
  const VisionModel: string := "llava-v1.5-7b-4096-preview"

  /** The encyclopedia system prompt; its wording is not modelled. */
  const SystemPrompt: string

  const MissingKeyMessage: string := "Groq API Key is missing. Please configure it in settings."
  const StatusErrorPrefix: string := "Groq API Error: "

  /** The body of the POST request, with the URL and the authorization header it is sent with. */
  datatype CompletionRequest = CompletionRequest(
    url: string,
    authorization: string,
    messages: seq<ChatMessage>,
    model: string,
    temperature: real,
    maxTokens: nat,
    stream: bool,
    responseFormat: string)

  /**
   * What `fetch` delivers: a rejection, or a response with its `ok` flag,
   * its status, the `error.message` of its JSON body (empty when the body
   * has none or is not JSON), and, read as a successful body, the content
   * of the first choice or the error that reading it raised.
   */
  datatype HttpReply =
    | FetchFailed(message: string)
    | HttpResponse(ok: bool, status: nat, errorMessage: string, content: Reply)

  /** `errorData.error?.message || \`Groq API Error: ${response.status}\``: never empty. */
  function StatusErrorText(errorMessage: string, status: nat): (r: string)
    ensures r != []
    ensures errorMessage != [] ==> r == errorMessage
    ensures errorMessage == [] ==> StatusErrorPrefix <= r && r[|StatusErrorPrefix|..] == NatToString(status)
  {
    if errorMessage != [] then errorMessage else StatusErrorPrefix + NatToString(status)
  }

  /** The record returned when the reply does not parse: the raw reply, marked as Groq inference. */
  function Fallback(raw: string): (r: StructuredResponse)
    ensures r.text == raw && r.sources == ["Groq LLM"] && r.confidenceScore == 90
    ensures r.analysis == Some(Analysis("Unknown", "Groq Inference")) && r.recommendations == []
    ensures ScoreInRange(r)
  {
    StructuredResponse(raw, ["Groq LLM"], 90, Some(Analysis("Unknown", "Groq Inference")), [])
  }

  class GroqService {
    var apiKey: string
    var baseUrl: string

    /** A service keeps whatever key it is given, even an empty one; the key is checked on every send. */
    constructor (apiKey: string)
      ensures this.apiKey == apiKey && baseUrl == BaseUrl
    {
      this.apiKey := apiKey;
      baseUrl := BaseUrl;
    }

    /**
     * `sendMessage(message, fileContext)`. `request` is the request
     * posted (None when nothing is sent), `outcome` how the call settles
     * given `http`, the reply to that request.
     */
    method SendMessage(message: string, fileContext: Attachment, http: HttpReply, parse: Parser)
      returns (request: Option<CompletionRequest>, outcome: Outcome)
      ensures apiKey == [] ==> request == None && outcome == Threw(MissingKeyMessage)
      ensures apiKey != [] ==> request.Some?
      ensures request.Some? ==>
        var r := request.value;
        && r.url == baseUrl
        && r.authorization == "Bearer " + apiKey
        && r.model == (if IsBinary(fileContext) then VisionModel else TextModel)
        && |r.messages| == 2
        && r.messages[0] == ChatMessage("system", PlainText(SystemPrompt))
        && r.messages[1].role == "user"
        && r.temperature == 0.5 && r.maxTokens == 1024 && !r.stream && r.responseFormat == "json_object"
      ensures request.Some? && !Truthy(fileContext) ==>
        request.value.messages[1].content == PartList([TextPart(message)])
      ensures request.Some? && IsBinary(fileContext) ==>
        request.value.messages[1].content == PartList([TextPart(message), ImageUrl(fileContext.data)])
      ensures request.Some? && Truthy(fileContext) && !IsBinary(fileContext) ==>
        request.value.messages[1].content == PartList([TextPart(FileTemplate(FileText(fileContext), message))])
      ensures request.Some? && http.FetchFailed? ==> outcome == Threw(http.message)
      ensures request.Some? && http.HttpResponse? && !http.ok ==>
        outcome == Threw(StatusErrorText(http.errorMessage, http.status))
      ensures request.Some? && http.HttpResponse? && http.ok && http.content.Err? ==>
        outcome == Threw(http.content.message)
      ensures request.Some? && http.HttpResponse? && http.ok && http.content.Ok? ==>
        outcome == Returned(Normalize(http.content.text, parse, Fallback(http.content.text)))
    {
      if apiKey == [] {
        return None, Threw(MissingKeyMessage);
      }

      var model := TextModel;
      var messages := [ChatMessage("system", PlainText(SystemPrompt))];
      var userContent: seq<Part> := [];
      if Truthy(fileContext) {
        if IsBinary(fileContext) {
          // the vision model takes the whole data URL
          model := VisionModel;
          userContent := userContent + [TextPart(message)];
          userContent := userContent + [ImageUrl(fileContext.data)];
        } else {
          var content := FileText(fileContext);
          userContent := userContent + [TextPart(FileTemplate(content, message))];
        }
      } else {
        userContent := userContent + [TextPart(message)];
      }
      messages := messages + [ChatMessage("user", PartList(userContent))];

      request := Some(CompletionRequest(baseUrl, "Bearer " + apiKey, messages, model, 0.5, 1024, false, "json_object"));

      match http
      case FetchFailed(e) =>
        outcome := Threw(e);
      case HttpResponse(ok, status, errorMessage, content) =>
        if !ok {
          outcome := Threw(StatusErrorText(errorMessage, status));
        } else {
          match content
          case Err(e) =>
            outcome := Threw(e);
          case Ok(text) =>
            var cleanText := StripFences(text);
            var result := match parse(cleanText)
              case Some(parsed) => parsed
              case None => Fallback(text);
            outcome := Returned(result);
        }
      }
    }
  }
