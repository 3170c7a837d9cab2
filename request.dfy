/**
 * The attachment a provider receives and the request parts the providers
 * build from it.
 */
module Request {
  import opened Types
  import opened Text

  /**
   * The `fileContext` argument of the three services. It is `null`, a bare
   * string (what the orchestrator passes: the file read as text), or a
   * record with `isBinary`, `data` (decoded text or a data URL) and
   * `mimeType`.
   */
  datatype Attachment =
    | NoAttachment
    | TextContent(text: string)
    | FileRecord(isBinary: bool, data: string, mimeType: string)

  /** `if (fileContext)`: null and the empty string are falsy, a record never is. */
  predicate Truthy(a: Attachment)
  {
    match a
    case NoAttachment => false
    case TextContent(t) => t != []
    case FileRecord(_, _, _) => true
  }

  /** `fileContext.isBinary`: a bare string has no such property. */
  predicate IsBinary(a: Attachment)
  {
    a.FileRecord? && a.isBinary
  }

  /** How a template literal renders a plain object. */
  const ObjectString: string := "[object Object]"

  /**
   * `fileContext.data || fileContext`, as the template literal renders it:
   * a bare string is itself, a record with empty `data` falls back to the
   * record, which renders as "[object Object]".
   */
  function FileText(a: Attachment): (r: string)
    requires Truthy(a)
    ensures r != []
    ensures a.TextContent? ==> r == a.text
    ensures a.FileRecord? && a.data != [] ==> r == a.data
    ensures a.FileRecord? && a.data == [] ==> r == ObjectString
  {
    match a
    case TextContent(t) => t
    case FileRecord(_, data, _) => if data != [] then data else ObjectString
  }

  const TemplateHead: string := "Here is the file content provided by the user for analysis:\n\n---\n"
  const TemplateTail: string := "\n---\n\nUser Question: "

  /**
   * The delimited block that merges a text file into the user's question:
   * it opens with the fixed header, carries the whole file right after it,
   * and ends with the question.
   */
  function FileTemplate(content: string, message: string): (merged: string)
    ensures TemplateHead <= merged && |TemplateHead| + |content| <= |merged|
    ensures merged[|TemplateHead|..|TemplateHead| + |content|] == content
    ensures Contains(merged, content)
    ensures |message| <= |merged| && merged[|merged| - |message|..] == message
    ensures |merged| == |TemplateHead| + |content| + |TemplateTail| + |message|
    ensures merged[|TemplateHead| + |content|..|merged| - |message|] == TemplateTail
  {
    var merged := TemplateHead + content + TemplateTail + message;
    var k := |TemplateHead|;
    assert content <= merged[k..];
    ContainsInSuffix(merged, k, content);
    merged
  }

  /** One element of a request's content. */
  datatype Part =
    | TextPart(text: string)
    | InlineData(data: Option<string>, mimeType: string)  // data is `undefined` when the data URL has no comma
    | ImageUrl(url: string)

  /** The `content` of a chat-completion message: a string or a list of parts. */
  datatype Body = PlainText(text: string) | PartList(parts: seq<Part>)

  /** One `{role, content}` entry of a chat-completion request. */
  datatype ChatMessage = ChatMessage(role: string, content: Body)
}
