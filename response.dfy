/**
 * The structured answer every provider returns and the normalisation of a
 * raw model reply into it: fence stripping, parsing, and the fallback
 * record used when parsing fails.
 */
module Response {
  import opened Types
  import opened Text

  datatype Analysis = Analysis(intent: string, context: string)

  /** `{ label, score }` (`label` is a Dafny keyword, hence `caption`). */
  datatype Recommendation = Recommendation(caption: string, score: int)

  /** The JSON object the prompts ask the models for. */
  datatype StructuredResponse = StructuredResponse(
    text: string,
    sources: seq<string>,
    confidenceScore: int,
    analysis: Option<Analysis>,
    recommendations: seq<Recommendation>)

  /**
   * How a call to a service's `sendMessage` settles: it resolves to a
   * response, it rejects with an error message, or (the Gemini retry loop
   * with no attempts) it resolves to `undefined`.
   */
  datatype Outcome = Returned(response: StructuredResponse) | Threw(message: string) | NoResult

  /** `JSON.parse` followed by reading the object as a StructuredResponse; None when it throws. */
  type Parser = string -> Option<StructuredResponse>

  const JsonFence: string := "```json"

  /**
   * `text.replace(/```json/g, '').replace(/```/g, '').trim()`: the cleaned
   * text holds no code fence at all and no outer whitespace.
   */
  function StripFences(text: string): (r: string)
    ensures |r| <= |text|
    ensures !Contains(r, Fence) && !Contains(r, JsonFence)
    ensures r == [] || (!IsWhitespace(r[0]) && !IsWhitespace(r[|r| - 1]))
  {
    var removed := RemoveAll(RemoveAll(text, JsonFence), Fence);
    NoFenceAfterRemoval(RemoveAll(text, JsonFence));
    var start := TrimStart(removed);
    var r := Trim(removed);
    assert !Contains(start, Fence) by {
      if Contains(start, Fence) {
        ContainsInSuffix(removed, |removed| - |start|, Fence);
      }
    }
    assert !Contains(r, Fence) by {
      if Contains(r, Fence) {
        ContainsInPrefix(start, |r|, Fence);
      }
    }
    assert !Contains(r, JsonFence) by {
      if Contains(r, JsonFence) {
        ContainsShorterPattern(r, JsonFence, Fence);
      }
    }
    r
  }

  /** Cleaning an already cleaned text changes nothing. */
  lemma StripFencesIdempotent(text: string)
    ensures StripFences(StripFences(text)) == StripFences(text)
  {
    var clean := StripFences(text);
    RemoveAbsent(clean, JsonFence);
    RemoveAbsent(clean, Fence);
    TrimIdempotent(RemoveAll(RemoveAll(text, JsonFence), Fence));
  }

  /** A reply with no backtick and no surrounding whitespace is passed to the parser unchanged. */
  lemma StripFencesKeepsPlainReply(text: string)
    requires '`' !in text
    requires text == [] || (!IsWhitespace(text[0]) && !IsWhitespace(text[|text| - 1]))
    ensures StripFences(text) == text
  {
    if Contains(text, JsonFence) {
      ContainsHead(text, JsonFence);
    }
    RemoveAbsent(text, JsonFence);
    if Contains(text, Fence) {
      ContainsHead(text, Fence);
    }
    RemoveAbsent(text, Fence);
    assert TrimStart(text) == text;
  }

  /**
   * A reply wrapped in a JSON code block, as models often send despite the
   * prompt, reaches the parser as the bare block content.
   */
  lemma FencedReplyUnwraps(body: string)
    requires '`' !in body
    requires body == [] || (!IsWhitespace(body[0]) && !IsWhitespace(body[|body| - 1]))
    ensures StripFences(JsonFence + "\n" + body + "\n" + Fence) == body
  {
    var inner := "\n" + body + "\n";
    FencesComeOff(inner);
    assert JsonFence + "\n" + body + "\n" + Fence == JsonFence + inner + Fence;
    LineFeedsTrimmed(body);
  }

  /** Both fences come off a block whose content has no backtick. */
  lemma FencesComeOff(inner: string)
    requires '`' !in inner
    ensures RemoveAll(RemoveAll(JsonFence + inner + Fence, JsonFence), Fence) == inner
  {
    var raw := JsonFence + inner + Fence;
    assert JsonFence <= raw && raw[|JsonFence|..] == inner + Fence;
    assert RemoveAll(raw, JsonFence) == RemoveAll(inner + Fence, JsonFence);
    RemoveAllSkipsClean(inner, Fence, JsonFence);
    if Contains(Fence, JsonFence) {
      ContainsNeedsRoom(Fence, JsonFence);
    }
    RemoveAbsent(Fence, JsonFence);
    RemoveAllSkipsClean(inner, Fence, Fence);
    assert RemoveAll(Fence, Fence) == [];
    assert inner + [] == inner;
  }

  /** Trimming a text framed by two line feeds gives back the text, when it has no outer whitespace itself. */
  lemma LineFeedsTrimmed(body: string)
    requires body == [] || (!IsWhitespace(body[0]) && !IsWhitespace(body[|body| - 1]))
    ensures Trim("\n" + body + "\n") == body
  {
    var inner := "\n" + body + "\n";
    assert inner[1..] == body + "\n";
    assert TrimStart(inner) == TrimStart(body + "\n");
    if body == [] {
      assert TrimStart(body + "\n") == [];
    } else {
      assert TrimStart(body + "\n") == body + "\n";
      assert (body + "\n")[..|body|] == body;
      assert TrimEnd(body + "\n") == TrimEnd(body);
    }
  }

  /**
   * The shared normalisation: the parsed cleaned text when parsing
   * succeeds, else the provider's fallback record (which each provider
   * builds from the raw, uncleaned reply).
   */
  function Normalize(raw: string, parse: Parser, fallback: StructuredResponse): StructuredResponse
  {
    match parse(StripFences(raw))
    case Some(parsed) => parsed
    case None => fallback
  }

  /**
   * A reply wrapped in a JSON code block is normalised as if it had come
   * bare: the parser sees the same text. Only a fallback differs, since it
   * is built from the raw reply.
   */
  lemma NormalizeIgnoresFence(body: string, parse: Parser, fallback: StructuredResponse)
    requires '`' !in body
    requires body == [] || (!IsWhitespace(body[0]) && !IsWhitespace(body[|body| - 1]))
    ensures Normalize(JsonFence + "\n" + body + "\n" + Fence, parse, fallback) == Normalize(body, parse, fallback)
  {
    FencedReplyUnwraps(body);
    StripFencesKeepsPlainReply(body);
  }

  /** A confidence score within the schema's 0..100. */
  predicate ScoreInRange(r: StructuredResponse)
  {
    0 <= r.confidenceScore <= 100
  }
}
