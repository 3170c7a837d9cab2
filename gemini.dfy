/**
 * The cloud chat-session provider (`AIService`, src/services/aiService.js):
 * a Gemini chat session primed with the system prompt, request parts
 * shaped from the attachment, a bounded retry loop with exponential
 * backoff for rate-limit and overload errors, and the mapping of the
 * remaining errors to user-facing messages.
 */
module Gemini {
  import opened Types
  import opened Text
  import opened Request
  import opened Response

  const ModelName: string := "gemini-2.0-flash-exp"

  /** The encyclopedia system prompt; its wording is not modelled. */
  const SystemPrompt: string

  const Acknowledgement: string := "Understood. I am ready to serve as your knowledgeable encyclopedia assistant."

  const MissingKeyMessage: string := "API Key is missing. Please configure it in settings."
  const UnknownErrorMessage: string := "Unknown error occurred"
  const InvalidKeyMessage: string := "API Key is invalid or has expired."
  const ModelNotFoundMessage: string := "Model not found. Please check your API key permissions."
  const QuotaMessage: string := "Gemini Quota Exceeded. Please wait, or switch to 'Llama 3 (Local)' in Settings for unlimited usage."

  /** One turn of the chat history. */
  datatype Content = Content(role: string, parts: seq<Part>)

  /** The chat session the SDK keeps: the model it talks to and the history it was started with. */
  datatype ChatSession = ChatSession(model: string, history: seq<Content>)

  /** The two turns every session starts with: the system prompt and the model's acknowledgement. */
  function PrimingHistory(): seq<Content>
  {
    [ Content("user", [TextPart("System Prompt: " + SystemPrompt)]),
      Content("model", [TextPart(Acknowledgement)]) ]
  }

  /** The record returned when the reply does not parse: the raw reply, marked as a total parse failure. */
  function Fallback(raw: string): (r: StructuredResponse)
    ensures r.text == raw && r.sources == ["Unknown"] && r.confidenceScore == 0
    ensures r.analysis == Some(Analysis("Unknown", "Failed to parse structured response")) && r.recommendations == []
    ensures ScoreInRange(r)
  {
    StructuredResponse(raw, ["Unknown"], 0, Some(Analysis("Unknown", "Failed to parse structured response")), [])
  }

  /** `error.message || "Unknown error occurred"`: never empty, and the message itself when there is one. */
  function ErrorText(message: string): (r: string)
    ensures r != []
    ensures message != [] ==> r == message
  {
    if message != [] then message else UnknownErrorMessage
  }

  /** Rate limited (429) or overloaded (503): the only errors that are retried. */
  predicate IsTransient(message: string)
  {
    Contains(message, "429") || Contains(message, "503")
  }

  /**
   * A message is transient wherever it mentions 429 or 503, and a message
   * without the digits 4 and 5 never is.
   */
  lemma TransientCodes(before: string, after: string, message: string)
    ensures IsTransient(before + "429" + after) && IsTransient(before + "503" + after)
    ensures '4' !in message && '5' !in message ==> !IsTransient(message)
  {
    forall code | code == "429" || code == "503"
      ensures Contains(before + code + after, code)
    {
      var s := before + code + after;
      assert code <= s[|before|..];
      ContainsInSuffix(s, |before|, code);
    }
    if Contains(message, "429") {
      ContainsHead(message, "429");
    }
    if Contains(message, "503") {
      ContainsHead(message, "503");
    }
  }

  function Pow2(n: nat): (p: nat)
    ensures p >= 1
  {
    if n == 0 then 1 else 2 * Pow2(n - 1)
  }

  /** 2^(a+b) = 2^a * 2^b. */
  lemma {:induction false} Pow2Add(a: nat, b: nat)
    ensures Pow2(a + b) == Pow2(a) * Pow2(b)
    decreases b
  {
    if b > 0 {
      Pow2Add(a, b - 1);
    }
  }

  /** `Math.pow(2, i + 1) * 1000`: the wait before the retry that follows attempt i. */
  function BackoffDelay(i: nat): nat
  {
    Pow2(i + 1) * 1000
  }

  /** The first wait is 2 s and each wait doubles the one before: k retries later it is 2^k times as long. */
  lemma BackoffDoubles(i: nat, k: nat)
    ensures BackoffDelay(0) == 2000
    ensures BackoffDelay(i + 1) == 2 * BackoffDelay(i)
    ensures BackoffDelay(i + k) == Pow2(k) * BackoffDelay(i)
  {
    Pow2Add(i + 1, k);
    var a, b := Pow2(i + 1), Pow2(k);
    assert Pow2(i + 1 + k) == a * b;
    assert a * b * 1000 == b * (a * 1000);
  }

  /**
   * The error a failed send finally rejects with, by the first status
   * code found in the message, checked in the order 403, 404, 429; any
   * other message is passed through.
   */
  function MapError(message: string): (r: string)
    ensures Contains(message, "403") ==> r == InvalidKeyMessage
    ensures !Contains(message, "403") && Contains(message, "404") ==> r == ModelNotFoundMessage
    ensures !Contains(message, "403") && !Contains(message, "404") && Contains(message, "429") ==> r == QuotaMessage
    ensures !Contains(message, "403") && !Contains(message, "404") && !Contains(message, "429") ==> r == message
    ensures r != [] <==> message != []
  {
    if Contains(message, "403") then InvalidKeyMessage
    else if Contains(message, "404") then ModelNotFoundMessage
    else if Contains(message, "429") then QuotaMessage
    else message
  }

  /** How the retry loop ends: with the chat session's reply, with the error of the last attempt, or without any attempt. */
  datatype LoopEnd = Replied(text: string) | Failed(message: string) | NoAttempt

  /**
   * What the retry loop did: how it ended, how many times it called the
   * chat session, and the delays passed to `onRetry`, in order.
   */
  datatype Run = Run(end: LoopEnd, attempts: nat, delays: seq<nat>)

  /** The run with the delays of earlier iterations put in front. */
  function WithEarlierDelays(earlier: seq<nat>, run: Run): Run
  {
    Run(run.end, run.attempts, earlier + run.delays)
  }

  /** Attempt k failed with a rate-limit or overload error. */
  predicate TransientAt(transport: nat -> Reply, k: nat)
  {
    transport(k).Err? && IsTransient(ErrorText(transport(k).message))
  }

  /**
   * The retry loop from iteration i on, with `transport(k)` the reply of
   * the chat session to the k-th call.
   */
  function RetryFrom(i: nat, retries: int, transport: nat -> Reply): (run: Run)
    ensures i < retries ==> i < run.attempts <= retries
    decreases retries - i
  {
    if retries <= i then Run(NoAttempt, i, [])
    else
      match transport(i)
      case Ok(text) => Run(Replied(text), i + 1, [])
      case Err(e) =>
        if TransientAt(transport, i) && i < retries - 1 then
          WithEarlierDelays([BackoffDelay(i)], RetryFrom(i + 1, retries, transport))
        else
          Run(Failed(e), i + 1, [])
  }

  /**
   * What `sendMessage` settles to once the loop has ended: a reply always
   * resolves to a response, a failure always rejects with a non-empty
   * error, and only a loop without attempts resolves to `undefined`.
   */
  function Settle(end: LoopEnd, parse: Parser): (o: Outcome)
    ensures end.Replied? <==> o.Returned?
    ensures end.Failed? <==> o.Threw?
    ensures end.NoAttempt? <==> o.NoResult?
    ensures o.Threw? ==> o.message != []
  {
    match end
    case Replied(text) => Returned(Normalize(text, parse, Fallback(text)))
    case Failed(message) => Threw(MapError(ErrorText(message)))
    case NoAttempt => NoResult
  }

  /**
   * With no budget there is no attempt and the result is `undefined`;
   * otherwise there is one `onRetry` delay before each attempt but the
   * first, and the loop ends with a reply or an error.
   */
  lemma {:induction false} RetryAttempts(i: nat, retries: int, transport: nat -> Reply)
    ensures retries <= i ==> RetryFrom(i, retries, transport) == Run(NoAttempt, i, [])
    ensures i < retries ==>
      var run := RetryFrom(i, retries, transport);
      && |run.delays| == run.attempts - 1 - i
      && run.end != NoAttempt
    decreases retries - i
  {
    if i < retries && TransientAt(transport, i) && i < retries - 1 {
      RetryAttempts(i + 1, retries, transport);
    }
  }

  /** One retried iteration: a transient error with budget left waits BackoffDelay(i) and goes on with i + 1. */
  lemma RetryStep(i: nat, retries: int, transport: nat -> Reply)
    requires i < retries - 1 && TransientAt(transport, i)
    ensures RetryFrom(i, retries, transport)
         == WithEarlierDelays([BackoffDelay(i)], RetryFrom(i + 1, retries, transport))
  {
  }

  /** The delays of n consecutive retries starting after attempt i: 2^(i+1)*1000, 2^(i+2)*1000, ... */
  function BackoffSchedule(i: nat, n: nat): (ds: seq<nat>)
    ensures |ds| == n
    decreases n
  {
    if n == 0 then [] else [BackoffDelay(i)] + BackoffSchedule(i + 1, n - 1)
  }

  /** The k-th delay of the schedule is the wait after attempt i + k. */
  lemma {:induction false} BackoffScheduleElements(i: nat, n: nat)
    ensures forall k :: 0 <= k < n ==> BackoffSchedule(i, n)[k] == BackoffDelay(i + k)
    decreases n
  {
    if n > 0 {
      BackoffScheduleElements(i + 1, n - 1);
    }
  }

  /** The delays passed to `onRetry` are the backoff schedule: 2 s, 4 s, 8 s, ... doubling per retry. */
  lemma {:induction false} RetryDelays(i: nat, retries: int, transport: nat -> Reply)
    ensures var run := RetryFrom(i, retries, transport);
      run.delays == BackoffSchedule(i, |run.delays|)
    decreases retries - i
  {
    if i < retries - 1 && TransientAt(transport, i) {
      RetryDelays(i + 1, retries, transport);
      RetryStep(i, retries, transport);
    }
  }

  /** Only transient errors are retried: every attempt before the last failed with a message holding 429 or 503. */
  lemma {:induction false} RetryOnlyTransient(i: nat, retries: int, transport: nat -> Reply)
    ensures var run := RetryFrom(i, retries, transport);
      forall k :: i <= k < run.attempts - 1 ==> TransientAt(transport, k)
    decreases retries - i
  {
    var run := RetryFrom(i, retries, transport);
    if i < retries - 1 && TransientAt(transport, i) {
      RetryOnlyTransient(i + 1, retries, transport);
      RetryStep(i, retries, transport);
      assert run.attempts == RetryFrom(i + 1, retries, transport).attempts;
    } else {
      // the loop stops at attempt i, or never starts
      assert run.attempts <= i + 1;
    }
  }

  /**
   * The last attempt decides how the loop ends: with its reply or its error,
   * and a transient error ends the loop only when the budget is spent.
   */
  lemma {:induction false} RetryLastAttempt(i: nat, retries: int, transport: nat -> Reply)
    requires i < retries
    ensures var run := RetryFrom(i, retries, transport);
      var last := transport(run.attempts - 1);
      && (last.Ok? ==> run.end == Replied(last.text))
      && (last.Err? ==> run.end == Failed(last.message))
      && (TransientAt(transport, run.attempts - 1) ==> run.attempts == retries)
    decreases retries - i
  {
    if i < retries - 1 && TransientAt(transport, i) {
      RetryLastAttempt(i + 1, retries, transport);
      RetryStep(i, retries, transport);
    }
  }

  /**
   * With the orchestrator's budget of 3 and a chat session that keeps
   * failing transiently, the loop waits 2000 ms, then 4000 ms, makes
   * exactly three attempts and rejects with the mapped last error.
   */
  lemma ThreeRetriesOfPersistentFailure(transport: nat -> Reply, parse: Parser)
    requires TransientAt(transport, 0) && TransientAt(transport, 1) && TransientAt(transport, 2)
    ensures RetryFrom(0, 3, transport) == Run(Failed(transport(2).message), 3, [2000, 4000])
    ensures Settle(RetryFrom(0, 3, transport).end, parse) == Threw(MapError(ErrorText(transport(2).message)))
  {
    assert BackoffDelay(0) == 2000 && BackoffDelay(1) == 4000;
    assert RetryFrom(2, 3, transport) == Run(Failed(transport(2).message), 3, []);
    assert RetryFrom(1, 3, transport) == Run(Failed(transport(2).message), 3, [4000]);
  }

  /** An exhausted 503 that names no other code surfaces its own message; an exhausted 429 the quota hint. */
  lemma ExhaustedTransientMessages(message: string)
    ensures Contains(message, "503") && !Contains(message, "403") && !Contains(message, "404") && !Contains(message, "429")
      ==> MapError(ErrorText(message)) == message
    ensures Contains(message, "429") && !Contains(message, "403") && !Contains(message, "404")
      ==> MapError(ErrorText(message)) == QuotaMessage
  {
  }

  /** A budget of at least one attempt always settles: `sendMessage` never resolves to `undefined`. */
  lemma BudgetAlwaysSettles(retries: int, transport: nat -> Reply, parse: Parser)
    requires retries >= 1
    ensures Settle(RetryFrom(0, retries, transport).end, parse) != NoResult
  {
    RetryAttempts(0, retries, transport);
  }

  /**
   * A first reply ends the loop at once, whatever the budget: one attempt,
   * no `onRetry` delay, and `sendMessage` resolves, never rejects, to the
   * parsed cleaned text or else to the fallback around the raw reply.
   */
  lemma FirstReplySettles(retries: int, transport: nat -> Reply, parse: Parser)
    requires retries >= 1 && transport(0).Ok?
    ensures RetryFrom(0, retries, transport) == Run(Replied(transport(0).text), 1, [])
    ensures var text := transport(0).text;
      Settle(RetryFrom(0, retries, transport).end, parse)
        == Returned(if parse(StripFences(text)).Some? then parse(StripFences(text)).value else Fallback(text))
  {
  }

  class AIService {
    /** The SDK client, bound to its API key; null when constructed without a key. */
    var genAI: Option<string>
    /** The generative model handle, by model id. */
    var model: Option<string>
    /** The chat session the messages are sent through. */
    var chat: Option<ChatSession>

    /** A service without a key has no client, model or session; with a key it opens a primed session. */
    constructor (apiKey: string)
      ensures apiKey == [] ==> genAI == None && model == None && chat == None
      ensures apiKey != [] ==>
        && genAI == Some(apiKey)
        && model == Some(ModelName)
        && chat == Some(ChatSession(ModelName, PrimingHistory()))
    {
      if apiKey == [] {
        genAI := None;
        model := None;
        chat := None;
      } else {
        genAI := Some(apiKey);
        model := Some(ModelName);
        chat := Some(ChatSession(ModelName, PrimingHistory()));
      }
    }

    /**
     * `sendMessage(message, fileContext, retries, onRetry)`. `parts` is what
     * every attempt sends; `run` records the outcome, the number of calls to
     * the chat session and the delays passed to `onRetry`.
     */
    method SendMessage(message: string, fileContext: Attachment, retries: int, transport: nat -> Reply, parse: Parser)
      returns (parts: seq<Part>, run: Run, outcome: Outcome)
      ensures genAI.None? ==> parts == [] && run.attempts == 0 && outcome == Threw(MissingKeyMessage)
      ensures genAI.Some? && !Truthy(fileContext) ==> parts == [TextPart(message)]
      ensures genAI.Some? && IsBinary(fileContext) ==>
        parts == [InlineData(SecondField(fileContext.data), fileContext.mimeType), TextPart(message)]
      ensures genAI.Some? && Truthy(fileContext) && !IsBinary(fileContext) ==>
        parts == [TextPart(FileTemplate(FileText(fileContext), message))]
      ensures genAI.Some? ==> run == RetryFrom(0, retries, transport) && outcome == Settle(run.end, parse)
    {
      if genAI.None? {
        return [], Run(NoAttempt, 0, []), Threw(MissingKeyMessage);
      }

      parts := [TextPart(message)];
      if Truthy(fileContext) {
        if IsBinary(fileContext) {
          // drop the data URL's header; unshift the inline image before the question
          var base64Data := SecondField(fileContext.data);
          parts := [InlineData(base64Data, fileContext.mimeType)] + parts;
        } else {
          var content := FileText(fileContext);
          parts := [TextPart(FileTemplate(content, message))];
        }
      }

      var i := 0;
      var delays: seq<nat> := [];
      while i < retries
        invariant i == 0 || i < retries
        invariant RetryFrom(0, retries, transport) == WithEarlierDelays(delays, RetryFrom(i, retries, transport))
        decreases retries - i
      {
        match transport(i)
        case Ok(text) =>
          var cleanText := StripFences(text);
          var result := match parse(cleanText)
            case Some(parsed) => parsed
            case None => Fallback(text);
          assert RetryFrom(i, retries, transport) == Run(Replied(text), i + 1, []);
          return parts, Run(Replied(text), i + 1, delays), Returned(result);
        case Err(e) =>
          var errorMessage := ErrorText(e);
          if IsTransient(errorMessage) && i < retries - 1 {
            var delay := BackoffDelay(i);
            RetryStep(i, retries, transport);
            delays := delays + [delay];
            i := i + 1;
            continue;
          }
          assert RetryFrom(i, retries, transport) == Run(Failed(e), i + 1, []);
          return parts, Run(Failed(e), i + 1, delays), Threw(MapError(errorMessage));
      }
      run, outcome := Run(NoAttempt, i, delays), NoResult;
    }
  }
}
