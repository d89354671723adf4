/**
 * The three provider adapters of `LLMService`: OpenAI, Claude through OpenRouter, and
 * Gemini. The vendor SDK clients are opaque: each is a value of type `Client` fixed
 * when the service is built, mapping a request to either the reply text or the
 * exception it raised. Every adapter is then a function of the service and its
 * message list alone, so no adapter keeps state between calls.
 */
module Providers {
  import opened Wrappers
  import opened Messages
  import opened Text

  /** What an adapter hands to its vendor SDK. */
  datatype Request =
    | ChatCompletion(model: string, messages: seq<Message>)
    | GenerateContent(model: string, contents: string)

  /** What the vendor call yields: the reply text, or the message of the exception raised. */
  datatype Outcome = Completed(text: string) | Raised(cause: string)

  type Client = Request -> Outcome

  /** The clients built once in the service's constructor. */
  datatype Service = Service(openaiClient: Client, openrouterClient: Client, geminiClient: Client)

  const OpenAIModel: string := "gpt-4o-mini"
  const ClaudeModel: string := "anthropic/claude-3.5-haiku"
  const GeminiModel: string := "gemini-2.5-flash"

  const ErrorPrefix: string := "Error: "

  /** True of a string shaped like an adapter's error report. */
  predicate IsError(s: string) {
    ErrorPrefix <= s
  }

  /** The `try`/`except` of every adapter: a reply is passed through, an exception is
      turned into `"Error: " + str(e)` and never propagates. The cause can be read back. */
  function Normalise(o: Outcome): (r: string)
    ensures o.Completed? ==> r == o.text
    ensures o.Raised? ==> IsError(r) && r[|ErrorPrefix|..] == o.cause
  {
    match o
    case Completed(text) => text
    case Raised(cause) => ErrorPrefix + cause
  }

  /** `call_openai`: the messages go to the OpenAI client unchanged, with model gpt-4o-mini. */
  function CallOpenAI(svc: Service, messages: seq<Message>): (r: string)
    ensures var o := svc.openaiClient(ChatCompletion(OpenAIModel, messages));
      (o.Completed? ==> r == o.text) && (o.Raised? ==> IsError(r))
  {
    Normalise(svc.openaiClient(ChatCompletion(OpenAIModel, messages)))
  }

  /** `call_claude`: the messages go to the OpenRouter client unchanged, with the Claude model. */
  function CallClaude(svc: Service, messages: seq<Message>): (r: string)
    ensures var o := svc.openrouterClient(ChatCompletion(ClaudeModel, messages));
      (o.Completed? ==> r == o.text) && (o.Raised? ==> IsError(r))
  {
    Normalise(svc.openrouterClient(ChatCompletion(ClaudeModel, messages)))
  }

  /** `call_gemini`: the messages are flattened into one prompt string first. */
  function CallGemini(svc: Service, messages: seq<Message>): (r: string)
    ensures var o := svc.geminiClient(GenerateContent(GeminiModel, Prompt(messages)));
      (o.Completed? ==> r == o.text) && (o.Raised? ==> IsError(r))
  {
    Normalise(svc.geminiClient(GenerateContent(GeminiModel, Prompt(messages))))
  }

  /** The messages whose role is not "system", in their original order. */
  function NonSystem(ms: seq<Message>): (r: seq<Message>)
    ensures |r| <= |ms|
    ensures forall k :: 0 <= k < |r| ==> r[k].role != System
    ensures forall m :: m in r <==> m in ms && m.role != System
  {
    if ms == [] then []
    else if ms[0].role == System then NonSystem(ms[1..])
    else [ms[0]] + NonSystem(ms[1..])
  }

  /** One prompt line: `f"{role}: {content}"`. */
  function PromptLine(m: Message): string
  {
    RoleName(m.role) + ": " + m.content
  }

  /** The list comprehension of `call_gemini`: one line per non-system message. */
  function PromptLines(ms: seq<Message>): seq<string>
  {
    Lines(NonSystem(ms))
  }

  /** One prompt line per message, in order. */
  function Lines(ms: seq<Message>): seq<string>
  {
    seq(|ms|, k requires 0 <= k < |ms| => PromptLine(ms[k]))
  }

  /** Lines of two runs of messages are the lines of each, one after the other. */
  lemma LinesConcat(a: seq<Message>, b: seq<Message>)
    ensures Lines(a + b) == Lines(a) + Lines(b)
  {
    forall k | 0 <= k < |a| + |b|
      ensures Lines(a + b)[k] == (Lines(a) + Lines(b))[k]
    {
      if k < |a| {
        assert (a + b)[k] == a[k];
      } else {
        assert (a + b)[k] == b[k - |a|];
      }
    }
  }

  /** The Gemini prompt: the lines joined by single newlines, no trailing newline. */
  function Prompt(ms: seq<Message>): string
  {
    Join(PromptLines(ms), '\n')
  }

  /** Reads one prompt line back into a message; system lines never occur in a prompt. */
  function ParseLine(line: string): Option<Message>
  {
    if "user: " <= line then Some(Message(User, line[6..]))
    else if "assistant: " <= line then Some(Message(Assistant, line[11..]))
    else None
  }

  function ParseLines(lines: seq<string>): Option<seq<Message>>
  {
    if lines == [] then Some([])
    else
      match (ParseLine(lines[0]), ParseLines(lines[1..]))
      case (Some(m), Some(rest)) => Some([m] + rest)
      case _ => None
  }

  /** The inverse of `Prompt`: the empty prompt holds no message, any other holds one per line. */
  function ParsePrompt(prompt: string): Option<seq<Message>>
  {
    if prompt == "" then Some([]) else ParseLines(Split(prompt, '\n'))
  }

  lemma ParseLineOf(m: Message)
    requires m.role != System
    ensures ParseLine(PromptLine(m)) == Some(m)
  {
    var line := PromptLine(m);
    if m.role == User {
      assert "user: " <= line;
      assert line[6..] == m.content;
    } else {
      assert !("user: " <= line) by { assert line[0] == 'a'; }
      assert "assistant: " <= line;
      assert line[11..] == m.content;
    }
  }

  lemma {:induction false} ParseLinesOf(ms: seq<Message>)
    requires forall k :: 0 <= k < |ms| ==> ms[k].role != System
    ensures ParseLines(Lines(ms)) == Some(ms)
  {
    var lines := Lines(ms);
    if ms != [] {
      ParseLineOf(ms[0]);
      ParseLinesOf(ms[1..]);
      assert lines[1..] == Lines(ms[1..]);
      assert ms == [ms[0]] + ms[1..];
    }
  }

  /** No prompt line holds a newline when no message content does. */
  lemma PromptLinesSingle(ms: seq<Message>)
    requires forall k :: 0 <= k < |ms| ==> '\n' !in ms[k].content
    ensures forall k :: 0 <= k < |PromptLines(ms)| ==> '\n' !in PromptLines(ms)[k]
  {
    var ns := NonSystem(ms);
    forall k | 0 <= k < |ns| ensures '\n' !in PromptLine(ns[k]) {
      assert ns[k] in ms;
      assert '\n' !in RoleName(ns[k].role) + ": ";
    }
  }

  /** Round trip: when no content holds a newline, the prompt reads back as exactly the
      non-system messages, in their original order; the system messages are gone. */
  lemma PromptRoundTrip(ms: seq<Message>)
    requires forall k :: 0 <= k < |ms| ==> '\n' !in ms[k].content
    ensures ParsePrompt(Prompt(ms)) == Some(NonSystem(ms))
  {
    var ns := NonSystem(ms);
    var lines := PromptLines(ms);
    ParseLinesOf(ns);
    PromptNonEmpty(ms);
    if ns != [] {
      PromptLinesSingle(ms);
      SplitJoin(lines, '\n');
    }
  }

  /** The prompt is empty exactly when every message is a system message (or there are none). */
  lemma PromptNonEmpty(ms: seq<Message>)
    ensures Prompt(ms) == "" <==> NonSystem(ms) == []
  {
    var lines := PromptLines(ms);
    if lines != [] {
      assert |lines[0]| > 0 by { assert lines[0] == PromptLine(NonSystem(ms)[0]); }
      if |lines| > 1 {
        assert Join(lines, '\n') == lines[0] + ['\n'] + Join(lines[1..], '\n');
      }
    }
  }
}
