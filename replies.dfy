/**
 * Turning a chat reply into text, as `generateShortSummary` and
 * `generateFinalReview` do: the trimmed message content, a fixed text when the
 * reply carries no message or only whitespace, another when the call fails.
 */
module Replies {
  import opened Wrappers
  import opened JsString

  /** One non-streaming chat request: the configured model and a single user message. */
  datatype ChatRequest = ChatRequest(model: string, prompt: string)

  /** The `message` of a chat response; its `content` may be missing at run time. */
  datatype Message = Message(content: Option<string>)

  /** How one chat call ends: it throws, or it resolves with a response whose `message` may be missing. */
  datatype ChatReply = ChatFailed | Replied(message: Option<Message>)

  /** The model service, seen from the plugin: the reply it gives to each request. */
  type Chat = ChatRequest -> ChatReply

  const NoSummaryText := "No summary generated."
  const SummaryErrorText := "Error summarizing content."
  const NoReviewText := "No review generated."
  const ReviewErrorText := "Error generating review."

  /**
   * `try { return response.message?.content.trim() || empty } catch { return error }`.
   * A missing message short-circuits to `undefined` and so to `empty`; a message
   * without content makes `.trim()` throw inside the `try`, giving `error`.
   */
  function SelectText(reply: ChatReply, empty: string, error: string): (r: string)
    ensures reply.ChatFailed? ==> r == error
    ensures reply == Replied(None) ==> r == empty
    ensures reply == Replied(Some(Message(None))) ==> r == error
    ensures reply.Replied? && reply.message.Some? && reply.message.value.content.Some? ==>
      var c := reply.message.value.content.value;
      (AllWhitespace(c) ==> r == empty) && (!AllWhitespace(c) ==> r == Trim(c) && r != [])
  {
    match reply
    case ChatFailed => error
    case Replied(None) => empty
    case Replied(Some(Message(None))) => error
    case Replied(Some(Message(Some(c)))) =>
      var t := Trim(c);
      if t == [] then empty else t
  }

  /** The text `generateShortSummary` returns for a reply. */
  function ShortSummaryText(reply: ChatReply): string {
    SelectText(reply, NoSummaryText, SummaryErrorText)
  }

  /** The text `generateFinalReview` returns for a reply. */
  function FinalReviewText(reply: ChatReply): string {
    SelectText(reply, NoReviewText, ReviewErrorText)
  }

  /** A string is already trimmed: no whitespace at either end. */
  predicate IsTrimmed(s: string) {
    s != [] && !IsWhitespace(s[0]) && !IsWhitespace(s[|s| - 1])
  }

  /**
   * Whatever the reply, the selected text is non-empty and is its own trim, as
   * long as both fixed texts are: it is never blank and never padded.
   */
  lemma SelectTextIsTrimmed(reply: ChatReply, empty: string, error: string)
    requires IsTrimmed(empty) && IsTrimmed(error)
    ensures var r := SelectText(reply, empty, error); r != [] && Trim(r) == r
  {
    var r := SelectText(reply, empty, error);
    if reply.Replied? && reply.message.Some? && reply.message.value.content.Some? {
      TrimIdempotent(reply.message.value.content.value);
    }
    assert [] + r + [] == r;
    TrimCharacterisation([], r, []);
  }

  /** The texts `generateShortSummary` returns are never blank and never padded. */
  lemma ShortSummaryIsTrimmed(reply: ChatReply)
    ensures var r := ShortSummaryText(reply); r != [] && Trim(r) == r
  {
    SelectTextIsTrimmed(reply, NoSummaryText, SummaryErrorText);
  }

  /** The texts `generateFinalReview` returns are never blank and never padded. */
  lemma FinalReviewIsTrimmed(reply: ChatReply)
    ensures var r := FinalReviewText(reply); r != [] && Trim(r) == r
  {
    SelectTextIsTrimmed(reply, NoReviewText, ReviewErrorText);
  }
}
