/** The chatbot of grok_response: the message list sent to the completion
    service and the text the session records as the assistant's turn.
    Whether the API key is set and what the service answers are given as an
    AssistantReply; the call itself is not modelled. */
module Chatbot {

  datatype Role = System | User | Assistant

  /** One {"role": ..., "content": ...} entry. */
  datatype Message = Message(role: Role, content: string)

  const SystemPrompt := "You are a Patient Helpdesk Assistant specialized in insurance policies, claims, and denials. Provide helpful, accurate, and concise responses related to health insurance inquiries, policy details, claim processes, and denial reasons (e.g., 'Insufficient documentation', 'Policy expired'). Focus on policies like Basic Health Insurance and Comprehensive Health Insurance, and assist with resolving denied claims. If the user asks about unrelated topics, politely redirect them to insurance-related queries."

  const NoApiKeyText := "Error: OpenAI API key not set. Please configure it in your environment."

  const UnavailableText := "I’m sorry, I’m unable to respond right now. Please try again later or contact support."

  /** What the completion service does for one request: no key configured,
      the call raised, or it answered with the (already stripped) text. */
  datatype AssistantReply = NoApiKey | CallFailed | Answered(text: string)

  /** The messages sent: the system prompt, the transcript, then the new utterance. */
  function ChatRequest(history: seq<Message>, userInput: string): (msgs: seq<Message>)
    ensures |msgs| == |history| + 2
    ensures msgs[0] == Message(System, SystemPrompt)
    ensures msgs[1..|msgs| - 1] == history
    ensures msgs[|msgs| - 1] == Message(User, userInput)
  {
    [Message(System, SystemPrompt)] + history + [Message(User, userInput)]
  }

  /** The string grok_response returns: the service's answer, or one of two
      fixed, non-empty and distinct texts when there is no answer. */
  function ReplyText(reply: AssistantReply): (t: string)
    ensures reply.Answered? ==> t == reply.text
    ensures !reply.Answered? ==> t != "" && (t == NoApiKeyText <==> reply.NoApiKey?)
    ensures reply.CallFailed? ==> t == UnavailableText
  {
    match reply
    case NoApiKey => NoApiKeyText
    case CallFailed => UnavailableText
    case Answered(t) => t
  }

  /** The session appends the user turn before building the request, so the
      new utterance is sent twice: as the last transcript entry and again as
      the final message. */
  lemma UtteranceSentTwice(history: seq<Message>, userInput: string)
    ensures var msgs := ChatRequest(history + [Message(User, userInput)], userInput);
      |msgs| == |history| + 3
      && msgs[|msgs| - 2] == Message(User, userInput)
      && msgs[|msgs| - 1] == Message(User, userInput)
      && msgs[1..|msgs| - 2] == history
  {
  }
}
