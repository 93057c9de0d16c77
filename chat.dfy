/**
 * The chat page: the transcript starts with the mentor's welcome, and
 * sending a question appends the question, then (when the service answers)
 * the answer, with the processing flag raised in between. The awaited
 * answer is a parameter (`None` where the promise rejects).
 */
module Chat {
  import opened Wrappers
  import opened ResponseDisplay
  import AiService

  const WelcomeText: string := "Hello! I'm your AI Mentor. I've been trained on your team's documentation and can help answer questions, explain concepts, generate diagrams, and provide code examples. How can I help you today?"

  /** The message the page opens with. */
  function Welcome(id: string, now: int): (m: Message)
    ensures m.role == Assistant && m.content == [TextItem(WelcomeText)]
  {
    Message(id, Assistant, [TextItem(WelcomeText)], now)
  }

  /** The message recording what the user asked: one text item holding the question. */
  function UserMessage(question: string, id: string, now: int): (m: Message)
    ensures m.role == User && m.content == [TextItem(question)] && m.id == id && m.timestamp == now
  {
    Message(id, User, [TextItem(question)], now)
  }

  /** The history entry of a question shows the question itself, cut after 30 characters. */
  lemma UserMessagePreview(question: string, id: string, now: int)
    ensures |question| <= PreviewLength ==> HistoryEntry(UserMessage(question, id, now)) == question
    ensures |question| > PreviewLength ==>
      HistoryEntry(UserMessage(question, id, now)) == question[..PreviewLength] + "..."
  {
    var r := HistoryEntry(UserMessage(question, id, now));
    if |question| > PreviewLength {
      assert r == r[..PreviewLength] + r[PreviewLength..];
    }
  }

  class ChatPage {
    var messages: seq<Message>
    var isProcessing: bool
    /** The number of error toasts shown. */
    var errors: nat

    /** The page after its mount effect: the welcome message alone, nothing in progress. */
    constructor (welcomeId: string, now: int)
      ensures messages == [Welcome(welcomeId, now)] && !isProcessing && errors == 0
    {
      messages := [Welcome(welcomeId, now)];
      isProcessing := false;
      errors := 0;
    }

    /** The synchronous part of `handleSendQuestion`: the question is appended and processing starts. */
    method BeginSend(question: string, id: string, now: int)
      modifies this
      ensures messages == old(messages) + [UserMessage(question, id, now)]
      ensures isProcessing && errors == old(errors)
    {
      messages := messages + [UserMessage(question, id, now)];
      isProcessing := true;
    }

    /** The continuation after the service settles: the answer is appended, or an error toast shown; processing ends. */
    method FinishSend(answer: Option<Message>)
      modifies this
      ensures answer.Some? ==> messages == old(messages) + [answer.value] && errors == old(errors)
      ensures answer.None? ==> messages == old(messages) && errors == old(errors) + 1
      ensures !isProcessing
    {
      match answer {
        case Some(m) => messages := messages + [m];
        case None => errors := errors + 1;
      }
      isProcessing := false;
    }

    /**
     * `handleSendQuestion` as a whole: the question goes in first, the
     * answer after it; on failure only the question is added. Processing is
     * off again at the end on both paths.
     */
    method HandleSendQuestion(question: string, id: string, now: int, answer: Option<Message>)
      modifies this
      ensures answer.Some? ==> messages == old(messages) + [UserMessage(question, id, now), answer.value] && errors == old(errors)
      ensures answer.None? ==> messages == old(messages) + [UserMessage(question, id, now)] && errors == old(errors) + 1
      ensures !isProcessing
    {
      BeginSend(question, id, now);
      FinishSend(answer);
    }

    /**
     * A question answered by the AI service: the transcript grows by the
     * question and the service's single-text reply, and the Code and
     * Diagrams tabs stay as they were.
     */
    method Ask(question: string, service: string -> AiService.QueryOutcome, questionId: string, answerId: string, now: int)
      modifies this
      ensures |messages| == |old(messages)| + 2
      ensures messages[..|old(messages)|] == old(messages)
      ensures messages[|messages| - 2] == UserMessage(question, questionId, now)
      ensures messages[|messages| - 1].role == Assistant
      ensures messages[|messages| - 1].content == [TextItem(AiService.TextResponse(service(question)))]
      ensures CodeSnippets(messages) == CodeSnippets(old(messages)) && Diagrams(messages) == Diagrams(old(messages))
      ensures !isProcessing && errors == old(errors)
    {
      var before := messages;
      var user := UserMessage(question, questionId, now);
      var reply := AiService.ProcessQuestion(question, service, answerId, now);
      HandleSendQuestion(question, questionId, now, Some(reply));
      assert messages == (before + [user]) + [reply];
      assert messages[..|before|] == before;
      TextOnlyAddsNothing(before, user);
    }
  }
}
