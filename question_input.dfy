/**
 * The question box: what it sends (the trimmed question, only when there is
 * one and nothing is in progress), when its send button is disabled, the
 * Enter key, and the simulated voice input. The owner's `isProcessing` is a
 * parameter of each call; what was sent is recorded in order.
 */
module QuestionInput {
  import opened Wrappers
  import opened Text

  /** The phrase the simulated voice recognition appends. */
  const VoiceText: string := " How does the authentication system work?"

  /** What `handleSend` does with a question: the trimmed text to send, or nothing. */
  function SendDecision(question: string, isProcessing: bool): (r: Option<string>)
    ensures r.None? <==> AllSpace(question) || isProcessing
    ensures r.Some? ==> r.value == Trim(question) && r.value != []
  {
    var t := Trim(question);
    if t != [] && !isProcessing then Some(t) else None
  }

  /** What is sent carries no surrounding whitespace, and sending it again sends the same text. */
  lemma SentTextIsTrimmed(question: string, isProcessing: bool)
    requires SendDecision(question, isProcessing).Some?
    ensures var s := SendDecision(question, isProcessing).value;
      !IsSpace(s[0]) && !IsSpace(s[|s| - 1]) && SendDecision(s, isProcessing) == Some(s)
  {
    TrimIdempotent(question);
  }

  /** The send button's `disabled` attribute. */
  function SendDisabled(question: string, isProcessing: bool): (disabled: bool)
    ensures disabled <==> SendDecision(question, isProcessing).None?
  {
    Trim(question) == [] || isProcessing
  }

  /** A key press as `handleKeyDown` sees it. */
  datatype KeyPress = KeyPress(key: string, shift: bool)

  /** Enter without Shift sends; every other key is left to the text area. */
  function TriggersSend(k: KeyPress): (sends: bool)
    ensures sends <==> k == KeyPress("Enter", false)
  {
    k.key == "Enter" && !k.shift
  }

  /** The simulated recognition always leaves something to send. */
  lemma VoiceMakesSendable(question: string)
    ensures SendDecision(question + VoiceText, false).Some?
  {
    var s := question + VoiceText;
    assert s[|question| + 1] == 'H';
  }

  class QuestionBox {
    var question: string
    var isListening: bool
    /** The questions handed to `onSendQuestion`, oldest first. */
    var sent: seq<string>

    constructor ()
      ensures question == [] && !isListening && sent == []
    {
      question := [];
      isListening := false;
      sent := [];
    }

    /** `handleSend`: a sendable question is sent trimmed and the box is cleared; otherwise nothing changes. */
    method HandleSend(isProcessing: bool)
      modifies this
      ensures match SendDecision(old(question), isProcessing)
        case Some(q) => sent == old(sent) + [q] && question == []
        case None => sent == old(sent) && question == old(question)
      ensures isListening == old(isListening)
    {
      var t := Trim(question);
      if t != [] && !isProcessing {
        sent := sent + [t];
        question := [];
      }
    }

    /** `handleKeyDown`: Enter without Shift is `handleSend`; any other key changes nothing. */
    method HandleKeyDown(k: KeyPress, isProcessing: bool)
      modifies this
      ensures TriggersSend(k) ==> match SendDecision(old(question), isProcessing)
        case Some(q) => sent == old(sent) + [q] && question == []
        case None => sent == old(sent) && question == old(question)
      ensures !TriggersSend(k) ==> sent == old(sent) && question == old(question)
      ensures isListening == old(isListening)
    {
      if k.key == "Enter" && !k.shift {
        HandleSend(isProcessing);
      }
    }

    /** `toggleVoiceInput`: flips listening; turning it on schedules the recognition, reported as `scheduled`. */
    method ToggleVoiceInput() returns (scheduled: bool)
      modifies this
      ensures isListening == !old(isListening) && scheduled == !old(isListening)
      ensures question == old(question) && sent == old(sent)
    {
      scheduled := !isListening;
      isListening := !isListening;
    }

    /** The recognition timer firing: the phrase is appended to the question and listening ends. */
    method CompleteVoiceRecognition()
      modifies this
      ensures question == old(question) + VoiceText && !isListening && sent == old(sent)
      ensures SendDecision(question, false).Some?
    {
      VoiceMakesSendable(question);
      question := question + VoiceText;
      isListening := false;
    }
  }
}
