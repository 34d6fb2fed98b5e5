/** The chat widget's state and its event handlers: the message log, the text
    box, the three busy flags, and the lazily started chat session. */
module ChatBot {
  import opened Wrappers
  import opened JsText
  import opened Router
  import opened Prompts

  /** A chat session handed out by the model's client; sessions are told
      apart by an id. */
  datatype Session = Session(id: nat)

  /** What `askGemini` settles to, given whether a session was there when it
      was called, how starting one went, and how the model answered. Every
      failure, a failed start included, becomes the same error. */
  function AskOutcome(hasSession: bool, started: Result<Session>, reply: Result<string>): (r: Result<string>)
    ensures r.Err? ==> r.message == BridgeFailure
    ensures r.Ok? <==> (hasSession || started.Ok?) && reply.Ok?
    ensures r.Ok? ==> r.value == reply.value
  {
    if !hasSession && started.Err? then Err(BridgeFailure)
    else match reply
      case Ok(text) => Ok(text)
      case Err(_) => Err(BridgeFailure)
  }

  /** The message of a failed start never reaches the log. Whatever fails,
      the bridge's error carries the general failure, and so the bot message
      of each of the three handlers is its error prefix followed by that
      general failure. A send's bot message can only read "Error: " and the
      start failure if the model itself answered with that text. */
  lemma InitFailureNeverShown(hasSession: bool, started: Result<Session>, reply: Result<string>)
    ensures var outcome := AskOutcome(hasSession, started, reply);
            outcome.Err? ==> outcome.message != InitFailure
    ensures var outcome := AskOutcome(hasSession, started, reply);
            outcome.Err? ==>
              AnswerText(outcome) == "Error: " + BridgeFailure
              && SuggestionText(outcome) == "Error suggesting question: " + BridgeFailure
              && SummaryText(outcome) == "Error summarizing chat: " + BridgeFailure
    ensures (reply.Ok? ==> reply.value != "Error: " + InitFailure) ==>
              AnswerText(AskOutcome(hasSession, started, reply)) != "Error: " + InitFailure
  {
    var outcome := AskOutcome(hasSession, started, reply);
    if outcome.Err? {
      assert |BridgeFailure| == 73 && |InitFailure| == 75;
      assert "Error: " + BridgeFailure + "" == "Error: " + BridgeFailure;
      assert "Error suggesting question: " + BridgeFailure + "" == "Error suggesting question: " + BridgeFailure;
      assert "Error summarizing chat: " + BridgeFailure + "" == "Error summarizing chat: " + BridgeFailure;
    }
  }

  /** The widget. The handlers that wait on the model are split at that
      wait: `SendMessage`, `SuggestNextQuestion` and `SummarizeChat` run up to
      it, and `ReceiveAnswer`, `ReceiveSuggestion` and `ReceiveSummary` run
      the rest once the model's client has answered. The three pending
      fields hold what each suspended handler is waiting with. */
  class ChatWidget {
    const resume: string
    var messages: seq<Message>
    var inputMessage: string
    var isLoading: bool
    var isSuggesting: bool
    var isSummarizing: bool
    var chatInstance: Option<Session>
    var pendingQuestion: Option<string>
    var pendingSuggestion: Option<string>
    var pendingSummary: Option<string>
    /** The sessions started so far and the prompts sent on them. */
    ghost var sessions: seq<Session>
    ghost var sent: seq<string>

    /** Each busy flag is up exactly while its handler waits on the model;
        at most one session is ever started and, once started, it is the
        one in use; nothing is sent before there is a session. */
    ghost predicate Valid()
      reads this
    {
      (isLoading <==> pendingQuestion.Some?)
      && (isSuggesting <==> pendingSuggestion.Some?)
      && (isSummarizing <==> pendingSummary.Some?)
      && |sessions| <= 1
      && chatInstance == (if |sessions| == 0 then None else Some(sessions[0]))
      && (|sent| > 0 ==> chatInstance.Some?)
    }

    constructor (resumeText: string)
      ensures Valid()
      ensures resume == resumeText && messages == [] && inputMessage == ""
      ensures !isLoading && !isSuggesting && !isSummarizing
      ensures chatInstance.None? && sessions == [] && sent == []
    {
      resume := resumeText;
      messages := [];
      inputMessage := "";
      isLoading := false;
      isSuggesting := false;
      isSummarizing := false;
      chatInstance := None;
      pendingQuestion := None;
      pendingSuggestion := None;
      pendingSummary := None;
      sessions := [];
      sent := [];
    }

    /** The text box changes. */
    method SetInput(text: string)
      requires Valid()
      modifies this`inputMessage
      ensures Valid()
      ensures inputMessage == text
    {
      inputMessage := text;
    }

    /** Starts the session on first use and hands out the same one after. */
    method InitGeminiChat(started: Result<Session>) returns (r: Result<Session>)
      requires Valid()
      modifies this`chatInstance, this`sessions
      ensures Valid()
      ensures old(chatInstance).Some? ==> r == Ok(old(chatInstance).value) && chatInstance == old(chatInstance)
      ensures old(chatInstance).None? && started.Ok? ==> r == started && chatInstance == Some(started.value)
      ensures old(chatInstance).None? && started.Err? ==> r == Err(InitFailure) && chatInstance.None?
      ensures r.Ok? <==> chatInstance.Some?
      ensures r.Ok? ==> chatInstance == Some(r.value)
      ensures sessions == (if old(chatInstance).None? && started.Ok? then [started.value] else old(sessions))
    {
      if chatInstance.None? {
        match started
        case Ok(session) =>
          chatInstance := Some(session);
          sessions := [session];
        case Err(_) =>
          return Err(InitFailure);
      }
      r := Ok(chatInstance.value);
    }

    /** Sends `message`, wrapped in the resume prompt, on the session. */
    method AskGemini(message: string, started: Result<Session>, reply: Result<string>) returns (r: Result<string>)
      requires Valid()
      modifies this`chatInstance, this`sessions, this`sent
      ensures Valid()
      ensures r == AskOutcome(old(chatInstance).Some?, started, reply)
      ensures old(chatInstance).Some? ==> chatInstance == old(chatInstance)
      ensures sessions == (if old(chatInstance).None? && started.Ok? then [started.value] else old(sessions))
      ensures sent == (if chatInstance.Some? then old(sent) + [AskPrompt(resume, message)] else old(sent))
    {
      var chat := InitGeminiChat(started);
      if chat.Err? {
        return Err(BridgeFailure);
      }
      sent := sent + [AskPrompt(resume, message)];
      match reply
      case Ok(text) =>
        r := Ok(text);
      case Err(_) =>
        r := Err(BridgeFailure);
    }

    /** Sending the text box: up to the wait on the model. Ignored when the
        box holds only white space or a message is already being answered.
        Otherwise the raw text is logged as the user's, the box is cleared,
        and a canned reply is logged at once, or the question is left
        waiting on the model. */
    method SendMessage(random: real, time: string, date: string)
      requires Valid() && 0.0 <= random < 1.0
      modifies this`messages, this`inputMessage, this`isLoading, this`pendingQuestion
      ensures Valid()
      ensures old(AllSpace(inputMessage) || isLoading) ==>
                messages == old(messages) && inputMessage == old(inputMessage)
                && isLoading == old(isLoading) && pendingQuestion == old(pendingQuestion)
      ensures !old(AllSpace(inputMessage) || isLoading) && Route(old(inputMessage)) != AskModel ==>
                messages == old(messages) + [Message(User, old(inputMessage)),
                                             Message(Bot, CannedReply(Route(old(inputMessage)), random, time, date))]
                && inputMessage == "" && !isLoading && pendingQuestion.None?
      ensures !old(AllSpace(inputMessage) || isLoading) && Route(old(inputMessage)) == AskModel ==>
                messages == old(messages) + [Message(User, old(inputMessage))]
                && inputMessage == "" && isLoading && pendingQuestion == Some(old(inputMessage))
      ensures isSuggesting == old(isSuggesting) && isSummarizing == old(isSummarizing)
      ensures pendingSuggestion == old(pendingSuggestion) && pendingSummary == old(pendingSummary)
      ensures chatInstance == old(chatInstance) && sessions == old(sessions) && sent == old(sent)
    {
      if Trim(inputMessage) == [] || isLoading {
        return;
      }
      var text := inputMessage;
      var intent := Route(text);
      inputMessage := "";
      isLoading := true;
      if intent == AskModel {
        messages := messages + [Message(User, text)];
        pendingQuestion := Some(text);
      } else {
        // the user's message and the canned reply land together
        messages := messages + [Message(User, text), Message(Bot, CannedReply(intent, random, time, date))];
        isLoading := false;
      }
    }

    /** The rest of a send that went to the model: the answer, or the error,
        is logged and the flag drops. */
    method ReceiveAnswer(started: Result<Session>, reply: Result<string>)
      requires Valid() && pendingQuestion.Some?
      modifies this`messages, this`isLoading, this`pendingQuestion, this`chatInstance, this`sessions, this`sent
      ensures Valid()
      ensures messages == old(messages)
                + [Message(Bot, AnswerText(AskOutcome(old(chatInstance).Some?, started, reply)))]
      ensures !isLoading && pendingQuestion.None?
      ensures inputMessage == old(inputMessage)
      ensures isSuggesting == old(isSuggesting) && isSummarizing == old(isSummarizing)
      ensures pendingSuggestion == old(pendingSuggestion) && pendingSummary == old(pendingSummary)
      ensures chatInstance == (if old(chatInstance).None? && started.Ok? then Some(started.value) else old(chatInstance))
      ensures sessions == (if old(chatInstance).None? && started.Ok? then [started.value] else old(sessions))
      ensures sent == (if chatInstance.Some? then old(sent) + [AskPrompt(resume, old(pendingQuestion).value)] else old(sent))
    {
      var answer := AskGemini(pendingQuestion.value, started, reply);
      messages := messages + [Message(Bot, AnswerText(answer))];
      isLoading := false;
      pendingQuestion := None;
    }

    /** Asking for a follow-up question: up to the wait on the model.
        Ignored while any request is running. Otherwise the flag goes up and
        the request carries the transcript of the log as it stands. */
    method SuggestNextQuestion()
      requires Valid()
      modifies this`isSuggesting, this`pendingSuggestion
      ensures Valid()
      ensures old(isSuggesting || isLoading || isSummarizing) ==>
                isSuggesting == old(isSuggesting) && pendingSuggestion == old(pendingSuggestion)
      ensures !old(isSuggesting || isLoading || isSummarizing) ==>
                isSuggesting && pendingSuggestion == Some(SuggestPrompt(Transcript(messages)))
    {
      if isSuggesting || isLoading || isSummarizing {
        return;
      }
      isSuggesting := true;
      pendingSuggestion := Some(SuggestPrompt(Transcript(messages)));
    }

    /** The rest of a suggestion: the quoted question, or the error, is
        logged and the flag drops. */
    method ReceiveSuggestion(started: Result<Session>, reply: Result<string>)
      requires Valid() && pendingSuggestion.Some?
      modifies this`messages, this`isSuggesting, this`pendingSuggestion, this`chatInstance, this`sessions, this`sent
      ensures Valid()
      ensures messages == old(messages)
                + [Message(Bot, SuggestionText(AskOutcome(old(chatInstance).Some?, started, reply)))]
      ensures !isSuggesting && pendingSuggestion.None?
      ensures inputMessage == old(inputMessage)
      ensures isLoading == old(isLoading) && isSummarizing == old(isSummarizing)
      ensures pendingQuestion == old(pendingQuestion) && pendingSummary == old(pendingSummary)
      ensures chatInstance == (if old(chatInstance).None? && started.Ok? then Some(started.value) else old(chatInstance))
      ensures sessions == (if old(chatInstance).None? && started.Ok? then [started.value] else old(sessions))
      ensures sent == (if chatInstance.Some? then old(sent) + [AskPrompt(resume, old(pendingSuggestion).value)] else old(sent))
    {
      var outcome := AskGemini(pendingSuggestion.value, started, reply);
      messages := messages + [Message(Bot, SuggestionText(outcome))];
      isSuggesting := false;
      pendingSuggestion := None;
    }

    /** Asking for a summary: up to the wait on the model. Ignored while any
        request is running. */
    method SummarizeChat()
      requires Valid()
      modifies this`isSummarizing, this`pendingSummary
      ensures Valid()
      ensures old(isSummarizing || isLoading || isSuggesting) ==>
                isSummarizing == old(isSummarizing) && pendingSummary == old(pendingSummary)
      ensures !old(isSummarizing || isLoading || isSuggesting) ==>
                isSummarizing && pendingSummary == Some(SummaryPrompt(Transcript(messages)))
    {
      if isSummarizing || isLoading || isSuggesting {
        return;
      }
      isSummarizing := true;
      pendingSummary := Some(SummaryPrompt(Transcript(messages)));
    }

    /** The rest of a summary: the summary, or the error, is logged and the
        flag drops. */
    method ReceiveSummary(started: Result<Session>, reply: Result<string>)
      requires Valid() && pendingSummary.Some?
      modifies this`messages, this`isSummarizing, this`pendingSummary, this`chatInstance, this`sessions, this`sent
      ensures Valid()
      ensures messages == old(messages)
                + [Message(Bot, SummaryText(AskOutcome(old(chatInstance).Some?, started, reply)))]
      ensures !isSummarizing && pendingSummary.None?
      ensures inputMessage == old(inputMessage)
      ensures isLoading == old(isLoading) && isSuggesting == old(isSuggesting)
      ensures pendingQuestion == old(pendingQuestion) && pendingSuggestion == old(pendingSuggestion)
      ensures chatInstance == (if old(chatInstance).None? && started.Ok? then Some(started.value) else old(chatInstance))
      ensures sessions == (if old(chatInstance).None? && started.Ok? then [started.value] else old(sessions))
      ensures sent == (if chatInstance.Some? then old(sent) + [AskPrompt(resume, old(pendingSummary).value)] else old(sent))
    {
      var outcome := AskGemini(pendingSummary.value, started, reply);
      messages := messages + [Message(Bot, SummaryText(outcome))];
      isSummarizing := false;
      pendingSummary := None;
    }
  }
}
