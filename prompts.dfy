/** The texts the widget builds: the prompt wrapped around every question sent
    to the model, the plain-text transcript of the conversation, the prompts
    for a suggested question and for a summary, and the bot messages that
    carry their answers. */
module Prompts {
  import opened Wrappers
  import opened Templates

  datatype Role = User | Bot

  /** One entry of the message log. */
  datatype Message = Message(role: Role, text: string)

  // ----- the prompt around every question -----

  const AskHead: string :=
    "\nYou are an AI assistant that answers questions about the following person based on their resume.\n\nResume:\n"
  const QuestionHead: string := "\n\nUser question: "
  const AskTail: string := "\n\nIf the answer is not in the resume, say \"Sorry, I don't have that information.\"\n"

  /** The fixed part of the prompt before the question. */
  function AskPreamble(resume: string): string {
    AskHead + resume + QuestionHead
  }

  /** The prompt sent for `question`: instructions, the whole resume, the
      question, and the fallback answer to give. The question can be read
      back from it, and the resume stands verbatim right after the opening
      instructions. */
  function AskPrompt(resume: string, question: string): (r: string)
    ensures Between(AskPreamble(resume), AskTail, r) == Some(question)
    ensures |AskHead| + |resume| <= |r| && r[|AskHead|..|AskHead| + |resume|] == resume
  {
    BetweenFill(AskPreamble(resume), AskTail, question);
    AskPreamble(resume) + question + AskTail
  }

  /** Two different questions never give the same prompt. */
  lemma AskPromptInjective(resume: string, q1: string, q2: string)
    requires AskPrompt(resume, q1) == AskPrompt(resume, q2)
    ensures q1 == q2
  {
    assert Between(AskPreamble(resume), AskTail, AskPrompt(resume, q1)) == Some(q1);
  }

  // ----- lines, joined and split as JavaScript does -----

  /** `lines.join("\n")`: the empty list gives the empty string, the first
      line leads, a separator follows whenever another line does, and nothing
      but the lines' characters and separators appears. */
  function JoinLines(lines: seq<string>): (r: string)
    ensures |lines| == 0 ==> r == ""
    ensures |lines| >= 1 ==> lines[0] <= r
    ensures |lines| >= 2 ==> |lines[0]| < |r| && r[|lines[0]|] == '\n'
    ensures forall c :: c in r ==> c == '\n' || exists k :: 0 <= k < |lines| && c in lines[k]
    decreases |lines|
  {
    if |lines| == 0 then ""
    else if |lines| == 1 then lines[0]
    else
      var rest := JoinLines(lines[1..]);
      assert forall c :: c in rest ==> c == '\n' || exists k :: 0 <= k < |lines| && c in lines[k] by {
        forall c | c in rest && c != '\n'
          ensures exists k :: 0 <= k < |lines| && c in lines[k]
        {
          var k :| 0 <= k < |lines[1..]| && c in lines[1..][k];
          assert c in lines[k + 1];
        }
      }
      lines[0] + "\n" + rest
  }

  /** `t.split("\n")`: always at least one piece, none holding a newline. */
  function SplitLines(t: string): (r: seq<string>)
    ensures |r| >= 1
    ensures forall k :: 0 <= k < |r| ==> '\n' !in r[k]
    decreases |t|
  {
    if |t| == 0 then [""]
    else if t[0] == '\n' then [""] + SplitLines(t[1..])
    else
      var rest := SplitLines(t[1..]);
      [[t[0]] + rest[0]] + rest[1..]
  }

  /** Splitting a line without newlines gives the line alone. */
  lemma {:induction false} SplitSingle(a: string)
    requires '\n' !in a
    ensures SplitLines(a) == [a]
    decreases |a|
  {
    if |a| > 0 {
      assert '\n' !in a[1..] by {
        forall k | 0 <= k < |a[1..]| ensures a[1..][k] != '\n' {
          assert a[1..][k] == a[k + 1];
        }
      }
      SplitSingle(a[1..]);
      assert [a[0]] + a[1..] == a;
    }
  }

  /** Splitting at the first newline. */
  lemma {:induction false} SplitFirst(a: string, b: string)
    requires '\n' !in a
    ensures SplitLines(a + "\n" + b) == [a] + SplitLines(b)
    decreases |a|
  {
    var t := a + "\n" + b;
    if |a| == 0 {
      assert t[0] == '\n' && t[1..] == b;
    } else {
      assert '\n' !in a[1..] by {
        forall k | 0 <= k < |a[1..]| ensures a[1..][k] != '\n' {
          assert a[1..][k] == a[k + 1];
        }
      }
      assert t[0] == a[0] && t[1..] == a[1..] + "\n" + b;
      SplitFirst(a[1..], b);
      assert [a[0]] + a[1..] == a;
    }
  }

  /** Joining lines that hold no newline and splitting the result gives the
      lines back (a non-empty list: the empty list joins to "", which splits
      into one empty line). */
  lemma {:induction false} SplitJoin(lines: seq<string>)
    requires |lines| >= 1
    requires forall k :: 0 <= k < |lines| ==> '\n' !in lines[k]
    ensures SplitLines(JoinLines(lines)) == lines
    decreases |lines|
  {
    if |lines| == 1 {
      SplitSingle(lines[0]);
    } else {
      SplitFirst(lines[0], JoinLines(lines[1..]));
      SplitJoin(lines[1..]);
      assert [lines[0]] + lines[1..] == lines;
    }
  }

  /** Splitting and joining again gives back any text. */
  lemma {:induction false} JoinSplit(t: string)
    ensures JoinLines(SplitLines(t)) == t
    decreases |t|
  {
    if |t| > 0 {
      JoinSplit(t[1..]);
      var rest := SplitLines(t[1..]);
      if t[0] == '\n' {
        assert t == "\n" + t[1..];
      } else if |rest| == 1 {
        assert t == [t[0]] + t[1..];
      } else {
        assert JoinLines(rest) == rest[0] + "\n" + JoinLines(rest[1..]);
        assert t == [t[0]] + t[1..];
      }
    }
  }

  // ----- the transcript -----

  /** "You" for the user, "Bot" for the bot. */
  function Speaker(role: Role): string {
    if role == User then "You" else "Bot"
  }

  /** One message as a transcript line: a five-character prefix that names
      the speaker ("You: " exactly for the user, "Bot: " for the bot), then
      the text unchanged. The line breaks where the text does. */
  function Line(m: Message): (r: string)
    ensures |r| == 5 + |m.text| && r[5..] == m.text
    ensures r[..5] == "You: " <==> m.role == User
    ensures m.role == Bot ==> r[..5] == "Bot: "
    ensures '\n' in r <==> '\n' in m.text
  {
    var r := Speaker(m.role) + ": " + m.text;
    assert r[..5] == Speaker(m.role) + ": ";
    assert r[5..] == m.text;
    assert r[0] == Speaker(m.role)[0];
    assert forall x :: 0 <= x < 5 ==> r[x] != '\n';
    r
  }

  /** The lines of a transcript, one per message. */
  function Lines(ms: seq<Message>): seq<string> {
    seq(|ms|, k requires 0 <= k < |ms| => Line(ms[k]))
  }

  /** The conversation as text, one line per message: empty exactly for an
      empty log, and, when no message text holds a line break, split at
      line breaks it gives back each message's line in order. */
  function Transcript(ms: seq<Message>): (r: string)
    ensures r == "" <==> ms == []
    ensures SingleLineTexts(ms) && ms != [] ==> SplitLines(r) == Lines(ms)
  {
    LinesJoinSplit(ms);
    JoinLines(Lines(ms))
  }

  /** The joined lines of a log are empty exactly for the empty log and,
      when every text is a single line, split back into those lines. */
  lemma LinesJoinSplit(ms: seq<Message>)
    ensures JoinLines(Lines(ms)) == "" <==> ms == []
    ensures SingleLineTexts(ms) && ms != [] ==> SplitLines(JoinLines(Lines(ms))) == Lines(ms)
  {
    var lines := Lines(ms);
    if ms != [] {
      assert |lines[0]| >= 5;
      if SingleLineTexts(ms) {
        forall k | 0 <= k < |lines|
          ensures '\n' !in lines[k]
        {
          assert lines[k] == Line(ms[k]);
        }
        SplitJoin(lines);
      }
    }
  }

  /** Reads one transcript line back. */
  function ParseLine(l: string): (r: Option<Message>)
    ensures r.Some? ==> Line(r.value) == l
  {
    if |l| >= 5 && l[..5] == "You: " then
      assert l == "You" + ": " + l[5..];
      Some(Message(User, l[5..]))
    else if |l| >= 5 && l[..5] == "Bot: " then
      assert l == "Bot" + ": " + l[5..];
      Some(Message(Bot, l[5..]))
    else None
  }

  function ParseLines(lines: seq<string>): (r: Option<seq<Message>>)
    ensures r.Some? ==> |r.value| == |lines|
    decreases |lines|
  {
    if |lines| == 0 then Some([])
    else match (ParseLine(lines[0]), ParseLines(lines[1..]))
      case (Some(m), Some(ms)) => Some([m] + ms)
      case _ => None
  }

  /** Reads a transcript back into messages. */
  function ParseTranscript(t: string): Option<seq<Message>> {
    if |t| == 0 then Some([]) else ParseLines(SplitLines(t))
  }

  /** No message text holds a line break. */
  predicate SingleLineTexts(ms: seq<Message>) {
    forall k :: 0 <= k < |ms| ==> '\n' !in ms[k].text
  }

  lemma LineRoundTrip(m: Message)
    ensures ParseLine(Line(m)) == Some(m)
  {
    var l := Line(m);
    assert l[..5] == Speaker(m.role) + ": ";
    assert l[5..] == m.text;
    if m.role == User {
      assert Speaker(m.role) + ": " == "You: ";
    } else {
      assert Speaker(m.role) + ": " == "Bot: ";
    }
  }

  lemma {:induction false} ParseLinesOfLines(ms: seq<Message>)
    ensures ParseLines(Lines(ms)) == Some(ms)
    decreases |ms|
  {
    if |ms| > 0 {
      assert Lines(ms)[1..] == Lines(ms[1..]);
      ParseLinesOfLines(ms[1..]);
      LineRoundTrip(ms[0]);
      assert [ms[0]] + ms[1..] == ms;
    }
  }

  /** When no message text holds a line break, the transcript gives the
      conversation back exactly. */
  lemma TranscriptRoundTrip(ms: seq<Message>)
    requires SingleLineTexts(ms)
    ensures ParseTranscript(Transcript(ms)) == Some(ms)
  {
    ParseLinesOfLines(ms);
  }

  /** A text with a line break can pass for two messages: the transcript does
      not keep message boundaries. */
  lemma TranscriptAmbiguous(a: string, b: string)
    ensures Transcript([Message(User, a + "\nBot: " + b)])
            == Transcript([Message(User, a), Message(Bot, b)])
  {
    TranscriptOfOne(Message(User, a + "\nBot: " + b));
    TranscriptOfTwo(Message(User, a), Message(Bot, b));
    SpeakerLines(a + "\nBot: " + b);
    SpeakerLines(a);
    SpeakerLines(b);
    SecondSpeaker(a, b);
  }

  lemma SecondSpeaker(a: string, b: string)
    ensures "You: " + (a + "\nBot: " + b) == "You: " + a + "\n" + ("Bot: " + b)
  {
    assert "\nBot: " == "\n" + "Bot: ";
  }

  lemma SpeakerLines(t: string)
    ensures Line(Message(User, t)) == "You: " + t
    ensures Line(Message(Bot, t)) == "Bot: " + t
  {
  }

  lemma TranscriptOfOne(m: Message)
    ensures Transcript([m]) == Line(m)
  {
    assert Lines([m]) == [Line(m)];
  }

  lemma TranscriptOfTwo(m1: Message, m2: Message)
    ensures Transcript([m1, m2]) == Line(m1) + "\n" + Line(m2)
  {
    var lines := Lines([m1, m2]);
    assert lines == [Line(m1), Line(m2)];
    assert lines[1..] == [Line(m2)];
    assert JoinLines(lines[1..]) == Line(m2);
    assert JoinLines(lines) == Line(m1) + "\n" + JoinLines(lines[1..]);
  }

  // ----- suggestions and summaries -----

  const SuggestHead: string :=
    "Based on the following conversation, suggest a relevant follow-up question. Be concise and provide only the question:\n\n"
  const SuggestTail: string := "\n\nSuggested question:"
  const SummaryHead: string := "Summarize the following chat conversation concisely:\n\n"
  const SummaryTail: string := "\n\nSummary:"

  /** The request for a follow-up question; the transcript can be read back
      from it. */
  function SuggestPrompt(history: string): (r: string)
    ensures Between(SuggestHead, SuggestTail, r) == Some(history)
  {
    BetweenFill(SuggestHead, SuggestTail, history);
    SuggestHead + history + SuggestTail
  }

  /** The request for a summary; the transcript can be read back from it. */
  function SummaryPrompt(history: string): (r: string)
    ensures Between(SummaryHead, SummaryTail, r) == Some(history)
  {
    BetweenFill(SummaryHead, SummaryTail, history);
    SummaryHead + history + SummaryTail
  }

  /** The conversation a request built from `head` and `tail` carries to the
      model, read back from the outbound prompt. */
  function ConversationIn(resume: string, head: string, tail: string, prompt: string): Option<seq<Message>> {
    match Between(AskPreamble(resume), AskTail, prompt)
    case None => None
    case Some(question) =>
      match Between(head, tail, question)
      case None => None
      case Some(history) => ParseTranscript(history)
  }

  /** What goes out for a suggestion carries the whole conversation, message
      by message, when no message text holds a line break. */
  lemma SuggestRequestCarriesConversation(resume: string, ms: seq<Message>)
    requires SingleLineTexts(ms)
    ensures ConversationIn(resume, SuggestHead, SuggestTail, AskPrompt(resume, SuggestPrompt(Transcript(ms)))) == Some(ms)
  {
    TranscriptRoundTrip(ms);
  }

  /** What goes out for a summary carries the whole conversation likewise. */
  lemma SummaryRequestCarriesConversation(resume: string, ms: seq<Message>)
    requires SingleLineTexts(ms)
    ensures ConversationIn(resume, SummaryHead, SummaryTail, AskPrompt(resume, SummaryPrompt(Transcript(ms)))) == Some(ms)
  {
    TranscriptRoundTrip(ms);
  }

  // ----- the bot messages that carry answers and errors -----

  /** The message of the error every failed request ends in. */
  const BridgeFailure: string := "Failed to get response from Gemini. Please check the console for details."
  /** The message of the error a failed session start raises inside the bridge. */
  const InitFailure: string := "Failed to initialize chat model. Check your API key and network connection."

  const SuggestionHead: string := "\U{2728} Here's a suggested question: \""
  const SummaryTextHead: string := "\U{2728} Chat Summary: "

  /** The bot message for the outcome of a free-form question. */
  function AnswerText(outcome: Result<string>): (r: string)
    ensures outcome.Ok? ==> r == outcome.value
    ensures outcome.Err? ==> Between("Error: ", "", r) == Some(outcome.message)
  {
    match outcome
    case Ok(answer) => answer
    case Err(message) =>
      BetweenFill("Error: ", "", message);
      assert "Error: " + message + "" == "Error: " + message;
      "Error: " + message
  }

  /** The bot message for the outcome of a suggestion request: the answer
      quoted, or the error. The two kinds can always be told apart. */
  function SuggestionText(outcome: Result<string>): (r: string)
    ensures outcome.Ok? ==> Between(SuggestionHead, "\"", r) == Some(outcome.value)
    ensures outcome.Err? ==> Between("Error suggesting question: ", "", r) == Some(outcome.message)
    ensures |r| > 0 && (r[0] == '\U{2728}' <==> outcome.Ok?)
  {
    match outcome
    case Ok(question) =>
      BetweenFill(SuggestionHead, "\"", question);
      SuggestionHead + question + "\""
    case Err(message) =>
      BetweenFill("Error suggesting question: ", "", message);
      assert "Error suggesting question: " + message + "" == "Error suggesting question: " + message;
      "Error suggesting question: " + message
  }

  /** The bot message for the outcome of a summary request. */
  function SummaryText(outcome: Result<string>): (r: string)
    ensures outcome.Ok? ==> Between(SummaryTextHead, "", r) == Some(outcome.value)
    ensures outcome.Err? ==> Between("Error summarizing chat: ", "", r) == Some(outcome.message)
    ensures |r| > 0 && (r[0] == '\U{2728}' <==> outcome.Ok?)
  {
    match outcome
    case Ok(summary) =>
      BetweenFill(SummaryTextHead, "", summary);
      assert SummaryTextHead + summary + "" == SummaryTextHead + summary;
      SummaryTextHead + summary
    case Err(message) =>
      BetweenFill("Error summarizing chat: ", "", message);
      assert "Error summarizing chat: " + message + "" == "Error summarizing chat: " + message;
      "Error summarizing chat: " + message
  }
}
