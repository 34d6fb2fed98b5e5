# Portfolio chat widget — a Dafny model

The portfolio site has a chat widget. In it, a visitor can talk with an assistant that speaks for the site's owner, Shreya. The widget does four things:

- It keeps a log of user and bot messages, a text box and three busy flags: answering, suggesting and summarising.
- A typed message is trimmed and lower-cased first. It is then checked against five regular expressions, in order:
  1. a greeting addressed to Shreya
  2. "how are you"
  3. "tell me a joke"
  4. a question about the time
  5. a question about the date

  The first pattern that matches picks a canned reply. That reply may be drawn at random or may carry the local time or date. A message that no pattern matches goes to a Gemini model, wrapped in a prompt that holds the whole résumé.
- It can ask the model to suggest a follow-up question, or to summarise the chat. In both cases the log goes out as a "You: …" / "Bot: …" transcript.
- It starts one model chat session lazily, on first use, and reuses it after that.

The model has six modules:

| module | what it holds |
|---|---|
| `Wrappers` | `Option` and `Result` |
| `JsText` | JavaScript's `trim` and `toLowerCase`, and the white-space and word-character classes |
| `Patterns` | A regular-expression syntax tree. Its meaning is the set of positions where a match can end, which is what JavaScript's `RegExp.prototype.test` asks. Also the five patterns, each characterised exactly, and a required-character analysis. |
| `Templates` | Fixed text around a variable part, and the way back |
| `Router` | The ordered pattern checks and the canned replies |
| `Prompts` | The résumé prompt, the transcript, the suggestion and summary requests, and the bot messages for answers and errors |
| `ChatBot` | The class `ChatWidget`, with the handlers as methods over the widget's state |

Some inputs come from outside the widget. The model takes them as parameters:

- the random number drawn (a real in [0, 1))
- the local time and date strings
- how starting a session went
- how the model answered

The three handlers that wait on the model are each split at that wait:

- `SendMessage`, `SuggestNextQuestion` and `SummarizeChat` run up to it.
- `ReceiveAnswer`, `ReceiveSuggestion` and `ReceiveSummary` run the rest.

A pending field in the class holds what each suspended handler waits with. Its flag is up exactly while that field is set; this is part of the class invariant `Valid`.

## Model

| member | source | states |
|---|---|---|
| JsText.Trim | src/assets/GEMINI/ChatBot.jsx:80 | The result is a slice of the input with only white space cut from both ends. It has no white space at either end. It is empty exactly when the input is all white space. |
| JsText.ToLower | src/assets/GEMINI/ChatBot.jsx:82 | Every character of the result is lower-case, and the result is never shorter than the input. Lower-casing distributes over concatenation (`ToLowerAppend`), and texts that differ only in case lower-case alike (`ToLowerSameCase`). |
| JsText.Normalize | src/assets/GEMINI/ChatBot.jsx:82 | The normalised text is trimmed and lower-case. It is empty exactly when the input is all white space. |
| JsText.NormalizeIdempotent | src/assets/GEMINI/ChatBot.jsx:82 | Normalising twice gives the same text as normalising once. |
| JsText.NormalizeIgnoresCase | src/assets/GEMINI/ChatBot.jsx:82 | Two inputs that differ only in letter case normalise to the same text. |
| Patterns.Ends | src/assets/GEMINI/ChatBot.jsx:113-129 | Every position where a match starting at i can end lies between i and the end of the text. The five rule lemmas below pin down exactly when a match exists for each pattern. |
| Patterns.Test | src/assets/GEMINI/ChatBot.jsx:113-129 | `test` succeeds when a match starts somewhere. A text that passes holds every character the pattern requires. |
| Patterns.GreetingRule | src/assets/GEMINI/ChatBot.jsx:113 | The greeting pattern matches exactly when "hi", "hello" or "hey" starts at a word boundary, is followed by zero or more white-space characters or commas, then by "shreya", and a word boundary follows. |
| Patterns.HowAreYouRule | src/assets/GEMINI/ChatBot.jsx:116 | The pattern matches exactly when "how", "are" and "you" occur at a word boundary, separated by runs of at least one white-space character, and a word boundary follows. |
| Patterns.JokeRule | src/assets/GEMINI/ChatBot.jsx:121 | The pattern matches exactly when "tell me a joke" occurs with a word boundary on both sides. |
| Patterns.TimeRule | src/assets/GEMINI/ChatBot.jsx:124 | The pattern matches exactly when all of the following hold: "what" stands at a word boundary; white space follows; then "is" or "time" with a boundary after it; then a stretch without line breaks; then "time" or "now" between word boundaries. |
| Patterns.DateRule | src/assets/GEMINI/ChatBot.jsx:129 | The pattern matches exactly when "what date is it" occurs as four words at word boundaries, or "today", an apostrophe (straight or curly), "s", white space and "date" occur at word boundaries. |
| Patterns.MissingCharNoMatch | src/assets/GEMINI/ChatBot.jsx:113-129 | No pattern can match a text that lacks one of the pattern's required characters. |
| Patterns.MustContainSound | src/assets/GEMINI/ChatBot.jsx:113-129 | Every match of a pattern spans every one of its required characters. |
| Router.Classify | src/assets/GEMINI/ChatBot.jsx:113-138 | First match wins. The chosen branch's pattern matches the normalised text, and no pattern tried earlier does. A text without the letter "a" matches no pattern, so it goes to the model. |
| Router.Route | src/assets/GEMINI/ChatBot.jsx:82-138 | The raw input is routed by its normalised form. A blank input matches no pattern. |
| Router.ClassifyAskModel | src/assets/GEMINI/ChatBot.jsx:134-136 | A message goes to the model exactly when none of the five patterns matches it. |
| Router.ClassifyGreeting | src/assets/GEMINI/ChatBot.jsx:113-115 | A message gets a greeting exactly when it greets Shreya by name. |
| Router.ClassifyHowAreYou | src/assets/GEMINI/ChatBot.jsx:113-120 | A message gets the how-are-you reply exactly when it says "how are you" between word boundaries and does not greet Shreya. |
| Router.ClassifyJoke | src/assets/GEMINI/ChatBot.jsx:113-123 | A message gets a joke exactly when it says "tell me a joke" between word boundaries and neither earlier pattern matches. |
| Router.ClassifyTime | src/assets/GEMINI/ChatBot.jsx:113-128 | A message gets the time exactly when it asks for the time and none of the three earlier patterns matches. |
| Router.ClassifyDate | src/assets/GEMINI/ChatBot.jsx:113-133 | A message gets the date exactly when it says "what date is it" or "today's date" and none of the four earlier patterns matches. |
| Router.GreetingBeforeHowAreYou | src/assets/GEMINI/ChatBot.jsx:113-120 | A message that greets Shreya and also asks how she is matches both patterns, and the greeting wins. |
| Router.GreetingBeforeHowAreYouExample | src/assets/GEMINI/ChatBot.jsx:113-120 | "hi shreya how are you" gets a greeting. |
| Router.TimeBeforeDate | src/assets/GEMINI/ChatBot.jsx:124-133 | Take a message laid out like "what is today's date now", with the time question and "today's date" at those positions, and with no "r" or "j" to wake the earlier patterns. It matches the date pattern, but it gets the time. |
| Router.TimeBeforeDateExample | src/assets/GEMINI/ChatBot.jsx:124-133 | "what is today's date now" matches the date pattern but gets the time. |
| Router.UnknownQuestion | src/assets/GEMINI/ChatBot.jsx:134-136 | A message without the letters "y", "k", "w" and "d" matches no pattern, so it goes to the model. |
| Router.UnknownQuestionExample | src/assets/GEMINI/ChatBot.jsx:134-136 | "list her projects" goes to the model. |
| Router.RouteIgnoresCase | src/assets/GEMINI/ChatBot.jsx:82 | Messages that differ only in letter case take the same branch. |
| Router.RouteNormalized | src/assets/GEMINI/ChatBot.jsx:82 | Normalising a message beforehand never changes its branch. |
| Router.PickIndex | src/assets/GEMINI/ChatBot.jsx:114 | `Math.floor(Math.random() * n)` is a valid index into a list of length n. |
| Router.PickIndexCovers | src/assets/GEMINI/ChatBot.jsx:114 | Every index can be drawn. |
| Router.CannedReply | src/assets/GEMINI/ChatBot.jsx:91-133 | A greeting reply is one of the five greetings. A joke reply is one of the four jokes. The how-are-you reply is the fixed sentence. The time and date replies hold exactly the given time or date between their fixed head and tail. |
| Router.CannedReplyCovers | src/assets/GEMINI/ChatBot.jsx:91-105 | Every greeting and every joke can be the reply. |
| Templates.BetweenFill | src/assets/GEMINI/ChatBot.jsx:58-67 | Cutting a template's fixed parts off the filled text gives back exactly what was filled in. |
| Templates.FillInjective | src/assets/GEMINI/ChatBot.jsx:58-67 | Different fillings of one template give different texts. |
| Prompts.AskPrompt | src/assets/GEMINI/ChatBot.jsx:58-67 | The question can be read back from the prompt between its fixed preamble and tail. The résumé stands verbatim right after the opening instructions. |
| Prompts.AskPromptInjective | src/assets/GEMINI/ChatBot.jsx:58-67 | Different questions give different prompts. |
| Prompts.SplitJoin | src/assets/GEMINI/ChatBot.jsx:154-156 | Take a non-empty list of lines that hold no line break. Joining them with "\n", then splitting at "\n", gives the lines back. |
| Prompts.JoinSplit | src/assets/GEMINI/ChatBot.jsx:154-156 | Splitting a text at "\n", then joining with "\n", gives the text back. |
| Prompts.JoinLines | src/assets/GEMINI/ChatBot.jsx:156 | `join("\n")`: the empty list gives "", and the first line leads. A separator follows it whenever another line does. No character appears that is not in a line or a separator. `SplitJoin` and `JoinSplit` make it the inverse of splitting. |
| Prompts.SplitLines | src/assets/GEMINI/ChatBot.jsx:154-156 | Splitting gives at least one piece, and no piece holds a line break. |
| Prompts.Line | src/assets/GEMINI/ChatBot.jsx:155 | A message's line is a five-character prefix, then the text unchanged. The prefix is "You: " exactly for the user and "Bot: " for the bot. The line breaks exactly where the text does. |
| Prompts.Transcript | src/assets/GEMINI/ChatBot.jsx:154-156 | The transcript is empty exactly for an empty log. When the log is non-empty and no text holds a line break, it splits back into one line per message, in order. `TranscriptRoundTrip` recovers the log from it. |
| Prompts.ParseLine | src/assets/GEMINI/ChatBot.jsx:155 | A line read back as a message renders to that same line. |
| Prompts.LineRoundTrip | src/assets/GEMINI/ChatBot.jsx:155 | A message rendered as "You: …" or "Bot: …" reads back as the same message. |
| Prompts.TranscriptRoundTrip | src/assets/GEMINI/ChatBot.jsx:154-156 | When no message text holds a line break, the transcript gives back the whole log, message by message and in order. |
| Prompts.TranscriptAmbiguous | src/assets/GEMINI/ChatBot.jsx:154-156 | For any two texts a and b, a user message "a\nBot: b" renders the same as a user message "a" followed by a bot message "b". So the transcript does not keep message boundaries. |
| Prompts.SuggestPrompt | src/assets/GEMINI/ChatBot.jsx:157 | The transcript can be read back from the suggestion request. |
| Prompts.SummaryPrompt | src/assets/GEMINI/ChatBot.jsx:184 | The transcript can be read back from the summary request. |
| Prompts.SuggestRequestCarriesConversation | src/assets/GEMINI/ChatBot.jsx:154-158 | The prompt that goes out for a suggestion carries the whole log, message by message, when no text holds a line break. |
| Prompts.SummaryRequestCarriesConversation | src/assets/GEMINI/ChatBot.jsx:181-185 | The prompt that goes out for a summary carries the whole log likewise. |
| Prompts.AnswerText | src/assets/GEMINI/ChatBot.jsx:136-143 | The bot message of an answered question is the answer itself. On failure it is "Error: " followed by the error's message. |
| Prompts.SuggestionText | src/assets/GEMINI/ChatBot.jsx:159-170 | On success the message is the suggestion quoted after "✨ Here's a suggested question: ". On failure it is "Error suggesting question: " and the message. The message starts with ✨ exactly on success. |
| Prompts.SummaryText | src/assets/GEMINI/ChatBot.jsx:186-194 | On success the message is "✨ Chat Summary: " and the summary. On failure it is "Error summarizing chat: " and the message. The message starts with ✨ exactly on success. |
| ChatBot.AskOutcome | src/assets/GEMINI/ChatBot.jsx:54-75 | The bridge succeeds exactly when a session exists or starts and the model answers, and then it returns the answer unchanged. Every failure, a failed start included, becomes the one fixed "Failed to get response from Gemini…" error. |
| ChatBot.InitFailureNeverShown | src/assets/GEMINI/ChatBot.jsx:43-73 | Whatever fails, a failed start included, the bridge's error message is the general failure, never the initialisation message. So the bot message of a failed send, suggestion or summary is that handler's error prefix ("Error: ", "Error suggesting question: ", "Error summarizing chat: ") followed by the general failure. |
| ChatBot.ChatWidget.constructor | src/assets/GEMINI/ChatBot.jsx:8-12 | The log and the text box start empty, every flag is down, no session exists, and the invariant holds. |
| ChatBot.ChatWidget.SetInput | src/assets/GEMINI/ChatBot.jsx:293 | Typing replaces the text box, and the invariant is kept. |
| ChatBot.ChatWidget.InitGeminiChat | src/assets/GEMINI/ChatBot.jsx:28-49 | A session is started only when none exists. Once one exists, the same one is handed out and no other is started. A failed start leaves no session and raises the fixed initialisation error. |
| ChatBot.ChatWidget.AskGemini | src/assets/GEMINI/ChatBot.jsx:54-75 | The result is the bridge outcome above. A session that existed is kept. The résumé prompt for the message is sent exactly when a session is available. |
| ChatBot.ChatWidget.SendMessage | src/assets/GEMINI/ChatBot.jsx:79-136 | When the box is only white space, or an answer is pending, nothing changes. Otherwise the raw, untrimmed text is logged as the user's message and the box is cleared. For a canned branch the canned reply follows at once and the flag stays down. For the model branch the flag goes up with the raw text pending. Suggestions, summaries and the session are untouched. |
| ChatBot.ChatWidget.ReceiveAnswer | src/assets/GEMINI/ChatBot.jsx:136-146 | Exactly one bot message is appended: the answer, or "Error: " and the bridge's message. The answering flag drops, and the other flags and the text box are unchanged. When there was no session, the started one is installed, and after a failed start there is still none. The résumé prompt for the pending request is sent exactly when a session is available. |
| ChatBot.ChatWidget.SuggestNextQuestion | src/assets/GEMINI/ChatBot.jsx:150-158 | Nothing happens while any flag is up. Otherwise the suggesting flag goes up, and the request built from the transcript of the current log is pending. |
| ChatBot.ChatWidget.ReceiveSuggestion | src/assets/GEMINI/ChatBot.jsx:158-173 | Exactly one bot message is appended: the suggestion text for the outcome. Only the suggesting flag drops. When there was no session, the started one is installed, and after a failed start there is still none. The résumé prompt for the pending request is sent exactly when a session is available. |
| ChatBot.ChatWidget.SummarizeChat | src/assets/GEMINI/ChatBot.jsx:177-185 | Nothing happens while any flag is up. Otherwise the summarising flag goes up, and the request built from the transcript of the current log is pending. |
| ChatBot.ChatWidget.ReceiveSummary | src/assets/GEMINI/ChatBot.jsx:185-197 | Exactly one bot message is appended: the summary text for the outcome. Only the summarising flag drops. When there was no session, the started one is installed, and after a failed start there is still none. The résumé prompt for the pending request is sent exactly when a session is available. |

Every method of `ChatWidget` keeps the invariant `Valid`:

- Each flag is up exactly while its request waits.
- At most one session is ever started, and once started it is the one in use.
- Nothing is sent before a session exists.

## Left out

- Rendering and the UI. The JSX tree, the open/close toggle and the scroll-to-bottom effect (src/assets/GEMINI/ChatBot.jsx:200-318) are not modelled.
  - The UI also disables the input, the Send button and the two action buttons while any flag is up (lines 276, 283, 304, 309). So the send guard at line 80, which checks only the answering flag, never lets a send run beside a suggestion or summary. The model keeps the guard as written and allows the calls the UI would block.
- The API-key check (lines 16-22) and all `console` logging.
- The model's client library:
  - `getGenerativeModel`, `startChat`, `sendMessage` and `response.text()` are outcomes passed in as parameters.
  - The session settings passed to `startChat` (model "gemini-1.5-flash", temperature 0.7, 1000 output tokens, empty history; lines 31-39) are not modelled. The started session is an opaque handle.
  - How the client uses the session history is not modelled.
- Interleaving inside `askGemini`. Its awaits on starting the session and on the model's answer are collapsed into the one completion step, `ReceiveAnswer`, `ReceiveSuggestion` or `ReceiveSummary`. Two handlers that both start a session inside one suspended stretch are therefore not modelled.
- React's batching of state updates and the handlers' stale closures: each `setMessages(prev => …)` is a sequential append to the current log.
- `Math.random` is a real number in [0, 1), not a double.
- `new Date()`, `toLocaleTimeString` and `toLocaleDateString` are opaque strings passed in.
- JsText.Normalize: `toLowerCase` lower-cases ASCII A–Z and the two non-ASCII characters whose lower-case form contains ASCII letters (U+212A and U+0130). Every other character is left unchanged. This never changes which pattern matches, because the patterns use only ASCII letters. Strings are sequences of Unicode code points, not UTF-16 units.
- src/assets/GEMINI/gemini.js, a second copy of the session and bridge code that the widget does not import, is not part of this model.
- src/constants.js holds static portfolio data and is not part of this model.
- The résumé text loaded from `resume.txt` is a parameter of the widget's constructor.
