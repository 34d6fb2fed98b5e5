/** How the widget answers a typed message: the text is normalised, the five
    patterns are tried in order, the first that matches picks a canned reply,
    and a message no pattern matches goes to the model. */
module Router {
  import opened Wrappers
  import opened JsText
  import opened Patterns
  import opened Templates

  /** Which branch of the message handler answers. */
  datatype Intent = Greeting | HowAreYou | TellJoke | TimeQuery | DateQuery | AskModel

  /** The pattern that selects each branch but the fallback. */
  function PatternOf(intent: Intent): Regex
    requires intent != AskModel
  {
    match intent
    case Greeting => GreetingPattern
    case HowAreYou => HowAreYouPattern
    case TellJoke => JokePattern
    case TimeQuery => TimePattern
    case DateQuery => DatePattern
  }

  /** The place of each branch in the order the checks are tried. */
  function Rank(intent: Intent): nat {
    match intent
    case Greeting => 0
    case HowAreYou => 1
    case TellJoke => 2
    case TimeQuery => 3
    case DateQuery => 4
    case AskModel => 5
  }

  /** The pattern checks on the normalised text, in the order they are tried.
      The branch taken is the first whose pattern matches: its pattern
      matches and no earlier one does. Every pattern needs the letter "a", so
      a text without one always goes to the model. */
  function Classify(normalized: string): (r: Intent)
    ensures r != AskModel ==> Test(PatternOf(r), normalized)
    ensures Rank(r) > 0 ==> !Test(GreetingPattern, normalized)
    ensures Rank(r) > 1 ==> !Test(HowAreYouPattern, normalized)
    ensures Rank(r) > 2 ==> !Test(JokePattern, normalized)
    ensures Rank(r) > 3 ==> !Test(TimePattern, normalized)
    ensures Rank(r) > 4 ==> !Test(DatePattern, normalized)
    ensures 'a' !in normalized ==> r == AskModel
  {
    NoMatchWithoutA(normalized);
    if Test(GreetingPattern, normalized) then Greeting
    else if Test(HowAreYouPattern, normalized) then HowAreYou
    else if Test(JokePattern, normalized) then TellJoke
    else if Test(TimePattern, normalized) then TimeQuery
    else if Test(DatePattern, normalized) then DateQuery
    else AskModel
  }

  /** No pattern matches a text without the letter "a". */
  lemma NoMatchWithoutA(s: string)
    ensures 'a' !in s ==> !Test(GreetingPattern, s) && !Test(HowAreYouPattern, s) && !Test(JokePattern, s)
                          && !Test(TimePattern, s) && !Test(DatePattern, s)
  {
    if 'a' !in s {
      GreetingNeeds(s, 'a');
      HowAreYouNeeds(s, 'a');
      JokeNeeds(s, 'a');
      TimeNeeds(s, 'a');
      DateNeeds(s, 'a');
    }
  }

  /** The branch that answers the raw input: it is classified after trimming
      and lower-casing; the raw input itself is what is logged and what is
      asked of the model. A blank input matches no pattern. */
  function Route(input: string): (r: Intent)
    ensures AllSpace(input) ==> r == AskModel
  {
    Classify(Normalize(input))
  }

  // ----- what each branch answers -----

  /** A message goes to the model exactly when no pattern matches it. */
  lemma ClassifyAskModel(s: string)
    ensures Classify(s) == AskModel
            <==> !Test(GreetingPattern, s) && !Test(HowAreYouPattern, s) && !Test(JokePattern, s)
                 && !Test(TimePattern, s) && !Test(DatePattern, s)
  {
  }

  /** A message gets a greeting exactly when it greets Shreya by name. */
  lemma ClassifyGreeting(s: string)
    ensures Classify(s) == Greeting <==> exists i: nat, j: nat, q: nat :: GreetingAt(s, i, j, q)
  {
    GreetingRule(s);
  }

  /** A message is asked how she is exactly when it says "how are you" and
      does not greet Shreya. */
  lemma ClassifyHowAreYou(s: string)
    ensures Classify(s) == HowAreYou
            <==> (exists i: nat, j: nat, k: nat :: IsBoundaryAt(s, i) && Words3At(s, "how", "are", "you", i, j, k))
                 && !Test(GreetingPattern, s)
  {
    HowAreYouRule(s);
  }

  /** A message gets a joke exactly when it asks for one and neither earlier
      pattern matches. */
  lemma ClassifyJoke(s: string)
    ensures Classify(s) == TellJoke
            <==> (exists i: nat :: IsBoundaryAt(s, i) && LitAt(s, i, "tell me a joke") && IsBoundaryAt(s, i + 14))
                 && !Test(GreetingPattern, s) && !Test(HowAreYouPattern, s)
  {
    JokeRule(s);
  }

  /** A message is answered with the time exactly when it asks for the time
      and does not greet Shreya, ask how she is or ask for a joke. */
  lemma ClassifyTime(s: string)
    ensures Classify(s) == TimeQuery
            <==> (exists i: nat, j: nat, m: nat, k: nat, n: nat ::
                    QueryAt(s, "what", "is", "time", "time", "now", i, j, m, k, n))
                 && !Test(GreetingPattern, s) && !Test(HowAreYouPattern, s) && !Test(JokePattern, s)
  {
    TimeRule(s);
  }

  /** A message gets the date exactly when it asks for it and none of the
      four earlier patterns matches. */
  lemma ClassifyDate(s: string)
    ensures Classify(s) == DateQuery
            <==> ((exists i: nat, j: nat, k: nat, l: nat ::
                     IsBoundaryAt(s, i) && Words4At(s, "what", "date", "is", "it", i, j, k, l))
                  || (exists i: nat, k: nat :: PossessiveAt(s, "today", "s", "date", i, k)))
                 && !Test(GreetingPattern, s) && !Test(HowAreYouPattern, s) && !Test(JokePattern, s)
                 && !Test(TimePattern, s)
  {
    DateRule(s);
  }

  /** Upper and lower case never change the branch. */
  lemma RouteIgnoresCase(s: string, t: string)
    requires SameUpToCase(s, t)
    ensures Route(s) == Route(t)
  {
    NormalizeIgnoresCase(s, t);
  }

  /** Normalising a message again never changes the branch. */
  lemma RouteNormalized(s: string)
    ensures Route(Normalize(s)) == Route(s)
  {
    NormalizeIdempotent(s);
  }

  // ----- the canned replies -----

  const Greetings: seq<string> := [
    "Hey there! \U{1F60A} I'm Shreya. How can I help you today?",
    "Hi! I'm Shreya, your assistant. What would you like to know?",
    "Hello! \U{1F44B} Shreya here. Ready when you are!",
    "Hey! Shreya at your service. Ask me anything!",
    "Hiya! \U{1F60A} Need help with something?"
  ]

  const Jokes: seq<string> := [
    "Why don't programmers like nature? It has too many bugs. \U{1F41B}",
    "Why did the developer go broke? Because they used up all their cache. \U{1F4B8}",
    "Debugging: removing the needles from the haystack. \U{1F9F5}",
    "Why do Java developers wear glasses? Because they can't C#. \U{1F913}"
  ]

  const HowAreYouReply: string := "I'm doing great, thanks for asking! \U{1F60A} How can I assist you today?"

  const TimeHead: string := "It's currently "
  const TimeTail: string := ". \U{23F0}"
  const DateHead: string := "Today's date is "
  const DateTail: string := ". \U{1F4C5}"

  /** `Math.floor(random * n)` for a `random` drawn from [0, 1). */
  function PickIndex(random: real, n: nat): (k: nat)
    requires 0.0 <= random < 1.0 && 0 < n
    ensures k < n
  {
    assert 0.0 <= random * n as real < n as real;
    (random * n as real).Floor
  }

  /** Every index can be drawn. */
  lemma PickIndexCovers(n: nat, k: nat)
    requires k < n
    ensures PickIndex(k as real / n as real, n) == k
  {
    assert (k as real / n as real) * n as real == k as real;
  }

  /** The reply of a branch that does not ask the model, given the random
      number drawn and the local time and date strings of the moment. */
  function CannedReply(intent: Intent, random: real, time: string, date: string): (r: string)
    requires intent != AskModel && 0.0 <= random < 1.0
    ensures intent == Greeting ==> r in Greetings
    ensures intent == HowAreYou ==> r == HowAreYouReply
    ensures intent == TellJoke ==> r in Jokes
    ensures intent == TimeQuery ==> Between(TimeHead, TimeTail, r) == Some(time)
    ensures intent == DateQuery ==> Between(DateHead, DateTail, r) == Some(date)
  {
    match intent
    case Greeting => Greetings[PickIndex(random, |Greetings|)]
    case HowAreYou => HowAreYouReply
    case TellJoke => Jokes[PickIndex(random, |Jokes|)]
    case TimeQuery => BetweenFill(TimeHead, TimeTail, time); TimeHead + time + TimeTail
    case DateQuery => BetweenFill(DateHead, DateTail, date); DateHead + date + DateTail
  }

  /** Every greeting and every joke can be the reply. */
  lemma CannedReplyCovers(k: nat)
    ensures k < |Greetings| ==> CannedReply(Greeting, k as real / |Greetings| as real, "", "") == Greetings[k]
    ensures k < |Jokes| ==> CannedReply(TellJoke, k as real / |Jokes| as real, "", "") == Jokes[k]
  {
    if k < |Greetings| {
      PickIndexCovers(|Greetings|, k);
    }
    if k < |Jokes| {
      PickIndexCovers(|Jokes|, k);
    }
  }

  // ----- the order of the checks -----

  /** A text that greets Shreya by name gets the greeting even when it also
      asks how she is. */
  lemma GreetingBeforeHowAreYou(s: string)
    requires exists i: nat, j: nat, q: nat :: GreetingAt(s, i, j, q)
    requires exists i: nat, j: nat, k: nat :: IsBoundaryAt(s, i) && Words3At(s, "how", "are", "you", i, j, k)
    ensures Test(HowAreYouPattern, s) && Classify(s) == Greeting
  {
    GreetingRule(s);
    HowAreYouRule(s);
  }

  lemma GreetingBeforeHowAreYouExample()
    ensures Test(HowAreYouPattern, "hi shreya how are you")
    ensures Classify("hi shreya how are you") == Greeting
  {
    GreetingWitness();
    HowAreYouWitness();
    GreetingBeforeHowAreYou("hi shreya how are you");
  }

  lemma GreetingWitness()
    ensures GreetingAt("hi shreya how are you", 0, 2, 3)
  {
    var s := "hi shreya how are you";
    assert IsBoundary(s, 0) && IsGreetingWord(s[0..2]);
    assert IsSpace(s[2]);
    assert s[3..9] == "shreya" && IsBoundary(s, 9);
  }

  lemma HowAreYouWitness()
    ensures IsBoundaryAt("hi shreya how are you", 10)
    ensures Words3At("hi shreya how are you", "how", "are", "you", 10, 14, 18)
  {
  }

  /** The time pattern is tried before the date pattern: a question that
      names today's date and says "now" gets the time. */
  lemma TimeBeforeDate(s: string)
    requires 'r' !in s && 'j' !in s
    requires QueryAt(s, "what", "is", "time", "time", "now", 0, 5, 7, 21, 24)
    requires PossessiveAt(s, "today", "s", "date", 8, 16)
    ensures Test(DatePattern, s) && Classify(s) == TimeQuery
  {
    GreetingNeeds(s, 'r');
    HowAreYouNeeds(s, 'r');
    JokeNeeds(s, 'j');
    TimeRule(s);
    DateRule(s);
  }

  lemma TimeBeforeDateExample()
    ensures Test(DatePattern, "what is today's date now")
    ensures Classify("what is today's date now") == TimeQuery
  {
    TimeWitness();
    DateWitness();
    assert 'r' !in "what is today's date now" && 'j' !in "what is today's date now" by {
      TimeQuestionLetters();
    }
    TimeBeforeDate("what is today's date now");
  }

  lemma TimeWitness()
    ensures QueryAt("what is today's date now", "what", "is", "time", "time", "now", 0, 5, 7, 21, 24)
  {
    TimeHeadWitness();
    TimeTailWitness();
  }

  lemma TimeHeadWitness()
    ensures IsBoundaryAt("what is today's date now", 0) && LitAt("what is today's date now", 0, "what")
    ensures SpacesBetween("what is today's date now", 4, 5) && EitherAt("what is today's date now", "is", "time", 5, 7)
  {
    assert LitAt("what is today's date now", 5, "is");
  }

  lemma TimeTailWitness()
    ensures QueryTailAt("what is today's date now", "time", "now", 7, 21, 24)
  {
    assert LitAt("what is today's date now", 21, "now");
  }

  lemma DateWitness()
    ensures PossessiveAt("what is today's date now", "today", "s", "date", 8, 16)
  {
  }

  lemma TimeQuestionLetters()
    ensures 'r' !in "what is today's date now" && 'j' !in "what is today's date now"
  {
  }

  /** A text without the letters y, k, w and d matches no pattern. */
  lemma UnknownQuestion(s: string)
    requires 'y' !in s && 'k' !in s && 'w' !in s && 'd' !in s
    ensures Classify(s) == AskModel
  {
    GreetingNeeds(s, 'y');
    HowAreYouNeeds(s, 'y');
    JokeNeeds(s, 'k');
    TimeNeeds(s, 'w');
    DateNeeds(s, 'd');
  }

  lemma UnknownQuestionExample()
    ensures Classify("list her projects") == AskModel
  {
    UnknownQuestionLetters();
    UnknownQuestion("list her projects");
  }

  lemma UnknownQuestionLetters()
    ensures 'y' !in "list her projects" && 'k' !in "list her projects"
    ensures 'w' !in "list her projects" && 'd' !in "list her projects"
  {
  }
}
