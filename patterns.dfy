/** The five intent patterns of the chat widget as regular-expression terms,
    with the meaning `RegExp.prototype.test` gives them in JavaScript (no
    flags): a pattern matches when a match starts at some position. Matching
    is described by the set of positions where a match that starts at `i` can
    end, which is exact for `test` whatever order the engine backtracks in. */
module Patterns {
  import opened JsText

  /** The character classes the patterns use. */
  datatype CharClass =
    | Space          // \s
    | SpaceOrComma   // [\s,]
    | AnyButNewline  // .
    | Apostrophe     // ['’]

  predicate InClass(cls: CharClass, c: char) {
    match cls
    case Space => IsSpace(c)
    case SpaceOrComma => IsSpace(c) || c == ','
    case AnyButNewline => !IsLineTerminator(c)
    case Apostrophe => c == '\'' || c == '\U{2019}'
  }

  datatype Regex =
    | WordBoundary             // \b
    | Lit(text: string)        // the characters of `text`, in order
    | OneOf(cls: CharClass)    // one character of the class
    | Star(cls: CharClass)     // zero or more characters of the class
    | Plus(cls: CharClass)     // one or more characters of the class
    | Cat(first: Regex, rest: Regex)
    | Alt(left: Regex, right: Regex)

  /** `\b` at position `p`: exactly one of the characters around `p` is a
      word character (outside the string counts as a non-word character). */
  predicate IsBoundary(s: string, p: nat)
    requires p <= |s|
  {
    (p > 0 && IsWordChar(s[p - 1])) != (p < |s| && IsWordChar(s[p]))
  }

  /** The end of the longest run of `cls` characters that starts at `i`. */
  function RunEnd(cls: CharClass, s: string, i: nat): (r: nat)
    requires i <= |s|
    ensures i <= r <= |s|
    ensures forall k :: i <= k < r ==> InClass(cls, s[k])
    ensures r < |s| ==> !InClass(cls, s[r])
    decreases |s| - i
  {
    if i < |s| && InClass(cls, s[i]) then RunEnd(cls, s, i + 1) else i
  }

  /** The positions from `lo` to `hi`, both included. */
  function Interval(lo: nat, hi: nat): (r: set<nat>)
    ensures forall j :: j in r <==> lo <= j <= hi
    decreases hi + 1 - lo
  {
    if lo > hi then {} else {lo} + Interval(lo + 1, hi)
  }

  /** The positions `j` such that `re` matches `s[i..j]`. */
  function Ends(re: Regex, s: string, i: nat): (r: set<nat>)
    requires i <= |s|
    ensures forall j :: j in r ==> i <= j <= |s|
    decreases re
  {
    match re
    case WordBoundary => if IsBoundary(s, i) then {i} else {}
    case Lit(t) => if i + |t| <= |s| && s[i..i + |t|] == t then {i + |t|} else {}
    case OneOf(cls) => if i < |s| && InClass(cls, s[i]) then {i + 1} else {}
    case Star(cls) => Interval(i, RunEnd(cls, s, i))
    case Plus(cls) => Interval(i + 1, RunEnd(cls, s, i))
    case Cat(a, b) => set j, k | j in Ends(a, s, i) && k in Ends(b, s, j) :: k
    case Alt(a, b) => Ends(a, s, i) + Ends(b, s, i)
  }

  /** `re.test(s)`: some position starts a match. A text that passes holds
      every character the pattern requires. */
  predicate Test(re: Regex, s: string)
    ensures Test(re, s) ==> forall c :: c in MustContain(re) ==> c in s
  {
    RequiredCharsPresent(re, s);
    exists i :: 0 <= i <= |s| && Ends(re, s, i) != {}
  }

  /** `/\b(hi|hello|hey)[\s,]*shreya\b/` */
  const GreetingPattern: Regex :=
    Cat(WordBoundary, Cat(Alt(Lit("hi"), Alt(Lit("hello"), Lit("hey"))),
    Cat(Star(SpaceOrComma), Cat(Lit("shreya"), WordBoundary))))

  /** `/\bhow\s+are\s+you\b/` */
  const HowAreYouPattern: Regex :=
    Cat(WordBoundary, Cat(Lit("how"), Cat(Plus(Space), Cat(Lit("are"),
    Cat(Plus(Space), Cat(Lit("you"), WordBoundary))))))

  /** `/\btell me a joke\b/` */
  const JokePattern: Regex :=
    Cat(WordBoundary, Cat(Lit("tell me a joke"), WordBoundary))

  /** `/\bwhat\s+(is|time)\b.*\b(time|now)\b/` */
  const TimePattern: Regex :=
    Cat(WordBoundary, Cat(Lit("what"), Cat(Plus(Space), Cat(Alt(Lit("is"), Lit("time")),
    Cat(WordBoundary, Cat(Star(AnyButNewline), Cat(WordBoundary,
    Cat(Alt(Lit("time"), Lit("now")), WordBoundary))))))))

  /** `/\bwhat\s+date\s+is\s+it\b|\btoday['’]s\s+date\b/` */
  const DatePattern: Regex :=
    Alt(Cat(WordBoundary, Cat(Lit("what"), Cat(Plus(Space), Cat(Lit("date"),
        Cat(Plus(Space), Cat(Lit("is"), Cat(Plus(Space), Cat(Lit("it"), WordBoundary)))))))),
        Cat(WordBoundary, Cat(Lit("today"), Cat(OneOf(Apostrophe), Cat(Lit("s"),
        Cat(Plus(Space), Cat(Lit("date"), WordBoundary)))))))

  /** Every character of `s[i..j]` is in `cls`. */
  predicate AllIn(cls: CharClass, s: string, i: nat, j: nat)
    requires i <= j <= |s|
  {
    forall k :: i <= k < j ==> InClass(cls, s[k])
  }

  lemma {:induction false} RunEndMaximal(cls: CharClass, s: string, i: nat, j: nat)
    requires i <= j <= |s| && AllIn(cls, s, i, j)
    ensures j <= RunEnd(cls, s, i)
    decreases j - i
  {
    if i < j {
      RunEndMaximal(cls, s, i + 1, j);
    }
  }

  /** `cls*` matches exactly the runs of `cls` characters. */
  lemma StarEnds(cls: CharClass, s: string, i: nat, j: nat)
    requires i <= j <= |s|
    ensures j in Ends(Star(cls), s, i) <==> AllIn(cls, s, i, j)
  {
    if AllIn(cls, s, i, j) {
      RunEndMaximal(cls, s, i, j);
    }
  }

  /** `cls+` matches exactly the non-empty runs of `cls` characters. */
  lemma PlusEnds(cls: CharClass, s: string, i: nat, j: nat)
    requires i <= j <= |s|
    ensures j in Ends(Plus(cls), s, i) <==> i < j && AllIn(cls, s, i, j)
  {
    if AllIn(cls, s, i, j) {
      RunEndMaximal(cls, s, i, j);
    }
  }

  lemma CatIntro(a: Regex, b: Regex, s: string, i: nat, j: nat, k: nat)
    requires i <= |s| && j in Ends(a, s, i) && k in Ends(b, s, j)
    ensures k in Ends(Cat(a, b), s, i)
  {
  }

  lemma CatElim(a: Regex, b: Regex, s: string, i: nat, k: nat) returns (j: nat)
    requires i <= |s| && k in Ends(Cat(a, b), s, i)
    ensures j in Ends(a, s, i) && k in Ends(b, s, j)
  {
    j :| j in Ends(a, s, i) && k in Ends(b, s, j);
  }

  /** `\b` followed by `rest` matches up to `e` from `i` exactly when `i` is a
      boundary and `rest` matches up to `e` from `i`. */
  lemma BoundaryThen(rest: Regex, s: string, i: nat, e: nat)
    requires i <= |s|
    ensures e in Ends(Cat(WordBoundary, rest), s, i) <==> IsBoundary(s, i) && e in Ends(rest, s, i)
  {
    if e in Ends(Cat(WordBoundary, rest), s, i) {
      var j := CatElim(WordBoundary, rest, s, i, e);
    }
    if IsBoundary(s, i) && e in Ends(rest, s, i) {
      CatIntro(WordBoundary, rest, s, i, i, e);
    }
  }

  /** A literal followed by `rest`. */
  lemma LitThen(t: string, rest: Regex, s: string, i: nat, e: nat)
    requires i <= |s|
    ensures e in Ends(Cat(Lit(t), rest), s, i)
            <==> i + |t| <= |s| && s[i..i + |t|] == t && e in Ends(rest, s, i + |t|)
  {
    if e in Ends(Cat(Lit(t), rest), s, i) {
      var j := CatElim(Lit(t), rest, s, i, e);
    }
    if i + |t| <= |s| && s[i..i + |t|] == t && e in Ends(rest, s, i + |t|) {
      CatIntro(Lit(t), rest, s, i, i + |t|, e);
    }
  }

  /** `cls*` followed by `rest`: some run of `cls` characters, then `rest`. */
  lemma StarThen(cls: CharClass, rest: Regex, s: string, i: nat, e: nat) returns (q: nat)
    requires i <= |s| && e in Ends(Cat(Star(cls), rest), s, i)
    ensures i <= q <= |s| && AllIn(cls, s, i, q) && e in Ends(rest, s, q)
  {
    q := CatElim(Star(cls), rest, s, i, e);
    StarEnds(cls, s, i, q);
  }

  lemma StarThenIntro(cls: CharClass, rest: Regex, s: string, i: nat, q: nat, e: nat)
    requires i <= q <= |s| && AllIn(cls, s, i, q) && e in Ends(rest, s, q)
    ensures e in Ends(Cat(Star(cls), rest), s, i)
  {
    StarEnds(cls, s, i, q);
    CatIntro(Star(cls), rest, s, i, q, e);
  }

  /** `cls+` followed by `rest`: a non-empty run of `cls` characters, then `rest`. */
  lemma PlusThen(cls: CharClass, rest: Regex, s: string, i: nat, e: nat) returns (q: nat)
    requires i <= |s| && e in Ends(Cat(Plus(cls), rest), s, i)
    ensures i < q <= |s| && AllIn(cls, s, i, q) && e in Ends(rest, s, q)
  {
    q := CatElim(Plus(cls), rest, s, i, e);
    PlusEnds(cls, s, i, q);
  }

  lemma PlusThenIntro(cls: CharClass, rest: Regex, s: string, i: nat, q: nat, e: nat)
    requires i < q <= |s| && AllIn(cls, s, i, q) && e in Ends(rest, s, q)
    ensures e in Ends(Cat(Plus(cls), rest), s, i)
  {
    PlusEnds(cls, s, i, q);
    CatIntro(Plus(cls), rest, s, i, q, e);
  }

  /** A greeting word: one of the alternatives of `(hi|hello|hey)`. */
  predicate IsGreetingWord(w: string) {
    w == "hi" || w == "hello" || w == "hey"
  }

  /** `s` holds a greeting word on `[i, j)` that starts a word, then only
      white space and commas up to `q`, then "shreya" ending a word. */
  ghost predicate GreetingAt(s: string, i: nat, j: nat, q: nat) {
    i <= j <= q && q + 6 <= |s|
    && IsBoundary(s, i) && IsGreetingWord(s[i..j])
    && (forall k :: j <= k < q ==> IsSpace(s[k]) || s[k] == ',')
    && s[q..q + 6] == "shreya" && IsBoundary(s, q + 6)
  }

  /** The greeting rule accepts exactly: hi, hello or hey at the start of a
      word, zero or more white-space characters or commas, then "shreya" at
      the end of a word, anywhere in the text. */
  lemma GreetingRule(s: string)
    ensures Test(GreetingPattern, s) <==> exists i: nat, j: nat, q: nat :: GreetingAt(s, i, j, q)
  {
    if Test(GreetingPattern, s) {
      GreetingRuleOnly(s);
    }
    if exists i: nat, j: nat, q: nat :: GreetingAt(s, i, j, q) {
      GreetingRuleIf(s);
    }
  }

  lemma GreetingRuleOnly(s: string)
    requires Test(GreetingPattern, s)
    ensures exists i: nat, j: nat, q: nat :: GreetingAt(s, i, j, q)
  {
    var i :| 0 <= i <= |s| && Ends(GreetingPattern, s, i) != {};
    var e :| e in Ends(GreetingPattern, s, i);
    var j, q := GreetingMatchShape(s, i, e);
  }

  lemma GreetingRuleIf(s: string)
    requires exists i: nat, j: nat, q: nat :: GreetingAt(s, i, j, q)
    ensures Test(GreetingPattern, s)
  {
    var i: nat, j: nat, q: nat :| GreetingAt(s, i, j, q);
    GreetingShapeMatches(s, i, j, q);
  }

  lemma GreetingMatchShape(s: string, i: nat, e: nat) returns (j: nat, q: nat)
    requires i <= |s| && e in Ends(GreetingPattern, s, i)
    ensures GreetingAt(s, i, j, q)
  {
    j := GreetingHead(s, i, e);
    q := GreetingTail(s, j, e);
  }

  lemma GreetingHead(s: string, i: nat, e: nat) returns (j: nat)
    requires i <= |s| && e in Ends(GreetingPattern, s, i)
    ensures i <= j <= |s| && IsBoundary(s, i) && IsGreetingWord(s[i..j])
    ensures e in Ends(Cat(Star(SpaceOrComma), Cat(Lit("shreya"), WordBoundary)), s, j)
  {
    var words := Alt(Lit("hi"), Alt(Lit("hello"), Lit("hey")));
    var rest := Cat(Star(SpaceOrComma), Cat(Lit("shreya"), WordBoundary));
    BoundaryThen(Cat(words, rest), s, i, e);
    j := CatElim(words, rest, s, i, e);
    GreetingWordEnds(s, i, j);
  }

  /** `(hi|hello|hey)` matches `s[i..j]` exactly when that is a greeting word. */
  lemma GreetingWordEnds(s: string, i: nat, j: nat)
    requires i <= |s|
    ensures j in Ends(Alt(Lit("hi"), Alt(Lit("hello"), Lit("hey"))), s, i)
            <==> i <= j <= |s| && IsGreetingWord(s[i..j])
  {
  }

  lemma GreetingTail(s: string, j: nat, e: nat) returns (q: nat)
    requires j <= |s| && e in Ends(Cat(Star(SpaceOrComma), Cat(Lit("shreya"), WordBoundary)), s, j)
    ensures j <= q && q + 6 <= |s| && s[q..q + 6] == "shreya" && IsBoundary(s, q + 6)
    ensures forall k :: j <= k < q ==> IsSpace(s[k]) || s[k] == ','
  {
    q := StarThen(SpaceOrComma, Cat(Lit("shreya"), WordBoundary), s, j, e);
    LitThen("shreya", WordBoundary, s, q, e);
  }

  lemma GreetingShapeMatches(s: string, i: nat, j: nat, q: nat)
    requires GreetingAt(s, i, j, q)
    ensures q + 6 in Ends(GreetingPattern, s, i)
  {
    var words := Alt(Lit("hi"), Alt(Lit("hello"), Lit("hey")));
    var name := Cat(Lit("shreya"), WordBoundary);
    LitThen("shreya", WordBoundary, s, q, q + 6);
    StarThenIntro(SpaceOrComma, name, s, j, q, q + 6);
    GreetingWordEnds(s, i, j);
    CatIntro(words, Cat(Star(SpaceOrComma), name), s, i, j, q + 6);
    BoundaryThen(Cat(words, Cat(Star(SpaceOrComma), name)), s, i, q + 6);
  }

  // ----- building blocks shared by the other four patterns -----
  // The lemmas below are stated for any literals; each pattern constant is an
  // instance of one of these shapes.

  /** The literal `t` occurs in `s` at `i`. */
  predicate LitAt(s: string, i: nat, t: string) {
    i + |t| <= |s| && s[i..i + |t|] == t
  }

  /** `IsBoundary`, false past the end of the string. */
  predicate IsBoundaryAt(s: string, p: nat) {
    p <= |s| && IsBoundary(s, p)
  }

  /** `s[i..j]` is a non-empty run of white space, what `\s+` matches. */
  predicate SpacesBetween(s: string, i: nat, j: nat) {
    i < j <= |s| && forall x :: i <= x < j ==> IsSpace(s[x])
  }

  /** `s[i..j]` holds no line terminator, what `.*` matches. */
  predicate NoLineBreakBetween(s: string, i: nat, j: nat) {
    i <= j <= |s| && forall x :: i <= x < j ==> !IsLineTerminator(s[x])
  }

  /** One of the literals `a` and `b` occurs at `i` and ends at `j`. */
  predicate EitherAt(s: string, a: string, b: string, i: nat, j: nat) {
    (LitAt(s, i, a) && j == i + |a|) || (LitAt(s, i, b) && j == i + |b|)
  }

  lemma PlusSpaceThen(rest: Regex, s: string, i: nat, e: nat) returns (j: nat)
    requires i <= |s| && e in Ends(Cat(Plus(Space), rest), s, i)
    ensures SpacesBetween(s, i, j) && e in Ends(rest, s, j)
  {
    j := PlusThen(Space, rest, s, i, e);
  }

  lemma PlusSpaceThenIntro(rest: Regex, s: string, i: nat, j: nat, e: nat)
    requires SpacesBetween(s, i, j) && e in Ends(rest, s, j)
    ensures e in Ends(Cat(Plus(Space), rest), s, i)
  {
    PlusThenIntro(Space, rest, s, i, j, e);
  }

  /** One character of a class followed by `rest`. */
  lemma OneOfThen(cls: CharClass, rest: Regex, s: string, i: nat, e: nat)
    requires i <= |s|
    ensures e in Ends(Cat(OneOf(cls), rest), s, i)
            <==> i < |s| && InClass(cls, s[i]) && e in Ends(rest, s, i + 1)
  {
    if e in Ends(Cat(OneOf(cls), rest), s, i) {
      var j := CatElim(OneOf(cls), rest, s, i, e);
    }
    if i < |s| && InClass(cls, s[i]) && e in Ends(rest, s, i + 1) {
      CatIntro(OneOf(cls), rest, s, i, i + 1, e);
    }
  }

  /** `(a|b)` matches exactly the occurrences of `a` and of `b`. */
  lemma EitherEnds(a: string, b: string, s: string, i: nat, j: nat)
    requires i <= |s|
    ensures j in Ends(Alt(Lit(a), Lit(b)), s, i) <==> EitherAt(s, a, b, i, j)
  {
  }

  /** `re.test` of an alternation is the disjunction of the branches. */
  lemma TestAlt(a: Regex, b: Regex, s: string)
    ensures Test(Alt(a, b), s) <==> Test(a, s) || Test(b, s)
  {
    if Test(Alt(a, b), s) {
      var i :| 0 <= i <= |s| && Ends(Alt(a, b), s, i) != {};
      assert Ends(a, s, i) != {} || Ends(b, s, i) != {};
    }
    if Test(a, s) {
      var i :| 0 <= i <= |s| && Ends(a, s, i) != {};
      assert Ends(Alt(a, b), s, i) != {};
    }
    if Test(b, s) {
      var i :| 0 <= i <= |s| && Ends(b, s, i) != {};
      assert Ends(Alt(a, b), s, i) != {};
    }
  }

  /** `b\s+c\b` */
  function Words2(b: string, c: string): Regex {
    Cat(Lit(b), Cat(Plus(Space), Cat(Lit(c), WordBoundary)))
  }

  /** `a\s+b\s+c\b` */
  function Words3(a: string, b: string, c: string): Regex {
    Cat(Lit(a), Cat(Plus(Space), Words2(b, c)))
  }

  /** `w\s+a\s+b\s+c\b` */
  function Words4(w: string, a: string, b: string, c: string): Regex {
    Cat(Lit(w), Cat(Plus(Space), Words3(a, b, c)))
  }

  /** The words `b` and `c` at `j` and `k`, white space between them, and
      `c` ends a word. */
  predicate Words2At(s: string, b: string, c: string, j: nat, k: nat) {
    LitAt(s, j, b) && SpacesBetween(s, j + |b|, k) && LitAt(s, k, c) && IsBoundaryAt(s, k + |c|)
  }

  predicate Words3At(s: string, a: string, b: string, c: string, i: nat, j: nat, k: nat) {
    LitAt(s, i, a) && SpacesBetween(s, i + |a|, j) && Words2At(s, b, c, j, k)
  }

  predicate Words4At(s: string, w: string, a: string, b: string, c: string, i: nat, j: nat, k: nat, l: nat) {
    LitAt(s, i, w) && SpacesBetween(s, i + |w|, j) && Words3At(s, a, b, c, j, k, l)
  }

  lemma Words2Ends(b: string, c: string, s: string, j: nat, e: nat) returns (k: nat)
    requires j <= |s| && e in Ends(Words2(b, c), s, j)
    ensures Words2At(s, b, c, j, k) && e == k + |c|
  {
    LitThen(b, Cat(Plus(Space), Cat(Lit(c), WordBoundary)), s, j, e);
    k := PlusSpaceThen(Cat(Lit(c), WordBoundary), s, j + |b|, e);
    LitThen(c, WordBoundary, s, k, e);
  }

  lemma Words2Intro(b: string, c: string, s: string, j: nat, k: nat)
    requires Words2At(s, b, c, j, k)
    ensures k + |c| in Ends(Words2(b, c), s, j)
  {
    var e := k + |c|;
    LitThen(c, WordBoundary, s, k, e);
    PlusSpaceThenIntro(Cat(Lit(c), WordBoundary), s, j + |b|, k, e);
    LitThen(b, Cat(Plus(Space), Cat(Lit(c), WordBoundary)), s, j, e);
  }

  lemma Words3Ends(a: string, b: string, c: string, s: string, i: nat, e: nat) returns (j: nat, k: nat)
    requires i <= |s| && e in Ends(Words3(a, b, c), s, i)
    ensures Words3At(s, a, b, c, i, j, k) && e == k + |c|
  {
    LitThen(a, Cat(Plus(Space), Words2(b, c)), s, i, e);
    j := PlusSpaceThen(Words2(b, c), s, i + |a|, e);
    k := Words2Ends(b, c, s, j, e);
  }

  lemma Words3Intro(a: string, b: string, c: string, s: string, i: nat, j: nat, k: nat)
    requires Words3At(s, a, b, c, i, j, k)
    ensures k + |c| in Ends(Words3(a, b, c), s, i)
  {
    Words2Intro(b, c, s, j, k);
    PlusSpaceThenIntro(Words2(b, c), s, i + |a|, j, k + |c|);
    LitThen(a, Cat(Plus(Space), Words2(b, c)), s, i, k + |c|);
  }

  lemma Words4Ends(w: string, a: string, b: string, c: string, s: string, i: nat, e: nat)
    returns (j: nat, k: nat, l: nat)
    requires i <= |s| && e in Ends(Words4(w, a, b, c), s, i)
    ensures Words4At(s, w, a, b, c, i, j, k, l) && e == l + |c|
  {
    LitThen(w, Cat(Plus(Space), Words3(a, b, c)), s, i, e);
    j := PlusSpaceThen(Words3(a, b, c), s, i + |w|, e);
    k, l := Words3Ends(a, b, c, s, j, e);
  }

  lemma Words4Intro(w: string, a: string, b: string, c: string, s: string, i: nat, j: nat, k: nat, l: nat)
    requires Words4At(s, w, a, b, c, i, j, k, l)
    ensures l + |c| in Ends(Words4(w, a, b, c), s, i)
  {
    Words3Intro(a, b, c, s, j, k, l);
    PlusSpaceThenIntro(Words3(a, b, c), s, i + |w|, j, l + |c|);
    LitThen(w, Cat(Plus(Space), Words3(a, b, c)), s, i, l + |c|);
  }

  /** `\ba\s+b\s+c\b` matches somewhere exactly when the three words occur
      in order, separated by white space, as whole words. */
  lemma Words3Rule(a: string, b: string, c: string, s: string)
    ensures Test(Cat(WordBoundary, Words3(a, b, c)), s)
            <==> exists i: nat, j: nat, k: nat :: IsBoundaryAt(s, i) && Words3At(s, a, b, c, i, j, k)
  {
    if Test(Cat(WordBoundary, Words3(a, b, c)), s) {
      Words3RuleOnly(a, b, c, s);
    }
    if exists i: nat, j: nat, k: nat :: IsBoundaryAt(s, i) && Words3At(s, a, b, c, i, j, k) {
      var i: nat, j: nat, k: nat :| IsBoundaryAt(s, i) && Words3At(s, a, b, c, i, j, k);
      Words3RuleIf(a, b, c, s, i, j, k);
    }
  }

  lemma Words3RuleOnly(a: string, b: string, c: string, s: string)
    requires Test(Cat(WordBoundary, Words3(a, b, c)), s)
    ensures exists i: nat, j: nat, k: nat :: IsBoundaryAt(s, i) && Words3At(s, a, b, c, i, j, k)
  {
    var re := Words3(a, b, c);
    var i :| 0 <= i <= |s| && Ends(Cat(WordBoundary, re), s, i) != {};
    var e :| e in Ends(Cat(WordBoundary, re), s, i);
    BoundaryThen(re, s, i, e);
    var j, k := Words3Ends(a, b, c, s, i, e);
    assert IsBoundaryAt(s, i) && Words3At(s, a, b, c, i, j, k);
  }

  lemma Words3RuleIf(a: string, b: string, c: string, s: string, i: nat, j: nat, k: nat)
    requires IsBoundaryAt(s, i) && Words3At(s, a, b, c, i, j, k)
    ensures Test(Cat(WordBoundary, Words3(a, b, c)), s)
  {
    Words3Intro(a, b, c, s, i, j, k);
    BoundaryThen(Words3(a, b, c), s, i, k + |c|);
  }

  lemma Words4Rule(w: string, a: string, b: string, c: string, s: string)
    ensures Test(Cat(WordBoundary, Words4(w, a, b, c)), s)
            <==> exists i: nat, j: nat, k: nat, l: nat :: IsBoundaryAt(s, i) && Words4At(s, w, a, b, c, i, j, k, l)
  {
    if Test(Cat(WordBoundary, Words4(w, a, b, c)), s) {
      Words4RuleOnly(w, a, b, c, s);
    }
    if exists i: nat, j: nat, k: nat, l: nat :: IsBoundaryAt(s, i) && Words4At(s, w, a, b, c, i, j, k, l) {
      var i: nat, j: nat, k: nat, l: nat :| IsBoundaryAt(s, i) && Words4At(s, w, a, b, c, i, j, k, l);
      Words4RuleIf(w, a, b, c, s, i, j, k, l);
    }
  }

  lemma Words4RuleOnly(w: string, a: string, b: string, c: string, s: string)
    requires Test(Cat(WordBoundary, Words4(w, a, b, c)), s)
    ensures exists i: nat, j: nat, k: nat, l: nat :: IsBoundaryAt(s, i) && Words4At(s, w, a, b, c, i, j, k, l)
  {
    var re := Words4(w, a, b, c);
    var i :| 0 <= i <= |s| && Ends(Cat(WordBoundary, re), s, i) != {};
    var e :| e in Ends(Cat(WordBoundary, re), s, i);
    BoundaryThen(re, s, i, e);
    var j, k, l := Words4Ends(w, a, b, c, s, i, e);
    assert IsBoundaryAt(s, i) && Words4At(s, w, a, b, c, i, j, k, l);
  }

  lemma Words4RuleIf(w: string, a: string, b: string, c: string, s: string, i: nat, j: nat, k: nat, l: nat)
    requires IsBoundaryAt(s, i) && Words4At(s, w, a, b, c, i, j, k, l)
    ensures Test(Cat(WordBoundary, Words4(w, a, b, c)), s)
  {
    Words4Intro(w, a, b, c, s, i, j, k, l);
    BoundaryThen(Words4(w, a, b, c), s, i, l + |c|);
  }

  // ----- how are you -----

  /** The "how are you" rule accepts exactly the three words separated by
      white space, as whole words, anywhere in the text. */
  lemma HowAreYouRule(s: string)
    ensures Test(HowAreYouPattern, s)
            <==> exists i: nat, j: nat, k: nat :: IsBoundaryAt(s, i) && Words3At(s, "how", "are", "you", i, j, k)
  {
    assert HowAreYouPattern == Cat(WordBoundary, Words3("how", "are", "you"));
    Words3Rule("how", "are", "you", s);
  }

  // ----- tell me a joke -----

  /** The joke rule accepts exactly the phrase "tell me a joke", single
      spaces included, as whole words, anywhere in the text. */
  lemma JokeRule(s: string)
    ensures Test(JokePattern, s)
            <==> exists i: nat :: IsBoundaryAt(s, i) && LitAt(s, i, "tell me a joke") && IsBoundaryAt(s, i + 14)
  {
    PhraseRule("tell me a joke", s);
  }

  lemma PhraseRule(t: string, s: string)
    ensures Test(Cat(WordBoundary, Cat(Lit(t), WordBoundary)), s)
            <==> exists i: nat :: IsBoundaryAt(s, i) && LitAt(s, i, t) && IsBoundaryAt(s, i + |t|)
  {
    if Test(Cat(WordBoundary, Cat(Lit(t), WordBoundary)), s) {
      PhraseRuleOnly(t, s);
    }
    if exists i: nat :: IsBoundaryAt(s, i) && LitAt(s, i, t) && IsBoundaryAt(s, i + |t|) {
      var i: nat :| IsBoundaryAt(s, i) && LitAt(s, i, t) && IsBoundaryAt(s, i + |t|);
      PhraseRuleIf(t, s, i);
    }
  }

  lemma PhraseRuleOnly(t: string, s: string)
    requires Test(Cat(WordBoundary, Cat(Lit(t), WordBoundary)), s)
    ensures exists i: nat :: IsBoundaryAt(s, i) && LitAt(s, i, t) && IsBoundaryAt(s, i + |t|)
  {
    var re := Cat(Lit(t), WordBoundary);
    var i :| 0 <= i <= |s| && Ends(Cat(WordBoundary, re), s, i) != {};
    var e :| e in Ends(Cat(WordBoundary, re), s, i);
    BoundaryThen(re, s, i, e);
    LitThen(t, WordBoundary, s, i, e);
    assert IsBoundaryAt(s, i) && LitAt(s, i, t) && IsBoundaryAt(s, i + |t|);
  }

  lemma PhraseRuleIf(t: string, s: string, i: nat)
    requires IsBoundaryAt(s, i) && LitAt(s, i, t) && IsBoundaryAt(s, i + |t|)
    ensures Test(Cat(WordBoundary, Cat(Lit(t), WordBoundary)), s)
  {
    LitThen(t, WordBoundary, s, i, i + |t|);
    BoundaryThen(Cat(Lit(t), WordBoundary), s, i, i + |t|);
  }


  // ----- date -----

  /** `\ba['’]b\s+c\b` */
  function Possessive(a: string, b: string, c: string): Regex {
    Cat(WordBoundary, Cat(Lit(a), Cat(OneOf(Apostrophe), Words2(b, c))))
  }

  /** The word `a` at `i`, an apostrophe (straight or typographic), then the
      words `b` and `c` separated by white space, as whole words. */
  predicate PossessiveAt(s: string, a: string, b: string, c: string, i: nat, k: nat) {
    IsBoundaryAt(s, i) && LitAt(s, i, a) && i + |a| < |s| && InClass(Apostrophe, s[i + |a|])
    && Words2At(s, b, c, i + |a| + 1, k)
  }

  lemma PossessiveRule(a: string, b: string, c: string, s: string)
    ensures Test(Possessive(a, b, c), s) <==> exists i: nat, k: nat :: PossessiveAt(s, a, b, c, i, k)
  {
    if Test(Possessive(a, b, c), s) {
      PossessiveRuleOnly(a, b, c, s);
    }
    if exists i: nat, k: nat :: PossessiveAt(s, a, b, c, i, k) {
      var i: nat, k: nat :| PossessiveAt(s, a, b, c, i, k);
      PossessiveRuleIf(a, b, c, s, i, k);
    }
  }

  lemma PossessiveRuleOnly(a: string, b: string, c: string, s: string)
    requires Test(Possessive(a, b, c), s)
    ensures exists i: nat, k: nat :: PossessiveAt(s, a, b, c, i, k)
  {
    var i :| 0 <= i <= |s| && Ends(Possessive(a, b, c), s, i) != {};
    var e :| e in Ends(Possessive(a, b, c), s, i);
    var k := PossessiveEnds(a, b, c, s, i, e);
  }

  lemma PossessiveEnds(a: string, b: string, c: string, s: string, i: nat, e: nat) returns (k: nat)
    requires i <= |s| && e in Ends(Possessive(a, b, c), s, i)
    ensures PossessiveAt(s, a, b, c, i, k)
  {
    BoundaryThen(Cat(Lit(a), Cat(OneOf(Apostrophe), Words2(b, c))), s, i, e);
    LitThen(a, Cat(OneOf(Apostrophe), Words2(b, c)), s, i, e);
    OneOfThen(Apostrophe, Words2(b, c), s, i + |a|, e);
    k := Words2Ends(b, c, s, i + |a| + 1, e);
  }

  lemma PossessiveRuleIf(a: string, b: string, c: string, s: string, i: nat, k: nat)
    requires PossessiveAt(s, a, b, c, i, k)
    ensures Test(Possessive(a, b, c), s)
  {
    var e := k + |c|;
    Words2Intro(b, c, s, i + |a| + 1, k);
    OneOfThen(Apostrophe, Words2(b, c), s, i + |a|, e);
    LitThen(a, Cat(OneOf(Apostrophe), Words2(b, c)), s, i, e);
    BoundaryThen(Cat(Lit(a), Cat(OneOf(Apostrophe), Words2(b, c))), s, i, e);
  }

  /** The date rule accepts exactly "what date is it" (words separated by
      white space) or "today's date" (either apostrophe, white space before
      "date"), as whole words, anywhere in the text. */
  lemma DateRule(s: string)
    ensures Test(DatePattern, s)
            <==> (exists i: nat, j: nat, k: nat, l: nat ::
                    IsBoundaryAt(s, i) && Words4At(s, "what", "date", "is", "it", i, j, k, l))
                 || (exists i: nat, k: nat :: PossessiveAt(s, "today", "s", "date", i, k))
  {
    var whatDate := Cat(WordBoundary, Words4("what", "date", "is", "it"));
    var todays := Possessive("today", "s", "date");
    assert DatePattern == Alt(whatDate, todays);
    TestAlt(whatDate, todays, s);
    Words4Rule("what", "date", "is", "it", s);
    PossessiveRule("today", "s", "date", s);
  }

  // ----- time -----

  /** `\b(c1|c2)\b` after `\b.*`: the tail of the time pattern. */
  function QueryTail(c1: string, c2: string): Regex {
    Cat(WordBoundary, Cat(Star(AnyButNewline), Cat(WordBoundary, Cat(Alt(Lit(c1), Lit(c2)), WordBoundary))))
  }

  /** `\bw\s+(a1|a2)\b.*\b(c1|c2)\b` */
  function Query(w: string, a1: string, a2: string, c1: string, c2: string): Regex {
    Cat(WordBoundary, Cat(Lit(w), Cat(Plus(Space), Cat(Alt(Lit(a1), Lit(a2)), QueryTail(c1, c2)))))
  }

  /** From a word end at `m`, anything but a line break up to the word start
      `k`, then `c1` or `c2` as a whole word ending at `n`. */
  predicate QueryTailAt(s: string, c1: string, c2: string, m: nat, k: nat, n: nat) {
    IsBoundaryAt(s, m) && NoLineBreakBetween(s, m, k) && IsBoundaryAt(s, k)
    && EitherAt(s, c1, c2, k, n) && IsBoundaryAt(s, n)
  }

  /** The word `w` at `i`, white space up to `j`, `a1` or `a2` from `j` to
      `m`, then the tail. */
  predicate QueryAt(s: string, w: string, a1: string, a2: string, c1: string, c2: string,
                    i: nat, j: nat, m: nat, k: nat, n: nat) {
    IsBoundaryAt(s, i) && LitAt(s, i, w) && SpacesBetween(s, i + |w|, j)
    && EitherAt(s, a1, a2, j, m) && QueryTailAt(s, c1, c2, m, k, n)
  }

  lemma QueryTailEnds(c1: string, c2: string, s: string, m: nat, e: nat) returns (k: nat)
    requires m <= |s| && e in Ends(QueryTail(c1, c2), s, m)
    ensures QueryTailAt(s, c1, c2, m, k, e)
  {
    var word := Alt(Lit(c1), Lit(c2));
    var last := Cat(WordBoundary, Cat(word, WordBoundary));
    BoundaryThen(Cat(Star(AnyButNewline), last), s, m, e);
    k := StarThen(AnyButNewline, last, s, m, e);
    BoundaryThen(Cat(word, WordBoundary), s, k, e);
    var n := CatElim(word, WordBoundary, s, k, e);
    EitherEnds(c1, c2, s, k, n);
  }

  lemma QueryTailIntro(c1: string, c2: string, s: string, m: nat, k: nat, n: nat)
    requires QueryTailAt(s, c1, c2, m, k, n)
    ensures n in Ends(QueryTail(c1, c2), s, m)
  {
    var word := Alt(Lit(c1), Lit(c2));
    var last := Cat(WordBoundary, Cat(word, WordBoundary));
    EitherEnds(c1, c2, s, k, n);
    CatIntro(word, WordBoundary, s, k, n, n);
    BoundaryThen(Cat(word, WordBoundary), s, k, n);
    StarThenIntro(AnyButNewline, last, s, m, k, n);
    BoundaryThen(Cat(Star(AnyButNewline), last), s, m, n);
  }

  lemma QueryEnds(w: string, a1: string, a2: string, c1: string, c2: string, s: string, i: nat, e: nat)
    returns (j: nat, m: nat, k: nat)
    requires i <= |s| && e in Ends(Query(w, a1, a2, c1, c2), s, i)
    ensures QueryAt(s, w, a1, a2, c1, c2, i, j, m, k, e)
  {
    var word := Alt(Lit(a1), Lit(a2));
    var tail := QueryTail(c1, c2);
    BoundaryThen(Cat(Lit(w), Cat(Plus(Space), Cat(word, tail))), s, i, e);
    LitThen(w, Cat(Plus(Space), Cat(word, tail)), s, i, e);
    j := PlusSpaceThen(Cat(word, tail), s, i + |w|, e);
    m := CatElim(word, tail, s, j, e);
    EitherEnds(a1, a2, s, j, m);
    k := QueryTailEnds(c1, c2, s, m, e);
  }

  lemma QueryIntro(w: string, a1: string, a2: string, c1: string, c2: string, s: string,
                   i: nat, j: nat, m: nat, k: nat, n: nat)
    requires QueryAt(s, w, a1, a2, c1, c2, i, j, m, k, n)
    ensures n in Ends(Query(w, a1, a2, c1, c2), s, i)
  {
    var word := Alt(Lit(a1), Lit(a2));
    var tail := QueryTail(c1, c2);
    QueryTailIntro(c1, c2, s, m, k, n);
    EitherEnds(a1, a2, s, j, m);
    CatIntro(word, tail, s, j, m, n);
    PlusSpaceThenIntro(Cat(word, tail), s, i + |w|, j, n);
    LitThen(w, Cat(Plus(Space), Cat(word, tail)), s, i, n);
    BoundaryThen(Cat(Lit(w), Cat(Plus(Space), Cat(word, tail))), s, i, n);
  }

  lemma QueryRuleOnly(w: string, a1: string, a2: string, c1: string, c2: string, s: string)
    requires Test(Query(w, a1, a2, c1, c2), s)
    ensures exists i: nat, j: nat, m: nat, k: nat, n: nat :: QueryAt(s, w, a1, a2, c1, c2, i, j, m, k, n)
  {
    var i :| 0 <= i <= |s| && Ends(Query(w, a1, a2, c1, c2), s, i) != {};
    var e :| e in Ends(Query(w, a1, a2, c1, c2), s, i);
    var j, m, k := QueryEnds(w, a1, a2, c1, c2, s, i, e);
  }

  lemma QueryRuleIf(w: string, a1: string, a2: string, c1: string, c2: string, s: string,
                    i: nat, j: nat, m: nat, k: nat, n: nat)
    requires QueryAt(s, w, a1, a2, c1, c2, i, j, m, k, n)
    ensures Test(Query(w, a1, a2, c1, c2), s)
  {
    QueryIntro(w, a1, a2, c1, c2, s, i, j, m, k, n);
  }

  /** The time rule accepts exactly "what" followed by white space and the
      whole word "is" or "time", then, later on the same line, the whole
      word "time" or "now". */
  lemma TimeRule(s: string)
    ensures Test(TimePattern, s)
            <==> exists i: nat, j: nat, m: nat, k: nat, n: nat ::
                   QueryAt(s, "what", "is", "time", "time", "now", i, j, m, k, n)
  {
    assert TimePattern == Query("what", "is", "time", "time", "now");
    if Test(TimePattern, s) {
      QueryRuleOnly("what", "is", "time", "time", "now", s);
    }
    if exists i: nat, j: nat, m: nat, k: nat, n: nat :: QueryAt(s, "what", "is", "time", "time", "now", i, j, m, k, n) {
      var i: nat, j: nat, m: nat, k: nat, n: nat :| QueryAt(s, "what", "is", "time", "time", "now", i, j, m, k, n);
      QueryRuleIf("what", "is", "time", "time", "now", s, i, j, m, k, n);
    }
  }

  // ----- characters a match cannot do without -----

  /** Characters every text matched by `re` contains. */
  function MustContain(re: Regex): set<char> {
    match re
    case Lit(t) => set c | c in t
    case Cat(a, b) => MustContain(a) + MustContain(b)
    case Alt(a, b) => MustContain(a) * MustContain(b)
    case _ => {}
  }

  lemma SliceWithin(s: string, i: nat, j: nat, k: nat, e: nat, c: char)
    requires i <= j <= k <= e <= |s| && c in s[j..k]
    ensures c in s[i..e]
  {
    var x :| 0 <= x < k - j && s[j..k][x] == c;
    assert s[i..e][x + j - i] == c;
  }

  /** Every character of `MustContain(re)` occurs in whatever `re` matches. */
  lemma {:induction false} MustContainSound(re: Regex, s: string, i: nat, e: nat, c: char)
    requires i <= |s| && e in Ends(re, s, i) && c in MustContain(re)
    ensures c in s[i..e]
    decreases re
  {
    match re
    case Lit(t) =>
      assert s[i..e] == t;
    case Cat(a, b) =>
      var j := CatElim(a, b, s, i, e);
      if c in MustContain(a) {
        MustContainSound(a, s, i, j, c);
        SliceWithin(s, i, i, j, e, c);
      } else {
        MustContainSound(b, s, j, e, c);
        SliceWithin(s, i, j, e, e, c);
      }
    case Alt(a, b) =>
      if e in Ends(a, s, i) {
        MustContainSound(a, s, i, e, c);
      } else {
        MustContainSound(b, s, i, e, c);
      }
  }

  /** A text with a match somewhere holds every required character. */
  lemma RequiredCharsPresent(re: Regex, s: string)
    ensures (exists i :: 0 <= i <= |s| && Ends(re, s, i) != {}) ==> forall c :: c in MustContain(re) ==> c in s
  {
    if exists i :: 0 <= i <= |s| && Ends(re, s, i) != {} {
      var i :| 0 <= i <= |s| && Ends(re, s, i) != {};
      var e :| e in Ends(re, s, i);
      forall c | c in MustContain(re)
        ensures c in s
      {
        MustContainSound(re, s, i, e, c);
        SliceWithin(s, 0, i, e, |s|, c);
      }
    }
  }

  /** A pattern cannot match a text that lacks one of its required characters. */
  lemma MissingCharNoMatch(re: Regex, s: string, c: char)
    requires c in MustContain(re) && c !in s
    ensures !Test(re, s)
  {
  }

  /** The letters each pattern cannot match without. */
  lemma GreetingNeeds(s: string, c: char)
    requires c in "shreya" && c !in s
    ensures !Test(GreetingPattern, s)
  {
    assert c in MustContain(GreetingPattern);
    MissingCharNoMatch(GreetingPattern, s, c);
  }

  lemma HowAreYouNeeds(s: string, c: char)
    requires c in "howareyu" && c !in s
    ensures !Test(HowAreYouPattern, s)
  {
    assert c in MustContain(HowAreYouPattern);
    MissingCharNoMatch(HowAreYouPattern, s, c);
  }

  lemma JokeNeeds(s: string, c: char)
    requires c in "tell me a joke" && c !in s
    ensures !Test(JokePattern, s)
  {
    assert c in MustContain(JokePattern);
    MissingCharNoMatch(JokePattern, s, c);
  }

  lemma TimeNeeds(s: string, c: char)
    requires c in "whati" && c !in s
    ensures !Test(TimePattern, s)
  {
    assert c in MustContain(TimePattern);
    MissingCharNoMatch(TimePattern, s, c);
  }

  lemma DateNeeds(s: string, c: char)
    requires c in "daets" && c !in s
    ensures !Test(DatePattern, s)
  {
    WhatDateLetters(c);
    TodaysDateLetters(c);
    assert DatePattern == Alt(Cat(WordBoundary, Words4("what", "date", "is", "it")), Possessive("today", "s", "date"));
    MissingCharNoMatch(DatePattern, s, c);
  }

  lemma WhatDateLetters(c: char)
    requires c in "daets"
    ensures c in MustContain(Cat(WordBoundary, Words4("what", "date", "is", "it")))
  {
  }

  lemma TodaysDateLetters(c: char)
    requires c in "daets"
    ensures c in MustContain(Possessive("today", "s", "date"))
  {
  }
}
