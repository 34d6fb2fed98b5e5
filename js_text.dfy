/** The JavaScript string primitives the chat widget relies on: the white-space
    set shared by `String.prototype.trim` and the regular-expression class `\s`,
    the line terminators excluded by `.`, the word characters behind `\b`,
    `trim` and `toLowerCase`. */
module JsText {

  /** WhiteSpace and LineTerminator code points (ECMAScript): what `trim`
      strips and what `\s` matches. */
  predicate IsSpace(c: char) {
    c == '\t' || c == '\n' || c == '\U{B}' || c == '\U{C}' || c == '\r' || c == ' '
    || c == '\U{A0}' || c == '\U{1680}' || ('\U{2000}' <= c <= '\U{200A}')
    || c == '\U{2028}' || c == '\U{2029}' || c == '\U{202F}' || c == '\U{205F}'
    || c == '\U{3000}' || c == '\U{FEFF}'
  }

  /** The characters `.` refuses when the `s` flag is absent. */
  predicate IsLineTerminator(c: char) {
    c == '\n' || c == '\r' || c == '\U{2028}' || c == '\U{2029}'
  }

  /** `[A-Za-z0-9_]`, the only word characters of `\b` without the `u` and `i` flags. */
  predicate IsWordChar(c: char) {
    ('a' <= c <= 'z') || ('A' <= c <= 'Z') || ('0' <= c <= '9') || c == '_'
  }

  /** True when every character of `s` is white space. */
  predicate AllSpace(s: string) {
    forall k :: 0 <= k < |s| ==> IsSpace(s[k])
  }

  /** `s` neither starts nor ends with white space. */
  predicate Trimmed(s: string) {
    s == [] || (!IsSpace(s[0]) && !IsSpace(s[|s| - 1]))
  }

  /** The end of the run of white space that starts at `i`. */
  function SpaceRunEnd(s: string, i: nat): (r: nat)
    requires i <= |s|
    ensures i <= r <= |s|
    ensures forall k :: i <= k < r ==> IsSpace(s[k])
    ensures r < |s| ==> !IsSpace(s[r])
    decreases |s| - i
  {
    if i < |s| && IsSpace(s[i]) then SpaceRunEnd(s, i + 1) else i
  }

  /** The start of the run of white space that ends at `j`, not going below `lo`. */
  function SpaceRunStart(s: string, lo: nat, j: nat): (r: nat)
    requires lo <= j <= |s|
    ensures lo <= r <= j
    ensures forall k :: r <= k < j ==> IsSpace(s[k])
    ensures r > lo ==> !IsSpace(s[r - 1])
    decreases j
  {
    if j > lo && IsSpace(s[j - 1]) then SpaceRunStart(s, lo, j - 1) else j
  }

  /** `String.prototype.trim`: the infix of `s` left after removing white space
      at both ends. It is empty exactly when `s` is all white space. */
  function Trim(s: string): (r: string)
    ensures Trimmed(r)
    ensures exists lo :: 0 <= lo <= |s| - |r| && r == s[lo..lo + |r|]
                         && AllSpace(s[..lo]) && AllSpace(s[lo + |r|..])
    ensures r == [] <==> AllSpace(s)
  {
    var lo := SpaceRunEnd(s, 0);
    var hi := SpaceRunStart(s, lo, |s|);
    TrimBounds(s, lo, hi);
    s[lo..hi]
  }

  lemma TrimBounds(s: string, lo: nat, hi: nat)
    requires lo == SpaceRunEnd(s, 0) && hi == SpaceRunStart(s, lo, |s|)
    ensures Trimmed(s[lo..hi])
    ensures AllSpace(s[..lo]) && AllSpace(s[hi..])
    ensures lo == hi <==> AllSpace(s)
  {
    assert forall k :: 0 <= k < lo ==> s[..lo][k] == s[k];
    assert forall k :: hi <= k < |s| ==> s[hi..][k - hi] == s[k];
    if lo == hi {
      assert forall k :: 0 <= k < |s| ==> IsSpace(s[k]);
    }
  }

  /** What `toLowerCase` makes of one character, as far as it matters to the
      widget: ASCII capitals become small letters, and so do the only two
      non-ASCII characters whose lower case contains ASCII letters (KELVIN SIGN
      becomes `k`; CAPITAL I WITH DOT ABOVE becomes `i` plus COMBINING DOT
      ABOVE). Every other character is kept. */
  function LowerChar(c: char): (r: string)
    ensures |r| >= 1
  {
    if 'A' <= c <= 'Z' then [(c as int + 32) as char]
    else if c == '\U{212A}' then ['k']
    else if c == '\U{130}' then ['i', '\U{307}']
    else [c]
  }

  /** A character that `LowerChar` keeps as it is. */
  predicate IsLowered(c: char) {
    !('A' <= c <= 'Z') && c != '\U{212A}' && c != '\U{130}'
  }

  /** `String.prototype.toLowerCase`, character by character. */
  function ToLower(s: string): (r: string)
    ensures |r| >= |s|
    ensures forall k :: 0 <= k < |r| ==> IsLowered(r[k])
  {
    if s == [] then [] else LowerChar(s[0]) + ToLower(s[1..])
  }

  /** The router's `inputMessage.trim().toLowerCase()`: no white space at
      either end, no capital left, and empty exactly when the input is all
      white space. */
  function Normalize(s: string): (r: string)
    ensures Trimmed(r)
    ensures forall k :: 0 <= k < |r| ==> IsLowered(r[k])
    ensures r == [] <==> AllSpace(s)
  {
    var t := Trim(s);
    ToLowerKeepsTrimmed(t);
    ToLower(t)
  }

  lemma LowerCharSpace(c: char)
    ensures IsSpace(c) ==> LowerChar(c) == [c]
    ensures !IsSpace(c) ==> forall k :: 0 <= k < |LowerChar(c)| ==> !IsSpace(LowerChar(c)[k])
  {
  }

  lemma {:induction false} ToLowerAppend(a: string, b: string)
    ensures ToLower(a + b) == ToLower(a) + ToLower(b)
  {
    if a == [] {
      assert a + b == b;
    } else {
      assert (a + b)[1..] == a[1..] + b;
      ToLowerAppend(a[1..], b);
    }
  }

  lemma {:induction false} ToLowerKeepsTrimmed(t: string)
    requires Trimmed(t)
    ensures Trimmed(ToLower(t))
    ensures ToLower(t) == [] <==> t == []
  {
    if t != [] {
      var n := |t| - 1;
      LowerCharSpace(t[0]);
      LowerCharSpace(t[n]);
      assert t == t[..n] + [t[n]];
      ToLowerAppend(t[..n], [t[n]]);
      assert ToLower([t[n]]) == LowerChar(t[n]) by {
        assert [t[n]][1..] == [];
      }
    }
  }

  /** Trimming an already trimmed string changes nothing. */
  lemma {:induction false} TrimTrimmed(s: string)
    requires Trimmed(s)
    ensures Trim(s) == s
  {
    if s != [] {
      assert SpaceRunEnd(s, 0) == 0;
      assert SpaceRunStart(s, 0, |s|) == |s|;
    }
  }

  /** Lowering a string that has no capital left changes nothing. */
  lemma {:induction false} ToLowerLowered(s: string)
    requires forall k :: 0 <= k < |s| ==> IsLowered(s[k])
    ensures ToLower(s) == s
  {
    if s != [] {
      ToLowerLowered(s[1..]);
      assert s == [s[0]] + s[1..];
    }
  }

  /** A trimmed string without capitals is its own normal form. */
  lemma {:induction false} NormalizeNormal(n: string)
    requires Trimmed(n)
    requires forall k :: 0 <= k < |n| ==> IsLowered(n[k])
    ensures Normalize(n) == n
  {
    TrimTrimmed(n);
    ToLowerLowered(n);
  }

  /** Normalising twice is normalising once. */
  lemma {:induction false} NormalizeIdempotent(s: string)
    ensures Normalize(Normalize(s)) == Normalize(s)
  {
    NormalizeNormal(Normalize(s));
  }

  /** A representative of the letter case class of `c`: capitals that lower
      to a single small letter are replaced by it. */
  function Fold(c: char): char {
    if 'A' <= c <= 'Z' then (c as int + 32) as char
    else if c == '\U{212A}' then 'k'
    else c
  }

  lemma LowerCharFold(c: char)
    ensures LowerChar(c) == LowerChar(Fold(c))
  {
  }

  /** Two inputs that differ only in the case of their letters. */
  ghost predicate SameUpToCase(s: string, t: string) {
    |s| == |t| && forall k :: 0 <= k < |s| ==> Fold(s[k]) == Fold(t[k])
  }

  lemma SameCaseSpace(c: char, d: char)
    requires Fold(c) == Fold(d)
    ensures IsSpace(c) <==> IsSpace(d)
  {
  }

  lemma {:induction false} SpaceRunEndSameCase(s: string, t: string, i: nat)
    requires SameUpToCase(s, t) && i <= |s|
    ensures SpaceRunEnd(s, i) == SpaceRunEnd(t, i)
    decreases |s| - i
  {
    if i < |s| {
      SameCaseSpace(s[i], t[i]);
      SpaceRunEndSameCase(s, t, i + 1);
    }
  }

  lemma {:induction false} SpaceRunStartSameCase(s: string, t: string, lo: nat, j: nat)
    requires SameUpToCase(s, t) && lo <= j <= |s|
    ensures SpaceRunStart(s, lo, j) == SpaceRunStart(t, lo, j)
    decreases j
  {
    if j > lo {
      SameCaseSpace(s[j - 1], t[j - 1]);
      SpaceRunStartSameCase(s, t, lo, j - 1);
    }
  }

  lemma {:induction false} ToLowerSameCase(s: string, t: string)
    requires SameUpToCase(s, t)
    ensures ToLower(s) == ToLower(t)
  {
    if s != [] {
      LowerCharFold(s[0]);
      LowerCharFold(t[0]);
      ToLowerSameCase(s[1..], t[1..]);
    }
  }

  /** The router is case-insensitive: inputs that differ only in the case of
      their letters normalise to the same text. */
  lemma {:induction false} NormalizeIgnoresCase(s: string, t: string)
    requires SameUpToCase(s, t)
    ensures Normalize(s) == Normalize(t)
  {
    var lo := SpaceRunEnd(s, 0);
    SpaceRunEndSameCase(s, t, 0);
    SpaceRunStartSameCase(s, t, lo, |s|);
    var hi := SpaceRunStart(s, lo, |s|);
    SameUpToCaseSlice(s, t, lo, hi);
    ToLowerSameCase(s[lo..hi], t[lo..hi]);
  }

  lemma SameUpToCaseSlice(s: string, t: string, lo: nat, hi: nat)
    requires SameUpToCase(s, t) && lo <= hi <= |s|
    ensures SameUpToCase(s[lo..hi], t[lo..hi])
  {
    forall k | 0 <= k < hi - lo ensures Fold(s[lo..hi][k]) == Fold(t[lo..hi][k]) {
      assert s[lo..hi][k] == s[lo + k] && t[lo..hi][k] == t[lo + k];
    }
  }
}
