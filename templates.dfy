/** Fixed text around a variable part, as the widget's template literals build
    it, and the way back. */
module Templates {
  import opened Wrappers

  /** The part of `s` between the fixed `head` and `tail`, when `s` starts
      with `head` and ends with `tail` and the two do not overlap. */
  function Between(head: string, tail: string, s: string): (r: Option<string>)
    ensures r.Some? ==> s == head + r.value + tail
  {
    if |head| + |tail| <= |s| && s[..|head|] == head && s[|s| - |tail|..] == tail
    then Some(s[|head|..|s| - |tail|])
    else None
  }

  /** Filling a template and cutting its fixed parts off again gives back
      what was put in. */
  lemma BetweenFill(head: string, tail: string, x: string)
    ensures Between(head, tail, head + x + tail) == Some(x)
  {
    var s := head + x + tail;
    assert s[..|head|] == head;
    assert s[|s| - |tail|..] == tail;
    assert s[|head|..|s| - |tail|] == x;
  }

  /** A filled template determines what was put in. */
  lemma FillInjective(head: string, tail: string, x: string, y: string)
    requires head + x + tail == head + y + tail
    ensures x == y
  {
    BetweenFill(head, tail, x);
    BetweenFill(head, tail, y);
  }
}
