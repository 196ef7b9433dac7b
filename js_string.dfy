/** The string operations of JavaScript that the builder relies on: `trim()`. */
module JsString {

  /** WhiteSpace and LineTerminator code points of ECMAScript. */
  predicate IsWhiteSpace(c: char) {
    c == '\t' || c == '\U{000B}' || c == '\U{000C}' || c == ' ' || c == '\U{00A0}' || c == '\U{FEFF}'
    || c == '\U{1680}' || ('\U{2000}' <= c <= '\U{200A}') || c == '\U{202F}' || c == '\U{205F}'
    || c == '\U{3000}' || c == '\n' || c == '\r' || c == '\U{2028}' || c == '\U{2029}'
  }

  function TrimStart(s: string): (r: string)
    ensures |r| <= |s| && r == s[|s| - |r|..]
    ensures r != [] ==> !IsWhiteSpace(r[0])
  {
    if s != [] && IsWhiteSpace(s[0]) then TrimStart(s[1..]) else s
  }

  function TrimEnd(s: string): (r: string)
    ensures |r| <= |s| && r == s[..|r|]
    ensures r != [] ==> !IsWhiteSpace(r[|r| - 1])
    ensures s != [] && !IsWhiteSpace(s[0]) ==> r != []
  {
    if s != [] && IsWhiteSpace(s[|s| - 1]) then TrimEnd(s[..|s| - 1]) else s
  }

  /** `s.trim()`. */
  function Trim(s: string): (r: string)
    ensures r != [] ==> !IsWhiteSpace(r[0]) && !IsWhiteSpace(r[|r| - 1])
  {
    TrimEnd(TrimStart(s))
  }

  /**
   * `trim()` cuts off white space only: the result is a prefix of what
   * follows the leading white space, and everything after it is white space.
   */
  lemma TrimOnlyWhiteSpace(s: string)
    ensures var start := |s| - |TrimStart(s)|;
      && Trim(s) <= s[start..]
      && (forall k :: 0 <= k < start ==> IsWhiteSpace(s[k]))
      && (forall k :: start + |Trim(s)| <= k < |s| ==> IsWhiteSpace(s[k]))
  {
    TrimStartOnlyWhiteSpace(s);
    TrimCutsWhiteSpaceAtEnd(s);
  }

  lemma TrimCutsWhiteSpaceAtEnd(s: string)
    ensures var start := |s| - |TrimStart(s)|;
      forall k :: start + |Trim(s)| <= k < |s| ==> IsWhiteSpace(s[k])
  {
    var t := TrimStart(s);
    var start, r := |s| - |t|, TrimEnd(t);
    TrimEndOnlyWhiteSpace(t);
    forall k | start + |r| <= k < |s|
      ensures IsWhiteSpace(s[k])
    {
      assert s[k] == t[k - start];
    }
  }

  lemma {:induction false} TrimStartOnlyWhiteSpace(s: string)
    ensures forall k :: 0 <= k < |s| - |TrimStart(s)| ==> IsWhiteSpace(s[k])
  {
    if s != [] && IsWhiteSpace(s[0]) {
      TrimStartOnlyWhiteSpace(s[1..]);
      assert forall k :: 1 <= k < |s| ==> s[k] == s[1..][k - 1];
    }
  }

  lemma {:induction false} TrimEndOnlyWhiteSpace(s: string)
    ensures forall k :: |TrimEnd(s)| <= k < |s| ==> IsWhiteSpace(s[k])
  {
    if s != [] && IsWhiteSpace(s[|s| - 1]) {
      TrimEndOnlyWhiteSpace(s[..|s| - 1]);
      assert forall k :: 0 <= k < |s| - 1 ==> s[k] == s[..|s| - 1][k];
    }
  }

  /** Trimming a string that does not start or end with white space leaves it unchanged. */
  lemma TrimUnchanged(s: string)
    requires s != [] && !IsWhiteSpace(s[0]) && !IsWhiteSpace(s[|s| - 1])
    ensures Trim(s) == s
  {
  }

  /** `trim()` removes exactly one surrounding line break from each end of a text that starts and ends with visible characters. */
  lemma TrimBetweenLineBreaks(s: string)
    requires s != [] && !IsWhiteSpace(s[0]) && !IsWhiteSpace(s[|s| - 1])
    ensures Trim("\n" + s + "\n") == s
  {
    TrimStartAfterLineBreak(s);
    TrimEndBeforeLineBreak(s);
  }

  lemma TrimStartAfterLineBreak(s: string)
    requires s != [] && !IsWhiteSpace(s[0])
    ensures TrimStart("\n" + s + "\n") == s + "\n"
  {
    assert ("\n" + s + "\n")[1..] == s + "\n";
    assert (s + "\n")[0] == s[0];
  }

  lemma TrimEndBeforeLineBreak(s: string)
    requires s != [] && !IsWhiteSpace(s[|s| - 1])
    ensures TrimEnd(s + "\n") == s
  {
    assert (s + "\n")[..|s|] == s;
  }
}
