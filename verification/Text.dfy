/** Characters and whole-string operations that the readers share. */
module Text {

  predicate IsEol(c: char) {
    c == '\r' || c == '\n'
  }

  predicate IsDigit(c: char) {
    '0' <= c <= '9'
  }

  /** `char::is_whitespace`. */
  predicate IsWhitespace(c: char) {
    var n := c as int;
    9 <= n <= 13 || n == 32 || n == 0x85 || n == 0xA0 || n == 0x1680 || 0x2000 <= n <= 0x200A
    || n == 0x2028 || n == 0x2029 || n == 0x202F || n == 0x205F || n == 0x3000
  }

  function TrimStart(s: string): string {
    if s != "" && IsWhitespace(s[0]) then TrimStart(s[1..]) else s
  }

  function TrimEnd(s: string): string {
    if s != "" && IsWhitespace(s[|s| - 1]) then TrimEnd(s[..|s| - 1]) else s
  }

  function Trim(s: string): string {
    TrimEnd(TrimStart(s))
  }

  lemma TrimIs(s: string)
    requires s != "" && !IsWhitespace(s[0]) && !IsWhitespace(s[|s| - 1])
    ensures Trim(s) == s
  {
    assert TrimStart(s) == s;
    assert TrimEnd(s) == s;
  }

  /** The characters that Unicode calls white space. */
  const SPACES: string :=
    "\t\n\U{000B}\U{000C}\r \U{0085}\U{00A0}\U{1680}\U{2000}\U{2001}\U{2002}\U{2003}\U{2004}\U{2005}\U{2006}\U{2007}"
    + "\U{2008}\U{2009}\U{200A}\U{2028}\U{2029}\U{202F}\U{205F}\U{3000}"

  lemma {:induction false} WhitespaceExactly(c: char)
    ensures IsWhitespace(c) <==> c in SPACES
  {
    var n := c as int;
    if IsWhitespace(c) {
      var i := if n <= 13 then n - 9 else if n == 32 then 5 else if n == 0x85 then 6 else if n == 0xA0 then 7
               else if n == 0x1680 then 8 else if n <= 0x200A then 9 + n - 0x2000 else if n == 0x2028 then 20
               else if n == 0x2029 then 21 else if n == 0x202F then 22 else if n == 0x205F then 23 else 24;
      assert SPACES[i] == c;
    }
  }

  predicate Spaces(s: string) {
    forall i :: 0 <= i < |s| ==> s[i] in SPACES
  }

  lemma {:induction false} TrimStartSpaces(g: string, s: string)
    requires Spaces(g) && (s == "" || s[0] !in SPACES)
    ensures TrimStart(g + s) == s
  {
    if g == "" {
      assert g + s == s;
      if s != "" {
        WhitespaceExactly(s[0]);
      }
    } else {
      WhitespaceExactly(g[0]);
      assert (g + s)[1..] == g[1..] + s;
      TrimStartSpaces(g[1..], s);
    }
  }

  lemma {:induction false} TrimEndSpaces(s: string, h: string)
    requires Spaces(h) && (s == "" || s[|s| - 1] !in SPACES)
    ensures TrimEnd(s + h) == s
  {
    if h == "" {
      assert s + h == s;
      if s != "" {
        WhitespaceExactly(s[|s| - 1]);
      }
    } else {
      var n := |h| - 1;
      WhitespaceExactly(h[n]);
      assert (s + h)[..|s + h| - 1] == s + h[..n];
      TrimEndSpaces(s, h[..n]);
    }
  }

  /** Trimming takes away the white space around a text that neither starts nor ends with any. */
  lemma {:induction false} TrimAround(g: string, s: string, h: string)
    requires Spaces(g) && Spaces(h) && (s == "" || (s[0] !in SPACES && s[|s| - 1] !in SPACES))
    ensures Trim(g + s + h) == s
  {
    if s == "" {
      assert g + s + h == (g + h) + "";
      TrimStartSpaces(g + h, "");
    } else {
      assert g + s + h == g + (s + h) && (s + h)[0] == s[0];
      TrimStartSpaces(g, s + h);
      TrimEndSpaces(s, h);
    }
  }

  /** `str::to_ascii_lowercase`. */
  function Lower(s: string): (t: string)
    ensures |t| == |s|
  {
    if s == "" then ""
    else [if 'A' <= s[0] <= 'Z' then s[0] - 'A' + 'a' else s[0]] + Lower(s[1..])
  }

  lemma {:induction false} AlreadyLower(s: string)
    requires forall i :: 0 <= i < |s| ==> !('A' <= s[i] <= 'Z')
    ensures Lower(s) == s
  {
    if s != "" {
      AlreadyLower(s[1..]);
      assert s == [s[0]] + s[1..];
    }
  }

  /** The same character, or the same letter in the other case. */
  predicate SameLetter(a: char, b: char) {
    || a == b
    || ('a' <= a <= 'z' && b as int == a as int - 32)
    || ('a' <= b <= 'z' && a as int == b as int - 32)
  }

  /** `str::eq_ignore_ascii_case`. */
  predicate SameIgnoringCase(s: string, t: string) {
    |s| == |t| && forall i :: 0 <= i < |s| ==> SameLetter(s[i], t[i])
  }

  lemma {:induction false} LowerExactly(s: string, t: string)
    ensures Lower(s) == Lower(t) <==> SameIgnoringCase(s, t)
  {
    if |s| == |t| && s != "" {
      LowerExactly(s[1..], t[1..]);
      assert Lower(s)[0] == Lower(t)[0] <==> SameLetter(s[0], t[0]);
      assert Lower(s)[1..] == Lower(s[1..]) && Lower(t)[1..] == Lower(t[1..]);
      assert Lower(s) == [Lower(s)[0]] + Lower(s)[1..] && Lower(t) == [Lower(t)[0]] + Lower(t)[1..];
      assert forall i :: 0 < i < |s| ==> s[i] == s[1..][i - 1] && t[i] == t[1..][i - 1];
    }
  }
}
