/** Lines and escapes of a properties file, beyond what a writer writes. */
module PropertyLaws {
  import opened Wrappers
  import opened LineReader
  import opened LineLayout
  import opened Properties

  // ----- Keys, gaps and values

  /** A key as it stands in a line: separators and blanks only behind a backslash. */
  predicate KeyText(text: string, backslash: bool)
    decreases |text|
  {
    text == "" ||
    (&& (backslash || (text[0] != '=' && text[0] != ':' && text[0] != ' ' && text[0] != '\t' && text[0] != '\U{000C}'))
     && KeyText(text[1..], text[0] == '\\' && !backslash))
  }

  /** What can follow a key. */
  predicate EndsKey(rest: string) {
    rest == "" || rest[0] == '=' || rest[0] == ':' || rest[0] == ' ' || rest[0] == '\t' || rest[0] == '\U{000C}'
  }

  lemma {:induction false} KeyLengthOf(text: string, rest: string, backslash: bool)
    requires KeyText(text, backslash) && !BackslashAfter(backslash, text) && EndsKey(rest)
    ensures KeyLength(text + rest, backslash) == |text|
    decreases |text|
  {
    if text == "" {
      assert text + rest == rest;
    } else {
      assert (text + rest)[1..] == text[1..] + rest;
      KeyLengthOf(text[1..], rest, text[0] == '\\' && !backslash);
    }
  }

  lemma {:induction false} GapOfIndent(indent: string, rest: string, separated: bool)
    requires Indent(indent)
    ensures GapLength(indent + rest, separated) == |indent| + GapLength(rest, separated)
    decreases |indent|
  {
    if indent == "" {
      assert indent + rest == rest;
    } else {
      assert (indent + rest)[1..] == indent[1..] + rest;
      GapOfIndent(indent[1..], rest, separated);
    }
  }

  /** Between a key and its value: blanks, one equals sign or colon, and blanks, or blanks alone. */
  datatype Gap = Separated(before: string, sign: char, after: string) | Spaced(blanks: string)

  predicate GoodGap(gap: Gap) {
    match gap
    case Separated(before, sign, after) => Indent(before) && (sign == '=' || sign == ':') && Indent(after)
    case Spaced(blanks) => Indent(blanks) && blanks != ""
  }

  function PrintGap(gap: Gap, value: string): string {
    match gap
    case Separated(before, sign, after) => before + ([sign] + (after + value))
    case Spaced(blanks) => blanks + value
  }

  /** A value does not start with a blank, nor with a separator when the gap has none. */
  predicate ValueText(gap: Gap, value: string) {
    value == "" ||
    (&& value[0] != ' ' && value[0] != '\t' && value[0] != '\U{000C}'
     && (gap.Spaced? ==> value[0] != '=' && value[0] != ':'))
  }

  lemma AfterSign(sign: char, after: string, value: string, separated: bool)
    requires (sign == '=' || sign == ':') && Indent(after) && ValueText(Separated("", sign, after), value)
    ensures !separated ==> GapLength([sign] + (after + value), false) == 1 + |after|
    ensures GapLength(after + value, true) == |after|
  {
    assert ([sign] + (after + value))[1..] == after + value;
    GapOfIndent(after, value, true);
  }

  lemma AfterSeparated(before: string, sign: char, after: string, value: string)
    requires GoodGap(Separated(before, sign, after)) && ValueText(Separated(before, sign, after), value)
    ensures var rest := before + ([sign] + (after + value));
            EndsKey(rest) && AfterGap(rest[1..], IsSeparator(rest[0])) == value
  {
    var signed := [sign] + (after + value);
    if before == "" {
      assert before + signed == signed;
      AfterBareSign(sign, after, value);
    } else {
      assert (before + signed)[0] == before[0] && (before + signed)[1..] == before[1..] + signed;
      AfterBlanksAndSign(before[1..], sign, after, value);
    }
  }

  lemma AfterBareSign(sign: char, after: string, value: string)
    requires GoodGap(Separated("", sign, after)) && ValueText(Separated("", sign, after), value)
    ensures var rest := [sign] + (after + value); AfterGap(rest[1..], IsSeparator(rest[0])) == value
  {
    AfterSign(sign, after, value, false);
    assert ([sign] + (after + value))[1..] == after + value;
    DropFront(after, value);
  }

  lemma AfterBlanksAndSign(blanks: string, sign: char, after: string, value: string)
    requires GoodGap(Separated(blanks, sign, after)) && ValueText(Separated(blanks, sign, after), value)
    ensures AfterGap(blanks + ([sign] + (after + value)), false) == value
  {
    var signed := [sign] + (after + value);
    AfterSign(sign, after, value, false);
    GapOfIndent(blanks, signed, false);
    assert blanks + signed == (blanks + [sign] + after) + value;
    DropFront(blanks + [sign] + after, value);
  }

  lemma DropFront(front: string, rest: string)
    ensures (front + rest)[|front|..] == rest
  {
  }

  lemma AfterSpaced(blanks: string, value: string)
    requires GoodGap(Spaced(blanks)) && ValueText(Spaced(blanks), value)
    ensures var rest := blanks + value; EndsKey(rest) && AfterGap(rest[1..], IsSeparator(rest[0])) == value
  {
    assert (blanks + value)[0] == blanks[0] && (blanks + value)[1..] == blanks[1..] + value;
    GapOfIndent(blanks[1..], value, false);
    assert (blanks[1..] + value)[|blanks[1..]|..] == value;
  }

  lemma AfterGapOf(gap: Gap, value: string)
    requires GoodGap(gap) && ValueText(gap, value)
    ensures var rest := PrintGap(gap, value);
            rest != "" && EndsKey(rest) && AfterGap(rest[1..], IsSeparator(rest[0])) == value
  {
    match gap
    case Separated(before, sign, after) => AfterSeparated(before, sign, after, value);
    case Spaced(blanks) => AfterSpaced(blanks, value);
  }

  /** Any key, any gap and any value are split where they meet. */
  lemma {:induction false} SplitLine(key: string, gap: Gap, value: string)
    requires KeyText(key, false) && !BackslashAfter(false, key) && GoodGap(gap) && ValueText(gap, value)
    ensures Split(key + PrintGap(gap, value)) == (key, value)
  {
    var rest := PrintGap(gap, value);
    var line := key + rest;
    AfterGapOf(gap, value);
    KeyLengthOf(key, rest, false);
    assert line[..|key|] == key && line[|key|] == rest[0] && line[|key| + 1..] == rest[1..];
  }

  lemma {:induction false} SplitKeyAlone(key: string)
    requires KeyText(key, false) && !BackslashAfter(false, key)
    ensures Split(key) == (key, "")
  {
    KeyLengthOf(key, "", false);
    assert key + "" == key;
  }

  /** A file laid out in any way gives the pairs of its logical lines. */
  lemma {:induction false} ParseLaidOut(items: seq<Item>)
    requires forall i :: 0 <= i < |items| ==> Good(items[i])
    ensures Parse(LineLayout.Print(items)) == Collect(LinesOf(items), ParseLine)
  {
    LinesOfLayout(items);
  }

  // ----- Escapes

  /** What each character after a backslash stands for. */
  lemma {:induction false} UnescapePair(c: char, rest: string)
    requires c != 'u'
    ensures Unescape(['\\', c] + rest)
            == Prefixed(if c == 't' then '\t' else if c == 'n' then '\n' else if c == 'r' then '\r'
                        else if c == 'f' then '\U{000C}' else c, Unescape(rest))
  {
    var raw := ['\\', c] + rest;
    assert raw[0] == '\\' && raw[1] == c && raw[2..] == rest;
  }

  /** Any other character stands for itself, and a backslash at the end for nothing. */
  lemma {:induction false} UnescapePlain(c: char, rest: string)
    requires c != '\\'
    ensures Unescape([c] + rest) == Prefixed(c, Unescape(rest)) && Unescape("\\") == Ok("")
  {
    assert ([c] + rest)[1..] == rest;
  }

  const HEX_LOWER: string := "0123456789abcdef"
  const HEX_UPPER: string := "0123456789ABCDEF"

  /** The value of a hexadecimal digit is its place among the sixteen, in either case. */
  lemma {:induction false} HexValueExactly(c: char, n: int)
    requires 0 <= n < 16
    ensures HexValue(c) == n <==> c == HEX_LOWER[n] || c == HEX_UPPER[n]
  {
  }

  /** Four digits make the number that they spell to base sixteen. */
  lemma {:induction false} HexNumberOf(a: char, b: char, c: char, d: char)
    requires HexValue(a) >= 0 && HexValue(b) >= 0 && HexValue(c) >= 0 && HexValue(d) >= 0
    ensures CodeOf([a, b, c, d]) == 4096 * HexValue(a) + 256 * HexValue(b) + 16 * HexValue(c) + HexValue(d)
  {
    var digits := [a, b, c, d];
    assert digits[..3] == [a, b, c] && [a, b, c][..2] == [a, b] && [a, b][..1] == [a] && [a][..0] == [];
    assert HexNumber([a]) == HexValue(a);
    assert HexNumber([a, b]) == 16 * HexValue(a) + HexValue(b);
    assert HexNumber([a, b, c]) == 16 * (16 * HexValue(a) + HexValue(b)) + HexValue(c);
  }

  /** A code escape stands for its character. */
  lemma {:induction false} UnescapeCode(digits: string, c: char, rest: string)
    requires |digits| == 4 && CodeOf(digits) == c as int
    ensures Unescape("\\u" + digits + rest) == Prefixed(c, Unescape(rest))
  {
    var raw := "\\u" + digits + rest;
    assert raw[0] == '\\' && raw[1] == 'u' && raw[2..6] == digits && raw[6..] == rest;
  }

  /** Half of a surrogate pair, and anything but a code, are errors. */
  lemma {:induction false} UnescapeBadCode(digits: string, rest: string)
    requires |digits| == 4
    ensures CodeOf(digits) < 0 ==> Unescape("\\u" + digits + rest) == Err(MalformedEncoding)
    ensures 0xD800 <= CodeOf(digits) <= 0xDFFF ==>
              Unescape("\\u" + digits + rest) == Err(UnpairedSurrogate(CodeOf(digits)))
  {
    var raw := "\\u" + digits + rest;
    assert raw[0] == '\\' && raw[1] == 'u' && raw[2..6] == digits && raw[6..] == rest;
  }

  lemma {:induction false} UnescapeShortCode(digits: string)
    requires |digits| < 4
    ensures Unescape("\\u" + digits) == Err(MalformedEncoding)
  {
    var raw := "\\u" + digits;
    assert raw[0] == '\\' && raw[1] == 'u' && raw[2..] == digits;
  }
}
