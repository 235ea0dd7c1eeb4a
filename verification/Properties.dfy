/** Keys, values and escapes of a `java.util.Properties` file, and a writer that the reader inverts. */
module Properties {
  import opened Wrappers
  import opened Text
  import opened LineReader

  datatype Error = MalformedEncoding | UnpairedSurrogate(code: nat)

  // ----- The reader

  predicate IsSeparator(c: char) {
    c == '=' || c == ':'
  }

  /** The index of the first unescaped separator or blank, or the length. */
  function KeyLength(line: string, backslash: bool): (n: nat)
    ensures n <= |line|
    decreases |line|
  {
    if line == "" || (!backslash && (IsSeparator(line[0]) || IsBlank(line[0]))) then 0
    else 1 + KeyLength(line[1..], line[0] == '\\' && !backslash)
  }

  /** How many characters between key and value are blanks or, once, a separator. */
  function GapLength(rest: string, hasSeparator: bool): (n: nat)
    ensures n <= |rest|
    decreases |rest|
  {
    if rest == "" then 0
    else if IsBlank(rest[0]) then 1 + GapLength(rest[1..], hasSeparator)
    else if !hasSeparator && IsSeparator(rest[0]) then 1 + GapLength(rest[1..], true)
    else 0
  }

  function Split(line: string): (string, string) {
    var n := KeyLength(line, false);
    (line[..n], if n == |line| then "" else AfterGap(line[n + 1..], IsSeparator(line[n])))
  }

  function AfterGap(rest: string, separated: bool): string {
    rest[GapLength(rest, separated)..]
  }

  /** The length of the key: the scan to the first unescaped separator or blank. */
  method ScanKey(line: string) returns (keyLen: nat)
    ensures keyLen == KeyLength(line, false)
  {
    keyLen := 0;
    var backslash := false;
    while keyLen < |line|
      invariant 0 <= keyLen <= |line|
      invariant KeyLength(line, false) == keyLen + KeyLength(line[keyLen..], backslash)
    {
      var c := line[keyLen];
      if (IsSeparator(c) || IsBlank(c)) && !backslash {
        break;
      }
      backslash := c == '\\' && !backslash;
      keyLen := keyLen + 1;
    }
  }

  /** The start of the value: the scan over blanks and at most one separator in all. */
  method ScanGap(line: string, from: nat, separated: bool) returns (valueStart: nat)
    requires from <= |line|
    ensures valueStart <= |line| && line[valueStart..] == AfterGap(line[from..], separated)
  {
    valueStart := from;
    var hasSeparator := separated;
    while valueStart < |line|
      invariant from <= valueStart <= |line|
      invariant GapLength(line[from..], separated) == valueStart - from + GapLength(line[valueStart..], hasSeparator)
    {
      var c := line[valueStart];
      if !IsBlank(c) {
        if !hasSeparator && IsSeparator(c) {
          hasSeparator := true;
        } else {
          break;
        }
      }
      valueStart := valueStart + 1;
    }
    assert line[from..][valueStart - from..] == line[valueStart..];
  }

  /** `split_key_value`. */
  method SplitKeyValue(line: string) returns (key: string, value: string)
    ensures (key, value) == Split(line)
  {
    var keyLen := ScanKey(line);
    var valueStart := |line|;
    if keyLen < |line| {
      valueStart := ScanGap(line, keyLen + 1, IsSeparator(line[keyLen]));
    } else {
      assert line[valueStart..] == "";
    }
    key, value := line[..keyLen], line[valueStart..];
  }

  function HexValue(c: char): int {
    if '0' <= c <= '9' then c as int - '0' as int
    else if 'a' <= c <= 'f' then c as int - 'a' as int + 10
    else if 'A' <= c <= 'F' then c as int - 'A' as int + 10
    else -1
  }

  /** The number of up to four hex digits, or -1. */
  function HexNumber(digits: string): int {
    if digits == "" then 0
    else
      var high, low := HexNumber(digits[..|digits| - 1]), HexValue(digits[|digits| - 1]);
      if high < 0 || low < 0 then -1 else 16 * high + low
  }

  /** `u32::from_str_radix(digits, 16)` of four characters, which also takes a leading plus sign. */
  function CodeOf(digits: string): int {
    if |digits| != 4 then -1
    else if digits[0] == '+' then HexNumber(digits[1..])
    else HexNumber(digits)
  }

  predicate AllHex(digits: string) {
    forall i :: 0 <= i < |digits| ==> HexValue(digits[i]) >= 0
  }

  lemma {:induction false} HexNumberExactly(digits: string)
    ensures HexNumber(digits) >= 0 <==> AllHex(digits)
  {
    if digits != "" {
      HexNumberExactly(digits[..|digits| - 1]);
      assert digits == digits[..|digits| - 1] + [digits[|digits| - 1]];
    }
  }

  /** An escape is well formed exactly with four hex digits, or with a plus sign and three. */
  lemma {:induction false} CodeOfExactly(digits: string)
    ensures CodeOf(digits) >= 0
            <==> |digits| == 4 && (AllHex(digits) || (digits[0] == '+' && AllHex(digits[1..])))
  {
    HexNumberExactly(digits);
    if |digits| == 4 {
      HexNumberExactly(digits[1..]);
    }
  }

  predicate IsScalar(code: int) {
    0 <= code < 0xD800 || 0xE000 <= code < 0x11_0000
  }

  /** The character that `c` after a backslash stands for, unless it is `u`. */
  function Unescaped(c: char): char {
    if c == 't' then '\t' else if c == 'n' then '\n' else if c == 'r' then '\r' else if c == 'f' then '\U{000C}' else c
  }

  function Prefixed(c: char, r: Result<string, Error>): Result<string, Error> {
    if r.Ok? then Ok([c] + r.value) else r
  }

  /** What a raw key or value stands for. */
  function Unescape(raw: string): Result<string, Error>
    decreases |raw|
  {
    if raw == "" then Ok("")
    else if raw[0] != '\\' then Prefixed(raw[0], Unescape(raw[1..]))
    else if |raw| == 1 then Ok("")
    else if raw[1] != 'u' then Prefixed(Unescaped(raw[1]), Unescape(raw[2..]))
    else
      var digits := if |raw| < 6 then raw[2..] else raw[2..6];
      var code := CodeOf(digits);
      if code < 0 then Err(MalformedEncoding)
      else if !IsScalar(code) then Err(UnpairedSurrogate(code))
      else Prefixed(code as char, Unescape(raw[6..]))
  }

  /** A plus sign and three hex digits are read as the character with that code. */
  lemma {:induction false} PlusIsAccepted(digits: string, c: char)
    requires |digits| == 3 && HexNumber(digits) == c as int
    ensures Unescape("\\u+" + digits) == Ok([c])
  {
    var raw := "\\u+" + digits;
    assert raw[2..6] == "+" + digits && ("+" + digits)[1..] == digits;
    HexNumberBound(digits);
    assert raw[6..] == "";
    assert [c] + "" == [c];
  }

  lemma PlusExample()
    ensures Unescape("\\u+041") == Ok("A")
  {
    assert "041"[..2] == "04" && "04"[..1] == "0" && "0"[..0] == "";
    PlusIsAccepted("041", 'A');
    assert "\\u+" + "041" == "\\u+041";
  }

  function After(out: string, r: Result<string, Error>): Result<string, Error> {
    if r.Ok? then Ok(out + r.value) else r
  }

  lemma AfterNothing(r: Result<string, Error>)
    ensures After("", r) == r
  {
    assert r.Ok? ==> "" + r.value == r.value;
  }

  lemma AfterPrefixed(out: string, c: char, r: Result<string, Error>)
    ensures After(out, Prefixed(c, r)) == After(out + [c], r)
  {
    assert r.Ok? ==> out + ([c] + r.value) == out + [c] + r.value;
  }

  /** `unescape`. */
  method UnescapeLoop(raw: string) returns (r: Result<string, Error>)
    ensures r == Unescape(raw)
  {
    var out: string := "";
    var i := 0;
    assert raw[0..] == raw;
    AfterNothing(Unescape(raw));
    while i < |raw|
      invariant 0 <= i <= |raw|
      invariant Unescape(raw) == After(out, Unescape(raw[i..]))
    {
      ghost var rest := raw[i..];
      var c := raw[i];
      if c != '\\' {
        AfterPrefixed(out, c, Unescape(rest[1..]));
        out := out + [c];
        i := i + 1;
      } else if i + 1 == |raw| {
        i := i + 1;
      } else if raw[i + 1] == 'u' {
        var digits := raw[i + 2..if i + 6 <= |raw| then i + 6 else |raw|];
        if i + 6 <= |raw| {
          assert digits == rest[2..6];
        } else {
          assert digits == rest[2..];
        }
        var code := CodeOf(digits);
        if code < 0 {
          return Err(MalformedEncoding);
        }
        if !IsScalar(code) {
          return Err(UnpairedSurrogate(code));
        }
        assert rest[6..] == raw[i + 6..];
        AfterPrefixed(out, code as char, Unescape(rest[6..]));
        out := out + [code as char];
        i := i + 6;
      } else {
        assert rest[2..] == raw[i + 2..];
        AfterPrefixed(out, Unescaped(raw[i + 1]), Unescape(rest[2..]));
        out := out + [Unescaped(raw[i + 1])];
        i := i + 2;
      }
    }
    assert raw[i..] == "" && out + "" == out;
    return Ok(out);
  }

  /** The key and value of one logical line. */
  function ParseLine(line: string): Result<(string, string), Error> {
    var (rawKey, rawValue) := Split(line);
    var key, value := Unescape(rawKey), Unescape(rawValue);
    if key.Err? then Err(key.error)
    else if value.Err? then Err(value.error)
    else Ok((key.value, value.value))
  }

  /** The pairs of the lines in order, a later key over an earlier one, or the first error. */
  function Collect(lines: seq<string>, pair: string -> Result<(string, string), Error>)
    : Result<map<string, string>, Error>
  {
    if lines == [] then Ok(map[])
    else
      var earlier, last := Collect(lines[..|lines| - 1], pair), pair(lines[|lines| - 1]);
      if earlier.Err? then earlier
      else if last.Err? then Err(last.error)
      else Ok(earlier.value[last.value.0 := last.value.1])
  }

  function Parse(text: string): Result<map<string, string>, Error> {
    Collect(Lines(text), ParseLine)
  }

  /** `Properties::parse`, after each byte became a character. */
  method ParseProperties(text: string) returns (r: Result<map<string, string>, Error>)
    ensures r == Parse(text)
  {
    var lines := LogicalLines(text);
    var properties := map[];
    for i := 0 to |lines|
      invariant Collect(lines[..i], ParseLine) == Ok(properties)
    {
      assert lines[..i + 1][..i] == lines[..i];
      var rawKey, rawValue := SplitKeyValue(lines[i]);
      var key := UnescapeLoop(rawKey);
      if key.Err? {
        ErrorStays(lines, i + 1, ParseLine);
        return Err(key.error);
      }
      var value := UnescapeLoop(rawValue);
      if value.Err? {
        ErrorStays(lines, i + 1, ParseLine);
        return Err(value.error);
      }
      properties := properties[key.value := value.value];
    }
    assert lines[..|lines|] == lines;
    return Ok(properties);
  }

  lemma {:induction false} ErrorStays(lines: seq<string>, k: nat, pair: string -> Result<(string, string), Error>)
    requires k <= |lines| && Collect(lines[..k], pair).Err?
    ensures Collect(lines, pair) == Collect(lines[..k], pair)
  {
    if k == |lines| {
      assert lines[..k] == lines;
    } else {
      var n := |lines| - 1;
      assert lines[..n][..k] == lines[..k];
      ErrorStays(lines[..n], k, pair);
    }
  }

  // ----- Later files override earlier ones

  lemma {:induction false} CollectConcat(
    a: seq<string>, b: seq<string>, pair: string -> Result<(string, string), Error>)
    requires Collect(a, pair).Ok? && Collect(b, pair).Ok?
    ensures Collect(a + b, pair) == Ok(Collect(a, pair).value + Collect(b, pair).value)
  {
    var first := Collect(a, pair).value;
    if b == [] {
      assert a + b == a && first + map[] == first;
    } else {
      var n := |b| - 1;
      assert (a + b)[..|a + b| - 1] == a + b[..n];
      CollectConcat(a, b[..n], pair);
      var second, last := Collect(b[..n], pair).value, pair(b[n]).value;
      MergeThenSet(first, second, last.0, last.1);
    }
  }

  lemma MergeThenSet(first: map<string, string>, second: map<string, string>, key: string, value: string)
    ensures (first + second)[key := value] == first + second[key := value]
  {
  }

  /** One text after another: every key of the second overrides the first. */
  lemma {:induction false} ParseConcat(a: string, b: string)
    requires !Pending(a) && Parse(a).Ok? && Parse(b).Ok?
    ensures Parse(a + "\n" + b) == Ok(Parse(a).value + Parse(b).value)
  {
    SettledLineFeed(a, b);
    CollectConcat(Lines(a), Lines(b), ParseLine);
  }

  // ----- A writer

  function HexDigit(n: int): char
    requires 0 <= n < 16
  {
    if n < 10 then '0' + n as char else 'A' + (n - 10) as char
  }

  function Hex4(n: int): string
    requires 0 <= n < 0x1_0000
  {
    [HexDigit(n / 4096), HexDigit(n / 256 % 16), HexDigit(n / 16 % 16), HexDigit(n % 16)]
  }

  /** A character that an escape can carry: one UTF-16 unit. */
  predicate Carried(c: char) {
    c as int < 0x1_0000
  }

  predicate AllCarried(s: string) {
    forall i :: 0 <= i < |s| ==> Carried(s[i])
  }

  /** The text of one character of a key or value. */
  function EscapeChar(c: char): string
    requires Carried(c)
  {
    if c == '\t' then "\\t" else if c == '\n' then "\\n" else if c == '\r' then "\\r"
    else if c == '\U{000C}' then "\\f"
    else if c == ' ' || c == '\\' || c == '=' || c == ':' || c == '#' || c == '!' then ['\\', c]
    else if ' ' < c <= '~' then [c]
    else "\\u" + Hex4(c as int)
  }

  function Escape(s: string): string
    requires AllCarried(s)
  {
    if s == "" then "" else EscapeChar(s[0]) + Escape(s[1..])
  }

  /** A piece of text that a scanner passes over: no line ends, and separators and blanks only escaped. */
  predicate Passes(text: string, backslash: bool)
    decreases |text|
  {
    text == "" ||
    (&& !IsEol(text[0])
     && (backslash || (!IsSeparator(text[0]) && !IsBlank(text[0])))
     && Passes(text[1..], text[0] == '\\' && !backslash))
  }

  lemma {:induction false} PassesConcat(a: string, b: string, backslash: bool)
    requires Passes(a, backslash) && Passes(b, BackslashAfter(backslash, a))
    ensures Passes(a + b, backslash)
    ensures BackslashAfter(backslash, a + b) == BackslashAfter(BackslashAfter(backslash, a), b)
    decreases |a|
  {
    if a == "" {
      assert a + b == b;
    } else {
      assert (a + b)[1..] == a[1..] + b;
      PassesConcat(a[1..], b, a[0] == '\\' && !backslash);
    }
  }

  lemma PlainPasses(text: string)
    requires forall i :: 0 <= i < |text| ==> '0' <= text[i] <= '9' || 'A' <= text[i] <= 'F' || text[i] == 'u'
    ensures Passes(text, false) && !BackslashAfter(false, text)
    decreases |text|
  {
    if text != "" {
      PlainPasses(text[1..]);
    }
  }

  lemma PairPasses(c: char)
    requires !IsEol(c)
    ensures Passes(['\\', c], false) && !BackslashAfter(false, ['\\', c])
  {
    var pair := ['\\', c];
    assert pair[1..] == [c] && [c][1..] == "";
    assert Passes("", false) && !BackslashAfter(false, "");
    assert Passes([c], true) && !BackslashAfter(true, [c]);
  }

  lemma EscapeCharPasses(c: char)
    requires Carried(c)
    ensures Passes(EscapeChar(c), false) && !BackslashAfter(false, EscapeChar(c))
    ensures EscapeChar(c) != "" && EscapeChar(c)[0] != '#' && EscapeChar(c)[0] != '!'
  {
    var e := EscapeChar(c);
    if |e| == 2 {
      PairPasses(e[1]);
      assert e == ['\\', e[1]];
    } else if |e| == 1 {
      assert e[1..] == "";
    } else {
      var digits := Hex4(c as int);
      assert e[1..] == "u" + digits;
      assert ("u" + digits)[1..] == digits;
      PlainPasses(digits);
      assert Passes("u" + digits, true) && !BackslashAfter(true, "u" + digits);
    }
  }

  lemma {:induction false} EscapePasses(s: string)
    requires AllCarried(s)
    ensures Passes(Escape(s), false) && !BackslashAfter(false, Escape(s))
    ensures Raw(Escape(s))
  {
    if s != "" {
      EscapeCharPasses(s[0]);
      EscapePasses(s[1..]);
      PassesConcat(EscapeChar(s[0]), Escape(s[1..]), false);
    }
  }

  // ----- The reader inverts the writer, step by step

  lemma {:induction false} ScanPasses(s: Scan, text: string)
    requires !s.skipBlank && s.line != "" && !s.comment && !s.afterCr && Passes(text, s.backslash)
    ensures Run(s, text) == s.(line := s.line + text, backslash := BackslashAfter(s.backslash, text))
    decreases |text|
  {
    if text == "" {
      assert s.line + text == s.line;
    } else {
      ScanPasses(Step(s, text[0]), text[1..]);
      assert s.line + [text[0]] + text[1..] == s.line + text;
    }
  }

  lemma {:induction false} KeyLengthPasses(text: string, rest: string, backslash: bool)
    requires Passes(text, backslash) && !BackslashAfter(backslash, text)
    requires rest != "" && IsSeparator(rest[0])
    ensures KeyLength(text + rest, backslash) == |text|
    decreases |text|
  {
    if text == "" {
      assert text + rest == rest;
    } else {
      assert (text + rest)[1..] == text[1..] + rest;
      KeyLengthPasses(text[1..], rest, text[0] == '\\' && !backslash);
    }
  }

  /** One written line. */
  function Line(key: string, value: string): string
    requires AllCarried(key) && AllCarried(value)
  {
    Escape(key) + "=" + Escape(value)
  }

  /** Text that a written key or value can be. */
  predicate Raw(text: string) {
    Passes(text, false) && !BackslashAfter(false, text) && (text != "" ==> text[0] !in "#!")
  }

  lemma SplitRaw(k: string, v: string)
    requires Raw(k) && Raw(v)
    ensures Split(k + "=" + v) == (k, v)
  {
    var line := k + "=" + v;
    assert line == k + ("=" + v);
    KeyLengthPasses(k, "=" + v, false);
    assert GapLength(v, true) == 0;
    assert line[|k|] == '=' && line[|k| + 1..] == v && line[..|k|] == k;
  }

  lemma RunRaw(k: string, v: string)
    requires Raw(k) && Raw(v)
    ensures Run(START, k + "=" + v) == START.(line := k + "=" + v, skipBlank := false)
  {
    var line := k + "=" + v;
    if k != "" {
      var first := START.(line := [k[0]], skipBlank := false, backslash := k[0] == '\\');
      assert Step(START, k[0]) == first;
      assert line[0] == k[0] && line[1..] == k[1..] + ("=" + v);
      ScanPasses(first, k[1..]);
      assert [k[0]] + k[1..] == k;
      AfterKey(first, k, v);
    } else {
      var first := START.(line := "=", skipBlank := false);
      assert Step(START, '=') == first;
      assert line == "=" + v && line[0] == '=' && line[1..] == v;
      ScanPasses(first, v);
    }
  }

  lemma LinesOfRaw(k: string, v: string)
    requires Raw(k) && Raw(v)
    ensures Lines(k + "=" + v) == [k + "=" + v] && !Pending(k + "=" + v)
  {
    RunRaw(k, v);
  }

  lemma AfterKey(first: Scan, k: string, v: string)
    requires k != "" && first == START.(line := [k[0]], skipBlank := false, backslash := k[0] == '\\')
    requires Run(first, k[1..]) == first.(line := k, backslash := false)
    requires Passes(v, false) && !BackslashAfter(false, v)
    ensures Run(first, k[1..] + ("=" + v)) == START.(line := k + "=" + v, skipBlank := false)
  {
    var s := Run(first, k[1..]);
    RunConcat(first, k[1..], "=" + v);
    assert ("=" + v)[1..] == v;
    var t := Step(s, '=');
    assert t == START.(line := k + "=", skipBlank := false);
    ScanPasses(t, v);
  }

  lemma HexValueOfDigit(n: int)
    requires 0 <= n < 16
    ensures HexValue(HexDigit(n)) == n && HexDigit(n) != '+'
  {
  }

  lemma HexNumberOfDigits(a: int, b: int, c: int, d: int)
    requires 0 <= a < 16 && 0 <= b < 16 && 0 <= c < 16 && 0 <= d < 16
    ensures HexNumber([HexDigit(a), HexDigit(b), HexDigit(c), HexDigit(d)]) == 16 * (16 * (16 * a + b) + c) + d
  {
    HexValueOfDigit(a);
    HexValueOfDigit(b);
    HexValueOfDigit(c);
    HexValueOfDigit(d);
    var t := [HexDigit(a), HexDigit(b), HexDigit(c), HexDigit(d)];
    assert t[..3][..2][..1][..0] == "";
    assert HexNumber(t[..3][..2][..1]) == a;
    assert HexNumber(t[..3][..2]) == 16 * a + b;
    assert HexNumber(t[..3]) == 16 * (16 * a + b) + c;
  }

  lemma HexDigitsOf(n: int)
    requires 0 <= n
    ensures n == 16 * (16 * (16 * (n / 4096) + n / 256 % 16) + n / 16 % 16) + n % 16
  {
    assert n / 256 == n / 16 / 16 && n / 4096 == n / 256 / 16;
  }

  lemma HexNumberOfHex4(n: int)
    requires 0 <= n < 0x1_0000
    ensures CodeOf(Hex4(n)) == n
  {
    HexValueOfDigit(n / 4096);
    HexNumberOfDigits(n / 4096, n / 256 % 16, n / 16 % 16, n % 16);
    HexDigitsOf(n);
  }

  lemma UnescapeEscapeChar(c: char, rest: string)
    requires Carried(c)
    ensures Unescape(EscapeChar(c) + rest) == Prefixed(c, Unescape(rest))
  {
    var e := EscapeChar(c);
    if |e| == 6 {
      HexNumberOfHex4(c as int);
      assert (e + rest)[2..6] == Hex4(c as int) && (e + rest)[6..] == rest;
    } else if |e| == 2 {
      assert (e + rest)[2..] == rest;
    } else {
      assert (e + rest)[1..] == rest;
    }
  }

  lemma {:induction false} UnescapeEscape(s: string)
    requires AllCarried(s)
    ensures Unescape(Escape(s)) == Ok(s)
  {
    if s != "" {
      var first, rest := s[0], s[1..];
      UnescapeEscape(rest);
      UnescapeEscapeChar(first, Escape(rest));
      assert Escape(s) == EscapeChar(first) + Escape(rest);
      PrefixedRest(s);
    }
  }

  lemma PrefixedRest(s: string)
    requires s != ""
    ensures Prefixed(s[0], Ok(s[1..])) == Ok(s)
  {
    assert [s[0]] + s[1..] == s;
  }

  lemma ReadLine(key: string, value: string)
    requires AllCarried(key) && AllCarried(value)
    ensures Lines(Line(key, value)) == [Line(key, value)] && !Pending(Line(key, value))
    ensures ParseLine(Line(key, value)) == Ok((key, value))
  {
    EscapePasses(key);
    EscapePasses(value);
    SplitRaw(Escape(key), Escape(value));
    LinesOfRaw(Escape(key), Escape(value));
    UnescapeEscape(key);
    UnescapeEscape(value);
  }

  // ----- Whole files

  type Entry = (string, string)

  predicate EntriesCarried(entries: seq<Entry>) {
    forall i :: 0 <= i < |entries| ==> AllCarried(entries[i].0) && AllCarried(entries[i].1)
  }

  function Write(entries: seq<Entry>): string
    requires EntriesCarried(entries)
  {
    if entries == [] then "" else Line(entries[0].0, entries[0].1) + "\n" + Write(entries[1..])
  }

  /** The map that a list of pairs stands for, a later key over an earlier one. */
  function MapOf(entries: seq<Entry>): map<string, string> {
    if entries == [] then map[] else map[entries[0].0 := entries[0].1] + MapOf(entries[1..])
  }

  /** Reading what was written gives back the pairs, through lines, splitting and escapes together. */
  lemma {:induction false} ParseWrite(entries: seq<Entry>)
    requires EntriesCarried(entries)
    ensures Parse(Write(entries)) == Ok(MapOf(entries))
  {
    if entries != [] {
      var (key, value) := entries[0];
      var line := Line(key, value);
      ParseWrite(entries[1..]);
      ReadLine(key, value);
      ParseOneLine(line, key, value);
      ParseConcat(line, Write(entries[1..]));
    }
  }

  lemma ParseOneLine(line: string, key: string, value: string)
    requires Lines(line) == [line] && ParseLine(line) == Ok((key, value))
    ensures Parse(line) == Ok(map[key := value])
  {
    assert [line][..0] == [];
    assert Collect([line], ParseLine) == Ok(map[][key := value]);
  }

  predicate MapCarried(m: map<string, string>) {
    forall k :: k in m ==> AllCarried(k) && AllCarried(m[k])
  }

  predicate EntriesOf(entries: seq<Entry>, m: map<string, string>) {
    forall i :: 0 <= i < |entries| ==> entries[i].0 in m && m[entries[i].0] == entries[i].1
  }

  lemma MapOfCons(key: string, value: string, others: seq<Entry>)
    ensures MapOf([(key, value)] + others) == map[key := value] + MapOf(others)
  {
    assert ([(key, value)] + others)[1..] == others;
  }

  lemma EntriesOfCons(m: map<string, string>, key: string, others: seq<Entry>)
    requires key in m && EntriesOf(others, m - {key})
    ensures EntriesOf([(key, m[key])] + others, m)
  {
  }

  lemma MapWithout(m: map<string, string>, key: string)
    requires key in m
    ensures m == map[key := m[key]] + (m - {key}) && |m - {key}| < |m|
  {
    assert (m - {key}).Keys == m.Keys - {key};
  }

  lemma {:induction false} Enumerate(m: map<string, string>) returns (entries: seq<Entry>)
    ensures MapOf(entries) == m
    ensures EntriesOf(entries, m)
    decreases |m|
  {
    if m == map[] {
      entries := [];
    } else {
      var key :| key in m;
      MapWithout(m, key);
      var others := Enumerate(m - {key});
      entries := [(key, m[key])] + others;
      MapOfCons(key, m[key], others);
      EntriesOfCons(m, key, others);
    }
  }

  // ----- Which maps a file can hold

  lemma {:induction false} UnescapeCarried(raw: string)
    requires AllCarried(raw) && Unescape(raw).Ok?
    ensures AllCarried(Unescape(raw).value)
    decreases |raw|
  {
    if raw == "" || raw == "\\" {
    } else if raw[0] != '\\' {
      UnescapeCarried(raw[1..]);
    } else if raw[1] != 'u' {
      UnescapeCarried(raw[2..]);
    } else {
      CodeBound(raw[2..6]);
      UnescapeCarried(raw[6..]);
    }
  }

  lemma CodeBound(digits: string)
    requires |digits| == 4
    ensures CodeOf(digits) < 0x1_0000
  {
    HexNumberBound(digits);
    HexNumberBound(digits[1..]);
  }

  lemma {:induction false} HexNumberBound(digits: string)
    requires |digits| <= 4
    ensures HexNumber(digits) < if |digits| == 0 then 1 else if |digits| == 1 then 0x10
                                else if |digits| == 2 then 0x100 else if |digits| == 3 then 0x1000 else 0x1_0000
  {
    if digits != "" {
      HexNumberBound(digits[..|digits| - 1]);
    }
  }

  predicate LinesCarried(lines: seq<string>) {
    forall i :: 0 <= i < |lines| ==> AllCarried(lines[i])
  }

  lemma StepCarried(s: Scan, c: char)
    requires Carried(c) && AllCarried(s.line) && LinesCarried(s.lines)
    ensures AllCarried(Step(s, c).line) && LinesCarried(Step(s, c).lines)
  {
  }

  lemma {:induction false} RunCarried(s: Scan, text: string)
    requires AllCarried(text) && AllCarried(s.line) && LinesCarried(s.lines)
    ensures AllCarried(Run(s, text).line) && LinesCarried(Run(s, text).lines)
    decreases |text|
  {
    if text != "" {
      StepCarried(s, text[0]);
      RunCarried(Step(s, text[0]), text[1..]);
    }
  }

  lemma FinishCarried(s: Scan)
    requires AllCarried(s.line) && LinesCarried(s.lines)
    ensures LinesCarried(Finish(s))
  {
  }

  lemma LineCarried(line: string)
    requires AllCarried(line) && ParseLine(line).Ok?
    ensures AllCarried(ParseLine(line).value.0) && AllCarried(ParseLine(line).value.1)
  {
    var (rawKey, rawValue) := Split(line);
    UnescapeCarried(rawKey);
    UnescapeCarried(rawValue);
  }

  lemma {:induction false} CollectCarried(lines: seq<string>, pair: string -> Result<(string, string), Error>)
    requires Collect(lines, pair).Ok? && LinesCarried(lines)
    requires forall line :: AllCarried(line) && pair(line).Ok? ==>
               AllCarried(pair(line).value.0) && AllCarried(pair(line).value.1)
    ensures MapCarried(Collect(lines, pair).value)
  {
    if lines != [] {
      CollectCarried(lines[..|lines| - 1], pair);
    }
  }

  lemma ParseCarried(text: string)
    requires AllCarried(text) && Parse(text).Ok?
    ensures MapCarried(Parse(text).value)
  {
    RunCarried(START, text);
    FinishCarried(Run(START, text));
    forall line | AllCarried(line) && ParseLine(line).Ok?
      ensures AllCarried(ParseLine(line).value.0) && AllCarried(ParseLine(line).value.1)
    {
      LineCarried(line);
    }
    CollectCarried(Lines(text), ParseLine);
  }

  /** The characters of a file, one for each byte. */
  predicate AllBytes(text: string) {
    forall i :: 0 <= i < |text| ==> text[i] as int < 256
  }

  lemma {:induction false} EscapeBytes(s: string)
    requires AllCarried(s)
    ensures AllBytes(Escape(s))
  {
    if s != "" {
      EscapeBytes(s[1..]);
      assert AllBytes(EscapeChar(s[0]));
    }
  }

  lemma {:induction false} WriteBytes(entries: seq<Entry>)
    requires EntriesCarried(entries)
    ensures AllBytes(Write(entries))
  {
    if entries != [] {
      EscapeBytes(entries[0].0);
      EscapeBytes(entries[0].1);
      WriteBytes(entries[1..]);
    }
  }

  /** A file can set exactly the maps whose characters are single UTF-16 units. */
  lemma {:induction false} FilesHoldExactly(m: map<string, string>)
    ensures (exists text: string :: AllBytes(text) && Parse(text) == Ok(m)) <==> MapCarried(m)
  {
    if MapCarried(m) {
      var entries := Enumerate(m);
      ParseWrite(entries);
      WriteBytes(entries);
    }
    forall text: string | AllBytes(text) && Parse(text) == Ok(m)
      ensures MapCarried(m)
    {
      ParseCarried(text);
    }
  }
}
