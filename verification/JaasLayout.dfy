/** Login modules as a configuration may write them, and what they are read as. */
module JaasLayout {
  import opened Wrappers
  import opened Text
  import opened Jaas

  // ----- Between tokens

  datatype Filler = Space(c: char) | LineComment(text: string, end: char) | BlockComment(text: string)

  predicate GoodFiller(f: Filler) {
    match f
    case Space(c) => c as int <= 32
    case LineComment(text, end) =>
      (end == '\n' || end == '\r') && forall i :: 0 <= i < |text| ==> text[i] != '\n' && text[i] != '\r'
    case BlockComment(text) => forall i :: 0 <= i < |text| - 1 ==> !(text[i] == '*' && text[i + 1] == '/')
  }

  predicate GoodFillers(fs: seq<Filler>) {
    forall i :: 0 <= i < |fs| ==> GoodFiller(fs[i])
  }

  function PrintFiller(f: Filler, rest: string): string {
    match f
    case Space(c) => [c] + rest
    case LineComment(text, end) => "//" + (text + ([end] + rest))
    case BlockComment(text) => "/*" + (text + ("*/" + rest))
  }

  function PrintFillers(fs: seq<Filler>, rest: string): string {
    if fs == [] then rest else PrintFiller(fs[0], PrintFillers(fs[1..], rest))
  }

  lemma {:induction false} SpanOf(text: string, rest: string, p: char -> bool)
    requires forall i :: 0 <= i < |text| ==> p(text[i])
    requires rest == "" || !p(rest[0])
    ensures Span(text + rest, p) == |text|
  {
    if text == "" {
      assert text + rest == rest;
    } else {
      assert (text + rest)[1..] == text[1..] + rest;
      SpanOf(text[1..], rest, p);
    }
  }

  lemma {:induction false} BlockEnds(text: string, rest: string, previous: char)
    requires forall i :: 0 <= i < |text| - 1 ==> !(text[i] == '*' && text[i + 1] == '/')
    requires text != "" ==> !(previous == '*' && text[0] == '/')
    ensures AfterBlock(text + ("*/" + rest), previous) == rest
    decreases |text|
  {
    var whole := text + ("*/" + rest);
    if text == "" {
      assert whole == "*/" + rest && whole[1..] == "/" + rest && ("/" + rest)[1..] == rest;
    } else {
      assert whole[0] == text[0] && whole[1..] == text[1..] + ("*/" + rest);
      BlockEnds(text[1..], rest, text[0]);
    }
  }

  lemma TokensOfSpace(c: char, rest: string)
    requires c as int <= 32
    ensures Tokens([c] + rest) == Tokens(rest)
  {
    assert ([c] + rest)[1..] == rest;
    TokensStep([c] + rest, [], rest);
    assert [] + Tokens(rest) == Tokens(rest);
  }

  lemma TokensOfLineComment(text: string, end: char, rest: string)
    requires GoodFiller(LineComment(text, end))
    ensures Tokens("//" + (text + ([end] + rest))) == Tokens(rest)
  {
    var tail := text + ([end] + rest);
    var whole := "//" + tail;
    assert whole[0] == '/' && whole[1..] == "/" + tail && ("/" + tail)[1..] == tail;
    SpanOf(text, [end] + rest, NotEol);
    assert tail[|text|..] == [end] + rest;
    TokensStep(whole, [], [end] + rest);
    assert [] + Tokens([end] + rest) == Tokens([end] + rest);
    TokensOfSpace(end, rest);
  }

  lemma TokensOfBlockComment(text: string, rest: string)
    requires GoodFiller(BlockComment(text))
    ensures Tokens("/*" + (text + ("*/" + rest))) == Tokens(rest)
  {
    var tail := text + ("*/" + rest);
    var whole := "/*" + tail;
    assert whole[0] == '/' && whole[1..] == "*" + tail && ("*" + tail)[1..] == tail;
    BlockEnds(text, rest, '\0');
    TokensStep(whole, [], rest);
    assert [] + Tokens(rest) == Tokens(rest);
  }

  lemma {:induction false} TokensOfFillers(fs: seq<Filler>, rest: string)
    requires GoodFillers(fs)
    ensures Tokens(PrintFillers(fs, rest)) == Tokens(rest)
  {
    if fs != [] {
      TokensOfFillers(fs[1..], rest);
      var more := PrintFillers(fs[1..], rest);
      match fs[0]
      case Space(c) => TokensOfSpace(c, more);
      case LineComment(text, end) => TokensOfLineComment(text, end, more);
      case BlockComment(text) => TokensOfBlockComment(text, more);
    }
  }

  // ----- Words, numbers and signs

  predicate Letter(c: char) {
    'a' <= c <= 'z' || 'A' <= c <= 'Z' || c == '-' || c == '_' || c == '$' || c as int >= 0xA0
  }

  predicate Numeral(c: char) {
    '0' <= c <= '9' || c == '.'
  }

  predicate WordText(s: string) {
    s != "" && Letter(s[0]) && forall i :: 0 <= i < |s| ==> Letter(s[i]) || Numeral(s[i])
  }

  predicate NumberText(s: string) {
    s != "" && forall i :: 0 <= i < |s| ==> Numeral(s[i])
  }

  /** A character that is a token of its own. */
  predicate SignChar(c: char) {
    c as int > 32 && !Letter(c) && !Numeral(c) && c != '"' && c != '\'' && c != '/'
  }

  lemma CharacterClasses(c: char)
    ensures IsWordStart(c) <==> Letter(c)
    ensures IsWord(c) <==> Letter(c) || Numeral(c)
    ensures IsNumeral(c) <==> Numeral(c)
  {
  }

  lemma TokensOfWord(word: string, rest: string)
    requires WordText(word) && (rest == "" || !(Letter(rest[0]) || Numeral(rest[0])))
    ensures Tokens(word + rest) == [Word(word)] + Tokens(rest)
  {
    var text, tail := word + rest, word[1..];
    assert text[0] == word[0] && text[1..] == tail + rest;
    SpanOf(tail, rest, IsWord);
    assert (tail + rest)[..|tail|] == tail && (tail + rest)[|tail|..] == rest;
    assert [word[0]] + tail == word;
    TokensStep(text, [Word(word)], rest);
  }

  lemma TokensOfNumber(number: string, rest: string)
    requires NumberText(number) && (rest == "" || !Numeral(rest[0]))
    ensures Tokens(number + rest) == [Number] + Tokens(rest)
  {
    var text, tail := number + rest, number[1..];
    assert text[0] == number[0] && text[1..] == tail + rest;
    SpanOf(tail, rest, IsNumeral);
    assert (tail + rest)[|tail|..] == rest;
    TokensStep(text, [Number], rest);
  }

  lemma TokensOfSign(c: char, rest: string)
    requires SignChar(c)
    ensures Tokens([c] + rest) == [Char(c)] + Tokens(rest)
  {
    assert ([c] + rest)[1..] == rest;
    TokensStep([c] + rest, [Char(c)], rest);
  }

  // ----- Quoted strings

  /** One character inside quotes. */
  function QuoteChar(c: char, quote: char): string {
    if c == quote || c == '\\' then ['\\', c]
    else if c == '\n' then "\\n"
    else if c == '\r' then "\\r"
    else [c]
  }

  /** `s` inside quotes, up to the closing quote, followed by `rest`. */
  function Quote(s: string, quote: char, rest: string): string {
    if s == "" then [quote] + rest else QuoteChar(s[0], quote) + Quote(s[1..], quote, rest)
  }

  lemma QuotedPlain(c: char, quote: char, rest: string)
    requires c != quote && c != '\\' && c != '\n' && c != '\r'
    ensures QuotedText([c] + rest, quote) == ([c] + QuotedText(rest, quote).0, QuotedText(rest, quote).1)
  {
    assert ([c] + rest)[0] == c && ([c] + rest)[1..] == rest;
  }

  lemma QuotedChar(c: char, quote: char, rest: string)
    requires quote == '"' || quote == '\''
    ensures QuotedText(QuoteChar(c, quote) + rest, quote)
            == ([c] + QuotedText(rest, quote).0, QuotedText(rest, quote).1)
  {
    if c == quote || c == '\\' {
      QuotedEscape(c, quote, rest);
    } else if c == '\n' {
      QuotedEscape('n', quote, rest);
      assert "\\n" == ['\\', 'n'];
    } else if c == '\r' {
      QuotedEscape('r', quote, rest);
      assert "\\r" == ['\\', 'r'];
    } else {
      QuotedPlain(c, quote, rest);
    }
  }

  lemma {:induction false} QuotedTextOfQuote(s: string, quote: char, rest: string)
    requires quote == '"' || quote == '\''
    ensures QuotedText(Quote(s, quote, rest), quote) == (s, rest)
  {
    if s == "" {
      assert ([quote] + rest)[1..] == rest;
    } else {
      QuotedTextOfQuote(s[1..], quote, rest);
      QuotedChar(s[0], quote, Quote(s[1..], quote, rest));
      assert [s[0]] + s[1..] == s;
    }
  }

  lemma TokensOfQuote(s: string, quote: char, rest: string)
    requires quote == '"' || quote == '\''
    ensures Tokens([quote] + Quote(s, quote, rest)) == [Quoted(s)] + Tokens(rest)
  {
    var text := [quote] + Quote(s, quote, rest);
    assert text[0] == quote && text[1..] == Quote(s, quote, rest);
    QuotedTextOfQuote(s, quote, rest);
    TokensStep(text, [Quoted(s)], rest);
  }

  /** What a backslash and another character stand for inside quotes. */
  lemma {:induction false} QuotedEscape(c: char, quote: char, rest: string)
    requires !('0' <= c <= '7') && quote != '\\'
    ensures var meant := if c == 'a' then '\U{0007}' else if c == 'b' then '\U{0008}' else if c == 't' then '\U{0009}'
                         else if c == 'n' then '\U{000A}' else if c == 'v' then '\U{000B}'
                         else if c == 'f' then '\U{000C}' else if c == 'r' then '\U{000D}' else c;
            QuotedText(['\\', c] + rest, quote) == ([meant] + QuotedText(rest, quote).0, QuotedText(rest, quote).1)
  {
    var text := ['\\', c] + rest;
    assert text[0] == '\\' && text[1] == c && text[2..] == rest;
  }

  predicate OctalText(digits: string) {
    && 1 <= |digits| <= 3
    && (forall i :: 0 <= i < |digits| ==> '0' <= digits[i] <= '7')
    && (|digits| == 3 ==> digits[0] <= '3')
  }

  function OctalNumber(digits: string): int {
    if digits == "" then 0
    else 8 * OctalNumber(digits[..|digits| - 1]) + (digits[|digits| - 1] as int - '0' as int)
  }

  /** Up to three octal digits stand for the character with that code, as far as it stays below 256. */
  lemma {:induction false} QuotedOctal(digits: string, c: char, quote: char, rest: string)
    requires OctalText(digits) && c as int == OctalNumber(digits) && quote != '\\'
    requires |digits| == 3 || (|digits| == 2 && digits[0] > '3') || rest == "" || !('0' <= rest[0] <= '7')
    ensures QuotedText(['\\'] + digits + rest, quote) == ([c] + QuotedText(rest, quote).0, QuotedText(rest, quote).1)
  {
    var text, tail := ['\\'] + digits + rest, digits + rest;
    assert text[0] == '\\' && text[1..] == tail && text[1] == digits[0];
    assert tail[|digits|..] == rest && text[1 + |digits|..] == rest;
    OctalIs(digits, rest);
  }

  lemma OctalIs(digits: string, rest: string)
    requires OctalText(digits)
    requires |digits| == 3 || (|digits| == 2 && digits[0] > '3') || rest == "" || !('0' <= rest[0] <= '7')
    ensures Octal(digits + rest) == (OctalNumber(digits), |digits|)
  {
    OctalNumberIs(digits);
    OctalPrefix(digits + rest, digits, rest);
  }

  lemma OctalNumberIs(digits: string)
    requires OctalText(digits)
    ensures var d := digits[0] as int - '0' as int;
            OctalNumber(digits)
            == if |digits| == 1 then d
               else if |digits| == 2 then 8 * d + (digits[1] as int - '0' as int)
               else 64 * d + 8 * (digits[1] as int - '0' as int) + (digits[2] as int - '0' as int)
  {
    assert OctalNumber(digits[..0]) == 0;
    assert digits[..1][..0] == digits[..0];
    assert OctalNumber(digits[..1]) == digits[0] as int - '0' as int;
    if |digits| == 1 {
      assert digits[..1] == digits;
    } else {
      assert digits[..2][..1] == digits[..1];
      assert OctalNumber(digits[..2]) == 8 * OctalNumber(digits[..1]) + (digits[1] as int - '0' as int);
      if |digits| == 2 {
        assert digits[..2] == digits;
      }
    }
  }

  lemma OctalPrefix(tail: string, digits: string, rest: string)
    requires OctalText(digits) && tail == digits + rest
    requires |digits| == 3 || (|digits| == 2 && digits[0] > '3') || rest == "" || !('0' <= rest[0] <= '7')
    ensures Octal(tail).1 == |digits|
    ensures var d := digits[0] as int - '0' as int;
            Octal(tail).0
            == if |digits| == 1 then d
               else if |digits| == 2 then 8 * d + (digits[1] as int - '0' as int)
               else 64 * d + 8 * (digits[1] as int - '0' as int) + (digits[2] as int - '0' as int)
  {
    assert tail[0] == digits[0];
    if |digits| == 1 {
      assert rest != "" ==> tail[1] == rest[0];
    } else {
      assert tail[1] == digits[1];
      if |digits| == 2 {
        assert rest != "" ==> tail[2] == rest[0];
      } else {
        assert tail[2] == digits[2];
      }
    }
  }

  // ----- Lexemes

  datatype Style = Plain | Double | Single

  /** A token with what stands before it. */
  datatype Lexeme =
    | Named(gap: seq<Filler>, text: string, style: Style)
    | Counted(gap: seq<Filler>, digits: string)
    | Sign(gap: seq<Filler>, c: char)

  predicate GoodLexeme(l: Lexeme) {
    && GoodFillers(l.gap)
    && match l
       case Named(_, text, style) => style == Plain ==> WordText(text)
       case Counted(_, digits) => NumberText(digits)
       case Sign(_, c) => SignChar(c)
  }

  /** The two would run into one token. */
  predicate Glues(a: Lexeme, b: Lexeme) {
    && b.gap == []
    && ((a.Named? && a.style == Plain && (b.Counted? || (b.Named? && b.style == Plain))) || (a.Counted? && b.Counted?))
  }

  predicate GoodLexemes(ls: seq<Lexeme>) {
    && (forall i :: 0 <= i < |ls| ==> GoodLexeme(ls[i]))
    && (forall i :: 0 <= i < |ls| - 1 ==> !Glues(ls[i], ls[i + 1]))
  }

  function PrintItem(l: Lexeme, rest: string): string {
    match l
    case Named(_, text, Plain) => text + rest
    case Named(_, text, Double) => "\"" + Quote(text, '"', rest)
    case Named(_, text, Single) => "'" + Quote(text, '\'', rest)
    case Counted(_, digits) => digits + rest
    case Sign(_, c) => [c] + rest
  }

  function PrintLexemes(ls: seq<Lexeme>, end: seq<Filler>): string {
    if ls == [] then PrintFillers(end, "")
    else PrintFillers(ls[0].gap, PrintItem(ls[0], PrintLexemes(ls[1..], end)))
  }

  function TokenOf(l: Lexeme): Token {
    match l
    case Named(_, text, style) => if style == Plain then Word(text) else Quoted(text)
    case Counted(_, _) => Number
    case Sign(_, c) => Char(c)
  }

  function TokensOf(ls: seq<Lexeme>): (ts: seq<Token>)
    ensures |ts| == |ls| && forall i :: 0 <= i < |ls| ==> ts[i] == TokenOf(ls[i])
  {
    seq(|ls|, i requires 0 <= i < |ls| => TokenOf(ls[i]))
  }

  /** The text goes on in a way that ends the token. */
  predicate Ends(l: Lexeme, rest: string) {
    rest == "" ||
    (&& (l.Named? && l.style == Plain ==> !Letter(rest[0]) && !Numeral(rest[0]))
     && (l.Counted? ==> !Numeral(rest[0])))
  }

  lemma TokensOfItem(l: Lexeme, rest: string)
    requires GoodLexeme(l) && Ends(l, rest)
    ensures Tokens(PrintItem(l, rest)) == [TokenOf(l)] + Tokens(rest)
  {
    match l
    case Named(_, text, Plain) => TokensOfWord(text, rest);
    case Named(_, text, Double) => TokensOfQuote(text, '"', rest);
    case Named(_, text, Single) => TokensOfQuote(text, '\'', rest);
    case Counted(_, digits) => TokensOfNumber(digits, rest);
    case Sign(_, c) => TokensOfSign(c, rest);
  }

  lemma FillersStart(fs: seq<Filler>, rest: string)
    requires GoodFillers(fs) && fs != []
    ensures var text := PrintFillers(fs, rest); text != "" && !Letter(text[0]) && !Numeral(text[0])
  {
  }

  lemma NextEnds(ls: seq<Lexeme>, end: seq<Filler>)
    requires ls != [] && GoodLexemes(ls) && GoodFillers(end)
    ensures Ends(ls[0], PrintLexemes(ls[1..], end))
  {
    if |ls| == 1 {
      if end != [] {
        FillersStart(end, "");
      }
    } else {
      var next := ls[1];
      assert ls[1..][0] == next && !Glues(ls[0], ls[1]);
      if next.gap != [] {
        FillersStart(next.gap, PrintItem(next, PrintLexemes(ls[1..][1..], end)));
      } else {
        assert GoodLexeme(next);
      }
    }
  }

  /** Whatever stands between them, the lexemes are read as their tokens. */
  lemma {:induction false} TokensOfLexemes(ls: seq<Lexeme>, end: seq<Filler>)
    requires GoodLexemes(ls) && GoodFillers(end)
    ensures Tokens(PrintLexemes(ls, end)) == TokensOf(ls)
  {
    if ls == [] {
      TokensOfFillers(end, "");
    } else {
      var rest := PrintLexemes(ls[1..], end);
      TokensOfLexemes(ls[1..], end);
      NextEnds(ls, end);
      TokensOfItem(ls[0], rest);
      TokensOfFillers(ls[0].gap, PrintItem(ls[0], rest));
      assert TokensOf(ls) == [TokenOf(ls[0])] + TokensOf(ls[1..]);
    }
  }

  // ----- Modules

  /** `key=value`, each in any spelling. */
  datatype Setting = Setting(key: Lexeme, equals: Lexeme, value: Lexeme)

  datatype Login = Login(name: Lexeme, flag: Lexeme, settings: seq<Setting>, semicolon: Lexeme)

  predicate IsSetting(s: Setting) {
    s.key.Named? && s.equals.Sign? && s.equals.c == '=' && s.value.Named?
  }

  /** The control flags, in any case. */
  predicate ControlFlag(flag: string) {
    || SameIgnoringCase(flag, "required") || SameIgnoringCase(flag, "requisite")
    || SameIgnoringCase(flag, "sufficient") || SameIgnoringCase(flag, "optional")
  }

  predicate IsLogin(m: Login) {
    && m.name.Named? && m.flag.Named? && ControlFlag(m.flag.text)
    && (forall i :: 0 <= i < |m.settings| ==> IsSetting(m.settings[i]))
    && m.semicolon.Sign? && m.semicolon.c == ';'
  }

  function SettingsLexemes(settings: seq<Setting>, rest: seq<Lexeme>): seq<Lexeme> {
    if settings == [] then rest
    else [settings[0].key, settings[0].equals, settings[0].value] + SettingsLexemes(settings[1..], rest)
  }

  function LoginLexemes(ms: seq<Login>): seq<Lexeme> {
    if ms == [] then []
    else [ms[0].name, ms[0].flag] + SettingsLexemes(ms[0].settings, [ms[0].semicolon] + LoginLexemes(ms[1..]))
  }

  function MapOf(settings: seq<Setting>, m: map<string, string>): map<string, string>
    requires forall i :: 0 <= i < |settings| ==> IsSetting(settings[i])
  {
    if settings == [] then m
    else
      var s := settings[0];
      assert IsSetting(s);
      MapOf(settings[1..], m[s.key.text := s.value.text])
  }

  function EntryOf(m: Login): Entry
    requires IsLogin(m)
  {
    Entry(m.name.text, MapOf(m.settings, map[]))
  }

  lemma FlagIsLower(s: string)
    requires s == "required" || s == "requisite" || s == "sufficient" || s == "optional"
    ensures Lower(s) == s
  {
    AlreadyLower(s);
  }

  lemma FlagIs(flag: string, s: string)
    requires s == "required" || s == "requisite" || s == "sufficient" || s == "optional"
    ensures Lower(flag) == s <==> SameIgnoringCase(flag, s)
  {
    FlagIsLower(s);
    LowerExactly(flag, s);
  }

  /** A flag is accepted exactly when it is one of the four, in any case. */
  lemma {:induction false} FlagsExactly(flag: string)
    ensures IsFlag(flag) <==> ControlFlag(flag)
  {
    FlagIs(flag, "required");
    FlagIs(flag, "requisite");
    FlagIs(flag, "sufficient");
    FlagIs(flag, "optional");
  }

  lemma OptionsStep(tokens: seq<Token>, m: map<string, string>, key: string, value: string, rest: seq<Token>)
    requires |tokens| >= 3 && tokens[3..] == rest && tokens[1] == Char('=')
    requires Sval(tokens[0]) == Some(key) && Sval(tokens[2]) == Some(value)
    ensures Options(tokens, m) == Options(rest, m[key := value])
  {
  }

  lemma {:induction false} OptionsOfSettings(settings: seq<Setting>, m: map<string, string>, rest: seq<Lexeme>)
    requires forall i :: 0 <= i < |settings| ==> IsSetting(settings[i])
    ensures Options(TokensOf(SettingsLexemes(settings, rest)), m) == Options(TokensOf(rest), MapOf(settings, m))
  {
    if settings != [] {
      var s := settings[0];
      var others := SettingsLexemes(settings[1..], rest);
      var tokens := TokensOf(SettingsLexemes(settings, rest));
      assert tokens[3..] == TokensOf(others);
      assert tokens[0] == TokenOf(s.key) && tokens[1] == TokenOf(s.equals) && tokens[2] == TokenOf(s.value);
      OptionsStep(tokens, m, s.key.text, s.value.text, TokensOf(others));
      OptionsOfSettings(settings[1..], m[s.key.text := s.value.text], rest);
    }
  }

  function EntriesOf(ms: seq<Login>): (es: seq<Entry>)
    requires forall i :: 0 <= i < |ms| ==> IsLogin(ms[i])
    ensures |es| == |ms|
  {
    if ms == [] then [] else [EntryOf(ms[0])] + EntriesOf(ms[1..])
  }

  lemma {:induction false} EntriesOfLogins(ms: seq<Login>)
    requires forall i :: 0 <= i < |ms| ==> IsLogin(ms[i])
    ensures Entries(TokensOf(LoginLexemes(ms))) == Ok(EntriesOf(ms))
  {
    if ms != [] {
      EntriesOfLogins(ms[1..]);
      FirstEntry(ms[0], LoginLexemes(ms[1..]));
    }
  }

  lemma FirstEntry(m: Login, others: seq<Lexeme>)
    requires IsLogin(m) && Entries(TokensOf(others)).Ok?
    ensures Entries(TokensOf([m.name, m.flag] + SettingsLexemes(m.settings, [m.semicolon] + others)))
            == Ok([EntryOf(m)] + Entries(TokensOf(others)).value)
  {
    var settings := SettingsLexemes(m.settings, [m.semicolon] + others);
    var tokens := TokensOf([m.name, m.flag] + settings);
    assert tokens[0] == TokenOf(m.name) && tokens[1] == TokenOf(m.flag) && tokens[2..] == TokensOf(settings);
    FlagsExactly(m.flag.text);
    OptionsOfSettings(m.settings, map[], [m.semicolon] + others);
    var end := TokensOf([m.semicolon] + others);
    assert end[0] == Char(';') && end[1..] == TokensOf(others);
  }

  /**
    Login modules in any spelling, with any white space and comments between their tokens, are read as
    themselves; one module is accepted, and any other number refused with its count.
   */
  lemma {:induction false} ParsePrint(ms: seq<Login>, end: seq<Filler>)
    requires (forall i :: 0 <= i < |ms| ==> IsLogin(ms[i])) && GoodLexemes(LoginLexemes(ms)) && GoodFillers(end)
    ensures Parse(PrintLexemes(LoginLexemes(ms), end))
            == if |ms| == 1 then Ok(EntryOf(ms[0])) else Err(ModuleCount(|ms|))
  {
    TokensOfLexemes(LoginLexemes(ms), end);
    EntriesOfLogins(ms);
  }

  /** A number is no value: the first setting with one is refused by its key. */
  lemma {:induction false} NumberIsNoValue(name: Lexeme, flag: Lexeme, settings: seq<Setting>, bad: Setting,
                                           rest: seq<Lexeme>, end: seq<Filler>)
    requires name.Named? && flag.Named? && ControlFlag(flag.text)
    requires forall i :: 0 <= i < |settings| ==> IsSetting(settings[i])
    requires bad.key.Named? && bad.equals.Sign? && bad.equals.c == '=' && bad.value.Counted?
    requires var ls := [name, flag] + SettingsLexemes(settings, [bad.key, bad.equals, bad.value] + rest);
             GoodLexemes(ls) && GoodFillers(end)
    ensures var ls := [name, flag] + SettingsLexemes(settings, [bad.key, bad.equals, bad.value] + rest);
            Parse(PrintLexemes(ls, end)) == Err(NoValue(bad.key.text))
  {
    var all := SettingsLexemes(settings, [bad.key, bad.equals, bad.value] + rest);
    var ls := [name, flag] + all;
    TokensOfLexemes(ls, end);
    assert TokensOf(ls) == [TokenOf(name), TokenOf(flag)] + TokensOf(all);
    FlagsExactly(flag.text);
    NumberRefused(settings, bad, rest);
    RefusedBecause(TokenOf(name), TokenOf(flag), TokensOf(all));
  }

  lemma NumberRefused(settings: seq<Setting>, bad: Setting, rest: seq<Lexeme>)
    requires forall i :: 0 <= i < |settings| ==> IsSetting(settings[i])
    requires bad.key.Named? && bad.equals.Sign? && bad.equals.c == '=' && bad.value.Counted?
    ensures Options(TokensOf(SettingsLexemes(settings, [bad.key, bad.equals, bad.value] + rest)), map[])
            == Err(NoValue(bad.key.text))
  {
    var last := [bad.key, bad.equals, bad.value] + rest;
    OptionsOfSettings(settings, map[], last);
    NumberFirst(TokensOf(last), bad.key.text, MapOf(settings, map[]));
  }

  lemma NumberFirst(tokens: seq<Token>, key: string, m: map<string, string>)
    requires |tokens| >= 3 && Sval(tokens[0]) == Some(key) && tokens[2] == Number
    ensures Options(tokens, m) == Err(NoValue(key))
  {
  }

  // ----- Every entry

  lemma SetThenAdd(start: map<string, string>, m: map<string, string>, key: string)
    requires key in m
    ensures start[key := m[key]] + (m - {key}) == start + m
  {
  }

  /** A quoted text after nothing. */
  function Plainly(text: string): Lexeme {
    Named([], text, Double)
  }

  predicate IsQuoted(s: Setting) {
    IsSetting(s) && s == Setting(Plainly(s.key.text), Sign([], '='), Plainly(s.value.text))
  }

  lemma {:induction false} Enumerate(m: map<string, string>) returns (settings: seq<Setting>)
    ensures forall i :: 0 <= i < |settings| ==> IsSetting(settings[i]) && IsQuoted(settings[i])
    ensures forall start: map<string, string> :: MapOf(settings, start) == start + m
    decreases |m|
  {
    if m == map[] {
      settings := [];
      assert forall start: map<string, string> :: start + m == start;
    } else {
      var key :| key in m;
      var rest := m - {key};
      assert rest.Keys == m.Keys - {key};
      var others := Enumerate(rest);
      var first := Setting(Plainly(key), Sign([], '='), Plainly(m[key]));
      settings := [first] + others;
      forall start: map<string, string>
        ensures MapOf(settings, start) == start + m
      {
        assert settings[1..] == others;
        SetThenAdd(start, m, key);
      }
    }
  }

  predicate NeverPlain(ls: seq<Lexeme>) {
    forall i :: 0 <= i < |ls| ==>
      ls[i] == Sign([], '=') || ls[i] == Sign([], ';') || (ls[i].Named? && ls[i].gap == [] && ls[i].style == Double)
  }

  lemma NeverPlainIsGood(ls: seq<Lexeme>)
    requires NeverPlain(ls)
    ensures GoodLexemes(ls)
  {
  }

  lemma {:induction false} SettingsNeverPlain(settings: seq<Setting>)
    requires forall i :: 0 <= i < |settings| ==> IsQuoted(settings[i])
    ensures NeverPlain(SettingsLexemes(settings, [Sign([], ';')]))
  {
    if settings != [] {
      assert IsQuoted(settings[0]);
      SettingsNeverPlain(settings[1..]);
    }
  }

  /** Every module name with every option map is what some text is read as. */
  lemma {:induction false} EveryEntryIsRead(entry: Entry, flag: string) returns (text: string)
    requires ControlFlag(flag)
    ensures Parse(text) == Ok(entry)
  {
    var settings := Enumerate(entry.options);
    var m := Login(Plainly(entry.name), Plainly(flag), settings, Sign([], ';'));
    var ls := LoginLexemes([m]);
    SettingsNeverPlain(settings);
    assert [m][1..] == [] && [Sign([], ';')] + LoginLexemes([]) == [Sign([], ';')];
    assert ls == [m.name, m.flag] + SettingsLexemes(settings, [Sign([], ';')]);
    NeverPlainIsGood(ls);
    ParsePrint([m], []);
    text := PrintLexemes(ls, []);
    assert MapOf(settings, map[]) == map[] + entry.options == entry.options;
  }
}
