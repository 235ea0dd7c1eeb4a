/** The tokenizer and parser of `sasl.jaas.config`. */
module Jaas {
  import opened Wrappers
  import opened Text

  datatype Token = Word(text: string) | Quoted(text: string) | Number | Char(c: char)

  /** `StreamTokenizer.sval`. */
  function Sval(token: Token): Option<string> {
    match token
    case Word(text) => Some(text)
    case Quoted(text) => Some(text)
    case Number => None
    case Char(_) => None
  }

  // ----- Characters

  predicate IsOctal(c: char) { '0' <= c <= '7' }

  predicate IsWordStart(c: char) {
    'a' <= c <= 'z' || 'A' <= c <= 'Z' || c == '-' || c == '_' || c == '$' || c as int >= 0xA0
  }

  predicate IsWord(c: char) { IsWordStart(c) || IsDigit(c) || c == '.' }

  predicate IsNumeral(c: char) { IsDigit(c) || c == '.' }

  predicate NotEol(c: char) { !IsEol(c) }

  /** How many characters of `text` from the start satisfy `p`. */
  function Span(text: string, p: char -> bool): (n: nat)
    ensures n <= |text|
  {
    if text == "" || !p(text[0]) then 0 else 1 + Span(text[1..], p)
  }

  method ScanWhile(text: string, from: nat, p: char -> bool) returns (i: nat)
    requires from <= |text|
    ensures from <= i <= |text| && i == from + Span(text[from..], p)
    ensures text[i..] == text[from..][Span(text[from..], p)..]
  {
    i := from;
    while i < |text| && p(text[i])
      invariant from <= i <= |text|
      invariant Span(text[from..], p) == i - from + Span(text[i..], p)
    {
      i := i + 1;
    }
  }

  // ----- The tokenizer

  /** What follows a block comment whose last character so far was `previous`. */
  function AfterBlock(text: string, previous: char): (rest: string)
    ensures |rest| <= |text|
    decreases |text|
  {
    if text == "" then ""
    else if previous == '*' && text[0] == '/' then text[1..]
    else AfterBlock(text[1..], text[0])
  }

  function Escaped(c: char): char {
    if c == 'a' then '\U{0007}' else if c == 'b' then '\U{0008}' else if c == 'f' then '\U{000C}'
    else if c == 'n' then '\n' else if c == 'r' then '\r' else if c == 't' then '\t'
    else if c == 'v' then '\U{000B}' else c
  }

  function OctalValue(c: char): int
    requires IsOctal(c)
  {
    c as int - '0' as int
  }

  /** The code of an octal escape that starts with `text[0]`, and its length. */
  function Octal(text: string): (r: (int, nat))
    requires text != "" && IsOctal(text[0])
    ensures 0 <= r.0 < 256 && 1 <= r.1 <= |text|
  {
    var first := OctalValue(text[0]);
    if |text| < 2 || !IsOctal(text[1]) then (first, 1)
    else
      var second := first * 8 + OctalValue(text[1]);
      if text[0] > '3' || |text| < 3 || !IsOctal(text[2]) then (second, 2)
      else (second * 8 + OctalValue(text[2]), 3)
  }

  /** The character at the start of a quoted text, escapes resolved, and the length it takes. */
  function Resolve(text: string): (r: (char, nat))
    requires text != "" && (text[0] == '\\' ==> |text| > 1)
    ensures 1 <= r.1 <= |text|
  {
    if text[0] != '\\' then (text[0], 1)
    else if IsOctal(text[1]) then
      var (code, length) := Octal(text[1..]);
      (code as char, 1 + length)
    else (Escaped(text[1]), 2)
  }

  /** The value of a quoted string and what follows it. */
  function QuotedText(text: string, quote: char): (r: (string, string))
    ensures |r.1| <= |text|
    decreases |text|
  {
    if text == "" || IsEol(text[0]) then ("", text)
    else if text[0] == quote then ("", text[1..])
    else if text == "\\" then ("", "")
    else
      var (c, length) := Resolve(text);
      var (value, rest) := QuotedText(text[length..], quote);
      ([c] + value, rest)
  }

  /** The token at the start of `text`, if it is not blank or a comment there, and what follows. */
  function Next(text: string): (r: (seq<Token>, string))
    requires text != ""
    ensures |r.1| < |text|
  {
    var c, rest := text[0], text[1..];
    if c <= ' ' then ([], rest)
    else if c == '/' && rest != "" && rest[0] == '*' then ([], AfterBlock(rest[1..], '\0'))
    else if c == '/' && rest != "" && rest[0] == '/' then ([], rest[1..][Span(rest[1..], NotEol)..])
    else if c == '"' || c == '\'' then
      var (value, after) := QuotedText(rest, c);
      ([Quoted(value)], after)
    else if IsWordStart(c) then
      var n := Span(rest, IsWord);
      ([Word([c] + rest[..n])], rest[n..])
    else if IsNumeral(c) then ([Number], rest[Span(rest, IsNumeral)..])
    else ([Char(c)], rest)
  }

  function Tokens(text: string): seq<Token>
    decreases |text|
  {
    if text == "" then [] else Next(text).0 + Tokens(Next(text).1)
  }

  /** The loop over a block comment. */
  method SkipBlock(text: string, from: nat) returns (i: nat)
    requires from <= |text|
    ensures from <= i <= |text| && text[i..] == AfterBlock(text[from..], '\0')
  {
    i := from;
    var previous := '\0';
    while i < |text|
      invariant from <= i <= |text|
      invariant AfterBlock(text[i..], previous) == AfterBlock(text[from..], '\0')
    {
      var c := text[i];
      i := i + 1;
      if previous == '*' && c == '/' {
        return;
      }
      previous := c;
    }
  }

  function Before(out: string, r: (string, string)): (string, string) {
    (out + r.0, r.1)
  }

  lemma BeforeNothing(r: (string, string))
    ensures Before("", r) == r
  {
    assert "" + r.0 == r.0;
  }

  lemma BeforeCons(out: string, c: char, r: (string, string))
    ensures Before(out, ([c] + r.0, r.1)) == Before(out + [c], r)
  {
    assert out + ([c] + r.0) == out + [c] + r.0;
  }

  /** The quoted string goes on at the start of `text`. */
  predicate Continues(text: string, quote: char) {
    text != "" && !IsEol(text[0]) && text[0] != quote && text != "\\"
  }

  lemma QuotedStep(out: string, text: string, quote: char)
    requires Continues(text, quote)
    ensures Before(out, QuotedText(text, quote))
            == Before(out + [Resolve(text).0], QuotedText(text[Resolve(text).1..], quote))
  {
    BeforeCons(out, Resolve(text).0, QuotedText(text[Resolve(text).1..], quote));
  }

  lemma QuotedEnd(out: string, text: string, quote: char)
    requires !Continues(text, quote)
    ensures Before(out, QuotedText(text, quote))
            == (out, if text != "" && !IsEol(text[0]) then text[1..] else text)
  {
    assert out + "" == out;
    assert text == "\\" ==> text[1..] == "";
  }

  /** `quoted`. */
  method ReadQuoted(text: string, from: nat, quote: char) returns (value: string, i: nat)
    requires from <= |text|
    ensures from <= i <= |text| && (value, text[i..]) == QuotedText(text[from..], quote)
  {
    value, i := "", from;
    ghost var rest := text[from..];
    ghost var whole := QuotedText(rest, quote);
    BeforeNothing(whole);
    while Continues(text[i..], quote)
      invariant from <= i <= |text| && rest == text[i..]
      invariant whole == Before(value, QuotedText(rest, quote))
      decreases |text| - i
    {
      var (c, length) := Resolve(text[i..]);
      QuotedStep(value, rest, quote);
      rest := rest[length..];
      value := value + [c];
      i := i + length;
    }
    QuotedEnd(value, rest, quote);
    if i < |text| && !IsEol(text[i]) {
      i := i + 1;
    }
  }

  /** One turn of the tokenizer's loop. */
  method NextToken(text: string, from: nat) returns (tokens: seq<Token>, i: nat)
    requires from < |text|
    ensures from < i <= |text| && (tokens, text[i..]) == Next(text[from..])
  {
    var c := text[from];
    ghost var rest := text[from..][1..];
    tokens, i := [], from + 1;
    assert rest == text[i..];
    if c <= ' ' {
      return;
    }
    if c == '/' && i < |text| && text[i] == '*' {
      assert rest[1..] == text[i + 1..];
      i := SkipBlock(text, i + 1);
    } else if c == '/' && i < |text| && text[i] == '/' {
      assert rest[1..] == text[i + 1..];
      i := ScanWhile(text, i + 1, NotEol);
    } else if c == '"' || c == '\'' {
      var value: string;
      value, i := ReadQuoted(text, i, c);
      tokens := [Quoted(value)];
    } else if IsWordStart(c) {
      var end := ScanWhile(text, i, IsWord);
      assert rest[..end - i] == text[i..end];
      tokens, i := [Word([c] + text[i..end])], end;
    } else if IsNumeral(c) {
      i := ScanWhile(text, i, IsNumeral);
      tokens := [Number];
    } else {
      tokens := [Char(c)];
    }
  }

  lemma TokensStep(text: string, next: seq<Token>, rest: string)
    requires text != "" && Next(text) == (next, rest)
    ensures Tokens(text) == next + Tokens(rest)
  {
  }

  /** `jaas_tokens`. */
  method JaasTokens(text: string) returns (tokens: seq<Token>)
    ensures tokens == Tokens(text)
  {
    tokens := [];
    var i := 0;
    ghost var rest, whole := text, Tokens(text);
    assert text[0..] == text;
    while i < |text|
      invariant 0 <= i <= |text| && rest == text[i..]
      invariant whole == tokens + Tokens(rest)
    {
      var next, end := NextToken(text, i);
      TokensStep(rest, next, text[end..]);
      rest := text[end..];
      assert tokens + (next + Tokens(rest)) == tokens + next + Tokens(rest);
      tokens, i := tokens + next, end;
    }
    assert tokens + [] == tokens;
  }

  // ----- The parser

  datatype Error =
    | NoModule
    | NoFlag
    | FlagNotText
    | BadFlag(flag: string)
    | NoValue(key: string)
    | NotTerminated
    | ModuleCount(count: nat)

  /** A login module with its options. */
  datatype Entry = Entry(name: string, options: map<string, string>)

  predicate IsFlag(flag: string) {
    Lower(flag) in {"required", "requisite", "sufficient", "optional"}
  }

  /** The options up to the semicolon, added to `options`, and the tokens after it. */
  function Options(tokens: seq<Token>, options: map<string, string>)
    : (r: Result<(map<string, string>, seq<Token>), Error>)
    ensures r.Ok? ==> |r.value.1| < |tokens|
    decreases |tokens|
  {
    if tokens == [] then Err(NotTerminated)
    else if tokens[0] == Char(';') then Ok((options, tokens[1..]))
    else
      var key := if Sval(tokens[0]).Some? then Sval(tokens[0]).value else "";
      if |tokens| < 3 || tokens[1] != Char('=') || Sval(tokens[2]).None? then Err(NoValue(key))
      else Options(tokens[3..], options[key := Sval(tokens[2]).value])
  }

  /** The login modules of a token sequence. */
  function Entries(tokens: seq<Token>): Result<seq<Entry>, Error>
    decreases |tokens|
  {
    if tokens == [] then Ok([])
    else if Sval(tokens[0]).None? then Err(NoModule)
    else if |tokens| < 2 then Err(NoFlag)
    else if Sval(tokens[1]).None? then Err(FlagNotText)
    else if !IsFlag(Sval(tokens[1]).value) then Err(BadFlag(Sval(tokens[1]).value))
    else
      var options := Options(tokens[2..], map[]);
      if options.Err? then Err(options.error)
      else
        var others := Entries(options.value.1);
        if others.Err? then others
        else Ok([Entry(Sval(tokens[0]).value, options.value.0)] + others.value)
  }

  function Parse(text: string): Result<Entry, Error> {
    var entries := Entries(Tokens(text));
    if entries.Err? then Err(entries.error)
    else if |entries.value| == 1 then Ok(entries.value[0])
    else Err(ModuleCount(|entries.value|))
  }

  /** Why tokens are refused, in the order in which they are read. */
  lemma {:induction false} RefusedBecause(t: Token, u: Token, rest: seq<Token>)
    ensures t.Number? || t.Char? ==> Entries([t] + rest) == Err(NoModule)
    ensures t.Word? || t.Quoted? ==> Entries([t]) == Err(NoFlag)
    ensures (t.Word? || t.Quoted?) && (u.Number? || u.Char?) ==> Entries([t, u] + rest) == Err(FlagNotText)
    ensures (t.Word? || t.Quoted?) && (u.Word? || u.Quoted?) && !IsFlag(u.text) ==>
              Entries([t, u] + rest) == Err(BadFlag(u.text))
    ensures (t.Word? || t.Quoted?) && (u.Word? || u.Quoted?) && IsFlag(u.text) && Options(rest, map[]).Err? ==>
              Entries([t, u] + rest) == Err(Options(rest, map[]).error)
  {
    assert ([t, u] + rest)[2..] == rest;
  }

  /** Options end with a semicolon, and each is a key, an equals sign and a text. */
  lemma {:induction false} OptionRefusedBecause(t: Token, u: Token, v: Token, rest: seq<Token>, m: map<string, string>)
    requires t != Char(';')
    ensures Options([], m) == Err(NotTerminated)
    ensures var key := if t.Word? || t.Quoted? then t.text else "";
            && Options([t], m) == Err(NoValue(key)) && Options([t, u], m) == Err(NoValue(key))
            && (u != Char('=') || v.Number? || v.Char? ==> Options([t, u, v] + rest, m) == Err(NoValue(key)))
  {
  }

  /** The inner loop of `parse_jaas`: the options of one module. */
  method ReadOptions(tokens: seq<Token>, from: nat) returns (r: Result<(map<string, string>, nat), Error>)
    requires from <= |tokens|
    ensures r.Ok? ==>
              from < r.value.1 <= |tokens| && Options(tokens[from..], map[]) == Ok((r.value.0, tokens[r.value.1..]))
    ensures r.Err? ==> Options(tokens[from..], map[]) == Err(r.error)
  {
    var options := map[];
    var i := from;
    while i < |tokens|
      invariant from <= i <= |tokens|
      invariant Options(tokens[from..], map[]) == Options(tokens[i..], options)
    {
      ghost var rest := tokens[i..];
      if tokens[i] == Char(';') {
        assert rest[1..] == tokens[i + 1..];
        return Ok((options, i + 1));
      }
      var key := if Sval(tokens[i]).Some? then Sval(tokens[i]).value else "";
      if i + 2 >= |tokens| || tokens[i + 1] != Char('=') || Sval(tokens[i + 2]).None? {
        return Err(NoValue(key));
      }
      assert rest[3..] == tokens[i + 3..];
      options := options[key := Sval(tokens[i + 2]).value];
      i := i + 3;
    }
    return Err(NotTerminated);
  }

  function AfterEntries(entries: seq<Entry>, r: Result<seq<Entry>, Error>): Result<seq<Entry>, Error> {
    if r.Ok? then Ok(entries + r.value) else r
  }

  /** The outer loop of `parse_jaas`: the modules. */
  method ReadEntries(tokens: seq<Token>) returns (r: Result<seq<Entry>, Error>)
    ensures r == Entries(tokens)
  {
    var entries: seq<Entry> := [];
    var i := 0;
    assert tokens[0..] == tokens;
    assert Entries(tokens).Ok? ==> [] + Entries(tokens).value == Entries(tokens).value;
    while i < |tokens|
      invariant 0 <= i <= |tokens|
      invariant Entries(tokens) == AfterEntries(entries, Entries(tokens[i..]))
    {
      ghost var rest := tokens[i..];
      var name := Sval(tokens[i]);
      if name.None? {
        return Err(NoModule);
      }
      if i + 1 == |tokens| {
        return Err(NoFlag);
      }
      var flag := Sval(tokens[i + 1]);
      if flag.None? {
        return Err(FlagNotText);
      }
      if !IsFlag(flag.value) {
        return Err(BadFlag(flag.value));
      }
      assert rest[2..] == tokens[i + 2..];
      var options := ReadOptions(tokens, i + 2);
      if options.Err? {
        return Err(options.error);
      }
      var entry := Entry(name.value, options.value.0);
      ghost var others := Entries(tokens[options.value.1..]);
      assert others.Ok? ==> entries + ([entry] + others.value) == entries + [entry] + others.value;
      entries, i := entries + [entry], options.value.1;
    }
    assert entries + [] == entries;
    return Ok(entries);
  }

  /** `parse_jaas`. */
  method ParseJaas(text: string) returns (r: Result<Entry, Error>)
    ensures r == Parse(text)
  {
    var tokens := JaasTokens(text);
    var entries := ReadEntries(tokens);
    if entries.Err? {
      return Err(entries.error);
    }
    if |entries.value| == 1 {
      return Ok(entries.value[0]);
    }
    return Err(ModuleCount(|entries.value|));
  }
}
