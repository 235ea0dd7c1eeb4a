/** The logical lines of a `java.util.Properties` file: comments, blank lines and continuations. */
module LineReader {
  import opened Text

  predicate IsBlank(c: char) {
    c == ' ' || c == '\t' || c == '\U{000C}'
  }

  /**
    The scanner between two characters. `comment` and `afterCr` stand for the inner loops of the
    code: a comment is being skipped to its end of line, and a line feed that follows the carriage
    return of a continuation belongs to it.
   */
  datatype Scan = Scan(lines: seq<string>, line: string, skipBlank: bool, continued: bool, backslash: bool,
                       comment: bool, afterCr: bool)

  const START: Scan := Scan([], "", true, false, false, false, false)

  function DropLast(s: string): string
    requires s != ""
  {
    s[..|s| - 1]
  }

  /** The backslash flag after `text`, from `backslash` before it. */
  function BackslashAfter(backslash: bool, text: string): bool
    decreases |text|
  {
    if text == "" then backslash else BackslashAfter(text[0] == '\\' && !backslash, text[1..])
  }

  /** A character that is neither skipped nor inside a comment. */
  function Take(s: Scan, c: char): Scan {
    if s.line == "" && (c == '#' || c == '!') then s.(comment := true, skipBlank := true)
    else if !IsEol(c) then s.(line := s.line + [c], backslash := c == '\\' && !s.backslash)
    else if s.line == "" then s.(skipBlank := true)
    else if s.backslash then
      s.(line := DropLast(s.line), skipBlank := true, continued := true, backslash := false, afterCr := c == '\r')
    else s.(lines := s.lines + [s.line], line := "", skipBlank := true)
  }

  function Step(s: Scan, c: char): Scan {
    if s.comment && !IsEol(c) then s
    else if s.afterCr && c == '\n' then s.(afterCr := false)
    else
      var t := s.(comment := false, afterCr := false);
      if !t.skipBlank then Take(t, c)
      else if IsBlank(c) || (!t.continued && IsEol(c)) then t
      else Take(t.(skipBlank := false, continued := false), c)
  }

  function Run(s: Scan, text: string): Scan
    decreases |text|
  {
    if text == "" then s else Run(Step(s, text[0]), text[1..])
  }

  function Finish(s: Scan): seq<string> {
    if s.line == "" then s.lines else s.lines + [if s.backslash then DropLast(s.line) else s.line]
  }

  function Lines(text: string): seq<string> {
    Finish(Run(START, text))
  }

  // ----- The loop

  lemma AfterCrIgnored(s: Scan, text: string)
    requires !s.comment && (text == "" || text[0] != '\n')
    ensures Finish(Run(s.(afterCr := true), text)) == Finish(Run(s.(afterCr := false), text))
  {
  }

  /** Skips the rest of a comment line. */
  method SkipComment(text: string, from: nat, ghost s: Scan) returns (i: nat)
    requires from <= |text| && s.comment && !s.afterCr
    ensures from <= i <= |text|
    ensures Finish(Run(s.(comment := false), text[i..])) == Finish(Run(s, text[from..]))
  {
    i := from;
    while i < |text| && !IsEol(text[i])
      invariant from <= i <= |text|
      invariant Run(s, text[i..]) == Run(s, text[from..])
    {
      i := i + 1;
    }
  }

  /** `logical_lines`. */
  method LogicalLines(text: string) returns (lines: seq<string>)
    ensures lines == Lines(text)
  {
    lines := [];
    var line: string := "";
    var skipBlank, continued, backslash := true, false, false;
    var i := 0;
    while i < |text|
      invariant 0 <= i <= |text|
      invariant Finish(Run(Scan(lines, line, skipBlank, continued, backslash, false, false), text[i..])) == Lines(text)
      decreases |text| - i
    {
      var c := text[i];
      i := i + 1;
      if skipBlank {
        if IsBlank(c) || (!continued && IsEol(c)) {
          continue;
        }
        skipBlank := false;
        continued := false;
      }
      if line == "" && (c == '#' || c == '!') {
        skipBlank := true;
        assert Finish(Run(Scan(lines, line, true, continued, backslash, true, false), text[i..])) == Lines(text);
        i := SkipComment(text, i, Scan(lines, line, true, continued, backslash, true, false));
        continue;
      }
      if !IsEol(c) {
        line := line + [c];
        backslash := c == '\\' && !backslash;
        continue;
      }
      if line == "" {
        skipBlank := true;
        continue;
      }
      if backslash {
        line := DropLast(line);
        skipBlank := true;
        continued := true;
        backslash := false;
        if c == '\r' {
          if i < |text| && text[i] == '\n' {
            i := i + 1;
          } else {
            AfterCrIgnored(Scan(lines, line, skipBlank, continued, backslash, false, false), text[i..]);
          }
        }
      } else {
        lines := lines + [line];
        line := "";
        skipBlank := true;
      }
    }
    if line != "" {
      if backslash {
        line := DropLast(line);
      }
      lines := lines + [line];
    }
  }

  // ----- Two files in one text

  /** What holds between any two characters. */
  predicate Inv(s: Scan) {
    && (s.skipBlank ==> !s.backslash)
    && (s.skipBlank && !s.continued ==> s.line == "")
    && (!s.skipBlank ==> s.line != "")
    && (s.comment ==> s.skipBlank && !s.continued)
    && (s.afterCr || s.continued ==> s.skipBlank)
    && (s.afterCr ==> s.continued)
  }

  lemma {:induction false} RunInv(s: Scan, text: string)
    requires Inv(s)
    ensures Inv(Run(s, text))
    decreases |text|
  {
    if text != "" {
      RunInv(Step(s, text[0]), text[1..]);
    }
  }

  lemma {:induction false} RunConcat(s: Scan, a: string, b: string)
    ensures Run(s, a + b) == Run(Run(s, a), b)
    decreases |a|
  {
    if a == "" {
      assert a + b == b;
    } else {
      assert (a + b)[1..] == a[1..] + b;
      RunConcat(Step(s, a[0]), a[1..], b);
    }
  }

  function Prepend(lines: seq<string>, s: Scan): Scan {
    s.(lines := lines + s.lines)
  }

  lemma TakePrepend(lines: seq<string>, s: Scan, c: char)
    ensures Take(Prepend(lines, s), c) == Prepend(lines, Take(s, c))
  {
    assert lines + (s.lines + [s.line]) == lines + s.lines + [s.line];
  }

  lemma StepPrepend(lines: seq<string>, s: Scan, c: char)
    ensures Step(Prepend(lines, s), c) == Prepend(lines, Step(s, c))
  {
    var t := s.(comment := false, afterCr := false);
    TakePrepend(lines, t, c);
    TakePrepend(lines, t.(skipBlank := false, continued := false), c);
  }

  lemma {:induction false} RunPrepend(lines: seq<string>, s: Scan, text: string)
    ensures Run(Prepend(lines, s), text) == Prepend(lines, Run(s, text))
    decreases |text|
  {
    if text != "" {
      StepPrepend(lines, s, text[0]);
      RunPrepend(lines, Step(s, text[0]), text[1..]);
    }
  }

  lemma LinesAfter(lines: seq<string>, text: string)
    ensures Finish(Run(START.(lines := lines), text)) == lines + Lines(text)
  {
    assert START.(lines := lines) == Prepend(lines, START);
    RunPrepend(lines, START, text);
    var s := Run(START, text);
    assert lines + (s.lines + [DropLastIf(s)]) == lines + s.lines + [DropLastIf(s)];
  }

  function DropLastIf(s: Scan): string {
    if s.backslash && s.line != "" then DropLast(s.line) else s.line
  }

  /** A continuation of an empty line goes on as a fresh start does. */
  lemma {:induction false} EmptyContinuation(lines: seq<string>, text: string)
    ensures Finish(Run(START.(lines := lines, continued := true), text)) == Finish(Run(START.(lines := lines), text))
    decreases |text|
  {
    if text != "" && IsBlank(text[0]) {
      EmptyContinuation(lines, text[1..]);
    }
  }

  /** The end of `text` still waits for a character: a line that a backslash continues. */
  predicate Pending(text: string) {
    var s := Run(START, text);
    s.line != "" && (s.backslash || s.afterCr)
  }

  /** A final backslash is pending, and so is one before a carriage return; a carriage return alone is not. */
  lemma {:induction false} PendingExamples()
    ensures Pending("k\\") && Pending("k\\\r") && !Pending("k\r")
  {
    assert "k\\"[1..] == "\\" && "\\"[1..] == "";
    assert "k\\\r"[1..] == "\\\r" && "\\\r"[1..] == "\r" && "\r"[1..] == "";
    assert "k\r"[1..] == "\r";
  }

  lemma {:induction false} SettledLineFeed(a: string, b: string)
    requires !Pending(a)
    ensures Lines(a + "\n" + b) == Lines(a) + Lines(b)
  {
    var s := Run(START, a);
    RunInv(START, a);
    assert a + "\n" + b == a + ("\n" + b);
    RunConcat(START, a, "\n" + b);
    assert ("\n" + b)[1..] == b;
    if s.afterCr {
      EmptyContinuation(s.lines, b);
      LinesAfter(s.lines, b);
    } else {
      assert Step(s, '\n') == START.(lines := Finish(s));
      LinesAfter(Finish(s), b);
    }
  }

  lemma {:induction false} PendingLineFeed(a: string)
    requires Pending(a)
    ensures Lines(a + "\n" + "x") != Lines(a) + Lines("x")
  {
    var s := Run(START, a);
    RunInv(START, a);
    assert a + "\n" + "x" == a + "\nx";
    RunConcat(START, a, "\nx");
    assert "\nx"[1..] == "x" && "x"[1..] == "";
    var t := Step(Step(s, '\n'), 'x');
    assert Run(s, "\nx") == t;
    assert t.lines == s.lines && t.line != "";
    assert Run(START, "x") == Step(START, 'x');
    assert |Lines("x")| == 1 && |Lines(a)| == |s.lines| + 1;
  }

  /** A line feed between two texts keeps them apart exactly when the first does not end pending. */
  lemma {:induction false} LineFeedSeparates(a: string)
    ensures (forall b: string :: Lines(a + "\n" + b) == Lines(a) + Lines(b)) <==> !Pending(a)
  {
    if Pending(a) {
      PendingLineFeed(a);
    } else {
      forall b: string
        ensures Lines(a + "\n" + b) == Lines(a) + Lines(b)
      {
        SettledLineFeed(a, b);
      }
    }
  }

  /** A text whose last character is neither a backslash nor a carriage return is never pending. */
  lemma {:induction false} LastCharacterSettles(a: string)
    requires a == "" || (a[|a| - 1] != '\\' && a[|a| - 1] != '\r')
    ensures !Pending(a)
  {
    if a != "" {
      var a', c := a[..|a| - 1], a[|a| - 1];
      assert a == a' + [c];
      RunConcat(START, a', [c]);
      RunInv(START, a');
      assert [c][1..] == "";
      assert Run(START, a) == Step(Run(START, a'), c);
    }
  }
}
