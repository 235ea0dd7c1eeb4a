/** A file as a person lays it out, with comments, blank lines and continuations, and the lines that it holds. */
module LineLayout {
  import opened LineReader

  /** Spaces, tabs and form feeds. */
  predicate Indent(s: string) {
    forall i :: 0 <= i < |s| ==> s[i] == ' ' || s[i] == '\t' || s[i] == '\U{000C}'
  }

  predicate LineEnd(s: string) {
    s == "\n" || s == "\r" || s == "\r\n"
  }

  /** No line end inside. */
  predicate OneLine(s: string) {
    forall i :: 0 <= i < |s| ==> s[i] != '\r' && s[i] != '\n'
  }

  /** Part of a logical line: it is continued by a backslash and a line end, or ended by a line end. */
  datatype Piece = Piece(indent: string, text: string, end: string)

  datatype Item =
    | Blank(indent: string, end: string)
    | Comment(indent: string, mark: char, text: string, end: string)
    | Logical(first: Piece, others: seq<Piece>)

  predicate GoodPiece(p: Piece) {
    && Indent(p.indent) && OneLine(p.text) && LineEnd(p.end) && !BackslashAfter(false, p.text)
    && (p.text != "" ==> p.text[0] != ' ' && p.text[0] != '\t' && p.text[0] != '\U{000C}')
  }

  /** After a bare carriage return, a continuation line must not start with a line feed. */
  predicate Follows(p: Piece, q: Piece) {
    p.end == "\r" ==> q.indent + q.text != ""
  }

  predicate GoodOthers(p: Piece, others: seq<Piece>)
    decreases |others|
  {
    others == [] || (GoodPiece(others[0]) && Follows(p, others[0]) && GoodOthers(others[0], others[1..]))
  }

  predicate Good(item: Item) {
    match item
    case Blank(indent, end) => Indent(indent) && LineEnd(end)
    case Comment(indent, mark, text, end) =>
      Indent(indent) && (mark == '#' || mark == '!') && OneLine(text) && LineEnd(end)
    case Logical(first, others) =>
      && GoodPiece(first) && GoodOthers(first, others)
      && first.text != "" && first.text[0] != '#' && first.text[0] != '!'
  }

  /** A piece and those that continue it. */
  function PrintPieces(p: Piece, others: seq<Piece>): string
    decreases |others|, 1
  {
    p.indent + (p.text + PrintRest(p, others))
  }

  /** What follows the text of a piece. */
  function PrintRest(p: Piece, others: seq<Piece>): string
    decreases |others|, 0
  {
    if others == [] then p.end else "\\" + (p.end + PrintPieces(others[0], others[1..]))
  }

  function PrintItem(item: Item): string {
    match item
    case Blank(indent, end) => indent + end
    case Comment(indent, mark, text, end) => indent + ([mark] + (text + end))
    case Logical(first, others) => PrintPieces(first, others)
  }

  function Print(items: seq<Item>): string {
    if items == [] then "" else PrintItem(items[0]) + Print(items[1..])
  }

  /** The text of a logical line, without indents and continuations. */
  function Joined(p: Piece, others: seq<Piece>): string {
    p.text + JoinedRest(others)
  }

  function JoinedRest(others: seq<Piece>): string {
    if others == [] then "" else others[0].text + JoinedRest(others[1..])
  }

  function LinesOfItem(item: Item): seq<string> {
    if item.Logical? then [Joined(item.first, item.others)] else []
  }

  /** The lines of the items: one for each logical line, none for comments and blank lines. */
  function LinesOf(items: seq<Item>): seq<string> {
    if items == [] then [] else LinesOfItem(items[0]) + LinesOf(items[1..])
  }

  // ----- The scanner on each part

  /** Before a line. */
  function Fresh(lines: seq<string>): Scan {
    START.(lines := lines)
  }

  /** In a line. */
  function Inside(lines: seq<string>, line: string, backslash: bool): Scan {
    Scan(lines, line, false, false, backslash, false, false)
  }

  /** After a continuation. */
  function Continued(lines: seq<string>, line: string, afterCr: bool): Scan {
    Scan(lines, line, true, true, false, false, afterCr)
  }

  lemma {:induction false} RunIndent(s: Scan, indent: string)
    requires s.skipBlank && !s.comment && Indent(indent)
    ensures Run(s, indent) == if indent == "" then s else s.(afterCr := false)
    decreases |indent|
  {
    if indent != "" {
      assert Step(s, indent[0]) == s.(afterCr := false);
      RunIndent(s.(afterCr := false), indent[1..]);
    }
  }

  lemma {:induction false} RunText(lines: seq<string>, line: string, backslash: bool, text: string)
    requires line != "" && OneLine(text)
    ensures Run(Inside(lines, line, backslash), text) == Inside(lines, line + text, BackslashAfter(backslash, text))
    decreases |text|
  {
    if text == "" {
      assert line + text == line;
    } else {
      var c := text[0];
      assert Step(Inside(lines, line, backslash), c) == Inside(lines, line + [c], c == '\\' && !backslash);
      RunText(lines, line + [c], c == '\\' && !backslash, text[1..]);
      assert line + [c] + text[1..] == line + text;
    }
  }

  lemma {:induction false} RunComment(s: Scan, text: string)
    requires s.comment && OneLine(text)
    ensures Run(s, text) == s
    decreases |text|
  {
    if text != "" {
      RunComment(s, text[1..]);
    }
  }

  lemma RunOne(s: Scan, c: char)
    ensures Run(s, [c]) == Step(s, c)
  {
    assert [c][1..] == "";
  }

  lemma RunTwo(s: Scan, c: char, d: char)
    ensures Run(s, [c, d]) == Step(Step(s, c), d)
  {
    assert [c, d][1..] == [d];
    RunOne(Step(s, c), d);
  }

  /** A line end before a line changes nothing. */
  lemma FreshEnd(lines: seq<string>, end: string)
    requires LineEnd(end)
    ensures Run(Fresh(lines), end) == Fresh(lines)
  {
    RunOne(Fresh(lines), '\n');
    RunOne(Fresh(lines), '\r');
    RunTwo(Fresh(lines), '\r', '\n');
  }

  lemma CommentEnd(lines: seq<string>, end: string)
    requires LineEnd(end)
    ensures Run(Fresh(lines).(comment := true), end) == Fresh(lines)
  {
    var s := Fresh(lines).(comment := true);
    RunOne(s, '\n');
    RunOne(s, '\r');
    RunTwo(s, '\r', '\n');
  }

  lemma InsideEnd(lines: seq<string>, line: string, end: string)
    requires line != "" && LineEnd(end)
    ensures Run(Inside(lines, line, false), end) == Fresh(lines + [line])
  {
    var s := Inside(lines, line, false);
    RunOne(s, '\n');
    RunOne(s, '\r');
    RunTwo(s, '\r', '\n');
  }

  lemma Continues(lines: seq<string>, line: string, end: string)
    requires line != "" && LineEnd(end)
    ensures Run(Inside(lines, line, false), "\\" + end) == Continued(lines, line, end == "\r")
  {
    var s := Inside(lines, line, false);
    RunConcat(s, "\\", end);
    RunOne(s, '\\');
    var t := Inside(lines, line + "\\", true);
    assert DropLast(line + "\\") == line;
    RunOne(t, '\n');
    RunOne(t, '\r');
    RunTwo(t, '\r', '\n');
  }

  // ----- A whole logical line

  /** The text of a piece goes to the line, whatever its first character is, once the line has begun. */
  lemma PieceText(lines: seq<string>, line: string, afterCr: bool, p: Piece)
    requires line != "" && GoodPiece(p) && (afterCr ==> p.indent + p.text != "")
    ensures var s := Continued(lines, line, afterCr);
            Run(s, p.indent + p.text)
            == if p.text != "" then Inside(lines, line + p.text, false)
               else s.(afterCr := afterCr && p.indent == "")
  {
    var s := Continued(lines, line, afterCr);
    RunConcat(s, p.indent, p.text);
    RunIndent(s, p.indent);
    if p.text != "" {
      var c, rest := p.text[0], p.text[1..];
      var t := if p.indent == "" then s else s.(afterCr := false);
      assert Step(t, c) == Inside(lines, line + [c], c == '\\');
      RunText(lines, line + [c], c == '\\', rest);
      assert line + [c] + rest == line + p.text;
    }
  }

  /** After an empty piece the line goes on as inside it. */
  lemma ContinuedGoesOn(lines: seq<string>, line: string, c: char)
    requires line != "" && (c == '\\' || c == '\n' || c == '\r')
    ensures Step(Continued(lines, line, false), c) == Step(Inside(lines, line, false), c)
  {
  }

  lemma ContinuedText(lines: seq<string>, line: string, text: string)
    requires line != "" && text != "" && (text[0] == '\\' || text[0] == '\n' || text[0] == '\r')
    ensures Run(Continued(lines, line, false), text) == Run(Inside(lines, line, false), text)
  {
    ContinuedGoesOn(lines, line, text[0]);
  }

  /** From the text of a piece to the end of its logical line. */
  lemma {:induction false} RunRest(lines: seq<string>, line: string, p: Piece, others: seq<Piece>)
    requires line != "" && LineEnd(p.end) && GoodOthers(p, others)
    ensures Run(Inside(lines, line, false), PrintRest(p, others)) == Fresh(lines + [line + JoinedRest(others)])
    decreases |others|, 1
  {
    if others == [] {
      assert line + "" == line;
      InsideEnd(lines, line, p.end);
    } else {
      var more := PrintPieces(others[0], others[1..]);
      assert PrintRest(p, others) == ("\\" + p.end) + more;
      RunConcat(Inside(lines, line, false), "\\" + p.end, more);
      Continues(lines, line, p.end);
      RunContinued(lines, line, p.end == "\r", others[0], others[1..]);
      assert Joined(others[0], others[1..]) == JoinedRest(others);
    }
  }

  lemma {:induction false} RunContinued(lines: seq<string>, line: string, afterCr: bool, p: Piece, others: seq<Piece>)
    requires line != "" && GoodPiece(p) && GoodOthers(p, others) && (afterCr ==> p.indent + p.text != "")
    ensures Run(Continued(lines, line, afterCr), PrintPieces(p, others)) == Fresh(lines + [line + Joined(p, others)])
    decreases |others|, 2
  {
    var s, rest := Continued(lines, line, afterCr), PrintRest(p, others);
    assert PrintPieces(p, others) == (p.indent + p.text) + rest;
    RunConcat(s, p.indent + p.text, rest);
    PieceText(lines, line, afterCr, p);
    RunRest(lines, line + p.text, p, others);
    AssocLine(line, p.text, JoinedRest(others));
    if p.text == "" {
      EmptyPiece(lines, line, p, others);
    }
  }

  lemma AssocLine(a: string, b: string, c: string)
    ensures (a + b) + c == a + (b + c)
  {
  }

  lemma EmptyPiece(lines: seq<string>, line: string, p: Piece, others: seq<Piece>)
    requires line != "" && p.text == "" && LineEnd(p.end)
    ensures line + p.text == line
    ensures Run(Continued(lines, line, false), PrintRest(p, others))
            == Run(Inside(lines, line, false), PrintRest(p, others))
  {
    RestStart(p, others);
    ContinuedText(lines, line, PrintRest(p, others));
  }

  lemma RestStart(p: Piece, others: seq<Piece>)
    requires LineEnd(p.end)
    ensures var rest := PrintRest(p, others); rest != "" && (rest[0] == '\\' || rest[0] == '\n' || rest[0] == '\r')
  {
  }

  lemma FirstText(lines: seq<string>, text: string)
    requires OneLine(text) && text != "" && text[0] != '#' && text[0] != '!'
    requires text[0] != ' ' && text[0] != '\t' && text[0] != '\U{000C}'
    ensures Run(Fresh(lines), text) == Inside(lines, text, BackslashAfter(false, text))
  {
    var c := text[0];
    assert Step(Fresh(lines), c) == Inside(lines, [c], c == '\\');
    RunText(lines, [c], c == '\\', text[1..]);
    assert [c] + text[1..] == text;
  }

  // ----- Items

  lemma RunItem(lines: seq<string>, item: Item)
    requires Good(item)
    ensures Run(Fresh(lines), PrintItem(item)) == Fresh(lines + LinesOfItem(item))
  {
    assert lines + [] == lines;
    match item
    case Blank(indent, end) =>
      RunConcat(Fresh(lines), indent, end);
      RunIndent(Fresh(lines), indent);
      FreshEnd(lines, end);
    case Comment(indent, mark, text, end) =>
      RunCommentLine(lines, indent, mark, text, end);
    case Logical(first, others) =>
      RunLogical(lines, first, others);
  }

  lemma RunLogical(lines: seq<string>, first: Piece, others: seq<Piece>)
    requires Good(Logical(first, others))
    ensures Run(Fresh(lines), PrintPieces(first, others)) == Fresh(lines + [Joined(first, others)])
  {
    var s, rest := Fresh(lines), PrintRest(first, others);
    RunConcat(s, first.indent, first.text + rest);
    RunIndent(s, first.indent);
    RunConcat(s, first.text, rest);
    FirstText(lines, first.text);
    RunRest(lines, first.text, first, others);
  }

  lemma RunCommentLine(lines: seq<string>, indent: string, mark: char, text: string, end: string)
    requires Good(Comment(indent, mark, text, end))
    ensures Run(Fresh(lines), indent + ([mark] + (text + end))) == Fresh(lines)
  {
    var s := Fresh(lines);
    RunConcat(s, indent, [mark] + (text + end));
    RunIndent(s, indent);
    RunConcat(s, [mark], text + end);
    RunOne(s, mark);
    var t := s.(comment := true);
    assert Step(s, mark) == t;
    RunConcat(t, text, end);
    RunComment(t, text);
    CommentEnd(lines, end);
  }

  lemma AssocLines(a: seq<string>, b: seq<string>, c: seq<string>)
    ensures (a + b) + c == a + (b + c)
  {
  }

  lemma {:induction false} RunItems(lines: seq<string>, items: seq<Item>)
    requires forall i :: 0 <= i < |items| ==> Good(items[i])
    ensures Run(Fresh(lines), Print(items)) == Fresh(lines + LinesOf(items))
    decreases |items|
  {
    if items == [] {
      assert lines + [] == lines;
    } else {
      var first, rest := LinesOfItem(items[0]), LinesOf(items[1..]);
      RunConcat(Fresh(lines), PrintItem(items[0]), Print(items[1..]));
      RunItem(lines, items[0]);
      RunItems(lines + first, items[1..]);
      AssocLines(lines, first, rest);
    }
  }

  /**
    Any file laid out so, with any indents, line ends, comments and continuations, holds exactly its
    logical lines.
   */
  lemma {:induction false} LinesOfLayout(items: seq<Item>)
    requires forall i :: 0 <= i < |items| ==> Good(items[i])
    ensures Lines(Print(items)) == LinesOf(items)
  {
    RunItems([], items);
    assert [] + LinesOf(items) == LinesOf(items);
  }

  /** A comment line is skipped before any text. */
  lemma {:induction false} CommentIsSkipped(indent: string, mark: char, text: string, end: string, rest: string)
    requires Good(Comment(indent, mark, text, end))
    ensures Lines(indent + ([mark] + (text + end)) + rest) == Lines(rest)
  {
    RunConcat(START, indent + ([mark] + (text + end)), rest);
    RunCommentLine([], indent, mark, text, end);
  }
}
